/**
 * The flat stock record that the data fetcher builds and the screener filters
 * (backend/api/services/data_fetcher.py, the `stock_dict` literal): a ticker,
 * a sector and 31 numeric columns, each always a finite number.
 */
module Records {
  import opened Wrappers

  /** The numeric columns of a stock record, in the order the record lists them. */
  datatype Metric =
    | Price
    | MarketCap
    | PegRatio
    | FcfYield
    | Roe
    | Roa
    | Revenue
    | OperatingIncome
    | NetIncome
    | Fcf
    | Eps
    | PeForward
    | PbRatio
    | PsRatio
    | EpsGrowth3y
    | RevenueGrowth3y
    | DebtEquity
    | Beta
    | DividendYield
    | PayoutRatio
    | DividendGrowth
    | AnalystRating
    | AnalystCount
    | PriceTarget
    | PriceTargetChange
    | Change1w
    | Change1m
    | Change6m
    | ChangeYtd
    | Change1y
    | Change3y

  /** Every numeric column once, in record order. */
  const Metrics: seq<Metric> := [
    Price, MarketCap, PegRatio, FcfYield, Roe, Roa,
    Revenue, OperatingIncome, NetIncome, Fcf, Eps, PeForward,
    PbRatio, PsRatio, EpsGrowth3y, RevenueGrowth3y, DebtEquity, Beta,
    DividendYield, PayoutRatio, DividendGrowth, AnalystRating, AnalystCount, PriceTarget,
    PriceTargetChange, Change1w, Change1m, Change6m, ChangeYtd, Change1y,
    Change3y
  ]

  /** The position of a column in `Metrics`. */
  function Slot(m: Metric): (i: nat)
    ensures i < |Metrics| && Metrics[i] == m
  {
    match m
    case Price => 0
    case MarketCap => 1
    case PegRatio => 2
    case FcfYield => 3
    case Roe => 4
    case Roa => 5
    case Revenue => 6
    case OperatingIncome => 7
    case NetIncome => 8
    case Fcf => 9
    case Eps => 10
    case PeForward => 11
    case PbRatio => 12
    case PsRatio => 13
    case EpsGrowth3y => 14
    case RevenueGrowth3y => 15
    case DebtEquity => 16
    case Beta => 17
    case DividendYield => 18
    case PayoutRatio => 19
    case DividendGrowth => 20
    case AnalystRating => 21
    case AnalystCount => 22
    case PriceTarget => 23
    case PriceTargetChange => 24
    case Change1w => 25
    case Change1m => 26
    case Change6m => 27
    case ChangeYtd => 28
    case Change1y => 29
    case Change3y => 30
  }

  /** The key under which the upstream JSON payload carries a column. */
  function JsonKey(m: Metric): string
  {
    match m
    case Price => "price"
    case MarketCap => "marketCap"
    case PegRatio => "pegRatio"
    case FcfYield => "fcfYield"
    case Roe => "roe"
    case Roa => "roa"
    case Revenue => "revenue"
    case OperatingIncome => "operatingIncome"
    case NetIncome => "netIncome"
    case Fcf => "fcf"
    case Eps => "eps"
    case PeForward => "peForward"
    case PbRatio => "pbRatio"
    case PsRatio => "psRatio"
    case EpsGrowth3y => "epsGrowth3Y"
    case RevenueGrowth3y => "revenueGrowth3Y"
    case DebtEquity => "debtEquity"
    case Beta => "beta"
    case DividendYield => "dividendYield"
    case PayoutRatio => "payoutRatio"
    case DividendGrowth => "dividendGrowth"
    case AnalystRating => "analystRatings"
    case AnalystCount => "analystCount"
    case PriceTarget => "priceTarget"
    case PriceTargetChange => "priceTargetChange"
    case Change1w => "ch1w"
    case Change1m => "ch1m"
    case Change6m => "ch6m"
    case ChangeYtd => "chYTD"
    case Change1y => "ch1y"
    case Change3y => "ch3y"
  }

  /** The DataFrame column name of a numeric column. */
  function ColumnName(m: Metric): string
  {
    match m
    case Price => "price"
    case MarketCap => "market_cap"
    case PegRatio => "peg_ratio"
    case FcfYield => "fcf_yield"
    case Roe => "roe"
    case Roa => "roa"
    case Revenue => "revenue"
    case OperatingIncome => "operating_income"
    case NetIncome => "net_income"
    case Fcf => "fcf"
    case Eps => "eps"
    case PeForward => "pe_forward"
    case PbRatio => "pb_ratio"
    case PsRatio => "ps_ratio"
    case EpsGrowth3y => "eps_growth_3y"
    case RevenueGrowth3y => "revenue_growth_3y"
    case DebtEquity => "debt_equity"
    case Beta => "beta"
    case DividendYield => "dividend_yield"
    case PayoutRatio => "payout_ratio"
    case DividendGrowth => "dividend_growth"
    case AnalystRating => "analyst_rating"
    case AnalystCount => "analyst_count"
    case PriceTarget => "price_target"
    case PriceTargetChange => "price_target_change"
    case Change1w => "change_1w"
    case Change1m => "change_1m"
    case Change6m => "change_6m"
    case ChangeYtd => "change_ytd"
    case Change1y => "change_1y"
    case Change3y => "change_3y"
  }

  /** One finite number per column of `Metrics`. */
  type Values = v: seq<real> | |v| == |Metrics| witness seq(31, _ => 0.0)

  /** One row of the stock DataFrame. */
  datatype Stock = Stock(ticker: string, sector: string, values: Values) {
    /** The value of a numeric column, `row[ColumnName(m)]`. */
    function Get(m: Metric): real
    {
      values[Slot(m)]
    }
  }

  /**
   * The stock DataFrame as its rows in index order. A frame built from no rows
   * has no columns at all, so selecting any column of the empty frame raises
   * `KeyError`.
   */
  type Frame = seq<Stock>

  /** Which column `sort_by` names: a numeric one, or one of the two text columns. */
  datatype SortKey = NumericKey(metric: Metric) | TickerKey | SectorKey

  /** The first column of `ms` whose DataFrame name is `name`. */
  function MetricNamed(name: string, ms: seq<Metric>): (r: Option<Metric>)
    ensures r.Some? ==> r.value in ms && ColumnName(r.value) == name
    ensures r.None? ==> forall m :: m in ms ==> ColumnName(m) != name
  {
    if ms == [] then None
    else if ColumnName(ms[0]) == name then Some(ms[0])
    else MetricNamed(name, ms[1..])
  }

  /** `name in df.columns` for a frame that has its columns, and which column that is. */
  function ColumnNamed(name: string): (r: Option<SortKey>)
    ensures r == Some(TickerKey) <==> name == "ticker"
    ensures r == Some(SectorKey) <==> name == "sector"
    ensures forall m :: r == Some(NumericKey(m)) ==> ColumnName(m) == name
    ensures r.None? <==> name != "ticker" && name != "sector" && forall m :: ColumnName(m) != name
  {
    if name == "ticker" then Some(TickerKey)
    else if name == "sector" then Some(SectorKey)
    else match MetricNamed(name, Metrics)
      case Some(m) => Some(NumericKey(m))
      case None =>
        assert forall m: Metric :: m in Metrics by {
          forall m: Metric ensures m in Metrics { assert Metrics[Slot(m)] == m; }
        }
        None
  }
}
