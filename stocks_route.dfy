/**
 * The `GET /api/stocks` handler: which filters a request registers on the
 * shared screener, the response it builds from the page and the count, and
 * the query validation the framework applies before the handler runs.
 */
module StocksRoute {
  import opened Wrappers
  import opened PyText
  import opened Records
  import opened Screener

  /** The query parameters of a request, after the framework has parsed them. */
  datatype Query = Query(
    page: int,
    ticker: Option<string>,
    sectors: Option<seq<string>>,
    minMarketCap: Option<real>, maxMarketCap: Option<real>,
    minDividendYield: Option<real>, maxDividendYield: Option<real>,
    minPeg: Option<real>, maxPeg: Option<real>,
    minPb: Option<real>, maxPb: Option<real>,
    minPe: Option<real>, maxPe: Option<real>,
    minEpsGrowth: Option<real>,
    minRevenueGrowth: Option<real>,
    minRoe: Option<real>,
    minRoa: Option<real>,
    sortBy: Option<string>,
    sortDesc: bool,
    limit: int)

  /** The JSON body the handler returns, or the framework's validation error. */
  datatype Reply =
    | Page(data: Frame, count: nat, totalCount: nat, totalPages: int, currentPage: int, lastUpdated: Option<string>)
    | Failure(message: string)
    | Rejected

  /** `str(ZeroDivisionError)` for an integer `//` by zero. */
  const ZeroDivisionText: string := "integer division or modulo by zero"

  /** The lower bound a query gives for a metric column, if any. */
  function MinBound(q: Query, m: Metric): Option<real>
  {
    match m
    case MarketCap => q.minMarketCap
    case DividendYield => q.minDividendYield
    case PegRatio => q.minPeg
    case PbRatio => q.minPb
    case PeForward => q.minPe
    case EpsGrowth3y => q.minEpsGrowth
    case RevenueGrowth3y => q.minRevenueGrowth
    case Roe => q.minRoe
    case Roa => q.minRoa
    case _ => None
  }

  /** The upper bound a query gives for a metric column, if any. */
  function MaxBound(q: Query, m: Metric): Option<real>
  {
    match m
    case MarketCap => q.maxMarketCap
    case DividendYield => q.maxDividendYield
    case PegRatio => q.maxPeg
    case PbRatio => q.maxPb
    case PeForward => q.maxPe
    case _ => None
  }

  /** The predicates a query asks for, one by one: a non-empty ticker or sector list, and every bound supplied. */
  predicate Requested(q: Query, p: Predicate)
  {
    match p
    case TickerContains(t) => q.ticker == Some(t) && t != ""
    case SectorIn(ss) => q.sectors == Some(ss) && ss != []
    case AtLeast(m, b) => MinBound(q, m) == Some(b)
    case AtMost(m, b) => MaxBound(q, m) == Some(b)
  }

  /** The ticker filter a query registers: one for a non-empty ticker. */
  function TickerPart(q: Query): seq<Predicate>
  {
    if q.ticker.Some? && q.ticker.value != "" then [TickerContains(q.ticker.value)] else []
  }

  /** The sector filter a query registers: one for a non-empty list of sectors. */
  function SectorPart(q: Query): seq<Predicate>
  {
    if q.sectors.Some? && q.sectors.value != [] then [SectorIn(q.sectors.value)] else []
  }

  /** The ticker and sector filters a query registers. */
  function TextPart(q: Query): seq<Predicate>
  {
    TickerPart(q) + SectorPart(q)
  }

  /** The two-sided range filters a query registers, in the order the handler registers them. */
  function ValuationPart(q: Query): seq<Predicate>
  {
    Range(MarketCap, q.minMarketCap, q.maxMarketCap)
      + Range(DividendYield, q.minDividendYield, q.maxDividendYield)
      + Range(PegRatio, q.minPeg, q.maxPeg)
      + Range(PbRatio, q.minPb, q.maxPb)
      + Range(PeForward, q.minPe, q.maxPe)
  }

  /** The minimum-only filters a query registers, in the order the handler registers them. */
  function GrowthPart(q: Query): seq<Predicate>
  {
    Range(EpsGrowth3y, q.minEpsGrowth, None)
      + Range(RevenueGrowth3y, q.minRevenueGrowth, None)
      + Range(Roe, q.minRoe, None)
      + Range(Roa, q.minRoa, None)
  }

  /** The predicate list the handler registers, in the order it registers them. */
  function Registered(q: Query): seq<Predicate>
  {
    TextPart(q) + ValuationPart(q) + GrowthPart(q)
  }

  /** The predicates a pair of bounds registers are exactly the bounds supplied. */
  lemma RangeMembers(m: Metric, lo: Option<real>, hi: Option<real>, p: Predicate)
    ensures p in Range(m, lo, hi) <==>
              || (p.AtLeast? && p.metric == m && lo == Some(p.bound))
              || (p.AtMost? && p.metric == m && hi == Some(p.bound))
  {
    var r := Range(m, lo, hi);
    var low := if lo.Some? then [AtLeast(m, lo.value)] else [];
    var high := if hi.Some? then [AtMost(m, hi.value)] else [];
    assert r == low + high;
    if lo.Some? && p == AtLeast(m, lo.value) {
      assert r[0] == p;
    }
    if hi.Some? && p == AtMost(m, hi.value) {
      assert r[|r| - 1] == p;
    }
  }

  /** A predicate is registered exactly when the query asks for it. */
  lemma RegisteredIffRequested(q: Query, p: Predicate)
    ensures p in Registered(q) <==> Requested(q, p)
  {
    assert p in Registered(q) <==> p in TextPart(q) || p in ValuationPart(q) || p in GrowthPart(q);
    ValuationMembers(q, p);
    GrowthMembers(q, p);
  }

  /** The metric columns that take both bounds. */
  const ValuationMetrics: set<Metric> := {MarketCap, DividendYield, PegRatio, PbRatio, PeForward}

  /** The metric columns that take only a lower bound. */
  const GrowthMetrics: set<Metric> := {EpsGrowth3y, RevenueGrowth3y, Roe, Roa}

  /** Only the valuation columns take an upper bound, and only they and the growth columns a lower one. */
  lemma BoundedMetrics(q: Query, m: Metric)
    ensures MaxBound(q, m).Some? ==> m in ValuationMetrics
    ensures MinBound(q, m).Some? ==> m in ValuationMetrics || m in GrowthMetrics
  {
  }

  /** The range of one column, with that column's bounds, registers exactly the bounds requested on it. */
  lemma RangeRequested(q: Query, m: Metric, lo: Option<real>, hi: Option<real>, p: Predicate)
    requires lo == MinBound(q, m) && hi == MaxBound(q, m)
    ensures p in Range(m, lo, hi) <==> (p.AtLeast? || p.AtMost?) && p.metric == m && Requested(q, p)
  {
    RangeMembers(m, lo, hi, p);
  }

  /** The valuation part registers exactly the requested bounds on the valuation columns. */
  lemma ValuationMembers(q: Query, p: Predicate)
    ensures p in ValuationPart(q) <==> (p.AtLeast? || p.AtMost?) && p.metric in ValuationMetrics && Requested(q, p)
  {
    RangeRequested(q, MarketCap, q.minMarketCap, q.maxMarketCap, p);
    RangeRequested(q, DividendYield, q.minDividendYield, q.maxDividendYield, p);
    RangeRequested(q, PegRatio, q.minPeg, q.maxPeg, p);
    RangeRequested(q, PbRatio, q.minPb, q.maxPb, p);
    RangeRequested(q, PeForward, q.minPe, q.maxPe, p);
  }

  /** The growth part registers exactly the requested lower bounds on the other columns. */
  lemma GrowthMembers(q: Query, p: Predicate)
    ensures p in GrowthPart(q) <==> (p.AtLeast? || p.AtMost?) && p.metric !in ValuationMetrics && Requested(q, p)
  {
    RangeRequested(q, EpsGrowth3y, q.minEpsGrowth, None, p);
    RangeRequested(q, RevenueGrowth3y, q.minRevenueGrowth, None, p);
    RangeRequested(q, Roe, q.minRoe, None, p);
    RangeRequested(q, Roa, q.minRoa, None, p);
    if (p.AtLeast? || p.AtMost?) && Requested(q, p) {
      BoundedMetrics(q, p.metric);
    }
  }

  /** `(total_count + limit - 1) // limit`: the ceiling of `total_count / limit` for a positive limit. */
  function TotalPages(totalCount: int, limit: int): (pages: int)
    requires limit != 0
    ensures limit >= 1 && totalCount >= 0 ==> pages >= 0 && limit * (pages - 1) < totalCount <= limit * pages
  {
    var q := FloorDiv(totalCount + limit - 1, limit);
    assert limit * (q - 1) == limit * q - limit;
    q
  }

  /** The handler's response for the result of `get_results`. */
  function Respond(page: int, limit: int, results: Result<(Frame, nat)>, lastUpdated: Option<string>): Reply
  {
    match results
    case Err(message) => Failure(message)
    case Ok((rows, totalCount)) =>
      if rows == [] then Page([], 0, 0, 0, page, lastUpdated)
      else if limit == 0 then Failure(ZeroDivisionText)
      else Page(rows, |rows|, totalCount, TotalPages(totalCount, limit), page, lastUpdated)
  }

  /** The response to a query over the freshly fetched frame. */
  function Answer(q: Query, fetched: Frame, lastUpdated: Option<string>): Reply
  {
    Respond(q.page, q.limit, Results(fetched, Registered(q), q.sortBy, q.sortDesc, q.page, q.limit), lastUpdated)
  }

  /** A page is never non-empty with a zero limit, so the ceiling division never divides by zero. */
  lemma NoDivisionByZero(q: Query, fetched: Frame, lastUpdated: Option<string>)
    ensures Answer(q, fetched, lastUpdated) != Failure(ZeroDivisionText) || Registered(q) != []
    ensures var r := Results(fetched, Registered(q), q.sortBy, q.sortDesc, q.page, q.limit);
            r.Ok? && r.value.0 != [] ==> q.limit != 0
  {
    var r := Results(fetched, Registered(q), q.sortBy, q.sortDesc, q.page, q.limit);
    if r.Ok? && q.limit == 0 {
      var rows := Arranged(fetched, Registered(q), q.sortBy, q.sortDesc);
      assert r.value.0 == PageOf(rows, q.page, 0);
    }
  }

  /**
   * The handler fails exactly when a filter is registered on a frame without
   * columns; the message is the KeyError of the first registered column.
   */
  lemma AnswerFailure(q: Query, fetched: Frame, lastUpdated: Option<string>)
    ensures Answer(q, fetched, lastUpdated).Failure? <==> fetched == [] && Registered(q) != []
    ensures Answer(q, fetched, lastUpdated).Failure? ==>
              Answer(q, fetched, lastUpdated).message == KeyErrorText(ColumnOf(Registered(q)[0]))
  {
    NoDivisionByZero(q, fetched, lastUpdated);
    ResultsSatisfyFilters(fetched, Registered(q), q.sortBy, q.sortDesc, q.page, q.limit);
  }

  /** A query the framework accepts: `page >= 1` and `limit <= 1000`, with no lower bound on `limit`. */
  predicate QueryAccepted(q: Query)
  {
    q.page >= 1 && q.limit <= 1000
  }

  /** The evidently intended validation: a page size between 1 and 1000. */
  predicate QueryValid(q: Query)
  {
    q.page >= 1 && 1 <= q.limit <= 1000
  }

  /** A query with only a page and a page size. */
  function PlainQuery(page: int, limit: int): Query
  {
    Query(page, None, None, None, None, None, None, None, None, None, None, None, None, None, None, None, None,
          None, true, limit)
  }

  /** A query with no filter parameter registers no filter. */
  lemma PlainQueryRegistersNothing(page: int, limit: int)
    ensures Registered(PlainQuery(page, limit)) == []
  {
  }

  /**
   * The accepted query `page=1&limit=-1` over `n >= 2` rows answers a page
   * of `n - 1` rows, more than any page size, and reports `total_pages`
   * as `2 - n`, which is not positive; three rows give two rows and -1 pages.
   */
  lemma NegativeLimitAccepted(rows: Frame)
    requires |rows| >= 2
    ensures QueryAccepted(PlainQuery(1, -1))
    ensures var n := |rows|;
            Answer(PlainQuery(1, -1), rows, None) == Page(rows[..n - 1], n - 1, n, 2 - n, 1, None)
  {
    var n := |rows|;
    PlainQueryRegistersNothing(1, -1);
    WhereNothing(rows);
    assert Arranged(rows, [], None, true) == rows;
    assert PageOf(rows, 1, -1) == rows[..n - 1] by {
      assert PageStart(1, -1) == 0;
      assert SliceBound(-1, n) == n - 1;
    }
    assert Results(rows, [], None, true, 1, -1) == Ok((rows[..n - 1], n));
    assert TotalPages(n, -1) == 2 - n by {
      var t := FloorDiv(n - 2, -1);
      assert -t - 1 < n - 2 <= -t;
    }
  }

  /**
   * For a valid query a non-empty page holds at most `limit` rows, each
   * passing every registered filter; it reports the count before pagination,
   * the ceiling number of pages and the requested page.
   */
  lemma ValidQueryPages(q: Query, fetched: Frame, lastUpdated: Option<string>)
    requires QueryValid(q)
    ensures var a := Answer(q, fetched, lastUpdated);
            a.Page? && a.data != [] ==>
              && a.count == |a.data| <= q.limit
              && a.totalCount == |Where(fetched, Registered(q))|
              && q.limit * (a.totalPages - 1) < a.totalCount <= q.limit * a.totalPages
              && a.currentPage == q.page && a.lastUpdated == lastUpdated
              && forall row :: row in a.data ==> row in fetched && SatisfiesAll(row, Registered(q))
  {
    var r := Results(fetched, Registered(q), q.sortBy, q.sortDesc, q.page, q.limit);
    ResultsSatisfyFilters(fetched, Registered(q), q.sortBy, q.sortDesc, q.page, q.limit);
    ResultsPage(fetched, Registered(q), q.sortBy, q.sortDesc, q.page, q.limit);
    if r.Ok? && r.value.0 != [] {
      var total := r.value.1;
      assert Answer(q, fetched, lastUpdated) ==
             Page(r.value.0, |r.value.0|, total, TotalPages(total, q.limit), q.page, lastUpdated);
    }
  }

  /**
   * For a valid query the page is empty exactly when it starts at or past
   * the filtered count, and then every total is reported as 0, even when
   * rows passed the filters.
   */
  lemma EmptyPageReportsZero(q: Query, fetched: Frame, lastUpdated: Option<string>)
    requires QueryValid(q)
    ensures var a := Answer(q, fetched, lastUpdated);
            (a.Page? && a.data == []) <==>
              !(fetched == [] && Registered(q) != []) && PageStart(q.page, q.limit) >= |Where(fetched, Registered(q))|
    ensures var a := Answer(q, fetched, lastUpdated);
            a.Page? && a.data == [] ==> a == Page([], 0, 0, 0, q.page, lastUpdated)
  {
    ResultsSatisfyFilters(fetched, Registered(q), q.sortBy, q.sortDesc, q.page, q.limit);
    ResultsPage(fetched, Registered(q), q.sortBy, q.sortDesc, q.page, q.limit);
  }

  /**
   * `get_stocks`: resets the shared screener, registers the filters the
   * query supplies (a range filter when either of its bounds is present),
   * and responds from the page `get_results` cuts out of the fetched frame.
   */
  method GetStocks(svc: StockFilter, q: Query, fetched: Frame, lastUpdated: Option<string>) returns (reply: Reply)
    modifies svc
    ensures svc.filters == Registered(q)
    ensures svc.data == Some(fetched)
    ensures reply == Answer(q, fetched, lastUpdated)
  {
    var _ := svc.ResetFilters();
    RegisterText(svc, q);
    assert svc.filters == TextPart(q);
    RegisterValuation(svc, q);
    RegisterGrowth(svc, q);
    assert svc.filters == Registered(q);
    var results := svc.GetResults(fetched, q.sortBy, q.sortDesc, q.page, q.limit);
    reply := Respond(q.page, q.limit, results, lastUpdated);
  }

  /** The ticker and sector steps of `get_stocks`. */
  method RegisterText(svc: StockFilter, q: Query)
    modifies svc`filters
    ensures svc.filters == old(svc.filters) + TextPart(q)
    ensures svc.data == old(svc.data)
  {
    if q.ticker.Some? && q.ticker.value != "" {
      var _ := svc.FilterByTicker(q.ticker.value);
    }
    if q.sectors.Some? && q.sectors.value != [] {
      svc.FilterBySector(q.sectors.value);
    }
  }

  /** The market cap, dividend yield, PEG, P/B and P/E steps of `get_stocks`. */
  method RegisterValuation(svc: StockFilter, q: Query)
    modifies svc`filters
    ensures svc.filters == old(svc.filters) + ValuationPart(q)
    ensures svc.data == old(svc.data)
  {
    ghost var start := svc.filters;
    if q.minMarketCap.Some? || q.maxMarketCap.Some? {
      svc.FilterByMarketCap(q.minMarketCap, q.maxMarketCap);
    }
    assert svc.filters == start + Range(MarketCap, q.minMarketCap, q.maxMarketCap);
    ghost var part, before := Range(MarketCap, q.minMarketCap, q.maxMarketCap), svc.filters;
    if q.minDividendYield.Some? || q.maxDividendYield.Some? {
      svc.FilterByDividendYield(q.minDividendYield, q.maxDividendYield);
    }
    Extended(start, part, before, svc.filters, Range(DividendYield, q.minDividendYield, q.maxDividendYield));
    part, before := part + Range(DividendYield, q.minDividendYield, q.maxDividendYield), svc.filters;
    if q.minPeg.Some? || q.maxPeg.Some? {
      svc.FilterByPeg(q.minPeg, q.maxPeg);
    }
    Extended(start, part, before, svc.filters, Range(PegRatio, q.minPeg, q.maxPeg));
    part, before := part + Range(PegRatio, q.minPeg, q.maxPeg), svc.filters;
    if q.minPb.Some? || q.maxPb.Some? {
      svc.FilterByPb(q.minPb, q.maxPb);
    }
    Extended(start, part, before, svc.filters, Range(PbRatio, q.minPb, q.maxPb));
    part, before := part + Range(PbRatio, q.minPb, q.maxPb), svc.filters;
    if q.minPe.Some? || q.maxPe.Some? {
      svc.FilterByPe(q.minPe, q.maxPe);
    }
    Extended(start, part, before, svc.filters, Range(PeForward, q.minPe, q.maxPe));
  }

  /** The EPS growth, revenue growth, ROE and ROA steps of `get_stocks`. */
  method RegisterGrowth(svc: StockFilter, q: Query)
    modifies svc`filters
    ensures svc.filters == old(svc.filters) + GrowthPart(q)
    ensures svc.data == old(svc.data)
  {
    ghost var start := svc.filters;
    if q.minEpsGrowth.Some? {
      svc.FilterByEpsGrowth(q.minEpsGrowth);
    }
    assert svc.filters == start + Range(EpsGrowth3y, q.minEpsGrowth, None);
    ghost var part, before := Range(EpsGrowth3y, q.minEpsGrowth, None), svc.filters;
    if q.minRevenueGrowth.Some? {
      svc.FilterByRevenueGrowth(q.minRevenueGrowth);
    }
    Extended(start, part, before, svc.filters, Range(RevenueGrowth3y, q.minRevenueGrowth, None));
    part, before := part + Range(RevenueGrowth3y, q.minRevenueGrowth, None), svc.filters;
    if q.minRoe.Some? {
      svc.FilterByRoe(q.minRoe);
    }
    Extended(start, part, before, svc.filters, Range(Roe, q.minRoe, None));
    part, before := part + Range(Roe, q.minRoe, None), svc.filters;
    if q.minRoa.Some? {
      svc.FilterByRoa(q.minRoa);
    }
    Extended(start, part, before, svc.filters, Range(Roa, q.minRoa, None));
  }

  /** One registration step: the list grows by `step`, which is empty when the step is skipped. */
  lemma Extended(start: seq<Predicate>, part: seq<Predicate>, before: seq<Predicate>, after: seq<Predicate>,
                 step: seq<Predicate>)
    requires before == start + part
    requires after == before + step || (after == before && step == [])
    ensures after == start + (part + step)
  {
    assert start + (part + step) == start + part + step;
    assert before + [] == before;
  }

  /**
   * A request as served: a query outside the intended bounds is rejected
   * before the handler runs and leaves the screener untouched; any other is
   * answered by `get_stocks`.
   */
  method Serve(svc: StockFilter, q: Query, fetched: Frame, lastUpdated: Option<string>) returns (reply: Reply)
    modifies svc
    ensures !QueryValid(q) ==> reply == Rejected && svc.filters == old(svc.filters) && svc.data == old(svc.data)
    ensures QueryValid(q) ==> reply == Answer(q, fetched, lastUpdated) && svc.filters == Registered(q)
    ensures QueryValid(q) ==> svc.data == Some(fetched)
  {
    if !QueryValid(q) {
      return Rejected;
    }
    reply := GetStocks(svc, q, fetched, lastUpdated);
  }
}
