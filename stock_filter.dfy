/**
 * The stock screener: a list of registered row predicates, a lazily cached
 * frame, and the queries answered from them (a filtered, optionally sorted
 * page; the top gainers of a period; the dividend leaders; the sector list).
 */
module Screener {
  import opened Wrappers
  import opened PyText
  import opened Records
  import opened FilterMaps
  import opened Ordering

  /** One registered filter: the row test its lambda applies to a frame. */
  datatype Predicate =
    | AtLeast(metric: Metric, bound: real)
    | AtMost(metric: Metric, bound: real)
    | TickerContains(query: string)
    | SectorIn(sectors: seq<string>)

  /** The test as pandas evaluates it on one row; the ticker is matched against the upper-cased query, ignoring case. */
  predicate Holds(row: Stock, p: Predicate)
  {
    match p
    case AtLeast(m, b) => row.Get(m) >= b
    case AtMost(m, b) => row.Get(m) <= b
    case TickerContains(q) => ContainsIgnoringCase(row.ticker, Upper(q))
    case SectorIn(ss) => row.sector in ss
  }

  /** The column a predicate reads first. */
  function ColumnOf(p: Predicate): string
  {
    match p
    case AtLeast(m, _) => ColumnName(m)
    case AtMost(m, _) => ColumnName(m)
    case TickerContains(_) => "ticker"
    case SectorIn(_) => "sector"
  }

  /** `str(KeyError(column))`, raised when a frame without columns is indexed by `column`. */
  function KeyErrorText(column: string): string
  {
    "'" + column + "'"
  }

  predicate SatisfiesAll(row: Stock, ps: seq<Predicate>)
  {
    forall i :: 0 <= i < |ps| ==> Holds(row, ps[i])
  }

  /** `df[filter_func(df)]`: the rows passing one predicate, in frame order. */
  function Apply(rows: Frame, p: Predicate): (r: Frame)
    ensures forall row :: row in r <==> row in rows && Holds(row, p)
  {
    var keep := (row: Stock) => Holds(row, p);
    assert forall row :: row in Filter(rows, keep) <==> row in rows && keep(row) by {
      forall row {
        FilterMember(rows, keep, row);
      }
    }
    Filter(rows, keep)
  }

  /** The rows passing every predicate of `ps`, in frame order. */
  function Where(rows: Frame, ps: seq<Predicate>): (r: Frame)
    ensures forall row :: row in r <==> row in rows && SatisfiesAll(row, ps)
    ensures multiset(r) <= multiset(rows)
  {
    var keep := (row: Stock) => SatisfiesAll(row, ps);
    assert forall row :: row in Filter(rows, keep) <==> row in rows && keep(row) by {
      forall row {
        FilterMember(rows, keep, row);
      }
    }
    FilterSubMultiset(rows, keep);
    Filter(rows, keep)
  }

  /** Applying the predicates one after another is filtering once by their conjunction. */
  lemma WhereSnoc(rows: Frame, ps: seq<Predicate>, p: Predicate)
    ensures Apply(Where(rows, ps), p) == Where(rows, ps + [p])
  {
    var keepPs := (row: Stock) => SatisfiesAll(row, ps);
    var keepP := (row: Stock) => Holds(row, p);
    var both := (row: Stock) => SatisfiesAll(row, ps + [p]);
    forall row ensures both(row) == (keepPs(row) && keepP(row)) {
      var qs := ps + [p];
      assert forall i :: 0 <= i < |ps| ==> qs[i] == ps[i];
      assert qs[|ps|] == p;
    }
    FilterTwice(rows, keepPs, keepP, both);
  }

  /** With no predicate registered, every row passes. */
  lemma WhereNothing(rows: Frame)
    ensures Where(rows, []) == rows
  {
    FilterKeepsAll(rows, (row: Stock) => SatisfiesAll(row, []));
  }

  /** Comparing the upper-cased query ignoring case is comparing the query itself ignoring case. */
  lemma TickerQueryCase(row: Stock, q: string)
    ensures Holds(row, TickerContains(q)) <==> ContainsIgnoringCase(row.ticker, q)
  {
    LowerOfUpper(q);
  }

  /** The predicates a pair of optional range bounds registers: `>= lo` first, then `<= hi`. */
  function Range(m: Metric, lo: Option<real>, hi: Option<real>): (r: seq<Predicate>)
    ensures |r| == (if lo.Some? then 1 else 0) + (if hi.Some? then 1 else 0)
  {
    (if lo.Some? then [AtLeast(m, lo.value)] else []) + (if hi.Some? then [AtMost(m, hi.value)] else [])
  }

  /** A row passes the filters of a range exactly when it lies within the bounds given, both inclusive. */
  lemma RangeMeaning(m: Metric, lo: Option<real>, hi: Option<real>, row: Stock)
    ensures SatisfiesAll(row, Range(m, lo, hi)) <==>
              (lo.Some? ==> row.Get(m) >= lo.value) && (hi.Some? ==> row.Get(m) <= hi.value)
  {
    var r := Range(m, lo, hi);
    if lo.Some? {
      assert r[0] == AtLeast(m, lo.value);
    }
    if hi.Some? {
      assert r[|r| - 1] == AtMost(m, hi.value);
    }
  }

  /** `sort_values` when `sort_by` is a non-empty name of a column; otherwise the rows unchanged. */
  function Arrange(rows: Frame, sortBy: Option<string>, desc: bool): (r: Frame)
    ensures multiset(r) == multiset(rows)
    ensures sortBy.Some? && ColumnNamed(sortBy.value).Some? ==> SortedBy(r, ColumnNamed(sortBy.value).value, desc)
    ensures sortBy.None? || ColumnNamed(sortBy.value).None? ==> r == rows
  {
    match sortBy
    case None => rows
    case Some(name) =>
      match ColumnNamed(name)
      case None => rows
      case Some(key) => Sort(rows, key, desc)
  }

  /** The rows passing every predicate, arranged by `sort_by`. */
  function Arranged(base: Frame, filters: seq<Predicate>, sortBy: Option<string>, desc: bool): Frame
  {
    Arrange(Where(base, filters), sortBy, desc)
  }

  /** The index of the first row of a page, `(page - 1) * limit`. */
  function PageStart(page: int, limit: int): (start: int)
    ensures page >= 1 && limit >= 0 ==> start >= 0
  {
    assert page >= 1 && limit >= 0 ==> (page - 1) * limit >= 0 by {
      if page >= 1 && limit >= 0 {
        assert page - 1 >= 0;
      }
    }
    (page - 1) * limit
  }

  /** `rows.iloc[start : start + limit]` with `start = (page - 1) * limit`. */
  function PageOf(rows: Frame, page: int, limit: int): Frame
  {
    var start := PageStart(page, limit);
    PySlice(rows, start, start + limit)
  }

  /**
   * What `get_results` returns for the frame `base` and the registered
   * predicates: the page of the filtered and arranged rows with the count
   * before pagination, or the KeyError a frame without columns raises under
   * the first predicate.
   */
  function Results(base: Frame, filters: seq<Predicate>, sortBy: Option<string>, desc: bool, page: int, limit: int)
    : Result<(Frame, nat)>
  {
    if base == [] && filters != [] then Err(KeyErrorText(ColumnOf(filters[0])))
    else
      var rows := Arranged(base, filters, sortBy, desc);
      Ok((PageOf(rows, page, limit), |rows|))
  }

  /** Every row of a page is a row of the sequence it was cut from. */
  lemma PageRowsFrom(rows: Frame, page: int, limit: int)
    ensures forall row :: row in PageOf(rows, page, limit) ==> row in rows
  {
    var start := PageStart(page, limit);
    var a := SliceBound(start, |rows|);
    var b := SliceBound(start + limit, |rows|);
    forall row | row in PageOf(rows, page, limit) ensures row in rows {
      assert row in rows[a..b];
    }
  }

  /** Every returned row comes from the frame and satisfies every predicate; the count is taken before the page is cut. */
  lemma ResultsSatisfyFilters(base: Frame, filters: seq<Predicate>, sortBy: Option<string>, desc: bool, page: int, limit: int)
    ensures var r := Results(base, filters, sortBy, desc, page, limit);
            r.Err? <==> base == [] && filters != []
    ensures var r := Results(base, filters, sortBy, desc, page, limit);
            r.Err? ==> r.message == KeyErrorText(ColumnOf(filters[0]))
    ensures var r := Results(base, filters, sortBy, desc, page, limit);
            r.Ok? ==> r.value.1 == |Where(base, filters)| &&
                      forall row :: row in r.value.0 ==> row in base && SatisfiesAll(row, filters)
  {
    if !(base == [] && filters != []) {
      var rows := Arranged(base, filters, sortBy, desc);
      assert |multiset(rows)| == |multiset(Where(base, filters))|;
      PageRowsFrom(rows, page, limit);
      forall row | row in PageOf(rows, page, limit) ensures row in base && SatisfiesAll(row, filters) {
        assert row in multiset(rows);
      }
    }
  }

  /**
   * For `page >= 1` and `limit >= 0` a page holds at most `limit` rows, is
   * empty exactly when it starts at or past the end (or `limit` is 0), and
   * its `k`-th row is row `(page-1)*limit + k` of the sequence.
   */
  lemma PageWindow(rows: Frame, page: int, limit: int)
    requires page >= 1 && limit >= 0
    ensures |PageOf(rows, page, limit)| <= limit && |PageOf(rows, page, limit)| <= |rows|
    ensures PageOf(rows, page, limit) == [] <==> PageStart(page, limit) >= |rows| || limit == 0
    ensures forall k :: 0 <= k < |PageOf(rows, page, limit)| ==> PageOf(rows, page, limit)[k] == rows[PageStart(page, limit) + k]
  {
    WindowSlice(rows, PageStart(page, limit), limit);
  }

  /** The page and the count of `get_results`, for `page >= 1` and `limit >= 0`. */
  lemma ResultsPage(base: Frame, filters: seq<Predicate>, sortBy: Option<string>, desc: bool, page: int, limit: int)
    requires page >= 1 && limit >= 0
    ensures var r := Results(base, filters, sortBy, desc, page, limit);
            r.Ok? ==> |r.value.0| <= limit && |r.value.0| <= r.value.1
    ensures var r := Results(base, filters, sortBy, desc, page, limit);
            r.Ok? ==> (r.value.0 == [] <==> PageStart(page, limit) >= r.value.1 || limit == 0)
    ensures var r := Results(base, filters, sortBy, desc, page, limit);
            var rows := Arranged(base, filters, sortBy, desc);
            r.Ok? ==> forall k :: 0 <= k < |r.value.0| ==> r.value.0[k] == rows[PageStart(page, limit) + k]
  {
    var rows := Arranged(base, filters, sortBy, desc);
    PageWindow(rows, page, limit);
    var r := Results(base, filters, sortBy, desc, page, limit);
    if r.Ok? {
      assert r.value == (PageOf(rows, page, limit), |rows|);
    }
  }

  /**
   * With a `sort_by` that names a column the page is ordered by it,
   * descending iff `desc`; otherwise it is a page of the filtered rows in
   * their original relative order.
   */
  lemma ResultsOrder(base: Frame, filters: seq<Predicate>, sortBy: Option<string>, desc: bool, page: int, limit: int)
    ensures var r := Results(base, filters, sortBy, desc, page, limit);
            r.Ok? && sortBy.Some? && ColumnNamed(sortBy.value).Some? ==>
              SortedBy(r.value.0, ColumnNamed(sortBy.value).value, desc)
    ensures var r := Results(base, filters, sortBy, desc, page, limit);
            r.Ok? && (sortBy.None? || ColumnNamed(sortBy.value).None?) ==>
              r.value.0 == PageOf(Where(base, filters), page, limit)
  {
    if sortBy.Some? && ColumnNamed(sortBy.value).Some? {
      var rows := Arranged(base, filters, sortBy, desc);
      SortedSlice(rows, PageStart(page, limit), PageStart(page, limit) + limit, ColumnNamed(sortBy.value).value, desc);
    }
  }

  /** `period_map`, with an unknown period falling back to one week. */
  function PeriodColumn(period: string): (m: Metric)
    ensures ColumnName(m) == "change_" + (if period in {"1w", "1m", "6m", "ytd", "1y", "3y"} then period else "1w")
  {
    if period == "1m" then Change1m
    else if period == "6m" then Change6m
    else if period == "ytd" then ChangeYtd
    else if period == "1y" then Change1y
    else if period == "3y" then Change3y
    else Change1w
  }

  predicate Gains(row: Stock, m: Metric)
  {
    row.Get(Price) > 0.0 && row.Get(m) > 0.0
  }

  /** The row mask `(df['price'] > 0) & (df[change_col] > 0)` for the change column `m`. */
  function GainsIn(m: Metric): Stock -> bool
  {
    (row: Stock) => Gains(row, m)
  }

  /**
   * The selection `nlargest` makes among the rows `keep` accepts: `limit` of
   * them, or all when fewer qualify, or none for `limit <= 0`; each taken at
   * most as often as the frame holds it, and each a kept row of the frame.
   */
  lemma TopRowsQualify(frame: Frame, keep: Stock -> bool, limit: int, m: Metric)
    ensures var n := |Filter(frame, keep)|;
            |Largest(Filter(frame, keep), limit, m)| == (if limit <= 0 then 0 else if limit < n then limit else n)
    ensures multiset(Largest(Filter(frame, keep), limit, m)) <= multiset(frame)
    ensures forall row :: row in Largest(Filter(frame, keep), limit, m) ==> row in frame && keep(row)
  {
    var candidates := Filter(frame, keep);
    var top := Largest(candidates, limit, m);
    LargestIsTop(candidates, limit, m);
    FilterSubMultiset(frame, keep);
    forall row | row in top ensures row in frame && keep(row) {
      assert row in multiset(top);
      assert row in candidates;
      FilterMember(frame, keep, row);
    }
  }

  /** No accepted row that `nlargest` leaves out has a larger value than a selected one. */
  lemma TopRowsDominate(frame: Frame, keep: Stock -> bool, limit: int, m: Metric)
    ensures var top := Largest(Filter(frame, keep), limit, m);
            forall x, y :: x in frame && keep(x) && x !in top && y in top ==> x.Get(m) <= y.Get(m)
  {
    var candidates := Filter(frame, keep);
    var top := Largest(candidates, limit, m);
    LargestIsTop(candidates, limit, m);
    forall x, y | x in frame && keep(x) && x !in top && y in top ensures x.Get(m) <= y.Get(m) {
      FilterMember(frame, keep, x);
      assert x in multiset(candidates) && x !in multiset(top);
      assert x in multiset(candidates) - multiset(top);
    }
  }

  predicate PositiveYield(row: Stock)
  {
    row.Get(DividendYield) > 0.0
  }

  /**
   * `get_highest_dividend_yields` on a frame: the rows with a positive yield,
   * `limit` of them or all when fewer have one (none for `limit <= 0`), in
   * non-increasing yield order, with no omitted positive-yield row above one
   * selected.
   */
  function DividendLeaders(frame: Frame, limit: int): (r: Result<Frame>)
    ensures r.Err? <==> frame == []
    ensures r.Err? ==> r.message == KeyErrorText("dividend_yield")
    ensures r.Ok? ==> var n := |Filter(frame, PositiveYield)|;
                      |r.value| == (if limit <= 0 then 0 else if limit < n then limit else n)
    ensures r.Ok? ==> multiset(r.value) <= multiset(frame)
    ensures r.Ok? ==> forall row :: row in r.value ==> row in frame && PositiveYield(row)
    ensures r.Ok? ==> forall i, j :: 0 <= i < j < |r.value| ==> r.value[i].Get(DividendYield) >= r.value[j].Get(DividendYield)
    ensures r.Ok? ==> forall x, y :: x in frame && PositiveYield(x) && x !in r.value && y in r.value ==>
                        x.Get(DividendYield) <= y.Get(DividendYield)
  {
    if frame == [] then Err(KeyErrorText("dividend_yield"))
    else
      TopRowsQualify(frame, PositiveYield, limit, DividendYield);
      TopRowsDominate(frame, PositiveYield, limit, DividendYield);
      Ok(Largest(Filter(frame, PositiveYield), limit, DividendYield))
  }

  /** `sorted(set(xs))` built one element at a time: strictly ascending, holding exactly the elements of `xs`. */
  predicate StrictlyAscending(xs: seq<string>)
  {
    forall i, j :: 0 <= i < j < |xs| ==> StrLt(xs[i], xs[j])
  }

  function InsertUnique(x: string, xs: seq<string>): (r: seq<string>)
    requires StrictlyAscending(xs)
    ensures StrictlyAscending(r)
    ensures forall s :: s in r <==> s == x || s in xs
    decreases |xs|
  {
    if xs == [] then [x]
    else if x == xs[0] then xs
    else if StrLt(x, xs[0]) then
      assert StrictlyAscending([x] + xs) by {
        var r := [x] + xs;
        forall i, j | 0 <= i < j < |r| ensures StrLt(r[i], r[j]) {
          assert r[j] == xs[j - 1];
          if i == 0 {
            if j > 1 {
              StrLtTransitive(x, xs[0], xs[j - 1]);
            }
          } else {
            assert r[i] == xs[i - 1];
          }
        }
      }
      [x] + xs
    else
      StrLtTotal(x, xs[0]);
      var tail := InsertUnique(x, xs[1..]);
      assert xs == [xs[0]] + xs[1..];
      assert StrictlyAscending([xs[0]] + tail) by {
        var r := [xs[0]] + tail;
        forall i, j | 0 <= i < j < |r| ensures StrLt(r[i], r[j]) {
          assert r[j] == tail[j - 1];
          if i == 0 {
            if r[j] != x {
              assert r[j] in xs[1..];
              var k :| 0 <= k < |xs[1..]| && xs[1..][k] == r[j];
              assert xs[k + 1] == r[j];
            }
          } else {
            assert r[i] == tail[i - 1];
          }
        }
      }
      [xs[0]] + tail
  }

  function SortedUnique(xs: seq<string>): (r: seq<string>)
    ensures StrictlyAscending(r)
    ensures forall s :: s in r <==> s in xs
    decreases |xs|
  {
    if xs == [] then []
    else
      assert xs == [xs[0]] + xs[1..];
      InsertUnique(xs[0], SortedUnique(xs[1..]))
  }

  /** The `sector` column of a frame. */
  function SectorColumn(frame: Frame): seq<string>
  {
    seq(|frame|, i requires 0 <= i < |frame| => frame[i].sector)
  }

  /**
   * `get_available_sectors` on a frame: the distinct sectors in strictly
   * ascending order (a sector is always a string, so `dropna` drops nothing),
   * or the KeyError of a frame without columns.
   */
  function SectorList(frame: Frame): (r: Result<seq<string>>)
    ensures r.Err? <==> frame == []
    ensures r.Err? ==> r.message == KeyErrorText("sector")
    ensures r.Ok? ==> StrictlyAscending(r.value)
    ensures r.Ok? ==> forall s :: s in r.value <==> exists row :: row in frame && row.sector == s
  {
    if frame == [] then Err(KeyErrorText("sector"))
    else
      var column := SectorColumn(frame);
      var sectors := SortedUnique(column);
      assert forall s :: s in column <==> exists row :: row in frame && row.sector == s by {
        forall s ensures s in column <==> exists row :: row in frame && row.sector == s {
          if exists row :: row in frame && row.sector == s {
            var row :| row in frame && row.sector == s;
            var i :| 0 <= i < |frame| && frame[i] == row;
            assert column[i] == s;
          }
        }
      }
      Ok(sectors)
  }

  /**
   * The filter loop of `get_results`: each predicate in turn selects the rows
   * of the frame so far. On a frame without columns (the empty frame) the
   * first predicate raises KeyError for its column.
   */
  method FilterRows(base: Frame, filters: seq<Predicate>) returns (r: Result<Frame>)
    ensures base == [] && filters != [] ==> r == Err(KeyErrorText(ColumnOf(filters[0])))
    ensures !(base == [] && filters != []) ==> r == Ok(Where(base, filters))
  {
    var df := base;
    WhereNothing(base);
    for i := 0 to |filters|
      invariant base == [] ==> i == 0
      invariant df == Where(base, filters[..i])
    {
      if base == [] {
        return Err(KeyErrorText(ColumnOf(filters[i])));
      }
      WhereSnoc(base, filters[..i], filters[i]);
      assert filters[..i + 1] == filters[..i] + [filters[i]];
      df := Apply(df, filters[i]);
    }
    assert filters[..|filters|] == filters;
    return Ok(df);
  }

  class StockFilter {
    /** The registered predicates, in registration order. */
    var filters: seq<Predicate>
    /** The cached frame; `None` until the next access loads it. */
    var data: Option<Frame>

    constructor ()
      ensures filters == [] && data == None
    {
      filters := [];
      data := None;
    }

    /** The `df` property: the cached frame, loading `fetched` into the cache when it is empty. */
    method Df(fetched: Frame) returns (df: Frame)
      modifies this`data
      ensures df == old(data).GetOr(fetched)
      ensures data == Some(df)
    {
      if data.None? {
        data := Some(fetched);
      }
      df := data.value;
    }

    method ResetFilters() returns (r: StockFilter)
      modifies this
      ensures filters == [] && data == None
      ensures r == this
    {
      filters := [];
      data := None;
      r := this;
    }

    method FilterByTicker(ticker: string) returns (r: StockFilter)
      modifies this`filters
      ensures filters == old(filters) + (if ticker == "" then [] else [TickerContains(ticker)])
      ensures data == old(data) && r == this
    {
      if ticker != "" {
        filters := filters + [TickerContains(ticker)];
      }
      r := this;
    }

    method FilterBySector(sectors: seq<string>)
      modifies this`filters
      ensures filters == old(filters) + (if sectors == [] then [] else [SectorIn(sectors)])
      ensures data == old(data)
    {
      if sectors != [] {
        filters := filters + [SectorIn(sectors)];
      }
    }

    /** Registers the inclusive bounds that are present on column `m`. */
    method AddRange(m: Metric, lo: Option<real>, hi: Option<real>)
      modifies this`filters
      ensures filters == old(filters) + Range(m, lo, hi)
      ensures data == old(data)
    {
      if lo.Some? {
        filters := filters + [AtLeast(m, lo.value)];
      }
      if hi.Some? {
        filters := filters + [AtMost(m, hi.value)];
      }
    }

    method FilterByMarketCap(minCap: Option<real>, maxCap: Option<real>)
      modifies this`filters
      ensures filters == old(filters) + Range(MarketCap, minCap, maxCap)
      ensures data == old(data)
    {
      AddRange(MarketCap, minCap, maxCap);
    }

    method FilterByDividendYield(minYield: Option<real>, maxYield: Option<real>)
      modifies this`filters
      ensures filters == old(filters) + Range(DividendYield, minYield, maxYield)
      ensures data == old(data)
    {
      AddRange(DividendYield, minYield, maxYield);
    }

    method FilterByPeg(minPeg: Option<real>, maxPeg: Option<real>)
      modifies this`filters
      ensures filters == old(filters) + Range(PegRatio, minPeg, maxPeg)
      ensures data == old(data)
    {
      AddRange(PegRatio, minPeg, maxPeg);
    }

    method FilterByPb(minPb: Option<real>, maxPb: Option<real>)
      modifies this`filters
      ensures filters == old(filters) + Range(PbRatio, minPb, maxPb)
      ensures data == old(data)
    {
      AddRange(PbRatio, minPb, maxPb);
    }

    method FilterByPe(minPe: Option<real>, maxPe: Option<real>)
      modifies this`filters
      ensures filters == old(filters) + Range(PeForward, minPe, maxPe)
      ensures data == old(data)
    {
      AddRange(PeForward, minPe, maxPe);
    }

    method FilterByEpsGrowth(minGrowth: Option<real>)
      modifies this`filters
      ensures filters == old(filters) + Range(EpsGrowth3y, minGrowth, None)
      ensures data == old(data)
    {
      AddRange(EpsGrowth3y, minGrowth, None);
    }

    method FilterByRevenueGrowth(minGrowth: Option<real>)
      modifies this`filters
      ensures filters == old(filters) + Range(RevenueGrowth3y, minGrowth, None)
      ensures data == old(data)
    {
      AddRange(RevenueGrowth3y, minGrowth, None);
    }

    method FilterByRoe(minRoe: Option<real>)
      modifies this`filters
      ensures filters == old(filters) + Range(Roe, minRoe, None)
      ensures data == old(data)
    {
      AddRange(Roe, minRoe, None);
    }

    method FilterByRoa(minRoa: Option<real>)
      modifies this`filters
      ensures filters == old(filters) + Range(Roa, minRoa, None)
      ensures data == old(data)
    {
      AddRange(Roa, minRoa, None);
    }

    /**
     * `get_results`: applies the predicates one by one to the cached frame,
     * arranges, counts and cuts the page. A frame without columns (the empty
     * frame) raises KeyError at the first predicate.
     */
    method GetResults(fetched: Frame, sortBy: Option<string>, sortDesc: bool, page: int, limit: int)
      returns (r: Result<(Frame, nat)>)
      modifies this`data
      ensures data == Some(old(data).GetOr(fetched))
      ensures filters == old(filters)
      ensures r == Results(old(data).GetOr(fetched), filters, sortBy, sortDesc, page, limit)
    {
      var base := Df(fetched);
      var filtered := FilterRows(base, filters);
      match filtered {
        case Err(message) =>
          r := Err(message);
        case Ok(rows) =>
          var arranged := Arrange(rows, sortBy, sortDesc);
          r := Ok((PageOf(arranged, page, limit), |arranged|));
      }
    }

    /**
     * `get_top_gainers`: reads a freshly fetched frame (not the cache) and
     * returns the rows with a positive price and a positive change over the
     * period, `limit` of them or all when fewer qualify, largest change first.
     */
    method GetTopGainers(fetched: Frame, period: string, limit: int) returns (r: Result<Frame>)
      ensures r.Err? <==> fetched == []
      ensures r.Err? ==> r.message == KeyErrorText("price")
      ensures r.Ok? ==> var n := |Filter(fetched, GainsIn(PeriodColumn(period)))|;
                        |r.value| == (if limit <= 0 then 0 else if limit < n then limit else n)
      ensures r.Ok? ==> multiset(r.value) <= multiset(fetched)
      ensures r.Ok? ==> forall row :: row in r.value ==> row in fetched && Gains(row, PeriodColumn(period))
      ensures r.Ok? ==> forall i, j :: 0 <= i < j < |r.value| ==>
                          r.value[i].Get(PeriodColumn(period)) >= r.value[j].Get(PeriodColumn(period))
      ensures r.Ok? ==> forall x, y :: x in fetched && Gains(x, PeriodColumn(period)) && x !in r.value && y in r.value ==>
                          x.Get(PeriodColumn(period)) <= y.Get(PeriodColumn(period))
    {
      if fetched == [] {
        return Err(KeyErrorText("price"));
      }
      var changeCol := PeriodColumn(period);
      var keep := GainsIn(changeCol);
      TopRowsQualify(fetched, keep, limit, changeCol);
      TopRowsDominate(fetched, keep, limit, changeCol);
      r := Ok(Largest(Filter(fetched, keep), limit, changeCol));
    }

    /** `get_highest_dividend_yields`, answered from the cached frame. */
    method GetHighestDividendYields(fetched: Frame, limit: int) returns (r: Result<Frame>)
      modifies this`data
      ensures data == Some(old(data).GetOr(fetched))
      ensures r == DividendLeaders(old(data).GetOr(fetched), limit)
    {
      var df := Df(fetched);
      if df == [] {
        return Err(KeyErrorText("dividend_yield"));
      }
      r := Ok(Largest(Filter(df, PositiveYield), limit, DividendYield));
    }

    /** `get_available_sectors`, answered from the cached frame. */
    method GetAvailableSectors(fetched: Frame) returns (r: Result<seq<string>>)
      modifies this`data
      ensures data == Some(old(data).GetOr(fetched))
      ensures r == SectorList(old(data).GetOr(fetched))
    {
      var df := Df(fetched);
      if df == [] {
        return Err(KeyErrorText("sector"));
      }
      r := Ok(SortedUnique(SectorColumn(df)));
    }
  }
}
