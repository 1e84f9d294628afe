/**
 * `StockDataFetcher.process_data` and `_safe_float`
 * (backend/api/services/data_fetcher.py): turning the decoded JSON payload
 * of the screener API into the stock DataFrame. The HTTP request itself is
 * not modelled; the decoded payload is an input.
 */
module DataFetcher {
  import opened Wrappers
  import opened Records
  import opened FilterMaps

  /** A Python float: a finite number, an infinity or NaN. */
  datatype Float = Finite(x: real) | PosInf | NegInf | NaN

  /**
   * A value as Python's `json` module decodes it. An object is its entries in
   * insertion order; a Python dict never repeats a key, so looking up the
   * first entry with a key is Python's lookup.
   */
  datatype Value =
    | Null
    | Bool(b: bool)
    | Int(i: int)
    | Num(f: Float)
    | Str(s: string)
    | List(items: seq<Value>)
    | Object(entries: seq<(string, Value)>)

  /**
   * The conversions of Python's built-ins that the model takes as given:
   * `float(s)` of a string (`None` when it raises `ValueError`), `float(i)` of
   * an int (`None` when it raises `OverflowError`), and `str(v)` of a number,
   * list or dict.
   */
  datatype Python = Python(
    parseFloat: string -> Option<Float>,
    intToFloat: int -> Option<Float>,
    show: Value -> string)

  /** `d.get(key)` on a dict given by its entries: the value of the first entry with the key. */
  function Lookup(entries: seq<(string, Value)>, key: string): (r: Option<Value>)
    ensures r.Some? ==> exists i :: 0 <= i < |entries| && entries[i] == (key, r.value) &&
                                    forall k :: 0 <= k < i ==> entries[k].0 != key
    ensures r.None? ==> forall i :: 0 <= i < |entries| ==> entries[i].0 != key
  {
    if entries == [] then None
    else if entries[0].0 == key then Some(entries[0].1)
    else
      var r := Lookup(entries[1..], key);
      assert forall i :: 1 <= i < |entries| ==> entries[i] == entries[1..][i - 1];
      if r.Some? then
        var i :| 0 <= i < |entries[1..]| && entries[1..][i] == (key, r.value) &&
                 forall k :: 0 <= k < i ==> entries[1..][k].0 != key;
        assert entries[i + 1] == (key, r.value);
        assert forall k :: 0 <= k < i + 1 ==> entries[k].0 != key by {
          forall k | 0 <= k < i + 1 ensures entries[k].0 != key {
            if k > 0 {
              assert entries[k] == entries[1..][k - 1];
            }
          }
        }
        r
      else r
  }

  /** What a call of the built-in `float(v)` does. */
  datatype FloatCall = Converted(f: Float) | ValueOrTypeError | OtherError

  function PyFloat(v: Value, py: Python): FloatCall
  {
    match v
    case Null => ValueOrTypeError
    case Bool(b) => Converted(Finite(if b then 1.0 else 0.0))
    case Int(i) => (match py.intToFloat(i) case Some(f) => Converted(f) case None => OtherError)
    case Num(f) => Converted(f)
    case Str(s) => (match py.parseFloat(s) case Some(f) => Converted(f) case None => ValueOrTypeError)
    case List(_) => ValueOrTypeError
    case Object(_) => ValueOrTypeError
  }

  /**
   * `_safe_float(value)`: 0.0 for `None` and for a value whose conversion
   * raises `ValueError` or `TypeError`; any other exception escapes.
   */
  function SafeFloat(v: Value, py: Python): (r: Outcome<Float>)
    ensures v.Null? ==> r == Returned(Finite(0.0))
    ensures PyFloat(v, py).ValueOrTypeError? ==> r == Returned(Finite(0.0))
    ensures !v.Null? && PyFloat(v, py).Converted? ==> r == Returned(PyFloat(v, py).f)
    ensures r.Raised? <==> v.Int? && py.intToFloat(v.i).None?
  {
    if v.Null? then Returned(Finite(0.0))
    else
      match PyFloat(v, py)
      case Converted(f) => Returned(f)
      case ValueOrTypeError => Returned(Finite(0.0))
      case OtherError => Raised
  }

  /** `str(v)`. */
  function PyStr(v: Value, py: Python): string
  {
    match v
    case Null => "None"
    case Bool(b) => if b then "True" else "False"
    case Str(s) => s
    case _ => py.show(v)
  }

  /** `str(stock.get("sector", ""))`. */
  function SectorOf(fields: seq<(string, Value)>, py: Python): string
  {
    match Lookup(fields, "sector")
    case None => ""
    case Some(v) => PyStr(v, py)
  }

  /** `_safe_float(stock.get(JsonKey(m)))`: a missing key reads as `None`. */
  function FieldFloat(fields: seq<(string, Value)>, m: Metric, py: Python): Outcome<Float>
  {
    SafeFloat(Lookup(fields, JsonKey(m)).GetOr(Null), py)
  }

  /** `replace([inf, -inf], nan).fillna(0)` on one cell. */
  function Sanitise(f: Float): real
  {
    if f.Finite? then f.x else 0.0
  }

  /** Some column's conversion lets an exception escape while the record literal is built. */
  predicate Overflows(fields: seq<(string, Value)>, py: Python)
  {
    exists i :: 0 <= i < |Metrics| && FieldFloat(fields, Metrics[i], py).Raised?
  }

  /**
   * The `stock_dict` literal for one entry, with every cell already sanitised;
   * `None` when building it raises (the per-stock handler then skips the entry).
   */
  function BuildRecord(ticker: string, fields: seq<(string, Value)>, py: Python): (r: Option<Stock>)
    ensures r.None? <==> Overflows(fields, py)
    ensures r.Some? ==> r.value.ticker == ticker && r.value.sector == SectorOf(fields, py)
    ensures r.Some? ==> forall m :: FieldFloat(fields, m, py).Returned? &&
                                    r.value.Get(m) == Sanitise(FieldFloat(fields, m, py).value)
  {
    if Overflows(fields, py) then None
    else
      var values: Values := seq(|Metrics|, i requires 0 <= i < |Metrics| =>
        match FieldFloat(fields, Metrics[i], py) case Returned(f) => Sanitise(f) case Raised => 0.0);
      assert forall m :: FieldFloat(fields, m, py).Returned? by {
        forall m ensures FieldFloat(fields, m, py).Returned? {
          assert Metrics[Slot(m)] == m;
        }
      }
      Some(Stock(ticker, SectorOf(fields, py), values))
  }

  /** One iteration of the loop over `data.items()`: a non-dict value is skipped. */
  function RowOf(entry: (string, Value), py: Python): Option<Stock>
  {
    match entry.1
    case Object(fields) => BuildRecord(entry.0, fields, py)
    case _ => None
  }

  /** The records the loop collects from a sequence of entries, in order. */
  function RowsOf(entries: seq<(string, Value)>, py: Python): Frame
  {
    FilterMap(entries, (e: (string, Value)) => RowOf(e, py))
  }

  /**
   * The stock entries of a payload, or `None` when `process_data` gives up on
   * its shape: the payload is not a dict or has no `'data'` key, its `'data'`
   * is not a dict (the `.get` raises `AttributeError`, which the outer handler
   * catches), or the inner `'data'` is present but not a dict. A missing inner
   * `'data'` reads as `{}`.
   */
  function StockEntries(raw: Value): (r: Option<seq<(string, Value)>>)
    ensures r.Some? ==> raw.Object? && Lookup(raw.entries, "data").Some? && Lookup(raw.entries, "data").value.Object?
    ensures r.Some? ==> var inner := Lookup(Lookup(raw.entries, "data").value.entries, "data");
                        (inner.None? && r.value == []) || inner == Some(Object(r.value))
    ensures forall es ::
              (&& raw.Object? && Lookup(raw.entries, "data").Some? && Lookup(raw.entries, "data").value.Object?
               && Lookup(Lookup(raw.entries, "data").value.entries, "data") == Some(Object(es)))
              ==> r == Some(es)
    ensures (&& raw.Object? && Lookup(raw.entries, "data").Some? && Lookup(raw.entries, "data").value.Object?
             && Lookup(Lookup(raw.entries, "data").value.entries, "data").None?)
            ==> r == Some([])
    ensures r.None? <==>
              || !raw.Object? || Lookup(raw.entries, "data").None? || !Lookup(raw.entries, "data").value.Object?
              || (Lookup(Lookup(raw.entries, "data").value.entries, "data").Some? &&
                  !Lookup(Lookup(raw.entries, "data").value.entries, "data").value.Object?)
  {
    match raw
    case Object(top) =>
      (match Lookup(top, "data")
       case Some(Object(mid)) =>
         (match Lookup(mid, "data")
          case None => Some([])
          case Some(Object(entries)) => Some(entries)
          case Some(_) => None)
       case _ => None)
    case _ => None
  }

  /** The DataFrame `process_data` returns, as a function of the payload. */
  function Normalised(raw: Value, py: Python): Frame
  {
    match StockEntries(raw)
    case None => []
    case Some(entries) => RowsOf(entries, py)
  }

  /**
   * `process_data(raw_data)`: validate the payload's shape, then walk the
   * entries of `data.data` in order, skipping non-dict values and entries whose
   * record cannot be built, and sanitise every number.
   */
  method ProcessData(raw: Value, py: Python) returns (frame: Frame)
    ensures StockEntries(raw).None? ==> frame == []
    ensures StockEntries(raw).Some? ==> frame == RowsOf(StockEntries(raw).value, py)
    ensures frame == Normalised(raw, py)
  {
    if !raw.Object? || Lookup(raw.entries, "data").None? {
      return [];
    }
    var outer := Lookup(raw.entries, "data").value;
    if !outer.Object? {
      return [];
    }
    var data := Lookup(outer.entries, "data").GetOr(Object([]));
    if !data.Object? {
      return [];
    }
    var entries := data.entries;
    frame := [];
    var i := 0;
    while i < |entries|
      invariant 0 <= i <= |entries|
      invariant frame == RowsOf(entries[..i], py)
    {
      var (ticker, stock) := entries[i];
      FilterMapSnoc(entries[..i], entries[i], (e: (string, Value)) => RowOf(e, py));
      assert entries[..i + 1] == entries[..i] + [entries[i]];
      if stock.Object? {
        match BuildRecord(ticker, stock.entries, py)
        case Some(record) =>
          frame := frame + [record];
        case None =>
      }
      i := i + 1;
    }
    assert entries[..i] == entries;
  }

  // ------------------------------------------------------------- properties

  /**
   * How one numeric cell comes out of the payload: missing, `null`, an infinity
   * or NaN (also one parsed from a string), an unparseable string, a list and a
   * dict all give 0.0; a finite number, an integer or a string that converts to
   * a finite float gives that float; a boolean gives 1.0 or 0.0. An integer in
   * a built record never overflowed, since an overflow drops the record.
   */
  lemma CellFromPayload(ticker: string, fields: seq<(string, Value)>, py: Python, s: Stock, m: Metric)
    requires BuildRecord(ticker, fields, py) == Some(s)
    ensures Lookup(fields, JsonKey(m)).None? ==> s.Get(m) == 0.0
    ensures Lookup(fields, JsonKey(m)) == Some(Null) ==> s.Get(m) == 0.0
    ensures forall x :: Lookup(fields, JsonKey(m)) == Some(Num(Finite(x))) ==> s.Get(m) == x
    ensures forall f :: Lookup(fields, JsonKey(m)) == Some(Num(f)) && !f.Finite? ==> s.Get(m) == 0.0
    ensures forall t :: Lookup(fields, JsonKey(m)) == Some(Str(t)) && py.parseFloat(t).None? ==> s.Get(m) == 0.0
    ensures forall t, x :: Lookup(fields, JsonKey(m)) == Some(Str(t)) && py.parseFloat(t) == Some(Finite(x)) ==> s.Get(m) == x
    ensures forall t, f :: Lookup(fields, JsonKey(m)) == Some(Str(t)) && py.parseFloat(t) == Some(f) && !f.Finite? ==>
              s.Get(m) == 0.0
    ensures forall i :: Lookup(fields, JsonKey(m)) == Some(Int(i)) ==> py.intToFloat(i).Some?
    ensures forall i, x :: Lookup(fields, JsonKey(m)) == Some(Int(i)) && py.intToFloat(i) == Some(Finite(x)) ==>
              s.Get(m) == x
    ensures forall i, f :: Lookup(fields, JsonKey(m)) == Some(Int(i)) && py.intToFloat(i) == Some(f) && !f.Finite? ==>
              s.Get(m) == 0.0
    ensures forall b :: Lookup(fields, JsonKey(m)) == Some(Bool(b)) ==> s.Get(m) == if b then 1.0 else 0.0
    ensures forall vs :: Lookup(fields, JsonKey(m)) == Some(List(vs)) ==> s.Get(m) == 0.0
    ensures forall es :: Lookup(fields, JsonKey(m)) == Some(Object(es)) ==> s.Get(m) == 0.0
  {
    var v := Lookup(fields, JsonKey(m)).GetOr(Null);
    assert FieldFloat(fields, m, py) == SafeFloat(v, py);
    assert s.Get(m) == Sanitise(SafeFloat(v, py).value);
  }

  /** A missing `sector` gives `""`; a present one gives `str(value)`, so JSON `null` gives `"None"`. */
  lemma SectorFromPayload(ticker: string, fields: seq<(string, Value)>, py: Python, s: Stock)
    requires BuildRecord(ticker, fields, py) == Some(s)
    ensures Lookup(fields, "sector").None? ==> s.sector == ""
    ensures forall t :: Lookup(fields, "sector") == Some(Str(t)) ==> s.sector == t
    ensures Lookup(fields, "sector") == Some(Null) ==> s.sector == "None"
  {
  }

  /** The key of an entry that yields a record. */
  function AcceptedKey(e: (string, Value), py: Python): Option<string>
  {
    if e.1.Object? && !Overflows(e.1.entries, py) then Some(e.0) else None
  }

  function Tickers(frame: Frame): seq<string>
  {
    seq(|frame|, i requires 0 <= i < |frame| => frame[i].ticker)
  }

  /**
   * The tickers of the frame are, in iteration order, the keys of exactly those
   * entries whose value is a dict and whose record could be built: one record
   * per such entry, none for any other.
   */
  lemma {:induction false} TickersInOrder(entries: seq<(string, Value)>, py: Python)
    ensures Tickers(RowsOf(entries, py)) == FilterMap(entries, (e: (string, Value)) => AcceptedKey(e, py))
  {
    if entries != [] {
      TickersInOrder(entries[1..], py);
      var e := entries[0];
      var head := match RowOf(e, py) case Some(s) => [s] case None => [];
      assert RowsOf(entries, py) == head + RowsOf(entries[1..], py);
      assert Tickers(head + RowsOf(entries[1..], py)) == Tickers(head) + Tickers(RowsOf(entries[1..], py));
    }
  }

  /** No two entries share a key. */
  predicate DistinctKeys(entries: seq<(string, Value)>)
  {
    forall i, j :: 0 <= i < j < |entries| ==> entries[i].0 != entries[j].0
  }

  /** Since a dict has distinct keys, the frame has distinct tickers. */
  lemma {:induction false} DistinctTickers(entries: seq<(string, Value)>, py: Python)
    requires DistinctKeys(entries)
    ensures var frame := RowsOf(entries, py);
            forall i, j :: 0 <= i < j < |frame| ==> frame[i].ticker != frame[j].ticker
  {
    if entries != [] {
      var rest := entries[1..];
      assert DistinctKeys(rest) by {
        forall i, j | 0 <= i < j < |rest| ensures rest[i].0 != rest[j].0 {
          assert rest[i] == entries[i + 1] && rest[j] == entries[j + 1];
        }
      }
      DistinctTickers(rest, py);
      var f := (e: (string, Value)) => RowOf(e, py);
      var tail := RowsOf(rest, py);
      forall k | 0 <= k < |tail| ensures tail[k].ticker != entries[0].0 {
        FilterMapMember(rest, f, tail[k]);
        var i :| 0 <= i < |rest| && f(rest[i]) == Some(tail[k]);
        assert rest[i] == entries[i + 1];
      }
      var head := match RowOf(entries[0], py) case Some(s) => [s] case None => [];
      assert RowsOf(entries, py) == head + tail;
    }
  }
}
