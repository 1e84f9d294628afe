/**
 * Row ordering for the screener: `DataFrame.sort_values(by=column,
 * ascending=...)` and `DataFrame.nlargest(n, column)`, modelled by an
 * insertion sort. Only what pandas promises is stated: the output is a
 * permutation of the input ordered by the key; tie order is not specified.
 */
module Ordering {
  import opened PyText
  import opened Records

  /** The value a row holds in a sort column: a number or a string. */
  datatype Cell = NumCell(x: real) | TextCell(s: string)

  function CellOf(row: Stock, key: SortKey): Cell
  {
    match key
    case NumericKey(m) => NumCell(row.Get(m))
    case TickerKey => TextCell(row.ticker)
    case SectorKey => TextCell(row.sector)
  }

  /** Ascending order of cells: numbers by value, strings by code point; a column never mixes the two. */
  predicate CellLe(a: Cell, b: Cell)
  {
    match (a, b)
    case (NumCell(x), NumCell(y)) => x <= y
    case (TextCell(s), TextCell(t)) => s == t || StrLt(s, t)
    case (NumCell(_), TextCell(_)) => true
    case (TextCell(_), NumCell(_)) => false
  }

  lemma CellLeTotal(a: Cell, b: Cell)
    ensures CellLe(a, b) || CellLe(b, a)
  {
    if a.TextCell? && b.TextCell? {
      StrLtTotal(a.s, b.s);
    }
  }

  lemma CellLeTransitive(a: Cell, b: Cell, c: Cell)
    requires CellLe(a, b) && CellLe(b, c)
    ensures CellLe(a, c)
  {
    if a.TextCell? && b.TextCell? && c.TextCell? && a.s != b.s && b.s != c.s {
      StrLtTransitive(a.s, b.s, c.s);
    }
  }

  /** Row `a` may come before row `b` when sorting by `key`, descending iff `desc`. */
  predicate Before(a: Stock, b: Stock, key: SortKey, desc: bool)
  {
    if desc then CellLe(CellOf(b, key), CellOf(a, key)) else CellLe(CellOf(a, key), CellOf(b, key))
  }

  lemma BeforeTotal(a: Stock, b: Stock, key: SortKey, desc: bool)
    ensures Before(a, b, key, desc) || Before(b, a, key, desc)
  {
    CellLeTotal(CellOf(a, key), CellOf(b, key));
  }

  lemma BeforeTransitive(a: Stock, b: Stock, c: Stock, key: SortKey, desc: bool)
    requires Before(a, b, key, desc) && Before(b, c, key, desc)
    ensures Before(a, c, key, desc)
  {
    if desc {
      CellLeTransitive(CellOf(c, key), CellOf(b, key), CellOf(a, key));
    } else {
      CellLeTransitive(CellOf(a, key), CellOf(b, key), CellOf(c, key));
    }
  }

  /** Every earlier row may come before every later one. */
  predicate SortedBy(rows: seq<Stock>, key: SortKey, desc: bool)
  {
    forall i, j :: 0 <= i < j < |rows| ==> Before(rows[i], rows[j], key, desc)
  }

  /** A row that may precede every row of an ordered sequence can be put in front of it. */
  lemma ConsSorted(h: Stock, rows: seq<Stock>, key: SortKey, desc: bool)
    requires SortedBy(rows, key, desc)
    requires forall j :: 0 <= j < |rows| ==> Before(h, rows[j], key, desc)
    ensures SortedBy([h] + rows, key, desc)
  {
    var r := [h] + rows;
    forall i, j | 0 <= i < j < |r| ensures Before(r[i], r[j], key, desc) {
      assert r[j] == rows[j - 1];
      if i > 0 {
        assert r[i] == rows[i - 1];
      }
    }
  }

  /** A row that may precede the head of an ordered sequence may precede all of it. */
  lemma FrontSorted(x: Stock, rows: seq<Stock>, key: SortKey, desc: bool)
    requires rows != [] && Before(x, rows[0], key, desc) && SortedBy(rows, key, desc)
    ensures SortedBy([x] + rows, key, desc)
  {
    forall j | 0 <= j < |rows| ensures Before(x, rows[j], key, desc) {
      if j > 0 {
        BeforeTransitive(x, rows[0], rows[j], key, desc);
      }
    }
    ConsSorted(x, rows, key, desc);
  }

  /**
   * The head of an ordered sequence stays in front when `x`, which may not
   * precede it, is inserted into the rest.
   */
  lemma BehindSorted(x: Stock, rows: seq<Stock>, tail: seq<Stock>, key: SortKey, desc: bool)
    requires rows != [] && !Before(x, rows[0], key, desc) && SortedBy(rows, key, desc)
    requires SortedBy(tail, key, desc) && multiset(tail) == multiset(rows[1..]) + multiset{x}
    ensures SortedBy([rows[0]] + tail, key, desc)
  {
    BeforeTotal(x, rows[0], key, desc);
    forall j | 0 <= j < |tail| ensures Before(rows[0], tail[j], key, desc) {
      assert tail[j] in multiset(tail);
      if tail[j] != x {
        assert tail[j] in multiset(rows[1..]);
        var i :| 0 <= i < |rows[1..]| && rows[1..][i] == tail[j];
        assert rows[1 + i] == tail[j];
      }
    }
    ConsSorted(rows[0], tail, key, desc);
  }

  /** Places `x` into an ordered sequence before the first row it may precede. */
  function Insert(x: Stock, rows: seq<Stock>, key: SortKey, desc: bool): (r: seq<Stock>)
    ensures multiset(r) == multiset(rows) + multiset{x}
    ensures SortedBy(rows, key, desc) ==> SortedBy(r, key, desc)
    decreases |rows|
  {
    if rows == [] then [x]
    else if Before(x, rows[0], key, desc) then
      assert SortedBy(rows, key, desc) ==> SortedBy([x] + rows, key, desc) by {
        if SortedBy(rows, key, desc) {
          FrontSorted(x, rows, key, desc);
        }
      }
      [x] + rows
    else
      var tail := Insert(x, rows[1..], key, desc);
      assert multiset([rows[0]] + tail) == multiset(rows) + multiset{x} by {
        assert rows == [rows[0]] + rows[1..];
      }
      assert SortedBy(rows, key, desc) ==> SortedBy([rows[0]] + tail, key, desc) by {
        if SortedBy(rows, key, desc) {
          assert SortedBy(rows[1..], key, desc) by {
            forall i, j | 0 <= i < j < |rows[1..]| ensures Before(rows[1..][i], rows[1..][j], key, desc) {
              assert rows[1..][i] == rows[i + 1] && rows[1..][j] == rows[j + 1];
            }
          }
          BehindSorted(x, rows, tail, key, desc);
        }
      }
      [rows[0]] + tail
  }

  /** `sort_values(by=key, ascending=not desc)` up to the order of ties. */
  function Sort(rows: seq<Stock>, key: SortKey, desc: bool): (r: seq<Stock>)
    ensures multiset(r) == multiset(rows)
    ensures SortedBy(r, key, desc)
    decreases |rows|
  {
    if rows == [] then []
    else
      assert rows == [rows[0]] + rows[1..];
      Insert(rows[0], Sort(rows[1..], key, desc), key, desc)
  }

  /** A slice of an ordered sequence is ordered. */
  lemma SortedSlice(rows: seq<Stock>, lo: int, hi: int, key: SortKey, desc: bool)
    requires SortedBy(rows, key, desc)
    ensures SortedBy(PySlice(rows, lo, hi), key, desc)
  {
    var a := SliceBound(lo, |rows|);
    var b := SliceBound(hi, |rows|);
    if a < b {
      var r := rows[a..b];
      forall i, j | 0 <= i < j < |r| ensures Before(r[i], r[j], key, desc) {
        assert r[i] == rows[a + i] && r[j] == rows[a + j];
      }
    }
  }

  /** `nlargest(n, m)`: the first `n` rows in descending order of metric `m`; none when `n <= 0`. */
  function Largest(rows: seq<Stock>, n: int, m: Metric): (r: seq<Stock>)
    ensures |r| == if n <= 0 then 0 else if n < |rows| then n else |rows|
    ensures forall i, j :: 0 <= i < j < |r| ==> r[i].Get(m) >= r[j].Get(m)
  {
    var sorted := Sort(rows, NumericKey(m), true);
    var k := if n <= 0 then 0 else if n < |rows| then n else |rows|;
    assert |sorted| == |rows| by {
      assert |multiset(sorted)| == |multiset(rows)|;
    }
    sorted[..k]
  }

  /**
   * The selection is a sub-multiset of the input, and no row left out has a
   * larger value than a row that was selected.
   */
  lemma LargestIsTop(rows: seq<Stock>, n: int, m: Metric)
    ensures multiset(Largest(rows, n, m)) <= multiset(rows)
    ensures forall x, y :: x in multiset(rows) - multiset(Largest(rows, n, m)) && y in Largest(rows, n, m) ==>
              x.Get(m) <= y.Get(m)
  {
    var sorted := Sort(rows, NumericKey(m), true);
    assert |sorted| == |rows| by {
      assert |multiset(sorted)| == |multiset(rows)|;
    }
    var k := if n <= 0 then 0 else if n < |rows| then n else |rows|;
    assert Largest(rows, n, m) == sorted[..k];
    SplitMultiset(sorted, k);
    forall x, y | x in multiset(rows) - multiset(sorted[..k]) && y in sorted[..k]
      ensures x.Get(m) <= y.Get(m)
    {
      assert x in multiset(sorted[k..]);
      PrefixDominates(sorted, k, m, x, y);
    }
  }

  lemma SplitMultiset(s: seq<Stock>, k: nat)
    requires k <= |s|
    ensures multiset(s) == multiset(s[..k]) + multiset(s[k..])
  {
    assert s == s[..k] + s[k..];
  }

  /** In a descending order, every row of a prefix is at least every row after it. */
  lemma PrefixDominates(s: seq<Stock>, k: nat, m: Metric, x: Stock, y: Stock)
    requires k <= |s| && SortedBy(s, NumericKey(m), true)
    requires x in multiset(s[k..]) && y in s[..k]
    ensures x.Get(m) <= y.Get(m)
  {
    assert x in s[k..];
    var i :| 0 <= i < k && s[i] == y;
    var j :| 0 <= j < |s| - k && s[k..][j] == x;
    assert Before(s[i], s[k + j], NumericKey(m), true);
  }
}
