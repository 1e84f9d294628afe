/**
 * The parts of Python's built-in semantics the backend relies on: sequence
 * slicing with negative bounds, floor division, `str.strip`, `str.find`,
 * `str.split`, ASCII case folding and the code-point order of `str`.
 */
module PyText {

  // ---------------------------------------------------------------- slicing

  /** Python's normalisation of one slice bound against a sequence of length `n`. */
  function SliceBound(i: int, n: nat): (r: nat)
    ensures r <= n
  {
    if i < 0 then (if i + n < 0 then 0 else i + n) else if i > n then n else i
  }

  /** `s[lo:hi]` for a list, a string or `DataFrame.iloc`. */
  function PySlice<T>(s: seq<T>, lo: int, hi: int): seq<T>
  {
    var a := SliceBound(lo, |s|);
    var b := SliceBound(hi, |s|);
    if a < b then s[a..b] else []
  }

  /**
   * A window `[start, start + len)` with non-negative bounds: never longer than
   * `len`, empty exactly when it starts at or past the end (or `len` is 0),
   * full length when it fits, and element `k` is element `start + k` of `s`.
   */
  lemma WindowSlice<T>(s: seq<T>, start: int, len: int)
    requires 0 <= start && 0 <= len
    ensures |PySlice(s, start, start + len)| <= len
    ensures PySlice(s, start, start + len) == [] <==> start >= |s| || len == 0
    ensures start + len <= |s| ==> |PySlice(s, start, start + len)| == len
    ensures var r := PySlice(s, start, start + len);
            forall k :: 0 <= k < |r| ==> r[k] == s[start + k]
  {
  }

  /** `s[:m]`: the first `m` elements, or all but the last `-m` when `m` is negative. */
  lemma PrefixSlice<T>(s: seq<T>, m: int)
    ensures 0 <= m ==> PySlice(s, 0, m) == s[..if m <= |s| then m else |s|]
    ensures m < 0 ==> PySlice(s, 0, m) == s[..if -m <= |s| then |s| + m else 0]
  {
  }

  // --------------------------------------------------------- floor division

  /** Python's `a // b`, which rounds toward negative infinity. */
  function FloorDiv(a: int, b: int): (q: int)
    requires b != 0
    ensures b > 0 ==> b * q <= a < b * q + b
    ensures b < 0 ==> b * q + b < a <= b * q
  {
    if b > 0 then
      assert b * (a / b) + a % b == a;
      a / b
    else
      assert (-b) * ((-a) / (-b)) + (-a) % (-b) == -a;
      (-a) / (-b)
  }

  // ------------------------------------------------------------- stripping

  /** The characters for which Python's `str.isspace` holds. */
  predicate IsSpace(c: char)
  {
    || c == ' '
    || ('\t' <= c <= '\r')
    || ('\U{1C}' <= c <= '\U{1F}')
    || c == '\U{85}' || c == '\U{A0}' || c == '\U{1680}'
    || ('\U{2000}' <= c <= '\U{200A}')
    || c == '\U{2028}' || c == '\U{2029}' || c == '\U{202F}' || c == '\U{205F}' || c == '\U{3000}'
  }

  /** The first index at or after `k` whose character `drop` does not select, or `|s|`. */
  function SkipFrom(s: string, drop: char -> bool, k: nat): (n: nat)
    requires k <= |s|
    ensures k <= n <= |s|
    ensures forall i :: k <= i < n ==> drop(s[i])
    ensures n < |s| ==> !drop(s[n])
    decreases |s| - k
  {
    if k < |s| && drop(s[k]) then SkipFrom(s, drop, k + 1) else k
  }

  /** The end of `s[..m]` once the trailing characters `drop` selects are removed. */
  function SkipBack(s: string, drop: char -> bool, m: nat): (n: nat)
    requires m <= |s|
    ensures n <= m
    ensures forall i :: n <= i < m ==> drop(s[i])
    ensures 0 < n ==> !drop(s[n - 1])
    decreases m
  {
    if 0 < m && drop(s[m - 1]) then SkipBack(s, drop, m - 1) else m
  }

  /** Removes every leading character that `drop` selects. */
  function TrimStart(s: string, drop: char -> bool): (r: string)
    ensures |r| <= |s| && r == s[|s| - |r|..]
    ensures forall i :: 0 <= i < |s| - |r| ==> drop(s[i])
    ensures r != [] ==> !drop(r[0])
  {
    s[SkipFrom(s, drop, 0)..]
  }

  /** Removes every trailing character that `drop` selects. */
  function TrimEnd(s: string, drop: char -> bool): (r: string)
    ensures |r| <= |s| && r == s[..|r|]
    ensures forall i :: |r| <= i < |s| ==> drop(s[i])
    ensures r != [] ==> !drop(r[|r| - 1])
  {
    s[..SkipBack(s, drop, |s|)]
  }

  /** `s.strip(chars)`: both ends trimmed of the characters `drop` selects. */
  function Strip(s: string, drop: char -> bool): string
  {
    TrimEnd(TrimStart(s, drop), drop)
  }

  /** How many characters `Strip` removes from the front of `s`. */
  function StripOffset(s: string, drop: char -> bool): nat
  {
    |s| - |TrimStart(s, drop)|
  }

  /**
   * `Strip(s)` is the infix of `s` starting at `StripOffset(s)`: everything
   * before it and everything after it is droppable, it neither starts nor ends
   * with a droppable character, and inner characters are untouched.
   */
  lemma StripIsInfix(s: string, drop: char -> bool)
    ensures StripOffset(s, drop) + |Strip(s, drop)| <= |s|
    ensures Strip(s, drop) == s[StripOffset(s, drop)..StripOffset(s, drop) + |Strip(s, drop)|]
    ensures forall i :: 0 <= i < StripOffset(s, drop) ==> drop(s[i])
    ensures forall i :: StripOffset(s, drop) + |Strip(s, drop)| <= i < |s| ==> drop(s[i])
    ensures Strip(s, drop) != [] ==> !drop(Strip(s, drop)[0]) && !drop(Strip(s, drop)[|Strip(s, drop)| - 1])
  {
    var t := TrimStart(s, drop);
    var a := |s| - |t|;
    var r := TrimEnd(t, drop);
    var b := a + |r|;
    assert StripOffset(s, drop) == a && Strip(s, drop) == r;
    assert r == s[a..b] by {
      assert t == s[a..];
      assert r == t[..|r|];
    }
    assert forall i :: b <= i < |s| ==> drop(s[i]) by {
      forall i | b <= i < |s| ensures drop(s[i]) {
        assert s[i] == t[i - a];
      }
    }
    assert r != [] ==> !drop(r[0]) && !drop(r[|r| - 1]) by {
      if r != [] {
        assert r[0] == t[0];
      }
    }
  }

  /** Stripping never introduces a character: one absent from `s` is absent from `Strip(s)`. */
  lemma StripKeepsAbsent(s: string, drop: char -> bool, c: char)
    requires c !in s
    ensures c !in Strip(s, drop)
  {
    StripIsInfix(s, drop);
    var o := StripOffset(s, drop);
    var u := Strip(s, drop);
    forall t | 0 <= t < |u|
      ensures u[t] != c
    {
      assert u[t] == s[o + t];
    }
  }

  /** Stripping twice is stripping once. */
  lemma {:induction false} StripIdempotent(s: string, drop: char -> bool)
    ensures Strip(Strip(s, drop), drop) == Strip(s, drop)
  {
    var t := TrimStart(s, drop);
    var u := TrimEnd(t, drop);
    if u != [] {
      assert u[0] == t[0];
    }
    assert TrimStart(u, drop) == u;
    assert TrimEnd(u, drop) == u;
  }

  // ------------------------------------------------------ finding, splitting

  /** `sep` occurs in `s` starting at index `i`. */
  predicate OccursAt(s: string, sep: string, i: int)
  {
    0 <= i && i + |sep| <= |s| && s[i..i + |sep|] == sep
  }

  /** The leftmost occurrence of `sep` in `s` at or after index `k`, or -1 when there is none. */
  function FindFrom(s: string, sep: string, k: nat): (r: int)
    ensures r == -1 || (k <= r && OccursAt(s, sep, r))
    ensures r != -1 ==> forall j :: k <= j < r ==> !OccursAt(s, sep, j)
    ensures r == -1 ==> forall j :: k <= j ==> !OccursAt(s, sep, j)
    decreases |s| - k
  {
    if k + |sep| > |s| then -1
    else if OccursAt(s, sep, k) then k
    else FindFrom(s, sep, k + 1)
  }

  /** `s.find(sep)`: the index of the leftmost occurrence of `sep`, or -1 when there is none. */
  function Find(s: string, sep: string): (r: int)
    ensures -1 <= r
    ensures 0 <= r ==> OccursAt(s, sep, r) && forall j :: 0 <= j < r ==> !OccursAt(s, sep, j)
    ensures r == -1 ==> forall j :: !OccursAt(s, sep, j)
  {
    FindFrom(s, sep, 0)
  }

  /** `s.split(sep)` for a non-empty separator: cut at each leftmost occurrence, scanning left to right. */
  function Split(s: string, sep: string): (parts: seq<string>)
    requires sep != []
    ensures |parts| >= 1
    decreases |s|
  {
    var i := Find(s, sep);
    if i == -1 then [s] else [s[..i]] + Split(s[i + |sep|..], sep)
  }

  /** A split at the leftmost separator: the part before it, then the split of the rest. */
  lemma SplitCons(s: string, sep: string, i: nat)
    requires sep != [] && Find(s, sep) == i
    ensures i + |sep| <= |s|
    ensures Split(s, sep) == [s[..i]] + Split(s[i + |sep|..], sep)
  {
  }

  /** `sep.join(parts)`. */
  function Join(parts: seq<string>, sep: string): string
    decreases |parts|
  {
    if |parts| == 0 then "" else if |parts| == 1 then parts[0] else parts[0] + sep + Join(parts[1..], sep)
  }

  /** Splitting loses nothing: joining the parts with the separator gives back the text. */
  lemma {:induction false} JoinSplit(s: string, sep: string)
    requires sep != []
    ensures Join(Split(s, sep), sep) == s
    decreases |s|
  {
    var i := Find(s, sep);
    if i != -1 {
      var rest := s[i + |sep|..];
      var tail := Split(rest, sep);
      SplitCons(s, sep, i);
      JoinSplit(rest, sep);
      JoinCons(s[..i], tail, sep);
      assert s == s[..i] + sep + rest by {
        assert s[i..i + |sep|] == sep;
        assert s == s[..i] + s[i..i + |sep|] + rest;
      }
    }
  }

  /** Joining a part in front of at least one more part puts the separator between them. */
  lemma JoinCons(head: string, parts: seq<string>, sep: string)
    requires |parts| >= 1
    ensures Join([head] + parts, sep) == head + sep + Join(parts, sep)
  {
    assert ([head] + parts)[1..] == parts;
  }

  /** A prefix of `s` that ends before the leftmost separator holds no separator. */
  lemma BeforeFirstIsFree(s: string, sep: string)
    requires sep != [] && Find(s, sep) != -1
    ensures Find(s[..Find(s, sep)], sep) == -1
  {
    var i := Find(s, sep);
    var head := s[..i];
    forall j | 0 <= j
      ensures !OccursAt(head, sep, j)
    {
      if j + |sep| <= |head| {
        assert head[j..j + |sep|] == s[j..j + |sep|];
        assert !OccursAt(s, sep, j);
      }
    }
  }

  /** No part of a split contains the separator. */
  lemma {:induction false} SplitPartsAreFree(s: string, sep: string)
    requires sep != []
    ensures forall k :: 0 <= k < |Split(s, sep)| ==> Find(Split(s, sep)[k], sep) == -1
    decreases |s|
  {
    var i := Find(s, sep);
    if i != -1 {
      var rest := s[i + |sep|..];
      SplitPartsAreFree(rest, sep);
      BeforeFirstIsFree(s, sep);
      SplitCons(s, sep, i);
    }
  }

  /** Without the separator the split is the whole text. */
  lemma SplitNone(s: string, sep: string)
    requires sep != [] && Find(s, sep) == -1
    ensures Split(s, sep) == [s]
  {
  }

  /** When the separator does not occur again after its leftmost occurrence at `i`, the split has the two halves. */
  lemma SplitOnce(s: string, sep: string, i: nat)
    requires sep != [] && Find(s, sep) == i && Find(s[i + |sep|..], sep) == -1
    ensures Split(s, sep) == [s[..i], s[i + |sep|..]]
  {
    var rest := s[i + |sep|..];
    assert Split(rest, sep) == [rest];
  }

  /** A further separator after the leftmost one at `i` gives at least three parts. */
  lemma SplitTwice(s: string, sep: string, i: nat)
    requires sep != [] && Find(s, sep) == i && Find(s[i + |sep|..], sep) != -1
    ensures |Split(s, sep)| >= 3
  {
    var rest := s[i + |sep|..];
    SplitCons(s, sep, i);
    SplitCons(rest, sep, Find(rest, sep));
  }

  /**
   * `s.split(sep)` has exactly two parts iff the separator occurs and does not
   * occur again after its leftmost occurrence; the parts are then the text
   * before and after that occurrence.
   */
  lemma SplitInTwo(s: string, sep: string)
    requires sep != []
    ensures var i := Find(s, sep);
            |Split(s, sep)| == 2 <==> i != -1 && Find(s[i + |sep|..], sep) == -1
    ensures var i := Find(s, sep);
            |Split(s, sep)| == 2 ==> i != -1 && Split(s, sep) == [s[..i], s[i + |sep|..]]
  {
    var i := Find(s, sep);
    if i == -1 {
      SplitNone(s, sep);
    } else if Find(s[i + |sep|..], sep) == -1 {
      SplitOnce(s, sep, i);
    } else {
      SplitTwice(s, sep, i);
    }
  }

  // ------------------------------------------------------------ case folding

  /** ASCII lower-casing of one character. */
  function LowerChar(c: char): char
  {
    if 'A' <= c <= 'Z' then (c as int + 32) as char else c
  }

  /** ASCII upper-casing of one character. */
  function UpperChar(c: char): char
  {
    if 'a' <= c <= 'z' then (c as int - 32) as char else c
  }

  function Lower(s: string): string
  {
    seq(|s|, i requires 0 <= i < |s| => LowerChar(s[i]))
  }

  function Upper(s: string): string
  {
    seq(|s|, i requires 0 <= i < |s| => UpperChar(s[i]))
  }

  /** Upper-casing a query before a case-insensitive comparison changes nothing. */
  lemma LowerOfUpper(s: string)
    ensures Lower(Upper(s)) == Lower(s)
  {
  }

  /** `needle` occurs in `hay` when both are compared case-insensitively. */
  predicate ContainsIgnoringCase(hay: string, needle: string)
  {
    Find(Lower(hay), Lower(needle)) != -1
  }

  // ------------------------------------------------------------ string order

  /** Python's `a < b` on `str`: lexicographic by code point, a proper prefix first. */
  predicate StrLt(a: string, b: string)
    decreases |a|
  {
    if |a| == 0 then |b| > 0
    else if |b| == 0 then false
    else if a[0] != b[0] then a[0] < b[0]
    else StrLt(a[1..], b[1..])
  }

  lemma {:induction false} StrLtIrreflexive(a: string)
    ensures !StrLt(a, a)
    decreases |a|
  {
    if |a| > 0 {
      StrLtIrreflexive(a[1..]);
    }
  }

  lemma {:induction false} StrLtTransitive(a: string, b: string, c: string)
    requires StrLt(a, b) && StrLt(b, c)
    ensures StrLt(a, c)
    decreases |a|
  {
    if |a| > 0 && a[0] == b[0] && b[0] == c[0] {
      StrLtTransitive(a[1..], b[1..], c[1..]);
    }
  }

  lemma {:induction false} StrLtTotal(a: string, b: string)
    ensures a == b || StrLt(a, b) || StrLt(b, a)
    decreases |a|
  {
    if |a| > 0 && |b| > 0 && a[0] == b[0] {
      StrLtTotal(a[1..], b[1..]);
      if a[1..] == b[1..] {
        assert a == [a[0]] + a[1..] && b == [b[0]] + b[1..];
      }
    }
  }

  lemma {:induction false} StrLtAsymmetric(a: string, b: string)
    requires StrLt(a, b)
    ensures !StrLt(b, a)
    decreases |a|
  {
    if |a| > 0 && a[0] == b[0] {
      StrLtAsymmetric(a[1..], b[1..]);
    }
  }
}
