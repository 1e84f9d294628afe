/**
 * `parse_timestamp_source`, shared word for word by both news scrapers: the
 * text under an article's "time - source" line is split at `" - "`, and
 * only a split into exactly two parts is taken apart.
 */
module NewsText {
  import opened PyText

  /** The separator between the timestamp and the source. */
  const Separator: string := " - "

  /**
   * The timestamp and source of an article. The text is taken apart exactly
   * when the leftmost `" - "` is followed by no further one; both halves are
   * then stripped of whitespace. Any other text is returned unchanged with an
   * empty source.
   */
  function ParseTimestampSource(text: string): (r: (string, string))
    ensures var f := Find(text, Separator);
            f != -1 && Find(text[f + |Separator|..], Separator) == -1 ==>
              r == (Strip(text[..f], IsSpace), Strip(text[f + |Separator|..], IsSpace))
    ensures var f := Find(text, Separator);
            !(f != -1 && Find(text[f + |Separator|..], Separator) == -1) ==> r == (text, "")
  {
    SplitInTwo(text, Separator);
    var parts := Split(text, Separator);
    if |parts| == 2 then (Strip(parts[0], IsSpace), Strip(parts[1], IsSpace)) else (text, "")
  }

  /** A text without any `" - "` comes back whole, with no source. */
  lemma NoSeparatorUnchanged(text: string)
    requires forall i :: !OccursAt(text, Separator, i)
    ensures ParseTimestampSource(text) == (text, "")
  {
  }

  /**
   * Formatting a timestamp and a source without hyphens as `"<t> - <s>"` and
   * parsing the line gives back both, stripped; already stripped halves come
   * back unchanged.
   */
  lemma ParseFormatted(t: string, s: string)
    requires '-' !in t && '-' !in s
    ensures ParseTimestampSource(t + Separator + s) == (Strip(t, IsSpace), Strip(s, IsSpace))
    ensures Strip(t, IsSpace) == t && Strip(s, IsSpace) == s ==> ParseTimestampSource(t + Separator + s) == (t, s)
  {
    var text := t + Separator + s;
    var k := |t|;
    assert OccursAt(text, Separator, k) by {
      assert text[k..k + 3] == Separator;
    }
    forall j | 0 <= j < k
      ensures !OccursAt(text, Separator, j)
    {
      if j + 1 < k {
        assert text[j + 1] == t[j + 1];
      } else {
        assert text[j + 1] == ' ';
      }
      assert text[j..j + 3][1] == text[j + 1] != '-';
    }
    var f := Find(text, Separator);
    assert f == k;
    var rest := text[k + 3..];
    assert rest == s;
    assert text[..k] == t;
    forall j | 0 <= j
      ensures !OccursAt(rest, Separator, j)
    {
      if j + 3 <= |rest| {
        assert rest[j..j + 3][1] == rest[j + 1] != '-';
      }
    }
    assert Find(rest, Separator) == -1;
  }
}
