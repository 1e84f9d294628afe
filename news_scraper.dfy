/**
 * The older flex-layout news scraper: each article container becomes a
 * five-field article, with the image taken from the `background-image`
 * style of its image block. A container is modelled by what the scraper
 * extracts from it; the HTML parsing itself is not part of this model.
 */
module FlexNewsScraper {
  import opened Wrappers
  import opened PyText
  import opened NewsText

  /** One scraped article, as this `FlexNewsArticle` holds it: no URL. */
  datatype Article = Article(title: string, imageUrl: string, description: string, timestamp: string, source: string)

  /** The JSON object of an article. */
  type Dict = map<string, string>

  /** The keys `to_dict` writes. */
  const ArticleKeys: set<string> := {"title", "image_url", "description", "timestamp", "source"}

  /** `FlexNewsArticle.to_dict`. */
  function ToDict(a: Article): (d: Dict)
    ensures d.Keys == ArticleKeys && "url" !in d
  {
    map["title" := a.title, "image_url" := a.imageUrl, "description" := a.description,
        "timestamp" := a.timestamp, "source" := a.source]
  }

  /** Reads an article back from its JSON object. */
  function FromDict(d: Dict): (r: Option<Article>)
    ensures r.Some? <==> ArticleKeys <= d.Keys
  {
    if ArticleKeys <= d.Keys then
      Some(Article(d["title"], d["image_url"], d["description"], d["timestamp"], d["source"]))
    else None
  }

  /** The JSON object holds every field unchanged: reading it back gives the article. */
  lemma DictRoundTrip(a: Article)
    ensures FromDict(ToDict(a)) == Some(a)
  {
  }

  // ------------------------------------------------------ the url(...) match

  /** The text that opens a match of `url\((.*?)\)`. */
  const UrlOpen: string := "url("

  /**
   * `url\((.*?)\)` matches `s` from index `i`, with its closing parenthesis
   * at index `j`: `url(` at `i`, `)` at `j`, and no line break in between,
   * since `.` does not match one.
   */
  predicate MatchAt(s: string, i: int, j: int)
  {
    OccursAt(s, UrlOpen, i) && i + |UrlOpen| <= j < |s| && s[j] == ')' && '\n' !in s[i + |UrlOpen|..j]
  }

  /** The first `)` at or after `k`, when `.*?` can reach it from `k` without crossing a line break. */
  function CloseFrom(s: string, k: nat): (r: Option<nat>)
    ensures r.Some? ==> k <= r.value < |s| && s[r.value] == ')' && '\n' !in s[k..r.value]
    ensures r.Some? ==> forall t :: k <= t < r.value ==> s[t] != ')' && s[t] != '\n'
    ensures r.None? ==> forall t :: k <= t < |s| && s[t] == ')' ==> '\n' in s[k..t]
    decreases |s| - k
  {
    if k >= |s| then None
    else if s[k] == ')' then
      assert s[k..k] == [];
      Some(k)
    else if s[k] == '\n' then
      assert forall t :: k < t < |s| ==> s[k..t][0] == '\n';
      None
    else
      var r := CloseFrom(s, k + 1);
      assert forall t :: k < t <= |s| ==> s[k..t] == [s[k]] + s[k + 1..t];
      r
  }

  /**
   * `re.search(r"url\((.*?)\)", s)` scanning from index `from`: the leftmost
   * start that matches, and for it the nearest closing parenthesis.
   */
  function Search(s: string, from: nat): (r: Option<(nat, nat)>)
    ensures r.Some? ==> from <= r.value.0 && MatchAt(s, r.value.0, r.value.1)
    ensures r.Some? ==> forall i, j :: from <= i < r.value.0 ==> !MatchAt(s, i, j)
    ensures r.Some? ==> forall j :: j < r.value.1 ==> !MatchAt(s, r.value.0, j)
    ensures r.Some? ==> forall t :: r.value.0 + |UrlOpen| <= t < r.value.1 ==> s[t] != ')' && s[t] != '\n'
    ensures r.None? ==> forall i, j :: from <= i ==> !MatchAt(s, i, j)
    decreases |s| - from
  {
    if from + |UrlOpen| > |s| then None
    else if OccursAt(s, UrlOpen, from) && CloseFrom(s, from + |UrlOpen|).Some? then
      Some((from, CloseFrom(s, from + |UrlOpen|).value))
    else
      assert forall j :: !MatchAt(s, from, j);
      Search(s, from + 1)
  }

  /** The quote characters `strip("'\"")` removes. */
  predicate IsQuote(c: char)
  {
    c == '\'' || c == '"'
  }

  /**
   * `extract_image_url`: nothing for a missing or empty style; otherwise the
   * text captured by the first `url(...)`, stripped of quotes at both ends.
   */
  function ExtractImageUrl(style: Option<string>): (r: Option<string>)
    ensures style.None? || style == Some("") ==> r.None?
    ensures style.Some? ==>
              (r.Some? <==> exists i, j :: MatchAt(style.value, i, j))
  {
    match style
    case None => None
    case Some(s) =>
      if s == "" then None
      else
        match Search(s, 0)
        case None => None
        case Some((i, j)) => Some(Strip(s[i + |UrlOpen|..j], IsQuote))
  }

  /**
   * The URL extracted is the capture of the leftmost match, ended at its
   * nearest `)`, with leading and trailing quotes removed.
   */
  lemma ExtractedIsCapture(s: string) returns (i: nat, j: nat)
    requires ExtractImageUrl(Some(s)).Some?
    ensures MatchAt(s, i, j)
    ensures forall i', j' :: i' < i ==> !MatchAt(s, i', j')
    ensures forall j' :: j' < j ==> !MatchAt(s, i, j')
    ensures forall t :: i + |UrlOpen| <= t < j ==> s[t] != ')' && s[t] != '\n'
    ensures ExtractImageUrl(Some(s)).value == Strip(s[i + |UrlOpen|..j], IsQuote)
  {
    i, j := Search(s, 0).value.0, Search(s, 0).value.1;
  }

  /**
   * The URL extracted neither starts nor ends with a quote and holds no `)`
   * and no line break; it is the capture with only leading and trailing
   * quotes removed.
   */
  lemma ExtractedShape(s: string)
    requires ExtractImageUrl(Some(s)).Some?
    ensures var u := ExtractImageUrl(Some(s)).value;
            && (u != [] ==> !IsQuote(u[0]) && !IsQuote(u[|u| - 1]))
            && ')' !in u && '\n' !in u
  {
    var i, j := ExtractedIsCapture(s);
    var capture := s[i + |UrlOpen|..j];
    assert ')' !in capture && '\n' !in capture by {
      forall t | 0 <= t < |capture|
        ensures capture[t] != ')' && capture[t] != '\n'
      {
        assert capture[t] == s[i + |UrlOpen| + t];
      }
    }
    StripIsInfix(capture, IsQuote);
    StripKeepsAbsent(capture, IsQuote, ')');
    StripKeepsAbsent(capture, IsQuote, '\n');
  }

  /**
   * A style that starts with `url(` followed by a text without `)` or line
   * break and a closing `)` gives that text, stripped of quotes.
   */
  lemma ExtractFromUrl(u: string, rest: string)
    requires ')' !in u && '\n' !in u
    ensures ExtractImageUrl(Some(UrlOpen + u + ")" + rest)) == Some(Strip(u, IsQuote))
  {
    var s := UrlOpen + u + ")" + rest;
    var k := |UrlOpen| + |u|;
    assert s[..|UrlOpen|] == UrlOpen;
    assert OccursAt(s, UrlOpen, 0);
    assert s[|UrlOpen|..k] == u;
    assert s[k] == ')';
    assert MatchAt(s, 0, k);
    var r := Search(s, 0);
    assert r.Some?;
    assert r.value.0 == 0;
    forall j | j < k
      ensures !MatchAt(s, 0, j)
    {
      if |UrlOpen| <= j {
        assert s[j] == u[j - |UrlOpen|];
      }
    }
    assert r.value.1 == k;
  }

  /** `url('<u>')` and `url("<u>")` give `u` itself when it does not start or end with a quote. */
  lemma ExtractQuotedUrl(u: string, q: char, rest: string)
    requires IsQuote(q) && u != [] && !IsQuote(u[0]) && !IsQuote(u[|u| - 1])
    requires ')' !in u && '\n' !in u
    ensures ExtractImageUrl(Some(UrlOpen + ([q] + u + [q]) + ")" + rest)) == Some(u)
  {
    var quoted := [q] + u + [q];
    assert ')' !in quoted && '\n' !in quoted by {
      forall t | 0 <= t < |quoted|
        ensures quoted[t] != ')' && quoted[t] != '\n'
      {
        if 0 < t < |quoted| - 1 {
          assert quoted[t] == u[t - 1];
        }
      }
    }
    ExtractFromUrl(quoted, rest);
    StripQuotes(u, q);
  }

  lemma StripQuotes(u: string, q: char)
    requires IsQuote(q) && u != [] && !IsQuote(u[0]) && !IsQuote(u[|u| - 1])
    ensures Strip([q] + u + [q], IsQuote) == u
  {
    var quoted := [q] + u + [q];
    assert quoted[1..] == u + [q];
    assert TrimStart(u + [q], IsQuote) == u + [q];
    assert TrimStart(quoted, IsQuote) == u + [q];
    assert (u + [q])[..|u|] == u;
    assert TrimEnd(u, IsQuote) == u;
  }

  // -------------------------------------------------------------- containers

  /**
   * What the scraper finds in one container: the title text, the `style`
   * attribute of the image block (absent when the block or the attribute is
   * missing), the description text and the "time - source" text.
   */
  datatype Container = Container(title: Option<string>, imageStyle: Option<string>,
                                 description: Option<string>, timeSource: Option<string>)

  /**
   * The article of one container. Every field falls back to `""`: a missing
   * title, description or image (including an image URL that extracts to
   * nothing or to an empty string), and a missing "time - source" element
   * gives an empty timestamp and source.
   */
  function Parse(c: Container): (a: Article)
    ensures a.title == c.title.GetOr("") && a.description == c.description.GetOr("")
    ensures a.imageUrl == ExtractImageUrl(c.imageStyle).GetOr("")
    ensures c.imageStyle.None? ==> a.imageUrl == ""
    ensures c.timeSource.None? ==> a.timestamp == "" && a.source == ""
    ensures c.timeSource.Some? ==> (a.timestamp, a.source) == ParseTimestampSource(c.timeSource.value)
  {
    var imageUrl := match c.imageStyle case Some(style) => ExtractImageUrl(Some(style)) case None => Some("");
    var (timestamp, source) := match c.timeSource case Some(text) => ParseTimestampSource(text) case None => ("", "");
    Article(c.title.GetOr(""), imageUrl.GetOr(""), c.description.GetOr(""), timestamp, source)
  }

  /**
   * `scrape_flex_news_articles`: every container, in order, gives one
   * article; there is no limit on their number.
   */
  method ScrapeFlexNewsArticles(containers: seq<Container>) returns (articles: seq<Article>)
    ensures |articles| == |containers|
    ensures forall i :: 0 <= i < |containers| ==> articles[i] == Parse(containers[i])
  {
    articles := [];
    for i := 0 to |containers|
      invariant |articles| == i
      invariant forall k :: 0 <= k < i ==> articles[k] == Parse(containers[k])
    {
      articles := articles + [Parse(containers[i])];
    }
  }
}
