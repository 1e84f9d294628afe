/**
 * The stockanalysis.com news scraper used by the news service: each article
 * container of the page becomes a six-field article, at most `max_articles`
 * of them. A container is modelled by what the scraper extracts from it;
 * the HTML parsing itself is not part of this model.
 */
module ApiNewsScraper {
  import opened Wrappers
  import opened PyText
  import opened FilterMaps
  import opened NewsText

  /** One scraped article, as `FlexNewsArticle` holds it. */
  datatype Article = Article(title: string, url: string, imageUrl: string, description: string,
                             timestamp: string, source: string)

  /** The JSON object of an article. */
  type Dict = map<string, string>

  /** The keys `to_dict` writes. */
  const ArticleKeys: set<string> := {"title", "url", "image_url", "description", "timestamp", "source"}

  /** `FlexNewsArticle.to_dict`. */
  function ToDict(a: Article): (d: Dict)
    ensures d.Keys == ArticleKeys
  {
    map["title" := a.title, "url" := a.url, "image_url" := a.imageUrl, "description" := a.description,
        "timestamp" := a.timestamp, "source" := a.source]
  }

  /** Reads an article back from its JSON object. */
  function FromDict(d: Dict): (r: Option<Article>)
    ensures r.Some? <==> ArticleKeys <= d.Keys
  {
    if ArticleKeys <= d.Keys then
      Some(Article(d["title"], d["url"], d["image_url"], d["description"], d["timestamp"], d["source"]))
    else None
  }

  /** The JSON object holds every field unchanged: reading it back gives the article. */
  lemma DictRoundTrip(a: Article)
    ensures FromDict(ToDict(a)) == Some(a)
  {
  }

  /** Two different articles never give the same JSON object. */
  lemma ToDictInjective(a: Article, b: Article)
    requires ToDict(a) == ToDict(b)
    ensures a == b
  {
    DictRoundTrip(a);
    DictRoundTrip(b);
  }

  /** The `h3 > a` title link: its text, and its `href` attribute if present. */
  datatype Anchor = Anchor(text: string, href: Option<string>)

  /**
   * What the scraper finds in one container: the title link (absent when
   * there is no `h3` or no `a` in it), the `img` tag (absent, or present with
   * or without `src`), the text of the description paragraph and the text of
   * the "time - source" element.
   */
  datatype Container = Container(link: Option<Anchor>, image: Option<Option<string>>,
                                 description: Option<string>, timeSource: Option<string>)

  /**
   * The article of one container, or `None` when extracting it raises: a
   * missing title link (`AttributeError` on `None`), a link without `href` or
   * an image without `src` (`KeyError`).
   */
  function Parse(c: Container): (r: Option<Article>)
    ensures r.None? <==> c.link.None? || c.link.value.href.None? || c.image == Some(None)
    ensures r.Some? ==>
              && r.value.title == c.link.value.text && r.value.url == c.link.value.href.value
              && r.value.imageUrl == (if c.image.Some? then c.image.value.value else "")
              && r.value.description == c.description.GetOr("")
              && (r.value.timestamp, r.value.source) ==
                 (if c.timeSource.Some? then ParseTimestampSource(c.timeSource.value) else ("", ""))
  {
    match c.link
    case None => None
    case Some(link) =>
      match link.href
      case None => None
      case Some(url) =>
        match c.image
        case Some(None) => None
        case _ =>
          var imageUrl := match c.image case Some(Some(src)) => src case _ => "";
          var (timestamp, source) := match c.timeSource case Some(text) => ParseTimestampSource(text) case None => ("", "");
          Some(Article(link.text, url, imageUrl, c.description.GetOr(""), timestamp, source))
  }

  /** The default `max_articles`. */
  const DefaultMaxArticles: int := 8

  /** The articles of the containers kept by `news_containers[:max_articles]`, in order. */
  function Scraped(containers: seq<Container>, maxArticles: int): seq<Article>
  {
    FilterMap(PySlice(containers, 0, maxArticles), Parse)
  }

  /**
   * `scrape_flex_news_articles`: the first `max_articles` containers are
   * parsed one by one; one that fails is skipped and the loop goes on.
   */
  method ScrapeFlexNewsArticles(containers: seq<Container>, maxArticles: int) returns (articles: seq<Article>)
    ensures articles == Scraped(containers, maxArticles)
  {
    var selected := PySlice(containers, 0, maxArticles);
    articles := [];
    for i := 0 to |selected|
      invariant articles == FilterMap(selected[..i], Parse)
    {
      FilterMapSnoc(selected[..i], selected[i], Parse);
      assert selected[..i + 1] == selected[..i] + [selected[i]];
      var parsed := Parse(selected[i]);
      if parsed.Some? {
        articles := articles + [parsed.value];
      }
    }
    assert selected[..|selected|] == selected;
  }

  /**
   * The slice keeps the first `SliceBound(max_articles, n)` of `n` containers
   * (all but the last `-max_articles` for a negative limit), so a
   * non-negative `max_articles` bounds the output. The bound is reached only
   * when every kept container parses: a failing container among them leaves
   * fewer articles.
   */
  lemma ScrapedAtMost(containers: seq<Container>, maxArticles: int)
    ensures var kept := SliceBound(maxArticles, |containers|);
            && |Scraped(containers, maxArticles)| <= kept
            && (|Scraped(containers, maxArticles)| == kept <==> forall i :: 0 <= i < kept ==> Parse(containers[i]).Some?)
    ensures maxArticles >= 0 ==> |Scraped(containers, maxArticles)| <= maxArticles
  {
    var selected := PySlice(containers, 0, maxArticles);
    var kept := SliceBound(maxArticles, |containers|);
    assert selected == containers[..kept];
    FilterMapComplete(selected, Parse);
  }

  /** With the default limit, at most 8 articles are returned. */
  lemma DefaultLimit(containers: seq<Container>)
    ensures |Scraped(containers, DefaultMaxArticles)| <= 8
  {
    ScrapedAtMost(containers, DefaultMaxArticles);
  }

  /**
   * An article is returned exactly when one of the kept containers parses to
   * it; containers past the limit are never looked at.
   */
  lemma ScrapedFrom(containers: seq<Container>, maxArticles: int, a: Article)
    ensures a in Scraped(containers, maxArticles) <==>
              exists i :: 0 <= i < SliceBound(maxArticles, |containers|) && Parse(containers[i]) == Some(a)
  {
    var selected := PySlice(containers, 0, maxArticles);
    var kept := SliceBound(maxArticles, |containers|);
    assert selected == containers[..kept];
    FilterMapMember(selected, Parse, a);
    if exists i :: 0 <= i < kept && Parse(containers[i]) == Some(a) {
      var i :| 0 <= i < kept && Parse(containers[i]) == Some(a);
      assert selected[i] == containers[i];
    }
  }

  /** Articles keep the order of their containers: the articles of a prefix come first. */
  lemma ScrapedInOrder(containers: seq<Container>, more: seq<Container>)
    ensures Scraped(containers + more, |containers|) == Scraped(containers, |containers|)
    ensures Scraped(containers + more, |containers + more|) ==
              Scraped(containers, |containers|) + Scraped(more, |more|)
  {
    var all := containers + more;
    assert PySlice(all, 0, |containers|) == containers;
    assert PySlice(all, 0, |all|) == all;
    assert PySlice(containers, 0, |containers|) == containers;
    assert PySlice(more, 0, |more|) == more;
    FilterMapAppend(containers, more, Parse);
  }
}
