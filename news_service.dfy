/**
 * `NewsService`: the scraped news articles, cached for six hours. A fresh
 * cache is served without scraping; otherwise the scrape result replaces it
 * when non-empty, and an empty or failed scrape falls back to the stale
 * cache. The clock and the scrape are parameters of the model.
 */
module NewsCache {
  import opened Wrappers
  import opened ApiNewsScraper

  /** Six hours in microseconds, the resolution of `datetime`. */
  const CacheDuration: int := 6 * 60 * 60 * 1_000_000

  /** What `scrape_flex_news_from_url` gives: a list of article objects, or an exception. */
  datatype Fetch = Fetched(articles: seq<Dict>) | FetchRaised

  /** The two cache fields, `_cached_articles` and `_last_updated` (in microseconds). */
  datatype Cache = Cache(articles: Option<seq<Dict>>, lastUpdated: Option<int>)

  /** Both fields set and the cache younger than six hours at time `now`. */
  predicate Fresh(c: Cache, now: int)
  {
    c.articles.Some? && c.lastUpdated.Some? && now - c.lastUpdated.value < CacheDuration
  }

  /** The stale cache when it holds articles (it is truthy), else `[]`. */
  function Fallback(c: Cache): (r: seq<Dict>)
    ensures r != [] <==> c.articles.Some? && c.articles.value != []
    ensures r != [] ==> r == c.articles.value
  {
    if c.articles.Some? && c.articles.value != [] then c.articles.value else []
  }

  /** The cache after one `fetch_all_news` at time `now`, and the articles it returns. */
  function Refresh(c: Cache, now: int, fetch: Fetch): (Cache, seq<Dict>)
  {
    if Fresh(c, now) then (c, c.articles.value)
    else
      match fetch
      case Fetched(articles) =>
        if articles != [] then (Cache(Some(articles), Some(now)), articles) else (c, Fallback(c))
      case FetchRaised => (c, Fallback(c))
  }

  /** The articles are set exactly when the time is, and are never an empty list. */
  predicate CacheValid(c: Cache)
  {
    (c.articles.Some? <==> c.lastUpdated.Some?) && (c.articles.Some? ==> c.articles.value != [])
  }

  /** A fresh cache is returned as it is, whatever the scrape would have given: no scrape happens. */
  lemma FreshServesCache(c: Cache, now: int, fetch: Fetch, other: Fetch)
    requires Fresh(c, now)
    ensures Refresh(c, now, fetch) == (c, c.articles.value)
    ensures Refresh(c, now, fetch) == Refresh(c, now, other)
  {
  }

  /** A cache written at time `t` is fresh until just before `t + 6h`; at exactly six hours it has expired. */
  lemma ExpiresAtSixHours(c: Cache, t: int, now: int)
    requires c.articles.Some? && c.lastUpdated == Some(t)
    ensures Fresh(c, now) <==> now < t + CacheDuration
    ensures !Fresh(c, t + CacheDuration) && Fresh(c, t + CacheDuration - 1)
  {
  }

  /** A non-empty scrape of an expired cache replaces it, is stamped with `now`, and is returned. */
  lemma ScrapeReplacesCache(c: Cache, now: int, articles: seq<Dict>)
    requires !Fresh(c, now) && articles != []
    ensures Refresh(c, now, Fetched(articles)) == (Cache(Some(articles), Some(now)), articles)
  {
  }

  /**
   * An empty or failed scrape of an expired cache leaves both fields as they
   * were and returns the stale articles if there are any, else `[]`.
   */
  lemma FailedScrapeFallsBack(c: Cache, now: int, fetch: Fetch)
    requires !Fresh(c, now) && (fetch == Fetched([]) || fetch == FetchRaised)
    ensures Refresh(c, now, fetch).0 == c
    ensures Refresh(c, now, fetch).1 != [] <==> c.articles.Some? && c.articles.value != []
    ensures Refresh(c, now, fetch).1 != [] ==> Refresh(c, now, fetch).1 == c.articles.value
  {
  }

  /** Every refresh keeps the cache valid. */
  lemma RefreshKeepsValid(c: Cache, now: int, fetch: Fetch)
    requires CacheValid(c)
    ensures CacheValid(Refresh(c, now, fetch).0)
  {
  }

  /**
   * On a valid cache the service answers `[]` exactly when it has nothing
   * cached afterwards; otherwise it answers what it now caches, or the fresh
   * cache it kept.
   */
  lemma EmptyOnlyWithoutCache(c: Cache, now: int, fetch: Fetch)
    requires CacheValid(c)
    ensures var (d, r) := Refresh(c, now, fetch);
            (r == [] <==> d.articles.None?) && (d.articles.Some? ==> r == d.articles.value)
  {
  }

  /** The news service with its two cache fields. */
  class NewsService {
    var cachedArticles: Option<seq<Dict>>
    var lastUpdated: Option<int>

    /** The cache fields as a value. */
    function State(): Cache
      reads this
    {
      Cache(cachedArticles, lastUpdated)
    }

    ghost predicate Valid()
      reads this
    {
      CacheValid(State())
    }

    /** A new service has nothing cached. */
    constructor()
      ensures cachedArticles == None && lastUpdated == None
      ensures Valid()
    {
      cachedArticles := None;
      lastUpdated := None;
    }

    /**
     * `fetch_all_news` at time `now`; `fetch` is what the scrape gives, and
     * it is consulted only when the cache is not fresh.
     */
    method FetchAllNews(now: int, fetch: Fetch) returns (articles: seq<Dict>)
      modifies this
      ensures (State(), articles) == Refresh(old(State()), now, fetch)
      ensures old(Valid()) ==> Valid()
    {
      ghost var before := State();
      if CacheValid(before) {
        RefreshKeepsValid(before, now, fetch);
      }
      if cachedArticles.Some? && lastUpdated.Some? {
        var sinceUpdate := now - lastUpdated.value;
        if sinceUpdate < CacheDuration {
          return cachedArticles.value;
        }
      }
      match fetch {
        case Fetched(scraped) =>
          if scraped != [] {
            cachedArticles := Some(scraped);
            lastUpdated := Some(now);
            return scraped;
          } else if cachedArticles.Some? && cachedArticles.value != [] {
            return cachedArticles.value;
          } else {
            return [];
          }
        case FetchRaised =>
          if cachedArticles.Some? && cachedArticles.value != [] {
            return cachedArticles.value;
          }
          return [];
      }
    }
  }
}
