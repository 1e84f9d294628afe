# Scrynt backend core in Dafny

This project models the core of the Scrynt stock-screener backend (a FastAPI
service written in Python) and proves properties of the model. Five parts are
covered:

- **Data normalisation**: `StockDataFetcher.process_data` and `_safe_float`. They turn the
  decoded JSON payload of the screener API into the stock DataFrame: the
  shape checks, per-stock skipping, `float()` with 0.0 fallbacks, and the replacement of
  infinities and NaN by 0.
- **The screener**: the `StockFilter` class.
  - A list of registered row predicates and a lazily cached frame.
  - `get_results` filters, optionally sorts, counts and cuts the page.
  - `get_top_gainers`, `get_highest_dividend_yields` and `get_available_sectors`.
- **The `GET /api/stocks` handler**: it resets the shared screener, registers the
  filters a query supplies, and builds the JSON reply. The reply holds the
  page, the count before pagination, the ceiling page count, or the error
  message.
- **The news scrapers**: both `news_scraper.py` files.
  - `parse_timestamp_source` is the same in both.
  - `extract_image_url` is a leftmost, non-greedy regex match.
  - The two container loops and the two `to_dict` conversions.
- **The news cache**: `NewsService.fetch_all_news`, a six-hour cache with a
  fallback to stale articles.

Python semantics that matter are written out:
- slice bounds, including negative ones;
- floor division `//`;
- `str.strip`, `str.split` and `str.find`;
- case-insensitive matching;
- code-point string order;
- `KeyError` message text;
- truthiness.

HTML parsing, HTTP, the browser and the clock are not modelled. They enter as
parameters: a container record of the strings the scraper extracts, the scrape
outcome, the current time, and the fetched frame.

Files:
- `wrappers.dfy`: `Option`, `Outcome`, `Result`.
- `pytext.dfy`: the Python string and slice semantics.
- `filtermap.dfy`: order-preserving filtering.
- `records.dfy`: the stock record and its columns.
- `data_fetcher.dfy`.
- `ordering.dfy`: `sort_values` and `nlargest`.
- `stock_filter.dfy`.
- `stocks_route.dfy`.
- `news_text.dfy`.
- `news_api_scraper.dfy`.
- `news_scraper.dfy`.
- `news_service.dfy`.

## Model

| member | source | states |
|---|---|---|
| PyText.PySlice | backend/api/services/stock_filter.py:120-122 | definition of Python's `s[lo:hi]` on a list, string or `iloc`; its properties are the rows SliceBound, WindowSlice and PrefixSlice |
| PyText.SliceBound | backend/api/services/stock_filter.py:120-122 | a resolved slice bound lies within `[0, n]`; what it resolves to is stated through `PrefixSlice` and `WindowSlice` |
| PyText.WindowSlice | backend/api/services/stock_filter.py:120-122 | a slice `[start:start+len]` with non-negative bounds: at most `len` long, empty exactly when it starts past the end or `len` is 0, full when it fits, element k is element start+k |
| PyText.PrefixSlice | backend/api/services/news_scraper.py:53 | `s[:m]` is the first `m` elements for `m >= 0` and drops the last `-m` for a negative `m` |
| PyText.FloorDiv | backend/api/routes/stocks.py:95 | Python `//` rounds toward negative infinity: `b*q <= a < b*q + b` for `b > 0`, the mirror image for `b < 0` |
| PyText.TrimStart | backend/api/services/news_scraper.py:39 | the result is a suffix, everything removed is droppable, and it does not start with a droppable character |
| PyText.TrimEnd | backend/api/services/news_scraper.py:39 | the result is a prefix, everything removed is droppable, and it does not end with a droppable character |
| PyText.StripIsInfix | backend/services/news_scraper.py:39 | `strip` keeps one contiguous infix: only droppable characters are removed from either end, and the inner characters are untouched |
| PyText.StripIdempotent | backend/services/news_scraper.py:48 | stripping twice is stripping once |
| PyText.Find | backend/api/services/news_scraper.py:37 | the leftmost occurrence of the separator, or -1 when it occurs nowhere |
| PyText.Strip | backend/api/services/news_scraper.py:39 | definition of `str.strip()`: `TrimEnd` of `TrimStart`; its properties are the rows StripIsInfix and StripIdempotent |
| PyText.Join | backend/api/services/news_scraper.py:37 | definition of `sep.join(parts)`, the inverse that JoinSplit states for `split` |
| PyText.Split | backend/api/services/news_scraper.py:37 | `str.split(sep)` always yields at least one part |
| PyText.JoinSplit | backend/api/services/news_scraper.py:37 | joining the parts of a split with the separator gives back the text |
| PyText.SplitPartsAreFree | backend/api/services/news_scraper.py:37 | no part of a split contains the separator: searching any part for it gives -1 |
| PyText.SplitInTwo | backend/api/services/news_scraper.py:37-38 | exactly two parts iff the remainder after the leftmost separator has none, and then the parts are the text before and after it |
| PyText.LowerOfUpper | backend/api/services/stock_filter.py:28 | lower-casing the upper-cased query is lower-casing the query |
| PyText.StrLtIrreflexive | backend/api/services/stock_filter.py:33 | code-point string order is irreflexive |
| PyText.StrLtTransitive | backend/api/services/stock_filter.py:33 | code-point string order is transitive |
| PyText.StrLtTotal | backend/api/services/stock_filter.py:33 | any two different strings are ordered one way |
| PyText.StrLtAsymmetric | backend/api/services/stock_filter.py:33 | never both `a < b` and `b < a` |
| FilterMaps.Filter | backend/api/services/stock_filter.py:109-110 | a boolean selection keeps only accepted rows and never grows |
| FilterMaps.FilterAppend | backend/api/services/stock_filter.py:110 | selection distributes over concatenation, so rows keep their relative order |
| FilterMaps.FilterMember | backend/api/services/stock_filter.py:110 | a row survives iff it was present and accepted |
| FilterMaps.FilterSubMultiset | backend/api/services/stock_filter.py:110 | selection never duplicates a row |
| FilterMaps.FilterExtensional | backend/api/services/stock_filter.py:110 | predicates that agree select the same rows |
| FilterMaps.FilterTwice | backend/api/services/stock_filter.py:109-110 | selecting by p then q is selecting once by p and q |
| FilterMaps.FilterKeepsAll | backend/api/services/stock_filter.py:109-110 | a predicate accepting every row keeps the frame |
| FilterMaps.FilterMap | backend/services/news_scraper.py:62-95 | a loop that appends on success and skips on error yields at most one result per input |
| FilterMaps.FilterMapAppend | backend/api/services/news_scraper.py:53-86 | a skipped element does not affect what comes after it |
| FilterMaps.FilterMapSnoc | backend/api/services/news_scraper.py:82-86 | one loop iteration appends the converted element exactly when it converts |
| FilterMaps.FilterMapComplete | backend/api/services/news_scraper.py:84-86 | nothing is lost iff every element converts |
| FilterMaps.FilterMapMember | backend/api/services/news_scraper.py:53-88 | a result is the conversion of some element, and every successful conversion is a result |
| Records.Slot | backend/api/services/data_fetcher.py:80-113 | every numeric column has one position in the record |
| Records.MetricNamed | backend/api/services/stock_filter.py:113 | the column found has the name asked for; none is found when no column has it |
| Records.ColumnNamed | backend/api/services/stock_filter.py:113 | `sort_by in df.columns` holds exactly for `ticker`, `sector` and the numeric column names, and identifies that column |
| DataFetcher.PyFloat | backend/api/services/data_fetcher.py:141 | definition of the built-in `float(value)` on each JSON value kind; its properties are the rows SafeFloat and CellFromPayload |
| DataFetcher.PyStr | backend/api/services/data_fetcher.py:93 | definition of `str(value)`: `"None"`, `"True"`/`"False"`, a string itself, else the given `str`; its properties are the row SectorFromPayload |
| DataFetcher.Sanitise | backend/api/services/data_fetcher.py:126 | definition of `replace([inf, -inf], nan).fillna(0)` on one cell; its properties are the rows BuildRecord and CellFromPayload |
| DataFetcher.Overflows | backend/api/services/data_fetcher.py:79-118 | definition of the record literal raising: some column's `_safe_float` lets an exception escape; its properties are the row BuildRecord |
| DataFetcher.RowOf | backend/api/services/data_fetcher.py:75-118 | definition of one loop iteration: a non-dict value is skipped, else the record is built or skipped; its properties are the rows BuildRecord, CellFromPayload and SectorFromPayload |
| DataFetcher.RowsOf | backend/api/services/data_fetcher.py:75-118 | definition of the records the loop collects, in entry order; its properties are the rows TickersInOrder and DistinctTickers |
| DataFetcher.Normalised | backend/api/services/data_fetcher.py:52-134 | definition of the frame `process_data` returns; ProcessData is proved equal to it |
| DataFetcher.Lookup | backend/api/services/data_fetcher.py:66 | `dict.get` gives the value of the first entry with the key, or reports that no entry has it |
| DataFetcher.SafeFloat | backend/api/services/data_fetcher.py:136-143 | `None` and a `ValueError`/`TypeError` give 0.0, a converted value is returned, and an exception escapes iff an integer overflows `float` |
| DataFetcher.BuildRecord | backend/api/services/data_fetcher.py:79-118 | the record fails exactly when some column's conversion raises; otherwise it carries the key as ticker, the `str` of the sector, and every cell converted and sanitised |
| DataFetcher.StockEntries | backend/api/services/data_fetcher.py:62-72 | the stock entries are `data.data` of a dict payload whose `data` is a dict, and a missing inner `data` reads as `{}`; the payload is given up on exactly when it is not a dict, has no `data`, its `data` is not a dict, or its inner `data` is present but not a dict |
| DataFetcher.ProcessData | backend/api/services/data_fetcher.py:52-134 | an empty frame for a malformed payload; otherwise one record per entry that is a dict and whose record can be built, in entry order |
| DataFetcher.CellFromPayload | backend/api/services/data_fetcher.py:82-126 | a missing or `null` value, an infinity or NaN (also one converted from a string or an int), an unparseable string, a list and a dict give 0.0; a finite number, an int or a string that converts to a finite float gives that float; a bool gives 1.0 or 0.0; an int in a built record never overflowed |
| DataFetcher.SectorFromPayload | backend/api/services/data_fetcher.py:93 | a missing sector gives `""`, a string is kept, `null` becomes `"None"` |
| DataFetcher.TickersInOrder | backend/api/services/data_fetcher.py:75-118 | the tickers are, in order, the keys of exactly the entries that are dicts and whose record could be built |
| DataFetcher.DistinctTickers | backend/api/services/data_fetcher.py:75-115 | no two rows share a ticker, since dict keys are distinct |
| Ordering.CellLeTotal | backend/api/services/stock_filter.py:114 | any two cells of a column are comparable |
| Ordering.CellLeTransitive | backend/api/services/stock_filter.py:114 | the cell order is transitive |
| Ordering.BeforeTotal | backend/api/services/stock_filter.py:114 | any two rows are comparable in either direction of the sort |
| Ordering.BeforeTransitive | backend/api/services/stock_filter.py:114 | the row order is transitive |
| Ordering.ConsSorted | backend/api/services/stock_filter.py:114 | a row that may precede every row of a sorted sequence can be put in front of it |
| Ordering.FrontSorted | backend/api/services/stock_filter.py:114 | a row that may precede the head of a sorted sequence may go in front of all of it |
| Ordering.BehindSorted | backend/api/services/stock_filter.py:114 | the head of a sorted sequence stays in front when a later row is inserted into its rest |
| Ordering.Insert | backend/api/services/stock_filter.py:114 | insertion adds exactly one row and keeps a sorted sequence sorted |
| Ordering.Sort | backend/api/services/stock_filter.py:114 | `sort_values` returns a permutation of the rows, ordered by the key, descending iff asked |
| Ordering.SortedSlice | backend/api/services/stock_filter.py:114-122 | every page of a sorted frame is sorted |
| Ordering.Largest | backend/api/services/stock_filter.py:162 | `nlargest(n)` returns `min(n, rows)` rows (none for n <= 0) in non-increasing order |
| Ordering.LargestIsTop | backend/api/services/stock_filter.py:162 | the selection is drawn from the rows, and no row left out has a larger value than one selected |
| Ordering.SplitMultiset | backend/api/services/stock_filter.py:162 | a prefix and the rest together hold every row once |
| Ordering.PrefixDominates | backend/api/services/stock_filter.py:162 | in a descending order every row of a prefix is at least every later row |
| Screener.Holds | backend/api/services/stock_filter.py:25-93 | definition of the row mask each registered lambda computes; its properties are the rows Apply, Where, RangeMeaning and TickerQueryCase |
| Screener.Apply | backend/api/services/stock_filter.py:110 | `df[filter_func(df)]` keeps exactly the rows passing the predicate |
| Screener.Where | backend/api/services/stock_filter.py:109-110 | the filter loop keeps exactly the rows passing every predicate, without duplicating any |
| Screener.WhereSnoc | backend/api/services/stock_filter.py:109-110 | one more loop iteration is filtering by the predicate list extended by one |
| Screener.WhereNothing | backend/api/services/stock_filter.py:109-110 | with no registered filters the frame is unchanged |
| Screener.TickerQueryCase | backend/api/services/stock_filter.py:28 | matching the upper-cased query ignoring case is matching the query ignoring case |
| Screener.Range | backend/api/services/stock_filter.py:40-93 | a range registers one predicate per bound supplied |
| Screener.RangeMeaning | backend/api/services/stock_filter.py:40-93 | a row passes a range exactly when it lies within the supplied bounds, both inclusive |
| Screener.Arrange | backend/api/services/stock_filter.py:113-114 | a permutation, sorted by the column when `sort_by` names one, otherwise the rows unchanged |
| Screener.PageStart | backend/api/services/stock_filter.py:120 | the page start is non-negative for `page >= 1` and `limit >= 0` |
| Screener.PageRowsFrom | backend/api/services/stock_filter.py:122 | every row of a page is a row of the sequence it was cut from |
| Screener.ResultsSatisfyFilters | backend/api/services/stock_filter.py:106-124 | `get_results` fails iff the frame has no columns and a filter is registered, with the KeyError of the first filter's column; otherwise the count is the filtered count and each row is from the frame and passes every filter |
| Screener.PageWindow | backend/api/services/stock_filter.py:120-122 | a page holds at most `limit` rows, is empty iff it starts past the end or `limit` is 0, and its k-th row is row start+k |
| Screener.ResultsPage | backend/api/services/stock_filter.py:117-124 | the page holds at most `limit` rows and at most the count, is empty iff it starts at or past the count or `limit` is 0, and its k-th row is row `(page-1)*limit + k` of the arranged rows |
| Screener.ResultsOrder | backend/api/services/stock_filter.py:113-122 | a page is ordered by the `sort_by` column when it names one, otherwise it is a page of the filtered rows in frame order |
| Screener.PeriodColumn | backend/api/services/stock_filter.py:140-152 | the change column of one of the six periods, and the one-week column for any other |
| Screener.TopRowsQualify | backend/api/services/stock_filter.py:155-162 | `nlargest` over the kept rows picks `min(limit, kept)` of them (none for `limit <= 0`), never more copies of a row than the frame holds, each a kept row of the frame |
| Screener.TopRowsDominate | backend/api/services/stock_filter.py:155-162 | no kept row left out has a larger value than one selected |
| Screener.DividendLeaders | backend/api/services/stock_filter.py:164-166 | the KeyError on a frame without columns; otherwise `min(limit, positive-yield rows)` rows (none for `limit <= 0`), a sub-multiset of the frame, each with positive yield, in non-increasing yield order, none omitted above one selected |
| Screener.InsertUnique | backend/api/services/stock_filter.py:33 | inserting into a strictly ascending list keeps it strictly ascending and adds exactly the new element |
| Screener.SortedUnique | backend/api/services/stock_filter.py:33 | `sorted(unique(xs))` is strictly ascending with exactly the elements of `xs` |
| Screener.SectorList | backend/api/services/stock_filter.py:31-33 | the KeyError on a frame without columns; otherwise the distinct sectors, strictly ascending, exactly those of some row |
| Screener.StockFilter.constructor | backend/api/services/stock_filter.py:8-11 | no filters and no cached frame |
| Screener.StockFilter.Df | backend/api/services/stock_filter.py:13-17 | the cached frame, or the fetched one, which is then cached |
| Screener.StockFilter.ResetFilters | backend/api/services/stock_filter.py:19-23 | clears the filters and the cache and returns the screener itself |
| Screener.StockFilter.FilterByTicker | backend/api/services/stock_filter.py:25-29 | appends a ticker predicate for a non-empty ticker, nothing otherwise, and returns the screener |
| Screener.StockFilter.FilterBySector | backend/api/services/stock_filter.py:35-38 | appends a sector predicate for a non-empty list, nothing otherwise |
| Screener.StockFilter.AddRange | backend/api/services/stock_filter.py:40-93 | appends `>= lo` and then `<= hi` for the bounds supplied |
| Screener.StockFilter.FilterByMarketCap | backend/api/services/stock_filter.py:40-45 | appends the market-cap bounds supplied, the cache untouched |
| Screener.StockFilter.FilterByDividendYield | backend/api/services/stock_filter.py:47-52 | appends the dividend-yield bounds supplied |
| Screener.StockFilter.FilterByPeg | backend/api/services/stock_filter.py:54-59 | appends the PEG bounds supplied |
| Screener.StockFilter.FilterByPb | backend/api/services/stock_filter.py:61-66 | appends the P/B bounds supplied |
| Screener.StockFilter.FilterByPe | backend/api/services/stock_filter.py:68-73 | appends the forward P/E bounds supplied |
| Screener.StockFilter.FilterByEpsGrowth | backend/api/services/stock_filter.py:75-78 | appends the EPS-growth minimum if supplied |
| Screener.StockFilter.FilterByRevenueGrowth | backend/api/services/stock_filter.py:80-83 | appends the revenue-growth minimum if supplied |
| Screener.StockFilter.FilterByRoe | backend/api/services/stock_filter.py:85-88 | appends the ROE minimum if supplied |
| Screener.StockFilter.FilterByRoa | backend/api/services/stock_filter.py:90-93 | appends the ROA minimum if supplied |
| Screener.FilterRows | backend/api/services/stock_filter.py:109-110 | the filter loop leaves `Where(base, filters)`, or the KeyError of the first filter's column when the frame has no columns and a filter is registered |
| Screener.Results | backend/api/services/stock_filter.py:95-124 | definition of `get_results`: the KeyError of the first filter on a frame without columns, else the page of the filtered, arranged rows and their count; its properties are the rows ResultsSatisfyFilters, ResultsPage and ResultsOrder |
| Screener.StockFilter.GetResults | backend/api/services/stock_filter.py:95-124 | the loop computes `Results` of the cached (or fetched) frame and the registered filters, caches the frame and keeps the filters |
| Screener.StockFilter.GetTopGainers | backend/api/services/stock_filter.py:126-162 | the KeyError on a frame without columns; otherwise `min(limit, qualifying rows)` rows (none for `limit <= 0`), a sub-multiset of the fetched frame, each with positive price and change, largest change first, none omitted above one selected |
| Screener.StockFilter.GetHighestDividendYields | backend/api/services/stock_filter.py:164-166 | returns `DividendLeaders` of the cached (or fetched) frame, so its exact row count, selection and order, and caches that frame |
| Screener.StockFilter.GetAvailableSectors | backend/api/services/stock_filter.py:31-33 | the sector list of the cached (or fetched) frame |
| StocksRoute.Registered | backend/api/routes/stocks.py:46-71 | definition of the filters the handler registers, in order; its properties are the rows RegisteredIffRequested, ValuationMembers and GrowthMembers |
| StocksRoute.Respond | backend/api/routes/stocks.py:82-112 | definition of the reply built from the `get_results` outcome: the error reply, the empty page with zero totals, or the page with its counts; its properties are the rows NoDivisionByZero, AnswerFailure, ValidQueryPages and EmptyPageReportsZero |
| StocksRoute.Answer | backend/api/routes/stocks.py:73-112 | definition of the reply to a query over the fetched frame; its properties are the rows AnswerFailure, ValidQueryPages, EmptyPageReportsZero and NegativeLimitAccepted |
| StocksRoute.RangeMembers | backend/api/routes/stocks.py:52-71 | a range registers exactly `>= lo` when `lo` is given and `<= hi` when `hi` is given |
| StocksRoute.RegisteredIffRequested | backend/api/routes/stocks.py:46-71 | a predicate is registered iff the query asks for it: a non-empty ticker or sector list, or a supplied bound |
| StocksRoute.RangeRequested | backend/api/routes/stocks.py:52-71 | the range of one column, built from that column's query bounds, holds exactly the bounds the query requests on it |
| StocksRoute.BoundedMetrics | backend/api/routes/stocks.py:52-71 | only the five valuation columns take a maximum, and only they and the four growth columns a minimum |
| StocksRoute.ValuationMembers | backend/api/routes/stocks.py:52-63 | the two-sided ranges register exactly the bounds supplied for their five columns |
| StocksRoute.GrowthMembers | backend/api/routes/stocks.py:64-71 | the minimum-only ranges register exactly the minimums supplied for their four columns |
| StocksRoute.TotalPages | backend/api/routes/stocks.py:95 | for a positive limit, the smallest page count covering the total |
| StocksRoute.NoDivisionByZero | backend/api/routes/stocks.py:83-95 | a zero limit always gives an empty page, so the ceiling division never divides by zero |
| StocksRoute.AnswerFailure | backend/api/routes/stocks.py:41-112 | the reply is an error iff filters are registered on a frame without columns, with the first filter's KeyError text as message |
| StocksRoute.PlainQueryRegistersNothing | backend/api/routes/stocks.py:46-71 | a query with no filter parameter registers nothing |
| StocksRoute.NegativeLimitAccepted | backend/api/routes/stocks.py:34-95 | the accepted `limit=-1` over n >= 2 rows returns n-1 rows and `total_pages == 2 - n` |
| StocksRoute.ValidQueryPages | backend/api/routes/stocks.py:94-105 | for a valid query a non-empty page has at most `limit` rows passing every filter, the filtered count, the ceiling page count and the requested page |
| StocksRoute.EmptyPageReportsZero | backend/api/routes/stocks.py:83-92 | for a valid query the page is empty iff it starts past the filtered count, and then every total is 0 |
| StocksRoute.GetStocks | backend/api/routes/stocks.py:41-105 | registers exactly `Registered(q)`, caches the fetched frame and answers `Answer(q)` |
| StocksRoute.RegisterText | backend/api/routes/stocks.py:46-51 | appends the ticker and sector filters the query supplies |
| StocksRoute.RegisterValuation | backend/api/routes/stocks.py:52-63 | appends the market-cap, yield, PEG, P/B and P/E ranges in order |
| StocksRoute.RegisterGrowth | backend/api/routes/stocks.py:64-71 | appends the EPS-growth, revenue-growth, ROE and ROA minimums in order |
| StocksRoute.Serve | backend/api/routes/stocks.py:15-34 | a query outside the intended bounds is rejected with the screener untouched; any other is answered by `get_stocks` |
| NewsText.ParseTimestampSource | backend/api/services/news_scraper.py:34-40 | both halves, stripped, when the leftmost `" - "` has no other after it; otherwise the text unchanged and `""` |
| NewsText.NoSeparatorUnchanged | backend/services/news_scraper.py:43-49 | a text without `" - "` comes back whole with an empty source |
| NewsText.ParseFormatted | backend/services/news_scraper.py:43-49 | `"<t> - <s>"` with hyphen-free halves parses back to both halves, stripped |
| ApiNewsScraper.ToDict | backend/api/services/news_scraper.py:24-32 | the object has exactly the six keys |
| ApiNewsScraper.FromDict | backend/api/services/news_scraper.py:24-32 | an object with the six keys reads back as an article |
| ApiNewsScraper.DictRoundTrip | backend/api/services/news_scraper.py:24-32 | every field is stored unchanged: reading the object back gives the article |
| ApiNewsScraper.ToDictInjective | backend/api/services/news_scraper.py:24-32 | distinct articles give distinct objects |
| ApiNewsScraper.Parse | backend/api/services/news_scraper.py:55-82 | fails iff the title link or its `href` is missing or the image has no `src`; otherwise link text and `href`, the `src` or `""`, the description or `""`, the parsed time line or `("", "")` |
| ApiNewsScraper.ScrapeFlexNewsArticles | backend/api/services/news_scraper.py:42-88 | the loop returns the parsed articles of the sliced containers, in order, skipping failures |
| ApiNewsScraper.Scraped | backend/api/services/news_scraper.py:53-88 | definition of the articles of `containers[:max_articles]`, failures skipped; its properties are the rows ScrapedAtMost, ScrapedFrom, ScrapedInOrder and DefaultLimit |
| ApiNewsScraper.ScrapedAtMost | backend/api/services/news_scraper.py:53 | at most as many articles as containers kept (at most `max_articles` when it is non-negative), with equality iff every kept container parses |
| ApiNewsScraper.DefaultLimit | backend/api/services/news_scraper.py:42 | the default limit returns at most 8 articles |
| ApiNewsScraper.ScrapedFrom | backend/api/services/news_scraper.py:53-88 | an article is returned iff some kept container parses to it |
| ApiNewsScraper.ScrapedInOrder | backend/api/services/news_scraper.py:53-86 | the articles of earlier containers come before those of later ones |
| FlexNewsScraper.ToDict | backend/services/news_scraper.py:22-29 | the object has exactly the five keys, with no `url` |
| FlexNewsScraper.FromDict | backend/services/news_scraper.py:22-29 | an object with the five keys reads back as an article |
| FlexNewsScraper.DictRoundTrip | backend/services/news_scraper.py:22-29 | every field is stored unchanged |
| FlexNewsScraper.CloseFrom | backend/services/news_scraper.py:36 | the nearest `)` reachable without a line break, or none reachable |
| FlexNewsScraper.Search | backend/services/news_scraper.py:36 | `re.search` finds the leftmost start of a match and, for it, the nearest closing parenthesis, or reports that nothing matches |
| FlexNewsScraper.ExtractImageUrl | backend/services/news_scraper.py:31-41 | nothing for a missing or empty style; a URL iff the style contains a match of `url\((.*?)\)` |
| FlexNewsScraper.ExtractedIsCapture | backend/services/news_scraper.py:36-40 | the URL is the capture of the leftmost, shortest match with quotes stripped |
| FlexNewsScraper.ExtractedShape | backend/services/news_scraper.py:39 | the URL neither starts nor ends with a quote and holds no `)` and no line break |
| FlexNewsScraper.ExtractFromUrl | backend/services/news_scraper.py:36-40 | a style starting `url(<u>)` gives `u`, stripped of quotes |
| FlexNewsScraper.ExtractQuotedUrl | backend/services/news_scraper.py:39 | `url('<u>')` and `url("<u>")` give `u` |
| FlexNewsScraper.StripQuotes | backend/services/news_scraper.py:39 | stripping one pair of surrounding quotes gives the inner text |
| FlexNewsScraper.Parse | backend/services/news_scraper.py:63-91 | missing title, description or image become `""`, an image URL that is `None` or empty becomes `""`, and a missing time line gives `("", "")` |
| FlexNewsScraper.ScrapeFlexNewsArticles | backend/services/news_scraper.py:51-97 | one article per container, in container order, with no limit |
| NewsCache.Refresh | backend/api/services/news_service.py:14-46 | definition of one `fetch_all_news` on the cache fields; its properties are the rows FreshServesCache, ScrapeReplacesCache, FailedScrapeFallsBack, RefreshKeepsValid and EmptyOnlyWithoutCache |
| NewsCache.Fallback | backend/api/services/news_service.py:33-38 | the stale articles when the cache is truthy, else `[]` |
| NewsCache.FreshServesCache | backend/api/services/news_service.py:19-23 | a fresh cache is returned unchanged, whatever the scrape would give |
| NewsCache.ExpiresAtSixHours | backend/api/services/news_service.py:12-21 | the cache is fresh strictly before six hours; at exactly six hours it has expired |
| NewsCache.ScrapeReplacesCache | backend/api/services/news_service.py:27-32 | a non-empty scrape replaces the cache, is stamped with the time and is returned |
| NewsCache.FailedScrapeFallsBack | backend/api/services/news_service.py:33-46 | an empty or failed scrape leaves the state unchanged and returns the stale articles if any, else `[]` |
| NewsCache.RefreshKeepsValid | backend/api/services/news_service.py:10-30 | the articles are set iff the time is, and are never empty |
| NewsCache.EmptyOnlyWithoutCache | backend/api/services/news_service.py:14-46 | on a valid cache `[]` is returned iff nothing is cached afterwards, and otherwise the cached articles are returned |
| NewsCache.NewsService.constructor | backend/api/services/news_service.py:9-12 | nothing cached, and the cache is valid |
| NewsCache.NewsService.FetchAllNews | backend/api/services/news_service.py:14-46 | the new fields and the returned list are those of `Refresh` on the old fields, and validity is preserved |

## Left out

- HTTP and browser I/O are not modelled: `fetch_data`, `get_dataframe`, both `scrape_flex_news_from_url`, Playwright and `requests`. The decoded payload, the fetched frame and the scrape outcome are parameters.
- BeautifulSoup is not modelled. The DOM search and `get_text(strip=True)` are inside it, so a container is the record of the strings and attributes the scraper extracts.
- The clock is a parameter. `datetime.now()` gives `now` in microseconds, and `fetcher.last_updated` is the reply's `lastUpdated`.
- `float(str)`, `float(int)` overflow and `str()` of a number, list or dict are taken as given functions (`DataFetcher.Python`). Floating point is modelled as exact reals, with infinities and NaN as separate values.
- `get_undervalued_growth_stocks`, `save_data`, the `__main__` block, the other route handlers, the application wiring and all logging are not part of this model.
- The ticker filter: `str.contains` interprets the ticker query as a regular expression. The model matches it as a plain substring, and case folding is ASCII only.
- Ordering.Sort: the order `sort_values` gives to ties is not stated. Only the ordering and the permutation are proved.
- Ordering.Largest: `nlargest` keeps the first of tied rows (pandas' default `keep='first'`). The model does not state which tied row is kept, and neither do TopRowsQualify, DividendLeaders and GetTopGainers, which build on it. Only the count, the selection and the ordering are proved.
- Query bounds are reals. NaN or infinite bounds in the query string are not modelled.
- Screener.StockFilter.GetTopGainers reads a frame fetched separately from the cache, as the source does. The model takes that frame as a parameter.
- FlexNewsScraper.ScrapeFlexNewsArticles: the `except` branch is not modelled. None of its extraction steps can raise on a container of already extracted strings, so every container yields an article.
- DataFetcher.Value: an object is a list of entries, so it can repeat a key, which no decoded Python dict does. `Lookup` and `ProcessData` are still stated for such values: the first entry wins, and repeated tickers give repeated records. Only `DistinctTickers` assumes distinct keys, which a real payload always has.
- The news route builds a fresh `NewsService` per request, so in practice the cache never carries over. The service is modelled on its own.

## Findings

| source | as written | input that shows it | evidently intended | confidence | as-written member | corrected member |
|---|---|---|---|---|---|---|
| backend/api/routes/stocks.py:34 | `limit` is validated only by `le=1000`, so zero and negative page sizes are accepted | `page=1&limit=-1` over three rows: the reply holds two rows and `total_pages == -1` | `1 <= limit <= 1000` | not executed | StocksRoute.NegativeLimitAccepted | StocksRoute.Serve |
