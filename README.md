# Romanian energy-news scrapers, modelled in Dafny

The repository searches Romanian news sites for articles about a fixed list
of energy companies. It has three variants of the search step:

- `SeleniumNewsScraper` (get_web_links.py) drives a pool of Firefox browsers.
  It reads each search page's article elements into stubs. A stub is a title,
  URL, date and source. The dates may be relative ("acum 5 minute").
- `RomanianNewsScraper` (test_news.py) sends one HTTP request per search. It
  reads the HTML with CSS selectors and parses dates with a per-source
  `strptime` format, after replacing Romanian month names by their numbers.
- `WebScraper` (scraper.py) is an older single-browser variant.

All three enumerate one search per (company, alias, source) and collect the
stubs. The first two keep one record per URL.

The model covers the sequential logic: the date normalisers, the element
filters, the early returns, the task enumeration, the aggregation and the
URL-keyed deduplication, the browser pool, and the scroll loop. Browsers,
HTTP, HTML parsing, the clock and the `datetime` parsers are not run. Their
outcomes are parameters:

- `web` maps a search URL to what the browser did.
- `fetch` maps a request to an HTTP response.
- `join` stands for `urljoin`.
- `now` is the current instant in microseconds.
- `iso` stands for `isoformat`.
- A `Parsing` value stands for `strptime`, `fromisoformat` and `isoformat`.

Modules, one concept each:

| file | module | contents |
|---|---|---|
| wrappers.dfy | Wrappers | `Option` |
| text.dfy | Text | Python's `str.lower`, `str.replace`, `in`, `str.strip`, `str.isdigit` and `int()` of a digit string, each with its reference properties |
| orchestration.dfy | Orchestration | task enumeration, future aggregation, the element-loop filter-map `Collect`, and the URL-keyed dictionary comprehension |
| selenium.dfy | Selenium | what the two Selenium scrapers share: search URL, stub, `safe_get`, `extract_element_text`, page outcomes, `scroll_page` |
| relative_date.dfy | RelativeDate | `SeleniumNewsScraper.normalize_date` |
| get_web_links.dfy | GetWebLinks | element filter, browser pool class, `scrape_source`, `main` |
| test_news.dfy | TestNews | month substitution and format dispatch, `scrape_source`, `create_search_queries`, `main` with completion order |
| scraper.dfy | Scraper | `scrape_page` as written and with the scroll, the element filter, `run` |

Where the code and the design description disagree, the model follows the
code:

- With no relative marker, get_web_links' `normalize_date` does not return its
  input unchanged. It returns the input lower-cased, with "acum" and "în urmă"
  removed (`RelativeDate.AbsoluteDateIsLowerCased`).
- The magnitude is not the first run of digits. It is every digit of the
  string run together, so "acum 1 ora si 30 minute" is 130 minutes back
  (`RelativeDate.HoursAndMinutesCountAsMinutes`).
- The plural "ore" is not read as hours (`RelativeDate.PluralHoursNotRecognised`).
  The "zi" inside "azi" ("today") is read as days (`RelativeDate.TodayReadAsDays`).
- test_news emits stubs whose title is empty, and stubs whose date is `None`
  (`TestNews.SoupStubSpec`). The non-empty title and URL invariant holds only
  in the two Selenium scrapers.
- In test_news, which duplicate of a URL survives depends on the order in which
  the futures complete (`TestNews.SurvivorDependsOnOrder`). In get_web_links
  it is the last one in submission order.
- In get_web_links, `scrape_source` catches every exception itself, so no
  future raises (`GetWebLinks.Outcomes`).
- In test_news, the per-article `try` catches everything the article loop can
  raise. The outer handler can therefore only fire before any stub was
  collected, and it returns `[]`.
- In test_news, `antena3` dates are parsed with `%B` (a month name) after the
  Romanian month names were replaced by numbers. Only dates that still hold an
  English month name can parse. The parser is abstract here, so this is noted
  and not proved.

## Model

| member | source | states |
|---|---|---|
| Text.Lower | get_web_links.py:224 | `str.lower` over the modelled alphabet; characterised by `Text.LowerIsLowered` and `Text.LowerAppend` |
| Text.LowerIsLowered | get_web_links.py:224 | `lower` gives a lower-case string, and leaves a lower-case string unchanged |
| Text.LowerAppend | get_web_links.py:224 | `lower` works character by character: it distributes over concatenation |
| Text.LowerCharIdempotent | test_news.py:111 | lower-casing a character twice is lower-casing it once |
| Text.ReplaceAll | test_news.py:111 | `str.replace(p, q)`: every non-overlapping occurrence of `p`, scanned left to right, replaced by `q`; characterised by `Text.ReplaceWithoutMatch`, `Text.ReplaceRemovesAll` and `Text.ReplaceKeepsAbsent` |
| Text.ReplaceWithoutMatch | get_web_links.py:225 | `replace` of a pattern that does not occur returns the string unchanged |
| Text.ReplaceRemovesAll | test_news.py:111 | after `replace(p, q)`, `p` no longer occurs when `q` shares no character with `p` |
| Text.ReplaceKeepsAbsent | test_news.py:111 | `replace` cannot create a word that shares no character with the replacement and was absent before |
| Text.ReplaceKeepsLowered | test_news.py:111 | replacing in a lower-case string by a lower-case text gives a lower-case string |
| Text.ReplaceAtEnd | get_web_links.py:90 | a template ending in its only replacement field formats to the prefix followed by the value |
| Text.TrimStart | get_web_links.py:202 | the result is a suffix; everything cut is white space; it does not start with white space |
| Text.TrimEnd | get_web_links.py:202 | the result is a prefix; everything cut is white space; it does not end with white space |
| Text.Strip | get_web_links.py:202 | `str.strip()`: the text with leading and trailing white space removed; characterised by `Text.StripMeetsReference` and `Text.StripCharacterised` |
| Text.StripMeetsReference | get_web_links.py:202 | `strip` returns the stretch of the input with white space only around it and none at its ends |
| Text.StripCharacterised | get_web_links.py:202 | that reference description has exactly one solution, the result of `strip` (both directions) |
| Text.StripEmptyIffAllSpace | get_web_links.py:126 | the stripped text is empty exactly when every character is white space |
| Text.StripIdempotent | test_news.py:151-152 | stripping twice is stripping once |
| Text.StripOfStripped | get_web_links.py:202 | a string without white space at either end is its own strip |
| Text.DigitsOf | get_web_links.py:229 | `''.join(filter(str.isdigit, s))`: the digits of the text in order; characterised by `Text.DigitsOfAppend` and `Text.DigitsOfExtremes` |
| Text.DigitsOfAppend | get_web_links.py:229 | `filter(str.isdigit, ·)` distributes over concatenation |
| Text.DigitsOfExtremes | get_web_links.py:229 | a string without digits yields none; a string of digits yields itself |
| Text.DecimalValue | get_web_links.py:229 | `int` of a digit string; characterised by `Text.DecimalValueAppend` |
| Text.DecimalValueAppend | get_web_links.py:229 | `int` of two digit strings run together is the first times `10^len(second)` plus the second |
| Orchestration.Tasks | get_web_links.py:259-266 | the (company, alias, source) searches in loop-nesting order; characterised by `Orchestration.EnumerateTasks`, `Orchestration.TaskAt` and `Orchestration.TaskOrigin` |
| Orchestration.EnumerateTasks | get_web_links.py:259-266 | the nested company, alias, source loops produce exactly the task sequence `Tasks` |
| Orchestration.TaskCount | test_news.py:181-186 | there is one task per (company, alias, source): the aliases times the sources |
| Orchestration.UniformAliases | get_web_links.py:70-79 | companies with `a` aliases each have `a` times as many aliases in all |
| Orchestration.UniformTaskCount | get_web_links.py:259-266 | companies with `a` aliases each make companies × `a` × sources tasks |
| Orchestration.AliasTasksLength | get_web_links.py:260-261 | one company contributes its aliases times the sources |
| Orchestration.TaskAt | get_web_links.py:259-266 | the task of company `i`, alias `j`, source `k` sits after all tasks of earlier companies and aliases, at offset `k` (nesting order) |
| Orchestration.TaskIndexValue | get_web_links.py:259-266 | that position is (aliases before company `i` + `j`) × sources + `k` |
| Orchestration.AliasTaskAt | get_web_links.py:260-266 | within one company, alias `j` with source `k` follows the earlier aliases' tasks |
| Orchestration.TaskOrigin | get_web_links.py:259-266 | every task comes from some company, one of its aliases and some source |
| Orchestration.AliasTaskOrigin | get_web_links.py:260-266 | every task of one company is one of its aliases with some source |
| Orchestration.Aggregate | get_web_links.py:268-273 | the lists of the completed futures run together in order, a future that raised contributing nothing; characterised by `Orchestration.AggregateAppend`, `Orchestration.RaisedContributesNothing` and `Orchestration.AggregateMembership` |
| Orchestration.AggregateAppend | get_web_links.py:268-273 | collecting the futures in order distributes over concatenation |
| Orchestration.RaisedContributesNothing | get_web_links.py:272-273 | a future that raised adds nothing and leaves the others' results in place |
| Orchestration.AggregateMembership | get_web_links.py:268-273 | an item is collected exactly when some completed future returned it |
| Orchestration.Collect | get_web_links.py:115-139 | the stubs of the elements in element order, a skipped element contributing nothing; characterised by `Orchestration.CollectAppend`, `Orchestration.CollectSkip` and `Orchestration.CollectMembership` |
| Orchestration.CollectAppend | get_web_links.py:115-139 | the element loop's output follows element order |
| Orchestration.CollectSkip | get_web_links.py:135-139 | an element that is skipped (filter or exception) removes only its own stub |
| Orchestration.CollectMembership | test_news.py:142-166 | a stub is in the output exactly when some element produced it |
| Orchestration.Comprehension | get_web_links.py:276 | the dictionary built by the comprehension has distinct keys and exactly the entries of its keys |
| Orchestration.ComprehensionFacts | get_web_links.py:276 | the keys are the input's URLs in first-appearance order, and each entry is the last element with that URL |
| Orchestration.DedupByUrl | get_web_links.py:276 | `{a['url']: a for a in xs}.values()`: one element per URL; characterised by `Orchestration.DedupByUrlSpec` |
| Orchestration.DedupByUrlSpec | get_web_links.py:276 | one record per distinct URL of the input, each an input element, the last one with its URL, in first-appearance order of the URLs |
| Orchestration.LastWithUrl | test_news.py:200 | the last element with a URL has that URL and is in the input |
| Orchestration.LastWithIsLast | get_web_links.py:276 | nothing is found exactly when no element has URL `u`; otherwise the element found has `u` and no later element has it |
| Orchestration.FirstIndex | get_web_links.py:276 | the index found holds URL `u` |
| Orchestration.FirstIndexIsFirst | get_web_links.py:276 | no element before the index found has URL `u`; none is found exactly when no element has `u` |
| Orchestration.FirstIndexFound | get_web_links.py:276 | every URL present in the input has a first index |
| Selenium.SafeGet | get_web_links.py:188-196 | `safe_get` is true exactly when navigation did not raise (the same method is scraper.py:89-96) |
| Selenium.ExtractElementText | get_web_links.py:198-204 | stripped text of the match, `""` on `NoSuchElementException`, and an exception otherwise (both directions; the same method is scraper.py:107-113) |
| Selenium.ExtractedTextEmpty | get_web_links.py:198-204 | the extracted text is stripped, and empty exactly when the element is missing or holds only white space |
| Selenium.ScrollPage | get_web_links.py:206-217 | the loop stops at the first reading equal to the previous one; the step count is that index |
| Selenium.SearchUrl | get_web_links.py:90 | `search_url.format(query=query)` for a template whose only field is `{query}`; characterised by `Selenium.SearchUrlOfPrefix` |
| Selenium.SearchUrlOfPrefix | get_web_links.py:90 | a `search_url` made of a prefix without `{` and a trailing `{query}` formats to the prefix followed by the query (the same formatting is scraper.py:120 with the other digi24 prefix) |
| RelativeDate.MarkerOf | get_web_links.py:228-236 | markers are tested in the order "minut", "ora", "zi", each exactly when the earlier ones are absent |
| RelativeDate.Normalize | get_web_links.py:219-244 | an instant the normaliser returns is a valid `datetime` no later than `now` |
| RelativeDate.NormalizeDate | get_web_links.py:219-244 | `normalize_date`: the cleaned text when no unit marker occurs, `now` minus the amount in minutes, hours or days as ISO text when one does, and `""` when there is no digit or the instant precedes year 1; characterised by `RelativeDate.NormalizeSpec` |
| RelativeDate.NormalizeSpec | get_web_links.py:222-244 | no marker gives the cleaned text; with a marker the result is `now` minus the amount in units, failing exactly when there is no digit or that instant precedes year 1 |
| RelativeDate.Amount | get_web_links.py:229 | `int("".join(filter(str.isdigit, date_str)))` for a text with at least one digit; characterised by `RelativeDate.AmountRunsTogether` and `RelativeDate.NormalizeSpec` |
| RelativeDate.AmountRunsTogether | get_web_links.py:229 | the digits of separate numbers are run together into one amount |
| RelativeDate.Cleaned | get_web_links.py:224-225 | the lower-cased text with every `acum` and then every `în urmă` removed; characterised by `RelativeDate.CleanedWithoutFiller` and `RelativeDate.CleanedAfterAcum` |
| RelativeDate.KeptIsLowered | get_web_links.py:224-241 | text passed through is lower case |
| RelativeDate.CleanedWithoutFiller | get_web_links.py:224-225 | when the lower-cased text contains neither "acum" nor "în urmă", cleaning is lower-casing |
| RelativeDate.CleanedAfterAcum | get_web_links.py:225 | a leading "acum" is removed and the rest, lower-cased, kept, when the rest holds no filler word |
| RelativeDate.MinutesAgo | get_web_links.py:228-230 | "acum N minute" is N minutes before `now` |
| RelativeDate.DaysAgo | get_web_links.py:234-236 | "acum N zile" is N days before `now` |
| RelativeDate.PluralHoursNotRecognised | get_web_links.py:231 | "acum N ore" is passed through as text |
| RelativeDate.HoursAndMinutesCountAsMinutes | get_web_links.py:228-229 | "acum H ora si M minute" is the number HM in minutes |
| RelativeDate.TodayReadAsDays | get_web_links.py:234-236 | "azi, hh:mm" is hhmm days back |
| RelativeDate.AbsoluteDateIsLowerCased | get_web_links.py:224-241 | "D Ianuarie Y" comes back as "D ianuarie Y" |
| RelativeDate.MarkerWithoutNumberFails | get_web_links.py:242-244 | "acum multe minute" fails with `""` |
| RelativeDate.FillerRemovalIsSinglePass | get_web_links.py:225 | removing "acum" once can form a new "acum" that stays |
| GetWebLinks.ConfiguredTaskCount | get_web_links.py:70-79 | four companies with two aliases and one source make eight tasks |
| GetWebLinks.ExtractStub | get_web_links.py:116-134 | one element's stub, or `None` when a lookup raised or the title or link is empty; characterised by `GetWebLinks.ExtractStubSpec` |
| GetWebLinks.ExtractStubSpec | get_web_links.py:115-139 | an element is kept exactly when no lookup raised, the title has non-white-space text and the `href` is non-empty; the stub's fields |
| GetWebLinks.StubCondition | get_web_links.py:116-126 | the keep condition, both directions |
| GetWebLinks.StubFields | get_web_links.py:127-134 | the kept stub's title, URL, normalised date and source |
| GetWebLinks.ScrapeOutcome | get_web_links.py:83-147 | the stubs `scrape_source` returns for one search page; characterised by `GetWebLinks.ScrapeOutcomeSpec` |
| GetWebLinks.ScrapeOutcomeSpec | get_web_links.py:83-147 | no navigation, a timed-out wait or a raised page give `[]`; otherwise each stub comes from one element and has a non-empty title and URL |
| GetWebLinks.Outcomes | get_web_links.py:268-273 | no future raises, one outcome per task |
| GetWebLinks.MainResult | get_web_links.py:246-276 | the records `main` writes: every task's stubs in submission order, one per URL; characterised by `GetWebLinks.MainResultSpec` |
| GetWebLinks.MainResultSpec | get_web_links.py:256-276 | the records have distinct URLs, and each comes from a search of one alias of one company on one source |
| GetWebLinks.RecordOrigin | get_web_links.py:259-273 | every collected stub comes from one task's search |
| GetWebLinks.Range | get_web_links.py:159-174 | `num_browsers` browsers, numbered in start order |
| GetWebLinks.Step | get_web_links.py:176-182 | the browser queue after one browser is taken from the front and put back at the end; characterised, through `Rotate`, by `GetWebLinks.RotateSplit` and `GetWebLinks.RotateMultiset` |
| GetWebLinks.RotateSplit | get_web_links.py:176-182 | `k` borrow-and-return rounds, `k` at most the pool size, move the first `k` browsers to the back in order |
| GetWebLinks.Rotate | get_web_links.py:176-182 | the browser queue after `k` borrow-and-return rounds; characterised by `GetWebLinks.RotateSplit`, `GetWebLinks.RotateAdd`, `GetWebLinks.RotatePeriodic` and `GetWebLinks.RotateMultiset` |
| GetWebLinks.RotateAdd | get_web_links.py:176-182 | `a` rounds followed by `b` rounds are `a + b` rounds |
| GetWebLinks.RotatePeriodic | get_web_links.py:176-182 | a whole turn of pool-size rounds leaves the queue as it was, so any count reduces to fewer than the pool size |
| GetWebLinks.RotateMultiset | get_web_links.py:176-182 | after any number of rounds the queue holds the same browsers, each as often as before |
| GetWebLinks.ConfiguredRotation | get_web_links.py:246-297 | three browsers over the eight configured searches end in the queue order 2, 0, 1, the order `cleanup` quits them under sequential scheduling (with a real thread pool only the multiset fact of `SearchAll` holds) |
| GetWebLinks.Stubs | get_web_links.py:115-139 | the element loop's stubs, in element order, a skipped element contributing nothing; characterised by `GetWebLinks.ExtractArticles` and `GetWebLinks.ScrapeOutcomeSpec` |
| GetWebLinks.ExtractArticles | get_web_links.py:115-139 | the element loop returns exactly the kept stubs in element order |
| GetWebLinks.Concatenate | get_web_links.py:268-273 | the `future.result()` loop returns the aggregation of the futures |
| GetWebLinks.SeleniumNewsScraper.constructor | get_web_links.py:20-81 | the configuration, and a pool of browsers `0 … n-1` |
| GetWebLinks.SeleniumNewsScraper.InitializeBrowserPool | get_web_links.py:157-174 | appends `num_browsers` new browsers to the queue |
| GetWebLinks.SeleniumNewsScraper.GetBrowser | get_web_links.py:176-178 | takes the browser at the front |
| GetWebLinks.SeleniumNewsScraper.ReturnBrowser | get_web_links.py:180-182 | puts the browser at the back |
| GetWebLinks.SeleniumNewsScraper.ScrapeSource | get_web_links.py:83-147 | the page's stubs, and the browser taken goes back to the end of the queue on every path |
| GetWebLinks.SeleniumNewsScraper.Cleanup | get_web_links.py:284-291 | every queued browser has `quit` called in queue order, and the queue ends empty |
| GetWebLinks.SeleniumNewsScraper.SubmitAll | get_web_links.py:256-266 | one outcome per task, and the queue rotated by the number of tasks |
| GetWebLinks.SeleniumNewsScraper.SearchAll | get_web_links.py:246-282 | `None` when the executor cannot start; otherwise the deduplicated records, an empty pool, and every browser of the pool quit exactly once, in the order the searches left the queue under sequential scheduling |
| TestNews.RomanianMonthsWellFormed | test_news.py:103-108 | every month name is a non-empty lower-case word and every number a non-empty digit string |
| TestNews.SubstituteMonths | test_news.py:110-111 | the loop computes the month substitution over the twelve months in mapping order |
| TestNews.SubstitutionRound | test_news.py:111 | one round leaves a lower-case string without the current month and without the earlier ones |
| TestNews.Substituted | test_news.py:102-111 | the month-substitution loop: lower-case, then each month name replaced by its number; characterised by `TestNews.NoMonthRemains` and `TestNews.SubstitutionWithoutMonths` |
| TestNews.NoMonthRemains | test_news.py:102-111 | after the loop the string is lower case and holds no month name |
| TestNews.SubstitutionWithoutMonths | test_news.py:110-111 | a string without month names comes out lower-cased and otherwise unchanged |
| TestNews.NormalizeDate | test_news.py:89-121 | `normalize_date` returns the parsed date in ISO form exactly as `NormalizedDateSpec` describes it, or `None` when the parse raises (the source's `strptime` format, or `fromisoformat` for a source without one) |
| TestNews.ParseFor | test_news.py:113-118 | the source's own `strptime` format when it has one, `fromisoformat` otherwise; characterised by `TestNews.DateFormatTable` |
| TestNews.DateFormatTable | test_news.py:93-100 | exactly the five sources have a format; digi24 and zf share one |
| TestNews.NormalizedDate | test_news.py:89-121 | `normalize_date`: the ISO text of the parsed date, or `None` when parsing raised; characterised by `TestNews.NormalizedDateSpec` |
| TestNews.NormalizedDateSpec | test_news.py:110-121 | the parser sees a lower-case string without month names; the result is present exactly when that parse succeeds, and is then its ISO text |
| TestNews.GetText | test_news.py:151-152 | bs4 `get_text(strip=True)`: each text piece stripped and the pieces joined without a separator; characterised by `TestNews.GetTextIsStripped` |
| TestNews.GetTextIsStripped | test_news.py:151-152 | `get_text(strip=True)` has no white space at either end; one piece gives that piece stripped |
| TestNews.SearchRequest | test_news.py:128-134 | the request `scrape_source` sends: `urljoin(base_url, search_path)` with the one parameter `search_param` set to the query; `TestNews.SourceArticlesSpec` is stated over the response to it |
| TestNews.SoupStub | test_news.py:144-162 | one article's stub, or `None` when a selector or the `href` is missing; characterised by `TestNews.SoupStubSpec` |
| TestNews.SoupStubSpec | test_news.py:144-162 | an article gives a stub exactly when all three selectors match and the link has `href`, whatever its title or date; the stub's fields |
| TestNews.SourceArticles | test_news.py:123-173 | the stubs `scrape_source` returns for one request; characterised by `TestNews.SourceArticlesSpec` |
| TestNews.SourceArticlesSpec | test_news.py:127-173 | a failed request or a status other than 200 gives `[]`; otherwise each stub comes from an article all of whose selectors matched |
| TestNews.ExtractStubs | test_news.py:142-166 | the article loop returns exactly the stubs of the articles, in order |
| TestNews.ScrapeSource | test_news.py:123-173 | `scrape_source` returns the stubs `SourceArticles` describes |
| TestNews.Lookup | test_news.py:209 | `self.companies.get(company)`: the aliases of the entry with that name, or `None` when there is none; characterised by `TestNews.CreateSearchQueriesSpec` |
| TestNews.CreateSearchQueries | test_news.py:206-214 | `companies.get(company, [company])`; characterised by `TestNews.CreateSearchQueriesSpec` |
| TestNews.CreateSearchQueriesSpec | test_news.py:206-214 | a known company's queries are its aliases; an unknown company's is its name |
| TestNews.Searches | test_news.py:181-183 | each configured company paired with the queries `create_search_queries` gives it; characterised by `TestNews.SearchesAreAliases` |
| TestNews.SearchesAreAliases | test_news.py:181-183 | with distinct company names, `main` searches exactly the configured aliases |
| TestNews.NewsSearches | test_news.py:15-27 | the configured names are distinct, so each company is searched by its own aliases |
| TestNews.NewsTaskCount | test_news.py:181-186 | 24 aliases on 5 sources: 120 requests |
| TestNews.CompletionOrderFacts | test_news.py:188 | a completion order holds every future exactly once |
| TestNews.Arrivals | test_news.py:188-197 | `all_results`: the tagged stubs of the tasks in completion order; characterised by `TestNews.ArrivalsMembership` and `TestNews.ArrivalsSpec` |
| TestNews.ArrivalsMembership | test_news.py:188-195 | a tagged stub arrives exactly when some completed task yields it |
| TestNews.ArrivalsSpec | test_news.py:188-197 | every stub of every task arrives with its task's tags; every arrival is a stub of one task with that task's tags |
| TestNews.ScrapeAll | test_news.py:181-186 | one `scrape_source` result per task, in submission order |
| TestNews.TagArticles | test_news.py:192-195 | every stub of a completed task gets that task's company and query |
| TestNews.CollectArrivals | test_news.py:188-197 | the `as_completed` loop collects the tagged stubs in completion order |
| TestNews.SearchAll | test_news.py:175-204 | `main` produces the deduplicated records for the given completion order |
| TestNews.MainRecords | test_news.py:175-200 | the records `main` writes for one completion order, one per URL; characterised by `TestNews.MainRecordsSpec` |
| TestNews.MainRecordsSpec | test_news.py:181-200 | whatever the order: distinct URLs, every task's URLs present, each record a stub of one task tagged with its company and query |
| TestNews.RecordsSpec | test_news.py:188-200 | the same, for any tasks and results |
| TestNews.SurvivorDependsOnOrder | test_news.py:188-200 | two stubs with one URL: the one completing later survives, so the order decides |
| TestNews.LaterDuplicateWins | test_news.py:200 | of two elements with one URL the dictionary keeps the second |
| Scraper.ScraperTaskCount | scraper.py:63-72 | four companies with two aliases and one source make eight calls |
| Scraper.KeptStub | scraper.py:140-156 | one element's stub with date `""`, or `None` when a lookup raised or the title or link is empty; characterised by `Scraper.KeptStubSpec` |
| Scraper.KeptStubSpec | scraper.py:140-156 | an element is kept exactly when neither lookup raised, the title has non-white-space text and the `href` is non-empty; date `""`, the source's name |
| Scraper.KeptCondition | scraper.py:142-148 | the keep condition, both directions |
| Scraper.KeptFields | scraper.py:149-156 | the kept stub's fields |
| Scraper.PageArticles | scraper.py:115-165 | the stubs the intended `scrape_page` returns for one search page; characterised by `Scraper.PageArticlesSpec` |
| Scraper.PageArticlesSpec | scraper.py:115-165 | no navigation or a failed wait gives `[]`; otherwise each stub comes from one element |
| Scraper.ExtractTitleLinks | scraper.py:140-159 | the element loop returns exactly the kept stubs in element order |
| Scraper.ScrapePageAsWritten | scraper.py:115-165 | `scrape_page` as written returns `[]` on every path and never raises |
| Scraper.ScrapePage | scraper.py:115-165 | with the scroll performed: the page's kept stubs |
| Scraper.ScrollCallLosesArticles | scraper.py:135 | a page whose one element would be kept gives one stub once scrolled |
| Scraper.Run | scraper.py:98-102 | one `scrape_page`, as written, per (company, alias, source) in nesting order, on every web |

## Left out

- Browsers, HTTP and HTML: `webdriver`, `WebDriverWait`, `find_element(s)`, `execute_script`, `requests.get` and BeautifulSoup are replaced by outcome values per page, element and request. XPath and CSS evaluation and the selector strings are configuration for those libraries. Whether the XPath with `/@href` in scraper.py can select an element is therefore not decided.
- Concurrency: the thread pools run sequentially. In get_web_links, a task borrows from a non-empty pool; the blocking `Queue.get` on an empty queue is a precondition. In test_news, the completion order of `as_completed` is an arbitrary permutation.
- Clock and randomness: the model uses one clock reading for the whole run, the parameter `now`, whereas the program calls `datetime.now()` on every `normalize_date` call; and `time.sleep` and `random.uniform` have no effect on results.
- `strptime`, `fromisoformat`, `isoformat` and `urljoin` are uninterpreted function parameters. `urljoin` implements reference resolution per section 5.2 of RFC 3986.
- Logging, `print`, JSON output, the browser option flags and the polite delays are left out.
- `str.format` is modelled as replacing the one field `{query}`.
- Error paths assumed not to raise: `webdriver.Firefox` in `initialize_browser_pool` (get_web_links.py:172); writing the JSON file (get_web_links.py:279-280), which would skip `cleanup` so no browser is quit; `urljoin` raising `ValueError` on a malformed `href` (test_news.py:153), which would skip the article; and `future.result()` raising (test_news.py:196), since `scrape_source` catches everything itself.
- `quit` exceptions are swallowed: the model records the `quit` call only.
- `str.lower` covers ASCII letters and the Romanian diacritics; `str.isdigit` covers ASCII digits; `str.strip` uses Python's white-space set.
- Selenium.ScrollPage: requires the page heights to repeat at some point. The source has no iteration cap, so on a page that keeps growing it would not return. `ScrapeSource` and `Scraper.ScrapePage` require this only of the search page they open (`PageSettles`), and `SubmitAll` and `SearchAll` only of the search pages of their tasks (`TasksSettle`).
- `WebScraper.__init__` reads `self.driver` before it exists (scraper.py:19), so the object cannot be constructed. `set_options`, `random_delay` and the `driver` field are not modelled. The driver's outcomes are parameters of `scrape_page`, and `run_test` is a plain call of `scrape_page`.
- The commented-out sources and companies, and the `__main__` blocks, are left out.

## Findings

| source | as written | input that shows it | evidently intended | confidence | as-written member | corrected member |
|---|---|---|---|---|---|---|
| scraper.py:135 | `scrape_page` calls `self.scroll_page`, which `WebScraper` does not define. The `AttributeError` is caught at scraper.py:161, and `finally` returns the still-empty list, so every call returns `[]` | any page that loads, e.g. one element with title "t" and link "u" on digi24 | scroll the page as `SeleniumNewsScraper.scroll_page` does, then read the elements, giving `[{"t", "u", "", "digi24"}]` | high (not executed) | Scraper.ScrapePageAsWritten, Scraper.ScrollCallLosesArticles | Scraper.ScrapePage, Scraper.PageArticlesSpec |
