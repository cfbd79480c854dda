/**
 * `SeleniumNewsScraper` (get_web_links.py): a pool of browsers, one search per
 * (company, alias, source), the article stubs read from each result page, and
 * the URL-keyed deduplication of everything collected.
 *
 * The browser is not run. What it would have done for a search URL is given by
 * the parameter `web`, `datetime.now()` by `now` and `isoformat` by `iso`.
 */
module GetWebLinks {
  import opened Wrappers
  import opened Text
  import opened Selenium
  import opened RelativeDate
  import opened Orchestration

  // ---------------------------------------------------------------------------
  // Configuration
  // ---------------------------------------------------------------------------

  const Digi24Search: string := "https://www.digi24.ro/cautare?q="

  const Digi24: Source := Source("digi24", Digi24Search + QueryField)

  /** `self.sources` as configured. */
  const ConfiguredSources: seq<Source> := [Digi24]

  /** `self.companies` as configured. */
  const ConfiguredCompanies: seq<Company> := [
    Company("AXPO", ["AXPO", "AXPO Energy Romania"]),
    Company("CEZ", ["CEZ", "CEZ Vanzare"]),
    Company("TERMOENERGETICA", ["TERMOENERGETICA", "Termoenergetica Bucuresti"]),
    Company("TRANSELECTRICA", ["TRANSELECTRICA", "Compania Nationala de Transport al Energiei Electrice"])
  ]

  /** Four companies with two aliases each and one source: eight searches. */
  lemma ConfiguredTaskCount()
    ensures |Tasks(ConfiguredCompanies, ConfiguredSources)| == 8
  {
    UniformTaskCount(ConfiguredCompanies, ConfiguredSources, 2);
  }

  // ---------------------------------------------------------------------------
  // One search page
  // ---------------------------------------------------------------------------

  /** What the browser does for each search URL. */
  type Web = string -> SearchPage<ElementOutcome>

  /** The stub for one article element, or `None` when the element is skipped:
      a lookup raised, or the title or the link is empty. */
  function ExtractStub(e: ElementOutcome, source: string, now: Instant, iso: int -> string): Option<Article>
  {
    var title, date := ExtractElementText(e.title), ExtractElementText(e.date);
    if title.None? || date.None? || e.link.LinkRaised? || e.link.href.None? then None
    else if title.value != "" && e.link.href.value != "" then
      Some(Article(title.value, e.link.href.value, NormalizeDate(date.value, now, iso), source))
    else None
  }

  function StubOf(source: string, now: Instant, iso: int -> string): ElementOutcome -> Option<Article>
  {
    e => ExtractStub(e, source, now, iso)
  }

  /** The stubs of the elements, in element order. */
  function Stubs(es: seq<ElementOutcome>, source: string, now: Instant, iso: int -> string): seq<Article>
  {
    Collect(es, StubOf(source, now, iso))
  }

  /** `scrape_source` on the page it was given. */
  function ScrapeOutcome(page: SearchPage<ElementOutcome>, source: string, now: Instant, iso: int -> string): seq<Article>
  {
    if !SafeGet(page.navigation) then []
    else match page.load
      case Loaded(_, elements) => Stubs(elements, source, now, iso)
      case _ => []
  }

  /** The date text of an element that did not raise: `""` when it has no date. */
  function DateText(lookup: TextLookup): string
  {
    if lookup.TextFound? then Strip(lookup.text) else ""
  }

  /** An element gives a stub exactly when no lookup raised, its title has
      non-white-space text and its link has a non-empty `href`; the stub carries
      the stripped title, the `href` as URL, the normalised date and the source. */
  lemma ExtractStubSpec(e: ElementOutcome, source: string, now: Instant, iso: int -> string)
    ensures ExtractStub(e, source, now, iso).Some?
        <==> && e.title.TextFound? && (exists k :: 0 <= k < |e.title.text| && !IsSpace(e.title.text[k]))
             && !e.date.LookupRaised?
             && e.link.LinkFound? && e.link.href.Some? && e.link.href.value != ""
    ensures ExtractStub(e, source, now, iso).Some? ==>
      var a := ExtractStub(e, source, now, iso).value;
      && a.title != [] && StrippedFrom(e.title.text, a.title)
      && a.url == e.link.href.value
      && a.date == NormalizeDate(DateText(e.date), now, iso)
      && a.source == source
  {
    StubCondition(e, source, now, iso);
    if ExtractStub(e, source, now, iso).Some? {
      StubFields(e, source, now, iso);
    }
  }

  lemma StubCondition(e: ElementOutcome, source: string, now: Instant, iso: int -> string)
    ensures ExtractStub(e, source, now, iso).Some?
        <==> && e.title.TextFound? && (exists k :: 0 <= k < |e.title.text| && !IsSpace(e.title.text[k]))
             && !e.date.LookupRaised?
             && e.link.LinkFound? && e.link.href.Some? && e.link.href.value != ""
  {
    if e.title.TextFound? {
      StripEmptyIffAllSpace(e.title.text);
    }
  }

  lemma StubFields(e: ElementOutcome, source: string, now: Instant, iso: int -> string)
    requires ExtractStub(e, source, now, iso).Some?
    ensures var a := ExtractStub(e, source, now, iso).value;
      && a.title != [] && StrippedFrom(e.title.text, a.title)
      && a.url == e.link.href.value
      && a.date == NormalizeDate(DateText(e.date), now, iso)
      && a.source == source
  {
    assert e.title.TextFound? && !e.date.LookupRaised?;
    StripMeetsReference(e.title.text);
  }

  /** Without navigation, or when the articles never appear or the page raises,
      the result is empty; otherwise it is the stubs of the page's elements, each
      with a non-empty title and URL and the source's name. */
  lemma ScrapeOutcomeSpec(page: SearchPage<ElementOutcome>, source: string, now: Instant, iso: int -> string)
    ensures page.navigation == NavigationRaised || !page.load.Loaded? ==> ScrapeOutcome(page, source, now, iso) == []
    ensures forall a :: a in ScrapeOutcome(page, source, now, iso) ==>
      && page.load.Loaded? && a.title != [] && a.url != [] && a.source == source
      && exists i :: 0 <= i < |page.load.elements| && ExtractStub(page.load.elements[i], source, now, iso) == Some(a)
  {
    if page.navigation == Navigated && page.load.Loaded? {
      var es := page.load.elements;
      forall a | a in ScrapeOutcome(page, source, now, iso)
        ensures a.title != [] && a.url != [] && a.source == source
        ensures exists i :: 0 <= i < |es| && ExtractStub(es[i], source, now, iso) == Some(a)
      {
        CollectMembership(es, StubOf(source, now, iso), a);
        var i :| 0 <= i < |es| && ExtractStub(es[i], source, now, iso) == Some(a);
        ExtractStubSpec(es[i], source, now, iso);
      }
    }
  }

  // ---------------------------------------------------------------------------
  // The whole run
  // ---------------------------------------------------------------------------

  /** Scrolling settles on the search page of every task that loads; the other
      pages of `web` are never visited. */
  ghost predicate TasksSettle(tasks: seq<Task<Source>>, web: Web) {
    forall i :: 0 <= i < |tasks| ==> PageSettles(web(SearchUrl(tasks[i].source.searchUrl, tasks[i].query)))
  }

  /** What `scrape_source` returns for each submitted task; it catches every
      exception itself, so no future raises. */
  function Outcomes(tasks: seq<Task<Source>>, web: Web, now: Instant, iso: int -> string): (r: seq<TaskOutcome<Article>>)
    ensures |r| == |tasks| && forall i :: 0 <= i < |r| ==> r[i].Completed?
  {
    seq(|tasks|, i requires 0 <= i < |tasks| =>
      Completed(ScrapeOutcome(web(SearchUrl(tasks[i].source.searchUrl, tasks[i].query)), tasks[i].source.name, now, iso)))
  }

  /** The records `main` writes: every task's stubs in submission order, one
      per URL. */
  function MainResult(companies: seq<Company>, sources: seq<Source>, web: Web, now: Instant, iso: int -> string): seq<Article>
  {
    DedupByUrl(Aggregate(Outcomes(Tasks(companies, sources), web, now, iso)), ArticleUrl)
  }

  /** Every record written comes from one search of one alias of one company on
      one source, carries that source's name, a non-empty title and a URL no
      other record has. */
  lemma MainResultSpec(companies: seq<Company>, sources: seq<Source>, web: Web, now: Instant, iso: int -> string)
    ensures var r := MainResult(companies, sources, web, now, iso);
      && (forall i, j :: 0 <= i < j < |r| ==> r[i].url != r[j].url)
      && forall a :: a in r ==> (a.title != [] && a.url != [] &&
           exists i, j, k :: 0 <= i < |companies| && 0 <= j < |companies[i].aliases| && 0 <= k < |sources| &&
             a.source == sources[k].name &&
             a in ScrapeOutcome(web(SearchUrl(sources[k].searchUrl, companies[i].aliases[j])), sources[k].name, now, iso))
  {
    var all := Aggregate(Outcomes(Tasks(companies, sources), web, now, iso));
    DedupByUrlSpec(all, ArticleUrl);
    forall a | a in MainResult(companies, sources, web, now, iso)
      ensures a.title != [] && a.url != [] &&
        exists i, j, k :: 0 <= i < |companies| && 0 <= j < |companies[i].aliases| && 0 <= k < |sources| &&
          a.source == sources[k].name &&
          a in ScrapeOutcome(web(SearchUrl(sources[k].searchUrl, companies[i].aliases[j])), sources[k].name, now, iso)
    {
      RecordOrigin(companies, sources, web, now, iso, a);
    }
  }

  /** An article of the concatenated results comes from one task's search. */
  lemma RecordOrigin(companies: seq<Company>, sources: seq<Source>, web: Web, now: Instant, iso: int -> string, a: Article)
    requires a in Aggregate(Outcomes(Tasks(companies, sources), web, now, iso))
    ensures a.title != [] && a.url != [] &&
      exists i, j, k :: 0 <= i < |companies| && 0 <= j < |companies[i].aliases| && 0 <= k < |sources| &&
        a.source == sources[k].name &&
        a in ScrapeOutcome(web(SearchUrl(sources[k].searchUrl, companies[i].aliases[j])), sources[k].name, now, iso)
  {
    var tasks := Tasks(companies, sources);
    var outs := Outcomes(tasks, web, now, iso);
    AggregateMembership(outs, a);
    var x :| 0 <= x < |outs| && outs[x].Completed? && a in outs[x].items;
    TaskOrigin(companies, sources, x);
    var i, j, k :| 0 <= i < |companies| && 0 <= j < |companies[i].aliases| && 0 <= k < |sources|
      && tasks[x] == Task(companies[i].name, companies[i].aliases[j], sources[k]);
    var page := web(SearchUrl(sources[k].searchUrl, companies[i].aliases[j]));
    ScrapeOutcomeSpec(page, sources[k].name, now, iso);
  }

  // ---------------------------------------------------------------------------
  // The scraper object
  // ---------------------------------------------------------------------------

  /** A browser of the pool, known by the order in which it was started. */
  type Browser = nat

  /** The browsers `0, …, n - 1`, as `range(n)` gives them. */
  function Range(n: int): (r: seq<Browser>)
    ensures |r| == (if n > 0 then n else 0) && forall i :: 0 <= i < |r| ==> r[i] == i
  {
    if n <= 0 then [] else Range(n - 1) + [n - 1]
  }

  /** The queue after one browser was taken from the front and put back at the end. */
  function Step(s: seq<Browser>): (r: seq<Browser>)
    requires s != []
    ensures |r| == |s|
  {
    s[1..] + [s[0]]
  }

  /** The queue after `k` such borrowings. */
  function Rotate(s: seq<Browser>, k: nat): (r: seq<Browser>)
    requires s != []
    ensures |r| == |s|
  {
    if k == 0 then s else Step(Rotate(s, k - 1))
  }

  /** The configured run: three browsers lend themselves to the eight searches
      in turn, so `cleanup` quits them in the order 2, 0, 1, each once. */
  lemma ConfiguredRotation()
    ensures Rotate(Range(3), |Tasks(ConfiguredCompanies, ConfiguredSources)|) == [2, 0, 1]
  {
    ConfiguredTaskCount();
    var s := Range(3);
    assert s == [0, 1, 2];
    RotatePeriodic(s, 5);
    RotatePeriodic(s, 2);
    RotateSplit(s, 2);
    assert s[2..] + s[..2] == [2, 0, 1];
  }

  /** `k` borrowings, at most one per browser, move the first `k` browsers
      to the end in their order; so after `|s|` borrowings the queue is back as
      it was. */
  lemma {:induction false} RotateSplit(s: seq<Browser>, k: nat)
    requires s != [] && k <= |s|
    ensures Rotate(s, k) == s[k..] + s[..k]
  {
    if k == 0 {
      assert s[0..] == s && s[..0] == [];
    } else {
      RotateSplit(s, k - 1);
      var p := s[k - 1..] + s[..k - 1];
      assert p[0] == s[k - 1] && p[1..] == s[k..] + s[..k - 1];
      assert s[..k - 1] + [s[k - 1]] == s[..k];
    }
  }

  /** `a` borrowings followed by `b` more are `a + b` borrowings. */
  lemma {:induction false} RotateAdd(s: seq<Browser>, a: nat, b: nat)
    requires s != []
    ensures Rotate(s, a + b) == Rotate(Rotate(s, a), b)
    decreases b
  {
    if b > 0 {
      RotateAdd(s, a, b - 1);
    }
  }

  /** A whole round of `|s|` borrowings leaves the queue as it was, so any
      number of borrowings is a rotation by fewer than `|s|`. */
  lemma RotatePeriodic(s: seq<Browser>, k: nat)
    requires s != []
    ensures Rotate(s, |s| + k) == Rotate(s, k)
  {
    RotateSplit(s, |s|);
    assert s[|s|..] + s[..|s|] == s;
    RotateAdd(s, |s|, k);
  }

  /** However many borrowings there were, the queue holds the same browsers,
      each as often as before. */
  lemma {:induction false} RotateMultiset(s: seq<Browser>, k: nat)
    requires s != []
    ensures multiset(Rotate(s, k)) == multiset(s)
  {
    if k > 0 {
      RotateMultiset(s, k - 1);
      StepMultiset(Rotate(s, k - 1));
    }
  }

  lemma StepMultiset(p: seq<Browser>)
    requires p != []
    ensures multiset(Step(p)) == multiset(p)
  {
    assert p == [p[0]] + p[1..];
  }

  /** The element loop of `scrape_source`: for each article element, its title,
      date and link in this order; an exception skips the element, and the stub
      is appended when the title and the link are both non-empty. */
  method ExtractArticles(elements: seq<ElementOutcome>, source: string, now: Instant, iso: int -> string)
    returns (articles: seq<Article>)
    ensures articles == Stubs(elements, source, now, iso)
  {
    articles := [];
    var i := 0;
    while i < |elements|
      invariant 0 <= i <= |elements|
      invariant articles == Collect(elements[..i], StubOf(source, now, iso))
    {
      var e := elements[i];
      CollectStep(elements, i, StubOf(source, now, iso));
      var title := ExtractElementText(e.title);
      if title.Some? {
        var date := ExtractElementText(e.date);
        if date.Some? && e.link.LinkFound? {
          var link := e.link.href;
          if title.value != "" && link.Some? && link.value != "" {
            articles := articles + [Article(title.value, link.value, NormalizeDate(date.value, now, iso), source)];
          }
        }
      }
      i := i + 1;
    }
    assert elements[..i] == elements;
  }

  /** The `future.result()` loop of `main`: the task results concatenated in
      submission order. */
  method Concatenate(futures: seq<TaskOutcome<Article>>) returns (all: seq<Article>)
    ensures all == Aggregate(futures)
  {
    all := [];
    var j := 0;
    while j < |futures|
      invariant 0 <= j <= |futures|
      invariant all == Aggregate(futures[..j])
    {
      assert futures[..j + 1][..j] == futures[..j];
      match futures[j] {
        case Completed(items) => all := all + items;
        case Raised =>
      }
      j := j + 1;
    }
    assert futures[..j] == futures;
  }

  class SeleniumNewsScraper {
    const numBrowsers: int
    const sources: seq<Source>
    const companies: seq<Company>
    /** `browser_pool`, front first. */
    var pool: seq<Browser>
    /** The browsers whose `quit` was called, in call order. */
    var quitCalls: seq<Browser>

    /** `__init__`: the configured sources and companies, and a pool filled by
        `initialize_browser_pool`. */
    constructor (numBrowsers: int)
      ensures this.numBrowsers == numBrowsers
      ensures sources == ConfiguredSources && companies == ConfiguredCompanies
      ensures pool == Range(numBrowsers) && quitCalls == []
    {
      this.numBrowsers := numBrowsers;
      sources := ConfiguredSources;
      companies := ConfiguredCompanies;
      pool := [];
      quitCalls := [];
      new;
      InitializeBrowserPool();
    }

    /** `initialize_browser_pool`: starts `num_browsers` browsers and puts each
        at the end of the queue. */
    method InitializeBrowserPool()
      modifies this
      ensures pool == old(pool) + Range(numBrowsers) && quitCalls == old(quitCalls)
    {
      var i := 0;
      while i < numBrowsers
        invariant 0 <= i && (numBrowsers > 0 ==> i <= numBrowsers) && (numBrowsers <= 0 ==> i == 0)
        invariant pool == old(pool) + Range(i) && quitCalls == old(quitCalls)
      {
        pool := pool + [i];
        i := i + 1;
      }
    }

    /** `get_browser`: takes the browser at the front of the queue. */
    method GetBrowser() returns (b: Browser)
      requires pool != []
      modifies this
      ensures b == old(pool)[0] && pool == old(pool)[1..] && quitCalls == old(quitCalls)
    {
      b := pool[0];
      pool := pool[1..];
    }

    /** `return_browser`: puts the browser at the end of the queue. */
    method ReturnBrowser(b: Browser)
      modifies this
      ensures pool == old(pool) + [b] && quitCalls == old(quitCalls)
    {
      pool := pool + [b];
    }

    /** `scrape_source`: borrows a browser, searches `query` on the source and
        reads the article stubs; the browser goes back to the end of the queue on
        every path. */
    method ScrapeSource(source: Source, query: string, web: Web, now: Instant, iso: int -> string)
      returns (articles: seq<Article>)
      requires pool != [] && PageSettles(web(SearchUrl(source.searchUrl, query)))
      modifies this
      ensures pool == Step(old(pool)) && quitCalls == old(quitCalls)
      ensures articles == ScrapeOutcome(web(SearchUrl(source.searchUrl, query)), source.name, now, iso)
    {
      var browser := GetBrowser();
      articles := [];
      var page := web(SearchUrl(source.searchUrl, query));
      if SafeGet(page.navigation) {
        match page.load {
          case WaitTimedOut =>
          case PageRaised =>
          case Loaded(heights, elements) =>
            var _ := ScrollPage(heights);
            articles := ExtractArticles(elements, source.name, now, iso);
        }
      }
      ReturnBrowser(browser);
    }

    /** `cleanup`: takes every browser off the queue and calls its `quit`; an
        exception from `quit` is swallowed, so the queue always ends empty. */
    method Cleanup()
      modifies this
      ensures pool == [] && quitCalls == old(quitCalls) + old(pool)
    {
      while pool != []
        invariant quitCalls + pool == old(quitCalls) + old(pool)
        decreases |pool|
      {
        var b := GetBrowser();
        quitCalls := quitCalls + [b];
      }
    }

    /** The `executor.submit` loop of `main`: one `scrape_source` call per task,
        in order, each borrowing the browser at the front of the queue. */
    method SubmitAll(tasks: seq<Task<Source>>, web: Web, now: Instant, iso: int -> string)
      returns (futures: seq<TaskOutcome<Article>>)
      requires pool != [] && TasksSettle(tasks, web)
      modifies this
      ensures futures == Outcomes(tasks, web, now, iso)
      ensures pool == Rotate(old(pool), |tasks|) && quitCalls == old(quitCalls)
    {
      ghost var expected := Outcomes(tasks, web, now, iso);
      futures := [];
      var k := 0;
      while k < |tasks|
        invariant 0 <= k <= |tasks|
        invariant pool == Rotate(old(pool), k) && quitCalls == old(quitCalls)
        invariant futures == expected[..k]
      {
        var t := tasks[k];
        var articles := ScrapeSource(t.source, t.query, web, now, iso);
        futures := futures + [Completed(articles)];
        k := k + 1;
      }
    }

    /** `main`: one search per (company, alias, source) in nesting order, the
        results concatenated in submission order and deduplicated by URL, then
        `cleanup`. `ThreadPoolExecutor(max_workers=num_browsers)` raises
        `ValueError` before anything happens when `num_browsers` is not positive;
        the result is then `None`. */
    method SearchAll(web: Web, now: Instant, iso: int -> string) returns (results: Option<seq<Article>>)
      requires TasksSettle(Tasks(companies, sources), web)
      requires numBrowsers > 0 ==> pool != []
      modifies this
      ensures numBrowsers <= 0 ==> results == None && pool == old(pool) && quitCalls == old(quitCalls)
      ensures numBrowsers > 0 ==>
        && results == Some(MainResult(companies, sources, web, now, iso))
        && pool == [] && quitCalls == old(quitCalls) + Rotate(old(pool), |Tasks(companies, sources)|)
      ensures numBrowsers > 0 ==> multiset(quitCalls) == multiset(old(quitCalls)) + multiset(old(pool))
    {
      if numBrowsers <= 0 {
        return None;
      }
      var tasks := EnumerateTasks(companies, sources);
      var futures := SubmitAll(tasks, web, now, iso);
      var allResults := Concatenate(futures);
      var unique := DedupByUrl(allResults, ArticleUrl);
      Cleanup();
      RotateMultiset(old(pool), |tasks|);
      results := Some(unique);
    }
  }
}
