/**
 * `WebScraper` (scraper.py): one browser, one search per (company, alias,
 * source), the title and link of each article element read into a stub.
 *
 * The browser is not run: what it would have done for a search URL is given
 * by `web`. `scrape_page` calls `self.scroll_page`, which the class does not
 * define; `ScrapePageAsWritten` models that code, which `Run` calls, and
 * `ScrapePage` the page scrape with the scroll the other scraper performs.
 */
module Scraper {
  import opened Wrappers
  import opened Text
  import opened Selenium
  import opened Orchestration

  // ---------------------------------------------------------------------------
  // Configuration
  // ---------------------------------------------------------------------------

  const Digi24Search: string := "https://www.digi24.ro/search?q="

  /** The one active entry of `self.sources`. */
  const Digi24: Source := Source("digi24", Digi24Search + QueryField)

  const ScraperSources: seq<Source> := [Digi24]

  /** `self.companies`. */
  const ScraperCompanies: seq<Company> := [
    Company("AXPO", ["AXPO", "AXPO Energy Romania"]),
    Company("CEZ", ["CEZ", "CEZ Vanzare"]),
    Company("TERMOENERGETICA", ["TERMOENERGETICA", "Termoenergetica Bucuresti"]),
    Company("TRANSELECTRICA", ["TRANSELECTRICA", "Compania Nationala de Transport al Energiei Electrice"])
  ]

  /** Four companies with two aliases each and one source: `run` makes eight
      `scrape_page` calls. */
  lemma ScraperTaskCount()
    ensures |Tasks(ScraperCompanies, ScraperSources)| == 8
  {
    UniformTaskCount(ScraperCompanies, ScraperSources, 2);
  }

  // ---------------------------------------------------------------------------
  // One search page
  // ---------------------------------------------------------------------------

  /** The two lookups made on one article element (the date lookup is
      commented out in the source). */
  datatype TitleLink = TitleLink(title: TextLookup, link: LinkLookup)

  /** What the browser does for each search URL. */
  type Web = string -> SearchPage<TitleLink>

  /** The stub for one element, or `None` when it is skipped: a lookup raised,
      or the title or the link is empty. The date is always `""`. */
  function KeptStub(e: TitleLink, source: string): Option<Article>
  {
    var title := ExtractElementText(e.title);
    if title.None? || e.link.LinkRaised? then None
    else if title.value != "" && e.link.href.Some? && e.link.href.value != "" then
      Some(Article(title.value, e.link.href.value, "", source))
    else None
  }

  function KeptStubOf(source: string): TitleLink -> Option<Article>
  {
    e => KeptStub(e, source)
  }

  /** What `scrape_page` would return for the page if the scroll succeeded. */
  function PageArticles(page: SearchPage<TitleLink>, source: string): seq<Article>
  {
    if !SafeGet(page.navigation) then []
    else match page.load
      case Loaded(_, elements) => Collect(elements, KeptStubOf(source))
      case _ => []
  }

  /** An element is kept exactly when neither lookup raised, the title has
      non-white-space text and the link has a non-empty `href`; the stub holds
      the stripped title, the `href`, an empty date and the source name. */
  lemma KeptStubSpec(e: TitleLink, source: string)
    ensures KeptStub(e, source).Some?
        <==> && e.title.TextFound? && (exists k :: 0 <= k < |e.title.text| && !IsSpace(e.title.text[k]))
             && e.link.LinkFound? && e.link.href.Some? && e.link.href.value != ""
    ensures KeptStub(e, source).Some? ==>
      var a := KeptStub(e, source).value;
      && a.title != [] && StrippedFrom(e.title.text, a.title)
      && a.url == e.link.href.value && a.date == "" && a.source == source
  {
    KeptCondition(e, source);
    if KeptStub(e, source).Some? {
      KeptFields(e, source);
    }
  }

  lemma KeptCondition(e: TitleLink, source: string)
    ensures KeptStub(e, source).Some?
        <==> && e.title.TextFound? && (exists k :: 0 <= k < |e.title.text| && !IsSpace(e.title.text[k]))
             && e.link.LinkFound? && e.link.href.Some? && e.link.href.value != ""
  {
    if e.title.TextFound? {
      StripEmptyIffAllSpace(e.title.text);
    }
  }

  lemma KeptFields(e: TitleLink, source: string)
    requires KeptStub(e, source).Some?
    ensures var a := KeptStub(e, source).value;
      && a.title != [] && StrippedFrom(e.title.text, a.title)
      && a.url == e.link.href.value && a.date == "" && a.source == source
  {
    assert e.title.TextFound?;
    StripMeetsReference(e.title.text);
  }

  /** Without navigation, or when the articles never appear or the page raises,
      nothing is returned; otherwise each stub comes from one element of the page
      and has a non-empty title and URL, an empty date and the source name. */
  lemma PageArticlesSpec(page: SearchPage<TitleLink>, source: string)
    ensures page.navigation == NavigationRaised || !page.load.Loaded? ==> PageArticles(page, source) == []
    ensures forall a :: a in PageArticles(page, source) ==>
      && page.load.Loaded? && a.title != [] && a.url != [] && a.date == "" && a.source == source
      && exists i :: 0 <= i < |page.load.elements| && KeptStub(page.load.elements[i], source) == Some(a)
  {
    if page.navigation == Navigated && page.load.Loaded? {
      var es := page.load.elements;
      forall a | a in PageArticles(page, source)
        ensures a.title != [] && a.url != [] && a.date == "" && a.source == source
        ensures exists i :: 0 <= i < |es| && KeptStub(es[i], source) == Some(a)
      {
        CollectMembership(es, KeptStubOf(source), a);
        var i :| 0 <= i < |es| && KeptStub(es[i], source) == Some(a);
        KeptStubSpec(es[i], source);
      }
    }
  }

  /** The element loop of `scrape_page`: the title, then the link; an exception
      skips the element, and the stub is appended when both are non-empty. */
  method ExtractTitleLinks(elements: seq<TitleLink>, source: string) returns (articles: seq<Article>)
    ensures articles == Collect(elements, KeptStubOf(source))
  {
    articles := [];
    for i := 0 to |elements|
      invariant articles == Collect(elements[..i], KeptStubOf(source))
    {
      var e := elements[i];
      CollectStep(elements, i, KeptStubOf(source));
      var title := ExtractElementText(e.title);
      if title.Some? && e.link.LinkFound? {
        var link := e.link.href;
        if title.value != "" && link.Some? && link.value != "" {
          articles := articles + [Article(title.value, link.value, "", source)];
        }
      }
    }
    assert elements[..|elements|] == elements;
  }

  /** `scrape_page` as written. Every path returns `articles` while it is still
      empty: a failed `safe_get` and a wait that times out return at once, any
      other exception before the loop lands in the outer handler, and a page
      that loads reaches `self.scroll_page`, which `WebScraper` does not define;
      the `AttributeError` goes to the outer handler and `finally` returns the
      empty list. The call never raises. */
  method ScrapePageAsWritten(source: Source, query: string, web: Web) returns (articles: seq<Article>)
    ensures articles == []
  {
    articles := [];
    var page := web(SearchUrl(source.searchUrl, query));
    if !SafeGet(page.navigation) {
      return;
    }
    match page.load {
      case WaitTimedOut =>
      case PageRaised =>
      case Loaded(_, _) =>
    }
  }

  /** `scrape_page` with the scroll performed (as `scroll_page` of the other
      Selenium scraper does it): nothing without navigation or when the wait
      fails, otherwise the kept stubs of the page's elements in element order. */
  method ScrapePage(source: Source, query: string, web: Web) returns (articles: seq<Article>)
    requires PageSettles(web(SearchUrl(source.searchUrl, query)))
    ensures articles == PageArticles(web(SearchUrl(source.searchUrl, query)), source.name)
  {
    articles := [];
    var page := web(SearchUrl(source.searchUrl, query));
    if !SafeGet(page.navigation) {
      return;
    }
    match page.load {
      case WaitTimedOut =>
      case PageRaised =>
      case Loaded(heights, elements) =>
        var _ := ScrollPage(heights);
        articles := ExtractTitleLinks(elements, source.name);
    }
  }

  /** The undefined `scroll_page` loses every article: a page with one element
      that has a title and a link gives one stub once scrolled, and none as
      written. */
  lemma ScrollCallLosesArticles()
    ensures var page := SearchPage(Navigated, Loaded([0, 0], [TitleLink(TextFound("t"), LinkFound(Some("u")))]));
      PageArticles(page, "digi24") == [Article("t", "u", "", "digi24")]
  {
    ExampleKept();
    SingleElementPage([0, 0], TitleLink(TextFound("t"), LinkFound(Some("u"))), "digi24", Article("t", "u", "", "digi24"));
  }

  lemma SingleElementPage(heights: seq<int>, e: TitleLink, source: string, a: Article)
    requires KeptStub(e, source) == Some(a)
    ensures PageArticles(SearchPage(Navigated, Loaded(heights, [e])), source) == [a]
  {
    var f := KeptStubOf(source);
    assert [e][..0] == [] && [e][0] == e;
    assert f(e) == Some(a);
    assert Collect([e], f) == Collect([e][..0], f) + [a];
  }

  lemma ExampleKept()
    ensures KeptStub(TitleLink(TextFound("t"), LinkFound(Some("u"))), "digi24") == Some(Article("t", "u", "", "digi24"))
  {
    StripOfStripped("t");
  }

  // ---------------------------------------------------------------------------
  // `run`
  // ---------------------------------------------------------------------------

  /** `run`: one `scrape_page` (as written) per (company, alias, source) in
      nesting order, the results discarded. Returns the calls made. */
  method Run(companies: seq<Company>, sources: seq<Source>, web: Web) returns (calls: seq<Task<Source>>)
    ensures calls == Tasks(companies, sources)
  {
    calls := [];
    for i := 0 to |companies|
      invariant calls == Tasks(companies[..i], sources)
    {
      var c := companies[i];
      for j := 0 to |c.aliases|
        invariant calls == Tasks(companies[..i], sources) + AliasTasks(c.name, c.aliases[..j], sources)
      {
        for k := 0 to |sources|
          invariant calls == Tasks(companies[..i], sources) + AliasTasks(c.name, c.aliases[..j], sources)
                           + SourceTasks(c.name, c.aliases[j], sources[..k])
        {
          SourceTasksStep(c.name, c.aliases[j], sources, k);
          var _ := ScrapePageAsWritten(sources[k], c.aliases[j], web);
          calls := calls + [Task(c.name, c.aliases[j], sources[k])];
        }
        assert sources[..|sources|] == sources;
        AliasTasksStep(c.name, c.aliases, sources, j);
      }
      assert c.aliases[..|c.aliases|] == c.aliases;
      TasksStep(companies, sources, i);
    }
    assert companies[..|companies|] == companies;
  }
}
