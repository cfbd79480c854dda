/**
 * `RomanianNewsScraper` (test_news.py): the HTTP variant. Each source is
 * searched with one GET request whose HTML is read with CSS selectors; dates
 * are parsed with a per-source `strptime` format after the Romanian month
 * names are replaced by their numbers; results arrive in completion order and
 * are tagged with their company and query before the URL-keyed deduplication.
 *
 * Not run: the response to each request is given by `fetch`, `urljoin` by
 * `join`, and the `datetime` parsers and `isoformat` by a `Parsing` value.
 */
module TestNews {
  import opened Wrappers
  import opened Text
  import opened Orchestration

  // ---------------------------------------------------------------------------
  // Configuration
  // ---------------------------------------------------------------------------

  /** `self.companies`. */
  const NewsCompanies: seq<Company> := [
    Company("AXPO", ["AXPO", "AXPO Energy Romania"]),
    Company("CEZ", ["CEZ", "CEZ Vanzare"]),
    Company("TERMOENERGETICA", ["TERMOENERGETICA", "Termoenergetica Bucuresti"]),
    Company("TRANSELECTRICA", ["TRANSELECTRICA", "Compania Nationala de Transport al Energiei Electrice"]),
    Company("DELGAZ", ["DELGAZ", "DELGAZ GRID"]),
    Company("E.ON", ["E.ON", "E.ON Energie Romania"]),
    Company("ELECTRICA", ["ELECTRICA", "ELECTRICA FURNIZARE"]),
    Company("ENEL", ["ENEL", "ENEL ENERGIE", "ENEL GREEN POWER"]),
    Company("ENGIE", ["ENGIE", "ENGIE ROMANIA", "ENGIE ENERGY MANAGEMENT"]),
    Company("HIDROELECTRICA", ["HIDROELECTRICA", "Hidroelectrica SA"]),
    Company("NUCLEARELECTRICA", ["NUCLEARELECTRICA", "Societatea Nationala Nuclearelectrica"])
  ]

  /** One entry of `self.sources`, without its CSS selectors. */
  datatype SourceConfig = SourceConfig(name: string, baseUrl: string, searchPath: string, searchParam: string)

  /** `self.sources`, in dictionary order. */
  const NewsSources: seq<SourceConfig> := [
    SourceConfig("digi24", "https://www.digi24.ro", "/search", "q"),
    SourceConfig("antena3", "https://www.antena3.ro", "/cautare", "termen"),
    SourceConfig("protv", "https://stirileprotv.ro", "/cautare", "q"),
    SourceConfig("mediafax", "https://www.mediafax.ro", "/cautare", "q"),
    SourceConfig("zf", "https://www.zf.ro", "/search", "q")
  ]

  // ---------------------------------------------------------------------------
  // `normalize_date`
  // ---------------------------------------------------------------------------

  /** One entry of `romanian_months`. */
  datatype Month = Month(name: string, number: string)

  /** `romanian_months`, in dictionary order. */
  const RomanianMonths: seq<Month> := [
    Month("ianuarie", "01"), Month("februarie", "02"), Month("martie", "03"),
    Month("aprilie", "04"), Month("mai", "05"), Month("iunie", "06"),
    Month("iulie", "07"), Month("august", "08"), Month("septembrie", "09"),
    Month("octombrie", "10"), Month("noiembrie", "11"), Month("decembrie", "12")
  ]

  /** `date_formats`: the `strptime` format of each source that has one. */
  const DateFormats: map<string, string> := map[
    "digi24" := "%d.%m.%Y %H:%M",
    "antena3" := "%d %B %Y",
    "protv" := "%d.%m.%Y",
    "mediafax" := "%Y-%m-%d %H:%M:%S",
    "zf" := "%d.%m.%Y %H:%M"
  ]

  predicate Letters(s: string) {
    forall i :: 0 <= i < |s| ==> 'a' <= s[i] <= 'z'
  }

  /** A month name is a non-empty lower-case word and its number a non-empty
      digit string. */
  predicate WellFormedMonth(m: Month) {
    m.name != [] && Letters(m.name) && m.number != [] && AllDigits(m.number)
  }

  predicate WellFormedMonths(months: seq<Month>) {
    forall i :: 0 <= i < |months| ==> WellFormedMonth(months[i])
  }

  predicate NamedMonths(months: seq<Month>) {
    forall i :: 0 <= i < |months| ==> months[i].name != []
  }

  lemma RomanianMonthsWellFormed()
    ensures WellFormedMonths(RomanianMonths) && NamedMonths(RomanianMonths)
  {
    forall i | 0 <= i < |RomanianMonths| ensures WellFormedMonth(RomanianMonths[i]) {
      if i < 6 { FirstHalfWellFormed(i); } else { SecondHalfWellFormed(i); }
    }
  }

  lemma FirstHalfWellFormed(i: nat)
    requires i < 6
    ensures WellFormedMonth(RomanianMonths[i])
  {
  }

  lemma SecondHalfWellFormed(i: nat)
    requires 6 <= i < 12
    ensures WellFormedMonth(RomanianMonths[i])
  {
  }

  /** The string after the substitution loop has run over `months`: each round
      lower-cases the string and replaces one month name by its number. */
  function Substituted(s: string, months: seq<Month>): string
    requires NamedMonths(months)
  {
    if months == [] then s
    else
      var m := months[|months| - 1];
      ReplaceAll(Lower(Substituted(s, months[..|months| - 1])), m.name, m.number)
  }

  /** The `for rom, num in romanian_months.items()` loop. */
  method SubstituteMonths(dateStr: string) returns (r: string)
    ensures NamedMonths(RomanianMonths) && r == Substituted(dateStr, RomanianMonths)
  {
    RomanianMonthsWellFormed();
    r := dateStr;
    for i := 0 to |RomanianMonths|
      invariant r == Substituted(dateStr, RomanianMonths[..i])
    {
      var m := RomanianMonths[i];
      assert RomanianMonths[..i + 1][..i] == RomanianMonths[..i];
      r := ReplaceAll(Lower(r), m.name, m.number);
    }
    assert RomanianMonths[..|RomanianMonths|] == RomanianMonths;
  }

  lemma DigitsMissLetters(q: string, p: string)
    requires AllDigits(q) && Letters(p)
    ensures Disjoint(q, p)
  {
    forall c | c in q ensures c !in p {
      var i :| 0 <= i < |q| && q[i] == c;
      assert '0' <= c <= '9';
    }
  }

  lemma DigitsLowered(q: string)
    requires AllDigits(q)
    ensures IsLowered(q)
  {
  }

  /** One round of the loop: the new month name is gone, names already gone stay
      gone, and the string is lower case. */
  lemma SubstitutionRound(prev: string, m: Month, earlier: seq<Month>)
    requires WellFormedMonth(m) && WellFormedMonths(earlier)
    requires earlier != [] ==> IsLowered(prev)
    requires forall i :: 0 <= i < |earlier| ==> !Contains(prev, earlier[i].name)
    ensures var r := ReplaceAll(Lower(prev), m.name, m.number);
      && IsLowered(r) && !Contains(r, m.name)
      && forall i :: 0 <= i < |earlier| ==> !Contains(r, earlier[i].name)
  {
    var low := Lower(prev);
    LowerIsLowered(prev);
    DigitsLowered(m.number);
    ReplaceKeepsLowered(low, m.name, m.number);
    DigitsMissLetters(m.number, m.name);
    ReplaceRemovesAll(low, m.name, m.number);
    forall i | 0 <= i < |earlier| ensures !Contains(ReplaceAll(low, m.name, m.number), earlier[i].name) {
      DigitsMissLetters(m.number, earlier[i].name);
      ReplaceKeepsAbsent(low, m.name, m.number, earlier[i].name);
    }
  }

  /** After the loop no month name is left and the string is lower case: the
      month names, being letters, cannot be rebuilt from the digits put in. */
  lemma {:induction false} NoMonthRemains(s: string, months: seq<Month>)
    requires WellFormedMonths(months) && NamedMonths(months) && months != []
    ensures IsLowered(Substituted(s, months))
    ensures forall i :: 0 <= i < |months| ==> !Contains(Substituted(s, months), months[i].name)
    decreases |months|
  {
    var n := |months|;
    var front, m := months[..n - 1], months[n - 1];
    assert forall i :: 0 <= i < n - 1 ==> front[i] == months[i];
    if n > 1 {
      NoMonthRemains(s, front);
    }
    SubstitutionRound(Substituted(s, front), m, front);
  }

  /** A string whose lower-case form holds no month name comes out lower-cased
      and otherwise unchanged. */
  lemma {:induction false} SubstitutionWithoutMonths(s: string, months: seq<Month>)
    requires NamedMonths(months) && months != []
    requires forall i :: 0 <= i < |months| ==> !Contains(Lower(s), months[i].name)
    ensures Substituted(s, months) == Lower(s)
    decreases |months|
  {
    var n := |months|;
    var front, m := months[..n - 1], months[n - 1];
    assert forall i :: 0 <= i < n - 1 ==> front[i] == months[i];
    if n > 1 {
      SubstitutionWithoutMonths(s, front);
      LowerIsLowered(s);
      assert Lower(Substituted(s, front)) == Lower(s);
    }
    ReplaceWithoutMatch(Lower(s), m.name, m.number);
  }

  /** The `datetime` functions `normalize_date` relies on; a parser gives `None`
      where it would raise `ValueError`. Instants are microseconds as in the
      other scrapers. */
  datatype Parsing = Parsing(
    strptime: (string, string) -> Option<int>,
    fromIsoFormat: string -> Option<int>,
    isoFormat: int -> string)

  /** The parse `normalize_date` tries for `source`: its own format when it has
      one, `fromisoformat` otherwise. */
  function ParseFor(s: string, source: string, p: Parsing): Option<int>
  {
    if source in DateFormats then p.strptime(s, DateFormats[source]) else p.fromIsoFormat(s)
  }

  /** `normalize_date`: the ISO text of the parsed date, or `None` when the
      parse raised; the function itself never raises. */
  function NormalizedDate(dateStr: string, source: string, p: Parsing): Option<string>
  {
    RomanianMonthsWellFormed();
    var parsed := ParseFor(Substituted(dateStr, RomanianMonths), source, p);
    if parsed.Some? then Some(p.isoFormat(parsed.value)) else None
  }

  /** `normalize_date` as the code runs it: the substitution loop, then the
      dispatch on the source name. */
  method NormalizeDate(dateStr: string, source: string, p: Parsing) returns (r: Option<string>)
    ensures r == NormalizedDate(dateStr, source, p)
  {
    var s := SubstituteMonths(dateStr);
    if source in DateFormats {
      var parsed := p.strptime(s, DateFormats[source]);
      r := if parsed.Some? then Some(p.isoFormat(parsed.value)) else None;
    } else {
      var parsed := p.fromIsoFormat(s);
      r := if parsed.Some? then Some(p.isoFormat(parsed.value)) else None;
    }
  }

  /** The five configured sources are parsed with their own format (the same
      one for digi24 and zf); any other source falls back to ISO parsing. */
  lemma DateFormatTable(source: string)
    ensures source in DateFormats <==> source in ["digi24", "antena3", "protv", "mediafax", "zf"]
    ensures DateFormats["digi24"] == DateFormats["zf"] == "%d.%m.%Y %H:%M"
  {
  }

  /** The parser sees a lower-case string without month names; the result is
      present exactly when that parse succeeds, and is then its ISO text. */
  lemma NormalizedDateSpec(dateStr: string, source: string, p: Parsing)
    ensures var s := Substituted(dateStr, RomanianMonths);
      var r := NormalizedDate(dateStr, source, p);
      && IsLowered(s)
      && (forall i :: 0 <= i < |RomanianMonths| ==> !Contains(s, RomanianMonths[i].name))
      && (r.Some? <==> ParseFor(s, source, p).Some?)
      && (r.Some? ==> r.value == p.isoFormat(ParseFor(s, source, p).value))
  {
    RomanianMonthsWellFormed();
    NoMonthRemains(dateStr, RomanianMonths);
  }

  // ---------------------------------------------------------------------------
  // `scrape_source`
  // ---------------------------------------------------------------------------

  /** A BeautifulSoup tag: its text pieces in document order and its `href`. */
  datatype Tag = Tag(strings: seq<string>, href: Option<string>)

  /** `get_text(strip=True)`: every text piece stripped, empty ones dropped,
      joined without a separator. */
  function GetText(strings: seq<string>): string
  {
    if strings == [] then ""
    else GetText(strings[..|strings| - 1]) + Strip(strings[|strings| - 1])
  }

  lemma StrippedConcat(a: string, b: string)
    requires IsStripped(a) && IsStripped(b)
    ensures IsStripped(a + b)
  {
    if a == [] {
      assert a + b == b;
    } else if b == [] {
      assert a + b == a;
    } else {
      assert (a + b)[0] == a[0] && (a + b)[|a + b| - 1] == b[|b| - 1];
    }
  }

  /** The text of a tag has no white space at either end, and a tag with one
      text piece gives that piece stripped. */
  lemma {:induction false} GetTextIsStripped(strings: seq<string>)
    ensures IsStripped(GetText(strings))
    ensures |strings| == 1 ==> GetText(strings) == Strip(strings[0])
    decreases |strings|
  {
    if strings != [] {
      var front := strings[..|strings| - 1];
      GetTextIsStripped(front);
      StripMeetsReference(strings[|strings| - 1]);
      StrippedConcat(GetText(front), Strip(strings[|strings| - 1]));
    }
  }

  /** `article.select_one(...)` for the title, date and link selectors
      (`None` when nothing matches). */
  datatype SoupArticle = SoupArticle(title: Option<Tag>, date: Option<Tag>, link: Option<Tag>)

  /** What `requests.get` gave: an exception (timeout, connection error), or a
      status code and the articles `soup.select` finds in the body. */
  datatype Response = RequestRaised | Response(status: int, articles: seq<SoupArticle>)

  /** The URL, the query parameter's name and its value. */
  datatype Request = Request(url: string, param: string, query: string)

  /** An article stub; `date` is `None` when the date could not be parsed. */
  datatype NewsStub = NewsStub(title: string, url: string, date: Option<string>, source: string)

  function SearchRequest(source: SourceConfig, query: string, join: (string, string) -> string): Request
  {
    Request(join(source.baseUrl, source.searchPath), source.searchParam, query)
  }

  /** The stub for one article, or `None` when it is skipped: a selector found
      nothing, or `link_elem['href']` raised `KeyError`. */
  function SoupStub(e: SoupArticle, source: SourceConfig, join: (string, string) -> string, p: Parsing): Option<NewsStub>
  {
    if e.title.None? || e.date.None? || e.link.None? || e.link.value.href.None? then None
    else
      Some(NewsStub(
        GetText(e.title.value.strings),
        join(source.baseUrl, e.link.value.href.value),
        NormalizedDate(GetText(e.date.value.strings), source.name, p),
        source.name))
  }

  function SoupStubOf(source: SourceConfig, join: (string, string) -> string, p: Parsing): SoupArticle -> Option<NewsStub>
  {
    e => SoupStub(e, source, join, p)
  }

  /** `scrape_source` on the response it gets. */
  function SourceArticles(source: SourceConfig, query: string, fetch: Request -> Response,
                          join: (string, string) -> string, p: Parsing): seq<NewsStub>
  {
    match fetch(SearchRequest(source, query, join))
    case RequestRaised => []
    case Response(status, articles) =>
      if status != 200 then [] else Collect(articles, SoupStubOf(source, join, p))
  }

  /** An article gives a stub exactly when all three selectors match and the link
      has an `href` — whatever its title text and whether or not its date
      parses; the stub has the stripped texts, the joined URL, the normalised
      date (possibly `None`) and the source name. */
  lemma SoupStubSpec(e: SoupArticle, source: SourceConfig, join: (string, string) -> string, p: Parsing)
    ensures SoupStub(e, source, join, p).Some?
        <==> e.title.Some? && e.date.Some? && e.link.Some? && e.link.value.href.Some?
    ensures SoupStub(e, source, join, p).Some? ==>
      var a := SoupStub(e, source, join, p).value;
      && a.title == GetText(e.title.value.strings) && IsStripped(a.title)
      && a.url == join(source.baseUrl, e.link.value.href.value)
      && a.date == NormalizedDate(GetText(e.date.value.strings), source.name, p)
      && a.source == source.name
  {
    if e.title.Some? {
      GetTextIsStripped(e.title.value.strings);
    }
  }

  /** All three `select_one` calls found an element. */
  predicate SelectorsMatch(e: SoupArticle) {
    e.title.Some? && e.date.Some? && e.link.Some?
  }

  /** A failed request or a status other than 200 gives no stubs; otherwise each
      stub comes from one of the articles, all three of whose selectors matched. */
  lemma SourceArticlesSpec(source: SourceConfig, query: string, fetch: Request -> Response,
                           join: (string, string) -> string, p: Parsing)
    ensures var resp := fetch(SearchRequest(source, query, join));
      resp.RequestRaised? || resp.status != 200 ==> SourceArticles(source, query, fetch, join, p) == []
    ensures forall a :: a in SourceArticles(source, query, fetch, join, p) ==>
      var resp := fetch(SearchRequest(source, query, join));
      && resp.Response? && resp.status == 200 && a.source == source.name
      && exists i :: 0 <= i < |resp.articles| && SelectorsMatch(resp.articles[i]) && SoupStub(resp.articles[i], source, join, p) == Some(a)
  {
    var resp := fetch(SearchRequest(source, query, join));
    if resp.Response? && resp.status == 200 {
      forall a | a in SourceArticles(source, query, fetch, join, p)
        ensures a.source == source.name
        ensures exists i :: 0 <= i < |resp.articles| && SelectorsMatch(resp.articles[i]) && SoupStub(resp.articles[i], source, join, p) == Some(a)
      {
        CollectMembership(resp.articles, SoupStubOf(source, join, p), a);
        var i :| 0 <= i < |resp.articles| && SoupStub(resp.articles[i], source, join, p) == Some(a);
        SoupStubSpec(resp.articles[i], source, join, p);
      }
    }
  }

  /** The article loop of `scrape_source`: a missing element skips the article
      (`continue`), a missing `href` raises inside the per-article `try` and
      skips it too; everything else is appended. */
  method ExtractStubs(articles: seq<SoupArticle>, source: SourceConfig, join: (string, string) -> string, p: Parsing)
    returns (stubs: seq<NewsStub>)
    ensures stubs == Collect(articles, SoupStubOf(source, join, p))
  {
    stubs := [];
    for i := 0 to |articles|
      invariant stubs == Collect(articles[..i], SoupStubOf(source, join, p))
    {
      var e := articles[i];
      CollectStep(articles, i, SoupStubOf(source, join, p));
      if e.title.Some? && e.date.Some? && e.link.Some? {
        var title := GetText(e.title.value.strings);
        var dateStr := GetText(e.date.value.strings);
        if e.link.value.href.Some? {
          var url := join(source.baseUrl, e.link.value.href.value);
          var date := NormalizeDate(dateStr, source.name, p);
          stubs := stubs + [NewsStub(title, url, date, source.name)];
        }
      }
    }
    assert articles[..|articles|] == articles;
  }

  /** `scrape_source`: one request; nothing unless it answers 200. The
      per-article `try` catches everything the loop can raise, so the outer
      handler only sees the request failing, before any stub was collected. */
  method ScrapeSource(source: SourceConfig, query: string, fetch: Request -> Response,
                      join: (string, string) -> string, p: Parsing)
    returns (articles: seq<NewsStub>)
    ensures articles == SourceArticles(source, query, fetch, join, p)
  {
    articles := [];
    var response := fetch(SearchRequest(source, query, join));
    match response {
      case RequestRaised =>
      case Response(status, found) =>
        if status != 200 {
          return;
        }
        articles := ExtractStubs(found, source, join, p);
    }
  }

  // ---------------------------------------------------------------------------
  // `create_search_queries` and `main`
  // ---------------------------------------------------------------------------

  /** `self.companies.get(name)`. */
  function Lookup(companies: seq<Company>, name: string): Option<seq<string>>
  {
    if companies == [] then None
    else if companies[0].name == name then Some(companies[0].aliases)
    else Lookup(companies[1..], name)
  }

  /** `create_search_queries`: the company's aliases, or the name itself for a
      company the dictionary does not know. */
  function CreateSearchQueries(companies: seq<Company>, company: string): seq<string>
  {
    var terms := match Lookup(companies, company) case Some(aliases) => aliases case None => [company];
    [] + terms
  }

  predicate DistinctNames(companies: seq<Company>) {
    forall i, j :: 0 <= i < j < |companies| ==> companies[i].name != companies[j].name
  }

  /** With distinct names (dictionary keys), a known company's queries are its
      alias list; an unknown company is searched by its name alone. */
  lemma {:induction false} CreateSearchQueriesSpec(companies: seq<Company>, company: string)
    ensures DistinctNames(companies) ==>
      forall i :: 0 <= i < |companies| && companies[i].name == company ==>
        CreateSearchQueries(companies, company) == companies[i].aliases
    ensures (forall i :: 0 <= i < |companies| ==> companies[i].name != company) ==>
      CreateSearchQueries(companies, company) == [company]
    decreases |companies|
  {
    if companies != [] {
      CreateSearchQueriesSpec(companies[1..], company);
      assert forall i :: 1 <= i < |companies| ==> companies[1..][i - 1] == companies[i];
      if DistinctNames(companies) {
        assert DistinctNames(companies[1..]) by {
          forall i, j | 0 <= i < j < |companies[1..]| ensures companies[1..][i].name != companies[1..][j].name {
            assert companies[1..][i] == companies[i + 1] && companies[1..][j] == companies[j + 1];
          }
        }
      }
    }
  }

  /** The companies with the queries `main` searches for each. */
  function Searches(companies: seq<Company>): (r: seq<Company>)
    ensures |r| == |companies|
  {
    seq(|companies|, i requires 0 <= i < |companies| =>
      Company(companies[i].name, CreateSearchQueries(companies, companies[i].name)))
  }

  /** With distinct names, `main` searches exactly the configured aliases. */
  lemma SearchesAreAliases(companies: seq<Company>)
    requires DistinctNames(companies)
    ensures Searches(companies) == companies
  {
    forall i | 0 <= i < |companies| ensures Searches(companies)[i] == companies[i] {
      CreateSearchQueriesSpec(companies, companies[i].name);
    }
  }

  lemma TotalAliasesStep(cs: seq<Company>, k: nat)
    requires k < |cs|
    ensures TotalAliases(cs[..k + 1]) == TotalAliases(cs[..k]) + |cs[k].aliases|
  {
    assert cs[..k + 1][..k] == cs[..k];
  }

  /** 24 aliases on 5 sources: `main` submits 120 requests. */
  lemma NewsTaskCount()
    ensures |Tasks(NewsCompanies, NewsSources)| == 120
  {
    var cs := NewsCompanies;
    assert cs[..0] == [];
    TotalAliasesStep(cs, 0);
    TotalAliasesStep(cs, 1);
    TotalAliasesStep(cs, 2);
    TotalAliasesStep(cs, 3);
    TotalAliasesStep(cs, 4);
    TotalAliasesStep(cs, 5);
    TotalAliasesStep(cs, 6);
    TotalAliasesStep(cs, 7);
    TotalAliasesStep(cs, 8);
    TotalAliasesStep(cs, 9);
    TotalAliasesStep(cs, 10);
    assert cs[..11] == cs;
    TaskCount(cs, NewsSources);
  }

  /** The company names are distinct, so `main` searches each company's own
      aliases. */
  lemma NewsSearches()
    ensures DistinctNames(NewsCompanies)
    ensures Searches(NewsCompanies) == NewsCompanies
  {
    forall i, j | 0 <= i < j < |NewsCompanies| ensures NewsCompanies[i].name != NewsCompanies[j].name {
      var a, b := NewsCompanies[i].name, NewsCompanies[j].name;
      assert |a| != |b| || a[0] != b[0] || a[1] != b[1];
    }
    SearchesAreAliases(NewsCompanies);
  }

  /** A stub after `main` added the task's company and query to it. */
  datatype TaggedStub = TaggedStub(stub: NewsStub, company: string, query: string)

  function TaggedUrl(t: TaggedStub): string { t.stub.url }

  function Tagged(task: Task<SourceConfig>, stubs: seq<NewsStub>): (r: seq<TaggedStub>)
    ensures |r| == |stubs|
  {
    seq(|stubs|, i requires 0 <= i < |stubs| => TaggedStub(stubs[i], task.company, task.query))
  }

  /** `t` is one of `stubs`, tagged with the company and query of `task`. */
  predicate IsTagged(t: TaggedStub, task: Task<SourceConfig>, stubs: seq<NewsStub>) {
    t.company == task.company && t.query == task.query && t.stub in stubs
  }

  function Indices(n: nat): (r: seq<nat>)
    ensures |r| == n && forall i :: 0 <= i < n ==> r[i] == i
  {
    seq(n, i requires 0 <= i < n => i)
  }

  /** The order in which `as_completed` yields the `n` futures: each exactly once. */
  predicate IsCompletionOrder(order: seq<nat>, n: nat) {
    multiset(order) == multiset(Indices(n))
  }

  lemma CompletionOrderFacts(order: seq<nat>, n: nat)
    requires IsCompletionOrder(order, n)
    ensures forall m :: 0 <= m < |order| ==> order[m] < n
    ensures forall x :: 0 <= x < n ==> x in order
  {
    forall m | 0 <= m < |order| ensures order[m] < n {
      assert order[m] in multiset(order);
      assert order[m] in Indices(n);
    }
    forall x | 0 <= x < n ensures x in order {
      assert Indices(n)[x] == x;
      assert x in multiset(Indices(n));
    }
  }

  /** `all_results`: the tagged stubs of the tasks in completion order. */
  function Arrivals(order: seq<nat>, tasks: seq<Task<SourceConfig>>, results: seq<seq<NewsStub>>): seq<TaggedStub>
    requires |results| == |tasks| && forall m :: 0 <= m < |order| ==> order[m] < |tasks|
  {
    if order == [] then []
    else
      var x := order[|order| - 1];
      Arrivals(order[..|order| - 1], tasks, results) + Tagged(tasks[x], results[x])
  }

  /** `t` is one of the tagged stubs of task `x`. */
  predicate InTask(t: TaggedStub, tasks: seq<Task<SourceConfig>>, results: seq<seq<NewsStub>>, x: nat) {
    x < |tasks| && x < |results| && t in Tagged(tasks[x], results[x])
  }

  lemma {:induction false} ArrivalsMembership(order: seq<nat>, tasks: seq<Task<SourceConfig>>, results: seq<seq<NewsStub>>, t: TaggedStub)
    requires |results| == |tasks| && forall m :: 0 <= m < |order| ==> order[m] < |tasks|
    ensures t in Arrivals(order, tasks, results) <==> exists m :: 0 <= m < |order| && InTask(t, tasks, results, order[m])
    decreases |order|
  {
    if order != [] {
      var n := |order|;
      var front, x := order[..n - 1], order[n - 1];
      assert Arrivals(order, tasks, results) == Arrivals(front, tasks, results) + Tagged(tasks[x], results[x]);
      ArrivalsMembership(front, tasks, results, t);
      ArrivalsStep(order, front, t, tasks, results);
    }
  }

  lemma ArrivalsStep(order: seq<nat>, front: seq<nat>, t: TaggedStub, tasks: seq<Task<SourceConfig>>, results: seq<seq<NewsStub>>)
    requires order != [] && front == order[..|order| - 1]
    ensures (exists m :: 0 <= m < |order| && InTask(t, tasks, results, order[m]))
        <==> (exists m :: 0 <= m < |front| && InTask(t, tasks, results, front[m])) || InTask(t, tasks, results, order[|order| - 1])
  {
    if exists m :: 0 <= m < |order| && InTask(t, tasks, results, order[m]) {
      var m :| 0 <= m < |order| && InTask(t, tasks, results, order[m]);
      if m < |front| {
        assert front[m] == order[m];
      }
    }
    if exists m :: 0 <= m < |front| && InTask(t, tasks, results, front[m]) {
      var m :| 0 <= m < |front| && InTask(t, tasks, results, front[m]);
      assert front[m] == order[m];
    }
  }

  /** Every stub of every task arrives, with its task's tags, whatever the order;
      and every arrival is a stub of one task with that task's tags. */
  lemma ArrivalsSpec(order: seq<nat>, tasks: seq<Task<SourceConfig>>, results: seq<seq<NewsStub>>)
    requires |results| == |tasks| && IsCompletionOrder(order, |tasks|)
    ensures forall m :: 0 <= m < |order| ==> order[m] < |tasks|
    ensures forall x, a :: 0 <= x < |tasks| && a in results[x] ==>
      TaggedStub(a, tasks[x].company, tasks[x].query) in Arrivals(order, tasks, results)
    ensures forall t :: t in Arrivals(order, tasks, results) ==> exists x :: 0 <= x < |tasks| && IsTagged(t, tasks[x], results[x])
  {
    CompletionOrderFacts(order, |tasks|);
    forall x, a | 0 <= x < |tasks| && a in results[x]
      ensures TaggedStub(a, tasks[x].company, tasks[x].query) in Arrivals(order, tasks, results)
    {
      StubArrives(order, tasks, results, x, a);
    }
    forall t | t in Arrivals(order, tasks, results)
      ensures exists x :: 0 <= x < |tasks| && IsTagged(t, tasks[x], results[x])
    {
      ArrivalOrigin(order, tasks, results, t);
    }
  }

  lemma StubArrives(order: seq<nat>, tasks: seq<Task<SourceConfig>>, results: seq<seq<NewsStub>>, x: nat, a: NewsStub)
    requires |results| == |tasks| && forall m :: 0 <= m < |order| ==> order[m] < |tasks|
    requires x < |tasks| && a in results[x] && x in order
    ensures TaggedStub(a, tasks[x].company, tasks[x].query) in Arrivals(order, tasks, results)
  {
    var m :| 0 <= m < |order| && order[m] == x;
    var k :| 0 <= k < |results[x]| && results[x][k] == a;
    assert Tagged(tasks[x], results[x])[k] == TaggedStub(a, tasks[x].company, tasks[x].query);
    ArrivalsMembership(order, tasks, results, TaggedStub(a, tasks[x].company, tasks[x].query));
  }

  lemma ArrivalOrigin(order: seq<nat>, tasks: seq<Task<SourceConfig>>, results: seq<seq<NewsStub>>, t: TaggedStub)
    requires |results| == |tasks| && forall m :: 0 <= m < |order| ==> order[m] < |tasks|
    requires t in Arrivals(order, tasks, results)
    ensures exists x :: 0 <= x < |tasks| && IsTagged(t, tasks[x], results[x])
  {
    ArrivalsMembership(order, tasks, results, t);
    var m :| 0 <= m < |order| && InTask(t, tasks, results, order[m]);
    var x := order[m];
    var k :| 0 <= k < |results[x]| && Tagged(tasks[x], results[x])[k] == t;
  }

  /** What one submitted task returns. */
  function TaskArticles(t: Task<SourceConfig>, fetch: Request -> Response,
                        join: (string, string) -> string, p: Parsing): seq<NewsStub>
  {
    SourceArticles(t.source, t.query, fetch, join, p)
  }

  function TaskResults(tasks: seq<Task<SourceConfig>>, fetch: Request -> Response,
                       join: (string, string) -> string, p: Parsing): (r: seq<seq<NewsStub>>)
    ensures |r| == |tasks|
  {
    seq(|tasks|, x requires 0 <= x < |tasks| => TaskArticles(tasks[x], fetch, join, p))
  }

  /** The records `main` writes for its tasks and one completion order. */
  function MainRecords(tasks: seq<Task<SourceConfig>>, order: seq<nat>,
                       fetch: Request -> Response, join: (string, string) -> string, p: Parsing): seq<TaggedStub>
    requires IsCompletionOrder(order, |tasks|)
  {
    CompletionOrderFacts(order, |tasks|);
    DedupByUrl(Arrivals(order, tasks, TaskResults(tasks, fetch, join, p)), TaggedUrl)
  }

  /** The submission loop: one `scrape_source` per task, in nesting order. */
  method ScrapeAll(tasks: seq<Task<SourceConfig>>, fetch: Request -> Response,
                   join: (string, string) -> string, p: Parsing)
    returns (results: seq<seq<NewsStub>>)
    ensures results == TaskResults(tasks, fetch, join, p)
  {
    results := [];
    for x := 0 to |tasks|
      invariant |results| == x
      invariant forall y :: 0 <= y < x ==> results[y] == TaskResults(tasks, fetch, join, p)[y]
    {
      var t := tasks[x];
      var articles := ScrapeSource(t.source, t.query, fetch, join, p);
      results := results + [articles];
    }
  }

  /** `article['company'] = company; article['query'] = query` for every stub
      of one completed task. */
  method TagArticles(task: Task<SourceConfig>, articles: seq<NewsStub>) returns (tagged: seq<TaggedStub>)
    ensures tagged == Tagged(task, articles)
  {
    tagged := [];
    for a := 0 to |articles|
      invariant |tagged| == a
      invariant forall b :: 0 <= b < a ==> tagged[b] == TaggedStub(articles[b], task.company, task.query)
    {
      tagged := tagged + [TaggedStub(articles[a], task.company, task.query)];
    }
  }

  /** The `as_completed` loop: the tagged stubs of each future as it completes. */
  method CollectArrivals(order: seq<nat>, tasks: seq<Task<SourceConfig>>, results: seq<seq<NewsStub>>)
    returns (all: seq<TaggedStub>)
    requires |results| == |tasks| && forall m :: 0 <= m < |order| ==> order[m] < |tasks|
    ensures all == Arrivals(order, tasks, results)
  {
    all := [];
    for m := 0 to |order|
      invariant all == Arrivals(order[..m], tasks, results)
    {
      var x := order[m];
      var tagged := TagArticles(tasks[x], results[x]);
      assert order[..m + 1][..m] == order[..m];
      all := all + tagged;
    }
    assert order[..|order|] == order;
  }

  /** `main`: all requests submitted in nesting order, the results tagged and
      collected as they complete, then one record kept per URL. */
  method SearchAll(order: seq<nat>, fetch: Request -> Response, join: (string, string) -> string, p: Parsing)
    returns (records: seq<TaggedStub>)
    requires IsCompletionOrder(order, |Tasks(Searches(NewsCompanies), NewsSources)|)
    ensures records == MainRecords(Tasks(Searches(NewsCompanies), NewsSources), order, fetch, join, p)
  {
    var tasks := EnumerateTasks(Searches(NewsCompanies), NewsSources);
    var results := ScrapeAll(tasks, fetch, join, p);
    CompletionOrderFacts(order, |tasks|);
    var allResults := CollectArrivals(order, tasks, results);
    records := DedupByUrl(allResults, TaggedUrl);
  }

  /** Whatever the tasks and the completion order: URLs are unique, every stub
      any task returned has its URL in the output, and every record is a stub
      of one task tagged with that task's company and query. */
  lemma MainRecordsSpec(tasks: seq<Task<SourceConfig>>, order: seq<nat>,
                        fetch: Request -> Response, join: (string, string) -> string, p: Parsing)
    requires IsCompletionOrder(order, |tasks|)
    ensures var r := MainRecords(tasks, order, fetch, join, p);
      && (forall i, j :: 0 <= i < j < |r| ==> r[i].stub.url != r[j].stub.url)
      && (forall x, a :: 0 <= x < |tasks| && a in TaskArticles(tasks[x], fetch, join, p) ==>
            (exists i :: 0 <= i < |r| && r[i].stub.url == a.url))
      && (forall i :: 0 <= i < |r| ==> exists x :: 0 <= x < |tasks| && IsTagged(r[i], tasks[x], TaskArticles(tasks[x], fetch, join, p)))
  {
    var results := TaskResults(tasks, fetch, join, p);
    CompletionOrderFacts(order, |tasks|);
    assert MainRecords(tasks, order, fetch, join, p) == DedupByUrl(Arrivals(order, tasks, results), TaggedUrl);
    assert forall x :: 0 <= x < |tasks| ==> results[x] == TaskArticles(tasks[x], fetch, join, p);
    RecordsSpec(order, tasks, results);
  }

  /** `MainRecordsSpec` over any tasks and results. */
  lemma RecordsSpec(order: seq<nat>, tasks: seq<Task<SourceConfig>>, results: seq<seq<NewsStub>>)
    requires |results| == |tasks| && IsCompletionOrder(order, |tasks|)
    ensures forall m :: 0 <= m < |order| ==> order[m] < |tasks|
    ensures var r := DedupByUrl(Arrivals(order, tasks, results), TaggedUrl);
      && (forall i, j :: 0 <= i < j < |r| ==> r[i].stub.url != r[j].stub.url)
      && (forall x, a :: 0 <= x < |tasks| && a in results[x] ==> (exists i :: 0 <= i < |r| && r[i].stub.url == a.url))
      && (forall i :: 0 <= i < |r| ==> exists x :: 0 <= x < |tasks| && IsTagged(r[i], tasks[x], results[x]))
  {
    ArrivalsSpec(order, tasks, results);
    var all := Arrivals(order, tasks, results);
    var r := DedupByUrl(all, TaggedUrl);
    DedupByUrlSpec(all, TaggedUrl);
    forall x, a | 0 <= x < |tasks| && a in results[x] ensures exists i :: 0 <= i < |r| && r[i].stub.url == a.url {
      UrlSurvives(all, TaggedStub(a, tasks[x].company, tasks[x].query));
    }
    forall i | 0 <= i < |r| ensures exists x :: 0 <= x < |tasks| && IsTagged(r[i], tasks[x], results[x]) {
      assert r[i] in all;
    }
  }

  lemma UrlSurvives(all: seq<TaggedStub>, t: TaggedStub)
    requires t in all
    ensures exists i :: 0 <= i < |DedupByUrl(all, TaggedUrl)| && DedupByUrl(all, TaggedUrl)[i].stub.url == t.stub.url
  {
    DedupByUrlSpec(all, TaggedUrl);
    var k :| 0 <= k < |all| && all[k] == t;
    assert TaggedUrl(all[k]) == t.stub.url;
  }

  /** Which duplicate survives depends on the completion order: the same two
      stubs for one URL, tagged with different companies, keep the later one. */
  lemma SurvivorDependsOnOrder()
    ensures var a := TaggedStub(NewsStub("t", "u", None, "zf"), "CEZ", "CEZ");
      var b := TaggedStub(NewsStub("t", "u", None, "zf"), "AXPO", "AXPO");
      DedupByUrl([a, b], TaggedUrl) == [b] && DedupByUrl([b, a], TaggedUrl) == [a] && a != b
  {
    var a := TaggedStub(NewsStub("t", "u", None, "zf"), "CEZ", "CEZ");
    var b := TaggedStub(NewsStub("t", "u", None, "zf"), "AXPO", "AXPO");
    LaterDuplicateWins(a, b, TaggedUrl);
    LaterDuplicateWins(b, a, TaggedUrl);
    assert a.company[0] != b.company[0];
  }

  /** Two elements with one URL: the dictionary keeps the second. */
  lemma LaterDuplicateWins<T>(a: T, b: T, url: T -> string)
    requires url(a) == url(b)
    ensures DedupByUrl([a, b], url) == [b]
  {
    var u := url(a);
    assert [a, b][..1] == [a] && [a][..0] == [];
    assert Comprehension([a], url) == UrlDict([u], map[u := a]);
    assert Comprehension([a, b], url) == UrlDict([u], map[u := b]);
  }
}
