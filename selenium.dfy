/**
 * What the two Selenium scrapers (`SeleniumNewsScraper` and `WebScraper`)
 * share: the outcomes of the browser calls they make, their identical
 * `safe_get` and `extract_element_text` helpers, the scroll-until-settled
 * loop, the search URL built from a source's template and the article stub.
 * A browser call is not run; its outcome is given as a value.
 */
module Selenium {
  import opened Wrappers
  import opened Text

  /** One entry of `self.sources`: the source name and its `search_url` template
      (only the template is read; the XPath patterns go to the browser). */
  datatype Source = Source(name: string, searchUrl: string)

  const QueryField: string := "{query}"

  /** `config["search_url"].format(query=query)` for a template whose only
      replacement field is `{query}`. */
  function SearchUrl(template: string, query: string): string
  {
    ReplaceAll(template, QueryField, query)
  }

  /** A search template made of a prefix and a trailing `{query}` formats to the
      prefix followed by the query, as long as the prefix holds no `{`. */
  lemma SearchUrlOfPrefix(prefix: string, query: string)
    requires '{' !in prefix
    ensures SearchUrl(prefix + QueryField, query) == prefix + query
  {
    ReplaceAtEnd(prefix, QueryField, query);
  }

  /** An article stub. */
  datatype Article = Article(title: string, url: string, date: string, source: string)

  function ArticleUrl(a: Article): string { a.url }

  /** What `browser.get(url)` did. */
  datatype Navigation = Navigated | NavigationRaised

  /** `safe_get`: true exactly when loading the page did not raise. The random
      delay after a successful load has no effect on the outcome. */
  function SafeGet(n: Navigation): (ok: bool)
    ensures ok <==> n == Navigated
  {
    match n
    case Navigated => true
    case NavigationRaised => false
  }

  /** What `element.find_element(By.XPATH, xpath).text` gave. */
  datatype TextLookup =
    | TextFound(text: string)   // the element's text
    | NoSuchElement            // `NoSuchElementException`
    | LookupRaised             // any other exception

  /** What `element.find_element(By.XPATH, xpath).get_attribute("href")` gave:
      the attribute (`None` when the element has none), or an exception, which
      includes not finding the element. */
  datatype LinkLookup = LinkFound(href: Option<string>) | LinkRaised

  /** The three lookups made on one article element. */
  datatype ElementOutcome = Element(title: TextLookup, date: TextLookup, link: LinkLookup)

  /** `extract_element_text`: the stripped text of the match, `""` when there is
      no match, and `None` when the lookup raised anything else (the exception
      then propagates to the caller). */
  function ExtractElementText(lookup: TextLookup): (r: Option<string>)
    ensures r.None? <==> lookup.LookupRaised?
    ensures lookup.NoSuchElement? ==> r == Some("")
    ensures lookup.TextFound? ==> r.Some? && StrippedFrom(lookup.text, r.value)
  {
    match lookup
    case TextFound(text) => StripMeetsReference(text); Some(Strip(text))
    case NoSuchElement => Some("")
    case LookupRaised => None
  }

  /** The text `extract_element_text` returns is stripped, and it is empty
      exactly when the element is missing or holds only white space. */
  lemma ExtractedTextEmpty(lookup: TextLookup)
    requires !lookup.LookupRaised?
    ensures IsStripped(ExtractElementText(lookup).value)
    ensures ExtractElementText(lookup).value == []
        <==> lookup.NoSuchElement? || forall k :: 0 <= k < |lookup.text| ==> IsSpace(lookup.text[k])
  {
    if lookup.TextFound? {
      StripEmptyIffAllSpace(lookup.text);
    }
  }

  /** What happened after a search page was requested, for article elements
      of type `E`. */
  datatype PageLoad<E> =
    | WaitTimedOut     // no article element appeared within the wait (`TimeoutException`)
    | PageRaised       // the wait, the scrolling or `find_elements` raised anything else
    | Loaded(heights: seq<int>, elements: seq<E>)
                       // the page heights while scrolling, and the article elements found

  /** The navigation to a search URL and what followed it. */
  datatype SearchPage<E> = SearchPage(navigation: Navigation, load: PageLoad<E>)

  // ---------------------------------------------------------------------------
  // `scroll_page`
  // ---------------------------------------------------------------------------

  /** Some two consecutive readings of `document.body.scrollHeight` agree: the
      page stops growing. `heights[0]` is the reading before the first scroll,
      `heights[k]` the reading after the `k`-th. */
  ghost predicate Settles(heights: seq<int>) {
    exists k :: 1 <= k < |heights| && heights[k] == heights[k - 1]
  }

  /** `scroll_page`: scrolls to the bottom and re-reads the height until it
      equals the previous reading. Returns the number of scroll-and-pause steps,
      which is the first index at which the height repeats. */
  method ScrollPage(heights: seq<int>) returns (steps: nat)
    requires Settles(heights)
    ensures 1 <= steps < |heights| && heights[steps] == heights[steps - 1]
    ensures forall k :: 1 <= k < steps ==> heights[k] != heights[k - 1]
  {
    ghost var settle :| 1 <= settle < |heights| && heights[settle] == heights[settle - 1];
    var lastHeight := heights[0];
    steps := 0;
    while true
      invariant steps < settle
      invariant lastHeight == heights[steps]
      invariant forall k :: 1 <= k <= steps ==> heights[k] != heights[k - 1]
      decreases settle - steps
    {
      steps := steps + 1;
      var newHeight := heights[steps];
      if newHeight == lastHeight {
        break;
      }
      lastHeight := newHeight;
    }
  }

  /** Scrolling settles on the page, if it loads. */
  ghost predicate PageSettles<E>(page: SearchPage<E>) {
    page.load.Loaded? ==> Settles(page.load.heights)
  }
}
