/**
 * `parse_results_page`: the product links of a search-results page, made
 * absolute and cut to the five most relevant.
 */
module Results {
  import opened Text
  import opened Identifiers

  /** Only this many search results are fetched. */
  const MaxMatches: nat := 5

  /** A site-relative href gets the product-host prefix; any other href is kept. */
  function Absolutize(href: string): string
  {
    if StartsWith(href, "/") then ProductPrefix + href else href
  }

  /** The result URLs as one expression, for callers that are functions. */
  function ResultUrls(hrefs: seq<string>): (urls: seq<string>)
    ensures |urls| == if |hrefs| < MaxMatches then |hrefs| else MaxMatches
    ensures forall i :: 0 <= i < |urls| ==> urls[i] == Absolutize(hrefs[i])
  {
    var n := if |hrefs| < MaxMatches then |hrefs| else MaxMatches;
    seq(n, i requires 0 <= i < n => Absolutize(hrefs[i]))
  }

  /**
   * `parse_results_page`, given the `href` of every result link in document
   * order: at most five URLs, the first ones of the page, in page order.
   */
  method ParseResultsPage(hrefs: seq<string>) returns (urls: seq<string>)
    ensures |urls| == if |hrefs| < MaxMatches then |hrefs| else MaxMatches
    ensures forall i :: 0 <= i < |urls| && StartsWith(hrefs[i], "/") ==> urls[i] == ProductPrefix + hrefs[i]
    ensures forall i :: 0 <= i < |urls| && !StartsWith(hrefs[i], "/") ==> urls[i] == hrefs[i]
    ensures urls == ResultUrls(hrefs)
  {
    var matches: seq<string> := [];
    var i := 0;
    while i < |hrefs|
      invariant 0 <= i <= |hrefs|
      invariant |matches| == i
      invariant forall j :: 0 <= j < i ==> matches[j] == Absolutize(hrefs[j])
    {
      matches := matches + [Absolutize(hrefs[i])];
      i := i + 1;
    }
    urls := if |matches| < MaxMatches then matches else matches[..MaxMatches];
  }

  /** The prefix ends in a slash, so a relative href yields a double slash. */
  lemma RelativeHrefDoubleSlash(href: string)
    requires StartsWith(href, "/")
    ensures Absolutize(href) == "http://product.dangdang.com//" + href[1..]
  {
    assert href == "/" + href[1..];
  }
}
