/**
 * `identify`: the direct product-page lookup, the query, the result list,
 * the single retry without identifiers, and one worker per result.
 */
module Identify {
  import opened Wrappers
  import opened Text
  import opened Identifiers
  import opened Query
  import opened Results
  import opened Details

  /** A worker to start: the page it reads and the relevance it reports. */
  datatype Job = Job(url: string, relevance: nat)

  /** How one call of `identify` ends. */
  datatype Resolution =
    | DirectDone(outcome: Outcome)     // the direct lookup ran the worker and returned
    | Crash                            // `query.startswith` on the tuple `(None, None)`
    | Insufficient                     // the `query is None` exit
    | Aborted                          // the abort flag was set once the matches were known
    | NoMatches                        // nothing found and no retry possible
    | Retried(inner: Resolution)       // nothing found; the call made without identifiers
    | Spawned(jobs: seq<Job>)          // one worker per match

  /** What the site answers during one call: the pages, and the result links of each search. */
  datatype Net = Net(
    details: string -> Option<Page>,            // parse_details_page: None when fetching or parsing failed
    search: map<string, string> -> seq<string>) // hrefs of the result links of a search

  /** Python truthiness of an optional list. */
  predicate NonEmptyList<T>(xs: Option<seq<T>>)
  {
    xs.Some? && |xs.value| > 0
  }

  /** The call, or the retry it made, ended as `e`. */
  predicate EndsAs(r: Resolution, e: Resolution)
  {
    r == e || (r.Retried? && r.inner == e)
  }

  /** One job per URL, numbered from 0 in order. */
  function Jobs(urls: seq<string>): (jobs: seq<Job>)
    ensures |jobs| == |urls|
    ensures forall i :: 0 <= i < |jobs| ==> jobs[i].url == urls[i] && jobs[i].relevance == i
  {
    seq(|urls|, i requires 0 <= i < |urls| => Job(urls[i], i))
  }

  /**
   * The direct lookup: with a truthy dang id, its product page is fetched;
   * when the page's canonical id equals the requested one, a worker with
   * relevance 0 reads it and `identify` returns. A raise from the worker is
   * logged and the search follows, as it does when the fetch fails or the
   * ids differ.
   */
  function DirectLookup(ids: Identifiers, net: Net): (r: Option<Outcome>)
    ensures r.Some? <==>
      && GetBookUrl(ids).Some?
      && net.details(GetBookUrl(ids).value.1).Some?
      && ParseDangId(net.details(GetBookUrl(ids).value.1).value.canonicalHrefs) == Some(GetBookUrl(ids).value.0)
    ensures r.Some? ==> r.value == Gate(net.details(GetBookUrl(ids).value.1).value, 0) && r.value != CaptchaRaised
  {
    match GetBookUrl(ids)
    case None => None
    case Some((id, durl)) =>
      match net.details(durl)
      case None => None
      case Some(p) =>
        if ParseDangId(p.canonicalHrefs) == Some(id) then
          IdentifiedPageIsNoCaptcha(p, id, 0);
          var o := Gate(p, 0);
          if o == CaptchaRaised then None else Some(o)
        else None
  }

  /** The URLs to read for a query: the product page itself, or the top search results. */
  function MatchesOf(q: Query, net: Net): (urls: seq<string>)
    ensures q.ProductPage? ==> urls == [q.url]
    ensures q.SearchPage? ==> urls == ResultUrls(net.search(q.params))
    ensures |urls| <= MaxMatches
  {
    match q
    case ProductPage(url) => [url]
    case SearchPage(params) => ResultUrls(net.search(params))
  }

  /**
   * `identify`. `aborted` is the abort flag as the call sees it; `corrected`
   * selects the `create_query` that answers `None` when metadata is
   * insufficient, instead of the tuple the code returns.
   */
  function Resolve(title: Option<string>, authors: Option<seq<string>>, ids: Identifiers,
                   net: Net, h: Helpers, aborted: bool, corrected: bool): (r: Resolution)
    ensures r.DirectDone? <==> DirectLookup(ids, net).Some?
    ensures r.DirectDone? ==> r.outcome == DirectLookup(ids, net).value
    ensures r == Crash <==> !corrected && DirectLookup(ids, net).None? && CreateQuery(title, authors, ids, h) == NonePair
    ensures EndsAs(r, Crash) ==> !corrected
    ensures EndsAs(r, Insufficient) ==> corrected
    ensures r == Insufficient <==> corrected && DirectLookup(ids, net).None? && CreateQuery(title, authors, ids, h) == NonePair
    ensures aborted ==> !r.Spawned? && !r.Retried? && r != NoMatches
    ensures r.Spawned? ==> 1 <= |r.jobs| <= MaxMatches && forall i :: 0 <= i < |r.jobs| ==> r.jobs[i].relevance == i
    ensures r.Spawned? ==>
      CreateQuery(title, authors, ids, h).Built? && r.jobs == Jobs(MatchesOf(CreateQuery(title, authors, ids, h).query, net))
    ensures r.Retried? ==> |ids| > 0 && Truthy(title) && NonEmptyList(authors) && !r.inner.Retried? && !r.inner.DirectDone?
    ensures r.Retried? ==> r.inner != Crash && r.inner != Insufficient
    ensures r.Retried? ==> r.inner == Resolve(title, authors, [], net, h, aborted, corrected)
    ensures DirectLookup(ids, net).None? && CreateQuery(title, authors, ids, h).Built? ==>
      var m := MatchesOf(CreateQuery(title, authors, ids, h).query, net);
      && (aborted ==> r == Aborted)
      && (!aborted && |m| > 0 ==> r.Spawned?)
      && (!aborted && |m| == 0 ==> (r.Retried? <==> |ids| > 0 && Truthy(title) && NonEmptyList(authors)))
      && (!aborted && |m| == 0 ==> (r == NoMatches <==> !(|ids| > 0 && Truthy(title) && NonEmptyList(authors))))
    ensures r.Spawned? && GetDangId(ids).Some? ==> r.jobs == [Job(BookUrl(GetDangId(ids).value), 0)]
    decreases |ids|
  {
    match DirectLookup(ids, net)
    case Some(o) => DirectDone(o)
    case None =>
      match CreateQuery(title, authors, ids, h)
      case NonePair => if corrected then Insufficient else Crash
      case Built(q) =>
        var matches := MatchesOf(q, net);
        if aborted then Aborted
        else if |matches| == 0 then
          if |ids| > 0 && Truthy(title) && NonEmptyList(authors) then
            Retried(Resolve(title, authors, [], net, h, aborted, corrected))
          else NoMatches
        else Spawned(Jobs(matches))
  }

  /**
   * A search that is not aborted starts one worker per result link, up to
   * five: the i-th worker reads the i-th link, absolutized, with relevance i.
   */
  lemma SearchSpawnsTopResults(title: Option<string>, authors: Option<seq<string>>, ids: Identifiers,
                               net: Net, h: Helpers, corrected: bool)
    requires DirectLookup(ids, net).None?
    requires CreateQuery(title, authors, ids, h).Built? && CreateQuery(title, authors, ids, h).query.SearchPage?
    requires |net.search(CreateQuery(title, authors, ids, h).query.params)| > 0
    ensures var hrefs := net.search(CreateQuery(title, authors, ids, h).query.params);
      var r := Resolve(title, authors, ids, net, h, false, corrected);
      && r.Spawned?
      && |r.jobs| == (if |hrefs| < MaxMatches then |hrefs| else MaxMatches)
      && forall i :: 0 <= i < |r.jobs| ==> r.jobs[i] == Job(Absolutize(hrefs[i]), i)
  {
  }

  /** `identify` as written. */
  function IdentifyAsWritten(title: Option<string>, authors: Option<seq<string>>, ids: Identifiers,
                             net: Net, h: Helpers, aborted: bool): (r: Resolution)
    ensures !EndsAs(r, Insufficient)
  {
    Resolve(title, authors, ids, net, h, aborted, false)
  }

  /** `identify` with the `None` answer for insufficient metadata. */
  function IdentifyCorrected(title: Option<string>, authors: Option<seq<string>>, ids: Identifiers,
                             net: Net, h: Helpers, aborted: bool): (r: Resolution)
    ensures !EndsAs(r, Crash)
  {
    Resolve(title, authors, ids, net, h, aborted, true)
  }

  /**
   * With nothing to search for, the code as written fails on `(None, None)`
   * where the corrected code returns quietly; on every other input the two
   * agree.
   */
  lemma {:induction false} InsufficientMetadataCrashes(net: Net, h: Helpers, aborted: bool)
    ensures IdentifyAsWritten(None, None, [], net, h, aborted) == Crash
    ensures IdentifyCorrected(None, None, [], net, h, aborted) == Insufficient
  {
    EmptyQueryIsNonePair(h);
    assert GetDangId([]) == None;
    assert GetBookUrl([]) == None;
  }

  /** Apart from the crash, the corrected code behaves exactly as written. */
  lemma {:induction false} CorrectedAgreesElsewhere(title: Option<string>, authors: Option<seq<string>>,
                                                    ids: Identifiers, net: Net, h: Helpers, aborted: bool)
    requires !EndsAs(IdentifyAsWritten(title, authors, ids, net, h, aborted), Crash)
    ensures IdentifyCorrected(title, authors, ids, net, h, aborted) == IdentifyAsWritten(title, authors, ids, net, h, aborted)
    decreases |ids|
  {
    if DirectLookup(ids, net).None? && CreateQuery(title, authors, ids, h).Built? && !aborted {
      var matches := MatchesOf(CreateQuery(title, authors, ids, h).query, net);
      if |matches| == 0 && |ids| > 0 && Truthy(title) && NonEmptyList(authors) {
        CorrectedAgreesElsewhere(title, authors, [], net, h, aborted);
      }
    }
  }

  /**
   * The retry never crashes: it needs a non-empty author list, which always
   * sets `key2`, so the retried `create_query` builds a search.
   */
  lemma RetryNeverCrashes(title: Option<string>, authors: Option<seq<string>>, ids: Identifiers,
                          net: Net, h: Helpers, aborted: bool)
    ensures var r := IdentifyAsWritten(title, authors, ids, net, h, aborted);
      r.Retried? ==> r.inner != Crash && CreateQuery(title, authors, [], h).Built?
  {
  }

  /**
   * When the product page of the id names that same id, the direct lookup
   * ends the call: the CAPTCHA branch that would fall back to a search
   * cannot be taken there.
   */
  lemma DirectLookupEnds(title: Option<string>, authors: Option<seq<string>>, ids: Identifiers,
                         net: Net, h: Helpers, aborted: bool, corrected: bool)
    requires GetBookUrl(ids).Some?
    requires '/' !in GetBookUrl(ids).value.0 && '.' !in GetBookUrl(ids).value.0
    requires net.details(GetBookUrl(ids).value.1).Some?
    requires net.details(GetBookUrl(ids).value.1).value.canonicalHrefs == [GetBookUrl(ids).value.1]
    ensures Resolve(title, authors, ids, net, h, aborted, corrected)
      == DirectDone(Gate(net.details(GetBookUrl(ids).value.1).value, 0))
  {
    DirectLookupAccepts(ids);
  }

  /**
   * A known dang id whose direct lookup did not end the call searches its
   * own product page: one worker, relevance 0, no search request.
   */
  lemma DangIdSpawnsOneWorker(title: Option<string>, authors: Option<seq<string>>, ids: Identifiers,
                              net: Net, h: Helpers, corrected: bool)
    requires GetDangId(ids).Some? && DirectLookup(ids, net).None?
    ensures Resolve(title, authors, ids, net, h, false, corrected) == Spawned([Job(BookUrl(GetDangId(ids).value), 0)])
  {
  }
}
