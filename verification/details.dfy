/**
 * `parse_details` as a decision: from what a product page holds, whether the
 * worker raises the CAPTCHA error, drops the page, or queues one record and
 * writes the plugin's identifier caches; and `Worker.run` around it.
 */
module Details {
  import opened Wrappers
  import opened Text
  import opened Identifiers
  import opened Fields

  /** What the element queries of a product page return. */
  datatype Page = Page(
    canonicalHrefs: seq<string>,     // hrefs of <link rel="canonical">
    captchaForm: bool,               // a form posting to /errors/validateCaptcha
    headings: seq<string>,           // texts of the name_info headings
    alts: seq<Option<string>>,       // alt attributes of the large product images
    authorsFirst: seq<string>,       // texts of the author links
    authorsSecond: seq<string>,      // texts of the shop-layout author cells
    images: seq<Image>,              // the large product images
    isbn: Option<string>)            // what parse_isbn returned

  /**
   * The fields of the worker's `Metadata` that the gate decides, as they are
   * before `clean_downloaded_metadata` rewrites the title and authors.
   */
  datatype Record = Record(
    title: string, authors: seq<string>, dangId: string,
    isbn: Option<string>, sourceRelevance: nat, hasCover: bool)

  /** A write into one of the plugin's two identifier caches. */
  datatype CacheWrite = IsbnToId(isbn: string, id: string) | IdToCover(id: string, url: string)

  datatype Outcome = CaptchaRaised | Discarded | Emitted(record: Record, writes: seq<CacheWrite>)

  /** Python truthiness of an optional string. */
  predicate Truthy(s: Option<string>)
  {
    s.Some? && s.value != ""
  }

  /** The page is a CAPTCHA challenge: no usable id and the challenge form present. */
  predicate IsCaptcha(p: Page)
  {
    !Truthy(ParseDangId(p.canonicalHrefs)) && p.captchaForm
  }

  /** The three mandatory fields are all present and non-empty. */
  predicate Complete(p: Page)
  {
    && Truthy(ParseTitle(p.headings, p.alts))
    && ParseAuthors(p.authorsFirst, p.authorsSecond).Some?
    && |ParseAuthors(p.authorsFirst, p.authorsSecond).value| > 0
    && Truthy(ParseDangId(p.canonicalHrefs))
  }

  /** The cache writes of a complete page, in the order the worker makes them. */
  function Writes(id: string, isbn: Option<string>, cover: Option<string>): (w: seq<CacheWrite>)
    ensures Truthy(isbn) <==> |w| > 0 && w[0].IsbnToId?
    ensures Truthy(isbn) ==> w[0] == IsbnToId(isbn.value, id)
    ensures Truthy(cover) <==> |w| > 0 && w[|w| - 1].IdToCover?
    ensures Truthy(cover) ==> w[|w| - 1] == IdToCover(id, cover.value)
    ensures forall x :: x in w ==> x.id == id
    ensures |w| == (if Truthy(isbn) then 1 else 0) + (if Truthy(cover) then 1 else 0)
  {
    match (Truthy(isbn), Truthy(cover))
    case (true, true) => [IsbnToId(isbn.value, id), IdToCover(id, cover.value)]
    case (true, false) => [IsbnToId(isbn.value, id)]
    case (false, true) => [IdToCover(id, cover.value)]
    case (false, false) => []
  }

  /**
   * `parse_details`: the CAPTCHA test comes first and looks only at the id
   * and the form; an incomplete page is dropped with no cache write; a
   * complete one is queued with the worker's relevance and a cover flag.
   */
  function Gate(p: Page, relevance: nat): (o: Outcome)
    ensures o == CaptchaRaised <==> IsCaptcha(p)
    ensures o == Discarded <==> !IsCaptcha(p) && !Complete(p)
    ensures o.Emitted? ==>
      && o.record.title == ParseTitle(p.headings, p.alts).value
      && o.record.authors == ParseAuthors(p.authorsFirst, p.authorsSecond).value
      && o.record.dangId == ParseDangId(p.canonicalHrefs).value
      && o.record.sourceRelevance == relevance
  {
    Decide(ParseDangId(p.canonicalHrefs), p.captchaForm, ParseTitle(p.headings, p.alts),
           ParseAuthors(p.authorsFirst, p.authorsSecond), CoverUrl(ParseCover(p.images)), p.isbn, relevance)
  }

  /** The gate over the answers of the page's field readers. */
  function Decide(id: Option<string>, captchaForm: bool, title: Option<string>, authors: Option<seq<string>>,
                  cover: Option<string>, isbn: Option<string>, relevance: nat): (o: Outcome)
    ensures o == CaptchaRaised <==> !Truthy(id) && captchaForm
    ensures o == Discarded <==>
      !(!Truthy(id) && captchaForm) && !(Truthy(title) && authors.Some? && |authors.value| > 0 && Truthy(id))
    ensures o.Emitted? ==>
      && o.record == Record(title.value, authors.value, id.value, if Truthy(isbn) then isbn else None,
                            relevance, Truthy(cover))
      && (Truthy(isbn) <==> |o.writes| > 0 && o.writes[0].IsbnToId?)
      && (Truthy(isbn) ==> o.writes[0] == IsbnToId(isbn.value, id.value))
      && (Truthy(cover) <==> |o.writes| > 0 && o.writes[|o.writes| - 1].IdToCover?)
      && (Truthy(cover) ==> o.writes[|o.writes| - 1] == IdToCover(id.value, cover.value))
      && (forall x :: x in o.writes ==> x.id == id.value)
      && |o.writes| == (if Truthy(isbn) then 1 else 0) + (if Truthy(cover) then 1 else 0)
      && o.writes == Writes(id.value, isbn, cover)
  {
    if !Truthy(id) && captchaForm then CaptchaRaised
    else if !Truthy(title) || authors.None? || |authors.value| == 0 || !Truthy(id) then Discarded
    else
      Emitted(Record(title.value, authors.value, id.value, if Truthy(isbn) then isbn else None,
                     relevance, Truthy(cover)),
              Writes(id.value, isbn, cover))
  }

  /**
   * On a queued record, `has_cover` is the truthiness of the cover URL, and
   * the caches get exactly the ISBN and the cover that were found.
   */
  lemma EmittedWrites(p: Page, relevance: nat)
    requires Gate(p, relevance).Emitted?
    ensures var o := Gate(p, relevance);
      var cover := CoverUrl(ParseCover(p.images));
      && (o.record.hasCover <==> Truthy(cover))
      && (Truthy(p.isbn) <==> |o.writes| > 0 && o.writes[0].IsbnToId?)
      && (Truthy(p.isbn) ==> o.writes[0] == IsbnToId(p.isbn.value, o.record.dangId))
      && (Truthy(cover) <==> |o.writes| > 0 && o.writes[|o.writes| - 1].IdToCover?)
      && (Truthy(cover) ==> o.writes[|o.writes| - 1] == IdToCover(o.record.dangId, cover.value))
      && (forall x :: x in o.writes ==> x.id == o.record.dangId)
      && |o.writes| == (if Truthy(p.isbn) then 1 else 0) + (if Truthy(cover) then 1 else 0)
  {
    var id, title, authors := ParseDangId(p.canonicalHrefs), ParseTitle(p.headings, p.alts),
      ParseAuthors(p.authorsFirst, p.authorsSecond);
    var cover := CoverUrl(ParseCover(p.images));
    assert Gate(p, relevance) == Decide(id, p.captchaForm, title, authors, cover, p.isbn, relevance);
  }

  /**
   * The CAPTCHA decision is taken before title and authors are read: two
   * pages that agree on id and form agree on it whatever else they hold.
   */
  lemma CaptchaIgnoresFields(p: Page, q: Page, r1: nat, r2: nat)
    requires p.canonicalHrefs == q.canonicalHrefs && p.captchaForm == q.captchaForm
    ensures Gate(p, r1) == CaptchaRaised <==> Gate(q, r2) == CaptchaRaised
  {
  }

  /** A page whose canonical link gives a non-empty id is never a CAPTCHA. */
  lemma IdentifiedPageIsNoCaptcha(p: Page, id: string, relevance: nat)
    requires ParseDangId(p.canonicalHrefs) == Some(id) && id != ""
    ensures Gate(p, relevance) != CaptchaRaised
  {
  }

  /**
   * `Worker.run`: the page fetch may fail (`None`), and every exception of
   * `get_details`, the CAPTCHA error included, is logged and dropped. What
   * remains is the records queued and the cache writes made.
   */
  function WorkerRun(page: Option<Page>, relevance: nat): (r: (seq<Record>, seq<CacheWrite>))
    ensures |r.0| <= 1
    ensures |r.0| == 0 ==> |r.1| == 0
    ensures |r.0| == 1 <==> page.Some? && Gate(page.value, relevance).Emitted?
    ensures forall x :: x in r.0 ==> x.sourceRelevance == relevance
    ensures page.Some? && Gate(page.value, relevance).Emitted? ==>
      r == ([Gate(page.value, relevance).record], Gate(page.value, relevance).writes)
  {
    match page
    case None => ([], [])
    case Some(p) =>
      match Gate(p, relevance)
      case Emitted(record, writes) => ([record], writes)
      case _ => ([], [])
  }

  /** A CAPTCHA page ends the worker quietly, with nothing queued and nothing cached. */
  lemma WorkerSwallowsCaptcha(p: Page, relevance: nat)
    requires IsCaptcha(p)
    ensures WorkerRun(Some(p), relevance) == ([], [])
  {
  }
}
