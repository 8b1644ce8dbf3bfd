/**
 * The field readers of the details page whose choice logic matters:
 * `parse_cover`, `parse_authors` and `parse_title`. Each takes what the
 * page's element queries returned, as strings.
 */
module Fields {
  import opened Wrappers
  import opened Text

  /** The placeholder image dangdang serves before a cover is lazily loaded. */
  const Placeholder: string := "blank.gif"

  /** The `src` and `wsrc` attributes of the large product image. */
  datatype Image = Image(src: Option<string>, wsrc: Option<string>)

  /**
   * What `parse_cover` does: return a URL, return `None`, or raise because
   * the attribute it tests is missing (`'blank.gif' not in None`).
   */
  datatype CoverOutcome = Cover(url: string) | NoCover | CoverError

  /**
   * `parse_cover`, given the large product images in document order: the
   * first image's `src` unless it is the placeholder, else its `wsrc`
   * unless that is the placeholder too.
   */
  function ParseCover(images: seq<Image>): (r: CoverOutcome)
    ensures r.Cover? ==> !Contains(r.url, Placeholder)
    ensures r.Cover? ==> |images| > 0 && (images[0].src == Some(r.url) || images[0].wsrc == Some(r.url))
    ensures |images| > 0 && images[0].src.Some? && !Contains(images[0].src.value, Placeholder) ==>
      r == Cover(images[0].src.value)
    ensures r.CoverError? <==>
      |images| > 0 && (images[0].src.None? || (Contains(images[0].src.value, Placeholder) && images[0].wsrc.None?))
    ensures r == NoCover <==>
      |images| == 0 || (|images| > 0 && images[0].src.Some? && Contains(images[0].src.value, Placeholder)
                        && images[0].wsrc.Some? && Contains(images[0].wsrc.value, Placeholder))
  {
    if |images| == 0 then NoCover
    else
      match images[0].src
      case None => CoverError
      case Some(src) =>
        if !Contains(src, Placeholder) then Cover(src)
        else
          match images[0].wsrc
          case None => CoverError
          case Some(wsrc) => if !Contains(wsrc, Placeholder) then Cover(wsrc) else NoCover
  }

  /** The cover URL the worker keeps: a raise leaves it at its initial `None`. */
  function CoverUrl(c: CoverOutcome): (r: Option<string>)
    ensures r.Some? <==> c.Cover?
    ensures r.Some? ==> r.value == c.url
  {
    if c.Cover? then Some(c.url) else None
  }

  /** A lazily loaded cover is found through `wsrc`. */
  lemma LazyCoverUsesWsrc(url: string)
    requires !Contains(url, Placeholder)
    ensures ParseCover([Image(Some("/images/blank.gif"), Some(url))]) == Cover(url)
  {
    assert OccursAt("/images/blank.gif", Placeholder, 8);
  }

  /**
   * `parse_authors`, given the element texts of the first and of the second
   * author query: the first query that matched anything decides, and its
   * blank texts are dropped. `None` when neither query matched.
   */
  function ParseAuthors(first: seq<string>, second: seq<string>): (r: Option<seq<string>>)
    ensures r.None? <==> |first| == 0 && |second| == 0
    ensures |first| > 0 ==> r == Some(NonEmpty(StripAll(first)))
    ensures |first| == 0 && |second| > 0 ==> r == Some(NonEmpty(StripAll(second)))
    ensures r.Some? ==> forall i :: 0 <= i < |r.value| ==> r.value[i] != "" && Strip(r.value[i]) == r.value[i]
  {
    if |first| > 0 then Some(Authors(first))
    else if |second| > 0 then Some(Authors(second))
    else None
  }

  /** The stripped, non-blank element texts. */
  function Authors(texts: seq<string>): (r: seq<string>)
    ensures forall i :: 0 <= i < |r| ==> r[i] != "" && Strip(r[i]) == r[i]
    ensures forall a :: a in r <==> a != "" && exists i :: 0 <= i < |texts| && Strip(texts[i]) == a
    ensures r == NonEmpty(StripAll(texts))
  {
    StripAllStripped(texts);
    NonEmpty(StripAll(texts))
  }

  lemma StripAllStripped(texts: seq<string>)
    ensures forall a :: a in StripAll(texts) ==> Strip(a) == a
  {
    forall i | 0 <= i < |texts| ensures Strip(StripAll(texts)[i]) == StripAll(texts)[i] {
      StripIdempotent(texts[i]);
    }
  }

  /**
   * The authors of two runs of texts are those of the first run followed by
   * those of the second: document order and repeated names are kept.
   */
  lemma AuthorsAppend(xs: seq<string>, ys: seq<string>)
    ensures Authors(xs + ys) == Authors(xs) + Authors(ys)
  {
    StripAllAppend(xs, ys);
    NonEmptyAppend(StripAll(xs), StripAll(ys));
  }

  /**
   * A first query whose texts are all blank yields no authors; the second
   * query is not consulted.
   */
  lemma BlankFirstDoesNotFallThrough(second: seq<string>)
    ensures ParseAuthors([" "], second) == Some([])
  {
    assert IsSpace(" "[0]);
    assert Strip(" ") == "";
    assert StripAll([" "]) == [""];
  }

  /**
   * `parse_title`, given the texts of the `name_info` headings and the `alt`
   * attributes of the large product images: the first heading's text, else
   * the first image's stripped `alt`. An image without a truthy `alt` makes
   * the code call `strip` on the element itself, and no image at all indexes
   * an empty list; both raise, and the caller then uses `None`.
   */
  function ParseTitle(headings: seq<string>, alts: seq<Option<string>>): (r: Option<string>)
    ensures |headings| > 0 ==> r == Some(Strip(headings[0]))
    ensures |headings| == 0 ==> (r.Some? <==> |alts| > 0 && alts[0].Some? && alts[0].value != "")
    ensures |headings| == 0 && r.Some? ==> r.value == Strip(alts[0].value)
    ensures r.Some? ==> Strip(r.value) == r.value
  {
    if |headings| > 0 then StripIdempotent(headings[0]); Some(Strip(headings[0]))
    else if |alts| == 0 then None
    else
      match alts[0]
      case Some(alt) => if alt != "" then StripIdempotent(alt); Some(Strip(alt)) else None
      case None => None
  }
}
