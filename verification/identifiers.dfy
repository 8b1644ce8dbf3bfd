/**
 * The dangdang product id: how it is found among the caller's identifiers,
 * turned into a product-page URL, and read back out of a page's canonical
 * link (`get_dang_id`, `_get_book_url`, `parse_dang_id`).
 */
module Identifiers {
  import opened Wrappers
  import opened Text

  /** The caller's `identifiers` dict, as (kind, value) pairs in iteration order. */
  type Identifiers = seq<(string, string)>

  const ProductPrefix: string := "http://product.dangdang.com/"

  /** The identifier kind under which the product id is stored. */
  const DangKey: string := "dang"

  /** Index `i` holds the first identifier whose kind, lower-cased, is "dang". */
  predicate FirstDangAt(ids: Identifiers, i: int)
  {
    && 0 <= i < |ids| && Lower(ids[i].0) == DangKey
    && forall j :: 0 <= j < i ==> Lower(ids[j].0) != DangKey
  }

  /**
   * `get_dang_id`: the value of the first identifier whose kind, lower-cased,
   * is "dang"; `None` when there is none.
   */
  function GetDangId(ids: Identifiers): (r: Option<string>)
    ensures r.None? <==> forall i :: 0 <= i < |ids| ==> Lower(ids[i].0) != DangKey
    ensures r.Some? ==> exists i :: FirstDangAt(ids, i) && ids[i].1 == r.value
  {
    if |ids| == 0 then None
    else if Lower(ids[0].0) == DangKey then
      assert FirstDangAt(ids, 0);
      Some(ids[0].1)
    else
      var r := GetDangId(ids[1..]);
      assert forall i :: 1 <= i < |ids| ==> ids[i] == ids[1..][i - 1];
      FirstDangShift(ids, r);
      r
  }

  /** Past a first entry of another kind, the first "dang" entry moves one place right. */
  lemma FirstDangShift(ids: Identifiers, r: Option<string>)
    requires |ids| > 0 && Lower(ids[0].0) != DangKey
    requires r.Some? ==> exists i :: FirstDangAt(ids[1..], i) && ids[1..][i].1 == r.value
    ensures r.Some? ==> exists i :: FirstDangAt(ids, i) && ids[i].1 == r.value
  {
    if r.Some? {
      var i :| FirstDangAt(ids[1..], i) && ids[1..][i].1 == r.value;
      forall j | 0 <= j < i + 1
        ensures Lower(ids[j].0) != DangKey
      {
        if j > 0 {
          assert ids[j] == ids[1..][j - 1];
        }
      }
      assert FirstDangAt(ids, i + 1);
    }
  }

  /** `identifiers.get(key)`: the value stored under exactly `key`. */
  function Lookup(ids: Identifiers, key: string): (r: Option<string>)
    ensures r.None? <==> forall i :: 0 <= i < |ids| ==> ids[i].0 != key
    ensures r.Some? ==> exists i :: 0 <= i < |ids| && ids[i] == (key, r.value)
  {
    if |ids| == 0 then None
    else if ids[0].0 == key then Some(ids[0].1)
    else
      var r := Lookup(ids[1..], key);
      assert r.Some? ==> exists i :: 0 <= i < |ids[1..]| && ids[1..][i] == (key, r.value);
      r
  }

  /** The product page of a dangdang id. */
  function BookUrl(id: string): string
  {
    ProductPrefix + id + ".html"
  }

  /**
   * `_get_book_url`: the id and its product page, present only when the id
   * is truthy (a non-empty string).
   */
  function GetBookUrl(ids: Identifiers): (r: Option<(string, string)>)
    ensures r.Some? <==> GetDangId(ids).Some? && GetDangId(ids).value != ""
    ensures r.Some? ==> r.value.0 == GetDangId(ids).value
    ensures r.Some? ==> r.value.1 == ProductPrefix + r.value.0 + ".html"
  {
    match GetDangId(ids)
    case Some(id) => if id != "" then Some((id, BookUrl(id))) else None
    case None => None
  }

  /**
   * `id` starts at index `k` of `href`, right after its last '/' (or at the
   * start), and ends at the end of `href` or right before a '.'.
   */
  predicate IdSpan(href: string, id: string, k: int)
  {
    && 0 <= k <= |href| - |id| && href[k..k + |id|] == id
    && (k == 0 || href[k - 1] == '/')
    && '/' !in href[k..]
    && (k + |id| == |href| || href[k + |id|] == '.')
  }

  /** The string step of `parse_dang_id`: last path segment, cut at its first dot. */
  function DangIdFromHref(href: string): (r: string)
    ensures '/' !in r && '.' !in r
    ensures exists k :: IdSpan(href, r, k)
  {
    var seg := AfterLast(href, '/');
    var r := BeforeFirst(seg, '.');
    var k := |href| - |seg|;
    assert seg == href[k..];
    assert href[k..k + |r|] == seg[..|r|] == r;
    assert forall i :: 0 <= i < |r| ==> r[i] == seg[i];
    assert IdSpan(href, r, k);
    r
  }

  /** At most one dot-free id fits the span, so `IdSpan` fixes the id read from an href. */
  lemma IdSpanUnique(href: string, a: string, ka: int, b: string, kb: int)
    requires IdSpan(href, a, ka) && IdSpan(href, b, kb)
    requires '.' !in a && '.' !in b
    ensures a == b && ka == kb
  {
  }

  /**
   * `parse_dang_id`: the id of the first `<link rel="canonical" href=…>` of
   * a page, given the hrefs of those links in document order.
   */
  function ParseDangId(canonicalHrefs: seq<string>): (r: Option<string>)
    ensures r.None? <==> |canonicalHrefs| == 0
    ensures r.Some? ==> '/' !in r.value && '.' !in r.value
    ensures r.Some? ==> exists k :: IdSpan(canonicalHrefs[0], r.value, k)
  {
    if |canonicalHrefs| == 0 then None else Some(DangIdFromHref(canonicalHrefs[0]))
  }

  /**
   * Reading the id back out of its own product URL gives the id, provided
   * the id holds no slash and no dot.
   */
  lemma {:induction false} IdRoundTrip(id: string)
    requires '/' !in id && '.' !in id
    ensures DangIdFromHref(BookUrl(id)) == id
  {
    var tail := id + ".html";
    assert BookUrl(id) == "http://product.dangdang.com" + ['/'] + tail;
    AfterLastOfJoin("http://product.dangdang.com", '/', tail);
    assert tail == id + ['.'] + "html";
    BeforeFirstOfJoin(id, '.', "html");
  }

  /**
   * The direct-lookup check of `identify` accepts a page whose canonical link
   * is the product URL requested for a plain id.
   */
  lemma DirectLookupAccepts(ids: Identifiers)
    requires GetBookUrl(ids).Some?
    requires '/' !in GetBookUrl(ids).value.0 && '.' !in GetBookUrl(ids).value.0
    ensures ParseDangId([GetBookUrl(ids).value.1]) == Some(GetBookUrl(ids).value.0)
  {
    IdRoundTrip(GetBookUrl(ids).value.0);
  }

  /** An id with a dot never survives the round trip, so its direct lookup is refused. */
  lemma DottedIdIsRefused()
    ensures DangIdFromHref(BookUrl("123.4")) == "123"
  {
    var tail := "123.4.html";
    assert BookUrl("123.4") == "http://product.dangdang.com" + ['/'] + tail;
    AfterLastOfJoin("http://product.dangdang.com", '/', tail);
    assert tail == "123" + ['.'] + "4.html";
    BeforeFirstOfJoin("123", '.', "4.html");
  }
}
