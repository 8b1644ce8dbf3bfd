/**
 * The plugin's identifier caches, as two finite maps, and
 * `get_cached_cover_url`, which reads a cover URL through them.
 */
module Cache {
  import opened Wrappers
  import opened Text
  import opened Identifiers
  import opened Fields
  import opened Details

  /** ISBN to dangdang id, and dangdang id to cover URL. */
  datatype IdCache = IdCache(isbnToId: map<string, string>, idToCover: map<string, string>)

  const Empty: IdCache := IdCache(map[], map[])

  /** `dict.get(key, None)`. */
  function Get(m: map<string, string>, key: string): (r: Option<string>)
    ensures r.Some? <==> key in m
    ensures r.Some? ==> r.value == m[key]
  {
    if key in m then Some(m[key]) else None
  }

  /**
   * `get_cached_cover_url`: a dang id, even an empty one, is looked up
   * directly and the ISBN is ignored; without one, the `isbn` identifier is
   * carried to an id and the id to a cover. Either map missing gives `None`.
   */
  function CachedCoverUrl(ids: Identifiers, c: IdCache): (r: Option<string>)
    ensures GetDangId(ids).Some? ==> r == Get(c.idToCover, GetDangId(ids).value)
    ensures r.Some? ==> r.value in c.idToCover.Values
    ensures GetDangId(ids).None? ==>
      (r.Some? <==>
        && Lookup(ids, "isbn").Some?
        && Lookup(ids, "isbn").value in c.isbnToId
        && c.isbnToId[Lookup(ids, "isbn").value] in c.idToCover)
    ensures GetDangId(ids).None? && r.Some? ==>
      r.value == c.idToCover[c.isbnToId[Lookup(ids, "isbn").value]]
  {
    var id :=
      match GetDangId(ids)
      case Some(d) => Some(d)
      case None =>
        match Lookup(ids, "isbn")
        case Some(isbn) => Get(c.isbnToId, isbn)
        case None => None;
    match id
    case Some(d) => Get(c.idToCover, d)
    case None => None
  }

  /** One `cache_isbn_to_identifier` or `cache_identifier_to_cover_url` call. */
  function Apply(c: IdCache, w: CacheWrite): (r: IdCache)
    ensures w.IsbnToId? ==> r.idToCover == c.idToCover && w.isbn in r.isbnToId && r.isbnToId[w.isbn] == w.id
    ensures w.IdToCover? ==> r.isbnToId == c.isbnToId && w.id in r.idToCover && r.idToCover[w.id] == w.url
    ensures w.IsbnToId? ==> forall k :: k != w.isbn ==> Get(r.isbnToId, k) == Get(c.isbnToId, k)
    ensures w.IdToCover? ==> forall k :: k != w.id ==> Get(r.idToCover, k) == Get(c.idToCover, k)
  {
    match w
    case IsbnToId(isbn, id) => c.(isbnToId := c.isbnToId[isbn := id])
    case IdToCover(id, url) => c.(idToCover := c.idToCover[id := url])
  }

  /** The writes applied in order. */
  function ApplyWrites(c: IdCache, ws: seq<CacheWrite>): IdCache
    decreases |ws|
  {
    if |ws| == 0 then c else ApplyWrites(Apply(c, ws[0]), ws[1..])
  }

  /**
   * After the worker's writes for an id found with an ISBN and a cover, a
   * lookup by that ISBN string returns that cover.
   */
  lemma {:induction false} WritesServeCover(c: IdCache, id: string, isbn: string, cover: string)
    requires id != "" && isbn != "" && cover != ""
    ensures CachedCoverUrl([("isbn", isbn)], ApplyWrites(c, Writes(id, Some(isbn), Some(cover)))) == Some(cover)
    ensures CachedCoverUrl([("dang", id)], ApplyWrites(c, Writes(id, Some(isbn), Some(cover)))) == Some(cover)
  {
    var ws := Writes(id, Some(isbn), Some(cover));
    assert ws == [IsbnToId(isbn, id), IdToCover(id, cover)];
    var c1 := Apply(c, ws[0]);
    var c2 := Apply(c1, ws[1]);
    assert ApplyWrites(c, ws) == ApplyWrites(c1, ws[1..]);
    assert ApplyWrites(c1, ws[1..]) == ApplyWrites(c2, ws[2..]);
    assert ws[2..] == [];
    assert Lower("isbn") == "isbn";
    assert GetDangId([("isbn", isbn)]) == None;
    assert Lower("dang") == DangKey;
  }

  /**
   * The worker's writes for a queued record serve its cover: by dang id
   * always, and by its ISBN when one was found.
   */
  lemma GateWritesServeCover(p: Page, relevance: nat, c: IdCache)
    requires Gate(p, relevance).Emitted?
    requires Truthy(p.isbn) && Gate(p, relevance).record.hasCover
    ensures var o := Gate(p, relevance);
      CachedCoverUrl([("isbn", p.isbn.value)], ApplyWrites(c, o.writes)) == CoverUrl(ParseCover(p.images))
  {
    var o := Gate(p, relevance);
    EmittedWrites(p, relevance);
    var cover := CoverUrl(ParseCover(p.images));
    assert o.writes == Writes(o.record.dangId, Some(p.isbn.value), cover);
    WritesServeCover(c, o.record.dangId, p.isbn.value, cover.value);
  }

  /** With a dang id, the ISBN plays no part in the lookup. */
  lemma DangIdIgnoresIsbn(c: IdCache, id: string, isbn: string)
    ensures CachedCoverUrl([("dang", id), ("isbn", isbn)], c) == Get(c.idToCover, id)
  {
    assert Lower("dang") == DangKey;
  }
}
