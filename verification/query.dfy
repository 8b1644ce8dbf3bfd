/**
 * `create_query`: the choice between the product page of a known id, an
 * ISBN search and a title/author search, and the "insufficient metadata"
 * answer when none of them applies.
 */
module Query {
  import opened Wrappers
  import opened Text
  import opened Identifiers

  /** The calibre helpers the query builder calls, left uninterpreted. */
  datatype Helpers = Helpers(
    checkIsbn: string -> Option<string>,       // check_isbn
    titleTokens: string -> seq<string>,        // Source.get_title_tokens
    authorTokens: seq<string> -> seq<string>)  // Source.get_author_tokens(only_first_author=True)

  /** A query the resolver can fetch: a product page, or a search with its parameters. */
  datatype Query = ProductPage(url: string) | SearchPage(params: map<string, string>)

  /** What `create_query` returns: a query, or the tuple `(None, None)`. */
  datatype Built = Built(query: Query) | NonePair

  /** The fixed search parameters: paper books, all categories, sorted by score. */
  const BaseParams: map<string, string> :=
    map["medium" := "01", "category_path" := "01.00.00.00.00.00", "sort_type" := "sort_score_desc"]

  const TitleParam: string := "key1"
  const AuthorParam: string := "key2"
  const IsbnParam: string := "key4"

  /** `check_isbn(identifiers.get('isbn', None))`. */
  function IsbnOf(ids: Identifiers, h: Helpers): Option<string>
  {
    match Lookup(ids, "isbn")
    case None => None
    case Some(s) => h.checkIsbn(s)
  }

  /** The `key1` value: the title's tokens joined by spaces, when there are any. */
  function TitleKey(title: Option<string>, h: Helpers): (r: Option<string>)
    ensures r.Some? <==> title.Some? && title.value != "" && |h.titleTokens(title.value)| > 0
    ensures r.Some? ==> r.value == Join(h.titleTokens(title.value), " ")
  {
    if title.Some? && title.value != "" && |h.titleTokens(title.value)| > 0 then
      Some(Join(h.titleTokens(title.value), " "))
    else None
  }

  /**
   * The `key2` value: the first author's tokens joined by spaces. The code
   * keeps `get_author_tokens`' generator without `list()`, and a generator
   * is always truthy, so any non-empty author list sets `key2`, even to "".
   */
  function AuthorKey(authors: Option<seq<string>>, h: Helpers): (r: Option<string>)
    ensures r.Some? <==> authors.Some? && |authors.value| > 0
    ensures r.Some? ==> r.value == Join(h.authorTokens(authors.value), " ")
  {
    if authors.Some? && |authors.value| > 0 then
      Some(Join(h.authorTokens(authors.value), " "))
    else None
  }

  function WithKey(q: map<string, string>, key: string, v: Option<string>): map<string, string>
  {
    if v.Some? then q[key := v.value] else q
  }

  /** True when the parameters hold one of the three search keys. */
  predicate HasSearchKey(q: map<string, string>)
  {
    TitleParam in q || AuthorParam in q || IsbnParam in q
  }

  /**
   * `create_query`. A dang id, even an empty one, wins outright; otherwise a
   * valid ISBN gives an ISBN search; otherwise the title and author tokens
   * give a text search; with no search key at all the answer is `(None, None)`.
   */
  function CreateQuery(title: Option<string>, authors: Option<seq<string>>, ids: Identifiers, h: Helpers): (r: Built)
    ensures GetDangId(ids).Some? ==> r == Built(ProductPage(BookUrl(GetDangId(ids).value)))
    ensures GetDangId(ids).None? ==> !(r.Built? && r.query.ProductPage?)
    ensures GetDangId(ids).None? && IsbnOf(ids, h).Some? ==>
      r == Built(SearchPage(BaseParams[IsbnParam := IsbnOf(ids, h).value]))
    ensures GetDangId(ids).None? && IsbnOf(ids, h).None? ==>
      (r == NonePair <==> TitleKey(title, h).None? && (authors.None? || |authors.value| == 0))
    ensures r.Built? && r.query.SearchPage? ==>
      && HasSearchKey(r.query.params)
      && (forall k :: k in BaseParams ==> k in r.query.params && r.query.params[k] == BaseParams[k])
      && (IsbnParam in r.query.params <==> TitleParam !in r.query.params && AuthorParam !in r.query.params)
  {
    match GetDangId(ids)
    case Some(id) => Built(ProductPage(BookUrl(id)))
    case None =>
      var q :=
        match IsbnOf(ids, h)
        case Some(isbn) => BaseParams[IsbnParam := isbn]
        case None => WithKey(WithKey(BaseParams, TitleParam, TitleKey(title, h)), AuthorParam, AuthorKey(authors, h));
      if !HasSearchKey(q) then NonePair else Built(SearchPage(q))
  }

  /** A known dang id decides the query whatever the title, authors, or ISBN helper say. */
  lemma DangIdWins(ids: Identifiers, t1: Option<string>, a1: Option<seq<string>>, h1: Helpers,
                   t2: Option<string>, a2: Option<seq<string>>, h2: Helpers)
    requires GetDangId(ids).Some?
    ensures CreateQuery(t1, a1, ids, h1) == CreateQuery(t2, a2, ids, h2)
    ensures CreateQuery(t1, a1, ids, h1).query.url == BookUrl(GetDangId(ids).value)
  {
  }

  /** A valid ISBN adds `key4` and nothing else, whatever the title and authors are. */
  lemma IsbnIgnoresText(ids: Identifiers, h: Helpers, t1: Option<string>, a1: Option<seq<string>>,
                        t2: Option<string>, a2: Option<seq<string>>)
    requires GetDangId(ids).None? && IsbnOf(ids, h).Some?
    ensures CreateQuery(t1, a1, ids, h) == CreateQuery(t2, a2, ids, h)
    ensures CreateQuery(t1, a1, ids, h).query.params.Keys == BaseParams.Keys + {IsbnParam}
  {
  }

  /**
   * Without id or ISBN, `key1` holds the joined title tokens when there are
   * any, and `key2` the joined author tokens whenever there are authors.
   */
  lemma TextSearchKeys(title: Option<string>, authors: Option<seq<string>>, ids: Identifiers, h: Helpers)
    requires GetDangId(ids).None? && IsbnOf(ids, h).None?
    requires CreateQuery(title, authors, ids, h).Built?
    ensures var p := CreateQuery(title, authors, ids, h).query.params;
      && (TitleParam in p <==> TitleKey(title, h).Some?)
      && (TitleParam in p ==> p[TitleParam] == TitleKey(title, h).value)
      && (AuthorParam in p <==> authors.Some? && |authors.value| > 0)
      && (AuthorParam in p ==> p[AuthorParam] == Join(h.authorTokens(authors.value), " "))
      && p.Keys <= BaseParams.Keys + {TitleParam, AuthorParam}
  {
  }

  /** With no identifiers, no title and no authors the answer is the `(None, None)` pair. */
  lemma EmptyQueryIsNonePair(h: Helpers)
    ensures CreateQuery(None, None, [], h) == NonePair
  {
  }

  /** An empty dang id still short-circuits to a product page, unlike `_get_book_url`. */
  lemma EmptyDangIdShortCircuits(h: Helpers)
    ensures CreateQuery(None, None, [("DANG", "")], h) == Built(ProductPage("http://product.dangdang.com/.html"))
    ensures GetBookUrl([("DANG", "")]).None?
  {
    assert Lower("DANG") == "dang";
    assert GetDangId([("DANG", "")]) == Some("");
    assert BookUrl("") == "http://product.dangdang.com/.html";
  }

  /**
   * An author list whose tokens are all dropped still searches, with an
   * empty `key2`: the token generator is truthy even when it yields nothing.
   */
  lemma TokenlessAuthorStillSearches(h: Helpers)
    requires h.authorTokens(["Al"]) == []
    ensures CreateQuery(None, Some(["Al"]), [], h) == Built(SearchPage(BaseParams[AuthorParam := ""]))
  {
    assert Lookup([], "isbn") == None;
  }

  /**
   * `create_query` as evidently intended: `None` when metadata is insufficient,
   * so that the caller's `query is None` test can fire.
   */
  function CreateQueryFixed(title: Option<string>, authors: Option<seq<string>>, ids: Identifiers, h: Helpers): (r: Option<Query>)
    ensures r.None? <==>
      GetDangId(ids).None? && IsbnOf(ids, h).None? && TitleKey(title, h).None? && (authors.None? || |authors.value| == 0)
    ensures r.Some? ==> CreateQuery(title, authors, ids, h) == Built(r.value)
  {
    match CreateQuery(title, authors, ids, h)
    case NonePair => None
    case Built(q) => Some(q)
  }
}
