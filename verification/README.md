# dangdang.com metadata source: the decision core in Dafny

This project models the pure decision and string logic of calibre's
dangdang.com metadata-source plugin (`__init__.py`). The plugin looks books
up on dangdang.com: by the product id it stored earlier (the `dang`
identifier), by ISBN, or by title and author. It reads each product page into
a calibre `Metadata` record and caches ISBN → id and id → cover URL.

The model treats every HTML or XPath query as already answered. A page is the
list of strings its queries returned (`Details.Page`). Network answers are a
function from URL or search parameters to such pages (`Identify.Net`). The
calibre helpers `check_isbn`, `get_title_tokens` and `get_author_tokens` are
uninterpreted function parameters (`Query.Helpers`). Python semantics are
modelled as follows:

- `str.replace` is a leftmost, non-overlapping replace-all (`Text.ReplaceAll`).
- `strip()` and `split()` use Python 2's unicode whitespace set (`Text.IsSpace`).
- The regex class `\s` without `re.UNICODE` is the six ASCII whitespace characters (`Text.IsRegexSpace`).
- `re.sub`/`re.search` take the leftmost match (`Series.FirstMatch`).
- The `identifiers` dict is a sequence of pairs in iteration order (`Identifiers.Identifiers`).

Modules, one per area of the plugin:

- `Text`: string primitives.
- `Identifiers`: `get_dang_id`, `_get_book_url`, `parse_dang_id`.
- `Query`: `create_query`.
- `Results`: `parse_results_page`.
- `Tags`: `parse_tags`.
- `Series`: the suffix clean-up of `parse_series`.
- `Pubdate`: the string rewrite of `parse_pubdate` and `delocalize_datestr`.
- `Comments`: the block choice and whitespace collapse of `_render_comments`.
- `Fields`: `parse_cover`, `parse_authors`, `parse_title`.
- `Details`: `parse_details` as a gate, and `Worker.run`.
- `Cache`: `get_cached_cover_url` over two finite maps.
- `Touched`: `set_dang_id_touched_fields`.
- `Identify`: `identify`, with its direct lookup, single retry and worker fan-out.

`CaptchaError` is raised when a product page is a CAPTCHA challenge, as if
to stop the session, yet `Worker.run` (`__init__.py:162-166`) catches every
exception, and so does the direct-lookup path (`__init__.py:817-821`). The
error therefore never leaves the plugin. The model follows the code
(`Details.WorkerRun`, `Identify.DirectLookup`).

## Model

| member | source | states |
|---|---|---|
| Identifiers.GetDangId | __init__.py:610-615 | None exactly when no key lower-cases to "dang"; otherwise the value of the first key that does |
| Identifiers.Lookup | __init__.py:670 | None exactly when no key equals the given one; otherwise a value stored under it |
| Identifiers.GetBookUrl | __init__.py:617-621 | present exactly when the dang id is present and non-empty; carries that id and the URL made of the product prefix, the id and ".html" |
| Identifiers.DangIdFromHref | __init__.py:77 | the id starts right after the href's last '/' (or at its start) and runs to the first '.' after that or to the end; it holds no '/' and no '.' |
| Identifiers.IdSpanUnique | __init__.py:77 | at most one dot-free id fits that description, so it fixes the id read from an href |
| Identifiers.ParseDangId | __init__.py:73-79 | None exactly when the page has no canonical link; otherwise the id read, as above, from the first link's href |
| Identifiers.IdRoundTrip | __init__.py:77 | the id read back from the product URL of an id without '/' and '.' is that id |
| Identifiers.DirectLookupAccepts | __init__.py:813-815 | the direct-lookup id check accepts the page whose canonical link is the requested product URL |
| Identifiers.DottedIdIsRefused | __init__.py:77 | an id containing a dot reads back truncated ("123.4" gives "123") |
| Query.TitleKey | __init__.py:679-682 | key1 is present exactly when the title is non-empty and has tokens, and then holds the tokens joined by spaces |
| Query.AuthorKey | __init__.py:683-687 | key2 is present exactly when the author list is non-empty, even when it yields no tokens, because the token generator is always truthy; it holds the joined tokens |
| Query.CreateQuery | __init__.py:658-700 | a dang id gives its product URL; otherwise a valid ISBN gives the base parameters plus key4 only; otherwise the result is the (None, None) pair exactly when there is no title key and the author list is missing or empty; every search holds the base parameters, a search key, and key4 exclusive of key1/key2 |
| Query.DangIdWins | __init__.py:672-674 | with a dang id, the query is the same whatever the title, authors and ISBN helper |
| Query.IsbnIgnoresText | __init__.py:675-676 | a valid ISBN fixes the query independently of title and authors, with exactly the base keys plus key4 |
| Query.TextSearchKeys | __init__.py:677-687 | without id or ISBN, key1 is present exactly when the title has tokens and holds them joined; key2 is present exactly when there are authors and holds their tokens joined |
| Query.TokenlessAuthorStillSearches | __init__.py:683-687 | an author list whose tokens are all dropped still gives a search, with an empty key2 |
| Query.EmptyQueryIsNonePair | __init__.py:689-692 | no identifiers, title or authors give the (None, None) pair |
| Query.EmptyDangIdShortCircuits | __init__.py:672-674 | an empty dang id still yields a product URL, while the direct lookup skips it |
| Query.CreateQueryFixed | __init__.py:658-700 | None exactly when there is no dang id, no valid ISBN, no title key and no authors; otherwise the query of create_query |
| Results.ResultUrls | __init__.py:734-744 | at most five URLs, each the absolutized href at the same position |
| Results.ParseResultsPage | __init__.py:718-744 | length min(n, 5); hrefs starting with '/' get the product prefix, the others are unchanged, in input order |
| Results.RelativeHrefDoubleSlash | __init__.py:738-739 | a relative href yields a double slash after the host |
| Tags.Normalize | __init__.py:428 | the stripped text, character by character, with each ',', '/' and '>' turned into ';' and every other character kept |
| Tags.Dedup | __init__.py:426-436 | entries are kept, new by key, pairwise distinct by key, each equal to the first kept input entry with its key |
| Tags.DedupAppend | __init__.py:426-436 | de-duplicating a concatenation is de-duplicating the first part, then the second part against the keys already taken |
| Tags.ParseTags | __init__.py:421-436 | the result is the first-seen, case-insensitive de-duplication of the normalized genuine texts; no entry is empty or holds ',', '/', '>'; none is excluded or holds the token kindle or a-z; lower forms are pairwise distinct |
| Tags.TagsClean | __init__.py:432 | every de-duplicated entry is non-empty, separator-free, and not an excluded category |
| Series.FirstMatch | __init__.py:417-418 | the leftmost position where the pattern matches, or none anywhere |
| Series.DropSeriesWord | __init__.py:417 | removes from the leftmost position matching `\s+Series$`; the result is a prefix; no earlier position matches |
| Series.DropParenSeries | __init__.py:418 | removes from the leftmost position matching `\(.+?\s+Series\)$`; the result is a prefix; no earlier position matches |
| Series.CleanName | __init__.py:416-418 | the name with its `\s+Series$` suffix removed and stripped, then its `\(.+?\s+Series\)$` suffix removed and stripped; it occurs inside the original and has no surrounding whitespace; a name with neither suffix is only stripped |
| Series.CleanSeries | __init__.py:416-419 | no series stays no series; the index is unchanged; a found name is cleaned |
| Series.DropSeriesWordOf | __init__.py:417 | one trailing " Series" is removed |
| Series.DropParenSeriesOf | __init__.py:418 | a trailing parenthesised "… Series" is removed |
| Series.DoubleSeriesKeepsOne | __init__.py:417 | "X Series Series" is cleaned to "X Series" |
| Series.EarlierParenthesisWins | __init__.py:418 | "A (b) (C Series)" is cut at the first parenthesis |
| Pubdate.Rewrite | __init__.py:544-547 | on a date without 出, the character-by-character marker rewrite, stripped, with "1" appended exactly when it ends with '/'; in every case no 年, 月, 日, '-' or ':' is left, the result never ends with '/', and it starts with a non-space |
| Pubdate.DropMarkers | __init__.py:544-545 | on a text without 出, 年, 月 and '-' each become '/', 日 and ':' are dropped, and every other character is kept in order; in every case no marker is left and no new character appears except '/' |
| Pubdate.AddDay | __init__.py:546-547 | a trailing '/' gets the day 1 appended; other text is unchanged |
| Pubdate.YearMonthGetsDayOne | __init__.py:544-547 | "2020年1月" is rewritten to "2020/1/1" |
| Pubdate.LabelCanSurvive | __init__.py:545 | the label is removed once: "出版出版时间时间" is rewritten to the label itself |
| Pubdate.LabelledDate | __init__.py:544-545 | a date printed behind the "出版时间" label (the primary element of line 127 starts with it), with no other 出, loses the label and is rewritten character by character |
| Pubdate.LabelledRewrite | __init__.py:544-547 | such a labelled date is rewritten to the per-character marker rewrite of the rest, stripped, with the day added after a trailing '/' |
| Pubdate.ReplaceMonthsNoop | __init__.py:155-157 | without 月 the month replacements change nothing |
| Pubdate.Delocalize | __init__.py:152-160 | on text without 月, delocalizing only lower-cases and maps " de " to " " |
| Pubdate.NovemberReadsAsJanuary | __init__.py:155-157 | months are replaced in order 1..12, so "11月" becomes "1Jan" |
| Pubdate.DateStringForParser | __init__.py:529-549 | present exactly when the chosen text is non-empty after stripping; free of the markers; equal to the rewrite, lower-cased, with " de " mapped |
| Comments.FirstSynopsis | __init__.py:327-332 | the first block of synopsis length at or after a position, or none |
| Comments.ChooseBlock | __init__.py:325-332 | the whole description exactly when at most one block matched; otherwise the first block of length 51..199, or the last block when none has such a length |
| Comments.SingleMatchKeepsWhole | __init__.py:325-326 | a single matched block is ignored |
| Comments.RepairQuotes | __init__.py:348 | no U+FFFD remains; every other character and the length are unchanged |
| Comments.CollapseWhitespace | __init__.py:352-353 | the text with every newline that follows a newline removed, then every space that follows a space; so no two neighbouring newlines or spaces remain, the text without newlines and spaces is unchanged, and newline and space presence is kept |
| Text.CollapseRunsIsSqueeze | __init__.py:352-353 | substituting each run of a character by one copy keeps exactly the characters that do not directly follow that same character |
| Comments.CollapseWhitespaceIdempotent | __init__.py:352-353 | collapsing twice equals collapsing once |
| Fields.ParseCover | __init__.py:438-447 | a found URL never contains "blank.gif" and is the image's src or wsrc; a src without the placeholder wins; a missing attribute raises; both placeholders give None |
| Fields.CoverUrl | __init__.py:232-236 | the kept cover URL is present exactly when the cover was found |
| Fields.LazyCoverUsesWsrc | __init__.py:441-446 | a placeholder src falls back to the wsrc |
| Fields.ParseAuthors | __init__.py:303-312 | None exactly when neither query matched; a matching first query decides even when all its texts are blank; entries are non-empty and stripped |
| Fields.Authors | __init__.py:305-307 | the stripped texts that are non-empty, in document order and with repeats; as a set, exactly the non-empty stripped texts |
| Fields.AuthorsAppend | __init__.py:305-307 | the authors of two runs of texts are those of the first followed by those of the second |
| Fields.BlankFirstDoesNotFallThrough | __init__.py:305-307 | a first query with only blank texts yields no authors and ignores the second query |
| Fields.ParseTitle | __init__.py:287-301 | the first heading's stripped text; otherwise the first image's stripped alt when it is truthy, else None (the raise) |
| Details.Writes | __init__.py:273-278 | one write per truthy value and no other: the ISBN write first exactly when the ISBN is truthy, the cover write last exactly when the cover is truthy, all for the given id |
| Details.Gate | __init__.py:179-282 | CAPTCHA exactly when the id is falsy and the form is present; discarded exactly when otherwise title, authors or id is missing; a record that goes on to be queued carries the parsed title, authors, id and the worker's relevance, as they are before the clean-up of line 280 |
| Details.Decide | __init__.py:181-278 | the same gate over the field readers' answers; a queued record has has_cover equal to the cover's truthiness, and its writes are exactly the conditional ISBN and cover writes |
| Details.EmittedWrites | __init__.py:236-278 | on a queued record, has_cover is the cover's truthiness; the cache writes are one ISBN write when the ISBN is truthy and one cover write when the cover is truthy, in that order, and nothing else |
| Details.CaptchaIgnoresFields | __init__.py:180-182 | pages agreeing on id and form agree on the CAPTCHA decision, whatever their title and authors |
| Details.IdentifiedPageIsNoCaptcha | __init__.py:181 | a page with a non-empty canonical id never raises the CAPTCHA error |
| Details.WorkerRun | __init__.py:162-166 | a record exactly when the page was read and the gate accepted it, and then exactly the gate's record (before the clean-up of line 280) and cache writes; otherwise nothing queued and nothing written |
| Details.WorkerSwallowsCaptcha | __init__.py:162-166 | a CAPTCHA page ends the worker with nothing queued and nothing cached |
| Cache.Get | __init__.py:704-715 | present exactly when the key is in the map, with its value |
| Cache.CachedCoverUrl | __init__.py:704-715 | with a dang id, the direct id→cover lookup; otherwise present exactly when the isbn identifier is cached and its id has a cover, and then that cover; always a cached cover |
| Cache.Apply | __init__.py:275-278 | a write sets its own key and leaves every other key and the other map unchanged |
| Cache.WritesServeCover | __init__.py:273-278 | after the worker's writes, lookups by that ISBN and by that id return the cover |
| Cache.GateWritesServeCover | __init__.py:273-278 | for a queued record with ISBN and cover, an ISBN lookup afterwards returns that cover |
| Cache.DangIdIgnoresIsbn | __init__.py:706-713 | with a dang id present, the ISBN plays no part |
| Touched.SetDangIdTouchedFields | __init__.py:604-608 | "identifier:dang" is in the result; every other entry is an input entry not starting with "identifier:dang"; every such input entry is kept |
| Touched.SetDangIdIdempotent | __init__.py:600-608 | repeating the bookkeeping changes nothing |
| Touched.DeclaredFieldsFixed | __init__.py:570-572 | the declared touched fields are a fixed point |
| Touched.LongerDangKeyDropped | __init__.py:606-607 | "identifier:dangdang" is dropped as well |
| Identify.Jobs | __init__.py:852-853 | one job per match, in order, with relevance equal to its index |
| Identify.DirectLookup | __init__.py:808-821 | ends the call exactly when there is a truthy id, its page was read, and the page names the same id; the result is the page's gate outcome and never a CAPTCHA |
| Identify.MatchesOf | __init__.py:831-838 | a product-page query yields just its URL; a search yields the absolutized first five result links; at most five matches |
| Identify.Resolve | __init__.py:794-853 | the direct lookup first, its outcome ending the call exactly when it has one; crash exactly when the code as written meets the (None, None) pair, and the quiet insufficient-metadata return exactly when the corrected code meets it; once a query is built: aborted exactly when the flag is set, else workers exactly when there are matches, one per match in order numbered from 0; with no matches a retry exactly when identifiers, title and authors are all truthy, else no matches; the retry is the same call with the same title and authors and no identifiers, and never crashes; workers spawned for a dang id are one job on its product page |
| Identify.SearchSpawnsTopResults | __init__.py:838-853 | a search with results that is not aborted starts min(n, 5) workers, the i-th on the i-th result link (absolutized as on lines 734-744) with relevance i |
| Identify.IdentifyAsWritten | __init__.py:794-871 | never ends at the `query is None` exit |
| Identify.IdentifyCorrected | __init__.py:794-871 | never crashes |
| Identify.InsufficientMetadataCrashes | __init__.py:692 | with no metadata, the code as written crashes while the corrected code returns quietly |
| Identify.CorrectedAgreesElsewhere | __init__.py:825-827 | whenever the code as written does not crash, the corrected code behaves identically |
| Identify.RetryNeverCrashes | __init__.py:843-848 | the retry never reaches the (None, None) crash: its non-empty author list always sets key2 |
| Identify.DirectLookupEnds | __init__.py:813-819 | a plain id whose page names it ends the call with that page's gate outcome |
| Identify.DangIdSpawnsOneWorker | __init__.py:831-833 | a dang id whose direct lookup did not end the call gives one worker on its product URL, relevance 0 |

## Left out

- Network I/O (`parse_details_page`, `fetch_raw`, `download_cover`, browser cloning): network answers are parameters of `Identify.Resolve`. The bugs in their error paths are left out as well: tuple unpacking of `None` or a message, and the unbound `root`/`matches` when the results page is "not found".
- Threads, `time.sleep`, and the join/abort polling loop: `Identify.Resolve` stops at the list of jobs to start. The abort flag is one boolean, read once after the matches are known.
- HTML parsing, XPath and CSS queries: their answers are strings inside `Details.Page`.
- Foreign helpers: `check_isbn`, `get_title_tokens`, `get_author_tokens` and `parse_isbn` are uninterpreted parameters. `parse_only_date`, `canonicalize_lang`, `fixcase`, `fixauthors`, `sanitize_comments_html` and the gb18030 URL encoding are not modelled.
- `clean_downloaded_metadata`: its case-insensitive regex surgery depends on `fixcase` and `re.I`. An exception raised there is not modelled.
- Details.Gate: its record is the `Metadata` before `clean_downloaded_metadata` (`__init__.py:280`), which rewrites the authors with `fixauthors` and may shorten the title when a series was found. The queued record can differ in those two fields; the ISBN is already `check_isbn` output and does not change.
- Details.WorkerRun: the record it returns is the gate's record before the same clean-up step (`__init__.py:280`), not the object put on the result queue at line 282.
- The `float` conversion of series indices: the index is an opaque string.
- The series, publisher, ISBN and language extraction strategies: only the series suffix clean-up is modelled.
- `parse_new_details` and `parse_language`: never called.
- The `testing` dumps and the `__main__` tables.
- `_render_comments` regex steps: attribute stripping, the "--This text ref" notice and HTML comment removal are not modelled, and neither is the `textarea` rewrite. The block choice, quote repair and whitespace collapse are.
- Tags.ParseTags: lower-cases ASCII letters only, where the code uses `icu_lower`.
- Identifiers.GetDangId: lower-cases keys in ASCII only, where Python's `lower()` is full Unicode.
- Series.DropSeriesWord: `$` is modelled as the end of the text; Python's `$` also matches before a final newline.
- Series.DropParenSeries: `$` is modelled the same way. Within `Series.CleanName` this cannot matter: its argument has just been stripped, so it never ends with a newline.
- Pubdate.DateStringForParser: ends before `parse_only_date`, so the date value itself is not modelled; it lower-cases ASCII letters only, through `Delocalize`.
- Pubdate.Delocalize: lower-cases ASCII letters only, where `raw.lower()` folds all of Unicode.
- Pubdate.DropMarkers: the character-by-character rewrite is stated for text without 出 and, through `Pubdate.LabelledDate`, for the label followed by text without 出. A 出 anywhere else is covered only by the absence of markers and of new characters: the single left-to-right removal of the label then depends on where the pieces fall (`Pubdate.LabelCanSurvive`).
- Pubdate.Rewrite: the exact result is stated for the same two cases as DropMarkers (`Pubdate.LabelledRewrite` for the labelled one), for the same reason.
- Identify.Resolve: when the results page is "not found", the code fails on an unbound name; the model always reads a results page.

## Findings

| source | as written | input that shows it | evidently intended | confidence | as-written member | corrected member |
|---|---|---|---|---|---|---|
| __init__.py:692 | `create_query` returns the tuple `(None, None)` for insufficient metadata, so `identify`'s `query is None` test (line 825) never fires and `query.startswith` (line 831) raises `AttributeError` | `identify` with no identifiers, no title and no authors | return `None`, so that `identify` logs "Insufficient metadata" and returns | high (not executed) | Identify.InsufficientMetadataCrashes | Identify.IdentifyCorrected |
