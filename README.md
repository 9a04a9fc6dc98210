# Vietlott result crawler, modelled in Dafny

This project models the core of the Vietlott lottery-results crawler
(`src/crawler/vietlott.py`):

- how a crawler picks the AjaxPro result-detail endpoint for a product;
- the JSON request body that asks for one draw (`""` asks for the latest);
- the two result parsers. The numeric parser (Power 6/55, Mega 6/45, ...)
  takes the draw id, the date and the first `numbers_to_pick` numbers. The
  Max 3D parser takes three-digit codes, one per result container. It is
  modelled with the test the source evidently intends (three balls of one
  digit each); the source's own test is modelled beside it (see
  "## Findings"). Both parsers also take the cursor of the previous draw
  from the navigation link;
- the dispatch between the two parsers by product type;
- `fetch_draw`, over an abstract transport;
- `crawl`, the walk from the latest draw back along the previous-draw links.
  It stops at a failed fetch, at a draw already stored, at a draw without a
  link, or after `max_records` fetches;
- `update_data`: look up the product, crawl at most `pages * 10` draws, filter
  out stored ids a second time, then append, sort by `date` and write the store.

Modules, one per file:

- `Text` (`text.dfy`): the Python string operations the parsers rely on.
  These are `strip()`, `isdigit()`, `int()` of a digit string, and `<` on
  strings.
- `Draws` (`draws.dfy`): the value types. These are the draw record, the
  parsed draw with its previous-draw cursor, the parts of a result page a
  parser reads, and the product configuration.
- `RequestBuilder` (`request.dfy`): endpoint selection, the request body
  (as a JSON value), and the crawler's fixed state.
- `Header` (`header.dfy`): the three regular-expression searches.
  - `#(\d+)` finds the draw id.
  - `(\d{2}/\d{2}/\d{4})` finds the date, which is then checked against the
    calendar and rewritten as `yyyy-mm-dd`.
  - `ClientDrawResult\(['"](\d+)['"]\)` finds the cursor.
  Each search is modelled as a leftmost-match function over a string.
- `ResponseParser` (`parser.dfy`): both parsers, the dispatch and
  `fetch_draw`. The two loops over the selected elements are methods proved
  against the parser functions.
- `Walker` (`walker.dfy`): the walk as a specification function and `crawl`
  as a loop proved against it.
- `Store` (`store.dfy`): the stable sort by date string, the second filter,
  the merge, and `update_data`. `update_data` is a loop method proved against
  a specification function.

The transport, the HTML selector and the clock are parameters (the `Remote`
value), so a fetch is a function of the cursor. The HTML fragment of a draw
reaches the parsers as a `ResultPage` holding what the CSS selectors pick
out:

- the `h5` text;
- the spans of each `.day_so_ket_qua_v2` container;
- the spans of the legacy `.day_so_ket_qua` container;
- the `href` of the previous-draw link.

## Model

| member | source | states |
|---|---|---|
| RequestBuilder.SelectEndpoint | src/crawler/vietlott.py:28-49 | The endpoint is `config.url` exactly when that url contains `ResultDetail`. Otherwise it is the built-in endpoint of the product's short code, or the 6/45 endpoint for an unknown code. Whichever is chosen names a result-detail web part. |
| RequestBuilder.DetailUrlIsDetail | src/crawler/vietlott.py:29-36 | Every built-in endpoint contains `ResultDetail`. |
| RequestBuilder.NewCrawler | src/crawler/vietlott.py:38-50 | A new crawler keeps its configuration and the shared key `23bbd667`. Its endpoint is the one `SelectEndpoint` chooses from the configured url and short code, so it is a result-detail web part. |
| RequestBuilder.BuildRequestBody | src/crawler/vietlott.py:52-76 | The body has exactly three members. Reading `ORenderInfo`, `Key` and `DrawId` back gives the fixed site identity, the crawler's key and the requested cursor. |
| RequestBuilder.RequestBodyDeterminesCursor | src/crawler/vietlott.py:52-76 | With one key, two request bodies are equal exactly when they ask for the same cursor. |
| RequestBuilder.Get | src/crawler/vietlott.py:272-275 | `get` on a JSON object finds a value exactly when a member has that name. The value found is the one stored under the last member with that name, as a decoded object keeps the last of repeated names. |
| Header.FindDrawId | src/crawler/vietlott.py:111-116 | An id is found exactly when the header has a `#` followed by a digit. The id is the whole digit run after the leftmost such `#`. |
| Header.FindDrawIdRendered | src/crawler/vietlott.py:103-116 | A header written as text without `#`, then `#` and the id, then text not starting with a digit, yields that id. |
| Header.FindDate | src/crawler/vietlott.py:118-123 | A date is found exactly when some `dd/mm/yyyy` shape occurs. The result is the leftmost one. |
| Header.FindDateRendered | src/crawler/vietlott.py:118-123 | A `dd/mm/yyyy` date preceded by text without digits is the date found. |
| Header.IsoDate | src/crawler/vietlott.py:124 | The conversion succeeds exactly when the day exists in that month and year, leap years included. The result is `yyyy-mm-dd`, and writing it back as `dd/mm/yyyy` gives the input. |
| Header.IsoDateChronological | src/crawler/vietlott.py:124 | Comparing two converted dates as Python compares strings agrees with their calendar order. This is why the store's sort by the date string is chronological. |
| Header.FindPrevCursor | src/crawler/vietlott.py:149-156 | A cursor is found exactly when the link holds `ClientDrawResult(` followed by a quote, digits, a quote and `)`. Either quote character may appear on either side. The cursor is the digits of the leftmost such call. |
| Header.FindPrevCursorRendered | src/crawler/vietlott.py:149-156 | A link holding one such call, with no `C` before it, yields the call's digits. |
| Header.PrevDrawId | src/crawler/vietlott.py:149-156 | Without a link there is no cursor. With a link, the cursor is what the `ClientDrawResult` search finds in its `href`, and it is a digit string. |
| Header.ParseHeader | src/crawler/vietlott.py:103-124 | The header parses exactly when the `h5` exists, an id and a date are found, and the date is a calendar date. The id is digits, and the date is `yyyy-mm-dd` and reads back to the header's date. |
| ResponseParser.NumericSpans | src/crawler/vietlott.py:126-135 | The numeric parser reads the spans of the first `.day_so_ket_qua_v2` container when there is one, and otherwise the spans of the legacy container, if any. |
| ResponseParser.DigitNumbersSound | src/crawler/vietlott.py:135-140 | Every extracted number is `int()` of a span whose stripped text is all digits. |
| ResponseParser.DigitNumbersComplete | src/crawler/vietlott.py:135-140 | The value of every span whose stripped text is all digits is among the extracted numbers. |
| ResponseParser.GatherAppend | src/crawler/vietlott.py:136-140 | Collecting over two runs of spans gives the numbers of the first run followed by those of the second. |
| ResponseParser.ParsePower | src/crawler/vietlott.py:92-168 | A draw is parsed exactly when the header parses, a result container exists and it yields at least `numbers_to_pick` numbers. The record then carries the header's id and date, exactly the first `numbers_to_pick` numbers, the clock's time and the link's cursor. |
| ResponseParser.ParsePowerIgnoresTail | src/crawler/vietlott.py:142-147 | Once the container yields enough numbers, spans added after them do not change the parsed draw. |
| ResponseParser.ParsePowerResponse | src/crawler/vietlott.py:126-164 | The loop over the spans computes the numeric parser's result. |
| ResponseParser.JoinBallsSplits | src/crawler/vietlott.py:219-223 | Each accepted code is three digits, one from each ball, in order. |
| ResponseParser.TripletCodes | src/crawler/vietlott.py:213-223 | There is at most one code per result container, and every code is exactly three digits (with the corrected test of "## Findings"). |
| ResponseParser.TripletCodesSound | src/crawler/vietlott.py:216-223 | Every code comes from a container of three single-digit balls and spells those balls. |
| ResponseParser.TripletCodesComplete | src/crawler/vietlott.py:216-223 | Every container of three single-digit balls contributes its code. |
| ResponseParser.TripletCodesAppend | src/crawler/vietlott.py:214-223 | Codes keep document order: the codes of two runs of containers are those of the first followed by those of the second. |
| ResponseParser.AsWrittenJoinsDigitStrings | src/crawler/vietlott.py:219-223 | The source's test accepts any three balls whose texts are digit strings and joins them. The joined text is a three-digit code exactly when each ball holds one digit. |
| ResponseParser.AsWrittenAcceptsLongBall | src/crawler/vietlott.py:220-223 | Balls `12`, `3`, `4` pass the source's test and produce the four-character code `1234`. |
| ResponseParser.BallTestsAgree | src/crawler/vietlott.py:220 | For a ball of at most one character after stripping, "all digits" and "one digit" agree. |
| ResponseParser.AsWrittenAgreesOnSingleCharacterBalls | src/crawler/vietlott.py:216-223 | When no ball holds more than one character, the source's test and the three-digit test collect the same codes. |
| ResponseParser.ParseMax3D | src/crawler/vietlott.py:170-248 | With the corrected one-digit-per-ball test in place of line 220's, a draw is parsed exactly when the header parses and at least two codes are collected. The record then carries the header's id and date, all the codes in document order, the clock's time and the link's cursor. |
| ResponseParser.ParseMax3DResponse | src/crawler/vietlott.py:211-244 | The loop over the result containers computes the Max 3D parser's result. |
| ResponseParser.ParseResponse | src/crawler/vietlott.py:78-90 | A `max3d` product is parsed by the Max 3D parser and any other product by the numeric parser. Every parsed draw has a digit id, a `yyyy-mm-dd` date and a digit cursor. A Max 3D draw has at least two three-digit codes. A numeric draw has exactly `numbers_to_pick` numbers. |
| ResponseParser.ResponseHtml | src/crawler/vietlott.py:272-278 | A fragment is returned exactly when the reply is an object whose `value` member is an object holding a non-empty string under `RetExtraParam1`, and the fragment is that string. |
| ResponseParser.ResponseHtmlOfReply | src/crawler/vietlott.py:272-278 | A reply carrying a non-empty fragment under `value.RetExtraParam1` gives that fragment. |
| ResponseParser.FetchDraw | src/crawler/vietlott.py:250-284 | The crawler posts the body naming the cursor to its endpoint. A failed post, or a reply without a fragment, gives no draw. A reply with a fragment gives the parse of that fragment for the crawler's product, stamped with the clock's time. |
| Walker.Crawl | src/crawler/vietlott.py:286-331 | The loop returns the walk from the latest draw, bounded by `max_records`. That is at most `max_records` records (none when it is zero or negative), and none of them has an id in `existing_ids`. The cursors the loop hands to `fetch`, in order, are those of the walk, so `WalkBounds` and `WalkFollowsChain` describe the loop's own fetches. |
| Walker.ResumeIsWalk | src/crawler/vietlott.py:299-328 | Continuing the loop with records already collected appends the rest of the walk to them. |
| Walker.WalkBounds | src/crawler/vietlott.py:302-328 | A walk makes at most `max_records` fetches and the first uses the starting cursor. It keeps at most one record per fetch, and only its last fetch can keep none. |
| Walker.WalkFresh | src/crawler/vietlott.py:310-315 | No record the walk keeps has a known id. |
| Walker.WalkFollowsChain | src/crawler/vietlott.py:305-325 | The k-th record is what the k-th fetch returned. The next fetch asks for that draw's previous-draw id. |
| Walker.WalkStopsAtGate | src/crawler/vietlott.py:305-315 | If the last fetch kept nothing, that fetch failed or returned a draw whose id is known. |
| Walker.WalkStopsAtLastLink | src/crawler/vietlott.py:318-328 | If the walk stopped early after keeping a record, that draw had no usable previous-draw link. |
| Walker.WalkMonotone | src/crawler/vietlott.py:302 | A larger `max_records` only extends the walk. A walk that stopped before its limit is the same under any larger limit. |
| Walker.WalkFillsBudget | src/crawler/vietlott.py:302-328 | Along a chain of linked draws with no known id, the walk collects exactly `max_records` records. |
| Walker.SelfLinkRepeats | src/crawler/vietlott.py:310-325 | Ids are checked only against the stored ids: a draw linking to itself is collected once per fetch. |
| Store.IdsOf | src/crawler/vietlott.py:390 | Every stored record's id is in the id set. |
| Store.IdsOfSound | src/crawler/vietlott.py:390 | Every id in the set is the id of a stored record. |
| Store.SortPermutes | src/crawler/vietlott.py:417 | The sort keeps every record as often as it occurs. |
| Store.SortSorted | src/crawler/vietlott.py:417 | After the sort no record has a date string smaller than one before it. |
| Store.SortStable | src/crawler/vietlott.py:417 | Records with the same date keep their relative order. |
| Store.SortUnique | src/crawler/vietlott.py:417 | Sorting records with distinct ids keeps them distinct. |
| Store.NewRecords | src/crawler/vietlott.py:407 | The filter keeps records of `new_data` whose id is not stored, and every such record is kept. |
| Store.NewRecordsAppend | src/crawler/vietlott.py:407 | The filter keeps order and judges each record on its own: filtering two runs gives the filtered first run followed by the filtered second. |
| Store.NewRecordsSingle | src/crawler/vietlott.py:407 | One record is kept exactly when its id is not stored (so duplicates in `new_data` are kept as often as they occur). |
| Store.SecondFilterRedundant | src/crawler/vietlott.py:406-407 | When no crawled id is stored, which the crawl guarantees, the second filter keeps every crawled record in order. |
| Store.NewRecordsUnique | src/crawler/vietlott.py:407 | Filtering keeps distinct ids distinct. |
| Store.Merge | src/crawler/vietlott.py:402-427 | The count returned is the number of new records. Nothing is written exactly when that count is 0, which is exactly when every crawled id is already stored. Otherwise the file written is the stable sort by date of the stored records followed by the new ones: it is sorted, holds the stored records plus the new ones, and its length is the stored count plus the count returned. |
| Store.MergeIds | src/crawler/vietlott.py:414-417 | The store written holds exactly the stored ids and the crawled ids. |
| Store.MergeIdempotent | src/crawler/vietlott.py:402-427 | Merging the same crawled records into the store just written adds nothing and writes nothing. |
| Store.MergeUnique | src/crawler/vietlott.py:406-417 | If the stored and the crawled records each have distinct ids, so does the written store. |
| Store.UpdateAddsOnlyNew | src/crawler/vietlott.py:371-427 | An unknown product is an error. Otherwise at most `pages * 10` records are added, and a written store holds the stored records plus the walk bounded by `pages * 10` that stops at stored ids. |
| Store.UpdateIdempotent | src/crawler/vietlott.py:371-427 | Right after an update that wrote the store, a second update with the same transport adds nothing and writes nothing: its crawl stops at the latest draw, which the first update stored. |
| Store.UpdateData | src/crawler/vietlott.py:371-427 | The loops that collect the stored ids and filter the crawled records compute the `update_data` specification. |
| Text.StripMiddle | src/crawler/vietlott.py:138 | `strip()` returns a contiguous part of its input with only whitespace before and after it, and no whitespace at either end. |
| Text.StripPadded | src/crawler/vietlott.py:138 | Stripping a text with no whitespace at its ends, padded with whitespace on both sides, gives the text back. |

## Left out

- The HTTP client is left out: its headers, timeout, redirects, `raise_for_status`, JSON decoding and `close`. A post is a function that returns a reply or nothing.
- BeautifulSoup's parsing and CSS selection are left out. Their output is the `ResultPage` value, and the selector is a parameter.
- `datetime.now()` is left out. `process_time` comes from a clock parameter, one time per cursor.
- Logging is left out. It has no effect on results.
- `load_data` is left out. It only reads the store through polars, converts the date column and sorts it.
- `update_data`'s file handling is left out: the existence check, `read_ndjson`, `mkdir` and writing JSON lines. The stored rows come in as an optional sequence (none when the file does not exist), and the written store is the output value.
- The catch-all exception handlers are modelled as returning nothing wherever the model can name the failure. Failures inside the left-out libraries are not modelled.
- `src/config.py`, `src/crawler/__init__.py` and `update_data.py` are not part of this model. The product table is a map parameter, and `numbers_to_pick` is a natural number.
- ResponseParser.ParsePower: treats only ASCII `0`-`9` as digits, so a span holding other characters that `str.isdigit()` accepts is skipped. In the source such a span is either converted by `int()` (other Unicode decimal digits, such as Arabic-Indic ones) or makes `int()` raise (digits that are not decimal, such as `²`), and the raise makes the whole parse return nothing. This matters only for pages with non-ASCII digit characters.
- ResponseParser.TripletCodes: the ball test `IsDigitBall` (and the source-faithful `IsCodeGroupAsWritten`) count only ASCII `0`-`9` as digits, while `str.isdigit()` also accepts other Unicode digits.
- ResponseParser.ParseMax3D: uses the corrected test (three balls of one digit each), not the source's test at line 220, which also accepts multi-digit balls. A container with balls such as `"12"`, `"3"`, `"4"` gives the code `"1234"` in the source and is skipped by this model, so the model's record lacks that code, or there is no record when fewer than two codes remain. This carries through `ParseMax3DResponse`, `ParseResponse`, `FetchDraw`, `Crawl`, `Update` and `UpdateData`; the source's test is modelled by `TripletCodesAsWritten` (see "## Findings").
- Header.FindDrawId: `\d` is matched as ASCII digits only. Python's `re` also matches other Unicode decimal digits.
- Header.FindDate: `\d` in the date pattern is matched as ASCII digits only, while Python's `re` also matches other Unicode decimal digits.
- Header.FindPrevCursor: `\d` in the cursor pattern is matched as ASCII digits only, while Python's `re` also matches other Unicode decimal digits.
- Header.IsoDate: writes the year with the four digits it was read with. For years below 1000 the platform's `strftime("%Y")` may print fewer digits.
- Store.SortSorted: the sort is a function on sequences (a stable insertion sort). The in-place `list.sort` on the Python list is not modelled step by step.
- Walker.Crawl: the fetch is a function of the cursor. A server that answers the same cursor differently on a second request is not modelled.

## Findings

| source | as written | input that shows it | evidently intended | confidence | as-written member | corrected member |
|---|---|---|---|---|---|---|
| src/crawler/vietlott.py:219-223 | A result container is accepted when it has three balls and each ball's stripped text `isdigit()`. The texts are then joined. | Balls `"12"`, `"3"`, `"4"` give the code `"1234"`, which is not a three-digit code. | Each ball is one digit, so every code is a zero-padded three-digit string (`"000"`-`"999"`), as the comments at lines 179 and 221 say. | not executed | ResponseParser.AsWrittenAcceptsLongBall | ResponseParser.TripletCodes |
