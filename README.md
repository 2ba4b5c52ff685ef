# grndwork-api-client: cursors, pagination, QC merging and token caches

This project models the client-side logic of the GroundWork API clients. It is
written in Dafny, and every property below is proved by Dafny's verifier. The
model covers five parts of the clients, and each revision that ships is
modelled against its own source:

- **Content-Range cursor.** Every paginated reply describes its slice of the
  result in a header `items {first}-{last}/{count}`. This is the shape of the
  Content-Range field in section 14.4 of RFC 9110, with the custom range unit
  `items` and positions counted from 1. There are three readers of it: the
  regular-expression parser `ContentRange.parse` of the current TypeScript
  client, and the split-based `parse_content_range` (Python) and
  `parseContentRange` (old JavaScript client).
- **Offset/limit pagination.** Each of the three `makePaginatedRequest` loops
  requests pages, yields their items and moves `offset` forward using the
  cursor. The server is an abstract function from the request to a reply:
  the page's items and its header value, or a transport error. A generator's
  `yield` appends to the run's item sequence, and every issued request is
  recorded. An exception ends the run with the items already yielded. Each
  loop is a `method` with a `while` loop, proved equal to a recursive
  specification function (`Paginate`). The properties are lemmas about that
  function.
- **Timestamp windows and QC flags.** `Client._requestDataRecords` and
  `Client._requestDataQC` page backwards through a file's records with a
  `before` cursor. Both share one window loop (`RecordWindows.WindowLoop`).
  `_includeQCFlags` merges the data stream with the QC stream using two
  pending slots. The Python `combine_data_and_qc_records` does the same job
  with a dictionary. Both are modelled, and a lemma states when they agree.
- **Access-token caches.** Four revisions keep a module-level map from
  `platform:scope` to the last token issued. Each is a class whose `cache` map
  its methods update, plus an `exchanges` log of every token request posted.
  The clock (`nowMs`), JWT decoding (`decode`) and the token endpoint
  (`issue`) are parameters.
- **`stripUUID`.** Removes the leftmost `_?\w{8}-\w{4}-\w{4}-\w{4}-\w{12}`
  match.

The `Client` module connects these parts the way the public getters do:
page-size defaults, the file listing, the wire shape of each window request,
the optional QC merge and the per-file record fetch of `getData`.

Every loop has a request budget `fuel`: the number of requests the model may
issue. A run that would go on past it ends with the outcome `OutOfFuel`. The
end-to-end lemmas assume a budget large enough for the run to complete.

### Where the tests and the code disagree

Some test files come from other snapshots of the source than the code. Apart
from the first item below, the model follows the code, and a lemma shows what
the code does:

- `make_paginated_request.ts:34` calls `headers.get('content-range')`, where
  `headers` is the second element of what `makeRequest` resolves to: the plain
  object `{status_code, headers}` (make_request.ts:7-10 and 103-106), which has
  no `get`. As written, every page that reaches the cursor read is yielded and
  then a TypeError is thrown, so a run never gets past its first request
  (`PaginatedRequest.MakePaginatedRequestAsWritten`,
  `PaginatedRequest.HeadersGetThrows`, `PaginatedRequest.HeadersGetTestRun`).
  `PaginatedRequest.MakePaginatedRequest` and the lemmas about `Paginate` read
  the `Content-Range` value instead, which is what the paginator's tests in
  test_js/test_make_paginated_request.ts expect.

- `Client.GetStations`, `Client.GetDataFiles` and `Client.GetData` read
  `page_size` / `file_page_size`. `_makePaginatedRequest` then passes it inside
  the options object, but `makePaginatedRequest` takes its page size as a
  second positional argument with default 100 (make_paginated_request.ts:7;
  client.ts:428-433). So every listing page asks for at most 100 items.
  test_js/test_client.ts:90 and :146 expect 50.
- Parsing the empty header gives "Could not parse content range"
  (`ContentRanges.ParseRejects`). test_js/test_content_range.ts:14 expects
  "Missing content range".
- An empty reply without a header ends the run with the parse error
  (`PaginatedRequest.EmptyPageFails`). test_js/test_make_paginated_request.ts:129-142
  expects `[]`.
- `getData` sends `records_limit: 0` with the listing, and fetches records and
  QC flags only when `include_data_records` is set. test_js/test_client.ts:155-248
  expects embedded records and QC requests without it.
- Python `has_expired` compares a millisecond clock with an `exp` in seconds.
  Every token with a real lifetime therefore counts as expired
  (`PyAccessTokens.SecondsExpExpires`, `PyAccessTokens.CacheNeverHits`). The
  cache-hit test at test_py/test_access_tokens.py:62-85 relies on the fixture
  at test_py/test_access_tokens.py:22-30, which mocks the decoded `exp` in
  seconds against the real millisecond clock.
- `src/accessTokens.ts:22` passes `scope` and `platform` to the exchange in
  swapped order (`OldAccessTokens.ExchangeSwapped`). test/accessTokens.spec.ts:22-36
  passes them swapped as well, so its expectation holds.

Two further behaviours are not covered by tests:

- The Python loop never checks that the offset advances
  (`PyMakeRequest.NoProgressCheck`).
- A window loop with a page size of 1 throws on its second page
  (`RecordWindows.PageOfOneFails`).

## Model

Source paths are relative to the repository root.

| member | source | states |
|---|---|---|
| ContentRanges.Parse | src_js/grndwork_api_client/content_range.ts:9-24 | the only error is "Could not parse content range"; parsed positions are non-negative |
| ContentRanges.ScanField | src_js/grndwork_api_client/content_range.ts:10 | one regex group: a non-empty run of its class, then the separator; the header splits into group, separator and rest |
| ContentRanges.ParseAccepts | src_js/grndwork_api_client/content_range.ts:10-20 | every header the regex matches parses; groups map in order to unit, first, last, count |
| ContentRanges.ParseSpells | src_js/grndwork_api_client/content_range.ts:10-23 | every header that parses is spelled from well-formed unit and digit pieces |
| ContentRanges.ParseSucceedsIffMatches | src_js/grndwork_api_client/content_range.ts:10-23 | parsing succeeds if and only if the header matches `^\w+ \d+-\d+\/\d+$` |
| ContentRanges.ParseFormat | src_js/grndwork_api_client/content_range.ts:10-20 | round trip: a range printed in shortest decimal over a word unit parses back to itself |
| ContentRanges.ParseExampleSingle | src_js/grndwork_api_client/content_range.ts:10-20 | `items 1-1/1` gives first 1, last 1, count 1, unit `items` |
| ContentRanges.ParseExampleFirstPage | src_js/grndwork_api_client/content_range.ts:10-20 | `items 1-20/65` gives (1, 20, 65, `items`) |
| ContentRanges.ParseExampleLaterPage | src_js/grndwork_api_client/content_range.ts:10-20 | `items 6-25/65` gives (6, 25, 65, `items`) |
| ContentRanges.ParseExampleStale | src_js/grndwork_api_client/content_range.ts:10-20 | `items 1-100/165` gives (1, 100, 165, `items`) |
| ContentRanges.ParseRejects | src_js/grndwork_api_client/content_range.ts:23 | `""`, `items` and `items a-b/c` all fail with the one parse error |
| ContentRanges.ParseDoesNotOrder | src_js/grndwork_api_client/content_range.ts:10-20 | `items 9-2/1` parses: nothing orders first, last and count |
| PaginatedRequest.InitialLimit | src_js/grndwork_api_client/make_paginated_request.ts:10 | `query.limit \|\| null`: a zero or absent limit means no limit |
| PaginatedRequest.InitialOffset | src_js/grndwork_api_client/make_paginated_request.ts:11 | `query.offset \|\| 0` |
| Paging.Remaining | src_js/grndwork_api_client/make_paginated_request.ts:26-27 | a truthy limit drops by the page length; an unset or zero one stays as it is; the window loop decrements `recordsLimit` the same way (client.ts:319-320) |
| Paging.RequestLimit | src_js/grndwork_api_client/make_paginated_request.ts:19 | a request asks for at most `pageSize` items and at most a truthy limit, and exactly one of the two |
| Paging.Truthy | src_js/grndwork_api_client/make_paginated_request.ts:19-26 | the JavaScript and Python truthiness of an optional number: absent and `0` are falsy |
| PaginatedRequest.Paginate | src_js/grndwork_api_client/make_paginated_request.ts:13-24 | the run from a loop state: the request `min(limit, pageSize)` at `offset` with the caller's other fields, a transport error ending it, else the page yielded and `AfterPage` |
| PaginatedRequest.AfterPage | src_js/grndwork_api_client/make_paginated_request.ts:26-44 | after a page: stop once a set limit is used up; else read the cursor, fail on a parse error or a `last` not past the offset, stop at `last >= count`, else go on from `last` |
| PaginatedRequest.PaginationLoop | src_js/grndwork_api_client/make_paginated_request.ts:5-46 | the loop's requests, yields and outcome are exactly the run `Paginate` describes from `query.limit \|\| null` and `query.offset \|\| 0` |
| PaginatedRequest.MakePaginatedRequest | src_js/grndwork_api_client/make_paginated_request.ts:5-46 | the same, with cursors read by `ContentRange.parse` |
| PaginatedRequest.HeadersGet | src_js/grndwork_api_client/make_paginated_request.ts:34 | the cursor read as written: `headers.get` on the response object throws a TypeError whatever the reply carried |
| PaginatedRequest.MakePaginatedRequestAsWritten | src_js/grndwork_api_client/make_paginated_request.ts:5-46 | the loop with the cursor read as written is the run `Paginate` describes over `HeadersGet` |
| PaginatedRequest.HeadersGetThrows | src_js/grndwork_api_client/make_paginated_request.ts:14-34 | as written every run makes one request: a transport error propagates, else the page is yielded and the TypeError follows unless the limit was reached |
| PaginatedRequest.HeadersGetTestRun | src_js/grndwork_api_client/make_paginated_request.ts:13-45 | as written, the "makes requests" test yields ids 1..100 of 165 and then throws |
| PaginatedRequest.AfterPageSteps | src_js/grndwork_api_client/make_paginated_request.ts:26-44 | after a page the run stops, or goes on from a strictly larger offset with a still-positive limit |
| PaginatedRequest.PaginateYieldsReplies | src_js/grndwork_api_client/make_paginated_request.ts:14-24 | a run yields exactly the items of its replies, unmodified and in order; every request but the last got a page |
| PaginatedRequest.PaginateRequests | src_js/grndwork_api_client/make_paginated_request.ts:14-37 | every request keeps the caller's other fields and asks for at most the page size and the limit; the first is at the initial offset; offsets strictly increase |
| PaginatedRequest.PaginateWithinLimit | src_js/grndwork_api_client/make_paginated_request.ts:26-32 | against a server that never over-delivers, a run yields at most a positive limit |
| PaginatedRequest.TestServerServes | src_js/grndwork_api_client/make_paginated_request.ts:34 | the test server (ids 1..total, header `items f-l/total`) answers every in-range request with that window and a parseable cursor |
| PaginatedRequest.ServedRun | src_js/grndwork_api_client/make_paginated_request.ts:13-45 | against such a server a run yields exactly the ids after the offset, up to the limit, and completes |
| PaginatedRequest.TestRuns | src_js/grndwork_api_client/make_paginated_request.ts:13-45 | with 165 records and pages of 100: ids 1..165; with limit 155 ids 1..155; from offset 5, ids 6..160 |
| PaginatedRequest.CursorUnreadable | src_js/grndwork_api_client/make_paginated_request.ts:26-34 | an unreadable or missing header ends the run with the parse error once the page is yielded, unless the limit was reached first |
| PaginatedRequest.EmptyPageFails | src_js/grndwork_api_client/make_paginated_request.ts:24-34 | an empty reply without a header is one request, no items, and the parse error |
| PaginatedRequest.CursorNotAhead | src_js/grndwork_api_client/make_paginated_request.ts:36-44 | a cursor whose `last` is not past the offset ends the run with "Invalid content range", unless the limit was reached first |
| PaginatedRequest.InvalidRangeExample | src_js/grndwork_api_client/make_paginated_request.ts:36-44 | from offset 100, a page labelled `items 1-100/165` is yielded and then the run throws |
| JsMakeRequest.ParseInt | src_js/makeRequest.ts:111-113 | `parseInt(s, 10)` is a number only when `s` holds a digit |
| JsMakeRequest.IsJsSpace | src_js/makeRequest.ts:111-113 | the white space `parseInt` skips first: the ECMAScript WhiteSpace and LineTerminator characters |
| JsMakeRequest.CountField | src_js/makeRequest.ts:111 | `parseInt(rangeVals.split('/')[1], 10)`: NaN when there is no `/` |
| JsMakeRequest.FirstField | src_js/makeRequest.ts:112 | `parseInt` of what precedes the first `-` once the first `items ` is removed |
| JsMakeRequest.ParseIntOfDigits | src_js/makeRequest.ts:111-113 | a numeral followed by a non-digit reads as the numeral's value |
| JsMakeRequest.LastField | src_js/makeRequest.ts:113 | reading `last` can only throw a TypeError |
| JsMakeRequest.ParseContentRange | src_js/makeRequest.ts:106-120 | null exactly when the `content-range` key is absent; the only exception is a TypeError |
| JsMakeRequest.ParseThrowsIffNoDash | src_js/makeRequest.ts:113 | the parser throws if and only if no `-` is left after the first `items ` is removed |
| JsMakeRequest.ParseRejectsEmpty | src_js/makeRequest.ts:113 | an empty header throws a TypeError |
| JsMakeRequest.ParsePieces | src_js/makeRequest.ts:110-114 | a spelled header's count, first and last are `parseInt` of the pieces |
| JsMakeRequest.ParseSpell | src_js/makeRequest.ts:110-114 | for decimal pieces these are the pieces' values |
| JsMakeRequest.ParseFormat | src_js/makeRequest.ts:106-120 | round trip: a formatted range reads back to itself |
| JsMakeRequest.ParseExampleSingle | src_js/makeRequest.ts:110-114 | `items 1-1/1` gives count 1, first 1, last 1 |
| JsMakeRequest.ParseExampleFirstPage | src_js/makeRequest.ts:110-114 | `items 1-20/65` gives (65, 1, 20) |
| JsMakeRequest.ParseExampleLaterPage | src_js/makeRequest.ts:110-114 | `items 6-25/65` gives (65, 6, 25) |
| JsMakeRequest.ParseNaNLast | src_js/makeRequest.ts:113 | a non-numeric last position reads as NaN, not an error |
| JsMakeRequest.RequestSize | src_js/makeRequest.ts:72-75 | a defined limit is sent as it is, with no cap at the page size; otherwise the page size |
| JsMakeRequest.InitialOffset | src_js/makeRequest.ts:68 | `query.offset` when defined, else 0 |
| Paging.LimitAfter | src_js/makeRequest.ts:95-96 | a limit that is set drops by the page length, even from 0 |
| JsMakeRequest.PaginationLoop | src_js/makeRequest.ts:62-104 | the loop's requests, yields and outcome are exactly the run `Paginate` describes, with the reader as a parameter |
| JsMakeRequest.MakePaginatedRequest | src_js/makeRequest.ts:62-104 | the same, read with `parseContentRange` |
| JsMakeRequest.Paginate | src_js/makeRequest.ts:71-84 | the run from a loop state: the request with the uncapped limit (or `pageSize`) at `offset`, a transport error ending it, else the page yielded and `AfterPage` |
| JsMakeRequest.AfterPage | src_js/makeRequest.ts:86-102 | after a page: reader errors propagate, a missing header throws, `last === count` stops, then a set limit drops even from 0 and stops at `<= 0`, else go on from `last` |
| JsMakeRequest.AfterPageSteps | src_js/makeRequest.ts:86-102 | after a page the run stops, or goes on with a positive remaining limit |
| JsMakeRequest.PaginateYieldsReplies | src_js/makeRequest.ts:77-84 | a run yields exactly the items of its replies, in order |
| JsMakeRequest.PaginateRequests | src_js/makeRequest.ts:72-82 | every request keeps the caller's fields; with a limit each asks for exactly what is left of it; the first is at the initial offset |
| JsMakeRequest.HeaderMissing | src_js/makeRequest.ts:84-89 | a page without a header is yielded, then "Invalid header pagination values" is thrown; an empty header throws while read |
| JsMakeRequest.LastRecordReached | src_js/makeRequest.ts:91-93 | one page whose last equals the count: a single request, then the loop stops |
| JsMakeRequest.UpdatesOffset | src_js/makeRequest.ts:91-102 | offsets follow each page's `last`: requests at 5, 25 and 45 |
| JsMakeRequest.LimitReached | src_js/makeRequest.ts:95-101 | limit 41 with pages of 20: requests of 41, 21 and 1, then a stop |
| JsMakeRequest.NaNOffset | src_js/makeRequest.ts:102 | a NaN `last` becomes the next offset |
| PyMakeRequest.Strip | src_py/grndwork_api_client/make_request.py:105-107 | what `int()` strips: no longer than the input, no space at either end |
| PyMakeRequest.IsSpace | src_py/grndwork_api_client/make_request.py:105-107 | the ASCII white space `str.strip()` and `int()` remove: space, `\t`, `\n`, `\v`, `\f`, `\r` and `\x1c`-`\x1f` |
| PyMakeRequest.Int | src_py/grndwork_api_client/make_request.py:105-107 | `int()` fails only with a ValueError |
| PyMakeRequest.IntOfDigits | src_py/grndwork_api_client/make_request.py:105-107 | a decimal numeral converts to its value |
| PyMakeRequest.CountField | src_py/grndwork_api_client/make_request.py:105 | the count fails only with IndexError or ValueError |
| PyMakeRequest.FirstField | src_py/grndwork_api_client/make_request.py:106 | the first position fails only with a ValueError |
| PyMakeRequest.LastField | src_py/grndwork_api_client/make_request.py:107 | the last position fails only with IndexError or ValueError |
| PyMakeRequest.ParseContentRange | src_py/grndwork_api_client/make_request.py:99-113 | None exactly for an absent or empty header; otherwise a range, or IndexError / ValueError |
| PyMakeRequest.ParseSpell | src_py/grndwork_api_client/make_request.py:104-108 | a header spelled from decimal pieces gives their values as count, first, last |
| PyMakeRequest.ParseFormat | src_py/grndwork_api_client/make_request.py:99-113 | round trip: a formatted range reads back to itself |
| PyMakeRequest.ParseExampleSingle | src_py/grndwork_api_client/make_request.py:104-108 | `items 1-1/1` gives (1, 1, 1) |
| PyMakeRequest.ParseExampleFirstPage | src_py/grndwork_api_client/make_request.py:104-108 | `items 1-20/65` gives count 65, first 1, last 20 |
| PyMakeRequest.ParseExampleLaterPage | src_py/grndwork_api_client/make_request.py:104-108 | `items 6-25/65` gives (65, 6, 25) |
| PyMakeRequest.ParseExampleLastRecord | src_py/grndwork_api_client/make_request.py:104-108 | `items 6-25/25` gives (25, 6, 25) |
| PyMakeRequest.ParseExampleMiddle | src_py/grndwork_api_client/make_request.py:104-108 | `items 26-45/65` gives (65, 26, 45) |
| PyMakeRequest.ParseExampleEnd | src_py/grndwork_api_client/make_request.py:104-108 | `items 46-65/65` gives (65, 46, 65) |
| PyMakeRequest.ParseExampleLimitFirst | src_py/grndwork_api_client/make_request.py:104-108 | `items 1-20/105` gives (105, 1, 20) |
| PyMakeRequest.ParseExampleLimitSecond | src_py/grndwork_api_client/make_request.py:104-108 | `items 21-40/105` gives (105, 21, 40) |
| PyMakeRequest.ParseExampleLimitLast | src_py/grndwork_api_client/make_request.py:104-108 | `items 41-41/105` gives (105, 41, 41) |
| PyMakeRequest.ParseExampleUnfinished | src_py/grndwork_api_client/make_request.py:104-108 | `items 1-1/2` gives (2, 1, 1) |
| PyMakeRequest.ParseRejectsNoSlash | src_py/grndwork_api_client/make_request.py:105 | a non-empty header without `/` raises IndexError |
| PyMakeRequest.ParseRejectsCount | src_py/grndwork_api_client/make_request.py:105 | a count that `int()` rejects raises ValueError |
| PyMakeRequest.ParseRejectsBareUnit | src_py/grndwork_api_client/make_request.py:105 | `items` raises IndexError |
| PyMakeRequest.ParseRejectsLetters | src_py/grndwork_api_client/make_request.py:105 | `items a-b/c` raises ValueError |
| PyMakeRequest.PaginationLoop | src_py/grndwork_api_client/make_request.py:56-96 | the loop's requests, yields and outcome are exactly the run `Paginate` describes from `query.get('offset', 0)` |
| PyMakeRequest.MakePaginatedRequest | src_py/grndwork_api_client/make_request.py:56-96 | the same, read with `parse_content_range` |
| PyMakeRequest.Paginate | src_py/grndwork_api_client/make_request.py:67-82 | the run from a loop state: the request `min(limit, page_size)` for a truthy limit (else `page_size`) at `offset`, a transport error ending it, else the page yielded and `AfterPage` |
| PyMakeRequest.AfterPage | src_py/grndwork_api_client/make_request.py:84-96 | after a page: reader errors propagate, no range raises ValueError, `last == count` stops, a limit that is not None drops and stops at `<= 0`, else go on from `last` |
| PyMakeRequest.AfterPageSteps | src_py/grndwork_api_client/make_request.py:84-96 | after a page the run stops, or goes on with a positive remaining limit |
| PyMakeRequest.PaginateYieldsReplies | src_py/grndwork_api_client/make_request.py:72-82 | a run yields exactly the items of its replies, in order |
| PyMakeRequest.PaginateRequests | src_py/grndwork_api_client/make_request.py:67-81 | every request keeps the caller's fields and asks for at most the page size and a truthy limit; the first is at the initial offset |
| PyMakeRequest.PaginateWithinLimit | src_py/grndwork_api_client/make_request.py:91-94 | against a server that never over-delivers, a run yields at most a positive limit |
| PyMakeRequest.ZeroLimitOnePage | src_py/grndwork_api_client/make_request.py:68-94 | limit 0: one full-page request, then a stop whatever the range says |
| PyMakeRequest.HeaderFails | src_py/grndwork_api_client/make_request.py:82-86 | the page is yielded first; then a parse error propagates, or an absent or empty header raises "Invalid header pagination values" |
| PyMakeRequest.LastRecordReached | src_py/grndwork_api_client/make_request.py:88-89 | one page whose last equals the count: a single request, then a stop |
| PyMakeRequest.UpdatesOffset | src_py/grndwork_api_client/make_request.py:88-96 | requests at offsets 5, 25 and 45 with 60 items, then a stop |
| PyMakeRequest.LimitReached | src_py/grndwork_api_client/make_request.py:91-94 | limit 41 with pages of 20: requests of 20, 20 and 1, then a stop |
| PyMakeRequest.NoProgressCheck | src_py/grndwork_api_client/make_request.py:88-96 | a server repeating `items 1-1/2` keeps the loop requesting until the budget runs out |
| RecordWindows.StartLimit | src_js/grndwork_api_client/client.ts:284-288 | no limit only when the query has none and both `before` and `after`; otherwise its truthy limit or 1 |
| RecordWindows.NextSize | src_js/grndwork_api_client/client.ts:328 | later requests ask for one more than what is left, capped at the page size |
| RecordWindows.BeforeOf | src_js/grndwork_api_client/client.ts:301 | the cursor timestamp once there is one, else the caller's `before` |
| RecordWindows.Dedup | src_js/grndwork_api_client/client.ts:309-311 | the head is dropped exactly when it carries the cursor timestamp |
| RecordWindows.Truncate | src_js/grndwork_api_client/client.ts:313-315 | a prefix of the page: the limit's length when longer; `slice` semantics for a negative limit |
| RecordWindows.WindowLoop | src_js/grndwork_api_client/client.ts:274-337 | the loop's requests, yields and outcome are exactly the run `Windows` describes |
| RecordWindows.RequestOf | src_js/grndwork_api_client/client.ts:297-303 | the request from a loop state: the file, `requestLimit`, the cursor or `before`, and `after` |
| RecordWindows.Kept | src_js/grndwork_api_client/client.ts:309-315 | what a page yields: without the repeated cursor record, cut to the limit |
| RecordWindows.Window | src_js/grndwork_api_client/client.ts:293-317 | the run from a loop state: one request, a transport error ending it, else the kept records yielded (none from an empty page) and `AfterWindow` |
| RecordWindows.AfterWindow | src_js/grndwork_api_client/client.ts:319-335 | after a page: an empty page, a used-up limit or a short page stops; a full page with nothing kept throws; else go on from the last kept record with `NextSize` |
| RecordWindows.Windows | src_js/grndwork_api_client/client.ts:284-292 | the run from the initial state: `StartLimit`, the first size `min(limit, pageSize)` and no cursor |
| RecordWindows.AfterWindowSteps | src_js/grndwork_api_client/client.ts:319-332 | after a page: a stop, or the run from the last record yielded with a positive limit and a request no larger than the limit before |
| RecordWindows.WindowWithinLimit | src_js/grndwork_api_client/client.ts:313-325 | whatever the endpoint answers, a run yields at most a positive limit |
| RecordWindows.WindowsWithinLimit | src_js/grndwork_api_client/client.ts:284-325 | at most the caller's positive limit; at most one record when the limit is forced |
| RecordWindows.WindowRequests | src_js/grndwork_api_client/client.ts:293-303 | every request keeps the file and `after`; later ones stay within page size and limit and start from a cursor or `before` |
| RecordWindows.WindowsRequests | src_js/grndwork_api_client/client.ts:284-303 | the first request is `min(limit, pageSize)` over the caller's window, and later ones obey `WindowRequests` |
| RecordWindows.WindowEmptyPage | src_js/grndwork_api_client/client.ts:306-335 | an empty page ends the run |
| RecordWindows.AfterStop | src_js/grndwork_api_client/client.ts:319-332 | an exhausted limit or a short page ends the run |
| RecordWindows.AfterGo | src_js/grndwork_api_client/client.ts:327-329 | a full page with limit left goes on from its last yielded record |
| RecordWindows.AfterThrows | src_js/grndwork_api_client/client.ts:329 | a full page of which nothing was kept throws reading `.timestamp` of `undefined` |
| RecordWindows.ServedWindows | src_js/grndwork_api_client/client.ts:293-336 | against an endpoint serving newest records from `before`, the run yields each record of the window once, newest first, up to the limit, and completes |
| RecordWindows.ServerWindows | src_js/grndwork_api_client/client.ts:293-336 | the same result for the concrete server `WindowServer` |
| RecordWindows.PageOfOneFails | src_js/grndwork_api_client/client.ts:327-329 | with page size 1, the second page holds only the cursor record and the loop throws |
| Records.Flagged | src_js/grndwork_api_client/client.ts:254-257 | `{...record, qc_flags}` keeps timestamp, record number and data and sets the flags |
| QCMerge.Merge | src_js/grndwork_api_client/client.ts:248-271 | the merge emits one record per data record |
| QCMerge.Pending | src_js/grndwork_api_client/client.ts:245-250 | a pending slot followed by the rest of its stream: what the loop has still to consume |
| QCMerge.IncludeQCFlags | src_js/grndwork_api_client/client.ts:235-272 | the two-slot loop emits exactly `Merge` of the two streams |
| QCMerge.RoundFlag | src_js/grndwork_api_client/client.ts:253-260 | equal timestamps: the flagged record goes out and both slots empty |
| QCMerge.RoundPass | src_js/grndwork_api_client/client.ts:261-264 | no QC record pending, or an older one: the data record goes out unchanged |
| QCMerge.RoundDrop | src_js/grndwork_api_client/client.ts:265-266 | a newer QC record is dropped and nothing is emitted |
| QCMerge.MergeHead | src_js/grndwork_api_client/client.ts:248-267 | one round of the merge in each of its three cases |
| QCMerge.MergePairs | src_js/grndwork_api_client/client.ts:248-271 | for any order: each data record once, in order, unchanged or with the flags of a same-timestamp QC record, each QC record used at most once and in order |
| QCMerge.MergeNewestFirst | src_js/grndwork_api_client/client.ts:248-271 | for newest-first streams every data record gets the flags of the QC record with its timestamp, if any |
| QCMerge.MergeExample | src_js/grndwork_api_client/client.ts:248-271 | of two data records only the one matching a QC record is flagged; an older QC record is unused |
| CombineRecords.LastFlags | src_py/grndwork_api_client/utils.py:16-17 | found exactly when some QC record has the timestamp; the flags of the last such record |
| CombineRecords.FlagsByTimestamp | src_py/grndwork_api_client/utils.py:14-17 | `qc_flags_by_timestamp` after the loop has filed each QC record in order, later ones overwriting earlier ones |
| CombineRecords.FlagsByTimestampLookup | src_py/grndwork_api_client/utils.py:14-17 | the dictionary the loop builds holds, per timestamp, the last record's flags |
| CombineRecords.CombineDataAndQCRecords | src_py/grndwork_api_client/utils.py:10-24 | same length and order as the data; each record with `qc_flags` replaced by the last match's flags or `{}` |
| CombineRecords.LastFlagsSkips | src_py/grndwork_api_client/utils.py:16-17 | a QC record with another timestamp changes nothing for this one, wherever it stands |
| CombineRecords.UnmatchedQCIgnored | src_py/grndwork_api_client/utils.py:22 | QC records matching no data timestamp do not change the result |
| CombineRecords.FirstIsLast | src_py/grndwork_api_client/utils.py:16-17 | in a newest-first QC stream the first record found for a timestamp is also the last |
| CombineRecords.MergeAgreesWithCombine | src_py/grndwork_api_client/utils.py:19-24 | on newest-first streams the JavaScript merge and the Python combination attach the same flags; unmatched records stay unchanged or get `{}` |
| StripUuid.MatchAt | src_js/grndwork_api_client/utils.ts:3 | a match is 36 characters, or 37 with a leading `_`, and its last 36 have the UUID shape; none otherwise |
| StripUuid.Leftmost | src_js/grndwork_api_client/utils.ts:3 | the first position with a match, and no match before it |
| StripUuid.StripUUID | src_js/grndwork_api_client/utils.ts:1-7 | null, undefined and `""` give `""` |
| StripUuid.UnchangedIffNoMatch | src_js/grndwork_api_client/utils.ts:3 | a non-empty value comes back unchanged if and only if it has no match |
| StripUuid.RemovesLeftmost | src_js/grndwork_api_client/utils.ts:3 | exactly the leftmost match goes; prefix and suffix are kept in order |
| StripUuid.MatchChars | src_js/grndwork_api_client/utils.ts:3 | a match holds only word characters and dashes |
| TokenCommon.CacheKeyCollision | src_js/grndwork_api_client/access_tokens.ts:17 | `("a:b", "c")` and `("a", "b:c")` share a cache entry |
| TokenCommon.CacheKey | src_js/grndwork_api_client/access_tokens.ts:17 | `${platform}:${scope}`, the same in all four revisions |
| TokenCommon.ExchangeFor | src_js/grndwork_api_client/access_tokens.ts:29-43 | the exchange posted: the refresh token as bearer with subject, platform and scope |
| TokenCommon.JsHasExpired | src_js/grndwork_api_client/access_tokens.ts:48-57 | a truthy `exp` with `floor(now / 1000) - exp >= 0`; src_js/accessTokens.ts:50-60 and src/accessTokens.ts:48-58 are the same |
| TokenCommon.JsHit | src_js/grndwork_api_client/access_tokens.ts:19-21 | the cached entry exists, is non-empty and has not expired |
| TokenCommon.JsGet | src_js/grndwork_api_client/access_tokens.ts:19-26 | one `getAccessToken` call: a hit returns the entry; else the exchange's token is stored and returned, or its error propagates |
| TokenCommon.CacheKeyInjective | src_js/grndwork_api_client/access_tokens.ts:17 | with no `:` in the platforms, the key determines platform and scope |
| TokenCommon.JsExpiryBoundary | src_js/grndwork_api_client/access_tokens.ts:48-57 | a set `exp` is expired from its own second on and not before; a missing or zero `exp` never expires |
| TokenCommon.JsExpiryMonotone | src_js/grndwork_api_client/access_tokens.ts:48-57 | once expired, a token stays expired |
| TokenCommon.JsGetEffect | src_js/grndwork_api_client/access_tokens.ts:19-24 | an exchange happens exactly when there is no valid token, once; a hit changes nothing; a new token is stored under the key; no other key changes |
| TokenCommon.JsSecondCallReuses | src_js/grndwork_api_client/access_tokens.ts:19-26 | a second call within the lifetime returns the cached token with no exchange |
| TokenCommon.JsSecondCallReissues | src_js/grndwork_api_client/access_tokens.ts:21-24 | a second call after expiry exchanges again and returns the new token |
| TokenCommon.JsSeparateKeys | src_js/grndwork_api_client/access_tokens.ts:17-24 | another platform or scope makes its own exchange |
| AccessTokens.TokenCache.constructor | src_js/grndwork_api_client/access_tokens.ts:6 | the cache starts empty |
| AccessTokens.TokenCache.Reset | src_js/grndwork_api_client/access_tokens.ts:8-10 | the cache is emptied |
| AccessTokens.TokenCache.GetAccessToken | src_js/grndwork_api_client/access_tokens.ts:12-27 | new cache, result and exchange log are those of `JsGet` with the caller's platform and scope |
| AccessTokens.ExchangeBody | src_js/grndwork_api_client/access_tokens.ts:29-46 | a miss posts the refresh token as bearer with `{subject, platform, scope}` |
| LegacyAccessTokens.TokenCache.constructor | src_js/accessTokens.ts:6 | the cache starts empty |
| LegacyAccessTokens.TokenCache.Reset | src_js/accessTokens.ts:8-10 | the cache is emptied |
| LegacyAccessTokens.TokenCache.GetAccessToken | src_js/accessTokens.ts:12-27 | new cache, result and exchange log are those of `JsGet` |
| LegacyAccessTokens.ExpiresInItsOwnSecond | src_js/accessTokens.ts:50-60 | an `exp` equal to the current second is expired: the second call exchanges again |
| OldAccessTokens.TokenCache.constructor | src/accessTokens.ts:6 | the cache starts empty |
| OldAccessTokens.TokenCache.Reset | src/accessTokens.ts:8-10 | the cache is emptied |
| OldAccessTokens.TokenCache.GetAccessToken | src/accessTokens.ts:12-27 | as `JsGet` under the caller's key, with the exchange's platform and scope swapped |
| OldAccessTokens.ExchangeSwapped | src/accessTokens.ts:22 | a miss posts the caller's scope as platform and platform as scope |
| OldAccessTokens.NoExpReused | src/accessTokens.ts:48-58 | a token without `exp` is reused: two calls, one exchange |
| OldAccessTokens.ExpOneReissued | src/accessTokens.ts:48-58 | `exp: 1` is expired: the second call exchanges again and returns the new token |
| PyAccessTokens.Cached | src_py/grndwork_api_client/access_tokens.py:24 | `dict.get`: the entry when present, else None |
| PyAccessTokens.Falsy | src_py/grndwork_api_client/access_tokens.py:26 | `not access_token`: a missing entry, None and `''` |
| PyAccessTokens.PyHasExpired | src_py/grndwork_api_client/access_tokens.py:52-59 | `exp` (0 when missing) truthy and `now_ms - exp >= 0` |
| PyAccessTokens.PyGet | src_py/grndwork_api_client/access_tokens.py:24-30 | one `get_access_token` call: a decode error propagates; a valid entry is returned; else what the exchange returns is stored and returned |
| PyAccessTokens.TokenCache.constructor | src_py/grndwork_api_client/access_tokens.py:10 | the cache starts empty |
| PyAccessTokens.TokenCache.Reset | src_py/grndwork_api_client/access_tokens.py:13-15 | the map is replaced by an empty one |
| PyAccessTokens.TokenCache.GetAccessToken | src_py/grndwork_api_client/access_tokens.py:18-30 | new cache, result and exchange log are those of `PyGet` |
| PyAccessTokens.PyGetEffect | src_py/grndwork_api_client/access_tokens.py:24-30 | an exchange happens exactly when the entry is falsy or expired, once; what it returns, None included, is stored; no other key changes |
| PyAccessTokens.SecondsExpExpires | src_py/grndwork_api_client/access_tokens.py:52-59 | a second-valued `exp` within its lifetime is expired against the millisecond clock, while `hasExpired` in JavaScript keeps it |
| PyAccessTokens.CacheNeverHits | src_py/grndwork_api_client/access_tokens.py:18-30 | so a second call right after an exchange exchanges again |
| PyAccessTokens.NoExpReused | src_py/grndwork_api_client/access_tokens.py:54-57 | a token with no or zero `exp` is reused |
| PyAccessTokens.NoneTokenRetried | src_py/grndwork_api_client/access_tokens.py:26-30 | a None token is returned and stored, and the next call exchanges again |
| Client.PageSizeOr | src_js/grndwork_api_client/client.ts:71 | `options.page_size \|\| fallback` |
| Client.IncludesQC | src_js/grndwork_api_client/client.ts:74 | `include_qc_flags !== false`: only an explicit `false` turns the flags off |
| Client.WithText | src_js/grndwork_api_client/make_request.ts:51-56 | a query field is sent only when it has a value: `makeRequest` drops null and undefined |
| Client.RecordsReply | src_js/grndwork_api_client/client.ts:294-307 | a data reply as the window loop sees it: a transport error, or `PageRecords` of the body |
| Client.QCReply | src_js/grndwork_api_client/client.ts:359-371 | a QC reply as the window loop sees it: a transport error, or `QCPage` of the body |
| Client.RecordsFetch | src_js/grndwork_api_client/client.ts:294-307 | the data endpoint as the window loop sees it: the wire request `RecordsWire`, read with `RecordsReply` |
| Client.QCFetch | src_js/grndwork_api_client/client.ts:359-371 | the QC endpoint as the window loop sees it: `QCWire`, read with `QCReply` |
| Client.RecordsDelivery | src_js/grndwork_api_client/client.ts:69-80 | the data window, merged with the QC window of the same query when flags are wanted, with both outcomes |
| Client.GetStations | src_js/grndwork_api_client/client.ts:34-46 | the stations run pages by the paginator's default 100, whatever page size is passed |
| Client.FilesFilters | src_js/grndwork_api_client/client.ts:193-196 | the listing query is the caller's, with `records_limit` set to 0 |
| Client.RequestDataFiles | src_js/grndwork_api_client/client.ts:180-199 | the listing run over `FilesFilters` with pages of 100 |
| Client.GetDataFiles | src_js/grndwork_api_client/client.ts:48-60 | the same, whatever page size is passed |
| Client.DataFilesRequests | src_js/grndwork_api_client/client.ts:180-199 | every listing request carries `records_limit: 0`, asks for at most 100 and the limit; offsets increase from `query.offset \|\| 0` |
| Client.RecordsWire | src_js/grndwork_api_client/client.ts:297-303 | a data window is sent as `limit: 1` with the window in `records_limit`, `records_before`, `records_after` |
| Client.QCWire | src_js/grndwork_api_client/client.ts:362-367 | a QC window is sent in `limit`, `before`, `after` |
| Client.PageRecords | src_js/grndwork_api_client/client.ts:304-307 | the first file's records; a null or empty body, or no records, reads as an empty page |
| Client.QCPage | src_js/grndwork_api_client/client.ts:368-370 | a null body reads as an empty page |
| Client.RequestDataRecords | src_js/grndwork_api_client/client.ts:274-337 | the window loop against the data endpoint |
| Client.RequestDataQC | src_js/grndwork_api_client/client.ts:339-401 | the window loop against the QC endpoint |
| Client.RecordsRequests | src_js/grndwork_api_client/client.ts:284-303 | the first data request is `records_limit = min(limit, pageSize)` over the caller's window; every one asks for the file with `limit: 1` |
| Client.QCRequests | src_js/grndwork_api_client/client.ts:349-367 | the same windows for QC, sized by `limit` |
| Client.PullRecords | src_js/grndwork_api_client/client.ts:69-80 | the data window, merged with the QC window of the same query when flags are wanted |
| Client.GetDataRecords | src_js/grndwork_api_client/client.ts:62-83 | page size `page_size \|\| 1500`; flags unless `include_qc_flags` is false |
| Client.GetDataQC | src_js/grndwork_api_client/client.ts:85-97 | the QC window with page size `page_size \|\| 1500` |
| Client.DeliveryKeepsData | src_js/grndwork_api_client/client.ts:240-271 | delivered records match the data window one for one, each unchanged or flagged from a same-timestamp QC record |
| Client.DeliveryWithinLimit | src_js/grndwork_api_client/client.ts:284-325 | delivered records stay within the caller's positive limit, or one when it is forced |
| Client.RecordsDefaults | src_js/grndwork_api_client/client.ts:284-303 | first data request sizes 1, 100 and 50 for the default, `limit: 100`, and `limit: 100` with `page_size: 50` |
| Client.Listing | src_js/grndwork_api_client/client.ts:128-131 | `getData` lists files with the caller's own limit and offset |
| Client.RecordsQuery | src_js/grndwork_api_client/client.ts:208-213 | each file's window is its filename with `records_limit`, `records_before`, `records_after` |
| Client.IncludeDataRecords | src_js/grndwork_api_client/client.ts:201-233 | each listed file, in order, with its own records delivery |
| Client.GetData | src_js/grndwork_api_client/client.ts:119-143 | the listing in pages of 100; records per file only when `include_data_records` is set, under `record_page_size \|\| 1500` |

## Left out

- HTTP transport (`makeRequest` in every revision, retries, timeouts, error bodies): it is network I/O. Servers are abstract functions from the request to a reply or a failure.
- JWT decoding, its signature check, and the clocks `Date.now` / `time.time`: foreign library and ambient time. They are the parameters `decode` and `nowMs`.
- The token endpoint (`createAccessToken`): it is network I/O. It is the parameter `issue`; the body it posts is modelled, but not how the reply is read (`result.token`, `response[0].token`, `result.get('token')`).
- The `getAccessToken` calls at the start of each `Client` generator: their scopes and tokens only reach the abstract transport.
- Async generators and `IterableResponse`: `yield` appends to a sequence and `await` is a plain call. Laziness, and the order in which the data and QC streams and the file listing interleave with their consumers, are not modelled.
- QCMerge.IncludeQCFlags: takes both streams as finished sequences, so an error in either stream is reported beside the merged records (`Delivery`), not at the point where the merge would meet it.
- Every pagination and window loop: the budget `fuel` bounds the requests. A run that would go on forever ends with `OutOfFuel`.
- TokenCommon.JsHasExpired: `decode` yields an integer `exp`. A fractional JWT `exp`, which JavaScript compares as a double, cannot be expressed.
- PyAccessTokens.PyHasExpired: `decode` yields an integer `exp`, read as what `int()` leaves of the claim. A fractional `exp` is not expressed, and neither is the TypeError that `int(None)` raises for an `exp` present as null.
- PaginatedRequest.MakePaginatedRequest: reads the `Content-Range` value of the reply. make_paginated_request.ts:34 calls `headers.get` on an object that has no `get`; that behaviour is modelled by `PaginatedRequest.MakePaginatedRequestAsWritten` and `PaginatedRequest.HeadersGetThrows`.
- Records.Value: numbers in `data` and `qc_flags` are integers; floating point is left out.
- JsMakeRequest.ParseInt: values are exact integers. JavaScript numbers lose precision above 2^53, and `Infinity` is not produced.
- ContentRanges.Parse: reads each digit run as an exact integer. The `parseInt` of content_range.ts loses precision above 2^53.
- PyMakeRequest.Int: accepts optional sign and ASCII digits between white space. The underscores and non-ASCII digits that Python's `int()` also accepts are left out.
- PyMakeRequest.Strip: strips the ASCII white space (space, `\t`, `\n`, `\v`, `\f`, `\r` and `\x1c`-`\x1f`). The non-ASCII white space that `str.strip` also removes (`\x85`, `\xa0` and the other Unicode spaces) is left out.
- PyMakeRequest.ParseContentRange: the `except (AttributeError, KeyError)` branch is not modelled, since a string header never raises either error.
- Paging.Query: a field present with the value `null` (JavaScript) or `None` (Python) is not distinguished from an absent one. In particular, Python's `query.get('offset', 0)` returns `None` for an `offset` present as `None`; the model starts that run at 0.
- RecordWindows.NextSize: `Infinity` and `NaN` limits are not modelled; page sizes and limits are integers.
- QCMerge.Merge: compares timestamps by code point, which matches JavaScript's string `>` for characters of the Basic Multilingual Plane only.
- Object keys that JavaScript resolves through the prototype chain (a cache key such as `constructor`): the caches are plain maps.
- Station records, data-file fields other than `filename`, and record fields other than `timestamp`, `record_num`, `data` and `qc_flags`: the logic does not read them.
