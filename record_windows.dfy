/**
 * The timestamp-window loops `Client._requestDataRecords` and
 * `Client._requestDataQC` (`src_js/grndwork_api_client/client.ts`). Both
 * endpoints return records newest first, at most `records_limit` (`limit`)
 * of them, no newer than `before`. Each next request moves `before` to the
 * timestamp of the last record yielded. The server returns that record again,
 * so it is dropped from the next page, and the next page is one larger to
 * make up for it.
 */
module RecordWindows {
  import opened Wrappers
  import opened Text
  import opened Paging
  import opened Records

  /** The caller's `filename`, `limit`, `before` and `after`. */
  datatype WindowQuery = WindowQuery(filename: string, limit: Option<int>, before: Option<string>, after: Option<string>)

  /** One request of either loop: the window bounds and how many records it asks for. */
  datatype WindowRequest = WindowRequest(filename: string, size: int, before: Option<string>, after: Option<string>)

  /** What reading `.timestamp` of the `undefined` past an empty page throws. */
  const UndefinedTimestamp := "TypeError: Cannot read properties of undefined (reading 'timestamp')"

  /** JavaScript truthiness of an optional string: absent and `''` are falsy. */
  predicate Filled(s: Option<string>) {
    s.Some? && s.value != ""
  }

  /**
   * `recordsLimit`: `query.limit || null`, forced to `1` unless the query has
   * a limit or both ends of a window.
   */
  function StartLimit(q: WindowQuery): (l: Option<int>)
    ensures l.None? <==> !Truthy(q.limit) && Filled(q.before) && Filled(q.after)
    ensures Truthy(q.limit) ==> l == q.limit
    ensures !Truthy(q.limit) && l.Some? ==> l.value == 1
    ensures l.Some? ==> Truthy(l)
  {
    if Truthy(q.limit) then q.limit
    else if Filled(q.before) && Filled(q.after) then None
    else Some(1)
  }

  /** `Math.min((recordsLimit || Infinity) + 1, pageSize)`: the size of every request after the first. */
  function NextSize(recordsLimit: Option<int>, pageSize: int): (n: int)
    ensures n <= pageSize
    ensures Truthy(recordsLimit) ==> n <= recordsLimit.value + 1 && (n == recordsLimit.value + 1 || n == pageSize)
    ensures !Truthy(recordsLimit) ==> n == pageSize
  {
    if Truthy(recordsLimit) && recordsLimit.value + 1 < pageSize then recordsLimit.value + 1 else pageSize
  }

  /** `lastTimestamp || query.before`. */
  function BeforeOf(lastTimestamp: string, q: WindowQuery): (b: Option<string>)
    ensures lastTimestamp != "" ==> b == Some(lastTimestamp)
    ensures lastTimestamp == "" ==> b == q.before
  {
    if lastTimestamp != "" then Some(lastTimestamp) else q.before
  }

  /** The request the loop issues from its state. */
  function RequestOf(q: WindowQuery, requestLimit: int, lastTimestamp: string): WindowRequest {
    WindowRequest(q.filename, requestLimit, BeforeOf(lastTimestamp, q), q.after)
  }

  /** A page without its head when the head is the record the cursor stands on. */
  function Dedup<T>(stamp: T -> string, raw: seq<T>, lastTimestamp: string): (r: seq<T>)
    ensures r == raw || (raw != [] && r == raw[1..])
    ensures r == raw <==> !(lastTimestamp != "" && raw != [] && stamp(raw[0]) == lastTimestamp)
  {
    if lastTimestamp != "" && raw != [] && stamp(raw[0]) == lastTimestamp then raw[1..] else raw
  }

  /**
   * `records.slice(0, recordsLimit)` when the limit is set and the page is
   * longer; a negative end counts from the end of the page, as `slice` does.
   */
  function Truncate<T>(records: seq<T>, recordsLimit: Option<int>): (r: seq<T>)
    ensures |r| <= |records| && r == records[..|r|]
    ensures Truthy(recordsLimit) && recordsLimit.value > 0 ==> |r| == if |records| > recordsLimit.value then recordsLimit.value else |records|
    ensures Truthy(recordsLimit) && recordsLimit.value < 0 && |records| > recordsLimit.value ==>
              |r| == if |records| + recordsLimit.value > 0 then |records| + recordsLimit.value else 0
    ensures !Truthy(recordsLimit) ==> r == records
  {
    if Truthy(recordsLimit) && |records| > recordsLimit.value then
      var end := if recordsLimit.value >= 0 then recordsLimit.value
                 else if |records| + recordsLimit.value > 0 then |records| + recordsLimit.value else 0;
      records[..end]
    else records
  }

  /** The records the loop yields from a page: without the repeated cursor record, cut to the limit. */
  function Kept<T>(stamp: T -> string, raw: seq<T>, lastTimestamp: string, recordsLimit: Option<int>): seq<T> {
    Truncate(Dedup(stamp, raw, lastTimestamp), recordsLimit)
  }

  /**
   * The requests and yields of the loop from its state (`recordsLimit`,
   * `requestLimit`, `lastTimestamp`), issuing at most `fuel` requests; `fetch`
   * is the endpoint, answering with the page of records (`[]` for an empty or
   * missing one) or a transport error.
   */
  function Window<T>(fetch: WindowRequest -> Result<seq<T>, string>, stamp: T -> string, q: WindowQuery,
                     pageSize: int, recordsLimit: Option<int>, requestLimit: int, lastTimestamp: string,
                     fuel: nat): Run<WindowRequest, T>
    decreases fuel, 0
  {
    if fuel == 0 then Run([], [], OutOfFuel)
    else
      var req := RequestOf(q, requestLimit, lastTimestamp);
      match fetch(req)
      case Failure(e) => Run([req], [], Failed(e))
      case Success(raw) =>
        var records := if raw == [] then [] else Kept(stamp, raw, lastTimestamp, recordsLimit);
        Then(req, records, AfterWindow(fetch, stamp, q, pageSize, recordsLimit, requestLimit, fuel - 1, raw, records))
  }

  /** What the loop does once the `records` of page `raw` are yielded: stop, fail, or go on from the last of them. */
  function AfterWindow<T>(fetch: WindowRequest -> Result<seq<T>, string>, stamp: T -> string, q: WindowQuery,
                          pageSize: int, recordsLimit: Option<int>, requestLimit: int, fuel: nat,
                          raw: seq<T>, records: seq<T>): Run<WindowRequest, T>
    decreases fuel, 1
  {
    var left := Remaining(recordsLimit, |records|);
    if raw == [] then Run([], [], Completed)
    else if Truthy(recordsLimit) && left.value <= 0 then Run([], [], Completed)
    else if |raw| != requestLimit then Run([], [], Completed)
    else if records == [] then Run([], [], Failed(UndefinedTimestamp))
    else Window(fetch, stamp, q, pageSize, left, NextSize(left, pageSize), stamp(records[|records| - 1]), fuel)
  }

  /**
   * The rest of the loop's run from the state it is in. A name of its own,
   * so that the loop invariant unfolds `Window` no further than the step
   * lemmas need.
   */
  ghost function RestOfRun<T>(fetch: WindowRequest -> Result<seq<T>, string>, stamp: T -> string, q: WindowQuery,
                     pageSize: int, recordsLimit: Option<int>, requestLimit: int, lastTimestamp: string,
                     fuel: nat): Run<WindowRequest, T>
  {
    Window(fetch, stamp, q, pageSize, recordsLimit, requestLimit, lastTimestamp, fuel)
  }

  /** What follows a page, as `AfterWindow` says; a name of its own, like `RestOfRun`. */
  ghost function RestAfterPage<T>(fetch: WindowRequest -> Result<seq<T>, string>, stamp: T -> string, q: WindowQuery,
                          pageSize: int, recordsLimit: Option<int>, requestLimit: int, fuel: nat,
                          raw: seq<T>, records: seq<T>): Run<WindowRequest, T>
  {
    AfterWindow(fetch, stamp, q, pageSize, recordsLimit, requestLimit, fuel, raw, records)
  }

  /** The loop's run from its initial state. */
  function Windows<T>(fetch: WindowRequest -> Result<seq<T>, string>, stamp: T -> string, q: WindowQuery,
                      pageSize: int, fuel: nat): Run<WindowRequest, T>
  {
    Window(fetch, stamp, q, pageSize, StartLimit(q), RequestLimit(StartLimit(q), pageSize), "", fuel)
  }

  /**
   * The loop shared by `_requestDataRecords` and `_requestDataQC`, the
   * endpoint given as `fetch`, issuing at most `fuel` requests. The result
   * is exactly the run `Windows` describes.
   */
  method WindowLoop<T>(fetch: WindowRequest -> Result<seq<T>, string>, stamp: T -> string, query: WindowQuery,
                       pageSize: int, fuel: nat) returns (run: Run<WindowRequest, T>)
    ensures run == Windows(fetch, stamp, query, pageSize, fuel)
  {
    var recordsLimit := StartLimit(query);
    var requestLimit := RequestLimit(recordsLimit, pageSize);
    var lastTimestamp := "";
    var requests: seq<WindowRequest> := [];
    var items: seq<T> := [];
    var budget := fuel;
    ghost var whole := Windows(fetch, stamp, query, pageSize, fuel);
    while true
      invariant whole == Prepend(requests, items, RestOfRun(fetch, stamp, query, pageSize, recordsLimit, requestLimit, lastTimestamp, budget))
      decreases budget
    {
      if budget == 0 {
        PrependEnd(requests, items, OutOfFuel);
        return Run(requests, items, OutOfFuel);
      }
      var req := RequestOf(query, requestLimit, lastTimestamp);
      var results := fetch(req);
      if results.Failure? {
        PrependLast(requests, items, req, Failed(results.error));
        return Run(requests + [req], items, Failed(results.error));
      }
      var raw := results.value;
      if raw == [] {
        WindowEmptyPage(fetch, stamp, query, pageSize, recordsLimit, requestLimit, lastTimestamp, budget);
        PrependLast(requests, items, req, Completed);
        return Run(requests + [req], items, Completed);
      }
      var records := Kept(stamp, raw, lastTimestamp, recordsLimit);
      var rest := budget - 1;
      Round(requests, items, fetch, stamp, query, pageSize, recordsLimit, requestLimit, lastTimestamp, budget, raw, records);
      requests, items := requests + [req], items + records;
      var left := Remaining(recordsLimit, |records|);
      if (Truthy(recordsLimit) && left.value <= 0) || |raw| != requestLimit {
        AfterStop(fetch, stamp, query, pageSize, recordsLimit, requestLimit, rest, raw, records);
        PrependEnd(requests, items, Completed);
        return Run(requests, items, Completed);
      }
      if records == [] {
        AfterThrows(fetch, stamp, query, pageSize, recordsLimit, requestLimit, rest, raw);
        PrependEnd(requests, items, Failed(UndefinedTimestamp));
        return Run(requests, items, Failed(UndefinedTimestamp));
      }
      AfterGo(fetch, stamp, query, pageSize, recordsLimit, requestLimit, rest, raw, records);
      recordsLimit, requestLimit := left, NextSize(left, pageSize);
      lastTimestamp, budget := stamp(records[|records| - 1]), rest;
    }
  }

  /**
   * After a page the loop either stops without another request, or goes on
   * from the last record it yielded, with a positive remaining limit when a
   * limit is set, asking for at most `pageSize` records and at most the limit
   * it had before the page.
   */
  lemma AfterWindowSteps<T>(fetch: WindowRequest -> Result<seq<T>, string>, stamp: T -> string, q: WindowQuery,
                            pageSize: int, recordsLimit: Option<int>, requestLimit: int, fuel: nat,
                            raw: seq<T>, records: seq<T>)
    ensures var rest := AfterWindow(fetch, stamp, q, pageSize, recordsLimit, requestLimit, fuel, raw, records);
            var left := Remaining(recordsLimit, |records|);
            || (rest.requests == [] && rest.items == [])
            || (&& records != []
                && (Truthy(recordsLimit) ==> left.value > 0)
                && (Truthy(recordsLimit) && recordsLimit.value > 0 ==> NextSize(left, pageSize) <= recordsLimit.value)
                && rest == Window(fetch, stamp, q, pageSize, left, NextSize(left, pageSize), stamp(records[|records| - 1]), fuel))
  {
  }

  /** However the endpoint answers, a run from a positive limit yields no more records than it. */
  lemma {:induction false} WindowWithinLimit<T>(fetch: WindowRequest -> Result<seq<T>, string>, stamp: T -> string,
                                                q: WindowQuery, pageSize: int, recordsLimit: Option<int>,
                                                requestLimit: int, lastTimestamp: string, fuel: nat)
    requires Truthy(recordsLimit) && recordsLimit.value > 0
    ensures |Window(fetch, stamp, q, pageSize, recordsLimit, requestLimit, lastTimestamp, fuel).items| <= recordsLimit.value
    decreases fuel
  {
    if fuel > 0 {
      var req := RequestOf(q, requestLimit, lastTimestamp);
      if fetch(req).Success? && fetch(req).value != [] {
        var raw := fetch(req).value;
        var records := Kept(stamp, raw, lastTimestamp, recordsLimit);
        var rest := AfterWindow(fetch, stamp, q, pageSize, recordsLimit, requestLimit, fuel - 1, raw, records);
        AfterWindowSteps(fetch, stamp, q, pageSize, recordsLimit, requestLimit, fuel - 1, raw, records);
        if rest.items != [] {
          var left := Remaining(recordsLimit, |records|);
          WindowWithinLimit(fetch, stamp, q, pageSize, left, NextSize(left, pageSize), stamp(records[|records| - 1]), fuel - 1);
        }
      }
    }
  }

  /**
   * The loop never yields more than the caller's positive limit, and at most
   * one record when the query has no limit and not both ends of a window.
   */
  lemma WindowsWithinLimit<T>(fetch: WindowRequest -> Result<seq<T>, string>, stamp: T -> string,
                              q: WindowQuery, pageSize: int, fuel: nat)
    ensures Truthy(q.limit) && q.limit.value > 0 ==> |Windows(fetch, stamp, q, pageSize, fuel).items| <= q.limit.value
    ensures !Truthy(q.limit) && !(Filled(q.before) && Filled(q.after)) ==> |Windows(fetch, stamp, q, pageSize, fuel).items| <= 1
  {
    var l := StartLimit(q);
    if l.Some? && l.value > 0 {
      WindowWithinLimit(fetch, stamp, q, pageSize, l, RequestLimit(l, pageSize), "", fuel);
    }
  }

  /**
   * The requests of a run from a state whose first request is `first`: all of
   * them for the caller's file and `after`; every later one asks for at most
   * `pageSize` records and at most the limit, and starts from a cursor
   * timestamp or the caller's `before`.
   */
  ghost predicate RequestsFrom(reqs: seq<WindowRequest>, q: WindowQuery, pageSize: int, recordsLimit: Option<int>,
                               first: WindowRequest)
  {
    && (|reqs| > 0 ==> reqs[0] == first)
    && (forall i :: 0 <= i < |reqs| ==> reqs[i].filename == q.filename && reqs[i].after == q.after)
    && (forall i :: 0 < i < |reqs| ==>
          && reqs[i].size <= pageSize
          && (Truthy(recordsLimit) && recordsLimit.value > 0 ==> reqs[i].size <= recordsLimit.value)
          && (Filled(reqs[i].before) || reqs[i].before == q.before))
  }

  lemma {:induction false} WindowRequests<T>(fetch: WindowRequest -> Result<seq<T>, string>, stamp: T -> string,
                                             q: WindowQuery, pageSize: int, recordsLimit: Option<int>,
                                             requestLimit: int, lastTimestamp: string, fuel: nat)
    ensures RequestsFrom(Window(fetch, stamp, q, pageSize, recordsLimit, requestLimit, lastTimestamp, fuel).requests,
                         q, pageSize, recordsLimit, RequestOf(q, requestLimit, lastTimestamp))
    decreases fuel
  {
    if fuel > 0 {
      var req := RequestOf(q, requestLimit, lastTimestamp);
      if fetch(req).Success? {
        var raw := fetch(req).value;
        var records := if raw == [] then [] else Kept(stamp, raw, lastTimestamp, recordsLimit);
        var rest := AfterWindow(fetch, stamp, q, pageSize, recordsLimit, requestLimit, fuel - 1, raw, records);
        AfterWindowSteps(fetch, stamp, q, pageSize, recordsLimit, requestLimit, fuel - 1, raw, records);
        if rest.requests != [] {
          var left := Remaining(recordsLimit, |records|);
          var last := stamp(records[|records| - 1]);
          WindowRequests(fetch, stamp, q, pageSize, left, NextSize(left, pageSize), last, fuel - 1);
          RequestsFromThen(req, rest.requests, q, pageSize, recordsLimit, left, RequestOf(q, NextSize(left, pageSize), last));
        } else {
          assert [req] + rest.requests == [req];
        }
      }
    }
  }

  lemma RequestsFromThen(req: WindowRequest, rest: seq<WindowRequest>, q: WindowQuery, pageSize: int,
                         recordsLimit: Option<int>, left: Option<int>, next: WindowRequest)
    requires req.filename == q.filename && req.after == q.after
    requires RequestsFrom(rest, q, pageSize, left, next)
    requires next.size <= pageSize && (Filled(next.before) || next.before == q.before)
    requires Truthy(recordsLimit) && recordsLimit.value > 0 ==> next.size <= recordsLimit.value && Truthy(left) && 0 < left.value <= recordsLimit.value
    ensures RequestsFrom([req] + rest, q, pageSize, recordsLimit, req)
  {
    var reqs := [req] + rest;
    assert forall i :: 0 < i < |reqs| ==> reqs[i] == rest[i - 1];
  }

  /**
   * The whole loop: its first request is for the caller's file, window and
   * `min(limit, pageSize)` records (the forced limit of 1 included); every
   * later one for at most `pageSize` records and at most the caller's limit.
   */
  lemma WindowsRequests<T>(fetch: WindowRequest -> Result<seq<T>, string>, stamp: T -> string,
                           q: WindowQuery, pageSize: int, fuel: nat)
    ensures RequestsFrom(Windows(fetch, stamp, q, pageSize, fuel).requests, q, pageSize, StartLimit(q),
                         WindowRequest(q.filename, RequestLimit(StartLimit(q), pageSize), q.before, q.after))
    ensures fuel > 0 ==> |Windows(fetch, stamp, q, pageSize, fuel).requests| > 0
  {
    WindowRequests(fetch, stamp, q, pageSize, StartLimit(q), RequestLimit(StartLimit(q), pageSize), "", fuel);
  }

  /** Timestamps strictly decreasing: newest first, no two records at the same time. */
  ghost predicate NewestBy<T>(all: seq<T>, stamp: T -> string) {
    forall i, j :: 0 <= i < j < |all| ==> Newer(all, stamp, i, j)
  }

  /** Record `i` of `all` is newer than record `j`. */
  ghost predicate Newer<T>(all: seq<T>, stamp: T -> string, i: int, j: int)
    requires 0 <= i < |all| && 0 <= j < |all|
  {
    Below(stamp(all[j]), stamp(all[i]))
  }

  /** The records of `all` no newer than `before` (all of them when `before` is absent). */
  function From<T>(all: seq<T>, stamp: T -> string, before: Option<string>): seq<T>
  {
    if before.None? || all == [] then all
    else if Below(before.value, stamp(all[0])) then From(all[1..], stamp, before)
    else all
  }

  /** At most `n` records from the front of `s`. */
  function Take<T>(s: seq<T>, n: int): (r: seq<T>)
    ensures |r| == if n <= 0 then 0 else if n < |s| then n else |s|
    ensures r == s[..|r|]
  {
    if n <= 0 then [] else if n < |s| then s[..n] else s
  }

  /**
   * An endpoint holding the records `all` of the caller's window, newest
   * first: it answers a request with the newest `size` records no newer than
   * `before`, the `before` record included.
   */
  function WindowServer<T>(all: seq<T>, stamp: T -> string): WindowRequest -> Result<seq<T>, string> {
    (req: WindowRequest) => Success(Take(From(all, stamp, req.before), req.size))
  }

  /** `fetch` answers every request as `WindowServer(all, stamp)` does. */
  ghost predicate Serves<T>(fetch: WindowRequest -> Result<seq<T>, string>, all: seq<T>, stamp: T -> string) {
    forall req: WindowRequest :: fetch(Asked(req)) == Success(Take(From(all, stamp, req.before), req.size))
  }

  /** A request as the endpoint receives it; a name of its own, so that `Serves` is used only where it is asked for. */
  function Asked(req: WindowRequest): (r: WindowRequest)
    ensures r == req
  {
    req
  }

  /** From the timestamp of record `m - 1` such an endpoint serves that record and everything older. */
  lemma {:induction false} FromCursor<T>(all: seq<T>, stamp: T -> string, m: nat)
    requires NewestBy(all, stamp) && 0 < m <= |all|
    ensures From(all, stamp, Some(stamp(all[m - 1]))) == all[m - 1..]
  {
    if m == 1 {
      BelowIrreflexive(stamp(all[0]));
    } else {
      assert Newer(all, stamp, 0, m - 1);
      assert NewestBy(all[1..], stamp) by {
        forall i, j | 0 <= i < j < |all[1..]| ensures Newer(all[1..], stamp, i, j) {
          assert Newer(all, stamp, i + 1, j + 1);
          assert all[1..][j] == all[j + 1] && all[1..][i] == all[i + 1];
        }
      }
      assert all[1..][m - 2] == all[m - 1] && all[1..][m - 2..] == all[m - 1..];
      FromCursor(all[1..], stamp, m - 1);
    }
  }

  /** How many of `n` records a run with limit `recordsLimit` yields (`None`: no limit). */
  function Cap(recordsLimit: Option<int>, n: int): int {
    if recordsLimit.Some? then Min(recordsLimit.value, n) else n
  }

  /** The remaining limit once `m` records are yielded. */
  function LeftAt(recordsLimit: Option<int>, m: int): Option<int> {
    if recordsLimit.Some? then Some(recordsLimit.value - m) else None
  }

  /** A non-empty page: its kept records are yielded, then the run goes on as `AfterWindow` says. */
  lemma WindowStep<T>(fetch: WindowRequest -> Result<seq<T>, string>, stamp: T -> string, q: WindowQuery,
                      pageSize: int, recordsLimit: Option<int>, requestLimit: int, lastTimestamp: string,
                      fuel: nat, raw: seq<T>, records: seq<T>)
    requires fuel > 0 && raw != [] && fetch(RequestOf(q, requestLimit, lastTimestamp)) == Success(raw)
    requires records == Kept(stamp, raw, lastTimestamp, recordsLimit)
    ensures var run := Window(fetch, stamp, q, pageSize, recordsLimit, requestLimit, lastTimestamp, fuel);
            var after := AfterWindow(fetch, stamp, q, pageSize, recordsLimit, requestLimit, fuel - 1, raw, records);
            && run.requests == [RequestOf(q, requestLimit, lastTimestamp)] + after.requests
            && run.items == records + after.items && run.outcome == after.outcome
  {
  }

  /** One round of the loop: the request goes out and the page's records are yielded before what follows. */
  lemma Round<T>(requests: seq<WindowRequest>, items: seq<T>,
                 fetch: WindowRequest -> Result<seq<T>, string>, stamp: T -> string, q: WindowQuery,
                 pageSize: int, recordsLimit: Option<int>, requestLimit: int, lastTimestamp: string,
                 fuel: nat, raw: seq<T>, records: seq<T>)
    requires fuel > 0 && raw != [] && fetch(RequestOf(q, requestLimit, lastTimestamp)) == Success(raw)
    requires records == Kept(stamp, raw, lastTimestamp, recordsLimit)
    ensures Prepend(requests, items, RestOfRun(fetch, stamp, q, pageSize, recordsLimit, requestLimit, lastTimestamp, fuel))
         == Prepend(requests + [RequestOf(q, requestLimit, lastTimestamp)], items + records,
                    RestAfterPage(fetch, stamp, q, pageSize, recordsLimit, requestLimit, fuel - 1, raw, records))
  {
    PrependThen(requests, items, RequestOf(q, requestLimit, lastTimestamp), records,
                AfterWindow(fetch, stamp, q, pageSize, recordsLimit, requestLimit, fuel - 1, raw, records));
  }

  /** An empty page ends the run. */
  lemma WindowEmptyPage<T>(fetch: WindowRequest -> Result<seq<T>, string>, stamp: T -> string, q: WindowQuery,
                           pageSize: int, recordsLimit: Option<int>, requestLimit: int, lastTimestamp: string, fuel: nat)
    requires fuel > 0 && fetch(RequestOf(q, requestLimit, lastTimestamp)) == Success([])
    ensures Window(fetch, stamp, q, pageSize, recordsLimit, requestLimit, lastTimestamp, fuel)
            == Run([RequestOf(q, requestLimit, lastTimestamp)], [], Completed)
  {
  }

  /** A page that exhausts the limit, or comes back short, ends the run. */
  lemma AfterStop<T>(fetch: WindowRequest -> Result<seq<T>, string>, stamp: T -> string, q: WindowQuery,
                     pageSize: int, recordsLimit: Option<int>, requestLimit: int, fuel: nat, raw: seq<T>, records: seq<T>)
    requires raw != []
    requires (Truthy(recordsLimit) && Remaining(recordsLimit, |records|).value <= 0) || |raw| != requestLimit
    ensures AfterWindow(fetch, stamp, q, pageSize, recordsLimit, requestLimit, fuel, raw, records) == Run([], [], Completed)
  {
  }

  /** A full page with records left to yield: the run goes on from the last record yielded. */
  lemma AfterGo<T>(fetch: WindowRequest -> Result<seq<T>, string>, stamp: T -> string, q: WindowQuery,
                   pageSize: int, recordsLimit: Option<int>, requestLimit: int, fuel: nat, raw: seq<T>, records: seq<T>)
    requires raw != [] && records != [] && |raw| == requestLimit
    requires !(Truthy(recordsLimit) && Remaining(recordsLimit, |records|).value <= 0)
    ensures var left := Remaining(recordsLimit, |records|);
            AfterWindow(fetch, stamp, q, pageSize, recordsLimit, requestLimit, fuel, raw, records)
            == Window(fetch, stamp, q, pageSize, left, NextSize(left, pageSize), stamp(records[|records| - 1]), fuel)
  {
  }

  /** A full page with records left to yield, none of them kept: the loop throws. */
  lemma AfterThrows<T>(fetch: WindowRequest -> Result<seq<T>, string>, stamp: T -> string, q: WindowQuery,
                       pageSize: int, recordsLimit: Option<int>, requestLimit: int, fuel: nat, raw: seq<T>)
    requires raw != [] && |raw| == requestLimit
    requires !(Truthy(recordsLimit) && recordsLimit.value <= 0)
    ensures AfterWindow(fetch, stamp, q, pageSize, recordsLimit, requestLimit, fuel, raw, [])
            == Run([], [], Failed(UndefinedTimestamp))
  {
  }

  /** From the timestamp of any of its records, such an endpoint serves the newest records from that one on. */
  ghost predicate Cursors<T>(fetch: WindowRequest -> Result<seq<T>, string>, all: seq<T>, stamp: T -> string, q: WindowQuery) {
    forall k: int, size: int :: 0 <= k < |all| ==> fetch(CursorRequest(q, size, stamp(all[k]))) == Success(Take(all[k..], size))
  }

  /** `RequestOf` for a run standing on a record; a name of its own, so that `Cursors` is used only where it is asked for. */
  function CursorRequest(q: WindowQuery, size: int, lastTimestamp: string): (r: WindowRequest)
    ensures r == RequestOf(q, size, lastTimestamp)
  {
    RequestOf(q, size, lastTimestamp)
  }

  /** An endpoint serving the window from any of its records, every record stamped. */
  ghost predicate Endpoint<T>(fetch: WindowRequest -> Result<seq<T>, string>, all: seq<T>, stamp: T -> string, q: WindowQuery) {
    Cursors(fetch, all, stamp, q) && forall k :: 0 <= k < |all| ==> stamp(all[k]) != ""
  }

  lemma ServedCursors<T>(fetch: WindowRequest -> Result<seq<T>, string>, all: seq<T>, stamp: T -> string, q: WindowQuery)
    requires Serves(fetch, all, stamp)
    requires NewestBy(all, stamp) && forall k :: 0 <= k < |all| ==> stamp(all[k]) != ""
    ensures Endpoint(fetch, all, stamp, q)
  {
    forall k: int, size: int | 0 <= k < |all|
      ensures fetch(CursorRequest(q, size, stamp(all[k]))) == Success(Take(all[k..], size))
    {
      FromCursor(all, stamp, k + 1);
      assert fetch(Asked(CursorRequest(q, size, stamp(all[k])))) == Success(Take(all[k..], size));
    }
  }

  /** The page such an endpoint serves a run standing on record `m - 1`: that record and the next ones, of which the rest are kept. */
  lemma ServedPage<T>(fetch: WindowRequest -> Result<seq<T>, string>, all: seq<T>, stamp: T -> string, q: WindowQuery,
                      pageSize: int, left: Option<int>, m: nat)
    requires Cursors(fetch, all, stamp, q)
    requires 0 < m <= |all| && stamp(all[m - 1]) != ""
    requires NextSize(left, pageSize) >= 1
    requires left.Some? ==> NextSize(left, pageSize) - 1 <= left.value
    ensures var size := NextSize(left, pageSize);
            var e := Min(m - 1 + size, |all|);
            && fetch(RequestOf(q, size, stamp(all[m - 1]))) == Success(all[m - 1..e])
            && Kept(stamp, all[m - 1..e], stamp(all[m - 1]), left) == all[m..e]
  {
    var size := NextSize(left, pageSize);
    var last := stamp(all[m - 1]);
    var e := Min(m - 1 + size, |all|);
    assert fetch(CursorRequest(q, size, last)) == Success(Take(all[m - 1..], size));
    assert Take(all[m - 1..], size) == all[m - 1..e];
    assert Dedup(stamp, all[m - 1..e], last) == all[m..e];
  }

  lemma SliceJoin<T>(s: seq<T>, i: int, j: int, k: int)
    requires 0 <= i <= j <= k <= |s|
    ensures s[i..j] + s[j..k] == s[i..k]
  {
  }

  /**
   * Against such an endpoint, a run standing on record `m - 1` yields the
   * records from `m` on, up to the limit, without repeating the one it
   * stands on, and completes.
   */
  lemma {:induction false} ServedFrom<T>(fetch: WindowRequest -> Result<seq<T>, string>, all: seq<T>, stamp: T -> string,
                                         q: WindowQuery, pageSize: int, recordsLimit: Option<int>, m: nat, fuel: nat)
    requires Endpoint(fetch, all, stamp, q)
    requires pageSize >= 2 && 0 < m <= |all|
    requires recordsLimit.Some? ==> m < recordsLimit.value
    requires fuel > |all| - m
    ensures var left := LeftAt(recordsLimit, m);
            var run := RestOfRun(fetch, stamp, q, pageSize, left, NextSize(left, pageSize), stamp(all[m - 1]), fuel);
            run.items == all[m..Cap(recordsLimit, |all|)] && run.outcome == Completed
    decreases |all| - m, 2
  {
    StandingPage(fetch, all, stamp, q, pageSize, recordsLimit, m, fuel);
    ServedAfter(fetch, all, stamp, q, pageSize, recordsLimit, m, fuel - 1);
  }

  /** The run standing on record `m - 1`: the page it gets, then what follows it. */
  lemma StandingPage<T>(fetch: WindowRequest -> Result<seq<T>, string>, all: seq<T>, stamp: T -> string,
                        q: WindowQuery, pageSize: int, recordsLimit: Option<int>, m: nat, fuel: nat)
    requires Endpoint(fetch, all, stamp, q)
    requires pageSize >= 2 && 0 < m <= |all|
    requires recordsLimit.Some? ==> m < recordsLimit.value
    requires fuel > 0
    ensures var left := LeftAt(recordsLimit, m);
            var size := NextSize(left, pageSize);
            var e := Min(m - 1 + size, |all|);
            var run := RestOfRun(fetch, stamp, q, pageSize, left, size, stamp(all[m - 1]), fuel);
            var after := RestAfterPage(fetch, stamp, q, pageSize, left, size, fuel - 1, all[m - 1..e], all[m..e]);
            run.items == all[m..e] + after.items && run.outcome == after.outcome
  {
    var left := LeftAt(recordsLimit, m);
    var size := NextSize(left, pageSize);
    var e := Min(m - 1 + size, |all|);
    var last := stamp(all[m - 1]);
    assert last != "";
    assert size >= 2 && m - 1 < e;
    ServedPage(fetch, all, stamp, q, pageSize, left, m);
    RestStep(fetch, stamp, q, pageSize, left, size, last, fuel, all[m - 1..e], all[m..e]);
  }

  /** `WindowStep` in terms of `RestOfRun` and `RestAfterPage`. */
  lemma RestStep<T>(fetch: WindowRequest -> Result<seq<T>, string>, stamp: T -> string, q: WindowQuery,
                    pageSize: int, recordsLimit: Option<int>, requestLimit: int, lastTimestamp: string,
                    fuel: nat, raw: seq<T>, records: seq<T>)
    requires fuel > 0 && raw != [] && fetch(RequestOf(q, requestLimit, lastTimestamp)) == Success(raw)
    requires records == Kept(stamp, raw, lastTimestamp, recordsLimit)
    ensures var run := RestOfRun(fetch, stamp, q, pageSize, recordsLimit, requestLimit, lastTimestamp, fuel);
            var after := RestAfterPage(fetch, stamp, q, pageSize, recordsLimit, requestLimit, fuel - 1, raw, records);
            run.items == records + after.items && run.outcome == after.outcome
  {
    WindowStep(fetch, stamp, q, pageSize, recordsLimit, requestLimit, lastTimestamp, fuel, raw, records);
  }

  /** What follows such a page: a stop at the end of the records or of the limit, or the run from the page's last record. */
  lemma {:induction false} ServedAfter<T>(fetch: WindowRequest -> Result<seq<T>, string>, all: seq<T>, stamp: T -> string,
                                          q: WindowQuery, pageSize: int, recordsLimit: Option<int>, m: nat, fuel: nat)
    requires Endpoint(fetch, all, stamp, q)
    requires pageSize >= 2 && 0 < m <= |all|
    requires recordsLimit.Some? ==> m < recordsLimit.value
    requires fuel >= |all| - m
    ensures var left := LeftAt(recordsLimit, m);
            var size := NextSize(left, pageSize);
            var e := Min(m - 1 + size, |all|);
            var after := RestAfterPage(fetch, stamp, q, pageSize, left, size, fuel, all[m - 1..e], all[m..e]);
            all[m..e] + after.items == all[m..Cap(recordsLimit, |all|)] && after.outcome == Completed
    decreases |all| - m, 1
  {
    var left := LeftAt(recordsLimit, m);
    var size := NextSize(left, pageSize);
    var e := Min(m - 1 + size, |all|);
    var left' := Remaining(left, e - m);
    if (Truthy(left) && left'.value <= 0) || e - m + 1 != size {
      ServedStop(fetch, all, stamp, q, pageSize, recordsLimit, m, fuel);
    } else {
      ServedGo(fetch, all, stamp, q, pageSize, recordsLimit, m, fuel);
    }
  }

  lemma ServedStop<T>(fetch: WindowRequest -> Result<seq<T>, string>, all: seq<T>, stamp: T -> string,
                      q: WindowQuery, pageSize: int, recordsLimit: Option<int>, m: nat, fuel: nat)
    requires pageSize >= 2 && 0 < m <= |all|
    requires recordsLimit.Some? ==> m < recordsLimit.value
    requires var left := LeftAt(recordsLimit, m);
             var size := NextSize(left, pageSize);
             var e := Min(m - 1 + size, |all|);
             (Truthy(left) && Remaining(left, e - m).value <= 0) || e - m + 1 != size
    ensures var left := LeftAt(recordsLimit, m);
            var size := NextSize(left, pageSize);
            var e := Min(m - 1 + size, |all|);
            var after := RestAfterPage(fetch, stamp, q, pageSize, left, size, fuel, all[m - 1..e], all[m..e]);
            all[m..e] + after.items == all[m..Cap(recordsLimit, |all|)] && after.outcome == Completed
  {
    var left := LeftAt(recordsLimit, m);
    var size := NextSize(left, pageSize);
    var e := Min(m - 1 + size, |all|);
    AfterStop(fetch, stamp, q, pageSize, left, size, fuel, all[m - 1..e], all[m..e]);
    assert e == Cap(recordsLimit, |all|);
  }

  lemma {:induction false} ServedGo<T>(fetch: WindowRequest -> Result<seq<T>, string>, all: seq<T>, stamp: T -> string,
                                       q: WindowQuery, pageSize: int, recordsLimit: Option<int>, m: nat, fuel: nat)
    requires Endpoint(fetch, all, stamp, q)
    requires pageSize >= 2 && 0 < m <= |all|
    requires recordsLimit.Some? ==> m < recordsLimit.value
    requires fuel >= |all| - m
    requires var left := LeftAt(recordsLimit, m);
             var size := NextSize(left, pageSize);
             var e := Min(m - 1 + size, |all|);
             !(Truthy(left) && Remaining(left, e - m).value <= 0) && e - m + 1 == size
    ensures var left := LeftAt(recordsLimit, m);
            var size := NextSize(left, pageSize);
            var e := Min(m - 1 + size, |all|);
            var after := RestAfterPage(fetch, stamp, q, pageSize, left, size, fuel, all[m - 1..e], all[m..e]);
            all[m..e] + after.items == all[m..Cap(recordsLimit, |all|)] && after.outcome == Completed
    decreases |all| - m, 0
  {
    var left := LeftAt(recordsLimit, m);
    var size := NextSize(left, pageSize);
    var e := Min(m - 1 + size, |all|);
    var records := all[m..e];
    AfterGo(fetch, stamp, q, pageSize, left, size, fuel, all[m - 1..e], records);
    assert e > m && Remaining(left, e - m) == LeftAt(recordsLimit, e);
    assert records[|records| - 1] == all[e - 1];
    ServedFrom(fetch, all, stamp, q, pageSize, recordsLimit, e, fuel);
    SliceJoin(all, m, e, Cap(recordsLimit, |all|));
  }

  /**
   * The loop against such an endpoint, for a query whose `before` takes in
   * all of `all`: with pages of at least two records and enough requests
   * allowed, it yields the newest records of the window, each once, up to the
   * limit (one record when the limit is forced) or all of them when a window
   * is given without a limit, and completes.
   */
  lemma ServedWindows<T>(fetch: WindowRequest -> Result<seq<T>, string>, all: seq<T>, stamp: T -> string,
                         q: WindowQuery, pageSize: int, fuel: nat)
    requires Serves(fetch, all, stamp)
    requires NewestBy(all, stamp) && forall k :: 0 <= k < |all| ==> stamp(all[k]) != ""
    requires Covers(q.before, all, stamp)
    requires pageSize >= 2 && (Truthy(q.limit) ==> q.limit.value > 0)
    requires fuel > |all|
    ensures var run := Windows(fetch, stamp, q, pageSize, fuel);
            run.items == all[..Cap(StartLimit(q), |all|)] && run.outcome == Completed
  {
    ServedCursors(fetch, all, stamp, q);
    ServedFirst(fetch, all, stamp, q, RequestLimit(StartLimit(q), pageSize));
    ServedStart(fetch, all, stamp, q, pageSize, fuel);
  }

  /** `before` is absent or no older than the newest record: the window takes in all of `all`. */
  ghost predicate Covers<T>(before: Option<string>, all: seq<T>, stamp: T -> string) {
    before.None? || all == [] || !Below(before.value, stamp(all[0]))
  }

  /** The first request, not yet standing on a record, is answered with the newest records of the window. */
  lemma ServedFirst<T>(fetch: WindowRequest -> Result<seq<T>, string>, all: seq<T>, stamp: T -> string, q: WindowQuery, size: int)
    requires Serves(fetch, all, stamp) && Covers(q.before, all, stamp)
    ensures fetch(RequestOf(q, size, "")) == Success(Take(all, size))
  {
    assert From(all, stamp, q.before) == all;
    assert fetch(Asked(RequestOf(q, size, ""))) == Success(Take(all, size));
  }

  /** The run from its first request, the endpoint answering that one with the newest records. */
  lemma ServedStart<T>(fetch: WindowRequest -> Result<seq<T>, string>, all: seq<T>, stamp: T -> string,
                       q: WindowQuery, pageSize: int, fuel: nat)
    requires Endpoint(fetch, all, stamp, q)
    requires var size := RequestLimit(StartLimit(q), pageSize);
             fetch(RequestOf(q, size, "")) == Success(Take(all, size))
    requires pageSize >= 2 && (Truthy(q.limit) ==> q.limit.value > 0)
    requires fuel > |all|
    ensures var run := Windows(fetch, stamp, q, pageSize, fuel);
            run.items == all[..Cap(StartLimit(q), |all|)] && run.outcome == Completed
  {
    if all == [] {
      WindowEmptyPage(fetch, stamp, q, pageSize, StartLimit(q), RequestLimit(StartLimit(q), pageSize), "", fuel);
    } else {
      StartPage(fetch, all, stamp, q, pageSize, fuel);
      StartAfter(fetch, all, stamp, q, pageSize, fuel - 1);
    }
  }

  /** The first page is the newest records, all of them kept; then the run goes on as `AfterWindow` says. */
  lemma StartPage<T>(fetch: WindowRequest -> Result<seq<T>, string>, all: seq<T>, stamp: T -> string,
                     q: WindowQuery, pageSize: int, fuel: nat)
    requires var size := RequestLimit(StartLimit(q), pageSize);
             fetch(RequestOf(q, size, "")) == Success(Take(all, size))
    requires pageSize >= 2 && (Truthy(q.limit) ==> q.limit.value > 0)
    requires all != [] && fuel > 0
    ensures var l := StartLimit(q);
            var size := RequestLimit(l, pageSize);
            var page := all[..Min(size, |all|)];
            var run := Windows(fetch, stamp, q, pageSize, fuel);
            var after := RestAfterPage(fetch, stamp, q, pageSize, l, size, fuel - 1, page, page);
            run.items == page + after.items && run.outcome == after.outcome
  {
    var l := StartLimit(q);
    var size := RequestLimit(l, pageSize);
    var page := all[..Min(size, |all|)];
    assert Take(all, size) == page;
    assert Kept(stamp, page, "", l) == page;
    WindowStep(fetch, stamp, q, pageSize, l, size, "", fuel, page, page);
  }

  /** After the first page: a stop at the end of the records or of the limit, or the run from the page's last record. */
  lemma StartAfter<T>(fetch: WindowRequest -> Result<seq<T>, string>, all: seq<T>, stamp: T -> string,
                      q: WindowQuery, pageSize: int, fuel: nat)
    requires Endpoint(fetch, all, stamp, q)
    requires pageSize >= 2 && (Truthy(q.limit) ==> q.limit.value > 0)
    requires all != [] && fuel >= |all|
    ensures var l := StartLimit(q);
            var size := RequestLimit(l, pageSize);
            var page := all[..Min(size, |all|)];
            var after := RestAfterPage(fetch, stamp, q, pageSize, l, size, fuel, page, page);
            page + after.items == all[..Cap(l, |all|)] && after.outcome == Completed
  {
    var l := StartLimit(q);
    var size := RequestLimit(l, pageSize);
    var e := Min(size, |all|);
    var end := Cap(l, |all|);
    var page := all[..e];
    var left := Remaining(l, e);
    if (Truthy(l) && left.value <= 0) || e != size {
      AfterStop(fetch, stamp, q, pageSize, l, size, fuel, page, page);
      assert e == end;
    } else {
      AfterGo(fetch, stamp, q, pageSize, l, size, fuel, page, page);
      assert left == LeftAt(l, e) && page[e - 1] == all[e - 1];
      ServedFrom(fetch, all, stamp, q, pageSize, l, e, fuel);
      SliceJoin(all, 0, e, end);
      assert all[0..e] == page && all[0..end] == all[..end];
    }
  }

  /** `WindowServer` is such an endpoint, so the run against it yields exactly that. */
  lemma ServerWindows<T>(all: seq<T>, stamp: T -> string, q: WindowQuery, pageSize: int, fuel: nat)
    requires NewestBy(all, stamp) && forall k :: 0 <= k < |all| ==> stamp(all[k]) != ""
    requires Covers(q.before, all, stamp)
    requires pageSize >= 2 && (Truthy(q.limit) ==> q.limit.value > 0)
    requires fuel > |all|
    ensures var run := Windows(WindowServer(all, stamp), stamp, q, pageSize, fuel);
            run.items == all[..Cap(StartLimit(q), |all|)] && run.outcome == Completed
  {
    ServedWindows(WindowServer(all, stamp), all, stamp, q, pageSize, fuel);
  }

  /**
   * With pages of one record the cursor record fills the whole next page: once
   * the first record is yielded, a limit above one or no limit makes the second
   * request, whose page is that record alone, and the loop throws reading the
   * timestamp of the empty page's last record.
   */
  lemma PageOfOneFails<T>(fetch: WindowRequest -> Result<seq<T>, string>, all: seq<T>, stamp: T -> string,
                          q: WindowQuery, fuel: nat)
    requires Serves(fetch, all, stamp)
    requires all != [] && stamp(all[0]) != "" && Covers(q.before, all, stamp)
    requires StartLimit(q).Some? ==> StartLimit(q).value > 1
    requires fuel >= 2
    ensures Windows(fetch, stamp, q, 1, fuel)
         == Run([RequestOf(q, 1, ""), RequestOf(q, 1, stamp(all[0]))], [all[0]], Failed(UndefinedTimestamp))
  {
    var l := StartLimit(q);
    var first := stamp(all[0]);
    assert all[..1] == [all[0]];
    assert fetch(RequestOf(q, 1, "")) == Success([all[0]]);
    assert Kept(stamp, [all[0]], "", l) == [all[0]];
    WindowStep(fetch, stamp, q, 1, l, 1, "", fuel, [all[0]], [all[0]]);
    AfterGo(fetch, stamp, q, 1, l, 1, fuel - 1, [all[0]], [all[0]]);
    var left := Remaining(l, 1);
    BelowIrreflexive(first);
    assert fetch(RequestOf(q, 1, first)) == Success([all[0]]);
    assert Kept(stamp, [all[0]], first, left) == [];
    WindowStep(fetch, stamp, q, 1, left, 1, first, fuel - 1, [all[0]], []);
    AfterThrows(fetch, stamp, q, 1, left, 1, fuel - 2, [all[0]]);
  }
}
