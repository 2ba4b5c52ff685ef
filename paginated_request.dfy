/**
 * The current offset/limit paginator `makePaginatedRequest`
 * (`src_js/grndwork_api_client/make_paginated_request.ts`). Each request asks
 * for at most `pageSize` items at `offset`; the `Content-Range` cursor of the
 * reply moves `offset` to its `last` position.
 */
module PaginatedRequest {
  import opened Wrappers
  import opened Paging
  import ContentRanges
  import Text

  const DefaultPageSize := 100
  const InvalidRange := "Invalid content range"
  const HeadersGetError := "TypeError: headers.get is not a function"

  /** `query.limit || null`: `0` means no limit. */
  function InitialLimit(q: Query): (l: Option<int>)
    ensures Truthy(l) <==> Truthy(q.limit)
    ensures Truthy(l) ==> l == q.limit
    ensures !Truthy(l) ==> l.None?
  {
    if Truthy(q.limit) then q.limit else None
  }

  /** `query.offset || 0`. */
  function InitialOffset(q: Query): (o: int)
    ensures Truthy(q.offset) ==> o == q.offset.value
    ensures !Truthy(q.offset) ==> o == 0
  {
    if Truthy(q.offset) then q.offset.value else 0
  }

  /** What the paginator reads a reply's `Content-Range` header with. */
  type Cursor = string -> Result<ContentRanges.ContentRange, string>

  /**
   * The sequence of requests and yields the loop performs against `server`,
   * from the loop state (`limit`, `offset`), issuing at most `fuel` requests,
   * reading each reply's cursor with `cursor`.
   */
  function Paginate<T>(server: Request -> Reply<T>, cursor: Cursor, filters: map<string, string>,
                       limit: Option<int>, offset: int, pageSize: int, fuel: nat): Run<Request, T>
    decreases fuel, 0
  {
    if fuel == 0 then Run([], [], OutOfFuel)
    else
      var req := Request(filters, RequestLimit(limit, pageSize), offset);
      match server(req)
      case RequestFailed(e) => Run([req], [], Failed(e))
      case Page(items, header) =>
        Then(req, items, AfterPage(server, cursor, filters, limit, offset, pageSize, fuel - 1, items, header))
  }

  /** What the loop does once a page of `items` has been yielded: stop, fail, or go on from the next offset. */
  function AfterPage<T>(server: Request -> Reply<T>, cursor: Cursor, filters: map<string, string>,
                        limit: Option<int>, offset: int, pageSize: int, fuel: nat,
                        items: seq<T>, header: Option<string>): Run<Request, T>
    decreases fuel, 1
  {
    var limit' := Remaining(limit, |items|);
    if Truthy(limit) && limit'.value <= 0 then Run([], [], Completed)
    else
      match cursor(header.GetOr(""))
      case Failure(e) => Run([], [], Failed(e))
      case Success(range) =>
        if offset < range.last then
          if range.last >= range.count then Run([], [], Completed)
          else Paginate(server, cursor, filters, limit', range.last, pageSize, fuel)
        else Run([], [], Failed(InvalidRange))
  }

  /**
   * The rest of the loop's run from the state it is in. A name of its own,
   * so that the loop invariant unfolds `Paginate` no further than the step
   * lemmas need.
   */
  ghost function RestOfRun<T>(server: Request -> Reply<T>, cursor: Cursor, filters: map<string, string>,
                              limit: Option<int>, offset: int, pageSize: int, fuel: nat): Run<Request, T>
  {
    Paginate(server, cursor, filters, limit, offset, pageSize, fuel)
  }

  /** What follows a page, as `AfterPage` says; a name of its own, like `RestOfRun`. */
  ghost function RestAfterPage<T>(server: Request -> Reply<T>, cursor: Cursor, filters: map<string, string>,
                                  limit: Option<int>, offset: int, pageSize: int, fuel: nat,
                                  items: seq<T>, header: Option<string>): Run<Request, T>
  {
    AfterPage(server, cursor, filters, limit, offset, pageSize, fuel, items, header)
  }

  /** One request answered with a page: the request and the page join the prefix, and what follows the page remains. */
  lemma Round<T>(requests: seq<Request>, items: seq<T>, server: Request -> Reply<T>, cursor: Cursor,
                 filters: map<string, string>, limit: Option<int>, offset: int, pageSize: int, fuel: nat)
    requires fuel > 0 && server(Request(filters, RequestLimit(limit, pageSize), offset)).Page?
    ensures var req := Request(filters, RequestLimit(limit, pageSize), offset);
            Prepend(requests, items, RestOfRun(server, cursor, filters, limit, offset, pageSize, fuel))
            == Prepend(requests + [req], items + server(req).items,
                       RestAfterPage(server, cursor, filters, limit, offset, pageSize, fuel - 1, server(req).items, server(req).header))
  {
    var req := Request(filters, RequestLimit(limit, pageSize), offset);
    PrependThen(requests, items, req, server(req).items,
                AfterPage(server, cursor, filters, limit, offset, pageSize, fuel - 1, server(req).items, server(req).header));
  }

  /** The ways the loop leaves or continues after a page. */
  lemma AfterCases<T>(server: Request -> Reply<T>, cursor: Cursor, filters: map<string, string>,
                      limit: Option<int>, offset: int, pageSize: int, fuel: nat,
                      items: seq<T>, header: Option<string>)
    ensures var rest := RestAfterPage(server, cursor, filters, limit, offset, pageSize, fuel, items, header);
            var limit' := Remaining(limit, |items|);
            var parsed := cursor(header.GetOr(""));
            && (Truthy(limit) && limit'.value <= 0 ==> rest == Run([], [], Completed))
            && (!(Truthy(limit) && limit'.value <= 0) && parsed.Failure? ==> rest == Run([], [], Failed(parsed.error)))
            && (!(Truthy(limit) && limit'.value <= 0) && parsed.Success? && offset >= parsed.value.last
                ==> rest == Run([], [], Failed(InvalidRange)))
            && (!(Truthy(limit) && limit'.value <= 0) && parsed.Success? && offset < parsed.value.last
                && parsed.value.last >= parsed.value.count
                ==> rest == Run([], [], Completed))
            && (!(Truthy(limit) && limit'.value <= 0) && parsed.Success? && offset < parsed.value.last
                && parsed.value.last < parsed.value.count
                ==> rest == RestOfRun(server, cursor, filters, limit', parsed.value.last, pageSize, fuel))
  {
  }

  /**
   * The loop of `makePaginatedRequest(options, pageSize)` with the cursor
   * parser as a parameter, issuing at most `fuel` requests. The result is
   * exactly the run `Paginate` describes from the initial state.
   */
  method PaginationLoop<T>(server: Request -> Reply<T>, cursor: Cursor, query: Query, pageSize: int, fuel: nat)
    returns (run: Run<Request, T>)
    ensures run == Paginate(server, cursor, query.filters, InitialLimit(query), InitialOffset(query), pageSize, fuel)
  {
    var limit := InitialLimit(query);
    var offset := InitialOffset(query);
    var requests: seq<Request> := [];
    var items: seq<T> := [];
    var budget := fuel;
    ghost var whole := Paginate(server, cursor, query.filters, limit, offset, pageSize, fuel);
    while true
      invariant whole == Prepend(requests, items, RestOfRun(server, cursor, query.filters, limit, offset, pageSize, budget))
      decreases budget
    {
      if budget == 0 {
        PrependEnd(requests, items, OutOfFuel);
        return Run(requests, items, OutOfFuel);
      }
      var req := Request(query.filters, RequestLimit(limit, pageSize), offset);
      var reply := server(req);
      if reply.RequestFailed? {
        PrependLast(requests, items, req, Failed(reply.error));
        return Run(requests + [req], items, Failed(reply.error));
      }
      Round(requests, items, server, cursor, query.filters, limit, offset, pageSize, budget);
      AfterCases(server, cursor, query.filters, limit, offset, pageSize, budget - 1, reply.items, reply.header);
      requests, items := requests + [req], items + reply.items;
      if Truthy(limit) {
        limit := Some(limit.value - |reply.items|);
        if limit.value <= 0 {
          PrependEnd(requests, items, Completed);
          return Run(requests, items, Completed);
        }
      }
      var parsed := cursor(reply.header.GetOr(""));
      if parsed.Failure? {
        PrependEnd(requests, items, Failed(parsed.error));
        return Run(requests, items, Failed(parsed.error));
      }
      if offset < parsed.value.last {
        offset := parsed.value.last;
        if offset >= parsed.value.count {
          PrependEnd(requests, items, Completed);
          return Run(requests, items, Completed);
        }
      } else {
        PrependEnd(requests, items, Failed(InvalidRange));
        return Run(requests, items, Failed(InvalidRange));
      }
      budget := budget - 1;
    }
  }

  /** `makePaginatedRequest(options, pageSize)`: the loop reading cursors with `ContentRange.parse`. */
  method MakePaginatedRequest<T>(server: Request -> Reply<T>, query: Query, pageSize: int, fuel: nat)
    returns (run: Run<Request, T>)
    ensures run == Paginate(server, ContentRanges.Parse, query.filters, InitialLimit(query), InitialOffset(query), pageSize, fuel)
  {
    run := PaginationLoop(server, ContentRanges.Parse, query, pageSize, fuel);
  }

  /**
   * After a page the loop either stops without another request, or goes on
   * from a strictly larger offset (the page's `last`) with the remaining limit,
   * which is still positive when a limit is set.
   */
  lemma AfterPageSteps<T>(server: Request -> Reply<T>, cursor: Cursor, filters: map<string, string>,
                          limit: Option<int>, offset: int, pageSize: int, fuel: nat,
                          items: seq<T>, header: Option<string>) returns (next: int)
    ensures var rest := AfterPage(server, cursor, filters, limit, offset, pageSize, fuel, items, header);
            || (rest.requests == [] && rest.items == [])
            || (&& offset < next
                && (Truthy(limit) ==> Remaining(limit, |items|).value > 0)
                && rest == Paginate(server, cursor, filters, Remaining(limit, |items|), next, pageSize, fuel))
  {
    next := offset;
    var limit' := Remaining(limit, |items|);
    if !(Truthy(limit) && limit'.value <= 0) && cursor(header.GetOr("")).Success? {
      next := cursor(header.GetOr("")).value.last;
    }
  }

  /**
   * A run yields exactly the items of the replies to the requests it issued,
   * in order; every request but the last one was answered with a page.
   */
  lemma {:induction false} PaginateYieldsReplies<T>(server: Request -> Reply<T>, cursor: Cursor,
                                                    filters: map<string, string>, limit: Option<int>,
                                                    offset: int, pageSize: int, fuel: nat)
    ensures var run := Paginate(server, cursor, filters, limit, offset, pageSize, fuel);
            && run.items == Yielded(server, run.requests)
            && forall i :: 0 <= i < |run.requests| - 1 ==> server(run.requests[i]).Page?
    decreases fuel
  {
    if fuel > 0 {
      var req := Request(filters, RequestLimit(limit, pageSize), offset);
      match server(req)
      case RequestFailed(e) =>
        assert Yielded(server, [req]) == [] + Yielded(server, []);
      case Page(items, header) =>
        var rest := AfterPage(server, cursor, filters, limit, offset, pageSize, fuel - 1, items, header);
        var next := AfterPageSteps(server, cursor, filters, limit, offset, pageSize, fuel - 1, items, header);
        if rest.requests != [] {
          PaginateYieldsReplies(server, cursor, filters, Remaining(limit, |items|), next, pageSize, fuel - 1);
        }
        var run := Then(req, items, rest);
        assert run.requests[1..] == rest.requests;
        assert run.items == Yielded(server, run.requests);
    }
  }

  /**
   * The requests a run from (`limit`, `offset`) issues: every one keeps the
   * caller's other fields and asks for at most `pageSize` items and at most the
   * limit; the first one is at `offset` and the offsets strictly increase.
   */
  predicate RequestsFrom(reqs: seq<Request>, filters: map<string, string>, limit: Option<int>, offset: int, pageSize: int)
  {
    && (forall i :: 0 <= i < |reqs| ==> reqs[i].filters == filters && reqs[i].limit <= pageSize && offset <= reqs[i].offset)
    && (Truthy(limit) ==> forall i :: 0 <= i < |reqs| ==> reqs[i].limit <= limit.value)
    && (forall i :: 0 < i < |reqs| ==> reqs[i - 1].offset < reqs[i].offset)
    && (|reqs| > 0 ==> reqs[0] == Request(filters, RequestLimit(limit, pageSize), offset))
  }

  lemma RequestsFromThen(req: Request, rest: seq<Request>, filters: map<string, string>, limit: Option<int>,
                         limit': Option<int>, offset: int, next: int, pageSize: int)
    requires req == Request(filters, RequestLimit(limit, pageSize), offset)
    requires RequestsFrom(rest, filters, limit', next, pageSize)
    requires offset < next
    requires Truthy(limit) ==> Truthy(limit') && limit'.value <= limit.value
    ensures RequestsFrom([req] + rest, filters, limit, offset, pageSize)
  {
    var reqs := [req] + rest;
    assert forall i :: 0 < i < |reqs| ==> reqs[i] == rest[i - 1];
  }

  lemma {:induction false} PaginateRequests<T>(server: Request -> Reply<T>, cursor: Cursor,
                                               filters: map<string, string>, limit: Option<int>,
                                               offset: int, pageSize: int, fuel: nat)
    ensures RequestsFrom(Paginate(server, cursor, filters, limit, offset, pageSize, fuel).requests,
                         filters, limit, offset, pageSize)
    decreases fuel
  {
    if fuel > 0 {
      var req := Request(filters, RequestLimit(limit, pageSize), offset);
      match server(req)
      case RequestFailed(e) =>
      case Page(items, header) =>
        var rest := AfterPage(server, cursor, filters, limit, offset, pageSize, fuel - 1, items, header);
        var next := AfterPageSteps(server, cursor, filters, limit, offset, pageSize, fuel - 1, items, header);
        if rest.requests != [] {
          PaginateRequests(server, cursor, filters, Remaining(limit, |items|), next, pageSize, fuel - 1);
          RequestsFromThen(req, rest.requests, filters, limit, Remaining(limit, |items|), offset, next, pageSize);
        } else {
          assert [req] + rest.requests == [req];
        }
    }
  }

  /** Against such a server a run yields no more items than a given limit. */
  lemma {:induction false} PaginateWithinLimit<T>(server: Request -> Reply<T>, cursor: Cursor,
                                                  filters: map<string, string>, limit: Option<int>,
                                                  offset: int, pageSize: int, fuel: nat)
    requires Honours(server)
    requires Truthy(limit) && limit.value > 0
    ensures |Paginate(server, cursor, filters, limit, offset, pageSize, fuel).items| <= limit.value
    decreases fuel
  {
    if fuel > 0 {
      var req := Request(filters, RequestLimit(limit, pageSize), offset);
      match server(req)
      case RequestFailed(e) =>
      case Page(items, header) =>
        var rest := AfterPage(server, cursor, filters, limit, offset, pageSize, fuel - 1, items, header);
        var next := AfterPageSteps(server, cursor, filters, limit, offset, pageSize, fuel - 1, items, header);
        if rest.items != [] {
          PaginateWithinLimit(server, cursor, filters, Remaining(limit, |items|), next, pageSize, fuel - 1);
        }
    }
  }

  /**
   * The server of the paginator's tests, holding the records with ids
   * `1..total`: it answers (`limit`, `offset`) with ids `offset + 1` to
   * `min(offset + limit, total)` and the header `items {first}-{last}/{total}`.
   */
  function TestServer(total: nat): Request -> Reply<int> {
    (req: Request) =>
      var first, last := req.offset + 1, Min(req.offset + req.limit, total);
      if first < 0 || last < 0 then RequestFailed("negative window")
      else Page(Ids(first, last + 1), Some(ContentRanges.Format(ContentRanges.ContentRange(first, last, total, "items"))))
  }

  /** Where the test server's run from `offset` ends: at the limit, else at the last record. */
  function TestEnd(total: nat, limit: Option<int>, offset: int): int {
    if Truthy(limit) && offset + limit.value < total then offset + limit.value else total
  }

  /** One request answered with a page whose cursor parses: the run yields the page and goes on as `AfterPage` says. */
  lemma PaginateStep<T>(server: Request -> Reply<T>, cursor: Cursor, filters: map<string, string>,
                        limit: Option<int>, offset: int, pageSize: int, fuel: nat,
                        items: seq<T>, header: string, range: ContentRanges.ContentRange)
    requires fuel > 0
    requires server(Request(filters, RequestLimit(limit, pageSize), offset)) == Page(items, Some(header))
    requires cursor(header) == Success(range) && offset < range.last
    ensures var limit' := Remaining(limit, |items|);
            Paginate(server, cursor, filters, limit, offset, pageSize, fuel)
            == Then(Request(filters, RequestLimit(limit, pageSize), offset), items,
                    if (Truthy(limit) && limit'.value <= 0) || range.last >= range.count then Run([], [], Completed)
                    else Paginate(server, cursor, filters, limit', range.last, pageSize, fuel - 1))
  {
  }

  lemma TestServerReply(total: nat, req: Request)
    requires 0 <= req.offset && req.limit >= 1
    ensures var last := Min(req.offset + req.limit, total);
            TestServer(total)(req)
            == Page(Ids(req.offset + 1, last + 1),
                    Some(ContentRanges.Format(ContentRanges.ContentRange(req.offset + 1, last, total, "items"))))
  {
  }

  lemma TestHeaderParses(first: nat, last: nat, total: nat)
    ensures var range := ContentRanges.ContentRange(first, last, total, "items");
            ContentRanges.Parse(ContentRanges.Format(range)) == Success(range)
  {
    assert Text.AllWord("items");
    ContentRanges.ParseFormat(ContentRanges.ContentRange(first, last, total, "items"));
  }

  /**
   * A server (read with `cursor`) that holds the records with ids `1..total`
   * and answers every in-range request with the window it asks for and a
   * cursor naming that window, as the test server does.
   */
  ghost predicate ServesRecords(server: Request -> Reply<int>, cursor: Cursor, total: nat) {
    forall req: Request :: ServesWindow(server, cursor, total, req)
  }

  /** The answer such a server gives to `req`. */
  ghost predicate ServesWindow(server: Request -> Reply<int>, cursor: Cursor, total: nat, req: Request) {
    0 <= req.offset < total && req.limit >= 1 ==>
      var last := Min(req.offset + req.limit, total);
      && server(req).Page?
      && server(req).items == Ids(req.offset + 1, last + 1)
      && server(req).header.Some?
      && cursor(server(req).header.value) == Success(ContentRanges.ContentRange(req.offset + 1, last, total, "items"))
  }

  lemma TestServerServes(total: nat)
    ensures ServesRecords(TestServer(total), ContentRanges.Parse, total)
  {
    forall req: Request ensures ServesWindow(TestServer(total), ContentRanges.Parse, total, req) {
      if 0 <= req.offset < total && req.limit >= 1 {
        TestServerReply(total, req);
        TestHeaderParses(req.offset + 1, Min(req.offset + req.limit, total), total);
      }
    }
  }

  /** One page of such a server: the window at `offset`, then a stop or the run from the window's end. */
  lemma ServedPage(server: Request -> Reply<int>, cursor: Cursor, total: nat, filters: map<string, string>,
                   limit: Option<int>, offset: int, pageSize: int, fuel: nat)
    requires ServesRecords(server, cursor, total)
    requires 0 <= offset < total && fuel > 0 && RequestLimit(limit, pageSize) >= 1
    ensures var last := Min(offset + RequestLimit(limit, pageSize), total);
            var limit' := Remaining(limit, last - offset);
            Paginate(server, cursor, filters, limit, offset, pageSize, fuel)
            == Then(Request(filters, RequestLimit(limit, pageSize), offset), Ids(offset + 1, last + 1),
                    if (Truthy(limit) && limit'.value <= 0) || last >= total then Run([], [], Completed)
                    else Paginate(server, cursor, filters, limit', last, pageSize, fuel - 1))
  {
    var req := Request(filters, RequestLimit(limit, pageSize), offset);
    var last := Min(offset + req.limit, total);
    assert ServesWindow(server, cursor, total, req);
    PaginateStep(server, cursor, filters, limit, offset, pageSize, fuel, Ids(offset + 1, last + 1),
                 server(req).header.value, ContentRanges.ContentRange(offset + 1, last, total, "items"));
  }

  /**
   * Against such a server, with enough requests allowed, the paginator
   * yields exactly the ids after `offset`, up to the limit, and completes.
   */
  lemma {:induction false} ServedRun(server: Request -> Reply<int>, cursor: Cursor, total: nat,
                                     filters: map<string, string>, limit: Option<int>,
                                     offset: int, pageSize: int, fuel: nat)
    requires ServesRecords(server, cursor, total)
    requires 0 <= offset < total && pageSize >= 1
    requires Truthy(limit) ==> limit.value > 0
    requires fuel >= total - offset
    ensures var run := Paginate(server, cursor, filters, limit, offset, pageSize, fuel);
            run.items == Ids(offset + 1, TestEnd(total, limit, offset) + 1) && run.outcome == Completed
    decreases fuel
  {
    ServedPage(server, cursor, total, filters, limit, offset, pageSize, fuel);
    var req := Request(filters, RequestLimit(limit, pageSize), offset);
    var last := Min(offset + req.limit, total);
    var limit' := Remaining(limit, last - offset);
    var end := TestEnd(total, limit, offset);
    var stop := (Truthy(limit) && limit'.value <= 0) || last >= total;
    var rest := if stop then Run([], [], Completed)
                else Paginate(server, cursor, filters, limit', last, pageSize, fuel - 1);
    TestWindow(total, limit, offset, pageSize);
    if !stop {
      ServedRun(server, cursor, total, filters, limit', last, pageSize, fuel - 1);
    }
    IdsThen(req, offset, last, end, rest);
  }

  /** The arithmetic of one test-server window: it ends at the run's end, or the rest of the run ends there too. */
  lemma TestWindow(total: nat, limit: Option<int>, offset: int, pageSize: int)
    requires 0 <= offset < total && pageSize >= 1
    requires Truthy(limit) ==> limit.value > 0
    ensures var last := Min(offset + RequestLimit(limit, pageSize), total);
            var limit' := Remaining(limit, last - offset);
            && offset < last <= TestEnd(total, limit, offset)
            && (((Truthy(limit) && limit'.value <= 0) || last >= total) ==> last == TestEnd(total, limit, offset))
            && (!((Truthy(limit) && limit'.value <= 0) || last >= total) ==> TestEnd(total, limit', last) == TestEnd(total, limit, offset))
  {
  }

  lemma IdsThen(req: Request, offset: int, last: int, end: int, rest: Run<Request, int>)
    requires offset <= last <= end
    requires rest.items == Ids(last + 1, end + 1)
    ensures Then(req, Ids(offset + 1, last + 1), rest).items == Ids(offset + 1, end + 1)
  {
    IdsSplit(offset + 1, last + 1, end + 1);
  }

  /**
   * The three complete runs of the paginator's tests, against a server
   * holding `total` = 165 records (the test server is one, by
   * `TestServerServes`) with pages of 100: everything, a limit of 155, and a
   * limit of 155 from offset 5.
   */
  lemma TestRuns(server: Request -> Reply<int>, cursor: Cursor, filters: map<string, string>, total: nat, fuel: nat)
    requires ServesRecords(server, cursor, total)
    requires total == 165 && fuel >= total
    ensures Paginate(server, cursor, filters, None, 0, 100, fuel).items == Ids(1, total + 1)
    ensures Paginate(server, cursor, filters, Some(155), 0, 100, fuel).items == Ids(1, total - 9)
    ensures Paginate(server, cursor, filters, Some(155), 5, 100, fuel).items == Ids(6, total - 4)
  {
    ServedRun(server, cursor, total, filters, None, 0, 100, fuel);
    ServedRun(server, cursor, total, filters, Some(155), 0, 100, fuel);
    ServedRun(server, cursor, total, filters, Some(155), 5, 100, fuel);
  }

  /**
   * A page whose cursor does not parse ends the run with the parse error once
   * its items are yielded, unless the limit was reached first; in particular
   * a reply without a `Content-Range` header does.
   */
  lemma CursorUnreadable<T>(server: Request -> Reply<T>, cursor: Cursor, filters: map<string, string>,
                            limit: Option<int>, offset: int, pageSize: int, fuel: nat,
                            items: seq<T>, header: Option<string>)
    requires fuel > 0
    requires server(Request(filters, RequestLimit(limit, pageSize), offset)) == Page(items, header)
    requires cursor(header.GetOr("")).Failure?
    ensures var run := Paginate(server, cursor, filters, limit, offset, pageSize, fuel);
            && run.requests == [Request(filters, RequestLimit(limit, pageSize), offset)]
            && run.items == items
            && run.outcome == (if Truthy(limit) && limit.value <= |items| then Completed
                               else Failed(cursor(header.GetOr("")).error))
  {
  }

  /** An empty page without a header, as in the paginator's "handles empty results" test, is an error. */
  lemma EmptyPageFails<T>(server: Request -> Reply<T>, filters: map<string, string>,
                          limit: Option<int>, offset: int, pageSize: int, fuel: nat)
    requires fuel > 0 && (Truthy(limit) ==> limit.value > 0)
    requires server(Request(filters, RequestLimit(limit, pageSize), offset)) == Page([], None)
    ensures Paginate(server, ContentRanges.Parse, filters, limit, offset, pageSize, fuel)
         == Run([Request(filters, RequestLimit(limit, pageSize), offset)], [], Failed(ContentRanges.ParseError))
  {
    ContentRanges.ParseRejects();
    CursorUnreadable(server, ContentRanges.Parse, filters, limit, offset, pageSize, fuel, [], None);
  }

  /**
   * A cursor whose `last` is not past the requested offset ends the run with
   * "Invalid content range" once the page is yielded, unless the limit was
   * reached first.
   */
  lemma CursorNotAhead<T>(server: Request -> Reply<T>, cursor: Cursor, filters: map<string, string>,
                          limit: Option<int>, offset: int, pageSize: int, fuel: nat,
                          items: seq<T>, header: string, range: ContentRanges.ContentRange)
    requires fuel > 0
    requires server(Request(filters, RequestLimit(limit, pageSize), offset)) == Page(items, Some(header))
    requires cursor(header) == Success(range) && range.last <= offset
    ensures var run := Paginate(server, cursor, filters, limit, offset, pageSize, fuel);
            && run.requests == [Request(filters, RequestLimit(limit, pageSize), offset)]
            && run.items == items
            && run.outcome == (if Truthy(limit) && limit.value <= |items| then Completed else Failed(InvalidRange))
  {
  }

  /**
   * The "throws when invalid content range" test: from offset 100 with a limit
   * of 100, a page of ids 101..165 labelled `items 1-100/165`.
   */
  lemma InvalidRangeExample(server: Request -> Reply<int>, filters: map<string, string>, fuel: nat)
    requires fuel > 0
    requires server(Request(filters, 100, 100)) == Page(Ids(101, 166), Some("items 1-100/165"))
    ensures Paginate(server, ContentRanges.Parse, filters, Some(100), 100, 100, fuel)
         == Run([Request(filters, 100, 100)], Ids(101, 166), Failed(InvalidRange))
  {
    ContentRanges.ParseExampleStale();
    CursorNotAhead(server, ContentRanges.Parse, filters, Some(100), 100, 100, fuel, Ids(101, 166),
                   "items 1-100/165", ContentRanges.ContentRange(1, 100, 165, "items"));
  }

  /**
   * The cursor read as the source spells it: `headers.get('content-range')`.
   * The second element `makeRequest` resolves to is the plain object
   * `{status_code, headers}`, which has no `get`, so the call throws a
   * TypeError whatever the reply carried. `MakePaginatedRequest` reads the
   * header value instead, as the paginator's tests expect.
   */
  function HeadersGet(header: string): Result<ContentRanges.ContentRange, string> {
    Failure(HeadersGetError)
  }

  /** `makePaginatedRequest` with the cursor read as written. */
  method MakePaginatedRequestAsWritten<T>(server: Request -> Reply<T>, query: Query, pageSize: int, fuel: nat)
    returns (run: Run<Request, T>)
    ensures run == Paginate(server, HeadersGet, query.filters, InitialLimit(query), InitialOffset(query), pageSize, fuel)
  {
    run := PaginationLoop(server, HeadersGet, query, pageSize, fuel);
  }

  /**
   * As written, every run ends after its first request: a transport error
   * propagates; otherwise the page is yielded and the cursor read throws,
   * unless the limit was already reached.
   */
  lemma HeadersGetThrows<T>(server: Request -> Reply<T>, filters: map<string, string>,
                            limit: Option<int>, offset: int, pageSize: int, fuel: nat)
    requires fuel > 0
    ensures var req := Request(filters, RequestLimit(limit, pageSize), offset);
            var run := Paginate(server, HeadersGet, filters, limit, offset, pageSize, fuel);
            && run.requests == [req]
            && (server(req).RequestFailed? ==> run.items == [] && run.outcome == Failed(server(req).error))
            && (server(req).Page? ==>
                  && run.items == server(req).items
                  && run.outcome == (if Truthy(limit) && limit.value <= |server(req).items| then Completed
                                     else Failed(HeadersGetError)))
  {
    var req := Request(filters, RequestLimit(limit, pageSize), offset);
    if server(req).Page? {
      CursorUnreadable(server, HeadersGet, filters, limit, offset, pageSize, fuel, server(req).items, server(req).header);
    }
  }

  /** The "makes requests" test as written: of 165 records only the first page of 100 arrives, then the TypeError. */
  lemma HeadersGetTestRun(filters: map<string, string>, fuel: nat)
    requires fuel > 0
    ensures Paginate(TestServer(165), HeadersGet, filters, None, 0, 100, fuel)
         == Run([Request(filters, 100, 0)], Ids(1, 101), Failed(HeadersGetError))
  {
    TestServerReply(165, Request(filters, 100, 0));
    HeadersGetThrows(TestServer(165), filters, None, 0, 100, fuel);
  }
}
