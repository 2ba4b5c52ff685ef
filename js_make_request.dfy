/**
 * The older JavaScript paginator and its split-based `content-range` reader
 * (`src_js/makeRequest.ts`). Positions are read with `parseInt`, so they may
 * be `NaN`; each request asks for the whole remaining limit (no cap at the
 * page size); the loop stops on `last === count` or an exhausted limit.
 * The reply's header is the value under the lower-case key `content-range`,
 * the only spelling the transport produces (it lower-cases header names).
 */
module JsMakeRequest {
  import opened Wrappers
  import opened Text
  import opened Paging
  import ContentRanges

  /** A JavaScript number as this code can produce it: an integer or `NaN`. */
  datatype JsNum = Num(value: int) | NaN

  /** `a === b` on numbers: `NaN` equals nothing, itself included. */
  predicate StrictEquals(a: JsNum, b: JsNum) {
    a.Num? && b.Num? && a.value == b.value
  }

  /** One issued GET; its offset is the previous range's `last` and may be `NaN`. */
  datatype JsRequest = JsRequest(filters: map<string, string>, limit: int, offset: JsNum)

  /** The `ContentRange` interface, fields in declaration order. */
  datatype ContentRange = ContentRange(count: JsNum, first: JsNum, last: JsNum)

  const TypeError := "TypeError"
  const InvalidHeader := "TypeError: Invalid header pagination values"

  /** The characters `parseInt` skips before the number: white space and line terminators. */
  predicate IsJsSpace(c: char) {
    || c == ' ' || c == '\t' || c == '\n' || c == '\r' || c == 11 as char || c == 12 as char
    || c == 0xA0 as char || c == 0x1680 as char || (0x2000 as char <= c <= 0x200A as char)
    || c == 0x2028 as char || c == 0x2029 as char || c == 0x202F as char || c == 0x205F as char
    || c == 0x3000 as char || c == 0xFEFF as char
  }

  /**
   * `parseInt(s, 10)`: leading white space skipped, an optional sign, then the
   * longest run of decimal digits; whatever follows is ignored, and no digit
   * at all gives `NaN`.
   */
  function ParseInt(s: string): (n: JsNum)
    ensures n.Num? ==> exists i :: 0 <= i < |s| && IsDigit(s[i])
  {
    var t := s[Span(s, IsJsSpace)..];
    var negative := |t| > 0 && t[0] == '-';
    var body := if |t| > 0 && (t[0] == '-' || t[0] == '+') then t[1..] else t;
    var k := Span(body, IsDigit);
    if k == 0 then NaN
    else
      assert IsDigit(body[0]);
      assert s[|s| - |body|] == body[0];
      var v: int := DigitsValue(body[..k]);
      Num(if negative then -v else v)
  }

  /** A numeral followed by anything that does not start with a digit reads as the numeral. */
  lemma ParseIntOfDigits(d: string, rest: string)
    requires Numeral(d)
    requires rest == [] || !IsDigit(rest[0])
    ensures ParseInt(d + rest) == Num(DigitsValue(d))
  {
    assert !IsJsSpace(d[0]) && d[0] != '-' && d[0] != '+' by { assert IsDigit(d[0]); }
    assert forall i :: 0 <= i < |d| ==> IsDigit(d[i]);
    SpanOfPrefix(d, rest, IsDigit);
    assert (d + rest)[..|d|] == d;
  }

  /** `parseInt(rangeVals.split('/')[1], 10)`; a missing piece is `undefined`, which reads as `NaN`. */
  function CountField(h: string): JsNum {
    var parts := Split(h, '/');
    if |parts| < 2 then NaN else ParseInt(parts[1])
  }

  /** `parseInt(rangeVals.replace('items ', '').split('-')[0], 10)`. */
  function FirstField(h: string): JsNum {
    ParseInt(Split(RemoveFirst(h, "items "), '-')[0])
  }

  /**
   * `parseInt(rangeVals.replace('items ', '').split('-')[1].split('/')[0], 10)`:
   * calling `split` on the missing second piece throws a `TypeError`.
   */
  function LastField(h: string): (r: Result<JsNum, string>)
    ensures r.Failure? ==> r.error == TypeError
  {
    var parts := Split(RemoveFirst(h, "items "), '-');
    if |parts| < 2 then Failure(TypeError) else Success(ParseInt(Split(parts[1], '/')[0]))
  }

  /**
   * `parseContentRange(headers)`: `null` exactly when there is no header;
   * otherwise the object literal's fields `count`, `first`, `last` in order,
   * where only the last can throw.
   */
  function ParseContentRange(header: Option<string>): (r: Result<Option<ContentRange>, string>)
    ensures r == Success(None) <==> header.None?
    ensures r.Failure? ==> r.error == TypeError
  {
    if header.None? then Success(None)
    else
      var count := CountField(header.value);
      var first := FirstField(header.value);
      match LastField(header.value)
      case Failure(e) => Failure(e)
      case Success(last) => Success(Some(ContentRange(count, first, last)))
  }

  /** The reader throws exactly when no `-` is left once the first `"items "` is removed. */
  lemma ParseThrowsIffNoDash(h: string)
    ensures ParseContentRange(Some(h)).Failure? <==> '-' !in RemoveFirst(h, "items ")
  {
    SplitFound(RemoveFirst(h, "items "), '-');
  }

  /** So an empty header throws rather than reading as absent. */
  lemma ParseRejectsEmpty()
    ensures ParseContentRange(Some("")) == Failure(TypeError)
  {
    ParseThrowsIffNoDash("");
  }

  lemma ParseIntNumeral(d: string)
    requires Numeral(d)
    ensures ParseInt(d) == Num(DigitsValue(d))
  {
    ParseIntOfDigits(d, []);
    assert d + [] == d;
  }

  lemma CountOfPieces(f: string, l: string, c: string)
    requires Plain(f) && Plain(l) && Plain(c)
    ensures CountField(Spell(f, l, c)) == ParseInt(c)
  {
    SpellPieces(f, l, c);
    SplitOf("items " + f + "-" + l, '/', c);
    SplitNone(c, '/');
  }

  lemma FieldsOfPieces(f: string, l: string, c: string)
    requires Plain(f) && Plain(l) && Plain(c)
    ensures FirstField(Spell(f, l, c)) == ParseInt(f)
    ensures LastField(Spell(f, l, c)) == Success(ParseInt(l))
  {
    SpellPieces(f, l, c);
    var rest := l + ['/'] + c;
    RemoveFirstLeading("items ", f + ['-'] + rest);
    SplitOf(f, '-', rest);
    SplitNone(rest, '-');
    SplitOf(l, '/', c);
  }

  /**
   * Where the reader looks in a spelled header: the count after the `/`, the
   * first position before the `-`, the last between the two, each read with
   * `parseInt`, whatever the pieces hold.
   */
  lemma ParsePieces(f: string, l: string, c: string)
    requires Plain(f) && Plain(l) && Plain(c)
    ensures ParseContentRange(Some(Spell(f, l, c))) == Success(Some(ContentRange(ParseInt(c), ParseInt(f), ParseInt(l))))
  {
    CountOfPieces(f, l, c);
    FieldsOfPieces(f, l, c);
  }

  /** The reader accepts every header of this shape, with the fields in interface order. */
  lemma ParseSpell(f: string, l: string, c: string)
    requires Numeral(f) && Numeral(l) && Numeral(c)
    ensures ParseContentRange(Some(Spell(f, l, c)))
         == Success(Some(ContentRange(Num(DigitsValue(c)), Num(DigitsValue(f)), Num(DigitsValue(l)))))
  {
    NumeralFree(f);
    NumeralFree(l);
    NumeralFree(c);
    ParseIntNumeral(f);
    ParseIntNumeral(l);
    ParseIntNumeral(c);
    ParsePieces(f, l, c);
  }

  /** Round trip: the reader recovers the three numbers the server wrote. */
  lemma ParseFormat(first: nat, last: nat, count: nat)
    ensures ParseContentRange(Some(Format(first, last, count)))
         == Success(Some(ContentRange(Num(count), Num(first), Num(last))))
  {
    NatToStringDenotes(first);
    NatToStringDenotes(last);
    NatToStringDenotes(count);
    ParseSpell(NatToString(first), NatToString(last), NatToString(count));
  }

  /** The reader's test headers. */
  lemma ParseExampleSingle()
    ensures ParseContentRange(Some("items 1-1/1")) == Success(Some(ContentRange(Num(1), Num(1), Num(1))))
  {
    assert Spell("1", "1", "1") == "items 1-1/1";
    ContentRanges.DigitsExamples();
    ParseSpell("1", "1", "1");
  }

  lemma ParseExampleFirstPage()
    ensures ParseContentRange(Some("items 1-20/65")) == Success(Some(ContentRange(Num(65), Num(1), Num(20))))
  {
    assert Spell("1", "20", "65") == "items 1-20/65";
    ContentRanges.DigitsExamples();
    ParseSpell("1", "20", "65");
  }

  lemma ParseExampleLaterPage()
    ensures ParseContentRange(Some("items 6-25/65")) == Success(Some(ContentRange(Num(65), Num(6), Num(25))))
  {
    assert Spell("6", "25", "65") == "items 6-25/65";
    ContentRanges.DigitsExamples();
    ParseSpell("6", "25", "65");
  }

  /** A non-numeric position reads as `NaN` instead of failing. */
  lemma ParseNaNLast()
    ensures ParseContentRange(Some("items 1-x/5")) == Success(Some(ContentRange(Num(5), Num(1), NaN)))
  {
    assert Spell("1", "x", "5") == "items 1-x/5";
    ContentRanges.DigitsExamples();
    assert Span("x", IsJsSpace) == 0 && Span("x", IsDigit) == 0;
    NumeralFree("1");
    NumeralFree("5");
    ParseIntNumeral("1");
    ParseIntNumeral("5");
    ParsePieces("1", "x", "5");
  }

  /** What the paginator reads a reply's headers with. */
  type Reader = Option<string> -> Result<Option<ContentRange>, string>

  /** The size the loop asks for: the remaining limit itself when set, else the page size. */
  function RequestSize(limit: Option<int>, pageSize: int): (n: int)
    ensures limit.Some? ==> n == limit.value
    ensures limit.None? ==> n == pageSize
  {
    limit.GetOr(pageSize)
  }

  /**
   * The requests and yields of `makePaginatedRequest` from the loop state
   * (`limit`, `offset`), issuing at most `fuel` requests.
   */
  function Paginate<T>(server: JsRequest -> Reply<T>, read: Reader, filters: map<string, string>,
                       limit: Option<int>, offset: JsNum, pageSize: int, fuel: nat): Run<JsRequest, T>
    decreases fuel, 0
  {
    if fuel == 0 then Run([], [], OutOfFuel)
    else
      var req := JsRequest(filters, RequestSize(limit, pageSize), offset);
      match server(req)
      case RequestFailed(e) => Run([req], [], Failed(e))
      case Page(items, header) =>
        Then(req, items, AfterPage(server, read, filters, limit, pageSize, fuel - 1, items, header))
  }

  /** What the loop does once a page of `items` has been yielded. */
  function AfterPage<T>(server: JsRequest -> Reply<T>, read: Reader, filters: map<string, string>,
                        limit: Option<int>, pageSize: int, fuel: nat,
                        items: seq<T>, header: Option<string>): Run<JsRequest, T>
    decreases fuel, 1
  {
    match read(header)
    case Failure(e) => Run([], [], Failed(e))
    case Success(None) => Run([], [], Failed(InvalidHeader))
    case Success(Some(range)) =>
      if StrictEquals(range.last, range.count) then Run([], [], Completed)
      else
        var limit' := LimitAfter(limit, |items|);
        if limit'.Some? && limit'.value <= 0 then Run([], [], Completed)
        else Paginate(server, read, filters, limit', range.last, pageSize, fuel)
  }

  /** The loop's start: `query.offset`, or `0` when it is undefined. */
  function InitialOffset(query: Query): (o: JsNum)
    ensures o == Num(query.offset.GetOr(0))
  {
    if query.offset.None? then Num(0) else Num(query.offset.value)
  }

  /**
   * The rest of the loop's run from the state it is in. A name of its own,
   * so that the loop invariant unfolds `Paginate` no further than the step
   * lemmas need.
   */
  ghost function RestOfRun<T>(server: JsRequest -> Reply<T>, read: Reader, filters: map<string, string>,
                              limit: Option<int>, offset: JsNum, pageSize: int, fuel: nat): Run<JsRequest, T>
  {
    Paginate(server, read, filters, limit, offset, pageSize, fuel)
  }

  /** What follows a page, as `AfterPage` says; a name of its own, like `RestOfRun`. */
  ghost function RestAfterPage<T>(server: JsRequest -> Reply<T>, read: Reader, filters: map<string, string>,
                                  limit: Option<int>, pageSize: int, fuel: nat,
                                  items: seq<T>, header: Option<string>): Run<JsRequest, T>
  {
    AfterPage(server, read, filters, limit, pageSize, fuel, items, header)
  }

  /** One request answered with a page: the request and the page join the prefix, and what follows the page remains. */
  lemma Round<T>(requests: seq<JsRequest>, items: seq<T>, server: JsRequest -> Reply<T>, read: Reader,
                 filters: map<string, string>, limit: Option<int>, offset: JsNum, pageSize: int, fuel: nat)
    requires fuel > 0 && server(JsRequest(filters, RequestSize(limit, pageSize), offset)).Page?
    ensures var req := JsRequest(filters, RequestSize(limit, pageSize), offset);
            Prepend(requests, items, RestOfRun(server, read, filters, limit, offset, pageSize, fuel))
            == Prepend(requests + [req], items + server(req).items,
                       RestAfterPage(server, read, filters, limit, pageSize, fuel - 1, server(req).items, server(req).header))
  {
    var req := JsRequest(filters, RequestSize(limit, pageSize), offset);
    PrependThen(requests, items, req, server(req).items,
                AfterPage(server, read, filters, limit, pageSize, fuel - 1, server(req).items, server(req).header));
  }

  /** The ways the loop leaves or continues after a page. */
  lemma AfterCases<T>(server: JsRequest -> Reply<T>, read: Reader, filters: map<string, string>,
                      limit: Option<int>, pageSize: int, fuel: nat,
                      items: seq<T>, header: Option<string>)
    ensures read(header).Failure?
            ==> RestAfterPage(server, read, filters, limit, pageSize, fuel, items, header) == Run([], [], Failed(read(header).error))
    ensures read(header) == Success(None)
            ==> RestAfterPage(server, read, filters, limit, pageSize, fuel, items, header) == Run([], [], Failed(InvalidHeader))
    ensures read(header).Success? && read(header).value.Some?
            && StrictEquals(read(header).value.value.last, read(header).value.value.count)
            ==> RestAfterPage(server, read, filters, limit, pageSize, fuel, items, header) == Run([], [], Completed)
    ensures read(header).Success? && read(header).value.Some?
            && !StrictEquals(read(header).value.value.last, read(header).value.value.count)
            && limit.Some? && limit.value - |items| <= 0
            ==> RestAfterPage(server, read, filters, limit, pageSize, fuel, items, header) == Run([], [], Completed)
    ensures read(header).Success? && read(header).value.Some?
            && !StrictEquals(read(header).value.value.last, read(header).value.value.count)
            && !(limit.Some? && limit.value - |items| <= 0)
            ==> RestAfterPage(server, read, filters, limit, pageSize, fuel, items, header)
                == RestOfRun(server, read, filters, LimitAfter(limit, |items|), read(header).value.value.last, pageSize, fuel)
  {
  }

  /**
   * The loop of `makePaginatedRequest` with the header reader as a parameter,
   * issuing at most `fuel` requests: exactly the run `Paginate` describes.
   */
  method PaginationLoop<T>(server: JsRequest -> Reply<T>, read: Reader, query: Query, pageSize: int, fuel: nat)
    returns (run: Run<JsRequest, T>)
    ensures run == Paginate(server, read, query.filters, query.limit, InitialOffset(query), pageSize, fuel)
  {
    var offset := InitialOffset(query);
    var limit := query.limit;
    var requests: seq<JsRequest> := [];
    var items: seq<T> := [];
    var budget := fuel;
    ghost var whole := Paginate(server, read, query.filters, limit, offset, pageSize, fuel);
    while true
      invariant whole == Prepend(requests, items, RestOfRun(server, read, query.filters, limit, offset, pageSize, budget))
      decreases budget
    {
      if budget == 0 {
        PrependEnd(requests, items, OutOfFuel);
        return Run(requests, items, OutOfFuel);
      }
      var queryLimit := pageSize;
      if limit.Some? {
        queryLimit := limit.value;
      }
      var req := JsRequest(query.filters, queryLimit, offset);
      var reply := server(req);
      if reply.RequestFailed? {
        PrependLast(requests, items, req, Failed(reply.error));
        return Run(requests + [req], items, Failed(reply.error));
      }
      Round(requests, items, server, read, query.filters, limit, offset, pageSize, budget);
      AfterCases(server, read, query.filters, limit, pageSize, budget - 1, reply.items, reply.header);
      requests, items := requests + [req], items + reply.items;
      var contRange := read(reply.header);
      if contRange.Failure? {
        PrependEnd(requests, items, Failed(contRange.error));
        return Run(requests, items, Failed(contRange.error));
      }
      if contRange.value.None? {
        PrependEnd(requests, items, Failed(InvalidHeader));
        return Run(requests, items, Failed(InvalidHeader));
      }
      var range := contRange.value.value;
      if StrictEquals(range.last, range.count) {
        PrependEnd(requests, items, Completed);
        return Run(requests, items, Completed);
      }
      if limit.Some? {
        limit := Some(limit.value - |reply.items|);
        if limit.value <= 0 {
          PrependEnd(requests, items, Completed);
          return Run(requests, items, Completed);
        }
      }
      offset := range.last;
      budget := budget - 1;
    }
  }

  /** `makePaginatedRequest(token, url, pageSize, query)`: the loop reading headers with `parseContentRange`. */
  method MakePaginatedRequest<T>(server: JsRequest -> Reply<T>, query: Query, pageSize: int, fuel: nat)
    returns (run: Run<JsRequest, T>)
    ensures run == Paginate(server, ParseContentRange, query.filters, query.limit, InitialOffset(query), pageSize, fuel)
  {
    run := PaginationLoop(server, ParseContentRange, query, pageSize, fuel);
  }

  /**
   * After a page the loop either stops without another request, or goes on
   * from the range's `last` with the decremented limit, which is then still
   * positive when a limit is set.
   */
  lemma AfterPageSteps<T>(server: JsRequest -> Reply<T>, read: Reader, filters: map<string, string>,
                          limit: Option<int>, pageSize: int, fuel: nat,
                          items: seq<T>, header: Option<string>) returns (next: JsNum)
    ensures var rest := AfterPage(server, read, filters, limit, pageSize, fuel, items, header);
            || (rest.requests == [] && rest.items == [])
            || (&& (limit.Some? ==> LimitAfter(limit, |items|).value > 0)
                && rest == Paginate(server, read, filters, LimitAfter(limit, |items|), next, pageSize, fuel))
  {
    next := NaN;
    if read(header).Success? && read(header).value.Some? {
      next := read(header).value.value.last;
    }
  }

  /**
   * A run yields exactly the items of the replies to the requests it issued,
   * in order; every request but the last one was answered with a page.
   */
  lemma {:induction false} PaginateYieldsReplies<T>(server: JsRequest -> Reply<T>, read: Reader,
                                                    filters: map<string, string>, limit: Option<int>,
                                                    offset: JsNum, pageSize: int, fuel: nat)
    ensures var run := Paginate(server, read, filters, limit, offset, pageSize, fuel);
            && run.items == Yielded(server, run.requests)
            && forall i :: 0 <= i < |run.requests| - 1 ==> server(run.requests[i]).Page?
    decreases fuel
  {
    if fuel > 0 {
      var req := JsRequest(filters, RequestSize(limit, pageSize), offset);
      match server(req)
      case RequestFailed(e) =>
        assert Yielded(server, [req]) == [] + Yielded(server, []);
      case Page(items, header) =>
        var rest := AfterPage(server, read, filters, limit, pageSize, fuel - 1, items, header);
        var next := AfterPageSteps(server, read, filters, limit, pageSize, fuel - 1, items, header);
        if rest.requests != [] {
          PaginateYieldsReplies(server, read, filters, LimitAfter(limit, |items|), next, pageSize, fuel - 1);
        }
        var run := Then(req, items, rest);
        assert run.requests[1..] == rest.requests;
        assert run.items == Yielded(server, run.requests);
    }
  }

  /**
   * The requests a run from (`limit`, `offset`) issues: every one keeps the
   * caller's other fields; without a limit each asks for `pageSize`; with one,
   * each asks for exactly what is left of it after the items of the earlier
   * replies, however large that is. The first one is at `offset`.
   */
  ghost predicate RequestsFrom<T>(server: JsRequest -> Reply<T>, reqs: seq<JsRequest>, filters: map<string, string>,
                                  limit: Option<int>, offset: JsNum, pageSize: int)
  {
    && (forall i :: 0 <= i < |reqs| ==> reqs[i].filters == filters)
    && (limit.None? ==> forall i :: 0 <= i < |reqs| ==> reqs[i].limit == pageSize)
    && (limit.Some? ==> forall i :: 0 <= i < |reqs| ==> reqs[i].limit + |Yielded(server, reqs[..i])| == limit.value)
    && (|reqs| > 0 ==> reqs[0] == JsRequest(filters, RequestSize(limit, pageSize), offset))
  }

  lemma RequestsFromThen<T>(server: JsRequest -> Reply<T>, req: JsRequest, items: seq<T>, header: Option<string>,
                            rest: seq<JsRequest>, filters: map<string, string>, limit: Option<int>,
                            offset: JsNum, next: JsNum, pageSize: int)
    requires req == JsRequest(filters, RequestSize(limit, pageSize), offset)
    requires server(req) == Page(items, header)
    requires RequestsFrom(server, rest, filters, LimitAfter(limit, |items|), next, pageSize)
    ensures RequestsFrom(server, [req] + rest, filters, limit, offset, pageSize)
  {
    var reqs := [req] + rest;
    forall i | 0 < i < |reqs|
      ensures reqs[i] == rest[i - 1]
      ensures Yielded(server, reqs[..i]) == items + Yielded(server, rest[..i - 1])
    {
      assert reqs[..i][1..] == rest[..i - 1];
    }
    assert reqs[..0] == [];
  }

  lemma {:induction false} PaginateRequests<T>(server: JsRequest -> Reply<T>, read: Reader,
                                               filters: map<string, string>, limit: Option<int>,
                                               offset: JsNum, pageSize: int, fuel: nat)
    ensures RequestsFrom(server, Paginate(server, read, filters, limit, offset, pageSize, fuel).requests,
                         filters, limit, offset, pageSize)
    decreases fuel
  {
    if fuel > 0 {
      var req := JsRequest(filters, RequestSize(limit, pageSize), offset);
      match server(req)
      case RequestFailed(e) =>
        assert [req][..0] == [];
      case Page(items, header) =>
        var rest := AfterPage(server, read, filters, limit, pageSize, fuel - 1, items, header);
        var next := AfterPageSteps(server, read, filters, limit, pageSize, fuel - 1, items, header);
        if rest.requests != [] {
          PaginateRequests(server, read, filters, LimitAfter(limit, |items|), next, pageSize, fuel - 1);
          RequestsFromThen(server, req, items, header, rest.requests, filters, limit, offset, next, pageSize);
        } else {
          assert [req] + rest.requests == [req];
          assert [req][..0] == [];
        }
    }
  }

  /**
   * A page without a header is yielded and then the loop throws "Invalid
   * header pagination values"; an empty header throws while being read.
   */
  lemma HeaderMissing<T>(server: JsRequest -> Reply<T>, filters: map<string, string>, limit: Option<int>,
                         offset: JsNum, pageSize: int, fuel: nat, items: seq<T>, header: Option<string>)
    requires fuel >= 1
    requires server(JsRequest(filters, RequestSize(limit, pageSize), offset)) == Page(items, header)
    requires header == None || header == Some("")
    ensures var run := Paginate(server, ParseContentRange, filters, limit, offset, pageSize, fuel);
            && run.requests == [JsRequest(filters, RequestSize(limit, pageSize), offset)] && run.items == items
            && run.outcome == Failed(if header.None? then InvalidHeader else TypeError)
  {
    if header.Some? {
      ParseRejectsEmpty();
    }
    assert [JsRequest(filters, RequestSize(limit, pageSize), offset)] + [] == [JsRequest(filters, RequestSize(limit, pageSize), offset)];
    assert items + [] == items;
  }

  /*
   * The paginator's tests, for any reader that reads their headers as
   * `parseContentRange` does (`ParseSpell` shows that it reads every header
   * `items {first}-{last}/{count}` spelled in digits so).
   */

  /** One page whose range ends at the count: one request, then the loop breaks. */
  lemma LastRecordReached<T>(server: JsRequest -> Reply<T>, read: Reader, filters: map<string, string>,
                             page: seq<T>, h: string, fuel: nat)
    requires fuel >= 1
    requires server(JsRequest(filters, 20, Num(5))) == Page(page, Some(h))
    requires read(Some(h)) == Success(Some(ContentRange(Num(25), Num(6), Num(25))))
    ensures Paginate(server, read, filters, None, Num(5), 20, fuel) == Run([JsRequest(filters, 20, Num(5))], page, Completed)
  {
    assert page + [] == page;
  }

  /** Offsets follow each range's `last`: requests at 5, 25 and 45 and all 60 items. */
  lemma UpdatesOffset<T>(server: JsRequest -> Reply<T>, read: Reader, filters: map<string, string>,
                         p1: seq<T>, p2: seq<T>, p3: seq<T>, h1: string, h2: string, h3: string, fuel: nat)
    requires fuel >= 3
    requires server(JsRequest(filters, 20, Num(5))) == Page(p1, Some(h1))
    requires server(JsRequest(filters, 20, Num(25))) == Page(p2, Some(h2))
    requires server(JsRequest(filters, 20, Num(45))) == Page(p3, Some(h3))
    requires read(Some(h1)) == Success(Some(ContentRange(Num(65), Num(6), Num(25))))
    requires read(Some(h2)) == Success(Some(ContentRange(Num(65), Num(26), Num(45))))
    requires read(Some(h3)) == Success(Some(ContentRange(Num(65), Num(46), Num(65))))
    ensures Paginate(server, read, filters, None, Num(5), 20, fuel)
         == Run([JsRequest(filters, 20, Num(5)), JsRequest(filters, 20, Num(25)), JsRequest(filters, 20, Num(45))],
                p1 + p2 + p3, Completed)
  {
    var r3 := Paginate(server, read, filters, None, Num(45), 20, fuel - 2);
    assert AfterPage(server, read, filters, None, 20, fuel - 3, p3, Some(h3)) == Run([], [], Completed);
    assert r3 == Then(JsRequest(filters, 20, Num(45)), p3, Run([], [], Completed));
    assert p3 + [] == p3;
    var r2 := Paginate(server, read, filters, None, Num(25), 20, fuel - 1);
    assert AfterPage(server, read, filters, None, 20, fuel - 2, p2, Some(h2)) == r3;
    assert r2 == Then(JsRequest(filters, 20, Num(25)), p2, r3);
    assert AfterPage(server, read, filters, None, 20, fuel - 1, p1, Some(h1)) == r2;
    assert Paginate(server, read, filters, None, Num(5), 20, fuel) == Then(JsRequest(filters, 20, Num(5)), p1, r2);
    assert p1 + (p2 + p3) == p1 + p2 + p3;
  }

  /**
   * A limit of 41 with pages of 20: the requests ask for 41, 21 and 1 items,
   * and the loop stops once the limit is used up although the last range
   * (`items 41-60/105`) has not reached the count.
   */
  lemma LimitReached<T>(server: JsRequest -> Reply<T>, read: Reader, filters: map<string, string>,
                        p1: seq<T>, p2: seq<T>, p3: seq<T>, h1: string, h2: string, h3: string, fuel: nat)
    requires fuel >= 3 && |p1| == 20 && |p2| == 20 && |p3| == 1
    requires server(JsRequest(filters, 41, Num(0))) == Page(p1, Some(h1))
    requires server(JsRequest(filters, 21, Num(20))) == Page(p2, Some(h2))
    requires server(JsRequest(filters, 1, Num(40))) == Page(p3, Some(h3))
    requires read(Some(h1)) == Success(Some(ContentRange(Num(105), Num(1), Num(20))))
    requires read(Some(h2)) == Success(Some(ContentRange(Num(105), Num(21), Num(40))))
    requires read(Some(h3)) == Success(Some(ContentRange(Num(105), Num(41), Num(60))))
    ensures Paginate(server, read, filters, Some(41), Num(0), 20, fuel)
         == Run([JsRequest(filters, 41, Num(0)), JsRequest(filters, 21, Num(20)), JsRequest(filters, 1, Num(40))],
                p1 + p2 + p3, Completed)
  {
    var r3 := Paginate(server, read, filters, Some(1), Num(40), 20, fuel - 2);
    assert AfterPage(server, read, filters, Some(1), 20, fuel - 3, p3, Some(h3)) == Run([], [], Completed);
    assert r3 == Then(JsRequest(filters, 1, Num(40)), p3, Run([], [], Completed));
    assert p3 + [] == p3;
    var r2 := Paginate(server, read, filters, Some(21), Num(20), 20, fuel - 1);
    assert AfterPage(server, read, filters, Some(21), 20, fuel - 2, p2, Some(h2)) == r3;
    assert r2 == Then(JsRequest(filters, 21, Num(20)), p2, r3);
    assert AfterPage(server, read, filters, Some(41), 20, fuel - 1, p1, Some(h1)) == r2;
    assert Paginate(server, read, filters, Some(41), Num(0), 20, fuel) == Then(JsRequest(filters, 41, Num(0)), p1, r2);
    assert p1 + (p2 + p3) == p1 + p2 + p3;
  }

  /**
   * A range whose `last` is not a number (`items 1-x/5`, see `ParseNaNLast`)
   * never equals the count, so the loop goes on and sends `NaN` as the next
   * offset.
   */
  lemma NaNOffset<T>(server: JsRequest -> Reply<T>, read: Reader, filters: map<string, string>,
                     page: seq<T>, h: string, pageSize: int, fuel: nat)
    requires fuel >= 2
    requires server(JsRequest(filters, pageSize, Num(0))) == Page(page, Some(h))
    requires read(Some(h)) == Success(Some(ContentRange(Num(5), Num(1), NaN)))
    ensures var run := Paginate(server, read, filters, None, Num(0), pageSize, fuel);
            |run.requests| >= 2 && run.requests[1] == JsRequest(filters, pageSize, NaN)
  {
    var rest := Paginate(server, read, filters, None, NaN, pageSize, fuel - 1);
    assert AfterPage(server, read, filters, None, pageSize, fuel - 1, page, Some(h)) == rest;
    assert rest.requests[0] == JsRequest(filters, pageSize, NaN);
  }
}
