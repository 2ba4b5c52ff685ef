/**
 * The Python client's paginator and its split-based `Content-Range` reader
 * (`src_py/grndwork_api_client/make_request.py`). Unlike the current
 * JavaScript paginator it stops when `last == count`, never checks that the
 * offset advances, and sizes each request by the limit left before the page.
 */
module PyMakeRequest {
  import opened Wrappers
  import opened Paging
  import opened Text
  import ContentRanges

  /** The `ContentRange` dataclass, fields in declaration order. */
  datatype ContentRange = ContentRange(count: int, first: int, last: int)

  /** The exceptions the reader lets through (their messages are not modelled). */
  const IndexError := "IndexError"
  const ValueError := "ValueError"
  const InvalidHeader := "ValueError: Invalid header pagination values"

  /**
   * The ASCII characters `str.strip()` and `int()` treat as whitespace: space,
   * tab, line feed, vertical tab, form feed, carriage return and the four
   * separators `\x1c`-`\x1f`.
   */
  predicate IsSpace(c: char) {
    c == ' ' || c == '\t' || c == '\n' || c == '\r' || c == 11 as char || c == 12 as char
    || (28 as char <= c <= 31 as char)
  }

  /** `s.strip()`: whitespace removed from both ends. */
  function Strip(s: string): (t: string)
    ensures |t| <= |s|
    ensures |t| > 0 ==> !IsSpace(t[0]) && !IsSpace(t[|t| - 1])
    decreases |s|
  {
    if s == [] then s
    else if IsSpace(s[0]) then Strip(s[1..])
    else if IsSpace(s[|s| - 1]) then Strip(s[..|s| - 1])
    else s
  }

  /**
   * `int(s)` on a string: surrounding whitespace, an optional sign, then one
   * or more decimal digits; anything else raises `ValueError`.
   */
  function Int(s: string): (r: Result<int, string>)
    ensures r.Failure? ==> r.error == ValueError
  {
    var t := Strip(s);
    var negative := |t| > 0 && t[0] == '-';
    var digits := if |t| > 0 && (t[0] == '-' || t[0] == '+') then t[1..] else t;
    if |digits| > 0 && AllDigits(digits) then
      var v: int := DigitsValue(digits);
      Success(if negative then -v else v)
    else Failure(ValueError)
  }

  lemma IntOfDigits(s: string)
    requires |s| > 0 && AllDigits(s)
    ensures Int(s) == Success(DigitsValue(s))
  {
    assert IsDigit(s[0]) && IsDigit(s[|s| - 1]);
    StripUnpadded(s);
  }

  /** A string with no whitespace at either end is its own `strip()`. */
  lemma StripUnpadded(s: string)
    requires |s| > 0 && !IsSpace(s[0]) && !IsSpace(s[|s| - 1])
    ensures Strip(s) == s
  {
  }

  /** `int(cont_range.split('/')[1])`. */
  function CountField(h: string): (r: Result<int, string>)
    ensures r.Failure? ==> r.error == IndexError || r.error == ValueError
  {
    var parts := Split(h, '/');
    if |parts| < 2 then Failure(IndexError) else Int(parts[1])
  }

  /** `int(cont_range.replace('items ', '').split('-')[0])`. */
  function FirstField(h: string): (r: Result<int, string>)
    ensures r.Failure? ==> r.error == ValueError
  {
    Int(Split(RemoveAll(h, "items "), '-')[0])
  }

  /** `int(cont_range.replace('items ', '').split('-')[1].split('/')[0])`. */
  function LastField(h: string): (r: Result<int, string>)
    ensures r.Failure? ==> r.error == IndexError || r.error == ValueError
  {
    var parts := Split(RemoveAll(h, "items "), '-');
    if |parts| < 2 then Failure(IndexError) else Int(Split(parts[1], '/')[0])
  }

  /**
   * `parse_content_range(headers)`: `None` for an absent or empty header;
   * otherwise `count`, `first` and `last` are read in that order (the order of
   * the keyword arguments), the first failing step raising its exception.
   */
  function ParseContentRange(header: Option<string>): (r: Result<Option<ContentRange>, string>)
    ensures r.Failure? ==> r.error == IndexError || r.error == ValueError
    ensures (header.None? || header.value == "") <==> r == Success(None)
  {
    if header.None? || header.value == "" then Success(None)
    else
      match CountField(header.value)
      case Failure(e) => Failure(e)
      case Success(count) =>
        match FirstField(header.value)
        case Failure(e) => Failure(e)
        case Success(first) =>
          match LastField(header.value)
          case Failure(e) => Failure(e)
          case Success(last) => Success(Some(ContentRange(count, first, last)))
  }

  lemma CountOfSpell(f: string, l: string, c: string)
    requires Numeral(f) && Numeral(l) && Numeral(c)
    ensures CountField(Spell(f, l, c)) == Success(DigitsValue(c))
  {
    NumeralFree(f);
    NumeralFree(l);
    NumeralFree(c);
    SpellPieces(f, l, c);
    IntOfDigits(c);
    SplitOf("items " + f + "-" + l, '/', c);
    SplitNone(c, '/');
  }

  lemma FieldsOfSpell(f: string, l: string, c: string)
    requires Numeral(f) && Numeral(l) && Numeral(c)
    ensures FirstField(Spell(f, l, c)) == Success(DigitsValue(f))
    ensures LastField(Spell(f, l, c)) == Success(DigitsValue(l))
  {
    NumeralFree(f);
    NumeralFree(l);
    NumeralFree(c);
    SpellPieces(f, l, c);
    IntOfDigits(f);
    IntOfDigits(l);
    var rest := l + ['/'] + c;
    var body := f + ['-'] + rest;
    RemoveAllLeading("items ", body);
    RemoveAllAbsent(body, "items ");
    SplitOf(f, '-', rest);
    SplitNone(rest, '-');
    SplitOf(l, '/', c);
  }

  /** The reader accepts every header of this shape, with the fields in dataclass order. */
  lemma ParseSpell(f: string, l: string, c: string)
    requires Numeral(f) && Numeral(l) && Numeral(c)
    ensures ParseContentRange(Some(Spell(f, l, c)))
         == Success(Some(ContentRange(DigitsValue(c), DigitsValue(f), DigitsValue(l))))
  {
    CountOfSpell(f, l, c);
    FieldsOfSpell(f, l, c);
  }

  /** Round trip: the reader recovers the three numbers the server wrote. */
  lemma ParseFormat(first: nat, last: nat, count: nat)
    ensures ParseContentRange(Some(Format(first, last, count))) == Success(Some(ContentRange(count, first, last)))
  {
    NatToStringDenotes(first);
    NatToStringDenotes(last);
    NatToStringDenotes(count);
    ParseSpell(NatToString(first), NatToString(last), NatToString(count));
  }

  /** The reader's test headers. */
  lemma ParseExampleSingle()
    ensures ParseContentRange(Some("items 1-1/1")) == Success(Some(ContentRange(1, 1, 1)))
  {
    ContentRanges.DigitsExamples();
    assert Spell("1", "1", "1") == "items 1-1/1";
    ParseSpell("1", "1", "1");
  }

  lemma ParseExampleFirstPage()
    ensures ParseContentRange(Some("items 1-20/65")) == Success(Some(ContentRange(65, 1, 20)))
  {
    ContentRanges.DigitsExamples();
    assert Spell("1", "20", "65") == "items 1-20/65";
    ParseSpell("1", "20", "65");
  }

  lemma ParseExampleLaterPage()
    ensures ParseContentRange(Some("items 6-25/65")) == Success(Some(ContentRange(65, 6, 25)))
  {
    ContentRanges.DigitsExamples();
    assert Spell("6", "25", "65") == "items 6-25/65";
    ParseSpell("6", "25", "65");
  }

  /** The headers of the paginator's tests. */
  lemma ParseExampleLastRecord()
    ensures ParseContentRange(Some("items 6-25/25")) == Success(Some(ContentRange(25, 6, 25)))
  {
    assert Spell("6", "25", "25") == "items 6-25/25";
    ContentRanges.DigitsExamples();
    ParseSpell("6", "25", "25");
  }

  lemma ParseExampleMiddle()
    ensures ParseContentRange(Some("items 26-45/65")) == Success(Some(ContentRange(65, 26, 45)))
  {
    assert Spell("26", "45", "65") == "items 26-45/65";
    ContentRanges.DigitsExamples();
    ContentRanges.MoreDigitsExamples();
    ParseSpell("26", "45", "65");
  }

  lemma ParseExampleEnd()
    ensures ParseContentRange(Some("items 46-65/65")) == Success(Some(ContentRange(65, 46, 65)))
  {
    assert Spell("46", "65", "65") == "items 46-65/65";
    ContentRanges.DigitsExamples();
    ContentRanges.MoreDigitsExamples();
    ParseSpell("46", "65", "65");
  }

  lemma ParseExampleLimitFirst()
    ensures ParseContentRange(Some("items 1-20/105")) == Success(Some(ContentRange(105, 1, 20)))
  {
    assert Spell("1", "20", "105") == "items 1-20/105";
    ContentRanges.DigitsExamples();
    ContentRanges.MoreDigitsExamples();
    ParseSpell("1", "20", "105");
  }

  lemma ParseExampleLimitSecond()
    ensures ParseContentRange(Some("items 21-40/105")) == Success(Some(ContentRange(105, 21, 40)))
  {
    assert Spell("21", "40", "105") == "items 21-40/105";
    ContentRanges.DigitsExamples();
    ContentRanges.MoreDigitsExamples();
    ParseSpell("21", "40", "105");
  }

  lemma ParseExampleLimitLast()
    ensures ParseContentRange(Some("items 41-41/105")) == Success(Some(ContentRange(105, 41, 41)))
  {
    assert Spell("41", "41", "105") == "items 41-41/105";
    ContentRanges.DigitsExamples();
    ContentRanges.MoreDigitsExamples();
    ParseSpell("41", "41", "105");
  }

  lemma ParseExampleUnfinished()
    ensures ParseContentRange(Some("items 1-1/2")) == Success(Some(ContentRange(2, 1, 1)))
  {
    assert Spell("1", "1", "2") == "items 1-1/2";
    ContentRanges.DigitsExamples();
    ParseSpell("1", "1", "2");
  }

  /**
   * Malformed headers raise rather than yield `None`: without a `/` the count
   * lookup raises `IndexError`, and a non-numeric count raises `ValueError`.
   * The `except (AttributeError, KeyError)` clause never applies to a string.
   * Here: without a `/` the count lookup `split('/')[1]` raises `IndexError`.
   */
  lemma ParseRejectsNoSlash(h: string)
    requires h != "" && '/' !in h
    ensures ParseContentRange(Some(h)) == Failure(IndexError)
  {
    SplitNone(h, '/');
  }

  /** A count that `int()` refuses raises `ValueError` before the other fields are read. */
  lemma ParseRejectsCount(x: string, y: string)
    requires '/' !in x && '/' !in y && Int(y).Failure?
    ensures ParseContentRange(Some(x + "/" + y)) == Failure(ValueError)
  {
    assert x + "/" + y == x + ['/'] + y;
    SplitOf(x, '/', y);
    SplitNone(y, '/');
  }

  /** The reader's malformed test headers: a bare unit, and letters for the positions. */
  lemma ParseRejectsBareUnit()
    ensures ParseContentRange(Some("items")) == Failure(IndexError)
  {
    ParseRejectsNoSlash("items");
  }

  lemma ParseRejectsLetters()
    ensures ParseContentRange(Some("items a-b/c")) == Failure(ValueError)
  {
    StripUnpadded("c");
    assert !IsDigit('c');
    ParseRejectsCount("items a-b", "c");
    assert "items a-b" + "/" + "c" == "items a-b/c";
  }

  /** What the paginator reads a reply's headers with. */
  type Reader = Option<string> -> Result<Option<ContentRange>, string>

  /**
   * The requests and yields of `make_paginated_request` from the loop state
   * (`limit`, `offset`), issuing at most `fuel` requests and reading each
   * reply's `Content-Range` with `read`.
   */
  function Paginate<T>(server: Request -> Reply<T>, read: Reader, filters: map<string, string>,
                       limit: Option<int>, offset: int, pageSize: int, fuel: nat): Run<Request, T>
    decreases fuel, 0
  {
    if fuel == 0 then Run([], [], OutOfFuel)
    else
      var req := Request(filters, RequestLimit(limit, pageSize), offset);
      match server(req)
      case RequestFailed(e) => Run([req], [], Failed(e))
      case Page(items, header) =>
        Then(req, items, AfterPage(server, read, filters, limit, pageSize, fuel - 1, items, header))
  }

  /** What the loop does once a page of `items` has been yielded. */
  function AfterPage<T>(server: Request -> Reply<T>, read: Reader, filters: map<string, string>,
                        limit: Option<int>, pageSize: int, fuel: nat,
                        items: seq<T>, header: Option<string>): Run<Request, T>
    decreases fuel, 1
  {
    match read(header)
    case Failure(e) => Run([], [], Failed(e))
    case Success(None) => Run([], [], Failed(InvalidHeader))
    case Success(Some(range)) =>
      if range.last == range.count then Run([], [], Completed)
      else
        var limit' := LimitAfter(limit, |items|);
        if limit'.Some? && limit'.value <= 0 then Run([], [], Completed)
        else Paginate(server, read, filters, limit', range.last, pageSize, fuel)
  }

  /**
   * The rest of the loop's run from the state it is in. A name of its own,
   * so that the loop invariant unfolds `Paginate` no further than the step
   * lemmas need.
   */
  ghost function RestOfRun<T>(server: Request -> Reply<T>, read: Reader, filters: map<string, string>,
                              limit: Option<int>, offset: int, pageSize: int, fuel: nat): Run<Request, T>
  {
    Paginate(server, read, filters, limit, offset, pageSize, fuel)
  }

  /** What follows a page, as `AfterPage` says; a name of its own, like `RestOfRun`. */
  ghost function RestAfterPage<T>(server: Request -> Reply<T>, read: Reader, filters: map<string, string>,
                                  limit: Option<int>, pageSize: int, fuel: nat,
                                  items: seq<T>, header: Option<string>): Run<Request, T>
  {
    AfterPage(server, read, filters, limit, pageSize, fuel, items, header)
  }

  /** One request answered with a page: the request and the page join the prefix, and what follows the page remains. */
  lemma Round<T>(requests: seq<Request>, items: seq<T>, server: Request -> Reply<T>, read: Reader,
                 filters: map<string, string>, limit: Option<int>, offset: int, pageSize: int, fuel: nat)
    requires fuel > 0 && server(Request(filters, RequestLimit(limit, pageSize), offset)).Page?
    ensures var req := Request(filters, RequestLimit(limit, pageSize), offset);
            Prepend(requests, items, RestOfRun(server, read, filters, limit, offset, pageSize, fuel))
            == Prepend(requests + [req], items + server(req).items,
                       RestAfterPage(server, read, filters, limit, pageSize, fuel - 1, server(req).items, server(req).header))
  {
    var req := Request(filters, RequestLimit(limit, pageSize), offset);
    PrependThen(requests, items, req, server(req).items,
                AfterPage(server, read, filters, limit, pageSize, fuel - 1, server(req).items, server(req).header));
  }

  /** The ways the loop leaves or continues after a page. */
  lemma AfterCases<T>(server: Request -> Reply<T>, read: Reader, filters: map<string, string>,
                      limit: Option<int>, pageSize: int, fuel: nat,
                      items: seq<T>, header: Option<string>)
    ensures read(header).Failure?
            ==> RestAfterPage(server, read, filters, limit, pageSize, fuel, items, header) == Run([], [], Failed(read(header).error))
    ensures read(header) == Success(None)
            ==> RestAfterPage(server, read, filters, limit, pageSize, fuel, items, header) == Run([], [], Failed(InvalidHeader))
    ensures read(header).Success? && read(header).value.Some? && read(header).value.value.last == read(header).value.value.count
            ==> RestAfterPage(server, read, filters, limit, pageSize, fuel, items, header) == Run([], [], Completed)
    ensures read(header).Success? && read(header).value.Some? && read(header).value.value.last != read(header).value.value.count
            && limit.Some? && limit.value - |items| <= 0
            ==> RestAfterPage(server, read, filters, limit, pageSize, fuel, items, header) == Run([], [], Completed)
    ensures read(header).Success? && read(header).value.Some? && read(header).value.value.last != read(header).value.value.count
            && !(limit.Some? && limit.value - |items| <= 0)
            ==> RestAfterPage(server, read, filters, limit, pageSize, fuel, items, header)
                == RestOfRun(server, read, filters, LimitAfter(limit, |items|), read(header).value.value.last, pageSize, fuel)
  {
  }

  /**
   * The loop of `make_paginated_request` with the header reader as a
   * parameter, issuing at most `fuel` requests: exactly the run `Paginate`
   * describes from the initial state.
   */
  method PaginationLoop<T>(server: Request -> Reply<T>, read: Reader, query: Query, pageSize: int, fuel: nat)
    returns (run: Run<Request, T>)
    ensures run == Paginate(server, read, query.filters, query.limit, query.offset.GetOr(0), pageSize, fuel)
  {
    var limit := query.limit;
    var offset := query.offset.GetOr(0);
    var requests: seq<Request> := [];
    var items: seq<T> := [];
    var budget := fuel;
    ghost var whole := Paginate(server, read, query.filters, limit, offset, pageSize, fuel);
    while true
      invariant whole == Prepend(requests, items, RestOfRun(server, read, query.filters, limit, offset, pageSize, budget))
      decreases budget
    {
      if budget == 0 {
        PrependEnd(requests, items, OutOfFuel);
        return Run(requests, items, OutOfFuel);
      }
      var queryLimit := pageSize;
      if Truthy(limit) {
        queryLimit := if limit.value < pageSize then limit.value else pageSize;
      }
      assert queryLimit == RequestLimit(limit, pageSize);
      var req := Request(query.filters, queryLimit, offset);
      var reply := server(req);
      if reply.RequestFailed? {
        PrependLast(requests, items, req, Failed(reply.error));
        return Run(requests + [req], items, Failed(reply.error));
      }
      Round(requests, items, server, read, query.filters, limit, offset, pageSize, budget);
      AfterCases(server, read, query.filters, limit, pageSize, budget - 1, reply.items, reply.header);
      requests, items := requests + [req], items + reply.items;
      var contRange := read(reply.header);
      if contRange.Failure? {
        PrependEnd(requests, items, Failed(contRange.error));
        return Run(requests, items, Failed(contRange.error));
      }
      if contRange.value.None? {
        PrependEnd(requests, items, Failed(InvalidHeader));
        return Run(requests, items, Failed(InvalidHeader));
      }
      var range := contRange.value.value;
      if range.last == range.count {
        PrependEnd(requests, items, Completed);
        return Run(requests, items, Completed);
      }
      if limit.Some? {
        limit := Some(limit.value - |reply.items|);
        if limit.value <= 0 {
          PrependEnd(requests, items, Completed);
          return Run(requests, items, Completed);
        }
      }
      offset := range.last;
      budget := budget - 1;
    }
  }

  /** `make_paginated_request(url, token=…, page_size=…, query=…)`: the loop reading headers with `parse_content_range`. */
  method MakePaginatedRequest<T>(server: Request -> Reply<T>, query: Query, pageSize: int, fuel: nat)
    returns (run: Run<Request, T>)
    ensures run == Paginate(server, ParseContentRange, query.filters, query.limit, query.offset.GetOr(0), pageSize, fuel)
  {
    run := PaginationLoop(server, ParseContentRange, query, pageSize, fuel);
  }

  /**
   * After a page the loop either stops without another request, or goes on
   * from the page's `last` with the decremented limit, which is then still
   * positive when a limit is set.
   */
  lemma AfterPageSteps<T>(server: Request -> Reply<T>, read: Reader, filters: map<string, string>,
                          limit: Option<int>, pageSize: int, fuel: nat,
                          items: seq<T>, header: Option<string>) returns (next: int)
    ensures var rest := AfterPage(server, read, filters, limit, pageSize, fuel, items, header);
            || (rest.requests == [] && rest.items == [])
            || (&& (limit.Some? ==> LimitAfter(limit, |items|).value > 0)
                && rest == Paginate(server, read, filters, LimitAfter(limit, |items|), next, pageSize, fuel))
  {
    next := 0;
    if read(header).Success? && read(header).value.Some? {
      next := read(header).value.value.last;
    }
  }

  /**
   * A run yields exactly the items of the replies to the requests it issued,
   * in order; every request but the last one was answered with a page.
   */
  lemma {:induction false} PaginateYieldsReplies<T>(server: Request -> Reply<T>, read: Reader,
                                                    filters: map<string, string>, limit: Option<int>,
                                                    offset: int, pageSize: int, fuel: nat)
    ensures var run := Paginate(server, read, filters, limit, offset, pageSize, fuel);
            && run.items == Yielded(server, run.requests)
            && forall i :: 0 <= i < |run.requests| - 1 ==> server(run.requests[i]).Page?
    decreases fuel
  {
    if fuel > 0 {
      var req := Request(filters, RequestLimit(limit, pageSize), offset);
      match server(req)
      case RequestFailed(e) =>
        assert Yielded(server, [req]) == [] + Yielded(server, []);
      case Page(items, header) =>
        var rest := AfterPage(server, read, filters, limit, pageSize, fuel - 1, items, header);
        var next := AfterPageSteps(server, read, filters, limit, pageSize, fuel - 1, items, header);
        if rest.requests != [] {
          PaginateYieldsReplies(server, read, filters, LimitAfter(limit, |items|), next, pageSize, fuel - 1);
        }
        var run := Then(req, items, rest);
        assert run.requests[1..] == rest.requests;
        assert run.items == Yielded(server, run.requests);
    }
  }

  /**
   * The requests a run from (`limit`, `offset`) issues: every one keeps the
   * caller's other fields and asks for at most `pageSize` items, and at most
   * the limit when that is truthy; the first one is at `offset`. Later offsets
   * are whatever the server's `last` said: nothing orders them.
   */
  predicate RequestsFrom(reqs: seq<Request>, filters: map<string, string>, limit: Option<int>, offset: int, pageSize: int)
  {
    && (forall i :: 0 <= i < |reqs| ==> reqs[i].filters == filters && reqs[i].limit <= pageSize)
    && (Truthy(limit) ==> forall i :: 0 <= i < |reqs| ==> reqs[i].limit <= limit.value)
    && (|reqs| > 0 ==> reqs[0] == Request(filters, RequestLimit(limit, pageSize), offset))
  }

  lemma RequestsFromThen(req: Request, rest: seq<Request>, filters: map<string, string>, limit: Option<int>,
                         limit': Option<int>, offset: int, next: int, pageSize: int)
    requires req == Request(filters, RequestLimit(limit, pageSize), offset)
    requires RequestsFrom(rest, filters, limit', next, pageSize)
    requires Truthy(limit) ==> Truthy(limit') && limit'.value <= limit.value
    ensures RequestsFrom([req] + rest, filters, limit, offset, pageSize)
  {
    var reqs := [req] + rest;
    assert forall i :: 0 < i < |reqs| ==> reqs[i] == rest[i - 1];
  }

  lemma {:induction false} PaginateRequests<T>(server: Request -> Reply<T>, read: Reader,
                                               filters: map<string, string>, limit: Option<int>,
                                               offset: int, pageSize: int, fuel: nat)
    ensures RequestsFrom(Paginate(server, read, filters, limit, offset, pageSize, fuel).requests,
                         filters, limit, offset, pageSize)
    decreases fuel
  {
    if fuel > 0 {
      var req := Request(filters, RequestLimit(limit, pageSize), offset);
      match server(req)
      case RequestFailed(e) =>
      case Page(items, header) =>
        var rest := AfterPage(server, read, filters, limit, pageSize, fuel - 1, items, header);
        var next := AfterPageSteps(server, read, filters, limit, pageSize, fuel - 1, items, header);
        if rest.requests != [] {
          PaginateRequests(server, read, filters, LimitAfter(limit, |items|), next, pageSize, fuel - 1);
          RequestsFromThen(req, rest.requests, filters, limit, LimitAfter(limit, |items|), offset, next, pageSize);
        } else {
          assert [req] + rest.requests == [req];
        }
    }
  }

  /** Against a server that never sends more than asked for, a run yields no more items than a positive limit. */
  lemma {:induction false} PaginateWithinLimit<T>(server: Request -> Reply<T>, read: Reader,
                                                  filters: map<string, string>, limit: Option<int>,
                                                  offset: int, pageSize: int, fuel: nat)
    requires Honours(server)
    requires limit.Some? && limit.value > 0
    ensures |Paginate(server, read, filters, limit, offset, pageSize, fuel).items| <= limit.value
    decreases fuel
  {
    if fuel > 0 {
      var req := Request(filters, RequestLimit(limit, pageSize), offset);
      match server(req)
      case RequestFailed(e) =>
      case Page(items, header) =>
        var rest := AfterPage(server, read, filters, limit, pageSize, fuel - 1, items, header);
        var next := AfterPageSteps(server, read, filters, limit, pageSize, fuel - 1, items, header);
        if rest.items != [] {
          PaginateWithinLimit(server, read, filters, LimitAfter(limit, |items|), next, pageSize, fuel - 1);
        }
    }
  }

  /**
   * A limit of `0` is falsy for sizing, so the one request asks for a whole
   * page, but it is not `None`, so it drops below zero after that page and
   * the loop stops whatever the range says.
   */
  lemma ZeroLimitOnePage<T>(server: Request -> Reply<T>, read: Reader, filters: map<string, string>,
                            offset: int, pageSize: int, fuel: nat, items: seq<T>, header: Option<string>,
                            range: ContentRange)
    requires fuel >= 1
    requires server(Request(filters, pageSize, offset)) == Page(items, header)
    requires read(header) == Success(Some(range))
    ensures Paginate(server, read, filters, Some(0), offset, pageSize, fuel)
         == Run([Request(filters, pageSize, offset)], items, Completed)
  {
  }

  /**
   * The reader's failures and a missing header end the run with the page
   * already yielded: an exception, or "Invalid header pagination values" for
   * `None`.
   */
  lemma HeaderFails<T>(server: Request -> Reply<T>, filters: map<string, string>, limit: Option<int>,
                       offset: int, pageSize: int, fuel: nat, items: seq<T>, header: Option<string>)
    requires fuel >= 1
    requires server(Request(filters, RequestLimit(limit, pageSize), offset)) == Page(items, header)
    requires ParseContentRange(header).Failure? || header.None? || header == Some("")
    ensures var run := Paginate(server, ParseContentRange, filters, limit, offset, pageSize, fuel);
            && run.requests == [Request(filters, RequestLimit(limit, pageSize), offset)] && run.items == items
            && run.outcome == Failed(if header.None? || header == Some("") then InvalidHeader
                                     else ParseContentRange(header).error)
  {
  }

  /*
   * The paginator's tests, for any reader that reads their headers as
   * `parse_content_range` does (`ParseExampleLaterPage`, `ParseExampleLastRecord`,
   * `ParseExampleMiddle`, `ParseExampleEnd`, `ParseExampleLimitFirst`,
   * `ParseExampleLimitSecond`, `ParseExampleLimitLast` and
   * `ParseExampleUnfinished` show that it does).
   */

  /** One page whose range ends at the count: a single request, then the loop breaks. */
  lemma LastRecordReached<T>(server: Request -> Reply<T>, read: Reader, filters: map<string, string>,
                             page: seq<T>, h: string, fuel: nat)
    requires fuel >= 1
    requires server(Request(filters, 20, 5)) == Page(page, Some(h))
    requires read(Some(h)) == Success(Some(ContentRange(25, 6, 25)))
    ensures Paginate(server, read, filters, None, 5, 20, fuel) == Run([Request(filters, 20, 5)], page, Completed)
  {
  }

  /**
   * Offsets follow each page's `last` with the page size unchanged while no
   * limit is set: requests at offsets 5, 25 and 45 and all 60 items, then the
   * range reaches the count.
   */
  lemma UpdatesOffset<T>(server: Request -> Reply<T>, read: Reader, filters: map<string, string>,
                         p1: seq<T>, p2: seq<T>, p3: seq<T>, h1: string, h2: string, h3: string, fuel: nat)
    requires fuel >= 3
    requires server(Request(filters, 20, 5)) == Page(p1, Some(h1))
    requires server(Request(filters, 20, 25)) == Page(p2, Some(h2))
    requires server(Request(filters, 20, 45)) == Page(p3, Some(h3))
    requires read(Some(h1)) == Success(Some(ContentRange(65, 6, 25)))
    requires read(Some(h2)) == Success(Some(ContentRange(65, 26, 45)))
    requires read(Some(h3)) == Success(Some(ContentRange(65, 46, 65)))
    ensures Paginate(server, read, filters, None, 5, 20, fuel)
         == Run([Request(filters, 20, 5), Request(filters, 20, 25), Request(filters, 20, 45)], p1 + p2 + p3, Completed)
  {
    var r3 := Paginate(server, read, filters, None, 45, 20, fuel - 2);
    assert AfterPage(server, read, filters, None, 20, fuel - 3, p3, Some(h3)) == Run([], [], Completed);
    assert r3 == Then(Request(filters, 20, 45), p3, Run([], [], Completed));
    assert p3 + [] == p3;
    var r2 := Paginate(server, read, filters, None, 25, 20, fuel - 1);
    assert AfterPage(server, read, filters, None, 20, fuel - 2, p2, Some(h2)) == r3;
    assert r2 == Then(Request(filters, 20, 25), p2, r3);
    assert AfterPage(server, read, filters, None, 20, fuel - 1, p1, Some(h1)) == r2;
    assert Paginate(server, read, filters, None, 5, 20, fuel) == Then(Request(filters, 20, 5), p1, r2);
    assert p1 + (p2 + p3) == p1 + p2 + p3;
  }

  /**
   * A limit of 41 with pages of 20: the third request asks for the one item
   * left, and the loop stops once the limit is used up although the range has
   * not reached the count.
   */
  lemma LimitReached<T>(server: Request -> Reply<T>, read: Reader, filters: map<string, string>,
                        p1: seq<T>, p2: seq<T>, p3: seq<T>, h1: string, h2: string, h3: string, fuel: nat)
    requires fuel >= 3 && |p1| == 20 && |p2| == 20 && |p3| == 1
    requires server(Request(filters, 20, 0)) == Page(p1, Some(h1))
    requires server(Request(filters, 20, 20)) == Page(p2, Some(h2))
    requires server(Request(filters, 1, 40)) == Page(p3, Some(h3))
    requires read(Some(h1)) == Success(Some(ContentRange(105, 1, 20)))
    requires read(Some(h2)) == Success(Some(ContentRange(105, 21, 40)))
    requires read(Some(h3)) == Success(Some(ContentRange(105, 41, 41)))
    ensures Paginate(server, read, filters, Some(41), 0, 20, fuel)
         == Run([Request(filters, 20, 0), Request(filters, 20, 20), Request(filters, 1, 40)], p1 + p2 + p3, Completed)
  {
    var r3 := Paginate(server, read, filters, Some(1), 40, 20, fuel - 2);
    assert AfterPage(server, read, filters, Some(1), 20, fuel - 3, p3, Some(h3)) == Run([], [], Completed);
    assert r3 == Then(Request(filters, 1, 40), p3, Run([], [], Completed));
    assert p3 + [] == p3;
    var r2 := Paginate(server, read, filters, Some(21), 20, 20, fuel - 1);
    assert AfterPage(server, read, filters, Some(21), 20, fuel - 2, p2, Some(h2)) == r3;
    assert r2 == Then(Request(filters, 20, 20), p2, r3);
    assert AfterPage(server, read, filters, Some(41), 20, fuel - 1, p1, Some(h1)) == r2;
    assert Paginate(server, read, filters, Some(41), 0, 20, fuel) == Then(Request(filters, 20, 0), p1, r2);
    assert p1 + (p2 + p3) == p1 + p2 + p3;
  }

  /**
   * Nothing checks that the offset advances: a server that keeps answering
   * `items 1-1/2` keeps the loop requesting offset 1 for as long as the
   * budget lasts (the current JavaScript paginator throws instead).
   */
  lemma {:induction false} NoProgressCheck<T>(server: Request -> Reply<T>, read: Reader, filters: map<string, string>,
                                              page: seq<T>, h: string, offset: int, pageSize: int, fuel: nat)
    requires forall req :: server(req) == Page(page, Some(h))
    requires read(Some(h)) == Success(Some(ContentRange(2, 1, 1)))
    ensures var run := Paginate(server, read, filters, None, offset, pageSize, fuel);
            run.outcome == OutOfFuel && |run.requests| == fuel
    decreases fuel
  {
    if fuel > 0 {
      NoProgressCheck(server, read, filters, page, h, 1, pageSize, fuel - 1);
    }
  }
}
