/**
 * What the pagination loops share: the reply an abstract server gives to one
 * request, and the record of a whole run (requests issued, items yielded in
 * order, how it ended). A generator's `yield` is modelled as appending to
 * `items`; an exception thrown after some items were yielded ends the run with
 * those items and `Failed`.
 */
module Paging {
  import opened Wrappers
  import opened Text

  /** The caller's query: `limit` and `offset` (absent = `None`) and every other field, kept opaque. */
  datatype Query = Query(filters: map<string, string>, limit: Option<int>, offset: Option<int>)

  /** One issued GET: the caller's other fields with `limit` and `offset` overridden. */
  datatype Request = Request(filters: map<string, string>, limit: int, offset: int)

  /** JavaScript and Python truthiness of an optional number: absent and `0` are falsy. */
  predicate Truthy(x: Option<int>) {
    x.Some? && x.value != 0
  }

  /**
   * A request's size: `min(limit, pageSize)` when the limit is truthy, else
   * `pageSize` (`limit ? Math.min(limit, pageSize) : pageSize` in JavaScript).
   */
  function RequestLimit(limit: Option<int>, pageSize: int): (n: int)
    ensures n <= pageSize
    ensures Truthy(limit) ==> n <= limit.value && (n == limit.value || n == pageSize)
    ensures !Truthy(limit) ==> n == pageSize
  {
    if Truthy(limit) then (if limit.value < pageSize then limit.value else pageSize) else pageSize
  }

  /**
   * The limit after `n` more items in the current loops (`limit -= results.length`,
   * `recordsLimit -= records.length`): decremented only when it is truthy, so
   * an unset or zero limit stays as it is.
   */
  function Remaining(limit: Option<int>, n: nat): (l: Option<int>)
    ensures Truthy(limit) ==> l == Some(limit.value - n)
    ensures !Truthy(limit) ==> l == limit
  {
    if Truthy(limit) then Some(limit.value - n) else limit
  }

  /**
   * The limit after `n` more items in the older loops: decremented whenever
   * it is set, even when it is `0`.
   */
  function LimitAfter(limit: Option<int>, n: nat): (l: Option<int>)
    ensures l.Some? <==> limit.Some?
    ensures limit.Some? ==> l.value == limit.value - n
  {
    if limit.Some? then Some(limit.value - n) else None
  }

  /** One server reply: the page's items and the value of its `Content-Range` header, or a transport error. */
  datatype Reply<T> = Page(items: seq<T>, header: Option<string>) | RequestFailed(error: string)

  /**
   * How a run ended: the loop broke out normally, an exception ended it, or
   * the model's request budget ran out while the source would still be looping.
   */
  datatype Outcome = Completed | Failed(error: string) | OutOfFuel

  datatype Run<R, T> = Run(requests: seq<R>, items: seq<T>, outcome: Outcome)

  /** A run that issued `req`, yielded `items` and then went on as `rest`. */
  function Then<R, T>(req: R, items: seq<T>, rest: Run<R, T>): (r: Run<R, T>)
    ensures |r.requests| == |rest.requests| + 1 && r.requests[0] == req && r.requests[1..] == rest.requests
    ensures r.items == items + rest.items && r.outcome == rest.outcome
  {
    Run([req] + rest.requests, items + rest.items, rest.outcome)
  }

  /** The part of a run already performed, followed by the rest of it. */
  function Prepend<R, T>(requests: seq<R>, items: seq<T>, rest: Run<R, T>): Run<R, T>
  {
    Run(requests + rest.requests, items + rest.items, rest.outcome)
  }

  lemma PrependThen<R, T>(requests: seq<R>, items: seq<T>, req: R, page: seq<T>, rest: Run<R, T>)
    ensures Prepend(requests, items, Then(req, page, rest)) == Prepend(requests + [req], items + page, rest)
  {
    assert requests + ([req] + rest.requests) == (requests + [req]) + rest.requests;
    assert items + (page + rest.items) == (items + page) + rest.items;
  }

  /** A run that ends with nothing more to do. */
  lemma PrependEnd<R, T>(requests: seq<R>, items: seq<T>, outcome: Outcome)
    ensures Prepend(requests, items, Run([], [], outcome)) == Run(requests, items, outcome)
  {
    assert requests + [] == requests && items + [] == items;
  }

  /** A run that ends with one last request yielding nothing. */
  lemma PrependLast<R, T>(requests: seq<R>, items: seq<T>, req: R, outcome: Outcome)
    ensures Prepend(requests, items, Run([req], [], outcome)) == Run(requests + [req], items, outcome)
  {
    assert items + [] == items;
  }

  function Min(a: int, b: int): int {
    if a < b then a else b
  }

  /** The yielded ids `lo, lo + 1, ..., hi - 1` (empty when `hi <= lo`). */
  function Ids(lo: int, hi: int): (s: seq<int>)
    ensures |s| == if hi <= lo then 0 else hi - lo
    ensures forall i :: 0 <= i < |s| ==> s[i] == lo + i
    decreases hi - lo
  {
    if hi <= lo then [] else [lo] + Ids(lo + 1, hi)
  }

  lemma IdsSplit(lo: int, mid: int, hi: int)
    requires lo <= mid <= hi
    ensures Ids(lo, mid) + Ids(mid, hi) == Ids(lo, hi)
  {
    var a, b, c := Ids(lo, mid), Ids(mid, hi), Ids(lo, hi);
    assert |a + b| == |c|;
    forall i | 0 <= i < |c| ensures (a + b)[i] == c[i] {
      if i < |a| { assert (a + b)[i] == a[i]; } else { assert (a + b)[i] == b[i - |a|]; }
    }
  }

  /** The items the replies to `reqs` carry, in order (a failed request carries none). */
  function Yielded<R, T>(server: R -> Reply<T>, reqs: seq<R>): seq<T>
  {
    if reqs == [] then []
    else
      var page := match server(reqs[0]) case Page(items, _) => items case RequestFailed(_) => [];
      page + Yielded(server, reqs[1..])
  }

  /** The server answers every request with at most the number of items it asked for. */
  ghost predicate Honours<T>(server: Request -> Reply<T>) {
    forall req :: server(req).Page? ==> |server(req).items| <= req.limit
  }

  /** A header `items {first}-{last}/{count}` with the three positions spelled in decimal digits. */
  function Spell(first: string, last: string, count: string): string {
    "items " + first + "-" + last + "/" + count
  }

  predicate Numeral(s: string) {
    |s| > 0 && AllDigits(s)
  }

  /** A piece holding none of the characters the readers split or strip on. */
  predicate Plain(s: string) {
    '/' !in s && '-' !in s && 'i' !in s
  }

  lemma NumeralFree(s: string)
    requires Numeral(s)
    ensures Plain(s)
  {
    forall i | 0 <= i < |s| ensures s[i] != '/' && s[i] != '-' && s[i] != 'i' {
      assert IsDigit(s[i]);
    }
  }

  /** Where a spelled header's separators fall. */
  lemma SpellPieces(f: string, l: string, c: string)
    requires Plain(f) && Plain(l) && Plain(c)
    ensures Spell(f, l, c) == ("items " + f + "-" + l) + ['/'] + c && '/' !in "items " + f + "-" + l
    ensures Spell(f, l, c) == "items " + (f + ['-'] + (l + ['/'] + c))
    ensures '-' !in l + ['/'] + c && 'i' !in f + ['-'] + (l + ['/'] + c)
  {
  }

  /** How the server writes a range: each position in its shortest decimal form. */
  function Format(first: nat, last: nat, count: nat): string {
    Spell(NatToString(first), NatToString(last), NatToString(count))
  }
}
