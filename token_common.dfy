/**
 * What the access-token caches of every revision share: the `platform:scope`
 * cache key, the token exchange request, the JavaScript `hasExpired` test
 * (the same in `src_js/grndwork_api_client/access_tokens.ts`,
 * `src_js/accessTokens.ts` and `src/accessTokens.ts`), and the lookup those
 * three perform, as a function of the cache before the call.
 *
 * The clock is the parameter `nowMs` (`Date.now()`, milliseconds since the
 * epoch); decoding a JWT is the parameter `decode`, giving the `exp` claim
 * (seconds, section 4.1.4 of RFC 7519) when the payload has one; the token
 * endpoint is the parameter `issue`, giving the new token or the error the
 * request throws.
 */
module TokenCommon {
  import opened Wrappers

  /** The caller's refresh token: whose it is, and the bearer token itself. */
  datatype RefreshToken = RefreshToken(subject: string, token: string)

  /** A token exchange: the bearer it is sent with and its JSON body. */
  datatype Exchange = Exchange(bearer: string, subject: string, platform: string, scope: string)

  /** The exchange `createAccessToken(refreshToken, platform, scope)` posts. */
  function ExchangeFor(refresh: RefreshToken, platform: string, scope: string): Exchange {
    Exchange(refresh.token, refresh.subject, platform, scope)
  }

  /** `${platform}:${scope}`. */
  function CacheKey(platform: string, scope: string): string {
    platform + ":" + scope
  }

  /** Nothing escapes the `:` join: two different calls can share an entry. */
  lemma CacheKeyCollision()
    ensures CacheKey("a:b", "c") == CacheKey("a", "b:c")
  {
    assert CacheKey("a:b", "c") == "a:b:c" == CacheKey("a", "b:c");
  }

  /** Platforms without a `:` do keep entries apart: the key then determines platform and scope. */
  lemma CacheKeyInjective(p1: string, s1: string, p2: string, s2: string)
    requires ':' !in p1 && ':' !in p2
    requires CacheKey(p1, s1) == CacheKey(p2, s2)
    ensures p1 == p2 && s1 == s2
  {
    var k := CacheKey(p1, s1);
    KeyLayout(p1, s1);
    KeyLayout(p2, s2);
    assert p1 == k[..|p1|] == p2;
    assert s1 == k[|p1| + 1..] == s2;
  }

  /** Where the platform ends in a key: its characters, then the `:`. */
  lemma KeyLayout(p: string, s: string)
    ensures |CacheKey(p, s)| == |p| + 1 + |s|
    ensures forall i :: 0 <= i < |p| ==> CacheKey(p, s)[i] == p[i]
    ensures CacheKey(p, s)[|p|] == ':'
  {
  }

  /**
   * `hasExpired` in JavaScript: a missing or zero `exp` never expires;
   * otherwise the token is expired from the second `exp` on, the current
   * second being `Math.floor(Date.now() / 1000)`.
   */
  predicate JsHasExpired(exp: Option<int>, nowMs: nat) {
    exp.Some? && exp.value != 0 && nowMs / 1000 - exp.value >= 0
  }

  /**
   * The boundary of `hasExpired`: a set `exp` is expired during its own
   * second and every later one, and not in any earlier one; without `exp`
   * (or with `0`) a token never is.
   */
  lemma JsExpiryBoundary(exp: Option<int>, seconds: nat, ms: nat)
    requires ms < 1000
    ensures exp.Some? && exp.value != 0 ==> (JsHasExpired(exp, seconds * 1000 + ms) <==> seconds >= exp.value)
    ensures exp.None? || exp == Some(0) ==> !JsHasExpired(exp, seconds * 1000 + ms)
  {
    assert (seconds * 1000 + ms) / 1000 == seconds;
  }

  /** Expiry is permanent: once expired, a token stays expired. */
  lemma JsExpiryMonotone(exp: Option<int>, t1: nat, t2: nat)
    requires t1 <= t2 && JsHasExpired(exp, t1)
    ensures JsHasExpired(exp, t2)
  {
    assert t1 / 1000 <= t2 / 1000;
  }

  /** A lookup's effect: the cache after it, the exchange it made (if any), and what it returns or throws. */
  datatype Lookup<V> = Lookup(cache: map<string, V>, exchange: Option<Exchange>, result: Result<V, string>)

  /** The exchange log grown by what a lookup sent. */
  function Logged(log: seq<Exchange>, sent: Option<Exchange>): (l: seq<Exchange>)
    ensures sent.None? ==> l == log
    ensures sent.Some? ==> l == log + [sent.value]
  {
    if sent.Some? then log + [sent.value] else log
  }

  /** The cached token under `key` holds and is still valid at `nowMs`. */
  predicate JsHit(cache: map<string, string>, key: string, nowMs: nat, decode: string -> Option<int>) {
    key in cache && cache[key] != "" && !JsHasExpired(decode(cache[key]), nowMs)
  }

  /**
   * One `getAccessToken` call of the JavaScript revisions: an empty or
   * missing entry, or an expired token, is replaced by a freshly issued one
   * through the exchange `req`; otherwise the cached token is returned.
   */
  function JsGet(cache: map<string, string>, key: string, req: Exchange, nowMs: nat,
                 decode: string -> Option<int>, issue: Exchange -> Result<string, string>): Lookup<string>
  {
    if JsHit(cache, key, nowMs, decode) then Lookup(cache, None, Success(cache[key]))
    else
      match issue(req)
      case Success(t) => Lookup(cache[key := t], Some(req), Success(t))
      case Failure(e) => Lookup(cache, Some(req), Failure(e))
  }

  /**
   * A call exchanges exactly when the cache has no valid token for its key,
   * and then exactly once, with `req`. A hit returns the cached token and
   * leaves the cache alone; a successful exchange stores the new token under
   * the key and returns it; a failed one leaves the cache alone. No other
   * key ever changes.
   */
  lemma JsGetEffect(cache: map<string, string>, key: string, req: Exchange, nowMs: nat,
                    decode: string -> Option<int>, issue: Exchange -> Result<string, string>)
    ensures var l := JsGet(cache, key, req, nowMs, decode, issue);
            && (l.exchange.None? <==> JsHit(cache, key, nowMs, decode))
            && (l.exchange.Some? ==> l.exchange == Some(req))
            && (JsHit(cache, key, nowMs, decode) ==> l.result == Success(cache[key]) && l.cache == cache)
            && (!JsHit(cache, key, nowMs, decode) ==> l.result == issue(req))
            && (!JsHit(cache, key, nowMs, decode) && issue(req).Success? ==> l.cache == cache[key := issue(req).value])
            && (issue(req).Failure? ==> l.cache == cache)
            && (forall k :: k != key ==> (k in l.cache <==> k in cache) && (k in cache ==> l.cache[k] == cache[k]))
  {
  }

  /**
   * Two calls for the same key: when the first one issues a token that the
   * second finds unexpired, the second returns that token and exchanges
   * nothing.
   */
  lemma JsSecondCallReuses(cache: map<string, string>, key: string, req: Exchange, t1: nat, t2: nat,
                           decode: string -> Option<int>, issue: Exchange -> Result<string, string>)
    requires !JsHit(cache, key, t1, decode)
    requires issue(req).Success? && issue(req).value != ""
    requires !JsHasExpired(decode(issue(req).value), t2)
    ensures var second := JsGet(JsGet(cache, key, req, t1, decode, issue).cache, key, req, t2, decode, issue);
            second.exchange.None? && second.result == issue(req)
  {
  }

  /**
   * Two calls for the same key against an endpoint that issues a different
   * token for the second exchange: when the first token has expired by the
   * second call, the second call exchanges again and returns the new token.
   */
  lemma JsSecondCallReissues(cache: map<string, string>, key: string, req: Exchange, t1: nat, t2: nat,
                             decode: string -> Option<int>, first: Exchange -> Result<string, string>,
                             next: Exchange -> Result<string, string>)
    requires !JsHit(cache, key, t1, decode)
    requires first(req).Success? && JsHasExpired(decode(first(req).value), t2)
    ensures var second := JsGet(JsGet(cache, key, req, t1, decode, first).cache, key, req, t2, decode, next);
            second.exchange == Some(req) && second.result == next(req)
  {
  }

  /**
   * A call for another key never sees the first call's token: with
   * `platform` or `scope` different (and no `:` in the platforms) each of
   * two calls on an empty cache makes its own exchange.
   */
  lemma JsSeparateKeys(p1: string, s1: string, p2: string, s2: string, r1: Exchange, r2: Exchange, t1: nat, t2: nat,
                       decode: string -> Option<int>, issue: Exchange -> Result<string, string>)
    requires ':' !in p1 && ':' !in p2 && (p1, s1) != (p2, s2)
    requires issue(r1).Success?
    ensures var first := JsGet(map[], CacheKey(p1, s1), r1, t1, decode, issue);
            first.exchange == Some(r1)
            && JsGet(first.cache, CacheKey(p2, s2), r2, t2, decode, issue).exchange == Some(r2)
  {
    if CacheKey(p1, s1) == CacheKey(p2, s2) {
      CacheKeyInjective(p1, s1, p2, s2);
    }
  }
}
