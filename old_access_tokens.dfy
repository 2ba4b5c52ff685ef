/**
 * The access-token cache of the oldest TypeScript client
 * (`src/accessTokens.ts`). The cache is keyed by the caller's
 * `platform:scope`, but the exchange is called as
 * `createAccessToken(refreshToken, scope, platform)` against the parameters
 * `(refreshToken, platform, scope)`: the posted body carries the caller's
 * scope as `platform` and the caller's platform as `scope`.
 */
module OldAccessTokens {
  import opened Wrappers
  import opened TokenCommon

  class TokenCache {
    var cache: map<string, string>
    var exchanges: seq<Exchange>

    constructor()
      ensures cache == map[] && exchanges == []
    {
      cache := map[];
      exchanges := [];
    }

    /** `resetAccessTokenCache`: every entry goes. */
    method Reset()
      modifies this
      ensures cache == map[] && exchanges == old(exchanges)
    {
      cache := map[];
    }

    /**
     * `getAccessToken`: the cached token for `platform:scope` unless it is
     * empty, missing or expired; then one exchange with platform and scope
     * swapped, whose token is stored and returned.
     */
    method GetAccessToken(refresh: RefreshToken, platform: string, scope: string, nowMs: nat,
                          decode: string -> Option<int>, issue: Exchange -> Result<string, string>)
      returns (token: Result<string, string>)
      modifies this
      ensures var l := JsGet(old(cache), CacheKey(platform, scope), ExchangeFor(refresh, scope, platform), nowMs, decode, issue);
              cache == l.cache && token == l.result && exchanges == Logged(old(exchanges), l.exchange)
    {
      var key := CacheKey(platform, scope);
      var accessToken := if key in cache then cache[key] else "";
      if accessToken == "" || JsHasExpired(decode(accessToken), nowMs) {
        var req := ExchangeFor(refresh, scope, platform);
        exchanges := exchanges + [req];
        var issued := issue(req);
        match issued {
          case Success(t) =>
            cache := cache[key := t];
            token := Success(t);
          case Failure(e) =>
            token := Failure(e);
        }
      } else {
        token := Success(accessToken);
      }
    }
  }

  /**
   * The swap on the wire: a call that misses posts the caller's scope as
   * `platform` and the caller's platform as `scope`. A caller passing
   * `("read:data", "loggernet")` in that swapped order therefore has the
   * body say platform `loggernet`, scope `read:data`, under the key
   * `read:data:loggernet`.
   */
  lemma ExchangeSwapped(refresh: RefreshToken, platform: string, scope: string, nowMs: nat,
                        cache: map<string, string>, decode: string -> Option<int>, issue: Exchange -> Result<string, string>)
    requires !JsHit(cache, CacheKey(platform, scope), nowMs, decode)
    ensures var l := JsGet(cache, CacheKey(platform, scope), ExchangeFor(refresh, scope, platform), nowMs, decode, issue);
            l.exchange.Some? && l.exchange.value.platform == scope && l.exchange.value.scope == platform
    ensures platform == "read:data" && scope == "loggernet" ==>
              CacheKey(platform, scope) == "read:data:loggernet"
              && JsGet(cache, CacheKey(platform, scope), ExchangeFor(refresh, scope, platform), nowMs, decode, issue).exchange
                 == Some(Exchange(refresh.token, refresh.subject, "loggernet", "read:data"))
  {
  }

  /** A token without `exp` is kept: two calls, one exchange. */
  lemma NoExpReused(cache: map<string, string>, key: string, req: Exchange, t1: nat, t2: nat,
                    decode: string -> Option<int>, issue: Exchange -> Result<string, string>)
    requires !JsHit(cache, key, t1, decode)
    requires issue(req).Success? && issue(req).value != "" && decode(issue(req).value).None?
    ensures var second := JsGet(JsGet(cache, key, req, t1, decode, issue).cache, key, req, t2, decode, issue);
            second.exchange.None? && second.result == issue(req)
  {
    JsSecondCallReuses(cache, key, req, t1, t2, decode, issue);
  }

  /** `exp: 1` is long past: a second call exchanges again and returns the new token. */
  lemma ExpOneReissued(cache: map<string, string>, key: string, req: Exchange, t1: nat, t2: nat,
                       decode: string -> Option<int>, first: Exchange -> Result<string, string>,
                       next: Exchange -> Result<string, string>)
    requires t2 >= 1000 && !JsHit(cache, key, t1, decode)
    requires first(req).Success? && decode(first(req).value) == Some(1)
    ensures var second := JsGet(JsGet(cache, key, req, t1, decode, first).cache, key, req, t2, decode, next);
            second.exchange == Some(req) && second.result == next(req)
  {
    JsSecondCallReissues(cache, key, req, t1, t2, decode, first, next);
  }
}
