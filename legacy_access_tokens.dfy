/**
 * The access-token cache of the earlier JavaScript client
 * (`src_js/accessTokens.ts`). It behaves as the current one: a module-level
 * map from `platform:scope` to the last token issued, the token read from
 * the body of the exchange's reply.
 */
module LegacyAccessTokens {
  import opened Wrappers
  import opened TokenCommon

  class TokenCache {
    var cache: map<string, string>
    var exchanges: seq<Exchange>

    constructor()
      ensures cache == map[] && exchanges == []
    {
      cache := map[];
      exchanges := [];
    }

    /** `resetAccessTokenCache`: every entry goes. */
    method Reset()
      modifies this
      ensures cache == map[] && exchanges == old(exchanges)
    {
      cache := map[];
    }

    /**
     * `getAccessToken`: the cached token for `platform:scope` unless it is
     * empty, missing or expired; then one exchange for `platform` and `scope`,
     * whose token is stored and returned.
     */
    method GetAccessToken(refresh: RefreshToken, platform: string, scope: string, nowMs: nat,
                          decode: string -> Option<int>, issue: Exchange -> Result<string, string>)
      returns (token: Result<string, string>)
      modifies this
      ensures var l := JsGet(old(cache), CacheKey(platform, scope), ExchangeFor(refresh, platform, scope), nowMs, decode, issue);
              cache == l.cache && token == l.result && exchanges == Logged(old(exchanges), l.exchange)
    {
      var key := CacheKey(platform, scope);
      var accessToken := if key in cache then cache[key] else "";
      if accessToken == "" || JsHasExpired(decode(accessToken), nowMs) {
        var req := ExchangeFor(refresh, platform, scope);
        exchanges := exchanges + [req];
        var issued := issue(req);
        match issued {
          case Success(t) =>
            cache := cache[key := t];
            token := Success(t);
          case Failure(e) =>
            token := Failure(e);
        }
      } else {
        token := Success(accessToken);
      }
    }
  }

  /**
   * A token whose `exp` is the very second it was issued in is already
   * expired: a second call in the same second exchanges again and returns
   * the new token.
   */
  lemma ExpiresInItsOwnSecond(cache: map<string, string>, key: string, req: Exchange, nowMs: nat,
                              decode: string -> Option<int>, first: Exchange -> Result<string, string>,
                              next: Exchange -> Result<string, string>)
    requires nowMs >= 1000 && !JsHit(cache, key, nowMs, decode)
    requires first(req).Success? && decode(first(req).value) == Some(nowMs / 1000)
    ensures var second := JsGet(JsGet(cache, key, req, nowMs, decode, first).cache, key, req, nowMs, decode, next);
            second.exchange == Some(req) && second.result == next(req)
  {
    JsSecondCallReissues(cache, key, req, nowMs, nowMs, decode, first, next);
  }
}
