/**
 * The access-token cache of the current JavaScript client
 * (`src_js/grndwork_api_client/access_tokens.ts`): a module-level map from
 * `platform:scope` to the last token issued for it.
 */
module AccessTokens {
  import opened Wrappers
  import opened TokenCommon

  /**
   * The module's `accessTokenCache`, with `exchanges` recording every token
   * request posted, in order.
   */
  class TokenCache {
    var cache: map<string, string>
    var exchanges: seq<Exchange>

    constructor()
      ensures cache == map[] && exchanges == []
    {
      cache := map[];
      exchanges := [];
    }

    /** `resetAccessTokenCache`: every entry goes. */
    method Reset()
      modifies this
      ensures cache == map[] && exchanges == old(exchanges)
    {
      cache := map[];
    }

    /**
     * `getAccessToken`: the cached token for `platform:scope` unless it is
     * empty, missing or expired; then one exchange for `platform` and `scope`,
     * whose token is stored and returned.
     */
    method GetAccessToken(refresh: RefreshToken, platform: string, scope: string, nowMs: nat,
                          decode: string -> Option<int>, issue: Exchange -> Result<string, string>)
      returns (token: Result<string, string>)
      modifies this
      ensures var l := JsGet(old(cache), CacheKey(platform, scope), ExchangeFor(refresh, platform, scope), nowMs, decode, issue);
              cache == l.cache && token == l.result && exchanges == Logged(old(exchanges), l.exchange)
    {
      var key := CacheKey(platform, scope);
      var accessToken := if key in cache then cache[key] else "";
      if accessToken == "" || JsHasExpired(decode(accessToken), nowMs) {
        var req := ExchangeFor(refresh, platform, scope);
        exchanges := exchanges + [req];
        var issued := issue(req);
        match issued {
          case Success(t) =>
            cache := cache[key := t];
            token := Success(t);
          case Failure(e) =>
            token := Failure(e);
        }
      } else {
        token := Success(accessToken);
      }
    }
  }

  /**
   * The exchange a call posts: the refresh token as bearer and the body
   * `{subject, platform, scope}` in the order the caller gave them.
   */
  lemma ExchangeBody(refresh: RefreshToken, platform: string, scope: string, key: string, nowMs: nat,
                     cache: map<string, string>, decode: string -> Option<int>, issue: Exchange -> Result<string, string>)
    requires key == CacheKey(platform, scope) && !JsHit(cache, key, nowMs, decode)
    ensures JsGet(cache, key, ExchangeFor(refresh, platform, scope), nowMs, decode, issue).exchange
              == Some(Exchange(refresh.token, refresh.subject, platform, scope))
  {
  }
}
