/**
 * The access-token cache of the Python client
 * (`src_py/grndwork_api_client/access_tokens.py`). The cache maps
 * `platform:scope` to what the last exchange returned, which may be `None`.
 * Decoding (`jwt.decode` with signature verification) is the parameter
 * `decode`, giving the `exp` claim, `None` when the payload has none, or the
 * error decoding raises; the clock is `nowMs`, `int(time.time() * 1000)`.
 */
module PyAccessTokens {
  import opened Wrappers
  import opened TokenCommon

  /**
   * `has_expired`: a missing `exp` counts as `0`, which never expires;
   * otherwise the token is expired once `now - exp >= 0`, with `now` in
   * milliseconds and `exp` as it stands in the token.
   */
  predicate PyHasExpired(exp: Option<int>, nowMs: int) {
    exp.GetOr(0) != 0 && nowMs - exp.GetOr(0) >= 0
  }

  /** `not access_token`: a missing entry, `None` and `''` all count as absent. */
  predicate Falsy(token: Option<string>) {
    token.None? || token.value == ""
  }

  /** `access_token_cache.get(cache_key)`. */
  function Cached(cache: map<string, Option<string>>, key: string): (t: Option<string>)
    ensures key !in cache ==> t.None?
    ensures key in cache ==> t == cache[key]
  {
    if key in cache then cache[key] else None
  }

  /**
   * One `get_access_token` call: a falsy entry, or one that decodes to an
   * expired `exp`, is replaced by whatever the exchange returns; a decoding
   * error propagates before any exchange.
   */
  function PyGet(cache: map<string, Option<string>>, key: string, req: Exchange, nowMs: int,
                 decode: string -> Result<Option<int>, string>,
                 issue: Exchange -> Result<Option<string>, string>): Lookup<Option<string>>
  {
    var cached := Cached(cache, key);
    if !Falsy(cached) && decode(cached.value).Failure? then Lookup(cache, None, Failure(decode(cached.value).error))
    else if !Falsy(cached) && !PyHasExpired(decode(cached.value).value, nowMs) then Lookup(cache, None, Success(cached))
    else
      match issue(req)
      case Success(t) => Lookup(cache[key := t], Some(req), Success(t))
      case Failure(e) => Lookup(cache, Some(req), Failure(e))
  }

  /** The module's `access_token_cache`, with `exchanges` recording every token request posted. */
  class TokenCache {
    var cache: map<string, Option<string>>
    var exchanges: seq<Exchange>

    constructor()
      ensures cache == map[] && exchanges == []
    {
      cache := map[];
      exchanges := [];
    }

    /** `reset_access_token_cache`: the map is replaced by an empty one. */
    method Reset()
      modifies this
      ensures cache == map[] && exchanges == old(exchanges)
    {
      cache := map[];
    }

    /** `get_access_token`. */
    method GetAccessToken(refresh: RefreshToken, platform: string, scope: string, nowMs: int,
                          decode: string -> Result<Option<int>, string>,
                          issue: Exchange -> Result<Option<string>, string>)
      returns (token: Result<Option<string>, string>)
      modifies this
      ensures var l := PyGet(old(cache), CacheKey(platform, scope), ExchangeFor(refresh, platform, scope), nowMs, decode, issue);
              cache == l.cache && token == l.result && exchanges == Logged(old(exchanges), l.exchange)
    {
      var key := CacheKey(platform, scope);
      var accessToken := if key in cache then cache[key] else None;
      var create := Falsy(accessToken);
      if !create {
        var decoded := decode(accessToken.value);
        if decoded.Failure? {
          return Failure(decoded.error);
        }
        create := PyHasExpired(decoded.value, nowMs);
      }
      if create {
        var req := ExchangeFor(refresh, platform, scope);
        exchanges := exchanges + [req];
        var issued := issue(req);
        match issued {
          case Success(t) =>
            cache := cache[key := t];
            token := Success(t);
          case Failure(e) =>
            token := Failure(e);
        }
      } else {
        token := Success(accessToken);
      }
    }
  }

  /**
   * A call exchanges exactly when the entry is falsy or its `exp` has
   * passed, and then once, with `req`; what the exchange returns, `None`
   * included, is stored and returned. A hit changes nothing.
   */
  lemma PyGetEffect(cache: map<string, Option<string>>, key: string, req: Exchange, nowMs: int,
                    decode: string -> Result<Option<int>, string>,
                    issue: Exchange -> Result<Option<string>, string>)
    ensures var l := PyGet(cache, key, req, nowMs, decode, issue);
            var cached := Cached(cache, key);
            var exchanges := Falsy(cached) || (decode(cached.value).Success? && PyHasExpired(decode(cached.value).value, nowMs));
            && (l.exchange.Some? <==> exchanges)
            && (exchanges ==> l.exchange == Some(req) && l.result == issue(req))
            && (exchanges && issue(req).Success? ==> l.cache == cache[key := issue(req).value])
            && (!exchanges ==> l.cache == cache)
            && (!exchanges && decode(cached.value).Success? ==> l.result == Success(cached))
            && (forall k :: k != key ==> (k in l.cache <==> k in cache) && (k in cache ==> l.cache[k] == cache[k]))
  {
  }

  /**
   * `now` counts milliseconds but `exp` counts seconds: a token issued at
   * second `s` (any time after the first seconds of the epoch) with any
   * lifetime short of 999 seconds per second elapsed is already expired,
   * while the JavaScript `hasExpired` calls it valid for its whole lifetime.
   */
  lemma SecondsExpExpires(s: nat, lifetime: nat, ms: nat)
    requires 0 < lifetime <= 999 * s && ms < 1000
    ensures PyHasExpired(Some(s + lifetime), s * 1000 + ms)
    ensures !JsHasExpired(Some(s + lifetime), s * 1000 + ms)
  {
    assert (s * 1000 + ms) / 1000 == s;
  }

  /**
   * Hence the cache never hits for such tokens: a second call right after a
   * successful exchange exchanges again, whatever the first call returned.
   */
  lemma CacheNeverHits(cache: map<string, Option<string>>, key: string, req: Exchange,
                       s: nat, lifetime: nat, ms: nat,
                       decode: string -> Result<Option<int>, string>,
                       first: Exchange -> Result<Option<string>, string>,
                       next: Exchange -> Result<Option<string>, string>)
    requires 0 < lifetime <= 999 * s && ms < 1000
    requires Falsy(Cached(cache, key))
    requires first(req).Success? && !Falsy(first(req).value)
    requires decode(first(req).value.value) == Success(Some(s + lifetime))
    ensures var second := PyGet(PyGet(cache, key, req, s * 1000 + ms, decode, first).cache, key, req, s * 1000 + ms, decode, next);
            second.exchange == Some(req) && second.result == next(req)
  {
    SecondsExpExpires(s, lifetime, ms);
  }

  /** A token whose `exp` is `0` or missing is kept: the second call returns it without an exchange. */
  lemma NoExpReused(cache: map<string, Option<string>>, key: string, req: Exchange, t1: int, t2: int,
                    decode: string -> Result<Option<int>, string>,
                    issue: Exchange -> Result<Option<string>, string>)
    requires Falsy(Cached(cache, key))
    requires issue(req).Success? && !Falsy(issue(req).value)
    requires decode(issue(req).value.value) == Success(None) || decode(issue(req).value.value) == Success(Some(0))
    ensures var second := PyGet(PyGet(cache, key, req, t1, decode, issue).cache, key, req, t2, decode, issue);
            second.exchange.None? && second.result == issue(req)
  {
  }

  /** An exchange that returns `None` leaves a falsy entry: the next call exchanges again. */
  lemma NoneTokenRetried(cache: map<string, Option<string>>, key: string, req: Exchange, t1: int, t2: int,
                         decode: string -> Result<Option<int>, string>,
                         first: Exchange -> Result<Option<string>, string>,
                         next: Exchange -> Result<Option<string>, string>)
    requires Falsy(Cached(cache, key))
    requires first(req) == Success(None)
    ensures PyGet(cache, key, req, t1, decode, first).result == Success(None)
    ensures PyGet(PyGet(cache, key, req, t1, decode, first).cache, key, req, t2, decode, next).exchange == Some(req)
  {
  }
}
