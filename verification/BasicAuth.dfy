/**
 Basic authentication with a verification cache: internal/basicauth/basicauth.go, the cached check of
 htpasswd.go and the reload of watcher.go, each taken as one step.
 */
module BasicAuth {
  import opened Prelude
  import opened Text
  import opened RequestInfo
  import opened Htpasswd

  /** maphash with the provider's seed, and bcrypt.CompareHashAndPassword(hash, password). */
  datatype Crypto = Crypto(hash: string -> int, bcrypt: (string, string) -> bool) {
    ghost predicate Injective() {
      forall s, t :: hash(s) == hash(t) ==> s == t
    }

    function Key(user: string, password: string): int {
      hash(KeyText(user, password))
    }
  }

  /** defaultCacheTTL, in milliseconds. */
  const TTL := 120_000

  datatype Verdict = Verdict(valid: bool, storedAt: nat)

  /** None when the cache could not be created. */
  type Cache = Option<map<int, Verdict>>

  /** A hit: stored, not expired. */
  function Find(cache: Cache, key: int, now: nat): Option<bool> {
    if cache.Some? && key in cache.value && now <= cache.value[key].storedAt + TTL
    then Some(cache.value[key].valid)
    else None
  }

  /** SetWithTTL, which the cache library may drop. */
  function Put(cache: Cache, key: int, valid: bool, now: nat, keep: bool): Cache {
    if cache.Some? && keep then Some(cache.value[key := Verdict(valid, now)]) else cache
  }

  function HandleFailure(permissive: bool): AuthError {
    if permissive then NoError else AuthenticationFailed
  }

  predicate IsBasic(info: Info) {
    info.auth.Some? && EqualFold(info.auth.value.kind, "basic")
  }

  function WithoutPassword(info: Info): Info
    requires info.auth.Some?
  {
    info.(auth := Some(info.auth.value.(password := "")))
  }

  /** The provider without a cache: always bcrypt. */
  function Direct(crypto: Crypto, permissive: bool, creds: Creds, info: Info): AuthOutcome {
    if !IsBasic(info) then AuthOutcome(NoError, info)
    else
      var Auth(_, _, user, password) := info.auth.value;
      var cleared := WithoutPassword(info);
      if user == "" || user !in creds then AuthOutcome(HandleFailure(permissive), cleared)
      else if crypto.bcrypt(creds[user], password) then AuthOutcome(NoError, cleared.(user := Some(user)))
      else AuthOutcome(AuthenticationFailed, cleared)
  }

  /** The user names of a loaded file have no colon. */
  predicate WellKeyed(creds: Creds) {
    forall u :: u in creds ==> ':' !in u
  }

  /** Every stored verdict is what bcrypt says about the installed credentials. */
  ghost predicate Faithful(crypto: Crypto, creds: Creds, cache: Cache) {
    cache.Some? ==>
      forall u, p :: u in creds && crypto.Key(u, p) in cache.value ==>
        cache.value[crypto.Key(u, p)].valid == crypto.bcrypt(creds[u], p)
  }

  lemma PutKeepsFaithful(crypto: Crypto, creds: Creds, cache: Cache, user: string, password: string,
                         now: nat, keep: bool)
    requires crypto.Injective() && WellKeyed(creds) && Faithful(crypto, creds, cache) && user in creds
    ensures var ok := crypto.bcrypt(creds[user], password);
            Faithful(crypto, creds, Put(cache, crypto.Key(user, password), ok, now, keep))
  {
    forall u, p | u in creds && crypto.Key(u, p) == crypto.Key(user, password)
      ensures u == user && p == password
    {
      KeyTextUnambiguous(u, p, user, password);
    }
  }

  /** verifyPassword: the verdict and the cache afterwards. */
  function Verify(crypto: Crypto, cache: Cache, now: nat, keep: bool, user: string, hash: string, password: string)
    : (bool, Cache)
  {
    var key := crypto.Key(user, password);
    match Find(cache, key, now)
    case Some(valid) => (valid, cache)
    case None => (crypto.bcrypt(hash, password), Put(cache, key, crypto.bcrypt(hash, password), now, keep))
  }

  /** A verdict that was stored answers for two minutes, whatever the hash is by then, and not longer; one
      that was dropped does not answer at all. */
  lemma VerdictLastsTwoMinutes(crypto: Crypto, cache: Cache, now: nat, keep: bool, user: string, hash: string,
                               password: string, later: nat, keep': bool, hash': string)
    requires cache.Some? && crypto.Key(user, password) !in cache.value && now <= later
    ensures var (valid, cache') := Verify(crypto, cache, now, keep, user, hash, password);
            && valid == crypto.bcrypt(hash, password)
            && Verify(crypto, cache', later, keep', user, hash', password).0 ==
               crypto.bcrypt(if keep && later - now <= 2 * 60 * 1000 then hash else hash', password)
  {
  }

  /** The provider with its cache. */
  function CachedAuth(crypto: Crypto, permissive: bool, creds: Creds, cache: Cache, now: nat, keep: bool, info: Info)
    : (AuthOutcome, Cache)
  {
    if !IsBasic(info) then (AuthOutcome(NoError, info), cache)
    else
      var Auth(_, _, user, password) := info.auth.value;
      var cleared := WithoutPassword(info);
      if user == "" || user !in creds then (AuthOutcome(HandleFailure(permissive), cleared), cache)
      else
        var (valid, cache') := Verify(crypto, cache, now, keep, user, creds[user], password);
        if valid then (AuthOutcome(NoError, cleared.(user := Some(user))), cache')
        else (AuthOutcome(AuthenticationFailed, cleared), cache')
  }

  /** One call: the same answer and info as without a cache, and the cache stays faithful; only the password
      check of a known user touches it. */
  lemma CachedIsDirect(crypto: Crypto, permissive: bool, creds: Creds, cache: Cache, now: nat, keep: bool, info: Info)
    requires crypto.Injective() && WellKeyed(creds) && Faithful(crypto, creds, cache)
    ensures var (outcome, cache') := CachedAuth(crypto, permissive, creds, cache, now, keep, info);
            && outcome == Direct(crypto, permissive, creds, info) && Faithful(crypto, creds, cache')
            && (!IsBasic(info) || info.auth.value.user == "" || info.auth.value.user !in creds ==> cache' == cache)
  {
    if IsBasic(info) && info.auth.value.user in creds {
      PutKeepsFaithful(crypto, creds, cache, info.auth.value.user, info.auth.value.password, now, keep);
    }
  }

  class Provider {
    const crypto: Crypto
    const permissive: bool
    var creds: Creds
    var cache: Cache

    constructor (crypto: Crypto, permissive: bool, creds: Creds, cached: bool)
      ensures this.crypto == crypto && this.permissive == permissive && this.creds == creds
      ensures cache == if cached then Some(map[]) else None
    {
      this.crypto, this.permissive, this.creds := crypto, permissive, creds;
      cache := if cached then Some(map[]) else None;
    }

    method VerifyPassword(user: string, hash: string, password: string, now: nat, keep: bool) returns (ok: bool)
      modifies this`cache
      ensures (ok, cache) == Verify(crypto, old(cache), now, keep, user, hash, password)
    {
      var key := crypto.Key(user, password);
      if cache.Some? {
        var found := Find(cache, key, now);
        if found.Some? {
          return found.value;
        }
      }
      ok := crypto.bcrypt(hash, password);
      if cache.Some? && keep {
        cache := Some(cache.value[key := Verdict(ok, now)]);
      }
    }

    method Authenticate(info: Info, now: nat, keep: bool) returns (r: AuthOutcome)
      modifies this`cache
      ensures (r, cache) == CachedAuth(crypto, permissive, creds, old(cache), now, keep, info)
    {
      if info.auth.None? || !EqualFold(info.auth.value.kind, "basic") {
        return AuthOutcome(NoError, info);
      }
      var auth := info.auth.value;
      var cleared := info.(auth := Some(auth.(password := "")));
      if auth.user == "" {
        return AuthOutcome(HandleFailure(permissive), cleared);
      }
      if auth.user !in creds {
        return AuthOutcome(HandleFailure(permissive), cleared);
      }
      var ok := VerifyPassword(auth.user, creds[auth.user], auth.password, now, keep);
      if !ok {
        return AuthOutcome(AuthenticationFailed, cleared);
      }
      return AuthOutcome(NoError, cleared.(user := Some(auth.user)));
    }

    /** One watcher event: a failed load keeps everything, a good one swaps and clears. */
    method Reload(loaded: Loaded)
      modifies this`creds, this`cache
      ensures Config(creds, cache) == Reloaded(Config(old(creds), old(cache)), loaded)
      ensures !loaded.Loaded? ==> creds == old(creds) && cache == old(cache)
      ensures loaded.Loaded? ==> creds == loaded.creds && cache == if old(cache).Some? then Some(map[]) else None
    {
      if loaded.Loaded? {
        creds := loaded.creds;
        if cache.Some? {
          cache := Some(map[]);
        }
      }
    }
  }

  datatype Config = Config(creds: Creds, cache: Cache)

  function Reloaded(c: Config, loaded: Loaded): Config {
    if loaded.Loaded? then Config(loaded.creds, if c.cache.Some? then Some(map[]) else None) else c
  }

  /** The password of the named user is right. */
  predicate Verified(crypto: Crypto, creds: Creds, user: string, password: string) {
    user != "" && user in creds && crypto.bcrypt(creds[user], password)
  }

  /** What the provider does with a Basic request: the right password, and nothing else, gives the user; it is
      let through exactly then, or in permissive mode if the user is empty or unknown.  Other requests are
      let through as they are. */
  lemma DirectDecides(crypto: Crypto, permissive: bool, creds: Creds, info: Info)
    ensures var o := Direct(crypto, permissive, creds, info);
            if info.auth.None? || !Spells(info.auth.value.kind, "basic", "BASIC") then o == AuthOutcome(NoError, info)
            else
              var Auth(kind, token, user, password) := info.auth.value;
              var ok := Verified(crypto, creds, user, password);
              && o.info == info.(auth := Some(Auth(kind, token, user, "")),
                                 user := if ok then Some(user) else info.user)
              && (o.error.NoError? <==> ok || (permissive && (user == "" || user !in creds)))
              && (!o.error.NoError? ==> o.error == AuthenticationFailed)
  {
    if info.auth.Some? {
      LowersTo("basic", "basic", "BASIC");
      LowersTo(info.auth.value.kind, "basic", "BASIC");
    }
  }

  /** From the request on: whoever sends a user and password by the Basic scheme is that user for the policy
      exactly if the password is right; with a wrong one, or in strict mode as an unknown user, the request
      is refused. */
  lemma BasicRequestDecides(crypto: Crypto, permissive: bool, creds: Creds, codec: Codec, r: Request,
                            authKey: string, level: int, scheme: string, user: string, password: string)
    requires codec.Lawful() && Spells(scheme, "basic", "BASIC") && ':' !in user && authKey in r.header
    requires r.header[authKey] == [scheme + " " + codec.encode(user + ":" + password)]
    ensures var parsed := NewInfo(codec, r, authKey, level);
            && parsed.Parsed?
            && var o := Direct(crypto, permissive, creds, parsed.info);
               && (o.info.user == Some(user) <==> Verified(crypto, creds, user, password))
               && (o.error.NoError? <==>
                     Verified(crypto, creds, user, password) || (permissive && (user == "" || user !in creds)))
  {
    var token := codec.encode(user + ":" + password);
    assert "" + token + "" == token;
    BasicHeaderReachesInfo(codec, r, authKey, level, scheme, "", "", user, password);
    InfoOfRequest(codec, r, authKey, level);
    BasicInfoDecides(crypto, permissive, creds, NewInfo(codec, r, authKey, level).info, token, user, password);
  }

  lemma BasicInfoDecides(crypto: Crypto, permissive: bool, creds: Creds, info: Info, token: string, user: string,
                         password: string)
    requires info.auth == Some(Auth("basic", token, user, password)) && info.user == None
    ensures var o := Direct(crypto, permissive, creds, info);
            && (o.info.user == Some(user) <==> Verified(crypto, creds, user, password))
            && (o.error.NoError? <==>
                  Verified(crypto, creds, user, password) || (permissive && (user == "" || user !in creds)))
  {
    LowersTo("basic", "basic", "BASIC");
    DirectDecides(crypto, permissive, creds, info);
  }

  /** A password never reaches the policy engine: whatever the request, what the provider leaves of a
      parsed info has none, accepted or not, and nothing but auth.password and user is changed. */
  lemma PasswordNeverReachesPolicy(crypto: Crypto, permissive: bool, creds: Creds, codec: Codec, r: Request,
                                   authKey: string, level: int)
    requires NewInfo(codec, r, authKey, level).Parsed?
    ensures var info := NewInfo(codec, r, authKey, level).info;
            var after := Direct(crypto, permissive, creds, info).info;
            && (after.auth.Some? ==> after.auth.value.password == "")
            && after.(auth := info.auth, user := info.user) == info
            && (after.user.Some? ==>
                  after.auth.Some? && after.user.value == after.auth.value.user && after.user.value in creds)
  {
    if authKey in r.header && |r.header[authKey]| == 1 {
      ParsedCredentialsExact(codec, r.header[authKey][0]);
    }
  }

  // ------------------------------------------------------------------------------------------------
  // Whole histories.

  datatype Op =
    | Call(info: Info, keep: bool)
    | ReloadOp(loaded: Loaded)
    | Elapse(time: nat)
    | EvictOp(key: int)

  /** The answers of the provider without a cache. */
  function DirectAnswers(crypto: Crypto, permissive: bool, creds: Creds, ops: seq<Op>): seq<AuthOutcome>
    decreases |ops|
  {
    if ops == [] then []
    else match ops[0]
      case Call(info, _) =>
        [Direct(crypto, permissive, creds, info)] + DirectAnswers(crypto, permissive, creds, ops[1..])
      case ReloadOp(Loaded(newCreds)) => DirectAnswers(crypto, permissive, newCreds, ops[1..])
      case _ => DirectAnswers(crypto, permissive, creds, ops[1..])
  }

  /** The answers of the provider with its cache. */
  function CachedAnswers(crypto: Crypto, permissive: bool, c: Config, now: nat, ops: seq<Op>): seq<AuthOutcome>
    decreases |ops|
  {
    if ops == [] then []
    else match ops[0]
      case Call(info, keep) =>
        var (outcome, cache) := CachedAuth(crypto, permissive, c.creds, c.cache, now, keep, info);
        [outcome] + CachedAnswers(crypto, permissive, c.(cache := cache), now, ops[1..])
      case ReloadOp(loaded) => CachedAnswers(crypto, permissive, Reloaded(c, loaded), now, ops[1..])
      case Elapse(time) => CachedAnswers(crypto, permissive, c, now + time, ops[1..])
      case EvictOp(key) =>
        var cache := if c.cache.Some? then Some(c.cache.value - {key}) else None;
        CachedAnswers(crypto, permissive, c.(cache := cache), now, ops[1..])
  }

  /** The verification cache refines no cache: for every history of requests, good and bad reloads,
      expiries, evictions and dropped stores the answers and the infos are the same. */
  lemma {:induction false} CacheRefinesNoCache(crypto: Crypto, permissive: bool, c: Config, now: nat, ops: seq<Op>)
    requires crypto.Injective() && WellKeyed(c.creds) && Faithful(crypto, c.creds, c.cache)
    requires forall i :: 0 <= i < |ops| && ops[i].ReloadOp? && ops[i].loaded.Loaded? ==> WellKeyed(ops[i].loaded.creds)
    ensures CachedAnswers(crypto, permissive, c, now, ops) == DirectAnswers(crypto, permissive, c.creds, ops)
    decreases |ops|
  {
    if ops != [] {
      match ops[0]
      case Call(info, keep) =>
        CachedIsDirect(crypto, permissive, c.creds, c.cache, now, keep, info);
        var (outcome, cache) := CachedAuth(crypto, permissive, c.creds, c.cache, now, keep, info);
        CacheRefinesNoCache(crypto, permissive, c.(cache := cache), now, ops[1..]);
      case ReloadOp(loaded) => CacheRefinesNoCache(crypto, permissive, Reloaded(c, loaded), now, ops[1..]);
      case Elapse(time) => CacheRefinesNoCache(crypto, permissive, c, now + time, ops[1..]);
      case EvictOp(key) =>
        var cache := if c.cache.Some? then Some(c.cache.value - {key}) else None;
        CacheRefinesNoCache(crypto, permissive, c.(cache := cache), now, ops[1..]);
    }
  }

  /** Permissive mode is a pure relaxation: what strict mode admits it admits with the same identity,
      what only permissive mode admits gets no identity, and a wrong password of a known user is
      rejected in both modes. */
  lemma BasicPermissiveRelaxes(crypto: Crypto, creds: Creds, info: Info)
    ensures var strict, lax := Direct(crypto, false, creds, info), Direct(crypto, true, creds, info);
            && (strict.error.NoError? ==> lax == strict)
            && (lax.error.NoError? && !strict.error.NoError? ==> lax.info.user == info.user && lax.info.jwt == info.jwt)
            && (IsBasic(info) && info.auth.value.user != "" && info.auth.value.user in creds
                && !crypto.bcrypt(creds[info.auth.value.user], info.auth.value.password) ==>
                  strict.error.AuthenticationFailed? && lax.error.AuthenticationFailed?)
            && (strict.error.NoError? || strict.error.AuthenticationFailed?)
            && (IsBasic(info) ==> lax.info.auth.Some? && lax.info.auth.value.password == "")
  {
  }
}
