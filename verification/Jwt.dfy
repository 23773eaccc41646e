/** The issuer and audience search: internal/jwtsupport/jwt.go. */
module Jwt {
  import opened Prelude
  import opened Text
  import opened RequestInfo

  datatype KeySet = KeySet(id: string)

  datatype WellKnown = WellKnown(jwksUri: string, sourceUrl: string)

  datatype Fetch = Fetched(keys: KeySet) | FetchError(text: string)

  datatype Parse = Claims(fields: Values) | ParseError(text: string)

  /** The world outside: documents, key sets and the token library. */
  datatype Outside = Outside(
    document: string -> Option<string>,            // the jwks_uri of a well-known document that loads
    keysAt: string -> Option<KeySet>,              // a key set that loads at startup
    refresh: string -> Fetch,                      // jwk.Cache.Get at request time
    parse: (string, KeySet, string) -> Parse)      // jwt.Parse with verification, for one audience

  predicate IsFileUrl(url: string) {
    "file:" <= url
  }

  predicate IsLocal(wk: WellKnown) {
    IsFileUrl(wk.sourceUrl)
  }

  // ------------------------------------------------------------------------------------------------
  // Loading.

  /** The non-None elements, in order. */
  function Present<T>(xs: seq<Option<T>>): (ys: seq<T>)
    ensures |ys| <= |xs|
  {
    if xs == [] then []
    else Present(xs[..|xs| - 1]) + if xs[|xs| - 1].Some? then [xs[|xs| - 1].value] else []
  }

  function WellKnownOf(world: Outside, url: string): Option<WellKnown> {
    if url == "" || world.document(url).None? then None
    else Some(WellKnown(world.document(url).value, url))
  }

  /** The key set of an entry; None when `LoadJWKS` skips it. */
  function KeysOf(world: Outside, wk: WellKnown): Option<KeySet> {
    if IsFileUrl(wk.sourceUrl) != IsFileUrl(wk.jwksUri) then None else world.keysAt(wk.jwksUri)
  }

  function AllWellKnown(world: Outside, urls: seq<string>): seq<Option<WellKnown>> {
    seq(|urls|, i requires 0 <= i < |urls| => WellKnownOf(world, urls[i]))
  }

  function AllKeys(world: Outside, list: seq<WellKnown>): seq<Option<KeySet>> {
    seq(|list|, i requires 0 <= i < |list| => KeysOf(world, list[i]))
  }

  method LoadWellKnowns(world: Outside, urls: seq<string>) returns (list: seq<WellKnown>)
    ensures list == Present(AllWellKnown(world, urls))
  {
    list := [];
    ghost var all := AllWellKnown(world, urls);
    for i := 0 to |urls|
      invariant list == Present(all[..i])
    {
      assert all[..i + 1][..i] == all[..i];
      if urls[i] == "" {
        continue;
      }
      var uri := world.document(urls[i]);
      if uri.None? {
        continue;
      }
      list := list + [WellKnown(uri.value, urls[i])];
    }
    assert all[..|urls|] == all;
  }

  method LoadJwks(world: Outside, list: seq<WellKnown>) returns (jwks: seq<KeySet>)
    ensures jwks == Present(AllKeys(world, list))
  {
    jwks := [];
    ghost var all := AllKeys(world, list);
    for i := 0 to |list|
      invariant jwks == Present(all[..i])
    {
      assert all[..i + 1][..i] == all[..i];
      if IsFileUrl(list[i].sourceUrl) != IsFileUrl(list[i].jwksUri) {
        continue;
      }
      var keys := world.keysAt(list[i].jwksUri);
      if keys.None? {
        continue;
      }
      jwks := jwks + [keys.value];
    }
    assert all[..|list|] == all;
  }

  lemma {:induction false} PresentIff<T>(xs: seq<Option<T>>, y: T)
    ensures y in Present(xs) <==> Some(y) in xs
  {
    if xs != [] {
      PresentIff(xs[..|xs| - 1], y);
      assert xs == xs[..|xs| - 1] + [xs[|xs| - 1]];
    }
  }

  /** The list has an entry for every configured URL that is not empty and has a document, with the key set
      URL of that document. */
  lemma WellKnownIff(world: Outside, urls: seq<string>, wk: WellKnown)
    ensures wk in Present(AllWellKnown(world, urls)) <==>
            wk.sourceUrl in urls && wk.sourceUrl != "" && world.document(wk.sourceUrl) == Some(wk.jwksUri)
  {
    var all := AllWellKnown(world, urls);
    PresentIff(all, wk);
    if wk.sourceUrl in urls && wk.sourceUrl != "" && world.document(wk.sourceUrl) == Some(wk.jwksUri) {
      var i :| 0 <= i < |urls| && urls[i] == wk.sourceUrl;
      assert all[i] == Some(wk);
    }
  }

  /** An entry's key set is that of its key set URL, if this and the document's URL are both files or both
      remote. */
  lemma KeysOfIff(world: Outside, wk: WellKnown, keys: KeySet)
    ensures KeysOf(world, wk) == Some(keys) <==>
            world.keysAt(wk.jwksUri) == Some(keys) && ("file:" <= wk.sourceUrl <==> "file:" <= wk.jwksUri)
    ensures IsLocal(wk) <==> "file:" <= wk.sourceUrl
  {
  }

  /** Element `i` of the source ends up at the number of elements kept before it. */
  lemma {:induction false} PresentAt<T>(xs: seq<Option<T>>, i: nat)
    requires i < |xs| && xs[i].Some?
    ensures |Present(xs[..i])| < |Present(xs)| && Present(xs)[|Present(xs[..i])|] == xs[i].value
  {
    var k := |xs| - 1;
    if i < k {
      PresentAt(xs[..k], i);
      assert xs[..k][..i] == xs[..i];
    }
  }

  lemma {:induction false} PresentFull<T>(xs: seq<Option<T>>)
    ensures |Present(xs)| == |xs| <==> forall i :: 0 <= i < |xs| ==> xs[i].Some?
  {
    if xs != [] {
      PresentFull(xs[..|xs| - 1]);
    }
  }

  /** A kept element ends up at its own position exactly when nothing before it is skipped, and at a smaller
      one otherwise. */
  lemma KeptInPlaceIff<T>(xs: seq<Option<T>>, i: nat)
    requires i < |xs| && xs[i].Some?
    ensures var k := |Present(xs[..i])|;
            && k <= i && k < |Present(xs)| && Present(xs)[k] == xs[i].value
            && (k == i <==> forall j :: 0 <= j < i ==> xs[j].Some?)
  {
    PresentAt(xs, i);
    PresentFull(xs[..i]);
    assert forall j :: 0 <= j < i ==> xs[..i][j] == xs[j];
  }

  /** Where the element at a position comes from. */
  lemma {:induction false} PresentFrom<T>(xs: seq<Option<T>>, k: nat) returns (i: nat)
    requires k < |Present(xs)|
    ensures i < |xs| && xs[i] == Some(Present(xs)[k]) && |Present(xs[..i])| == k
  {
    var last := |xs| - 1;
    if k < |Present(xs[..last])| {
      i := PresentFrom(xs[..last], k);
      assert xs[..last][..i] == xs[..i];
    } else {
      i := last;
    }
  }

  // ------------------------------------------------------------------------------------------------
  // The search.

  datatype Found = Found(fields: Values) | NotFound(lastError: Option<string>) | IndexPanic

  datatype Provider = Provider(
    world: Outside, list: seq<WellKnown>, jwks: seq<KeySet>, audiences: seq<string>, kind: string)

  /** The key set that issuer `i` is checked with; None when it cannot be fetched. */
  function KeysFor(p: Provider, i: nat): Option<KeySet>
    requires i < |p.list|
  {
    if IsLocal(p.list[i]) then if i < |p.jwks| then Some(p.jwks[i]) else None
    else match p.world.refresh(p.list[i].jwksUri)
      case Fetched(keys) => Some(keys)
      case FetchError(_) => None
  }

  predicate Verifies(p: Provider, token: string, i: int, a: int) {
    0 <= i < |p.list| && 0 <= a < |p.audiences| && KeysFor(p, i).Some?
    && p.world.parse(token, KeysFor(p, i).value, p.audiences[a]).Claims?
  }

  function ClaimsAt(p: Provider, token: string, i: int, a: int): Values
    requires Verifies(p, token, i, a)
  {
    p.world.parse(token, KeysFor(p, i).value, p.audiences[a]).fields
  }

  predicate Before(i: int, a: int, j: int, b: int) {
    i < j || (i == j && a < b)
  }

  /** Every local issuer has a position in the list of key sets. */
  predicate InRange(p: Provider) {
    forall i :: 0 <= i < |p.list| && IsLocal(p.list[i]) ==> i < |p.jwks|
  }

  /** The error that issuer `i` leaves when it does not verify the token: the fetch error, or that of
      the last audience. */
  function ErrorAt(p: Provider, token: string, i: nat): Option<string>
    requires i < |p.list|
  {
    if !IsLocal(p.list[i]) && p.world.refresh(p.list[i].jwksUri).FetchError?
    then Some(p.world.refresh(p.list[i].jwksUri).text)
    else if p.audiences == [] || KeysFor(p, i).None? then None
    else match p.world.parse(token, KeysFor(p, i).value, p.audiences[|p.audiences| - 1])
      case ParseError(text) => Some(text)
      case Claims(_) => None
  }

  /** The error of the last of the first `n` issuers that leaves one. */
  function LastError(p: Provider, token: string, n: nat): Option<string>
    requires n <= |p.list|
  {
    if n == 0 then None
    else if ErrorAt(p, token, n - 1).Some? then ErrorAt(p, token, n - 1)
    else LastError(p, token, n - 1)
  }

  /** The first audience from `a` on for which issuer `i` verifies the token. */
  function FirstAudience(p: Provider, token: string, i: nat, a: nat): (r: Option<nat>)
    requires i < |p.list| && a <= |p.audiences|
    ensures r.Some? ==> && a <= r.value && Verifies(p, token, i, r.value)
                        && forall b :: a <= b < r.value ==> !Verifies(p, token, i, b)
    ensures r.None? ==> forall b :: a <= b < |p.audiences| ==> !Verifies(p, token, i, b)
    decreases |p.audiences| - a
  {
    if a == |p.audiences| then None
    else if Verifies(p, token, i, a) then Some(a)
    else FirstAudience(p, token, i, a + 1)
  }

  /** The result of the search from issuer `i` on. */
  function Searched(p: Provider, token: string, i: nat): Found
    requires i <= |p.list|
    decreases |p.list| - i
  {
    if i == |p.list| then NotFound(LastError(p, token, i))
    else if IsLocal(p.list[i]) && i >= |p.jwks| then IndexPanic
    else match FirstAudience(p, token, i, 0)
      case Some(a) => Found(ClaimsAt(p, token, i, a))
      case None => Searched(p, token, i + 1)
  }

  /** The inner loop: the audiences of one issuer. */
  method TryAudiences(p: Provider, token: string, i: nat, keys: KeySet, lastError: Option<string>)
    returns (fields: Option<Values>, last: Option<string>)
    requires i < |p.list| && KeysFor(p, i) == Some(keys)
    ensures var a := FirstAudience(p, token, i, 0);
            fields == if a.Some? then Some(ClaimsAt(p, token, i, a.value)) else None
    ensures fields.None? ==> last == if ErrorAt(p, token, i).Some? then ErrorAt(p, token, i) else lastError
  {
    last := lastError;
    for a := 0 to |p.audiences|
      invariant FirstAudience(p, token, i, 0) == FirstAudience(p, token, i, a)
      invariant a == 0 ==> last == lastError
      invariant a > 0 ==> p.world.parse(token, keys, p.audiences[a - 1]) == ParseError(last.GetOr("")) && last.Some?
    {
      match p.world.parse(token, keys, p.audiences[a]) {
        case ParseError(text) => last := Some(text);
        case Claims(found) =>
          assert Verifies(p, token, i, a);
          fields := Some(found);
          return;
      }
    }
    fields := None;
  }

  /** The first issuer and audience, in list order, that verify the token decide. */
  lemma {:induction false} SearchedIsFirst(p: Provider, token: string, i: nat)
    requires i <= |p.list| && forall j, b :: j < i ==> !Verifies(p, token, j, b)
    ensures var r := Searched(p, token, i);
            && (InRange(p) ==> !r.IndexPanic? && (r.Found? <==> exists j, b :: Verifies(p, token, j, b)))
            && (r.Found? ==> exists j, b :: Verifies(p, token, j, b) && r.fields == ClaimsAt(p, token, j, b)
                                            && forall k, c :: Before(k, c, j, b) ==> !Verifies(p, token, k, c))
            && (r.NotFound? ==>
                  r.lastError == LastError(p, token, |p.list|) && forall j, b :: !Verifies(p, token, j, b))
    decreases |p.list| - i
  {
    if i < |p.list| && !(IsLocal(p.list[i]) && i >= |p.jwks|) {
      var first := FirstAudience(p, token, i, 0);
      if first.Some? {
        assert Verifies(p, token, i, first.value);
      } else {
        SearchedIsFirst(p, token, i + 1);
      }
    }
  }

  /** The outer loop. */
  method Search(p: Provider, token: string) returns (r: Found)
    ensures r == Searched(p, token, 0)
  {
    var lastError: Option<string> := None;
    for i := 0 to |p.list|
      invariant lastError == LastError(p, token, i)
      invariant Searched(p, token, 0) == Searched(p, token, i)
    {
      var keys: KeySet;
      if IsLocal(p.list[i]) {
        if i >= |p.jwks| {
          return IndexPanic;
        }
        keys := p.jwks[i];
      } else {
        match p.world.refresh(p.list[i].jwksUri) {
          case FetchError(text) =>
            lastError := Some(text);
            continue;
          case Fetched(current) => keys := current;
        }
      }
      var fields, last := TryAudiences(p, token, i, keys, lastError);
      if fields.Some? {
        return Found(fields.value);
      }
      lastError := last;
    }
    return NotFound(lastError);
  }

  // ------------------------------------------------------------------------------------------------
  // The decision.

  predicate Contains(s: string, sub: string) {
    sub <= s || (s != "" && Contains(s[1..], sub))
  }

  predicate SystemError(text: string) {
    Contains(text, "failed to fetch") || Contains(text, "connection") || Contains(text, "timeout")
  }

  datatype Answer = Answer(outcome: AuthOutcome) | Crash

  function Answered(permissive: bool, info: Info, r: Found): Answer {
    match r
    case IndexPanic => Crash
    case Found(fields) => Answer(AuthOutcome(NoError, info.(jwt := Some(fields))))
    case NotFound(None) => Answer(AuthOutcome(AuthenticationUnavailable, info))
    case NotFound(Some(text)) =>
      if permissive then Answer(AuthOutcome(NoError, info))
      else Answer(AuthOutcome(if SystemError(text) then AuthenticationUnavailable else AuthenticationFailed, info))
  }

  predicate RightKind(p: Provider, info: Info) {
    info.auth.Some? && EqualFold(info.auth.value.kind, p.kind)
  }

  function Decided(p: Provider, permissive: bool, info: Info): Answer {
    if info.auth.None? then Answer(AuthOutcome(NoError, info))
    else if !RightKind(p, info) then Answer(AuthOutcome(if permissive then NoError else AuthenticationFailed, info))
    else Answered(permissive, info, Searched(p, info.auth.value.token, 0))
  }

  method Authenticate(p: Provider, permissive: bool, info: Info) returns (answer: Answer)
    ensures answer == Decided(p, permissive, info)
  {
    if info.auth.None? {
      return Answer(AuthOutcome(NoError, info));
    }
    if !EqualFold(info.auth.value.kind, p.kind) {
      if !permissive {
        return Answer(AuthOutcome(AuthenticationFailed, info));
      }
      return Answer(AuthOutcome(NoError, info));
    }
    var r := Search(p, info.auth.value.token);
    match r {
      case IndexPanic => return Crash;
      case Found(fields) => return Answer(AuthOutcome(NoError, info.(jwt := Some(fields))));
      case NotFound(lastError) =>
        if lastError.Some? {
          if !permissive {
            var text := lastError.value;
            if Contains(text, "failed to fetch") || Contains(text, "connection") || Contains(text, "timeout") {
              return Answer(AuthOutcome(AuthenticationUnavailable, info));
            }
            return Answer(AuthOutcome(AuthenticationFailed, info));
          }
          return Answer(AuthOutcome(NoError, info));
        }
        return Answer(AuthOutcome(AuthenticationUnavailable, info));
    }
  }

  /** The three texts are looked for anywhere in the error. */
  lemma {:induction false} ContainsIff(s: string, sub: string)
    ensures Contains(s, sub) <==> exists a, b :: s == a + sub + b
  {
    if sub <= s {
      assert s == "" + sub + s[|sub|..];
    } else if s != "" {
      ContainsIff(s[1..], sub);
      if Contains(s[1..], sub) {
        var a, b :| s[1..] == a + sub + b;
        assert s == ([s[0]] + a) + sub + b;
      }
      forall a, b | s == a + sub + b
        ensures exists a', b' :: s[1..] == a' + sub + b'
      {
        assert a != "";
        assert s[1..] == a[1..] + sub + b;
      }
    }
  }

  lemma SystemErrorIff(text: string)
    ensures SystemError(text) <==>
            || (exists a, b :: text == a + "failed to fetch" + b)
            || (exists a, b :: text == a + "connection" + b)
            || (exists a, b :: text == a + "timeout" + b)
  {
    ContainsIff(text, "failed to fetch");
    ContainsIff(text, "connection");
    ContainsIff(text, "timeout");
  }

  /** Strict mode lets a request through exactly when it has no authorization header, or one of the right kind
      with a token that some issuer and audience verify; a header of another kind is refused.  Permissive mode
      lets both through as they are. */
  lemma StrictAdmitsIff(p: Provider, info: Info)
    requires InRange(p)
    ensures var strict, lax := Decided(p, false, info), Decided(p, true, info);
            && strict.Answer? && lax.Answer?
            && (strict.outcome.error.NoError? <==>
                  info.auth.None? || (ToLower(info.auth.value.kind) == ToLower(p.kind)
                                      && exists i, a :: Verifies(p, info.auth.value.token, i, a)))
            && (info.auth.Some? && ToLower(info.auth.value.kind) != ToLower(p.kind) ==>
                  strict.outcome == AuthOutcome(AuthenticationFailed, info))
            && (info.auth.None? || ToLower(info.auth.value.kind) != ToLower(p.kind) ==>
                  lax.outcome == AuthOutcome(NoError, info))
  {
    if RightKind(p, info) {
      SearchedIsFirst(p, info.auth.value.token, 0);
    }
  }

  /** For a provider with issuers and audiences, a token of the right kind that nobody verifies is let
      through as anonymous in permissive mode; in strict mode it is "unavailable" exactly when the last
      issuer's last error is a system error, whatever went wrong with the issuers before, and rejected
      otherwise. */
  lemma LastIssuerDecides(p: Provider, info: Info)
    requires p.list != [] && p.audiences != [] && InRange(p) && RightKind(p, info)
    requires forall i, a :: !Verifies(p, info.auth.value.token, i, a)
    ensures var last := ErrorAt(p, info.auth.value.token, |p.list| - 1);
            && last.Some?
            && (match KeysFor(p, |p.list| - 1)
                case None => p.world.refresh(p.list[|p.list| - 1].jwksUri) == FetchError(last.value)
                case Some(keys) =>
                  p.world.parse(info.auth.value.token, keys, p.audiences[|p.audiences| - 1]) == ParseError(last.value))
            && Decided(p, true, info) == Answer(AuthOutcome(NoError, info))
            && var error := if SystemError(last.value) then AuthenticationUnavailable else AuthenticationFailed;
               Decided(p, false, info) == Answer(AuthOutcome(error, info))
  {
    var token := info.auth.value.token;
    assert !Verifies(p, token, |p.list| - 1, |p.audiences| - 1);
    SearchedIsFirst(p, token, 0);
  }

  /** The key set of issuer `i` itself: loaded at startup, or fetched now. */
  function OwnKeys(p: Provider, i: nat): Option<KeySet>
    requires i < |p.list|
  {
    if IsLocal(p.list[i]) then KeysOf(p.world, p.list[i])
    else match p.world.refresh(p.list[i].jwksUri)
      case Fetched(keys) => Some(keys)
      case FetchError(_) => None
  }

  /** Startup loaded the key sets of every entry up to the last local issuer. */
  predicate LocalsLoaded(p: Provider) {
    forall i, k :: 0 <= k <= i < |p.list| && IsLocal(p.list[i]) ==> KeysOf(p.world, p.list[k]).Some?
  }

  /** Every issuer is checked with its own keys, and no index is out of range. */
  predicate Aligned(p: Provider) {
    InRange(p) && forall i :: 0 <= i < |p.list| ==> KeysFor(p, i) == OwnKeys(p, i)
  }

  /** No two entries loaded the same key set. */
  predicate DistinctKeys(p: Provider) {
    forall i, j :: 0 <= i < j < |p.list| && KeysOf(p.world, p.list[i]).Some? ==>
      KeysOf(p.world, p.list[i]) != KeysOf(p.world, p.list[j])
  }

  predicate Started(p: Provider) {
    p.jwks == Present(AllKeys(p.world, p.list))
  }

  lemma LoadedLocalIsOwn(p: Provider, i: nat)
    requires Started(p) && LocalsLoaded(p) && i < |p.list| && IsLocal(p.list[i])
    ensures i < |p.jwks| && KeysFor(p, i) == OwnKeys(p, i)
  {
    var all := AllKeys(p.world, p.list);
    assert forall k :: 0 <= k < |all| ==> all[k] == KeysOf(p.world, p.list[k]);
    assert all[i].Some?;
    KeptInPlaceIff(all, i);
  }

  lemma OwnLocalIsLoaded(p: Provider, i: nat, k: nat)
    requires Started(p) && Aligned(p) && DistinctKeys(p) && k <= i < |p.list| && IsLocal(p.list[i])
    ensures KeysOf(p.world, p.list[k]).Some?
  {
    var all := AllKeys(p.world, p.list);
    assert forall j :: 0 <= j < |all| ==> all[j] == KeysOf(p.world, p.list[j]);
    assert KeysFor(p, i) == OwnKeys(p, i) == Some(p.jwks[i]);
    var e := PresentFrom(all, i);
    assert KeysOf(p.world, p.list[e]) == KeysOf(p.world, p.list[i]);
    assert e == i;
    KeptInPlaceIff(all, i);
  }

  /** Each issuer is checked with its own keys if every entry up to the last local issuer was loaded, and,
      unless two entries have the same keys, only then: entries after it, and remote issuers on their own,
      may be skipped. */
  lemma AlignedIffLocalsLoaded(p: Provider)
    requires Started(p)
    ensures LocalsLoaded(p) ==> Aligned(p)
    ensures DistinctKeys(p) ==> (Aligned(p) <==> LocalsLoaded(p))
  {
    if LocalsLoaded(p) {
      forall i | 0 <= i < |p.list|
        ensures (IsLocal(p.list[i]) ==> i < |p.jwks|) && KeysFor(p, i) == OwnKeys(p, i)
      {
        if IsLocal(p.list[i]) {
          LoadedLocalIsOwn(p, i);
        }
      }
    }
    if DistinctKeys(p) && Aligned(p) {
      forall i, k | 0 <= k <= i < |p.list| && IsLocal(p.list[i])
        ensures KeysOf(p.world, p.list[k]).Some?
      {
        OwnLocalIsLoaded(p, i, k);
      }
    }
  }

  /** No issuer before `j` verifies the token, and `j` is local and has no position. */
  predicate FallsOff(p: Provider, token: string, j: int) {
    0 <= j < |p.list| && IsLocal(p.list[j]) && j >= |p.jwks|
    && forall i, a :: 0 <= i < j && 0 <= a < |p.audiences| ==> !Verifies(p, token, i, a)
  }

  /** The search indexes out of range exactly when it reaches a local issuer without a position. */
  lemma {:induction false} PanicIff(p: Provider, token: string, i: nat)
    requires i <= |p.list| && forall k, a :: 0 <= k < i && 0 <= a < |p.audiences| ==> !Verifies(p, token, k, a)
    requires forall k :: 0 <= k < i && IsLocal(p.list[k]) ==> k < |p.jwks|
    ensures Searched(p, token, i).IndexPanic? <==> exists j :: FallsOff(p, token, j)
    decreases |p.list| - i
  {
    if i < |p.list| {
      if IsLocal(p.list[i]) && i >= |p.jwks| {
        assert FallsOff(p, token, i);
      } else if FirstAudience(p, token, i, 0).None? {
        PanicIff(p, token, i + 1);
      } else {
        assert Verifies(p, token, i, FirstAudience(p, token, i, 0).value);
      }
    }
  }

  predicate SomeoneVouches(p: Provider, token: string) {
    exists i: nat, a: nat ::
      && i < |p.list| && a < |p.audiences| && OwnKeys(p, i).Some?
      && p.world.parse(token, OwnKeys(p, i).value, p.audiences[a]).Claims?
  }

  /** Claims are set exactly when the token is of the right kind and some issuer whose key set is available
      verifies it for some audience; a failed search leaves the info alone. */
  predicate DecidesRight(p: Provider, permissive: bool, info: Info) {
    var answer := Decided(p, permissive, info);
    && answer.Answer?
    && (answer.outcome.info.jwt.Some? <==> RightKind(p, info) && SomeoneVouches(p, info.auth.value.token))
    && (answer.outcome.info.jwt.Some? ==> answer.outcome.error.NoError?)
    && (answer.outcome.info.jwt.None? ==> answer.outcome.info == info)
  }

  lemma VerifiesIsVouching(p: Provider, token: string)
    requires Aligned(p)
    ensures SomeoneVouches(p, token) <==> exists i, a :: Verifies(p, token, i, a)
  {
    if i, a :| Verifies(p, token, i, a) {
      assert KeysFor(p, i) == OwnKeys(p, i);
      assert SomeoneVouches(p, token);
    }
    if i: nat, a: nat :| i < |p.list| && a < |p.audiences| && OwnKeys(p, i).Some?
                         && p.world.parse(token, OwnKeys(p, i).value, p.audiences[a]).Claims? {
      assert KeysFor(p, i) == OwnKeys(p, i);
      assert Verifies(p, token, i, a);
    }
  }

  /** If startup loaded every entry up to the last local issuer, the decision is right in both modes. */
  lemma ClaimsIffSomeoneVouches(p: Provider, permissive: bool, info: Info)
    requires Started(p) && LocalsLoaded(p) && info.jwt.None?
    ensures DecidesRight(p, permissive, info)
  {
    AlignedIffLocalsLoaded(p);
    if RightKind(p, info) {
      SearchedIsFirst(p, info.auth.value.token, 0);
      VerifiesIsVouching(p, info.auth.value.token);
    }
  }

  /** The same provider when remote issuers and the token library behave as given. */
  function With(p: Provider, refresh: string -> Fetch, parse: (string, KeySet, string) -> Parse): Provider {
    p.(world := p.world.(refresh := refresh, parse := parse))
  }

  function Offline(url: string): Fetch {
    FetchError(url)
  }

  function AcceptsNone(token: string, keys: KeySet, audience: string): Parse {
    ParseError(audience)
  }

  function AcceptsOnly(wanted: KeySet): (string, KeySet, string) -> Parse {
    (token: string, keys: KeySet, audience: string) => if keys == wanted then Claims(map[]) else ParseError(audience)
  }

  /** A local issuer without a position makes the provider crash on every token that nobody verifies. */
  lemma OutOfRangeCrashes(p: Provider, permissive: bool, info: Info)
    requires !InRange(p) && RightKind(p, info)
    ensures !DecidesRight(With(p, Offline, AcceptsNone), permissive, info)
  {
    var q, token := With(p, Offline, AcceptsNone), info.auth.value.token;
    assert forall i, a :: !Verifies(q, token, i, a);
    var i :| 0 <= i < |p.list| && IsLocal(p.list[i]) && i >= |p.jwks|;
    assert FallsOff(q, token, i);
    PanicIff(q, token, 0);
  }

  /** A local issuer checked with the keys of a remote one admits tokens that no available issuer signed. */
  lemma WrongKeysAdmit(p: Provider, permissive: bool, info: Info, i: nat, e: nat)
    requires InRange(p) && DistinctKeys(p) && RightKind(p, info) && p.audiences != []
    requires i < |p.list| && IsLocal(p.list[i]) && e < |p.list| && !IsLocal(p.list[e])
    requires KeysOf(p.world, p.list[e]) == KeysFor(p, i)
    ensures !DecidesRight(With(p, Offline, AcceptsOnly(p.jwks[i])), permissive, info)
  {
    var q, token := With(p, Offline, AcceptsOnly(p.jwks[i])), info.auth.value.token;
    assert Verifies(q, token, i, 0);
    SearchedIsFirst(q, token, 0);
    forall j: nat | j < |q.list| && OwnKeys(q, j).Some?
      ensures OwnKeys(q, j).value != p.jwks[i]
    {
      assert OwnKeys(q, j) == KeysOf(p.world, p.list[j]) && j != e;
    }
    assert !SomeoneVouches(q, token);
  }

  lemma LastLocal(p: Provider, i: nat) returns (last: nat)
    requires i < |p.list| && IsLocal(p.list[i])
    ensures i <= last < |p.list| && IsLocal(p.list[last])
    ensures forall j :: last < j < |p.list| ==> !IsLocal(p.list[j])
    decreases |p.list| - i
  {
    if j: nat :| i < j < |p.list| && IsLocal(p.list[j]) {
      last := LastLocal(p, j);
    } else {
      last := i;
    }
  }

  /** The last local issuer is checked with the keys of a later entry if something before it was skipped. */
  lemma SkipShifts(p: Provider, last: nat, k: nat) returns (e: nat)
    requires Started(p) && k <= last < |p.list| && last < |p.jwks| && KeysOf(p.world, p.list[k]).None?
    ensures last < e < |p.list| && KeysOf(p.world, p.list[e]) == Some(p.jwks[last])
  {
    var all := AllKeys(p.world, p.list);
    assert forall j :: 0 <= j < |all| ==> all[j] == KeysOf(p.world, p.list[j]);
    e := PresentFrom(all, last);
    KeptInPlaceIff(all, e);
  }

  /** The condition is exact: the decision is right whatever remote issuers and tokens do, if and only if
      startup loaded every entry up to the last local issuer. */
  lemma AlwaysRightIffLocalsLoaded(p: Provider, permissive: bool, info: Info)
    requires Started(p) && DistinctKeys(p) && p.audiences != [] && RightKind(p, info) && info.jwt.None?
    ensures LocalsLoaded(p) <==> forall refresh, parse :: DecidesRight(With(p, refresh, parse), permissive, info)
  {
    if LocalsLoaded(p) {
      forall refresh, parse
        ensures DecidesRight(With(p, refresh, parse), permissive, info)
      {
        var q := With(p, refresh, parse);
        assert AllKeys(q.world, q.list) == AllKeys(p.world, p.list);
        ClaimsIffSomeoneVouches(q, permissive, info);
      }
    } else {
      var i: nat, k: nat :| k <= i < |p.list| && IsLocal(p.list[i]) && KeysOf(p.world, p.list[k]).None?;
      if InRange(p) {
        var last := LastLocal(p, i);
        var e := SkipShifts(p, last, k);
        WrongKeysAdmit(p, permissive, info, last, e);
      } else {
        OutOfRangeCrashes(p, permissive, info);
      }
    }
  }

  /** The skip is not harmless: if the first of two local issuers does not load, it is checked with the keys
      of the second, which are at position 0, and the second has no position, so that the search falls off
      the list for every token that those keys do not verify. */
  lemma SkipMisaligns(world: Outside, first: WellKnown, second: WellKnown, audiences: seq<string>, kind: string)
    requires IsLocal(first) && IsLocal(second)
    requires KeysOf(world, first).None? && KeysOf(world, second).Some?
    ensures var p := Provider(world, [first, second], Present(AllKeys(world, [first, second])), audiences, kind);
            && p.jwks == [KeysOf(world, second).value] && !InRange(p)
            && KeysFor(p, 0) == KeysOf(world, second)
            && forall token :: Searched(p, token, 0).IndexPanic? <==>
                 forall a :: 0 <= a < |audiences| ==> !Verifies(p, token, 0, a)
  {
    var all := AllKeys(world, [first, second]);
    assert all == [None, KeysOf(world, second)];
    assert all[..1] == [None] && all[..1][..0] == [];
    assert Present(all) == [KeysOf(world, second).value];
    var p := Provider(world, [first, second], Present(all), audiences, kind);
    forall token
      ensures Searched(p, token, 0).IndexPanic? <==> forall a :: 0 <= a < |audiences| ==> !Verifies(p, token, 0, a)
    {
      PanicIff(p, token, 0);
      if forall a :: 0 <= a < |audiences| ==> !Verifies(p, token, 0, a) {
        assert p.list[1] == second && |p.jwks| == 1;
        assert FallsOff(p, token, 1);
      }
    }
  }

  /** Permissive mode is a pure relaxation of the search as well: every strict success is a permissive
      success with the same claims, what only permissive mode admits has no claims, and a provider
      without issuers is unavailable in both modes. */
  lemma JwtPermissiveRelaxes(p: Provider, info: Info)
    ensures var strict, lax := Decided(p, false, info), Decided(p, true, info);
            && (strict.Crash? <==> lax.Crash?)
            && (strict.Answer? && strict.outcome.error.NoError? ==> lax == strict)
            && (strict.Answer? && !strict.outcome.error.NoError? && lax.outcome.error.NoError? ==>
                  lax.outcome.info == info)
            && (p.list == [] && RightKind(p, info) ==>
                  strict == lax == Answer(AuthOutcome(AuthenticationUnavailable, info)))
  {
  }
}
