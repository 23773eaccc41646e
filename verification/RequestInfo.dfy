/** Request parsing: internal/types/request.go. */
module RequestInfo {
  import opened Prelude
  import opened Text

  /** http.Header: the values of each name, in order. */
  type Headers = map<string, seq<string>>

  /** What the policy engine sees of a header, and what a policy returns. */
  datatype Value =
    | Str(text: string)
    | Strs(texts: seq<string>)
    | List(items: seq<Value>)
    | Bool(truth: bool)
    | Object(fields: map<string, Value>)
    | Other(repr: string)

  type Values = map<string, Value>

  datatype Auth = Auth(kind: string, token: string, user: string, password: string)

  /** base64.StdEncoding. */
  datatype Codec = Codec(encode: string -> string, decode: string -> Option<string>) {
    /** Decoding undoes encoding, and the alphabet has no space (section 4 of RFC 4648). */
    ghost predicate Lawful() {
      forall x :: decode(encode(x)) == Some(x) && forall c :: c in encode(x) ==> !IsSpace(c)
    }
  }

  /** The request, with the blocked headers that the cleanup handler put in its context. */
  datatype Request = Request(verb: string, path: string, header: Headers, size: int, blocked: Values)

  datatype Info = Info(
    verb: string, path: seq<string>, headers: Values, blocked: Values, auth: Option<Auth>, size: int,
    jwt: Option<Values>, user: Option<string>, result: Option<Values>, url: string)

  datatype AuthError = NoError | AuthenticationFailed | AuthenticationUnavailable | Unexpected

  /** What a provider returns, and the info it leaves behind. */
  datatype AuthOutcome = AuthOutcome(error: AuthError, info: Info)

  // ------------------------------------------------------------------------------------------------
  // Paths.

  function Segments(path: string): seq<string> {
    Split(TrimPrefix(path, "/"), '/')
  }

  /** TruncateURLForMetrics. */
  function Truncate(path: string, segments: seq<string>, level: int): string {
    if level < 0 then path
    else if level == 0 then "/"
    else "/" + Join(segments[..if level < |segments| then level else |segments|], "/")
  }

  /** Joining the segments restores the path exactly when it starts with a slash. */
  lemma SegmentsRebuildPath(path: string)
    ensures "/" + Join(Segments(path), "/") == path <==> "/" <= path
    ensures !("/" <= path) ==> Join(Segments(path), "/") == path
    ensures forall i :: 0 <= i < |Segments(path)| ==> '/' !in Segments(path)[i]
  {
    JoinSplit(TrimPrefix(path, "/"), '/');
    assert "/" <= "/" + Join(Segments(path), "/");
  }

  lemma JoinPrefix(a: seq<string>, b: seq<string>)
    requires a != [] && b != []
    ensures Join(a, "/") + "/" <= Join(a + b, "/")
  {
    JoinConcat(a, b, "/");
    var head, tail := Join(a, "/") + "/", Join(b, "/");
    assert head <= head + tail;
  }

  function Taken(segments: seq<string>, n: int): (k: nat)
    requires 0 < n && segments != []
    ensures 0 < k <= |segments| && k <= n
  {
    if n < |segments| then n else |segments|
  }

  /** The label of a longer cut starts with that of a shorter one, up to a segment boundary. */
  lemma CutIsPrefix(segments: seq<string>, k: nat, k': nat)
    requires 0 < k <= k' <= |segments|
    ensures Join(segments[..k], "/") <= Join(segments[..k'], "/")
    ensures k < k' ==> Join(segments[..k], "/") + "/" <= Join(segments[..k'], "/")
  {
    if k < k' {
      JoinPrefix(segments[..k], segments[k..k']);
      assert segments[..k] + segments[k..k'] == segments[..k'];
    }
  }

  lemma SlashPrefix(a: string, b: string)
    ensures a <= b ==> "/" + a <= "/" + b
    ensures a + "/" <= b ==> |("/" + a)| < |("/" + b)| && ("/" + b)[|("/" + a)|] == '/'
  {
    if a + "/" <= b {
      assert b[|a|] == (a + "/")[|a|];
    }
  }

  /** At level 0 the label is the root, below it the path.  For every level n > 0 it is a prefix of the path
      that ends at a segment boundary and has the first n segments; it grows with n and is the whole path from
      the segment count on. */
  lemma TruncationLaw(path: string, n: int, m: int)
    requires "/" <= path && 0 < n <= m
    ensures var segments := Segments(path);
            var short := Truncate(path, segments, n);
            && Truncate(path, segments, 0) == "/" && Truncate(path, segments, -n) == path
            && short <= path
            && (|short| == |path| || path[|short|] == '/')
            && Segments(short) == segments[..if n < |segments| then n else |segments|]
            && short <= Truncate(path, segments, m)
            && (n >= |segments| ==> short == path)
  {
    var segments := Segments(path);
    var k, k' := Taken(segments, n), Taken(segments, m);
    var head, all := Join(segments[..k], "/"), Join(segments, "/");
    assert segments[..|segments|] == segments;
    SegmentsRebuildPath(path);
    CutIsPrefix(segments, k, k');
    CutIsPrefix(segments, k, |segments|);
    SlashPrefix(head, all);
    SlashPrefix(head, Join(segments[..k'], "/"));
    SplitJoin(segments[..k], '/');
    assert TrimPrefix("/" + head, "/") == head;
  }

  // ------------------------------------------------------------------------------------------------
  // Headers.

  /** One value is stored as a string, any other number as a list. */
  function Pack(values: seq<string>): Value {
    if |values| == 1 then Str(values[0]) else Strs(values)
  }

  function Unpack(v: Value): seq<string> {
    match v
    case Str(text) => [text]
    case Strs(texts) => texts
    case _ => []
  }

  function PackAll(header: Headers): Values {
    map k | k in header :: Pack(header[k])
  }

  function UnpackAll(values: Values): Headers {
    map k | k in values :: Unpack(values[k])
  }

  /** Header values can be unpacked again; a single value is packed as a string, any other number as a list. */
  lemma UnpackPack(header: Headers)
    ensures UnpackAll(PackAll(header)) == header
    ensures forall k :: k in header ==> if |header[k]| == 1 then PackAll(header)[k].Str? else PackAll(header)[k].Strs?
  {
    forall k | k in header
      ensures Unpack(Pack(header[k])) == header[k]
    {
    }
  }

  /** The header loop of `NewInfo`, in whatever order the map is ranged over. */
  method PackHeaders(header: Headers) returns (packed: Values)
    ensures packed == PackAll(header)
  {
    packed := map[];
    var keys := header.Keys;
    while keys != {}
      invariant keys <= header.Keys
      invariant packed.Keys == header.Keys - keys
      invariant forall k :: k in packed ==> packed[k] == Pack(header[k])
      decreases |keys|
    {
      var k :| k in keys;
      if |header[k]| == 1 {
        packed := packed[k := Str(header[k][0])];
      } else {
        packed := packed[k := Strs(header[k])];
      }
      keys := keys - {k};
    }
  }

  // ------------------------------------------------------------------------------------------------
  // Authorization.

  /** User and password of a decoded Basic token (section 2 of RFC 7617). */
  function WithCredentials(a: Auth, decoded: Option<string>): Auth {
    match decoded
    case None => a
    case Some(text) =>
      match Cut(text, ':')
      case None => a.(user := text)
      case Some(parts) => a.(user := parts.0, password := parts.1)
  }

  function ParseAuth(codec: Codec, value: string): Auth {
    var a := match Cut(value, ' ')
      case None => Auth("", value, "", "")
      case Some(parts) => Auth(ToLower(parts.0), TrimSpace(parts.1), "", "");
    if EqualFold(a.kind, "basic") then WithCredentials(a, codec.decode(a.token)) else a
  }

  /** `NewInfo` asserts that the auth header is a single string. */
  datatype Parsed = Parsed(info: Info) | TypePanic

  function NewInfo(codec: Codec, r: Request, authKey: string, level: int): Parsed {
    var segments := Segments(r.path);
    var info := Info(r.verb, segments, PackAll(r.header), r.blocked, None, r.size, None, None, None,
                     Truncate(r.path, segments, level));
    if authKey !in r.header then Parsed(info)
    else if |r.header[authKey]| != 1 then TypePanic
    else Parsed(info.(auth := Some(ParseAuth(codec, r.header[authKey][0]))))
  }

  method BuildInfo(codec: Codec, r: Request, authKey: string, level: int) returns (p: Parsed)
    ensures p == NewInfo(codec, r, authKey, level)
    ensures p.TypePanic? <==> authKey in r.header && |r.header[authKey]| != 1
  {
    var segments := Split(TrimPrefix(r.path, "/"), '/');
    var packed := PackHeaders(r.header);
    var info := Info(r.verb, segments, packed, r.blocked, None, r.size, None, None, None,
                     Truncate(r.path, segments, level));
    if authKey in packed {
      match packed[authKey] {
        case Str(value) =>
          var a := ParseAuth(codec, value);
          info := info.(auth := Some(a));
        case _ => return TypePanic;
      }
    }
    return Parsed(info);
  }

  lemma SchemeHasNoSpace(scheme: string, lower: string, upper: string)
    requires |lower| == |upper| && Spells(scheme, lower, upper) && ' ' !in lower && ' ' !in upper
    ensures ' ' !in scheme
  {
  }

  /** A header value without a space is all token; otherwise the first space ends the scheme, which is put
      in lower case, and the rest is the token, without surrounding space. */
  lemma ParsedKindAndToken(codec: Codec, scheme: string, rest: string)
    requires ' ' !in scheme
    ensures ParseAuth(codec, scheme) == Auth("", scheme, "", "")
    ensures var a := ParseAuth(codec, scheme + " " + rest); a.kind == ToLower(scheme) && a.token == TrimSpace(rest)
  {
    CutConcat(scheme, ' ', rest);
    assert ToLower("") != ToLower("basic");
  }

  /** Round trip: for every colon-free user and any password, every spelling of the scheme and any
      white space around the token, the parsed header gives back exactly that pair. */
  lemma BasicRoundTrip(codec: Codec, scheme: string, left: string, right: string, user: string, password: string)
    requires codec.Lawful() && Spells(scheme, "basic", "BASIC") && ':' !in user
    requires forall c :: c in left || c in right ==> IsSpace(c)
    ensures var token := codec.encode(user + ":" + password);
            ParseAuth(codec, scheme + " " + (left + token + right)) == Auth("basic", token, user, password)
  {
    var token := codec.encode(user + ":" + password);
    LowersTo(scheme, "basic", "BASIC");
    SchemeHasNoSpace(scheme, "basic", "BASIC");
    CutConcat(scheme, ' ', left + token + right);
    TrimPadded(left, token, right);
    CutConcat(user, ':', password);
    assert codec.decode(token) == Some(user + ":" + password);
  }

  /** A bearer header, in every spelling and with any white space around the token. */
  lemma BearerRoundTrip(codec: Codec, scheme: string, left: string, right: string, token: string)
    requires Spells(scheme, "bearer", "BEARER") && Trimmed(token)
    requires forall c :: c in left || c in right ==> IsSpace(c)
    ensures ParseAuth(codec, scheme + " " + (left + token + right)) == Auth("bearer", token, "", "")
  {
    LowersTo(scheme, "bearer", "BEARER");
    SchemeHasNoSpace(scheme, "bearer", "BEARER");
    CutConcat(scheme, ' ', left + token + right);
    TrimPadded(left, token, right);
    assert ToLower("bearer")[1] == 'e' && ToLower("basic")[1] == 'a';
  }

  /** Whatever the header: only the Basic scheme gives user or password, a parsed user has no colon, a
      token that does not decode gives neither, and one that does is exactly user, colon, password (or
      the user alone). */
  lemma ParsedCredentialsExact(codec: Codec, value: string)
    ensures var a := ParseAuth(codec, value);
            && ':' !in a.user
            && (!EqualFold(a.kind, "basic") || codec.decode(a.token).None? ==> a.user == "" && a.password == "")
            && (EqualFold(a.kind, "basic") && codec.decode(a.token).Some? ==>
                  var text := codec.decode(a.token).value;
                  text == (if ':' in text then a.user + ":" + a.password else a.user)
                  && (':' !in text ==> a.password == ""))
  {
  }

  /** The text that the credential cache hashes. */
  function KeyText(user: string, password: string): string {
    user + ":" + password
  }

  /** For colon-free users the key text identifies the pair. */
  lemma KeyTextUnambiguous(user: string, password: string, user': string, password': string)
    requires ':' !in user && ':' !in user'
    requires KeyText(user, password) == KeyText(user', password')
    ensures user == user' && password == password'
  {
    CutConcat(user, ':', password);
    CutConcat(user', ':', password');
  }

  /** GetBearerToken, on the first value of the header (section 2.1 of RFC 6750). */
  function BearerToken(value: string): Option<string> {
    match Cut(value, ' ')
    case None => None
    case Some(parts) => if EqualFold(parts.0, "bearer") then Some(parts.1) else None
  }

  /** The two parsers of the header agree: a bearer token exists exactly when the parsed kind is
      bearer, and the parsed token is that token without surrounding space. */
  lemma BearerAgreesWithInfo(codec: Codec, value: string)
    ensures BearerToken(value).Some? <==> ParseAuth(codec, value).kind == "bearer"
    ensures BearerToken(value).Some? ==> ParseAuth(codec, value).token == TrimSpace(BearerToken(value).value)
  {
    assert ToLower("bearer") == "bearer";
    assert ToLower("basic") == "basic";
    if Cut(value, ' ').Some? {
      ToLowerIdempotent(Cut(value, ' ').value.0);
    }
  }

  /** GetBearerToken finds a token exactly in a header of the form scheme, space, token, with any spelling of
      the scheme. */
  lemma BearerTokenIff(value: string, token: string)
    ensures BearerToken(value) == Some(token) <==>
            exists scheme :: Spells(scheme, "bearer", "BEARER") && value == scheme + " " + token
  {
    LowersTo("bearer", "bearer", "BEARER");
    if BearerToken(value) == Some(token) {
      var scheme := Cut(value, ' ').value.0;
      LowersTo(scheme, "bearer", "BEARER");
      assert value == scheme + " " + token;
    }
    if scheme :| Spells(scheme, "bearer", "BEARER") && value == scheme + " " + token {
      LowersTo(scheme, "bearer", "BEARER");
      SchemeHasNoSpace(scheme, "bearer", "BEARER");
      CutConcat(scheme, ' ', token);
    }
  }

  // ------------------------------------------------------------------------------------------------
  // From the request to the info.

  /** What the info says of every request: verb, size and captured headers as they are, the path and the
      headers in a form that gives them back, a label by level, an authorization exactly if the header is
      there, and no identity or result yet. */
  lemma InfoOfRequest(codec: Codec, r: Request, authKey: string, level: int)
    requires NewInfo(codec, r, authKey, level).Parsed?
    ensures var info := NewInfo(codec, r, authKey, level).info;
            && info.verb == r.verb && info.size == r.size && info.blocked == r.blocked
            && info.jwt == None && info.user == None && info.result == None
            && (info.auth.Some? <==> authKey in r.header)
            && (if "/" <= r.path then "/" else "") + Join(info.path, "/") == r.path
            && (forall i :: 0 <= i < |info.path| ==> '/' !in info.path[i])
            && UnpackAll(info.headers) == r.header
            && (level < 0 ==> info.url == r.path) && (level == 0 ==> info.url == "/")
            && (level > 0 && "/" <= r.path ==>
                  && info.url <= r.path
                  && Segments(info.url) == info.path[..if level < |info.path| then level else |info.path|])
  {
    SegmentsRebuildPath(r.path);
    UnpackPack(r.header);
    if level > 0 && "/" <= r.path {
      TruncationLaw(r.path, level, level);
    }
  }

  /** The credentials of a Basic header, from the request to the info. */
  lemma BasicHeaderReachesInfo(codec: Codec, r: Request, authKey: string, level: int, scheme: string,
                               left: string, right: string, user: string, password: string)
    requires codec.Lawful() && Spells(scheme, "basic", "BASIC") && ':' !in user
    requires forall c :: c in left || c in right ==> IsSpace(c)
    requires var token := codec.encode(user + ":" + password);
             authKey in r.header && r.header[authKey] == [scheme + " " + (left + token + right)]
    ensures var parsed := NewInfo(codec, r, authKey, level);
            var token := codec.encode(user + ":" + password);
            parsed.Parsed? && parsed.info.auth == Some(Auth("basic", token, user, password))
  {
    BasicRoundTrip(codec, scheme, left, right, user, password);
  }

  /** The token of a bearer header, from the request to the info. */
  lemma BearerHeaderReachesInfo(codec: Codec, r: Request, authKey: string, level: int, scheme: string,
                                left: string, right: string, token: string)
    requires Spells(scheme, "bearer", "BEARER") && Trimmed(token)
    requires forall c :: c in left || c in right ==> IsSpace(c)
    requires authKey in r.header && r.header[authKey] == [scheme + " " + (left + token + right)]
    ensures var parsed := NewInfo(codec, r, authKey, level);
            parsed.Parsed? && parsed.info.auth == Some(Auth("bearer", token, "", ""))
  {
    BearerRoundTrip(codec, scheme, left, right, token);
  }
}
