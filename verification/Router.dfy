/**
 The request pipeline in the order of internal/router/router.go: cleanup, wrap, auth, policy, header
 forwarding, up to the request handed to the reverse proxy.
 */
module Router {
  import opened Prelude
  import opened RequestInfo
  import opened Headers

  datatype Validation = Result(value: Value) | EvalError | NilDereference

  datatype Proxy = Proxy(
    codec: Codec,
    authKey: string,
    level: int,
    expose: bool,                              // config.ExposeBlockedHeaders
    sprint: Value -> string,
    auth: (Info, Request) -> AuthOutcome,      // the provider, in its present state
    challenge: Option<string>,                 // types.AuthChallenger
    validate: Info -> Validation)              // the policy, in its present state

  datatype Outcome =
    | Rejected(status: int, challenge: Option<string>, info: Info)
    | Panicked
    | Forwarded(request: Request, info: Info)

  datatype Decision = Stop(outcome: Outcome) | Go(info: Info, result: Values)

  /** policyHandler: everything but an object whose `allow` is the boolean true stops the request. */
  function Policy(info: Info, v: Validation): Decision {
    match v
    case NilDereference => Stop(Panicked)
    case Result(Object(fields)) =>
      if "allow" !in fields || !fields["allow"].Bool? then Stop(Rejected(500, None, info))
      else
        var info' := info.(result := Some(fields));
        if !fields["allow"].truth then Stop(Rejected(403, None, info'))
        else if "url" in fields && fields["url"].Str? && fields["url"].text != ""
        then Go(info'.(url := fields["url"].text), fields)
        else Go(info', fields)
    case _ => Stop(Rejected(500, None, info))
  }

  /** authHandler, then the policy. */
  function Admit(p: Proxy, a: AuthOutcome): Decision {
    match a.error
    case NoError => Policy(a.info, p.validate(a.info))
    case AuthenticationFailed => Stop(Rejected(401, Some(p.challenge.GetOr("Bearer")), a.info))
    case AuthenticationUnavailable => Stop(Rejected(503, None, a.info))
    case Unexpected => Stop(Rejected(500, None, a.info))
  }

  /** The request as the inner handlers see it. */
  function Inner(p: Proxy, r: Request): Request {
    r.(header := Cleaned(r.header),
       blocked := if p.expose && ReservedKeys(r.header) != {} then Captured(r.header) else r.blocked)
  }

  function Decide(p: Proxy, r: Request): Decision {
    match NewInfo(p.codec, Inner(p, r), p.authKey, p.level)
    case TypePanic => Stop(Panicked)
    case Parsed(info) => Admit(p, p.auth(info, Inner(p, r)))
  }

  /** The possible outcomes of a request: one for each order of the result map. */
  ghost predicate Outcomes(p: Proxy, r: Request, o: Outcome) {
    match Decide(p, r)
    case Stop(outcome) => o == outcome
    case Go(info, result) =>
      exists order :: IsOrder(order, result)
        && o == Forwarded(Inner(p, r).(header := ForwardIn(p.sprint, Cleaned(r.header), result, order)), info)
  }

  method ServePolicy(p: Proxy, info: Info) returns (d: Decision)
    ensures d == Policy(info, p.validate(info))
  {
    var v := p.validate(info);
    if v.NilDereference? {
      return Stop(Panicked);
    }
    if v.EvalError? || !v.value.Object? {
      return Stop(Rejected(500, None, info));
    }
    var fields := v.value.fields;
    if "allow" !in fields {
      return Stop(Rejected(500, None, info));
    }
    if !fields["allow"].Bool? {
      return Stop(Rejected(500, None, info));
    }
    var info' := info.(result := Some(fields));
    if !fields["allow"].truth {
      return Stop(Rejected(403, None, info'));
    }
    if "url" in fields && fields["url"].Str? && fields["url"].text != "" {
      info' := info'.(url := fields["url"].text);
    }
    return Go(info', fields);
  }

  method Serve(p: Proxy, message: Message) returns (o: Outcome)
    modifies message
    ensures Outcomes(p, old(message.Contents()), o)
  {
    message.Cleanup(p.expose);
    var inner := Request(message.verb, message.path, message.header, message.size, message.blocked);
    var parsed := BuildInfo(p.codec, inner, p.authKey, p.level);
    if parsed.TypePanic? {
      return Panicked;
    }
    var a := p.auth(parsed.info, inner);
    match a.error {
      case AuthenticationFailed => return Rejected(401, Some(p.challenge.GetOr("Bearer")), a.info);
      case AuthenticationUnavailable => return Rejected(503, None, a.info);
      case Unexpected => return Rejected(500, None, a.info);
      case NoError =>
    }
    var d := ServePolicy(p, a.info);
    if d.Stop? {
      return d.outcome;
    }
    ghost var order := Forward(p.sprint, message, d.result);
    o := Forwarded(Request(message.verb, message.path, message.header, message.size, message.blocked), d.info);
    assert o == Forwarded(inner.(header := ForwardIn(p.sprint, inner.header, d.result, order)), d.info);
  }

  // ------------------------------------------------------------------------------------------------

  /** The info that reaches the provider. */
  function Input(p: Proxy, r: Request): Parsed {
    NewInfo(p.codec, Inner(p, r), p.authKey, p.level)
  }

  /** What the provider makes of it. */
  function Authenticated(p: Proxy, r: Request): AuthOutcome
    requires Input(p, r).Parsed?
  {
    p.auth(Input(p, r).info, Inner(p, r))
  }

  /** The provider raised no error and the policy answered `v`. */
  predicate Answers(p: Proxy, r: Request, v: Validation) {
    && Input(p, r).Parsed? && Authenticated(p, r).error.NoError?
    && p.validate(Authenticated(p, r).info) == v
  }

  predicate AnswersObject(p: Proxy, r: Request, fields: Values) {
    Answers(p, r, Result(Object(fields)))
  }

  predicate Fails(p: Proxy, r: Request, error: AuthError) {
    Input(p, r).Parsed? && Authenticated(p, r).error == error
  }

  /** The answer of the policy is no object with a boolean `allow`. */
  predicate Malformed(v: Validation) {
    v.EvalError? || (v.Result? && (v.value.Object? ==> "allow" !in v.value.fields || !v.value.fields["allow"].Bool?))
  }

  predicate HasStatus(o: Outcome, status: int) {
    o.Rejected? && o.status == status
  }

  /** As the server delivers it: canonical names, nothing captured yet. */
  ghost predicate Arrives(r: Request) {
    Delivered(r.header) && r.blocked == map[]
  }

  /** Equal but for reserved headers. */
  ghost predicate SameButReserved(r: Request, r': Request) {
    r'.(header := r.header) == r && Kept(r.header) == Kept(r'.header)
  }

  /** Two-run non-interference: with exposure off, reserved headers sent by the client have no effect on
      the info, the decision, the status or the request that is handed on, for any provider and policy. */
  lemma ReservedHeadersHaveNoEffect(p: Proxy, r: Request, r': Request)
    requires !p.expose && Arrives(r) && Arrives(r') && SameButReserved(r, r')
    ensures Input(p, r) == Input(p, r')
    ensures Decide(p, r) == Decide(p, r')
    ensures forall o :: Outcomes(p, r, o) <==> Outcomes(p, r', o)
  {
    CleanupExact(r.header);
    CleanupExact(r'.header);
    assert Inner(p, r) == Inner(p, r');
  }

  /** Fail closed: a request is handed on only if the provider raised no error and the policy returned
      an object whose `allow` is true, and then always. */
  lemma ForwardedIffAllowed(p: Proxy, r: Request)
    ensures (exists o :: Outcomes(p, r, o) && o.Forwarded?) <==>
            exists fields :: AnswersObject(p, r, fields) && "allow" in fields && fields["allow"] == Bool(true)
  {
    var d := Decide(p, r);
    if d.Go? {
      var order := Enumerated(d.result.Keys);
      assert IsOrder(order, d.result);
      var o := Forwarded(Inner(p, r).(header := ForwardIn(p.sprint, Cleaned(r.header), d.result, order)), d.info);
      assert Outcomes(p, r, o) && o.Forwarded?;
      assert AnswersObject(p, r, p.validate(Authenticated(p, r).info).value.fields);
    }
  }

  /** Every refusal has its reason: 401 (and only it carries a challenge) for failed and 503 for unavailable
      authentication, 403 for a policy that says no, 500 for an unexpected error of the provider and for a
      policy that gives no proper answer; a panic for a malformed authorization header and for a policy
      without a file.  The info goes with it as the provider left it, with the policy's result if denied. */
  lemma RefusalsHaveReasons(p: Proxy, r: Request, o: Outcome)
    requires Outcomes(p, r, o)
    ensures HasStatus(o, 401) <==> Fails(p, r, AuthenticationFailed)
    ensures HasStatus(o, 503) <==> Fails(p, r, AuthenticationUnavailable)
    ensures HasStatus(o, 403) <==>
            exists fields :: AnswersObject(p, r, fields) && "allow" in fields && fields["allow"] == Bool(false)
    ensures HasStatus(o, 500) <==> Fails(p, r, Unexpected) || exists v :: Answers(p, r, v) && Malformed(v)
    ensures o.Panicked? <==> Input(p, r).TypePanic? || Answers(p, r, NilDereference)
    ensures o.Rejected? ==>
              && o.status in {401, 403, 500, 503} && (o.challenge.Some? <==> o.status == 401)
              && (o.status == 401 ==> o.challenge.value == if p.challenge.Some? then p.challenge.value else "Bearer")
              && (o.status != 403 ==> o.info == Authenticated(p, r).info)
              && (o.status == 403 ==> exists fields :: AnswersObject(p, r, fields)
                                                       && o.info == Authenticated(p, r).info.(result := Some(fields)))
  {
    if Input(p, r).Parsed? && Authenticated(p, r).error.NoError? {
      var v := p.validate(Authenticated(p, r).info);
      assert Answers(p, r, v);
      if v.Result? && v.value.Object? {
        assert AnswersObject(p, r, v.value.fields);
      }
    }
  }

  /** What goes with a request that is handed on: the info as the provider left it with the policy's result,
      and with the label replaced by a non-empty `url` of the policy; nothing of the request but headers is
      changed. */
  lemma ForwardedInfoIsThePolicys(p: Proxy, r: Request, o: Outcome, fields: Values)
    requires Outcomes(p, r, o) && o.Forwarded? && AnswersObject(p, r, fields)
    ensures var a := Authenticated(p, r);
            && o.info.result == Some(fields)
            && (if "url" in fields && fields["url"].Str? && fields["url"].text != ""
                then Str(o.info.url) == fields["url"] else o.info.url == a.info.url)
            && o.info.(result := a.info.result, url := a.info.url) == a.info
            && o.request.verb == r.verb && o.request.path == r.path && o.request.size == r.size
  {
  }

  /** With exposure on, the info that reaches the provider gives back every header of the client but reserved
      ones without a value, and holds the reserved ones apart. */
  lemma ExposedInfoRebuildsHeaders(p: Proxy, r: Request)
    requires p.expose && Arrives(r) && Input(p, r).Parsed?
    ensures var info := Input(p, r).info;
            && UnpackAll(info.headers) + UnpackAll(info.blocked)
               == (map k | k in r.header && (Reserved(k) ==> r.header[k] != []) :: r.header[k])
            && (forall k :: k in info.blocked ==> "X-Restrego-" <= k)
            && (forall k :: k in info.headers ==> !("X-Restrego-" <= k))
  {
    if ReservedKeys(r.header) == {} {
      assert forall k :: k in r.header ==> k in ReservedKeys(r.header) || !Reserved(k);
      assert Captured(r.header) == map[];
    }
    assert Inner(p, r) == r.(header := Cleaned(r.header), blocked := Captured(r.header));
    InfoRebuildsHeaders(p.codec, r, p.authKey, p.level);
    CleanupExact(r.header);
  }

  /** What is handed on carries exactly the policy's entries in the reserved namespace, whatever the
      client sent there, and all other headers of the client unchanged. */
  lemma ForwardedHeadersAreThePolicys(p: Proxy, r: Request, o: Outcome, fields: Values, name: string)
    requires Arrives(r) && Outcomes(p, r, o) && o.Forwarded?
    requires AnswersObject(p, r, fields) && NoClash(p.sprint, fields)
    ensures "X-Restrego-" <= name ==> (name in o.request.header <==> exists k :: Sends(p.sprint, fields, k, name))
    ensures forall k :: Sends(p.sprint, fields, k, name) ==>
              name in o.request.header && o.request.header[name] == [TextOf(p.sprint, fields[k])]
    ensures !("X-Restrego-" <= name) ==> (name in o.request.header <==> name in r.header)
                                         && (name in r.header ==> o.request.header[name] == r.header[name])
  {
    var d, h := Decide(p, r), Cleaned(r.header);
    assert d.result == fields;
    var order :| && IsOrder(order, d.result)
                 && o == Forwarded(Inner(p, r).(header := ForwardIn(p.sprint, h, d.result, order)), d.info);
    CleanupExact(r.header);
    ForwardStaysInNamespace(p.sprint, h, d.result, order, name);
  }

  /** Without clashes a request has one outcome. */
  lemma OutcomeIsUnique(p: Proxy, r: Request, o: Outcome, o': Outcome)
    requires Outcomes(p, r, o) && Outcomes(p, r, o')
    requires forall fields :: AnswersObject(p, r, fields) ==> NoClash(p.sprint, fields)
    ensures o == o'
  {
    var d, h := Decide(p, r), Cleaned(r.header);
    if d.Go? {
      assert AnswersObject(p, r, d.result);
      var a :| && IsOrder(a, d.result)
               && o == Forwarded(Inner(p, r).(header := ForwardIn(p.sprint, h, d.result, a)), d.info);
      var b :| && IsOrder(b, d.result)
               && o' == Forwarded(Inner(p, r).(header := ForwardIn(p.sprint, h, d.result, b)), d.info);
      SameInAnyOrder(p.sprint, h, d.result, a, b);
    }
  }
}
