/**
 Reserved headers: their removal and capture (internal/router/cleanup.go), the forwarding of policy
 results under the reserved prefix (internal/router/router.go) and canonical header names (net/textproto).
 */
module Headers {
  import opened Prelude
  import opened Text
  import opened RequestInfo

  const PREFIX := "X-Restrego-"

  predicate Reserved(name: string) {
    PREFIX <= name
  }

  // ------------------------------------------------------------------------------------------------
  // Canonical names.

  /** The characters of a token (section 5.6.2 of RFC 9110). */
  predicate TokenChar(c: char) {
    || 'a' <= c <= 'z' || 'A' <= c <= 'Z' || '0' <= c <= '9'
    || c == '!' || '#' <= c <= '\'' || '*' <= c <= '+' || '-' <= c <= '.' || '^' <= c <= '`' || c == '|' || c == '~'
  }

  predicate Token(s: string) {
    forall i :: 0 <= i < |s| ==> TokenChar(s[i])
  }

  function Cased(s: string): (r: string)
    ensures |r| == |s|
  {
    seq(|s|, i requires 0 <= i < |s| => if i == 0 || s[i - 1] == '-' then UpperChar(s[i]) else LowerChar(s[i]))
  }

  /** CanonicalMIMEHeaderKey: names that are no token are left alone. */
  function Canonical(s: string): string {
    if Token(s) then Cased(s) else s
  }

  lemma CanonicalIdempotent(s: string)
    ensures Canonical(Canonical(s)) == Canonical(s)
  {
    if Token(s) {
      forall i | 0 <= i < |s|
        ensures TokenChar(Cased(s)[i]) && Cased(Cased(s))[i] == Cased(s)[i]
      {
        assert i > 0 ==> (Cased(s)[i - 1] == '-' <==> s[i - 1] == '-');
      }
    }
  }

  /** Canonicalising keeps a name inside the reserved namespace. */
  lemma CanonicalKeepsPrefix(name: string)
    requires Reserved(name)
    ensures Reserved(Canonical(name))
  {
    forall i | 0 <= i < |PREFIX|
      ensures Cased(name)[i] == PREFIX[i]
    {
      assert name[i] == PREFIX[i];
      assert i > 0 ==> name[i - 1] == PREFIX[i - 1];
    }
  }

  /** net/http delivers headers under canonical names. */
  ghost predicate Delivered(header: Headers) {
    forall k :: k in header ==> Canonical(k) == k
  }

  // ------------------------------------------------------------------------------------------------
  // Cleanup.

  function ReservedKeys(header: Headers): set<string> {
    set k | k in header && Reserved(k)
  }

  /** What `Del` removes when it is called for every reserved key. */
  function Cleaned(header: Headers): Headers {
    header - set k | k in header && Reserved(k) :: Canonical(k)
  }

  function Kept(header: Headers): Headers {
    map k | k in header && !Reserved(k) :: header[k]
  }

  /** http.Header.Values. */
  function ValuesOf(header: Headers, k: string): seq<string> {
    if Canonical(k) in header then header[Canonical(k)] else []
  }

  function Captured(header: Headers): Values {
    map k | k in header && Reserved(k) && ValuesOf(header, k) != [] :: Pack(ValuesOf(header, k))
  }

  class Message {
    var verb: string
    var path: string
    var header: Headers
    var size: int
    var blocked: Values

    constructor (r: Request)
      ensures Contents() == r
    {
      verb, path, header, size, blocked := r.verb, r.path, r.header, r.size, r.blocked;
    }

    ghost function Contents(): Request
      reads this
    {
      Request(verb, path, header, size, blocked)
    }

    /** CleanupHandler: collect, capture if asked to, then delete in place. */
    method Cleanup(expose: bool)
      modifies this`header, this`blocked
      ensures header == Cleaned(old(header))
      ensures blocked == if expose && ReservedKeys(old(header)) != {} then Captured(old(header)) else old(blocked)
    {
      var toClean := CollectReserved(header);
      var before := header;
      assert toClean == [] <==> ReservedKeys(before) == {} by {
        assert toClean != [] ==> toClean[0] in ReservedKeys(before);
      }
      if expose && toClean != [] {
        blocked := Capture(k => ValuesOf(before, k), toClean);
        assert blocked == Captured(before);
      }
      for i := 0 to |toClean|
        invariant header == before - set k | k in toClean[..i] :: Canonical(k)
        invariant blocked == if expose && ReservedKeys(before) != {} then Captured(before) else old(blocked)
      {
        header := header - {Canonical(toClean[i])};
        assert toClean[..i + 1] == toClean[..i] + [toClean[i]];
      }
      assert toClean[..|toClean|] == toClean;
      assert (set k | k in toClean :: Canonical(k)) == set k | k in before && Reserved(k) :: Canonical(k);
    }
  }

  method CollectReserved(header: Headers) returns (toClean: seq<string>)
    ensures forall k :: k in toClean <==> k in ReservedKeys(header)
  {
    toClean := [];
    var keys := header.Keys;
    while keys != {}
      invariant keys <= header.Keys
      invariant forall k :: k in toClean <==> k in ReservedKeys(header) && k !in keys
      decreases |keys|
    {
      var k :| k in keys;
      if Reserved(k) {
        toClean := toClean + [k];
      }
      keys := keys - {k};
    }
  }

  /** The capture loop; `values` is Header.Values. */
  method Capture(values: string -> seq<string>, toClean: seq<string>) returns (blocked: Values)
    ensures blocked == map k | k in toClean && values(k) != [] :: Pack(values(k))
  {
    blocked := map[];
    for i := 0 to |toClean|
      invariant forall k :: k in blocked <==> k in toClean[..i] && values(k) != []
      invariant forall k :: k in blocked ==> blocked[k] == Pack(values(k))
    {
      var found := values(toClean[i]);
      if |found| == 1 {
        blocked := blocked[toClean[i] := Str(found[0])];
      } else if |found| > 1 {
        blocked := blocked[toClean[i] := Strs(found)];
      }
      assert toClean[..i + 1] == toClean[..i] + [toClean[i]];
    }
    assert toClean[..|toClean|] == toClean;
  }

  /** Cleanup leaves no reserved name behind exactly when every reserved name is the canonical form of
      some reserved name present, as it is for delivered headers; then it removes nothing else. */
  lemma CleanupExact(header: Headers)
    ensures ReservedKeys(Cleaned(header)) == {} <==>
            forall k :: k in header && Reserved(k) ==> exists k' :: k' in header && Reserved(k') && Canonical(k') == k
    ensures Delivered(header) ==> Cleaned(header) == Kept(header) && ReservedKeys(Cleaned(header)) == {}
    ensures Delivered(header) ==> Cleaned(header) == map k | k in header && !("X-Restrego-" <= k) :: header[k]
  {
    var gone := set k | k in header && Reserved(k) :: Canonical(k);
    forall k | k in header && Reserved(k)
      ensures k in ReservedKeys(Cleaned(header)) <==> k !in gone
    {
    }
    assert forall k :: k in ReservedKeys(Cleaned(header)) ==> k in header && Reserved(k) && k !in gone;
    if Delivered(header) {
      forall k | k in gone
        ensures Reserved(k) && k in header
      {
        var k' :| k' in header && Reserved(k') && k == Canonical(k');
      }
      assert forall k :: k in header && Reserved(k) ==> Canonical(k) in gone;
    }
  }

  /** Capture is lossless: kept and captured headers have no name in common, and together they rebuild
      every header except reserved ones without any value. */
  lemma CaptureIsLossless(header: Headers)
    requires Delivered(header)
    ensures Kept(header).Keys !! Captured(header).Keys
    ensures Cleaned(header) + UnpackAll(Captured(header)) ==
            map k | k in header && (Reserved(k) ==> header[k] != []) :: header[k]
  {
    CleanupExact(header);
    forall k | k in Captured(header)
      ensures UnpackAll(Captured(header))[k] == header[k]
    {
    }
  }

  /** The policy input determines those headers: unpacking what `NewInfo` stored gives them back. */
  lemma InfoRebuildsHeaders(codec: Codec, r: Request, authKey: string, level: int)
    requires Delivered(r.header)
    requires NewInfo(codec, r.(header := Cleaned(r.header), blocked := Captured(r.header)), authKey, level).Parsed?
    ensures var inner := r.(header := Cleaned(r.header), blocked := Captured(r.header));
            var info := NewInfo(codec, inner, authKey, level).info;
            UnpackAll(info.headers) + UnpackAll(info.blocked)
            == map k | k in r.header && (Reserved(k) ==> r.header[k] != []) :: r.header[k]
  {
    UnpackPack(Cleaned(r.header));
    CaptureIsLossless(r.header);
  }

  // ------------------------------------------------------------------------------------------------
  // Forwarding.

  /** The text of a result entry; `sprint` is fmt.Sprint. */
  function TextOf(sprint: Value -> string, v: Value): string {
    match v
    case Str(text) => text
    case Strs(texts) => Join(texts, ",")
    case List(items) => Join(seq(|items|, i requires 0 <= i < |items| => sprint(items[i])), ",")
    case _ => sprint(v)
  }

  /** The string builder loop for a list. */
  method JoinItems(sprint: Value -> string, items: seq<Value>) returns (text: string)
    ensures text == TextOf(sprint, List(items))
  {
    text := "";
    ghost var all := seq(|items|, i requires 0 <= i < |items| => sprint(items[i]));
    for i := 0 to |items|
      invariant text == Join(all[..i], ",")
    {
      JoinAppend(all[..i], sprint(items[i]), ",");
      assert all[..i + 1] == all[..i] + [sprint(items[i])];
      if i > 0 {
        text := text + ",";
      }
      text := text + sprint(items[i]);
    }
    assert all[..|items|] == all;
  }

  function HeaderName(k: string): string {
    Canonical(PREFIX + ReplaceAll(k, '_', '-'))
  }

  function ForwardOne(sprint: Value -> string, header: Headers, k: string, v: Value): Headers {
    if TextOf(sprint, v) == "" then header else header[HeaderName(k) := [TextOf(sprint, v)]]
  }

  /** Same letter up to case, with underscore and hyphen counting as one. */
  predicate SameLetter(c: char, d: char) {
    LowerChar(c) == LowerChar(d) || (c in {'-', '_'} && d in {'-', '_'})
  }

  lemma ReplacedIsToken(k: string)
    requires Token(k)
    ensures Token(PREFIX + ReplaceAll(k, '_', '-'))
  {
    var r := ReplaceAll(k, '_', '-');
    forall i | 0 <= i < |PREFIX + r|
      ensures TokenChar((PREFIX + r)[i])
    {
      if i >= |PREFIX| {
        assert (PREFIX + r)[i] == r[i - |PREFIX|];
      }
    }
  }

  /** The header of an entry: the prefix, then the key letter by letter up to case, with a hyphen for every
      underscore. */
  lemma HeaderNameLaw(k: string)
    ensures var name := HeaderName(k);
            && "X-Restrego-" <= name && |name| == |"X-Restrego-"| + |k| && '_' !in name
            && forall i :: 0 <= i < |k| ==>
                 var c := name[|"X-Restrego-"| + i];
                 if k[i] == '_' then c == '-' else LowerChar(c) == LowerChar(k[i])
  {
    var s := PREFIX + ReplaceAll(k, '_', '-');
    CanonicalKeepsPrefix(s);
    forall i | 0 <= i < |s|
      ensures s[i] != '_' && HeaderName(k)[i] != '_' && LowerChar(HeaderName(k)[i]) == LowerChar(s[i])
    {
    }
    forall i | 0 <= i < |k|
      ensures s[|PREFIX| + i] == if k[i] == '_' then '-' else k[i]
    {
    }
  }

  /** A list is sent so that it can be split at the commas again, if no item has one; other values are sent
      as they print. */
  lemma TextLaw(sprint: Value -> string, v: Value)
    ensures v.Str? ==> TextOf(sprint, v) == v.text
    ensures v.Strs? && v.texts != [] && (forall i :: 0 <= i < |v.texts| ==> ',' !in v.texts[i]) ==>
              Split(TextOf(sprint, v), ',') == v.texts
    ensures v.List? && v.items != [] && (forall i :: 0 <= i < |v.items| ==> ',' !in sprint(v.items[i])) ==>
              var parts := Split(TextOf(sprint, v), ',');
              |parts| == |v.items| && forall i :: 0 <= i < |parts| ==> parts[i] == sprint(v.items[i])
    ensures v == Strs([]) || v == List([]) ==> TextOf(sprint, v) == ""
    ensures v.Bool? || v.Object? || v.Other? ==> TextOf(sprint, v) == sprint(v)
  {
    if v.Strs? && v.texts != [] && forall i :: 0 <= i < |v.texts| ==> ',' !in v.texts[i] {
      SplitJoin(v.texts, ',');
    }
    if v.List? && v.items != [] && forall i :: 0 <= i < |v.items| ==> ',' !in sprint(v.items[i]) {
      SplitJoin(seq(|v.items|, i requires 0 <= i < |v.items| => sprint(v.items[i])), ',');
    }
  }

  /** A common prefix does not matter for equality up to case. */
  lemma AgreeBehindPrefix(prefix: string, a: string, b: string)
    requires |a| == |b|
    ensures (forall i :: 0 <= i < |prefix + a| ==> LowerChar((prefix + a)[i]) == LowerChar((prefix + b)[i]))
            <==> forall i :: 0 <= i < |a| ==> LowerChar(a[i]) == LowerChar(b[i])
  {
    forall i | 0 <= i < |a|
      ensures a[i] == (prefix + a)[i + |prefix|] && b[i] == (prefix + b)[i + |prefix|]
    {
    }
  }

  /** Two policy keys (tokens) share a header exactly when they agree letter by letter up to case and
      up to underscore against hyphen. */
  lemma SharedHeaderIff(j: string, k: string)
    requires Token(j) && Token(k)
    ensures HeaderName(j) == HeaderName(k) <==> |j| == |k| && forall i :: 0 <= i < |j| ==> SameLetter(j[i], k[i])
  {
    var a, b := ReplaceAll(j, '_', '-'), ReplaceAll(k, '_', '-');
    ReplacedIsToken(j);
    ReplacedIsToken(k);
    CasedEqualIff(PREFIX + a, PREFIX + b);
    if |j| == |k| {
      AgreeBehindPrefix(PREFIX, a, b);
      assert forall i :: 0 <= i < |j| ==> (LowerChar(a[i]) == LowerChar(b[i]) <==> SameLetter(j[i], k[i]));
    }
  }

  /** Casing identifies exactly the names that are equal up to case. */
  lemma CasedEqualIff(a: string, b: string)
    ensures Cased(a) == Cased(b) <==> |a| == |b| && forall i :: 0 <= i < |a| ==> LowerChar(a[i]) == LowerChar(b[i])
  {
    if Cased(a) == Cased(b) {
      forall i | 0 <= i < |a|
        ensures LowerChar(a[i]) == LowerChar(b[i])
      {
        assert Cased(a)[i] == Cased(b)[i];
      }
    } else if |a| == |b| {
      var i :| 0 <= i < |a| && Cased(a)[i] != Cased(b)[i];
      assert LowerChar(a[i]) != LowerChar(b[i]) || (i > 0 && LowerChar(a[i - 1]) != LowerChar(b[i - 1]));
    }
  }

  /** The loop of ServeHTTP over the result map in a given order. */
  function ForwardIn(sprint: Value -> string, header: Headers, result: Values, order: seq<string>): Headers
    requires forall k :: k in order ==> k in result
  {
    if order == [] then header
    else
      var k := order[|order| - 1];
      ForwardOne(sprint, ForwardIn(sprint, header, result, order[..|order| - 1]), k, result[k])
  }

  /** A map is ranged over in any order, each key once. */
  ghost predicate IsOrder(order: seq<string>, result: Values) {
    && (forall k :: k in order <==> k in result)
    && forall i, j :: 0 <= i < j < |order| ==> order[i] != order[j]
  }

  method ForwardEntry(sprint: Value -> string, message: Message, k: string, v: Value)
    modifies message`header
    ensures message.header == ForwardOne(sprint, old(message.header), k, v)
  {
    var text;
    match v {
      case Str(s) => text := s;
      case Strs(texts) => text := Join(texts, ",");
      case List(items) => text := JoinItems(sprint, items);
      case _ => text := sprint(v);
    }
    if |text| > 0 {
      message.header := message.header[Canonical(PREFIX + ReplaceAll(k, '_', '-')) := [text]];
    }
  }

  method Forward(sprint: Value -> string, message: Message, result: Values) returns (ghost order: seq<string>)
    modifies message`header
    ensures IsOrder(order, result)
    ensures message.header == ForwardIn(sprint, old(message.header), result, order)
  {
    order := [];
    var keys := result.Keys;
    while keys != {}
      invariant keys <= result.Keys
      invariant forall k :: k in order <==> k in result && k !in keys
      invariant forall i, j :: 0 <= i < j < |order| ==> order[i] != order[j]
      invariant message.header == ForwardIn(sprint, old(message.header), result, order)
      decreases |keys|
    {
      var k :| k in keys;
      ForwardEntry(sprint, message, k, result[k]);
      assert (order + [k])[..|order|] == order;
      order := order + [k];
      keys := keys - {k};
    }
  }

  predicate Sends(sprint: Value -> string, result: Values, k: string, name: string) {
    k in result && TextOf(sprint, result[k]) != "" && HeaderName(k) == name
  }

  /** Entries that end up under one name have one text. */
  ghost predicate NoClash(sprint: Value -> string, result: Values) {
    forall j, k :: && j in result && k in result
                   && Sends(sprint, result, j, HeaderName(k)) && Sends(sprint, result, k, HeaderName(k)) ==>
      TextOf(sprint, result[j]) == TextOf(sprint, result[k])
  }

  /** What a name holds afterwards: the text of the last entry sent under it, or what it held before. */
  lemma {:induction false} ForwardedAt(sprint: Value -> string, header: Headers, result: Values, order: seq<string>,
      name: string)
    requires forall k :: k in order ==> k in result
    ensures var h := ForwardIn(sprint, header, result, order);
            || (exists k :: && k in order && Sends(sprint, result, k, name)
                            && name in h && h[name] == [TextOf(sprint, result[k])])
            || ((forall k :: k in order ==> !Sends(sprint, result, k, name))
                && (name in h <==> name in header) && (name in h ==> h[name] == header[name]))
  {
    if order != [] {
      var last := order[|order| - 1];
      var h, h' := ForwardIn(sprint, header, result, order), ForwardIn(sprint, header, result, order[..|order| - 1]);
      ForwardedAt(sprint, header, result, order[..|order| - 1], name);
      if Sends(sprint, result, last, name) {
        assert last in order && h[name] == [TextOf(sprint, result[last])];
      } else {
        assert (name in h <==> name in h') && (name in h ==> h[name] == h'[name]);
        if exists k :: && k in order[..|order| - 1] && Sends(sprint, result, k, name)
                       && name in h' && h'[name] == [TextOf(sprint, result[k])] {
          var k :| && k in order[..|order| - 1] && Sends(sprint, result, k, name)
                   && name in h' && h'[name] == [TextOf(sprint, result[k])];
          assert k in order;
        } else {
          forall k | k in order
            ensures !Sends(sprint, result, k, name)
          {
            assert k == last || k in order[..|order| - 1];
          }
        }
      }
    }
  }

  /** After cleanup, forwarding writes exactly the non-empty result entries into the reserved namespace
      and leaves every other header as it was. */
  lemma ForwardStaysInNamespace(sprint: Value -> string, header: Headers, result: Values, order: seq<string>,
      name: string)
    requires IsOrder(order, result) && ReservedKeys(header) == {} && NoClash(sprint, result)
    ensures var h := ForwardIn(sprint, header, result, order);
            && (Reserved(name) ==> (name in h <==> exists k :: Sends(sprint, result, k, name)))
            && (forall k :: Sends(sprint, result, k, name) ==> name in h && h[name] == [TextOf(sprint, result[k])])
            && (!Reserved(name) ==> (name in h <==> name in header) && (name in h ==> h[name] == header[name]))
  {
    var h := ForwardIn(sprint, header, result, order);
    ForwardedAt(sprint, header, result, order, name);
    assert Reserved(name) ==> name !in header by {
      assert name in header && Reserved(name) ==> name in ReservedKeys(header);
    }
    forall k | Sends(sprint, result, k, name)
      ensures Reserved(name)
    {
      CanonicalKeepsPrefix(PREFIX + ReplaceAll(k, '_', '-'));
    }
  }

  ghost function EndingWith(result: Values, k: string): (order: seq<string>)
    requires k in result
    ensures IsOrder(order, result) && order[|order| - 1] == k
  {
    Enumerated(result.Keys - {k}) + [k]
  }

  ghost function Enumerated(keys: set<string>): (order: seq<string>)
    ensures forall k :: k in order <==> k in keys
    ensures forall i, j :: 0 <= i < j < |order| ==> order[i] != order[j]
  {
    if keys == {} then []
    else
      var k :| k in keys;
      [k] + Enumerated(keys - {k})
  }

  /** Go's map order does not matter exactly when no two non-empty entries collide with different text
      (as "user_id" and "user-id" would). */
  lemma OrderIrrelevantIffNoClash(sprint: Value -> string, header: Headers, result: Values)
    ensures NoClash(sprint, result) <==>
            forall o, o' :: IsOrder(o, result) && IsOrder(o', result) ==>
              ForwardIn(sprint, header, result, o) == ForwardIn(sprint, header, result, o')
  {
    if NoClash(sprint, result) {
      forall o, o' | IsOrder(o, result) && IsOrder(o', result)
        ensures ForwardIn(sprint, header, result, o) == ForwardIn(sprint, header, result, o')
      {
        SameInAnyOrder(sprint, header, result, o, o');
      }
    } else {
      var j, k :| && j in result && k in result
                  && Sends(sprint, result, j, HeaderName(k)) && Sends(sprint, result, k, HeaderName(k))
                  && TextOf(sprint, result[j]) != TextOf(sprint, result[k]);
      var o, o' := EndingWith(result, j), EndingWith(result, k);
      assert ForwardIn(sprint, header, result, o)[HeaderName(k)] == [TextOf(sprint, result[j])];
      assert ForwardIn(sprint, header, result, o')[HeaderName(k)] == [TextOf(sprint, result[k])];
    }
  }

  lemma SameInAnyOrder(sprint: Value -> string, header: Headers, result: Values, o: seq<string>, o': seq<string>)
    requires NoClash(sprint, result) && IsOrder(o, result) && IsOrder(o', result)
    ensures ForwardIn(sprint, header, result, o) == ForwardIn(sprint, header, result, o')
  {
    var h, h' := ForwardIn(sprint, header, result, o), ForwardIn(sprint, header, result, o');
    forall name
      ensures (name in h <==> name in h') && (name in h ==> h[name] == h'[name])
    {
      SameHeader(sprint, header, result, o, o', name);
    }
  }

  lemma SameHeader(sprint: Value -> string, header: Headers, result: Values, o: seq<string>, o': seq<string>,
                   name: string)
    requires NoClash(sprint, result) && IsOrder(o, result) && IsOrder(o', result)
    ensures var h, h' := ForwardIn(sprint, header, result, o), ForwardIn(sprint, header, result, o');
            (name in h <==> name in h') && (name in h ==> h[name] == h'[name])
  {
    var h, h' := ForwardIn(sprint, header, result, o), ForwardIn(sprint, header, result, o');
    ForwardedAt(sprint, header, result, o, name);
    ForwardedAt(sprint, header, result, o', name);
    if k, k' :| Sends(sprint, result, k, name) && Sends(sprint, result, k', name)
                && h[name] == [TextOf(sprint, result[k])] && h'[name] == [TextOf(sprint, result[k'])] {
      assert HeaderName(k) == HeaderName(k');
    }
  }
}
