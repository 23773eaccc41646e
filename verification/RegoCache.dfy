/**
 The compiled-policy cache of pkg/regocache/rego.go over the file cache.

 Environment expansion and the policy compiler are the two functions of a `Toolchain`; a query is
 identified by what it was prepared from.
 */
module RegoCache {
  import opened Prelude
  import opened Text
  import opened Debounce
  import opened FileCache

  datatype Query = Query(name: Name, question: string, text: Bytes)

  datatype Toolchain = Toolchain(
    expand: Bytes -> Option<Bytes>,       // envsubst.ConvertBytes with the process environment
    accepts: (Name, string, Bytes) -> bool // whether PrepareForEval succeeds
  )

  type Regos = map<Name, Query>

  const PACKAGE := "package "

  /** What follows the keyword on the first line that starts with it; "" when there is none. */
  function PackageName(lines: seq<string>): string {
    if lines == [] then ""
    else if PACKAGE <= lines[0] then TrimSpace(lines[0][|PACKAGE|..])
    else PackageName(lines[1..])
  }

  /** Line `i` is the first that starts with the keyword. */
  predicate FirstPackage(lines: seq<string>, i: int) {
    0 <= i < |lines| && "package " <= lines[i] && forall j :: 0 <= j < i ==> !("package " <= lines[j])
  }

  lemma {:induction false} PackageNameIsFirst(lines: seq<string>)
    ensures (forall i :: !FirstPackage(lines, i)) ==> PackageName(lines) == ""
    ensures forall i :: FirstPackage(lines, i) ==> PackageName(lines) == TrimSpace(lines[i][|"package "|..])
  {
    if lines != [] {
      if PACKAGE <= lines[0] {
        assert FirstPackage(lines, 0);
      } else {
        PackageNameIsFirst(lines[1..]);
        assert forall i :: FirstPackage(lines, i) ==> FirstPackage(lines[1..], i - 1);
        assert forall i :: FirstPackage(lines[1..], i) ==> FirstPackage(lines, i + 1);
      }
    }
  }

  /** The line loop of `GetRego`. */
  method ScanPackage(lines: seq<string>) returns (pkg: string)
    ensures pkg == PackageName(lines)
    ensures (forall i :: 0 <= i < |lines| ==> !("package " <= lines[i])) ==> pkg == ""
    ensures forall i :: FirstPackage(lines, i) ==> pkg == TrimSpace(lines[i][|"package "|..])
  {
    pkg := "";
    var i := 0;
    while i < |lines|
      invariant 0 <= i <= |lines|
      invariant forall j :: 0 <= j < i ==> !(PACKAGE <= lines[j])
      invariant PackageName(lines) == PackageName(lines[i..])
      invariant pkg == ""
    {
      if PACKAGE <= lines[i] {
        pkg := TrimSpace(TrimPrefix(lines[i], PACKAGE));
        return;
      }
      assert lines[i..][1..] == lines[i + 1..];
      i := i + 1;
    }
  }

  function Compile(tool: Toolchain, n: Name, data: Bytes): Option<Query> {
    match tool.expand(data)
    case None => None
    case Some(text) =>
      var pkg := PackageName(Lines(text));
      if pkg == "" then None
      else if tool.accepts(n, "x = data." + pkg, text) then Some(Query(n, "x = data." + pkg, text))
      else None
  }

  /** The text names the package. */
  ghost predicate Declares(text: Bytes, pkg: string) {
    exists i :: FirstPackage(Lines(text), i) && pkg == TrimSpace(Lines(text)[i][|"package "|..])
  }

  /** A policy compiles to a query exactly when its expansion succeeds, and the query is about the expanded
      text: it asks for the package that its first package line names, which is not empty, and the policy
      engine accepts it under the name of the policy. */
  lemma CompileIff(tool: Toolchain, n: Name, data: Bytes, q: Query)
    ensures Compile(tool, n, data) == Some(q) <==>
            && tool.expand(data) == Some(q.text) && q.name == n
            && (exists pkg :: Declares(q.text, pkg) && pkg != "" && q.question == "x = data." + pkg)
            && tool.accepts(n, q.question, q.text)
  {
    if tool.expand(data) == Some(q.text) {
      PackageNameIsFirst(Lines(q.text));
      var pkg := PackageName(Lines(q.text));
      if pkg != "" {
        var i :| FirstPackage(Lines(q.text), i);
        assert Declares(q.text, pkg);
      }
    }
  }

  /** The part of `GetRego` under the policy-cache lock, on what `Get` returned. */
  function PublishRegos(tool: Toolchain, regos: Regos, n: Name, data: Option<Bytes>, dirty: bool): Regos {
    if data.None? then regos - {n}
    else if n in regos && !dirty then regos
    else match Compile(tool, n, data.value)
      case None => regos
      case Some(q) => regos[n := q]
  }

  /** Handled(None) is Go's (nil, nil): no policy file, no error. */
  datatype RegoResult = Handled(query: Option<Query>) | RegoError

  function PublishResult(tool: Toolchain, regos: Regos, n: Name, data: Option<Bytes>, dirty: bool): RegoResult {
    if data.None? then Handled(None)
    else if n in regos && !dirty then Handled(Some(regos[n]))
    else match Compile(tool, n, data.value)
      case None => RegoError
      case Some(q) => Handled(Some(q))
  }

  /** `Validate` evaluates the query without testing it for nil. */
  datatype ValidateOutcome = Evaluated(query: Query) | ValidateError | NilDereference

  function ValidateOutcomeOf(r: RegoResult): ValidateOutcome {
    match r
    case RegoError => ValidateError
    case Handled(None) => NilDereference
    case Handled(Some(q)) => Evaluated(q)
  }

  class PolicyCache {
    const tool: Toolchain
    const cache: Cache
    var regos: Regos

    constructor (tool: Toolchain, cache: Cache)
      ensures regos == map[] && this.tool == tool && this.cache == cache
    {
      this.tool, this.cache, regos := tool, cache, map[];
    }

    method GetRego(n: Name, read: ReadResult) returns (r: RegoResult)
      modifies this`regos, cache`files
      ensures cache.files == GetFiles(old(cache.files), n, read)
      ensures match GetResultOf(old(cache.files), n, read)
              case GetError => r == RegoError && regos == old(regos)
              case Got(data, dirty) =>
                && r == PublishResult(tool, old(regos), n, data, dirty)
                && regos == PublishRegos(tool, old(regos), n, data, dirty)
                && (data.None? ==> r == Handled(None) && regos == old(regos) - {n})
                && (data.Some? && n in old(regos) && !dirty ==>
                      r == Handled(Some(old(regos)[n])) && regos == old(regos))
                && (data.Some? && (n !in old(regos) || dirty) ==>
                      match Compile(tool, n, data.value)
                      case Some(q) => r == Handled(Some(q)) && regos == old(regos)[n := q]
                      case None => r == RegoError && regos == old(regos))
    {
      var got := cache.Get(n, read);
      if got.GetError? {
        return RegoError;
      }
      if got.data == None {
        regos := regos - {n};
        return Handled(None);
      }
      if n in regos && !got.updated {
        return Handled(Some(regos[n]));
      }
      var expanded := tool.expand(got.data.value);
      if expanded.None? {
        return RegoError;
      }
      var pkg := ScanPackage(Lines(expanded.value));
      if pkg == "" {
        return RegoError;
      }
      var question := "x = data." + pkg;
      if !tool.accepts(n, question, expanded.value) {
        return RegoError;
      }
      regos := regos[n := Query(n, question, expanded.value)];
      return Handled(Some(regos[n]));
    }

    method Validate(n: Name, read: ReadResult) returns (r: ValidateOutcome)
      modifies this`regos, cache`files
      ensures cache.files == GetFiles(old(cache.files), n, read)
      ensures r.NilDereference? <==> !Clean(old(cache.files), n) && read.Absent?
      ensures r.Evaluated? ==> n in regos && regos[n] == r.query
      ensures r.ValidateError? ==> regos == old(regos)
      ensures r.ValidateError? <==>
              if Clean(old(cache.files), n)
              then n !in old(regos) && Compile(tool, n, old(cache.files)[n].data).None?
              else read.Failed? || (read.Present? && Compile(tool, n, read.data).None?)
    {
      var q := GetRego(n, read);
      return ValidateOutcomeOf(q);
    }

    method Ready(n: Name) returns (r: bool)
      ensures r <==> n in regos
    {
      return n in regos;
    }
  }

  /** A failed expansion, a missing package line or a rejected module changes nothing; a query is
      removed only when the file was absent, and is replaced only by a successful compile. */
  lemma OnlySuccessReplaces(tool: Toolchain, regos: Regos, n: Name, data: Option<Bytes>, dirty: bool, m: Name)
    ensures PublishResult(tool, regos, n, data, dirty).RegoError? ==> PublishRegos(tool, regos, n, data, dirty) == regos
    ensures m in regos && m !in PublishRegos(tool, regos, n, data, dirty) ==> m == n && data.None?
    ensures m in PublishRegos(tool, regos, n, data, dirty)
            && (m !in regos || PublishRegos(tool, regos, n, data, dirty)[m] != regos[m]) ==>
              m == n && data.Some? && Compile(tool, n, data.value) == Some(PublishRegos(tool, regos, n, data, dirty)[m])
  {
  }
}
