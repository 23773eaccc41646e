/** The credential file: loadFile in internal/basicauth/htpasswd.go. */
module Htpasswd {
  import opened Prelude
  import opened Text

  type Creds = map<string, string>

  const MIN_ALLOWED_COST := 10

  /** bcrypt.Cost: None when the hash is malformed. */
  type CostOf = string -> Option<int>

  /** What the scanner delivers: the lines up to the end or up to a read error. */
  datatype Input = Unopened | Scanned(lines: seq<string>, failed: bool)

  datatype Loaded = Loaded(creds: Creds) | NoValidCredentials | ReadError

  predicate BcryptPrefix(hash: string) {
    "$2y$" <= hash || "$2b$" <= hash || "$2a$" <= hash
  }

  predicate Acceptable(cost: CostOf, hash: string) {
    BcryptPrefix(hash) && cost(hash).Some? && cost(hash).value >= MIN_ALLOWED_COST
  }

  /** The user and hash of a line, if it counts. */
  function Entry(cost: CostOf, line: string): Option<(string, string)> {
    var t := TrimSpace(line);
    if t == "" || "#" <= t then None
    else match Cut(t, ':')
      case None => None
      case Some(parts) => if Acceptable(cost, parts.1) then Some(parts) else None
  }

  predicate Padding(s: string) {
    forall c :: c in s ==> IsSpace(c)
  }

  /** The line, but for space around it, is the user, a colon and the hash. */
  ghost predicate Reads(line: string, user: string, hash: string) {
    exists left, right :: Padding(left) && Padding(right) && line == left + (user + ":" + hash) + right
  }

  /** A line counts exactly when, but for space around it, it is a user without colon, a colon and a bcrypt
      hash of cost 10 or more, and is no comment. */
  lemma EntryIff(cost: CostOf, line: string, user: string, hash: string)
    ensures Entry(cost, line) == Some((user, hash)) <==>
            && Reads(line, user, hash) && Trimmed(user + ":" + hash) && ':' !in user && !("#" <= user)
            && ("$2y$" <= hash || "$2b$" <= hash || "$2a$" <= hash)
            && cost(hash).Some? && cost(hash).value >= 10
  {
    var text := user + ":" + hash;
    assert !("#" <= text) <==> !("#" <= user) by {
      assert text[0] == if user == "" then ':' else user[0];
    }
    if Entry(cost, line) == Some((user, hash)) {
      TrimSpaceTrims(line);
      var left, right := TrimSpaceSplits(line);
      assert TrimSpace(line) == text;
      assert Padding(left) && Padding(right) && line == left + text + right;
      assert Reads(line, user, hash);
    }
    if Reads(line, user, hash) && Trimmed(text) && ':' !in user {
      var left, right :| Padding(left) && Padding(right) && line == left + text + right;
      TrimPadded(left, text, right);
      CutConcat(user, ':', hash);
      assert TrimSpace(line) == text && Cut(text, ':') == Some((user, hash));
    }
  }

  function Entries(cost: CostOf, lines: seq<string>): seq<Option<(string, string)>> {
    seq(|lines|, i requires 0 <= i < |lines| => Entry(cost, lines[i]))
  }

  predicate For(e: Option<(string, string)>, user: string) {
    e.Some? && e.value.0 == user
  }

  /** Entry `i` is the last one for the user. */
  ghost predicate LastFor(entries: seq<Option<(string, string)>>, i: int, user: string) {
    0 <= i < |entries| && For(entries[i], user) && forall j :: i < j < |entries| ==> !For(entries[j], user)
  }

  /** Declarative meaning of a file: each user has the hash of its last accepted line. */
  ghost predicate Means(entries: seq<Option<(string, string)>>, creds: Creds) {
    && (forall user :: user in creds ==> exists i :: LastFor(entries, i, user))
    && (forall i, user :: LastFor(entries, i, user) ==> user in creds && creds[user] == entries[i].value.1)
  }

  /** The map the line loop builds. */
  function Fold(entries: seq<Option<(string, string)>>): Creds {
    if entries == [] then map[] else Extended(Fold(entries[..|entries| - 1]), entries[|entries| - 1])
  }

  function Extended(creds: Creds, e: Option<(string, string)>): Creds {
    if e.Some? then creds[e.value.0 := e.value.1] else creds
  }

  lemma MeansOneMore(entries: seq<Option<(string, string)>>, creds: Creds, e: Option<(string, string)>)
    requires Means(entries, creds)
    ensures Means(entries + [e], Extended(creds, e))
  {
    var longer, creds' := entries + [e], Extended(creds, e);
    forall user | user in creds'
      ensures exists i :: LastFor(longer, i, user)
    {
      if For(e, user) {
        assert LastFor(longer, |entries|, user);
      } else {
        var i :| LastFor(entries, i, user);
        assert LastFor(longer, i, user);
      }
    }
    forall i, user | LastFor(longer, i, user)
      ensures user in creds' && creds'[user] == longer[i].value.1
    {
      if i < |entries| {
        assert !For(longer[|entries|], user);
        assert LastFor(entries, i, user) by {
          forall j | i < j < |entries|
            ensures !For(entries[j], user)
          {
            assert longer[j] == entries[j];
          }
        }
      }
    }
  }

  /** A file means one thing only. */
  lemma MeaningIsUnique(entries: seq<Option<(string, string)>>, creds: Creds, creds': Creds)
    requires Means(entries, creds) && Means(entries, creds')
    ensures creds == creds'
  {
    assert forall user :: user in creds ==> user in creds' && creds[user] == creds'[user];
    assert forall user :: user in creds' ==> user in creds;
  }

  /** The body of the line loop. */
  method ParseLine(cost: CostOf, text: string) returns (e: Option<(string, string)>)
    ensures e == Entry(cost, text)
    ensures e.Some? ==> Acceptable(cost, e.value.1) && ':' !in e.value.0
  {
    var line := TrimSpace(text);
    if line == "" || "#" <= line {
      return None;
    }
    var parts := Cut(line, ':');
    if parts.None? {
      return None;
    }
    var username, hash := parts.value.0, parts.value.1;
    if "$2y$" <= hash || "$2b$" <= hash || "$2a$" <= hash {
      var c := cost(hash);
      if c.None? {
        return None;
      }
      if c.value < MIN_ALLOWED_COST {
        return None;
      }
      return Some((username, hash));
    }
    return None;
  }

  method Collect(cost: CostOf, lines: seq<string>) returns (creds: Creds)
    ensures creds == Fold(Entries(cost, lines))
  {
    creds := map[];
    ghost var entries := Entries(cost, lines);
    for n := 0 to |lines|
      invariant creds == Fold(entries[..n])
    {
      var e := ParseLine(cost, lines[n]);
      assert entries[..n + 1][..n] == entries[..n];
      if e.Some? {
        creds := creds[e.value.0 := e.value.1];
      }
    }
    assert entries[..|lines|] == entries;
  }

  lemma {:induction false} FoldMeans(entries: seq<Option<(string, string)>>)
    ensures Means(entries, Fold(entries))
  {
    if entries != [] {
      var k := |entries| - 1;
      FoldMeans(entries[..k]);
      MeansOneMore(entries[..k], Fold(entries[..k]), entries[k]);
      assert entries == entries[..k] + [entries[k]];
    }
  }

  lemma {:induction false} SomeEntryHasLast(entries: seq<Option<(string, string)>>, i: nat) returns (k: nat)
    requires i < |entries| && entries[i].Some?
    ensures LastFor(entries, k, entries[i].value.0)
    decreases |entries| - i
  {
    if j :| i < j < |entries| && For(entries[j], entries[i].value.0) {
      k := SomeEntryHasLast(entries, j);
    } else {
      k := i;
    }
  }

  lemma WhatMeaningHolds(cost: CostOf, lines: seq<string>, creds: Creds)
    requires Means(Entries(cost, lines), creds)
    ensures creds == map[] <==> forall i :: 0 <= i < |lines| ==> Entry(cost, lines[i]).None?
    ensures forall u :: u in creds ==> Acceptable(cost, creds[u]) && ':' !in u
  {
    var entries := Entries(cost, lines);
    if i :| 0 <= i < |lines| && Entry(cost, lines[i]).Some? {
      assert entries[i].Some?;
      var k := SomeEntryHasLast(entries, i);
      assert entries[i].value.0 in creds;
    }
    forall u | u in creds
      ensures Acceptable(cost, creds[u]) && ':' !in u && exists i :: 0 <= i < |lines| && Entry(cost, lines[i]).Some?
    {
      var k :| LastFor(entries, k, u);
      assert Entry(cost, lines[k]) == Some((u, creds[u]));
    }
  }

  function LoadOf(cost: CostOf, input: Input): Loaded {
    if input.Unopened? || input.failed then ReadError
    else if Fold(Entries(cost, input.lines)) == map[] then NoValidCredentials
    else Loaded(Fold(Entries(cost, input.lines)))
  }

  method Load(cost: CostOf, input: Input) returns (r: Loaded)
    ensures r == LoadOf(cost, input)
  {
    if input.Unopened? {
      return ReadError;
    }
    var creds := Collect(cost, input.lines);
    if input.failed {
      return ReadError;
    }
    if |creds| == 0 {
      return NoValidCredentials;
    }
    return Loaded(creds);
  }

  /** Each user maps to the hash of its last accepted line, every hash is a bcrypt hash of sufficient
      cost, and there is an error exactly when the file cannot be read or has no accepted line. */
  lemma LoadedMeansTheFile(cost: CostOf, input: Input)
    ensures var r := LoadOf(cost, input);
            && (r.ReadError? <==> input.Unopened? || input.failed)
            && (r.Loaded? ==> Means(Entries(cost, input.lines), r.creds))
            && (r.Loaded? ==> forall u :: u in r.creds ==> Acceptable(cost, r.creds[u]) && ':' !in u)
            && (r.NoValidCredentials? <==>
                  && input.Scanned? && !input.failed
                  && forall i :: 0 <= i < |input.lines| ==> Entry(cost, input.lines[i]).None?)
  {
    if input.Scanned? {
      var entries := Entries(cost, input.lines);
      FoldMeans(entries);
      WhatMeaningHolds(cost, input.lines, Fold(entries));
    }
  }

  // ------------------------------------------------------------------------------------------------
  // Round trip.

  /** A user and hash that survive being written as one line. */
  predicate Printable(cost: CostOf, user: string, hash: string) {
    && ':' !in user && !("#" <= user) && '\n' !in user + hash
    && Trimmed(user + ":" + hash) && Acceptable(cost, hash)
  }

  function Line(creds: Creds, user: string): string
    requires user in creds
  {
    user + ":" + creds[user]
  }

  /** The text of a credential file: one line for each user, in the given order. */
  function Print(creds: Creds, order: seq<string>): string
    requires forall u :: u in order ==> u in creds
  {
    if order == [] then "" else Line(creds, order[0]) + "\n" + Print(creds, order[1..])
  }

  /** The scanner on a readable file. */
  function File(text: string): Input {
    Scanned(ScanLines(text), false)
  }

  lemma PrintedLine(cost: CostOf, user: string, hash: string)
    requires Printable(cost, user, hash)
    ensures Entry(cost, user + ":" + hash) == Some((user, hash))
  {
    var line := user + ":" + hash;
    assert TrimSpace(line) == line;
    CutConcat(user, ':', hash);
    assert !("#" <= line) by {
      assert line[0] == if user == "" then ':' else user[0];
    }
  }

  /** Scanning a printed file gives back the lines. */
  lemma {:induction false} PrintedLines(cost: CostOf, creds: Creds, order: seq<string>)
    requires forall u :: u in order ==> u in creds && Printable(cost, u, creds[u])
    ensures ScanLines(Print(creds, order)) ==
            seq(|order|, i requires 0 <= i < |order| => Line(creds, order[i]))
  {
    if order != [] {
      var line, rest := Line(creds, order[0]), Print(creds, order[1..]);
      assert Print(creds, order) == line + ['\n'] + rest;
      CutConcat(line, '\n', rest);
      assert DropCr(line) == line by {
        assert !IsSpace(line[|line| - 1]) && IsSpace('\r');
      }
      assert ScanLines(Print(creds, order)) == [line] + ScanLines(rest);
      PrintedLines(cost, creds, order[1..]);
    }
  }

  lemma PrintedEntries(cost: CostOf, creds: Creds, order: seq<string>)
    requires forall u :: u in order ==> u in creds && Printable(cost, u, creds[u])
    ensures Entries(cost, ScanLines(Print(creds, order))) ==
            seq(|order|, i requires 0 <= i < |order| => Some((order[i], creds[order[i]])))
  {
    PrintedLines(cost, creds, order);
    forall i | 0 <= i < |order|
      ensures Entry(cost, Line(creds, order[i])) == Some((order[i], creds[order[i]]))
    {
      PrintedLine(cost, order[i], creds[order[i]]);
    }
  }

  ghost function LastIndex(order: seq<string>, u: string): (k: nat)
    requires u in order
    ensures k < |order| && order[k] == u && forall j :: k < j < |order| ==> order[j] != u
  {
    if order[|order| - 1] == u then |order| - 1 else LastIndex(order[..|order| - 1], u)
  }

  /** A printed map, in any order, means that map. */
  lemma PrintedMeansItself(cost: CostOf, creds: Creds, order: seq<string>)
    requires forall u :: u in order <==> u in creds
    requires forall u :: u in creds ==> Printable(cost, u, creds[u])
    ensures Means(Entries(cost, ScanLines(Print(creds, order))), creds)
  {
    var entries := Entries(cost, ScanLines(Print(creds, order)));
    PrintedEntries(cost, creds, order);
    forall user | user in creds
      ensures exists i :: LastFor(entries, i, user)
    {
      assert LastFor(entries, LastIndex(order, user), user);
    }
  }

  lemma EntryIsPrintable(cost: CostOf, line: string)
    requires '\n' !in line && Entry(cost, line).Some?
    ensures var (user, hash) := Entry(cost, line).value; Printable(cost, user, hash)
  {
    var t := TrimSpace(line);
    TrimSpaceTrims(line);
    var (user, hash) := Entry(cost, line).value;
    assert t == user + ":" + hash;
    assert forall c :: c in user || c in hash ==> c in t;
    assert "#" <= user ==> "#" <= t;
  }

  /** Whatever is in a file, what is loaded from it can be printed. */
  lemma LoadedIsPrintable(cost: CostOf, text: string)
    ensures var r := LoadOf(cost, File(text));
            r.Loaded? ==> r.creds != map[] && forall u :: u in r.creds ==> Printable(cost, u, r.creds[u])
  {
    var lines := ScanLines(text);
    var entries := Entries(cost, lines);
    FoldMeans(entries);
    forall u | u in Fold(entries)
      ensures Printable(cost, u, Fold(entries)[u])
    {
      var k :| LastFor(entries, k, u);
      EntryIsPrintable(cost, lines[k]);
    }
  }

  /** The loader undoes printing, whatever the order of the printed users, exactly for the maps that have a
      user and are printable throughout: which are those that some file loads to. */
  lemma LoadUndoesPrintIff(cost: CostOf, creds: Creds, order: seq<string>)
    requires forall u :: u in order <==> u in creds
    ensures LoadOf(cost, File(Print(creds, order))) == Loaded(creds) <==>
            creds != map[] && forall u :: u in creds ==> Printable(cost, u, creds[u])
    ensures LoadOf(cost, File(Print(creds, order))) == Loaded(creds) <==>
            exists text :: LoadOf(cost, File(text)) == Loaded(creds)
  {
    var text := Print(creds, order);
    var entries := Entries(cost, ScanLines(text));
    LoadedIsPrintable(cost, text);
    if creds != map[] && forall u :: u in creds ==> Printable(cost, u, creds[u]) {
      PrintedMeansItself(cost, creds, order);
      FoldMeans(entries);
      MeaningIsUnique(entries, creds, Fold(entries));
    }
    if text' :| LoadOf(cost, File(text')) == Loaded(creds) {
      LoadedIsPrintable(cost, text');
    }
  }
}
