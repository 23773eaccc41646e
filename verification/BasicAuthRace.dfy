/**
 The same provider under every interleaving: a call loads the current credential map, looks into the cache,
 runs bcrypt and stores its verdict in separate steps, and the watcher swaps the map before it
 clears the cache.
 */
module BasicAuthRace {
  import opened Prelude
  import opened RequestInfo
  import opened Htpasswd
  import opened BasicAuth

  /** A bcrypt run: the pair, which credential map it was checked against, the verdict and when the
      verdict was ready to be stored.  The cache stores `ok` and `at`; the rest is evidence. */
  datatype Check = Check(user: string, password: string, gen: nat, ok: bool, at: nat)

  datatype Caller =
    | Arrived(user: string, password: string)
    | Looking(user: string, password: string, gen: nat)    // has the hash from installed[gen]
    | Missed(user: string, password: string, gen: nat)
    | Judged(user: string, password: string, gen: nat, ok: bool)
    | Accepted(user: string, password: string, check: Check, when: nat)
    | Refused

  datatype Race = Race(
    now: nat,
    installed: seq<Creds>,      // all credential maps so far; the last is the current one
    clearing: bool,             // the watcher is between Store and Clear
    cache: map<int, Check>,
    calls: seq<Caller>)

  datatype Move =
    | Elapse(time: nat)
    | Arrive(user: string, password: string)
    | LoadCreds(id: nat)
    | Lookup(id: nat)
    | RunBcrypt(id: nat)
    | StoreVerdict(id: nat, kept: bool)
    | Install(creds: Creds)
    | ClearCache
    | EvictKey(key: int)

  predicate Can(s: Race, move: Move) {
    match move
    case Elapse(_) => true
    case Arrive(_, _) => true
    case LoadCreds(i) => i < |s.calls| && s.calls[i].Arrived? && s.installed != []
    case Lookup(i) => i < |s.calls| && s.calls[i].Looking?
    case RunBcrypt(i) =>
      && i < |s.calls| && s.calls[i].Missed? && s.calls[i].gen < |s.installed|
      && s.calls[i].user in s.installed[s.calls[i].gen]
    case StoreVerdict(i, _) => i < |s.calls| && s.calls[i].Judged?
    case Install(creds) => !s.clearing && WellKeyed(creds)
    case ClearCache => s.clearing
    case EvictKey(_) => true
  }

  /** What the cache really holds. */
  function Verdicts(cache: map<int, Check>): Cache {
    Some(map k | k in cache :: Verdict(cache[k].ok, cache[k].at))
  }

  function Looked(crypto: Crypto, s: Race, c: Caller): Caller
    requires c.Looking?
  {
    var key := crypto.Key(c.user, c.password);
    match Find(Verdicts(s.cache), key, s.now)
    case None => Missed(c.user, c.password, c.gen)
    case Some(valid) => if valid then Accepted(c.user, c.password, s.cache[key], s.now) else Refused
  }

  function Do(crypto: Crypto, s: Race, move: Move): Race
    requires Can(s, move)
  {
    match move
    case Elapse(d) => s.(now := s.now + d)
    case Arrive(u, p) => s.(calls := s.calls + [Arrived(u, p)])
    case LoadCreds(i) =>
      var Arrived(u, p) := s.calls[i];
      var gen := |s.installed| - 1;
      s.(calls := s.calls[i := if u != "" && u in s.installed[gen] then Looking(u, p, gen) else Refused])
    case Lookup(i) => s.(calls := s.calls[i := Looked(crypto, s, s.calls[i])])
    case RunBcrypt(i) =>
      var Missed(u, p, gen) := s.calls[i];
      s.(calls := s.calls[i := Judged(u, p, gen, crypto.bcrypt(s.installed[gen][u], p))])
    case StoreVerdict(i, kept) =>
      var Judged(u, p, gen, ok) := s.calls[i];
      var check := Check(u, p, gen, ok, s.now);
      s.(calls := s.calls[i := if ok then Accepted(u, p, check, s.now) else Refused],
         cache := if kept then s.cache[crypto.Key(u, p) := check] else s.cache)
    case Install(creds) => s.(installed := s.installed + [creds], clearing := true)
    case ClearCache => s.(cache := map[], clearing := false)
    case EvictKey(k) => s.(cache := s.cache - {k})
  }

  ghost predicate IsRace(crypto: Crypto, states: seq<Race>, moves: seq<Move>) {
    && |states| == |moves| + 1
    && forall i :: 0 <= i < |moves| ==> Can(states[i], moves[i]) && states[i + 1] == Do(crypto, states[i], moves[i])
  }

  ghost predicate Starts(s: Race) {
    |s.installed| == 1 && WellKeyed(s.installed[0]) && !s.clearing && s.cache == map[] && s.calls == []
  }

  /** A call whose steps are not interleaved with anything else is the atomic call: it looks up, judges
      and stores as `Verify` does on the verdicts. */
  lemma UndisturbedCallIsVerify(crypto: Crypto, s: Race, i: nat, kept: bool)
    requires Can(s, Lookup(i)) && s.calls[i].gen < |s.installed| && s.calls[i].user in s.installed[s.calls[i].gen]
    ensures var Looking(user, password, gen) := s.calls[i];
            var hash := s.installed[gen][user];
            var (valid, cache') := Verify(crypto, Verdicts(s.cache), s.now, kept, user, hash, password);
            var s1 := Do(crypto, s, Lookup(i));
            if s1.calls[i].Missed? then
              && Can(s1, RunBcrypt(i))
              && var s2 := Do(crypto, s1, RunBcrypt(i));
                 && Can(s2, StoreVerdict(i, kept))
                 && var s3 := Do(crypto, s2, StoreVerdict(i, kept));
                    (s3.calls[i].Accepted? <==> valid) && Verdicts(s3.cache) == cache'
            else (s1.calls[i].Accepted? <==> valid) && Verdicts(s1.cache) == cache'
  {
    var Looking(user, password, gen) := s.calls[i];
    var key, ok := crypto.Key(user, password), crypto.bcrypt(s.installed[gen][user], password);
    var s1 := Do(crypto, s, Lookup(i));
    if s1.calls[i].Missed? {
      var s3 := Do(crypto, Do(crypto, s1, RunBcrypt(i)), StoreVerdict(i, kept));
      assert Find(Verdicts(s.cache), key, s.now) == None;
      assert s3.cache == if kept then s.cache[key := Check(user, password, gen, ok, s.now)] else s.cache;
      assert Verdicts(s3.cache).value == Put(Verdicts(s.cache), key, ok, s.now, kept).value;
    }
  }

  // ------------------------------------------------------------------------------------------------

  /** The check was a real bcrypt run against an installed map. */
  ghost predicate Genuine(crypto: Crypto, s: Race, check: Check) {
    && check.gen < |s.installed| && check.user in s.installed[check.gen] && check.at <= s.now
    && check.ok == crypto.bcrypt(s.installed[check.gen][check.user], check.password)
  }

  ghost predicate CallOk(crypto: Crypto, s: Race, c: Caller) {
    match c
    case Looking(u, _, gen) => gen < |s.installed| && u in s.installed[gen]
    case Missed(u, _, gen) => gen < |s.installed| && u in s.installed[gen]
    case Judged(u, p, gen, ok) =>
      gen < |s.installed| && u in s.installed[gen] && ok == crypto.bcrypt(s.installed[gen][u], p)
    case Accepted(u, p, check, when) =>
      && Genuine(crypto, s, check) && check.ok && check.user == u && check.password == p
      && check.at <= when <= s.now && when <= check.at + TTL
    case _ => true
  }

  ghost predicate RaceInv(crypto: Crypto, s: Race) {
    && s.installed != [] && (forall g :: 0 <= g < |s.installed| ==> WellKeyed(s.installed[g]))
    && (forall k :: k in s.cache ==>
          Genuine(crypto, s, s.cache[k]) && k == crypto.Key(s.cache[k].user, s.cache[k].password))
    && (forall i :: 0 <= i < |s.calls| ==> CallOk(crypto, s, s.calls[i]))
  }

  lemma LookupIsOk(crypto: Crypto, s: Race, i: nat)
    requires crypto.Injective() && RaceInv(crypto, s) && Can(s, Lookup(i))
    ensures CallOk(crypto, s, Looked(crypto, s, s.calls[i]))
  {
    var c := s.calls[i];
    var key := crypto.Key(c.user, c.password);
    assert CallOk(crypto, s, c);
    if key in s.cache {
      var check := s.cache[key];
      KeyTextUnambiguous(c.user, c.password, check.user, check.password);
    }
  }

  /** Time passing and further maps take nothing away from a check or a call. */
  lemma OkMono(crypto: Crypto, s: Race, s': Race)
    requires s.now <= s'.now && s.installed <= s'.installed
    ensures forall check :: Genuine(crypto, s, check) ==> Genuine(crypto, s', check)
    ensures forall c :: CallOk(crypto, s, c) ==> CallOk(crypto, s', c)
  {
    assert forall g :: 0 <= g < |s.installed| ==> s'.installed[g] == s.installed[g];
  }

  lemma ReplaceCall(crypto: Crypto, s: Race, i: nat, c: Caller)
    requires RaceInv(crypto, s) && i < |s.calls| && CallOk(crypto, s, c)
    ensures RaceInv(crypto, s.(calls := s.calls[i := c]))
  {
    OkMono(crypto, s, s.(calls := s.calls[i := c]));
  }

  lemma StoreKeepsInv(crypto: Crypto, s: Race, i: nat, kept: bool)
    requires RaceInv(crypto, s) && Can(s, StoreVerdict(i, kept))
    ensures RaceInv(crypto, Do(crypto, s, StoreVerdict(i, kept)))
  {
    var Judged(u, p, gen, ok) := s.calls[i];
    assert CallOk(crypto, s, s.calls[i]);
    var check := Check(u, p, gen, ok, s.now);
    assert Genuine(crypto, s, check);
    var stored := s.(cache := if kept then s.cache[crypto.Key(u, p) := check] else s.cache);
    OkMono(crypto, s, stored);
    ReplaceCall(crypto, stored, i, if ok then Accepted(u, p, check, s.now) else Refused);
  }

  lemma MoveKeepsInv(crypto: Crypto, s: Race, move: Move)
    requires crypto.Injective() && RaceInv(crypto, s) && Can(s, move)
    ensures RaceInv(crypto, Do(crypto, s, move))
  {
    match move
    case LoadCreds(i) => ReplaceCall(crypto, s, i, Do(crypto, s, move).calls[i]);
    case Lookup(i) =>
      LookupIsOk(crypto, s, i);
      ReplaceCall(crypto, s, i, Looked(crypto, s, s.calls[i]));
    case RunBcrypt(i) => ReplaceCall(crypto, s, i, Do(crypto, s, move).calls[i]);
    case StoreVerdict(i, kept) => StoreKeepsInv(crypto, s, i, kept);
    case _ => OkMono(crypto, s, Do(crypto, s, move));
  }

  lemma {:induction false} InvAlways(crypto: Crypto, states: seq<Race>, moves: seq<Move>)
    requires crypto.Injective() && IsRace(crypto, states, moves) && Starts(states[0])
    ensures RaceInv(crypto, states[|moves|])
  {
    if moves != [] {
      var k := |moves| - 1;
      InvAlways(crypto, states[..k + 1], moves[..k]);
      MoveKeepsInv(crypto, states[k], moves[k]);
    }
  }

  /** Move `r` of the run ran bcrypt for this pair against map `gen`, which was installed, with verdict `ok`. */
  ghost predicate Ran(crypto: Crypto, states: seq<Race>, moves: seq<Move>, r: int, id: nat, c: Caller)
    requires IsRace(crypto, states, moves) && c.Judged?
  {
    && 0 <= r < |moves| && moves[r] == RunBcrypt(id)
    && states[r].calls[id] == Missed(c.user, c.password, c.gen)
    && c.ok == crypto.bcrypt(states[r].installed[c.gen][c.user], c.password)
  }

  /** Move `k` stored (or tried to store) the verdict that move `r` had computed. */
  ghost predicate Made(crypto: Crypto, states: seq<Race>, moves: seq<Move>, r: int, k: int, check: Check)
    requires IsRace(crypto, states, moves)
  {
    && 0 <= r < k < |moves| && moves[k].StoreVerdict? && check.at == states[k].now
    && states[k].calls[moves[k].id] == Judged(check.user, check.password, check.gen, check.ok)
    && Ran(crypto, states, moves, r, moves[k].id, states[k].calls[moves[k].id])
  }

  /** The store happened under the present map, or under the one before it if the cache is yet to be
      cleared. */
  predicate SinceClear(earlier: Race, s: Race) {
    earlier.installed == s.installed
    || (s.clearing && s.installed != [] && earlier.installed == s.installed[..|s.installed| - 1])
  }

  ghost predicate JudgedAccounted(crypto: Crypto, states: seq<Race>, moves: seq<Move>, t: nat, i: nat)
    requires IsRace(crypto, states, moves) && t <= |moves| && i < |states[t].calls| && states[t].calls[i].Judged?
  {
    exists r :: r < t && Ran(crypto, states, moves, r, i, states[t].calls[i])
  }

  ghost predicate CheckAccounted(crypto: Crypto, states: seq<Race>, moves: seq<Move>, t: nat, check: Check)
    requires IsRace(crypto, states, moves) && t <= |moves|
  {
    exists r, k :: k < t && Made(crypto, states, moves, r, k, check)
  }

  ghost predicate EntryAccounted(crypto: Crypto, states: seq<Race>, moves: seq<Move>, t: nat, key: int)
    requires IsRace(crypto, states, moves) && t <= |moves| && key in states[t].cache
  {
    exists r, k :: k < t && Made(crypto, states, moves, r, k, states[t].cache[key])
                   && moves[k].kept && SinceClear(states[k], states[t])
  }

  /** Everything in state `t` has its origin in the first `t` moves. */
  ghost predicate Accounted(crypto: Crypto, states: seq<Race>, moves: seq<Move>, t: nat)
    requires IsRace(crypto, states, moves) && t <= |moves|
  {
    var s := states[t];
    && (forall i :: 0 <= i < |s.calls| && s.calls[i].Judged? ==> JudgedAccounted(crypto, states, moves, t, i))
    && (forall i :: 0 <= i < |s.calls| && s.calls[i].Accepted? ==>
          CheckAccounted(crypto, states, moves, t, s.calls[i].check))
    && (forall key :: key in s.cache ==> EntryAccounted(crypto, states, moves, t, key))
  }

  lemma JudgedStep(crypto: Crypto, states: seq<Race>, moves: seq<Move>, t: nat, i: nat)
    requires IsRace(crypto, states, moves) && t < |moves| && Accounted(crypto, states, moves, t)
    requires i < |states[t + 1].calls| && states[t + 1].calls[i].Judged?
    ensures JudgedAccounted(crypto, states, moves, t + 1, i)
  {
    assert Can(states[t], moves[t]) && states[t + 1] == Do(crypto, states[t], moves[t]);
    if moves[t] == RunBcrypt(i) {
      assert Ran(crypto, states, moves, t, i, states[t + 1].calls[i]);
    } else {
      assert JudgedAccounted(crypto, states, moves, t, i);
      var r :| r < t && Ran(crypto, states, moves, r, i, states[t].calls[i]);
      assert Ran(crypto, states, moves, r, i, states[t + 1].calls[i]);
    }
  }

  /** The verdict that move `t` stores is accounted for. */
  lemma StoredCheck(crypto: Crypto, states: seq<Race>, moves: seq<Move>, t: nat) returns (r: int)
    requires IsRace(crypto, states, moves) && t < |moves| && Accounted(crypto, states, moves, t)
    requires moves[t].StoreVerdict?
    ensures Can(states[t], moves[t])
    ensures var Judged(u, p, gen, ok) := states[t].calls[moves[t].id];
            Made(crypto, states, moves, r, t, Check(u, p, gen, ok, states[t].now))
  {
    assert Can(states[t], moves[t]);
    var i := moves[t].id;
    assert JudgedAccounted(crypto, states, moves, t, i);
    r :| r < t && Ran(crypto, states, moves, r, i, states[t].calls[i]);
  }

  lemma AcceptedStep(crypto: Crypto, states: seq<Race>, moves: seq<Move>, t: nat, i: nat)
    requires IsRace(crypto, states, moves) && t < |moves| && Accounted(crypto, states, moves, t)
    requires i < |states[t + 1].calls| && states[t + 1].calls[i].Accepted?
    ensures CheckAccounted(crypto, states, moves, t + 1, states[t + 1].calls[i].check)
  {
    var s := states[t];
    assert Can(s, moves[t]) && states[t + 1] == Do(crypto, s, moves[t]);
    if moves[t].StoreVerdict? && moves[t].id == i {
      var r := StoredCheck(crypto, states, moves, t);
    } else if moves[t] == Lookup(i) {
      var key := crypto.Key(s.calls[i].user, s.calls[i].password);
      assert key in s.cache && EntryAccounted(crypto, states, moves, t, key);
      var r, k :| k < t && Made(crypto, states, moves, r, k, s.cache[key]);
      assert Made(crypto, states, moves, r, k, states[t + 1].calls[i].check);
    } else {
      assert CheckAccounted(crypto, states, moves, t, s.calls[i].check);
    }
  }

  /** The present map stays present, or becomes the one before it until the cache is cleared. */
  lemma SinceClearStep(crypto: Crypto, earlier: Race, s: Race, move: Move)
    requires Can(s, move) && !move.ClearCache? && SinceClear(earlier, s)
    ensures SinceClear(earlier, Do(crypto, s, move))
  {
    if move.Install? {
      assert Do(crypto, s, move).installed[..|s.installed|] == s.installed;
    }
  }

  lemma EntryStep(crypto: Crypto, states: seq<Race>, moves: seq<Move>, t: nat, key: int)
    requires IsRace(crypto, states, moves) && t < |moves| && Accounted(crypto, states, moves, t)
    requires key in states[t + 1].cache
    ensures EntryAccounted(crypto, states, moves, t + 1, key)
  {
    var s, s' := states[t], states[t + 1];
    assert Can(s, moves[t]) && s' == Do(crypto, s, moves[t]);
    if moves[t].StoreVerdict? && moves[t].kept
       && key == crypto.Key(s.calls[moves[t].id].user, s.calls[moves[t].id].password) {
      var r := StoredCheck(crypto, states, moves, t);
      assert Made(crypto, states, moves, r, t, s'.cache[key]) && SinceClear(s, s');
    } else {
      assert s'.cache[key] == s.cache[key] && EntryAccounted(crypto, states, moves, t, key);
      var r, k :| && k < t && Made(crypto, states, moves, r, k, s.cache[key])
                  && moves[k].kept && SinceClear(states[k], s);
      SinceClearStep(crypto, states[k], s, moves[t]);
      assert Made(crypto, states, moves, r, k, s'.cache[key]);
    }
  }

  lemma {:induction false} AlwaysAccounted(crypto: Crypto, states: seq<Race>, moves: seq<Move>, t: nat)
    requires IsRace(crypto, states, moves) && Starts(states[0]) && t <= |moves|
    ensures Accounted(crypto, states, moves, t)
  {
    if t > 0 {
      AlwaysAccounted(crypto, states, moves, t - 1);
      var s := states[t];
      forall i | 0 <= i < |s.calls| && s.calls[i].Judged?
        ensures JudgedAccounted(crypto, states, moves, t, i)
      {
        JudgedStep(crypto, states, moves, t - 1, i);
      }
      forall i | 0 <= i < |s.calls| && s.calls[i].Accepted?
        ensures CheckAccounted(crypto, states, moves, t, s.calls[i].check)
      {
        AcceptedStep(crypto, states, moves, t - 1, i);
      }
      forall key | key in s.cache
        ensures EntryAccounted(crypto, states, moves, t, key)
      {
        EntryStep(crypto, states, moves, t - 1, key);
      }
    }
  }

  /** Bounded staleness: under every interleaving, whenever a call has been accepted as a known user, some
      move of the run checked that very pair with bcrypt against a credential map that was installed then,
      a later one stored that verdict, and the acceptance came at most one TTL after that. */
  lemma AcceptedWasVerified(crypto: Crypto, states: seq<Race>, moves: seq<Move>, i: nat) returns (r: nat, k: nat)
    requires crypto.Injective() && IsRace(crypto, states, moves) && Starts(states[0])
    requires i < |states[|moves|].calls| && states[|moves|].calls[i].Accepted?
    ensures var Accepted(user, password, check, when) := states[|moves|].calls[i];
            && r < k < |moves| && moves[r].RunBcrypt? && moves[k].StoreVerdict? && moves[k].id == moves[r].id
            && states[r].calls[moves[r].id] == Missed(user, password, check.gen)
            && check.gen < |states[r].installed| && user in states[r].installed[check.gen]
            && crypto.bcrypt(states[r].installed[check.gen][user], password)
            && states[k].calls[moves[k].id] == Judged(user, password, check.gen, true)
            && states[k].now <= when <= states[k].now + 2 * 60 * 1000 && when <= states[|moves|].now
  {
    InvAlways(crypto, states, moves);
    AlwaysAccounted(crypto, states, moves, |moves|);
    var c := states[|moves|].calls[i];
    assert CallOk(crypto, states[|moves|], c);
    assert CheckAccounted(crypto, states, moves, |moves|, c.check);
    r, k :| k < |moves| && Made(crypto, states, moves, r, k, c.check);
    assert Can(states[r], moves[r]) && Can(states[k], moves[k]);
  }

  /** After more than two minutes every lookup misses, so that bcrypt decides again: in every run, whatever
      was stored before. */
  lemma TwoMinutesForgetAll(crypto: Crypto, states: seq<Race>, moves: seq<Move>, time: nat, i: nat)
    requires crypto.Injective() && IsRace(crypto, states, moves) && Starts(states[0])
    requires time > 2 * 60 * 1000 && Can(states[|moves|], Lookup(i))
    ensures var s := Do(crypto, states[|moves|], Move.Elapse(time));
            Can(s, Lookup(i)) && Do(crypto, s, Lookup(i)).calls[i].Missed?
  {
    InvAlways(crypto, states, moves);
    var s := states[|moves|];
    assert forall k :: k in s.cache ==> Genuine(crypto, s, s.cache[k]);
  }

  // ------------------------------------------------------------------------------------------------
  // Revocation.

  predicate InFlight(c: Caller, g: nat) {
    (c.Looking? || c.Missed? || c.Judged?) && c.gen <= g
  }

  /** Verdicts from generation g or older were stored by time t and are used at most one TTL later. */
  ghost predicate Fading(s: Race, g: nat, t: nat) {
    && |s.installed| > g + 1
    && (forall i :: 0 <= i < |s.calls| ==> !InFlight(s.calls[i], g))
    && (forall k :: k in s.cache && s.cache[k].gen <= g ==> s.cache[k].at <= t)
    && (forall i :: 0 <= i < |s.calls| && s.calls[i].Accepted? && s.calls[i].check.gen <= g ==>
          s.calls[i].when <= t + TTL)
  }

  lemma MoveKeepsFading(crypto: Crypto, s: Race, move: Move, g: nat, t: nat)
    requires Can(s, move) && Fading(s, g, t)
    ensures Fading(Do(crypto, s, move), g, t)
  {
    var s' := Do(crypto, s, move);
    match move
    case Lookup(i) => assert !InFlight(s.calls[i], g);
    case RunBcrypt(i) => assert !InFlight(s.calls[i], g);
    case StoreVerdict(i, _) => assert !InFlight(s.calls[i], g);
    case _ =>
  }

  lemma {:induction false} FadingAlways(crypto: Crypto, states: seq<Race>, moves: seq<Move>, g: nat, t: nat)
    requires IsRace(crypto, states, moves) && Fading(states[0], g, t)
    ensures Fading(states[|moves|], g, t)
  {
    if moves != [] {
      var k := |moves| - 1;
      FadingAlways(crypto, states[..k + 1], moves[..k], g, t);
      MoveKeepsFading(crypto, states[k], moves[k], g, t);
    }
  }

  /** Once a newer map is installed and no call that loaded generation g or an older one is still under
      way, an acceptance more than one TTL later rests on a newer generation. */
  lemma RevokedAfterTtl(crypto: Crypto, before: seq<Race>, moves: seq<Move>, after: seq<Race>, moves': seq<Move>,
                        g: nat, i: nat)
    requires crypto.Injective() && IsRace(crypto, before, moves) && Starts(before[0])
    requires IsRace(crypto, after, moves') && after[0] == before[|moves|]
    requires g + 1 < |after[0].installed| && forall j :: 0 <= j < |after[0].calls| ==> !InFlight(after[0].calls[j], g)
    requires i < |after[|moves'|].calls| && after[|moves'|].calls[i].Accepted?
    requires after[|moves'|].calls[i].when > after[0].now + TTL
    ensures after[|moves'|].calls[i].check.gen > g
  {
    InvAlways(crypto, before, moves);
    var s := after[0];
    forall j | 0 <= j < |s.calls| && s.calls[j].Accepted?
      ensures s.calls[j].when <= s.now
    {
      assert CallOk(crypto, s, s.calls[j]);
    }
    FadingAlways(crypto, after, moves', g, s.now);
  }

  // ------------------------------------------------------------------------------------------------
  // Why it is bounded staleness and not equality.

  /** The lookup of call `i` answers from the cache, and not as bcrypt does for the map the call holds. */
  ghost predicate Misjudged(crypto: Crypto, s: Race, i: nat) {
    && Can(s, Lookup(i)) && s.calls[i].gen < |s.installed| && s.calls[i].user in s.installed[s.calls[i].gen]
    && var after := Do(crypto, s, Lookup(i)).calls[i];
       !after.Missed? && (after.Accepted? <==> !BcryptSays(crypto, s, i))
  }

  predicate BcryptSays(crypto: Crypto, s: Race, i: nat)
    requires i < |s.calls| && s.calls[i].Looking?
    requires s.calls[i].gen < |s.installed| && s.calls[i].user in s.installed[s.calls[i].gen]
  {
    crypto.bcrypt(s.installed[s.calls[i].gen][s.calls[i].user], s.calls[i].password)
  }

  predicate HasNewest(s: Race, i: nat) {
    i < |s.calls| && s.calls[i].Looking? && s.calls[i].gen == |s.installed| - 1
  }

  predicate FreshFor(crypto: Crypto, s: Race, i: nat)
    requires i < |s.calls| && s.calls[i].Looking?
  {
    var key := crypto.Key(s.calls[i].user, s.calls[i].password);
    key in s.cache && s.now <= s.cache[key].at + TTL
  }

  /** At a lookup, whatever the watcher is doing: the answer is wrong exactly when an unexpired entry comes
      from a map whose verdict on the pair differs from that of the map the call holds. */
  lemma MisjudgedIff(crypto: Crypto, s: Race, i: nat)
    requires crypto.Injective() && RaceInv(crypto, s) && Can(s, Lookup(i))
    ensures var Looking(user, password, gen) := s.calls[i];
            Misjudged(crypto, s, i) <==>
            FreshFor(crypto, s, i)
            && var from := s.cache[crypto.Key(user, password)].gen;
               && from < |s.installed| && user in s.installed[from]
               && crypto.bcrypt(s.installed[from][user], password) != crypto.bcrypt(s.installed[gen][user], password)
  {
    var c := s.calls[i];
    var key := crypto.Key(c.user, c.password);
    assert CallOk(crypto, s, c);
    if key in s.cache {
      KeyTextUnambiguous(c.user, c.password, s.cache[key].user, s.cache[key].password);
    }
  }

  /** The call with this verdict loaded its map before the last reload. */
  predicate Straddles(s: Race, i: nat) {
    i < |s.calls| && s.calls[i].Judged? && s.calls[i].gen != |s.installed| - 1
  }

  /** A hit is wrong if its verdict is not that of bcrypt, and never if it is about the map the call holds. */
  lemma HitAnswers(crypto: Crypto, s: Race, i: nat)
    requires crypto.Injective() && RaceInv(crypto, s) && Can(s, Lookup(i))
    ensures s.calls[i].gen < |s.installed| && s.calls[i].user in s.installed[s.calls[i].gen]
    ensures var key := crypto.Key(s.calls[i].user, s.calls[i].password);
            && (Misjudged(crypto, s, i) <==> FreshFor(crypto, s, i) && s.cache[key].ok != BcryptSays(crypto, s, i))
            && (key in s.cache && s.cache[key].gen == s.calls[i].gen ==> s.cache[key].ok == BcryptSays(crypto, s, i))
  {
    var c := s.calls[i];
    var key := crypto.Key(c.user, c.password);
    assert CallOk(crypto, s, c);
    if key in s.cache {
      KeyTextUnambiguous(c.user, c.password, s.cache[key].user, s.cache[key].password);
    }
  }

  /** The store that an entry comes from, outside the watcher's swap: it happened under the present map. */
  lemma EntryOrigin(crypto: Crypto, states: seq<Race>, moves: seq<Move>, key: int) returns (r: int, k: nat)
    requires IsRace(crypto, states, moves) && Starts(states[0])
    requires !states[|moves|].clearing && key in states[|moves|].cache
    ensures k < |moves| && Made(crypto, states, moves, r, k, states[|moves|].cache[key]) && moves[k].kept
    ensures states[k].installed == states[|moves|].installed
  {
    AlwaysAccounted(crypto, states, moves, |moves|);
    assert EntryAccounted(crypto, states, moves, |moves|, key);
    r, k :| && k < |moves| && Made(crypto, states, moves, r, k, states[|moves|].cache[key])
            && moves[k].kept && SinceClear(states[k], states[|moves|]);
  }

  /** A store that straddled a reload made the entry. */
  ghost predicate MadeStraddling(crypto: Crypto, states: seq<Race>, moves: seq<Move>, check: Check)
    requires IsRace(crypto, states, moves)
  {
    exists r, k :: Made(crypto, states, moves, r, k, check) && moves[k].kept && Straddles(states[k], moves[k].id)
  }

  /** Over whole runs, outside the watcher's swap: a call that holds the current map is answered wrongly
      exactly when a store that straddled a reload put in the entry it hits, and with another verdict. */
  lemma MisjudgedIffStraddled(crypto: Crypto, states: seq<Race>, moves: seq<Move>, i: nat)
    requires crypto.Injective() && IsRace(crypto, states, moves) && Starts(states[0])
    requires HasNewest(states[|moves|], i) && !states[|moves|].clearing
    ensures var s := states[|moves|];
            Misjudged(crypto, s, i) <==>
            FreshFor(crypto, s, i) && s.calls[i].user in s.installed[s.calls[i].gen]
            && var entry := s.cache[crypto.Key(s.calls[i].user, s.calls[i].password)];
               MadeStraddling(crypto, states, moves, entry) && entry.ok != BcryptSays(crypto, s, i)
  {
    var s := states[|moves|];
    InvAlways(crypto, states, moves);
    HitAnswers(crypto, s, i);
    if Misjudged(crypto, s, i) {
      var key := crypto.Key(s.calls[i].user, s.calls[i].password);
      var r, k := EntryOrigin(crypto, states, moves, key);
      assert Straddles(states[k], moves[k].id);
    }
  }

  /** Outside the watcher's swap, all cached verdicts are about the current map. */
  ghost predicate CacheIsCurrent(s: Race) {
    !s.clearing ==> forall k :: k in s.cache ==> s.cache[k].gen == |s.installed| - 1
  }

  /** Storing a verdict keeps the cache current exactly when the call did not straddle a reload (or the
      cache is about to be cleared, or the store was dropped). */
  lemma StoreKeepsCurrentIff(crypto: Crypto, s: Race, i: nat, kept: bool)
    requires Can(s, StoreVerdict(i, kept)) && CacheIsCurrent(s)
    ensures CacheIsCurrent(Do(crypto, s, StoreVerdict(i, kept))) <==> s.clearing || !kept || !Straddles(s, i)
  {
    var s' := Do(crypto, s, StoreVerdict(i, kept));
    var key := crypto.Key(s.calls[i].user, s.calls[i].password);
    assert kept ==> key in s'.cache && s'.cache[key].gen == s.calls[i].gen;
  }

  ghost predicate Unstraddled(states: seq<Race>, moves: seq<Move>)
    requires |states| == |moves| + 1
  {
    forall k :: 0 <= k < |moves| && moves[k].StoreVerdict? ==>
      states[k].clearing || !moves[k].kept || !Straddles(states[k], moves[k].id)
  }

  lemma {:induction false} CurrentUnlessStraddled(crypto: Crypto, states: seq<Race>, moves: seq<Move>)
    requires IsRace(crypto, states, moves) && Starts(states[0]) && Unstraddled(states, moves)
    ensures CacheIsCurrent(states[|moves|])
  {
    if moves != [] {
      var k := |moves| - 1;
      CurrentUnlessStraddled(crypto, states[..k + 1], moves[..k]);
      assert Can(states[k], moves[k]) && states[k + 1] == Do(crypto, states[k], moves[k]);
      if moves[k].StoreVerdict? {
        StoreKeepsCurrentIff(crypto, states[k], moves[k].id, moves[k].kept);
      }
    }
  }

  /** The current map knows the user and judges the pair otherwise than the map the call holds. */
  predicate NewestDiffers(crypto: Crypto, s: Race, i: nat)
    requires i < |s.calls| && s.calls[i].Looking? && s.installed != []
    requires s.calls[i].gen < |s.installed| && s.calls[i].user in s.installed[s.calls[i].gen]
  {
    var newest := s.installed[|s.installed| - 1];
    s.calls[i].user in newest
    && crypto.bcrypt(newest[s.calls[i].user], s.calls[i].password) != BcryptSays(crypto, s, i)
  }

  lemma CurrentMisjudgedIff(crypto: Crypto, s: Race, i: nat)
    requires crypto.Injective() && RaceInv(crypto, s) && CacheIsCurrent(s) && !s.clearing && Can(s, Lookup(i))
    ensures s.calls[i].gen < |s.installed| && s.calls[i].user in s.installed[s.calls[i].gen]
    ensures Misjudged(crypto, s, i) <==> FreshFor(crypto, s, i) && NewestDiffers(crypto, s, i)
  {
    MisjudgedIff(crypto, s, i);
    var c := s.calls[i];
    assert CallOk(crypto, s, c);
    var key := crypto.Key(c.user, c.password);
    if key in s.cache {
      KeyTextUnambiguous(c.user, c.password, s.cache[key].user, s.cache[key].password);
    }
  }

  /** In every run without such stores, outside the watcher's swap, a lookup is answered otherwise than by
      bcrypt with the map its call holds exactly when there is an unexpired entry and the current map differs
      on the pair: so never if the call holds the current map. */
  lemma UnstraddledMisjudgedIff(crypto: Crypto, states: seq<Race>, moves: seq<Move>, i: nat)
    requires crypto.Injective() && IsRace(crypto, states, moves) && Starts(states[0]) && Unstraddled(states, moves)
    requires Can(states[|moves|], Lookup(i)) && !states[|moves|].clearing
    ensures var s := states[|moves|];
            && s.calls[i].gen < |s.installed| && s.calls[i].user in s.installed[s.calls[i].gen]
            && (Misjudged(crypto, s, i) <==> FreshFor(crypto, s, i) && NewestDiffers(crypto, s, i))
            && (HasNewest(s, i) ==> !Misjudged(crypto, s, i))
  {
    InvAlways(crypto, states, moves);
    CurrentUnlessStraddled(crypto, states, moves);
    CurrentMisjudgedIff(crypto, states[|moves|], i);
  }

  /** A new call for the pair comes, loads the current map and is about to look up. */
  function NewCall(crypto: Crypto, s: Race, user: string, password: string): Race
    requires s.installed != []
  {
    Do(crypto, Do(crypto, s, Arrive(user, password)), LoadCreds(|s.calls|))
  }

  lemma NewCallLooks(crypto: Crypto, s: Race, user: string, password: string)
    requires s.installed != [] && user != "" && user in s.installed[|s.installed| - 1]
    ensures var s' := NewCall(crypto, s, user, password);
            && s' == s.(calls := s'.calls) && |s'.calls| == |s.calls| + 1
            && s'.calls[|s.calls|] == Looking(user, password, |s.installed| - 1)
            && (RaceInv(crypto, s) ==> RaceInv(crypto, s'))
  {
    var s' := NewCall(crypto, s, user, password);
    assert s'.calls == s.calls + [Looking(user, password, |s.installed| - 1)];
    OkMono(crypto, s, s');
  }

  /** These failures are real.  First, a store: from a state in order, the next call for a pair is answered
      wrongly exactly when it is the pair just stored and the current map disagrees with the verdict, which
      takes a call that straddled a reload. */
  lemma StoreMisleadsIff(crypto: Crypto, s: Race, i: nat, user: string, password: string)
    requires crypto.Injective() && RaceInv(crypto, s) && CacheIsCurrent(s) && !s.clearing
    requires Can(s, StoreVerdict(i, true)) && user != "" && user in s.installed[|s.installed| - 1]
    ensures var s' := NewCall(crypto, Do(crypto, s, StoreVerdict(i, true)), user, password);
            && (Misjudged(crypto, s', |s.calls|) <==>
                  && s.calls[i].user == user && s.calls[i].password == password
                  && s.calls[i].ok != crypto.bcrypt(s.installed[|s.installed| - 1][user], password))
            && (Misjudged(crypto, s', |s.calls|) ==> Straddles(s, i))
  {
    var stored := Do(crypto, s, StoreVerdict(i, true));
    StoreKeepsInv(crypto, s, i, true);
    NewCallLooks(crypto, stored, user, password);
    MisjudgedIff(crypto, NewCall(crypto, stored, user, password), |s.calls|);
    assert CallOk(crypto, s, s.calls[i]);
    if crypto.Key(user, password) == crypto.Key(s.calls[i].user, s.calls[i].password) {
      KeyTextUnambiguous(user, password, s.calls[i].user, s.calls[i].password);
    }
  }

  /** Second, the watcher's swap: after the new map is installed and before the cache is cleared, the next
      call for a pair is answered wrongly exactly when an unexpired verdict is not that of the new map. */
  lemma SwapMisleadsIff(crypto: Crypto, s: Race, creds: Creds, user: string, password: string)
    requires crypto.Injective() && RaceInv(crypto, s) && Can(s, Install(creds)) && user != "" && user in creds
    ensures var s' := NewCall(crypto, Do(crypto, s, Install(creds)), user, password);
            var key := crypto.Key(user, password);
            s'.clearing
            && (Misjudged(crypto, s', |s.calls|) <==>
                  && key in s.cache && s.now <= s.cache[key].at + TTL
                  && s.cache[key].ok != crypto.bcrypt(creds[user], password))
  {
    var swapped := Do(crypto, s, Install(creds));
    MoveKeepsInv(crypto, s, Install(creds));
    NewCallLooks(crypto, swapped, user, password);
  }

  // ------------------------------------------------------------------------------------------------
  // Runs that show it.

  ghost predicate Leads(crypto: Crypto, s: Race, s': Race, straddling: bool) {
    exists states, moves ::
      && IsRace(crypto, states, moves) && states[0] == s && states[|moves|] == s'
      && (straddling || Unstraddled(states, moves))
  }

  lemma RaceAfter(crypto: Crypto, s: Race, move: Move, states: seq<Race>, moves: seq<Move>)
    requires IsRace(crypto, states, moves) && Can(s, move) && states[0] == Do(crypto, s, move)
    ensures IsRace(crypto, [s] + states, [move] + moves)
  {
    var all, both := [s] + states, [move] + moves;
    forall i | 0 <= i < |both|
      ensures Can(all[i], both[i]) && all[i + 1] == Do(crypto, all[i], both[i])
    {
      if i == 0 {
        assert all[1] == states[0];
      } else {
        var k := i - 1;
        assert all[i] == states[k] && both[i] == moves[k] && all[i + 1] == states[k + 1];
        assert Can(states[k], moves[k]) && states[k + 1] == Do(crypto, states[k], moves[k]);
      }
    }
  }

  lemma UnstraddledAfter(s: Race, move: Move, states: seq<Race>, moves: seq<Move>)
    requires |states| == |moves| + 1 && Unstraddled(states, moves)
    requires move.StoreVerdict? && move.kept ==> s.clearing || !Straddles(s, move.id)
    ensures Unstraddled([s] + states, [move] + moves)
  {
    var all, both := [s] + states, [move] + moves;
    assert forall k :: 0 < k < |both| ==> both[k] == moves[k - 1] && all[k] == states[k - 1];
  }

  lemma LeadsOn(crypto: Crypto, s: Race, move: Move, s': Race, straddling: bool)
    requires Can(s, move) && Leads(crypto, Do(crypto, s, move), s', straddling)
    requires straddling || (move.StoreVerdict? && move.kept ==> s.clearing || !Straddles(s, move.id))
    ensures Leads(crypto, s, s', straddling)
  {
    var states, moves :| && IsRace(crypto, states, moves) && states[0] == Do(crypto, s, move) && states[|moves|] == s'
                         && (straddling || Unstraddled(states, moves));
    RaceAfter(crypto, s, move, states, moves);
    if !straddling {
      UnstraddledAfter(s, move, states, moves);
    }
    assert ([s] + states)[|moves| + 1] == s';
  }

  lemma LeadsNowhere(crypto: Crypto, s: Race, straddling: bool)
    ensures Leads(crypto, s, s, straddling)
  {
    assert IsRace(crypto, [s], []);
  }

  /** The pair is about to be accepted by a call that holds the current map, which rejects it. */
  ghost predicate AcceptsOutdated(crypto: Crypto, s: Race, i: nat, user: string, password: string) {
    && HasNewest(s, i) && s.calls[i].user == user && s.calls[i].password == password
    && user in s.installed[s.calls[i].gen] && !crypto.bcrypt(s.installed[s.calls[i].gen][user], password)
    && Do(crypto, s, Lookup(i)).calls[i].Accepted?
  }

  lemma NewCallLeads(crypto: Crypto, s: Race, user: string, password: string, straddling: bool)
    requires s.installed != []
    ensures Leads(crypto, s, NewCall(crypto, s, user, password), straddling)
  {
    var s1 := Do(crypto, s, Arrive(user, password));
    LeadsNowhere(crypto, NewCall(crypto, s, user, password), straddling);
    LeadsOn(crypto, s1, LoadCreds(|s.calls|), NewCall(crypto, s, user, password), straddling);
    LeadsOn(crypto, s, Arrive(user, password), NewCall(crypto, s, user, password), straddling);
  }

  /** The first call has run bcrypt with the old map. */
  function SlowCall(user: string, password: string, oldMap: Creds): Race {
    Race(0, [oldMap], false, map[], [Judged(user, password, 0, true)])
  }

  lemma SlowCallLeads(crypto: Crypto, user: string, password: string, oldMap: Creds, s: Race, straddling: bool)
    requires user != "" && user in oldMap && crypto.bcrypt(oldMap[user], password)
    requires Leads(crypto, SlowCall(user, password, oldMap), s, straddling)
    ensures Leads(crypto, Race(0, [oldMap], false, map[], []), s, straddling)
  {
    var s0 := Race(0, [oldMap], false, map[], []);
    var s1, s2 := s0.(calls := [Arrived(user, password)]), s0.(calls := [Looking(user, password, 0)]);
    var s3 := s0.(calls := [Missed(user, password, 0)]);
    assert Do(crypto, s3, RunBcrypt(0)) == SlowCall(user, password, oldMap);
    LeadsOn(crypto, s3, RunBcrypt(0), s, straddling);
    assert Do(crypto, s2, Lookup(0)) == s3;
    LeadsOn(crypto, s2, Lookup(0), s, straddling);
    assert Do(crypto, s1, LoadCreds(0)) == s2;
    LeadsOn(crypto, s1, LoadCreds(0), s, straddling);
    assert Do(crypto, s0, Arrive(user, password)) == s1;
    LeadsOn(crypto, s0, Arrive(user, password), s, straddling);
  }

  lemma SwapLeads(crypto: Crypto, s: Race, creds: Creds, s': Race, straddling: bool)
    requires Can(s, Install(creds)) && s.cache == map[]
    requires Leads(crypto, s.(installed := s.installed + [creds]), s', straddling)
    ensures Leads(crypto, s, s', straddling)
  {
    var swapping := Do(crypto, s, Install(creds));
    assert Do(crypto, swapping, ClearCache) == s.(installed := s.installed + [creds]);
    LeadsOn(crypto, swapping, ClearCache, s', straddling);
    LeadsOn(crypto, s, Install(creds), s', straddling);
  }

  lemma NewCallAccepts(crypto: Crypto, s: Race, user: string, password: string)
    requires s.installed != [] && user != "" && user in s.installed[|s.installed| - 1]
    requires !crypto.bcrypt(s.installed[|s.installed| - 1][user], password)
    requires Find(Verdicts(s.cache), crypto.Key(user, password), s.now) == Some(true)
    ensures AcceptsOutdated(crypto, NewCall(crypto, s, user, password), |s.calls|, user, password)
  {
    NewCallLooks(crypto, s, user, password);
  }

  /** A call that straddles a reload really does leave an outdated verdict behind: after the clear, a new
      call that holds the new map has a revoked password accepted. */
  lemma StaleAcceptHappens(crypto: Crypto, user: string, password: string, oldHash: string, newHash: string)
    requires ':' !in user && user != "" && crypto.bcrypt(oldHash, password) && !crypto.bcrypt(newHash, password)
    ensures exists s0: Race, s :: Starts(s0) && Leads(crypto, s0, s, true) && !s.clearing
                                  && AcceptsOutdated(crypto, s, 1, user, password)
  {
    var oldMap, newMap := map[user := oldHash], map[user := newHash];
    var judged := SlowCall(user, password, oldMap);
    var swapped := judged.(installed := [oldMap, newMap]);
    var stored := Do(crypto, swapped, StoreVerdict(0, true));
    var s := NewCall(crypto, stored, user, password);
    NewCallLeads(crypto, stored, user, password, true);
    LeadsOn(crypto, swapped, StoreVerdict(0, true), s, true);
    SwapLeads(crypto, judged, newMap, s, true);
    SlowCallLeads(crypto, user, password, oldMap, s, true);
    assert Starts(Race(0, [oldMap], false, map[], [])) && !s.clearing;
    NewCallAccepts(crypto, stored, user, password);
  }

  /** No call needs to straddle anything: between the swap and the clear an entry stored in good order has
      the same effect. */
  lemma WindowAcceptHappens(crypto: Crypto, user: string, password: string, oldHash: string, newHash: string)
    requires ':' !in user && user != "" && crypto.bcrypt(oldHash, password) && !crypto.bcrypt(newHash, password)
    ensures exists s0: Race, s :: Starts(s0) && Leads(crypto, s0, s, false) && s.clearing
                                  && AcceptsOutdated(crypto, s, 1, user, password)
  {
    var oldMap, newMap := map[user := oldHash], map[user := newHash];
    var judged := SlowCall(user, password, oldMap);
    var stored := Do(crypto, judged, StoreVerdict(0, true));
    var swapping := Do(crypto, stored, Install(newMap));
    var s := NewCall(crypto, swapping, user, password);
    NewCallLeads(crypto, swapping, user, password, false);
    LeadsOn(crypto, stored, Install(newMap), s, false);
    LeadsOn(crypto, judged, StoreVerdict(0, true), s, false);
    SlowCallLeads(crypto, user, password, oldMap, s, false);
    assert Starts(Race(0, [oldMap], false, map[], []));
    NewCallAccepts(crypto, swapping, user, password);
  }

  /** A slow call still holds the old map, and a call that came after the reload has run bcrypt. */
  function Waiting(crypto: Crypto, user: string, password: string, oldMap: Creds, newMap: Creds): Race
    requires user in newMap
  {
    var ok := crypto.bcrypt(newMap[user], password);
    Race(0, [oldMap, newMap], false, map[], [Looking(user, password, 0), Judged(user, password, 1, ok)])
  }

  lemma SecondCallLeads(crypto: Crypto, user: string, password: string, oldMap: Creds, newMap: Creds, s: Race)
    requires user != "" && user in newMap
    requires Leads(crypto, Waiting(crypto, user, password, oldMap, newMap), s, false)
    ensures Leads(crypto, Race(0, [oldMap, newMap], false, map[], [Looking(user, password, 0)]), s, false)
  {
    var first := Looking(user, password, 0);
    var s0 := Race(0, [oldMap, newMap], false, map[], [first]);
    var s1, s2 := s0.(calls := [first, Arrived(user, password)]), s0.(calls := [first, Looking(user, password, 1)]);
    var s3 := s0.(calls := [first, Missed(user, password, 1)]);
    assert Do(crypto, s3, RunBcrypt(1)) == Waiting(crypto, user, password, oldMap, newMap);
    LeadsOn(crypto, s3, RunBcrypt(1), s, false);
    assert Do(crypto, s2, Lookup(1)) == s3;
    LeadsOn(crypto, s2, Lookup(1), s, false);
    assert Do(crypto, s1, LoadCreds(1)) == s2;
    LeadsOn(crypto, s1, LoadCreds(1), s, false);
    assert Do(crypto, s0, Arrive(user, password)) == s1;
    LeadsOn(crypto, s0, Arrive(user, password), s, false);
  }

  lemma FirstCallLeads(crypto: Crypto, user: string, password: string, oldMap: Creds, newMap: Creds, s: Race)
    requires user != "" && user in oldMap && WellKeyed(newMap)
    requires Leads(crypto, Race(0, [oldMap, newMap], false, map[], [Looking(user, password, 0)]), s, false)
    ensures Leads(crypto, Race(0, [oldMap], false, map[], []), s, false)
  {
    var s0 := Race(0, [oldMap], false, map[], []);
    var s1, s2 := s0.(calls := [Arrived(user, password)]), s0.(calls := [Looking(user, password, 0)]);
    assert [oldMap] + [newMap] == [oldMap, newMap];
    SwapLeads(crypto, s2, newMap, s, false);
    assert Do(crypto, s1, LoadCreds(0)) == s2;
    LeadsOn(crypto, s1, LoadCreds(0), s, false);
    assert Do(crypto, s0, Arrive(user, password)) == s1;
    LeadsOn(crypto, s0, Arrive(user, password), s, false);
  }

  /** The third way: a call that still holds the old map looks up after the reload and gets the verdict of
      the new one, in a run without straddled stores and outside the swap. */
  lemma LateLookupHappens(crypto: Crypto, user: string, password: string, oldHash: string, newHash: string)
    requires ':' !in user && user != "" && crypto.bcrypt(oldHash, password) != crypto.bcrypt(newHash, password)
    ensures exists s0: Race, s :: Starts(s0) && Leads(crypto, s0, s, false) && !s.clearing
                                  && s.installed == [map[user := oldHash], map[user := newHash]] && |s.calls| == 2
                                  && s.calls[0] == Looking(user, password, 0) && Misjudged(crypto, s, 0)
  {
    var oldMap, newMap := map[user := oldHash], map[user := newHash];
    var waiting := Waiting(crypto, user, password, oldMap, newMap);
    var s := Do(crypto, waiting, StoreVerdict(1, true));
    LeadsNowhere(crypto, s, false);
    LeadsOn(crypto, waiting, StoreVerdict(1, true), s, false);
    SecondCallLeads(crypto, user, password, oldMap, newMap, s);
    FirstCallLeads(crypto, user, password, oldMap, newMap, s);
    assert Starts(Race(0, [oldMap], false, map[], []));
    assert Misjudged(crypto, s, 0);
  }
}
