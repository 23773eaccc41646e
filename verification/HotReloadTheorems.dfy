/** What holds in every run of the hot-reload machine. */
module HotReloadTheorems {
  import opened Prelude
  import opened Debounce
  import opened FileCache
  import opened RegoCache
  import opened HotReload

  // ------------------------------------------------------------------------------------------------
  // Coherence: every interleaving, read errors included.

  lemma StepKeepsCoherent(s: State, step: Step, n: Name)
    requires Enabled(s, step) && Coherent(s, n)
    ensures Coherent(Apply(s, step), n)
  {
    var s' := Apply(s, step);
    if step.Deliver? {
      if s.events[0].name != n && Mentioned(s, n) {
        var i :| 0 <= i < |s.events| && s.events[i].name == n;
        assert s'.events[i - 1].name == n;
      }
    } else {
      MentionedFrame(s, s', n);
      if (step.DiskWrite? || step.DiskRemove?) && step.name == n {
        assert s'.events[|s.events|].name == n;
      }
    }
  }

  lemma StepKeepsQueueValid(s: State, step: Step)
    requires Enabled(s, step) && s.queue.Valid()
    ensures Apply(s, step).queue.Valid()
  {
  }

  lemma {:induction false} CoherentAlways(states: seq<State>, steps: seq<Step>, n: Name)
    requires IsRun(states, steps)
    ensures Coherent(states[|steps|], n) && states[|steps|].queue.Valid()
  {
    if steps != [] {
      var k := |steps| - 1;
      CoherentAlways(states[..k + 1], steps[..k], n);
      StepKeepsCoherent(states[k], steps[k], n);
      StepKeepsQueueValid(states[k], steps[k]);
    }
  }

  /** In every reachable state a clean entry without undelivered event holds the disk content, so
      `Get` returns what a direct read would. */
  lemma Coherence(states: seq<State>, steps: seq<Step>, n: Name)
    requires IsRun(states, steps)
    ensures var s := states[|steps|];
            !Mentioned(s, n) ==>
              && (Clean(s.files, n) ==> n in s.disk && s.disk[n] == s.files[n].data)
              && (match GetResultOf(s.files, n, ReadDisk(s, n, false))
                  case Got(data, _) => data == if n in s.disk then Some(s.disk[n]) else None
                  case GetError => false)
  {
    CoherentAlways(states, steps, n);
  }

  // ------------------------------------------------------------------------------------------------
  // Provenance: every interleaving, read errors included.

  /** The file once had this content / was once absent, in one of the states so far. */
  ghost predicate OnceHad(states: seq<State>, n: Name, data: Bytes) {
    exists j :: 0 <= j < |states| && n in states[j].disk && states[j].disk[n] == data
  }

  ghost predicate OnceAbsent(states: seq<State>, n: Name) {
    exists j :: 0 <= j < |states| && n !in states[j].disk
  }

  ghost predicate OnceRead(states: seq<State>, n: Name, data: Option<Bytes>) {
    match data
    case None => OnceAbsent(states, n)
    case Some(d) => OnceHad(states, n, d)
  }

  ghost predicate CompiledFrom(states: seq<State>, tool: Toolchain, n: Name, q: Query) {
    exists data :: OnceHad(states, n, data) && Compile(tool, n, data) == Some(q)
  }

  ghost predicate Traced(states: seq<State>, s: State) {
    && (forall n :: n in s.files ==> OnceHad(states, n, s.files[n].data))
    && (forall i :: 0 <= i < |s.jobs| && s.jobs[i].Publish? ==> OnceRead(states, s.jobs[i].name, s.jobs[i].data))
    && (forall n :: n in s.regos ==> CompiledFrom(states, s.tool, n, s.regos[n]))
  }

  lemma TracedMono(states: seq<State>, s: State, s': State)
    requires Traced(states, s)
    ensures Traced(states + [s'], s)
  {
    var longer := states + [s'];
    assert forall j :: 0 <= j < |states| ==> longer[j] == states[j];
    forall n, data | OnceHad(states, n, data)
      ensures OnceHad(longer, n, data)
    {
      var j :| 0 <= j < |states| && n in states[j].disk && states[j].disk[n] == data;
      assert n in longer[j].disk;
    }
    forall n | OnceAbsent(states, n)
      ensures OnceAbsent(longer, n)
    {
      var j :| 0 <= j < |states| && n !in states[j].disk;
      assert n !in longer[j].disk;
    }
    forall n | n in s.regos
      ensures CompiledFrom(longer, s.tool, n, s.regos[n])
    {
      var data :| OnceHad(states, n, data) && Compile(s.tool, n, data) == Some(s.regos[n]);
      assert OnceHad(longer, n, data);
    }
  }

  lemma ReadIsTraced(states: seq<State>, s: State, n: Name)
    requires s in states
    ensures OnceRead(states, n, if n in s.disk then Some(s.disk[n]) else None)
  {
    var j :| 0 <= j < |states| && states[j] == s;
    assert n in states[j].disk <==> n in s.disk;
  }

  lemma ReadKeepsTraced(states: seq<State>, s: State, step: Step)
    requires s in states && Enabled(s, step) && Traced(states, s) && (step.GetStep? || step.PrefetchStep?)
    ensures Traced(states, Apply(s, step))
  {
    ReadIsTraced(states, s, s.jobs[step.id].name);
  }

  lemma PublishKeepsTraced(states: seq<State>, s: State, i: nat)
    requires Enabled(s, PublishStep(i)) && Traced(states, s)
    ensures Traced(states, Apply(s, PublishStep(i)))
    ensures var Publish(n, _, data, dirty) := s.jobs[i];
            var r := PublishResult(s.tool, s.regos, n, data, dirty);
            && (r.Handled? && r.query.Some? ==> CompiledFrom(states, s.tool, n, r.query.value))
            && (r.Handled? && r.query.None? ==> OnceAbsent(states, n))
  {
    var s' := Apply(s, PublishStep(i));
    var Publish(n, _, data, dirty) := s.jobs[i];
    assert OnceRead(states, n, data);
    forall m | m in s'.regos
      ensures CompiledFrom(states, s.tool, m, s'.regos[m])
    {
      if m !in s.regos || s.regos[m] != s'.regos[m] {
        assert OnceHad(states, n, data.value) && Compile(s.tool, n, data.value) == Some(s'.regos[m]);
      }
    }
  }

  lemma StepKeepsTraced(states: seq<State>, s: State, step: Step)
    requires s in states && Enabled(s, step) && Traced(states, s)
    ensures Traced(states, Apply(s, step))
  {
    match step
    case GetStep(_, _) | PrefetchStep(_, _) => ReadKeepsTraced(states, s, step);
    case PublishStep(i) => PublishKeepsTraced(states, s, i);
    case Deliver =>
      var s' := Apply(s, step);
      assert forall n :: n in s'.files ==> n in s.files && s'.files[n].data == s.files[n].data;
    case _ =>
  }

  lemma {:induction false} TracedAlways(states: seq<State>, steps: seq<Step>)
    requires IsRun(states, steps)
    ensures Traced(states, states[|steps|])
  {
    if steps != [] {
      var k := |steps| - 1;
      var before := states[..k + 1];
      TracedAlways(before, steps[..k]);
      StepKeepsTraced(before, states[k], steps[k]);
      TracedMono(before, states[k + 1], states[k + 1]);
      assert states == before + [states[k + 1]];
    }
  }

  /** Every stored query, and every query a step returns, is the successful compile of content that the
      file had at some earlier moment; a query disappears only when the file was absent at some earlier
      moment. */
  lemma Provenance(states: seq<State>, steps: seq<Step>, n: Name)
    requires IsRun(states, steps)
    ensures n in states[|steps|].regos ==> CompiledFrom(states, states[|steps|].tool, n, states[|steps|].regos[n])
    ensures forall step :: Enabled(states[|steps|], step) && step.PublishStep? ==>
              var s := states[|steps|];
              var Publish(m, _, data, dirty) := s.jobs[step.id];
              var r := PublishResult(s.tool, s.regos, m, data, dirty);
              && (r.Handled? && r.query.Some? ==> CompiledFrom(states, s.tool, m, r.query.value))
              && (n in s.regos && n !in Apply(s, step).regos ==> OnceAbsent(states, n))
  {
    TracedAlways(states, steps);
    var s := states[|steps|];
    forall step | Enabled(s, step) && step.PublishStep?
      ensures var Publish(m, _, data, dirty) := s.jobs[step.id];
              var r := PublishResult(s.tool, s.regos, m, data, dirty);
              && (r.Handled? && r.query.Some? ==> CompiledFrom(states, s.tool, m, r.query.value))
              && (n in s.regos && n !in Apply(s, step).regos ==> OnceAbsent(states, n))
    {
      PublishKeepsTraced(states, s, step.id);
    }
  }

  /** What the end of a GetRego call does to a name: it compiles it, or finds no file, or neither. */
  datatype Effect = Compiled(query: Query) | Dropped | Neither

  function EffectOf(s: State, step: Step, n: Name): Effect
    requires Enabled(s, step)
  {
    if !step.PublishStep? || s.jobs[step.id].name != n then Neither
    else
      var Publish(_, _, data, dirty) := s.jobs[step.id];
      if data.None? then Dropped
      else if n in s.regos && !dirty then Neither
      else match Compile(s.tool, n, data.value)
        case Some(q) => Compiled(q)
        case None => Neither
  }

  ghost function Effects(states: seq<State>, steps: seq<Step>, n: Name): seq<Effect>
    requires IsPath(states, steps)
  {
    seq(|steps|, i requires 0 <= i < |steps| => EffectOf(states[i], steps[i], n))
  }

  predicate LastIs(effects: seq<Effect>, q: Query, k: nat) {
    k < |effects| && effects[k] == Compiled(q) && forall j :: k < j < |effects| ==> effects[j].Neither?
  }

  /** The last call that compiled or dropped the name compiled it to `q`. */
  ghost predicate LastCompile(effects: seq<Effect>, q: Query) {
    exists k :: LastIs(effects, q, k)
  }

  lemma LastCompileOfMore(effects: seq<Effect>, e: Effect, q: Query)
    ensures LastCompile(effects + [e], q) <==> e == Compiled(q) || (e.Neither? && LastCompile(effects, q))
  {
    var more := effects + [e];
    assert forall j :: 0 <= j < |effects| ==> effects[j] == more[j];
    if e == Compiled(q) {
      assert LastIs(more, q, |effects|);
    } else {
      assert more[|effects|] == e;
      assert forall k: nat :: LastIs(more, q, k) <==> e.Neither? && LastIs(effects, q, k);
    }
  }

  function Installed(s: State, n: Name): Option<Query> {
    if n in s.regos then Some(s.regos[n]) else None
  }

  lemma StepInstalls(s: State, step: Step, n: Name)
    requires Enabled(s, step)
    ensures Installed(Apply(s, step), n) ==
            match EffectOf(s, step, n)
            case Compiled(q) => Some(q)
            case Dropped => None
            case Neither => Installed(s, n)
  {
  }

  /** A policy is installed (which is what Ready reports) exactly when the last GetRego call that compiled
      or dropped the name compiled it, and then it is the query of that call: failures in between, and
      whatever happens to the file, do not matter. */
  lemma {:induction false} InstalledIsLastCompile(states: seq<State>, steps: seq<Step>, n: Name, q: Query)
    requires IsRun(states, steps)
    ensures Installed(states[|steps|], n) == Some(q) <==> LastCompile(Effects(states, steps, n), q)
  {
    if steps != [] {
      var k := |steps| - 1;
      var before := Effects(states[..k + 1], steps[..k], n);
      InstalledIsLastCompile(states[..k + 1], steps[..k], n, q);
      assert Effects(states, steps, n) == before + [EffectOf(states[k], steps[k], n)];
      LastCompileOfMore(before, EffectOf(states[k], steps[k], n), q);
      StepInstalls(states[k], steps[k], n);
    }
  }

  // ------------------------------------------------------------------------------------------------
  // No change is stranded.

  /** A callback fails to read the dirty entry of `n`, and no timer and no other callback is left for it. */
  ghost predicate Strands(s: State, step: Step, n: Name)
    requires Enabled(s, step)
  {
    && step.GetStep? && step.fails
    && CallbackAt(s, n, step.id) && n in s.files && s.files[n].dirty && !LiveBut(s, n, step.id)
  }

  lemma FaultKeepsDirtyLiveIff(s: State, i: nat, n: Name)
    requires Enabled(s, GetStep(i, true)) && DirtyIsLive(s, n)
    ensures DirtyIsLive(Apply(s, GetStep(i, true)), n) <==> !Strands(s, GetStep(i, true), n)
  {
    if !Clean(s.files, s.jobs[i].name) {
      FaultLeavesLive(s, i, n);
    } else if s.jobs[i].name != n {
      LiveFrame(s, Apply(s, GetStep(i, true)), n);
    }
  }

  /** Exactly the stranding steps break it. */
  lemma StepKeepsDirtyLiveIff(s: State, step: Step, n: Name)
    requires Enabled(s, step) && DirtyIsLive(s, n) && s.queue.Valid()
    ensures DirtyIsLive(Apply(s, step), n) <==> !Strands(s, step, n)
  {
    var s' := Apply(s, step);
    if step.GetStep? && step.fails {
      FaultKeepsDirtyLiveIff(s, step.id, n);
    } else if step.Deliver? && s.events[0].name == n && Requeues(s.files, n, s.events[0].op) {
      assert s'.queue.LiveAt(n, |s.queue.timers|);
    } else if step.RunClosure? && s.queue.timers[step.id].name == n {
      assert CallbackAt(s', n, |s.jobs|);
    } else if !(step.GetStep? && s.jobs[step.id].name == n) {
      LiveFrame(s, s', n);
    }
  }

  /** Unless a step strands it, every dirty entry has a live timer or an unread callback in every
      reachable state, although `invalidate` does not queue a name that is dirty already. */
  lemma {:induction false} DirtyIsNeverStranded(states: seq<State>, steps: seq<Step>, n: Name)
    requires IsRun(states, steps)
    requires forall i :: 0 <= i < |steps| ==> Enabled(states[i], steps[i]) && !Strands(states[i], steps[i], n)
    ensures DirtyIsLive(states[|steps|], n)
  {
    if steps != [] {
      var k := |steps| - 1;
      DirtyIsNeverStranded(states[..k + 1], steps[..k], n);
      CoherentAlways(states[..k + 1], steps[..k], n);
      StepKeepsDirtyLiveIff(states[k], steps[k], n);
    }
  }

  // ------------------------------------------------------------------------------------------------
  // Convergence.

  lemma {:induction false} SyncedAlways(states: seq<State>, steps: seq<Step>, n: Name)
    requires GuardedRun(states, steps, n)
    ensures Synced(states[|steps|], n)
  {
    if steps != [] {
      var k := |steps| - 1;
      SyncedAlways(states[..k + 1], steps[..k], n);
      CoherentAlways(states[..k + 1], steps[..k], n);
      assert Enabled(states[k], steps[k]) && Guarded(states[k], steps[k], n);
      StepKeepsSyncedIff(states[k], steps[k], n);
    }
  }

  /** Over whole runs, whatever happens to other names: `n` is in step in every state exactly when every
      step is guarded for `n`. */
  lemma AlwaysSyncedIffGuarded(states: seq<State>, steps: seq<Step>, n: Name)
    requires IsRun(states, steps)
    ensures (forall t :: 0 <= t <= |steps| ==> Synced(states[t], n)) <==> GuardedRun(states, steps, n)
  {
    if GuardedRun(states, steps, n) {
      forall t | 0 <= t <= |steps|
        ensures Synced(states[t], n)
      {
        SyncedAlways(states[..t + 1], steps[..t], n);
      }
    } else {
      var k :| 0 <= k < |steps| && !Guarded(states[k], steps[k], n);
      CoherentAlways(states[..k + 1], steps[..k], n);
      if Synced(states[k], n) {
        StepKeepsSyncedIff(states[k], steps[k], n);
        assert states[k + 1] == Apply(states[k], steps[k]);
      }
    }
  }

  /** No event, timer, unread callback or scan is outstanding for `n`, and no call in flight is going to
      change its policy.  Requests that found nothing new, probes and throw-away reads may be in flight, and
      other names may be anywhere. */
  ghost predicate Calm(s: State, n: Name) {
    !Busy(s, n) && NoNews(s, n) && (n in s.regos || !Compiling(s, n))
  }

  lemma QuiescentIsCalm(s: State, n: Name)
    requires Quiescent(s)
    ensures Calm(s, n)
  {
  }

  lemma CalmIsConverged(s: State, n: Name)
    requires Synced(s, n) && Calm(s, n)
    ensures Converged(s, n)
  {
    forall data, dirty | Pending(s, n, data, dirty)
      ensures data.Some? && !dirty && n in s.regos
    {
      var i :| PendingAt(s, n, data, dirty, i);
    }
  }

  /** In every run that is guarded for `n`: a dirty entry, or a compiled name the file cache no longer has, is
      always on its way to being reloaded; and whenever nothing is outstanding for the name its policy is the
      compile of its disk content, if that compiles, and gone if the file is gone.  What remains of a file
      that does not compile is the query of the last successful compile, with no removal after it. */
  lemma Convergence(states: seq<State>, steps: seq<Step>, n: Name)
    requires GuardedRun(states, steps, n)
    ensures var s := states[|steps|];
            && (n in s.files && s.files[n].dirty ==> Live(s, n))
            && (n in s.regos && n !in s.files ==> Live(s, n) || Pending(s, n, None, true))
            && (Calm(s, n) ==> Converged(s, n))
            && (n in s.regos ==> LastCompile(Effects(states, steps, n), s.regos[n]))
  {
    SyncedAlways(states, steps, n);
    var s := states[|steps|];
    if n in s.regos {
      InstalledIsLastCompile(states, steps, n, s.regos[n]);
    }
    if Calm(s, n) {
      CalmIsConverged(s, n);
    }
  }

  /** A request for a name with nothing outstanding is answered from the disk as it is now: with the
      compile of its content, or with no policy if the file is gone. */
  lemma QuietRequestSeesDisk(states: seq<State>, steps: seq<Step>, n: Name)
    requires GuardedRun(states, steps, n)
    requires !Busy(states[|steps|], n) && !Compiling(states[|steps|], n)
    ensures var s := states[|steps|];
            var got := GetResultOf(s.files, n, ReadDisk(s, n, false));
            && got.Got?
            && var r := PublishResult(s.tool, s.regos, n, got.data, got.updated);
               && (n !in s.disk ==> r == Handled(None))
               && (n in s.disk && Compile(s.tool, n, s.disk[n]).Some? ==> r == Handled(Compile(s.tool, n, s.disk[n])))
  {
    SyncedAlways(states, steps, n);
    var s := states[|steps|];
    assert forall data, dirty, i :: !PendingAt(s, n, data, dirty, i);
  }

  // ------------------------------------------------------------------------------------------------
  // The throw-away read: exactly when it does harm, and that the harm is permanent.

  /** The stored policy is not that of the clean entry, and no call in flight would notice. */
  ghost predicate Stuck(s: State, n: Name) {
    && Clean(s.files, n) && n in s.regos && !Reflects(s, n, s.files[n].data)
    && n in s.disk && s.disk[n] == s.files[n].data && !Mentioned(s, n) && NoNews(s, n)
  }

  /** The throw-away read keeps the machine in step exactly when it does not lose an update; when it does,
      the name is stuck unless an event or a call with news is on its way. */
  lemma ThrowAwayReadExact(s: State, i: nat, n: Name)
    requires i < |s.jobs| && s.jobs[i] == Prefetch(n) && Synced(s, n)
    ensures Synced(Apply(s, PrefetchStep(i, false)), n) <==> !LosesUpdate(s, n)
    ensures Stuck(Apply(s, PrefetchStep(i, false)), n) <==> LosesUpdate(s, n) && !Mentioned(s, n) && NoNews(s, n)
  {
    PrefetchKeepsSyncedIff(s, i, false, n);
    PrefetchFrame(s, i, false, n);
    var s' := Apply(s, PrefetchStep(i, false));
    assert NoNews(s', n) <==> NoNews(s, n) by {
      assert forall k :: 0 <= k < |s.jobs| && s.jobs[k].Publish? ==> s'.jobs[k] == s.jobs[k];
      assert forall k :: 0 <= k < |s'.jobs| && s'.jobs[k].Publish? ==> s'.jobs[k] == s.jobs[k];
    }
    if NoNews(s, n) {
      assert forall data :: !Pending(s, n, data, true);
    }
  }

  predicate Touches(step: Step, n: Name) {
    match step
    case DiskWrite(m, _) => m == n
    case DiskRemove(m) => m == n
    case Echo(e) => e.name == n
    case _ => false
  }

  lemma StuckStep(s: State, step: Step, n: Name)
    requires Enabled(s, step) && Stuck(s, n) && !Touches(step, n)
    ensures Stuck(Apply(s, step), n)
  {
    var s' := Apply(s, step);
    if step.Deliver? {
      assert s.events[0].name != n;
      assert forall k :: 0 <= k < |s'.events| ==> s'.events[k] == s.events[k + 1];
    }
  }

  /** Whatever else happens, a stuck name keeps its outdated policy until its file changes again. */
  lemma {:induction false} StuckForever(states: seq<State>, steps: seq<Step>, n: Name)
    requires IsPath(states, steps) && Stuck(states[0], n)
    requires forall i :: 0 <= i < |steps| ==> !Touches(steps[i], n)
    ensures Stuck(states[|steps|], n) && !Converged(states[|steps|], n)
  {
    if steps != [] {
      var k := |steps| - 1;
      StuckForever(states[..k + 1], steps[..k], n);
      StuckStep(states[k], steps[k], n);
    }
  }
}
