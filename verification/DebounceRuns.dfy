/** Runs of the debouncer: any number of callers, the runtime's timers and the clock. */
module DebounceRuns {
  import opened Debounce

  datatype Step = Tick(elapsed: nat) | AddStep(name: Name) | FireStep(id: nat) | ClearStep(id: nat)

  datatype Clocked = Clocked(now: nat, queue: Queue)

  predicate Enabled(s: Clocked, step: Step) {
    match step
    case Tick(_) => true
    case AddStep(_) => true
    case FireStep(i) =>
      i < |s.queue.timers| && s.queue.timers[i].phase.Armed? && s.queue.timers[i].due <= s.now
    case ClearStep(i) => i < |s.queue.timers| && s.queue.timers[i].phase.Fired?
  }

  function Apply(s: Clocked, step: Step): Clocked
    requires Enabled(s, step)
  {
    match step
    case Tick(d) => s.(now := s.now + d)
    case AddStep(n) => s.(queue := s.queue.Add(n, s.now))
    case FireStep(i) => s.(queue := s.queue.Fire(i))
    case ClearStep(i) => s.(queue := s.queue.Clear(i))
  }

  ghost predicate IsRun(states: seq<Clocked>, steps: seq<Step>) {
    && |states| == |steps| + 1
    && states[0].queue.pending == map[] && states[0].queue.timers == []
    && forall i :: 0 <= i < |steps| ==> Enabled(states[i], steps[i]) && states[i + 1] == Apply(states[i], steps[i])
  }

  function Adds(steps: seq<Step>): nat {
    if steps == [] then 0 else Adds(steps[..|steps| - 1]) + if steps[|steps| - 1].AddStep? then 1 else 0
  }

  function CountPhase(timers: seq<Timer>, phase: Phase): nat {
    if timers == [] then 0
    else CountPhase(timers[..|timers| - 1], phase) + if timers[|timers| - 1].phase == phase then 1 else 0
  }

  lemma {:induction false} PhasesPartition(timers: seq<Timer>)
    ensures CountPhase(timers, Stopped) + CountPhase(timers, Armed) + CountPhase(timers, Fired)
            + CountPhase(timers, Ran) == |timers|
  {
    if timers != [] {
      PhasesPartition(timers[..|timers| - 1]);
    }
  }

  /** A timer is stopped only when a later one of its name exists. */
  ghost predicate StoppedHasSuccessor(q: Queue) {
    forall i :: 0 <= i < |q.timers| && q.timers[i].phase.Stopped? ==>
      exists j :: i < j < |q.timers| && q.timers[j].name == q.timers[i].name
  }

  /** Nothing fires before its due time. */
  ghost predicate NeverEarly(s: Clocked) {
    forall i :: 0 <= i < |s.queue.timers| && s.queue.timers[i].phase in {Fired, Ran} ==>
      s.queue.timers[i].due <= s.now
  }

  ghost predicate Inv(s: Clocked) {
    s.queue.Valid() && StoppedHasSuccessor(s.queue) && NeverEarly(s)
  }

  lemma AddKeepsInv(s: Clocked, n: Name)
    requires Inv(s)
    ensures Inv(s.(queue := s.queue.Add(n, s.now)))
  {
    var q, q' := s.queue, s.queue.Add(n, s.now);
    forall i | 0 <= i < |q'.timers| && q'.timers[i].phase.Stopped?
      ensures exists j :: i < j < |q'.timers| && q'.timers[j].name == q'.timers[i].name
    {
      if q.timers[i].phase.Stopped? {
        var j :| i < j < |q.timers| && q.timers[j].name == q.timers[i].name;
        assert q'.timers[j].name == q'.timers[i].name;
      } else {
        assert q'.timers[|q.timers|].name == q'.timers[i].name;
      }
    }
  }

  lemma StepKeepsInv(s: Clocked, step: Step)
    requires Inv(s) && Enabled(s, step)
    ensures Inv(Apply(s, step))
    ensures |Apply(s, step).queue.timers| == |s.queue.timers| + if step.AddStep? then 1 else 0
  {
    match step
    case Tick(_) =>
    case AddStep(n) => AddKeepsInv(s, n);
    case FireStep(i) =>
      SetPhaseKeepsSuccessors(s.queue, i, Fired);
    case ClearStep(i) =>
      SetPhaseKeepsSuccessors(s.queue, i, Ran);
  }

  lemma SetPhaseKeepsSuccessors(q: Queue, i: nat, phase: Phase)
    requires i < |q.timers| && !phase.Stopped? && StoppedHasSuccessor(q)
    ensures StoppedHasSuccessor(q.SetPhase(i, phase))
  {
    var q' := q.SetPhase(i, phase);
    forall k | 0 <= k < |q'.timers| && q'.timers[k].phase.Stopped?
      ensures exists j :: k < j < |q'.timers| && q'.timers[j].name == q'.timers[k].name
    {
      var j :| k < j < |q.timers| && q.timers[j].name == q.timers[k].name;
      assert q'.timers[j].name == q'.timers[k].name;
    }
  }

  /** Conservation: in every reachable state the number of adds is the number of stopped, live and
      completed timers; the latest timer of a name is never stopped; no closure starts early. */
  lemma {:induction false} Conservation(states: seq<Clocked>, steps: seq<Step>)
    requires IsRun(states, steps)
    ensures var timers := states[|steps|].queue.timers;
            Adds(steps) == CountPhase(timers, Stopped)
                           + (CountPhase(timers, Armed) + CountPhase(timers, Fired)) + CountPhase(timers, Ran)
    ensures Inv(states[|steps|])
    ensures |states[|steps|].queue.timers| == Adds(steps)
    ensures states[|steps|].queue.delay == states[0].queue.delay
  {
    if steps != [] {
      var k := |steps| - 1;
      Conservation(states[..k + 1], steps[..k]);
      StepKeepsInv(states[k], steps[k]);
    }
    PhasesPartition(states[|steps|].queue.timers);
  }

  lemma StepKeepsDues(s: Clocked, step: Step, id: nat)
    requires Enabled(s, step) && id < |s.queue.timers|
    ensures var timers := Apply(s, step).queue.timers;
            id < |timers| && timers[id].name == s.queue.timers[id].name && timers[id].due == s.queue.timers[id].due
    ensures Apply(s, step).queue.delay == s.queue.delay
  {
  }

  lemma {:induction false} DueIsAddPlusDelay(states: seq<Clocked>, steps: seq<Step>, i: nat, id: nat)
    requires IsRun(states, steps) && i < |steps| && steps[i].AddStep? && id == |states[i].queue.timers|
    ensures var timers := states[|steps|].queue.timers;
            id < |timers| && timers[id].name == steps[i].name && timers[id].due == states[i].now + states[i].queue.delay
  {
    var k := |steps| - 1;
    assert states[k + 1] == Apply(states[k], steps[k]);
    if i < k {
      DueIsAddPlusDelay(states[..k + 1], steps[..k], i, id);
      StepKeepsDues(states[k], steps[k], id);
    }
  }

  /** An add at time t makes a timer that is due at t plus the delay, and its callback does not begin
      before that. */
  lemma CallbackWaitsForDelay(states: seq<Clocked>, steps: seq<Step>, i: nat)
    requires IsRun(states, steps) && i < |steps| && steps[i].AddStep?
    ensures var timers := states[|steps|].queue.timers;
            var id := Adds(steps[..i]);
            && id < |timers| && timers[id].name == steps[i].name
            && timers[id].due == states[i].now + states[0].queue.delay
            && (timers[id].phase in {Fired, Ran} ==> states[i].now + states[0].queue.delay <= states[|steps|].now)
  {
    Conservation(states, steps);
    Conservation(states[..i + 1], steps[..i]);
    DueIsAddPlusDelay(states, steps, i, Adds(steps[..i]));
  }

  // ------------------------------------------------------------------------------------------------
  // Coalescing.

  ghost predicate Unraced(q: Queue, n: Name) {
    forall i :: 0 <= i < |q.timers| && q.timers[i].name == n ==> !q.timers[i].phase.Fired?
  }

  /** Each name has at most one live timer, and it is the one `pending` points at. */
  ghost predicate OneLive(q: Queue, n: Name) {
    forall i :: q.LiveAt(n, i) ==> n in q.pending && q.pending[n] == i
  }

  ghost predicate AtMostOneLive(q: Queue, n: Name) {
    forall i, j :: q.LiveAt(n, i) && q.LiveAt(n, j) ==> i == j
  }

  /** `Add` leaves a single live timer exactly when no closure of that name is waiting for the lock. */
  lemma AddCoalescesIffUnraced(q: Queue, n: Name, now: nat)
    requires q.Valid() && OneLive(q, n)
    ensures AtMostOneLive(q.Add(n, now), n) <==> Unraced(q, n)
    ensures Unraced(q, n) ==> OneLive(q.Add(n, now), n)
  {
    var q' := q.Add(n, now);
    assert q'.LiveAt(n, |q.timers|);
    if !Unraced(q, n) {
      var i :| 0 <= i < |q.timers| && q.timers[i].name == n && q.timers[i].phase.Fired?;
      assert q.LiveAt(n, i) && q'.LiveAt(n, i);
    }
    forall i | q'.LiveAt(n, i)
      ensures Unraced(q, n) ==> i == |q.timers|
    {
      if i < |q.timers| {
        assert q.LiveAt(n, i);
      }
    }
  }

  /** In every run whose adds are unraced each name always has at most one live timer. */
  lemma {:induction false} Coalescing(states: seq<Clocked>, steps: seq<Step>, n: Name)
    requires IsRun(states, steps)
    requires forall i :: 0 <= i < |steps| && steps[i] == AddStep(n) ==> Unraced(states[i].queue, n)
    ensures OneLive(states[|steps|].queue, n) && AtMostOneLive(states[|steps|].queue, n)
  {
    if steps != [] {
      var k := |steps| - 1;
      var q, q' := states[k].queue, states[k + 1].queue;
      Coalescing(states[..k + 1], steps[..k], n);
      Conservation(states[..k + 1], steps[..k]);
      assert states[k + 1] == Apply(states[k], steps[k]);
      if steps[k] == AddStep(n) {
        AddCoalescesIffUnraced(q, n, states[k].now);
      } else {
        forall i | q'.LiveAt(n, i)
          ensures n in q'.pending && q'.pending[n] == i
        {
          assert q.LiveAt(n, i);
          assert steps[k].ClearStep? && q.timers[steps[k].id].name == n ==> q.LiveAt(n, steps[k].id);
        }
      }
    }
  }

  lemma RaceToClear(n: Name, delay: nat, s: Clocked)
    requires s == Clocked(delay, Queue(delay, map[n := 1], [Timer(n, delay, Fired), Timer(n, delay + delay, Armed)]))
    ensures Reachable(s)
  {
    var s0 := Clocked(0, Queue(delay, map[], []));
    assert IsRun([s0], []) && [s0][0] == s0;
    Extend(s0, AddStep(n));
    var s1 := Clocked(0, Queue(delay, map[n := 0], [Timer(n, delay, Armed)]));
    Extend(s1, Tick(delay));
    Extend(s1.(now := delay), FireStep(0));
    var s3 := Clocked(delay, Queue(delay, map[n := 0], [Timer(n, delay, Fired)]));
    Extend(s3, AddStep(n));
    assert Apply(s3, AddStep(n)) == s;
  }

  /** A closure of `n` has run, and the two timers made after its own are both armed. */
  predicate TwoArmed(q: Queue, n: Name) {
    && |q.timers| == 3 && (forall i :: 0 <= i < 3 ==> q.timers[i].name == n)
    && q.timers[0].phase.Ran? && q.timers[1].phase.Armed? && q.timers[2].phase.Armed?
  }

  /** The race is real, for every name and delay: a fired closure deletes the entry of the timer that
      replaced it, so a third add finds nothing to stop and two timers stay armed. */
  lemma RaceLeavesTwoArmed(n: Name, delay: nat)
    ensures exists s :: Reachable(s) && s.queue.delay == delay && TwoArmed(s.queue, n)
  {
    var s4 := Clocked(delay, Queue(delay, map[n := 1], [Timer(n, delay, Fired), Timer(n, delay + delay, Armed)]));
    RaceToClear(n, delay, s4);
    Extend(s4, ClearStep(0));
    var s5 := Apply(s4, ClearStep(0));
    Extend(s5, AddStep(n));
    var s6 := Apply(s5, AddStep(n));
    assert s6.queue.delay == delay && TwoArmed(s6.queue, n);
  }

  ghost predicate Reachable(s: Clocked) {
    exists states, steps :: IsRun(states, steps) && states[|steps|] == s
  }

  lemma Extend(s: Clocked, step: Step)
    requires Reachable(s) && Enabled(s, step)
    ensures Reachable(Apply(s, step))
  {
    var states, steps :| IsRun(states, steps) && states[|steps|] == s;
    assert IsRun(states + [Apply(s, step)], steps + [step]);
  }

  /** The last timer of a name, or -1. */
  function Latest(timers: seq<Timer>, n: Name): (k: int)
    ensures -1 <= k < |timers|
    ensures k >= 0 ==> timers[k].name == n
    ensures forall i :: k < i < |timers| ==> timers[i].name != n
  {
    if timers == [] then -1
    else if timers[|timers| - 1].name == n then |timers| - 1
    else Latest(timers[..|timers| - 1], n)
  }

  /** From state `from` on, where no timer of `n` is live, the adds of `n` form a burst: each one but the
      first comes before the previous timer of the burst is due, that is, less than one delay after the
      previous add. */
  ghost predicate Burst(states: seq<Clocked>, steps: seq<Step>, from: nat, n: Name) {
    && IsRun(states, steps) && from <= |steps| && (forall i :: !states[from].queue.LiveAt(n, i))
    && forall i :: from <= i < |steps| && steps[i] == AddStep(n) ==> InTime(states[from].queue, states[i], n)
  }

  ghost predicate InTime(q0: Queue, s: Clocked, n: Name) {
    var k := Latest(s.queue.timers, n);
    k >= |q0.timers| ==> s.now < s.queue.timers[k].due
  }

  /** Timers of `n` from before the burst are over and stay as they are; of those of the burst all but the
      last are stopped, and the last is pending while it is armed. */
  ghost predicate BurstInv(q0: Queue, q: Queue, n: Name) {
    var k := Latest(q.timers, n);
    && |q0.timers| <= |q.timers|
    && (forall i :: 0 <= i < |q0.timers| && q.timers[i].name == n ==> !q.LiveAt(n, i))
    && (forall i :: 0 <= i < |q0.timers| && q0.timers[i].name == n ==> q.timers[i] == q0.timers[i])
    && (forall i :: |q0.timers| <= i < |q.timers| && q.timers[i].name == n ==> (q.timers[i].phase.Stopped? <==> i != k))
    && (k >= |q0.timers| && q.timers[k].phase.Armed? ==> n in q.pending && q.pending[n] == k)
  }

  /** A burst, at any point of any run, gives one callback: all its timers but the last are stopped, the
      last never is, so as soon as none is live exactly one callback of `n` has begun since `from`. */
  lemma BurstGivesOneCallback(states: seq<Clocked>, steps: seq<Step>, from: nat, n: Name)
    requires Burst(states, steps, from, n)
    ensures var q0, q := states[from].queue, states[|steps|].queue;
            && |q0.timers| <= |q.timers|
            && (forall i :: 0 <= i < |q0.timers| && q0.timers[i].name == n ==> q.timers[i] == q0.timers[i])
            && (AddStep(n) in steps[from..] && (forall i :: !q.LiveAt(n, i)) ==>
                  exists k :: |q0.timers| <= k < |q.timers| && q.timers[k].name == n && q.timers[k].phase.Ran?
                              && forall i :: |q0.timers| <= i < |q.timers| && q.timers[i].name == n && i != k ==>
                                   i < k && q.timers[i].phase.Stopped?)
  {
    BurstInvariant(states, steps, from, n);
    AddsLeaveTimers(states, steps, from, n);
    var q := states[|steps|].queue;
    var k := Latest(q.timers, n);
    if AddStep(n) in steps[from..] && forall i :: !q.LiveAt(n, i) {
      assert k >= |states[from].queue.timers|;
      assert !q.LiveAt(n, k) && q.timers[k].phase.Ran?;
    }
  }

  lemma {:induction false} AddsLeaveTimers(states: seq<Clocked>, steps: seq<Step>, from: nat, n: Name)
    requires IsRun(states, steps) && from <= |steps|
    ensures |states[from].queue.timers| <= |states[|steps|].queue.timers|
    ensures AddStep(n) in steps[from..] ==> Latest(states[|steps|].queue.timers, n) >= |states[from].queue.timers|
  {
    if from < |steps| {
      var k := |steps| - 1;
      var q, q' := states[k].queue, states[k + 1].queue;
      AddsLeaveTimers(states[..k + 1], steps[..k], from, n);
      assert states[k + 1] == Apply(states[k], steps[k]);
      if steps[k] == AddStep(n) {
        assert q'.timers[|q.timers|].name == n;
      } else if AddStep(n) in steps[from..] {
        assert AddStep(n) in steps[..k][from..];
        var l := Latest(q.timers, n);
        assert q'.timers[l].name == n;
      }
    }
  }

  lemma LatestAfter(q: Queue, q': Queue, n: Name)
    requires |q.timers| <= |q'.timers|
    requires forall i :: 0 <= i < |q.timers| ==> q'.timers[i].name == q.timers[i].name
    requires forall i :: |q.timers| <= i < |q'.timers| ==> q'.timers[i].name != n
    ensures Latest(q'.timers, n) == Latest(q.timers, n)
  {
    var k, k' := Latest(q.timers, n), Latest(q'.timers, n);
    assert k >= 0 ==> q'.timers[k].name == n;
    assert k' >= 0 ==> q'.timers[k'].name == n;
  }

  lemma BurstAdd(q0: Queue, s: Clocked, n: Name)
    requires Inv(s) && BurstInv(q0, s.queue, n) && InTime(q0, s, n)
    ensures BurstInv(q0, s.queue.Add(n, s.now), n)
  {
    var q, q' := s.queue, s.queue.Add(n, s.now);
    var k := Latest(q.timers, n);
    assert q'.timers[|q.timers|].name == n;
    assert Latest(q'.timers, n) == |q.timers|;
    if k >= |q0.timers| {
      assert q.timers[k].phase.Armed?;
    }
    forall i | 0 <= i < |q0.timers| && q.timers[i].name == n
      ensures q'.timers[i] == q.timers[i] && !q'.LiveAt(n, i)
    {
      assert !q.LiveAt(n, i);
    }
  }

  lemma {:induction false} BurstInvariant(states: seq<Clocked>, steps: seq<Step>, from: nat, n: Name)
    requires Burst(states, steps, from, n)
    ensures BurstInv(states[from].queue, states[|steps|].queue, n)
  {
    if from < |steps| {
      var k := |steps| - 1;
      BurstInvariant(states[..k + 1], steps[..k], from, n);
      Conservation(states[..k + 1], steps[..k]);
      BurstStep(states[from].queue, states[k], steps[k], n);
    }
  }

  /** Firing a timer, running a closure or adding another name. */
  lemma BurstOther(q0: Queue, q: Queue, q': Queue, n: Name)
    requires BurstInv(q0, q, n)
    requires |q.timers| <= |q'.timers|
    requires forall i :: 0 <= i < |q.timers| ==> q'.timers[i].name == q.timers[i].name
    requires forall i :: |q.timers| <= i < |q'.timers| ==> q'.timers[i].name != n
    requires forall i :: 0 <= i < |q.timers| && q.timers[i].name == n ==>
               && (q'.timers[i].phase.Stopped? <==> q.timers[i].phase.Stopped?)
               && (q'.timers[i].phase.Armed? ==> q.timers[i].phase.Armed?)
               && (!q.LiveAt(n, i) ==> q'.timers[i] == q.timers[i])
    requires var k := Latest(q.timers, n);
             k >= |q0.timers| && q'.timers[k].phase.Armed? && n in q.pending ==>
               n in q'.pending && q'.pending[n] == q.pending[n]
    ensures BurstInv(q0, q', n)
  {
    LatestAfter(q, q', n);
    forall i | 0 <= i < |q0.timers| && q'.timers[i].name == n
      ensures q'.timers[i] == q.timers[i] && !q'.LiveAt(n, i)
    {
      assert !q.LiveAt(n, i);
    }
  }

  lemma BurstAddOther(q0: Queue, s: Clocked, m: Name, n: Name)
    requires Inv(s) && BurstInv(q0, s.queue, n) && m != n
    ensures BurstInv(q0, s.queue.Add(m, s.now), n)
  {
    BurstOther(q0, s.queue, s.queue.Add(m, s.now), n);
  }

  lemma BurstFire(q0: Queue, s: Clocked, i: nat, n: Name)
    requires BurstInv(q0, s.queue, n) && Enabled(s, FireStep(i))
    ensures BurstInv(q0, s.queue.Fire(i), n)
  {
    assert s.queue.LiveAt(s.queue.timers[i].name, i);
    BurstOther(q0, s.queue, s.queue.Fire(i), n);
  }

  lemma BurstClear(q0: Queue, s: Clocked, i: nat, n: Name)
    requires BurstInv(q0, s.queue, n) && Enabled(s, ClearStep(i))
    ensures BurstInv(q0, s.queue.Clear(i), n)
  {
    assert s.queue.LiveAt(s.queue.timers[i].name, i);
    BurstOther(q0, s.queue, s.queue.Clear(i), n);
  }

  lemma BurstStep(q0: Queue, s: Clocked, step: Step, n: Name)
    requires Inv(s) && BurstInv(q0, s.queue, n) && Enabled(s, step)
    requires step == AddStep(n) ==> InTime(q0, s, n)
    ensures BurstInv(q0, Apply(s, step).queue, n)
  {
    match step
    case Tick(_) =>
    case AddStep(m) =>
      if m == n {
        BurstAdd(q0, s, n);
      } else {
        BurstAddOther(q0, s, m, n);
      }
    case FireStep(i) => BurstFire(q0, s, i, n);
    case ClearStep(i) => BurstClear(q0, s, i, n);
  }
}
