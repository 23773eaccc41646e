/** Runs of the locked machine: transfer of the theorems, deadlock freedom and termination. */
module LockedProgress {
  import opened Prelude
  import opened Debounce
  import opened FileCache
  import opened RegoCache
  import opened HotReload
  import opened HotReloadTheorems
  import opened HotReloadSerial
  import opened LockedReload

  ghost predicate IsLockedPath(ms: seq<Locked>, acts: seq<Act>) {
    && |ms| == |acts| + 1
    && forall i :: 0 <= i < |acts| ==> Can(ms[i], acts[i]) && ms[i + 1] == Run(ms[i], acts[i])
  }

  ghost predicate IsLockedRun(ms: seq<Locked>, acts: seq<Act>) {
    IsLockedPath(ms, acts) && Boots(ms[0])
  }

  ghost function States(ms: seq<Locked>): seq<State> {
    seq(|ms|, i requires 0 <= i < |ms| => Abstract(ms[i]))
  }

  ghost function Steps(ms: seq<Locked>, acts: seq<Act>): seq<Step>
    requires IsLockedPath(ms, acts)
  {
    seq(|acts|, i requires 0 <= i < |acts| => StepOf(ms[i], acts[i]))
  }

  lemma {:induction false} LocksAlwaysOk(ms: seq<Locked>, acts: seq<Act>)
    requires IsLockedRun(ms, acts)
    ensures LocksOk(ms[|acts|])
  {
    if acts != [] {
      var k := |acts| - 1;
      LocksAlwaysOk(ms[..k + 1], acts[..k]);
      ActKeepsLocks(ms[k], acts[k]);
    }
  }

  /** Refinement over whole runs: the abstract states of a locked run form a run of HotReload. */
  lemma LockedRunRefines(ms: seq<Locked>, acts: seq<Act>)
    requires IsLockedRun(ms, acts)
    ensures IsRun(States(ms), Steps(ms, acts))
  {
    var states, steps := States(ms), Steps(ms, acts);
    assert Abstract(ms[0]).events == [];
    forall i | 0 <= i < |steps|
      ensures Enabled(states[i], steps[i]) && states[i + 1] == Apply(states[i], steps[i])
    {
      LocksAlwaysOk(ms[..i + 1], acts[..i]);
      ActRefines(ms[i], acts[i]);
    }
  }

  ghost predicate Unhandled(m: Locked, n: Name) {
    (m.loop.InHand? && m.loop.event.name == n) || Mentioned(m.mem, n)
  }

  lemma UnhandledIsMentioned(m: Locked, n: Name)
    requires Mentioned(Abstract(m), n)
    ensures Unhandled(m, n)
  {
    var a := Abstract(m);
    var i :| 0 <= i < |a.events| && a.events[i].name == n;
    if m.loop.InHand? && i > 0 {
      assert a.events[i] == m.mem.events[i - 1];
    } else if m.loop.InHand? {
      assert a.events[0] == m.loop.event;
    } else {
      assert a.events[i] == m.mem.events[i];
    }
  }

  /** Coherence of the real file map: whenever nobody is inside `Get`, a clean entry without unhandled
      event is the disk content, whatever the interleaving and whichever reads failed. */
  lemma LockedCoherence(ms: seq<Locked>, acts: seq<Act>, n: Name)
    requires IsLockedRun(ms, acts)
    ensures var m := ms[|acts|];
            m.got.None? && Clean(m.mem.files, n) && !Unhandled(m, n) ==>
              n in m.mem.disk && m.mem.disk[n] == m.mem.files[n].data
  {
    var m := ms[|acts|];
    LockedRunRefines(ms, acts);
    CoherentAlways(States(ms), Steps(ms, acts), n);
    if m.got.None? && Mentioned(Abstract(m), n) {
      UnhandledIsMentioned(m, n);
    }
  }

  /** All threads have finished and nothing is armed. */
  predicate AllDone(m: Locked) {
    Quiescent(m.mem) && m.loop.Waiting?
  }

  /** Convergence of the locked machine: of the real policy map, whatever threads are at work on other names
      and whatever locks are held. */
  lemma LockedConvergence(ms: seq<Locked>, acts: seq<Act>, n: Name)
    requires IsLockedRun(ms, acts) && GuardedRun(States(ms), Steps(ms, acts), n) && Calm(Abstract(ms[|acts|]), n)
    ensures Converged(ms[|acts|].mem, n)
  {
    Convergence(States(ms), Steps(ms, acts), n);
    assert States(ms)[|acts|] == Abstract(ms[|acts|]);
  }

  lemma AllDoneIsCalm(m: Locked, n: Name)
    requires LocksOk(m) && AllDone(m)
    ensures Calm(Abstract(m), n)
  {
    assert m.got.None?;
    assert Abstract(m) == m.mem;
    QuiescentIsCalm(m.mem, n);
  }

  /** The serial schedule for `n`, said of the locked machine: when a GetRego call reads, or finds a clean
      entry, no other call for the name is between its read and the end of its compile; a throw-away read that
      succeeds finds the name neither compiled nor being compiled; only reads for requests fail. */
  predicate SerialAct(m: Locked, act: Act, n: Name)
    requires Can(m, act)
  {
    match act
    case ReadFile(i, fails) =>
      var t := m.mem.jobs[i];
      t.name == n ==>
        if t.Prefetch? then fails || (n !in m.mem.regos && !Compiling(m.mem, n))
        else (fails ==> t.origin.FromRequest?) && !Compiling(m.mem, n)
    case FinishGet(i) =>
      m.got.None? && m.mem.jobs[i].Reload? && m.mem.jobs[i].name == n ==> !Compiling(m.mem, n)
    case _ => true
  }

  lemma SerialActRefines(m: Locked, act: Act, n: Name)
    requires LocksOk(m) && Can(m, act) && SerialAct(m, act, n)
    ensures Enabled(Abstract(m), StepOf(m, act)) && Serial(Abstract(m), StepOf(m, act), n)
  {
    ActRefines(m, act);
    if act.ReadFile? || (act.FinishGet? && m.got.None?) {
      assert Abstract(m).jobs == m.mem.jobs;
    }
  }

  /** A thread that a timer or the scan started is still at work on `n`. */
  predicate CallbackThread(s: State, n: Name, i: int) {
    && 0 <= i < |s.jobs| && (s.jobs[i].Reload? || s.jobs[i].Publish?)
    && s.jobs[i].name == n && !s.jobs[i].origin.FromRequest?
  }

  ghost predicate LockedReloading(m: Locked, n: Name) {
    || Unhandled(m, n) || Unscanned(m.mem, n)
    || (exists k :: m.mem.queue.LiveAt(n, k)) || (exists i :: CallbackThread(m.mem, n, i))
  }

  lemma ReloadingRefines(m: Locked, n: Name)
    requires Reloading(Abstract(m), n)
    ensures LockedReloading(m, n)
  {
    var a := Abstract(m);
    if Mentioned(a, n) {
      UnhandledIsMentioned(m, n);
    } else if i :| CallbackAt(a, n, i) || (PublishesAt(a, n, i) && !a.jobs[i].origin.FromRequest?) {
      assert CallbackThread(m.mem, n, i);
    } else {
      assert a.queue == m.mem.queue && a.scan == m.mem.scan;
    }
  }

  lemma LockedSerialRefines(ms: seq<Locked>, acts: seq<Act>, n: Name)
    requires IsLockedRun(ms, acts)
    requires forall i :: 0 <= i < |acts| ==> Can(ms[i], acts[i]) && SerialAct(ms[i], acts[i], n)
    ensures SerialRun(States(ms), Steps(ms, acts), n)
  {
    var states, steps := States(ms), Steps(ms, acts);
    LockedRunRefines(ms, acts);
    forall i | 0 <= i < |steps|
      ensures Enabled(states[i], steps[i]) && Serial(states[i], steps[i], n)
    {
      LocksAlwaysOk(ms[..i + 1], acts[..i]);
      assert Can(ms[i], acts[i]) && SerialAct(ms[i], acts[i], n);
      SerialActRefines(ms[i], acts[i], n);
    }
  }

  /** Convergence of the locked machine under the serial schedule, with any number of requests, probes and
      throw-away reads in flight and whichever locks are held. */
  lemma LockedSerialConvergence(ms: seq<Locked>, acts: seq<Act>, n: Name)
    requires IsLockedRun(ms, acts) && !LockedReloading(ms[|acts|], n)
    requires forall i :: 0 <= i < |acts| ==> Can(ms[i], acts[i]) && SerialAct(ms[i], acts[i], n)
    ensures Converged(ms[|acts|].mem, n)
  {
    LockedSerialRefines(ms, acts, n);
    assert States(ms)[|acts|] == Abstract(ms[|acts|]);
    if Reloading(Abstract(ms[|acts|]), n) {
      ReloadingRefines(ms[|acts|], n);
    }
    SerialConvergence(States(ms), Steps(ms, acts), n);
  }

  // ------------------------------------------------------------------------------------------------
  // Deadlock freedom.

  /** What the proxy itself does, as opposed to the clock, the disk and arriving requests. */
  predicate Internal(act: Act) {
    act.Free? ==> act.step.ListFolder? || act.step.ScanNext? || act.step.FireTimer?
  }

  ghost function Enumerate(names: set<Name>): (order: seq<Name>)
    ensures |order| == |names| && forall n :: n in names ==> n in order
  {
    if names == {} then []
    else
      var n :| n in names;
      [n] + Enumerate(names - {n})
  }

  /** The holder of a lock can always go on: it never waits, except the watcher for the queue lock. */
  lemma HolderCanAct(m: Locked) returns (act: Act)
    requires LocksOk(m) && (m.mtx.Some? || m.qmtx.Some? || m.rmtx.Some?)
    ensures Internal(act) && Can(m, act)
  {
    if m.qmtx.Some? {
      act := if m.qmtx.value.Watcher? then Handle else ClosureBody(m.qmtx.value.id);
    } else if m.mtx.Some? {
      match m.mtx.value
      case Watcher =>
        act := if m.loop.Settled? then UnlockCache
               else if Requeues(m.mem.files, m.loop.event.name, m.loop.event.op) then LockQueue else Handle;
      case Thread(i) =>
        act := if m.got.Some? || Clean(m.mem.files, m.mem.jobs[i].name) then FinishGet(i) else ReadFile(i, false);
    } else {
      act := PublishBody(m.rmtx.value.id);
    }
  }

  /** No lock is held, no thread, scan, event or started closure is left, and no armed timer is due. */
  predicate OnlyTimersLeft(m: Locked) {
    && m.mtx.None? && m.qmtx.None? && m.rmtx.None?
    && m.loop.Waiting? && m.mem.events == [] && m.mem.scan == Listed([])
    && (forall i :: 0 <= i < |m.mem.jobs| ==> m.mem.jobs[i].Finished?)
    && (forall i :: 0 <= i < |m.mem.queue.timers| ==> !CanStart(m.mem, m.mem.queue.timers[i]))
  }

  predicate CanStart(s: State, timer: Timer) {
    timer.phase.Fired? || (timer.phase.Armed? && timer.due <= s.now)
  }

  /** No lock is held: some thread can take one, or the scan, the loop or a closure can start. */
  lemma SomeoneCanStart(m: Locked) returns (act: Act)
    requires LocksOk(m) && m.mtx.None? && m.qmtx.None? && m.rmtx.None?
    requires !OnlyTimersLeft(m)
    ensures Internal(act) && Can(m, act)
  {
    if i :| 0 <= i < |m.mem.jobs| && !m.mem.jobs[i].Finished? {
      act := if Reads(m.mem.jobs[i]) then LockForGet(i) else LockForPublish(i);
    } else if i :| 0 <= i < |m.mem.queue.timers| && CanStart(m.mem, m.mem.queue.timers[i]) {
      act := if m.mem.queue.timers[i].phase.Armed? then Free(FireTimer(i)) else LockForClosure(i);
    } else if m.mem.scan.Unlisted? {
      act := Free(ListFolder(Enumerate(m.mem.disk.Keys)));
    } else if m.mem.scan.todo != [] {
      act := Free(ScanNext);
    } else if m.loop.InHand? {
      act := LockCache;
    } else {
      act := Receive;
    }
  }

  lemma SomeoneCanGoOn(m: Locked) returns (wait: nat, act: Act)
    requires LocksOk(m) && !AllDone(m)
    ensures Internal(act) && Can(Run(m, Free(Tick(wait))), act)
    ensures if OnlyTimersLeft(m) then act.Free? && act.step.FireTimer? else wait == 0 && Can(m, act)
  {
    if OnlyTimersLeft(m) {
      var i :| 0 <= i < |m.mem.queue.timers| && m.mem.queue.timers[i].phase.Armed?;
      wait, act := m.mem.queue.timers[i].due - m.mem.now, Free(FireTimer(i));
    } else {
      wait := 0;
      assert Run(m, Free(Tick(0))) == m;
      if m.mtx.Some? || m.qmtx.Some? || m.rmtx.Some? {
        act := HolderCanAct(m);
      } else {
        act := SomeoneCanStart(m);
      }
    }
  }

  /** Deadlock freedom: in every reachable state with unfinished work some thread can step at once, and if
      nothing is left but armed timers, one of them fires when it is due. */
  lemma NoDeadlock(ms: seq<Locked>, acts: seq<Act>) returns (wait: nat, act: Act)
    requires IsLockedRun(ms, acts) && !AllDone(ms[|acts|])
    ensures Internal(act)
    ensures var m := ms[|acts|];
            if !OnlyTimersLeft(m) then Can(m, act)
            else act.Free? && act.step.FireTimer? && Can(Run(m, Free(Tick(wait))), act)
  {
    LocksAlwaysOk(ms, acts);
    wait, act := SomeoneCanGoOn(ms[|acts|]);
  }

  // ------------------------------------------------------------------------------------------------
  // Termination.

  function JobWork(t: Job): nat {
    match t
    case Reload(_, _) => 5
    case Prefetch(_) => 3
    case Publish(_, _, _, _) => 2
    case Probe => 2
    case Finished => 0
  }

  function TimerWork(t: Timer): nat {
    match t.phase
    case Armed => 8
    case Fired => 7
    case Stopped => 0
    case Ran => 0
  }

  function JobsWork(jobs: seq<Job>): nat {
    if jobs == [] then 0 else JobsWork(jobs[..|jobs| - 1]) + JobWork(jobs[|jobs| - 1])
  }

  function TimersWork(timers: seq<Timer>): nat {
    if timers == [] then 0 else TimersWork(timers[..|timers| - 1]) + TimerWork(timers[|timers| - 1])
  }

  lemma {:induction false} JobsUpdate(jobs: seq<Job>, i: nat, t: Job)
    requires i < |jobs|
    ensures JobsWork(jobs[i := t]) == JobsWork(jobs) - JobWork(jobs[i]) + JobWork(t)
  {
    var k := |jobs| - 1;
    if i == k {
      assert jobs[i := t][..k] == jobs[..k];
    } else {
      JobsUpdate(jobs[..k], i, t);
      assert jobs[i := t][..k] == jobs[..k][i := t];
    }
  }

  lemma JobsAppend(jobs: seq<Job>, t: Job)
    ensures JobsWork(jobs + [t]) == JobsWork(jobs) + JobWork(t)
  {
    assert (jobs + [t])[..|jobs|] == jobs;
  }

  lemma {:induction false} TimersUpdate(timers: seq<Timer>, i: nat, t: Timer)
    requires i < |timers|
    ensures TimersWork(timers[i := t]) == TimersWork(timers) - TimerWork(timers[i]) + TimerWork(t)
  {
    var k := |timers| - 1;
    if i == k {
      assert timers[i := t][..k] == timers[..k];
    } else {
      TimersUpdate(timers[..k], i, t);
      assert timers[i := t][..k] == timers[..k][i := t];
    }
  }

  lemma AddWork(q: Queue, n: Name, now: nat)
    ensures TimersWork(q.Add(n, now).timers) <= TimersWork(q.timers) + 8
  {
    var stopped := q.StopPending(n);
    if stopped != q {
      TimersUpdate(q.timers, q.pending[n], q.timers[q.pending[n]].(phase := Stopped));
    }
    var timers := q.Add(n, now).timers;
    assert timers[..|stopped.timers|] == stopped.timers;
  }

  function LockWork(lock: Option<Holder>): nat {
    if lock.None? then 1 else 0
  }

  function ScanWork(scan: Scan, disk: map<Name, Bytes>): nat {
    match scan
    case Unlisted => 6 * |disk| + 1
    case Listed(todo) => 6 * |todo|
  }

  function LoopWork(loop: Loop): nat {
    match loop
    case Waiting => 0
    case InHand(_) => 15
    case Settled => 2
  }

  /** An upper bound on the number of steps the proxy can still take on its own. */
  function Work(m: Locked): nat {
    JobsWork(m.mem.jobs) + TimersWork(m.mem.queue.timers) + 16 * |m.mem.events| + LoopWork(m.loop)
    + ScanWork(m.mem.scan, m.mem.disk) + LockWork(m.mtx) + LockWork(m.qmtx) + LockWork(m.rmtx)
    + if m.got.None? then 1 else 0
  }

  lemma HandleWorks(m: Locked)
    requires LocksOk(m) && Can(m, Handle)
    ensures Work(Run(m, Handle)) < Work(m)
  {
    var e := m.loop.event;
    if Spawns(m.mem.files, e.name, e.op) {
      JobsAppend(m.mem.jobs, Prefetch(e.name));
    } else {
      assert m.mem.jobs + [] == m.mem.jobs;
    }
    AddWork(m.mem.queue, e.name, m.mem.now);
  }

  lemma FreeWorks(m: Locked, step: Step)
    requires LocksOk(m) && Can(m, Free(step)) && Internal(Free(step))
    ensures Work(Run(m, Free(step))) < Work(m)
  {
    var m' := Run(m, Free(step));
    match step
    case ListFolder(order) => assert m'.mem.jobs == m.mem.jobs && |order| == |m.mem.disk|;
    case ScanNext =>
      JobsAppend(m.mem.jobs, Reload(m.mem.scan.todo[0], FromScan));
      assert JobsWork(m'.mem.jobs) == JobsWork(m.mem.jobs) + 5;
      assert ScanWork(m'.mem.scan, m'.mem.disk) == ScanWork(m.mem.scan, m.mem.disk) - 6;
    case FireTimer(i) =>
      TimersUpdate(m.mem.queue.timers, i, m.mem.queue.timers[i].(phase := Fired));
      assert TimersWork(m'.mem.queue.timers) == TimersWork(m.mem.queue.timers) - 1;
  }

  lemma ClosureWorks(m: Locked, i: nat)
    requires LocksOk(m) && Can(m, ClosureBody(i))
    ensures Work(Run(m, ClosureBody(i))) < Work(m)
  {
    TimersUpdate(m.mem.queue.timers, i, m.mem.queue.timers[i].(phase := Ran));
    JobsAppend(m.mem.jobs, Reload(m.mem.queue.timers[i].name, FromTimer));
  }

  lemma GetWorks(m: Locked, i: nat)
    requires LocksOk(m) && Can(m, FinishGet(i))
    ensures Work(Run(m, FinishGet(i))) < Work(m)
  {
    JobsUpdate(m.mem.jobs, i, Run(m, FinishGet(i)).mem.jobs[i]);
  }

  lemma PublishWorks(m: Locked, i: nat)
    requires LocksOk(m) && Can(m, PublishBody(i))
    ensures Work(Run(m, PublishBody(i))) < Work(m)
  {
    JobsUpdate(m.mem.jobs, i, Finished);
  }

  /** Every step of the proxy uses up work. */
  lemma ActWorks(m: Locked, act: Act)
    requires LocksOk(m) && Can(m, act) && Internal(act)
    ensures Work(Run(m, act)) < Work(m)
  {
    match act
    case Free(step) => FreeWorks(m, step);
    case Handle => HandleWorks(m);
    case ClosureBody(i) => ClosureWorks(m, i);
    case FinishGet(i) => GetWorks(m, i);
    case PublishBody(i) => PublishWorks(m, i);
    case _ =>
  }

  function InternalActs(acts: seq<Act>): nat {
    if acts == [] then 0
    else InternalActs(acts[..|acts| - 1]) + if Internal(acts[|acts| - 1]) then 1 else 0
  }

  /** Termination: once the disk is left alone and no new request comes, at most Work more steps
      happen; with NoDeadlock, all threads finish. */
  lemma {:induction false} AllThreadsFinish(ms: seq<Locked>, acts: seq<Act>)
    requires IsLockedPath(ms, acts) && LocksOk(ms[0])
    requires forall i :: 0 <= i < |acts| ==> Internal(acts[i]) || (acts[i].Free? && acts[i].step.Tick?)
    ensures LocksOk(ms[|acts|]) && Work(ms[|acts|]) + InternalActs(acts) <= Work(ms[0])
  {
    if acts != [] {
      var k := |acts| - 1;
      AllThreadsFinish(ms[..k + 1], acts[..k]);
      assert Can(ms[k], acts[k]) && ms[k + 1] == Run(ms[k], acts[k]);
      ActKeepsLocks(ms[k], acts[k]);
      if Internal(acts[k]) {
        ActWorks(ms[k], acts[k]);
      }
    }
  }

  /** From every state, left alone, the proxy comes to rest. */
  lemma {:induction false} ComesToRest(m: Locked) returns (ms: seq<Locked>, acts: seq<Act>)
    requires LocksOk(m)
    ensures IsLockedPath(ms, acts) && ms[0] == m && AllDone(ms[|acts|])
    ensures forall i :: 0 <= i < |acts| ==> Internal(acts[i]) || (acts[i].Free? && acts[i].step.Tick?)
    decreases Work(m)
  {
    if AllDone(m) {
      ms, acts := [m], [];
    } else {
      var wait, act := SomeoneCanGoOn(m);
      var m1 := Run(m, Free(Tick(wait)));
      var m2 := Run(m1, act);
      ActKeepsLocks(m, Free(Tick(wait)));
      ActWorks(m1, act);
      ActKeepsLocks(m1, act);
      ms, acts := ComesToRest(m2);
      ms, acts := [m, m1] + ms, [Free(Tick(wait)), act] + acts;
    }
  }

  lemma CompiledFromReal(ms: seq<Locked>, tool: Toolchain, n: Name, q: Query)
    requires CompiledFrom(States(ms), tool, n, q)
    ensures exists j :: 0 <= j < |ms| && n in ms[j].mem.disk && Compile(tool, n, ms[j].mem.disk[n]) == Some(q)
  {
    var states := States(ms);
    var data :| OnceHad(states, n, data) && Compile(tool, n, data) == Some(q);
    var j :| 0 <= j < |states| && n in states[j].disk && states[j].disk[n] == data;
    assert states[j].disk == ms[j].mem.disk;
  }

  /** Every installed policy is the compile of bytes that its file once had on the real disk. */
  lemma LockedProvenance(ms: seq<Locked>, acts: seq<Act>, n: Name)
    requires IsLockedRun(ms, acts) && n in ms[|acts|].mem.regos
    ensures exists j :: 0 <= j < |ms| && n in ms[j].mem.disk
                        && Compile(ms[|acts|].mem.tool, n, ms[j].mem.disk[n]) == Some(ms[|acts|].mem.regos[n])
  {
    var m := ms[|acts|];
    LockedRunRefines(ms, acts);
    Provenance(States(ms), Steps(ms, acts), n);
    assert States(ms)[|acts|].regos == m.mem.regos && States(ms)[|acts|].tool == m.mem.tool;
    CompiledFromReal(ms, m.mem.tool, n, m.mem.regos[n]);
  }
}
