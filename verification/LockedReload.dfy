/**
 The hot-reload machine with its three mutexes: Cache.mtx, delayedCallbacks.mutex and RegoCache.mtx.

 Lock acquisitions are steps of their own, and so is the file read inside `Get`, during which the disk
 may change.  The only nested acquisition is the queue lock under the cache lock, in `invalidate`.
 Every run of this machine is a run of HotReload (so its theorems hold here), no reachable state is
 deadlocked, and all threads finish.
 */
module LockedReload {
  import opened Prelude
  import opened Debounce
  import opened FileCache
  import opened RegoCache
  import opened HotReload
  import opened HotReloadTheorems

  datatype Holder = Watcher | Thread(id: nat) | Closure(id: nat)

  /** The watcher loop: waiting, holding an event to be handled, or done with it and still locked. */
  datatype Loop = Waiting | InHand(event: Event) | Settled

  datatype Locked = Locked(
    mem: State,               // shared memory; mem.jobs are the threads, mem.events the channel
    loop: Loop,
    got: Option<ReadResult>,  // local to the holder of mtx inside `Get`: what the file read gave
    mtx: Option<Holder>,
    qmtx: Option<Holder>,
    rmtx: Option<Holder>)

  datatype Act =
    | Free(step: Step)        // a step that takes no lock
    | Receive | LockCache | LockQueue | Handle | UnlockCache
    | LockForClosure(id: nat) | ClosureBody(id: nat)
    | LockForGet(id: nat) | ReadFile(id: nat, fails: bool) | FinishGet(id: nat)
    | LockForPublish(id: nat) | PublishBody(id: nat)

  predicate Lockless(step: Step) {
    step.Tick? || step.DiskWrite? || step.DiskRemove? || step.Echo? || step.Request? || step.Ask?
    || step.ListFolder? || step.ScanNext? || step.FireTimer?
  }

  predicate Reads(t: Job) {
    t.Reload? || t.Prefetch?
  }

  predicate Queries(t: Job) {
    t.Publish? || t.Probe?
  }

  predicate Can(m: Locked, act: Act) {
    match act
    case Free(step) => Lockless(step) && Enabled(m.mem, step)
    case Receive => m.loop.Waiting? && m.mem.scan == Listed([]) && ScanIdle(m.mem) && m.mem.events != []
    case LockCache => m.loop.InHand? && m.mtx.None?
    case LockQueue =>
      && m.loop.InHand? && m.mtx == Some(Watcher) && m.qmtx.None?
      && Requeues(m.mem.files, m.loop.event.name, m.loop.event.op)
    case Handle =>
      && m.loop.InHand? && m.mtx == Some(Watcher)
      && (Requeues(m.mem.files, m.loop.event.name, m.loop.event.op) ==> m.qmtx == Some(Watcher))
    case UnlockCache => m.loop.Settled?
    case LockForClosure(i) => m.qmtx.None? && Enabled(m.mem, RunClosure(i))
    case ClosureBody(i) => m.qmtx == Some(Closure(i)) && Enabled(m.mem, RunClosure(i))
    case LockForGet(i) => m.mtx.None? && i < |m.mem.jobs| && Reads(m.mem.jobs[i])
    case ReadFile(i, _) =>
      && m.mtx == Some(Thread(i)) && i < |m.mem.jobs| && Reads(m.mem.jobs[i])
      && m.got.None? && !Clean(m.mem.files, m.mem.jobs[i].name)
    case FinishGet(i) =>
      && m.mtx == Some(Thread(i)) && i < |m.mem.jobs| && Reads(m.mem.jobs[i])
      && (m.got.Some? || Clean(m.mem.files, m.mem.jobs[i].name))
    case LockForPublish(i) => m.rmtx.None? && i < |m.mem.jobs| && Queries(m.mem.jobs[i])
    case PublishBody(i) => m.rmtx == Some(Thread(i)) && i < |m.mem.jobs| && Queries(m.mem.jobs[i])
  }

  /** The effect of a completed `Get` by thread `i` whose read gave `read`. */
  function Stored(s: State, i: nat, read: ReadResult): State
    requires i < |s.jobs| && Reads(s.jobs[i])
  {
    var n := s.jobs[i].name;
    s.(files := GetFiles(s.files, n, read),
       jobs := s.jobs[i := if s.jobs[i].Prefetch? then Finished
                             else AfterGet(n, s.jobs[i].origin, GetResultOf(s.files, n, read))])
  }

  function QueryStep(s: State, i: nat): Step
    requires i < |s.jobs| && Queries(s.jobs[i])
  {
    if s.jobs[i].Publish? then PublishStep(i) else ProbeStep(i)
  }

  function Run(m: Locked, act: Act): Locked
    requires Can(m, act)
  {
    match act
    case Free(step) => m.(mem := Apply(m.mem, step))
    case Receive => m.(loop := InHand(m.mem.events[0]), mem := m.mem.(events := m.mem.events[1..]))
    case LockCache => m.(mtx := Some(Watcher))
    case LockQueue => m.(qmtx := Some(Watcher))
    case Handle =>
      m.(mem := Invalidated(m.mem, m.loop.event), loop := Settled,
         qmtx := if m.qmtx == Some(Watcher) then None else m.qmtx)
    case UnlockCache => m.(loop := Waiting, mtx := None)
    case LockForClosure(i) => m.(qmtx := Some(Closure(i)))
    case ClosureBody(i) => m.(mem := Apply(m.mem, RunClosure(i)), qmtx := None)
    case LockForGet(i) => m.(mtx := Some(Thread(i)), got := None)
    case ReadFile(i, fails) => m.(got := Some(ReadDisk(m.mem, m.mem.jobs[i].name, fails)))
    case FinishGet(i) => m.(mem := Stored(m.mem, i, m.got.GetOr(Failed)), got := None, mtx := None)
    case LockForPublish(i) => m.(rmtx := Some(Thread(i)))
    case PublishBody(i) => m.(mem := Apply(m.mem, QueryStep(m.mem, i)), rmtx := None)
  }

  /** Who holds what. */
  ghost predicate LocksOk(m: Locked) {
    && (match m.mtx
        case None => true
        case Some(Watcher) => !m.loop.Waiting?
        case Some(Thread(i)) => i < |m.mem.jobs| && Reads(m.mem.jobs[i])
        case Some(Closure(_)) => false)
    && (m.loop.Settled? ==> m.mtx == Some(Watcher))
    && (m.got.Some? ==> m.mtx.Some? && m.mtx.value.Thread? && !Clean(m.mem.files, m.mem.jobs[m.mtx.value.id].name))
    && (match m.qmtx
        case None => true
        case Some(Watcher) =>
          m.loop.InHand? && m.mtx == Some(Watcher) && Requeues(m.mem.files, m.loop.event.name, m.loop.event.op)
        case Some(Closure(i)) => Enabled(m.mem, RunClosure(i))
        case Some(Thread(_)) => false)
    && (match m.rmtx
        case None => true
        case Some(Thread(i)) => i < |m.mem.jobs| && Queries(m.mem.jobs[i])
        case Some(_) => false)
    && (!m.loop.Waiting? ==> m.mem.scan == Listed([]) && ScanIdle(m.mem))
    && m.mem.queue.Valid()
  }

  ghost predicate Boots(m: Locked) {
    Init(m.mem) && m.loop.Waiting? && m.got.None? && m.mtx.None? && m.qmtx.None? && m.rmtx.None?
  }

  lemma FreeKeepsLocks(m: Locked, step: Step)
    requires LocksOk(m) && Can(m, Free(step))
    ensures LocksOk(Run(m, Free(step)))
  {
    StepKeepsQueueValid(m.mem, step);
  }

  lemma HandleKeepsLocks(m: Locked)
    requires LocksOk(m) && Can(m, Handle)
    ensures LocksOk(Run(m, Handle))
  {
    var m' := Run(m, Handle);
    if m.qmtx.Some? && m.qmtx.value.Closure? {
      assert m'.mem.queue == m.mem.queue;
    }
  }

  lemma WatcherKeepsLocks(m: Locked, act: Act)
    requires LocksOk(m) && Can(m, act) && (act.Receive? || act.LockCache? || act.LockQueue? || act.UnlockCache?)
    ensures LocksOk(Run(m, act))
  {
  }

  lemma ClosureKeepsLocks(m: Locked, act: Act)
    requires LocksOk(m) && Can(m, act) && (act.LockForClosure? || act.ClosureBody?)
    ensures LocksOk(Run(m, act))
  {
    if act.ClosureBody? {
      StepKeepsQueueValid(m.mem, RunClosure(act.id));
    }
  }

  lemma ReaderKeepsLocks(m: Locked, act: Act)
    requires LocksOk(m) && Can(m, act) && (act.LockForGet? || act.ReadFile?)
    ensures LocksOk(Run(m, act))
  {
  }

  lemma FinishKeepsLocks(m: Locked, i: nat)
    requires LocksOk(m) && Can(m, FinishGet(i))
    ensures LocksOk(Run(m, FinishGet(i)))
  {
  }

  lemma PublishKeepsLocks(m: Locked, act: Act)
    requires LocksOk(m) && Can(m, act) && (act.LockForPublish? || act.PublishBody?)
    ensures LocksOk(Run(m, act))
  {
  }

  lemma ActKeepsLocks(m: Locked, act: Act)
    requires LocksOk(m) && Can(m, act)
    ensures LocksOk(Run(m, act))
  {
    match act
    case Free(step) => FreeKeepsLocks(m, step);
    case Receive | LockCache | LockQueue | UnlockCache => WatcherKeepsLocks(m, act);
    case Handle => HandleKeepsLocks(m);
    case LockForClosure(_) | ClosureBody(_) => ClosureKeepsLocks(m, act);
    case LockForGet(_) | ReadFile(_, _) => ReaderKeepsLocks(m, act);
    case FinishGet(i) => FinishKeepsLocks(m, i);
    case LockForPublish(_) | PublishBody(_) => PublishKeepsLocks(m, act);
  }

  // ------------------------------------------------------------------------------------------------
  // Refinement.

  /** A `Get` takes effect when its file read happens; an event counts as undelivered until handled. */
  function Abstract(m: Locked): State {
    var s := m.mem.(events := (if m.loop.InHand? then [m.loop.event] else []) + m.mem.events);
    if m.got.Some? && m.mtx.Some? && m.mtx.value.Thread? && m.mtx.value.id < |s.jobs| && Reads(s.jobs[m.mtx.value.id])
    then Stored(s, m.mtx.value.id, m.got.value)
    else s
  }

  function GetStepOf(t: Job, i: nat, fails: bool): Step {
    if t.Prefetch? then PrefetchStep(i, fails) else GetStep(i, fails)
  }

  /** The step of HotReload that an act performs; Tick(0) changes nothing. */
  function StepOf(m: Locked, act: Act): Step
    requires Can(m, act)
  {
    match act
    case Free(step) => step
    case Handle => Deliver
    case ClosureBody(i) => RunClosure(i)
    case ReadFile(i, fails) => GetStepOf(m.mem.jobs[i], i, fails)
    case FinishGet(i) => if m.got.Some? then Tick(0) else GetStepOf(m.mem.jobs[i], i, false)
    case PublishBody(i) => QueryStep(m.mem, i)
    case _ => Tick(0)
  }

  lemma DiskRefines(m: Locked, step: Step)
    requires LocksOk(m) && Can(m, Free(step)) && (step.DiskWrite? || step.DiskRemove? || step.Echo?)
    ensures Enabled(Abstract(m), step) && Abstract(Run(m, Free(step))) == Apply(Abstract(m), step)
  {
    var m' := Run(m, Free(step));
    var inHand := if m.loop.InHand? then [m.loop.event] else [];
    var raised := m'.mem.events[|m.mem.events|];
    assert m'.mem.events == m.mem.events + [raised];
    assert inHand + (m.mem.events + [raised]) == (inHand + m.mem.events) + [raised];
  }

  lemma ArrivalRefines(m: Locked, step: Step)
    requires LocksOk(m) && Can(m, Free(step)) && (step.Request? || step.Ask? || step.ScanNext?)
    ensures Enabled(Abstract(m), step) && Abstract(Run(m, Free(step))) == Apply(Abstract(m), step)
  {
    var a, m' := Abstract(m), Run(m, Free(step));
    if m.got.Some? {
      var i := m.mtx.value.id;
      assert a.jobs == m.mem.jobs[i := a.jobs[i]];
      assert step.ScanNext? ==> ScanIdle(a);
      assert Abstract(m').jobs == Apply(a, step).jobs;
    }
  }

  lemma ClockRefines(m: Locked, step: Step)
    requires LocksOk(m) && Can(m, Free(step)) && (step.Tick? || step.ListFolder? || step.FireTimer?)
    ensures Enabled(Abstract(m), step) && Abstract(Run(m, Free(step))) == Apply(Abstract(m), step)
  {
  }

  lemma WatcherRefines(m: Locked, act: Act)
    requires LocksOk(m) && Can(m, act)
    requires act.Receive? || act.LockCache? || act.LockQueue? || act.Handle? || act.UnlockCache?
    ensures Enabled(Abstract(m), StepOf(m, act)) && Abstract(Run(m, act)) == Apply(Abstract(m), StepOf(m, act))
  {
    if act.Receive? {
      assert m.mem.events == [m.mem.events[0]] + m.mem.events[1..];
      assert [] + m.mem.events == m.mem.events;
    } else if act.Handle? {
      var a := Abstract(m);
      assert a.events == [m.loop.event] + m.mem.events;
      assert a.events[1..] == m.mem.events;
      assert [] + m.mem.events == m.mem.events;
    }
  }

  lemma ClosureRefines(m: Locked, act: Act)
    requires LocksOk(m) && Can(m, act) && (act.LockForClosure? || act.ClosureBody?)
    ensures Enabled(Abstract(m), StepOf(m, act)) && Abstract(Run(m, act)) == Apply(Abstract(m), StepOf(m, act))
  {
    if act.ClosureBody? && m.got.Some? {
      var a, i := Abstract(m), m.mtx.value.id;
      assert a.jobs == m.mem.jobs[i := a.jobs[i]];
      assert Abstract(Run(m, act)).jobs == Apply(a, StepOf(m, act)).jobs;
    }
  }

  lemma GetRefines(m: Locked, act: Act)
    requires LocksOk(m) && Can(m, act) && (act.LockForGet? || act.ReadFile? || act.FinishGet?)
    ensures Enabled(Abstract(m), StepOf(m, act)) && Abstract(Run(m, act)) == Apply(Abstract(m), StepOf(m, act))
  {
  }

  lemma PublishRefines(m: Locked, act: Act)
    requires LocksOk(m) && Can(m, act) && (act.LockForPublish? || act.PublishBody?)
    ensures Enabled(Abstract(m), StepOf(m, act)) && Abstract(Run(m, act)) == Apply(Abstract(m), StepOf(m, act))
  {
    if act.PublishBody? && m.got.Some? {
      var a, i := Abstract(m), m.mtx.value.id;
      assert i != act.id;
      assert a.jobs == m.mem.jobs[i := a.jobs[i]];
      assert a.jobs[act.id := Finished] == m.mem.jobs[act.id := Finished][i := a.jobs[i]];
    }
  }

  /** Every act of the locked machine is a step of HotReload, or changes nothing there. */
  lemma ActRefines(m: Locked, act: Act)
    requires LocksOk(m) && Can(m, act)
    ensures Enabled(Abstract(m), StepOf(m, act)) && Abstract(Run(m, act)) == Apply(Abstract(m), StepOf(m, act))
  {
    match act
    case Free(step) =>
      if step.DiskWrite? || step.DiskRemove? || step.Echo? {
        DiskRefines(m, step);
      } else if step.Tick? || step.ListFolder? || step.FireTimer? {
        ClockRefines(m, step);
      } else {
        ArrivalRefines(m, step);
      }
    case Receive | LockCache | LockQueue | Handle | UnlockCache => WatcherRefines(m, act);
    case LockForClosure(_) | ClosureBody(_) => ClosureRefines(m, act);
    case LockForGet(_) | ReadFile(_, _) | FinishGet(_) => GetRefines(m, act);
    case LockForPublish(_) | PublishBody(_) => PublishRefines(m, act);
  }
}
