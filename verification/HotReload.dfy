/**
 The hot-reload machine: pkg/filecache and pkg/regocache driven by the disk, the watcher, the debounce
 timers, the throw-away reads and any number of request and readiness threads.

 Every step is one critical section (module LockedReload splits them and proves that this is sound).
 Names are the regular files that pass `shouldProcess`; a file is read in one piece.
 */
module HotReload {
  import opened Prelude
  import opened Debounce
  import opened FileCache
  import opened RegoCache

  datatype Event = Event(name: Name, op: Op)

  datatype Origin = FromTimer | FromScan | FromRequest

  datatype Job =
    | Reload(name: Name, origin: Origin)                                       // GetRego, before cache.Get
    | Publish(name: Name, origin: Origin, data: Option<Bytes>, dirty: bool)    // GetRego, after cache.Get
    | Prefetch(name: Name)                                                     // go c.Get(name)
    | Probe                                                                    // Ready
    | Finished

  /** The initial scan of `Watch`: before os.ReadDir, or the names still to be loaded. */
  datatype Scan = Unlisted | Listed(todo: seq<Name>)

  datatype State = State(
    tool: Toolchain,
    now: nat,
    disk: map<Name, Bytes>,
    events: seq<Event>,     // raised by the disk and not yet handled by `invalidate`
    files: Files,
    queue: Queue,
    regos: Regos,
    jobs: seq<Job>,
    scan: Scan)

  datatype Step =
    | Tick(elapsed: nat)
    | DiskWrite(name: Name, data: Bytes)
    | DiskRemove(name: Name)
    | Echo(event: Event)                  // a further notification without a change
    | Request(name: Name)
    | Ask                                 // a readiness probe arrives
    | ListFolder(order: seq<Name>)
    | ScanNext
    | Deliver
    | FireTimer(id: nat)
    | RunClosure(id: nat)
    | GetStep(id: nat, fails: bool)
    | PrefetchStep(id: nat, fails: bool)
    | PublishStep(id: nat)
    | ProbeStep(id: nat)

  predicate Lists(order: seq<Name>, disk: map<Name, Bytes>) {
    |order| == |disk| && forall n :: n in disk ==> n in order
  }

  /** The scan calls back synchronously: the next name, and the watcher loop, wait for it. */
  predicate ScanIdle(s: State) {
    forall i :: 0 <= i < |s.jobs| ==> !(s.jobs[i].Reload? || s.jobs[i].Publish?) || !s.jobs[i].origin.FromScan?
  }

  predicate Enabled(s: State, step: Step) {
    match step
    case Tick(_) => true
    case DiskWrite(_, _) => true
    case DiskRemove(n) => n in s.disk
    case Echo(_) => true
    case Request(_) => true
    case Ask => true
    case ListFolder(order) => s.scan.Unlisted? && Lists(order, s.disk)
    case ScanNext => s.scan.Listed? && s.scan.todo != [] && ScanIdle(s)
    case Deliver => s.scan == Listed([]) && ScanIdle(s) && s.events != []
    case FireTimer(i) => i < |s.queue.timers| && s.queue.timers[i].phase.Armed? && s.queue.timers[i].due <= s.now
    case RunClosure(i) => i < |s.queue.timers| && s.queue.timers[i].phase.Fired?
    case GetStep(i, _) => i < |s.jobs| && s.jobs[i].Reload?
    case PrefetchStep(i, _) => i < |s.jobs| && s.jobs[i].Prefetch?
    case PublishStep(i) => i < |s.jobs| && s.jobs[i].Publish?
    case ProbeStep(i) => i < |s.jobs| && s.jobs[i].Probe?
  }

  function ReadDisk(s: State, n: Name, fails: bool): ReadResult {
    if fails then Failed else if n in s.disk then Present(s.disk[n]) else Absent
  }

  function AfterGet(n: Name, origin: Origin, r: GetResult): Job {
    match r
    case GetError => Finished
    case Got(data, updated) => Publish(n, origin, data, updated)
  }

  /** The critical section of `invalidate`. */
  function Invalidated(s: State, e: Event): State {
    s.(files := InvalidateFiles(s.files, e.name, e.op),
       jobs := s.jobs + if Spawns(s.files, e.name, e.op) then [Prefetch(e.name)] else [],
       queue := if Requeues(s.files, e.name, e.op) then s.queue.Add(e.name, s.now) else s.queue)
  }

  function Apply(s: State, step: Step): State
    requires Enabled(s, step)
  {
    match step
    case Tick(d) => s.(now := s.now + d)
    case DiskWrite(n, data) => s.(disk := s.disk[n := data], events := s.events + [Event(n, Write)])
    case DiskRemove(n) => s.(disk := s.disk - {n}, events := s.events + [Event(n, Remove)])
    case Echo(e) => s.(events := s.events + [e])
    case Request(n) => s.(jobs := s.jobs + [Reload(n, FromRequest)])
    case Ask => s.(jobs := s.jobs + [Probe])
    case ListFolder(order) => s.(scan := Listed(order))
    case ScanNext =>
      s.(scan := Listed(s.scan.todo[1..]), jobs := s.jobs + [Reload(s.scan.todo[0], FromScan)])
    case Deliver => Invalidated(s, s.events[0]).(events := s.events[1..])
    case FireTimer(i) => s.(queue := s.queue.Fire(i))
    case RunClosure(i) =>
      s.(queue := s.queue.Clear(i), jobs := s.jobs + [Reload(s.queue.timers[i].name, FromTimer)])
    case GetStep(i, fails) =>
      var Reload(n, origin) := s.jobs[i];
      var read := ReadDisk(s, n, fails);
      s.(files := GetFiles(s.files, n, read),
         jobs := s.jobs[i := AfterGet(n, origin, GetResultOf(s.files, n, read))])
    case PrefetchStep(i, fails) =>
      var n := s.jobs[i].name;
      s.(files := GetFiles(s.files, n, ReadDisk(s, n, fails)), jobs := s.jobs[i := Finished])
    case PublishStep(i) =>
      var Publish(n, _, data, dirty) := s.jobs[i];
      s.(regos := PublishRegos(s.tool, s.regos, n, data, dirty), jobs := s.jobs[i := Finished])
    case ProbeStep(i) => s.(jobs := s.jobs[i := Finished])
  }

  ghost predicate Init(s: State) {
    && s.events == [] && s.files == map[] && s.regos == map[] && s.jobs == [] && s.scan.Unlisted?
    && s.queue.pending == map[] && s.queue.timers == []
  }

  ghost predicate IsPath(states: seq<State>, steps: seq<Step>) {
    && |states| == |steps| + 1
    && forall i :: 0 <= i < |steps| ==> Enabled(states[i], steps[i]) && states[i + 1] == Apply(states[i], steps[i])
  }

  ghost predicate IsRun(states: seq<State>, steps: seq<Step>) {
    IsPath(states, steps) && Init(states[0])
  }

  // ------------------------------------------------------------------------------------------------
  // What is outstanding for a name.

  ghost predicate Mentioned(s: State, n: Name) {
    exists i :: 0 <= i < |s.events| && s.events[i].name == n
  }

  predicate CallbackAt(s: State, n: Name, i: int) {
    0 <= i < |s.jobs| && s.jobs[i].Reload? && s.jobs[i].name == n && !s.jobs[i].origin.FromRequest?
  }

  /** A live timer, or a callback that has not yet done its read. */
  ghost predicate Live(s: State, n: Name) {
    (exists i :: s.queue.LiveAt(n, i)) || (exists i :: CallbackAt(s, n, i))
  }

  predicate Unscanned(s: State, n: Name) {
    s.scan.Unlisted? || n in s.scan.todo
  }

  ghost predicate Busy(s: State, n: Name) {
    Mentioned(s, n) || Live(s, n) || Unscanned(s, n)
  }

  predicate PendingAt(s: State, n: Name, data: Option<Bytes>, dirty: bool, i: int) {
    0 <= i < |s.jobs| && s.jobs[i].Publish? && s.jobs[i].name == n && s.jobs[i].data == data && s.jobs[i].dirty == dirty
  }

  /** Some GetRego call for `n` has read `data` and has not yet published. */
  ghost predicate Pending(s: State, n: Name, data: Option<Bytes>, dirty: bool) {
    exists i :: PendingAt(s, n, data, dirty, i)
  }

  /** Some GetRego call for `n` is between its read and the end of its compile. */
  predicate Compiling(s: State, n: Name) {
    exists i :: 0 <= i < |s.jobs| && s.jobs[i].Publish? && s.jobs[i].name == n
  }

  /** No GetRego call in flight for `n` has read anything new. */
  predicate NoNews(s: State, n: Name) {
    forall i :: 0 <= i < |s.jobs| && s.jobs[i].Publish? && s.jobs[i].name == n ==>
      s.jobs[i].data.Some? && !s.jobs[i].dirty
  }

  /** If `data` compiles, its query is the installed one. */
  predicate Reflects(s: State, n: Name, data: Bytes) {
    var q := Compile(s.tool, n, data);
    q.Some? ==> n in s.regos && s.regos[n] == q.value
  }

  /** Nothing in flight: no event, timer, callback, request or scan. */
  predicate Quiescent(s: State) {
    && s.events == [] && s.scan == Listed([])
    && (forall i :: 0 <= i < |s.jobs| ==> s.jobs[i].Finished?)
    && (forall i :: 0 <= i < |s.queue.timers| ==> s.queue.timers[i].phase in {Stopped, Ran})
  }

  /** What hot reload promises for a name. */
  predicate Converged(s: State, n: Name) {
    if n in s.disk then Reflects(s, n, s.disk[n]) else n !in s.regos
  }

  // ------------------------------------------------------------------------------------------------
  // The three guards.  `StepKeepsSyncedIff` shows that they exclude nothing harmless.

  /** Another live timer, or another unread callback than thread `i`. */
  ghost predicate LiveBut(s: State, n: Name, i: nat) {
    (exists k :: s.queue.LiveAt(n, k)) || (exists k :: k != i && CallbackAt(s, n, k))
  }

  /** Another GetRego call than thread `i` is about to publish `data`. */
  ghost predicate PendingBut(s: State, n: Name, data: Option<Bytes>, dirty: bool, i: nat) {
    exists k :: k != i && PendingAt(s, n, data, dirty, k)
  }

  /** Were the read of thread `i` to fail now (with anything but not-exist), the last thing that is going
      to reload the name would be lost while the name still needs it. */
  ghost predicate HarmfulFault(s: State, i: nat)
    requires i < |s.jobs| && s.jobs[i].Reload?
  {
    var n := s.jobs[i].name;
    && CallbackAt(s, n, i) && !Clean(s.files, n) && !LiveBut(s, n, i)
    && (|| n in s.files
        || (n in s.regos && !Pending(s, n, None, true))
        || (n in s.disk && !Mentioned(s, n) && !Unscanned(s, n)))
  }

  /** The throw-away read picks up bytes that are not what is compiled and that no GetRego in flight
      is about to publish as new: the update flag that would have told GetRego is lost. */
  ghost predicate LosesUpdate(s: State, n: Name) {
    && !Clean(s.files, n) && n in s.disk
    && n in s.regos && !Reflects(s, n, s.disk[n]) && !Pending(s, n, Some(s.disk[n]), true)
  }

  /** Thread `i` would install the query of other bytes than those of the clean entry, or remove its
      query, and no call in flight puts that right. */
  ghost predicate OverwritesClean(s: State, i: nat)
    requires i < |s.jobs| && s.jobs[i].Publish? && Clean(s.files, s.jobs[i].name)
  {
    var Publish(n, _, data, _) := s.jobs[i];
    var current := s.files[n].data;
    && Compile(s.tool, n, current).Some?
    && !PendingBut(s, n, Some(current), true, i)
    && match data
       case Some(read) => Compile(s.tool, n, read) != Compile(s.tool, n, current)
       case None => !Busy(s, n) && !PendingBut(s, n, Some(current), false, i)
  }

  /** A GetRego call changes the policy map on the basis of bytes that the file cache has since replaced,
      or dropped with nothing left to reload the name. */
  ghost predicate HarmfulPublish(s: State, i: nat)
    requires i < |s.jobs| && s.jobs[i].Publish?
  {
    var Publish(n, _, data, dirty) := s.jobs[i];
    && PublishRegos(s.tool, s.regos, n, data, dirty) != s.regos
    && (|| (Clean(s.files, n) && OverwritesClean(s, i))
        || (n !in s.files && data.Some? && !Live(s, n) && !PendingBut(s, n, None, true, i)))
  }

  /** The thread that the step advances works on `n`. */
  predicate WorksOn(s: State, step: Step, n: Name)
    requires Enabled(s, step)
  {
    (step.GetStep? || step.PrefetchStep? || step.PublishStep?) && s.jobs[step.id].name == n
  }

  /** Whatever happens to other names, the step does no harm to `n`. */
  ghost predicate Guarded(s: State, step: Step, n: Name)
    requires Enabled(s, step)
  {
    WorksOn(s, step, n) ==>
      && (step.GetStep? && step.fails ==> !HarmfulFault(s, step.id))
      && (step.PrefetchStep? && !step.fails ==> !LosesUpdate(s, n))
      && (step.PublishStep? ==> !HarmfulPublish(s, step.id))
  }

  ghost predicate GuardedRun(states: seq<State>, steps: seq<Step>, n: Name) {
    && IsRun(states, steps)
    && forall i :: 0 <= i < |steps| ==> Enabled(states[i], steps[i]) && Guarded(states[i], steps[i], n)
  }

  // ------------------------------------------------------------------------------------------------
  // Invariants, name by name.

  /** A clean entry is the disk content unless a notification is still on its way. */
  ghost predicate Coherent(s: State, n: Name) {
    Clean(s.files, n) ==> Mentioned(s, n) || (n in s.disk && s.disk[n] == s.files[n].data)
  }

  ghost predicate DirtyIsLive(s: State, n: Name) {
    n in s.files && s.files[n].dirty ==> Live(s, n)
  }

  /** A clean entry is compiled, about to be compiled as new, or has no policy at all. */
  ghost predicate CleanIsKnown(s: State, n: Name) {
    Clean(s.files, n) ==>
      var data := s.files[n].data;
      n !in s.regos || Reflects(s, n, data) || Pending(s, n, Some(data), true)
  }

  ghost predicate CompiledIsBacked(s: State, n: Name) {
    n in s.regos && n !in s.files ==> Live(s, n) || Pending(s, n, None, true)
  }

  ghost predicate SettledEntry(s: State, n: Name)
    requires Clean(s.files, n)
  {
    var data := s.files[n].data;
    || Reflects(s, n, data)
    || Pending(s, n, Some(data), true)
    || (n !in s.regos && Pending(s, n, Some(data), false))
  }

  ghost predicate BusyOrSettled(s: State, n: Name) {
    || Busy(s, n)
    || (Clean(s.files, n) && SettledEntry(s, n))
    || (n !in s.files && n !in s.disk)
  }

  ghost predicate Synced(s: State, n: Name) {
    Coherent(s, n) && DirtyIsLive(s, n) && CleanIsKnown(s, n) && CompiledIsBacked(s, n) && BusyOrSettled(s, n)
  }

  /** Steps that touch no thread that has read and not yet published. */
  lemma PendingFrame(s: State, s': State, n: Name)
    requires forall i :: 0 <= i < |s.jobs| && s.jobs[i].Publish? ==> i < |s'.jobs| && s'.jobs[i] == s.jobs[i]
    ensures forall data, dirty :: Pending(s, n, data, dirty) ==> Pending(s', n, data, dirty)
  {
    forall data, dirty | Pending(s, n, data, dirty)
      ensures Pending(s', n, data, dirty)
    {
      var i :| PendingAt(s, n, data, dirty, i);
      assert PendingAt(s', n, data, dirty, i);
    }
  }

  lemma MentionedFrame(s: State, s': State, n: Name)
    requires s.events <= s'.events
    ensures Mentioned(s, n) ==> Mentioned(s', n)
  {
    if Mentioned(s, n) {
      var i :| 0 <= i < |s.events| && s.events[i].name == n;
      assert s'.events[i].name == n;
    }
  }

  /** Timers of `n` stay live and callbacks of `n` stay unread. */
  lemma LiveFrame(s: State, s': State, n: Name)
    requires forall i :: s.queue.LiveAt(n, i) ==> s'.queue.LiveAt(n, i)
    requires forall i :: CallbackAt(s, n, i) ==> CallbackAt(s', n, i)
    ensures Live(s, n) ==> Live(s', n)
  {
  }

  /** Steps that only add: time, the disk, notifications and arriving threads. */
  lemma EnvironmentKeepsSynced(s: State, step: Step, n: Name)
    requires Enabled(s, step) && Synced(s, n)
    requires step.Tick? || step.DiskWrite? || step.DiskRemove? || step.Echo? || step.Request? || step.Ask?
    ensures Synced(Apply(s, step), n)
  {
    var s' := Apply(s, step);
    PendingFrame(s, s', n);
    MentionedFrame(s, s', n);
    LiveFrame(s, s', n);
    if (step.DiskWrite? || step.DiskRemove?) && step.name == n {
      assert s'.events[|s.events|].name == n;
    }
  }

  lemma ScanKeepsSynced(s: State, step: Step, n: Name)
    requires Enabled(s, step) && Synced(s, n)
    requires step.ListFolder? || step.ScanNext?
    ensures Synced(Apply(s, step), n)
  {
    var s' := Apply(s, step);
    PendingFrame(s, s', n);
    MentionedFrame(s, s', n);
    LiveFrame(s, s', n);
    if step.ScanNext? {
      assert s.scan.todo[0] == n ==> CallbackAt(s', n, |s.jobs|);
      assert n in s.scan.todo && s.scan.todo[0] != n ==> n in s.scan.todo[1..];
    }
  }

  lemma DeliverKeepsSynced(s: State, n: Name)
    requires Enabled(s, Deliver) && Synced(s, n) && s.queue.Valid()
    ensures Synced(Apply(s, Deliver), n)
  {
    var s', e := Apply(s, Deliver), s.events[0];
    PendingFrame(s, s', n);
    if e.name == n {
      if Requeues(s.files, n, e.op) {
        assert s'.queue.LiveAt(n, |s.queue.timers|);
      } else {
        LiveFrame(s, s', n);
      }
      assert Live(s', n);
    } else {
      LiveFrame(s, s', n);
      if Mentioned(s, n) {
        var i :| 0 <= i < |s.events| && s.events[i].name == n;
        assert s'.events[i - 1].name == n;
      }
    }
  }

  lemma TimerKeepsSynced(s: State, step: Step, n: Name)
    requires Enabled(s, step) && Synced(s, n)
    requires step.FireTimer? || step.RunClosure?
    ensures Synced(Apply(s, step), n)
  {
    var s' := Apply(s, step);
    PendingFrame(s, s', n);
    MentionedFrame(s, s', n);
    if step.RunClosure? && s.queue.timers[step.id].name == n {
      assert CallbackAt(s', n, |s.jobs|);
    } else {
      LiveFrame(s, s', n);
    }
  }

  lemma GetKeepsSynced(s: State, i: nat, n: Name)
    requires Enabled(s, GetStep(i, false)) && Synced(s, n)
    ensures Synced(Apply(s, GetStep(i, false)), n)
  {
    var s', t := Apply(s, GetStep(i, false)), s.jobs[i];
    PendingFrame(s, s', n);
    MentionedFrame(s, s', n);
    if t.name == n {
      var r := GetResultOf(s.files, n, ReadDisk(s, n, false));
      assert PendingAt(s', n, r.data, r.updated, i);
      assert Pending(s', n, r.data, r.updated);
    } else {
      LiveFrame(s, s', n);
    }
  }

  /** What is left of the live timers and callbacks after a failed read. */
  lemma FaultLeavesLive(s: State, i: nat, n: Name)
    requires Enabled(s, GetStep(i, true)) && !Clean(s.files, s.jobs[i].name)
    ensures Live(Apply(s, GetStep(i, true)), n) <==> if CallbackAt(s, n, i) then LiveBut(s, n, i) else Live(s, n)
  {
    var s' := Apply(s, GetStep(i, true));
    assert forall k :: s'.queue.LiveAt(n, k) <==> s.queue.LiveAt(n, k);
    assert forall k :: CallbackAt(s', n, k) <==> k != i && CallbackAt(s, n, k);
  }

  /** A failed read that would have been needed changes nothing else. */
  lemma FaultFrame(s: State, i: nat, n: Name)
    requires Enabled(s, GetStep(i, true)) && !Clean(s.files, s.jobs[i].name)
    ensures var s' := Apply(s, GetStep(i, true));
            && s' == s.(jobs := s'.jobs)
            && forall data, dirty :: Pending(s', n, data, dirty) <==> Pending(s, n, data, dirty)
  {
    var s' := Apply(s, GetStep(i, true));
    PendingFrame(s, s', n);
    PendingFrame(s', s, n);
  }

  /** The first guard is exact. */
  lemma FaultKeepsSyncedIff(s: State, i: nat, n: Name)
    requires Enabled(s, GetStep(i, true)) && Synced(s, n)
    ensures Synced(Apply(s, GetStep(i, true)), n) <==> !(s.jobs[i].name == n && HarmfulFault(s, i))
  {
    var s' := Apply(s, GetStep(i, true));
    if Clean(s.files, s.jobs[i].name) {
      CleanGetKeepsSynced(s, i, n);
    } else {
      FaultFrame(s, i, n);
      FaultLeavesLive(s, i, n);
      assert Mentioned(s', n) <==> Mentioned(s, n);
    }
  }

  /** A clean entry is served without reading, so that the read cannot fail. */
  lemma CleanGetKeepsSynced(s: State, i: nat, n: Name)
    requires Enabled(s, GetStep(i, true)) && Clean(s.files, s.jobs[i].name) && Synced(s, n)
    ensures Synced(Apply(s, GetStep(i, true)), n)
  {
    assert Apply(s, GetStep(i, true)) == Apply(s, GetStep(i, false));
    GetKeepsSynced(s, i, n);
  }

  lemma PrefetchFrame(s: State, i: nat, fails: bool, n: Name)
    requires Enabled(s, PrefetchStep(i, fails))
    ensures var s' := Apply(s, PrefetchStep(i, fails));
            && (Mentioned(s', n) <==> Mentioned(s, n)) && (Live(s', n) <==> Live(s, n))
            && forall data, dirty :: Pending(s', n, data, dirty) <==> Pending(s, n, data, dirty)
  {
    var s' := Apply(s, PrefetchStep(i, fails));
    PendingFrame(s, s', n);
    PendingFrame(s', s, n);
    LiveFrame(s, s', n);
    LiveFrame(s', s, n);
  }

  /** The second guard is exact. */
  lemma PrefetchKeepsSyncedIff(s: State, i: nat, fails: bool, n: Name)
    requires Enabled(s, PrefetchStep(i, fails)) && Synced(s, n)
    ensures Synced(Apply(s, PrefetchStep(i, fails)), n) <==> fails || s.jobs[i].name != n || !LosesUpdate(s, n)
  {
    PrefetchFrame(s, i, fails, n);
  }

  /** Publishing takes one read out of those in flight. */
  lemma PublishFrame(s: State, i: nat, n: Name)
    requires Enabled(s, PublishStep(i))
    ensures var s' := Apply(s, PublishStep(i));
            && (Mentioned(s', n) <==> Mentioned(s, n)) && (Live(s', n) <==> Live(s, n))
            && forall data, dirty :: Pending(s', n, data, dirty) <==> PendingBut(s, n, data, dirty, i)
  {
    var s' := Apply(s, PublishStep(i));
    LiveFrame(s, s', n);
    LiveFrame(s', s, n);
    forall data, dirty
      ensures Pending(s', n, data, dirty) <==> PendingBut(s, n, data, dirty, i)
    {
      assert forall k :: PendingAt(s', n, data, dirty, k) <==> k != i && PendingAt(s, n, data, dirty, k);
    }
  }

  lemma PendingSplit(s: State, i: nat, n: Name, data: Option<Bytes>, dirty: bool)
    requires Enabled(s, PublishStep(i)) && Pending(s, n, data, dirty) && !PendingBut(s, n, data, dirty, i)
    ensures PendingAt(s, n, data, dirty, i)
  {
  }

  /** The third guard is exact. */
  lemma PublishKeepsSyncedIff(s: State, i: nat, n: Name)
    requires Enabled(s, PublishStep(i)) && Synced(s, n)
    ensures Synced(Apply(s, PublishStep(i)), n) <==> !(s.jobs[i].name == n && HarmfulPublish(s, i))
  {
    PublishFrame(s, i, n);
    forall data, dirty | Pending(s, n, data, dirty) && !PendingBut(s, n, data, dirty, i)
      ensures PendingAt(s, n, data, dirty, i)
    {
      PendingSplit(s, i, n, data, dirty);
    }
  }

  /** The guards are exact, name by name: a step keeps `n` in step if and only if it is guarded for `n`. */
  lemma StepKeepsSyncedIff(s: State, step: Step, n: Name)
    requires Enabled(s, step) && Synced(s, n) && s.queue.Valid()
    ensures Synced(Apply(s, step), n) <==> Guarded(s, step, n)
  {
    match step
    case Tick(_) | DiskWrite(_, _) | DiskRemove(_) | Echo(_) | Request(_) | Ask => EnvironmentKeepsSynced(s, step, n);
    case ListFolder(_) | ScanNext => ScanKeepsSynced(s, step, n);
    case Deliver => DeliverKeepsSynced(s, n);
    case FireTimer(_) | RunClosure(_) => TimerKeepsSynced(s, step, n);
    case GetStep(i, fails) =>
      if fails {
        FaultKeepsSyncedIff(s, i, n);
      } else {
        GetKeepsSynced(s, i, n);
      }
    case PrefetchStep(i, fails) => PrefetchKeepsSyncedIff(s, i, fails, n);
    case PublishStep(i) => PublishKeepsSyncedIff(s, i, n);
    case ProbeStep(_) =>
      var s' := Apply(s, step);
      PendingFrame(s, s', n);
      MentionedFrame(s, s', n);
      LiveFrame(s, s', n);
  }
}
