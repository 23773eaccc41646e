/**
 Each of the three guards of hot reload is needed: with the other two in force, for every policy name
 and all contents that compile to different queries, there is a run that ends with an outdated policy.
 */
module HotReloadWitnesses {
  import opened Prelude
  import opened Debounce
  import opened FileCache
  import opened RegoCache
  import opened HotReload
  import opened HotReloadTheorems
  import opened HotReloadSerial

  /** Which guard is lifted; Rereads stands for the serial schedule with a re-read of a name that is
      being compiled for the first time. */
  datatype Lifted = ReadFaults | LostUpdates | StalePublishes | Rereads

  /** One GetRego per name at a time and no throw-away re-read of a compiled name. */
  predicate NearlySerial(s: State, step: Step)
    requires Enabled(s, step)
  {
    && (step.GetStep? ==> !CallbackFault(s, step, s.jobs[step.id].name))
    && (step.GetStep? ==> !Compiling(s, s.jobs[step.id].name))
    && (step.PrefetchStep? && !step.fails ==>
          Clean(s.files, s.jobs[step.id].name) || s.jobs[step.id].name !in s.regos)
  }

  /** All guards but one. */
  ghost predicate Allowed(s: State, step: Step, lifted: Lifted)
    requires Enabled(s, step)
  {
    if lifted.Rereads? then NearlySerial(s, step) else
    && (lifted.ReadFaults? || (step.GetStep? && step.fails ==> !HarmfulFault(s, step.id)))
    && (lifted.LostUpdates? || (step.PrefetchStep? && !step.fails ==> !LosesUpdate(s, s.jobs[step.id].name)))
    && (lifted.StalePublishes? || (step.PublishStep? ==> !HarmfulPublish(s, step.id)))
  }

  ghost predicate AllowedPath(states: seq<State>, steps: seq<Step>, lifted: Lifted) {
    && IsPath(states, steps)
    && forall i :: 0 <= i < |steps| ==> Enabled(states[i], steps[i]) && Allowed(states[i], steps[i], lifted)
  }

  ghost predicate Leads(s: State, s': State, lifted: Lifted) {
    exists states, steps :: AllowedPath(states, steps, lifted) && states[0] == s && states[|steps|] == s'
  }

  ghost predicate Reached(s: State, lifted: Lifted) {
    exists s0 :: Init(s0) && Leads(s0, s, lifted)
  }

  /** The file holds `second` and the policy in force is the compile of `first`. */
  ghost predicate Serves(s: State, tool: Toolchain, n: Name, first: Bytes, second: Bytes) {
    && s.tool == tool && n in s.disk && s.disk[n] == second
    && n in s.regos && Some(s.regos[n]) == Compile(tool, n, first)
  }

  lemma LeadsOn(s: State, s': State, s'': State, lifted: Lifted)
    requires Leads(s, s', lifted) && Leads(s', s'', lifted)
    ensures Leads(s, s'', lifted)
  {
    var states, steps :| AllowedPath(states, steps, lifted) && states[0] == s && states[|steps|] == s';
    var states', steps' :| AllowedPath(states', steps', lifted) && states'[0] == s' && states'[|steps'|] == s'';
    var all, both := states + states'[1..], steps + steps';
    forall i | 0 <= i < |both|
      ensures Enabled(all[i], both[i]) && Allowed(all[i], both[i], lifted) && all[i + 1] == Apply(all[i], both[i])
    {
      if i < |steps| {
        assert all[i] == states[i] && all[i + 1] == states[i + 1] && both[i] == steps[i];
      } else {
        var k := i - |steps|;
        assert all[i] == states'[k] && all[i + 1] == states'[k + 1] && both[i] == steps'[k];
      }
    }
    assert AllowedPath(all, both, lifted) && all[0] == s && all[|both|] == s'';
  }

  ghost predicate Takes(s: State, step: Step, s': State, lifted: Lifted) {
    Enabled(s, step) && Allowed(s, step, lifted) && s' == Apply(s, step)
  }

  lemma Three(s0: State, a: Step, s1: State, b: Step, s2: State, c: Step, s3: State, lifted: Lifted)
    requires Takes(s0, a, s1, lifted) && Takes(s1, b, s2, lifted) && Takes(s2, c, s3, lifted)
    ensures Leads(s0, s3, lifted)
  {
    assert AllowedPath([s0, s1, s2, s3], [a, b, c], lifted);
  }

  function Fresh(tool: Toolchain, n: Name, data: Bytes): State {
    State(tool, 0, map[n := data], [], map[], Queue(500, map[], []), map[], [], Unlisted)
  }

  /** After the initial scan: the policy of `data` is installed and nothing is in flight. */
  function Booted(tool: Toolchain, n: Name, data: Bytes, q: Query): State {
    State(tool, 0, map[n := data], [], map[n := File(false, data)], Queue(500, map[], []), map[n := q],
          [Finished], Listed([]))
  }

  function Scanned(tool: Toolchain, n: Name, data: Bytes): State {
    State(tool, 0, map[n := data], [], map[n := File(false, data)], Queue(500, map[], []), map[],
          [Publish(n, FromScan, Some(data), true)], Listed([]))
  }

  lemma BootScan(tool: Toolchain, n: Name, data: Bytes, lifted: Lifted)
    ensures Leads(Fresh(tool, n, data), Scanned(tool, n, data), lifted)
  {
    var s0, s3 := Fresh(tool, n, data), Scanned(tool, n, data);
    var s1 := s0.(scan := Listed([n]));
    var s2 := s1.(scan := Listed([]), jobs := [Reload(n, FromScan)]);
    assert [n][1..] == [];
    assert Takes(s1, ScanNext, s2, lifted);
    assert Takes(s2, GetStep(0, false), s3, lifted);
    Three(s0, ListFolder([n]), s1, ScanNext, s2, GetStep(0, false), s3, lifted);
  }

  lemma BootPublish(tool: Toolchain, n: Name, data: Bytes, lifted: Lifted)
    requires Compile(tool, n, data).Some?
    ensures Leads(Scanned(tool, n, data), Booted(tool, n, data, Compile(tool, n, data).value), lifted)
  {
    var s3, s4 := Scanned(tool, n, data), Booted(tool, n, data, Compile(tool, n, data).value);
    assert Takes(s3, PublishStep(0), s4, lifted);
    Three(s3, PublishStep(0), s4, Tick(0), s4, Tick(0), s4, lifted);
  }

  lemma Boot(tool: Toolchain, n: Name, data: Bytes, lifted: Lifted)
    requires Compile(tool, n, data).Some?
    ensures Leads(Fresh(tool, n, data), Booted(tool, n, data, Compile(tool, n, data).value), lifted)
  {
    BootScan(tool, n, data, lifted);
    BootPublish(tool, n, data, lifted);
    LeadsOn(Fresh(tool, n, data), Scanned(tool, n, data), Booted(tool, n, data, Compile(tool, n, data).value), lifted);
  }

  function Recreated(tool: Toolchain, n: Name, q: Query, second: Bytes): State {
    State(tool, 0, map[n := second], [], map[n := File(false, second)],
          Queue(500, map[n := 1], [Timer(n, 500, Stopped), Timer(n, 500, Armed)]), map[n := q],
          [Finished, Finished], Listed([]))
  }

  function Removed(tool: Toolchain, n: Name, q: Query, second: Bytes): State {
    State(tool, 0, map[n := second], [Event(n, Write)], map[], Queue(500, map[n := 0], [Timer(n, 500, Armed)]),
          map[n := q], [Finished], Listed([]))
  }

  lemma Delete(tool: Toolchain, n: Name, first: Bytes, q: Query, second: Bytes)
    ensures Leads(Booted(tool, n, first, q), Removed(tool, n, q, second), LostUpdates)
  {
    var s0, s3 := Booted(tool, n, first, q), Removed(tool, n, q, second);
    var s1 := s0.(disk := map[], events := [Event(n, Remove)]);
    var s2 := s1.(disk := map[n := second], events := [Event(n, Remove), Event(n, Write)]);
    assert Takes(s0, DiskRemove(n), s1, LostUpdates);
    assert Takes(s1, DiskWrite(n, second), s2, LostUpdates);
    assert Takes(s2, Deliver, s3, LostUpdates);
    Three(s0, DiskRemove(n), s1, DiskWrite(n, second), s2, Deliver, s3, LostUpdates);
  }

  lemma Recreate(tool: Toolchain, n: Name, q: Query, second: Bytes)
    ensures Leads(Removed(tool, n, q, second), Recreated(tool, n, q, second), LostUpdates)
  {
    var s3, s5 := Removed(tool, n, q, second), Recreated(tool, n, q, second);
    var s4 := s5.(files := map[], jobs := [Finished, Prefetch(n)]);
    assert Takes(s3, Deliver, s4, LostUpdates);
    assert Takes(s4, PrefetchStep(1, false), s5, LostUpdates);
    Three(s3, Deliver, s4, PrefetchStep(1, false), s5, Tick(0), s5, LostUpdates);
  }

  /** Delete and re-create a policy file within one debounce delay: the throw-away read swallows the
      update and the old policy stays in force. */
  lemma LostUpdateHappens(tool: Toolchain, n: Name, first: Bytes, second: Bytes)
    requires Compile(tool, n, first).Some? && Compile(tool, n, second).Some?
    requires Compile(tool, n, first) != Compile(tool, n, second)
    ensures exists s :: Reached(s, LostUpdates) && Stuck(s, n) && Serves(s, tool, n, first, second)
  {
    var q := Compile(tool, n, first).value;
    Boot(tool, n, first, LostUpdates);
    Delete(tool, n, first, q, second);
    LeadsOn(Fresh(tool, n, first), Booted(tool, n, first, q), Removed(tool, n, q, second), LostUpdates);
    Recreate(tool, n, q, second);
    LeadsOn(Fresh(tool, n, first), Removed(tool, n, q, second), Recreated(tool, n, q, second), LostUpdates);
    RecreatedIsStuck(tool, n, q, second);
  }

  lemma RecreatedIsStuck(tool: Toolchain, n: Name, q: Query, second: Bytes)
    requires Compile(tool, n, second).Some? && Compile(tool, n, second).value != q
    ensures Stuck(Recreated(tool, n, q, second), n)
  {
  }

  function Empty(tool: Toolchain): State {
    State(tool, 0, map[], [], map[], Queue(500, map[], []), map[], [], Listed([]))
  }

  /** A new file has been noticed; its timer has fired and its callback has read it. */
  function FirstRead(tool: Toolchain, n: Name, data: Bytes): State {
    State(tool, 500, map[n := data], [], map[n := File(false, data)], Queue(500, map[], [Timer(n, 500, Ran)]), map[],
          [Prefetch(n), Publish(n, FromTimer, Some(data), true)], Listed([]))
  }

  function Created(tool: Toolchain, n: Name, data: Bytes): State {
    State(tool, 0, map[n := data], [], map[], Queue(500, map[n := 0], [Timer(n, 500, Armed)]), map[],
          [Prefetch(n)], Listed([]))
  }

  lemma Create(tool: Toolchain, n: Name, data: Bytes)
    ensures Leads(Empty(tool).(scan := Unlisted), Created(tool, n, data), Rereads)
  {
    var s0, s1, s3 := Empty(tool).(scan := Unlisted), Empty(tool), Created(tool, n, data);
    var s2 := s1.(disk := map[n := data], events := [Event(n, Write)]);
    assert Takes(s0, ListFolder([]), s1, Rereads);
    assert Takes(s2, Deliver, s3, Rereads);
    Three(s0, ListFolder([]), s1, DiskWrite(n, data), s2, Deliver, s3, Rereads);
  }

  lemma FirstReload(tool: Toolchain, n: Name, data: Bytes)
    ensures Leads(Created(tool, n, data), FirstRead(tool, n, data), Rereads)
  {
    var s0, s4 := Created(tool, n, data), FirstRead(tool, n, data);
    var s1 := s0.(now := 500);
    var s2 := s1.(queue := Queue(500, map[n := 0], [Timer(n, 500, Fired)]));
    var s3 := s4.(files := map[], jobs := [Prefetch(n), Reload(n, FromTimer)]);
    assert Takes(s1, FireTimer(0), s2, Rereads);
    assert Takes(s2, RunClosure(0), s3, Rereads);
    Three(s0, Tick(500), s1, FireTimer(0), s2, RunClosure(0), s3, Rereads);
    ReadOnce(tool, n, data);
    LeadsOn(s0, s3, s4, Rereads);
  }

  lemma ReadOnce(tool: Toolchain, n: Name, data: Bytes)
    ensures var s := FirstRead(tool, n, data);
            Leads(s.(files := map[], jobs := [Prefetch(n), Reload(n, FromTimer)]), s, Rereads)
  {
    var s4 := FirstRead(tool, n, data);
    var s3 := s4.(files := map[], jobs := [Prefetch(n), Reload(n, FromTimer)]);
    assert Takes(s3, GetStep(1, false), s4, Rereads);
    Three(s3, GetStep(1, false), s4, Tick(0), s4, Tick(0), s4, Rereads);
  }

  /** The file has changed again and the throw-away read has picked that up. */
  function Reread(tool: Toolchain, n: Name, first: Bytes, second: Bytes): State {
    State(tool, 500, map[n := second], [], map[n := File(false, second)],
          Queue(500, map[n := 1], [Timer(n, 500, Ran), Timer(n, 1000, Armed)]), map[],
          [Finished, Publish(n, FromTimer, Some(first), true)], Listed([]))
  }

  lemma ChangesMeanwhile(tool: Toolchain, n: Name, first: Bytes, second: Bytes)
    ensures Leads(FirstRead(tool, n, first), Reread(tool, n, first, second), Rereads)
  {
    var s0, s3 := FirstRead(tool, n, first), Reread(tool, n, first, second);
    var s1 := s0.(disk := map[n := second], events := [Event(n, Write)]);
    var s2 := s3.(files := map[n := File(true, first)], jobs := s0.jobs);
    assert Takes(s1, Deliver, s2, Rereads);
    assert Takes(s2, PrefetchStep(0, false), s3, Rereads);
    Three(s0, DiskWrite(n, second), s1, Deliver, s2, PrefetchStep(0, false), s3, Rereads);
  }

  function FirstCompiled(tool: Toolchain, n: Name, first: Bytes, q: Query, second: Bytes): State {
    Reread(tool, n, first, second).(regos := map[n := q], jobs := [Finished, Finished])
  }

  lemma CompilesOld(tool: Toolchain, n: Name, first: Bytes, second: Bytes)
    requires Compile(tool, n, first).Some?
    ensures var q := Compile(tool, n, first).value;
            Leads(Reread(tool, n, first, second), FirstCompiled(tool, n, first, q, second), Rereads)
  {
    var s0, s1 := Reread(tool, n, first, second), FirstCompiled(tool, n, first, Compile(tool, n, first).value, second);
    assert Takes(s0, PublishStep(1), s1, Rereads);
    Three(s0, PublishStep(1), s1, Tick(0), s1, Tick(0), s1, Rereads);
  }

  lemma FirstCompiledIsStuck(tool: Toolchain, n: Name, first: Bytes, q: Query, second: Bytes)
    requires Compile(tool, n, second).Some? && Compile(tool, n, second).value != q
    ensures Stuck(FirstCompiled(tool, n, first, q, second), n)
  {
  }

  /** It is not enough that no compiled name is re-read and that calls do not overlap: a throw-away
      re-read while the first compile of a new file is under way also ends with a stuck policy. */
  lemma RereadWhileCompilingHappens(tool: Toolchain, n: Name, first: Bytes, second: Bytes)
    requires Compile(tool, n, first).Some? && Compile(tool, n, second).Some?
    requires Compile(tool, n, first) != Compile(tool, n, second)
    ensures exists s :: Reached(s, Rereads) && Stuck(s, n) && Serves(s, tool, n, first, second)
  {
    var s0, s := Empty(tool).(scan := Unlisted), FirstCompiled(tool, n, first, Compile(tool, n, first).value, second);
    Create(tool, n, first);
    FirstReload(tool, n, first);
    LeadsOn(s0, Created(tool, n, first), FirstRead(tool, n, first), Rereads);
    ChangesMeanwhile(tool, n, first, second);
    LeadsOn(s0, FirstRead(tool, n, first), Reread(tool, n, first, second), Rereads);
    CompilesOld(tool, n, first, second);
    LeadsOn(s0, Reread(tool, n, first, second), s, Rereads);
    FirstCompiledIsStuck(tool, n, first, Compile(tool, n, first).value, second);
  }

  /** A request has read a new file. */
  function Requested(tool: Toolchain, n: Name, data: Bytes): State {
    State(tool, 0, map[n := data], [Event(n, Write)], map[n := File(false, data)], Queue(500, map[], []), map[],
          [Publish(n, FromRequest, Some(data), true)], Listed([]))
  }

  lemma RequestReads(tool: Toolchain, n: Name, data: Bytes)
    ensures Leads(Empty(tool).(scan := Unlisted), Requested(tool, n, data), StalePublishes)
  {
    var s0, s1, s4 := Empty(tool).(scan := Unlisted), Empty(tool), Requested(tool, n, data);
    var s2 := s1.(disk := map[n := data], events := [Event(n, Write)]);
    var s3 := s2.(jobs := [Reload(n, FromRequest)]);
    assert Takes(s0, ListFolder([]), s1, StalePublishes);
    Three(s0, ListFolder([]), s1, DiskWrite(n, data), s2, Request(n), s3, StalePublishes);
    assert Takes(s3, GetStep(0, false), s4, StalePublishes);
    Three(s3, GetStep(0, false), s4, Tick(0), s4, Tick(0), s4, StalePublishes);
    LeadsOn(s0, s3, s4, StalePublishes);
  }

  /** The file has been deleted again; the watcher has armed the reload. */
  function Deleted(tool: Toolchain, n: Name, data: Bytes): State {
    State(tool, 0, map[], [], map[], Queue(500, map[n := 1], [Timer(n, 500, Stopped), Timer(n, 500, Armed)]), map[],
          [Publish(n, FromRequest, Some(data), true)], Listed([]))
  }

  lemma RemovalHandled(tool: Toolchain, n: Name, data: Bytes)
    ensures Leads(Requested(tool, n, data), Deleted(tool, n, data), StalePublishes)
  {
    var s0, s3 := Requested(tool, n, data), Deleted(tool, n, data);
    var s1 := s0.(disk := map[], events := [Event(n, Write), Event(n, Remove)]);
    var s2 := s1.(events := [Event(n, Remove)], files := map[n := File(true, data)],
                  queue := Queue(500, map[n := 0], [Timer(n, 500, Armed)]));
    assert Takes(s0, DiskRemove(n), s1, StalePublishes);
    assert Takes(s1, Deliver, s2, StalePublishes);
    assert Takes(s2, Deliver, s3, StalePublishes);
    Three(s0, DiskRemove(n), s1, Deliver, s2, Deliver, s3, StalePublishes);
  }

  function Overtaking(tool: Toolchain, n: Name, data: Bytes): State {
    State(tool, 500, map[], [], map[], Queue(500, map[], [Timer(n, 500, Stopped), Timer(n, 500, Ran)]), map[],
          [Publish(n, FromRequest, Some(data), true), Reload(n, FromTimer)], Listed([]))
  }

  lemma TimerRuns(tool: Toolchain, n: Name, data: Bytes)
    ensures Leads(Deleted(tool, n, data), Overtaking(tool, n, data), StalePublishes)
  {
    var s0, s3 := Deleted(tool, n, data), Overtaking(tool, n, data);
    var s1 := s0.(now := 500);
    var s2 := s1.(queue := Queue(500, map[n := 1], [Timer(n, 500, Stopped), Timer(n, 500, Fired)]));
    assert Takes(s1, FireTimer(1), s2, StalePublishes);
    assert Takes(s2, RunClosure(1), s3, StalePublishes);
    Three(s0, Tick(500), s1, FireTimer(1), s2, RunClosure(1), s3, StalePublishes);
  }

  function Revived(tool: Toolchain, n: Name, data: Bytes, q: Query): State {
    Overtaking(tool, n, data).(regos := map[n := q], jobs := [Finished, Finished])
  }

  lemma ReloadDeletes(tool: Toolchain, n: Name, data: Bytes)
    requires Compile(tool, n, data).Some?
    ensures var q := Compile(tool, n, data).value;
            Leads(Overtaking(tool, n, data), Revived(tool, n, data, q), StalePublishes)
  {
    var s0, s3 := Overtaking(tool, n, data), Revived(tool, n, data, Compile(tool, n, data).value);
    var s1 := s0.(jobs := [Publish(n, FromRequest, Some(data), true), Publish(n, FromTimer, None, true)]);
    var s2 := s0.(jobs := [Publish(n, FromRequest, Some(data), true), Finished]);
    assert Takes(s0, GetStep(1, false), s1, StalePublishes);
    assert Takes(s1, PublishStep(1), s2, StalePublishes);
    RequestPublishes(tool, n, data, s2);
    Three(s0, GetStep(1, false), s1, PublishStep(1), s2, PublishStep(0), s3, StalePublishes);
  }

  lemma RequestPublishes(tool: Toolchain, n: Name, data: Bytes, s: State)
    requires Compile(tool, n, data).Some?
    requires s == Overtaking(tool, n, data).(jobs := [Publish(n, FromRequest, Some(data), true), Finished])
    ensures Takes(s, PublishStep(0), Revived(tool, n, data, Compile(tool, n, data).value), StalePublishes)
  {
  }

  /** Two overlapping GetRego calls: the slower one re-installs the policy of a deleted file. */
  lemma StalePublishHappens(tool: Toolchain, n: Name, data: Bytes)
    requires Compile(tool, n, data).Some?
    ensures exists s :: Reached(s, StalePublishes) && Quiescent(s) && s.tool == tool
                        && n !in s.disk && n in s.regos && s.regos[n] == Compile(tool, n, data).value
  {
    var s0, s := Empty(tool).(scan := Unlisted), Revived(tool, n, data, Compile(tool, n, data).value);
    RequestReads(tool, n, data);
    RemovalHandled(tool, n, data);
    LeadsOn(s0, Requested(tool, n, data), Deleted(tool, n, data), StalePublishes);
    TimerRuns(tool, n, data);
    LeadsOn(s0, Deleted(tool, n, data), Overtaking(tool, n, data), StalePublishes);
    ReloadDeletes(tool, n, data);
    LeadsOn(s0, Overtaking(tool, n, data), s, StalePublishes);
    assert Quiescent(s);
  }

  /** A dirty entry with nothing left to reload it. */
  ghost predicate Stranded(s: State, n: Name) {
    && n in s.files && s.files[n].dirty && !Live(s, n) && !Unscanned(s, n)
    && (forall i :: 0 <= i < |s.events| && s.events[i].name == n ==> s.events[i].op.Write?)
    && (forall i :: 0 <= i < |s.jobs| && (s.jobs[i].Reload? || s.jobs[i].Publish? || s.jobs[i].Prefetch?) ==>
          s.jobs[i].name != n)
  }

  function Unread(tool: Toolchain, n: Name, first: Bytes, q: Query, second: Bytes): State {
    State(tool, 500, map[n := second], [], map[n := File(true, first)], Queue(500, map[], [Timer(n, 500, Ran)]),
          map[n := q], [Finished, Finished], Listed([]))
  }

  lemma ReadFails(tool: Toolchain, n: Name, first: Bytes, q: Query, second: Bytes)
    ensures Leads(Booted(tool, n, first, q), Unread(tool, n, first, q, second), ReadFaults)
  {
    var s0 := Booted(tool, n, first, q);
    var s1 := s0.(disk := map[n := second], events := [Event(n, Write)]);
    var s2 := s1.(events := [], files := map[n := File(true, first)],
                  queue := Queue(500, map[n := 0], [Timer(n, 500, Armed)]));
    var s3 := s2.(now := 500);
    Three(s0, DiskWrite(n, second), s1, Deliver, s2, Tick(500), s3, ReadFaults);
    var s4 := s3.(queue := Queue(500, map[n := 0], [Timer(n, 500, Fired)]));
    var s6 := Unread(tool, n, first, q, second);
    var s5 := s6.(jobs := [Finished, Reload(n, FromTimer)]);
    Three(s3, FireTimer(0), s4, RunClosure(0), s5, GetStep(1, true), s6, ReadFaults);
    LeadsOn(s0, s3, s6, ReadFaults);
  }

  /** One failed read of a changed file strands it. */
  lemma ReadFaultStrands(tool: Toolchain, n: Name, first: Bytes, second: Bytes)
    requires Compile(tool, n, first).Some? && Compile(tool, n, second).Some?
    requires Compile(tool, n, first) != Compile(tool, n, second)
    ensures exists s :: Reached(s, ReadFaults) && Quiescent(s) && Stranded(s, n) && Serves(s, tool, n, first, second)
  {
    var q := Compile(tool, n, first).value;
    var s := Unread(tool, n, first, q, second);
    Boot(tool, n, first, ReadFaults);
    ReadFails(tool, n, first, q, second);
    LeadsOn(Fresh(tool, n, first), Booted(tool, n, first, q), s, ReadFaults);
    UnreadIsStranded(tool, n, first, q, second);
  }

  lemma UnreadIsStranded(tool: Toolchain, n: Name, first: Bytes, q: Query, second: Bytes)
    ensures var s := Unread(tool, n, first, q, second); Quiescent(s) && Stranded(s, n)
  {
  }

  lemma StrandedDeliver(s: State, n: Name)
    requires Enabled(s, Deliver) && Stranded(s, n)
    ensures Stranded(Apply(s, Deliver), n)
  {
    var s', e := Apply(s, Deliver), s.events[0];
    assert e.name == n ==> !Requeues(s.files, n, e.op) && !Spawns(s.files, n, e.op);
    forall i
      ensures !s'.queue.LiveAt(n, i)
    {
      assert !s.queue.LiveAt(n, i);
    }
    forall i
      ensures !CallbackAt(s', n, i)
    {
      assert !CallbackAt(s, n, i);
    }
    assert forall i :: 0 <= i < |s'.events| ==> s'.events[i] == s.events[i + 1];
  }

  /** A request for the name, or a notification that it was removed. */
  predicate Rescues(step: Step, n: Name) {
    step == Request(n) || step == DiskRemove(n) || step == Echo(Event(n, Remove))
  }

  /** All other steps arm no timer and start no thread for `n`. */
  lemma StrandedStep(s: State, step: Step, n: Name)
    requires Enabled(s, step) && Stranded(s, n) && !Rescues(step, n)
    ensures Stranded(Apply(s, step), n) && Installed(Apply(s, step), n) == Installed(s, n)
  {
    StepInstalls(s, step, n);
    if step.Deliver? {
      StrandedDeliver(s, n);
    } else {
      var s' := Apply(s, step);
      assert step.RunClosure? ==> s.queue.LiveAt(s.queue.timers[step.id].name, step.id);
      assert step.ScanNext? ==> s.scan.todo[0] in s.scan.todo;
      forall i
        ensures !s'.queue.LiveAt(n, i) && !CallbackAt(s', n, i)
      {
        assert !s.queue.LiveAt(n, i) && !CallbackAt(s, n, i);
      }
    }
  }

  /** However often the file is written again, a stranded name is not reloaded: its policy changes
      only after a request for it, or after its removal. */
  lemma {:induction false} StrandedForever(states: seq<State>, steps: seq<Step>, n: Name)
    requires IsPath(states, steps) && Stranded(states[0], n)
    requires forall i :: 0 <= i < |steps| ==> !Rescues(steps[i], n)
    ensures Stranded(states[|steps|], n) && Installed(states[|steps|], n) == Installed(states[0], n)
  {
    if steps != [] {
      var k := |steps| - 1;
      StrandedForever(states[..k + 1], steps[..k], n);
      StrandedStep(states[k], steps[k], n);
    }
  }
}
