/**
 A schedule that a reader can check without looking at contents, and convergence under it while requests
 keep coming: for the name concerned, at most one GetRego call at a time, no throw-away re-read while it is
 compiled or being compiled, and no failed read by a callback.
 */
module HotReloadSerial {
  import opened Prelude
  import opened Debounce
  import opened FileCache
  import opened RegoCache
  import opened HotReload
  import opened HotReloadTheorems

  /** A callback's read of `n` really happens and fails with anything but not-exist. */
  predicate CallbackFault(s: State, step: Step, n: Name)
    requires Enabled(s, step)
  {
    step.GetStep? && step.fails && CallbackAt(s, n, step.id) && !Clean(s.files, n)
  }

  predicate Serial(s: State, step: Step, n: Name)
    requires Enabled(s, step)
  {
    WorksOn(s, step, n) ==>
      && !CallbackFault(s, step, n)
      && (step.GetStep? ==> !Compiling(s, n))
      && (step.PrefetchStep? && !step.fails ==> Clean(s.files, n) || (n !in s.regos && !Compiling(s, n)))
  }

  ghost predicate SerialRun(states: seq<State>, steps: seq<Step>, n: Name) {
    && IsRun(states, steps)
    && forall i :: 0 <= i < |steps| ==> Enabled(states[i], steps[i]) && Serial(states[i], steps[i], n)
  }

  // ------------------------------------------------------------------------------------------------
  // The schedule implies the guards.

  /** What a call in flight has read is still what the file cache holds, unless a reload is coming. */
  ghost predicate InFlightIsFresh(s: State, n: Name) {
    forall i :: 0 <= i < |s.jobs| && s.jobs[i].Publish? && s.jobs[i].name == n ==>
      && (Clean(s.files, n) ==> s.jobs[i].data == Some(s.files[n].data))
      && (n !in s.files && s.jobs[i].data.Some? ==> Live(s, n))
  }

  lemma DeliverKeepsFresh(s: State, n: Name)
    requires Enabled(s, Deliver) && InFlightIsFresh(s, n) && DirtyIsLive(s, n) && s.queue.Valid()
    ensures InFlightIsFresh(Apply(s, Deliver), n)
  {
    var s' := Apply(s, Deliver);
    if s.events[0].name == n && Requeues(s.files, n, s.events[0].op) {
      assert s'.queue.LiveAt(n, |s.queue.timers|);
    } else {
      LiveFrame(s, s', n);
    }
  }

  lemma GetKeepsFresh(s: State, step: Step, n: Name)
    requires Enabled(s, step) && step.GetStep? && Serial(s, step, n) && InFlightIsFresh(s, n)
    ensures InFlightIsFresh(Apply(s, step), n)
  {
    if s.jobs[step.id].name != n {
      LiveFrame(s, Apply(s, step), n);
    }
  }

  lemma SerialKeepsFresh(s: State, step: Step, n: Name)
    requires Enabled(s, step) && Serial(s, step, n) && InFlightIsFresh(s, n) && DirtyIsLive(s, n) && s.queue.Valid()
    ensures InFlightIsFresh(Apply(s, step), n)
  {
    var s' := Apply(s, step);
    if step.Deliver? {
      DeliverKeepsFresh(s, n);
    } else if step.GetStep? {
      GetKeepsFresh(s, step, n);
    } else if step.RunClosure? && s.queue.timers[step.id].name == n {
      assert CallbackAt(s', n, |s.jobs|);
    } else {
      LiveFrame(s, s', n);
      forall i | 0 <= i < |s'.jobs| && s'.jobs[i].Publish? && s'.jobs[i].name == n
        ensures i < |s.jobs| && s.jobs[i] == s'.jobs[i] && Compiling(s, n)
      {
      }
    }
  }

  lemma {:induction false} SerialIsFresh(states: seq<State>, steps: seq<Step>, n: Name)
    requires SerialRun(states, steps, n)
    ensures InFlightIsFresh(states[|steps|], n)
  {
    if steps != [] {
      var k := |steps| - 1;
      SerialIsFresh(states[..k + 1], steps[..k], n);
      DirtyIsNeverStranded(states[..k + 1], steps[..k], n);
      CoherentAlways(states[..k + 1], steps[..k], n);
      assert Enabled(states[k], steps[k]) && Serial(states[k], steps[k], n);
      SerialKeepsFresh(states[k], steps[k], n);
    }
  }

  lemma SerialIsGuarded(states: seq<State>, steps: seq<Step>, n: Name)
    requires SerialRun(states, steps, n)
    ensures GuardedRun(states, steps, n)
  {
    forall i | 0 <= i < |steps|
      ensures Enabled(states[i], steps[i]) && Guarded(states[i], steps[i], n)
    {
      assert Enabled(states[i], steps[i]) && Serial(states[i], steps[i], n);
      if steps[i].PublishStep? {
        SerialIsFresh(states[..i + 1], steps[..i], n);
      }
    }
  }

  // ------------------------------------------------------------------------------------------------
  // Requests in flight.

  predicate PublishesAt(s: State, n: Name, i: int) {
    0 <= i < |s.jobs| && s.jobs[i].Publish? && s.jobs[i].name == n
  }

  ghost predicate OneCall(s: State, n: Name) {
    forall i, j :: PublishesAt(s, n, i) && PublishesAt(s, n, j) ==> i == j
  }

  /** A request that has read `n` has nothing new to tell, unless a reload is coming. */
  ghost predicate RequestsHaveNoNews(s: State, n: Name) {
    forall i :: PublishesAt(s, n, i) && s.jobs[i].origin.FromRequest? ==>
      || Busy(s, n)
      || (s.jobs[i].data.None? && n !in s.regos)
      || (s.jobs[i].data.Some? && !s.jobs[i].dirty
          && (n in s.regos || Compile(s.tool, n, s.jobs[i].data.value).None?))
  }

  /** Before the folder is listed, nothing is known of a file that is absent and was not mentioned. */
  ghost predicate UnknownBeforeListing(s: State, n: Name) {
    s.scan.Unlisted? && n !in s.disk && !Mentioned(s, n) ==>
      && n !in s.files && n !in s.regos
      && forall i :: PublishesAt(s, n, i) ==> s.jobs[i].data.None?
  }

  ghost predicate Served(s: State, n: Name) {
    OneCall(s, n) && RequestsHaveNoNews(s, n) && UnknownBeforeListing(s, n)
  }

  lemma SerialKeepsOneCall(s: State, step: Step, n: Name)
    requires Enabled(s, step) && Serial(s, step, n) && OneCall(s, n)
    ensures OneCall(Apply(s, step), n)
  {
    var s' := Apply(s, step);
    forall i, j | PublishesAt(s', n, i) && PublishesAt(s', n, j)
      ensures i == j
    {
      if !step.GetStep? {
        assert PublishesAt(s, n, i) && PublishesAt(s, n, j);
      } else {
        assert i != step.id ==> PublishesAt(s, n, i);
        assert j != step.id ==> PublishesAt(s, n, j);
      }
    }
  }

  lemma StepKeepsUnknown(s: State, step: Step, n: Name)
    requires Enabled(s, step) && UnknownBeforeListing(s, n)
    ensures UnknownBeforeListing(Apply(s, step), n)
  {
    var s' := Apply(s, step);
    assert step == DiskRemove(n) ==> s'.events[|s.events|].name == n;
    if s'.scan.Unlisted? && n !in s'.disk && !Mentioned(s', n) {
      MentionedFrame(s, s', n);
      forall i | PublishesAt(s', n, i)
        ensures s'.jobs[i].data.None?
      {
        assert i < |s.jobs| && s.jobs[i] == s'.jobs[i] ==> PublishesAt(s, n, i);
      }
    }
  }

  /** What a request reads when nothing is outstanding. */
  lemma QuietReadHasNoNews(s: State, n: Name)
    requires Synced(s, n) && !Busy(s, n) && !Compiling(s, n)
    ensures var got := GetResultOf(s.files, n, ReadDisk(s, n, false));
            && got.Got? && (got.data.None? ==> n !in s.regos)
            && (got.data.Some? ==> !got.updated && (n in s.regos || Compile(s.tool, n, got.data.value).None?))
  {
    assert forall data, dirty, i :: !PendingAt(s, n, data, dirty, i);
  }

  lemma StaysBusy(s: State, step: Step, n: Name)
    requires Enabled(s, step) && DirtyIsLive(s, n) && s.queue.Valid() && Busy(s, n)
    requires !step.ListFolder? && !(step.GetStep? && CallbackAt(s, n, step.id))
    ensures Busy(Apply(s, step), n)
  {
    var s' := Apply(s, step);
    if step.Deliver? {
      DeliverStaysBusy(s, n);
    } else {
      MentionedFrame(s, s', n);
      if step.RunClosure? && s.queue.timers[step.id].name == n {
        assert CallbackAt(s', n, |s.jobs|);
      } else {
        LiveFrame(s, s', n);
      }
      if step.ScanNext? {
        assert s.scan.todo[0] == n ==> CallbackAt(s', n, |s.jobs|);
        assert n in s.scan.todo && s.scan.todo[0] != n ==> n in s.scan.todo[1..];
      }
    }
  }

  lemma DeliverStaysBusy(s: State, n: Name)
    requires Enabled(s, Deliver) && DirtyIsLive(s, n) && s.queue.Valid() && Busy(s, n)
    ensures Busy(Apply(s, Deliver), n)
  {
    var s', e := Apply(s, Deliver), s.events[0];
    if e.name == n {
      if Requeues(s.files, n, e.op) {
        assert s'.queue.LiveAt(n, |s.queue.timers|);
      } else {
        LiveFrame(s, s', n);
      }
    } else {
      LiveFrame(s, s', n);
      if Mentioned(s, n) {
        var i :| 0 <= i < |s.events| && s.events[i].name == n;
        assert s'.events[i - 1].name == n;
      }
    }
  }

  /** A request has just read. */
  lemma ReadKeepsNoNews(s: State, step: Step, n: Name)
    requires Enabled(s, step) && step.GetStep? && WorksOn(s, step, n) && Serial(s, step, n)
    requires Synced(s, n) && s.queue.Valid()
    ensures RequestsHaveNoNews(Apply(s, step), n)
  {
    var s' := Apply(s, step);
    assert forall i :: i != step.id ==> !PublishesAt(s', n, i) by {
      assert forall i :: i != step.id && PublishesAt(s', n, i) ==> PublishesAt(s, n, i);
    }
    if PublishesAt(s', n, step.id) && s'.jobs[step.id].origin.FromRequest? {
      if Busy(s, n) {
        StaysBusy(s, step, n);
      } else {
        QuietReadHasNoNews(s, n);
      }
    }
  }

  lemma ListingKeepsNoNews(s: State, step: Step, n: Name)
    requires Enabled(s, step) && step.ListFolder? && Served(s, n)
    ensures RequestsHaveNoNews(Apply(s, step), n)
  {
    var s' := Apply(s, step);
    MentionedFrame(s, s', n);
    assert forall i :: PublishesAt(s', n, i) <==> PublishesAt(s, n, i);
  }

  lemma SerialKeepsNoNews(s: State, step: Step, n: Name)
    requires Enabled(s, step) && Serial(s, step, n) && Synced(s, n) && s.queue.Valid() && Served(s, n)
    ensures RequestsHaveNoNews(Apply(s, step), n)
  {
    var s' := Apply(s, step);
    if step.GetStep? && WorksOn(s, step, n) {
      ReadKeepsNoNews(s, step, n);
    } else if step.ListFolder? {
      ListingKeepsNoNews(s, step, n);
    } else {
      if Busy(s, n) {
        StaysBusy(s, step, n);
      }
      forall i | PublishesAt(s', n, i)
        ensures PublishesAt(s, n, i) && s'.jobs[i] == s.jobs[i] && (n in s'.regos <==> n in s.regos)
      {
        CallStays(s, step, n, i);
      }
    }
  }

  /** A call that is still compiling after the step was so before, and nobody else published. */
  lemma CallStays(s: State, step: Step, n: Name, i: int)
    requires Enabled(s, step) && OneCall(s, n) && !(step.GetStep? && WorksOn(s, step, n))
    requires PublishesAt(Apply(s, step), n, i)
    ensures PublishesAt(s, n, i) && Apply(s, step).jobs[i] == s.jobs[i]
    ensures n in Apply(s, step).regos <==> n in s.regos
  {
    assert PublishesAt(s, n, i);
    assert step.PublishStep? ==> step.id != i && !PublishesAt(s, n, step.id);
  }

  lemma {:induction false} ServedAlways(states: seq<State>, steps: seq<Step>, n: Name)
    requires SerialRun(states, steps, n)
    ensures Served(states[|steps|], n)
  {
    if steps != [] {
      var k := |steps| - 1;
      var before, done := states[..k + 1], steps[..k];
      ServedAlways(before, done, n);
      SerialIsGuarded(before, done, n);
      SyncedAlways(before, done, n);
      CoherentAlways(before, done, n);
      assert Enabled(states[k], steps[k]) && Serial(states[k], steps[k], n);
      SerialKeepsOneCall(states[k], steps[k], n);
      StepKeepsUnknown(states[k], steps[k], n);
      SerialKeepsNoNews(states[k], steps[k], n);
    }
  }

  /** An event, a timer, a callback that has not finished, or the scan is outstanding for `n`. */
  ghost predicate Reloading(s: State, n: Name) {
    Busy(s, n) || exists i :: PublishesAt(s, n, i) && !s.jobs[i].origin.FromRequest?
  }

  lemma ServedIsConverged(s: State, n: Name)
    requires Synced(s, n) && Served(s, n) && !Reloading(s, n)
    ensures Converged(s, n)
  {
    forall data, dirty | Pending(s, n, data, dirty)
      ensures if data.None? then n !in s.regos else !dirty && (n in s.regos || Compile(s.tool, n, data.value).None?)
    {
      var i :| PendingAt(s, n, data, dirty, i);
      assert PublishesAt(s, n, i);
    }
  }

  /** Under the serial schedule, while any number of requests (for this name too), probes and throw-away
      reads are in flight and whatever happens to other names: whenever no event, timer, callback or scan is
      outstanding for `n`, its policy is the compile of its disk content, if that compiles, and gone if the
      file is gone; otherwise it is that of the last successful compile. */
  lemma SerialConvergence(states: seq<State>, steps: seq<Step>, n: Name)
    requires SerialRun(states, steps, n) && !Reloading(states[|steps|], n)
    ensures Converged(states[|steps|], n)
    ensures n in states[|steps|].regos ==> LastCompile(Effects(states, steps, n), states[|steps|].regos[n])
  {
    SerialIsGuarded(states, steps, n);
    Convergence(states, steps, n);
    SyncedAlways(states, steps, n);
    ServedAlways(states, steps, n);
    ServedIsConverged(states[|steps|], n);
  }
}
