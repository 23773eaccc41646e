/**
 The debouncer of pkg/filecache/callbacks.go.

 A timer is created by `Add` and leaves the armed phase in one of two ways: a later `Add` for the same
 name stops it, or it fires and its closure goroutine starts.  The closure first deletes the pending
 entry of its *name* (not of itself) under the queue lock and then runs the callback.
 */
module Debounce {
  type Name = string

  /** Fired: the closure has started and has not yet taken the queue lock.  Ran: it has released that
      lock and its callback has begun. */
  datatype Phase = Armed | Stopped | Fired | Ran

  datatype Timer = Timer(name: Name, due: nat, phase: Phase)

  datatype Queue = Queue(delay: nat, pending: map<Name, nat>, timers: seq<Timer>) {
    /** Every pending entry points at a timer of its own name. */
    ghost predicate Valid() {
      forall n :: n in pending ==> pending[n] < |timers| && timers[pending[n]].name == n
    }

    predicate LiveAt(n: Name, i: int) {
      0 <= i < |timers| && timers[i].name == n && timers[i].phase in {Armed, Fired}
    }

    function SetPhase(i: nat, phase: Phase): Queue
      requires i < |timers|
    {
      this.(timers := timers[i := timers[i].(phase := phase)])
    }

    function StopPending(n: Name): Queue {
      if n in pending && pending[n] < |timers| && timers[pending[n]].phase.Armed?
      then SetPhase(pending[n], Stopped)
      else this
    }

    function Add(n: Name, now: nat): Queue {
      var q := StopPending(n);
      q.(pending := q.pending[n := |q.timers|], timers := q.timers + [Timer(n, now + delay, Armed)])
    }

    /** The runtime starts the closure of an armed timer. */
    function Fire(i: nat): Queue
      requires i < |timers|
    {
      SetPhase(i, Fired)
    }

    /** The locked part of the closure. */
    function Clear(i: nat): Queue
      requires i < |timers|
    {
      SetPhase(i, Ran).(pending := pending - {timers[i].name})
    }
  }

  /** The object form: the two code paths that touch `pending`, each under the queue mutex. */
  class DelayedCallbacks {
    const delay: nat
    var pending: map<Name, nat>
    var timers: seq<Timer>

    ghost function Contents(): Queue
      reads this
    {
      Queue(delay, pending, timers)
    }

    constructor (delay: nat)
      ensures Contents() == Queue(delay, map[], [])
      ensures Contents().Valid()
    {
      this.delay, pending, timers := delay, map[], [];
    }

    method Add(n: Name, now: nat)
      requires Contents().Valid()
      modifies this
      ensures Contents() == old(Contents()).Add(n, now)
      ensures Contents().Valid()
    {
      if n in pending {
        var old_timer := timers[pending[n]];
        if old_timer.phase == Armed {
          timers := timers[pending[n] := old_timer.(phase := Stopped)];
        }
      }
      pending := pending[n := |timers|];
      timers := timers + [Timer(n, now + delay, Armed)];
    }

    method Closure(i: nat) returns (callback: Name)
      requires Contents().Valid() && i < |timers| && timers[i].phase == Fired
      modifies this
      ensures Contents() == old(Contents()).Clear(i)
      ensures Contents().Valid()
      ensures callback == old(timers[i].name)
    {
      callback := timers[i].name;
      pending := pending - {callback};
      timers := timers[i := timers[i].(phase := Ran)];
    }
  }
}
