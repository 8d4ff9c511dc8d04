/** The trailing debouncer as a protocol: enqueues, timer wake-ups and flushes interleave
    freely around one table of pending entries. */
module Debounce {
  import opened Common

  datatype Trigger = Webhook | Poll | AutoHeal | Manual

  datatype PendingEntry = PendingEntry(trigger: Trigger, generation: nat)

  /** A spawned timer task. `serial` numbers the enqueue that spawned it; the code never
      reads it, the properties do. */
  datatype Timer = Timer(app: string, generation: nat, serial: nat, deadline: nat)

  /** The last enqueue of an app (kept for the properties only). */
  datatype LastEvent = LastEvent(serial: nat, at: nat, trigger: Trigger)

  /** `timers` are the sleeping tasks in spawn order, `log` the calls made to the worker
      pool, `created` the number of entries ever created in `pending`. */
  datatype State = State(
    pending: map<string, PendingEntry>, timers: seq<Timer>, accepted: nat, fired: nat,
    log: seq<(string, Trigger)>, created: nat, last: map<string, LastEvent>, now: nat)

  const INITIAL := State(map[], [], 0, 0, [], 0, map[], 0)

  datatype Step =
    | Enqueue(app: string, trigger: Trigger, at: nat)
    | Wake(i: nat, at: nat)
    | Flush(order: seq<string>, at: nat)

  function NextGeneration(s: State, app: string): nat
  {
    (if app in s.pending then s.pending[app].generation else 0) + 1
  }

  function Enqueued(window: nat, s: State, app: string, trigger: Trigger, at: nat): State
  {
    var g := NextGeneration(s, app);
    s.(pending := s.pending[app := PendingEntry(trigger, g)],
       timers := s.timers + [Timer(app, g, s.accepted + 1, at + window)],
       accepted := s.accepted + 1,
       created := s.created + (if app in s.pending then 0 else 1),
       last := s.last[app := LastEvent(s.accepted + 1, at, trigger)],
       now := at)
  }

  /** A timer fires exactly when the entry still has its generation. */
  predicate Fires(s: State, t: Timer)
  {
    t.app in s.pending && s.pending[t.app].generation == t.generation
  }

  function Woken(s: State, i: nat, at: nat): State
    requires i < |s.timers|
  {
    var t := s.timers[i];
    var rest := s.(timers := s.timers[..i] + s.timers[i + 1..], now := at);
    if Fires(s, t) then
      rest.(pending := s.pending - {t.app}, fired := s.fired + 1, log := s.log + [(t.app, s.pending[t.app].trigger)])
    else rest
  }

  /** `order` is how the hash map happens to drain. */
  predicate Drains(pending: map<string, PendingEntry>, order: seq<string>)
  {
    && (forall a :: a in order ==> a in pending)
    && (forall a :: a in pending ==> a in order)
    && (forall i, j :: 0 <= i < j < |order| ==> order[i] != order[j])
  }

  function Calls(pending: map<string, PendingEntry>, order: seq<string>): seq<(string, Trigger)>
    requires forall a :: a in order ==> a in pending
  {
    seq(|order|, i requires 0 <= i < |order| => (order[i], pending[order[i]].trigger))
  }

  function Flushed(s: State, order: seq<string>, at: nat): State
    requires Drains(s.pending, order)
  {
    s.(pending := map[], fired := s.fired + |order|, log := s.log + Calls(s.pending, order), now := at)
  }

  /** What may happen next: time never runs back, and no timer wakes early. */
  predicate Can(s: State, step: Step)
  {
    step.at >= s.now &&
    match step
    case Enqueue(_, _, _) => true
    case Wake(i, at) => i < |s.timers| && s.timers[i].deadline <= at
    case Flush(order, _) => Drains(s.pending, order)
  }

  function Do(window: nat, s: State, step: Step): State
    requires Can(s, step)
  {
    match step
    case Enqueue(app, trigger, at) => Enqueued(window, s, app, trigger, at)
    case Wake(i, at) => Woken(s, i, at)
    case Flush(order, at) => Flushed(s, order, at)
  }

  /** The state after some steps from `s`, if each of them could happen. */
  function After(window: nat, s: State, steps: seq<Step>): Option<State>
  {
    if steps == [] then Some(s)
    else
      match After(window, s, steps[..|steps| - 1])
      case None => None
      case Some(t) => if Can(t, steps[|steps| - 1]) then Some(Do(window, t, steps[|steps| - 1])) else None
  }

  // ----- the code -----

  class Debouncer {
    const window: nat
    var pending: map<string, PendingEntry>
    var accepted: nat
    var fired: nat

    /** The runtime's sleeping tasks, the pool's received calls, and the history variables. */
    var timers: seq<Timer>
    var log: seq<(string, Trigger)>
    ghost var created: nat
    ghost var last: map<string, LastEvent>
    ghost var now: nat

    ghost function Current(): State
      reads this
    {
      State(pending, timers, accepted, fired, log, created, last, now)
    }

    constructor (window: nat)
      ensures this.window == window && Current() == INITIAL
    {
      this.window := window;
      pending, accepted, fired, timers, log := map[], 0, 0, [], [];
      created, last, now := 0, map[], 0;
    }

    method EnqueueEvent(app: string, trigger: Trigger, at: nat)
      modifies this
      ensures Current() == Enqueued(window, old(Current()), app, trigger, at)
    {
      accepted := accepted + 1;
      var entry := if app in pending then pending[app] else PendingEntry(trigger, 0);
      if app !in pending {
        created := created + 1;
      }
      entry := entry.(generation := entry.generation + 1);
      entry := entry.(trigger := trigger);
      pending := pending[app := entry];
      timers := timers + [Timer(app, entry.generation, accepted, at + window)];
      last := last[app := LastEvent(accepted, at, trigger)];
      now := at;
    }

    /** The body of a timer task after its sleep. */
    method WakeTimer(i: nat, at: nat)
      requires i < |timers|
      modifies this
      ensures Current() == Woken(old(Current()), i, at)
    {
      var t := timers[i];
      timers := timers[..i] + timers[i + 1..];
      now := at;
      FireIfCurrent(t.app, t.generation);
    }

    method FireIfCurrent(app: string, generation: nat)
      modifies this
      ensures var fires := app in old(pending) && old(pending)[app].generation == generation;
              && pending == (if fires then old(pending) - {app} else old(pending))
              && fired == old(fired) + (if fires then 1 else 0)
              && log == old(log) + (if fires then [(app, old(pending)[app].trigger)] else [])
      ensures timers == old(timers) && accepted == old(accepted)
      ensures created == old(created) && last == old(last) && now == old(now)
    {
      var trigger := None;
      if app in pending && pending[app].generation == generation {
        trigger := Some(pending[app].trigger);
        pending := pending - {app};
      }
      if trigger.Some? {
        fired := fired + 1;
        log := log + [(app, trigger.value)];
      }
    }

    method FlushNow(order: seq<string>, at: nat)
      requires Drains(pending, order)
      modifies this
      ensures Current() == Flushed(old(Current()), order, at)
    {
      var drained := pending;
      pending, now := map[], at;
      for i := 0 to |order|
        invariant fired == old(fired) + i && log == old(log) + Calls(drained, order[..i])
        invariant pending == map[] && timers == old(timers) && accepted == old(accepted)
        invariant created == old(created) && last == old(last) && now == at
      {
        fired := fired + 1;
        assert Calls(drained, order[..i + 1]) == Calls(drained, order[..i]) + [(order[i], drained[order[i]].trigger)];
        log := log + [(order[i], drained[order[i]].trigger)];
      }
      assert order[..|order|] == order;
    }
  }

  // ----- safety over every interleaving -----

  ghost predicate Armed(s: State, app: string)
    requires app in s.pending
  {
    exists i :: 0 <= i < |s.timers| && s.timers[i].app == app && s.timers[i].generation == s.pending[app].generation
  }

  ghost predicate Safe(s: State)
  {
    && s.created == s.fired + |s.pending| && s.created <= s.accepted
    && |s.log| == s.fired
    && (forall app :: app in s.pending ==> Armed(s, app))
    && (forall app :: app in s.pending ==> app in s.last && s.last[app].trigger == s.pending[app].trigger)
  }

  lemma RemoveOne(pending: map<string, PendingEntry>, app: string)
    requires app in pending
    ensures |pending - {app}| == |pending| - 1
  {
    assert (pending - {app}).Keys == pending.Keys - {app};
    assert |pending.Keys| == |pending| && |(pending - {app}).Keys| == |pending - {app}|;
  }

  lemma {:induction false} DrainSize(pending: map<string, PendingEntry>, order: seq<string>)
    requires Drains(pending, order)
    ensures |order| == |pending|
    decreases |order|
  {
    if order == [] {
      assert pending.Keys == {};
    } else {
      var app := order[|order| - 1];
      assert app in pending;
      RemoveOne(pending, app);
      assert Drains(pending - {app}, order[..|order| - 1]);
      DrainSize(pending - {app}, order[..|order| - 1]);
    }
  }

  lemma WakeSafe(s: State, i: nat, at: nat)
    requires Safe(s) && i < |s.timers|
    ensures Safe(Woken(s, i, at))
  {
    var t := s.timers[i];
    var s' := Woken(s, i, at);
    if Fires(s, t) {
      RemoveOne(s.pending, t.app);
    }
    forall app | app in s'.pending ensures Armed(s', app)
    {
      StillArmed(s, i, at, app);
    }
  }

  /** Waking one timer disarms nobody but the entry it fires. */
  lemma StillArmed(s: State, i: nat, at: nat, app: string)
    requires i < |s.timers| && app in Woken(s, i, at).pending && Armed(s, app)
    ensures Armed(Woken(s, i, at), app)
  {
    var s' := Woken(s, i, at);
    var j :| 0 <= j < |s.timers| && s.timers[j].app == app && s.timers[j].generation == s.pending[app].generation;
    var k := if j < i then j else j - 1;
    assert s'.timers[k] == s.timers[j];
  }

  lemma StepSafe(window: nat, s: State, step: Step)
    requires Safe(s) && Can(s, step)
    ensures Safe(Do(window, s, step))
  {
    match step
    case Enqueue(app, trigger, at) =>
      var s' := Enqueued(window, s, app, trigger, at);
      forall a | a in s'.pending ensures Armed(s', a)
      {
        if a == app {
          assert s'.timers[|s.timers|].app == app;
        } else {
          assert Armed(s, a);
          var j :| 0 <= j < |s.timers| && s.timers[j].app == a && s.timers[j].generation == s.pending[a].generation;
          assert s'.timers[j] == s.timers[j];
        }
      }
    case Wake(i, at) => WakeSafe(s, i, at);
    case Flush(order, at) => DrainSize(s.pending, order);
  }

  /** Whatever order enqueues, wake-ups and flushes come in: entries created are fired or
      still pending, never more than the events accepted; every pending entry has its timer
      outstanding; and it carries the trigger of the app's latest event. */
  lemma {:induction false} AlwaysSafe(window: nat, steps: seq<Step>)
    requires After(window, INITIAL, steps).Some?
    ensures Safe(After(window, INITIAL, steps).value)
  {
    if steps != [] {
      var n := |steps| - 1;
      AlwaysSafe(window, steps[..n]);
      StepSafe(window, After(window, INITIAL, steps[..n]).value, steps[n]);
    }
  }

  /** Once every timer has woken nothing is pending: no accepted event is ever lost. */
  lemma NothingLost(window: nat, steps: seq<Step>)
    requires After(window, INITIAL, steps).Some? && After(window, INITIAL, steps).value.timers == []
    ensures var s := After(window, INITIAL, steps).value;
            s.pending == map[] && s.fired == s.created
  {
    AlwaysSafe(window, steps);
    var s := After(window, INITIAL, steps).value;
    forall app ensures app !in s.pending
    {
      assert app in s.pending ==> Armed(s, app);
    }
  }

  /** The last enqueue of an app among some steps. */
  function LatestTrigger(steps: seq<Step>, app: string): Option<Trigger>
  {
    if steps == [] then None
    else
      match steps[|steps| - 1]
      case Enqueue(a, trigger, _) => if a == app then Some(trigger) else LatestTrigger(steps[..|steps| - 1], app)
      case _ => LatestTrigger(steps[..|steps| - 1], app)
  }

  lemma {:induction false} LastIsLatest(window: nat, steps: seq<Step>, app: string)
    requires After(window, INITIAL, steps).Some?
    ensures var s := After(window, INITIAL, steps).value;
            LatestTrigger(steps, app) == if app in s.last then Some(s.last[app].trigger) else None
  {
    if steps != [] {
      LastIsLatest(window, steps[..|steps| - 1], app);
    }
  }

  /** Every call to the pool carries the latest trigger its app was enqueued with. */
  lemma FiresLatestTrigger(window: nat, steps: seq<Step>, step: Step)
    requires After(window, INITIAL, steps).Some? && Can(After(window, INITIAL, steps).value, step)
    ensures var s := After(window, INITIAL, steps).value;
            var s' := Do(window, s, step);
            && s.log <= s'.log
            && forall i :: |s.log| <= i < |s'.log| ==> LatestTrigger(steps, s'.log[i].0) == Some(s'.log[i].1)
  {
    var s := After(window, INITIAL, steps).value;
    var s' := Do(window, s, step);
    AlwaysSafe(window, steps);
    forall i | |s.log| <= i < |s'.log|
      ensures LatestTrigger(steps, s'.log[i].0) == Some(s'.log[i].1)
    {
      LastIsLatest(window, steps, s'.log[i].0);
      if step.Flush? {
        assert step.order[i - |s.log|] in step.order;
      }
    }
  }
}
