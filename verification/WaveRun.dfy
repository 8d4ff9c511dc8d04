/** Executing waves: apply every change of a wave, then poll health until it is Healthy or
    the wave's time is up. The applier, the health checker and the clock are arbitrary. */
module WaveRun {
  import opened Common
  import opened Manifests
  import opened ManifestBodies
  import opened Plan
  import opened Waves

  datatype HealthStatusCode = Healthy | Progressing | Suspended | Unknown | Missing | Degraded

  datatype Config = Config(perWaveTimeout: nat, pollInterval: nat)

  /** The outside world, by number of the external action: whether an apply succeeds, what
      a poll answers, and how long the action takes beyond any requested sleep. */
  datatype World = World(applyOk: nat -> bool, health: nat -> HealthStatusCode, delay: nat -> nat)

  ghost predicate MovesAfter(world: World, n: nat)
  {
    exists m: nat :: m >= n && world.delay(m) > 0
  }

  /** Waiting passes time: polls are an interval apart, or the clock never stands still for good. */
  ghost predicate TimePasses(cfg: Config, world: World)
  {
    cfg.pollInterval > 0 || forall n: nat :: MovesAfter(world, n)
  }

  /** Everything a run depends on besides its waves. */
  datatype Setting = Setting(cfg: Config, world: World, desired: Bodies, live: Bodies)

  /** Where a run stands: actions so far, and the current time. */
  datatype Clock = Clock(actions: nat, now: nat) {
    function After(world: World, extra: nat): Clock
    {
      Clock(actions + 1, now + extra + world.delay(actions))
    }
  }

  /** One call to the outside: its action number, the time of its answer, and the answer. */
  datatype Event =
    | Applied(action: nat, at: nat, wave: int, entry: PlanEntry, manifest: Option<Body>, ok: bool)
    | Polled(action: nat, at: nat, wave: int, resources: seq<ResourceRef>, status: HealthStatusCode)

  datatype ExecError =
    | ApplyFailed(wave: int, resource: ResourceRef)
    | WaveTimeout(wave: int, lastStatus: HealthStatusCode)

  // ----- what one wave may do -----

  /** The body handed to the applier: desired's for an apply, live's for a delete. */
  function ManifestFor(desired: Bodies, live: Bodies, e: PlanEntry): Option<Body>
  {
    match e.action
    case Apply => if e.resource in desired then Some(desired[e.resource]) else None
    case Delete => if e.resource in live then Some(live[e.resource]) else None
    case NoOp => None
  }

  function Refs(es: seq<PlanEntry>): seq<ResourceRef>
  {
    seq(|es|, i requires 0 <= i < |es| => es[i].resource)
  }

  /** The clock when the last of `events` has been answered. */
  function ClockAfter(start: Clock, events: seq<Event>): Clock
  {
    if events == [] then start
    else
      var last := events[|events| - 1];
      Clock(last.action + 1, last.at)
  }

  /** The clock when the next call is made: between two polls the executor sleeps one
      interval. */
  function ClockBefore(st: Setting, start: Clock, events: seq<Event>, polling: bool): Clock
  {
    var c := ClockAfter(start, events);
    if polling && events != [] && events[|events| - 1].Polled? then c.After(st.world, st.cfg.pollInterval) else c
  }

  /** The call was made at `c`, and its answer is the applier's or the health checker's. */
  predicate Answered(world: World, c: Clock, e: Event)
  {
    && e.action == c.actions && e.at == c.After(world, 0).now
    && match e
       case Applied(action, _, _, _, _, ok) => ok == world.applyOk(action)
       case Polled(action, _, _, _, status) => status == world.health(action)
  }

  /** Every event is what the outside world answered at that moment. */
  ghost predicate Genuine(st: Setting, start: Clock, events: seq<Event>)
  {
    forall i :: 0 <= i < |events| ==>
      Answered(st.world, ClockBefore(st, start, events[..i], events[i].Polled?), events[i])
  }

  /** The `i`-th call of a wave: first its changes in order, then polls of all of them. */
  predicate Asked(g: WaveGroup, st: Setting, i: nat, e: Event)
  {
    var changed := Changed(g.entries);
    && e.wave == g.wave
    && if i < |changed| then
         e.Applied? && e.entry == changed[i] && e.manifest == ManifestFor(st.desired, st.live, changed[i])
       else e.Polled? && e.resources == Refs(changed)
  }

  ghost predicate AllAsked(g: WaveGroup, st: Setting, events: seq<Event>)
  {
    forall i :: 0 <= i < |events| ==> Asked(g, st, i, events[i])
  }

  /** After this answer the wave goes on. */
  predicate GoesOn(e: Event, deadline: nat)
  {
    match e
    case Applied(_, _, _, _, _, ok) => ok
    case Polled(_, at, _, _, status) => status != Healthy && at < deadline
  }

  ghost predicate AllGoOn(events: seq<Event>, n: nat, deadline: nat)
    requires n <= |events|
  {
    forall i :: 0 <= i < n ==> GoesOn(events[i], deadline)
  }

  /** The last answer ends the wave, and none before it did. */
  ghost predicate EndsAt(events: seq<Event>, deadline: nat)
  {
    events != [] && AllGoOn(events, |events| - 1, deadline) && !GoesOn(events[|events| - 1], deadline)
  }

  /** The time limit counts from the answer to the last apply. */
  function Deadline(g: WaveGroup, st: Setting, start: Clock, events: seq<Event>): nat
  {
    var n := |Changed(g.entries)|;
    if n <= |events| then ClockAfter(start, events[..n]).now + st.cfg.perWaveTimeout else 0
  }

  /** Everything that happened in one wave, and the clock when it started. */
  datatype WaveLog = WaveLog(start: Clock, events: seq<Event>)

  function End(log: WaveLog): Clock
  {
    ClockAfter(log.start, log.events)
  }

  /** A wave run to its end. */
  ghost predicate IsWaveRun(g: WaveGroup, st: Setting, log: WaveLog)
  {
    && Genuine(st, log.start, log.events)
    && AllAsked(g, st, log.events)
    && if Changed(g.entries) == [] then log.events == []
       else EndsAt(log.events, Deadline(g, st, log.start, log.events))
  }

  /** How a wave ended: with an error, unless nothing was to do or the last poll was Healthy. */
  function WaveError(events: seq<Event>): Option<ExecError>
  {
    if events == [] then None
    else
      match events[|events| - 1]
      case Applied(_, _, wave, entry, _, ok) => if ok then None else Some(ApplyFailed(wave, entry.resource))
      case Polled(_, _, wave, _, status) => if status == Healthy then None else Some(WaveTimeout(wave, status))
  }

  const BEGIN := Clock(0, 0)

  /** Each wave starts when the one before it has ended. */
  ghost predicate Chained(logs: seq<WaveLog>)
  {
    && (logs != [] ==> logs[0].start == BEGIN)
    && forall k :: 0 < k < |logs| ==> logs[k].start == End(logs[k - 1])
  }

  ghost predicate AllRan(waves: seq<WaveGroup>, st: Setting, logs: seq<WaveLog>)
    requires |logs| <= |waves|
  {
    forall k :: 0 <= k < |logs| ==> IsWaveRun(waves[k], st, logs[k])
  }

  ghost predicate NoErrors(logs: seq<WaveLog>, n: nat)
    requires n <= |logs|
  {
    forall k :: 0 <= k < n ==> WaveError(logs[k].events) == None
  }

  function WaveNumbers(waves: seq<WaveGroup>): seq<int>
  {
    seq(|waves|, i requires 0 <= i < |waves| => waves[i].wave)
  }

  /** A whole run in one setting: the waves in order, each run to its end and all but the
      last without an error; the outcome says how the last one ended. */
  ghost predicate IsRun(waves: seq<WaveGroup>, st: Setting, logs: seq<WaveLog>, outcome: Result<seq<int>, ExecError>)
  {
    && |logs| <= |waves|
    && Chained(logs) && AllRan(waves, st, logs)
    && match outcome
       case Ok(completed) =>
         && |logs| == |waves| && NoErrors(logs, |logs|)
         && completed == WaveNumbers(waves)
       case Err(err) =>
         logs != [] && NoErrors(logs, |logs| - 1) && WaveError(logs[|logs| - 1].events) == Some(err)
  }

  // ----- the executor -----

  lemma GenuineSnoc(st: Setting, start: Clock, events: seq<Event>, e: Event)
    requires Genuine(st, start, events)
    requires Answered(st.world, ClockBefore(st, start, events, e.Polled?), e)
    ensures Genuine(st, start, events + [e])
    ensures ClockAfter(start, events + [e]) == ClockBefore(st, start, events, e.Polled?).After(st.world, 0)
  {
    var all := events + [e];
    assert all[..|events|] == events;
    forall i | 0 <= i < |events|
      ensures Answered(st.world, ClockBefore(st, start, all[..i], all[i].Polled?), all[i])
    {
      assert all[..i] == events[..i];
    }
  }

  /** The first `n` changes have been applied. */
  ghost predicate AppliedSome(g: WaveGroup, st: Setting, start: Clock, events: seq<Event>, n: nat)
  {
    && |events| == n <= |Changed(g.entries)|
    && AllAsked(g, st, events) && AllGoOn(events, n, 0)
    && Genuine(st, start, events)
  }

  lemma AppliesAreNotPolls(g: WaveGroup, st: Setting, start: Clock, events: seq<Event>, n: nat)
    requires AppliedSome(g, st, start, events, n) && n > 0
    ensures events[n - 1].Applied?
  {
    assert Asked(g, st, n - 1, events[n - 1]);
  }

  lemma ApplyAnswered(g: WaveGroup, st: Setting, start: Clock, events: seq<Event>, n: nat, c: Clock, e: Event)
    requires AppliedSome(g, st, start, events, n) && n < |Changed(g.entries)| && c == ClockAfter(start, events)
    requires var entry := Changed(g.entries)[n];
             e == Applied(c.actions, c.After(st.world, 0).now, g.wave, entry, ManifestFor(st.desired, st.live, entry),
                          st.world.applyOk(c.actions))
    ensures if e.ok then AppliedSome(g, st, start, events + [e], n + 1) else FailedAtLast(g, st, start, events + [e])
    ensures ClockAfter(start, events + [e]) == c.After(st.world, 0)
  {
    var more := events + [e];
    GenuineSnoc(st, start, events, e);
    forall i | 0 <= i <= n ensures Asked(g, st, i, more[i]) && (i < n ==> GoesOn(more[i], 0)) {
      assert more[i] == if i < n then events[i] else e;
    }
  }

  /** The applies so far, the last of which failed. */
  ghost predicate FailedAtLast(g: WaveGroup, st: Setting, start: Clock, events: seq<Event>)
  {
    && |events| <= |Changed(g.entries)| && AllAsked(g, st, events) && EndsAt(events, 0)
    && Genuine(st, start, events)
  }

  /** Run every changed entry through the applier; stop at the first failure. */
  method ApplyChanged(g: WaveGroup, changed: seq<PlanEntry>, st: Setting, clock: Clock)
    returns (events: seq<Event>, failed: Option<ResourceRef>, clock': Clock)
    requires changed == Changed(g.entries)
    ensures clock' == ClockAfter(clock, events)
    ensures failed.None? ==> AppliedSome(g, st, clock, events, |changed|)
    ensures failed.Some? ==> FailedAtLast(g, st, clock, events)
    ensures failed.Some? ==> WaveError(events) == Some(ApplyFailed(g.wave, failed.value))
  {
    events, failed, clock' := [], None, clock;
    for i := 0 to |changed|
      invariant AppliedSome(g, st, clock, events, i) && clock' == ClockAfter(clock, events)
    {
      var e := changed[i];
      var ok := st.world.applyOk(clock'.actions);
      var event := Applied(clock'.actions, clock'.After(st.world, 0).now, g.wave, e,
                           ManifestFor(st.desired, st.live, e), ok);
      ApplyAnswered(g, st, clock, events, i, clock', event);
      events := events + [event];
      clock' := clock'.After(st.world, 0);
      if !ok {
        return events, Some(e.resource), clock';
      }
    }
  }

  ghost predicate PollsOf(wave: int, refs: seq<ResourceRef>, polls: seq<Event>)
  {
    forall i :: 0 <= i < |polls| ==> polls[i].Polled? && polls[i].wave == wave && polls[i].resources == refs
  }

  lemma MorePolls(wave: int, refs: seq<ResourceRef>, polls: seq<Event>, poll: Event, deadline: nat)
    requires PollsOf(wave, refs, polls) && AllGoOn(polls, |polls|, deadline)
    requires poll.Polled? && poll.wave == wave && poll.resources == refs
    ensures PollsOf(wave, refs, polls + [poll])
    ensures GoesOn(poll, deadline) ==> AllGoOn(polls + [poll], |polls| + 1, deadline)
    ensures !GoesOn(poll, deadline) ==> EndsAt(polls + [poll], deadline)
  {
  }

  /** Between two polls: nothing so far ended the wave, and `clock` is when the next is made. */
  ghost predicate Polling(wave: int, refs: seq<ResourceRef>, st: Setting, start: Clock, applies: seq<Event>,
                          polls: seq<Event>, deadline: nat, clock: Clock)
  {
    && PollsOf(wave, refs, polls) && AllGoOn(polls, |polls|, deadline)
    && Genuine(st, start, applies + polls)
    && clock == ClockBefore(st, start, applies + polls, true)
  }

  /** After the last poll. */
  ghost predicate PollingOver(wave: int, refs: seq<ResourceRef>, st: Setting, start: Clock, applies: seq<Event>,
                          polls: seq<Event>, deadline: nat, clock: Clock)
  {
    && PollsOf(wave, refs, polls) && EndsAt(polls, deadline)
    && Genuine(st, start, applies + polls)
    && clock == ClockAfter(start, applies + polls)
  }

  lemma PollAnswered(wave: int, refs: seq<ResourceRef>, st: Setting, start: Clock, applies: seq<Event>,
                     polls: seq<Event>, deadline: nat, clock: Clock, poll: Event)
    requires Polling(wave, refs, st, start, applies, polls, deadline, clock)
    requires poll == Polled(clock.actions, clock.After(st.world, 0).now, wave, refs, st.world.health(clock.actions))
    ensures var after := clock.After(st.world, 0);
            if GoesOn(poll, deadline) then
              Polling(wave, refs, st, start, applies, polls + [poll], deadline,
                      after.After(st.world, st.cfg.pollInterval))
            else PollingOver(wave, refs, st, start, applies, polls + [poll], deadline, after)
  {
    GenuineSnoc(st, start, applies + polls, poll);
    MorePolls(wave, refs, polls, poll, deadline);
    assert applies + polls + [poll] == applies + (polls + [poll]);
  }

  /** Without an interval between polls, action `later` is one that takes time. */
  ghost predicate DelayAt(st: Setting, later: nat, actions: nat)
  {
    later >= actions && (st.cfg.pollInterval == 0 ==> st.world.delay(later) > 0)
  }

  lemma NextDelay(st: Setting, actions: nat) returns (later: nat)
    requires TimePasses(st.cfg, st.world)
    ensures DelayAt(st, later, actions)
  {
    if st.cfg.pollInterval > 0 {
      later := actions;
    } else {
      assert MovesAfter(st.world, actions);
      later :| later >= actions && st.world.delay(later) > 0;
    }
  }

  /** After a poll and a sleep it is later, or the next such action is nearer. */
  lemma Waited(st: Setting, later: nat, clock: Clock) returns (later': nat)
    requires TimePasses(st.cfg, st.world) && DelayAt(st, later, clock.actions)
    ensures var next := clock.After(st.world, 0).After(st.world, st.cfg.pollInterval);
            && DelayAt(st, later', next.actions)
            && (next.now > clock.now || (next.now == clock.now && later' - next.actions < later - clock.actions))
  {
    if later < clock.actions + 2 {
      later' := NextDelay(st, clock.actions + 2);
    } else {
      later' := later;
    }
  }

  /** Poll until Healthy or until the deadline has passed, sleeping in between. */
  method AwaitHealthy(wave: int, refs: seq<ResourceRef>, st: Setting, clock: Clock,
                      ghost start: Clock, ghost applies: seq<Event>)
    returns (polls: seq<Event>, healthy: bool, clock': Clock)
    requires TimePasses(st.cfg, st.world)
    requires applies != [] ==> applies[|applies| - 1].Applied?
    requires Genuine(st, start, applies) && clock == ClockAfter(start, applies)
    ensures PollingOver(wave, refs, st, start, applies, polls, clock.now + st.cfg.perWaveTimeout, clock')
    ensures healthy <==> polls != [] && polls[|polls| - 1].Polled? && polls[|polls| - 1].status == Healthy
  {
    var deadline := clock.now + st.cfg.perWaveTimeout;
    polls, healthy, clock' := [], false, clock;
    assert applies + polls == applies;
    ghost var later: nat := NextDelay(st, clock'.actions);
    while true
      invariant Polling(wave, refs, st, start, applies, polls, deadline, clock')
      invariant DelayAt(st, later, clock'.actions)
      decreases deadline + st.cfg.pollInterval - clock'.now, later - clock'.actions
    {
      ghost var head := clock';
      var status := st.world.health(clock'.actions);
      var poll := Polled(clock'.actions, clock'.After(st.world, 0).now, wave, refs, status);
      PollAnswered(wave, refs, st, start, applies, polls, deadline, clock', poll);
      polls := polls + [poll];
      clock' := clock'.After(st.world, 0);
      if status == Healthy {
        return polls, true, clock';
      }
      if clock'.now >= deadline {
        return polls, false, clock';
      }
      clock' := clock'.After(st.world, st.cfg.pollInterval);
      later := Waited(st, later, head);
    }
  }

  /** The first waves went through without an error, and `clock` is when the next starts. */
  ghost predicate RanSome(waves: seq<WaveGroup>, st: Setting, logs: seq<WaveLog>, clock: Clock)
  {
    && |logs| <= |waves|
    && Chained(logs) && AllRan(waves, st, logs) && NoErrors(logs, |logs|)
    && clock == if logs == [] then BEGIN else End(logs[|logs| - 1])
  }

  /** The waves one after the other, stopping at the first error. */
  method ExecuteWaves(waves: seq<WaveGroup>, cfg: Config, world: World,
                      desired: seq<Manifest<Body>>, live: seq<Manifest<Body>>)
    returns (outcome: Result<seq<int>, ExecError>, logs: seq<WaveLog>)
    requires TimePasses(cfg, world)
    ensures IsRun(waves, Setting(cfg, world, IndexOf(desired), IndexOf(live)), logs, outcome)
  {
    var desiredIdx := BuildIndex(desired);
    var liveIdx := BuildIndex(live);
    var st := Setting(cfg, world, desiredIdx, liveIdx);
    var clock := BEGIN;
    var completed := [];
    logs := [];
    for k := 0 to |waves|
      invariant |logs| == k && completed == WaveNumbers(waves[..k])
      invariant RanSome(waves, st, logs, clock)
    {
      var events, error, clock';
      events, error, clock' := ExecuteWave(waves[k], st, clock);
      OneMoreWave(waves, st, logs, clock, events);
      logs := logs + [WaveLog(clock, events)];
      clock := clock';
      if error.Some? {
        return Err(error.value), logs;
      }
      completed := completed + [waves[k].wave];
      TakeSnoc(waves, k);
    }
    assert waves[..|waves|] == waves;
    outcome := Ok(completed);
  }

  lemma OneMoreWave(waves: seq<WaveGroup>, st: Setting, logs: seq<WaveLog>, clock: Clock, events: seq<Event>)
    requires |logs| < |waves| && RanSome(waves, st, logs, clock)
    requires IsWaveRun(waves[|logs|], st, WaveLog(clock, events))
    ensures var more := logs + [WaveLog(clock, events)];
            match WaveError(events)
            case None => RanSome(waves, st, more, ClockAfter(clock, events))
            case Some(err) => IsRun(waves, st, more, Err(err))
  {
    var log := WaveLog(clock, events);
    var more := logs + [log];
    forall k | 0 <= k < |more| ensures IsWaveRun(waves[k], st, more[k]) {
      assert more[k] == if k < |logs| then logs[k] else log;
    }
    LongerChain(logs, log);
  }

  lemma LongerChain(logs: seq<WaveLog>, log: WaveLog)
    requires Chained(logs) && log.start == if logs == [] then BEGIN else End(logs[|logs| - 1])
    ensures Chained(logs + [log])
  {
    var more := logs + [log];
    forall k | 0 < k < |more| ensures more[k].start == End(more[k - 1]) {
      assert more[k - 1] == logs[k - 1];
    }
  }

  /** One wave: filter, apply, gate. */
  method ExecuteWave(g: WaveGroup, st: Setting, clock: Clock)
    returns (events: seq<Event>, error: Option<ExecError>, clock': Clock)
    requires TimePasses(st.cfg, st.world)
    ensures IsWaveRun(g, st, WaveLog(clock, events))
    ensures error == WaveError(events) && clock' == ClockAfter(clock, events)
  {
    var changed := Changed(g.entries);
    var failed;
    events, failed, clock' := ApplyChanged(g, changed, st, clock);
    if failed.Some? {
      FailedRun(g, st, clock, events);
      return events, Some(ApplyFailed(g.wave, failed.value)), clock';
    }
    if changed == [] {
      return events, None, clock';
    }
    ghost var applies := events;
    AppliesAreNotPolls(g, st, clock, applies, |changed|);
    var polls, healthy;
    polls, healthy, clock' := AwaitHealthy(g.wave, Refs(changed), st, clock', clock, applies);
    GatedRun(g, st, clock, applies, polls);
    GatedError(g.wave, applies, polls, healthy);
    events := events + polls;
    error := if healthy then None else Some(WaveTimeout(g.wave, polls[|polls| - 1].status));
  }

  lemma AllApplied(g: WaveGroup, st: Setting, events: seq<Event>)
    requires |events| <= |Changed(g.entries)| && AllAsked(g, st, events)
    ensures forall i :: 0 <= i < |events| ==> events[i].Applied?
  {
    forall i | 0 <= i < |events| ensures events[i].Applied? {
      assert Asked(g, st, i, events[i]);
    }
  }

  lemma DeadlineUnused(events: seq<Event>, n: nat, deadline: nat)
    requires n <= |events| && forall i :: 0 <= i < |events| ==> events[i].Applied?
    ensures AllGoOn(events, n, 0) ==> AllGoOn(events, n, deadline)
    ensures n < |events| ==> (GoesOn(events[n], deadline) <==> GoesOn(events[n], 0))
  {
    forall i | 0 <= i < |events| ensures GoesOn(events[i], deadline) <==> GoesOn(events[i], 0) {
    }
  }

  /** Applies up to a failing one are a whole wave. */
  lemma FailedRun(g: WaveGroup, st: Setting, start: Clock, events: seq<Event>)
    requires FailedAtLast(g, st, start, events)
    ensures IsWaveRun(g, st, WaveLog(start, events))
  {
    AllApplied(g, st, events);
    DeadlineUnused(events, |events| - 1, Deadline(g, st, start, events));
  }

  /** The last poll decides how a gated wave ends. */
  lemma GatedError(wave: int, applies: seq<Event>, polls: seq<Event>, healthy: bool)
    requires polls != [] && polls[|polls| - 1].Polled? && polls[|polls| - 1].wave == wave
    requires healthy <==> polls[|polls| - 1].status == Healthy
    ensures WaveError(applies + polls) == if healthy then None else Some(WaveTimeout(wave, polls[|polls| - 1].status))
  {
    assert (applies + polls)[|applies + polls| - 1] == polls[|polls| - 1];
  }

  /** Applies that all went through, followed by the polls, are a whole wave. */
  lemma GatedRun(g: WaveGroup, st: Setting, start: Clock, applies: seq<Event>, polls: seq<Event>)
    requires Changed(g.entries) != [] && AppliedSome(g, st, start, applies, |Changed(g.entries)|)
    requires PollingOver(g.wave, Refs(Changed(g.entries)), st, start, applies, polls,
                         ClockAfter(start, applies).now + st.cfg.perWaveTimeout, ClockAfter(start, applies + polls))
    ensures IsWaveRun(g, st, WaveLog(start, applies + polls))
  {
    var events, n := applies + polls, |applies|;
    assert events[..n] == applies && n == |Changed(g.entries)|;
    var deadline := Deadline(g, st, start, events);
    AllApplied(g, st, applies);
    DeadlineUnused(applies, n, deadline);
    forall i | 0 <= i < |events|
      ensures Asked(g, st, i, events[i])
      ensures i < |events| - 1 ==> GoesOn(events[i], deadline)
    {
      GatedEvent(g, st, applies, polls, deadline, i);
    }
    assert events[|events| - 1] == polls[|polls| - 1];
  }

  lemma GatedEvent(g: WaveGroup, st: Setting, applies: seq<Event>, polls: seq<Event>, deadline: nat, i: nat)
    requires |applies| == |Changed(g.entries)| && AllAsked(g, st, applies) && AllGoOn(applies, |applies|, deadline)
    requires PollsOf(g.wave, Refs(Changed(g.entries)), polls) && EndsAt(polls, deadline) && i < |applies + polls|
    ensures Asked(g, st, i, (applies + polls)[i])
    ensures i < |applies + polls| - 1 ==> GoesOn((applies + polls)[i], deadline)
  {
    if i < |applies| {
      assert (applies + polls)[i] == applies[i];
    } else {
      assert (applies + polls)[i] == polls[i - |applies|];
    }
  }
}
