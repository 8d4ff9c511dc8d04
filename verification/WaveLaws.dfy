/** What every run of the executor keeps: the order of applies, the health gate, and how a
    run, finished or aborted, is followed by the next plan. */
module WaveLaws {
  import opened Common
  import opened Manifests
  import opened Ordering
  import opened Plan
  import opened Waves
  import opened WaveRun

  /** The events of a run in the order they happened. */
  function Trace(logs: seq<WaveLog>): seq<Event>
  {
    if logs == [] then [] else Trace(logs[..|logs| - 1]) + logs[|logs| - 1].events
  }

  /** The entries handed to the applier, accepted or not. */
  function Issued(events: seq<Event>): seq<PlanEntry>
  {
    if events == [] then []
    else
      Issued(events[..|events| - 1]) +
      (if events[|events| - 1].Applied? then [events[|events| - 1].entry] else [])
  }

  /** The entries the applier accepted when it was asked. */
  function Accepted(world: World, events: seq<Event>): seq<PlanEntry>
  {
    if events == [] then []
    else
      var e := events[|events| - 1];
      Accepted(world, events[..|events| - 1]) + (if e.Applied? && world.applyOk(e.action) then [e.entry] else [])
  }

  lemma {:induction false} IssuedAppend(world: World, a: seq<Event>, b: seq<Event>)
    ensures Issued(a + b) == Issued(a) + Issued(b)
    ensures Accepted(world, a + b) == Accepted(world, a) + Accepted(world, b)
  {
    if b == [] {
      assert a + b == a;
    } else {
      IssuedAppend(world, a, b[..|b| - 1]);
      assert (a + b)[..|a + b| - 1] == a + b[..|b| - 1];
      assert (a + b)[|a + b| - 1] == b[|b| - 1];
    }
  }

  // ----- the events of one wave -----

  /** The first `n` elements, or all of them. */
  function Take<T>(s: seq<T>, n: nat): seq<T>
  {
    if n <= |s| then s[..n] else s
  }

  lemma TakeOneMore<T>(s: seq<T>, n: nat)
    ensures Take(s, n + 1) == Take(s, n) + (if n < |s| then [s[n]] else [])
  {
  }

  lemma {:induction false} IssuedUpTo(g: WaveGroup, st: Setting, events: seq<Event>, i: nat)
    requires AllAsked(g, st, events) && i <= |events|
    ensures Issued(events[..i]) == Take(Changed(g.entries), i)
  {
    if i > 0 {
      IssuedUpTo(g, st, events, i - 1);
      assert Asked(g, st, i - 1, events[i - 1]);
      assert events[..i][..i - 1] == events[..i - 1];
      TakeOneMore(Changed(g.entries), i - 1);
    }
  }

  lemma AnswerOf(st: Setting, start: Clock, events: seq<Event>, i: nat)
    requires Genuine(st, start, events) && i < |events|
    ensures Answered(st.world, ClockBefore(st, start, events[..i], events[i].Polled?), events[i])
  {
  }

  /** While nothing has failed, what was issued was accepted. */
  lemma {:induction false} AcceptedUpTo(st: Setting, start: Clock, events: seq<Event>, deadline: nat, i: nat)
    requires Genuine(st, start, events) && i <= |events| && AllGoOn(events, i, deadline)
    ensures Accepted(st.world, events[..i]) == Issued(events[..i])
  {
    if i > 0 {
      AcceptedUpTo(st, start, events, deadline, i - 1);
      AnswerOf(st, start, events, i - 1);
      assert GoesOn(events[i - 1], deadline);
      assert events[..i][..i - 1] == events[..i - 1];
    }
  }

  /** One wave issues a prefix of its changes, the applier accepts a prefix of them, and a
      wave without an error has had all of them accepted. */
  lemma WaveIssues(g: WaveGroup, st: Setting, log: WaveLog)
    requires IsWaveRun(g, st, log)
    ensures Issued(log.events) <= Changed(g.entries) && Accepted(st.world, log.events) <= Changed(g.entries)
    ensures WaveError(log.events) == None ==>
              Issued(log.events) == Changed(g.entries) == Accepted(st.world, log.events)
  {
    var events := log.events;
    if events != [] {
      var n := |events| - 1;
      IssuedUpTo(g, st, events, n);
      AcceptedUpTo(st, log.start, events, Deadline(g, st, log.start, events), n);
      AnswerOf(st, log.start, events, n);
      assert Asked(g, st, n, events[n]);
      LastIssued(g, st, events);
    }
  }

  lemma LastIssued(g: WaveGroup, st: Setting, events: seq<Event>)
    requires events != []
    requires var n, changed := |events| - 1, Changed(g.entries);
             && Asked(g, st, n, events[n])
             && (events[n].Applied? ==> events[n].ok == st.world.applyOk(events[n].action))
             && Issued(events[..n]) == Take(changed, n)
             && Accepted(st.world, events[..n]) == Take(changed, n)
    ensures Issued(events) <= Changed(g.entries) && Accepted(st.world, events) <= Changed(g.entries)
    ensures events[|events| - 1].Polled? ==> Issued(events) == Changed(g.entries) == Accepted(st.world, events)
  {
    TakeOneMore(Changed(g.entries), |events| - 1);
  }

  /** The setting leaves nothing open: a wave started at one moment has one possible course. */
  lemma WaveRunIsUnique(g: WaveGroup, st: Setting, a: WaveLog, b: WaveLog)
    requires IsWaveRun(g, st, a) && IsWaveRun(g, st, b) && a.start == b.start
    ensures a == b
  {
    if Changed(g.entries) != [] {
      SameSoFar(g, st, a.start, a.events, b.events, Min(|a.events|, |b.events|));
      assert a.events[..|a.events|] == a.events && b.events[..|b.events|] == b.events;
      if |a.events| < |b.events| {
        StopsAlike(g, st, a.start, a.events, b.events);
      } else if |b.events| < |a.events| {
        StopsAlike(g, st, a.start, b.events, a.events);
      }
    }
  }

  lemma {:induction false} SameSoFar(g: WaveGroup, st: Setting, start: Clock, a: seq<Event>, b: seq<Event>, i: nat)
    requires Genuine(st, start, a) && AllAsked(g, st, a) && Genuine(st, start, b) && AllAsked(g, st, b)
    requires i <= |a| && i <= |b|
    ensures a[..i] == b[..i]
  {
    if i > 0 {
      SameSoFar(g, st, start, a, b, i - 1);
      AnswerOf(st, start, a, i - 1);
      AnswerOf(st, start, b, i - 1);
      SameAnswer(g, st, ClockBefore(st, start, a[..i - 1], a[i - 1].Polled?), i - 1, a[i - 1], b[i - 1]);
      SamePrefix(a, b, i - 1);
    }
  }

  /** The same call at the same moment gets the same answer. */
  lemma SameAnswer(g: WaveGroup, st: Setting, c: Clock, i: nat, a: Event, b: Event)
    requires Asked(g, st, i, a) && Asked(g, st, i, b)
    requires Answered(st.world, c, a) && (a.Polled? == b.Polled? ==> Answered(st.world, c, b))
    ensures a == b
  {
  }

  /** No course of a wave stops where another goes on. */
  lemma StopsAlike(g: WaveGroup, st: Setting, start: Clock, a: seq<Event>, b: seq<Event>)
    requires AllAsked(g, st, a) && EndsAt(a, Deadline(g, st, start, a)) && |a| < |b| && a == b[..|a|]
    ensures !EndsAt(b, Deadline(g, st, start, b))
  {
    var n, m := |a| - 1, |Changed(g.entries)|;
    assert Asked(g, st, n, a[n]) && a[n] == b[n];
    if m <= |a| {
      assert a[..m] == b[..m];
    }
    assert !GoesOn(b[n], Deadline(g, st, start, b));
  }

  /** Two runs of the same waves in the same setting are one run: the applier's and the
      health checker's answers leave the executor no choice. */
  lemma RunIsUnique(waves: seq<WaveGroup>, st: Setting, logs: seq<WaveLog>, outcome: Result<seq<int>, ExecError>,
                    logs': seq<WaveLog>, outcome': Result<seq<int>, ExecError>)
    requires IsRun(waves, st, logs, outcome) && IsRun(waves, st, logs', outcome')
    ensures logs == logs' && outcome == outcome'
  {
    LogsAreUnique(waves, st, logs, outcome, logs', outcome');
  }

  lemma LogsAreUnique(waves: seq<WaveGroup>, st: Setting, logs: seq<WaveLog>, outcome: Result<seq<int>, ExecError>,
                      logs': seq<WaveLog>, outcome': Result<seq<int>, ExecError>)
    requires IsRun(waves, st, logs, outcome) && IsRun(waves, st, logs', outcome')
    ensures logs == logs'
  {
    SameLogsSoFar(waves, st, logs, logs', Min(|logs|, |logs'|));
    assert logs[..|logs|] == logs && logs'[..|logs'|] == logs';
    if |logs| < |logs'| {
      NoneStopsEarly(waves, st, logs, outcome, logs');
    } else if |logs'| < |logs| {
      NoneStopsEarly(waves, st, logs', outcome', logs);
    }
  }

  lemma NoneStopsEarly(waves: seq<WaveGroup>, st: Setting, logs: seq<WaveLog>, outcome: Result<seq<int>, ExecError>,
                       logs': seq<WaveLog>)
    requires IsRun(waves, st, logs, outcome) && |logs| < |logs'| <= |waves| && logs'[..|logs|] == logs
    ensures !NoErrors(logs', |logs'| - 1)
  {
    var n := |logs| - 1;
    assert logs'[..|logs|][n] == logs'[n];
    assert WaveError(logs'[n].events) != None;
  }

  lemma {:induction false} SameLogsSoFar(waves: seq<WaveGroup>, st: Setting, logs: seq<WaveLog>, logs': seq<WaveLog>,
                                         n: nat)
    requires |logs| <= |waves| && AllRan(waves, st, logs) && Chained(logs)
    requires |logs'| <= |waves| && AllRan(waves, st, logs') && Chained(logs')
    requires n <= |logs| && n <= |logs'|
    ensures logs[..n] == logs'[..n]
  {
    if n > 0 {
      SameLogsSoFar(waves, st, logs, logs', n - 1);
      SameStart(logs, logs', n - 1);
      WaveRunIsUnique(waves[n - 1], st, logs[n - 1], logs'[n - 1]);
      SamePrefix(logs, logs', n - 1);
    }
  }

  lemma SameStart(logs: seq<WaveLog>, logs': seq<WaveLog>, n: nat)
    requires Chained(logs) && Chained(logs') && n < |logs| && n < |logs'| && logs[..n] == logs'[..n]
    ensures logs[n].start == logs'[n].start
  {
    if n > 0 {
      assert logs[n - 1] == logs[..n][n - 1] == logs'[..n][n - 1] == logs'[n - 1];
    }
  }

  lemma SamePrefix<T>(a: seq<T>, b: seq<T>, n: nat)
    requires n < |a| && n < |b| && a[..n] == b[..n] && a[n] == b[n]
    ensures a[..n + 1] == b[..n + 1]
  {
    TakeSnoc(a, n);
    TakeSnoc(b, n);
  }

  // ----- order of applies -----

  function AllChanged(waves: seq<WaveGroup>): seq<PlanEntry>
  {
    if waves == [] then [] else AllChanged(waves[..|waves| - 1]) + Changed(waves[|waves| - 1].entries)
  }

  lemma {:induction false} IssuedByFirst(waves: seq<WaveGroup>, st: Setting, logs: seq<WaveLog>, n: nat)
    requires |logs| <= |waves| && AllRan(waves, st, logs) && n <= |logs| && NoErrors(logs, n)
    ensures Issued(Trace(logs[..n])) == AllChanged(waves[..n]) == Accepted(st.world, Trace(logs[..n]))
  {
    if n > 0 {
      IssuedByFirst(waves, st, logs, n - 1);
      WaveIssues(waves[n - 1], st, logs[n - 1]);
      assert logs[..n][..n - 1] == logs[..n - 1] && waves[..n][..n - 1] == waves[..n - 1];
      IssuedAppend(st.world, Trace(logs[..n - 1]), logs[n - 1].events);
    }
  }

  lemma {:induction false} AllChangedPrefix(waves: seq<WaveGroup>, n: nat)
    requires n <= |waves|
    ensures AllChanged(waves[..n]) <= AllChanged(waves)
    decreases |waves| - n
  {
    if n < |waves| {
      AllChangedPrefix(waves, n + 1);
      assert waves[..n + 1][..n] == waves[..n];
    } else {
      assert waves[..n] == waves;
    }
  }

  /** Over every run, with any applier, health checker and clock: the applier is handed a
      prefix of the changes in plan order (waves ascending, sorted within each wave) and
      accepts a prefix of them, the whole of it when the run succeeds. */
  lemma ApplierSeesPrefix(waves: seq<WaveGroup>, st: Setting, logs: seq<WaveLog>, outcome: Result<seq<int>, ExecError>)
    requires IsRun(waves, st, logs, outcome)
    ensures Issued(Trace(logs)) <= AllChanged(waves)
    ensures Accepted(st.world, Trace(logs)) <= AllChanged(waves)
    ensures outcome.Ok? ==> Issued(Trace(logs)) == AllChanged(waves) == Accepted(st.world, Trace(logs))
  {
    assert logs[..|logs|] == logs && waves[..|waves|] == waves;
    if outcome.Ok? {
      IssuedByFirst(waves, st, logs, |logs|);
    } else {
      var n := |logs| - 1;
      IssuedByFirst(waves, st, logs, n);
      WaveIssues(waves[n], st, logs[n]);
      PrefixPlusPrefix(st.world, waves, logs, n);
    }
  }

  lemma PrefixPlusPrefix(world: World, waves: seq<WaveGroup>, logs: seq<WaveLog>, n: nat)
    requires |logs| == n + 1 && n < |waves|
    requires Issued(Trace(logs[..n])) == AllChanged(waves[..n]) == Accepted(world, Trace(logs[..n]))
    requires Issued(logs[n].events) <= Changed(waves[n].entries)
    requires Accepted(world, logs[n].events) <= Changed(waves[n].entries)
    ensures Issued(Trace(logs)) <= AllChanged(waves) && Accepted(world, Trace(logs)) <= AllChanged(waves)
  {
    var events, before, changed := logs[n].events, AllChanged(waves[..n]), Changed(waves[n].entries);
    IssuedAppend(world, Trace(logs[..n]), events);
    ChangedSoFar(waves, n);
    PrefixAfter(before, Issued(events), changed, AllChanged(waves));
    PrefixAfter(before, Accepted(world, events), changed, AllChanged(waves));
  }

  lemma ChangedSoFar(waves: seq<WaveGroup>, n: nat)
    requires n < |waves|
    ensures AllChanged(waves[..n]) + Changed(waves[n].entries) <= AllChanged(waves)
  {
    var some := waves[..n + 1];
    AllChangedPrefix(waves, n + 1);
    AllChangedStep(some);
    assert some[..n] == waves[..n];
  }

  lemma AllChangedStep(waves: seq<WaveGroup>)
    requires waves != []
    ensures var n := |waves| - 1; AllChanged(waves) == AllChanged(waves[..n]) + Changed(waves[n].entries)
  {
  }

  // ----- the health gate -----

  function Start(logs: seq<WaveLog>, k: nat): nat
    requires k <= |logs|
  {
    |Trace(logs[..k])|
  }

  lemma {:induction false} TraceAt(logs: seq<WaveLog>, k: nat, o: nat)
    requires k < |logs| && o < |logs[k].events|
    ensures Start(logs, k + 1) == Start(logs, k) + |logs[k].events| <= |Trace(logs)|
    ensures Trace(logs)[Start(logs, k) + o] == logs[k].events[o]
    decreases |logs|
  {
    var n := |logs| - 1;
    assert logs[..k + 1][..k] == logs[..k];
    if k == n {
      assert logs[..n + 1] == logs;
    } else {
      TraceAt(logs[..n], k, o);
      assert logs[..n][..k] == logs[..k] && logs[..n][..k + 1] == logs[..k + 1];
    }
  }

  lemma {:induction false} LocateEvent(logs: seq<WaveLog>, i: nat) returns (k: nat, o: nat)
    requires i < |Trace(logs)|
    ensures k < |logs| && o < |logs[k].events| && i == Start(logs, k) + o && Trace(logs)[i] == logs[k].events[o]
  {
    var n := |logs| - 1;
    if i < |Trace(logs[..n])| {
      k, o := LocateEvent(logs[..n], i);
      assert logs[..n][..k] == logs[..k];
    } else {
      k, o := n, i - |Trace(logs[..n])|;
    }
  }

  lemma {:induction false} StartsAscend(logs: seq<WaveLog>, j: nat, k: nat)
    requires j <= k <= |logs|
    ensures Start(logs, j) <= Start(logs, k)
  {
    if j < k {
      StartsAscend(logs, j, k - 1);
      assert logs[..k][..k - 1] == logs[..k - 1];
    }
  }

  /** The events of one wave have ascending action numbers, from the wave's start to its end. */
  lemma {:induction false} ActionsAscend(st: Setting, start: Clock, events: seq<Event>, n: nat)
    requires Genuine(st, start, events) && n <= |events|
    ensures start.actions <= ClockAfter(start, events[..n]).actions
    ensures forall i :: 0 <= i < n ==> start.actions <= events[i].action < ClockAfter(start, events[..n]).actions
    ensures forall i, j :: 0 <= i < j < n ==> events[i].action < events[j].action
  {
    if n > 0 {
      ActionsAscend(st, start, events, n - 1);
      OneMoreAction(st, start, events, n - 1);
    }
  }

  lemma OneMoreAction(st: Setting, start: Clock, events: seq<Event>, n: nat)
    requires Genuine(st, start, events) && n < |events|
    ensures ClockAfter(start, events[..n]).actions <= events[n].action
    ensures ClockAfter(start, events[..n + 1]).actions == events[n].action + 1
  {
    AnswerOf(st, start, events, n);
    assert events[..n + 1][n] == events[n];
  }

  lemma WaveActions(st: Setting, log: WaveLog)
    requires Genuine(st, log.start, log.events)
    ensures log.start.actions <= End(log).actions
    ensures forall o :: 0 <= o < |log.events| ==> log.start.actions <= log.events[o].action < End(log).actions
  {
    assert log.events[..|log.events|] == log.events;
    ActionsAscend(st, log.start, log.events, |log.events|);
  }

  /** Wave `j` ends before any later wave starts. */
  lemma {:induction false} WavesAscend(waves: seq<WaveGroup>, st: Setting, logs: seq<WaveLog>, j: nat, k: nat)
    requires |logs| <= |waves| && AllRan(waves, st, logs) && Chained(logs) && j < k < |logs|
    ensures End(logs[j]).actions <= logs[k].start.actions
  {
    NextStarts(logs, k);
    if j < k - 1 {
      WavesAscend(waves, st, logs, j, k - 1);
      RunActions(waves, st, logs, k - 1);
    }
  }

  lemma NextStarts(logs: seq<WaveLog>, k: nat)
    requires Chained(logs) && 0 < k < |logs|
    ensures logs[k].start == End(logs[k - 1])
  {
  }

  lemma RunActions(waves: seq<WaveGroup>, st: Setting, logs: seq<WaveLog>, k: nat)
    requires |logs| <= |waves| && AllRan(waves, st, logs) && k < |logs|
    ensures logs[k].start.actions <= End(logs[k]).actions
  {
    assert IsWaveRun(waves[k], st, logs[k]);
    WaveActions(st, logs[k]);
  }

  lemma RunShape(waves: seq<WaveGroup>, st: Setting, logs: seq<WaveLog>, k: nat, o: nat)
    requires |logs| <= |waves| && AllRan(waves, st, logs) && k < |logs| && o < |logs[k].events|
    ensures Asked(waves[k], st, o, logs[k].events[o])
  {
    assert IsWaveRun(waves[k], st, logs[k]);
  }

  /** The health checker, asked about all of the wave's changes at moment `h`, said Healthy. */
  ghost predicate HealthyAt(world: World, t: seq<Event>, h: nat, g: WaveGroup)
    requires h < |t|
  {
    && t[h].Polled? && t[h].wave == g.wave && t[h].resources == Refs(Changed(g.entries))
    && world.health(t[h].action) == Healthy
  }

  ghost predicate LastApplyBefore(t: seq<Event>, h: nat, wave: int)
  {
    forall m :: 0 <= m < |t| && t[m].Applied? && t[m].wave == wave ==> m < h
  }

  /** The gate of wave `g`, passed by moment `h`, as seen from an apply at moment `i`. */
  ghost predicate GatePassed(world: World, t: seq<Event>, h: nat, i: nat, g: WaveGroup)
  {
    h < i < |t| && t[h].action < t[i].action && HealthyAt(world, t, h, g) && LastApplyBefore(t, h, g.wave)
  }

  /** Over every run: when an entry of some wave is issued at moment `i`, the health checker
      has answered Healthy for every earlier wave with changes, in a call made before `i`
      and after the last apply of that wave. */
  lemma HealthGate(waves: seq<WaveGroup>, st: Setting, logs: seq<WaveLog>, outcome: Result<seq<int>, ExecError>,
                   i: nat, j: nat)
    requires IsRun(waves, st, logs, outcome) && Ascending(waves, CmpWave)
    requires i < |Trace(logs)| && Trace(logs)[i].Applied?
    requires j < |waves| && waves[j].wave < Trace(logs)[i].wave && Changed(waves[j].entries) != []
    ensures exists h :: GatePassed(st.world, Trace(logs), h, i, waves[j])
  {
    var k, o := LocateEvent(logs, i);
    EarlierWave(waves, st, logs, j, k, o);
    GateOf(waves, st, logs, outcome, j, k, o, i);
  }

  lemma EarlierWave(waves: seq<WaveGroup>, st: Setting, logs: seq<WaveLog>, j: nat, k: nat, o: nat)
    requires |logs| <= |waves| && AllRan(waves, st, logs) && Ascending(waves, CmpWave)
    requires j < |waves| && k < |logs| && o < |logs[k].events| && waves[j].wave < logs[k].events[o].wave
    ensures j < k
  {
    RunShape(waves, st, logs, k, o);
    WaveOrder(waves, j, k);
  }

  lemma GateOf(waves: seq<WaveGroup>, st: Setting, logs: seq<WaveLog>, outcome: Result<seq<int>, ExecError>,
               j: nat, k: nat, o: nat, i: nat)
    requires IsRun(waves, st, logs, outcome) && Ascending(waves, CmpWave)
    requires j < k < |logs| && o < |logs[k].events| && i == Start(logs, k) + o && Changed(waves[j].entries) != []
    ensures exists h :: GatePassed(st.world, Trace(logs), h, i, waves[j])
  {
    EndsHealthy(waves, st, logs, outcome, j);
    var last := |logs[j].events| - 1;
    EarlierCall(waves, st, logs, j, last, k, o);
    GateOrder(waves, st, logs, outcome, j);
    InTrace(st.world, logs, j, last, k, o, i, waves[j]);
  }

  /** Two events of two waves, and where they stand in the trace. */
  lemma InTrace(world: World, logs: seq<WaveLog>, j: nat, p: nat, k: nat, o: nat, i: nat, g: WaveGroup)
    requires j < k < |logs| && p < |logs[j].events| && o < |logs[k].events| && i == Start(logs, k) + o
    requires HealthyAt(world, logs[j].events, p, g) && logs[j].events[p].action < logs[k].events[o].action
    requires LastApplyBefore(Trace(logs), Start(logs, j) + p, g.wave)
    ensures GatePassed(world, Trace(logs), Start(logs, j) + p, i, g)
  {
    TraceAt(logs, j, p);
    TraceAt(logs, k, o);
    StartsAscend(logs, j + 1, k);
    MovedHealthy(world, logs[j].events, p, Trace(logs), Start(logs, j) + p, g);
  }

  lemma MovedHealthy(world: World, events: seq<Event>, p: nat, t: seq<Event>, h: nat, g: WaveGroup)
    requires p < |events| && HealthyAt(world, events, p, g) && h < |t| && t[h] == events[p]
    ensures HealthyAt(world, t, h, g)
  {
  }

  lemma EarlierCall(waves: seq<WaveGroup>, st: Setting, logs: seq<WaveLog>, j: nat, p: nat, k: nat, o: nat)
    requires |logs| <= |waves| && AllRan(waves, st, logs) && Chained(logs) && j < k < |logs|
    requires p < |logs[j].events| && o < |logs[k].events|
    ensures logs[j].events[p].action < logs[k].events[o].action
  {
    assert IsWaveRun(waves[j], st, logs[j]) && IsWaveRun(waves[k], st, logs[k]);
    WaveActions(st, logs[j]);
    WavesAscend(waves, st, logs, j, k);
    WaveActions(st, logs[k]);
  }

  lemma WaveOrder(waves: seq<WaveGroup>, j: nat, k: nat)
    requires Ascending(waves, CmpWave) && j < |waves| && k < |waves|
    ensures j < k ==> waves[j].wave < waves[k].wave
    ensures k < j ==> waves[k].wave < waves[j].wave
  {
    assert j < k ==> CmpWave(waves[j], waves[k]) == Less;
    assert k < j ==> CmpWave(waves[k], waves[j]) == Less;
  }

  lemma EndsHealthy(waves: seq<WaveGroup>, st: Setting, logs: seq<WaveLog>, outcome: Result<seq<int>, ExecError>,
                    j: nat)
    requires IsRun(waves, st, logs, outcome) && j < |logs| - 1 && Changed(waves[j].entries) != []
    ensures logs[j].events != []
    ensures var events := logs[j].events; HealthyAt(st.world, events, |events| - 1, waves[j])
  {
    assert IsWaveRun(waves[j], st, logs[j]) && WaveError(logs[j].events) == None;
    LastIsHealthy(waves[j], st, logs[j]);
  }

  lemma LastIsHealthy(g: WaveGroup, st: Setting, log: WaveLog)
    requires IsWaveRun(g, st, log) && WaveError(log.events) == None && Changed(g.entries) != []
    ensures log.events != [] && HealthyAt(st.world, log.events, |log.events| - 1, g)
  {
    var last := |log.events| - 1;
    assert Asked(g, st, last, log.events[last]);
    AnswerOf(st, log.start, log.events, last);
  }

  /** The applies of a wave that went through come before its last poll. */
  lemma GateOrder(waves: seq<WaveGroup>, st: Setting, logs: seq<WaveLog>, outcome: Result<seq<int>, ExecError>, j: nat)
    requires IsRun(waves, st, logs, outcome) && Ascending(waves, CmpWave)
    requires j < |logs| - 1 && Changed(waves[j].entries) != []
    ensures logs[j].events != []
    ensures LastApplyBefore(Trace(logs), Start(logs, j) + (|logs[j].events| - 1), waves[j].wave)
  {
    EndsHealthy(waves, st, logs, outcome, j);
    var t := Trace(logs);
    forall m: nat | m < |t| && t[m].Applied? && t[m].wave == waves[j].wave
      ensures m < Start(logs, j) + |logs[j].events| - 1
    {
      var k, o := LocateEvent(logs, m);
      RunShape(waves, st, logs, k, o);
      WaveOrder(waves, j, k);
      assert k == j;
    }
  }

  // ----- bounds -----

  function CeilDiv(t: nat, p: nat): nat
    requires p > 0
  {
    (t + p - 1) / p
  }

  /** `n` intervals, added up. */
  ghost function Times(n: nat, p: nat): nat
  {
    if n == 0 then 0 else Times(n - 1, p) + p
  }

  lemma {:induction false} TimesAtLeast(n: nat, m: nat, p: nat)
    requires m <= n
    ensures Times(m, p) <= Times(n, p)
    ensures Times(m, p) == m * p
  {
    if n > m {
      TimesAtLeast(n - 1, m, p);
    } else if m > 0 {
      TimesAtLeast(m - 1, m - 1, p);
    }
  }

  lemma FewPolls(n: nat, t: nat, p: nat)
    requires p > 0 && Times(n, p) < t + p
    ensures n <= CeilDiv(t, p)
  {
    var q := CeilDiv(t, p);
    assert t <= q * p by {
      assert t + p - 1 == p * q + (t + p - 1) % p;
    }
    if n > q {
      TimesAtLeast(n - 1, q, p);
    }
  }

  /** Consecutive polls of a wave are an interval apart. */
  lemma PollSpacing(st: Setting, start: Clock, events: seq<Event>, m: nat)
    requires Genuine(st, start, events) && 0 < m < |events| && events[m].Polled?
    ensures events[m - 1].at <= events[m].at
    ensures events[m - 1].Polled? ==> events[m - 1].at + st.cfg.pollInterval <= events[m].at
  {
    AnswerOf(st, start, events, m);
    assert events[..m][m - 1] == events[m - 1];
  }

  /** From position `n` on, each event comes an interval after the one before. */
  ghost predicate Spaced(events: seq<Event>, n: nat, interval: nat)
  {
    forall k :: n < k < |events| ==> events[k - 1].at + interval <= events[k].at
  }

  lemma {:induction false} SpacedSpread(events: seq<Event>, n: nat, interval: nat, i: nat)
    requires n + i < |events| && Spaced(events, n, interval)
    ensures events[n].at + Times(i, interval) <= events[n + i].at
  {
    if i > 0 {
      SpacedSpread(events, n, interval, i - 1);
      assert events[n + i - 1].at + interval <= events[n + i].at;
    }
  }

  lemma IsPoll(g: WaveGroup, st: Setting, events: seq<Event>, k: nat)
    requires AllAsked(g, st, events) && |Changed(g.entries)| <= k < |events|
    ensures events[k].Polled?
  {
    assert Asked(g, st, k, events[k]);
  }

  lemma PollsAreSpaced(g: WaveGroup, st: Setting, start: Clock, events: seq<Event>)
    requires Genuine(st, start, events) && AllAsked(g, st, events)
    ensures Spaced(events, |Changed(g.entries)|, st.cfg.pollInterval)
  {
    var n := |Changed(g.entries)|;
    forall k | n < k < |events| ensures events[k - 1].at + st.cfg.pollInterval <= events[k].at {
      IsPoll(g, st, events, k - 1);
      IsPoll(g, st, events, k);
      PollSpacing(st, start, events, k);
    }
  }

  lemma LaterThanClock(st: Setting, start: Clock, events: seq<Event>, k: nat)
    requires Genuine(st, start, events) && k < |events|
    ensures ClockAfter(start, events[..k]).now <= events[k].at
  {
    AnswerOf(st, start, events, k);
  }

  lemma WaveBounded(g: WaveGroup, st: Setting, log: WaveLog)
    requires st.cfg.pollInterval > 0 && IsWaveRun(g, st, log)
    ensures |log.events| <= |Changed(g.entries)| + CeilDiv(st.cfg.perWaveTimeout, st.cfg.pollInterval) + 1
  {
    var n := |Changed(g.entries)|;
    if |log.events| > n + 1 {
      var i := |log.events| - n - 2;
      PollsInTime(g, st, log, i);
      FewPolls(i + 1, st.cfg.perWaveTimeout, st.cfg.pollInterval);
    }
  }

  /** A poll that another one follows was answered within the time limit. */
  lemma PollsInTime(g: WaveGroup, st: Setting, log: WaveLog, i: nat)
    requires IsWaveRun(g, st, log) && |Changed(g.entries)| + i + 1 < |log.events|
    ensures Times(i, st.cfg.pollInterval) < st.cfg.perWaveTimeout
  {
    var n := |Changed(g.entries)|;
    LaterThanClock(st, log.start, log.events, n);
    PollsAreSpaced(g, st, log.start, log.events);
    SpacedSpread(log.events, n, st.cfg.pollInterval, i);
    assert GoesOn(log.events[n + i], Deadline(g, st, log.start, log.events));
  }

  /** A wave is given up only after the full timeout, and only if no poll was Healthy. */
  lemma GivesUpLate(g: WaveGroup, st: Setting, log: WaveLog)
    requires IsWaveRun(g, st, log) && WaveError(log.events).Some? && WaveError(log.events).value.WaveTimeout?
    ensures var n, events := |Changed(g.entries)|, log.events;
            && n < |events|
            && ClockAfter(log.start, events[..n]).now + st.cfg.perWaveTimeout <= events[|events| - 1].at
            && (forall i :: n <= i < |events| ==> events[i].Polled? && st.world.health(events[i].action) != Healthy)
  {
    var n, events, last := |Changed(g.entries)|, log.events, |log.events| - 1;
    assert Asked(g, st, last, events[last]);
    forall i | n <= i < |events| ensures events[i].Polled? && st.world.health(events[i].action) != Healthy {
      PollUnhealthy(g, st, log, i);
    }
  }

  lemma PollUnhealthy(g: WaveGroup, st: Setting, log: WaveLog, i: nat)
    requires IsWaveRun(g, st, log) && WaveError(log.events).Some? && |Changed(g.entries)| <= i < |log.events|
    ensures log.events[i].Polled? && st.world.health(log.events[i].action) != Healthy
  {
    assert Asked(g, st, i, log.events[i]);
    AnswerOf(st, log.start, log.events, i);
    assert i < |log.events| - 1 ==> GoesOn(log.events[i], Deadline(g, st, log.start, log.events));
  }

  /** Every wave makes one call per change and at most `polls` more. */
  ghost predicate EachWithin(waves: seq<WaveGroup>, logs: seq<WaveLog>, polls: nat)
    requires |logs| <= |waves|
  {
    forall k :: 0 <= k < |logs| ==> |logs[k].events| <= |Changed(waves[k].entries)| + polls
  }

  lemma {:induction false} FirstRunsBounded(waves: seq<WaveGroup>, logs: seq<WaveLog>, n: nat, polls: nat)
    requires n <= |logs| <= |waves| && EachWithin(waves, logs, polls)
    ensures |Trace(logs[..n])| <= |AllChanged(waves[..n])| + n * polls
  {
    if n > 0 {
      assert logs[..n][..n - 1] == logs[..n - 1] && waves[..n][..n - 1] == waves[..n - 1];
      FirstRunsBounded(waves, logs, n - 1, polls);
      OneMoreRun(waves[..n], logs[..n], polls);
    }
  }

  lemma AllWithin(waves: seq<WaveGroup>, st: Setting, logs: seq<WaveLog>, polls: nat)
    requires st.cfg.pollInterval > 0 && |logs| <= |waves| && AllRan(waves, st, logs)
    requires polls == CeilDiv(st.cfg.perWaveTimeout, st.cfg.pollInterval) + 1
    ensures EachWithin(waves, logs, polls)
  {
    forall k | 0 <= k < |logs| ensures |logs[k].events| <= |Changed(waves[k].entries)| + polls {
      WaveBounded(waves[k], st, logs[k]);
    }
  }

  lemma OneMoreRun(waves: seq<WaveGroup>, logs: seq<WaveLog>, polls: nat)
    requires |waves| == |logs| > 0
    requires var n := |logs| - 1;
             && |logs[n].events| <= |Changed(waves[n].entries)| + polls
             && |Trace(logs[..n])| <= |AllChanged(waves[..n])| + n * polls
    ensures |Trace(logs)| <= |AllChanged(waves)| + |logs| * polls
  {
    var n := |logs| - 1;
    assert |logs| * polls == n * polls + polls;
  }

  /** Every run ends after boundedly many external calls, even if health never comes:
      one per change and at most the timeout over the interval, plus one, per wave. */
  lemma RunIsBounded(waves: seq<WaveGroup>, st: Setting, logs: seq<WaveLog>, outcome: Result<seq<int>, ExecError>)
    requires st.cfg.pollInterval > 0 && IsRun(waves, st, logs, outcome)
    ensures |Trace(logs)| <= |AllChanged(waves)| + |logs| * (CeilDiv(st.cfg.perWaveTimeout, st.cfg.pollInterval) + 1)
  {
    var polls := CeilDiv(st.cfg.perWaveTimeout, st.cfg.pollInterval) + 1;
    AllWithin(waves, st, logs, polls);
    FirstRunsBounded(waves, logs, |logs|, polls);
    AllChangedPrefix(waves, |logs|);
    assert logs[..|logs|] == logs;
  }

  // ----- convergence -----

  lemma {:induction false} ChangedOfWaves(waves: seq<WaveGroup>)
    ensures AllChanged(waves) == Changed(AllEntries(waves))
  {
    if waves != [] {
      var n := |waves| - 1;
      ChangedOfWaves(waves[..n]);
      FilterAppend(AllEntries(waves[..n]), waves[n].entries, (e: PlanEntry) => e.action != NoOp);
    }
  }

  /** What the applier accepted are planned changes, all of them when the run succeeds. */
  lemma AcceptedArePlanned(waveOf: ResourceRef -> int, st: Setting, plan: seq<PlanEntry>, waves: seq<WaveGroup>,
                           logs: seq<WaveLog>, outcome: Result<seq<int>, ExecError>)
    requires IsWavePlan(waveOf, plan, waves) && IsRun(waves, st, logs, outcome)
    ensures forall e :: e in Accepted(st.world, Trace(logs)) ==> e in Changed(plan)
    ensures outcome.Ok? ==> forall e :: e in Changed(plan) ==> e in Accepted(st.world, Trace(logs))
  {
    ApplierSeesPrefix(waves, st, logs, outcome);
    ChangedInWaves(waveOf, plan, waves);
    forall e | e in Accepted(st.world, Trace(logs)) ensures e in Changed(plan) {
      assert e in AllChanged(waves);
    }
  }

  lemma ChangedInWaves(waveOf: ResourceRef -> int, plan: seq<PlanEntry>, waves: seq<WaveGroup>)
    requires IsWavePlan(waveOf, plan, waves)
    ensures forall e :: e in AllChanged(waves) <==> e in Changed(plan)
  {
    WavesConserveEntries(waveOf, plan, waves);
    ChangedOfWaves(waves);
    forall e ensures e in AllChanged(waves) <==> e in Changed(plan) {
      FilterMember(AllEntries(waves), (x: PlanEntry) => x.action != NoOp, e);
      FilterMember(plan, (x: PlanEntry) => x.action != NoOp, e);
      assert e in multiset(AllEntries(waves)) <==> e in multiset(plan);
    }
  }
}
