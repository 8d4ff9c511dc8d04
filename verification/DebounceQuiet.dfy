/** When a debounced fire has a full quiet window before it. Enqueues never endanger that; a
    wake-up does exactly when it fires an entry whose app has another timer asleep, and a
    flush exactly when something is pending: generations start again at 1 once an entry is
    gone, and a timer left asleep can then fire a later entry early. */
module DebounceQuiet {
  import opened Common
  import opened Debounce

  /** Whichever timer wakes next: if it fires, the last event of its app is a full window back. */
  ghost predicate FiresQuietly(window: nat, s: State)
  {
    forall i: nat, at: nat :: Can(s, Wake(i, at)) && Fires(s, s.timers[i]) ==>
      s.timers[i].app in s.last && s.last[s.timers[i].app].at + window <= at
  }

  /** No other timer of the same app is asleep. */
  ghost predicate Lone(s: State, i: nat)
    requires i < |s.timers|
  {
    forall j :: 0 <= j < |s.timers| && j != i ==> s.timers[j].app != s.timers[i].app
  }

  /** The steps that leave no timer behind for an entry that is gone. */
  ghost predicate Harmless(s: State, step: Step)
  {
    match step
    case Enqueue(_, _, _) => true
    case Wake(i, _) => i < |s.timers| && (Fires(s, s.timers[i]) ==> Lone(s, i))
    case Flush(_, _) => s.pending == map[]
  }

  /** Every step of the run could happen and was harmless. */
  ghost predicate Orderly(window: nat, s: State, steps: seq<Step>)
  {
    steps == [] ||
    var n := |steps| - 1;
    && Orderly(window, s, steps[..n])
    && After(window, s, steps[..n]).Some?
    && var t := After(window, s, steps[..n]).value;
       Can(t, steps[n]) && Harmless(t, steps[n])
  }

  /** No harmless run from here ever ends in a fire without its quiet window. */
  ghost predicate StaysQuiet(window: nat, s: State)
  {
    forall steps :: Orderly(window, s, steps) && After(window, s, steps).Some? ==>
      FiresQuietly(window, After(window, s, steps).value)
  }

  /** Sleeping timers belong to the present incarnation of their entry, generations ascend
      in spawn order, and the timer of the present generation is the last event's own. */
  ghost predicate Clean(window: nat, s: State)
  {
    && (forall t :: t in s.timers ==> Belongs(window, s, t))
    && (forall i, j :: 0 <= i < j < |s.timers| && s.timers[i].app == s.timers[j].app ==>
          s.timers[i].generation < s.timers[j].generation)
  }

  ghost predicate Belongs(window: nat, s: State, t: Timer)
  {
    && t.app in s.pending && t.app in s.last
    && 1 <= t.generation <= s.pending[t.app].generation
    && (t.generation == s.pending[t.app].generation ==>
          t.serial == s.last[t.app].serial && t.deadline == s.last[t.app].at + window)
  }

  lemma CleanIsQuiet(window: nat, s: State)
    requires Clean(window, s)
    ensures FiresQuietly(window, s)
  {
    forall i: nat, at: nat | Can(s, Wake(i, at)) && Fires(s, s.timers[i])
      ensures s.timers[i].app in s.last && s.last[s.timers[i].app].at + window <= at
    {
      assert Belongs(window, s, s.timers[i]);
    }
  }

  lemma StepClean(window: nat, s: State, step: Step)
    requires Clean(window, s) && Can(s, step) && Harmless(s, step)
    ensures Clean(window, Do(window, s, step))
  {
    match step
    case Enqueue(app, trigger, at) => EnqueueClean(window, s, app, trigger, at);
    case Wake(i, at) => WakeClean(window, s, i, at);
    case Flush(order, at) => IdleHasNoTimers(window, s);
  }

  lemma EnqueueClean(window: nat, s: State, app: string, trigger: Trigger, at: nat)
    requires Clean(window, s)
    ensures Clean(window, Enqueued(window, s, app, trigger, at))
  {
    var s' := Enqueued(window, s, app, trigger, at);
    forall t | t in s'.timers ensures Belongs(window, s', t)
    {
      assert t in s.timers ==> Belongs(window, s, t);
    }
    forall i | 0 <= i < |s.timers| && s.timers[i].app == app
      ensures s.timers[i].generation < s'.timers[|s.timers|].generation
    {
      assert Belongs(window, s, s.timers[i]);
    }
  }

  lemma WakeClean(window: nat, s: State, i: nat, at: nat)
    requires Clean(window, s) && i < |s.timers| && (Fires(s, s.timers[i]) ==> Lone(s, i))
    ensures Clean(window, Woken(s, i, at))
  {
    var s' := Woken(s, i, at);
    forall k | 0 <= k < |s'.timers| ensures Belongs(window, s', s'.timers[k])
    {
      var j := Slept(i, k);
      assert s'.timers[k] == s.timers[j];
      assert Belongs(window, s, s.timers[j]);
    }
    forall k, l | 0 <= k < l < |s'.timers| && s'.timers[k].app == s'.timers[l].app
      ensures s'.timers[k].generation < s'.timers[l].generation
    {
      assert s'.timers[k] == s.timers[Slept(i, k)] && s'.timers[l] == s.timers[Slept(i, l)];
    }
  }

  /** Where the `k`-th timer still asleep stood before timer `i` woke. */
  function Slept(i: nat, k: nat): nat { if k < i then k else k + 1 }

  lemma IdleHasNoTimers(window: nat, s: State)
    requires Clean(window, s) && s.pending == map[]
    ensures s.timers == []
  {
    NonEmptyHasMember(s.timers);
  }

  lemma {:induction false} StaysClean(window: nat, s: State, steps: seq<Step>)
    requires Clean(window, s) && Orderly(window, s, steps)
    ensures After(window, s, steps).Some? && Clean(window, After(window, s, steps).value)
  {
    if steps != [] {
      var n := |steps| - 1;
      StaysClean(window, s, steps[..n]);
      StepClean(window, After(window, s, steps[..n]).value, steps[n]);
    }
  }

  /** Over every harmless run each fire, of whichever timer wakes next, comes a full quiet
      window after the app's last event. */
  lemma FiresAreQuiet(window: nat, steps: seq<Step>)
    requires Orderly(window, INITIAL, steps)
    ensures After(window, INITIAL, steps).Some? && FiresQuietly(window, After(window, INITIAL, steps).value)
  {
    StaysClean(window, INITIAL, steps);
    CleanIsQuiet(window, After(window, INITIAL, steps).value);
  }

  // ----- timers waking in order, app by app -----

  /** No flush, and each timer wakes before the later ones of its app; timers of different
      apps may overtake each other. */
  ghost predicate InOrder(window: nat, s: State, steps: seq<Step>)
  {
    steps == [] ||
    var n := |steps| - 1;
    && InOrder(window, s, steps[..n])
    && After(window, s, steps[..n]).Some?
    && var t := After(window, s, steps[..n]).value;
       && Can(t, steps[n])
       && match steps[n]
          case Enqueue(_, _, _) => true
          case Wake(i, _) => forall j :: 0 <= j < i ==> t.timers[j].app != t.timers[i].app
          case Flush(_, _) => false
  }

  /** A timer that fires while all older ones of its app are awake is the only one left. */
  lemma FirstIsLone(window: nat, s: State, i: nat)
    requires Clean(window, s) && i < |s.timers| && Fires(s, s.timers[i])
    requires forall j :: 0 <= j < i ==> s.timers[j].app != s.timers[i].app
    ensures Lone(s, i)
  {
    forall j | i < j < |s.timers| ensures s.timers[j].app != s.timers[i].app
    {
      assert Belongs(window, s, s.timers[j]);
    }
  }

  lemma {:induction false} InOrderIsOrderly(window: nat, s: State, steps: seq<Step>)
    requires Clean(window, s) && InOrder(window, s, steps)
    ensures Orderly(window, s, steps)
  {
    if steps != [] {
      var n := |steps| - 1;
      InOrderIsOrderly(window, s, steps[..n]);
      StaysClean(window, s, steps[..n]);
      var t := After(window, s, steps[..n]).value;
      if steps[n].Wake? && Fires(t, t.timers[steps[n].i]) {
        FirstIsLone(window, t, steps[n].i);
      }
    }
  }

  /** Without a flush, and with the timers of each app waking in order, every fire is quiet;
      and the states such runs reach are the ones the conditions below speak of. */
  lemma InOrderRunsAreQuiet(window: nat, steps: seq<Step>)
    requires InOrder(window, INITIAL, steps)
    ensures After(window, INITIAL, steps).Some?
    ensures var s := After(window, INITIAL, steps).value;
            FiresQuietly(window, s) && Clean(window, s) && Safe(s)
  {
    InOrderIsOrderly(window, INITIAL, steps);
    FiresAreQuiet(window, steps);
    StaysClean(window, INITIAL, steps);
    AlwaysSafe(window, steps);
  }

  // ----- what the other steps do -----

  function Burst(app: string, at: nat, n: nat): seq<Step>
  {
    seq(n, _ => Enqueue(app, Webhook, at))
  }

  /** `n` enqueues of an app without an entry bring it to generation `n`. */
  lemma {:induction false} BurstReaches(window: nat, s: State, app: string, at: nat, n: nat)
    requires n > 0 && app !in s.pending && s.now <= at
    ensures var r := After(window, s, Burst(app, at, n));
            && r.Some?
            && s.timers <= r.value.timers && r.value.now == at
            && app in r.value.pending && r.value.pending[app].generation == n
            && app in r.value.last && r.value.last[app].at == at
    decreases n
  {
    var steps := Burst(app, at, n);
    assert steps[..n - 1] == Burst(app, at, n - 1);
    if n > 1 {
      BurstReaches(window, s, app, at, n - 1);
    } else {
      assert After(window, s, steps[..0]) == Some(s);
    }
    var t := After(window, s, steps[..n - 1]).value;
    assert Can(t, steps[n - 1]);
    assert After(window, s, steps) == Some(Enqueued(window, t, app, Webhook, at));
  }

  lemma {:induction false} BurstIsOrderly(window: nat, s: State, app: string, at: nat, n: nat)
    requires app !in s.pending && s.now <= at
    ensures Orderly(window, s, Burst(app, at, n)) && After(window, s, Burst(app, at, n)).Some?
  {
    var steps := Burst(app, at, n);
    if n > 0 {
      assert steps[..n - 1] == Burst(app, at, n - 1);
      BurstIsOrderly(window, s, app, at, n - 1);
      BurstReaches(window, s, app, at, n);
      if n > 1 {
        BurstReaches(window, s, app, at, n - 1);
      }
    }
  }

  /** A timer still asleep whose entry is gone: enqueues alone lead to a state in which it
      fires the app's next entry with no quiet time at all. */
  lemma StaleTimerFires(window: nat, s: State, k: nat) returns (steps: seq<Step>)
    requires window > 0 && k < |s.timers| && s.timers[k].app !in s.pending && s.timers[k].generation > 0
    ensures Orderly(window, s, steps) && After(window, s, steps).Some?
    ensures !FiresQuietly(window, After(window, s, steps).value)
  {
    var t := s.timers[k];
    var e := if s.now < t.deadline then t.deadline else s.now;
    steps := Burst(t.app, e, t.generation);
    BurstReaches(window, s, t.app, e, t.generation);
    BurstIsOrderly(window, s, t.app, e, t.generation);
    var r := After(window, s, steps).value;
    assert r.timers[k] == t;
    assert Can(r, Wake(k, e)) && Fires(r, r.timers[k]);
  }

  lemma CleanStaysQuiet(window: nat, s: State)
    requires Clean(window, s)
    ensures StaysQuiet(window, s)
  {
    forall steps | Orderly(window, s, steps) && After(window, s, steps).Some?
      ensures FiresQuietly(window, After(window, s, steps).value)
    {
      StaysClean(window, s, steps);
      CleanIsQuiet(window, After(window, s, steps).value);
    }
  }

  /** Waking a timer, in whatever order, keeps the quiet window for all later harmless runs
      if and only if it does not fire or no other timer of its app is asleep. */
  lemma WakeKeepsQuietIff(window: nat, s: State, i: nat, at: nat)
    requires window > 0 && Clean(window, s) && Can(s, Wake(i, at))
    ensures StaysQuiet(window, Woken(s, i, at)) <==> (Fires(s, s.timers[i]) ==> Lone(s, i))
  {
    var s' := Woken(s, i, at);
    if Fires(s, s.timers[i]) ==> Lone(s, i) {
      WakeClean(window, s, i, at);
      CleanStaysQuiet(window, s');
    } else {
      var j :| 0 <= j < |s.timers| && j != i && s.timers[j].app == s.timers[i].app;
      assert Belongs(window, s, s.timers[j]);
      var k := if j < i then j else j - 1;
      assert s'.timers[k] == s.timers[j];
      var steps := StaleTimerFires(window, s', k);
    }
  }

  /** A flush keeps it if and only if nothing was pending, that is, when it had nothing to do. */
  lemma FlushKeepsQuietIff(window: nat, s: State, order: seq<string>, at: nat)
    requires window > 0 && Clean(window, s) && Safe(s) && Can(s, Flush(order, at))
    ensures StaysQuiet(window, Flushed(s, order, at)) <==> s.pending == map[]
  {
    var f := Flushed(s, order, at);
    if s.pending == map[] {
      StepClean(window, s, Flush(order, at));
      CleanStaysQuiet(window, f);
    } else {
      var app :| app in s.pending;
      assert Armed(s, app);
      assert Belongs(window, s, s.timers[0]);
      var steps := StaleTimerFires(window, f, 0);
    }
  }

  /** Every step: the quiet window survives it if and only if the step is harmless. */
  lemma StepKeepsQuietIff(window: nat, s: State, step: Step)
    requires window > 0 && Clean(window, s) && Safe(s) && Can(s, step)
    ensures StaysQuiet(window, Do(window, s, step)) <==> Harmless(s, step)
  {
    match step
    case Enqueue(app, trigger, at) =>
      EnqueueClean(window, s, app, trigger, at);
      CleanStaysQuiet(window, Enqueued(window, s, app, trigger, at));
    case Wake(i, at) => WakeKeepsQuietIff(window, s, i, at);
    case Flush(order, at) => FlushKeepsQuietIff(window, s, order, at);
  }

  /** A concrete run: two events of one app, whose timers wake in the wrong order, let the
      older timer fire a third event's entry at once. */
  lemma OutOfOrderFiresEarly(window: nat, app: string)
    requires window > 0
    ensures var steps := [Enqueue(app, Webhook, 0), Enqueue(app, Webhook, 0), Wake(1, window),
                          Enqueue(app, Webhook, window)];
            && After(window, INITIAL, steps).Some?
            && !FiresQuietly(window, After(window, INITIAL, steps).value)
  {
    var e0, w1, e2 := Enqueue(app, Webhook, 0), Wake(1, window), Enqueue(app, Webhook, window);
    var s1 := Enqueued(window, INITIAL, app, Webhook, 0);
    var s2 := Enqueued(window, s1, app, Webhook, 0);
    var s3 := Woken(s2, 1, window);
    var s4 := Enqueued(window, s3, app, Webhook, window);
    var steps := [e0, e0, w1, e2];
    assert steps[..3] == [e0, e0, w1] && [e0, e0, w1][..2] == [e0, e0] && [e0, e0][..1] == [e0] && [e0][..0] == [];
    assert After(window, INITIAL, []) == Some(INITIAL);
    assert After(window, INITIAL, [e0]) == Some(s1);
    assert After(window, INITIAL, [e0, e0]) == Some(s2);
    assert After(window, INITIAL, [e0, e0, w1]) == Some(s3);
    assert After(window, INITIAL, steps) == Some(s4);
    assert s4.timers[0] == Timer(app, 1, 1, window);
    assert Can(s4, Wake(0, window)) && Fires(s4, s4.timers[0]);
  }
}
