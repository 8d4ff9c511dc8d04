/** The leading-edge throttle: admit the first event of a key, suppress the rest of its window. */
module Coalesce {
  import opened Common

  /** `Instant::duration_since`, which saturates at zero. */
  function Since(now: nat, earlier: nat): nat { if earlier <= now then now - earlier else 0 }

  predicate Admits<K(==)>(window: nat, last: map<K, nat>, key: K, now: nat)
  {
    !(key in last && Since(now, last[key]) < window)
  }

  function Admitted<K(==)>(window: nat, last: map<K, nat>, key: K, now: nat): map<K, nat>
  {
    if Admits(window, last, key, now) then last[key := now] else last
  }

  function Swept<K>(window: nat, last: map<K, nat>, now: nat): map<K, nat>
  {
    map k | k in last && Since(now, last[k]) < window :: last[k]
  }

  class Coalescer<K(==)> {
    const window: nat
    var last: map<K, nat>

    constructor (window: nat)
      ensures this.window == window && last == map[]
    {
      this.window := window;
      last := map[];
    }

    method AdmitAt(key: K, now: nat) returns (forward: bool)
      modifies this
      ensures forward == Admits(window, old(last), key, now)
      ensures last == Admitted(window, old(last), key, now)
    {
      if key in last && Since(now, last[key]) < window {
        forward := false;
      } else {
        last := last[key := now];
        forward := true;
      }
    }

    method Sweep(now: nat) returns (dropped: nat)
      modifies this
      ensures last == Swept(window, old(last), now)
      ensures forall key :: key in old(last) ==> (key !in last <==> Admits(window, old(last), key, now))
      ensures dropped == |old(last)| - |last|
    {
      var before := last;
      last := Swept(window, last, now);
      SweptIsSmaller(window, before, now);
      dropped := |before| - |last|;
    }
  }

  lemma SweptIsSmaller<K>(window: nat, last: map<K, nat>, now: nat)
    ensures |Swept(window, last, now)| <= |last|
  {
    var s := Swept(window, last, now);
    SubsetSize(s.Keys, last.Keys);
    assert |s.Keys| == |s| && |last.Keys| == |last|;
  }

  lemma {:induction false} SubsetSize<K>(a: set<K>, b: set<K>)
    requires a <= b
    ensures |a| <= |b|
  {
    if a != {} {
      var x :| x in a;
      SubsetSize(a - {x}, b - {x});
    }
  }

  // ----- runs -----

  datatype Event<K> = Arrive(key: K, at: nat) | SweepAt(at: nat)

  function After<K(==)>(window: nat, events: seq<Event<K>>): map<K, nat>
  {
    if events == [] then map[]
    else
      var n := |events| - 1;
      var last := After(window, events[..n]);
      match events[n]
      case Arrive(key, at) => Admitted(window, last, key, at)
      case SweepAt(at) => Swept(window, last, at)
  }

  /** Whether arrival `i` of the run was let through. */
  predicate Answer<K(==)>(window: nat, events: seq<Event<K>>, i: nat)
    requires i < |events| && events[i].Arrive?
  {
    Admits(window, After(window, events[..i]), events[i].key, events[i].at)
  }

  /** The times at which `key` was let through, in order. */
  function AdmitTimes<K(==)>(window: nat, events: seq<Event<K>>, key: K): seq<nat>
  {
    if events == [] then []
    else
      var n := |events| - 1;
      AdmitTimes(window, events[..n], key) +
      (if events[n].Arrive? && events[n].key == key && Answer(window, events, n) then [events[n].at] else [])
  }

  ghost predicate Spaced(times: seq<nat>, window: nat)
  {
    forall i :: 0 < i < |times| ==> times[i - 1] + window <= times[i]
  }

  /** Every arrival reads a time no earlier than that of any sweep before it. Arrivals among
      themselves come in any order: the clock is read before the lock is taken. */
  ghost predicate ReadAfterSweeps<K>(events: seq<Event<K>>)
  {
    forall i, j :: 0 <= i < j < |events| && events[i].SweepAt? && events[j].Arrive? ==> events[i].at <= events[j].at
  }

  ghost predicate ArrivalsInOrder<K>(events: seq<Event<K>>)
  {
    forall i, j :: 0 <= i < j < |events| && events[i].Arrive? && events[j].Arrive? ==> events[i].at <= events[j].at
  }

  /** A window of no length suppresses nothing, and so orders nothing. */
  ghost predicate Usable<K>(window: nat, events: seq<Event<K>>)
  {
    ReadAfterSweeps(events) && (window == 0 ==> ArrivalsInOrder(events))
  }

  /** The latest time swept at. */
  function LastSweep<K>(events: seq<Event<K>>): nat
  {
    if events == [] then 0
    else
      var e, before := events[|events| - 1], LastSweep(events[..|events| - 1]);
      if e.SweepAt? && e.at > before then e.at else before
  }

  lemma {:induction false} SweptEarlier<K>(events: seq<Event<K>>, i: nat, j: nat)
    requires ReadAfterSweeps(events) && i <= j < |events| && events[j].Arrive?
    ensures LastSweep(events[..i]) <= events[j].at
  {
    if i > 0 {
      SweptEarlier(events, i - 1, j);
      assert events[..i][..i - 1] == events[..i - 1];
    }
  }

  /** The table remembers the latest admit of a key, or has rightly forgotten it. */
  ghost predicate Tracks<K>(window: nat, last: map<K, nat>, key: K, times: seq<nat>, swept: nat)
  {
    && Spaced(times, window)
    && (key in last ==> times != [] && last[key] == times[|times| - 1])
    && (key !in last && times != [] && window > 0 ==> times[|times| - 1] + window <= swept)
  }

  ghost predicate NoneAfter(times: seq<nat>, at: nat)
  {
    forall i :: 0 <= i < |times| ==> times[i] <= at
  }

  lemma {:induction false} AdmittedBefore<K>(window: nat, events: seq<Event<K>>, key: K, at: nat)
    requires forall i :: 0 <= i < |events| && events[i].Arrive? ==> events[i].at <= at
    ensures NoneAfter(AdmitTimes(window, events, key), at)
  {
    if events != [] {
      AdmittedBefore(window, events[..|events| - 1], key, at);
    }
  }

  lemma {:induction false} TableTracks<K>(window: nat, events: seq<Event<K>>, key: K)
    requires Usable(window, events)
    ensures Tracks(window, After(window, events), key, AdmitTimes(window, events, key), LastSweep(events))
  {
    if events != [] {
      var n := |events| - 1;
      var last, times := After(window, events[..n]), AdmitTimes(window, events[..n], key);
      TableTracks(window, events[..n], key);
      if events[n].Arrive? {
        SweptEarlier(events, n, n);
        if window == 0 {
          AdmittedBefore(window, events[..n], key, events[n].at);
        }
        ArriveTracks(window, last, key, times, LastSweep(events[..n]), events[n].key, events[n].at);
      } else {
        SweepTracks(window, last, key, times, LastSweep(events[..n]), events[n].at);
      }
    }
  }

  lemma ArriveTracks<K>(window: nat, last: map<K, nat>, key: K, times: seq<nat>, swept: nat, k: K, at: nat)
    requires Tracks(window, last, key, times, swept) && swept <= at
    requires window == 0 ==> NoneAfter(times, at)
    ensures Tracks(window, Admitted(window, last, k, at), key,
                   times + (if k == key && Admits(window, last, k, at) then [at] else []), swept)
  {
    if k == key && Admits(window, last, k, at) && times != [] {
      assert times[|times| - 1] + window <= at;
    }
  }

  lemma SweepTracks<K>(window: nat, last: map<K, nat>, key: K, times: seq<nat>, swept: nat, at: nat)
    requires Tracks(window, last, key, times, swept)
    ensures Tracks(window, Swept(window, last, at), key, times + [], if at > swept then at else swept)
  {
    assert times + [] == times;
  }

  /** Two admits of one key are at least a window apart, in whatever order arrivals read the clock. */
  lemma AdmitsAreSpaced<K>(window: nat, events: seq<Event<K>>, key: K)
    requires Usable(window, events)
    ensures Spaced(AdmitTimes(window, events, key), window)
  {
    TableTracks(window, events, key);
  }

  /** The hypothesis on sweeps is needed: a sweep ahead of an arrival's reading lets a second
      event of the key through within the window. */
  lemma EarlySweepLetsThrough<K>(window: nat, key: K)
    requires window > 0
    ensures var events := [Arrive(key, 0), SweepAt(window), Arrive(key, window - 1)];
            AdmitTimes(window, events, key) == [0, window - 1] && !Spaced(AdmitTimes(window, events, key), window)
  {
    var one, two := [Arrive(key, 0)], [Arrive(key, 0), SweepAt(window)];
    var events := [Arrive(key, 0), SweepAt(window), Arrive(key, window - 1)];
    assert one[..0] == [] && two[..1] == one && events[..2] == two;
    assert After(window, one) == map[key := 0] && AdmitTimes(window, one, key) == [0];
    assert After(window, two) == map[] && AdmitTimes(window, two, key) == [0];
    var times := AdmitTimes(window, events, key);
    assert times == [0, window - 1];
    assert !(times[1 - 1] + window <= times[1]);
  }

  lemma {:induction false} SpacedFar(times: seq<nat>, window: nat, i: nat, j: nat)
    requires Spaced(times, window) && i <= j < |times|
    ensures times[i] + (j - i) * window <= times[j]
  {
    if i < j {
      SpacedFar(times, window, i, j - 1);
      assert (j - i) * window == (j - 1 - i) * window + window;
    }
  }

  /** Rate bound: admits `i` to `j` of a key that lie in a span of length `span` number at
      most the span over the window, plus one. */
  lemma RateBound<K>(window: nat, events: seq<Event<K>>, key: K, i: nat, j: nat, span: nat)
    requires window > 0 && ReadAfterSweeps(events)
    requires var times := AdmitTimes(window, events, key);
             i <= j < |times| && times[j] - times[i] <= span
    ensures j - i + 1 <= span / window + 1
  {
    var times := AdmitTimes(window, events, key);
    AdmitsAreSpaced(window, events, key);
    SpacedFar(times, window, i, j);
    DivBound(j - i, window, span);
  }

  lemma DivBound(n: nat, w: nat, s: nat)
    requires w > 0 && n * w <= s
    ensures n <= s / w
  {
    assert s == (s / w) * w + s % w;
    SmallerFactor(n, s / w + 1, w);
  }

  lemma SmallerFactor(a: nat, b: nat, w: nat)
    requires a * w < b * w
    ensures a < b
  {
  }

  lemma {:induction false} SpacedAscends(times: seq<nat>, window: nat, i: nat, j: nat)
    requires Spaced(times, window) && i <= j < |times|
    ensures times[i] <= times[j]
  {
    if i < j {
      SpacedAscends(times, window, i, j - 1);
    }
  }

  /** Some admit lies less than a window before `at`. */
  ghost predicate AdmittedRecently(times: seq<nat>, window: nat, at: nat)
  {
    exists t :: t in times && at < t + window
  }

  /** An arrival is suppressed exactly when its key was let through less than a window
      before it. */
  lemma SuppressedIff<K>(window: nat, events: seq<Event<K>>, i: nat)
    requires Usable(window, events) && i < |events| && events[i].Arrive?
    ensures !Answer(window, events, i) <==>
            AdmittedRecently(AdmitTimes(window, events[..i], events[i].key), window, events[i].at)
  {
    var key, last, at := events[i].key, After(window, events[..i]), events[i].at;
    var times := AdmitTimes(window, events[..i], key);
    TableTracks(window, events[..i], key);
    SweptEarlier(events, i, i);
    if window == 0 {
      AdmittedBefore(window, events[..i], key, at);
    }
    LatestDecides(window, last, key, times, LastSweep(events[..i]), at);
    LatestIsRecent(times, window, at);
  }

  /** The table's answer compares the arrival with the latest admit. */
  lemma LatestDecides<K>(window: nat, last: map<K, nat>, key: K, times: seq<nat>, swept: nat, at: nat)
    requires Tracks(window, last, key, times, swept) && swept <= at
    requires window == 0 ==> NoneAfter(times, at)
    ensures !Admits(window, last, key, at) <==> times != [] && at < times[|times| - 1] + window
  {
  }

  lemma LatestIsRecent(times: seq<nat>, window: nat, at: nat)
    requires Spaced(times, window)
    ensures AdmittedRecently(times, window, at) <==> times != [] && at < times[|times| - 1] + window
  {
    if AdmittedRecently(times, window, at) {
      var t :| t in times && at < t + window;
      var j :| 0 <= j < |times| && times[j] == t;
      SpacedAscends(times, window, j, |times| - 1);
    }
    if times != [] {
      assert times[|times| - 1] in times;
    }
  }

  // ----- sweeping is invisible -----

  function WithoutSweeps<K>(events: seq<Event<K>>): seq<Event<K>>
  {
    Filter(events, (e: Event<K>) => e.Arrive?)
  }

  /** Two tables that answer every arrival from `swept` on alike: `b` holds what `a` holds, and
      what else it holds has run out. */
  ghost predicate SameAnswers<K>(window: nat, a: map<K, nat>, b: map<K, nat>, swept: nat)
  {
    && (forall key :: key in a ==> key in b && b[key] == a[key])
    && (forall key :: key in b && key !in a ==> window == 0 || b[key] + window <= swept)
  }

  lemma {:induction false} SweepsLeaveNoTrace<K>(window: nat, events: seq<Event<K>>)
    requires ReadAfterSweeps(events)
    ensures SameAnswers(window, After(window, events), After(window, WithoutSweeps(events)), LastSweep(events))
  {
    if events != [] {
      var n := |events| - 1;
      SweepsLeaveNoTrace(window, events[..n]);
      var front, all := WithoutSweeps(events[..n]), WithoutSweeps(events);
      var a, b, swept := After(window, events[..n]), After(window, front), LastSweep(events[..n]);
      if events[n].Arrive? {
        assert all == front + [events[n]] && all[..|all| - 1] == front;
        SweptEarlier(events, n, n);
        ArriveAlike(window, a, b, swept, events[n].key, events[n].at);
      } else {
        assert all == front;
        SweepAlike(window, a, b, swept, events[n].at);
      }
    }
  }

  lemma ArriveAlike<K>(window: nat, a: map<K, nat>, b: map<K, nat>, swept: nat, key: K, at: nat)
    requires SameAnswers(window, a, b, swept) && swept <= at
    ensures SameAnswers(window, Admitted(window, a, key, at), Admitted(window, b, key, at), swept)
  {
  }

  lemma SweepAlike<K>(window: nat, a: map<K, nat>, b: map<K, nat>, swept: nat, at: nat)
    requires SameAnswers(window, a, b, swept)
    ensures SameAnswers(window, Swept(window, a, at), b, if at > swept then at else swept)
  {
  }

  /** Inserting sweeps anywhere changes no later answer. */
  lemma SweepIsInvisible<K>(window: nat, events: seq<Event<K>>, i: nat)
    requires ReadAfterSweeps(events) && i < |events| && events[i].Arrive?
    ensures Answer(window, events, i) <==>
            Admits(window, After(window, WithoutSweeps(events[..i])), events[i].key, events[i].at)
  {
    SweepsLeaveNoTrace(window, events[..i]);
    SweptEarlier(events, i, i);
  }
}
