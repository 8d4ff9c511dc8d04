/** When the order of the two manifest slices leaves no trace in the plan and its waves. */
module PlanOrder {
  import opened Manifests
  import opened ManifestBodies
  import opened Yaml
  import opened Ordering
  import opened Plan
  import opened Waves

  type Slice = seq<Manifest<Body>>

  // ----- the index of a slice -----

  /** Manifests of one identity have bodies that count as equal. */
  ghost predicate Agree(equal: (Body, Body) -> bool, ms: Slice)
  {
    forall m, n :: m in ms && n in ms && RefOf(m) == RefOf(n) ==> equal(m.body, n.body)
  }

  ghost predicate Alike(equal: (Body, Body) -> bool, a: Bodies, b: Bodies)
  {
    a.Keys == b.Keys && forall r :: r in a && r in b ==> equal(a[r], b[r])
  }

  /** An index holds the identities of its slice, each with the body of one of its manifests. */
  lemma {:induction false} IndexedFrom(ms: Slice, r: ResourceRef)
    ensures r in IndexOf(ms) <==> exists m :: m in ms && RefOf(m) == r
    ensures r in IndexOf(ms) ==> exists m :: m in ms && RefOf(m) == r && m.body == IndexOf(ms)[r]
  {
    if ms != [] {
      var n := |ms| - 1;
      IndexedFrom(ms[..n], r);
      assert ms == ms[..n] + [ms[n]];
    }
  }

  lemma SameMembers<T>(a: seq<T>, b: seq<T>)
    requires multiset(a) == multiset(b)
    ensures forall x :: x in a <==> x in b
  {
    forall x ensures x in a <==> x in b {
      assert x in multiset(a) <==> x in multiset(b);
    }
  }

  lemma IndexesAlike(equal: (Body, Body) -> bool, ms: Slice, ns: Slice)
    requires Agree(equal, ms) && multiset(ms) == multiset(ns)
    ensures Alike(equal, IndexOf(ms), IndexOf(ns))
  {
    SameMembers(ms, ns);
    var a, b := IndexOf(ms), IndexOf(ns);
    forall r ensures (r in a <==> r in b) && (r in a && r in b ==> equal(a[r], b[r])) {
      IndexedAlike(equal, ms, ns, r);
    }
  }

  lemma IndexedAlike(equal: (Body, Body) -> bool, ms: Slice, ns: Slice, r: ResourceRef)
    requires Agree(equal, ms) && forall m :: m in ms <==> m in ns
    ensures r in IndexOf(ms) <==> r in IndexOf(ns)
    ensures r in IndexOf(ms) && r in IndexOf(ns) ==> equal(IndexOf(ms)[r], IndexOf(ns)[r])
  {
    IndexedFrom(ms, r);
    IndexedFrom(ns, r);
  }

  /** The slice with one of its manifests moved to the end. */
  lemma MovedLast(ms: Slice, m: Manifest<Body>) returns (ns: Slice)
    requires m in ms
    ensures multiset(ns) == multiset(ms) && RefOf(m) in IndexOf(ns) && IndexOf(ns)[RefOf(m)] == m.body
  {
    var i :| 0 <= i < |ms| && ms[i] == m;
    ns := ms[..i] + ms[i + 1..] + [m];
    assert ms == ms[..i] + [m] + ms[i + 1..];
    assert ns[..|ns| - 1] == ms[..i] + ms[i + 1..];
  }

  ghost predicate OneIndex(ms: Slice)
  {
    forall ns :: multiset(ns) == multiset(ms) ==> IndexOf(ns) == IndexOf(ms)
  }

  ghost predicate OneBodyEach(ms: Slice)
  {
    forall m, n :: m in ms && n in ms && RefOf(m) == RefOf(n) ==> m.body == n.body
  }

  /** Every reordering of a slice is indexed alike if and only if manifests of one identity have
      one body. */
  lemma IndexIgnoresOrderIff(ms: Slice)
    ensures OneIndex(ms) <==> OneBodyEach(ms)
  {
    if OneBodyEach(ms) {
      forall ns | multiset(ns) == multiset(ms) ensures IndexOf(ns) == IndexOf(ms) {
        IndexesAlike((a: Body, b: Body) => a == b, ms, ns);
      }
    }
    if OneIndex(ms) {
      forall m, n | m in ms && n in ms && RefOf(m) == RefOf(n) ensures m.body == n.body {
        var a := MovedLast(ms, m);
        var b := MovedLast(ms, n);
        assert IndexOf(a) == IndexOf(b);
      }
    }
  }

  // ----- the plan -----

  function Equality<V(==)>(parse: Bytes -> V): (Body, Body) -> bool
  {
    (a: Body, b: Body) => BodiesEqual(parse, a, b)
  }

  lemma PlannedAlike<V>(parse: Bytes -> V, d: Bodies, l: Bodies, d': Bodies, l': Bodies, e: PlanEntry)
    requires Alike(Equality(parse), d, d') && Alike(Equality(parse), l, l')
    ensures Planned(parse, d, l, e) <==> Planned(parse, d', l', e)
  {
    var r := e.resource;
    assert r in d <==> r in d';
    assert r in l <==> r in l';
    if r in d && r in l {
      EqualPairs(parse, d[r], l[r], d'[r], l'[r]);
    }
  }

  lemma EqualPairs<V>(parse: Bytes -> V, a: Body, b: Body, a': Body, b': Body)
    requires Equality(parse)(a, a') && Equality(parse)(b, b')
    ensures BodiesEqual(parse, a, b) <==> BodiesEqual(parse, a', b')
  {
    BodiesEqualIff(parse, a, a');
    BodiesEqualIff(parse, b, b');
    BodiesEqualIff(parse, a, b);
    BodiesEqualIff(parse, a', b');
  }

  /** Replacing bodies of either side by ones that compare equal changes no plan. */
  lemma EqualBodiesPlanAlike<V>(parse: Bytes -> V, d: Bodies, l: Bodies, d': Bodies, l': Bodies,
                                plan: seq<PlanEntry>, plan': seq<PlanEntry>)
    requires Alike(Equality(parse), d, d') && Alike(Equality(parse), l, l')
    requires IsPlan(parse, d, l, plan) && IsPlan(parse, d', l', plan')
    ensures plan == plan'
  {
    forall e ensures Planned(parse, d, l, e) <==> Planned(parse, d', l', e) {
      PlannedAlike(parse, d, l, d', l', e);
    }
    PlanIsUnique(parse, d, l, plan, plan');
  }

  lemma {:induction false} ListingExists<V>(parse: Bytes -> V, d: Bodies, l: Bodies, refs: set<ResourceRef>)
    returns (entries: seq<PlanEntry>)
    requires refs <= d.Keys + l.Keys
    ensures Lists(parse, d, l, refs, entries)
  {
    if refs == {} {
      entries := [];
    } else {
      var r :| r in refs;
      var some := ListingExists(parse, d, l, refs - {r});
      ListsMore(parse, d, l, refs - {r}, some, PlanEntry(r, ActionFor(parse, d, l, r)));
      assert refs - {r} + {r} == refs;
      entries := some + [PlanEntry(r, ActionFor(parse, d, l, r))];
    }
  }

  lemma PlanExists<V>(parse: Bytes -> V, d: Bodies, l: Bodies) returns (plan: seq<PlanEntry>)
    ensures IsPlan(parse, d, l, plan)
  {
    var entries := ListingExists(parse, d, l, d.Keys + l.Keys);
    SortGivesPlan(parse, d, l, entries);
    plan := StableSort(entries, EntryCmp);
  }

  ghost predicate SamePlan<V>(parse: Bytes -> V, d: Bodies, l: Bodies, d': Bodies, l': Bodies)
  {
    forall plan, plan' :: IsPlan(parse, d, l, plan) && IsPlan(parse, d', l', plan') ==> plan == plan'
  }

  /** Two plans differ when an entry of one is none of the other. */
  lemma PlansDiffer<V>(parse: Bytes -> V, d: Bodies, l: Bodies, d': Bodies, l': Bodies, e: PlanEntry)
    requires Planned(parse, d, l, e) && !Planned(parse, d', l', e)
    ensures !SamePlan(parse, d, l, d', l')
  {
    var plan := PlanExists(parse, d, l);
    var plan' := PlanExists(parse, d', l');
    assert e in plan && e !in plan';
  }

  /** As the desired side, against whatever is live, every reordering gives the same plan. */
  ghost predicate DesiredOrderInvisible<V>(parse: Bytes -> V, ms: Slice)
  {
    forall ns: Slice, ns': Slice, live: Bodies :: multiset(ns) == multiset(ms) && multiset(ns') == multiset(ms) ==>
      SamePlan(parse, IndexOf(ns), live, IndexOf(ns'), live)
  }

  /** And so as the live side, against whatever is desired. */
  ghost predicate LiveOrderInvisible<V>(parse: Bytes -> V, ms: Slice)
  {
    forall ns: Slice, ns': Slice, desired: Bodies :: multiset(ns) == multiset(ms) && multiset(ns') == multiset(ms) ==>
      SamePlan(parse, desired, IndexOf(ns), desired, IndexOf(ns'))
  }

  lemma AlikeItself<V>(parse: Bytes -> V, a: Bodies)
    ensures Alike(Equality(parse), a, a)
  {
  }

  lemma ReorderedAlike<V>(parse: Bytes -> V, ms: Slice, ns: Slice, ns': Slice)
    requires Agree(Equality(parse), ms) && multiset(ns) == multiset(ms) && multiset(ns') == multiset(ms)
    ensures Alike(Equality(parse), IndexOf(ns), IndexOf(ns'))
  {
    SameMembers(ms, ns);
    IndexesAlike(Equality(parse), ns, ns');
  }

  lemma AlikeSamePlan<V>(parse: Bytes -> V, d: Bodies, l: Bodies, d': Bodies, l': Bodies)
    requires Alike(Equality(parse), d, d') && Alike(Equality(parse), l, l')
    ensures SamePlan(parse, d, l, d', l')
  {
    forall plan, plan' | IsPlan(parse, d, l, plan) && IsPlan(parse, d', l', plan') ensures plan == plan' {
      EqualBodiesPlanAlike(parse, d, l, d', l', plan, plan');
    }
  }

  /** The order of the desired slice never shows in a plan if and only if its manifests of one
      identity compare equal. */
  lemma DesiredOrderInvisibleIff<V>(parse: Bytes -> V, ms: Slice)
    ensures DesiredOrderInvisible(parse, ms) <==> Agree(Equality(parse), ms)
  {
    if Agree(Equality(parse), ms) {
      forall ns: Slice, ns': Slice, live: Bodies | multiset(ns) == multiset(ms) && multiset(ns') == multiset(ms)
        ensures SamePlan(parse, IndexOf(ns), live, IndexOf(ns'), live)
      {
        ReorderedAlike(parse, ms, ns, ns');
        AlikeItself(parse, live);
        AlikeSamePlan(parse, IndexOf(ns), live, IndexOf(ns'), live);
      }
    } else {
      var m, n :| m in ms && n in ms && RefOf(m) == RefOf(n) && !Equality(parse)(m.body, n.body);
      var a := MovedLast(ms, m);
      var b := MovedLast(ms, n);
      var r, live := RefOf(m), map[RefOf(m) := m.body];
      BodiesEqualEquivalence(parse, m.body, n.body, m.body);
      PlansDiffer(parse, IndexOf(a), live, IndexOf(b), live, PlanEntry(r, NoOp));
    }
  }

  /** The order of the live slice never shows in a plan if and only if its manifests of one
      identity compare equal. */
  lemma LiveOrderInvisibleIff<V>(parse: Bytes -> V, ms: Slice)
    ensures LiveOrderInvisible(parse, ms) <==> Agree(Equality(parse), ms)
  {
    if Agree(Equality(parse), ms) {
      forall ns: Slice, ns': Slice, desired: Bodies | multiset(ns) == multiset(ms) && multiset(ns') == multiset(ms)
        ensures SamePlan(parse, desired, IndexOf(ns), desired, IndexOf(ns'))
      {
        ReorderedAlike(parse, ms, ns, ns');
        AlikeItself(parse, desired);
        AlikeSamePlan(parse, desired, IndexOf(ns), desired, IndexOf(ns'));
      }
    } else {
      var m, n :| m in ms && n in ms && RefOf(m) == RefOf(n) && !Equality(parse)(m.body, n.body);
      var a := MovedLast(ms, m);
      var b := MovedLast(ms, n);
      var r, desired := RefOf(m), map[RefOf(m) := m.body];
      BodiesEqualEquivalence(parse, m.body, n.body, m.body);
      PlansDiffer(parse, desired, IndexOf(a), desired, IndexOf(b), PlanEntry(r, NoOp));
    }
  }

  // ----- the waves -----

  /** What is filled in comes from the live slice, and only where nothing stood. */
  lemma {:induction false} FilledFrom(byRef: Bodies, live: Slice, r: ResourceRef)
    ensures r in byRef ==> r in FilledIn(byRef, live) && FilledIn(byRef, live)[r] == byRef[r]
    ensures r !in byRef ==> (r in FilledIn(byRef, live) <==> exists m :: m in live && RefOf(m) == r)
    ensures r in FilledIn(byRef, live) && r !in byRef ==>
              exists m :: m in live && RefOf(m) == r && m.body == FilledIn(byRef, live)[r]
  {
    if live != [] {
      var n := |live| - 1;
      FilledFrom(byRef, live[..n], r);
      assert live == live[..n] + [live[n]];
    }
  }

  lemma FilledAlike(equal: (Body, Body) -> bool, a: Bodies, b: Bodies, ms: Slice, ns: Slice)
    requires Alike(equal, a, b) && Agree(equal, ms) && multiset(ms) == multiset(ns)
    ensures Alike(equal, FilledIn(a, ms), FilledIn(b, ns))
  {
    SameMembers(ms, ns);
    forall r ensures r in FilledIn(a, ms) <==> r in FilledIn(b, ns) {
      FilledFrom(a, ms, r);
      FilledFrom(b, ns, r);
      assert r in a.Keys <==> r in b.Keys;
    }
    forall r | r in FilledIn(a, ms) && r in FilledIn(b, ns) ensures equal(FilledIn(a, ms)[r], FilledIn(b, ns)[r]) {
      FilledFrom(a, ms, r);
      FilledFrom(b, ns, r);
      assert r in a.Keys <==> r in b.Keys;
    }
  }

  /** Bodies that compare equal carry the same wave. */
  lemma WaveAlike(parse: Bytes -> Value, a: Bodies, b: Bodies, r: ResourceRef)
    requires Alike(Equality(parse), a, b)
    ensures WaveOfRef(parse, a, r) == WaveOfRef(parse, b, r)
  {
    assert r in a.Keys <==> r in b.Keys;
    if r in a {
      assert Equality(parse)(a[r], b[r]);
      BodiesEqualIff(parse, a[r], b[r]);
    }
  }

  lemma {:induction false} EntriesAlike(f: ResourceRef -> int, g: ResourceRef -> int, entries: seq<PlanEntry>,
                                        wave: int)
    requires forall r :: f(r) == g(r)
    ensures EntriesOfWave(f, entries, wave) == EntriesOfWave(g, entries, wave)
  {
    if entries != [] {
      var n := |entries| - 1;
      EntriesAlike(f, g, entries[..n], wave);
      WaveSnoc(f, entries[..n], entries[n], wave);
      WaveSnoc(g, entries[..n], entries[n], wave);
      assert entries[..n] + [entries[n]] == entries;
    }
  }

  lemma WaveSnoc(f: ResourceRef -> int, entries: seq<PlanEntry>, e: PlanEntry, wave: int)
    ensures EntriesOfWave(f, entries + [e], wave) ==
            EntriesOfWave(f, entries, wave) + (if f(e.resource) == wave then [e] else [])
  {
    assert (entries + [e])[..|entries|] == entries;
  }

  lemma WavePlanAlike(f: ResourceRef -> int, g: ResourceRef -> int, entries: seq<PlanEntry>, waves: seq<WaveGroup>)
    requires forall r :: f(r) == g(r)
    requires IsWavePlan(f, entries, waves)
    ensures IsWavePlan(g, entries, waves)
  {
    forall w ensures EntriesOfWave(f, entries, w) == EntriesOfWave(g, entries, w) {
      EntriesAlike(f, g, entries, w);
    }
  }

  /** The whole planning pipeline is a function of the two manifest collections: when manifests
      of one identity compare equal on each side, reordering either slice, or any choice of hash
      iteration order along the way, changes neither the plan nor its waves. */
  lemma PlanningIsDeterministic(parse: Bytes -> Value, desired: Slice, live: Slice, desired': Slice, live': Slice,
                                plan: seq<PlanEntry>, plan': seq<PlanEntry>,
                                waves: seq<WaveGroup>, waves': seq<WaveGroup>)
    requires Agree(Equality(parse), desired) && multiset(desired) == multiset(desired')
    requires Agree(Equality(parse), live) && multiset(live) == multiset(live')
    requires IsPlan(parse, IndexOf(desired), IndexOf(live), plan)
    requires IsPlan(parse, IndexOf(desired'), IndexOf(live'), plan')
    requires var byRef := Deciding(desired, live); IsWavePlan(r => WaveOfRef(parse, byRef, r), plan, waves)
    requires var byRef := Deciding(desired', live'); IsWavePlan(r => WaveOfRef(parse, byRef, r), plan', waves')
    ensures plan == plan' && waves == waves'
  {
    var equal := Equality(parse);
    IndexesAlike(equal, desired, desired');
    IndexesAlike(equal, live, live');
    EqualBodiesPlanAlike(parse, IndexOf(desired), IndexOf(live), IndexOf(desired'), IndexOf(live'), plan, plan');
    FilledAlike(equal, IndexOf(desired), IndexOf(desired'), live, live');
    SameWaves(parse, Deciding(desired, live), Deciding(desired', live'), plan, waves, waves');
  }

  lemma SameWaves(parse: Bytes -> Value, a: Bodies, b: Bodies, plan: seq<PlanEntry>,
                  waves: seq<WaveGroup>, waves': seq<WaveGroup>)
    requires Alike(Equality(parse), a, b)
    requires IsWavePlan(r => WaveOfRef(parse, a, r), plan, waves)
    requires IsWavePlan(r => WaveOfRef(parse, b, r), plan, waves')
    ensures waves == waves'
  {
    var f, g := r => WaveOfRef(parse, a, r), r => WaveOfRef(parse, b, r);
    forall r ensures f(r) == g(r) {
      WaveAlike(parse, a, b, r);
    }
    WavePlanAlike(f, g, plan, waves);
    WavePlanIsUnique(g, plan, waves, waves');
  }
}
