/** The planner: desired against live, resource by resource, in identity order. */
module Plan {
  import opened Common
  import opened Manifests
  import opened ManifestBodies
  import opened Ordering

  datatype PlannedAction = Apply | Delete | NoOp

  datatype PlanEntry = PlanEntry(resource: ResourceRef, action: PlannedAction)

  type Bodies = map<ResourceRef, Body>

  /** Group, version, kind, namespace, name. */
  function SortKeyCmp(a: ResourceRef, b: ResourceRef): Cmp
  {
    CmpString(a.gvk.group, b.gvk.group).Then(
      CmpString(a.gvk.version, b.gvk.version).Then(
        CmpString(a.gvk.kind, b.gvk.kind).Then(
          CmpOption(a.namespace, b.namespace).Then(
            CmpString(a.name, b.name)))))
  }

  function EntryCmp(a: PlanEntry, b: PlanEntry): Cmp
  {
    SortKeyCmp(a.resource, b.resource)
  }

  /** The sort key is a total order, and only equal resources share a key. */
  lemma SortKeyLaws(a: ResourceRef, b: ResourceRef, c: ResourceRef)
    ensures SortKeyCmp(a, b) == Equal <==> a == b
    ensures SortKeyCmp(b, a) == SortKeyCmp(a, b).Reverse()
    ensures Chain(SortKeyCmp(a, b), SortKeyCmp(b, c), SortKeyCmp(a, c))
  {
    CmpStringLaws(a.gvk.group, b.gvk.group, c.gvk.group);
    CmpStringLaws(a.gvk.version, b.gvk.version, c.gvk.version);
    CmpStringLaws(a.gvk.kind, b.gvk.kind, c.gvk.kind);
    CmpOptionLaws(a.namespace, b.namespace, c.namespace);
    CmpStringLaws(a.name, b.name, c.name);
  }

  lemma EntryCmpLawful()
    ensures Lawful(EntryCmp)
  {
    forall a, b, c
      ensures EntryCmp(b, a) == EntryCmp(a, b).Reverse()
      ensures Chain(EntryCmp(a, b), EntryCmp(b, c), EntryCmp(a, c))
    {
      SortKeyLaws(a.resource, b.resource, c.resource);
    }
  }

  /** The last manifest of each identity wins. */
  function IndexOf(ms: seq<Manifest<Body>>): Bodies
  {
    if ms == [] then map[]
    else IndexOf(ms[..|ms| - 1])[RefOf(ms[|ms| - 1]) := ms[|ms| - 1].body]
  }

  function ActionFor<V(==)>(parse: Bytes -> V, desired: Bodies, live: Bodies, r: ResourceRef): PlannedAction
    requires r in desired || r in live
  {
    if r !in desired then Delete
    else if r in live && BodiesEqual(parse, desired[r], live[r]) then NoOp
    else Apply
  }

  predicate Planned<V(==)>(parse: Bytes -> V, desired: Bodies, live: Bodies, e: PlanEntry)
  {
    (e.resource in desired || e.resource in live) && e.action == ActionFor(parse, desired, live, e.resource)
  }

  /** One entry for every resource of either side, in strictly ascending identity order. */
  ghost predicate IsPlan<V>(parse: Bytes -> V, desired: Bodies, live: Bodies, entries: seq<PlanEntry>)
  {
    Ascending(entries, EntryCmp) && forall e :: e in entries <==> Planned(parse, desired, live, e)
  }

  // ----- the plan, read off the manifests' own fields -----

  predicate Names(m: Manifest<Body>, r: ResourceRef)
  {
    m.gvk == r.gvk && m.namespace == r.namespace && m.name == r.name
  }

  /** The `i`-th manifest is the last one of this resource. */
  predicate LastOf(ms: seq<Manifest<Body>>, i: int, r: ResourceRef)
  {
    0 <= i < |ms| && Names(ms[i], r) && forall j :: i < j < |ms| ==> !Names(ms[j], r)
  }

  predicate Absent(ms: seq<Manifest<Body>>, r: ResourceRef)
  {
    forall i :: 0 <= i < |ms| ==> !Names(ms[i], r)
  }

  /** Equal hashes of the bytes and equal values of the text. */
  predicate SameBody<V(==)>(parse: Bytes -> V, a: Body, b: Body)
  {
    Fnv(a.bytes) == Fnv(b.bytes) && parse(a.bytes) == parse(b.bytes)
  }

  /** What is to be done with a resource, by the last manifest of it on either side. */
  ghost predicate RightAction<V>(parse: Bytes -> V, desired: seq<Manifest<Body>>, live: seq<Manifest<Body>>,
                                 e: PlanEntry)
  {
    var r := e.resource;
    match e.action
    case Delete => Absent(desired, r) && !Absent(live, r)
    case NoOp =>
      exists i, j :: LastOf(desired, i, r) && LastOf(live, j, r) && SameBody(parse, desired[i].body, live[j].body)
    case Apply =>
      exists i :: LastOf(desired, i, r) &&
        forall j :: LastOf(live, j, r) ==> !SameBody(parse, desired[i].body, live[j].body)
  }

  /** Group, version, kind, namespace (none before any), name: the first that differs decides. */
  ghost predicate RefBefore(a: ResourceRef, b: ResourceRef)
  {
    if a.gvk.group != b.gvk.group then TextBefore(a.gvk.group, b.gvk.group)
    else if a.gvk.version != b.gvk.version then TextBefore(a.gvk.version, b.gvk.version)
    else if a.gvk.kind != b.gvk.kind then TextBefore(a.gvk.kind, b.gvk.kind)
    else if a.namespace != b.namespace then
      a.namespace.None? || (b.namespace.Some? && TextBefore(a.namespace.value, b.namespace.value))
    else TextBefore(a.name, b.name)
  }

  /** One entry with the right action for every resource of either side, in ascending order. */
  ghost predicate PlansManifests<V>(parse: Bytes -> V, desired: seq<Manifest<Body>>, live: seq<Manifest<Body>>,
                                    entries: seq<PlanEntry>)
  {
    && (forall m :: m in desired || m in live ==>
          exists i :: 0 <= i < |entries| && entries[i].resource == ResourceRef(m.gvk, m.namespace, m.name))
    && (forall i :: 0 <= i < |entries| ==> RightAction(parse, desired, live, entries[i]))
    && (forall i, j :: 0 <= i < j < |entries| ==> RefBefore(entries[i].resource, entries[j].resource))
  }

  lemma SortKeyIs(a: ResourceRef, b: ResourceRef)
    ensures SortKeyCmp(a, b) == Less <==> RefBefore(a, b)
  {
    CmpStringIs(a.gvk.group, b.gvk.group);
    CmpStringIs(a.gvk.version, b.gvk.version);
    CmpStringIs(a.gvk.kind, b.gvk.kind);
    CmpStringIs(a.name, b.name);
    if a.namespace.Some? && b.namespace.Some? {
      CmpStringIs(a.namespace.value, b.namespace.value);
    }
  }

  lemma {:induction false} IndexedLast(ms: seq<Manifest<Body>>, r: ResourceRef)
    ensures r in IndexOf(ms) <==> !Absent(ms, r)
    ensures r in IndexOf(ms) ==> exists i :: LastOf(ms, i, r)
    ensures forall i :: LastOf(ms, i, r) ==> r in IndexOf(ms) && IndexOf(ms)[r] == ms[i].body
  {
    if ms != [] {
      var n := |ms| - 1;
      IndexedLast(ms[..n], r);
      assert Names(ms[n], r) <==> RefOf(ms[n]) == r;
      if Names(ms[n], r) {
        assert LastOf(ms, n, r);
      } else {
        LastBefore(ms, r);
        if r in IndexOf(ms[..n]) {
          var i :| LastOf(ms[..n], i, r);
          assert LastOf(ms, i, r);
        }
      }
    }
  }

  lemma LastBefore(ms: seq<Manifest<Body>>, r: ResourceRef)
    requires ms != [] && !Names(ms[|ms| - 1], r)
    ensures forall i :: LastOf(ms, i, r) <==> LastOf(ms[..|ms| - 1], i, r)
    ensures Absent(ms, r) <==> Absent(ms[..|ms| - 1], r)
  {
    var n := |ms| - 1;
    forall i ensures LastOf(ms, i, r) <==> LastOf(ms[..n], i, r) {
      if LastOf(ms[..n], i, r) {
        assert forall j :: i < j < n ==> ms[..n][j] == ms[j];
      }
      if LastOf(ms, i, r) {
        assert ms[..n][i] == ms[i];
      }
    }
    assert forall i :: 0 <= i < n ==> ms[..n][i] == ms[i];
  }

  lemma RightWhenPlanned<V>(parse: Bytes -> V, desired: seq<Manifest<Body>>, live: seq<Manifest<Body>>, e: PlanEntry)
    requires Planned(parse, IndexOf(desired), IndexOf(live), e)
    ensures RightAction(parse, desired, live, e)
  {
    var r, d, l := e.resource, IndexOf(desired), IndexOf(live);
    IndexedLast(desired, r);
    IndexedLast(live, r);
    if r in d {
      var i :| LastOf(desired, i, r);
      if r in l {
        var j :| LastOf(live, j, r);
        BodiesEqualIff(parse, d[r], l[r]);
        assert SameBody(parse, desired[i].body, live[j].body) <==> e.action == NoOp;
      }
    }
  }

  lemma PlanOfManifests<V>(parse: Bytes -> V, desired: seq<Manifest<Body>>, live: seq<Manifest<Body>>,
                           entries: seq<PlanEntry>)
    requires IsPlan(parse, IndexOf(desired), IndexOf(live), entries)
    ensures PlansManifests(parse, desired, live, entries)
  {
    forall m | m in desired || m in live
      ensures exists i :: 0 <= i < |entries| && entries[i].resource == ResourceRef(m.gvk, m.namespace, m.name)
    {
      var r := ResourceRef(m.gvk, m.namespace, m.name);
      Present(desired, m);
      Present(live, m);
      var e := PlanEntry(r, ActionFor(parse, IndexOf(desired), IndexOf(live), r));
      assert e in entries;
    }
    forall i | 0 <= i < |entries| ensures RightAction(parse, desired, live, entries[i]) {
      assert entries[i] in entries;
      RightWhenPlanned(parse, desired, live, entries[i]);
    }
    forall i, j | 0 <= i < j < |entries| ensures RefBefore(entries[i].resource, entries[j].resource) {
      SortKeyIs(entries[i].resource, entries[j].resource);
    }
  }

  lemma Present(ms: seq<Manifest<Body>>, m: Manifest<Body>)
    ensures m in ms ==> ResourceRef(m.gvk, m.namespace, m.name) in IndexOf(ms)
  {
    var r := ResourceRef(m.gvk, m.namespace, m.name);
    IndexedLast(ms, r);
    if m in ms {
      var i :| 0 <= i < |ms| && ms[i] == m;
      assert Names(ms[i], r);
    }
  }

  /** The two passes over hash maps (any iteration order), then the sort. */
  method MakePlan<V(==)>(parse: Bytes -> V, desired: seq<Manifest<Body>>, live: seq<Manifest<Body>>)
    returns (entries: seq<PlanEntry>)
    ensures PlansManifests(parse, desired, live, entries)
    ensures IsPlan(parse, IndexOf(desired), IndexOf(live), entries)
  {
    var desiredByRef := BuildIndex(desired);
    var liveByRef := BuildIndex(live);
    entries := ListDesired(parse, desiredByRef, liveByRef);
    entries := ListOrphans(parse, desiredByRef, liveByRef, entries);
    SortGivesPlan(parse, desiredByRef, liveByRef, entries);
    entries := StableSort(entries, EntryCmp);
    PlanOfManifests(parse, desired, live, entries);
  }

  /** Every desired resource: in sync, or to be applied. */
  method ListDesired<V(==)>(parse: Bytes -> V, desired: Bodies, live: Bodies) returns (entries: seq<PlanEntry>)
    ensures Lists(parse, desired, live, desired.Keys, entries)
  {
    entries := [];
    var todo := desired.Keys;
    ghost var done: set<ResourceRef> := {};
    while todo != {}
      invariant done + todo == desired.Keys && done !! todo
      invariant Lists(parse, desired, live, done, entries)
      decreases |todo|
    {
      var r := Pick(todo);
      var action := if r in live && BodiesEqual(parse, desired[r], live[r]) then NoOp else Apply;
      DesiredAction(parse, desired, live, r);
      ListsMore(parse, desired, live, done, entries, PlanEntry(r, action));
      entries := entries + [PlanEntry(r, action)];
      todo, done := todo - {r}, done + {r};
    }
  }

  lemma DesiredAction<V>(parse: Bytes -> V, desired: Bodies, live: Bodies, r: ResourceRef)
    requires r in desired
    ensures var action := if r in live && BodiesEqual(parse, desired[r], live[r]) then NoOp else Apply;
            Planned(parse, desired, live, PlanEntry(r, action))
  {
  }

  /** Every live resource desired lacks: to be deleted. */
  method ListOrphans<V(==)>(parse: Bytes -> V, desired: Bodies, live: Bodies, listed: seq<PlanEntry>)
    returns (entries: seq<PlanEntry>)
    requires Lists(parse, desired, live, desired.Keys, listed)
    ensures Lists(parse, desired, live, desired.Keys + live.Keys, entries)
  {
    entries := listed;
    var todo := live.Keys;
    ghost var done := desired.Keys;
    while todo != {}
      invariant desired.Keys <= done <= desired.Keys + live.Keys <= done + todo
      invariant todo <= live.Keys && todo * done <= desired.Keys
      invariant Lists(parse, desired, live, done, entries)
      decreases |todo|
    {
      var r := Pick(todo);
      if r !in desired {
        entries := ListOrphan(parse, desired, live, done, entries, r);
        done := done + {r};
      }
      todo := todo - {r};
    }
  }

  method ListOrphan<V(==)>(parse: Bytes -> V, desired: Bodies, live: Bodies, ghost done: set<ResourceRef>,
                           listed: seq<PlanEntry>, r: ResourceRef)
    returns (entries: seq<PlanEntry>)
    requires Lists(parse, desired, live, done, listed) && r !in done && r in live && r !in desired
    ensures Lists(parse, desired, live, done + {r}, entries)
    ensures entries == listed + [PlanEntry(r, Delete)]
  {
    ListsMore(parse, desired, live, done, listed, PlanEntry(r, Delete));
    entries := listed + [PlanEntry(r, Delete)];
  }

  method BuildIndex(ms: seq<Manifest<Body>>) returns (byRef: Bodies)
    ensures byRef == IndexOf(ms)
  {
    byRef := map[];
    for i := 0 to |ms|
      invariant byRef == IndexOf(ms[..i])
    {
      assert ms[..i + 1][..i] == ms[..i];
      byRef := byRef[RefOf(ms[i]) := ms[i].body];
    }
    assert ms[..|ms|] == ms;
  }

  /** `entries` lists the planned entry of every resource in `refs`, once, in some order. */
  ghost predicate Lists<V>(parse: Bytes -> V, desired: Bodies, live: Bodies, refs: set<ResourceRef>,
                           entries: seq<PlanEntry>)
  {
    && (forall i, j :: 0 <= i < j < |entries| ==> entries[i].resource != entries[j].resource)
    && (forall e :: e in entries <==> e.resource in refs && Planned(parse, desired, live, e))
  }

  lemma ListsMore<V>(parse: Bytes -> V, desired: Bodies, live: Bodies, refs: set<ResourceRef>,
                     entries: seq<PlanEntry>, e: PlanEntry)
    requires Lists(parse, desired, live, refs, entries)
    requires e.resource !in refs && Planned(parse, desired, live, e)
    ensures Lists(parse, desired, live, refs + {e.resource}, entries + [e])
  {
    forall i | 0 <= i < |entries| ensures entries[i].resource != e.resource
    {
      assert entries[i] in entries;
    }
  }

  lemma SortGivesPlan<V>(parse: Bytes -> V, desired: Bodies, live: Bodies, entries: seq<PlanEntry>)
    requires Lists(parse, desired, live, desired.Keys + live.Keys, entries)
    ensures IsPlan(parse, desired, live, StableSort(entries, EntryCmp))
  {
    EntryCmpLawful();
    forall i, j | 0 <= i < j < |entries| ensures EntryCmp(entries[i], entries[j]) != Equal
    {
      SortKeyLaws(entries[i].resource, entries[j].resource, entries[j].resource);
    }
    SortAscending(entries, EntryCmp);
    forall e ensures e in StableSort(entries, EntryCmp) <==> Planned(parse, desired, live, e)
    {
      SortMember(entries, EntryCmp, e);
    }
  }

  // ----- determinism -----

  /** The two maps determine the plan: hash iteration order leaves no trace. */
  lemma PlanIsUnique<V>(parse: Bytes -> V, desired: Bodies, live: Bodies, p: seq<PlanEntry>, q: seq<PlanEntry>)
    requires IsPlan(parse, desired, live, p) && IsPlan(parse, desired, live, q)
    ensures p == q
  {
    EntryCmpLawful();
    AscendingIsUnique(p, q, EntryCmp);
  }

  // ----- what an empty change list means -----

  function Changed(entries: seq<PlanEntry>): seq<PlanEntry>
  {
    Filter(entries, (e: PlanEntry) => e.action != NoOp)
  }

  /** Nothing is left to do if and only if the cluster holds exactly the desired resources,
      each with the desired hash and the desired value. */
  lemma NothingToDoIff<V>(parse: Bytes -> V, desired: Bodies, live: Bodies, plan: seq<PlanEntry>)
    requires IsPlan(parse, desired, live, plan)
    ensures Changed(plan) == [] <==>
            && desired.Keys == live.Keys
            && forall r :: r in desired && r in live ==>
                 Fnv(desired[r].bytes) == Fnv(live[r].bytes) && parse(desired[r].bytes) == parse(live[r].bytes)
  {
    forall r | r in desired || r in live
      ensures PlanEntry(r, ActionFor(parse, desired, live, r)) in plan
      ensures PlanEntry(r, ActionFor(parse, desired, live, r)) in Changed(plan) <==>
              ActionFor(parse, desired, live, r) != NoOp
    {
      var e := PlanEntry(r, ActionFor(parse, desired, live, r));
      assert Planned(parse, desired, live, e);
      FilterMember(plan, (x: PlanEntry) => x.action != NoOp, e);
      if r in desired && r in live {
        BodiesEqualIff(parse, desired[r], live[r]);
      }
    }
    if Changed(plan) != [] {
      var e := Changed(plan)[0];
      FilterMember(plan, (x: PlanEntry) => x.action != NoOp, e);
      assert Planned(parse, desired, live, e);
      if e.resource in desired && e.resource in live {
        BodiesEqualIff(parse, desired[e.resource], live[e.resource]);
      }
    }
  }

  // ----- convergence and restart -----

  /** What carrying out one entry does to the cluster. */
  function Effect(desired: Bodies, cluster: Bodies, e: PlanEntry): Bodies
  {
    match e.action
    case Apply => if e.resource in desired then cluster[e.resource := desired[e.resource]] else cluster
    case Delete => cluster - {e.resource}
    case NoOp => cluster
  }

  function Effects(desired: Bodies, cluster: Bodies, done: seq<PlanEntry>): Bodies
  {
    if done == [] then cluster
    else Effect(desired, Effects(desired, cluster, done[..|done| - 1]), done[|done| - 1])
  }

  /** The cluster after any of the planned entries were carried out, in any order. */
  lemma {:induction false} ClusterAfter<V>(parse: Bytes -> V, desired: Bodies, live: Bodies,
                                           done: seq<PlanEntry>, r: ResourceRef)
    requires forall e :: e in done ==> Planned(parse, desired, live, e)
    ensures var after := Effects(desired, live, done);
            if PlanEntry(r, Apply) in done then r in after && r in desired && after[r] == desired[r]
            else if PlanEntry(r, Delete) in done then r !in after
            else (r in after <==> r in live) && (r in live ==> after[r] == live[r])
  {
    if done != [] {
      var n := |done| - 1;
      assert done == done[..n] + [done[n]];
      ClusterAfter(parse, desired, live, done[..n], r);
      assert Planned(parse, desired, live, done[n]);
      assert PlanEntry(r, Apply) in done && PlanEntry(r, Delete) in done ==>
        Planned(parse, desired, live, PlanEntry(r, Apply)) && Planned(parse, desired, live, PlanEntry(r, Delete));
    }
  }

  /** Planning again after a partial run finds exactly the entries not yet carried out. */
  lemma RestartPlansTheRest<V>(parse: Bytes -> V, desired: Bodies, live: Bodies,
                               plan: seq<PlanEntry>, done: seq<PlanEntry>, again: seq<PlanEntry>)
    requires IsPlan(parse, desired, live, plan)
    requires forall e :: e in done ==> e in Changed(plan)
    requires IsPlan(parse, desired, Effects(desired, live, done), again)
    ensures Changed(again) == Filter(Changed(plan), (e: PlanEntry) => e !in done)
  {
    var rest := Filter(Changed(plan), (e: PlanEntry) => e !in done);
    EntryCmpLawful();
    FilterAscending(plan, EntryCmp, (e: PlanEntry) => e.action != NoOp);
    FilterAscending(Changed(plan), EntryCmp, (e: PlanEntry) => e !in done);
    FilterAscending(again, EntryCmp, (e: PlanEntry) => e.action != NoOp);
    forall e | e in done ensures Planned(parse, desired, live, e) && e.action != NoOp
    {
      FilterMember(plan, (x: PlanEntry) => x.action != NoOp, e);
    }
    forall e ensures e in Changed(again) <==> e in rest
    {
      FilterMember(again, (x: PlanEntry) => x.action != NoOp, e);
      FilterMember(plan, (x: PlanEntry) => x.action != NoOp, e);
      FilterMember(Changed(plan), (x: PlanEntry) => x !in done, e);
      StillPlanned(parse, desired, live, done, e);
    }
    AscendingIsUnique(Changed(again), rest, EntryCmp);
  }

  lemma StillPlanned<V>(parse: Bytes -> V, desired: Bodies, live: Bodies, done: seq<PlanEntry>, e: PlanEntry)
    requires forall x :: x in done ==> Planned(parse, desired, live, x) && x.action != NoOp
    ensures Planned(parse, desired, Effects(desired, live, done), e) && e.action != NoOp <==>
            Planned(parse, desired, live, e) && e.action != NoOp && e !in done
  {
    var r := e.resource;
    ClusterAfter(parse, desired, live, done, r);
    assert e in done ==> Planned(parse, desired, live, e);
    assert PlanEntry(r, Apply) in done ==> Planned(parse, desired, live, PlanEntry(r, Apply));
    assert PlanEntry(r, Delete) in done ==> Planned(parse, desired, live, PlanEntry(r, Delete));
    assert e == PlanEntry(r, e.action);
  }

  /** A run that carried out every change leaves nothing to do, and a retry after any
      progress has strictly fewer changes left. */
  lemma ChangesDrop<V>(parse: Bytes -> V, desired: Bodies, live: Bodies,
                       plan: seq<PlanEntry>, done: seq<PlanEntry>, again: seq<PlanEntry>)
    requires IsPlan(parse, desired, live, plan)
    requires forall e :: e in done ==> e in Changed(plan)
    requires IsPlan(parse, desired, Effects(desired, live, done), again)
    ensures done != [] ==> |Changed(again)| < |Changed(plan)|
    ensures (forall e :: e in Changed(plan) ==> e in done) ==> Changed(again) == []
  {
    RestartPlansTheRest(parse, desired, live, plan, done, again);
    if done != [] {
      FilterDrops(Changed(plan), (e: PlanEntry) => e !in done, done[0]);
    }
    if forall e :: e in Changed(plan) ==> e in done {
      FilterNone(Changed(plan), (e: PlanEntry) => e !in done);
    }
  }

  lemma {:induction false} FilterDrops<T>(s: seq<T>, p: T -> bool, x: T)
    requires x in s && !p(x)
    ensures |Filter(s, p)| < |s|
  {
    var n := |s| - 1;
    if x in s[..n] {
      FilterDrops(s[..n], p, x);
    } else {
      assert s == s[..n] + [s[n]];
    }
  }
}
