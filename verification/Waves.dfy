/** Sync waves: reading the annotation and splitting a plan into ordered waves. */
module Waves {
  import opened Common
  import opened Yaml
  import opened Text
  import opened Manifests
  import opened ManifestBodies
  import opened Ordering
  import opened Plan
  import opened KindOrder

  const SYNCHROTRON_WAVE_ANNOTATION := "synchrotron.io/sync-wave"
  const ARGOCD_WAVE_ANNOTATION := "argocd.argoproj.io/sync-wave"
  const DEFAULT_WAVE: int := 0
  const I64_MIN: int := -0x8000_0000_0000_0000
  const I64_MAX: int := 0x7fff_ffff_ffff_ffff

  function Clamp(n: int): int
  {
    if n < I32_MIN then I32_MIN else if n > I32_MAX then I32_MAX else n
  }

  /** One annotation: a string that parses, or an integer scalar, clamped. */
  function WaveAnnotation(annotations: Value, key: string): Option<int>
  {
    match Get(annotations, key)
    case Some(String(raw)) => ParseI32(Trim(raw))
    case Some(Number(Int(n))) => if I64_MIN <= n <= I64_MAX then Some(Clamp(n)) else None
    case _ => None
  }

  function Annotations(body: Value): Option<Value>
  {
    match Get(body, "metadata")
    case Some(meta) => Get(meta, "annotations")
    case None => None
  }

  function WaveOf(body: Value): int
  {
    match Annotations(body)
    case None => DEFAULT_WAVE
    case Some(annotations) =>
      match WaveAnnotation(annotations, SYNCHROTRON_WAVE_ANNOTATION)
      case Some(n) => n
      case None =>
        match WaveAnnotation(annotations, ARGOCD_WAVE_ANNOTATION)
        case Some(n) => n
        case None => DEFAULT_WAVE
  }

  /** Either spelling of a 32-bit wave number is read back as that number. */
  lemma WaveRoundTrip(body: Value, wave: int)
    requires I32_MIN <= wave <= I32_MAX && Annotations(body).Some?
    requires Get(Annotations(body).value, SYNCHROTRON_WAVE_ANNOTATION) in
               {Some(String(IntToString(wave))), Some(Number(Int(wave)))}
    ensures WaveOf(body) == wave
  {
    IntRoundTrip(wave);
  }

  /** The Argo key decides exactly when the preferred key gives no number: absent, or
      present and unreadable. */
  lemma ArgoFallback(body: Value, wave: int)
    requires Annotations(body).Some?
    requires WaveAnnotation(Annotations(body).value, ARGOCD_WAVE_ANNOTATION) == Some(wave)
    ensures WaveAnnotation(Annotations(body).value, SYNCHROTRON_WAVE_ANNOTATION).None? ==> WaveOf(body) == wave
    ensures WaveAnnotation(Annotations(body).value, SYNCHROTRON_WAVE_ANNOTATION).Some? ==>
              WaveOf(body) == WaveAnnotation(Annotations(body).value, SYNCHROTRON_WAVE_ANNOTATION).value
  {
  }

  /** An Argo CD wave crosses over unchanged when the preferred key is absent or unreadable. */
  lemma ArgoWaveRoundTrip(body: Value, wave: int)
    requires I32_MIN <= wave <= I32_MAX && Annotations(body).Some?
    requires Get(Annotations(body).value, ARGOCD_WAVE_ANNOTATION) in
               {Some(String(IntToString(wave))), Some(Number(Int(wave)))}
    ensures WaveAnnotation(Annotations(body).value, SYNCHROTRON_WAVE_ANNOTATION).None? ==> WaveOf(body) == wave
  {
    IntRoundTrip(wave);
    ArgoFallback(body, wave);
  }

  // ----- grouping -----

  datatype WaveGroup = WaveGroup(wave: int, entries: seq<PlanEntry>)

  function CmpWave(a: WaveGroup, b: WaveGroup): Cmp
  {
    CmpInt(a.wave, b.wave)
  }

  lemma CmpWaveLawful()
    ensures Lawful(CmpWave)
  {
  }

  /** Live manifests fill in where nothing stands yet: the first of an identity stays. */
  function FilledIn(byRef: Bodies, live: seq<Manifest<Body>>): Bodies
  {
    if live == [] then byRef
    else
      var before, m := FilledIn(byRef, live[..|live| - 1]), live[|live| - 1];
      if RefOf(m) in before then before else before[RefOf(m) := m.body]
  }

  /** The bodies that decide the waves. */
  function Deciding(desired: seq<Manifest<Body>>, live: seq<Manifest<Body>>): Bodies
  {
    FilledIn(IndexOf(desired), live)
  }

  function WaveOfRef(parse: Bytes -> Value, byRef: Bodies, r: ResourceRef): int
  {
    if r in byRef then WaveOf(parse(byRef[r].bytes)) else DEFAULT_WAVE
  }

  /** Desired's last manifest of an identity decides; without one live's first does. */
  lemma {:induction false} FirstLiveFillsIn(byRef: Bodies, live: seq<Manifest<Body>>, i: nat)
    requires i < |live| && forall j :: 0 <= j < i ==> RefOf(live[j]) != RefOf(live[i])
    ensures var r := RefOf(live[i]);
            r in FilledIn(byRef, live) && FilledIn(byRef, live)[r] == if r in byRef then byRef[r] else live[i].body
  {
    var n := |live| - 1;
    if i < n {
      assert live[..n][i] == live[i];
      FirstLiveFillsIn(byRef, live[..n], i);
    } else {
      NotFilledIn(byRef, live[..n], RefOf(live[n]));
    }
    FilledSnoc(byRef, live);
  }

  lemma FilledSnoc(byRef: Bodies, live: seq<Manifest<Body>>)
    requires live != []
    ensures var before, m := FilledIn(byRef, live[..|live| - 1]), live[|live| - 1];
            FilledIn(byRef, live) == if RefOf(m) in before then before else before[RefOf(m) := m.body]
  {
  }

  lemma {:induction false} NotFilledIn(byRef: Bodies, live: seq<Manifest<Body>>, r: ResourceRef)
    requires forall j :: 0 <= j < |live| ==> RefOf(live[j]) != r
    ensures r in FilledIn(byRef, live) <==> r in byRef
    ensures r in byRef ==> FilledIn(byRef, live)[r] == byRef[r]
  {
    if live != [] {
      NotFilledIn(byRef, live[..|live| - 1], r);
    }
  }

  function EntriesOfWave(waveOf: ResourceRef -> int, entries: seq<PlanEntry>, wave: int): seq<PlanEntry>
  {
    Filter(entries, (e: PlanEntry) => waveOf(e.resource) == wave)
  }

  function GroupOfWave(waveOf: ResourceRef -> int, entries: seq<PlanEntry>, wave: int): WaveGroup
  {
    WaveGroup(wave, StableSort(EntriesOfWave(waveOf, entries, wave), WithinWaveCmp))
  }

  /** The waves of a plan: in ascending order, one group per wave number in use. */
  ghost predicate IsWavePlan(waveOf: ResourceRef -> int, entries: seq<PlanEntry>, waves: seq<WaveGroup>)
  {
    && Ascending(waves, CmpWave)
    && (forall g :: g in waves <==>
        g == GroupOfWave(waveOf, entries, g.wave) && EntriesOfWave(waveOf, entries, g.wave) != [])
  }

  /** Neither input order nor hash order shows in the result. */
  lemma WavePlanIsUnique(waveOf: ResourceRef -> int, entries: seq<PlanEntry>, v: seq<WaveGroup>, w: seq<WaveGroup>)
    requires IsWavePlan(waveOf, entries, v) && IsWavePlan(waveOf, entries, w)
    ensures v == w
  {
    CmpWaveLawful();
    AscendingIsUnique(v, w, CmpWave);
  }

  method GroupIntoWaves(parse: Bytes -> Value, entries: seq<PlanEntry>,
                        desired: seq<Manifest<Body>>, live: seq<Manifest<Body>>)
    returns (waves: seq<WaveGroup>)
    ensures var byRef := Deciding(desired, live);
            IsWavePlan(r => WaveOfRef(parse, byRef, r), entries, waves)
  {
    var byRef := BuildIndex(desired);
    byRef := FillIn(byRef, live);
    var waveOf := r => WaveOfRef(parse, byRef, r);
    var byWave := SplitByWave(waveOf, entries);
    waves := CollectGroups(waveOf, entries, byWave);
    SortGivesWavePlan(waveOf, entries, waves);
    waves := StableSort(waves, CmpWave);
  }

  method FillIn(byRef: Bodies, live: seq<Manifest<Body>>) returns (filled: Bodies)
    ensures filled == FilledIn(byRef, live)
  {
    filled := byRef;
    for i := 0 to |live|
      invariant filled == FilledIn(byRef, live[..i])
    {
      assert live[..i + 1][..i] == live[..i];
      if RefOf(live[i]) !in filled {
        filled := filled[RefOf(live[i]) := live[i].body];
      }
    }
    assert live[..|live|] == live;
  }

  /** Each bucket sorted for application; the buckets come in hash order. */
  method CollectGroups(ghost waveOf: ResourceRef -> int, ghost entries: seq<PlanEntry>,
                       byWave: map<int, seq<PlanEntry>>)
    returns (waves: seq<WaveGroup>)
    requires forall w :: w in byWave ==> byWave[w] == EntriesOfWave(waveOf, entries, w)
    ensures forall i, j :: 0 <= i < j < |waves| ==> waves[i].wave != waves[j].wave
    ensures forall g :: g in waves <==> g.wave in byWave && g == GroupOfWave(waveOf, entries, g.wave)
  {
    waves := [];
    var todo := byWave.Keys;
    ghost var done: set<int> := {};
    while todo != {}
      invariant done + todo == byWave.Keys && done !! todo
      invariant forall i, j :: 0 <= i < j < |waves| ==> waves[i].wave != waves[j].wave
      invariant forall g :: g in waves <==> g.wave in done && g == GroupOfWave(waveOf, entries, g.wave)
      decreases |todo|
    {
      var wave := Pick(todo);
      forall i | 0 <= i < |waves| ensures waves[i].wave != wave
      {
        assert waves[i] in waves;
      }
      waves := waves + [WaveGroup(wave, StableSort(byWave[wave], WithinWaveCmp))];
      todo, done := todo - {wave}, done + {wave};
    }
  }

  method SplitByWave(waveOf: ResourceRef -> int, entries: seq<PlanEntry>) returns (byWave: map<int, seq<PlanEntry>>)
    ensures forall w :: w in byWave <==> EntriesOfWave(waveOf, entries, w) != []
    ensures forall w :: w in byWave ==> byWave[w] == EntriesOfWave(waveOf, entries, w)
  {
    byWave := map[];
    for i := 0 to |entries|
      invariant forall w :: w in byWave <==> EntriesOfWave(waveOf, entries[..i], w) != []
      invariant forall w :: w in byWave ==> byWave[w] == EntriesOfWave(waveOf, entries[..i], w)
    {
      var wave := waveOf(entries[i].resource);
      assert entries[..i + 1][..i] == entries[..i];
      byWave := byWave[wave := (if wave in byWave then byWave[wave] else []) + [entries[i]]];
    }
    assert entries[..|entries|] == entries;
  }

  lemma SortGivesWavePlan(waveOf: ResourceRef -> int, entries: seq<PlanEntry>, waves: seq<WaveGroup>)
    requires forall i, j :: 0 <= i < j < |waves| ==> waves[i].wave != waves[j].wave
    requires forall g :: g in waves <==>
               EntriesOfWave(waveOf, entries, g.wave) != [] && g == GroupOfWave(waveOf, entries, g.wave)
    ensures IsWavePlan(waveOf, entries, StableSort(waves, CmpWave))
  {
    CmpWaveLawful();
    SortAscending(waves, CmpWave);
    forall g ensures g in StableSort(waves, CmpWave) <==> g in waves
    {
      SortMember(waves, CmpWave, g);
    }
  }

  /** What a wave promises of two entries that come in this order: no delete before
      anything else, dependencies first, and deletes the other way round. */
  predicate DependenciesFirst(a: PlanEntry, b: PlanEntry)
  {
    var pa, pb := ApplyPriority(a.resource.gvk.kind), ApplyPriority(b.resource.gvk.kind);
    && (a.action.Delete? ==> b.action.Delete?)
    && (a.action.Delete? == b.action.Delete? ==> if a.action.Delete? then pb <= pa else pa <= pb)
  }

  lemma WavesRespectDependencies(waveOf: ResourceRef -> int, entries: seq<PlanEntry>, waves: seq<WaveGroup>,
                                 g: WaveGroup, i: nat, j: nat)
    requires IsWavePlan(waveOf, entries, waves) && g in waves && i < j < |g.entries|
    ensures DependenciesFirst(g.entries[i], g.entries[j])
  {
    WithinWaveLawful();
    StableSortSorts(EntriesOfWave(waveOf, entries, g.wave), WithinWaveCmp);
    var a, b := g.entries[i], g.entries[j];
    assert WithinWaveCmp(a, b) != Greater && WithinWaveCmp(b, a) == WithinWaveCmp(a, b).Reverse();
    DependencyOrder(a, b);
    DependencyOrder(b, a);
  }

  // ----- conservation -----

  function AllEntries(waves: seq<WaveGroup>): seq<PlanEntry>
  {
    if waves == [] then [] else AllEntries(waves[..|waves| - 1]) + waves[|waves| - 1].entries
  }

  /** Grouping neither drops, duplicates nor invents an entry. */
  lemma WavesConserveEntries(waveOf: ResourceRef -> int, entries: seq<PlanEntry>, waves: seq<WaveGroup>)
    requires IsWavePlan(waveOf, entries, waves)
    ensures multiset(AllEntries(waves)) == multiset(entries)
  {
    forall e: PlanEntry ensures multiset(AllEntries(waves))[e] == multiset(entries)[e]
    {
      CountInAllWaves(waveOf, entries, waves, e);
    }
  }

  lemma CountInAllWaves(waveOf: ResourceRef -> int, entries: seq<PlanEntry>, waves: seq<WaveGroup>, e: PlanEntry)
    requires IsWavePlan(waveOf, entries, waves)
    ensures multiset(AllEntries(waves))[e] == multiset(entries)[e]
  {
    var w := waveOf(e.resource);
    assert waves[..|waves|] == waves;
    CountInWaves(waveOf, entries, waves, |waves|, e);
    if e in entries {
      FilterMember(entries, (x: PlanEntry) => waveOf(x.resource) == w, e);
      assert GroupOfWave(waveOf, entries, w) in waves;
    }
  }

  lemma {:induction false} CountInWaves(waveOf: ResourceRef -> int, entries: seq<PlanEntry>,
                                        waves: seq<WaveGroup>, n: nat, e: PlanEntry)
    requires IsWavePlan(waveOf, entries, waves) && n <= |waves|
    ensures multiset(AllEntries(waves[..n]))[e] ==
            if GroupOfWave(waveOf, entries, waveOf(e.resource)) in waves[..n] then multiset(entries)[e] else 0
  {
    if n > 0 {
      var g, w := waves[n - 1], waveOf(e.resource);
      CountInWaves(waveOf, entries, waves, n - 1, e);
      assert waves[..n][..n - 1] == waves[..n - 1];
      assert g in waves;
      CountInGroup(waveOf, entries, g.wave, e);
      assert g.wave == w ==> g == GroupOfWave(waveOf, entries, w);
      forall i | 0 <= i < n - 1 ensures waves[i].wave != g.wave
      {
        assert CmpWave(waves[i], waves[n - 1]) == Less;
      }
    }
  }

  lemma CountInGroup(waveOf: ResourceRef -> int, entries: seq<PlanEntry>, wave: int, e: PlanEntry)
    ensures multiset(GroupOfWave(waveOf, entries, wave).entries)[e] ==
            if waveOf(e.resource) == wave then multiset(entries)[e] else 0
  {
    var mine := EntriesOfWave(waveOf, entries, wave);
    WithinWaveLawful();
    StableSortSorts(mine, WithinWaveCmp);
    if waveOf(e.resource) == wave {
      FilterCount(entries, (x: PlanEntry) => waveOf(x.resource) == wave, e);
    } else {
      FilterMember(entries, (x: PlanEntry) => waveOf(x.resource) == wave, e);
    }
  }
}
