/** The smart diff: structural diff, auto-ignore, user rules, ownership, one after another. */
module Pipeline {
  import opened Common
  import opened Yaml
  import opened Manifests
  import opened ListMap
  import opened Compare
  import opened CompareSpec
  import opened ManifestDiff
  import opened Ownership
  import opened Ignore
  import opened Scaler

  /** Configuration; `normalize` is the server-side dry run. */
  datatype Setup = Setup(
    normalize: Manifest<Value> -> Result<Manifest<Value>, string>,
    listMaps: ListMapKeys, yaml: Value -> string, userRules: seq<IgnoreRule>, ours: string)

  method Evaluate(setup: Setup, desired: Manifest<Value>, live: Manifest<Value>, scalers: ByTarget)
    returns (r: Result<FilteredDiff, string>)
    ensures match setup.normalize(desired)
            case Err(e) => r == Err(e)
            case Ok(normalized) =>
              r == Ok(Tiers(setup, Diff(normalized, live, setup.listMaps, setup.yaml), live.body,
                            AutoRules(scalers, live)))
  {
    var n := setup.normalize(desired);
    if n.Err? {
      return Err(n.error);
    }
    var raw := RunDiff(n.value, live, setup.listMaps, setup.yaml);
    var autoRules := AutoIgnoreRulesFor(RefOf(live), scalers);
    var afterAuto := Apply(autoRules, raw, live.body);
    var afterUser := Apply(setup.userRules, afterAuto, live.body);
    var filtered := PartitionByOwner(setup.ours, afterUser, live.body);
    r := Ok(filtered);
  }

  function AutoRules(scalers: ByTarget, live: Manifest<Value>): seq<IgnoreRule>
  {
    AllGlobs(EntriesFor(scalers, RefOf(live)))
  }

  function Tiers(setup: Setup, raw: seq<Change>, live: Value, autoRules: seq<IgnoreRule>): FilteredDiff
  {
    var kept := ApplyRules(setup.userRules, ApplyRules(autoRules, raw, live), live);
    FilteredDiff(Filter(kept, (c: Change) => IsDrift(setup.ours, live, c)),
                 Filter(kept, (c: Change) => !IsDrift(setup.ours, live, c)))
  }

  datatype Verdict = AutoIgnored | UserIgnored | Drift | Informational

  /** What becomes of one raw change. */
  function VerdictOf(setup: Setup, live: Value, autoRules: seq<IgnoreRule>, c: Change): Verdict
  {
    if Ignored(autoRules, c, live) then AutoIgnored
    else if Ignored(setup.userRules, c, live) then UserIgnored
    else if IsDrift(setup.ours, live, c) then Drift
    else Informational
  }

  /** The tiers sort every raw change into exactly one verdict, and each output lists its
      changes in the order of the raw diff. */
  lemma TiersAreVerdicts(setup: Setup, raw: seq<Change>, live: Value, autoRules: seq<IgnoreRule>)
    ensures Tiers(setup, raw, live, autoRules).drift ==
            Filter(raw, (c: Change) => VerdictOf(setup, live, autoRules, c) == Drift)
    ensures Tiers(setup, raw, live, autoRules).informational ==
            Filter(raw, (c: Change) => VerdictOf(setup, live, autoRules, c) == Informational)
  {
    var notAuto := (c: Change) => !Ignored(autoRules, c, live);
    var notUser := (c: Change) => !Ignored(setup.userRules, c, live);
    var neither := (c: Change) => !Ignored(autoRules, c, live) && !Ignored(setup.userRules, c, live);
    var ours := (c: Change) => IsDrift(setup.ours, live, c);
    var theirs := (c: Change) => !IsDrift(setup.ours, live, c);
    FilterTwice(raw, notAuto, notUser, neither);
    FilterTwice(raw, neither, ours, (c: Change) => VerdictOf(setup, live, autoRules, c) == Drift);
    FilterTwice(raw, neither, theirs, (c: Change) => VerdictOf(setup, live, autoRules, c) == Informational);
  }

  /** Counting each change: the two outputs and the two kinds of ignored changes add up. */
  lemma {:induction false} VerdictsPartition(setup: Setup, raw: seq<Change>, live: Value, autoRules: seq<IgnoreRule>)
    ensures multiset(raw) ==
            multiset(Tiers(setup, raw, live, autoRules).drift) +
            multiset(Tiers(setup, raw, live, autoRules).informational) +
            multiset(Filter(raw, (c: Change) => VerdictOf(setup, live, autoRules, c) == AutoIgnored)) +
            multiset(Filter(raw, (c: Change) => VerdictOf(setup, live, autoRules, c) == UserIgnored))
  {
    TiersAreVerdicts(setup, raw, live, autoRules);
    var d := (c: Change) => VerdictOf(setup, live, autoRules, c) == Drift;
    var i := (c: Change) => VerdictOf(setup, live, autoRules, c) == Informational;
    var a := (c: Change) => VerdictOf(setup, live, autoRules, c) == AutoIgnored;
    var u := (c: Change) => VerdictOf(setup, live, autoRules, c) == UserIgnored;
    forall c: Change
      ensures multiset(raw)[c] == multiset(Filter(raw, d))[c] + multiset(Filter(raw, i))[c] +
                                  multiset(Filter(raw, a))[c] + multiset(Filter(raw, u))[c]
    {
      CountOrNone(raw, d, c);
      CountOrNone(raw, i, c);
      CountOrNone(raw, a, c);
      CountOrNone(raw, u, c);
    }
  }

  lemma CountOrNone(s: seq<Change>, p: Change -> bool, c: Change)
    ensures multiset(Filter(s, p))[c] == if p(c) then multiset(s)[c] else 0
  {
    if p(c) {
      FilterCount(s, p, c);
    } else {
      FilterMember(s, p, c);
    }
  }

  /** Bodies equivalent up to the stripped fields never show drift, whatever the rules, the
      scalers and the owners. */
  lemma EquivalentNeverDrifts(setup: Setup, normalized: Manifest<Value>, live: Manifest<Value>,
                              autoRules: seq<IgnoreRule>)
    requires Wf(normalized.body) && Wf(live.body)
    requires Equivalent(Ctx(normalized.gvk, setup.listMaps, setup.yaml), StripExcluded(normalized.body),
                        StripExcluded(live.body), [])
    ensures Tiers(setup, Diff(normalized, live, setup.listMaps, setup.yaml), live.body, autoRules) ==
            FilteredDiff([], [])
  {
    StripWf(normalized.body);
    StripWf(live.body);
    CompareLaws.EmptyIffEquivalent(Ctx(normalized.gvk, setup.listMaps, setup.yaml),
                                   StripExcluded(normalized.body), StripExcluded(live.body), []);
  }

  // ----- the order of discovery -----

  lemma {:induction false} FilterAlike<T>(s: seq<T>, p: T -> bool, q: T -> bool)
    requires forall x :: x in s ==> p(x) == q(x)
    ensures Filter(s, p) == Filter(s, q)
  {
    if s != [] {
      var n := |s| - 1;
      assert s[n] in s;
      FilterAlike(s[..n], p, q);
    }
  }

  /** Rules that match the same changes sort them alike. */
  lemma TiersAlike(setup: Setup, raw: seq<Change>, live: Value, p: seq<IgnoreRule>, q: seq<IgnoreRule>)
    requires forall r :: r in p <==> r in q
    ensures Tiers(setup, raw, live, p) == Tiers(setup, raw, live, q)
  {
    FilterAlike(raw, (c: Change) => !Ignored(p, c, live), (c: Change) => !Ignored(q, c, live));
  }

  /** The three discovery streams may interleave in any way and the cache be rebuilt in any hash
      order: every evaluation of every pair of manifests gives the same drift and the same
      informational changes, in the same order. */
  lemma DiscoveryOrderNeverShows(setup: Setup, raw: seq<Change>, live: Manifest<Value>,
                                 events: seq<(ControllerKind, Event)>, events': seq<(ControllerKind, Event)>,
                                 cache: ByTarget, cache': ByTarget)
    requires forall c :: StreamOf(events, c) == StreamOf(events', c)
    requires Groups(cache, Final(events)) && Groups(cache', Final(events'))
    ensures Tiers(setup, raw, live.body, AutoRules(cache, live)) ==
            Tiers(setup, raw, live.body, AutoRules(cache', live))
  {
    var p, q := EntriesFor(cache, RefOf(live)), EntriesFor(cache', RefOf(live));
    InterleavingIrrelevant(events, events');
    CacheUpToOrder(Final(events), cache, cache', RefOf(live));
    forall r ensures r in AllGlobs(p) <==> r in AllGlobs(q) {
      RulesUpToOrder(p, q, r);
    }
    TiersAlike(setup, raw, live.body, AllGlobs(p), AllGlobs(q));
  }
}
