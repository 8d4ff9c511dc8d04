/** The read-through renderer, and what the sizes of its cache can and cannot change. */
module AppRendering {
  import opened Common
  import opened Recency
  import opened ByteCounting
  import opened AppCaching

  /** `params` stands for the render parameters; `hashParams` for their SHA-256. */
  datatype RenderSpec =
    RenderSpec(appId: string, commitHash: string, plugin: string, sourcePath: string, params: string)

  function KeyOf(spec: RenderSpec, hashParams: string -> seq<nat>): CacheKey
  {
    CacheKey(spec.appId, spec.commitHash, hashParams(spec.params))
  }

  /** Specs of the same app, commit and parameters render alike, as at one commit they do. */
  ghost predicate CommitStable<M(!new)>(dispatch: RenderSpec -> Result<M, string>)
  {
    forall s: RenderSpec, t: RenderSpec ::
      s.appId == t.appId && s.commitHash == t.commitHash && s.params == t.params ==> dispatch(s) == dispatch(t)
  }

  ghost predicate TellsApart(hashParams: string -> seq<nat>)
  {
    forall p, q :: hashParams(p) == hashParams(q) ==> p == q
  }

  /** Every slot holds what dispatching any spec of its app, commit and parameters gives. */
  ghost predicate Holds<M>(l: seq<Slot<M>>, dispatch: RenderSpec -> Result<M, string>, hashParams: string -> seq<nat>)
  {
    forall i, spec: RenderSpec :: 0 <= i < |l| ==> SlotHolds(l[i], spec, dispatch, hashParams)
  }

  ghost predicate SlotHolds<M>(slot: Slot<M>, spec: RenderSpec, dispatch: RenderSpec -> Result<M, string>,
                               hashParams: string -> seq<nat>)
  {
    slot.key.appId == spec.appId && slot.key.commitHash == spec.commitHash &&
    slot.key.paramsHash == hashParams(spec.params) ==>
      dispatch(spec) == Ok(slot.manifests)
  }

  class AppRenderer<M(!new)> {
    const cache: AppCache<M>
    const dispatch: RenderSpec -> Result<M, string>
    const hashParams: string -> seq<nat>

    constructor (cache: AppCache<M>, dispatch: RenderSpec -> Result<M, string>, hashParams: string -> seq<nat>)
      ensures this.cache == cache && this.dispatch == dispatch && this.hashParams == hashParams
    {
      this.cache := cache;
      this.dispatch := dispatch;
      this.hashParams := hashParams;
    }

    /** Serve a hit; on a miss dispatch, store and return; never store a failure. */
    method Render(spec: RenderSpec) returns (r: Result<M, string>)
      requires cache.Valid()
      modifies cache
      ensures cache.Valid()
      ensures var key := KeyOf(spec, hashParams);
              && r == Served(old(cache.lru), key, dispatch(spec))
              && cache.State() ==
                 RenderStep(old(cache.State()), key, dispatch(spec), cache.estimate, cache.maxEntries, cache.maxBytes)
              && cache.hits == old(cache.hits) + (if Recency.Lookup(old(cache.lru), key).Some? then 1 else 0)
      ensures old(Holds(cache.lru, dispatch, hashParams)) && CommitStable(dispatch) && TellsApart(hashParams) ==>
                r == dispatch(spec) && Holds(cache.lru, dispatch, hashParams)
    {
      var key := KeyOf(spec, hashParams);
      RenderHolds(cache.State(), spec, dispatch, hashParams, cache.estimate, cache.maxEntries, cache.maxBytes);
      var hit := cache.Get(key);
      if hit.Some? {
        return Ok(hit.value);
      }
      var rendered := dispatch(spec);
      if rendered.Err? {
        return Err(rendered.error);
      }
      var stored := cache.Put(key, rendered.value);
      r := Ok(stored);
    }
  }

  function Served<M>(l: seq<Slot<M>>, key: CacheKey, rendered: Result<M, string>): Result<M, string>
  {
    match Recency.Lookup(l, key)
    case Some(s) => Ok(s.manifests)
    case None => rendered
  }

  function RenderStep<M>(c: Counted<M>, key: CacheKey, rendered: Result<M, string>,
                         estimate: M -> nat, maxEntries: nat, maxBytes: nat): Counted<M>
  {
    if Recency.Lookup(c.lru, key).Some? then TouchCounted(c, key)
    else match rendered
         case Ok(m) => PutCounted(c, Slot(key, m, estimate(m)), maxEntries, maxBytes)
         case Err(_) => c
  }

  // ----- what the slots hold -----

  lemma MemberHolds<M(!new)>(l: seq<Slot<M>>, s: Slot<M>, spec: RenderSpec, dispatch: RenderSpec -> Result<M, string>,
                             hashParams: string -> seq<nat>)
    requires Holds(l, dispatch, hashParams) && s in l
    ensures SlotHolds(s, spec, dispatch, hashParams)
  {
    var i :| 0 <= i < |l| && l[i] == s;
  }

  lemma FewerHold<M(!new)>(l: seq<Slot<M>>, kept: seq<Slot<M>>, dispatch: RenderSpec -> Result<M, string>,
                           hashParams: string -> seq<nat>)
    requires Holds(l, dispatch, hashParams) && forall s :: s in kept ==> s in l
    ensures Holds(kept, dispatch, hashParams)
  {
    forall i, spec: RenderSpec | 0 <= i < |kept| ensures SlotHolds(kept[i], spec, dispatch, hashParams) {
      MemberHolds(l, kept[i], spec, dispatch, hashParams);
    }
  }

  lemma FilteredAreMembers<M>(l: seq<Slot<M>>, p: Slot<M> -> bool)
    ensures forall s :: s in Filter(l, p) ==> s in l
  {
    forall s | s in Filter(l, p) ensures s in l {
      FilterMember(l, p, s);
    }
  }

  /** A rendered spec under its own key. */
  lemma FreshSlotHolds<M(!new)>(spec: RenderSpec, m: M, bytes: nat, other: RenderSpec,
                                dispatch: RenderSpec -> Result<M, string>, hashParams: string -> seq<nat>)
    requires CommitStable(dispatch) && TellsApart(hashParams) && dispatch(spec) == Ok(m)
    ensures SlotHolds(Slot(KeyOf(spec, hashParams), m, bytes), other, dispatch, hashParams)
  {
  }

  lemma PutHolds<M(!new)>(l: seq<Slot<M>>, s: Slot<M>, kept: seq<Slot<M>>,
                          dispatch: RenderSpec -> Result<M, string>, hashParams: string -> seq<nat>)
    requires Holds(l, dispatch, hashParams) && forall spec :: SlotHolds(s, spec, dispatch, hashParams)
    requires kept <= [s] + Without(l, s.key)
    ensures Holds(kept, dispatch, hashParams)
  {
    FilteredAreMembers(l, (x: Slot<M>) => x.key != s.key);
    forall i, spec: RenderSpec | 0 <= i < |kept| ensures SlotHolds(kept[i], spec, dispatch, hashParams) {
      if i > 0 {
        assert kept[i] == Without(l, s.key)[i - 1];
        MemberHolds(l, kept[i], spec, dispatch, hashParams);
      }
    }
  }

  /** Rendering through a cache that holds what dispatch gives answers what dispatch gives, and
      the cache goes on holding it. */
  lemma RenderHolds<M(!new)>(c: Counted<M>, spec: RenderSpec, dispatch: RenderSpec -> Result<M, string>,
                             hashParams: string -> seq<nat>, estimate: M -> nat, maxEntries: nat, maxBytes: nat)
    requires Sound(c, maxEntries, maxBytes) && maxEntries > 0
    ensures var key := KeyOf(spec, hashParams);
            Holds(c.lru, dispatch, hashParams) && CommitStable(dispatch) && TellsApart(hashParams) ==>
              && Served(c.lru, key, dispatch(spec)) == dispatch(spec)
              && Holds(RenderStep(c, key, dispatch(spec), estimate, maxEntries, maxBytes).lru, dispatch, hashParams)
  {
    var key := KeyOf(spec, hashParams);
    if Holds(c.lru, dispatch, hashParams) && CommitStable(dispatch) && TellsApart(hashParams) {
      match Recency.Lookup(c.lru, key)
      case Some(s) =>
        MemberHolds(c.lru, s, spec, dispatch, hashParams);
        FilteredAreMembers(c.lru, (x: Slot<M>) => x.key != key);
        FewerHold(c.lru, Touched(c.lru, key), dispatch, hashParams);
      case None =>
        if dispatch(spec).Ok? {
          var m := dispatch(spec).value;
          var s := Slot(key, m, estimate(m));
          PutIsSound(c, s, maxEntries, maxBytes);
          forall other ensures SlotHolds(s, other, dispatch, hashParams) {
            FreshSlotHolds(spec, m, estimate(m), other, dispatch, hashParams);
          }
          PutHolds(c.lru, s, PutCounted(c, s, maxEntries, maxBytes).lru, dispatch, hashParams);
        }
    }
  }

  // ----- runs of specs -----

  datatype Request = RenderOf(spec: RenderSpec) | DropApp(appId: string)

  /** What the renderer is made of. */
  datatype Parts<!M> =
    Parts(dispatch: RenderSpec -> Result<M, string>, hashParams: string -> seq<nat>, estimate: M -> nat,
          maxEntries: nat, maxBytes: nat)

  /** The cache after some requests, from the empty one. */
  function ServeAll<M>(parts: Parts<M>, requests: seq<Request>): Counted<M>
  {
    if requests == [] then Counted([], 0)
    else
      var before := ServeAll(parts, requests[..|requests| - 1]);
      match requests[|requests| - 1]
      case RenderOf(spec) =>
        RenderStep(before, KeyOf(spec, parts.hashParams), parts.dispatch(spec), parts.estimate, parts.maxEntries,
                   parts.maxBytes)
      case DropApp(appId) => Invalidated(before, appId)
  }

  lemma {:induction false} ServedHolds<M(!new)>(parts: Parts<M>, requests: seq<Request>)
    requires parts.maxEntries > 0 && CommitStable(parts.dispatch) && TellsApart(parts.hashParams)
    ensures Sound(ServeAll(parts, requests), parts.maxEntries, parts.maxBytes)
    ensures Holds(ServeAll(parts, requests).lru, parts.dispatch, parts.hashParams)
  {
    if requests != [] {
      var n := |requests| - 1;
      var before := ServeAll(parts, requests[..n]);
      ServedHolds(parts, requests[..n]);
      match requests[n]
      case RenderOf(spec) =>
        RenderHolds(before, spec, parts.dispatch, parts.hashParams, parts.estimate, parts.maxEntries, parts.maxBytes);
        RenderIsSound(before, KeyOf(spec, parts.hashParams), parts.dispatch(spec), parts.estimate, parts.maxEntries,
                      parts.maxBytes);
      case DropApp(appId) =>
        InvalidatedIsSound(before, appId, parts.maxEntries, parts.maxBytes);
        FilteredAreMembers(before.lru, (s: Slot<M>) => s.key.appId != appId);
        FewerHold(before.lru, Invalidated(before, appId).lru, parts.dispatch, parts.hashParams);
    }
  }

  lemma RenderIsSound<M>(c: Counted<M>, key: CacheKey, rendered: Result<M, string>, estimate: M -> nat,
                         maxEntries: nat, maxBytes: nat)
    requires Sound(c, maxEntries, maxBytes) && maxEntries > 0
    ensures Sound(RenderStep(c, key, rendered, estimate, maxEntries, maxBytes), maxEntries, maxBytes)
  {
    TouchKeeps(c.lru, key);
    if rendered.Ok? {
      PutIsSound(c, Slot(key, rendered.value, estimate(rendered.value)), maxEntries, maxBytes);
    }
  }

  /** The cache is transparent: after any requests, whatever its caps evicted, rendering a spec
      answers what dispatching that very spec gives, success or failure. */
  lemma SpecsAreTransparent<M(!new)>(parts: Parts<M>, requests: seq<Request>, spec: RenderSpec)
    requires parts.maxEntries > 0 && CommitStable(parts.dispatch) && TellsApart(parts.hashParams)
    ensures Served(ServeAll(parts, requests).lru, KeyOf(spec, parts.hashParams), parts.dispatch(spec)) ==
            parts.dispatch(spec)
  {
    ServedHolds(parts, requests);
    RenderHolds(ServeAll(parts, requests), spec, parts.dispatch, parts.hashParams, parts.estimate, parts.maxEntries,
                parts.maxBytes);
  }

  /** And it serves: right after a successful render, any spec of the same app, commit and
      parameters is a hit. */
  lemma RenderedOnceHits<M(!new)>(parts: Parts<M>, requests: seq<Request>, spec: RenderSpec, again: RenderSpec)
    requires parts.maxEntries > 0 && CommitStable(parts.dispatch) && TellsApart(parts.hashParams)
    requires again.appId == spec.appId && again.commitHash == spec.commitHash && again.params == spec.params
    requires parts.dispatch(spec).Ok?
    ensures Recency.Lookup(ServeAll(parts, requests + [RenderOf(spec)]).lru, KeyOf(again, parts.hashParams)).Some?
  {
    var before, key, all := ServeAll(parts, requests), KeyOf(spec, parts.hashParams), requests + [RenderOf(spec)];
    assert all[..|all| - 1] == requests;
    ServedHolds(parts, requests);
    var after := ServeAll(parts, all).lru;
    if Recency.Lookup(before.lru, key).None? {
      var m := parts.dispatch(spec).value;
      PutIsSound(before, Slot(key, m, parts.estimate(m)), parts.maxEntries, parts.maxBytes);
    }
    assert after[0].key == key && after[0] in after;
  }

  // ----- runs of keys -----

  datatype Op = Render(key: CacheKey) | Invalidate(appId: string)

  /** The dispatch is a function of the cache key: same app, commit and parameters, same
      render or same failure. */
  datatype Setup<!M> = Setup(dispatch: CacheKey -> Result<M, string>, estimate: M -> nat)

  function Step<M>(setup: Setup<M>, c: Counted<M>, maxEntries: nat, maxBytes: nat, op: Op): Counted<M>
  {
    match op
    case Render(key) => RenderStep(c, key, setup.dispatch(key), setup.estimate, maxEntries, maxBytes)
    case Invalidate(appId) => Invalidated(c, appId)
  }

  /** The recency list and its byte counter after a run from the empty cache. */
  function Run<M>(setup: Setup<M>, maxEntries: nat, maxBytes: nat, ops: seq<Op>): Counted<M>
  {
    if ops == [] then Counted([], 0)
    else Step(setup, Run(setup, maxEntries, maxBytes, ops[..|ops| - 1]), maxEntries, maxBytes, ops[|ops| - 1])
  }

  /** How many renders of the run were served from the cache. */
  function Hits<M>(setup: Setup<M>, maxEntries: nat, maxBytes: nat, ops: seq<Op>): nat
  {
    if ops == [] then 0
    else
      var n := |ops| - 1;
      var l := Run(setup, maxEntries, maxBytes, ops[..n]).lru;
      Hits(setup, maxEntries, maxBytes, ops[..n]) +
      (if ops[n].Render? && Recency.Lookup(l, ops[n].key).Some? then 1 else 0)
  }

  /** Every slot holds what the dispatch would give now. */
  ghost predicate Fresh<M>(setup: Setup<M>, l: seq<Slot<M>>)
  {
    forall i :: 0 <= i < |l| ==> l[i] == Slot(l[i].key, l[i].manifests, setup.estimate(l[i].manifests)) &&
                                 setup.dispatch(l[i].key) == Ok(l[i].manifests)
  }

  ghost predicate Good<M>(setup: Setup<M>, c: Counted<M>, maxEntries: nat, maxBytes: nat)
  {
    Sound(c, maxEntries, maxBytes) && Fresh(setup, c.lru)
  }

  lemma FilterFresh<M>(setup: Setup<M>, l: seq<Slot<M>>, p: Slot<M> -> bool)
    requires Fresh(setup, l)
    ensures Fresh(setup, Filter(l, p))
  {
    var r := Filter(l, p);
    forall i | 0 <= i < |r|
      ensures r[i] == Slot(r[i].key, r[i].manifests, setup.estimate(r[i].manifests))
      ensures setup.dispatch(r[i].key) == Ok(r[i].manifests)
    {
      FilterMember(l, p, r[i]);
      var j :| 0 <= j < |l| && l[j] == r[i];
    }
  }

  lemma StepGood<M>(setup: Setup<M>, c: Counted<M>, maxEntries: nat, maxBytes: nat, op: Op)
    requires Good(setup, c, maxEntries, maxBytes) && maxEntries > 0
    ensures Good(setup, Step(setup, c, maxEntries, maxBytes, op), maxEntries, maxBytes)
  {
    match op
    case Invalidate(appId) =>
      InvalidatedIsSound(c, appId, maxEntries, maxBytes);
      FilterFresh(setup, c.lru, (s: Slot<M>) => s.key.appId != appId);
    case Render(key) =>
      match Recency.Lookup(c.lru, key) {
        case Some(s) => TouchGood(setup, c, maxEntries, maxBytes, key);
        case None =>
          if setup.dispatch(key).Ok? {
            PutGood(setup, c, maxEntries, maxBytes, key);
          }
      }
  }

  lemma TouchGood<M>(setup: Setup<M>, c: Counted<M>, maxEntries: nat, maxBytes: nat, key: CacheKey)
    requires Good(setup, c, maxEntries, maxBytes)
    ensures Good(setup, TouchCounted(c, key), maxEntries, maxBytes)
  {
    TouchKeeps(c.lru, key);
    FilterFresh(setup, c.lru, (s: Slot<M>) => s.key != key);
    match Recency.Lookup(c.lru, key)
    case Some(s) =>
      var i :| 0 <= i < |c.lru| && c.lru[i] == s;
    case None =>
  }

  lemma PutGood<M>(setup: Setup<M>, c: Counted<M>, maxEntries: nat, maxBytes: nat, key: CacheKey)
    requires Good(setup, c, maxEntries, maxBytes) && maxEntries > 0 && setup.dispatch(key).Ok?
    ensures var m := setup.dispatch(key).value;
            Good(setup, PutCounted(c, Slot(key, m, setup.estimate(m)), maxEntries, maxBytes), maxEntries, maxBytes)
  {
    var m := setup.dispatch(key).value;
    PutIsSound(c, Slot(key, m, setup.estimate(m)), maxEntries, maxBytes);
    FilterFresh(setup, c.lru, (s: Slot<M>) => s.key != key);
  }

  lemma {:induction false} RunGood<M>(setup: Setup<M>, maxEntries: nat, maxBytes: nat, ops: seq<Op>)
    requires maxEntries > 0
    ensures Good(setup, Run(setup, maxEntries, maxBytes, ops), maxEntries, maxBytes)
  {
    if ops != [] {
      var n := |ops| - 1;
      RunGood(setup, maxEntries, maxBytes, ops[..n]);
      StepGood(setup, Run(setup, maxEntries, maxBytes, ops[..n]), maxEntries, maxBytes, ops[n]);
    }
  }

  /** The cache is transparent: after any run, whatever its caps evicted, a render answers
      what the dispatch would, success or failure. */
  lemma CacheIsTransparent<M>(setup: Setup<M>, maxEntries: nat, maxBytes: nat, ops: seq<Op>, key: CacheKey)
    requires maxEntries > 0
    ensures Served(Run(setup, maxEntries, maxBytes, ops).lru, key, setup.dispatch(key)) == setup.dispatch(key)
  {
    var l := Run(setup, maxEntries, maxBytes, ops).lru;
    RunGood(setup, maxEntries, maxBytes, ops);
    match Recency.Lookup(l, key)
    case Some(s) => {
      var i :| 0 <= i < |l| && l[i] == s;
    }
    case None =>
  }

  // ----- stack inclusion -----

  lemma {:induction false} LookupInPrefix<M>(l: seq<Slot<M>>, n: nat, key: CacheKey)
    requires DistinctKeys(l) && n <= |l|
    ensures Recency.Lookup(l[..n], key).Some? ==> Recency.Lookup(l, key) == Recency.Lookup(l[..n], key)
    decreases |l| - n
  {
    if n < |l| {
      LookupInPrefix(l, n + 1, key);
      assert l[..n + 1][..n] == l[..n];
      if Recency.Lookup(l[..n], key).Some? {
        var s := Recency.Lookup(l[..n], key).value;
        var i :| 0 <= i < n && l[..n][i] == s;
        assert l[i].key != l[n].key;
      }
    } else {
      assert l[..n] == l;
    }
  }

  lemma FilterPrefix<M>(l: seq<Slot<M>>, n: nat, p: Slot<M> -> bool)
    requires n <= |l|
    ensures Filter(l[..n], p) <= Filter(l, p)
  {
    assert l == l[..n] + l[n..];
    FilterAppend(l[..n], l[n..], p);
  }

  /** `a` holds a prefix of `b`, and its counter has lost no more. */
  ghost predicate Under<M>(a: Counted<M>, b: Counted<M>)
  {
    Bounded(a) && Bounded(b) && a.lru <= b.lru && Short(a) <= Short(b)
  }

  lemma ShrunkUnder<M>(a: Counted<M>, b: Counted<M>, la: seq<Slot<M>>, lb: seq<Slot<M>>)
    requires Under(a, b) && la <= lb && Bytes(la) <= Bytes(a.lru) && Bytes(lb) <= Bytes(b.lru)
    ensures Under(Shrunk(a, la), Shrunk(b, lb))
  {
    ShrunkShort(a, la);
    ShrunkShort(b, lb);
    BytesPrefix(la, lb);
  }

  /** Only the larger one gives something up that the smaller one does not hold. */
  lemma ShrunkAbove<M>(a: Counted<M>, b: Counted<M>, lb: seq<Slot<M>>)
    requires Under(a, b) && a.lru <= lb && Bytes(lb) <= Bytes(b.lru)
    ensures Under(a, Shrunk(b, lb))
  {
    ShrunkShort(b, lb);
    BytesPrefix(a.lru, lb);
  }

  lemma LastUnder<M>(a: Counted<M>, b: Counted<M>)
    requires Under(a, b) && a.lru != []
    ensures Under(WithoutLast(a), b)
    ensures |a.lru| == |b.lru| ==> Under(WithoutLast(a), WithoutLast(b))
    ensures |a.lru| < |b.lru| ==> Under(a, WithoutLast(b))
  {
    var la, lb := a.lru[..|a.lru| - 1], b.lru[..|b.lru| - 1];
    BytesPrefix(la, a.lru);
    BytesPrefix(lb, b.lru);
    ShrunkShort(a, la);
    if |a.lru| == |b.lru| {
      ShrunkUnder(a, b, la, lb);
    } else {
      ShrunkAbove(a, b, lb);
    }
  }

  lemma PoppedUnder<M>(a: Counted<M>, b: Counted<M>, key: CacheKey)
    requires Under(a, b)
    ensures Under(Popped(a, key), Popped(b, key))
  {
    var p := (s: Slot<M>) => s.key != key;
    assert a.lru == b.lru[..|a.lru|];
    FilterPrefix(b.lru, |a.lru|, p);
    FilterBytes(a.lru, p);
    FilterBytes(b.lru, p);
    ShrunkUnder(a, b, Without(a.lru, key), Without(b.lru, key));
  }

  lemma RoomUnder<M>(a: Counted<M>, b: Counted<M>, e1: nat, e2: nat)
    requires Under(a, b) && 0 < e1 <= e2 && |a.lru| <= e1 && |b.lru| <= e2
    ensures Under(MadeRoom(a, e1), MadeRoom(b, e2))
  {
    if a.lru != [] {
      LastUnder(a, b);
    } else if b.lru != [] {
      BytesPrefix(b.lru[..|b.lru| - 1], b.lru);
      ShrunkAbove(a, b, b.lru[..|b.lru| - 1]);
    }
  }

  lemma PushedUnder<M>(a: Counted<M>, b: Counted<M>, s: Slot<M>)
    requires Under(a, b)
    ensures Under(Pushed(a, s), Pushed(b, s))
  {
    PushedShort(a, s);
    PushedShort(b, s);
    BytesPrefix(a.lru, b.lru);
  }

  lemma {:induction false} TrimmedUnder<M>(a: Counted<M>, b: Counted<M>, b1: nat, b2: nat)
    requires Under(a, b) && a.lru != [] && b1 <= b2
    ensures Under(Trimmed(a, b1), Trimmed(b, b2))
    decreases |a.lru| + |b.lru|
  {
    LastUnder(a, b);
    if b.total > b2 && |b.lru| > 1 {
      if |a.lru| == |b.lru| {
        assert a.lru == b.lru;
        TrimmedUnder(WithoutLast(a), WithoutLast(b), b1, b2);
      } else {
        TrimmedUnder(a, WithoutLast(b), b1, b2);
      }
    } else {
      TrimmedShort(a, b1);
    }
  }

  lemma PutUnder<M>(a: Counted<M>, b: Counted<M>, s: Slot<M>, e1: nat, b1: nat, e2: nat, b2: nat)
    requires Under(a, b) && 0 < e1 <= e2 && b1 <= b2 && |a.lru| <= e1 && |b.lru| <= e2
    ensures Under(PutCounted(a, s, e1, b1), PutCounted(b, s, e2, b2))
  {
    PoppedUnder(a, b, s.key);
    RoomUnder(Popped(a, s.key), Popped(b, s.key), e1, e2);
    PushedUnder(MadeRoom(Popped(a, s.key), e1), MadeRoom(Popped(b, s.key), e2), s);
    TrimmedUnder(Pushed(MadeRoom(Popped(a, s.key), e1), s), Pushed(MadeRoom(Popped(b, s.key), e2), s), b1, b2);
  }

  lemma TouchUnder<M>(a: Counted<M>, b: Counted<M>, key: CacheKey)
    requires Under(a, b) && DistinctKeys(a.lru) && DistinctKeys(b.lru)
    requires Recency.Lookup(a.lru, key).Some?
    ensures Under(TouchCounted(a, key), TouchCounted(b, key))
  {
    assert a.lru == b.lru[..|a.lru|];
    LookupInPrefix(b.lru, |a.lru|, key);
    FilterPrefix(b.lru, |a.lru|, (s: Slot<M>) => s.key != key);
    TouchKeeps(a.lru, key);
    TouchKeeps(b.lru, key);
  }

  /** A render that only the larger cache holds: what the smaller one loses in the push, the
      larger one has lost already. */
  lemma MissUnder<M>(a: Counted<M>, b: Counted<M>, s: Slot<M>, e1: nat, b1: nat)
    requires Under(a, b) && e1 > 0 && Sound(a, e1, b1) && DistinctKeys(b.lru)
    requires Recency.Lookup(a.lru, s.key).None? && Recency.Lookup(b.lru, s.key) == Some(s)
    ensures Under(PutCounted(a, s, e1, b1), TouchCounted(b, s.key))
  {
    var room := MadeRoom(Popped(a, s.key), e1);
    PutBounded(a, s, e1);
    PushedShort(room, s);
    TrimmedShort(Pushed(room, s), b1);
    TouchKeeps(b.lru, s.key);
    PushedBelowTouched(a, b, s, e1);
  }

  lemma PushedBelowTouched<M>(a: Counted<M>, b: Counted<M>, s: Slot<M>, e1: nat)
    requires a.lru <= b.lru && e1 > 0 && |a.lru| <= e1 && Recency.Lookup(b.lru, s.key) == Some(s)
    ensures var p := Pushed(MadeRoom(Popped(a, s.key), e1), s);
            p.lru <= Touched(b.lru, s.key) && Bytes(p.lru) <= Bytes(Touched(b.lru, s.key))
  {
    var p := Pushed(MadeRoom(Popped(a, s.key), e1), s);
    assert a.lru == b.lru[..|a.lru|];
    FilterPrefix(b.lru, |a.lru|, (x: Slot<M>) => x.key != s.key);
    PushedIsRoomy(a, s, e1);
    assert p.lru <= [s] + Without(a.lru, s.key) <= Touched(b.lru, s.key);
    BytesPrefix(p.lru, Touched(b.lru, s.key));
  }

  lemma InvalidatedUnder<M>(a: Counted<M>, b: Counted<M>, appId: string)
    requires Under(a, b)
    ensures Under(Invalidated(a, appId), Invalidated(b, appId))
  {
    var p := (s: Slot<M>) => s.key.appId != appId;
    assert a.lru == b.lru[..|a.lru|];
    FilterPrefix(b.lru, |a.lru|, p);
    FilterBytes(a.lru, p);
    FilterBytes(b.lru, p);
    ShrunkUnder(a, b, WithoutApp(a.lru, appId), WithoutApp(b.lru, appId));
  }

  lemma StepUnder<M>(setup: Setup<M>, a: Counted<M>, b: Counted<M>, e1: nat, b1: nat, e2: nat, b2: nat, op: Op)
    requires 0 < e1 <= e2 && b1 <= b2 && Under(a, b) && Good(setup, a, e1, b1) && Good(setup, b, e2, b2)
    ensures Under(Step(setup, a, e1, b1, op), Step(setup, b, e2, b2, op))
  {
    match op
    case Invalidate(appId) => InvalidatedUnder(a, b, appId);
    case Render(key) =>
      HeldAlike(setup, a, b, key);
      match (Recency.Lookup(a.lru, key), Recency.Lookup(b.lru, key)) {
        case (Some(_), Some(_)) => TouchUnder(a, b, key);
        case (None, None) =>
          if setup.dispatch(key).Ok? {
            var m := setup.dispatch(key).value;
            PutUnder(a, b, Slot(key, m, setup.estimate(m)), e1, b1, e2, b2);
          }
        case (None, Some(s)) => MissUnder(a, b, s, e1, b1);
      }
  }

  /** The larger cache holds what the smaller one holds, and both what the dispatch gives. */
  lemma HeldAlike<M>(setup: Setup<M>, a: Counted<M>, b: Counted<M>, key: CacheKey)
    requires Under(a, b) && DistinctKeys(b.lru) && Fresh(setup, b.lru)
    ensures Recency.Lookup(a.lru, key).Some? ==> Recency.Lookup(b.lru, key).Some?
    ensures match Recency.Lookup(b.lru, key)
            case Some(s) =>
              setup.dispatch(key) == Ok(s.manifests) && s == Slot(key, s.manifests, setup.estimate(s.manifests))
            case None => true
  {
    assert a.lru == b.lru[..|a.lru|];
    LookupInPrefix(b.lru, |a.lru|, key);
    match Recency.Lookup(b.lru, key)
    case Some(s) =>
      var i :| 0 <= i < |b.lru| && b.lru[i] == s;
    case None =>
  }

  lemma {:induction false} RunsUnder<M>(setup: Setup<M>, e1: nat, b1: nat, e2: nat, b2: nat, ops: seq<Op>)
    requires 0 < e1 <= e2 && b1 <= b2
    ensures Under(Run(setup, e1, b1, ops), Run(setup, e2, b2, ops))
  {
    if ops != [] {
      var n := |ops| - 1;
      RunsUnder(setup, e1, b1, e2, b2, ops[..n]);
      RunGood(setup, e1, b1, ops[..n]);
      RunGood(setup, e2, b2, ops[..n]);
      StepUnder(setup, Run(setup, e1, b1, ops[..n]), Run(setup, e2, b2, ops[..n]), e1, b1, e2, b2, ops[n]);
    }
  }

  /** Raising caps never turns a hit into a miss, not even when byte sums exceed the machine
      word: driven by the same renders and invalidations, the smaller cache's recency list is
      always a prefix of the larger's. */
  lemma {:induction false} StackInclusion<M>(setup: Setup<M>, e1: nat, b1: nat, e2: nat, b2: nat, ops: seq<Op>)
    requires 0 < e1 <= e2 && b1 <= b2
    ensures Run(setup, e1, b1, ops).lru <= Run(setup, e2, b2, ops).lru
    ensures Hits(setup, e1, b1, ops) <= Hits(setup, e2, b2, ops)
  {
    RunsUnder(setup, e1, b1, e2, b2, ops);
    if ops != [] {
      var n := |ops| - 1;
      StackInclusion(setup, e1, b1, e2, b2, ops[..n]);
      if ops[n].Render? {
        RunsUnder(setup, e1, b1, e2, b2, ops[..n]);
        RunGood(setup, e2, b2, ops[..n]);
        HeldAlike(setup, Run(setup, e1, b1, ops[..n]), Run(setup, e2, b2, ops[..n]), ops[n].key);
      }
    }
  }
}
