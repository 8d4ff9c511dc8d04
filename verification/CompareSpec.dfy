/** The declarative reading of the differ. A container is a family of groups, one per
    path segment; the changes below a segment are exactly the pairwise changes of the
    two groups. Every law of the differ follows from that one decomposition. */
module CompareSpec {
  import opened Common
  import opened Yaml
  import opened ListMap
  import opened Compare

  /** Two mappings or two lists: the pairs the differ descends into. */
  predicate BothContainers(a: Value, b: Value)
  {
    (a.Mapping? && b.Mapping?) || (a.Sequence? && b.Sequence?)
  }

  /** What stands below one segment of a container: at most one child of a mapping or of
      a plain list, every element of that key tuple for a registered list. */
  function Group(ctx: Ctx, v: Value, path: Path, seg: Segment): (r: seq<Value>)
    ensures forall i :: 0 <= i < |r| ==> r[i] < v
    ensures Wf(v) ==> forall i :: 0 <= i < |r| ==> Wf(r[i])
  {
    match v
    case Mapping(es) => (
      match seg
      case Field(name) => (match Lookup(es, name) case Some(x) => [x] case None => [])
      case _ => []
    )
    case Sequence(xs) => (
      match (ctx.listMaps.KeysFor(ctx.gvk, path), seg)
      case (None, Index(i)) => if i < |xs| then [xs[i]] else []
      case (Some(keys), Keyed(kt)) =>
        SelectedAreMembers(ctx, xs, |xs|, keys, kt);
        Select(ctx, xs, |xs|, keys, kt)
      case _ => []
    )
    case _ => []
  }

  /** Two bodies the differ may call equal: mappings keywise, plain lists pointwise,
      registered lists by the k-th occurrence of each key tuple, anything else equal. */
  ghost predicate Equivalent(ctx: Ctx, a: Value, b: Value, path: Path)
    decreases a
  {
    if BothContainers(a, b) then
      forall seg ::
        |Group(ctx, a, path, seg)| == |Group(ctx, b, path, seg)| &&
        forall k :: 0 <= k < |Group(ctx, a, path, seg)| ==>
          Equivalent(ctx, Group(ctx, a, path, seg)[k], Group(ctx, b, path, seg)[k], path + [seg])
    else a == b
  }

  ghost predicate GroupsEquivalent(ctx: Ctx, ga: seq<Value>, gb: seq<Value>, path: Path)
  {
    |ga| == |gb| && forall k :: 0 <= k < |ga| ==> Equivalent(ctx, ga[k], gb[k], path)
  }

  /** Changes between two groups: k-th against k-th, the surplus added or removed. */
  function GroupDiff(ctx: Ctx, desired: seq<Value>, live: seq<Value>, path: Path): seq<Change>
    decreases |desired| + |live|
  {
    if |desired| > |live| then
      GroupDiff(ctx, desired[..|desired| - 1], live, path) + [Added(path, desired[|desired| - 1])]
    else if |live| > |desired| then
      GroupDiff(ctx, desired, live[..|live| - 1], path) + [Removed(path, live[|live| - 1])]
    else if |desired| == 0 then []
    else
      GroupDiff(ctx, desired[..|desired| - 1], live[..|live| - 1], path) +
      DiffValue(ctx, desired[|desired| - 1], live[|live| - 1], path)
  }

  /** The changes at or below `p`, in order. */
  function At(cs: seq<Change>, p: Path): seq<Change>
  {
    Filter(cs, (c: Change) => p <= c.path)
  }

  ghost predicate AllBelow(cs: seq<Change>, p: Path)
  {
    forall c :: c in cs ==> p <= c.path
  }

  ghost predicate AllStrictlyBelow(cs: seq<Change>, p: Path)
  {
    forall c :: c in cs ==> p <= c.path && |p| < |c.path|
  }

  lemma AtAppend(a: seq<Change>, b: seq<Change>, p: Path)
    ensures At(a + b, p) == At(a, p) + At(b, p)
  {
    FilterAppend(a, b, (c: Change) => p <= c.path);
  }

  lemma AtOwn(cs: seq<Change>, p: Path)
    requires AllBelow(cs, p)
    ensures At(cs, p) == cs
  {
    FilterAll(cs, (c: Change) => p <= c.path);
  }

  lemma AtOther(cs: seq<Change>, path: Path, s: Segment, t: Segment)
    requires AllBelow(cs, path + [s]) && s != t
    ensures At(cs, path + [t]) == []
  {
    forall c | c in cs ensures !(path + [t] <= c.path)
    {
      assert c.path[|path|] == (path + [s])[|path|] == s;
      assert (path + [t])[|path|] == t;
    }
    FilterNone(cs, (c: Change) => path + [t] <= c.path);
  }

  /** `AtOwn` and `AtOther` in one: a piece below segment `s`, seen from segment `t`. */
  lemma AtPiece(cs: seq<Change>, path: Path, s: Segment, t: Segment)
    requires AllBelow(cs, path + [s])
    ensures At(cs, path + [t]) == if s == t then cs else []
  {
    if s == t {
      AtOwn(cs, path + [s]);
    } else {
      AtOther(cs, path, s, t);
    }
  }

  /** One more piece below segment `s`, seen from segment `t`. */
  lemma AtStep(prior: seq<Change>, piece: seq<Change>, path: Path, s: Segment, t: Segment)
    requires AllBelow(piece, path + [s])
    ensures At(prior + piece, path + [t]) == At(prior, path + [t]) + (if s == t then piece else [])
  {
    AtAppend(prior, piece, path + [t]);
    AtPiece(piece, path, s, t);
  }

  // ----- every change is reported below its own position -----

  lemma {:induction false} BelowPath(ctx: Ctx, d: Value, l: Value, path: Path)
    ensures AllBelow(DiffValue(ctx, d, l, path), path)
    ensures BothContainers(d, l) ==> AllStrictlyBelow(DiffValue(ctx, d, l, path), path)
    decreases d, 0
  {
    match (d, l)
    case (Mapping(de), Mapping(le)) =>
      BelowFields(ctx, de, |de|, le, path);
      BelowRemovedFields(de, le, |le|, path);
    case (Sequence(ds), Sequence(ls)) => {
      match ctx.listMaps.KeysFor(ctx.gvk, path)
      case Some(keys) =>
        BelowKeyed(ctx, ds, |ds|, ls, keys, path);
        BelowRemovedKeyed(ctx, ds, ls, |ls|, keys, path);
      case None =>
        BelowIndexed(ctx, ds, ls, Max(|ds|, |ls|), path);
    }
    case _ =>
  }

  lemma {:induction false} BelowFieldChange(ctx: Ctx, e: Entry, live: seq<Entry>, path: Path)
    ensures AllBelow(FieldChange(ctx, e, live, path), path + [Field(e.key)])
    decreases e, 1
  {
    match Lookup(live, e.key)
    case Some(lv) => BelowPath(ctx, e.value, lv, path + [Field(e.key)]);
    case None =>
  }

  lemma {:induction false} BelowFields(ctx: Ctx, d: seq<Entry>, n: nat, live: seq<Entry>, path: Path)
    requires n <= |d|
    ensures AllStrictlyBelow(DiffFields(ctx, d, n, live, path), path)
    decreases d, n
  {
    if n > 0 {
      BelowFields(ctx, d, n - 1, live, path);
      BelowFieldChange(ctx, d[n - 1], live, path);
      Deeper(FieldChange(ctx, d[n - 1], live, path), path, Field(d[n - 1].key));
    }
  }

  lemma Deeper(cs: seq<Change>, path: Path, seg: Segment)
    requires AllBelow(cs, path + [seg])
    ensures AllStrictlyBelow(cs, path)
  {
    forall c | c in cs ensures path <= c.path && |path| < |c.path|
    {
      assert path + [seg] <= c.path;
      assert c.path[..|path|] == (path + [seg])[..|path|] == path;
    }
  }

  lemma {:induction false} BelowRemovedFields(d: seq<Entry>, live: seq<Entry>, n: nat, path: Path)
    requires n <= |live|
    ensures AllStrictlyBelow(RemovedFields(d, live, n, path), path)
  {
    if n > 0 {
      BelowRemovedFields(d, live, n - 1, path);
    }
  }

  lemma {:induction false} BelowIndexChange(ctx: Ctx, ds: seq<Value>, ls: seq<Value>, i: nat, path: Path)
    ensures AllBelow(IndexChange(ctx, ds, ls, i, path), path + [Index(i)])
    decreases ds, 0
  {
    if i < |ds| && i < |ls| {
      BelowPath(ctx, ds[i], ls[i], path + [Index(i)]);
    }
  }

  lemma {:induction false} BelowIndexed(ctx: Ctx, ds: seq<Value>, ls: seq<Value>, n: nat, path: Path)
    ensures AllStrictlyBelow(DiffIndexed(ctx, ds, ls, n, path), path)
    decreases ds, n + 1
  {
    if n > 0 {
      BelowIndexed(ctx, ds, ls, n - 1, path);
      BelowIndexChange(ctx, ds, ls, n - 1, path);
      Deeper(IndexChange(ctx, ds, ls, n - 1, path), path, Index(n - 1));
    }
  }

  lemma {:induction false} BelowKeyedChange(ctx: Ctx, ds: seq<Value>, i: nat, ls: seq<Value>, keys: seq<string>,
                                            path: Path)
    requires i < |ds|
    ensures AllBelow(KeyedChange(ctx, ds, i, ls, keys, path), path + [Keyed(ExtractKeys(ctx, ds[i], keys))])
    decreases ds, 0
  {
    var kt := ExtractKeys(ctx, ds[i], keys);
    var k := |Select(ctx, ds, i, keys, kt)|;
    var peers := Select(ctx, ls, |ls|, keys, kt);
    if k < |peers| {
      BelowPath(ctx, ds[i], peers[k], path + [Keyed(kt)]);
    }
  }

  lemma {:induction false} BelowKeyed(ctx: Ctx, ds: seq<Value>, n: nat, ls: seq<Value>, keys: seq<string>, path: Path)
    requires n <= |ds|
    ensures AllStrictlyBelow(DiffKeyed(ctx, ds, n, ls, keys, path), path)
    decreases ds, n + 1
  {
    if n > 0 {
      BelowKeyed(ctx, ds, n - 1, ls, keys, path);
      BelowKeyedChange(ctx, ds, n - 1, ls, keys, path);
      Deeper(KeyedChange(ctx, ds, n - 1, ls, keys, path), path, Keyed(ExtractKeys(ctx, ds[n - 1], keys)));
    }
  }

  lemma {:induction false} BelowRemovedKeyed(ctx: Ctx, ds: seq<Value>, ls: seq<Value>, n: nat,
                                             keys: seq<string>, path: Path)
    requires n <= |ls|
    ensures AllStrictlyBelow(RemovedKeyed(ctx, ds, ls, n, keys, path), path)
  {
    if n > 0 {
      BelowRemovedKeyed(ctx, ds, ls, n - 1, keys, path);
    }
  }

  // ----- the decomposition -----

  /** The changes below one segment are the changes between the two groups there. */
  lemma Decompose(ctx: Ctx, d: Value, l: Value, path: Path, seg: Segment)
    requires BothContainers(d, l) && Wf(d) && Wf(l)
    ensures At(DiffValue(ctx, d, l, path), path + [seg]) ==
            GroupDiff(ctx, Group(ctx, d, path, seg), Group(ctx, l, path, seg), path + [seg])
  {
    match (d, l)
    case (Mapping(de), Mapping(le)) =>
      AtAppend(DiffFields(ctx, de, |de|, le, path), RemovedFields(de, le, |le|, path), path + [seg]);
      FieldsAt(ctx, de, le, path, seg);
      RemovedFieldsAt(de, le, path, seg);
      GroupDiffSmall(ctx, Group(ctx, d, path, seg), Group(ctx, l, path, seg), path + [seg]);
    case (Sequence(ds), Sequence(ls)) => {
      match ctx.listMaps.KeysFor(ctx.gvk, path)
      case Some(keys) =>
        AtAppend(DiffKeyed(ctx, ds, |ds|, ls, keys, path), RemovedKeyed(ctx, ds, ls, |ls|, keys, path), path + [seg]);
        if seg.Keyed? {
          KeyedAt(ctx, ds, |ds|, ls, keys, path, seg.keys);
          RemovedKeyedAt(ctx, ds, ls, |ls|, keys, path, seg.keys);
          GroupDiffSplit(ctx, Group(ctx, d, path, seg), Group(ctx, l, path, seg), path + [seg]);
        } else {
          KeyedElsewhere(ctx, ds, |ds|, ls, keys, path, seg);
          RemovedKeyedElsewhere(ctx, ds, ls, |ls|, keys, path, seg);
        }
      case None =>
        IndexedAt(ctx, ds, ls, Max(|ds|, |ls|), path, seg);
        GroupOfIndexed(ctx, ds, ls, path, seg);
    }
  }

  lemma {:induction false} FieldsMiss(ctx: Ctx, d: seq<Entry>, n: nat, live: seq<Entry>, path: Path, seg: Segment)
    requires n <= |d| && forall i :: 0 <= i < n ==> seg != Field(d[i].key)
    ensures At(DiffFields(ctx, d, n, live, path), path + [seg]) == []
    decreases n
  {
    if n > 0 {
      FieldsMiss(ctx, d, n - 1, live, path, seg);
      BelowFieldChange(ctx, d[n - 1], live, path);
      AtStep(DiffFields(ctx, d, n - 1, live, path), FieldChange(ctx, d[n - 1], live, path),
             path, Field(d[n - 1].key), seg);
    }
  }

  lemma {:induction false} FieldsHit(ctx: Ctx, d: seq<Entry>, n: nat, live: seq<Entry>, path: Path, i: nat)
    requires i < n <= |d| && DistinctKeys(d)
    ensures At(DiffFields(ctx, d, n, live, path), path + [Field(d[i].key)]) == FieldChange(ctx, d[i], live, path)
    decreases n
  {
    var seg := Field(d[i].key);
    if i < n - 1 {
      FieldsHit(ctx, d, n - 1, live, path, i);
    } else {
      FieldsMiss(ctx, d, n - 1, live, path, seg);
    }
    BelowFieldChange(ctx, d[n - 1], live, path);
    AtStep(DiffFields(ctx, d, n - 1, live, path), FieldChange(ctx, d[n - 1], live, path),
           path, Field(d[n - 1].key), seg);
  }

  lemma {:induction false} RemovedFieldsMiss(d: seq<Entry>, live: seq<Entry>, n: nat, path: Path, seg: Segment)
    requires n <= |live| && forall i :: 0 <= i < n ==> seg != Field(live[i].key)
    ensures At(RemovedFields(d, live, n, path), path + [seg]) == []
  {
    if n > 0 {
      RemovedFieldsMiss(d, live, n - 1, path, seg);
      RemovedFieldsStep(d, live, n, path, seg);
    }
  }

  lemma {:induction false} RemovedFieldsHit(d: seq<Entry>, live: seq<Entry>, n: nat, path: Path, i: nat)
    requires i < n <= |live| && DistinctKeys(live)
    ensures At(RemovedFields(d, live, n, path), path + [Field(live[i].key)]) == RemovedField(d, live[i], path)
  {
    var seg := Field(live[i].key);
    if i < n - 1 {
      RemovedFieldsHit(d, live, n - 1, path, i);
    } else {
      RemovedFieldsMiss(d, live, n - 1, path, seg);
    }
    RemovedFieldsStep(d, live, n, path, seg);
  }

  lemma RemovedFieldsStep(d: seq<Entry>, live: seq<Entry>, n: nat, path: Path, seg: Segment)
    requires 0 < n <= |live|
    ensures At(RemovedFields(d, live, n, path), path + [seg]) ==
            At(RemovedFields(d, live, n - 1, path), path + [seg]) +
            (if seg == Field(live[n - 1].key) then RemovedField(d, live[n - 1], path) else [])
  {
    var piece, own := RemovedField(d, live[n - 1], path), Field(live[n - 1].key);
    assert AllBelow(piece, path + [own]);
    AtStep(RemovedFields(d, live, n - 1, path), piece, path, own, seg);
  }

  function FieldOf(es: seq<Entry>, seg: Segment): Option<Value>
  {
    if seg.Field? then Lookup(es, seg.name) else None
  }

  lemma FieldsAt(ctx: Ctx, de: seq<Entry>, le: seq<Entry>, path: Path, seg: Segment)
    requires DistinctKeys(de)
    ensures At(DiffFields(ctx, de, |de|, le, path), path + [seg]) ==
            match FieldOf(de, seg)
            case Some(dv) => FieldChange(ctx, Entry(seg.name, dv), le, path)
            case None => []
  {
    if FieldOf(de, seg).Some? {
      var i :| 0 <= i < |de| && de[i] == Entry(seg.name, FieldOf(de, seg).value);
      FieldsHit(ctx, de, |de|, le, path, i);
    } else {
      FieldsMiss(ctx, de, |de|, le, path, seg);
    }
  }

  lemma RemovedFieldsAt(de: seq<Entry>, le: seq<Entry>, path: Path, seg: Segment)
    requires DistinctKeys(le)
    ensures At(RemovedFields(de, le, |le|, path), path + [seg]) ==
            match FieldOf(le, seg)
            case Some(lv) => RemovedField(de, Entry(seg.name, lv), path)
            case None => []
  {
    if FieldOf(le, seg).Some? {
      var i :| 0 <= i < |le| && le[i] == Entry(seg.name, FieldOf(le, seg).value);
      RemovedFieldsHit(de, le, |le|, path, i);
    } else {
      RemovedFieldsMiss(de, le, |le|, path, seg);
    }
  }

  /** `GroupDiff` spelled out for groups of at most one element. */
  lemma GroupDiffSmall(ctx: Ctx, gd: seq<Value>, gl: seq<Value>, p: Path)
    requires |gd| <= 1 && |gl| <= 1
    ensures GroupDiff(ctx, gd, gl, p) ==
            if gd == [] then (if gl == [] then [] else [Removed(p, gl[0])])
            else if gl == [] then [Added(p, gd[0])]
            else DiffValue(ctx, gd[0], gl[0], p)
  {
  }

  lemma {:induction false} IndexedAt(ctx: Ctx, ds: seq<Value>, ls: seq<Value>, n: nat, path: Path, seg: Segment)
    ensures At(DiffIndexed(ctx, ds, ls, n, path), path + [seg]) ==
            if seg.Index? && seg.i < n then IndexChange(ctx, ds, ls, seg.i, path) else []
    decreases n
  {
    if n > 0 {
      IndexedAt(ctx, ds, ls, n - 1, path, seg);
      IndexedStep(ctx, ds, ls, n, path, seg);
    }
  }

  lemma IndexedStep(ctx: Ctx, ds: seq<Value>, ls: seq<Value>, n: nat, path: Path, seg: Segment)
    requires n > 0
    ensures At(DiffIndexed(ctx, ds, ls, n, path), path + [seg]) ==
            At(DiffIndexed(ctx, ds, ls, n - 1, path), path + [seg]) +
            (if Index(n - 1) == seg then IndexChange(ctx, ds, ls, n - 1, path) else [])
  {
    BelowIndexChange(ctx, ds, ls, n - 1, path);
    AtStep(DiffIndexed(ctx, ds, ls, n - 1, path), IndexChange(ctx, ds, ls, n - 1, path), path, Index(n - 1), seg);
  }

  lemma GroupOfIndexed(ctx: Ctx, ds: seq<Value>, ls: seq<Value>, path: Path, seg: Segment)
    requires ctx.listMaps.KeysFor(ctx.gvk, path).None?
    ensures GroupDiff(ctx, Group(ctx, Sequence(ds), path, seg), Group(ctx, Sequence(ls), path, seg), path + [seg]) ==
            if seg.Index? && seg.i < Max(|ds|, |ls|) then IndexChange(ctx, ds, ls, seg.i, path) else []
  {
    GroupDiffSmall(ctx, Group(ctx, Sequence(ds), path, seg), Group(ctx, Sequence(ls), path, seg), path + [seg]);
  }

  /** The desired half of `GroupDiff`. */
  function GroupDesired(ctx: Ctx, desired: seq<Value>, live: seq<Value>, path: Path): seq<Change>
  {
    if desired == [] then []
    else
      var n := |desired| - 1;
      GroupDesired(ctx, desired[..n], live, path) +
      (if n < |live| then DiffValue(ctx, desired[n], live[n], path) else [Added(path, desired[n])])
  }

  /** The live half: every live element from the `k`-th on. */
  function GroupRemoved(live: seq<Value>, k: nat, path: Path): seq<Change>
  {
    if |live| <= k then []
    else GroupRemoved(live[..|live| - 1], k, path) + [Removed(path, live[|live| - 1])]
  }

  lemma {:induction false} GroupDesiredShort(ctx: Ctx, gd: seq<Value>, gl: seq<Value>, n: nat, p: Path)
    requires |gd| <= n <= |gl|
    ensures GroupDesired(ctx, gd, gl[..n], p) == GroupDesired(ctx, gd, gl, p)
  {
    if gd != [] {
      GroupDesiredShort(ctx, gd[..|gd| - 1], gl, n, p);
    }
  }

  lemma {:induction false} GroupDiffSplit(ctx: Ctx, gd: seq<Value>, gl: seq<Value>, p: Path)
    ensures Splits(ctx, gd, gl, p)
    decreases |gd| + |gl|
  {
    if |gd| > |gl| {
      GroupDiffSplit(ctx, gd[..|gd| - 1], gl, p);
      SplitLongerDesired(ctx, gd, gl, p);
    } else if |gl| > |gd| {
      GroupDiffSplit(ctx, gd, gl[..|gl| - 1], p);
      SplitLongerLive(ctx, gd, gl, p);
    } else if |gd| > 0 {
      GroupDiffSplit(ctx, gd[..|gd| - 1], gl[..|gl| - 1], p);
      SplitEven(ctx, gd, gl, p);
    }
  }

  predicate Splits(ctx: Ctx, gd: seq<Value>, gl: seq<Value>, p: Path)
  {
    GroupDiff(ctx, gd, gl, p) == GroupDesired(ctx, gd, gl, p) + GroupRemoved(gl, |gd|, p)
  }

  lemma SplitLongerDesired(ctx: Ctx, gd: seq<Value>, gl: seq<Value>, p: Path)
    requires |gd| > |gl| && Splits(ctx, gd[..|gd| - 1], gl, p)
    ensures Splits(ctx, gd, gl, p)
  {
    GroupRemovedShort(gl, |gd| - 1, p);
    GroupRemovedShort(gl, |gd|, p);
  }

  lemma SplitLongerLive(ctx: Ctx, gd: seq<Value>, gl: seq<Value>, p: Path)
    requires |gl| > |gd| && Splits(ctx, gd, gl[..|gl| - 1], p)
    ensures Splits(ctx, gd, gl, p)
  {
    GroupDesiredShort(ctx, gd, gl, |gl| - 1, p);
    assert GroupRemoved(gl, |gd|, p) == GroupRemoved(gl[..|gl| - 1], |gd|, p) + [Removed(p, gl[|gl| - 1])];
  }

  lemma SplitEven(ctx: Ctx, gd: seq<Value>, gl: seq<Value>, p: Path)
    requires |gl| == |gd| > 0 && Splits(ctx, gd[..|gd| - 1], gl[..|gl| - 1], p)
    ensures Splits(ctx, gd, gl, p)
  {
    GroupDesiredShort(ctx, gd[..|gd| - 1], gl, |gl| - 1, p);
    GroupRemovedShort(gl[..|gl| - 1], |gd| - 1, p);
    GroupRemovedShort(gl, |gd|, p);
  }

  lemma GroupDesiredStep(ctx: Ctx, gd: seq<Value>, x: Value, gl: seq<Value>, p: Path)
    ensures GroupDesired(ctx, gd + [x], gl, p) ==
            GroupDesired(ctx, gd, gl, p) +
            (if |gd| < |gl| then DiffValue(ctx, x, gl[|gd|], p) else [Added(p, x)])
  {
    assert (gd + [x])[..|gd|] == gd;
  }

  lemma {:induction false} KeyedAt(ctx: Ctx, ds: seq<Value>, n: nat, ls: seq<Value>, keys: seq<string>,
                                   path: Path, kt: KeyTuple)
    requires n <= |ds|
    ensures At(DiffKeyed(ctx, ds, n, ls, keys, path), path + [Keyed(kt)]) ==
            GroupDesired(ctx, Select(ctx, ds, n, keys, kt), Select(ctx, ls, |ls|, keys, kt), path + [Keyed(kt)])
    decreases n
  {
    if n > 0 {
      var own := ExtractKeys(ctx, ds[n - 1], keys);
      var prior := DiffKeyed(ctx, ds, n - 1, ls, keys, path);
      var piece := KeyedChange(ctx, ds, n - 1, ls, keys, path);
      KeyedAt(ctx, ds, n - 1, ls, keys, path, kt);
      BelowKeyedChange(ctx, ds, n - 1, ls, keys, path);
      AtStep(prior, piece, path, Keyed(own), Keyed(kt));
      if own == kt {
        GroupDesiredStep(ctx, Select(ctx, ds, n - 1, keys, kt), ds[n - 1], Select(ctx, ls, |ls|, keys, kt),
                         path + [Keyed(kt)]);
      } else {
        assert Select(ctx, ds, n, keys, kt) == Select(ctx, ds, n - 1, keys, kt);
      }
    }
  }

  /** The removals among the first `n` live elements, seen from one key tuple. */
  predicate RemovalsAgree(ctx: Ctx, ds: seq<Value>, ls: seq<Value>, n: nat, keys: seq<string>, path: Path, kt: KeyTuple)
    requires n <= |ls|
  {
    At(RemovedKeyed(ctx, ds, ls, n, keys, path), path + [Keyed(kt)]) ==
    GroupRemoved(Select(ctx, ls, n, keys, kt), |Select(ctx, ds, |ds|, keys, kt)|, path + [Keyed(kt)])
  }

  lemma NoRemovalsAgree(ctx: Ctx, ds: seq<Value>, ls: seq<Value>, keys: seq<string>, path: Path, kt: KeyTuple)
    ensures RemovalsAgree(ctx, ds, ls, 0, keys, path, kt)
  {
  }

  lemma {:induction false} RemovedKeyedAt(ctx: Ctx, ds: seq<Value>, ls: seq<Value>, n: nat, keys: seq<string>,
                                          path: Path, kt: KeyTuple)
    requires n <= |ls|
    ensures RemovalsAgree(ctx, ds, ls, n, keys, path, kt)
    decreases n
  {
    if n == 0 {
      NoRemovalsAgree(ctx, ds, ls, keys, path, kt);
    } else {
      RemovedKeyedAt(ctx, ds, ls, n - 1, keys, path, kt);
      RemovedKeyedStep(ctx, ds, ls, n, keys, path, kt);
    }
  }

  /** The last of `n` live elements, seen from key tuple `kt`. */
  lemma RemovedKeyedStep(ctx: Ctx, ds: seq<Value>, ls: seq<Value>, n: nat, keys: seq<string>, path: Path, kt: KeyTuple)
    requires 0 < n <= |ls|
    ensures RemovalsAgree(ctx, ds, ls, n - 1, keys, path, kt) ==> RemovalsAgree(ctx, ds, ls, n, keys, path, kt)
  {
    var own := ExtractKeys(ctx, ls[n - 1], keys);
    var before := Select(ctx, ls, n - 1, keys, own);
    var piece :=
      if |before| < |Select(ctx, ds, |ds|, keys, own)| then [] else [Removed(path + [Keyed(own)], ls[n - 1])];
    AtStep(RemovedKeyed(ctx, ds, ls, n - 1, keys, path), piece, path, Keyed(own), Keyed(kt));
    if own == kt {
      GroupRemovedStep(before, ls[n - 1], |Select(ctx, ds, |ds|, keys, kt)|, path + [Keyed(kt)]);
    } else {
      assert Select(ctx, ls, n, keys, kt) == Select(ctx, ls, n - 1, keys, kt);
    }
  }

  lemma {:induction false} KeyedElsewhere(ctx: Ctx, ds: seq<Value>, n: nat, ls: seq<Value>, keys: seq<string>,
                                          path: Path, seg: Segment)
    requires n <= |ds| && !seg.Keyed?
    ensures At(DiffKeyed(ctx, ds, n, ls, keys, path), path + [seg]) == []
    decreases n
  {
    if n > 0 {
      var piece := KeyedChange(ctx, ds, n - 1, ls, keys, path);
      KeyedElsewhere(ctx, ds, n - 1, ls, keys, path, seg);
      BelowKeyedChange(ctx, ds, n - 1, ls, keys, path);
      AtStep(DiffKeyed(ctx, ds, n - 1, ls, keys, path), piece, path, Keyed(ExtractKeys(ctx, ds[n - 1], keys)), seg);
    }
  }

  lemma {:induction false} RemovedKeyedElsewhere(ctx: Ctx, ds: seq<Value>, ls: seq<Value>, n: nat,
                                                 keys: seq<string>, path: Path, seg: Segment)
    requires n <= |ls| && !seg.Keyed?
    ensures At(RemovedKeyed(ctx, ds, ls, n, keys, path), path + [seg]) == []
  {
    RemovedKeyedPaths(ctx, ds, ls, n, keys, path);
    forall c | c in RemovedKeyed(ctx, ds, ls, n, keys, path) ensures !(path + [seg] <= c.path)
    {
      assert (path + [seg])[|path|] == seg;
    }
    FilterNone(RemovedKeyed(ctx, ds, ls, n, keys, path), (c: Change) => path + [seg] <= c.path);
  }

  lemma {:induction false} RemovedKeyedPaths(ctx: Ctx, ds: seq<Value>, ls: seq<Value>, n: nat,
                                             keys: seq<string>, path: Path)
    requires n <= |ls|
    ensures forall c :: c in RemovedKeyed(ctx, ds, ls, n, keys, path) ==> |c.path| > |path| && c.path[|path|].Keyed?
  {
    if n > 0 {
      RemovedKeyedPaths(ctx, ds, ls, n - 1, keys, path);
    }
  }

  lemma GroupRemovedStep(live: seq<Value>, x: Value, k: nat, p: Path)
    ensures GroupRemoved(live + [x], k, p) == GroupRemoved(live, k, p) + (if |live| < k then [] else [Removed(p, x)])
  {
    assert (live + [x])[..|live|] == live;
  }

  lemma GroupRemovedShort(live: seq<Value>, k: nat, p: Path)
    ensures |live| <= k ==> GroupRemoved(live, k, p) == []
  {
  }
}
