/** Laws of the differ: when it is silent, that its silence is an equivalence, what
    swapping the two sides does, and that reported paths never nest. */
module CompareLaws {
  import opened Common
  import opened Yaml
  import opened ListMap
  import opened Compare
  import opened CompareSpec

  lemma HeadAt(cs: seq<Change>, path: Path, c: Change)
    requires AllStrictlyBelow(cs, path) && c in cs
    ensures c in At(cs, path + [c.path[|path|]])
  {
    var p := path + [c.path[|path|]];
    assert c.path[..|p|] == p;
    FilterMember(cs, (x: Change) => p <= x.path, c);
  }

  // ----- silence is equivalence -----

  /** The differ reports nothing exactly when the two trees are equivalent; no
      uniqueness of list keys is assumed. */
  lemma {:induction false} EmptyIffEquivalent(ctx: Ctx, d: Value, l: Value, path: Path)
    requires Wf(d) && Wf(l)
    ensures DiffValue(ctx, d, l, path) == [] <==> Equivalent(ctx, d, l, path)
    decreases d
  {
    if BothContainers(d, l) {
      var cs := DiffValue(ctx, d, l, path);
      BelowPath(ctx, d, l, path);
      forall seg
        ensures At(cs, path + [seg]) == [] <==>
                GroupsEquivalent(ctx, Group(ctx, d, path, seg), Group(ctx, l, path, seg), path + [seg])
      {
        Decompose(ctx, d, l, path, seg);
        GroupEmpty(ctx, d, Group(ctx, d, path, seg), Group(ctx, l, path, seg), path + [seg]);
      }
      if cs != [] {
        HeadAt(cs, path, cs[0]);
      }
    }
  }

  lemma {:induction false} GroupEmpty(ctx: Ctx, above: Value, gd: seq<Value>, gl: seq<Value>, p: Path)
    requires forall i :: 0 <= i < |gd| ==> gd[i] < above && Wf(gd[i])
    requires forall i :: 0 <= i < |gl| ==> Wf(gl[i])
    ensures GroupDiff(ctx, gd, gl, p) == [] <==> GroupsEquivalent(ctx, gd, gl, p)
    decreases above, |gd|
  {
    if |gd| == |gl| > 0 {
      var n := |gd| - 1;
      GroupEmpty(ctx, above, gd[..n], gl[..n], p);
      EmptyIffEquivalent(ctx, gd[n], gl[n], p);
      LastPairEquivalent(ctx, gd, gl, p);
    }
  }

  lemma LastPairEquivalent(ctx: Ctx, ga: seq<Value>, gb: seq<Value>, p: Path)
    requires |ga| == |gb| > 0
    ensures var n := |ga| - 1;
            GroupsEquivalent(ctx, ga, gb, p) <==>
            GroupsEquivalent(ctx, ga[..n], gb[..n], p) && Equivalent(ctx, ga[n], gb[n], p)
  {
    var n := |ga| - 1;
    assert forall k :: 0 <= k < n ==> ga[..n][k] == ga[k] && gb[..n][k] == gb[k];
  }

  lemma {:induction false} EquivalentReflexive(ctx: Ctx, a: Value, path: Path)
    ensures Equivalent(ctx, a, a, path)
    decreases a
  {
    if BothContainers(a, a) {
      forall seg, k | 0 <= k < |Group(ctx, a, path, seg)|
        ensures Equivalent(ctx, Group(ctx, a, path, seg)[k], Group(ctx, a, path, seg)[k], path + [seg])
      {
        EquivalentReflexive(ctx, Group(ctx, a, path, seg)[k], path + [seg]);
      }
    }
  }

  lemma {:induction false} EquivalentSymmetric(ctx: Ctx, a: Value, b: Value, path: Path)
    requires Equivalent(ctx, a, b, path)
    ensures Equivalent(ctx, b, a, path)
    decreases a
  {
    if BothContainers(a, b) {
      forall seg
        ensures |Group(ctx, b, path, seg)| == |Group(ctx, a, path, seg)|
        ensures forall k :: 0 <= k < |Group(ctx, b, path, seg)| ==>
                  Equivalent(ctx, Group(ctx, b, path, seg)[k], Group(ctx, a, path, seg)[k], path + [seg])
      {
        forall k | 0 <= k < |Group(ctx, b, path, seg)|
          ensures Equivalent(ctx, Group(ctx, b, path, seg)[k], Group(ctx, a, path, seg)[k], path + [seg])
        {
          EquivalentSymmetric(ctx, Group(ctx, a, path, seg)[k], Group(ctx, b, path, seg)[k], path + [seg]);
        }
      }
    }
  }

  lemma {:induction false} EquivalentTransitive(ctx: Ctx, a: Value, b: Value, c: Value, path: Path)
    requires Equivalent(ctx, a, b, path) && Equivalent(ctx, b, c, path)
    ensures Equivalent(ctx, a, c, path)
    decreases a
  {
    if BothContainers(a, b) {
      forall seg
        ensures |Group(ctx, a, path, seg)| == |Group(ctx, c, path, seg)|
        ensures forall k :: 0 <= k < |Group(ctx, a, path, seg)| ==>
                  Equivalent(ctx, Group(ctx, a, path, seg)[k], Group(ctx, c, path, seg)[k], path + [seg])
      {
        assert |Group(ctx, a, path, seg)| == |Group(ctx, b, path, seg)| == |Group(ctx, c, path, seg)|;
        forall k | 0 <= k < |Group(ctx, a, path, seg)|
          ensures Equivalent(ctx, Group(ctx, a, path, seg)[k], Group(ctx, c, path, seg)[k], path + [seg])
        {
          EquivalentTransitive(ctx, Group(ctx, a, path, seg)[k], Group(ctx, b, path, seg)[k],
                               Group(ctx, c, path, seg)[k], path + [seg]);
        }
      }
    }
  }

  // ----- swapping the two sides -----

  function MirrorChange(c: Change): Change
  {
    match c
    case Added(p, v) => Removed(p, v)
    case Removed(p, v) => Added(p, v)
    case Modified(p, d, l) => Modified(p, l, d)
  }

  function Mirrored(cs: seq<Change>): seq<Change>
  {
    if cs == [] then [] else Mirrored(cs[..|cs| - 1]) + [MirrorChange(cs[|cs| - 1])]
  }

  lemma {:induction false} MirroredAppend(a: seq<Change>, b: seq<Change>)
    ensures Mirrored(a + b) == Mirrored(a) + Mirrored(b)
  {
    if b == [] {
      assert a + b == a;
    } else {
      MirroredAppend(a, b[..|b| - 1]);
      assert (a + b)[..|a + b| - 1] == a + b[..|b| - 1];
      assert (a + b)[|a + b| - 1] == b[|b| - 1];
    }
  }

  lemma {:induction false} MirroredAt(cs: seq<Change>, p: Path)
    ensures At(Mirrored(cs), p) == Mirrored(At(cs, p))
  {
    if cs != [] {
      var n := |cs| - 1;
      MirroredAt(cs[..n], p);
      AtAppend(Mirrored(cs[..n]), [MirrorChange(cs[n])], p);
      assert cs[..n] + [cs[n]] == cs;
      AtAppend(cs[..n], [cs[n]], p);
      MirroredAppend(At(cs[..n], p), At([cs[n]], p));
      AtOne(cs[n], p);
      AtOne(MirrorChange(cs[n]), p);
      assert Mirrored([]) == [] && Mirrored([cs[n]]) == [MirrorChange(cs[n])];
    }
  }

  lemma AtOne(c: Change, p: Path)
    ensures At([c], p) == if p <= c.path then [c] else []
  {
    assert [c][..0] == [];
  }

  lemma {:induction false} MirroredBelow(cs: seq<Change>, p: Path)
    requires AllStrictlyBelow(cs, p)
    ensures AllStrictlyBelow(Mirrored(cs), p)
  {
    if cs != [] {
      MirroredBelow(cs[..|cs| - 1], p);
    }
  }

  /** Swapping desired and live reports the same changes, as a multiset, with added and
      removed exchanged and the sides of every modification swapped. */
  lemma {:induction false} MirrorLaw(ctx: Ctx, d: Value, l: Value, path: Path)
    requires Wf(d) && Wf(l)
    ensures multiset(DiffValue(ctx, l, d, path)) == multiset(Mirrored(DiffValue(ctx, d, l, path)))
    decreases d, 2, 0
  {
    var there, back := DiffValue(ctx, d, l, path), DiffValue(ctx, l, d, path);
    if BothContainers(d, l) {
      BelowPath(ctx, d, l, path);
      BelowPath(ctx, l, d, path);
      MirroredBelow(there, path);
      forall c: Change
        ensures multiset(back)[c] == multiset(Mirrored(there))[c]
      {
        if path <= c.path && |path| < |c.path| {
          MirrorBelow(ctx, d, l, path, c);
        } else {
          assert c !in back && c !in Mirrored(there);
        }
      }
    } else if d != l {
      assert there == [Modified(path, d, l)];
      assert Mirrored(there) == [Modified(path, l, d)];
    }
  }

  /** The two directions agree on a change strictly below `path`. */
  lemma {:induction false} MirrorBelow(ctx: Ctx, d: Value, l: Value, path: Path, c: Change)
    requires Wf(d) && Wf(l) && BothContainers(d, l) && path <= c.path && |path| < |c.path|
    ensures multiset(DiffValue(ctx, l, d, path))[c] == multiset(Mirrored(DiffValue(ctx, d, l, path)))[c]
    decreases d, 1, 0
  {
    var there, back, seg := DiffValue(ctx, d, l, path), DiffValue(ctx, l, d, path), c.path[|path|];
    Decompose(ctx, d, l, path, seg);
    Decompose(ctx, l, d, path, seg);
    GroupMirror(ctx, d, Group(ctx, d, path, seg), Group(ctx, l, path, seg), path + [seg]);
    MirroredAt(there, path + [seg]);
    CountAt(back, path, c);
    CountAt(Mirrored(there), path, c);
  }

  lemma CountAt(cs: seq<Change>, path: Path, c: Change)
    requires path <= c.path && |path| < |c.path|
    ensures multiset(cs)[c] == multiset(At(cs, path + [c.path[|path|]]))[c]
  {
    var p := path + [c.path[|path|]];
    assert c.path[..|p|] == p;
    FilterCount(cs, (x: Change) => p <= x.path, c);
  }

  lemma {:induction false} GroupMirror(ctx: Ctx, above: Value, gd: seq<Value>, gl: seq<Value>, p: Path)
    requires forall i :: 0 <= i < |gd| ==> gd[i] < above && Wf(gd[i])
    requires forall i :: 0 <= i < |gl| ==> Wf(gl[i])
    ensures multiset(GroupDiff(ctx, gl, gd, p)) == multiset(Mirrored(GroupDiff(ctx, gd, gl, p)))
    decreases above, 0, |gd| + |gl|
  {
    if |gd| > |gl| {
      GroupMirror(ctx, above, gd[..|gd| - 1], gl, p);
      SurplusDesired(ctx, gd, gl, p);
    } else if |gl| > |gd| {
      GroupMirror(ctx, above, gd, gl[..|gl| - 1], p);
      SurplusLive(ctx, gd, gl, p);
    } else if |gd| > 0 {
      var n := |gd| - 1;
      GroupMirror(ctx, above, gd[..n], gl[..n], p);
      MirrorLaw(ctx, gd[n], gl[n], p);
      MirrorStep(GroupDiff(ctx, gl[..n], gd[..n], p), DiffValue(ctx, gl[n], gd[n], p),
                 GroupDiff(ctx, gd[..n], gl[..n], p), DiffValue(ctx, gd[n], gl[n], p));
    }
  }

  lemma SurplusDesired(ctx: Ctx, gd: seq<Value>, gl: seq<Value>, p: Path)
    requires |gd| > |gl|
    requires multiset(GroupDiff(ctx, gl, gd[..|gd| - 1], p)) ==
             multiset(Mirrored(GroupDiff(ctx, gd[..|gd| - 1], gl, p)))
    ensures multiset(GroupDiff(ctx, gl, gd, p)) == multiset(Mirrored(GroupDiff(ctx, gd, gl, p)))
  {
    GroupDiffSurplus(ctx, gd, gl, p);
    MirrorOne(GroupDiff(ctx, gl, gd[..|gd| - 1], p), GroupDiff(ctx, gd[..|gd| - 1], gl, p), Added(p, gd[|gd| - 1]));
  }

  lemma SurplusLive(ctx: Ctx, gd: seq<Value>, gl: seq<Value>, p: Path)
    requires |gl| > |gd|
    requires multiset(GroupDiff(ctx, gl[..|gl| - 1], gd, p)) ==
             multiset(Mirrored(GroupDiff(ctx, gd, gl[..|gl| - 1], p)))
    ensures multiset(GroupDiff(ctx, gl, gd, p)) == multiset(Mirrored(GroupDiff(ctx, gd, gl, p)))
  {
    GroupDiffSurplus(ctx, gl, gd, p);
    MirrorOne(GroupDiff(ctx, gl[..|gl| - 1], gd, p), GroupDiff(ctx, gd, gl[..|gl| - 1], p), Removed(p, gl[|gl| - 1]));
  }

  /** A surplus element on one side, seen from both directions. */
  lemma GroupDiffSurplus(ctx: Ctx, long: seq<Value>, short: seq<Value>, p: Path)
    requires |long| > |short|
    ensures GroupDiff(ctx, long, short, p) ==
            GroupDiff(ctx, long[..|long| - 1], short, p) + [Added(p, long[|long| - 1])]
    ensures GroupDiff(ctx, short, long, p) ==
            GroupDiff(ctx, short, long[..|long| - 1], p) + [Removed(p, long[|long| - 1])]
  {
  }

  lemma MirrorStep(back: seq<Change>, b: seq<Change>, there: seq<Change>, t: seq<Change>)
    requires multiset(back) == multiset(Mirrored(there))
    requires multiset(b) == multiset(Mirrored(t))
    ensures multiset(back + b) == multiset(Mirrored(there + t))
  {
    MirroredAppend(there, t);
  }

  lemma MirrorOne(back: seq<Change>, there: seq<Change>, c: Change)
    requires multiset(back) == multiset(Mirrored(there))
    ensures multiset(back + [MirrorChange(c)]) == multiset(Mirrored(there + [c]))
  {
    MirroredAppend(there, [c]);
    assert [c][..0] == [] && Mirrored([c]) == [MirrorChange(c)];
  }

  // ----- paths never nest -----

  /** No registered list inside `v` holds two elements with one key tuple (a mapping and
      a plain list have at most one child per segment anyway). */
  ghost predicate UniqueKeys(ctx: Ctx, v: Value, path: Path)
    decreases v
  {
    forall seg ::
      |Group(ctx, v, path, seg)| <= 1 &&
      forall k :: 0 <= k < |Group(ctx, v, path, seg)| ==> UniqueKeys(ctx, Group(ctx, v, path, seg)[k], path + [seg])
  }

  ghost predicate Antichain(cs: seq<Change>)
  {
    forall i, j :: 0 <= i < |cs| && 0 <= j < |cs| && i != j ==> !(cs[i].path <= cs[j].path)
  }

  /** With unique list keys on both sides no reported path is, or extends, another. */
  lemma {:induction false} PathsNeverNest(ctx: Ctx, d: Value, l: Value, path: Path)
    requires Wf(d) && Wf(l) && UniqueKeys(ctx, d, path) && UniqueKeys(ctx, l, path)
    ensures Antichain(DiffValue(ctx, d, l, path))
    decreases d, 1
  {
    var cs := DiffValue(ctx, d, l, path);
    if BothContainers(d, l) {
      BelowPath(ctx, d, l, path);
      forall i, j | 0 <= i < |cs| && 0 <= j < |cs| && i != j && cs[i].path <= cs[j].path
        ensures false
      {
        NestedPairAt(cs, path, i, j);
        SegmentNeverNests(ctx, d, l, path, cs[i].path[|path|]);
      }
    }
  }

  lemma {:induction false} SegmentNeverNests(ctx: Ctx, d: Value, l: Value, path: Path, seg: Segment)
    requires Wf(d) && Wf(l) && UniqueKeys(ctx, d, path) && UniqueKeys(ctx, l, path) && BothContainers(d, l)
    ensures Antichain(At(DiffValue(ctx, d, l, path), path + [seg]))
    decreases d, 0
  {
    var gd, gl := Group(ctx, d, path, seg), Group(ctx, l, path, seg);
    Decompose(ctx, d, l, path, seg);
    GroupDiffSmall(ctx, gd, gl, path + [seg]);
    if gd != [] && gl != [] {
      PathsNeverNest(ctx, gd[0], gl[0], path + [seg]);
    }
  }

  /** A nested pair of changes is still there below their common segment. */
  lemma NestedPairAt(cs: seq<Change>, path: Path, i: nat, j: nat)
    requires AllStrictlyBelow(cs, path)
    requires i < |cs| && j < |cs| && i != j && cs[i].path <= cs[j].path
    ensures !Antichain(At(cs, path + [cs[i].path[|path|]]))
  {
    var seg := cs[i].path[|path|];
    var p := path + [seg];
    assert cs[i] in cs && cs[j] in cs;
    assert cs[j].path[|path|] == seg;
    assert cs[i].path[..|p|] == p && cs[j].path[..|p|] == p;
    var lo, hi := if i < j then i else j, if i < j then j else i;
    var lo', hi' := FilterPositions(cs, (c: Change) => p <= c.path, lo, hi);
    assert At(cs, p)[lo'] == cs[lo] && At(cs, p)[hi'] == cs[hi];
  }
}
