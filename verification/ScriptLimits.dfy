/** How far the reported changes go as an edit script: they suffice for every desired tree
    exactly when the live tree's list keys are unique. */
module ScriptLimits {
  import opened Common
  import opened Yaml
  import opened ListMap
  import opened Compare
  import opened CompareSpec
  import opened CompareLaws
  import opened EditScript
  import opened Manifests
  import opened ManifestDiff

  // ----- a duplicated key tuple in one list -----

  /** The first `n` elements without the later ones of key tuple `kt`. */
  function CutTo(ctx: Ctx, xs: seq<Value>, n: nat, keys: seq<string>, kt: KeyTuple): seq<Value>
    requires n <= |xs|
  {
    if n == 0 then []
    else
      CutTo(ctx, xs, n - 1, keys, kt) +
      (if ExtractKeys(ctx, xs[n - 1], keys) == kt && Select(ctx, xs, n - 1, keys, kt) != [] then [] else [xs[n - 1]])
  }

  function First(g: seq<Value>): seq<Value>
  {
    if g == [] then [] else [g[0]]
  }

  /** One more element: dropped if it is a later one of the tuple. */
  lemma CutSnoc(ctx: Ctx, xs: seq<Value>, n: nat, keys: seq<string>, kt: KeyTuple)
    requires 0 < n <= |xs|
    ensures var front, x := CutTo(ctx, xs, n - 1, keys, kt), xs[n - 1];
            CutTo(ctx, xs, n, keys, kt) ==
            if ExtractKeys(ctx, x, keys) == kt && Select(ctx, xs, n - 1, keys, kt) != [] then front else front + [x]
  {
    assert CutTo(ctx, xs, n - 1, keys, kt) + [] == CutTo(ctx, xs, n - 1, keys, kt);
  }

  lemma SelectedSoFar(ctx: Ctx, xs: seq<Value>, n: nat, keys: seq<string>, kt: KeyTuple)
    requires 0 < n <= |xs|
    ensures var front, x := Select(ctx, xs, n - 1, keys, kt), xs[n - 1];
            Select(ctx, xs, n, keys, kt) == if ExtractKeys(ctx, x, keys) == kt then front + [x] else front
  {
    assert Select(ctx, xs, n - 1, keys, kt) + [] == Select(ctx, xs, n - 1, keys, kt);
  }

  lemma SelectAllSnoc(ctx: Ctx, front: seq<Value>, x: Value, keys: seq<string>, kt: KeyTuple)
    ensures SelectAll(ctx, front + [x], keys, kt) ==
            if ExtractKeys(ctx, x, keys) == kt then SelectAll(ctx, front, keys, kt) + [x]
            else SelectAll(ctx, front, keys, kt)
  {
    SelectPiece(ctx, front, [x], keys, kt);
    SelectOne(ctx, x, keys, kt);
    assert SelectAll(ctx, front, keys, kt) + [] == SelectAll(ctx, front, keys, kt);
  }

  lemma FirstGrows(g: seq<Value>, x: Value)
    ensures First(g + [x]) == if g == [] then [x] else First(g)
  {
  }

  lemma {:induction false} CutSelects(ctx: Ctx, xs: seq<Value>, n: nat, keys: seq<string>, kt: KeyTuple,
                                      other: KeyTuple)
    requires n <= |xs|
    ensures SelectAll(ctx, CutTo(ctx, xs, n, keys, kt), keys, other) ==
            if other == kt then First(Select(ctx, xs, n, keys, kt)) else Select(ctx, xs, n, keys, other)
  {
    if n > 0 {
      CutSelects(ctx, xs, n - 1, keys, kt, other);
      if other == kt {
        CutSelectsSame(ctx, xs, n, keys, kt);
      } else {
        CutSelectsOther(ctx, xs, n, keys, kt, other);
      }
    }
  }

  lemma CutSelectsSame(ctx: Ctx, xs: seq<Value>, n: nat, keys: seq<string>, kt: KeyTuple)
    requires 0 < n <= |xs|
    requires SelectAll(ctx, CutTo(ctx, xs, n - 1, keys, kt), keys, kt) == First(Select(ctx, xs, n - 1, keys, kt))
    ensures SelectAll(ctx, CutTo(ctx, xs, n, keys, kt), keys, kt) == First(Select(ctx, xs, n, keys, kt))
  {
    CutSnoc(ctx, xs, n, keys, kt);
    SelectedSoFar(ctx, xs, n, keys, kt);
    SelectAllSnoc(ctx, CutTo(ctx, xs, n - 1, keys, kt), xs[n - 1], keys, kt);
    FirstGrows(Select(ctx, xs, n - 1, keys, kt), xs[n - 1]);
  }

  lemma CutSelectsOther(ctx: Ctx, xs: seq<Value>, n: nat, keys: seq<string>, kt: KeyTuple, other: KeyTuple)
    requires 0 < n <= |xs| && other != kt
    requires SelectAll(ctx, CutTo(ctx, xs, n - 1, keys, kt), keys, other) == Select(ctx, xs, n - 1, keys, other)
    ensures SelectAll(ctx, CutTo(ctx, xs, n, keys, kt), keys, other) == Select(ctx, xs, n, keys, other)
  {
    CutSnoc(ctx, xs, n, keys, kt);
    SelectedSoFar(ctx, xs, n, keys, other);
    SelectAllSnoc(ctx, CutTo(ctx, xs, n - 1, keys, kt), xs[n - 1], keys, other);
  }

  lemma {:induction false} CutMembers(ctx: Ctx, xs: seq<Value>, n: nat, keys: seq<string>, kt: KeyTuple)
    requires n <= |xs|
    ensures forall x :: x in CutTo(ctx, xs, n, keys, kt) ==> x in xs
  {
    if n > 0 {
      CutMembers(ctx, xs, n - 1, keys, kt);
    }
  }

  /** The list with the key tuple cut down to its first element. */
  function Cut(ctx: Ctx, ls: seq<Value>, keys: seq<string>, kt: KeyTuple): Value
  {
    Sequence(CutTo(ctx, ls, |ls|, keys, kt))
  }

  lemma CutGroups(ctx: Ctx, ls: seq<Value>, keys: seq<string>, kt: KeyTuple, path: Path, seg: Segment)
    requires ctx.listMaps.KeysFor(ctx.gvk, path) == Some(keys)
    ensures var g, h := Group(ctx, Cut(ctx, ls, keys, kt), path, seg), Group(ctx, Sequence(ls), path, seg);
            g == if seg == Keyed(kt) then First(h) else h
  {
    if seg.Keyed? {
      CutSelects(ctx, ls, |ls|, keys, kt, seg.keys);
    }
  }

  lemma CutWf(ctx: Ctx, ls: seq<Value>, keys: seq<string>, kt: KeyTuple)
    requires Wf(Sequence(ls))
    ensures Wf(Cut(ctx, ls, keys, kt))
  {
    CutMembers(ctx, ls, |ls|, keys, kt);
  }

  /** Nothing is reported between equal groups. */
  lemma {:induction false} SameGroupSilent(ctx: Ctx, g: seq<Value>, p: Path)
    requires forall i :: 0 <= i < |g| ==> Wf(g[i])
    ensures GroupDiff(ctx, g, g, p) == []
    decreases |g|
  {
    if g != [] {
      var n := |g| - 1;
      SameGroupSilent(ctx, g[..n], p);
      EquivalentReflexive(ctx, g[n], p);
      EmptyIffEquivalent(ctx, g[n], g[n], p);
    }
  }

  /** Between a group and its first element only removals are reported, and there are some. */
  lemma {:induction false} SurplusRemoved(ctx: Ctx, g: seq<Value>, p: Path)
    requires g != [] && forall i :: 0 <= i < |g| ==> Wf(g[i])
    ensures forall c :: c in GroupDiff(ctx, [g[0]], g, p) ==> RemovesAt(c, p)
    ensures |g| > 1 ==> exists c :: c in GroupDiff(ctx, [g[0]], g, p) && RemovesAt(c, p)
    decreases |g|
  {
    var n := |g| - 1;
    if n == 0 {
      assert g == [g[0]];
      SameGroupSilent(ctx, g, p);
    } else {
      SurplusRemoved(ctx, g[..n], p);
      var c := Removed(p, g[n]);
      assert GroupDiff(ctx, [g[0]], g, p) == GroupDiff(ctx, [g[0]], g[..n], p) + [c];
      assert RemovesAt(c, p) && c in GroupDiff(ctx, [g[0]], g[..n], p) + [c];
    }
  }

  /** What the diff between the cut list and the whole one says below one segment. */
  lemma CutDiffAt(ctx: Ctx, ls: seq<Value>, keys: seq<string>, kt: KeyTuple, path: Path, seg: Segment)
    requires ctx.listMaps.KeysFor(ctx.gvk, path) == Some(keys) && Wf(Sequence(ls))
    ensures var cs := At(DiffValue(ctx, Cut(ctx, ls, keys, kt), Sequence(ls), path), path + [seg]);
            var g := Group(ctx, Sequence(ls), path, seg);
            cs == if seg == Keyed(kt) && g != [] then GroupDiff(ctx, [g[0]], g, path + [seg]) else []
  {
    var g := Group(ctx, Sequence(ls), path, seg);
    CutWf(ctx, ls, keys, kt);
    Decompose(ctx, Cut(ctx, ls, keys, kt), Sequence(ls), path, seg);
    CutGroups(ctx, ls, keys, kt, path, seg);
    SameGroupSilent(ctx, g, path + [seg]);
  }

  /** Every element of the duplicated key tuple goes, every other one stays as it is. */
  lemma CutElementAfter(ctx: Ctx, ls: seq<Value>, keys: seq<string>, kt: KeyTuple, path: Path, i: nat)
    requires ctx.listMaps.KeysFor(ctx.gvk, path) == Some(keys) && Wf(Sequence(ls)) && i < |ls|
    requires |SelectAll(ctx, ls, keys, kt)| > 1
    ensures var own := ExtractKeys(ctx, ls[i], keys);
            ElementAfter(ctx, ls[i], Keyed(own), DiffValue(ctx, Cut(ctx, ls, keys, kt), Sequence(ls), path), path) ==
            if own == kt then [] else [ls[i]]
  {
    var own := ExtractKeys(ctx, ls[i], keys);
    var p := path + [Keyed(own)];
    var g := Group(ctx, Sequence(ls), path, Keyed(own));
    CutDiffAt(ctx, ls, keys, kt, path, Keyed(own));
    if own == kt {
      SurplusRemoved(ctx, g, p);
    } else {
      PatchNothing(ctx, ls[i], p);
      NothingRemovedBy([], p);
    }
  }

  lemma NothingRemovedBy(cs: seq<Change>, p: Path)
    requires cs == []
    ensures !exists c :: c in cs && RemovesAt(c, p)
  {
  }

  /** The script drops every element of key tuple `kt` and touches no other. */
  ghost predicate DropsAll(ctx: Ctx, ls: seq<Value>, keys: seq<string>, kt: KeyTuple, cs: seq<Change>, path: Path)
  {
    forall i :: 0 <= i < |ls| ==>
      var own := ExtractKeys(ctx, ls[i], keys);
      ElementAfter(ctx, ls[i], Keyed(own), cs, path) == if own == kt then [] else [ls[i]]
  }

  lemma {:induction false} NoneKept(ctx: Ctx, ls: seq<Value>, n: nat, keys: seq<string>, kt: KeyTuple,
                                    cs: seq<Change>, path: Path)
    requires n <= |ls| && DropsAll(ctx, ls, keys, kt, cs, path)
    ensures SelectAll(ctx, KeptKeyed(ctx, ls, n, keys, cs, path), keys, kt) == []
    decreases n
  {
    if n > 0 {
      NoneKept(ctx, ls, n - 1, keys, kt, cs, path);
      KeptWithout(ctx, ls, n, keys, kt, cs, path);
    }
  }

  lemma KeptWithout(ctx: Ctx, ls: seq<Value>, n: nat, keys: seq<string>, kt: KeyTuple, cs: seq<Change>, path: Path)
    requires 0 < n <= |ls| && DropsAll(ctx, ls, keys, kt, cs, path)
    requires SelectAll(ctx, KeptKeyed(ctx, ls, n - 1, keys, cs, path), keys, kt) == []
    ensures SelectAll(ctx, KeptKeyed(ctx, ls, n, keys, cs, path), keys, kt) == []
  {
    var own := ExtractKeys(ctx, ls[n - 1], keys);
    var piece := ElementAfter(ctx, ls[n - 1], Keyed(own), cs, path);
    SelectKeptPiece(ctx, KeptKeyed(ctx, ls, n - 1, keys, cs, path), piece, own, keys, kt);
  }

  /** Nothing is added either. */
  lemma CutAddsNothing(ctx: Ctx, ls: seq<Value>, keys: seq<string>, kt: KeyTuple, path: Path)
    requires ctx.listMaps.KeysFor(ctx.gvk, path) == Some(keys) && Wf(Sequence(ls))
    ensures NewElements(DiffValue(ctx, Cut(ctx, ls, keys, kt), Sequence(ls), path), path) == []
  {
    var d := Cut(ctx, ls, keys, kt);
    var cs := DiffValue(ctx, d, Sequence(ls), path);
    BelowPath(ctx, d, Sequence(ls), path);
    forall c | c in cs ensures !AddsUnder(c, path) {
      var seg := c.path[|path|];
      var g := Group(ctx, Sequence(ls), path, seg);
      HeadAt(cs, path, c);
      CutDiffAt(ctx, ls, keys, kt, path, seg);
      if g != [] {
        SurplusRemoved(ctx, g, path + [seg]);
      }
    }
    NoNewElements(cs, path);
  }

  /** A list, at any path, that holds a key tuple twice or more: asked to keep one element of
      it, the script removes them all. */
  lemma DuplicatesAllGo(ctx: Ctx, ls: seq<Value>, keys: seq<string>, kt: KeyTuple, path: Path)
    requires ctx.listMaps.KeysFor(ctx.gvk, path) == Some(keys) && Wf(Sequence(ls))
    requires |SelectAll(ctx, ls, keys, kt)| > 1
    ensures var d, l := Cut(ctx, ls, keys, kt), Sequence(ls);
            && |Group(ctx, d, path, Keyed(kt))| == 1
            && Group(ctx, Patch(ctx, l, DiffValue(ctx, d, l, path), path), path, Keyed(kt)) == []
            && !Suffices(ctx, d, l, path)
  {
    var d, l := Cut(ctx, ls, keys, kt), Sequence(ls);
    CutGroups(ctx, ls, keys, kt, path, Keyed(kt));
    CutDropsAll(ctx, ls, keys, kt, path);
    CutAddsNothing(ctx, ls, keys, kt, path);
    OwnPath(ctx, d, l, path);
    PatchedWithout(ctx, ls, keys, kt, DiffValue(ctx, d, l, path), path);
    GroupSizesDiffer(ctx, d, Patch(ctx, l, DiffValue(ctx, d, l, path), path), path, Keyed(kt));
  }

  lemma CutDropsAll(ctx: Ctx, ls: seq<Value>, keys: seq<string>, kt: KeyTuple, path: Path)
    requires ctx.listMaps.KeysFor(ctx.gvk, path) == Some(keys) && Wf(Sequence(ls))
    requires |SelectAll(ctx, ls, keys, kt)| > 1
    ensures DropsAll(ctx, ls, keys, kt, DiffValue(ctx, Cut(ctx, ls, keys, kt), Sequence(ls), path), path)
  {
    forall i | 0 <= i < |ls|
      ensures var own := ExtractKeys(ctx, ls[i], keys);
              ElementAfter(ctx, ls[i], Keyed(own), DiffValue(ctx, Cut(ctx, ls, keys, kt), Sequence(ls), path), path) ==
              if own == kt then [] else [ls[i]]
    {
      CutElementAfter(ctx, ls, keys, kt, path, i);
    }
  }

  lemma PatchedWithout(ctx: Ctx, ls: seq<Value>, keys: seq<string>, kt: KeyTuple, cs: seq<Change>, path: Path)
    requires ctx.listMaps.KeysFor(ctx.gvk, path) == Some(keys) && DropsAll(ctx, ls, keys, kt, cs, path)
    requires Replacement(cs, path) == None && NewElements(cs, path) == []
    ensures Patch(ctx, Sequence(ls), cs, path).Sequence?
    ensures Group(ctx, Patch(ctx, Sequence(ls), cs, path), path, Keyed(kt)) == []
  {
    var kept := KeptKeyed(ctx, ls, |ls|, keys, cs, path);
    NoneKept(ctx, ls, |ls|, keys, kt, cs, path);
    assert kept + [] == kept;
  }

  lemma GroupSizesDiffer(ctx: Ctx, a: Value, b: Value, path: Path, seg: Segment)
    requires BothContainers(a, b) && |Group(ctx, a, path, seg)| != |Group(ctx, b, path, seg)|
    ensures !Equivalent(ctx, a, b, path)
  {
  }

  /** The smallest such list: two elements of one key tuple, equal or not. */
  lemma TwoOfAKey(ctx: Ctx, x: Value, y: Value, keys: seq<string>, path: Path)
    requires ctx.listMaps.KeysFor(ctx.gvk, path) == Some(keys) && Wf(x) && Wf(y)
    requires ExtractKeys(ctx, x, keys) == ExtractKeys(ctx, y, keys)
    ensures !Suffices(ctx, Sequence([x]), Sequence([x, y]), path)
  {
    var ls, kt := [x, y], ExtractKeys(ctx, x, keys);
    assert Select(ctx, ls, 0, keys, kt) == [] && Select(ctx, ls, 1, keys, kt) == [x] &&
           Select(ctx, ls, 2, keys, kt) == [x, y];
    assert CutTo(ctx, ls, 0, keys, kt) == [] && CutTo(ctx, ls, 1, keys, kt) == [x] &&
           CutTo(ctx, ls, 2, keys, kt) == [x];
    DuplicatesAllGo(ctx, ls, keys, kt, path);
  }

  // ----- a duplicate somewhere inside -----

  /** The same mapping keys at every level, and the same scalars. */
  ghost predicate SameSkeleton(d: Value, l: Value)
  {
    match (d, l)
    case (Mapping(de), Mapping(le)) =>
      |de| == |le| && forall i :: 0 <= i < |de| ==> de[i].key == le[i].key && SameSkeleton(de[i].value, le[i].value)
    case (Sequence(_), Sequence(_)) => true
    case _ => d == l
  }

  lemma {:induction false} SkeletonReflexive(v: Value)
    ensures SameSkeleton(v, v)
  {
    if v.Mapping? {
      forall i | 0 <= i < |v.entries| ensures SameSkeleton(v.entries[i].value, v.entries[i].value) {
        SkeletonReflexive(v.entries[i].value);
      }
    }
  }

  lemma {:induction false} SkeletonLookup(de: seq<Entry>, le: seq<Entry>, key: string)
    requires SameSkeleton(Mapping(de), Mapping(le))
    ensures Lookup(de, key).Some? == Lookup(le, key).Some?
    ensures Lookup(de, key).Some? ==> SameSkeleton(Lookup(de, key).value, Lookup(le, key).value)
    decreases |de|
  {
    if de != [] && de[0].key != key {
      assert SameSkeleton(Mapping(de[1..]), Mapping(le[1..]));
      SkeletonLookup(de[1..], le[1..], key);
    }
  }

  /** The same value, or none, in each of these fields. */
  ghost predicate KeepsFields(d: Value, l: Value, held: seq<string>)
  {
    forall key :: key in held ==> Get(d, key) == Get(l, key)
  }

  lemma KeptFieldsKeepKeys(ctx: Ctx, d: Value, l: Value, keys: seq<string>)
    requires KeepsFields(d, l, keys)
    ensures ExtractKeys(ctx, d, keys) == ExtractKeys(ctx, l, keys)
  {
    forall i | 0 <= i < |keys| ensures KeyField(ctx, d, keys[i]) == KeyField(ctx, l, keys[i]) {
      assert keys[i] in keys;
    }
  }

  /** No list inside one of these fields repeats a key tuple. */
  ghost predicate UniqueInside(ctx: Ctx, x: Value, path: Path, held: seq<string>)
  {
    forall key :: key in held && Get(x, key).Some? ==> UniqueKeys(ctx, Get(x, key).value, path + [Field(key)])
  }

  /** The fields that name an element of the list at `path`. */
  function KeysAt(ctx: Ctx, v: Value, path: Path): seq<string>
  {
    if v.Sequence? then
      match ctx.listMaps.KeysFor(ctx.gvk, path)
      case Some(keys) => keys
      case None => []
    else []
  }

  /** No list inside a key field of a registered list repeats a key tuple; key fields without a
      list in them, such as scalars, never do. */
  ghost predicate UniqueInKeys(ctx: Ctx, v: Value, path: Path)
    decreases v
  {
    forall seg, k :: 0 <= k < |Group(ctx, v, path, seg)| ==>
      UniqueInside(ctx, Group(ctx, v, path, seg)[k], path + [seg], KeysAt(ctx, v, path)) &&
      UniqueInKeys(ctx, Group(ctx, v, path, seg)[k], path + [seg])
  }

  // replacing the only child of a segment

  lemma ReplacedSkeleton(es: seq<Entry>, key: string, x: Value)
    requires DistinctKeys(es) && Lookup(es, key).Some? && SameSkeleton(x, Lookup(es, key).value)
    ensures SameSkeleton(Mapping(ReplaceEntry(es, key, x)), Mapping(es))
    ensures DistinctKeys(ReplaceEntry(es, key, x))
  {
    var r := ReplaceEntry(es, key, x);
    ReplaceEntryLookup(es, key, x, key);
    KeysStayDistinct(es, r);
    forall i | 0 <= i < |es| ensures SameSkeleton(r[i].value, es[i].value) {
      ReplaceEntryLookup(es, key, x, es[i].key);
      LookupAt(es, i);
      LookupAt(r, i);
      SkeletonReflexive(es[i].value);
    }
  }

  /** Below every other segment the two trees hold the same. */
  ghost predicate OthersKept(ctx: Ctx, d: Value, l: Value, path: Path, seg: Segment)
  {
    forall s :: s != seg ==> Group(ctx, d, path, s) == Group(ctx, l, path, s)
  }

  /** `d` is `l` with its only child at `seg` replaced by `x`. */
  ghost predicate ChildReplaced(ctx: Ctx, d: Value, l: Value, path: Path, seg: Segment, x: Value)
  {
    BothContainers(d, l) && Wf(d) && SameSkeleton(d, l) && Group(ctx, d, path, seg) == [x] &&
      OthersKept(ctx, d, l, path, seg)
  }

  lemma ReplaceField(ctx: Ctx, le: seq<Entry>, path: Path, name: string, x: Value, held: seq<string>) returns (d: Value)
    requires Wf(Mapping(le)) && Wf(x) && Lookup(le, name).Some? && SameSkeleton(x, Lookup(le, name).value)
    requires name !in held
    ensures ChildReplaced(ctx, d, Mapping(le), path, Field(name), x) && KeepsFields(d, Mapping(le), held)
  {
    var de := ReplaceEntry(le, name, x);
    d := Mapping(de);
    ReplacedSkeleton(le, name, x);
    ReplaceEntryLookup(le, name, x, name);
    forall key | key in held ensures Get(d, key) == Get(Mapping(le), key) {
      ReplaceEntryLookup(le, name, x, key);
    }
    OthersKeptInMapping(ctx, le, path, name, x);
  }

  lemma OthersKeptInMapping(ctx: Ctx, le: seq<Entry>, path: Path, name: string, x: Value)
    requires DistinctKeys(le) && Lookup(le, name).Some?
    ensures OthersKept(ctx, Mapping(ReplaceEntry(le, name, x)), Mapping(le), path, Field(name))
  {
    forall s | s != Field(name)
      ensures Group(ctx, Mapping(ReplaceEntry(le, name, x)), path, s) == Group(ctx, Mapping(le), path, s)
    {
      if s.Field? {
        ReplaceEntryLookup(le, name, x, s.name);
      }
    }
  }

  lemma ReplaceIndex(ctx: Ctx, ls: seq<Value>, path: Path, i: nat, x: Value) returns (d: Value)
    requires Wf(Sequence(ls)) && Wf(x) && i < |ls| && ctx.listMaps.KeysFor(ctx.gvk, path).None?
    ensures ChildReplaced(ctx, d, Sequence(ls), path, Index(i), x)
  {
    d := Sequence(ls[i := x]);
    ReplacedWf(ls, i, x);
    OthersKeptInPlainList(ctx, ls, path, i, x);
  }

  lemma OthersKeptInPlainList(ctx: Ctx, ls: seq<Value>, path: Path, i: nat, x: Value)
    requires i < |ls| && ctx.listMaps.KeysFor(ctx.gvk, path).None?
    ensures OthersKept(ctx, Sequence(ls[i := x]), Sequence(ls), path, Index(i))
  {
  }

  /** Replacing an element by one of the same key tuple replaces it in its group, and changes no
      other group. */
  lemma {:induction false} SelectBefore(ctx: Ctx, ls: seq<Value>, i: nat, x: Value, n: nat, keys: seq<string>,
                                        kt: KeyTuple)
    requires n <= i < |ls|
    ensures Select(ctx, ls[i := x], n, keys, kt) == Select(ctx, ls, n, keys, kt)
  {
    if n > 0 {
      SelectBefore(ctx, ls, i, x, n - 1, keys, kt);
      SelectSnoc(ctx, ls, n, keys, kt);
      SelectSnoc(ctx, ls[i := x], n, keys, kt);
    }
  }

  lemma {:induction false} SelectElsewhere(ctx: Ctx, ls: seq<Value>, i: nat, x: Value, n: nat, keys: seq<string>,
                                           kt: KeyTuple)
    requires i < |ls| && n <= |ls| && ExtractKeys(ctx, x, keys) == ExtractKeys(ctx, ls[i], keys) != kt
    ensures Select(ctx, ls[i := x], n, keys, kt) == Select(ctx, ls, n, keys, kt)
  {
    if n > 0 {
      SelectElsewhere(ctx, ls, i, x, n - 1, keys, kt);
      SelectSnoc(ctx, ls, n, keys, kt);
      SelectSnoc(ctx, ls[i := x], n, keys, kt);
    }
  }

  lemma {:induction false} SelectBehind(ctx: Ctx, ls: seq<Value>, i: nat, x: Value, n: nat, keys: seq<string>,
                                        kt: KeyTuple)
    requires i < n <= |ls| && ExtractKeys(ctx, x, keys) == ExtractKeys(ctx, ls[i], keys) == kt
    ensures var k, g := |Select(ctx, ls, i, keys, kt)|, Select(ctx, ls, n, keys, kt);
            k < |g| && g[k] == ls[i] && Select(ctx, ls[i := x], n, keys, kt) == g[k := x]
  {
    if i < n - 1 {
      SelectBehind(ctx, ls, i, x, n - 1, keys, kt);
      SelectBehindMore(ctx, ls, i, x, n, keys, kt);
    } else {
      SelectBefore(ctx, ls, i, x, i, keys, kt);
      SelectSnoc(ctx, ls, n, keys, kt);
      SelectSnoc(ctx, ls[i := x], n, keys, kt);
      UpdateLast(Select(ctx, ls, i, keys, kt), ls[i], x);
    }
  }

  lemma UpdateLast(front: seq<Value>, y: Value, x: Value)
    ensures (front + [y])[|front| := x] == front + [x]
  {
  }

  lemma SelectBehindMore(ctx: Ctx, ls: seq<Value>, i: nat, x: Value, n: nat, keys: seq<string>, kt: KeyTuple)
    requires i < n - 1 < |ls|
    requires var k, g := |Select(ctx, ls, i, keys, kt)|, Select(ctx, ls, n - 1, keys, kt);
             k < |g| && g[k] == ls[i] && Select(ctx, ls[i := x], n - 1, keys, kt) == g[k := x]
    ensures var k, g := |Select(ctx, ls, i, keys, kt)|, Select(ctx, ls, n, keys, kt);
            k < |g| && g[k] == ls[i] && Select(ctx, ls[i := x], n, keys, kt) == g[k := x]
  {
    var piece := if ExtractKeys(ctx, ls[n - 1], keys) == kt then [ls[n - 1]] else [];
    SelectSnoc(ctx, ls, n, keys, kt);
    SelectSnoc(ctx, ls[i := x], n, keys, kt);
    UpdateFront(Select(ctx, ls, n - 1, keys, kt), |Select(ctx, ls, i, keys, kt)|, x, piece);
  }

  lemma SelectReplaced(ctx: Ctx, ls: seq<Value>, i: nat, x: Value, n: nat, keys: seq<string>, kt: KeyTuple)
    requires i < |ls| && n <= |ls| && ExtractKeys(ctx, x, keys) == ExtractKeys(ctx, ls[i], keys)
    ensures var k, g := |Select(ctx, ls, i, keys, kt)|, Select(ctx, ls, n, keys, kt);
            if i < n && ExtractKeys(ctx, x, keys) == kt then
              k < |g| && g[k] == ls[i] && Select(ctx, ls[i := x], n, keys, kt) == g[k := x]
            else Select(ctx, ls[i := x], n, keys, kt) == g
  {
    if ExtractKeys(ctx, x, keys) != kt {
      SelectElsewhere(ctx, ls, i, x, n, keys, kt);
    } else if i < n {
      SelectBehind(ctx, ls, i, x, n, keys, kt);
    } else {
      SelectBefore(ctx, ls, i, x, n, keys, kt);
    }
  }

  lemma SelectSnoc(ctx: Ctx, xs: seq<Value>, n: nat, keys: seq<string>, kt: KeyTuple)
    requires 0 < n <= |xs|
    ensures Select(ctx, xs, n, keys, kt) ==
            Select(ctx, xs, n - 1, keys, kt) + (if ExtractKeys(ctx, xs[n - 1], keys) == kt then [xs[n - 1]] else [])
  {
  }

  lemma UpdateFront(front: seq<Value>, k: nat, x: Value, piece: seq<Value>)
    requires k < |front|
    ensures front[k := x] + piece == (front + piece)[k := x] && (front + piece)[k] == front[k]
  {
  }

  lemma ReplaceKeyed(ctx: Ctx, ls: seq<Value>, path: Path, keys: seq<string>, kt: KeyTuple, x: Value) returns (d: Value)
    requires Wf(Sequence(ls)) && Wf(x) && ctx.listMaps.KeysFor(ctx.gvk, path) == Some(keys)
    requires |SelectAll(ctx, ls, keys, kt)| == 1 && KeepsFields(x, SelectAll(ctx, ls, keys, kt)[0], keys)
    ensures ChildReplaced(ctx, d, Sequence(ls), path, Keyed(kt), x)
  {
    var i := OnlyElement(ctx, ls, keys, kt);
    KeptFieldsKeepKeys(ctx, x, ls[i], keys);
    SelectReplaced(ctx, ls, i, x, |ls|, keys, kt);
    d := Sequence(ls[i := x]);
    ReplacedWf(ls, i, x);
    OthersKeptInKeyedList(ctx, ls, path, keys, i, x);
  }

  lemma OthersKeptInKeyedList(ctx: Ctx, ls: seq<Value>, path: Path, keys: seq<string>, i: nat, x: Value)
    requires i < |ls| && ctx.listMaps.KeysFor(ctx.gvk, path) == Some(keys)
    requires ExtractKeys(ctx, x, keys) == ExtractKeys(ctx, ls[i], keys)
    ensures OthersKept(ctx, Sequence(ls[i := x]), Sequence(ls), path, Keyed(ExtractKeys(ctx, x, keys)))
  {
    forall s | s != Keyed(ExtractKeys(ctx, x, keys))
      ensures Group(ctx, Sequence(ls[i := x]), path, s) == Group(ctx, Sequence(ls), path, s)
    {
      if s.Keyed? {
        SelectReplaced(ctx, ls, i, x, |ls|, keys, s.keys);
      }
    }
  }

  lemma OnlyElement(ctx: Ctx, ls: seq<Value>, keys: seq<string>, kt: KeyTuple) returns (i: nat)
    requires |SelectAll(ctx, ls, keys, kt)| == 1
    ensures i < |ls| && ls[i] == SelectAll(ctx, ls, keys, kt)[0] && ExtractKeys(ctx, ls[i], keys) == kt
  {
    var y := SelectAll(ctx, ls, keys, kt)[0];
    SelectedAreMembers(ctx, ls, |ls|, keys, kt);
    SelectedHasKey(ctx, ls, |ls|, keys, kt);
    i :| 0 <= i < |ls| && ls[i] == y;
  }

  lemma ReplacedWf(ls: seq<Value>, i: nat, x: Value)
    requires Wf(Sequence(ls)) && Wf(x) && i < |ls|
    ensures Wf(Sequence(ls[i := x]))
  {
    assert forall z :: z in ls[i := x] ==> z in ls || z == x;
  }

  /** The child at `seg` replaced, the fields in `held` left alone; a replaced list element must
      leave its key fields alone. */
  lemma ReplaceChild(ctx: Ctx, l: Value, path: Path, seg: Segment, x: Value, held: seq<string>) returns (d: Value)
    requires Wf(l) && Wf(x) && |Group(ctx, l, path, seg)| == 1
    requires SameSkeleton(x, Group(ctx, l, path, seg)[0]) &&
             KeepsFields(x, Group(ctx, l, path, seg)[0], KeysAt(ctx, l, path))
    requires seg.Field? ==> seg.name !in held
    ensures ChildReplaced(ctx, d, l, path, seg, x) && KeepsFields(d, l, held)
  {
    match l {
      case Mapping(es) => d := ReplaceField(ctx, es, path, seg.name, x, held);
      case Sequence(xs) =>
        match ctx.listMaps.KeysFor(ctx.gvk, path) {
          case Some(keys) => d := ReplaceKeyed(ctx, xs, path, keys, seg.keys, x);
          case None => d := ReplaceIndex(ctx, xs, path, seg.i, x);
        }
    }
  }

  /** A child the script fails makes it fail the whole tree. */
  lemma FailsInside(ctx: Ctx, d: Value, l: Value, path: Path, seg: Segment, x: Value)
    requires Wf(l) && ToldKeysHere(ctx, l, path) && UniqueHere(ctx, l, path) && ChildReplaced(ctx, d, l, path, seg, x)
    requires |Group(ctx, l, path, seg)| == 1 && !Suffices(ctx, x, Group(ctx, l, path, seg)[0], path + [seg])
    ensures !Suffices(ctx, d, l, path)
  {
    var v := Patch(ctx, l, DiffValue(ctx, d, l, path), path);
    PatchKeepsKind(ctx, d, l, path);
    GroupOfPatched(ctx, d, l, path, seg);
    ChildDiffers(ctx, d, v, path, seg);
  }

  lemma ChildDiffers(ctx: Ctx, a: Value, b: Value, path: Path, seg: Segment)
    requires BothContainers(a, b) && Group(ctx, a, path, seg) != [] && Group(ctx, b, path, seg) != []
    requires !Equivalent(ctx, Group(ctx, a, path, seg)[0], Group(ctx, b, path, seg)[0], path + [seg])
    ensures !Equivalent(ctx, a, b, path)
  {
  }

  /** The live trees the limits are about: key fields are told by their texts and repeat no key
      tuple inside. */
  ghost predicate PlainKeys(ctx: Ctx, l: Value, path: Path)
  {
    Wf(l) && ToldKeys(ctx, l, path) && UniqueInKeys(ctx, l, path)
  }

  /** Whatever the duplicate and however deep, some desired tree with the same keys and
      scalars is not reached. */
  lemma {:induction false} DuplicateFails(ctx: Ctx, l: Value, path: Path, held: seq<string>) returns (d: Value)
    requires PlainKeys(ctx, l, path) && UniqueInside(ctx, l, path, held) && !UniqueKeys(ctx, l, path)
    ensures Wf(d) && SameSkeleton(d, l) && KeepsFields(d, l, held) && !Suffices(ctx, d, l, path)
    decreases l
  {
    if UniqueHere(ctx, l, path) {
      var seg, child := DeeperDuplicate(ctx, l, path, held);
      var x := DuplicateFails(ctx, child, path + [seg], KeysAt(ctx, l, path));
      d := ReplaceChild(ctx, l, path, seg, x, held);
      FailsInside(ctx, d, l, path, seg, x);
    } else {
      d := DuplicateHere(ctx, l, path, held);
    }
  }

  lemma DeeperDuplicate(ctx: Ctx, l: Value, path: Path, held: seq<string>) returns (seg: Segment, child: Value)
    requires PlainKeys(ctx, l, path) && UniqueInside(ctx, l, path, held)
    requires !UniqueKeys(ctx, l, path) && UniqueHere(ctx, l, path)
    ensures Group(ctx, l, path, seg) == [child] && child < l && ToldKeysHere(ctx, l, path)
    ensures PlainKeys(ctx, child, path + [seg]) && UniqueInside(ctx, child, path + [seg], KeysAt(ctx, l, path))
    ensures !UniqueKeys(ctx, child, path + [seg])
    ensures seg.Field? ==> seg.name !in held
  {
    seg, child := DuplicateBelow(ctx, l, path);
    SoundChild(ctx, l, path, seg, child);
    NotHeld(ctx, l, path, held, seg, child);
  }

  /** A duplicate is in no field that is unique inside. */
  lemma NotHeld(ctx: Ctx, l: Value, path: Path, held: seq<string>, seg: Segment, child: Value)
    requires UniqueInside(ctx, l, path, held) && Group(ctx, l, path, seg) == [child] &&
             !UniqueKeys(ctx, child, path + [seg])
    ensures seg.Field? ==> seg.name !in held
  {
    if seg.Field? {
      assert Get(l, seg.name) == Some(child);
    }
  }

  ghost predicate OnlyChildUnique(ctx: Ctx, g: seq<Value>, p: Path)
  {
    |g| == 1 ==> UniqueKeys(ctx, g[0], p)
  }

  lemma UniqueFromChildren(ctx: Ctx, l: Value, path: Path)
    requires UniqueHere(ctx, l, path)
    requires forall s :: OnlyChildUnique(ctx, Group(ctx, l, path, s), path + [s])
    ensures UniqueKeys(ctx, l, path)
  {
    forall s
      ensures
        |Group(ctx, l, path, s)| <= 1 &&
        forall k :: 0 <= k < |Group(ctx, l, path, s)| ==> UniqueKeys(ctx, Group(ctx, l, path, s)[k], path + [s])
    {
      GroupAtMostOne(ctx, l, path, s);
      assert OnlyChildUnique(ctx, Group(ctx, l, path, s), path + [s]);
      ShortGroupUnique(ctx, Group(ctx, l, path, s), path + [s]);
    }
  }

  lemma ShortGroupUnique(ctx: Ctx, g: seq<Value>, p: Path)
    requires |g| <= 1 && OnlyChildUnique(ctx, g, p)
    ensures forall k :: 0 <= k < |g| ==> UniqueKeys(ctx, g[k], p)
  {
  }

  lemma DuplicateBelow(ctx: Ctx, l: Value, path: Path) returns (seg: Segment, child: Value)
    requires !UniqueKeys(ctx, l, path) && UniqueHere(ctx, l, path)
    ensures Group(ctx, l, path, seg) == [child] && !UniqueKeys(ctx, child, path + [seg])
  {
    if forall s :: OnlyChildUnique(ctx, Group(ctx, l, path, s), path + [s]) {
      UniqueFromChildren(ctx, l, path);
      assert false;
    }
    seg :| !OnlyChildUnique(ctx, Group(ctx, l, path, seg), path + [seg]);
    GroupAtMostOne(ctx, l, path, seg);
    child := Group(ctx, l, path, seg)[0];
  }

  lemma SoundChild(ctx: Ctx, l: Value, path: Path, seg: Segment, child: Value)
    requires PlainKeys(ctx, l, path) && Group(ctx, l, path, seg) == [child]
    ensures child < l && ToldKeysHere(ctx, l, path)
    ensures PlainKeys(ctx, child, path + [seg]) && UniqueInside(ctx, child, path + [seg], KeysAt(ctx, l, path))
  {
    assert child == Group(ctx, l, path, seg)[0];
  }

  lemma DuplicateHere(ctx: Ctx, l: Value, path: Path, held: seq<string>) returns (d: Value)
    requires Wf(l) && !UniqueHere(ctx, l, path)
    ensures Wf(d) && SameSkeleton(d, l) && KeepsFields(d, l, held) && !Suffices(ctx, d, l, path)
  {
    var seg :| |Group(ctx, l, path, seg)| > 1;
    var keys := ctx.listMaps.KeysFor(ctx.gvk, path).value;
    d := Cut(ctx, l.items, keys, seg.keys);
    CutWf(ctx, l.items, keys, seg.keys);
    DuplicatesAllGo(ctx, l.items, keys, seg.keys, path);
  }

  ghost predicate SufficesForAll(ctx: Ctx, l: Value, path: Path)
  {
    forall d :: Wf(d) ==> Suffices(ctx, d, l, path)
  }

  /** For every live tree with plain keys: the reported changes suffice for every desired tree if
      and only if no list in the live tree holds two elements of one key tuple. */
  lemma ScriptSufficesIff(ctx: Ctx, l: Value, path: Path)
    requires PlainKeys(ctx, l, path)
    ensures SufficesForAll(ctx, l, path) <==> UniqueKeys(ctx, l, path)
  {
    if UniqueKeys(ctx, l, path) {
      forall d | Wf(d) ensures Suffices(ctx, d, l, path) {
        ScriptSuffices(ctx, d, l, path);
      }
    } else {
      var d := DuplicateFails(ctx, l, path, []);
    }
  }

  // ----- whole manifests -----

  lemma {:induction false} RemoveAbsent(es: seq<Entry>, key: string)
    requires Lookup(es, key) == None
    ensures RemoveEntry(es, key) == es
  {
    if es != [] {
      RemoveAbsent(es[1..], key);
    }
  }

  lemma {:induction false} RemoveAllAbsent(es: seq<Entry>, keys: seq<string>)
    requires forall key :: key in keys ==> Lookup(es, key) == None
    ensures RemoveEntries(es, keys) == es
    decreases |keys|
  {
    if keys != [] {
      RemoveAbsent(es, keys[0]);
      RemoveAllAbsent(es, keys[1..]);
    }
  }

  lemma {:induction false} ReplaceBySame(es: seq<Entry>, key: string, v: Value)
    requires Lookup(es, key) == Some(v)
    ensures ReplaceEntry(es, key, v) == es
  {
    if es[0].key == key {
      assert [Entry(key, v)] + es[1..] == es;
    } else {
      ReplaceBySame(es[1..], key, v);
      assert [es[0]] + es[1..] == es;
    }
  }

  /** Nothing of what stripping removes. */
  predicate Stripped(v: Value)
  {
    v.Mapping? ==>
      && Lookup(v.entries, "status") == None
      && match Lookup(v.entries, "metadata")
         case Some(Mapping(meta)) => forall f :: f in SERVER_METADATA ==> Lookup(meta, f) == None
         case _ => true
  }

  lemma StrippedStays(v: Value)
    requires Stripped(v)
    ensures StripExcluded(v) == v
  {
    if v.Mapping? {
      match Lookup(v.entries, "metadata") {
        case Some(Mapping(meta)) =>
          RemoveAllAbsent(meta, SERVER_METADATA);
          ReplaceBySame(v.entries, "metadata", Mapping(meta));
        case _ =>
      }
      RemoveAbsent(v.entries, "status");
    }
  }

  lemma StrippingStrips(v: Value)
    requires Wf(v)
    ensures Stripped(StripExcluded(v))
  {
    if v.Mapping? {
      StripLookups(v.entries, "status");
      StripLookups(v.entries, "metadata");
    }
  }

  lemma SkeletonStripped(d: Value, l: Value)
    requires SameSkeleton(d, l) && Stripped(l)
    ensures Stripped(d)
  {
    if l.Mapping? {
      SkeletonLookup(d.entries, l.entries, "status");
      SkeletonLookup(d.entries, l.entries, "metadata");
      match (Lookup(d.entries, "metadata"), Lookup(l.entries, "metadata")) {
        case (Some(Mapping(dm)), Some(Mapping(lm))) =>
          forall f | f in SERVER_METADATA ensures Lookup(dm, f) == None {
            SkeletonLookup(dm, lm, f);
          }
        case _ =>
      }
    }
  }

  /** The reported diff of the two manifests, carried out on the stripped live body, gives the
      stripped desired one. */
  ghost predicate DiffSuffices(desired: Manifest<Value>, live: Manifest<Value>, listMaps: ListMapKeys,
                               yaml: Value -> string)
  {
    var ctx := Ctx(desired.gvk, listMaps, yaml);
    Equivalent(ctx, StripExcluded(desired.body),
               Patch(ctx, StripExcluded(live.body), Diff(desired, live, listMaps, yaml), []), [])
  }

  ghost predicate DiffSufficesForAll(live: Manifest<Value>, listMaps: ListMapKeys, yaml: Value -> string)
  {
    forall body :: Wf(body) ==> DiffSuffices(live.(body := body), live, listMaps, yaml)
  }

  /** The same for whole manifests: whatever is desired of a live resource, its diff suffices,
      if and only if no list in the stripped live body repeats a key tuple. */
  lemma DiffSufficesIff(live: Manifest<Value>, listMaps: ListMapKeys, yaml: Value -> string)
    requires Wf(live.body) && PlainKeys(Ctx(live.gvk, listMaps, yaml), StripExcluded(live.body), [])
    ensures DiffSufficesForAll(live, listMaps, yaml) <==>
            UniqueKeys(Ctx(live.gvk, listMaps, yaml), StripExcluded(live.body), [])
  {
    var ctx, l := Ctx(live.gvk, listMaps, yaml), StripExcluded(live.body);
    StripWf(live.body);
    if UniqueKeys(ctx, l, []) {
      forall body | Wf(body) ensures DiffSuffices(live.(body := body), live, listMaps, yaml) {
        DiffIsSufficient(live.(body := body), live, listMaps, yaml);
      }
    } else {
      var d := DuplicateFails(ctx, l, [], []);
      StrippingStrips(live.body);
      SkeletonStripped(d, l);
      StrippedStays(d);
      assert !DiffSuffices(live.(body := d), live, listMaps, yaml);
    }
  }
}
