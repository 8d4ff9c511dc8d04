/** The reported changes as an edit script: carried out on the live body, they give a
    body equivalent to the desired one. */
module EditScript {
  import opened Common
  import opened Yaml
  import opened ListMap
  import opened Compare
  import opened CompareSpec
  import opened CompareLaws

  // ----- carrying out a list of changes, all paths read in the original body -----

  predicate ModifiesAt(c: Change, p: Path) { c.Modified? && c.path == p }

  predicate RemovesAt(c: Change, p: Path) { c.Removed? && c.path == p }

  /** An addition of a direct child of `p`. */
  predicate AddsUnder(c: Change, p: Path)
  {
    c.Added? && |c.path| == |p| + 1 && p <= c.path
  }

  /** The first wholesale replacement of `p`. */
  function Replacement(cs: seq<Change>, p: Path): Option<Value>
  {
    if cs == [] then None
    else if ModifiesAt(cs[0], p) then Some(cs[0].desired)
    else Replacement(cs[1..], p)
  }

  /** A child after the changes below it: gone, or patched. */
  function ChildAfter(ctx: Ctx, x: Value, cs: seq<Change>, p: Path): Option<Value>
    decreases x, 1
  {
    if exists c :: c in cs && RemovesAt(c, p) then None else Some(Patch(ctx, x, cs, p))
  }

  function FieldAfter(ctx: Ctx, e: Entry, cs: seq<Change>, path: Path): seq<Entry>
    decreases e
  {
    var p := path + [Field(e.key)];
    match ChildAfter(ctx, e.value, At(cs, p), p)
    case Some(x) => [Entry(e.key, x)]
    case None => []
  }

  function KeptFields(ctx: Ctx, es: seq<Entry>, n: nat, cs: seq<Change>, path: Path): seq<Entry>
    requires n <= |es|
    decreases es, n
  {
    if n == 0 then [] else KeptFields(ctx, es, n - 1, cs, path) + FieldAfter(ctx, es[n - 1], cs, path)
  }

  function ElementAfter(ctx: Ctx, x: Value, seg: Segment, cs: seq<Change>, path: Path): seq<Value>
    decreases x, 2
  {
    var p := path + [seg];
    match ChildAfter(ctx, x, At(cs, p), p)
    case Some(y) => [y]
    case None => []
  }

  function KeptIndexed(ctx: Ctx, xs: seq<Value>, n: nat, cs: seq<Change>, path: Path): seq<Value>
    requires n <= |xs|
    decreases xs, n
  {
    if n == 0 then []
    else KeptIndexed(ctx, xs, n - 1, cs, path) + ElementAfter(ctx, xs[n - 1], Index(n - 1), cs, path)
  }

  function KeptKeyed(ctx: Ctx, xs: seq<Value>, n: nat, keys: seq<string>, cs: seq<Change>, path: Path): seq<Value>
    requires n <= |xs|
    decreases xs, n
  {
    if n == 0 then []
    else
      KeptKeyed(ctx, xs, n - 1, keys, cs, path) +
      ElementAfter(ctx, xs[n - 1], Keyed(ExtractKeys(ctx, xs[n - 1], keys)), cs, path)
  }

  function NewFields(cs: seq<Change>, path: Path): seq<Entry>
  {
    if cs == [] then []
    else
      var c := cs[|cs| - 1];
      NewFields(cs[..|cs| - 1], path) +
      (if AddsUnder(c, path) && c.path[|path|].Field? then [Entry(c.path[|path|].name, c.desired)] else [])
  }

  function NewElements(cs: seq<Change>, path: Path): seq<Value>
  {
    if cs == [] then []
    else
      var c := cs[|cs| - 1];
      NewElements(cs[..|cs| - 1], path) + (if AddsUnder(c, path) then [c.desired] else [])
  }

  /** `v` at `path` after the changes `cs`, all of them at or below `path`. */
  function Patch(ctx: Ctx, v: Value, cs: seq<Change>, path: Path): Value
    decreases v, 0
  {
    match Replacement(cs, path)
    case Some(x) => x
    case None => (
      match v
      case Mapping(es) => Mapping(KeptFields(ctx, es, |es|, cs, path) + NewFields(cs, path))
      case Sequence(xs) => (
        match ctx.listMaps.KeysFor(ctx.gvk, path)
        case Some(keys) => Sequence(KeptKeyed(ctx, xs, |xs|, keys, cs, path) + NewElements(cs, path))
        case None => Sequence(KeptIndexed(ctx, xs, |xs|, cs, path) + NewElements(cs, path))
      )
      case _ => v
    )
  }

  /** No other list or mapping has the same text. */
  ghost predicate Told(ctx: Ctx, v: Value)
  {
    forall w :: Composite(w) && ctx.yaml(w) == ctx.yaml(v) ==> w == v
  }

  /** The field is absent, a scalar, or a list or mapping its text tells from all others. */
  ghost predicate ToldField(ctx: Ctx, x: Value, key: string)
  {
    match Get(x, key)
    case Some(v) => Composite(v) ==> Told(ctx, v)
    case None => true
  }

  ghost predicate ToldFields(ctx: Ctx, xs: seq<Value>, keys: seq<string>)
  {
    forall x, key :: x in xs && key in keys ==> ToldField(ctx, x, key)
  }

  /** The list at `path`, if it is one and registered, has key fields told by their texts. */
  ghost predicate ToldKeysHere(ctx: Ctx, v: Value, path: Path)
  {
    v.Sequence? ==>
      match ctx.listMaps.KeysFor(ctx.gvk, path)
      case Some(keys) => ToldFields(ctx, v.items, keys)
      case None => true
  }

  /** The key fields of every registered list inside `v` are told by their texts. Scalars always
      are; lists and mappings are when the YAML text of a value determines the value. */
  ghost predicate ToldKeys(ctx: Ctx, v: Value, path: Path)
    decreases v
  {
    && ToldKeysHere(ctx, v, path)
    && forall seg, k :: 0 <= k < |Group(ctx, v, path, seg)| ==> ToldKeys(ctx, Group(ctx, v, path, seg)[k], path + [seg])
  }

  /** No two children of `v` itself share a segment. */
  ghost predicate UniqueHere(ctx: Ctx, v: Value, path: Path)
  {
    forall seg :: |Group(ctx, v, path, seg)| <= 1
  }

  // ----- what a diff says at its own path -----

  lemma {:induction false} NoReplacement(cs: seq<Change>, p: Path)
    requires forall c :: c in cs ==> !ModifiesAt(c, p)
    ensures Replacement(cs, p) == None
  {
    if cs != [] {
      assert cs[0] in cs;
      NoReplacement(cs[1..], p);
    }
  }

  /** At its own path a diff holds at most one wholesale modification. */
  lemma OwnPath(ctx: Ctx, d: Value, l: Value, p: Path)
    ensures forall c :: c in DiffValue(ctx, d, l, p) ==> !RemovesAt(c, p)
    ensures BothContainers(d, l) ==> Replacement(DiffValue(ctx, d, l, p), p) == None
    ensures !BothContainers(d, l) && d != l ==> Replacement(DiffValue(ctx, d, l, p), p) == Some(d)
  {
    BelowPath(ctx, d, l, p);
    if BothContainers(d, l) {
      NoReplacement(DiffValue(ctx, d, l, p), p);
    }
  }

  // ----- no changes, no effect -----

  lemma {:induction false} PatchNothing(ctx: Ctx, v: Value, path: Path)
    ensures Patch(ctx, v, [], path) == v
    decreases v
  {
    match v
    case Mapping(es) =>
      NothingKeepsFields(ctx, es, |es|, path);
      assert es[..|es|] == es;
    case Sequence(xs) => {
      assert xs[..|xs|] == xs;
      match ctx.listMaps.KeysFor(ctx.gvk, path)
      case Some(keys) => NothingKeepsKeyed(ctx, xs, |xs|, keys, path);
      case None => NothingKeepsIndexed(ctx, xs, |xs|, path);
    }
    case _ =>
  }

  lemma ChildUntouched(ctx: Ctx, x: Value, p: Path)
    requires Patch(ctx, x, [], p) == x
    ensures ChildAfter(ctx, x, At([], p), p) == Some(x)
  {
    var none: seq<Change> := [];
    assert At(none, p) == none;
    assert !exists c :: c in none && RemovesAt(c, p);
  }

  lemma {:induction false} NothingKeepsFields(ctx: Ctx, es: seq<Entry>, n: nat, path: Path)
    requires n <= |es|
    ensures KeptFields(ctx, es, n, [], path) == es[..n]
    decreases es, n
  {
    if n > 0 {
      NothingKeepsFields(ctx, es, n - 1, path);
      PatchNothing(ctx, es[n - 1].value, path + [Field(es[n - 1].key)]);
      ChildUntouched(ctx, es[n - 1].value, path + [Field(es[n - 1].key)]);
      assert es[..n] == es[..n - 1] + [es[n - 1]];
    }
  }

  lemma {:induction false} NothingKeepsIndexed(ctx: Ctx, xs: seq<Value>, n: nat, path: Path)
    requires n <= |xs|
    ensures KeptIndexed(ctx, xs, n, [], path) == xs[..n]
    decreases xs, n
  {
    if n > 0 {
      NothingKeepsIndexed(ctx, xs, n - 1, path);
      PatchNothing(ctx, xs[n - 1], path + [Index(n - 1)]);
      ChildUntouched(ctx, xs[n - 1], path + [Index(n - 1)]);
      assert xs[..n] == xs[..n - 1] + [xs[n - 1]];
    }
  }

  lemma {:induction false} NothingKeepsKeyed(ctx: Ctx, xs: seq<Value>, n: nat, keys: seq<string>, path: Path)
    requires n <= |xs|
    ensures KeptKeyed(ctx, xs, n, keys, [], path) == xs[..n]
    decreases xs, n
  {
    if n > 0 {
      var seg := Keyed(ExtractKeys(ctx, xs[n - 1], keys));
      NothingKeepsKeyed(ctx, xs, n - 1, keys, path);
      PatchNothing(ctx, xs[n - 1], path + [seg]);
      ChildUntouched(ctx, xs[n - 1], path + [seg]);
      assert xs[..n] == xs[..n - 1] + [xs[n - 1]];
    }
  }

  // ----- the group below one segment after patching -----

  /** What the only live child of a segment becomes. */
  function KeptAfter(ctx: Ctx, gd: seq<Value>, y: Value, p: Path): seq<Value>
  {
    if gd == [] then [] else [Patch(ctx, y, DiffValue(ctx, gd[0], y, p), p)]
  }

  /** What stands below a segment once the changes between any desired group and a live
      group of at most one element are carried out: the surplus comes last. */
  function GroupAfter(ctx: Ctx, gd: seq<Value>, gl: seq<Value>, p: Path): seq<Value>
    requires |gl| <= 1
  {
    if gl == [] then gd else KeptAfter(ctx, gd, gl[0], p) + Surplus(gd)
  }

  function Surplus(gd: seq<Value>): seq<Value>
  {
    if gd == [] then [] else gd[1..]
  }

  /** One addition per element, all at `p`. */
  function Adds(xs: seq<Value>, p: Path): seq<Change>
  {
    seq(|xs|, i requires 0 <= i < |xs| => Added(p, xs[i]))
  }

  lemma AddsMore(xs: seq<Value>, p: Path)
    requires xs != []
    ensures Adds(xs, p) == Adds(xs[..|xs| - 1], p) + [Added(p, xs[|xs| - 1])]
  {
  }

  /** The changes between any desired group and a live group of at most one element. */
  lemma {:induction false} GroupDiffOne(ctx: Ctx, gd: seq<Value>, gl: seq<Value>, p: Path)
    requires |gl| <= 1
    ensures GroupDiff(ctx, gd, gl, p) ==
            if gl == [] then Adds(gd, p)
            else if gd == [] then [Removed(p, gl[0])]
            else DiffValue(ctx, gd[0], gl[0], p) + Adds(gd[1..], p)
    decreases |gd|
  {
    if |gd| <= 1 {
      GroupDiffSmall(ctx, gd, gl, p);
      assert gd != [] ==> Adds(gd[1..], p) == [];
    } else {
      var n := |gd| - 1;
      GroupDiffOne(ctx, gd[..n], gl, p);
      GroupDiffMore(ctx, gd, gl, p);
    }
  }

  /** One more element than the first: an addition at the end. */
  lemma GroupDiffMore(ctx: Ctx, gd: seq<Value>, gl: seq<Value>, p: Path)
    requires |gl| <= 1 < |gd|
    ensures var n := |gd| - 1;
            && GroupDiff(ctx, gd, gl, p) == GroupDiff(ctx, gd[..n], gl, p) + [Added(p, gd[n])]
            && Adds(gd, p) == Adds(gd[..n], p) + [Added(p, gd[n])]
            && Adds(gd[1..], p) == Adds(gd[..n][1..], p) + [Added(p, gd[n])]
  {
    var n := |gd| - 1;
    AddsMore(gd, p);
    AddsMore(gd[1..], p);
    assert gd[..n][1..] == gd[1..][..n - 1] && gd[1..][n - 1] == gd[n];
  }

  /** Additions reported at a node's own path say nothing about the node. */
  lemma PatchIgnoresOwnAdds(ctx: Ctx, v: Value, cs: seq<Change>, xs: seq<Value>, p: Path)
    ensures Patch(ctx, v, cs + Adds(xs, p), p) == Patch(ctx, v, cs, p)
  {
    var more := cs + Adds(xs, p);
    SameReplacement(cs, xs, p);
    forall seg ensures At(more, p + [seg]) == At(cs, p + [seg]) {
      AddsNotBelow(cs, xs, p, seg);
    }
    NothingNewAtOwnPath(cs, xs, p);
    match v
    case Mapping(es) => SameKeptFields(ctx, es, |es|, more, cs, p);
    case Sequence(items) => {
      match ctx.listMaps.KeysFor(ctx.gvk, p)
      case Some(keys) => SameKeptKeyed(ctx, items, |items|, keys, more, cs, p);
      case None => SameKeptIndexed(ctx, items, |items|, more, cs, p);
    }
    case _ =>
  }

  lemma {:induction false} SameReplacement(cs: seq<Change>, xs: seq<Value>, p: Path)
    ensures Replacement(cs + Adds(xs, p), p) == Replacement(cs, p)
  {
    if cs == [] {
      assert cs + Adds(xs, p) == Adds(xs, p);
      NoReplacement(Adds(xs, p), p);
    } else {
      SameReplacement(cs[1..], xs, p);
      assert (cs + Adds(xs, p))[1..] == cs[1..] + Adds(xs, p);
    }
  }

  lemma AddsNotBelow(cs: seq<Change>, xs: seq<Value>, p: Path, seg: Segment)
    ensures At(cs + Adds(xs, p), p + [seg]) == At(cs, p + [seg])
  {
    AtAppend(cs, Adds(xs, p), p + [seg]);
    FilterNone(Adds(xs, p), (c: Change) => p + [seg] <= c.path);
  }

  lemma NothingNewAtOwnPath(cs: seq<Change>, xs: seq<Value>, p: Path)
    ensures NewElements(cs + Adds(xs, p), p) == NewElements(cs, p)
    ensures NewFields(cs + Adds(xs, p), p) == NewFields(cs, p)
  {
    NewElementsAppend(cs, Adds(xs, p), p);
    NewFieldsAppend(cs, Adds(xs, p), p);
    NoNewElements(Adds(xs, p), p);
    NoNewFields(Adds(xs, p), p);
  }

  lemma {:induction false} NewFieldsAppend(a: seq<Change>, b: seq<Change>, path: Path)
    ensures NewFields(a + b, path) == NewFields(a, path) + NewFields(b, path)
  {
    if b == [] {
      assert a + b == a;
    } else {
      var n := |b| - 1;
      NewFieldsAppend(a, b[..n], path);
      assert (a + b)[..|a + b| - 1] == a + b[..n];
      assert (a + b)[|a + b| - 1] == b[n];
    }
  }

  /** Two scripts that agree below every segment keep the same children. */
  ghost predicate AgreeBelow(cs: seq<Change>, cs': seq<Change>, path: Path)
  {
    forall seg :: At(cs, path + [seg]) == At(cs', path + [seg])
  }

  lemma {:induction false} SameKeptFields(ctx: Ctx, es: seq<Entry>, n: nat, cs: seq<Change>, cs': seq<Change>,
                                          path: Path)
    requires n <= |es| && AgreeBelow(cs, cs', path)
    ensures KeptFields(ctx, es, n, cs, path) == KeptFields(ctx, es, n, cs', path)
    decreases n
  {
    if n > 0 {
      SameKeptFields(ctx, es, n - 1, cs, cs', path);
      assert At(cs, path + [Field(es[n - 1].key)]) == At(cs', path + [Field(es[n - 1].key)]);
    }
  }

  lemma {:induction false} SameKeptIndexed(ctx: Ctx, xs: seq<Value>, n: nat, cs: seq<Change>, cs': seq<Change>,
                                           path: Path)
    requires n <= |xs| && AgreeBelow(cs, cs', path)
    ensures KeptIndexed(ctx, xs, n, cs, path) == KeptIndexed(ctx, xs, n, cs', path)
    decreases n
  {
    if n > 0 {
      SameKeptIndexed(ctx, xs, n - 1, cs, cs', path);
      assert At(cs, path + [Index(n - 1)]) == At(cs', path + [Index(n - 1)]);
    }
  }

  lemma {:induction false} SameKeptKeyed(ctx: Ctx, xs: seq<Value>, n: nat, keys: seq<string>,
                                         cs: seq<Change>, cs': seq<Change>, path: Path)
    requires n <= |xs| && AgreeBelow(cs, cs', path)
    ensures KeptKeyed(ctx, xs, n, keys, cs, path) == KeptKeyed(ctx, xs, n, keys, cs', path)
    decreases n
  {
    if n > 0 {
      var seg := Keyed(ExtractKeys(ctx, xs[n - 1], keys));
      SameKeptKeyed(ctx, xs, n - 1, keys, cs, cs', path);
      assert At(cs, path + [seg]) == At(cs', path + [seg]);
    }
  }

  /** The live child of a segment after the changes reported for that segment. */
  lemma LiveChildAfter(ctx: Ctx, gd: seq<Value>, y: Value, p: Path)
    ensures ChildAfter(ctx, y, GroupDiff(ctx, gd, [y], p), p) ==
            if gd == [] then None else Some(Patch(ctx, y, DiffValue(ctx, gd[0], y, p), p))
  {
    GroupDiffOne(ctx, gd, [y], p);
    if gd == [] {
      assert RemovesAt(Removed(p, y), p);
    } else {
      var cs := DiffValue(ctx, gd[0], y, p);
      OwnPath(ctx, gd[0], y, p);
      PatchIgnoresOwnAdds(ctx, y, cs, gd[1..], p);
      NothingRemoved(cs, gd[1..], p);
    }
  }

  lemma NothingRemoved(cs: seq<Change>, xs: seq<Value>, p: Path)
    requires forall c :: c in cs ==> !RemovesAt(c, p)
    ensures forall c :: c in cs + Adds(xs, p) ==> !RemovesAt(c, p)
  {
  }

  // mappings

  lemma {:induction false} LookupAppend(a: seq<Entry>, b: seq<Entry>, key: string)
    ensures Lookup(a + b, key) == if Lookup(a, key).Some? then Lookup(a, key) else Lookup(b, key)
  {
    if a == [] {
      assert a + b == b;
    } else {
      LookupAppend(a[1..], b, key);
      assert (a + b)[1..] == a[1..] + b;
    }
  }

  lemma {:induction false} KeptFieldsMiss(ctx: Ctx, es: seq<Entry>, n: nat, cs: seq<Change>, path: Path, key: string)
    requires n <= |es| && forall i :: 0 <= i < n ==> es[i].key != key
    ensures Lookup(KeptFields(ctx, es, n, cs, path), key) == None
    decreases n
  {
    if n > 0 {
      KeptFieldsMiss(ctx, es, n - 1, cs, path, key);
      LookupAppend(KeptFields(ctx, es, n - 1, cs, path), FieldAfter(ctx, es[n - 1], cs, path), key);
    }
  }

  lemma {:induction false} KeptFieldsHit(ctx: Ctx, es: seq<Entry>, n: nat, cs: seq<Change>, path: Path, i: nat)
    requires i < n <= |es| && DistinctKeys(es)
    ensures Lookup(KeptFields(ctx, es, n, cs, path), es[i].key) ==
            var p := path + [Field(es[i].key)]; ChildAfter(ctx, es[i].value, At(cs, p), p)
    decreases n
  {
    if i < n - 1 {
      KeptFieldsHit(ctx, es, n - 1, cs, path, i);
      assert es[n - 1].key != es[i].key;
    } else {
      KeptFieldsMiss(ctx, es, n - 1, cs, path, es[i].key);
    }
    KeptFieldsMore(ctx, es, n, cs, path, es[i].key);
  }

  lemma KeptFieldsMore(ctx: Ctx, es: seq<Entry>, n: nat, cs: seq<Change>, path: Path, key: string)
    requires 0 < n <= |es|
    ensures var before, p := Lookup(KeptFields(ctx, es, n - 1, cs, path), key), path + [Field(key)];
            Lookup(KeptFields(ctx, es, n, cs, path), key) ==
            if before.Some? then before
            else if es[n - 1].key == key then ChildAfter(ctx, es[n - 1].value, At(cs, p), p)
            else None
  {
    LookupAppend(KeptFields(ctx, es, n - 1, cs, path), FieldAfter(ctx, es[n - 1], cs, path), key);
  }

  /** New entries under one key are the ones added below that key. */
  lemma {:induction false} NewFieldsAt(cs: seq<Change>, path: Path, key: string)
    ensures Lookup(NewFields(cs, path), key) == Lookup(NewFields(At(cs, path + [Field(key)]), path), key)
  {
    if cs != [] {
      var n := |cs| - 1;
      var c, p := cs[n], path + [Field(key)];
      var piece := if AddsUnder(c, path) && c.path[|path|].Field? then [Entry(c.path[|path|].name, c.desired)] else [];
      NewFieldsAt(cs[..n], path, key);
      LookupAppend(NewFields(cs[..n], path), piece, key);
      if p <= c.path {
        assert At(cs, p) == At(cs[..n], p) + [c];
        assert (At(cs[..n], p) + [c])[..|At(cs[..n], p)|] == At(cs[..n], p);
        LookupAppend(NewFields(At(cs[..n], p), path), piece, key);
      } else {
        assert At(cs, p) == At(cs[..n], p);
        if AddsUnder(c, path) {
          assert c.path == path + [c.path[|path|]];
        }
      }
    }
  }

  lemma {:induction false} NoNewFields(cs: seq<Change>, path: Path)
    requires forall c :: c in cs ==> !AddsUnder(c, path)
    ensures NewFields(cs, path) == []
  {
    if cs != [] {
      NoNewFields(cs[..|cs| - 1], path);
    }
  }

  lemma {:induction false} NoNewElements(cs: seq<Change>, path: Path)
    requires forall c :: c in cs ==> !AddsUnder(c, path)
    ensures NewElements(cs, path) == []
  {
    if cs != [] {
      NoNewElements(cs[..|cs| - 1], path);
    }
  }

  /** A diff below `path + [seg]` adds no direct child of `path`. */
  lemma DiffAddsDeeper(ctx: Ctx, d: Value, l: Value, path: Path, seg: Segment)
    ensures forall c :: c in DiffValue(ctx, d, l, path + [seg]) ==> !AddsUnder(c, path)
  {
    BelowPath(ctx, d, l, path + [seg]);
  }

  lemma AddsOwn(path: Path, seg: Segment, x: Value)
    ensures AddsUnder(Added(path + [seg], x), path)
    ensures NewElements([Added(path + [seg], x)], path) == [x]
    ensures seg.Field? ==> NewFields([Added(path + [seg], x)], path) == [Entry(seg.name, x)]
  {
    var c := Added(path + [seg], x);
    assert [c][..0] == [];
    assert path <= c.path;
  }

  /** Direct children the changes of one group add. */
  lemma GroupAdds(ctx: Ctx, gd: seq<Value>, gl: seq<Value>, path: Path, seg: Segment)
    requires |gd| <= 1 && |gl| <= 1
    ensures var cs := GroupDiff(ctx, gd, gl, path + [seg]);
            && NewElements(cs, path) == (if gl == [] then gd else [])
            && (seg.Field? ==> NewFields(cs, path) == if gl == [] && gd != [] then [Entry(seg.name, gd[0])] else [])
  {
    GroupDiffSmall(ctx, gd, gl, path + [seg]);
    if gd != [] && gl == [] {
      AddsOwn(path, seg, gd[0]);
    } else {
      if gd != [] {
        DiffAddsDeeper(ctx, gd[0], gl[0], path, seg);
      }
      NoNewElements(GroupDiff(ctx, gd, gl, path + [seg]), path);
      NoNewFields(GroupDiff(ctx, gd, gl, path + [seg]), path);
    }
  }

  lemma {:induction false} NewFromAdds(xs: seq<Value>, path: Path, seg: Segment)
    ensures NewElements(Adds(xs, path + [seg]), path) == xs
  {
    if xs != [] {
      var n := |xs| - 1;
      NewFromAdds(xs[..n], path, seg);
      AddsMore(xs, path + [seg]);
      NewElementsAppend(Adds(xs[..n], path + [seg]), [Added(path + [seg], xs[n])], path);
      AddsOwn(path, seg, xs[n]);
      assert xs == xs[..n] + [xs[n]];
    }
  }

  /** Elements the changes of one group add, the live group having at most one. */
  lemma GroupAddsMany(ctx: Ctx, gd: seq<Value>, gl: seq<Value>, path: Path, seg: Segment)
    requires |gl| <= 1
    ensures NewElements(GroupDiff(ctx, gd, gl, path + [seg]), path) == if gl == [] then gd else Surplus(gd)
  {
    var p := path + [seg];
    GroupDiffOne(ctx, gd, gl, p);
    if gl == [] {
      NewFromAdds(gd, path, seg);
    } else if gd == [] {
      NoNewElements([Removed(p, gl[0])], path);
    } else {
      DiffAddsDeeper(ctx, gd[0], gl[0], path, seg);
      NoNewElements(DiffValue(ctx, gd[0], gl[0], p), path);
      NewElementsAppend(DiffValue(ctx, gd[0], gl[0], p), Adds(gd[1..], p), path);
      NewFromAdds(gd[1..], path, seg);
    }
  }

  lemma MappingAfter(ctx: Ctx, de: seq<Entry>, le: seq<Entry>, path: Path, key: string)
    requires Wf(Mapping(de)) && Wf(Mapping(le))
    ensures var cs := DiffValue(ctx, Mapping(de), Mapping(le), path);
            var p := path + [Field(key)];
            Lookup(KeptFields(ctx, le, |le|, cs, path) + NewFields(cs, path), key) ==
            match Lookup(de, key)
            case None => None
            case Some(x) =>
              match Lookup(le, key)
              case None => Some(x)
              case Some(y) => Some(Patch(ctx, y, DiffValue(ctx, x, y, p), p))
  {
    var d, l, p := Mapping(de), Mapping(le), path + [Field(key)];
    var cs := DiffValue(ctx, d, l, path);
    var gd, gl := Group(ctx, d, path, Field(key)), Group(ctx, l, path, Field(key));
    Decompose(ctx, d, l, path, Field(key));
    LookupAppend(KeptFields(ctx, le, |le|, cs, path), NewFields(cs, path), key);
    NewFieldsAt(cs, path, key);
    GroupAdds(ctx, gd, gl, path, Field(key));
    if Lookup(le, key).Some? {
      var i :| 0 <= i < |le| && le[i] == Entry(key, Lookup(le, key).value);
      KeptFieldsHit(ctx, le, |le|, cs, path, i);
      LiveChildAfter(ctx, gd, gl[0], p);
    } else {
      KeptFieldsMiss(ctx, le, |le|, cs, path, key);
    }
  }

  // plain lists

  lemma {:induction false} NewElementsAppend(a: seq<Change>, b: seq<Change>, path: Path)
    ensures NewElements(a + b, path) == NewElements(a, path) + NewElements(b, path)
  {
    if b == [] {
      assert a + b == a;
    } else {
      var n := |b| - 1;
      NewElementsAppend(a, b[..n], path);
      assert (a + b)[..|a + b| - 1] == a + b[..n];
      assert (a + b)[|a + b| - 1] == b[n];
    }
  }

  lemma {:induction false} NewIndexed(ctx: Ctx, ds: seq<Value>, ls: seq<Value>, n: nat, path: Path)
    requires n <= Max(|ds|, |ls|)
    ensures NewElements(DiffIndexed(ctx, ds, ls, n, path), path) == Beyond(ds, |ls|, n)
    decreases n
  {
    if n > 0 {
      NewIndexed(ctx, ds, ls, n - 1, path);
      NewIndexedStep(ctx, ds, ls, n, path);
      BeyondStep(ds, |ls|, n);
    }
  }

  lemma NewIndexedStep(ctx: Ctx, ds: seq<Value>, ls: seq<Value>, n: nat, path: Path)
    requires 0 < n <= Max(|ds|, |ls|)
    ensures NewElements(DiffIndexed(ctx, ds, ls, n, path), path) ==
            NewElements(DiffIndexed(ctx, ds, ls, n - 1, path), path) + (if |ls| <= n - 1 then [ds[n - 1]] else [])
  {
    NewAtIndex(ctx, ds, ls, n - 1, path);
    DiffIndexedStep(ctx, ds, ls, n, path);
    NewElementsAppend(DiffIndexed(ctx, ds, ls, n - 1, path), IndexChange(ctx, ds, ls, n - 1, path), path);
  }

  lemma DiffIndexedStep(ctx: Ctx, ds: seq<Value>, ls: seq<Value>, n: nat, path: Path)
    requires n > 0
    ensures DiffIndexed(ctx, ds, ls, n, path) ==
            DiffIndexed(ctx, ds, ls, n - 1, path) + IndexChange(ctx, ds, ls, n - 1, path)
  {
  }

  /** The elements of `ds` from position `m` to before position `n`. */
  function Beyond(ds: seq<Value>, m: nat, n: nat): seq<Value>
  {
    if m < n <= |ds| then ds[m..n] else []
  }

  lemma BeyondStep(ds: seq<Value>, m: nat, n: nat)
    requires 0 < n <= Max(|ds|, m)
    ensures Beyond(ds, m, n) == Beyond(ds, m, n - 1) + (if m <= n - 1 then [ds[n - 1]] else [])
  {
    if m <= n - 1 {
      assert ds[m..n] == ds[m..n - 1] + [ds[n - 1]];
    }
  }

  lemma NewAtIndex(ctx: Ctx, ds: seq<Value>, ls: seq<Value>, i: nat, path: Path)
    requires i < Max(|ds|, |ls|)
    ensures NewElements(IndexChange(ctx, ds, ls, i, path), path) == if |ls| <= i then [ds[i]] else []
  {
    if i < |ds| && i < |ls| {
      DiffAddsDeeper(ctx, ds[i], ls[i], path, Index(i));
      NoNewElements(IndexChange(ctx, ds, ls, i, path), path);
    } else if i < |ds| {
      AddsOwn(path, Index(i), ds[i]);
    } else {
      NoNewElements(IndexChange(ctx, ds, ls, i, path), path);
    }
  }

  lemma IndexAfter(ctx: Ctx, ds: seq<Value>, ls: seq<Value>, i: nat, path: Path)
    requires i < |ls| && ctx.listMaps.KeysFor(ctx.gvk, path).None?
    requires Wf(Sequence(ds)) && Wf(Sequence(ls))
    ensures ElementAfter(ctx, ls[i], Index(i), DiffValue(ctx, Sequence(ds), Sequence(ls), path), path) ==
            if i < |ds| then
              [Patch(ctx, ls[i], DiffValue(ctx, ds[i], ls[i], path + [Index(i)]), path + [Index(i)])]
            else []
  {
    var d, l, seg := Sequence(ds), Sequence(ls), Index(i);
    Decompose(ctx, d, l, path, seg);
    LiveChildAfter(ctx, Group(ctx, d, path, seg), ls[i], path + [seg]);
  }

  /** The patched pairs among the first `n` positions. */
  function PatchedPairs(ctx: Ctx, ds: seq<Value>, ls: seq<Value>, n: nat, path: Path): seq<Value>
    requires n <= |ls|
  {
    seq(if n <= |ds| then n else |ds|, i requires 0 <= i < n && i < |ds| =>
      Patch(ctx, ls[i], DiffValue(ctx, ds[i], ls[i], path + [Index(i)]), path + [Index(i)]))
  }

  lemma PatchedPairsStep(ctx: Ctx, ds: seq<Value>, ls: seq<Value>, n: nat, path: Path)
    requires 0 < n <= |ls|
    ensures PatchedPairs(ctx, ds, ls, n, path) ==
            PatchedPairs(ctx, ds, ls, n - 1, path) +
            (if n - 1 < |ds| then
               [Patch(ctx, ls[n - 1], DiffValue(ctx, ds[n - 1], ls[n - 1], path + [Index(n - 1)]),
                      path + [Index(n - 1)])]
             else [])
  {
  }

  lemma {:induction false} KeptIndexedIs(ctx: Ctx, ds: seq<Value>, ls: seq<Value>, n: nat, path: Path)
    requires n <= |ls| && ctx.listMaps.KeysFor(ctx.gvk, path).None?
    requires Wf(Sequence(ds)) && Wf(Sequence(ls))
    ensures KeptIndexed(ctx, ls, n, DiffValue(ctx, Sequence(ds), Sequence(ls), path), path) ==
            PatchedPairs(ctx, ds, ls, n, path)
    decreases n
  {
    if n > 0 {
      KeptIndexedIs(ctx, ds, ls, n - 1, path);
      IndexAfter(ctx, ds, ls, n - 1, path);
      KeptIndexedStep(ctx, ls, n, DiffValue(ctx, Sequence(ds), Sequence(ls), path), path);
      PatchedPairsStep(ctx, ds, ls, n, path);
    }
  }

  lemma KeptIndexedStep(ctx: Ctx, ls: seq<Value>, n: nat, cs: seq<Change>, path: Path)
    requires 0 < n <= |ls|
    ensures KeptIndexed(ctx, ls, n, cs, path) ==
            KeptIndexed(ctx, ls, n - 1, cs, path) + ElementAfter(ctx, ls[n - 1], Index(n - 1), cs, path)
  {
  }

  // registered lists

  lemma {:induction false} SelectAppend(ctx: Ctx, a: seq<Value>, b: seq<Value>, n: nat, keys: seq<string>, kt: KeyTuple)
    requires n <= |b|
    ensures Select(ctx, a + b, |a| + n, keys, kt) == Select(ctx, a, |a|, keys, kt) + Select(ctx, b, n, keys, kt)
  {
    if n > 0 {
      SelectAppend(ctx, a, b, n - 1, keys, kt);
    } else {
      SelectPrefix(ctx, a, b, |a|, keys, kt);
    }
  }

  lemma {:induction false} SelectPrefix(ctx: Ctx, a: seq<Value>, b: seq<Value>, n: nat, keys: seq<string>, kt: KeyTuple)
    requires n <= |a|
    ensures Select(ctx, a + b, n, keys, kt) == Select(ctx, a, n, keys, kt)
  {
    if n > 0 {
      SelectPrefix(ctx, a, b, n - 1, keys, kt);
    }
  }

  function SelectAll(ctx: Ctx, xs: seq<Value>, keys: seq<string>, kt: KeyTuple): seq<Value>
  {
    Select(ctx, xs, |xs|, keys, kt)
  }

  lemma SelectPiece(ctx: Ctx, a: seq<Value>, b: seq<Value>, keys: seq<string>, kt: KeyTuple)
    ensures SelectAll(ctx, a + b, keys, kt) == SelectAll(ctx, a, keys, kt) + SelectAll(ctx, b, keys, kt)
  {
    SelectAppend(ctx, a, b, |b|, keys, kt);
  }

  lemma SelectOne(ctx: Ctx, x: Value, keys: seq<string>, kt: KeyTuple)
    ensures SelectAll(ctx, [x], keys, kt) == if ExtractKeys(ctx, x, keys) == kt then [x] else []
  {
    assert Select(ctx, [x], 0, keys, kt) == [];
  }

  lemma {:induction false} SelectedHasKey(ctx: Ctx, xs: seq<Value>, n: nat, keys: seq<string>, kt: KeyTuple)
    requires n <= |xs|
    ensures forall i :: 0 <= i < |Select(ctx, xs, n, keys, kt)| ==>
              ExtractKeys(ctx, Select(ctx, xs, n, keys, kt)[i], keys) == kt
  {
    if n > 0 {
      SelectedHasKey(ctx, xs, n - 1, keys, kt);
    }
  }

  lemma {:induction false} SelectHas(ctx: Ctx, xs: seq<Value>, n: nat, keys: seq<string>, i: nat)
    requires i < n <= |xs|
    ensures xs[i] in Select(ctx, xs, n, keys, ExtractKeys(ctx, xs[i], keys))
  {
    if i < n - 1 {
      SelectHas(ctx, xs, n - 1, keys, i);
    }
  }

  lemma {:induction false} SelectMonotone(ctx: Ctx, xs: seq<Value>, m: nat, n: nat, keys: seq<string>, kt: KeyTuple)
    requires m <= n <= |xs|
    ensures |Select(ctx, xs, m, keys, kt)| <= |Select(ctx, xs, n, keys, kt)|
  {
    if m < n {
      SelectMonotone(ctx, xs, m, n - 1, keys, kt);
    }
  }

  /** Patching a matched element gives it the key tuple it was matched with. */
  lemma KeyTupleKept(ctx: Ctx, x: Value, y: Value, keys: seq<string>, p: Path)
    requires Wf(x) && Wf(y) && forall key :: key in keys ==> ToldField(ctx, y, key)
    requires ExtractKeys(ctx, x, keys) == ExtractKeys(ctx, y, keys)
    ensures ExtractKeys(ctx, Patch(ctx, y, DiffValue(ctx, x, y, p), p), keys) == ExtractKeys(ctx, x, keys)
  {
    var z := Patch(ctx, y, DiffValue(ctx, x, y, p), p);
    forall i | 0 <= i < |keys|
      ensures KeyField(ctx, z, keys[i]) == KeyField(ctx, x, keys[i])
    {
      assert ExtractKeys(ctx, x, keys)[i] == ExtractKeys(ctx, y, keys)[i];
      KeyFieldKept(ctx, x, y, keys[i], p);
    }
  }

  /** Unless both are lists or both mappings, what is desired takes the place of the live value. */
  lemma ScalarReplaced(ctx: Ctx, x: Value, y: Value, p: Path)
    requires !BothContainers(x, y)
    ensures Patch(ctx, y, DiffValue(ctx, x, y, p), p) == x
  {
    OwnPath(ctx, x, y, p);
    if x == y {
      PatchNothing(ctx, y, p);
    }
  }

  /** A list or mapping with the same telling text is the same one, and stays. */
  lemma ToldStays(ctx: Ctx, x: Value, y: Value, p: Path)
    requires Wf(y) && BothContainers(x, y) && Told(ctx, y) && ScalarToString(ctx, x) == ScalarToString(ctx, y)
    ensures Patch(ctx, y, DiffValue(ctx, x, y, p), p) == x
  {
    assert x == y;
    EquivalentReflexive(ctx, y, p);
    EmptyIffEquivalent(ctx, y, y, p);
    PatchNothing(ctx, y, p);
  }

  lemma KeyFieldKept(ctx: Ctx, x: Value, y: Value, key: string, p: Path)
    requires Wf(x) && Wf(y) && ToldField(ctx, y, key) && KeyField(ctx, x, key) == KeyField(ctx, y, key)
    ensures KeyField(ctx, Patch(ctx, y, DiffValue(ctx, x, y, p), p), key) == KeyField(ctx, x, key)
  {
    OwnPath(ctx, x, y, p);
    if x.Mapping? && y.Mapping? {
      MappingAfter(ctx, x.entries, y.entries, p, key);
      match (Get(x, key), Get(y, key)) {
        case (Some(v), Some(w)) =>
          if BothContainers(v, w) {
            ToldStays(ctx, v, w, p + [Field(key)]);
          } else {
            ScalarReplaced(ctx, v, w, p + [Field(key)]);
          }
        case _ =>
      }
    } else if !BothContainers(x, y) && x == y {
      PatchNothing(ctx, y, p);
    }
  }

  /** Live element `i` of a registered list ends as its group does, under its own keys. */
  ghost predicate Settled(ctx: Ctx, ds: seq<Value>, ls: seq<Value>, i: nat, keys: seq<string>, cs: seq<Change>,
                          path: Path)
    requires i < |ls|
  {
    var kt := ExtractKeys(ctx, ls[i], keys);
    var gd := SelectAll(ctx, ds, keys, kt);
    var after := ElementAfter(ctx, ls[i], Keyed(kt), cs, path);
    && after == KeptAfter(ctx, gd, ls[i], path + [Keyed(kt)])
    && (after != [] ==> ExtractKeys(ctx, after[0], keys) == kt)
  }

  /** Live element `i` stands alone in its group when its key tuple is unique. */
  lemma AloneInGroup(ctx: Ctx, ls: seq<Value>, i: nat, keys: seq<string>, path: Path)
    requires i < |ls| && ctx.listMaps.KeysFor(ctx.gvk, path) == Some(keys)
    requires UniqueHere(ctx, Sequence(ls), path)
    ensures Group(ctx, Sequence(ls), path, Keyed(ExtractKeys(ctx, ls[i], keys))) == [ls[i]]
  {
    var kt := ExtractKeys(ctx, ls[i], keys);
    GroupAtMostOne(ctx, Sequence(ls), path, Keyed(kt));
    SelectHas(ctx, ls, |ls|, keys, i);
    OnlyMember(Select(ctx, ls, |ls|, keys, kt), ls[i]);
  }

  lemma GroupAtMostOne(ctx: Ctx, v: Value, path: Path, seg: Segment)
    requires UniqueHere(ctx, v, path)
    ensures |Group(ctx, v, path, seg)| <= 1
  {
  }

  lemma OnlyMember(g: seq<Value>, x: Value)
    requires |g| <= 1 && x in g
    ensures g == [x]
  {
  }

  lemma KeptAfterKeepsKeys(ctx: Ctx, gd: seq<Value>, y: Value, keys: seq<string>, p: Path)
    requires Wf(y) && forall key :: key in keys ==> ToldField(ctx, y, key)
    requires gd != [] ==> Wf(gd[0]) && ExtractKeys(ctx, gd[0], keys) == ExtractKeys(ctx, y, keys)
    ensures var after := KeptAfter(ctx, gd, y, p);
            after != [] ==> ExtractKeys(ctx, after[0], keys) == ExtractKeys(ctx, y, keys)
  {
    if gd != [] {
      KeyTupleKept(ctx, gd[0], y, keys, p);
    }
  }

  lemma GroupShape(ctx: Ctx, ds: seq<Value>, keys: seq<string>, path: Path, kt: KeyTuple)
    requires ctx.listMaps.KeysFor(ctx.gvk, path) == Some(keys) && Wf(Sequence(ds))
    ensures var gd := Group(ctx, Sequence(ds), path, Keyed(kt));
            && gd == SelectAll(ctx, ds, keys, kt)
            && (gd != [] ==> Wf(gd[0]) && ExtractKeys(ctx, gd[0], keys) == kt)
  {
    SelectedHasKey(ctx, ds, |ds|, keys, kt);
  }

  lemma KeyedAfter(ctx: Ctx, ds: seq<Value>, ls: seq<Value>, i: nat, keys: seq<string>, path: Path)
    requires i < |ls| && ctx.listMaps.KeysFor(ctx.gvk, path) == Some(keys)
    requires Wf(Sequence(ds)) && Wf(Sequence(ls)) && ToldFields(ctx, ls, keys) && UniqueHere(ctx, Sequence(ls), path)
    ensures Settled(ctx, ds, ls, i, keys, DiffValue(ctx, Sequence(ds), Sequence(ls), path), path)
  {
    var kt := ExtractKeys(ctx, ls[i], keys);
    GroupShape(ctx, ds, keys, path, kt);
    AloneInGroup(ctx, ls, i, keys, path);
    Decompose(ctx, Sequence(ds), Sequence(ls), path, Keyed(kt));
    SettledByGroup(ctx, ds, ls, i, keys, DiffValue(ctx, Sequence(ds), Sequence(ls), path), path);
  }

  lemma SettledByGroup(ctx: Ctx, ds: seq<Value>, ls: seq<Value>, i: nat, keys: seq<string>, cs: seq<Change>, path: Path)
    requires i < |ls| && Wf(ls[i]) && ToldFields(ctx, ls, keys)
    requires var kt := ExtractKeys(ctx, ls[i], keys);
             var gd, p := SelectAll(ctx, ds, keys, kt), path + [Keyed(kt)];
             && (gd != [] ==> Wf(gd[0]) && ExtractKeys(ctx, gd[0], keys) == kt)
             && At(cs, p) == GroupDiff(ctx, gd, [ls[i]], p)
    ensures Settled(ctx, ds, ls, i, keys, cs, path)
  {
    var kt := ExtractKeys(ctx, ls[i], keys);
    var gd, p := SelectAll(ctx, ds, keys, kt), path + [Keyed(kt)];
    LiveChildAfter(ctx, gd, ls[i], p);
    KeptAfterKeepsKeys(ctx, gd, ls[i], keys, p);
  }

  ghost predicate AllSettled(ctx: Ctx, ds: seq<Value>, ls: seq<Value>, n: nat, keys: seq<string>,
                             cs: seq<Change>, path: Path)
    requires n <= |ls|
  {
    forall i :: 0 <= i < n ==> Settled(ctx, ds, ls, i, keys, cs, path)
  }

  /** What is kept of the first `n` live elements, seen from one key tuple. */
  ghost predicate KeptAgrees(ctx: Ctx, ds: seq<Value>, ls: seq<Value>, n: nat, keys: seq<string>,
                             cs: seq<Change>, path: Path, kt: KeyTuple)
    requires n <= |ls|
  {
    var gd, seen := SelectAll(ctx, ds, keys, kt), Select(ctx, ls, n, keys, kt);
    |seen| <= 1 ==>
      SelectAll(ctx, KeptKeyed(ctx, ls, n, keys, cs, path), keys, kt) ==
      if seen == [] then [] else KeptAfter(ctx, gd, seen[0], path + [Keyed(kt)])
  }

  lemma {:induction false} SelectKept(ctx: Ctx, ds: seq<Value>, ls: seq<Value>, n: nat, keys: seq<string>,
                                      cs: seq<Change>, path: Path, kt: KeyTuple)
    requires n <= |ls| && AllSettled(ctx, ds, ls, n, keys, cs, path)
    ensures KeptAgrees(ctx, ds, ls, n, keys, cs, path, kt)
    decreases n
  {
    if n == 0 {
      NothingKept(ctx, ds, ls, keys, cs, path, kt);
    } else {
      SelectKept(ctx, ds, ls, n - 1, keys, cs, path, kt);
      KeptStep(ctx, ds, ls, n, keys, cs, path, kt);
    }
  }

  lemma NothingKept(ctx: Ctx, ds: seq<Value>, ls: seq<Value>, keys: seq<string>, cs: seq<Change>, path: Path,
                    kt: KeyTuple)
    ensures KeptAgrees(ctx, ds, ls, 0, keys, cs, path, kt)
  {
  }

  /** The last of `n` live elements, kept or dropped, seen from key tuple `kt`. */
  lemma KeptStep(ctx: Ctx, ds: seq<Value>, ls: seq<Value>, n: nat, keys: seq<string>,
                 cs: seq<Change>, path: Path, kt: KeyTuple)
    requires 0 < n <= |ls| && Settled(ctx, ds, ls, n - 1, keys, cs, path)
    ensures KeptAgrees(ctx, ds, ls, n - 1, keys, cs, path, kt) ==> KeptAgrees(ctx, ds, ls, n, keys, cs, path, kt)
  {
    var own := ExtractKeys(ctx, ls[n - 1], keys);
    var piece := ElementAfter(ctx, ls[n - 1], Keyed(own), cs, path);
    SelectMonotone(ctx, ls, n - 1, n, keys, kt);
    SelectKeptPiece(ctx, KeptKeyed(ctx, ls, n - 1, keys, cs, path), piece, own, keys, kt);
    var before := Select(ctx, ls, n - 1, keys, kt);
    if own == kt {
      assert Select(ctx, ls, n, keys, kt) == before + [ls[n - 1]];
    } else {
      assert Select(ctx, ls, n, keys, kt) == before;
    }
  }

  lemma SelectKeptPiece(ctx: Ctx, prior: seq<Value>, piece: seq<Value>, own: KeyTuple, keys: seq<string>, kt: KeyTuple)
    requires |piece| <= 1 && (piece != [] ==> ExtractKeys(ctx, piece[0], keys) == own)
    ensures SelectAll(ctx, prior + piece, keys, kt) ==
            SelectAll(ctx, prior, keys, kt) + (if own == kt then piece else [])
  {
    if piece == [] {
      assert prior + piece == prior;
      assert SelectAll(ctx, prior, keys, kt) + [] == SelectAll(ctx, prior, keys, kt);
    } else {
      var x := piece[0];
      assert piece == [x];
      SelectPiece(ctx, prior, [x], keys, kt);
      SelectOne(ctx, x, keys, kt);
    }
  }

  /** Elements a diff adds to a registered list carry the key tuple of their path. */
  lemma AddedKeys(ctx: Ctx, ds: seq<Value>, ls: seq<Value>, keys: seq<string>, path: Path, c: Change)
    requires ctx.listMaps.KeysFor(ctx.gvk, path) == Some(keys)
    requires Wf(Sequence(ds)) && Wf(Sequence(ls)) && UniqueHere(ctx, Sequence(ls), path)
    requires c in DiffValue(ctx, Sequence(ds), Sequence(ls), path) && AddsUnder(c, path)
    ensures c.path[|path|] == Keyed(ExtractKeys(ctx, c.desired, keys))
  {
    var d, l, seg := Sequence(ds), Sequence(ls), c.path[|path|];
    var gd, gl := Group(ctx, d, path, seg), Group(ctx, l, path, seg);
    BelowPath(ctx, d, l, path);
    HeadAt(DiffValue(ctx, d, l, path), path, c);
    Decompose(ctx, d, l, path, seg);
    GroupAtMostOne(ctx, l, path, seg);
    AddedFromGroup(ctx, gd, gl, path, seg, c);
    if seg.Keyed? {
      SelectedHasKey(ctx, ds, |ds|, keys, seg.keys);
    }
  }

  lemma AddedFromGroup(ctx: Ctx, gd: seq<Value>, gl: seq<Value>, path: Path, seg: Segment, c: Change)
    requires |gl| <= 1 && c in GroupDiff(ctx, gd, gl, path + [seg]) && AddsUnder(c, path)
    ensures exists i :: 0 <= i < |gd| && c.desired == gd[i]
  {
    var p := path + [seg];
    GroupDiffOne(ctx, gd, gl, p);
    if gl == [] {
      assert c in Adds(gd, p);
    } else if gd != [] {
      DiffAddsDeeper(ctx, gd[0], gl[0], path, seg);
      assert c in Adds(gd[1..], p);
      var i :| 0 <= i < |gd[1..]| && Adds(gd[1..], p)[i] == c;
      assert c.desired == gd[i + 1];
    }
  }

  ghost predicate AddedUnderTheirKeys(ctx: Ctx, cs: seq<Change>, keys: seq<string>, path: Path)
  {
    forall c :: c in cs && AddsUnder(c, path) ==> c.path[|path|] == Keyed(ExtractKeys(ctx, c.desired, keys))
  }

  lemma {:induction false} NewElementsAt(ctx: Ctx, cs: seq<Change>, keys: seq<string>, path: Path, kt: KeyTuple)
    requires AddedUnderTheirKeys(ctx, cs, keys, path)
    ensures SelectAll(ctx, NewElements(cs, path), keys, kt) == NewElements(At(cs, path + [Keyed(kt)]), path)
  {
    if cs != [] {
      var n := |cs| - 1;
      var c, p := cs[n], path + [Keyed(kt)];
      NewElementsAt(ctx, cs[..n], keys, path, kt);
      assert c in cs;
      SelectLastAdded(ctx, NewElements(cs[..n], path), c, keys, path, kt);
      NewBelow(At(cs[..n], p), c, path, p);
    }
  }

  lemma SelectLastAdded(ctx: Ctx, prior: seq<Value>, c: Change, keys: seq<string>, path: Path, kt: KeyTuple)
    requires AddsUnder(c, path) ==> c.path[|path|] == Keyed(ExtractKeys(ctx, c.desired, keys))
    ensures SelectAll(ctx, prior + (if AddsUnder(c, path) then [c.desired] else []), keys, kt) ==
            SelectAll(ctx, prior, keys, kt) +
              (if AddsUnder(c, path) && path + [Keyed(kt)] <= c.path then [c.desired] else [])
  {
    SelectPiece(ctx, prior, if AddsUnder(c, path) then [c.desired] else [], keys, kt);
    if AddsUnder(c, path) {
      SelectOne(ctx, c.desired, keys, kt);
      assert path + [Keyed(kt)] <= c.path <==> c.path[|path|] == Keyed(kt);
    }
  }

  lemma NewBelow(prior: seq<Change>, c: Change, path: Path, p: Path)
    ensures NewElements(prior + (if p <= c.path then [c] else []), path) ==
            NewElements(prior, path) + (if p <= c.path && AddsUnder(c, path) then [c.desired] else [])
  {
    NewElementsAppend(prior, if p <= c.path then [c] else [], path);
    assert NewElements([c], path) == if AddsUnder(c, path) then [c.desired] else [] by {
      assert [c][..0] == [];
    }
  }

  // ----- the theorem -----

  /** Below each segment the patched tree holds what the two groups say, whatever stands
      deeper in the live tree. */
  lemma GroupOfPatched(ctx: Ctx, d: Value, l: Value, path: Path, seg: Segment)
    requires BothContainers(d, l) && Wf(d) && Wf(l)
    requires ToldKeysHere(ctx, l, path) && UniqueHere(ctx, l, path)
    ensures Group(ctx, Patch(ctx, l, DiffValue(ctx, d, l, path), path), path, seg) ==
            GroupAfter(ctx, Group(ctx, d, path, seg), Group(ctx, l, path, seg), path + [seg])
  {
    if d.Mapping? {
      GroupOfPatchedMapping(ctx, d.entries, l.entries, path, seg);
    } else {
      GroupOfPatchedList(ctx, d.items, l.items, path, seg);
    }
  }

  lemma GroupOfPatchedMapping(ctx: Ctx, de: seq<Entry>, le: seq<Entry>, path: Path, seg: Segment)
    requires Wf(Mapping(de)) && Wf(Mapping(le))
    ensures Group(ctx, Patch(ctx, Mapping(le), DiffValue(ctx, Mapping(de), Mapping(le), path), path), path, seg) ==
            GroupAfter(ctx, Group(ctx, Mapping(de), path, seg), Group(ctx, Mapping(le), path, seg), path + [seg])
  {
    OwnPath(ctx, Mapping(de), Mapping(le), path);
    if seg.Field? {
      MappingAfter(ctx, de, le, path, seg.name);
    }
  }

  lemma GroupOfPatchedList(ctx: Ctx, ds: seq<Value>, ls: seq<Value>, path: Path, seg: Segment)
    requires Wf(Sequence(ds)) && Wf(Sequence(ls))
    requires ToldKeysHere(ctx, Sequence(ls), path) && UniqueHere(ctx, Sequence(ls), path)
    ensures Group(ctx, Patch(ctx, Sequence(ls), DiffValue(ctx, Sequence(ds), Sequence(ls), path), path), path, seg) ==
            GroupAfter(ctx, Group(ctx, Sequence(ds), path, seg), Group(ctx, Sequence(ls), path, seg), path + [seg])
  {
    OwnPath(ctx, Sequence(ds), Sequence(ls), path);
    match ctx.listMaps.KeysFor(ctx.gvk, path)
    case Some(keys) =>
      if seg.Keyed? {
        RegisteredAfter(ctx, ds, ls, keys, path, seg.keys);
      }
    case None =>
      PlainAfter(ctx, ds, ls, path);
  }

  lemma RegisteredAfter(ctx: Ctx, ds: seq<Value>, ls: seq<Value>, keys: seq<string>, path: Path, kt: KeyTuple)
    requires ctx.listMaps.KeysFor(ctx.gvk, path) == Some(keys)
    requires Wf(Sequence(ds)) && Wf(Sequence(ls)) && ToldFields(ctx, ls, keys) && UniqueHere(ctx, Sequence(ls), path)
    ensures var cs := DiffValue(ctx, Sequence(ds), Sequence(ls), path);
            var gd, gl := SelectAll(ctx, ds, keys, kt), SelectAll(ctx, ls, keys, kt);
            && |gl| <= 1
            && SelectAll(ctx, KeptKeyed(ctx, ls, |ls|, keys, cs, path) + NewElements(cs, path), keys, kt) ==
               GroupAfter(ctx, gd, gl, path + [Keyed(kt)])
  {
    var d, l, seg := Sequence(ds), Sequence(ls), Keyed(kt);
    GroupAtMostOne(ctx, l, path, seg);
    AllKeyedAfter(ctx, ds, ls, keys, path);
    AllAddedKeys(ctx, ds, ls, keys, path);
    Decompose(ctx, d, l, path, seg);
    RegisteredByGroups(ctx, ds, ls, keys, DiffValue(ctx, d, l, path), path, kt);
  }

  lemma RegisteredByGroups(ctx: Ctx, ds: seq<Value>, ls: seq<Value>, keys: seq<string>, cs: seq<Change>,
                           path: Path, kt: KeyTuple)
    requires AllSettled(ctx, ds, ls, |ls|, keys, cs, path) && AddedUnderTheirKeys(ctx, cs, keys, path)
    requires |SelectAll(ctx, ls, keys, kt)| <= 1
    requires At(cs, path + [Keyed(kt)]) ==
             GroupDiff(ctx, SelectAll(ctx, ds, keys, kt), SelectAll(ctx, ls, keys, kt), path + [Keyed(kt)])
    ensures SelectAll(ctx, KeptKeyed(ctx, ls, |ls|, keys, cs, path) + NewElements(cs, path), keys, kt) ==
            GroupAfter(ctx, SelectAll(ctx, ds, keys, kt), SelectAll(ctx, ls, keys, kt), path + [Keyed(kt)])
  {
    var gd, gl := SelectAll(ctx, ds, keys, kt), SelectAll(ctx, ls, keys, kt);
    SelectKept(ctx, ds, ls, |ls|, keys, cs, path, kt);
    NewElementsAt(ctx, cs, keys, path, kt);
    GroupAddsMany(ctx, gd, gl, path, Keyed(kt));
    SelectPiece(ctx, KeptKeyed(ctx, ls, |ls|, keys, cs, path), NewElements(cs, path), keys, kt);
  }

  lemma AllKeyedAfter(ctx: Ctx, ds: seq<Value>, ls: seq<Value>, keys: seq<string>, path: Path)
    requires ctx.listMaps.KeysFor(ctx.gvk, path) == Some(keys)
    requires Wf(Sequence(ds)) && Wf(Sequence(ls)) && ToldFields(ctx, ls, keys) && UniqueHere(ctx, Sequence(ls), path)
    ensures AllSettled(ctx, ds, ls, |ls|, keys, DiffValue(ctx, Sequence(ds), Sequence(ls), path), path)
  {
    var cs := DiffValue(ctx, Sequence(ds), Sequence(ls), path);
    forall i | 0 <= i < |ls|
      ensures Settled(ctx, ds, ls, i, keys, cs, path)
    {
      KeyedAfter(ctx, ds, ls, i, keys, path);
    }
  }

  lemma AllAddedKeys(ctx: Ctx, ds: seq<Value>, ls: seq<Value>, keys: seq<string>, path: Path)
    requires ctx.listMaps.KeysFor(ctx.gvk, path) == Some(keys)
    requires Wf(Sequence(ds)) && Wf(Sequence(ls)) && UniqueHere(ctx, Sequence(ls), path)
    ensures AddedUnderTheirKeys(ctx, DiffValue(ctx, Sequence(ds), Sequence(ls), path), keys, path)
  {
    var cs := DiffValue(ctx, Sequence(ds), Sequence(ls), path);
    forall c | c in cs && AddsUnder(c, path)
      ensures c.path[|path|] == Keyed(ExtractKeys(ctx, c.desired, keys))
    {
      AddedKeys(ctx, ds, ls, keys, path, c);
    }
  }

  lemma PlainAfter(ctx: Ctx, ds: seq<Value>, ls: seq<Value>, path: Path)
    requires ctx.listMaps.KeysFor(ctx.gvk, path).None?
    requires Wf(Sequence(ds)) && Wf(Sequence(ls))
    ensures var cs := DiffValue(ctx, Sequence(ds), Sequence(ls), path);
            var after := KeptIndexed(ctx, ls, |ls|, cs, path) + NewElements(cs, path);
            && |after| == |ds|
            && forall i :: 0 <= i < |ds| ==>
                 after[i] == if i < |ls| then Patch(ctx, ls[i], DiffValue(ctx, ds[i], ls[i], path + [Index(i)]),
                                                    path + [Index(i)])
                             else ds[i]
  {
    KeptIndexedIs(ctx, ds, ls, |ls|, path);
    NewIndexed(ctx, ds, ls, Max(|ds|, |ls|), path);
    KeptThenBeyond(KeptIndexed(ctx, ls, |ls|, DiffValue(ctx, Sequence(ds), Sequence(ls), path), path), ds, |ls|);
  }

  lemma KeptThenBeyond(kept: seq<Value>, ds: seq<Value>, m: nat)
    requires |kept| == if m <= |ds| then m else |ds|
    ensures var after := kept + Beyond(ds, m, Max(|ds|, m));
            && |after| == |ds|
            && forall i :: 0 <= i < |ds| ==> after[i] == if i < m then kept[i] else ds[i]
  {
  }

  /** Carrying out the reported changes on the live tree gives the desired one, up to equivalence. */
  ghost predicate Suffices(ctx: Ctx, d: Value, l: Value, path: Path)
  {
    Equivalent(ctx, d, Patch(ctx, l, DiffValue(ctx, d, l, path), path), path)
  }

  /** The reported changes suffice, for every registry and every desired tree, when list keys
      are unique on the live side and told by their texts there. */
  lemma {:induction false} ScriptSuffices(ctx: Ctx, d: Value, l: Value, path: Path)
    requires Wf(d) && Wf(l) && ToldKeys(ctx, l, path) && UniqueKeys(ctx, l, path)
    ensures Suffices(ctx, d, l, path)
    decreases d, 1, 0
  {
    if BothContainers(d, l) {
      var v := Patch(ctx, l, DiffValue(ctx, d, l, path), path);
      PatchKeepsKind(ctx, d, l, path);
      forall seg ensures GroupsEquivalent(ctx, Group(ctx, d, path, seg), Group(ctx, v, path, seg), path + [seg]) {
        GroupSuffices(ctx, d, l, path, seg);
      }
      EquivalentByGroups(ctx, d, v, path);
    } else {
      ReplacedOutright(ctx, d, l, path);
    }
  }

  lemma PatchKeepsKind(ctx: Ctx, d: Value, l: Value, path: Path)
    requires BothContainers(d, l)
    ensures BothContainers(d, Patch(ctx, l, DiffValue(ctx, d, l, path), path))
  {
    OwnPath(ctx, d, l, path);
  }

  lemma {:induction false} GroupSuffices(ctx: Ctx, d: Value, l: Value, path: Path, seg: Segment)
    requires Wf(d) && Wf(l) && BothContainers(d, l) && ToldKeys(ctx, l, path) && UniqueKeys(ctx, l, path)
    ensures GroupsEquivalent(ctx, Group(ctx, d, path, seg),
                             Group(ctx, Patch(ctx, l, DiffValue(ctx, d, l, path), path), path, seg), path + [seg])
    decreases d, 0, 1
  {
    UniqueIsUniqueHere(ctx, l, path);
    GroupOfPatched(ctx, d, l, path, seg);
    OnlyChild(ctx, l, path, seg);
    PairSuffices(ctx, d, Group(ctx, d, path, seg), Group(ctx, l, path, seg), path + [seg]);
  }

  lemma UniqueIsUniqueHere(ctx: Ctx, v: Value, path: Path)
    requires UniqueKeys(ctx, v, path)
    ensures UniqueHere(ctx, v, path)
  {
    forall seg ensures |Group(ctx, v, path, seg)| <= 1 {
    }
  }

  ghost predicate AtMostOne(ctx: Ctx, g: seq<Value>, p: Path)
  {
    |g| <= 1 && (g != [] ==> Wf(g[0]) && UniqueKeys(ctx, g[0], p) && ToldKeys(ctx, g[0], p))
  }

  lemma {:induction false} PairSuffices(ctx: Ctx, above: Value, gd: seq<Value>, gl: seq<Value>, p: Path)
    requires AtMostOne(ctx, gl, p)
    requires forall k :: 0 <= k < |gd| ==> gd[k] < above && Wf(gd[k])
    ensures GroupsEquivalent(ctx, gd, GroupAfter(ctx, gd, gl, p), p)
    decreases above, 0, 0
  {
    var after := GroupAfter(ctx, gd, gl, p);
    forall k | 0 <= k < |gd| ensures Equivalent(ctx, gd[k], after[k], p) {
      if k == 0 && gl != [] {
        ScriptSuffices(ctx, gd[0], gl[0], p);
      } else {
        assert after[k] == gd[k];
        EquivalentReflexive(ctx, gd[k], p);
      }
    }
  }

  lemma OnlyChild(ctx: Ctx, v: Value, path: Path, seg: Segment)
    requires Wf(v) && UniqueKeys(ctx, v, path) && ToldKeys(ctx, v, path)
    ensures AtMostOne(ctx, Group(ctx, v, path, seg), path + [seg])
  {
  }

  lemma EquivalentByGroups(ctx: Ctx, a: Value, b: Value, path: Path)
    requires BothContainers(a, b)
    requires forall seg :: GroupsEquivalent(ctx, Group(ctx, a, path, seg), Group(ctx, b, path, seg), path + [seg])
    ensures Equivalent(ctx, a, b, path)
  {
    forall seg
      ensures |Group(ctx, a, path, seg)| == |Group(ctx, b, path, seg)|
      ensures forall k :: 0 <= k < |Group(ctx, a, path, seg)| ==>
                Equivalent(ctx, Group(ctx, a, path, seg)[k], Group(ctx, b, path, seg)[k], path + [seg])
    {
      assert GroupsEquivalent(ctx, Group(ctx, a, path, seg), Group(ctx, b, path, seg), path + [seg]);
    }
  }

  /** Two trees that do not descend together: the live one is replaced, or equal already. */
  lemma ReplacedOutright(ctx: Ctx, d: Value, l: Value, path: Path)
    requires !BothContainers(d, l)
    ensures Equivalent(ctx, d, Patch(ctx, l, DiffValue(ctx, d, l, path), path), path)
  {
    OwnPath(ctx, d, l, path);
    if d == l {
      PatchNothing(ctx, l, path);
    }
    EquivalentReflexive(ctx, d, path);
  }
}
