/** What any reader of a diff can recover: not only patching by path, but every function of the
    live tree and the reported changes. */
module DiffReaders {
  import opened Common
  import opened Yaml
  import opened ListMap
  import opened Compare
  import opened CompareSpec
  import opened CompareLaws
  import opened EditScript
  import opened ScriptLimits

  type Reader = (Value, seq<Change>) -> Value

  /** From the live tree and the changes the reader makes out every desired tree, up to
      equivalence. */
  ghost predicate Recovers(ctx: Ctx, l: Value, path: Path, reader: Reader)
  {
    forall d :: Wf(d) ==> Equivalent(ctx, d, reader(l, DiffValue(ctx, d, l, path)), path)
  }

  ghost predicate Readable(ctx: Ctx, l: Value, path: Path)
  {
    exists reader: Reader :: Recovers(ctx, l, path, reader)
  }

  // ----- changes below one segment only -----

  /** When only one segment differs, the diff is the diff of the two groups there. */
  lemma OneSegment(ctx: Ctx, d: Value, l: Value, path: Path, seg: Segment)
    requires BothContainers(d, l) && Wf(d) && Wf(l) && OthersKept(ctx, d, l, path, seg)
    ensures DiffValue(ctx, d, l, path) ==
            GroupDiff(ctx, Group(ctx, d, path, seg), Group(ctx, l, path, seg), path + [seg])
  {
    var cs, p := DiffValue(ctx, d, l, path), path + [seg];
    BelowPath(ctx, d, l, path);
    forall c | c in cs ensures p <= c.path {
      HeadAt(cs, path, c);
      if c.path[|path|] != seg {
        SilentElsewhere(ctx, d, l, path, seg, c.path[|path|]);
      }
      assert c.path[..|p|] == path + [c.path[|path|]];
    }
    FilterAll(cs, (c: Change) => p <= c.path);
    Decompose(ctx, d, l, path, seg);
  }

  lemma SilentElsewhere(ctx: Ctx, d: Value, l: Value, path: Path, seg: Segment, s: Segment)
    requires BothContainers(d, l) && Wf(d) && Wf(l) && OthersKept(ctx, d, l, path, seg) && s != seg
    ensures At(DiffValue(ctx, d, l, path), path + [s]) == []
  {
    Decompose(ctx, d, l, path, s);
    SameGroupSilent(ctx, Group(ctx, l, path, s), path + [s]);
  }

  /** Between a group and the group with one member replaced: the diff of the two members. */
  lemma {:induction false} OneMember(ctx: Ctx, g: seq<Value>, k: nat, z: Value, p: Path)
    requires k < |g| && forall i :: 0 <= i < |g| ==> Wf(g[i])
    ensures GroupDiff(ctx, g[k := z], g, p) == DiffValue(ctx, z, g[k], p)
    decreases |g|
  {
    var n := |g| - 1;
    LastPair(ctx, g[k := z], g, p);
    if k == n {
      assert g[k := z][..n] == g[..n];
      SameGroupSilent(ctx, g[..n], p);
    } else {
      assert g[k := z][..n] == g[..n][k := z];
      OneMember(ctx, g[..n], k, z, p);
      EquivalentReflexive(ctx, g[n], p);
      EmptyIffEquivalent(ctx, g[n], g[n], p);
    }
  }

  lemma LastPair(ctx: Ctx, a: seq<Value>, b: seq<Value>, p: Path)
    requires |a| == |b| > 0
    ensures var n := |a| - 1;
            GroupDiff(ctx, a, b, p) == GroupDiff(ctx, a[..n], b[..n], p) + DiffValue(ctx, a[n], b[n], p)
  {
  }

  // ----- one more field -----

  function WithField(x: Value, f: string): Value
    requires x.Mapping?
  {
    Mapping(x.entries + [Entry(f, Null)])
  }

  /** A fresh field and nothing else is added. */
  lemma FieldAdded(ctx: Ctx, x: Value, f: string, p: Path)
    requires x.Mapping? && Wf(x) && Get(x, f).None?
    ensures Wf(WithField(x, f)) && DiffValue(ctx, WithField(x, f), x, p) == [Added(p + [Field(f)], Null)]
    ensures !Equivalent(ctx, WithField(x, f), x, p)
  {
    var z := WithField(x, f);
    WithFieldWf(x, f);
    WithFieldGroups(ctx, x, f, p);
    OneSegment(ctx, z, x, p, Field(f));
    AddedAlone(ctx, Null, p + [Field(f)]);
    GroupSizesDiffer(ctx, z, x, p, Field(f));
  }

  lemma WithFieldWf(x: Value, f: string)
    requires x.Mapping? && Wf(x) && Get(x, f).None?
    ensures Wf(WithField(x, f))
  {
    assert forall e :: e in WithField(x, f).entries ==> e in x.entries || e == Entry(f, Null);
  }

  lemma WithFieldGroups(ctx: Ctx, x: Value, f: string, p: Path)
    requires x.Mapping? && Wf(x) && Get(x, f).None?
    ensures Group(ctx, WithField(x, f), p, Field(f)) == [Null] && Group(ctx, x, p, Field(f)) == []
    ensures OthersKept(ctx, WithField(x, f), x, p, Field(f))
  {
    var z := WithField(x, f);
    FieldLookup(x, f);
    assert Get(z, f) == Some(Null);
    forall s | s != Field(f) ensures Group(ctx, z, p, s) == Group(ctx, x, p, s) {
      if s.Field? {
        assert Get(z, s.name) == Get(x, s.name);
      }
    }
  }

  lemma AddedAlone(ctx: Ctx, v: Value, p: Path)
    ensures GroupDiff(ctx, [v], [], p) == [Added(p, v)]
  {
    assert [v][..0] == [];
  }

  lemma FieldLookup(x: Value, f: string)
    requires x.Mapping? && Wf(x) && Get(x, f).None?
    ensures forall key :: Get(WithField(x, f), key) == if key == f then Some(Null) else Get(x, key)
  {
    forall key ensures Get(WithField(x, f), key) == if key == f then Some(Null) else Get(x, key) {
      LookupAppend(x.entries, [Entry(f, Null)], key);
    }
  }

  function Names(es: seq<Entry>): seq<string>
  {
    seq(|es|, i requires 0 <= i < |es| => es[i].key)
  }

  function Longest(names: seq<string>): nat
  {
    if names == [] then 0
    else
      var before, name := Longest(names[..|names| - 1]), names[|names| - 1];
      if |name| > before then |name| else before
  }

  lemma {:induction false} NoneLonger(names: seq<string>, name: string)
    requires name in names
    ensures |name| <= Longest(names)
  {
    var n := |names| - 1;
    if name != names[n] {
      NoneLonger(names[..n], name);
    }
  }

  /** A name that is not among these. */
  lemma FreshName(names: seq<string>) returns (f: string)
    ensures f !in names
  {
    f := seq(Longest(names) + 1, _ => 'f');
    if f in names {
      NoneLonger(names, f);
    }
  }

  lemma FreshField(keys: seq<string>, x: Value, y: Value) returns (f: string)
    requires x.Mapping? && y.Mapping?
    ensures f !in keys && Get(x, f).None? && Get(y, f).None?
  {
    f := FreshName(keys + Names(x.entries) + Names(y.entries));
    FieldIsNamed(x, f);
    FieldIsNamed(y, f);
  }

  lemma FieldIsNamed(x: Value, f: string)
    requires x.Mapping?
    ensures Get(x, f).Some? ==> f in Names(x.entries)
  {
    if Get(x, f).Some? {
      var i :| 0 <= i < |x.entries| && x.entries[i] == Entry(f, Get(x, f).value);
      assert Names(x.entries)[i] == f;
    }
  }

  // ----- two desired trees with one diff -----

  /** The two trees cannot be told apart by their changes, yet are not equivalent. */
  ghost predicate Confused(ctx: Ctx, a: Value, b: Value, l: Value, path: Path)
  {
    && Wf(a) && Wf(b)
    && DiffValue(ctx, a, l, path) == DiffValue(ctx, b, l, path)
    && !Equivalent(ctx, a, b, path)
  }

  /** Adding a field to one element of a key tuple, or the same field to another one of it, reads alike. */
  lemma TwinsConfuse(ctx: Ctx, ls: seq<Value>, i: nat, j: nat, keys: seq<string>, path: Path, f: string)
    requires ctx.listMaps.KeysFor(ctx.gvk, path) == Some(keys) && Wf(Sequence(ls)) && i < j < |ls|
    requires ls[i].Mapping? && ls[j].Mapping? && ExtractKeys(ctx, ls[i], keys) == ExtractKeys(ctx, ls[j], keys)
    requires f !in keys && Get(ls[i], f).None? && Get(ls[j], f).None?
    ensures Confused(ctx, Sequence(ls[i := WithField(ls[i], f)]), Sequence(ls[j := WithField(ls[j], f)]),
                     Sequence(ls), path)
  {
    var kt := ExtractKeys(ctx, ls[i], keys);
    var g, p := Group(ctx, Sequence(ls), path, Keyed(kt)), path + [Keyed(kt)];
    var k, m := |Select(ctx, ls, i, keys, kt)|, |Select(ctx, ls, j, keys, kt)|;
    OneTwin(ctx, ls, i, keys, path, f);
    OneTwin(ctx, ls, j, keys, path, f);
    Earlier(ctx, ls, i, j, keys);
    FieldAdded(ctx, ls[i], f, p);
    var a, b := Sequence(ls[i := WithField(ls[i], f)]), Sequence(ls[j := WithField(ls[j], f)]);
    assert Group(ctx, a, path, Keyed(kt))[k] == WithField(ls[i], f) && Group(ctx, b, path, Keyed(kt))[k] == ls[i];
    ChildrenDiffer(ctx, a, b, path, Keyed(kt), k);
  }

  lemma Earlier(ctx: Ctx, ls: seq<Value>, i: nat, j: nat, keys: seq<string>)
    requires i < j < |ls|
    ensures var kt := ExtractKeys(ctx, ls[i], keys); |Select(ctx, ls, i, keys, kt)| < |Select(ctx, ls, j, keys, kt)|
  {
    SelectMonotone(ctx, ls, i + 1, j, keys, ExtractKeys(ctx, ls[i], keys));
  }

  /** What one such addition does to its group and what it reads like. */
  lemma OneTwin(ctx: Ctx, ls: seq<Value>, i: nat, keys: seq<string>, path: Path, f: string)
    requires ctx.listMaps.KeysFor(ctx.gvk, path) == Some(keys) && Wf(Sequence(ls)) && i < |ls|
    requires ls[i].Mapping? && f !in keys && Get(ls[i], f).None?
    ensures var kt := ExtractKeys(ctx, ls[i], keys);
            var k, g, seg := |Select(ctx, ls, i, keys, kt)|, Group(ctx, Sequence(ls), path, Keyed(kt)), Keyed(kt);
            var d := Sequence(ls[i := WithField(ls[i], f)]);
            && k < |g| && g[k] == ls[i] && Wf(d)
            && Group(ctx, d, path, seg) == g[k := WithField(ls[i], f)]
            && DiffValue(ctx, d, Sequence(ls), path) == [Added(path + [seg] + [Field(f)], Null)]
  {
    var kt, z := ExtractKeys(ctx, ls[i], keys), WithField(ls[i], f);
    var g, p := Group(ctx, Sequence(ls), path, Keyed(kt)), path + [Keyed(kt)];
    FieldAdded(ctx, ls[i], f, p);
    FieldLookup(ls[i], f);
    KeptFieldsKeepKeys(ctx, z, ls[i], keys);
    SelectReplaced(ctx, ls, i, z, |ls|, keys, kt);
    ReplacedWf(ls, i, z);
    OthersKeptInKeyedList(ctx, ls, path, keys, i, z);
    OneSegment(ctx, Sequence(ls[i := z]), Sequence(ls), path, Keyed(kt));
    OneMember(ctx, g, |Select(ctx, ls, i, keys, kt)|, z, p);
  }

  lemma ChildrenDiffer(ctx: Ctx, a: Value, b: Value, path: Path, seg: Segment, k: nat)
    requires BothContainers(a, b) && k < |Group(ctx, a, path, seg)| && k < |Group(ctx, b, path, seg)|
    requires !Equivalent(ctx, Group(ctx, a, path, seg)[k], Group(ctx, b, path, seg)[k], path + [seg])
    ensures !Equivalent(ctx, a, b, path)
  {
  }

  /** Two elements of one key tuple, somewhere in the list. */
  lemma {:induction false} FindTwins(ctx: Ctx, ls: seq<Value>, n: nat, keys: seq<string>, kt: KeyTuple)
    returns (i: nat, j: nat)
    requires n <= |ls| && |Select(ctx, ls, n, keys, kt)| > 1
    ensures i < j < n && ExtractKeys(ctx, ls[i], keys) == ExtractKeys(ctx, ls[j], keys) == kt
    decreases n
  {
    if |Select(ctx, ls, n - 1, keys, kt)| > 1 {
      i, j := FindTwins(ctx, ls, n - 1, keys, kt);
    } else {
      j := n - 1;
      i := FindOne(ctx, ls, n - 1, keys, kt);
    }
  }

  lemma {:induction false} FindOne(ctx: Ctx, ls: seq<Value>, n: nat, keys: seq<string>, kt: KeyTuple) returns (i: nat)
    requires n <= |ls| && Select(ctx, ls, n, keys, kt) != []
    ensures i < n && ExtractKeys(ctx, ls[i], keys) == kt
    decreases n
  {
    if ExtractKeys(ctx, ls[n - 1], keys) == kt {
      i := n - 1;
    } else {
      i := FindOne(ctx, ls, n - 1, keys, kt);
    }
  }

  /** Every element of every registered list inside `v` is a mapping, as list keys presuppose. */
  ghost predicate MappingElements(ctx: Ctx, v: Value, path: Path)
    decreases v
  {
    forall seg, k :: 0 <= k < |Group(ctx, v, path, seg)| ==>
      (seg.Keyed? ==> Group(ctx, v, path, seg)[k].Mapping?) &&
        MappingElements(ctx, Group(ctx, v, path, seg)[k], path + [seg])
  }

  lemma ElementIsMapping(ctx: Ctx, ls: seq<Value>, path: Path, keys: seq<string>, i: nat)
    requires ctx.listMaps.KeysFor(ctx.gvk, path) == Some(keys) && MappingElements(ctx, Sequence(ls), path) && i < |ls|
    ensures ls[i].Mapping?
  {
    var kt := ExtractKeys(ctx, ls[i], keys);
    var g := Group(ctx, Sequence(ls), path, Keyed(kt));
    SelectHas(ctx, ls, |ls|, keys, i);
    var k :| 0 <= k < |g| && g[k] == ls[i];
  }

  lemma DuplicateHereConfuses(ctx: Ctx, l: Value, path: Path, held: seq<string>) returns (a: Value, b: Value)
    requires Wf(l) && MappingElements(ctx, l, path) && !UniqueHere(ctx, l, path)
    ensures Confused(ctx, a, b, l, path) && Faithful(a, l, held) && Faithful(b, l, held)
  {
    var seg :| |Group(ctx, l, path, seg)| > 1;
    var ls, keys := l.items, ctx.listMaps.KeysFor(ctx.gvk, path).value;
    var i, j := FindTwins(ctx, ls, |ls|, keys, seg.keys);
    ElementIsMapping(ctx, ls, path, keys, i);
    ElementIsMapping(ctx, ls, path, keys, j);
    var f := FreshField(keys, ls[i], ls[j]);
    TwinsConfuse(ctx, ls, i, j, keys, path, f);
    a, b := Sequence(ls[i := WithField(ls[i], f)]), Sequence(ls[j := WithField(ls[j], f)]);
  }

  /** The same mapping keys and scalars, and the same values in the fields `held`. */
  ghost predicate Faithful(d: Value, l: Value, held: seq<string>)
  {
    SameSkeleton(d, l) && KeepsFields(d, l, held)
  }

  /** Trees confused as a child are confused in its place. */
  lemma ConfusedInside(ctx: Ctx, l: Value, path: Path, seg: Segment, child: Value, x: Value, y: Value, a: Value,
                       b: Value)
    requires Wf(l) && Group(ctx, l, path, seg) == [child] && Confused(ctx, x, y, child, path + [seg])
    requires ChildReplaced(ctx, a, l, path, seg, x) && ChildReplaced(ctx, b, l, path, seg, y)
    ensures Confused(ctx, a, b, l, path)
  {
    OneChild(ctx, a, l, path, seg, x, child);
    OneChild(ctx, b, l, path, seg, y, child);
    ChildrenDiffer(ctx, a, b, path, seg, 0);
  }

  lemma OneChild(ctx: Ctx, d: Value, l: Value, path: Path, seg: Segment, x: Value, child: Value)
    requires Wf(l) && Group(ctx, l, path, seg) == [child] && ChildReplaced(ctx, d, l, path, seg, x)
    ensures DiffValue(ctx, d, l, path) == DiffValue(ctx, x, child, path + [seg])
  {
    OneSegment(ctx, d, l, path, seg);
    assert [child][0 := x] == [x];
    OneMember(ctx, [child], 0, x, path + [seg]);
  }

  lemma {:induction false} DuplicateConfuses(ctx: Ctx, l: Value, path: Path, held: seq<string>)
    returns (a: Value, b: Value)
    requires PlainKeys(ctx, l, path) && UniqueInside(ctx, l, path, held) && MappingElements(ctx, l, path)
    requires !UniqueKeys(ctx, l, path)
    ensures Confused(ctx, a, b, l, path) && Faithful(a, l, held) && Faithful(b, l, held)
    decreases l
  {
    if UniqueHere(ctx, l, path) {
      var seg, child := DeeperDuplicate(ctx, l, path, held);
      assert child == Group(ctx, l, path, seg)[0];
      var x, y := DuplicateConfuses(ctx, child, path + [seg], KeysAt(ctx, l, path));
      a := ReplaceChild(ctx, l, path, seg, x, held);
      b := ReplaceChild(ctx, l, path, seg, y, held);
      ConfusedInside(ctx, l, path, seg, child, x, y, a, b);
    } else {
      a, b := DuplicateHereConfuses(ctx, l, path, held);
    }
  }

  lemma NoReader(ctx: Ctx, a: Value, b: Value, l: Value, path: Path, reader: Reader)
    requires Confused(ctx, a, b, l, path)
    ensures !Recovers(ctx, l, path, reader)
  {
    if Recovers(ctx, l, path, reader) {
      var v := reader(l, DiffValue(ctx, a, l, path));
      EquivalentSymmetric(ctx, b, v, path);
      EquivalentTransitive(ctx, a, v, b, path);
    }
  }

  /** For every live tree with plain keys whose registered lists hold mappings: some way of
      reading the changes recovers every desired tree if and only if no list in the live tree
      repeats a key tuple, and then patching by path is one. */
  lemma ReadableIff(ctx: Ctx, l: Value, path: Path)
    requires PlainKeys(ctx, l, path) && MappingElements(ctx, l, path)
    ensures Readable(ctx, l, path) <==> UniqueKeys(ctx, l, path)
  {
    if UniqueKeys(ctx, l, path) {
      PatchReads(ctx, l, path);
    } else {
      var a, b := DuplicateConfuses(ctx, l, path, []);
      forall reader: Reader ensures !Recovers(ctx, l, path, reader) {
        NoReader(ctx, a, b, l, path, reader);
      }
    }
  }

  lemma PatchReads(ctx: Ctx, l: Value, path: Path)
    requires PlainKeys(ctx, l, path) && UniqueKeys(ctx, l, path)
    ensures Readable(ctx, l, path)
  {
    var reader: Reader := (v: Value, cs: seq<Change>) => Patch(ctx, v, cs, path);
    forall d | Wf(d) ensures Equivalent(ctx, d, reader(l, DiffValue(ctx, d, l, path)), path) {
      ScriptSuffices(ctx, d, l, path);
    }
    assert Recovers(ctx, l, path, reader);
  }
}
