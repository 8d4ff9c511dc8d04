/** The differ as the source runs it: recursive descent that pushes into one change
    list, and a marking loop for registered lists. Each method is proved to append
    exactly what the functions of `Compare` say. */
module CompareLoops {
  import opened Common
  import opened Yaml
  import opened ListMap
  import opened Compare

  class ChangeLog {
    var changes: seq<Change>

    constructor ()
      ensures changes == []
    {
      changes := [];
    }

    method Push(c: Change)
      modifies this
      ensures changes == old(changes) + [c]
    {
      changes := changes + [c];
    }
  }

  method WalkValue(ctx: Ctx, desired: Value, live: Value, path: Path, out: ChangeLog)
    modifies out
    ensures out.changes == old(out.changes) + DiffValue(ctx, desired, live, path)
    decreases desired, 0
  {
    match (desired, live) {
      case (Mapping(d), Mapping(l)) =>
        WalkFields(ctx, d, l, path, out);
      case (Sequence(d), Sequence(l)) =>
        match ctx.listMaps.KeysFor(ctx.gvk, path) {
          case Some(keys) => WalkListMap(ctx, d, l, keys, path, out);
          case None => WalkPositional(ctx, d, l, path, out);
        }
      case (a, b) =>
        if a != b {
          out.Push(Modified(path, a, b));
        }
    }
  }

  /** One entry of the desired mapping. */
  method WalkField(ctx: Ctx, e: Entry, live: seq<Entry>, path: Path, out: ChangeLog)
    modifies out
    ensures out.changes == old(out.changes) + FieldChange(ctx, e, live, path)
    decreases e, 0
  {
    var child := path + [Field(e.key)];
    match Lookup(live, e.key) {
      case Some(lv) => WalkValue(ctx, e.value, lv, child, out);
      case None => out.Push(Added(child, e.value));
    }
  }

  method WalkFields(ctx: Ctx, desired: seq<Entry>, live: seq<Entry>, path: Path, out: ChangeLog)
    modifies out
    ensures out.changes ==
            old(out.changes) +
              (DiffFields(ctx, desired, |desired|, live, path) + RemovedFields(desired, live, |live|, path))
    decreases desired, |desired| + 2
  {
    ghost var before, pushed := out.changes, [];
    for i := 0 to |desired|
      invariant pushed == DiffFields(ctx, desired, i, live, path) && out.changes == before + pushed
    {
      ghost var middle, piece := out.changes, FieldChange(ctx, desired[i], live, path);
      WalkField(ctx, desired[i], live, path, out);
      AppendTwice(before, pushed, piece, middle, out.changes);
      pushed := pushed + piece;
    }
    ghost var half, removed := out.changes, [];
    for i := 0 to |live|
      invariant removed == RemovedFields(desired, live, i, path) && out.changes == half + removed
    {
      if Lookup(desired, live[i].key).None? {
        out.Push(Removed(path + [Field(live[i].key)], live[i].value));
      }
      removed := removed + RemovedField(desired, live[i], path);
    }
    AppendTwice(before, pushed, removed, half, out.changes);
  }

  /** One position of a plain list. */
  method WalkIndex(ctx: Ctx, desired: seq<Value>, live: seq<Value>, i: nat, path: Path, out: ChangeLog)
    requires i < Max(|desired|, |live|)
    modifies out
    ensures out.changes == old(out.changes) + IndexChange(ctx, desired, live, i, path)
    decreases desired, 0
  {
    var child := path + [Index(i)];
    if i < |desired| && i < |live| {
      WalkValue(ctx, desired[i], live[i], child, out);
    } else if i < |desired| {
      out.Push(Added(child, desired[i]));
    } else {
      out.Push(Removed(child, live[i]));
    }
  }

  method WalkPositional(ctx: Ctx, desired: seq<Value>, live: seq<Value>, path: Path, out: ChangeLog)
    modifies out
    ensures out.changes == old(out.changes) + DiffIndexed(ctx, desired, live, Max(|desired|, |live|), path)
    decreases desired, |desired| + 1
  {
    ghost var before, pushed := out.changes, [];
    for i := 0 to Max(|desired|, |live|)
      invariant pushed == DiffIndexed(ctx, desired, live, i, path) && out.changes == before + pushed
    {
      ghost var middle, piece := out.changes, IndexChange(ctx, desired, live, i, path);
      WalkIndex(ctx, desired, live, i, path, out);
      AppendTwice(before, pushed, piece, middle, out.changes);
      pushed := pushed + piece;
    }
  }

  /** Occurrence number of live element `j` among the elements of its key tuple. */
  function Rank(ctx: Ctx, xs: seq<Value>, j: nat, keys: seq<string>): nat
    requires j < |xs|
  {
    |Select(ctx, xs, j, keys, ExtractKeys(ctx, xs[j], keys))|
  }

  /** After `n` desired elements, the marked live elements are those whose occurrence
      number the desired elements seen so far reach. */
  ghost predicate MarkedBy(ctx: Ctx, desired: seq<Value>, n: nat, live: seq<Value>, keys: seq<string>,
                           matched: seq<bool>)
    requires n <= |desired|
  {
    |matched| == |live| && forall j :: 0 <= j < |live| ==> (matched[j] <==> Reached(ctx, desired, n, live, keys, j))
  }

  /** The first `n` desired elements reach the occurrence number of live element `j`. */
  predicate Reached(ctx: Ctx, desired: seq<Value>, n: nat, live: seq<Value>, keys: seq<string>, j: nat)
    requires n <= |desired| && j < |live|
  {
    Rank(ctx, live, j, keys) < |Select(ctx, desired, n, keys, ExtractKeys(ctx, live[j], keys))|
  }

  lemma {:induction false} SelectNth(ctx: Ctx, xs: seq<Value>, n: nat, keys: seq<string>, j: nat)
    requires j < n <= |xs|
    ensures var kt := ExtractKeys(ctx, xs[j], keys);
            && Rank(ctx, xs, j, keys) < |Select(ctx, xs, n, keys, kt)|
            && Select(ctx, xs, n, keys, kt)[Rank(ctx, xs, j, keys)] == xs[j]
  {
    if j < n - 1 {
      SelectNth(ctx, xs, n - 1, keys, j);
    }
  }

  /** The scan found the first unmarked element of the key tuple: it is occurrence `k`. */
  lemma FirstUnmarked(ctx: Ctx, live: seq<Value>, j: nat, keys: seq<string>, kt: KeyTuple, k: nat, matched: seq<bool>)
    requires j <= |live| == |matched|
    requires forall i: nat :: i < |live| && ExtractKeys(ctx, live[i], keys) == kt ==>
             (matched[i] <==> Rank(ctx, live, i, keys) < k)
    requires forall i: nat :: i < j && !matched[i] ==> ExtractKeys(ctx, live[i], keys) != kt
    ensures |Select(ctx, live, j, keys, kt)| <= k
    decreases j
  {
    if j > 0 {
      FirstUnmarked(ctx, live, j - 1, keys, kt, k, matched);
    }
  }

  /** The inner scan: the first live element not yet marked with that key tuple. */
  method FindUnmarked(ctx: Ctx, live: seq<Value>, keys: seq<string>, kt: KeyTuple,
                      matched: array<bool>) returns (j: nat)
    requires matched.Length == |live|
    ensures j <= |live|
    ensures forall m :: 0 <= m < j && !matched[m] ==> ExtractKeys(ctx, live[m], keys) != kt
    ensures j < |live| ==> !matched[j] && ExtractKeys(ctx, live[j], keys) == kt
  {
    j := 0;
    while j < |live| && (matched[j] || ExtractKeys(ctx, live[j], keys) != kt)
      invariant j <= |live|
      invariant forall m :: 0 <= m < j && !matched[m] ==> ExtractKeys(ctx, live[m], keys) != kt
    {
      j := j + 1;
    }
  }

  /** One desired element: meet the first unmarked peer and mark it, or be an addition. */
  method WalkElement(ctx: Ctx, desired: seq<Value>, i: nat, live: seq<Value>, keys: seq<string>,
                     path: Path, matched: array<bool>, ghost marks: seq<bool>, out: ChangeLog)
    returns (ghost marks': seq<bool>)
    requires i < |desired| && matched[..] == marks && MarkedBy(ctx, desired, i, live, keys, marks)
    modifies out, matched
    ensures matched[..] == marks' && MarkedBy(ctx, desired, i + 1, live, keys, marks')
    ensures out.changes == old(out.changes) + KeyedChange(ctx, desired, i, live, keys, path)
    decreases desired, 0
  {
    var kt := ExtractKeys(ctx, desired[i], keys);
    var j := FindUnmarked(ctx, live, keys, kt, matched);
    ScanFindsPeer(ctx, desired, i, live, keys, path, marks, j);
    if j < |live| {
      WalkValue(ctx, desired[i], live[j], path + [Keyed(kt)], out);
      matched[j] := true;
      marks' := marks[j := true];
    } else {
      out.Push(Added(path + [Keyed(kt)], desired[i]));
      marks' := marks;
    }
  }

  /** The first unmarked element is the peer `KeyedChange` names, and marking it keeps the invariant. */
  lemma ScanFindsPeer(ctx: Ctx, desired: seq<Value>, i: nat, live: seq<Value>, keys: seq<string>, path: Path,
                      marks: seq<bool>, j: nat)
    requires i < |desired| && j <= |live| && MarkedBy(ctx, desired, i, live, keys, marks)
    requires forall m :: 0 <= m < j && !marks[m] ==>
             ExtractKeys(ctx, live[m], keys) != ExtractKeys(ctx, desired[i], keys)
    requires j < |live| ==> !marks[j] && ExtractKeys(ctx, live[j], keys) == ExtractKeys(ctx, desired[i], keys)
    ensures var p := path + [Keyed(ExtractKeys(ctx, desired[i], keys))];
            KeyedChange(ctx, desired, i, live, keys, path) ==
            if j < |live| then DiffValue(ctx, desired[i], live[j], p) else [Added(p, desired[i])]
    ensures MarkedBy(ctx, desired, i + 1, live, keys, if j < |live| then marks[j := true] else marks)
  {
    var kt := ExtractKeys(ctx, desired[i], keys);
    var k := |Select(ctx, desired, i, keys, kt)|;
    UnmarkedBelow(ctx, desired, i, live, keys, marks, j);
    if j < |live| {
      SelectNth(ctx, live, |live|, keys, j);
      assert !Reached(ctx, desired, i, live, keys, j);
      assert Rank(ctx, live, j, keys) == k;
      MarkNext(ctx, desired, i, live, keys, marks, j);
    } else {
      NothingToMark(ctx, desired, i, live, keys, marks);
    }
  }

  lemma UnmarkedBelow(ctx: Ctx, desired: seq<Value>, i: nat, live: seq<Value>, keys: seq<string>,
                      marks: seq<bool>, j: nat)
    requires i < |desired| && j <= |live| && MarkedBy(ctx, desired, i, live, keys, marks)
    requires forall m :: 0 <= m < j && !marks[m] ==>
             ExtractKeys(ctx, live[m], keys) != ExtractKeys(ctx, desired[i], keys)
    ensures var kt := ExtractKeys(ctx, desired[i], keys);
            |Select(ctx, live, j, keys, kt)| <= |Select(ctx, desired, i, keys, kt)|
  {
    var kt := ExtractKeys(ctx, desired[i], keys);
    var k := |Select(ctx, desired, i, keys, kt)|;
    forall m: nat | m < |live| && ExtractKeys(ctx, live[m], keys) == kt
      ensures marks[m] <==> Rank(ctx, live, m, keys) < k
    {
      assert marks[m] <==> Reached(ctx, desired, i, live, keys, m);
    }
    FirstUnmarked(ctx, live, j, keys, kt, k, marks);
  }

  method WalkListMap(ctx: Ctx, desired: seq<Value>, live: seq<Value>, keys: seq<string>, path: Path, out: ChangeLog)
    modifies out
    ensures out.changes == old(out.changes) +
            (DiffKeyed(ctx, desired, |desired|, live, keys, path) +
             RemovedKeyed(ctx, desired, live, |live|, keys, path))
    decreases desired, |desired| + 2
  {
    ghost var before := out.changes;
    var matchedLive := new bool[|live|](_ => false);
    ghost var marks := WalkDesired(ctx, desired, live, keys, path, matchedLive, out);
    ghost var middle := out.changes;
    PushUnmatched(ctx, live, keys, path, matchedLive, marks, out);
    UnmarkedAreRemoved(ctx, desired, live, |live|, keys, path, marks);
    AppendTwice(before, DiffKeyed(ctx, desired, |desired|, live, keys, path),
                RemovedKeyed(ctx, desired, live, |live|, keys, path), middle, out.changes);
  }

  /** The loop over the desired elements. */
  method WalkDesired(ctx: Ctx, desired: seq<Value>, live: seq<Value>, keys: seq<string>, path: Path,
                     matched: array<bool>, out: ChangeLog)
    returns (ghost marks: seq<bool>)
    requires matched.Length == |live| && forall j :: 0 <= j < |live| ==> !matched[j]
    modifies out, matched
    ensures matched[..] == marks && MarkedBy(ctx, desired, |desired|, live, keys, marks)
    ensures out.changes == old(out.changes) + DiffKeyed(ctx, desired, |desired|, live, keys, path)
    decreases desired, |desired| + 1
  {
    marks := matched[..];
    NoneMarked(ctx, desired, live, keys, marks);
    ghost var before, pushed := out.changes, [];
    for i := 0 to |desired|
      invariant matched[..] == marks && MarkedBy(ctx, desired, i, live, keys, marks)
      invariant pushed == DiffKeyed(ctx, desired, i, live, keys, path) && out.changes == before + pushed
    {
      ghost var middle, piece := out.changes, KeyedChange(ctx, desired, i, live, keys, path);
      marks := WalkElement(ctx, desired, i, live, keys, path, matched, marks, out);
      AppendTwice(before, pushed, piece, middle, out.changes);
      pushed := pushed + piece;
    }
  }

  function UnmarkedRemovals(ctx: Ctx, live: seq<Value>, n: nat, keys: seq<string>, path: Path,
                            marks: seq<bool>): seq<Change>
    requires n <= |live| == |marks|
  {
    if n == 0 then []
    else
      UnmarkedRemovals(ctx, live, n - 1, keys, path, marks) +
      (if marks[n - 1] then [] else [Removed(path + [Keyed(ExtractKeys(ctx, live[n - 1], keys))], live[n - 1])])
  }

  lemma {:induction false} UnmarkedAreRemoved(ctx: Ctx, desired: seq<Value>, live: seq<Value>, n: nat,
                                              keys: seq<string>, path: Path, marks: seq<bool>)
    requires n <= |live| && MarkedBy(ctx, desired, |desired|, live, keys, marks)
    ensures UnmarkedRemovals(ctx, live, n, keys, path, marks) == RemovedKeyed(ctx, desired, live, n, keys, path)
  {
    if n > 0 {
      UnmarkedAreRemoved(ctx, desired, live, n - 1, keys, path, marks);
      assert marks[n - 1] <==> Reached(ctx, desired, |desired|, live, keys, n - 1);
    }
  }

  /** The closing loop over the live elements left unmarked. */
  method PushUnmatched(ctx: Ctx, live: seq<Value>, keys: seq<string>, path: Path, matched: array<bool>,
                       ghost marks: seq<bool>, out: ChangeLog)
    requires |marks| == |live| && matched[..] == marks
    modifies out
    ensures out.changes == old(out.changes) + UnmarkedRemovals(ctx, live, |live|, keys, path, marks)
  {
    for j := 0 to |live|
      invariant out.changes == old(out.changes) + UnmarkedRemovals(ctx, live, j, keys, path, marks)
    {
      if !matched[j] {
        out.Push(Removed(path + [Keyed(ExtractKeys(ctx, live[j], keys))], live[j]));
      }
    }
  }

  lemma {:induction false} SameRankSamePlace(ctx: Ctx, xs: seq<Value>, i: nat, j: nat, keys: seq<string>)
    requires i < j < |xs| && ExtractKeys(ctx, xs[i], keys) == ExtractKeys(ctx, xs[j], keys)
    ensures Rank(ctx, xs, i, keys) < Rank(ctx, xs, j, keys)
  {
    SelectNth(ctx, xs, j, keys, i);
  }

  /** Marking occurrence `k` keeps the invariant for one more desired element. */
  lemma MarkNext(ctx: Ctx, desired: seq<Value>, i: nat, live: seq<Value>, keys: seq<string>, matched: seq<bool>, j: nat)
    requires i < |desired| && j < |live| && MarkedBy(ctx, desired, i, live, keys, matched)
    requires ExtractKeys(ctx, live[j], keys) == ExtractKeys(ctx, desired[i], keys)
    requires Rank(ctx, live, j, keys) == |Select(ctx, desired, i, keys, ExtractKeys(ctx, desired[i], keys))|
    ensures MarkedBy(ctx, desired, i + 1, live, keys, matched[j := true])
  {
    var after := matched[j := true];
    forall m: nat | m < |live|
      ensures after[m] <==> Reached(ctx, desired, i + 1, live, keys, m)
    {
      assert matched[m] <==> Reached(ctx, desired, i, live, keys, m);
      if ExtractKeys(ctx, live[m], keys) == ExtractKeys(ctx, desired[i], keys) && m != j {
        if m < j {
          SameRankSamePlace(ctx, live, m, j, keys);
        } else {
          SameRankSamePlace(ctx, live, j, m, keys);
        }
      }
    }
  }

  lemma NoneMarked(ctx: Ctx, desired: seq<Value>, live: seq<Value>, keys: seq<string>, matched: seq<bool>)
    requires |matched| == |live| && forall j :: 0 <= j < |matched| ==> !matched[j]
    ensures MarkedBy(ctx, desired, 0, live, keys, matched)
  {
  }

  /** Every live occurrence of the key tuple is marked already. */
  lemma NothingToMark(ctx: Ctx, desired: seq<Value>, i: nat, live: seq<Value>, keys: seq<string>, matched: seq<bool>)
    requires i < |desired| && MarkedBy(ctx, desired, i, live, keys, matched)
    requires var kt := ExtractKeys(ctx, desired[i], keys);
             |Select(ctx, live, |live|, keys, kt)| <= |Select(ctx, desired, i, keys, kt)|
    ensures MarkedBy(ctx, desired, i + 1, live, keys, matched)
  {
    forall m: nat | m < |live|
      ensures matched[m] <==> Reached(ctx, desired, i + 1, live, keys, m)
    {
      assert matched[m] <==> Reached(ctx, desired, i, live, keys, m);
      SelectNth(ctx, live, |live|, keys, m);
    }
  }
}
