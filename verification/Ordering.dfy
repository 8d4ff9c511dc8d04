/** Comparators in the style of `Ord::cmp`, lexicographic products, and stable sorting. */
module Ordering {
  import opened Common

  datatype Cmp = Less | Equal | Greater {
    function Then(next: Cmp): Cmp { if Equal? then next else this }
    function Reverse(): Cmp { match this case Less => Greater case Greater => Less case Equal => Equal }
  }

  function CmpInt(a: int, b: int): Cmp
  {
    if a < b then Less else if b < a then Greater else Equal
  }

  /** Lexicographic by code point, which is the order of the UTF-8 bytes. */
  function CmpString(a: string, b: string): Cmp
  {
    if a == [] then (if b == [] then Equal else Less)
    else if b == [] then Greater
    else CmpInt(a[0] as int, b[0] as int).Then(CmpString(a[1..], b[1..]))
  }

  function CmpOption(a: Option<string>, b: Option<string>): Cmp
  {
    match (a, b)
    case (None, None) => Equal
    case (None, Some(_)) => Less
    case (Some(_), None) => Greater
    case (Some(x), Some(y)) => CmpString(x, y)
  }

  /** A proper beginning of `b`, or smaller at the first character that differs. */
  ghost predicate TextBefore(a: string, b: string)
  {
    exists k :: DiffersFirst(a, b, k) && (if k == |a| then k < |b| else k < |b| && a[k] < b[k])
  }

  /** The first `k` characters are the same in both texts, and no more are. */
  ghost predicate DiffersFirst(a: string, b: string, k: int)
  {
    0 <= k <= |a| && k <= |b| && a[..k] == b[..k] && (k < |a| && k < |b| ==> a[k] != b[k])
  }

  /** Texts compare as in a dictionary, character by character. */
  lemma {:induction false} CmpStringIs(a: string, b: string)
    ensures CmpString(a, b) == Less <==> TextBefore(a, b)
    ensures CmpString(a, b) == Equal <==> a == b
    decreases |a|
  {
    if a == "" {
      assert DiffersFirst(a, b, 0);
    } else if b == "" {
      assert forall k :: DiffersFirst(a, b, k) ==> k == 0;
    } else if a[0] != b[0] {
      assert DiffersFirst(a, b, 0);
      PrefixHead(a, b);
    } else {
      CmpStringIs(a[1..], b[1..]);
      SameHead(a, b);
    }
  }

  lemma PrefixHead(a: string, b: string)
    requires a != "" && b != ""
    ensures forall k :: DiffersFirst(a, b, k) && k > 0 ==> a[0] == b[0]
  {
    forall k | DiffersFirst(a, b, k) && k > 0 ensures a[0] == b[0] {
      assert a[..k][0] == b[..k][0];
    }
  }

  lemma SameHead(a: string, b: string)
    requires a != "" && b != "" && a[0] == b[0]
    ensures TextBefore(a, b) <==> TextBefore(a[1..], b[1..])
    ensures a == b <==> a[1..] == b[1..]
  {
    var x, y := a[1..], b[1..];
    assert a == [a[0]] + x && b == [b[0]] + y;
    if TextBefore(a, b) {
      var k :| DiffersFirst(a, b, k) && (if k == |a| then k < |b| else k < |b| && a[k] < b[k]);
      assert k > 0;
      assert x[..k - 1] == a[..k][1..] && y[..k - 1] == b[..k][1..];
      assert DiffersFirst(x, y, k - 1);
    }
    if TextBefore(x, y) {
      var k :| DiffersFirst(x, y, k) && (if k == |x| then k < |y| else k < |y| && x[k] < y[k]);
      assert a[..k + 1] == [a[0]] + x[..k] && b[..k + 1] == [b[0]] + y[..k];
      assert DiffersFirst(a, b, k + 1);
    }
  }

  // ----- what makes a comparator a total preorder -----

  /** Comparisons `ab`, `bc`, `ac` of three elements that fit together. */
  predicate Chain(ab: Cmp, bc: Cmp, ac: Cmp)
  {
    && (ab.Equal? ==> ac == bc)
    && (bc.Equal? ==> ac == ab)
    && (ab == bc ==> ac == ab)
  }

  lemma ThenChain(ab: Cmp, bc: Cmp, ac: Cmp, ab': Cmp, bc': Cmp, ac': Cmp)
    requires Chain(ab, bc, ac)
    requires ab.Equal? && bc.Equal? ==> Chain(ab', bc', ac')
    ensures Chain(ab.Then(ab'), bc.Then(bc'), ac.Then(ac'))
  {
  }

  lemma {:induction false} CmpStringLaws(a: string, b: string, c: string)
    ensures CmpString(a, b) == Equal <==> a == b
    ensures CmpString(b, a) == CmpString(a, b).Reverse()
    ensures Chain(CmpString(a, b), CmpString(b, c), CmpString(a, c))
  {
    if a != [] && b != [] {
      CmpStringLaws(a[1..], b[1..], if c == [] then [] else c[1..]);
      assert a == [a[0]] + a[1..] && b == [b[0]] + b[1..];
    }
  }

  lemma CmpOptionLaws(a: Option<string>, b: Option<string>, c: Option<string>)
    ensures CmpOption(a, b) == Equal <==> a == b
    ensures CmpOption(b, a) == CmpOption(a, b).Reverse()
    ensures Chain(CmpOption(a, b), CmpOption(b, c), CmpOption(a, c))
  {
    if a.Some? && b.Some? {
      CmpStringLaws(a.value, b.value, if c.Some? then c.value else "");
    }
  }

  /** A total preorder: the two directions mirror, and triples fit together. */
  ghost predicate Lawful<T(!new)>(cmp: (T, T) -> Cmp)
  {
    && (forall a, b :: cmp(b, a) == cmp(a, b).Reverse())
    && (forall a, b, c :: Chain(cmp(a, b), cmp(b, c), cmp(a, c)))
  }

  // ----- stable sorting -----

  ghost predicate Sorted<T>(s: seq<T>, cmp: (T, T) -> Cmp)
  {
    forall i, j :: 0 <= i < j < |s| ==> cmp(s[i], s[j]) != Greater
  }

  /** The elements of `s` that compare equal to `x`, in order. */
  function Peers<T>(s: seq<T>, cmp: (T, T) -> Cmp, x: T): seq<T>
  {
    Filter(s, y => cmp(x, y) == Equal)
  }

  /** `t` rearranges `s` and keeps equal elements in their order. */
  ghost predicate StableRearrangement<T(!new)>(s: seq<T>, t: seq<T>, cmp: (T, T) -> Cmp)
  {
    multiset(s) == multiset(t) && forall x :: Peers(s, cmp, x) == Peers(t, cmp, x)
  }

  function Insert<T>(s: seq<T>, x: T, cmp: (T, T) -> Cmp): seq<T>
  {
    if s == [] || cmp(s[|s| - 1], x) != Greater then s + [x]
    else Insert(s[..|s| - 1], x, cmp) + [s[|s| - 1]]
  }

  /** What a stable sort returns. */
  function StableSort<T>(s: seq<T>, cmp: (T, T) -> Cmp): seq<T>
  {
    if s == [] then [] else Insert(StableSort(s[..|s| - 1], cmp), s[|s| - 1], cmp)
  }

  lemma {:induction false} InsertSorts<T(!new)>(s: seq<T>, x: T, cmp: (T, T) -> Cmp)
    requires Lawful(cmp) && Sorted(s, cmp)
    ensures Sorted(Insert(s, x, cmp), cmp)
    ensures multiset(Insert(s, x, cmp)) == multiset(s) + multiset{x}
    ensures forall y :: y in Insert(s, x, cmp) ==> y in s || y == x
  {
    if s == [] || cmp(s[|s| - 1], x) != Greater {
      LastBelow(s, x, cmp);
    } else {
      var n := |s| - 1;
      InsertSorts(s[..n], x, cmp);
      assert s == s[..n] + [s[n]];
      assert cmp(x, s[n]) == cmp(s[n], x).Reverse();
      SortedSnoc(Insert(s[..n], x, cmp), s[n], cmp);
    }
  }

  lemma LastBelow<T(!new)>(s: seq<T>, x: T, cmp: (T, T) -> Cmp)
    requires Lawful(cmp) && Sorted(s, cmp) && (s != [] ==> cmp(s[|s| - 1], x) != Greater)
    ensures forall i :: 0 <= i < |s| ==> cmp(s[i], x) != Greater
  {
    forall i | 0 <= i < |s| ensures cmp(s[i], x) != Greater
    {
      assert Chain(cmp(s[i], s[|s| - 1]), cmp(s[|s| - 1], x), cmp(s[i], x));
    }
  }

  lemma SortedSnoc<T>(r: seq<T>, y: T, cmp: (T, T) -> Cmp)
    requires Sorted(r, cmp) && forall z :: z in r ==> cmp(z, y) != Greater
    ensures Sorted(r + [y], cmp)
  {
  }

  lemma {:induction false} InsertIsStable<T(!new)>(s: seq<T>, x: T, cmp: (T, T) -> Cmp, y: T)
    requires Lawful(cmp)
    ensures Peers(Insert(s, x, cmp), cmp, y) == Peers(s, cmp, y) + (if cmp(y, x) == Equal then [x] else [])
  {
    if s == [] || cmp(s[|s| - 1], x) != Greater {
      PeersSnoc(s, x, cmp, y);
    } else {
      var n := |s| - 1;
      InsertIsStable(s[..n], x, cmp, y);
      PeersSnoc(Insert(s[..n], x, cmp), s[n], cmp, y);
      assert s == s[..n] + [s[n]];
      PeersSnoc(s[..n], s[n], cmp, y);
      assert Chain(cmp(y, s[n]), cmp(s[n], x), cmp(y, x));
    }
  }

  lemma PeersSnoc<T>(s: seq<T>, x: T, cmp: (T, T) -> Cmp, y: T)
    ensures Peers(s + [x], cmp, y) == Peers(s, cmp, y) + (if cmp(y, x) == Equal then [x] else [])
  {
    assert (s + [x])[..|s|] == s;
  }

  lemma {:induction false} StableSortSorts<T(!new)>(s: seq<T>, cmp: (T, T) -> Cmp)
    requires Lawful(cmp)
    ensures Sorted(StableSort(s, cmp), cmp)
    ensures StableRearrangement(s, StableSort(s, cmp), cmp)
  {
    if s != [] {
      var n := |s| - 1;
      assert s == s[..n] + [s[n]];
      StableSortSorts(s[..n], cmp);
      InsertSorts(StableSort(s[..n], cmp), s[n], cmp);
      forall y ensures Peers(s, cmp, y) == Peers(StableSort(s, cmp), cmp, y)
      {
        InsertIsStable(StableSort(s[..n], cmp), s[n], cmp, y);
        PeersSnoc(s[..n], s[n], cmp, y);
      }
    }
  }

  /** Sorted sequences whose classes agree are the same sequence. */
  lemma {:induction false} SortedIsUnique<T(!new)>(s: seq<T>, t: seq<T>, cmp: (T, T) -> Cmp)
    requires Lawful(cmp) && Sorted(s, cmp) && Sorted(t, cmp)
    requires forall x :: Peers(s, cmp, x) == Peers(t, cmp, x)
    ensures s == t
  {
    NonEmptyTogether(s, t, cmp);
    NonEmptyTogether(t, s, cmp);
    if s != [] {
      var m, n := |s| - 1, |t| - 1;
      var a, b := s[m], t[n];
      LastNotGreater(s, t, cmp);
      LastNotGreater(t, s, cmp);
      assert cmp(b, a) == cmp(a, b).Reverse();
      LastPeer(s, cmp);
      LastPeer(t, cmp);
      assert s[..m] + [a] == s && t[..n] + [b] == t;
      PeersSnoc(s[..m], a, cmp, a);
      PeersSnoc(t[..n], b, cmp, a);
      assert Peers(s, cmp, a) == Peers(t, cmp, a);
      SnocInjective(Peers(s[..m], cmp, a), a, Peers(t[..n], cmp, a), b);
      forall x ensures Peers(s[..m], cmp, x) == Peers(t[..n], cmp, x)
      {
        PeersSnoc(s[..m], a, cmp, x);
        PeersSnoc(t[..n], b, cmp, x);
        assert Peers(s, cmp, x) == Peers(t, cmp, x);
        if cmp(x, a) == Equal {
          SnocInjective(Peers(s[..m], cmp, x), a, Peers(t[..n], cmp, x), a);
        } else {
          assert Peers(s, cmp, x) == Peers(s[..m], cmp, x);
        }
      }
      SortedIsUnique(s[..m], t[..n], cmp);
    }
  }

  lemma NonEmptyTogether<T(!new)>(s: seq<T>, t: seq<T>, cmp: (T, T) -> Cmp)
    requires Lawful(cmp) && forall x :: Peers(s, cmp, x) == Peers(t, cmp, x)
    ensures s != [] ==> t != []
  {
    if s != [] {
      LastPeer(s, cmp);
      assert Peers(t, cmp, s[|s| - 1]) == Peers(s, cmp, s[|s| - 1]);
      assert |Peers(t, cmp, s[|s| - 1])| <= |t|;
    }
  }

  lemma SnocInjective<T>(p: seq<T>, x: T, q: seq<T>, y: T)
    requires p + [x] == q + [y]
    ensures p == q && x == y
  {
    assert |p + [x]| == |q + [y]|;
    assert (p + [x])[..|p|] == p && (q + [y])[..|q|] == q;
    assert (p + [x])[|p|] == x && (q + [y])[|q|] == y;
  }

  lemma LastPeer<T(!new)>(s: seq<T>, cmp: (T, T) -> Cmp)
    requires Lawful(cmp) && s != []
    ensures cmp(s[|s| - 1], s[|s| - 1]) == Equal
    ensures Peers(s, cmp, s[|s| - 1]) != []
  {
    var a := s[|s| - 1];
    assert cmp(a, a) == cmp(a, a).Reverse();
  }

  /** The last element of one is at most the last element of the other. */
  lemma LastNotGreater<T(!new)>(s: seq<T>, t: seq<T>, cmp: (T, T) -> Cmp)
    requires Lawful(cmp) && Sorted(t, cmp) && s != [] && t != []
    requires forall x :: Peers(s, cmp, x) == Peers(t, cmp, x)
    ensures cmp(s[|s| - 1], t[|t| - 1]) != Greater
  {
    var a, b := s[|s| - 1], t[|t| - 1];
    LastPeer(s, cmp);
    assert cmp(b, b) == cmp(b, b).Reverse();
    var p := Peers(t, cmp, a);
    assert p == Peers(s, cmp, a);
    FilterMember(t, y => cmp(a, y) == Equal, p[0]);
    var j :| 0 <= j < |t| && t[j] == p[0];
    assert Chain(cmp(a, t[j]), cmp(t[j], b), cmp(a, b));
  }

  /** A stable sort has only one possible result. */
  lemma StableSortUnique<T(!new)>(s: seq<T>, t: seq<T>, cmp: (T, T) -> Cmp)
    requires Lawful(cmp) && Sorted(t, cmp) && StableRearrangement(s, t, cmp)
    ensures t == StableSort(s, cmp)
  {
    StableSortSorts(s, cmp);
    SortedIsUnique(t, StableSort(s, cmp), cmp);
  }

  // ----- strictly ascending sequences -----

  ghost predicate Ascending<T>(s: seq<T>, cmp: (T, T) -> Cmp)
  {
    forall i, j :: 0 <= i < j < |s| ==> cmp(s[i], s[j]) == Less
  }

  lemma {:induction false} InsertMember<T>(s: seq<T>, x: T, cmp: (T, T) -> Cmp, y: T)
    ensures y in Insert(s, x, cmp) <==> y in s || y == x
  {
    if s != [] && cmp(s[|s| - 1], x) == Greater {
      InsertMember(s[..|s| - 1], x, cmp, y);
      assert s == s[..|s| - 1] + [s[|s| - 1]];
    }
  }

  lemma {:induction false} InsertAscending<T(!new)>(s: seq<T>, x: T, cmp: (T, T) -> Cmp)
    requires Lawful(cmp) && Ascending(s, cmp) && forall y :: y in s ==> cmp(y, x) != Equal
    ensures Ascending(Insert(s, x, cmp), cmp)
  {
    if s == [] || cmp(s[|s| - 1], x) != Greater {
      forall i | 0 <= i < |s| ensures cmp(s[i], x) == Less
      {
        assert s[i] in s && s[|s| - 1] in s;
        assert Chain(cmp(s[i], s[|s| - 1]), cmp(s[|s| - 1], x), cmp(s[i], x));
      }
    } else {
      var n := |s| - 1;
      InsertAscending(s[..n], x, cmp);
      var r := Insert(s[..n], x, cmp);
      forall i | 0 <= i < |r| ensures cmp(r[i], s[n]) == Less
      {
        InsertMember(s[..n], x, cmp, r[i]);
        assert cmp(x, s[n]) == cmp(s[n], x).Reverse();
      }
    }
  }

  lemma {:induction false} SortMember<T>(s: seq<T>, cmp: (T, T) -> Cmp, y: T)
    ensures y in StableSort(s, cmp) <==> y in s
  {
    if s != [] {
      SortMember(s[..|s| - 1], cmp, y);
      InsertMember(StableSort(s[..|s| - 1], cmp), s[|s| - 1], cmp, y);
      assert s == s[..|s| - 1] + [s[|s| - 1]];
    }
  }

  /** Sorting pairwise different elements leaves a strictly ascending sequence. */
  lemma {:induction false} SortAscending<T(!new)>(s: seq<T>, cmp: (T, T) -> Cmp)
    requires Lawful(cmp) && forall i, j :: 0 <= i < j < |s| ==> cmp(s[i], s[j]) != Equal
    ensures Ascending(StableSort(s, cmp), cmp)
  {
    if s != [] {
      var n := |s| - 1;
      SortAscending(s[..n], cmp);
      forall y | y in StableSort(s[..n], cmp) ensures cmp(y, s[n]) != Equal
      {
        SortMember(s[..n], cmp, y);
      }
      InsertAscending(StableSort(s[..n], cmp), s[n], cmp);
    }
  }

  /** A strictly ascending sequence is determined by its elements. */
  lemma {:induction false} AscendingIsUnique<T(!new)>(s: seq<T>, t: seq<T>, cmp: (T, T) -> Cmp)
    requires Lawful(cmp) && Ascending(s, cmp) && Ascending(t, cmp)
    requires forall x :: x in s <==> x in t
    ensures s == t
  {
    if s == [] {
      NonEmptyHasMember(t);
    } else {
      assert s[0] in t;
      var m, n := |s| - 1, |t| - 1;
      LastIsGreatest(s, t, cmp);
      FrontMembers(s, cmp);
      FrontMembers(t, cmp);
      forall x ensures x in s[..m] <==> x in t[..n]
      {
        assert x in s <==> x in t;
      }
      AscendingIsUnique(s[..m], t[..n], cmp);
      assert s == s[..m] + [s[m]] && t == t[..n] + [t[n]];
    }
  }

  lemma FrontMembers<T(!new)>(s: seq<T>, cmp: (T, T) -> Cmp)
    requires Lawful(cmp) && Ascending(s, cmp) && s != []
    ensures Ascending(s[..|s| - 1], cmp)
    ensures forall x :: x in s[..|s| - 1] <==> x in s && x != s[|s| - 1]
  {
    LastOnlyLast(s, cmp);
    assert s == s[..|s| - 1] + [s[|s| - 1]];
  }

  lemma LastOnlyLast<T(!new)>(s: seq<T>, cmp: (T, T) -> Cmp)
    requires Lawful(cmp) && Ascending(s, cmp) && s != []
    ensures s[|s| - 1] !in s[..|s| - 1]
  {
    var a := s[|s| - 1];
    assert cmp(a, a) == cmp(a, a).Reverse();
  }

  lemma LastIsGreatest<T(!new)>(s: seq<T>, t: seq<T>, cmp: (T, T) -> Cmp)
    requires Lawful(cmp) && Ascending(s, cmp) && Ascending(t, cmp) && s != [] && t != []
    requires forall x :: x in s <==> x in t
    ensures s[|s| - 1] == t[|t| - 1]
  {
    var a, b := s[|s| - 1], t[|t| - 1];
    assert a in s && b in t;
    assert a in t && b in s;
    assert cmp(b, a) == cmp(a, b).Reverse();
  }

  lemma {:induction false} FilterAscending<T>(s: seq<T>, cmp: (T, T) -> Cmp, p: T -> bool)
    requires Ascending(s, cmp)
    ensures Ascending(Filter(s, p), cmp)
  {
    if s != [] {
      var n := |s| - 1;
      FilterAscending(s[..n], cmp, p);
      var r := Filter(s[..n], p);
      forall i | 0 <= i < |r| ensures cmp(r[i], s[n]) == Less
      {
        FilterMember(s[..n], p, r[i]);
      }
    }
  }
}
