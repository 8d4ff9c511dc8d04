/** Recency lists: what the bounded LRU cache keeps, as functions on sequences. */
module Recency {
  import opened Common

  datatype CacheKey = CacheKey(appId: string, commitHash: string, paramsHash: seq<nat>)

  /** A cached render and its estimated size. */
  datatype Slot<+M> = Slot(key: CacheKey, manifests: M, bytes: nat)

  function Bytes<M>(l: seq<Slot<M>>): nat
  {
    if l == [] then 0 else Bytes(l[..|l| - 1]) + l[|l| - 1].bytes
  }

  function Without<M>(l: seq<Slot<M>>, key: CacheKey): seq<Slot<M>>
  {
    Filter(l, (s: Slot<M>) => s.key != key)
  }

  function WithoutApp<M>(l: seq<Slot<M>>, appId: string): seq<Slot<M>>
  {
    Filter(l, (s: Slot<M>) => s.key.appId != appId)
  }

  function Lookup<M>(l: seq<Slot<M>>, key: CacheKey): (r: Option<Slot<M>>)
    ensures r.Some? ==> r.value in l && r.value.key == key
    ensures r.None? ==> forall s :: s in l ==> s.key != key
  {
    if l == [] then None
    else if l[|l| - 1].key == key then Some(l[|l| - 1])
    else Lookup(l[..|l| - 1], key)
  }

  /** The first `n` slots, then fewer until they fit in `maxBytes`, but at least one. */
  function TrimTo<M>(l: seq<Slot<M>>, n: nat, maxBytes: nat): seq<Slot<M>>
    requires n <= |l|
  {
    if n <= 1 || Bytes(l[..n]) <= maxBytes then l[..n] else TrimTo(l, n - 1, maxBytes)
  }

  /** What survives an insertion that produced the list `l`. */
  function Kept<M>(l: seq<Slot<M>>, maxEntries: nat, maxBytes: nat): seq<Slot<M>>
  {
    TrimTo(l, Min(|l|, maxEntries), maxBytes)
  }

  ghost predicate Fits<M>(l: seq<Slot<M>>, maxEntries: nat, maxBytes: nat)
  {
    |l| <= maxEntries && (Bytes(l) <= maxBytes || |l| <= 1)
  }

  lemma {:induction false} BytesMonotone<M>(l: seq<Slot<M>>, m: nat, n: nat)
    requires m <= n <= |l|
    ensures Bytes(l[..m]) <= Bytes(l[..n])
  {
    if m < n {
      BytesMonotone(l, m, n - 1);
      assert l[..n][..n - 1] == l[..n - 1];
    }
  }

  lemma {:induction false} TrimToIsLongest<M>(l: seq<Slot<M>>, n: nat, maxBytes: nat)
    requires n <= |l|
    ensures var k := |TrimTo(l, n, maxBytes)|;
            && k <= n && TrimTo(l, n, maxBytes) == l[..k]
            && (n > 0 ==> k > 0)
            && (Bytes(l[..k]) <= maxBytes || k <= 1)
            && forall m :: k < m <= n ==> Bytes(l[..m]) > maxBytes
  {
    if n > 1 && Bytes(l[..n]) > maxBytes {
      TrimToIsLongest(l, n - 1, maxBytes);
    }
  }

  /** The survivors are the longest prefix (so: the most recent slots) that fits both caps,
      never dropping the newest slot. */
  lemma KeptIsLongestFit<M>(l: seq<Slot<M>>, maxEntries: nat, maxBytes: nat)
    requires l != [] && maxEntries > 0
    ensures var kept := Kept(l, maxEntries, maxBytes);
            && kept != [] && kept <= l && Fits(kept, maxEntries, maxBytes)
            && forall p: seq<Slot<M>> {:trigger Fits(p, maxEntries, maxBytes)} ::
                 p <= l && Fits(p, maxEntries, maxBytes) ==> p <= kept
  {
    var n := Min(|l|, maxEntries);
    TrimToIsLongest(l, n, maxBytes);
    var kept := Kept(l, maxEntries, maxBytes);
    forall p: seq<Slot<M>> | p <= l && Fits(p, maxEntries, maxBytes)
      ensures p <= kept
    {
      assert p == l[..|p|];
      assert |p| <= |kept|;
      assert kept[..|p|] == l[..|p|];
    }
  }

  // ----- one operation -----

  /** A read moves the slot to the front. */
  function Touched<M>(l: seq<Slot<M>>, key: CacheKey): seq<Slot<M>>
  {
    match Lookup(l, key)
    case Some(s) => [s] + Without(l, key)
    case None => l
  }

  function PutInto<M>(l: seq<Slot<M>>, s: Slot<M>, maxEntries: nat, maxBytes: nat): seq<Slot<M>>
  {
    Kept([s] + Without(l, s.key), maxEntries, maxBytes)
  }

  ghost predicate DistinctKeys<M>(l: seq<Slot<M>>)
  {
    forall i, j :: 0 <= i < j < |l| ==> l[i].key != l[j].key
  }

  lemma {:induction false} FilterKeepsDistinct<M>(l: seq<Slot<M>>, p: Slot<M> -> bool)
    requires DistinctKeys(l)
    ensures DistinctKeys(Filter(l, p))
  {
    if l != [] {
      var n := |l| - 1;
      FilterKeepsDistinct(l[..n], p);
      var front := Filter(l[..n], p);
      forall i | 0 <= i < |front| ensures front[i].key != l[n].key
      {
        FilterMember(l[..n], p, front[i]);
      }
    }
  }

  lemma {:induction false} BytesAppend<M>(a: seq<Slot<M>>, b: seq<Slot<M>>)
    ensures Bytes(a + b) == Bytes(a) + Bytes(b)
  {
    if b == [] {
      assert a + b == a;
    } else {
      BytesAppend(a, b[..|b| - 1]);
      assert (a + b)[..|a + b| - 1] == a + b[..|b| - 1];
    }
  }

  /** Taking out one key takes out one slot, and its bytes. */
  lemma {:induction false} WithoutOne<M>(l: seq<Slot<M>>, key: CacheKey)
    requires DistinctKeys(l)
    ensures match Lookup(l, key)
            case None => Without(l, key) == l
            case Some(s) =>
              |Without(l, key)| == |l| - 1 && Bytes(Without(l, key)) == Bytes(l) - s.bytes && s.bytes <= Bytes(l)
  {
    if l != [] {
      var n := |l| - 1;
      WithoutOne(l[..n], key);
      if l[n].key == key {
        forall s | s in l[..n] ensures s.key != key
        {
          var i :| 0 <= i < n && l[i] == s;
        }
        FilterAll(l[..n], (s: Slot<M>) => s.key != key);
        assert Without(l, key) == l[..n];
      } else {
        BytesSnoc(Without(l[..n], key), l[n]);
        assert Without(l, key) == Without(l[..n], key) + [l[n]];
        assert l == l[..n] + [l[n]];
      }
    }
  }

  lemma BytesSnoc<M>(l: seq<Slot<M>>, s: Slot<M>)
    ensures Bytes(l + [s]) == Bytes(l) + s.bytes
  {
    assert (l + [s])[..|l|] == l;
  }

  lemma {:induction false} FilterBytes<M>(l: seq<Slot<M>>, p: Slot<M> -> bool)
    ensures Bytes(Filter(l, p)) <= Bytes(l)
  {
    if l != [] {
      var n := |l| - 1;
      FilterBytes(l[..n], p);
      BytesSnoc(Filter(l[..n], p), l[n]);
      assert Filter(l, p) == Filter(l[..n], p) + (if p(l[n]) then [l[n]] else []);
      assert Filter(l[..n], p) + [] == Filter(l[..n], p);
    }
  }
}
