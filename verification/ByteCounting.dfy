/** A recency list with the saturating byte counter of the cache, as functions on values. */
module ByteCounting {
  import opened Common
  import opened Recency

  const USIZE_MAX: nat := 0xffff_ffff_ffff_ffff

  function SaturatingSub(a: nat, b: nat): nat { if b <= a then a - b else 0 }

  function SaturatingAdd(a: nat, b: nat): nat { if a + b <= USIZE_MAX then a + b else USIZE_MAX }

  /** A recency list and what the cache believes its bytes to be. */
  datatype Counted<+M> = Counted(lru: seq<Slot<M>>, total: nat)

  /** The bytes the counter has lost. */
  function Short<M>(c: Counted<M>): int
  {
    Bytes(c.lru) - c.total
  }

  ghost predicate Exact<M>(c: Counted<M>)
  {
    Short(c) == 0
  }

  /** The counter fits a machine word and never overstates the list. */
  ghost predicate Bounded<M>(c: Counted<M>)
  {
    Short(c) >= 0 && c.total <= USIZE_MAX
  }

  /** Some slots gone, their bytes subtracted. */
  function Shrunk<M>(c: Counted<M>, kept: seq<Slot<M>>): Counted<M>
  {
    Counted(kept, SaturatingSub(c.total, SaturatingSub(Bytes(c.lru), Bytes(kept))))
  }

  function Popped<M>(c: Counted<M>, key: CacheKey): Counted<M>
  {
    Shrunk(c, Without(c.lru, key))
  }

  function WithoutLast<M>(c: Counted<M>): Counted<M>
    requires c.lru != []
  {
    Shrunk(c, c.lru[..|c.lru| - 1])
  }

  /** Room for one more entry. */
  function MadeRoom<M>(c: Counted<M>, maxEntries: nat): Counted<M>
  {
    if c.lru != [] && |c.lru| == maxEntries then WithoutLast(c) else c
  }

  function Pushed<M>(c: Counted<M>, s: Slot<M>): Counted<M>
  {
    Counted([s] + c.lru, SaturatingAdd(c.total, s.bytes))
  }

  function Trimmed<M>(c: Counted<M>, maxBytes: nat): Counted<M>
    decreases |c.lru|
  {
    if c.total > maxBytes && |c.lru| > 1 then Trimmed(WithoutLast(c), maxBytes) else c
  }

  function PutCounted<M>(c: Counted<M>, s: Slot<M>, maxEntries: nat, maxBytes: nat): Counted<M>
  {
    Trimmed(Pushed(MadeRoom(Popped(c, s.key), maxEntries), s), maxBytes)
  }

  function TouchCounted<M>(c: Counted<M>, key: CacheKey): Counted<M>
  {
    Counted(Touched(c.lru, key), c.total)
  }

  function Invalidated<M>(c: Counted<M>, appId: string): Counted<M>
  {
    Shrunk(c, WithoutApp(c.lru, appId))
  }

  /** Puts from the first entry to the last. */
  function PutAll<M>(c: Counted<M>, entries: seq<(CacheKey, M)>, maxEntries: nat, maxBytes: nat,
                     estimate: M -> nat): Counted<M>
  {
    if entries == [] then c
    else
      var n := |entries| - 1;
      var (key, manifests) := entries[n];
      PutCounted(PutAll(c, entries[..n], maxEntries, maxBytes, estimate), Slot(key, manifests, estimate(manifests)),
                 maxEntries, maxBytes)
  }

  // ----- how much the counter loses -----

  /** Removing slots loses nothing more, and forgives what exceeds the rest. */
  lemma ShrunkShort<M>(c: Counted<M>, kept: seq<Slot<M>>)
    requires Bounded(c) && Bytes(kept) <= Bytes(c.lru)
    ensures Bounded(Shrunk(c, kept)) && Shrunk(c, kept).total <= c.total
    ensures Short(Shrunk(c, kept)) == if Short(c) <= Bytes(kept) then Short(c) else Bytes(kept)
  {
  }

  lemma BytesFront<M>(s: Slot<M>, l: seq<Slot<M>>)
    ensures Bytes([s] + l) == s.bytes + Bytes(l)
  {
    BytesAppend([s], l);
    assert [s][..0] == [];
  }

  lemma BytesPrefix<M>(l: seq<Slot<M>>, all: seq<Slot<M>>)
    requires l <= all
    ensures Bytes(l) <= Bytes(all)
  {
    BytesMonotone(all, |l|, |all|);
    assert all[..|l|] == l && all[..|all|] == all;
  }

  lemma PoppedShort<M>(c: Counted<M>, key: CacheKey)
    requires Bounded(c)
    ensures Bounded(Popped(c, key)) && Short(Popped(c, key)) <= Short(c)
  {
    FilterBytes(c.lru, (s: Slot<M>) => s.key != key);
    ShrunkShort(c, Without(c.lru, key));
  }

  lemma RoomShort<M>(c: Counted<M>, maxEntries: nat)
    requires Bounded(c) && |c.lru| <= maxEntries && maxEntries > 0
    ensures var r := MadeRoom(c, maxEntries);
            Bounded(r) && r.lru <= c.lru && |r.lru| < maxEntries && Short(r) <= Short(c)
  {
    if c.lru != [] && |c.lru| == maxEntries {
      BytesPrefix(c.lru[..|c.lru| - 1], c.lru);
      ShrunkShort(c, c.lru[..|c.lru| - 1]);
    }
  }

  /** A push loses exactly what does not fit the machine word. */
  lemma PushedShort<M>(c: Counted<M>, s: Slot<M>)
    requires Bounded(c)
    ensures var p := Pushed(c, s);
            && Bounded(p) && Bytes(p.lru) == s.bytes + Bytes(c.lru)
            && Short(p) == if Short(c) >= Bytes(p.lru) - USIZE_MAX then Short(c) else Bytes(p.lru) - USIZE_MAX
  {
    BytesFront(s, c.lru);
  }

  lemma {:induction false} TrimmedShort<M>(c: Counted<M>, maxBytes: nat)
    requires Bounded(c)
    ensures var t := Trimmed(c, maxBytes);
            && Bounded(t) && t.lru <= c.lru && Short(t) <= Short(c)
            && (t.total <= maxBytes || |t.lru| <= 1) && (c.lru != [] ==> t.lru != [])
    decreases |c.lru|
  {
    if c.total > maxBytes && |c.lru| > 1 {
      BytesPrefix(c.lru[..|c.lru| - 1], c.lru);
      ShrunkShort(c, c.lru[..|c.lru| - 1]);
      TrimmedShort(WithoutLast(c), maxBytes);
    }
  }

  /** An exact counter trims to the longest run of slots that fits. */
  lemma {:induction false} TrimmedExactly<M>(c: Counted<M>, maxBytes: nat)
    requires Bounded(c) && Exact(c)
    ensures Exact(Trimmed(c, maxBytes)) && Trimmed(c, maxBytes).lru == TrimTo(c.lru, |c.lru|, maxBytes)
    decreases |c.lru|
  {
    var n := |c.lru|;
    assert c.lru[..n] == c.lru;
    if c.total > maxBytes && n > 1 {
      BytesPrefix(c.lru[..n - 1], c.lru);
      ShrunkShort(c, c.lru[..n - 1]);
      TrimmedExactly(WithoutLast(c), maxBytes);
      TrimOfPrefix(c.lru, n - 1, n - 1, maxBytes);
    }
  }

  lemma {:induction false} TrimOfPrefix<M>(l: seq<Slot<M>>, m: nat, n: nat, maxBytes: nat)
    requires n <= m <= |l|
    ensures TrimTo(l[..m], n, maxBytes) == TrimTo(l, n, maxBytes)
  {
    assert l[..m][..n] == l[..n];
    if n > 1 {
      TrimOfPrefix(l, m, n - 1, maxBytes);
    }
  }

  /** What a push lost, trimming does not give back. */
  lemma {:induction false} TrimmedInexactly<M>(c: Counted<M>, maxBytes: nat)
    requires Bounded(c) && c.lru != [] && 0 < Short(c) <= c.lru[0].bytes
    ensures !Exact(Trimmed(c, maxBytes))
    decreases |c.lru|
  {
    var n := |c.lru|;
    if c.total > maxBytes && n > 1 {
      BytesPrefix(c.lru[..n - 1], c.lru);
      FirstBytes(c.lru[..n - 1]);
      ShrunkShort(c, c.lru[..n - 1]);
      TrimmedInexactly(WithoutLast(c), maxBytes);
    }
  }

  lemma FirstBytes<M>(l: seq<Slot<M>>)
    requires l != []
    ensures l[0].bytes <= Bytes(l)
  {
    BytesFront(l[0], l[1..]);
    assert [l[0]] + l[1..] == l;
  }

  // ----- one insertion -----

  /** What holds of the cache between operations. */
  ghost predicate Sound<M>(c: Counted<M>, maxEntries: nat, maxBytes: nat)
  {
    && Bounded(c) && DistinctKeys(c.lru) && |c.lru| <= maxEntries
    && (c.total <= maxBytes || |c.lru| <= 1)
  }

  /** The list before trimming by bytes. */
  function Roomy<M>(l: seq<Slot<M>>, s: Slot<M>, maxEntries: nat): seq<Slot<M>>
  {
    var full := [s] + Without(l, s.key);
    full[..Min(|full|, maxEntries)]
  }

  lemma PushedIsRoomy<M>(c: Counted<M>, s: Slot<M>, maxEntries: nat)
    requires |c.lru| <= maxEntries && maxEntries > 0
    ensures Pushed(MadeRoom(Popped(c, s.key), maxEntries), s).lru == Roomy(c.lru, s, maxEntries)
  {
    var rest := Without(c.lru, s.key);
    if rest != [] && |rest| == maxEntries {
      assert ([s] + rest)[..maxEntries] == [s] + rest[..|rest| - 1];
    } else {
      assert ([s] + rest)[..|rest| + 1] == [s] + rest;
    }
  }

  /** Any put: the new slot is kept in front, the survivors are a run of the most recent
      slots, and the counter never overstates them. */
  lemma PutIsSound<M>(c: Counted<M>, s: Slot<M>, maxEntries: nat, maxBytes: nat)
    requires Sound(c, maxEntries, maxBytes) && maxEntries > 0
    ensures var r := PutCounted(c, s, maxEntries, maxBytes);
            Sound(r, maxEntries, maxBytes) && r.lru != [] && r.lru <= [s] + Without(c.lru, s.key)
  {
    var room := MadeRoom(Popped(c, s.key), maxEntries);
    PutBounded(c, s, maxEntries);
    PushedIsRoomy(c, s, maxEntries);
    TrimmedShort(Pushed(room, s), maxBytes);
    FrontDistinct(s, c.lru);
  }

  lemma PutBounded<M>(c: Counted<M>, s: Slot<M>, maxEntries: nat)
    requires Bounded(c) && |c.lru| <= maxEntries && maxEntries > 0
    ensures var room := MadeRoom(Popped(c, s.key), maxEntries);
            Bounded(room) && Short(room) <= Short(c) && Bounded(Pushed(room, s))
  {
    PoppedShort(c, s.key);
    RoomShort(Popped(c, s.key), maxEntries);
    PushedShort(MadeRoom(Popped(c, s.key), maxEntries), s);
  }

  /** An exact counter stays exact if and only if the entries to be trimmed fit a machine
      word together; and while it is, the survivors are the longest run that fits the caps. */
  lemma PutExactIff<M>(c: Counted<M>, s: Slot<M>, maxEntries: nat, maxBytes: nat)
    requires Sound(c, maxEntries, maxBytes) && maxEntries > 0 && Exact(c)
    ensures var r := PutCounted(c, s, maxEntries, maxBytes);
            && (Exact(r) <==> Bytes(Roomy(c.lru, s, maxEntries)) <= 0xffff_ffff_ffff_ffff)
            && (Exact(r) ==> r.lru == PutInto(c.lru, s, maxEntries, maxBytes))
  {
    var room := MadeRoom(Popped(c, s.key), maxEntries);
    var p := Pushed(room, s);
    PutBounded(c, s, maxEntries);
    PushedIsRoomy(c, s, maxEntries);
    PushedShort(room, s);
    if Bytes(p.lru) <= USIZE_MAX {
      TrimmedExactly(p, maxBytes);
      TrimOfPrefix([s] + Without(c.lru, s.key), |p.lru|, |p.lru|, maxBytes);
    } else {
      TrimmedInexactly(p, maxBytes);
    }
  }

  /** All that a put of `s` promises: the new slot in front of a run of the most recent ones,
      and the two halves of `PutExactIff`. */
  ghost predicate PutResult<M>(before: Counted<M>, after: Counted<M>, s: Slot<M>, maxEntries: nat, maxBytes: nat)
  {
    && after == PutCounted(before, s, maxEntries, maxBytes)
    && after.lru != [] && after.lru <= [s] + Without(before.lru, s.key)
    && (Exact(before) ==>
          && (Exact(after) <==> Bytes(Roomy(before.lru, s, maxEntries)) <= USIZE_MAX)
          && (Exact(after) ==> after.lru == PutInto(before.lru, s, maxEntries, maxBytes)))
  }

  lemma PutKeepsPromise<M>(c: Counted<M>, s: Slot<M>, maxEntries: nat, maxBytes: nat)
    requires Sound(c, maxEntries, maxBytes) && maxEntries > 0
    ensures PutResult(c, PutCounted(c, s, maxEntries, maxBytes), s, maxEntries, maxBytes)
    ensures Sound(PutCounted(c, s, maxEntries, maxBytes), maxEntries, maxBytes)
  {
    PutIsSound(c, s, maxEntries, maxBytes);
    if Exact(c) {
      PutExactIff(c, s, maxEntries, maxBytes);
    }
  }

  lemma PutBytes<M>(c: Counted<M>, s: Slot<M>, maxEntries: nat, maxBytes: nat)
    requires Sound(c, maxEntries, maxBytes) && maxEntries > 0
    ensures Bytes(PutCounted(c, s, maxEntries, maxBytes).lru) <= Bytes(c.lru) + s.bytes
    ensures Bytes(Roomy(c.lru, s, maxEntries)) <= Bytes(c.lru) + s.bytes
  {
    var full := [s] + Without(c.lru, s.key);
    PutIsSound(c, s, maxEntries, maxBytes);
    BytesPrefix(PutCounted(c, s, maxEntries, maxBytes).lru, full);
    BytesPrefix(Roomy(c.lru, s, maxEntries), full);
    BytesFront(s, Without(c.lru, s.key));
    FilterBytes(c.lru, (x: Slot<M>) => x.key != s.key);
  }

  function TotalEstimate<M>(entries: seq<(CacheKey, M)>, estimate: M -> nat): nat
  {
    if entries == [] then 0 else TotalEstimate(entries[..|entries| - 1], estimate) + estimate(entries[|entries| - 1].1)
  }

  /** A sequence of puts whose estimates fit a machine word together keeps the counter exact. */
  lemma {:induction false} PutAllExact<M>(c: Counted<M>, entries: seq<(CacheKey, M)>, maxEntries: nat, maxBytes: nat,
                                         estimate: M -> nat)
    requires Sound(c, maxEntries, maxBytes) && maxEntries > 0
    ensures var r := PutAll(c, entries, maxEntries, maxBytes, estimate);
            && Sound(r, maxEntries, maxBytes)
            && Bytes(r.lru) <= Bytes(c.lru) + TotalEstimate(entries, estimate)
            && (Exact(c) && Bytes(c.lru) + TotalEstimate(entries, estimate) <= USIZE_MAX ==> Exact(r))
  {
    if entries != [] {
      var n := |entries| - 1;
      var before := PutAll(c, entries[..n], maxEntries, maxBytes, estimate);
      var s := Slot(entries[n].0, entries[n].1, estimate(entries[n].1));
      PutAllExact(c, entries[..n], maxEntries, maxBytes, estimate);
      PutIsSound(before, s, maxEntries, maxBytes);
      PutBytes(before, s, maxEntries, maxBytes);
      if Exact(before) {
        PutExactIff(before, s, maxEntries, maxBytes);
      }
    }
  }

  // ----- the other operations -----

  lemma TouchKeeps<M>(l: seq<Slot<M>>, key: CacheKey)
    requires DistinctKeys(l)
    ensures DistinctKeys(Touched(l, key)) && |Touched(l, key)| == |l| && Bytes(Touched(l, key)) == Bytes(l)
  {
    match Lookup(l, key)
    case Some(s) =>
      var rest := Without(l, key);
      WithoutOne(l, key);
      BytesFront(s, rest);
      FrontDistinct(s, l);
    case None =>
  }

  lemma FrontDistinct<M>(s: Slot<M>, l: seq<Slot<M>>)
    requires DistinctKeys(l)
    ensures DistinctKeys([s] + Without(l, s.key))
  {
    var p := (x: Slot<M>) => x.key != s.key;
    var rest := Without(l, s.key);
    FilterKeepsDistinct(l, p);
    forall i | 0 <= i < |rest| ensures rest[i].key != s.key
    {
      FilterMember(l, p, rest[i]);
    }
  }

  lemma InvalidatedIsSound<M>(c: Counted<M>, appId: string, maxEntries: nat, maxBytes: nat)
    requires Sound(c, maxEntries, maxBytes)
    ensures Sound(Invalidated(c, appId), maxEntries, maxBytes)
    ensures Short(Invalidated(c, appId)) <= Short(c)
  {
    var p := (s: Slot<M>) => s.key.appId != appId;
    FilterBytes(c.lru, p);
    FilterKeepsDistinct(c.lru, p);
    ShrunkShort(c, WithoutApp(c.lru, appId));
  }
}
