/** The app-level render cache: an LRU bounded by entries and by bytes. */
module AppCaching {
  import opened Common
  import opened Recency
  import opened ByteCounting

  datatype Stats = Stats(hits: nat, misses: nat, evictions: nat, invalidations: nat, entries: nat, bytes: nat)

  class AppCache<M> {
    /** The LRU list, most recently used first. */
    var lru: seq<Slot<M>>
    var totalBytes: nat
    var hits: nat
    var misses: nat
    var evictions: nat
    var invalidations: nat
    const maxEntries: nat
    const maxBytes: nat
    const estimate: M -> nat

    /** Bookkeeping the source does not have: calls of `Put`, replaced and cleared slots. */
    ghost var puts: nat
    ghost var overwrites: nat
    ghost var cleared: nat

    ghost function State(): Counted<M>
      reads this
    {
      Counted(lru, totalBytes)
    }

    /** The caps hold of the counter, which never overstates the list, and every slot ever
        put is accounted for. */
    ghost predicate Valid()
      reads this
    {
      && maxEntries > 0
      && Sound(State(), maxEntries, maxBytes)
      && puts == |lru| + overwrites + evictions + invalidations + cleared
    }

    constructor (maxEntries: nat, maxBytes: nat, estimate: M -> nat)
      ensures Valid() && State() == Counted([], 0) && hits == 0 && misses == 0
      ensures this.maxEntries == (if maxEntries > 0 then maxEntries else 1)
      ensures this.maxBytes == maxBytes && this.estimate == estimate
    {
      this.maxEntries := if maxEntries > 0 then maxEntries else 1;
      this.maxBytes := maxBytes;
      this.estimate := estimate;
      lru, totalBytes := [], 0;
      hits, misses, evictions, invalidations := 0, 0, 0, 0;
      puts, overwrites, cleared := 0, 0, 0;
    }

    method Get(key: CacheKey) returns (r: Option<M>)
      requires Valid()
      modifies this
      ensures Valid()
      ensures r == match Recency.Lookup(old(lru), key) case Some(s) => Some(s.manifests) case None => None
      ensures State() == TouchCounted(old(State()), key) && Short(State()) == Short(old(State()))
      ensures hits + misses == old(hits) + old(misses) + 1
      ensures hits == old(hits) + if r.Some? then 1 else 0
      ensures puts == old(puts) && evictions == old(evictions) && invalidations == old(invalidations)
      ensures overwrites == old(overwrites) && cleared == old(cleared)
    {
      TouchKeeps(lru, key);
      match Recency.Lookup(lru, key) {
        case Some(s) =>
          hits := hits + 1;
          lru := [s] + Without(lru, key);
          r := Some(s.manifests);
        case None =>
          misses := misses + 1;
          r := None;
      }
    }

    /** Insert or replace. While the counter is exact the survivors are the longest most-recent
        run that fits, and it stays exact if and only if the bytes fit a machine word. */
    method Put(key: CacheKey, manifests: M) returns (stored: M)
      requires Valid()
      modifies this
      ensures Valid() && stored == manifests
      ensures PutResult(old(State()), State(), Slot(key, manifests, estimate(manifests)), maxEntries, maxBytes)
      ensures puts == old(puts) + 1 && hits == old(hits) && misses == old(misses)
      ensures overwrites == old(overwrites) + |old(lru)| - |Without(old(lru), key)|
      ensures evictions == old(evictions) + 1 + |Without(old(lru), key)| - |lru|
      ensures invalidations == old(invalidations) && cleared == old(cleared)
    {
      var s := Slot(key, manifests, estimate(manifests));
      PutKeepsPromise(State(), s, maxEntries, maxBytes);
      puts := puts + 1;
      PopKey(key);
      PushFront(s);
      TrimByBytes();
      stored := manifests;
    }

    method PopKey(key: CacheKey)
      requires DistinctKeys(lru)
      modifies `lru, `totalBytes, `overwrites
      ensures State() == Popped(old(State()), key)
      ensures overwrites + |lru| == old(overwrites) + |old(lru)| && |lru| <= |old(lru)|
    {
      WithoutOne(lru, key);
      match Recency.Lookup(lru, key) {
        case Some(old_) =>
          overwrites := overwrites + 1;
          totalBytes := SaturatingSub(totalBytes, old_.bytes);
          lru := Without(lru, key);
        case None =>
      }
    }

    /** The list library's push: at the entry cap, the least recent slot makes room. */
    method PushFront(s: Slot<M>)
      requires 0 < maxEntries && |lru| <= maxEntries
      modifies `lru, `totalBytes, `evictions
      ensures State() == Pushed(MadeRoom(old(State()), maxEntries), s)
      ensures evictions + |lru| == old(evictions) + |old(lru)| + 1
    {
      if |lru| == maxEntries {
        var last := lru[|lru| - 1];
        evictions := evictions + 1;
        totalBytes := SaturatingSub(totalBytes, last.bytes);
        lru := lru[..|lru| - 1];
      }
      totalBytes := SaturatingAdd(totalBytes, s.bytes);
      lru := [s] + lru;
    }

    /** Evict from the back while over the byte cap, never the last slot. */
    method TrimByBytes()
      modifies `lru, `totalBytes, `evictions
      ensures State() == Trimmed(old(State()), maxBytes)
      ensures evictions + |lru| == old(evictions) + |old(lru)|
    {
      while totalBytes > maxBytes && |lru| > 1
        invariant Trimmed(State(), maxBytes) == Trimmed(old(State()), maxBytes)
        invariant evictions + |lru| == old(evictions) + |old(lru)|
        decreases |lru|
      {
        var last := lru[|lru| - 1];
        evictions := evictions + 1;
        totalBytes := SaturatingSub(totalBytes, last.bytes);
        lru := lru[..|lru| - 1];
      }
    }

    method InvalidateApp(appId: string) returns (removed: nat)
      requires Valid()
      modifies this
      ensures Valid()
      ensures State() == Invalidated(old(State()), appId) && Short(State()) <= Short(old(State()))
      ensures removed == |old(lru)| - |lru| && invalidations == old(invalidations) + removed
      ensures hits == old(hits) && misses == old(misses) && puts == old(puts) && evictions == old(evictions)
      ensures overwrites == old(overwrites) && cleared == old(cleared)
    {
      InvalidatedIsSound(State(), appId, maxEntries, maxBytes);
      var kept, bytes;
      kept, bytes, removed := Scan(appId);
      lru, totalBytes, invalidations := kept, bytes, invalidations + removed;
    }

    /** Pop every slot of the app, one by one. */
    method Scan(appId: string) returns (kept: seq<Slot<M>>, bytes: nat, removed: nat)
      ensures Counted(kept, bytes) == Invalidated(State(), appId) && removed == |lru| - |kept|
    {
      kept, bytes, removed := [], totalBytes, 0;
      ghost var gone: nat := 0;
      for i := 0 to |lru|
        invariant kept == WithoutApp(lru[..i], appId) && removed + |kept| == i
        invariant gone + Bytes(kept) == Bytes(lru[..i]) && bytes == SaturatingSub(totalBytes, gone)
      {
        ScanStep(lru, i, appId);
        BytesSnoc(kept, lru[i]);
        if lru[i].key.appId == appId {
          removed := removed + 1;
          bytes := SaturatingSub(bytes, lru[i].bytes);
          gone := gone + lru[i].bytes;
        } else {
          kept := kept + [lru[i]];
        }
      }
      assert lru[..|lru|] == lru;
    }

    /** Load entries, least recent first. */
    method Warm(entries: seq<(CacheKey, M)>)
      requires Valid()
      modifies this
      ensures Valid() && hits == old(hits) && misses == old(misses) && puts == old(puts) + |entries|
      ensures State() == PutAll(old(State()), entries, maxEntries, maxBytes, estimate)
      ensures old(Exact(State())) && Bytes(old(lru)) + TotalEstimate(entries, estimate) <= USIZE_MAX ==> Exact(State())
    {
      PutAllExact(State(), entries, maxEntries, maxBytes, estimate);
      for i := 0 to |entries|
        invariant Valid() && hits == old(hits) && misses == old(misses) && puts == old(puts) + i
        invariant State() == PutAll(old(State()), entries[..i], maxEntries, maxBytes, estimate)
      {
        assert entries[..i + 1][..i] == entries[..i];
        var _ := Put(entries[i].0, entries[i].1);
      }
      assert entries[..|entries|] == entries;
    }

    /** An emptied cache counts exactly again. */
    method Clear()
      requires Valid()
      modifies this
      ensures Valid() && State() == Counted([], 0) && Exact(State())
      ensures hits == old(hits) && misses == old(misses) && evictions == old(evictions)
      ensures puts == old(puts) && overwrites == old(overwrites) && invalidations == old(invalidations)
      ensures cleared == old(cleared) + |old(lru)|
    {
      cleared := cleared + |lru|;
      lru, totalBytes := [], 0;
    }

    method GetStats() returns (s: Stats)
      requires Valid()
      ensures s == Stats(hits, misses, evictions, invalidations, |lru|, totalBytes)
      ensures s.bytes <= Bytes(lru) && (s.bytes <= maxBytes || s.entries <= 1)
      ensures s.bytes == Bytes(lru) <==> Exact(State())
    {
      s := Stats(hits, misses, evictions, invalidations, |lru|, totalBytes);
    }
  }

  // ----- helpers -----

  /** One more slot seen by the invalidation scan. */
  lemma ScanStep<M>(all: seq<Slot<M>>, i: nat, appId: string)
    requires i < |all|
    ensures WithoutApp(all[..i + 1], appId) ==
            WithoutApp(all[..i], appId) + (if all[i].key.appId != appId then [all[i]] else [])
    ensures Bytes(all[..i + 1]) == Bytes(all[..i]) + all[i].bytes && Bytes(all[..i + 1]) <= Bytes(all)
  {
    TakeSnoc(all, i);
    WithoutAppSnoc(all[..i], all[i], appId);
    BytesSnoc(all[..i], all[i]);
    BytesPrefix(all[..i + 1], all);
  }

  lemma WithoutAppSnoc<M>(l: seq<Slot<M>>, x: Slot<M>, appId: string)
    ensures WithoutApp(l + [x], appId) == WithoutApp(l, appId) + (if x.key.appId != appId then [x] else [])
  {
    assert (l + [x])[..|l|] == l;
  }
}
