/** The differ's entry points: server-managed fields are stripped from both bodies, then
    the trees are compared from the root. */
module ManifestDiff {
  import opened Common
  import opened Manifests
  import opened Yaml
  import opened ListMap
  import opened Compare
  import opened CompareSpec
  import opened CompareLaws
  import opened CompareLoops
  import opened EditScript

  // ----- stripping -----

  lemma {:induction false} RemoveEntryLookup(es: seq<Entry>, key: string, k: string)
    requires DistinctKeys(es)
    ensures DistinctKeys(RemoveEntry(es, key))
    ensures forall e :: e in RemoveEntry(es, key) ==> e in es
    ensures Lookup(RemoveEntry(es, key), k) == if k == key then None else Lookup(es, k)
  {
    if es != [] {
      if es[0].key == key {
        assert forall i :: 0 <= i < |es[1..]| ==> es[1..][i] == es[i + 1];
        assert Lookup(es[1..], key) == None;
      } else {
        RemoveEntryLookup(es[1..], key, k);
        var rest := RemoveEntry(es[1..], key);
        assert ([es[0]] + rest)[1..] == rest;
        forall i | 0 <= i < |rest| ensures rest[i].key != es[0].key
        {
          assert rest[i] in es[1..];
        }
      }
    }
  }

  lemma {:induction false} RemoveEntriesLookup(es: seq<Entry>, keys: seq<string>, k: string)
    requires DistinctKeys(es)
    ensures DistinctKeys(RemoveEntries(es, keys))
    ensures forall e :: e in RemoveEntries(es, keys) ==> e in es
    ensures Lookup(RemoveEntries(es, keys), k) == if k in keys then None else Lookup(es, k)
    decreases |keys|
  {
    if keys != [] {
      RemoveEntryLookup(es, keys[0], k);
      RemoveEntriesLookup(RemoveEntry(es, keys[0]), keys[1..], k);
    }
  }

  lemma {:induction false} ReplaceEntryLookup(es: seq<Entry>, key: string, v: Value, k: string)
    requires DistinctKeys(es)
    ensures |ReplaceEntry(es, key, v)| == |es|
    ensures forall i :: 0 <= i < |es| ==> ReplaceEntry(es, key, v)[i].key == es[i].key
    ensures forall e :: e in ReplaceEntry(es, key, v) ==> e in es || e.value == v
    ensures Lookup(ReplaceEntry(es, key, v), k) ==
            if k == key && Lookup(es, key).Some? then Some(v) else Lookup(es, k)
  {
    if es != [] {
      if es[0].key == key {
        assert ([Entry(key, v)] + es[1..])[1..] == es[1..];
      } else {
        ReplaceEntryLookup(es[1..], key, v, k);
        var rest := ReplaceEntry(es[1..], key, v);
        assert ([es[0]] + rest)[1..] == rest;
      }
    }
  }

  /** The metadata fields the API server keeps. */
  predicate OwnedByServer(field: string)
  {
    || field == "resourceVersion" || field == "uid" || field == "generation"
    || field == "creationTimestamp" || field == "managedFields" || field == "selfLink"
  }

  lemma ServerMetadataIs(field: string)
    ensures field in SERVER_METADATA <==> OwnedByServer(field)
  {
    assert SERVER_METADATA[0] == "resourceVersion" && SERVER_METADATA[1] == "uid" && SERVER_METADATA[2] == "generation";
    assert SERVER_METADATA[3] == "creationTimestamp" && SERVER_METADATA[4] == "managedFields";
    assert SERVER_METADATA[5] == "selfLink";
  }

  lemma StripLookups(es: seq<Entry>, k: string)
    requires Wf(Mapping(es))
    ensures Wf(StripExcluded(Mapping(es)))
    ensures StripExcluded(Mapping(es)).Mapping?
    ensures var after := Lookup(StripExcluded(Mapping(es)).entries, k);
            match Lookup(es, k)
            case None => after == None
            case Some(v) =>
              if k == "status" then after == None
              else if k == "metadata" && v.Mapping?
                then after.Some? && after.value.Mapping? &&
                     forall f :: Lookup(after.value.entries, f) ==
                                 if f in SERVER_METADATA then None else Lookup(v.entries, f)
              else after == Some(v)
  {
    var es' := es;
    match Lookup(es, "metadata") {
      case Some(Mapping(meta)) =>
        var v := Mapping(RemoveEntries(meta, SERVER_METADATA));
        var i :| 0 <= i < |es| && es[i] == Entry("metadata", Mapping(meta));
        assert Wf(es[i].value);
        forall f ensures Lookup(v.entries, f) == if f in SERVER_METADATA then None else Lookup(meta, f)
        {
          RemoveEntriesLookup(meta, SERVER_METADATA, f);
        }
        RemoveEntriesLookup(meta, SERVER_METADATA, "");
        assert Wf(v);
        es' := ReplaceEntry(es, "metadata", v);
        ReplaceEntryLookup(es, "metadata", v, k);
        KeysStayDistinct(es, es');
      case _ =>
    }
    RemoveEntryLookup(es', "status", k);
  }

  /** Stripping removes `status` and the server's own metadata fields, and nothing else. */
  lemma StripExact(es: seq<Entry>, k: string)
    requires Wf(Mapping(es))
    ensures Wf(StripExcluded(Mapping(es)))
    ensures StripExcluded(Mapping(es)).Mapping?
    ensures var after := Lookup(StripExcluded(Mapping(es)).entries, k);
            match Lookup(es, k)
            case None => after == None
            case Some(v) =>
              if k == "status" then after == None
              else if k == "metadata" && v.Mapping?
                then after.Some? && after.value.Mapping? &&
                     forall f :: Lookup(after.value.entries, f) ==
                                 if OwnedByServer(f) then None else Lookup(v.entries, f)
              else after == Some(v)
  {
    StripLookups(es, k);
    forall f ensures f in SERVER_METADATA <==> OwnedByServer(f) {
      ServerMetadataIs(f);
    }
  }

  lemma KeysStayDistinct(es: seq<Entry>, es': seq<Entry>)
    requires DistinctKeys(es) && |es'| == |es|
    requires forall i :: 0 <= i < |es| ==> es'[i].key == es[i].key
    ensures DistinctKeys(es')
  {
  }

  lemma StripWf(v: Value)
    requires Wf(v)
    ensures Wf(StripExcluded(v))
  {
    if v.Mapping? {
      StripLookups(v.entries, "");
    }
  }

  lemma {:induction false} RemoveOneMore(es: seq<Entry>, keys: seq<string>, key: string)
    ensures RemoveEntries(es, keys + [key]) == RemoveEntry(RemoveEntries(es, keys), key)
    decreases |keys|
  {
    if keys == [] {
      assert keys + [key] == [key];
      assert RemoveEntries(RemoveEntry(es, key), [key][1..]) == RemoveEntry(es, key);
    } else {
      RemoveOneMore(RemoveEntry(es, keys[0]), keys[1..], key);
      assert (keys + [key])[1..] == keys[1..] + [key];
    }
  }

  /** The source's stripping loop, on a copy of the body. */
  method Strip(body: Value) returns (cloned: Value)
    ensures cloned == StripExcluded(body)
  {
    cloned := body;
    if body.Mapping? {
      var entries := body.entries;
      match Lookup(entries, "metadata") {
        case Some(Mapping(original)) =>
          var meta := original;
          for i := 0 to |SERVER_METADATA|
            invariant meta == RemoveEntries(original, SERVER_METADATA[..i])
          {
            RemoveOneMore(original, SERVER_METADATA[..i], SERVER_METADATA[i]);
            assert SERVER_METADATA[..i + 1] == SERVER_METADATA[..i] + [SERVER_METADATA[i]];
            meta := RemoveEntry(meta, SERVER_METADATA[i]);
          }
          assert SERVER_METADATA[..|SERVER_METADATA|] == SERVER_METADATA;
          entries := ReplaceEntry(entries, "metadata", Mapping(meta));
        case _ =>
      }
      cloned := Mapping(RemoveEntry(entries, "status"));
    }
  }

  // ----- entry points -----

  method RunDiff(desired: Manifest<Value>, live: Manifest<Value>, listMaps: ListMapKeys, yaml: Value -> string)
    returns (changes: seq<Change>)
    ensures changes == Diff(desired, live, listMaps, yaml)
  {
    var out := new ChangeLog();
    var desiredBody := Strip(desired.body);
    var liveBody := Strip(live.body);
    WalkValue(Ctx(desired.gvk, listMaps, yaml), desiredBody, liveBody, [], out);
    changes := out.changes;
  }

  /** True exactly for bodies equivalent up to the stripped fields. */
  method ManifestsEquivalent(desired: Manifest<Value>, live: Manifest<Value>, listMaps: ListMapKeys,
                             yaml: Value -> string)
    returns (same: bool)
    requires Wf(desired.body) && Wf(live.body)
    ensures same <==>
            Equivalent(Ctx(desired.gvk, listMaps, yaml), StripExcluded(desired.body), StripExcluded(live.body), [])
  {
    var changes := RunDiff(desired, live, listMaps, yaml);
    same := changes == [];
    StripWf(desired.body);
    StripWf(live.body);
    EmptyIffEquivalent(Ctx(desired.gvk, listMaps, yaml), StripExcluded(desired.body), StripExcluded(live.body), []);
  }

  /** Carrying out a manifest's reported changes on the stripped live body reaches the
      stripped desired body. */
  lemma DiffIsSufficient(desired: Manifest<Value>, live: Manifest<Value>, listMaps: ListMapKeys, yaml: Value -> string)
    requires Wf(desired.body) && Wf(live.body)
    requires var ctx := Ctx(desired.gvk, listMaps, yaml);
             ToldKeys(ctx, StripExcluded(live.body), []) && UniqueKeys(ctx, StripExcluded(live.body), [])
    ensures var ctx := Ctx(desired.gvk, listMaps, yaml);
            Equivalent(ctx, StripExcluded(desired.body),
                       Patch(ctx, StripExcluded(live.body), Diff(desired, live, listMaps, yaml), []), [])
  {
    StripWf(desired.body);
    StripWf(live.body);
    ScriptSuffices(Ctx(desired.gvk, listMaps, yaml), StripExcluded(desired.body), StripExcluded(live.body), []);
  }

  /** Where neither side has anything below a segment, nothing is reported there. */
  lemma SilentWhereBothEmpty(ctx: Ctx, d: Value, l: Value, path: Path, seg: Segment)
    requires Wf(d) && Wf(l)
    requires Group(ctx, d, path, seg) == [] && Group(ctx, l, path, seg) == []
    ensures forall c :: c in DiffValue(ctx, d, l, path) ==> !(path + [seg] <= c.path)
  {
    var cs := DiffValue(ctx, d, l, path);
    forall c | c in cs
      ensures !(path + [seg] <= c.path)
    {
      FilterMember(cs, (x: Change) => path + [seg] <= x.path, c);
      if BothContainers(d, l) {
        Decompose(ctx, d, l, path, seg);
        GroupDiffSmall(ctx, [], [], path + [seg]);
      }
    }
  }

  /** A change below a single-child segment is that child's own, or names the child. */
  lemma BelowSegment(ctx: Ctx, d: Value, l: Value, path: Path, seg: Segment, c: Change)
    requires BothContainers(d, l) && Wf(d) && Wf(l)
    requires |Group(ctx, d, path, seg)| <= 1 && |Group(ctx, l, path, seg)| <= 1
    requires c in DiffValue(ctx, d, l, path) && path + [seg] <= c.path
    ensures var gd, gl := Group(ctx, d, path, seg), Group(ctx, l, path, seg);
            c.path == path + [seg] || (gd != [] && gl != [] && c in DiffValue(ctx, gd[0], gl[0], path + [seg]))
  {
    Decompose(ctx, d, l, path, seg);
    FilterMember(DiffValue(ctx, d, l, path), (x: Change) => path + [seg] <= x.path, c);
    GroupDiffSmall(ctx, Group(ctx, d, path, seg), Group(ctx, l, path, seg), path + [seg]);
  }

  lemma StatusGone(ctx: Ctx, body: Value)
    requires Wf(body)
    ensures Group(ctx, StripExcluded(body), [], Field("status")) == []
  {
    if body.Mapping? {
      StripLookups(body.entries, "status");
    }
  }

  lemma ServerMetadataGone(ctx: Ctx, body: Value, f: string)
    requires Wf(body) && f in SERVER_METADATA
    ensures var g := Group(ctx, StripExcluded(body), [], Field("metadata"));
            |g| <= 1 && (g != [] ==> Group(ctx, g[0], [Field("metadata")], Field(f)) == [])
  {
    if body.Mapping? {
      StripLookups(body.entries, "metadata");
    }
  }

  /** No change is ever reported inside a stripped field, whatever the two bodies hold. */
  lemma StrippedNeverReported(desired: Manifest<Value>, live: Manifest<Value>, listMaps: ListMapKeys,
                              yaml: Value -> string, c: Change)
    requires Wf(desired.body) && Wf(live.body) && c in Diff(desired, live, listMaps, yaml)
    ensures !([Field("status")] <= c.path)
    ensures forall f :: f in SERVER_METADATA ==> !([Field("metadata"), Field(f)] <= c.path)
  {
    var ctx := Ctx(desired.gvk, listMaps, yaml);
    var d, l := StripExcluded(desired.body), StripExcluded(live.body);
    StripWf(desired.body);
    StripWf(live.body);
    StatusGone(ctx, desired.body);
    StatusGone(ctx, live.body);
    SilentWhereBothEmpty(ctx, d, l, [], Field("status"));
    assert [] + [Field("status")] == [Field("status")];
    forall f | f in SERVER_METADATA
      ensures !([Field("metadata"), Field(f)] <= c.path)
    {
      ServerMetadataSilent(ctx, desired.body, live.body, f, c);
    }
  }

  lemma ServerMetadataSilent(ctx: Ctx, db: Value, lb: Value, f: string, c: Change)
    requires Wf(db) && Wf(lb) && f in SERVER_METADATA
    requires c in DiffValue(ctx, StripExcluded(db), StripExcluded(lb), [])
    ensures !([Field("metadata"), Field(f)] <= c.path)
  {
    var d, l := StripExcluded(db), StripExcluded(lb);
    var p := [Field("metadata")];
    StripWf(db);
    StripWf(lb);
    ServerMetadataGone(ctx, db, f);
    ServerMetadataGone(ctx, lb, f);
    BelowPath(ctx, d, l, []);
    if BothContainers(d, l) && p <= c.path {
      assert [] + p == p;
      BelowSegment(ctx, d, l, [], Field("metadata"), c);
      var gd, gl := Group(ctx, d, [], Field("metadata")), Group(ctx, l, [], Field("metadata"));
      if c.path != p {
        SilentWhereBothEmpty(ctx, gd[0], gl[0], p, Field(f));
        assert p + [Field(f)] == [Field("metadata"), Field(f)];
      }
    }
  }
}
