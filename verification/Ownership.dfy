/** Field ownership: walking `fieldsV1`, finding a path's owner, and the partition of a diff
    into drift and information. */
module Ownership {
  import opened Common
  import opened Yaml
  import opened ListMap
  import opened Compare

  function KeyPairs(keys: seq<(string, string)>): string
  {
    if keys == [] then ""
    else
      var n := |keys| - 1;
      KeyPairs(keys[..n]) + (if n > 0 then "," else "") + "\"" + keys[n].0 + "\":\"" + keys[n].1 + "\""
  }

  /** How `fieldsV1` spells a path segment. */
  function CandidateKey(seg: Segment): string
  {
    match seg
    case Field(name) => "f:" + name
    case Index(i) => "i:" + NatToString(i)
    case Keyed(keys) => "k:{" + KeyPairs(keys) + "}"
  }

  /** A child that stands for its whole subtree: an empty mapping, or no mapping at all. */
  predicate WholeSubtree(v: Value)
  {
    v.Mapping? ==> v.entries == []
  }

  predicate Owns(node: Value, segments: Path)
    decreases |segments|
  {
    if !node.Mapping? then false
    else if segments == [] then true
    else
      match Lookup(node.entries, CandidateKey(segments[0]))
      case Some(child) => WholeSubtree(child) || Owns(child, segments[1..])
      case None => false
  }

  /** The node that following the segments leads to. */
  function NodeAt(node: Value, segments: Path): Option<Value>
    decreases |segments|
  {
    if segments == [] then Some(node)
    else if !node.Mapping? then None
    else
      match Lookup(node.entries, CandidateKey(segments[0]))
      case Some(child) => NodeAt(child, segments[1..])
      case None => None
  }

  /** The walk gets past `n` segments and need not go further. */
  predicate SettlesAt(node: Value, segments: Path, n: nat)
    requires n <= |segments|
  {
    var reached := NodeAt(node, segments[..n]);
    reached.Some? && (n == |segments| || (n > 0 && WholeSubtree(reached.value)))
  }

  lemma NodeAtStep(node: Value, segments: Path, n: nat)
    requires 0 < n <= |segments| && node.Mapping?
    requires Lookup(node.entries, CandidateKey(segments[0])).Some?
    ensures NodeAt(node, segments[..n]) ==
            NodeAt(Lookup(node.entries, CandidateKey(segments[0])).value, segments[1..][..n - 1])
  {
    assert segments[..n][0] == segments[0] && segments[..n][1..] == segments[1..][..n - 1];
  }

  /** A path is owned exactly when the root is a mapping and the walk completes, or stops
      early at a child that stands for its whole subtree. */
  lemma {:induction false} OwnsIff(node: Value, segments: Path)
    ensures Owns(node, segments) <==> node.Mapping? && exists n :: 0 <= n <= |segments| && SettlesAt(node, segments, n)
    decreases |segments|
  {
    if node.Mapping? {
      if segments == [] {
        assert SettlesAt(node, segments, 0);
      } else if Lookup(node.entries, CandidateKey(segments[0])).Some? {
        var child := Lookup(node.entries, CandidateKey(segments[0])).value;
        var tail := segments[1..];
        OwnsIff(child, tail);
        forall n: nat | 0 < n <= |segments|
          ensures NodeAt(node, segments[..n]) == NodeAt(child, tail[..n - 1])
        {
          NodeAtStep(node, segments, n);
        }
        assert segments[..0] == [] && tail[..0] == [];
        if WholeSubtree(child) {
          assert SettlesAt(node, segments, 1);
        } else {
          SettlesBelow(node, child, segments);
        }
      } else {
        forall n | 0 <= n <= |segments| ensures !SettlesAt(node, segments, n)
        {
          if n > 0 {
            assert segments[..n][0] == segments[0];
          }
        }
      }
    }
  }

  lemma SettlesBelow(node: Value, child: Value, segments: Path)
    requires segments != [] && child.Mapping? && !WholeSubtree(child)
    requires forall n: nat :: 0 < n <= |segments| ==>
             NodeAt(node, segments[..n]) == NodeAt(child, segments[1..][..n - 1])
    ensures (exists n :: 0 <= n <= |segments| && SettlesAt(node, segments, n)) <==>
            (exists n :: 0 <= n <= |segments[1..]| && SettlesAt(child, segments[1..], n))
  {
    var tail := segments[1..];
    if n :| 0 <= n <= |segments| && SettlesAt(node, segments, n) {
      assert NodeAt(node, segments[..n]) == NodeAt(child, tail[..n - 1]);
      assert n == 1 ==> tail[..0] == [];
      assert SettlesAt(child, tail, n - 1);
    }
    if n :| 0 <= n <= |tail| && SettlesAt(child, tail, n) {
      assert NodeAt(node, segments[..n + 1]) == NodeAt(child, tail[..n]);
      assert SettlesAt(node, segments, n + 1);
    }
  }

  /** Owned paths are closed under prefixes. */
  lemma {:induction false} OwnedPrefixes(node: Value, path: Path, more: Path)
    requires Owns(node, path + more)
    ensures Owns(node, path)
    decreases |path|
  {
    if path != [] {
      assert (path + more)[0] == path[0] && (path + more)[1..] == path[1..] + more;
      var child := Lookup(node.entries, CandidateKey(path[0])).value;
      if !WholeSubtree(child) {
        OwnedPrefixes(child, path[1..], more);
      }
    }
  }

  /** A path that ends where a whole subtree is owned owns every extension. */
  lemma {:induction false} SubtreeOwned(node: Value, path: Path, more: Path)
    requires path != [] && NodeAt(node, path).Some? && WholeSubtree(NodeAt(node, path).value)
    ensures Owns(node, path + more)
    decreases |path|
  {
    var child := Lookup(node.entries, CandidateKey(path[0])).value;
    assert (path + more)[0] == path[0] && (path + more)[1..] == path[1..] + more;
    if |path| > 1 && !WholeSubtree(child) {
      SubtreeOwned(child, path[1..], more);
    }
  }

  // ----- managers -----

  function GetString(v: Value, key: string): Option<string>
  {
    match Get(v, key)
    case Some(String(s)) => Some(s)
    case _ => None
  }

  function ManagerEntry(entry: Value): Option<(string, Value)>
  {
    match (GetString(entry, "manager"), Get(entry, "fieldsV1"))
    case (Some(m), Some(f)) => Some((m, f))
    case _ => None
  }

  function ManagerEntries(items: seq<Value>): seq<(string, Value)>
  {
    if items == [] then []
    else
      (match ManagerEntry(items[0]) case Some(e) => [e] case None => []) + ManagerEntries(items[1..])
  }

  function ManagedFields(live: Value): seq<(string, Value)>
  {
    match Get(live, "metadata")
    case Some(meta) => (
      match Get(meta, "managedFields")
      case Some(Sequence(items)) => ManagerEntries(items)
      case _ => []
    )
    case None => []
  }

  function FirstOwner(entries: seq<(string, Value)>, path: Path): Option<string>
  {
    if entries == [] then None
    else if Owns(entries[0].1, path) then Some(entries[0].0)
    else FirstOwner(entries[1..], path)
  }

  function OwnerOf(path: Path, live: Value): Option<string>
  {
    FirstOwner(ManagedFields(live), path)
  }

  predicate PathOwnedByAny(path: Path, live: Value, allowed: seq<string>)
  {
    exists e :: e in ManagedFields(live) && e.0 in allowed && Owns(e.1, path)
  }

  // ----- the partition -----

  datatype FilteredDiff = FilteredDiff(drift: seq<Change>, informational: seq<Change>)

  predicate IsDrift(ours: string, live: Value, c: Change)
  {
    var owner := OwnerOf(c.path, live);
    owner.None? || owner.value == ours
  }

  method PartitionByOwner(ours: string, changes: seq<Change>, live: Value) returns (r: FilteredDiff)
    ensures r.drift == Filter(changes, (c: Change) => IsDrift(ours, live, c))
    ensures r.informational == Filter(changes, (c: Change) => !IsDrift(ours, live, c))
  {
    var drift, informational := [], [];
    for i := 0 to |changes|
      invariant drift == Filter(changes[..i], (c: Change) => IsDrift(ours, live, c))
      invariant informational == Filter(changes[..i], (c: Change) => !IsDrift(ours, live, c))
    {
      assert changes[..i + 1][..i] == changes[..i];
      match OwnerOf(changes[i].path, live) {
        case Some(m) =>
          if m == ours {
            drift := drift + [changes[i]];
          } else {
            informational := informational + [changes[i]];
          }
        case None => drift := drift + [changes[i]];
      }
    }
    assert changes[..|changes|] == changes;
    r := FilteredDiff(drift, informational);
  }

  lemma {:induction false} FirstOwnerIs(entries: seq<(string, Value)>, path: Path)
    ensures match FirstOwner(entries, path)
            case None => forall e :: e in entries ==> !Owns(e.1, path)
            case Some(m) =>
              exists i :: 0 <= i < |entries| && entries[i].0 == m && Owns(entries[i].1, path) &&
                forall j :: 0 <= j < i ==> !Owns(entries[j].1, path)
  {
    if entries != [] && !Owns(entries[0].1, path) {
      FirstOwnerIs(entries[1..], path);
      if FirstOwner(entries[1..], path).Some? {
        var i :| 0 <= i < |entries[1..]| && entries[1..][i].0 == FirstOwner(entries, path).value &&
                 Owns(entries[1..][i].1, path) && forall j :: 0 <= j < i ==> !Owns(entries[1..][j].1, path);
        forall j | 0 <= j < i + 1 ensures !Owns(entries[j].1, path)
        {
          assert j > 0 ==> entries[j] == entries[1..][j - 1];
        }
        assert entries[i + 1] == entries[1..][i];
      }
    }
  }

  /** A path our manager owns counts as drift exactly when no other manager that owns it is
      listed before us. The documented reading, information only when another manager owns
      the path exclusively, is therefore not what the code does for shared fields. */
  lemma SharedFieldIsDriftIff(ours: string, live: Value, c: Change)
    requires exists e :: e in ManagedFields(live) && e.0 == ours && Owns(e.1, c.path)
    ensures IsDrift(ours, live, c) <==>
            exists i :: 0 <= i < |ManagedFields(live)| && ManagedFields(live)[i].0 == ours &&
              Owns(ManagedFields(live)[i].1, c.path) &&
              forall j :: 0 <= j < i ==> !Owns(ManagedFields(live)[j].1, c.path)
  {
    FirstOwnerIs(ManagedFields(live), c.path);
  }
}
