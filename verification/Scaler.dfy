/** Discovery of the cluster's autoscalers: three event streams folded into one cache of
    auto-ignore rules. */
module Scaler {
  import opened Common
  import opened Manifests
  import opened Ignore

  datatype ControllerKind = Hpa | Vpa | KedaScaledObject

  /** A controller's claim on a target; targets are identified as resources are. */
  datatype ScalerEntry = ScalerEntry(controller: ControllerKind, target: ResourceRef, ignoredPaths: seq<string>)

  datatype SourceKey = SourceKey(controller: ControllerKind, namespace: Option<string>, name: string)

  type Sources = map<SourceKey, ScalerEntry>
  type ByTarget = map<ResourceRef, seq<ScalerEntry>>

  /** A watched object: its name if it has one, and what `parse_scaler` makes of it. */
  datatype Object = Object(namespace: Option<string>, name: Option<string>, parsed: Option<ScalerEntry>)

  datatype Event = Applied(obj: Object) | Deleted(obj: Object) | Restarted(objs: seq<Object>)

  function KeyOf(obj: Object, controller: ControllerKind): Option<SourceKey>
  {
    match obj.name
    case Some(n) => Some(SourceKey(controller, obj.namespace, n))
    case None => None
  }

  /** Converting an object needs its name, so an unnamed object parses to nothing. */
  function EntryOf(obj: Object): Option<ScalerEntry>
  {
    if obj.name.Some? then obj.parsed else None
  }

  // ----- the cache -----

  function EntriesFor(cache: ByTarget, target: ResourceRef): seq<ScalerEntry>
  {
    if target in cache then cache[target] else []
  }

  function Inserted(cache: ByTarget, e: ScalerEntry): ByTarget
  {
    cache[e.target := EntriesFor(cache, e.target) + [e]]
  }

  function InsertedAll(entries: seq<ScalerEntry>): ByTarget
  {
    if entries == [] then map[] else Inserted(InsertedAll(entries[..|entries| - 1]), entries[|entries| - 1])
  }

  function EntriesOf(entries: seq<ScalerEntry>, target: ResourceRef): seq<ScalerEntry>
  {
    Filter(entries, (e: ScalerEntry) => e.target == target)
  }

  /** Building the index groups the entries by target and keeps their order. */
  lemma {:induction false} InsertedGroups(entries: seq<ScalerEntry>, target: ResourceRef)
    ensures EntriesFor(InsertedAll(entries), target) == EntriesOf(entries, target)
  {
    if entries != [] {
      InsertedGroups(entries[..|entries| - 1], target);
    }
  }

  // ----- the sources -----

  function AppliedTo(sources: Sources, controller: ControllerKind, obj: Object): Sources
  {
    match (KeyOf(obj, controller), EntryOf(obj))
    case (Some(k), Some(e)) => sources[k := e]
    case (Some(k), None) => sources - {k}
    case _ => sources
  }

  function WithoutController(sources: Sources, controller: ControllerKind): Sources
  {
    map k | k in sources && k.controller != controller :: sources[k]
  }

  function Listed(sources: Sources, controller: ControllerKind, objs: seq<Object>): Sources
  {
    if objs == [] then sources
    else
      var n := |objs| - 1;
      var rest := Listed(sources, controller, objs[..n]);
      match (KeyOf(objs[n], controller), EntryOf(objs[n]))
      case (Some(k), Some(e)) => rest[k := e]
      case _ => rest
  }

  function Handled(sources: Sources, controller: ControllerKind, ev: Event): Sources
  {
    match ev
    case Applied(obj) => AppliedTo(sources, controller, obj)
    case Deleted(obj) => (match KeyOf(obj, controller) case Some(k) => sources - {k} case None => sources)
    case Restarted(objs) => Listed(WithoutController(sources, controller), controller, objs)
  }

  /** Some order in which the hash map may yield its values. */
  ghost predicate Enumerates(order: seq<SourceKey>, sources: Sources)
  {
    && (forall k :: k in order <==> k in sources)
    && (forall i, j :: 0 <= i < j < |order| ==> order[i] != order[j])
  }

  function ValuesIn(sources: Sources, order: seq<SourceKey>): seq<ScalerEntry>
    requires forall k :: k in order ==> k in sources
  {
    seq(|order|, i requires 0 <= i < |order| => sources[order[i]])
  }

  /** The cache is the grouping of the source map by target, in some order of its values. */
  ghost predicate Groups(cache: ByTarget, sources: Sources)
  {
    exists order :: Enumerates(order, sources) && CacheOf(cache, sources, order)
  }

  ghost predicate CacheOf(cache: ByTarget, sources: Sources, order: seq<SourceKey>)
    requires Enumerates(order, sources)
  {
    forall target :: EntriesFor(cache, target) == EntriesOf(ValuesIn(sources, order), target)
  }

  class ScalerDiscovery {
    var sources: Sources
    var byTarget: ByTarget

    ghost predicate Valid()
      reads this
    {
      Groups(byTarget, sources)
    }

    constructor ()
      ensures Valid() && sources == map[]
    {
      sources, byTarget := map[], map[];
      new;
      assert Enumerates([], sources) && CacheOf(byTarget, sources, []);
    }

    /** One event of one controller's stream, handled whole. */
    method HandleEvent(controller: ControllerKind, ev: Event)
      requires Valid()
      modifies this
      ensures Valid() && sources == Handled(old(sources), controller, ev)
    {
      var changed := false;
      match ev {
        case Applied(obj) =>
          match KeyOf(obj, controller) {
            case Some(key) =>
              match EntryOf(obj) {
                case Some(entry) =>
                  changed := !(key in sources && sources[key] == entry);
                  sources := sources[key := entry];
                case None =>
                  changed := key in sources;
                  sources := sources - {key};
              }
            case None =>
          }
        case Deleted(obj) =>
          match KeyOf(obj, controller) {
            case Some(key) =>
              changed := key in sources;
              sources := sources - {key};
            case None =>
          }
        case Restarted(objs) =>
          Replace(controller, objs);
          changed := true;
      }
      if changed {
        RebuildCache();
      } else {
        assert sources == old(sources);
      }
    }

    method Replace(controller: ControllerKind, objs: seq<Object>)
      modifies `sources
      ensures sources == Listed(WithoutController(old(sources), controller), controller, objs)
    {
      sources := WithoutController(sources, controller);
      ghost var base := sources;
      for i := 0 to |objs|
        invariant sources == Listed(base, controller, objs[..i])
      {
        assert objs[..i + 1][..i] == objs[..i];
        match (KeyOf(objs[i], controller), EntryOf(objs[i])) {
          case (Some(key), Some(entry)) => sources := sources[key := entry];
          case _ =>
        }
      }
      assert objs[..|objs|] == objs;
    }

    method RebuildCache()
      modifies `byTarget
      ensures Groups(byTarget, sources)
    {
      var order := [];
      var entries := [];
      var todo := sources.Keys;
      while todo != {}
        modifies {}
        invariant todo <= sources.Keys
        invariant forall k :: k in order <==> k in sources && k !in todo
        invariant forall i, j :: 0 <= i < j < |order| ==> order[i] != order[j]
        invariant entries == ValuesIn(sources, order)
        decreases |todo|
      {
        var k := Pick(todo);
        entries := entries + [sources[k]];
        order := order + [k];
        todo := todo - {k};
      }
      ReplaceWith(entries);
      forall target ensures EntriesFor(byTarget, target) == EntriesOf(ValuesIn(sources, order), target)
      {
        InsertedGroups(entries, target);
      }
      assert Enumerates(order, sources) && CacheOf(byTarget, sources, order);
    }

    method ReplaceWith(entries: seq<ScalerEntry>)
      modifies `byTarget
      ensures byTarget == InsertedAll(entries)
    {
      byTarget := map[];
      for i := 0 to |entries|
        invariant byTarget == InsertedAll(entries[..i])
      {
        assert entries[..i + 1][..i] == entries[..i];
        byTarget := Inserted(byTarget, entries[i]);
      }
      assert entries[..|entries|] == entries;
    }
  }

  // ----- interleaving -----

  /** Sources of one controller. */
  function PartitionOf(sources: Sources, controller: ControllerKind): Sources
  {
    map k | k in sources && k.controller == controller :: sources[k]
  }

  /** The source map after the events, taken in the given interleaving. */
  function Final(events: seq<(ControllerKind, Event)>): Sources
  {
    if events == [] then map[]
    else Handled(Final(events[..|events| - 1]), events[|events| - 1].0, events[|events| - 1].1)
  }

  function StreamOf(events: seq<(ControllerKind, Event)>, controller: ControllerKind): seq<(ControllerKind, Event)>
  {
    Filter(events, (e: (ControllerKind, Event)) => e.0 == controller)
  }

  lemma {:induction false} ListedStaysHome(sources: Sources, controller: ControllerKind, objs: seq<Object>,
                                           k: SourceKey)
    requires k.controller != controller
    ensures (k in Listed(sources, controller, objs) <==> k in sources) &&
            (k in sources ==> Listed(sources, controller, objs)[k] == sources[k])
  {
    if objs != [] {
      ListedStaysHome(sources, controller, objs[..|objs| - 1], k);
    }
  }

  lemma {:induction false} ListedAlike(a: Sources, b: Sources, controller: ControllerKind, objs: seq<Object>)
    requires PartitionOf(a, controller) == PartitionOf(b, controller)
    ensures PartitionOf(Listed(a, controller, objs), controller) == PartitionOf(Listed(b, controller, objs), controller)
  {
    if objs != [] {
      var n := |objs| - 1;
      ListedAlike(a, b, controller, objs[..n]);
      if KeyOf(objs[n], controller).Some? && EntryOf(objs[n]).Some? {
        var k, e := KeyOf(objs[n], controller).value, EntryOf(objs[n]).value;
        PartitionInserted(Listed(a, controller, objs[..n]), controller, k, e);
        PartitionInserted(Listed(b, controller, objs[..n]), controller, k, e);
      }
    }
  }

  lemma PartitionInserted(sources: Sources, controller: ControllerKind, k: SourceKey, e: ScalerEntry)
    requires k.controller == controller
    ensures PartitionOf(sources[k := e], controller) == PartitionOf(sources, controller)[k := e]
  {
  }

  lemma PartitionDropped(sources: Sources, controller: ControllerKind, k: SourceKey)
    ensures PartitionOf(sources - {k}, controller) == PartitionOf(sources, controller) - {k}
  {
  }

  lemma SameKeys(a: Sources, b: Sources, controller: ControllerKind)
    requires PartitionOf(a, controller) == PartitionOf(b, controller)
    ensures forall k: SourceKey :: k.controller == controller ==> (k in a <==> k in b) && (k in a ==> a[k] == b[k])
  {
    forall k: SourceKey | k.controller == controller
      ensures (k in a <==> k in b) && (k in a ==> a[k] == b[k])
    {
      assert k in PartitionOf(a, controller) <==> k in PartitionOf(b, controller);
    }
  }

  /** An event, a relist included, touches only its own controller's partition. */
  lemma OtherPartitionsKept(sources: Sources, controller: ControllerKind, ev: Event, other: ControllerKind)
    requires other != controller
    ensures PartitionOf(Handled(sources, controller, ev), other) == PartitionOf(sources, other)
  {
    var after := Handled(sources, controller, ev);
    forall k: SourceKey | k.controller == other
      ensures (k in after <==> k in sources) && (k in sources ==> after[k] == sources[k])
    {
      if ev.Restarted? {
        ListedStaysHome(WithoutController(sources, controller), controller, ev.objs, k);
      }
    }
  }

  /** What an event makes of its own partition depends on that partition alone. */
  lemma OwnPartitionAlone(a: Sources, b: Sources, controller: ControllerKind, ev: Event)
    requires PartitionOf(a, controller) == PartitionOf(b, controller)
    ensures PartitionOf(Handled(a, controller, ev), controller) == PartitionOf(Handled(b, controller, ev), controller)
  {
    match ev
    case Applied(obj) =>
      if KeyOf(obj, controller).Some? {
        var k := KeyOf(obj, controller).value;
        if EntryOf(obj).Some? {
          PartitionInserted(a, controller, k, EntryOf(obj).value);
          PartitionInserted(b, controller, k, EntryOf(obj).value);
        } else {
          PartitionDropped(a, controller, k);
          PartitionDropped(b, controller, k);
        }
      }
    case Deleted(obj) =>
      if KeyOf(obj, controller).Some? {
        PartitionDropped(a, controller, KeyOf(obj, controller).value);
        PartitionDropped(b, controller, KeyOf(obj, controller).value);
      }
    case Restarted(objs) =>
      assert PartitionOf(WithoutController(a, controller), controller) ==
             PartitionOf(WithoutController(b, controller), controller);
      ListedAlike(WithoutController(a, controller), WithoutController(b, controller), controller, objs);
  }

  /** Each partition is what its own stream alone produces. */
  lemma {:induction false} PartitionIsItsStream(events: seq<(ControllerKind, Event)>, controller: ControllerKind)
    ensures PartitionOf(Final(events), controller) == PartitionOf(Final(StreamOf(events, controller)), controller)
  {
    if events != [] {
      var n := |events| - 1;
      var (c, ev) := events[n];
      PartitionIsItsStream(events[..n], controller);
      var front := StreamOf(events[..n], controller);
      if c == controller {
        assert (front + [events[n]])[..|front|] == front;
        OwnPartitionAlone(Final(events[..n]), Final(front), controller, ev);
      } else {
        OtherPartitionsKept(Final(events[..n]), c, ev, controller);
        assert StreamOf(events, controller) == front;
      }
    }
  }

  /** Any two interleavings of the three streams end with the same source map. */
  lemma InterleavingIrrelevant(events: seq<(ControllerKind, Event)>, events': seq<(ControllerKind, Event)>)
    requires forall c :: StreamOf(events, c) == StreamOf(events', c)
    ensures Final(events) == Final(events')
  {
    var a, b := Final(events), Final(events');
    forall k: SourceKey
      ensures (k in a <==> k in b) && (k in a ==> a[k] == b[k])
    {
      PartitionIsItsStream(events, k.controller);
      PartitionIsItsStream(events', k.controller);
      assert StreamOf(events, k.controller) == StreamOf(events', k.controller);
      SameKeys(a, b, k.controller);
    }
  }

  // ----- the cache up to order -----

  lemma {:induction false} SameValues(sources: Sources, p: seq<SourceKey>, q: seq<SourceKey>, target: ResourceRef)
    requires Distinct(p) && Distinct(q) && (forall k :: k in p <==> k in q) && forall k :: k in p ==> k in sources
    ensures multiset(EntriesOf(ValuesIn(sources, p), target)) == multiset(EntriesOf(ValuesIn(sources, q), target))
    decreases |p|
  {
    if p == [] {
      NonEmptyHasMember(q);
    } else {
      var n := |p| - 1;
      var k := p[n];
      assert k in q;
      var i :| 0 <= i < |q| && q[i] == k;
      var rest := q[..i] + q[i + 1..];
      assert ValuesIn(sources, p) == ValuesIn(sources, p[..n]) + [sources[k]];
      assert ValuesIn(sources, p)[..n] == ValuesIn(sources, p[..n]);
      RemoveMember(p, n);
      assert p[..n] + p[n + 1..] == p[..n];
      RemoveMember(q, i);
      SameValues(sources, p[..n], rest, target);
      ValueTakenOut(sources, q, i, target);
    }
  }

  ghost predicate Distinct(s: seq<SourceKey>)
  {
    forall i, j :: 0 <= i < j < |s| ==> s[i] != s[j]
  }

  lemma RemoveMember(s: seq<SourceKey>, i: nat)
    requires Distinct(s) && i < |s|
    ensures var rest := s[..i] + s[i + 1..];
            Distinct(rest) && forall k :: k in rest <==> k in s && k != s[i]
  {
    var rest := s[..i] + s[i + 1..];
    forall k ensures k in rest <==> k in s && k != s[i]
    {
      if k in s && k != s[i] {
        var j :| 0 <= j < |s| && s[j] == k;
        assert if j < i then rest[j] == k else rest[j - 1] == k;
      }
    }
  }

  lemma ValueTakenOut(sources: Sources, q: seq<SourceKey>, i: nat, target: ResourceRef)
    requires i < |q| && forall k :: k in q ==> k in sources
    ensures var rest := q[..i] + q[i + 1..];
            multiset(EntriesOf(ValuesIn(sources, q), target)) ==
            multiset(EntriesOf(ValuesIn(sources, rest), target)) +
            (if sources[q[i]].target == target then multiset{sources[q[i]]} else multiset{})
  {
    var p := (e: ScalerEntry) => e.target == target;
    var left, mid, right := ValuesIn(sources, q[..i]), [sources[q[i]]], ValuesIn(sources, q[i + 1..]);
    assert ValuesIn(sources, q) == left + (mid + right);
    assert ValuesIn(sources, q[..i] + q[i + 1..]) == left + right;
    FilterAppend(left, mid + right, p);
    FilterAppend(mid, right, p);
    FilterAppend(left, right, p);
    assert mid[..0] == [];
  }

  /** Two caches over one source map hold the same entries for every target, up to order:
      with `InterleavingIrrelevant`, the order of events across controllers never shows. */
  lemma CacheUpToOrder(sources: Sources, a: ByTarget, b: ByTarget, target: ResourceRef)
    requires Groups(a, sources) && Groups(b, sources)
    ensures multiset(EntriesFor(a, target)) == multiset(EntriesFor(b, target))
  {
    var p :| Enumerates(p, sources) && CacheOf(a, sources, p);
    var q :| Enumerates(q, sources) && CacheOf(b, sources, q);
    SameValues(sources, p, q, target);
  }

  // ----- the rules -----

  function GlobsOf(e: ScalerEntry): seq<IgnoreRule>
  {
    seq(|e.ignoredPaths|, i requires 0 <= i < |e.ignoredPaths| => PathGlob(e.ignoredPaths[i]))
  }

  function AllGlobs(entries: seq<ScalerEntry>): seq<IgnoreRule>
  {
    if entries == [] then [] else AllGlobs(entries[..|entries| - 1]) + GlobsOf(entries[|entries| - 1])
  }

  /** Rules for a target: every path any controller pointed at it may mutate. */
  method AutoIgnoreRulesFor(target: ResourceRef, cache: ByTarget) returns (rules: seq<IgnoreRule>)
    ensures rules == AllGlobs(EntriesFor(cache, target))
  {
    var entries := EntriesFor(cache, target);
    rules := [];
    for i := 0 to |entries|
      invariant rules == AllGlobs(entries[..i])
    {
      assert entries[..i + 1][..i] == entries[..i];
      var e := entries[i];
      ghost var before := rules;
      for j := 0 to |e.ignoredPaths|
        invariant rules == before + GlobsOf(e)[..j]
      {
        rules := rules + [PathGlob(e.ignoredPaths[j])];
      }
    }
    assert entries[..|entries|] == entries;
  }

  lemma {:induction false} RuleFromEntry(entries: seq<ScalerEntry>, r: IgnoreRule)
    ensures r in AllGlobs(entries) <==> exists e :: e in entries && r in GlobsOf(e)
  {
    if entries != [] {
      var n := |entries| - 1;
      RuleFromEntry(entries[..n], r);
      assert entries == entries[..n] + [entries[n]];
    }
  }

  /** The order of a target's entries never changes what is ignored. */
  lemma RulesUpToOrder(p: seq<ScalerEntry>, q: seq<ScalerEntry>, r: IgnoreRule)
    requires multiset(p) == multiset(q)
    ensures r in AllGlobs(p) <==> r in AllGlobs(q)
  {
    RuleFromEntry(p, r);
    RuleFromEntry(q, r);
    forall e ensures e in p <==> e in q
    {
      assert e in multiset(p) <==> e in multiset(q);
    }
  }
}
