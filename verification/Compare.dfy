/** The structural differ: what `diff` reports, as a function of the two trees.
    `CompareLoops` has the loops that compute it. */
module Compare {
  import opened Manifests
  import opened Yaml
  import opened ListMap

  /** `yaml` is the serializer the differ falls back on for composite key fields. */
  datatype Ctx = Ctx(gvk: Gvk, listMaps: ListMapKeys, yaml: Value -> string)

  datatype Change =
    | Added(path: Path, desired: Value)
    | Removed(path: Path, live: Value)
    | Modified(path: Path, desired: Value, live: Value)

  function ScalarToString(ctx: Ctx, v: Value): string
  {
    match v
    case String(s) => s
    case Number(Int(i)) => IntToString(i)
    case Number(Float(text)) => text
    case Bool(b) => if b then "true" else "false"
    case Null => "null"
    case _ => ctx.yaml(v)
  }

  type KeyTuple = seq<(string, string)>

  function KeyField(ctx: Ctx, v: Value, key: string): string
  {
    match Get(v, key)
    case Some(x) => ScalarToString(ctx, x)
    case None => ""
  }

  function ExtractKeys(ctx: Ctx, v: Value, keys: seq<string>): KeyTuple
  {
    seq(|keys|, i requires 0 <= i < |keys| => (keys[i], KeyField(ctx, v, keys[i])))
  }

  /** The elements among the first `n` of `xs` whose key tuple is `kt`, in order. */
  function Select(ctx: Ctx, xs: seq<Value>, n: nat, keys: seq<string>, kt: KeyTuple): (r: seq<Value>)
    requires n <= |xs|
    ensures |r| <= n
  {
    if n == 0 then []
    else
      Select(ctx, xs, n - 1, keys, kt) +
      (if ExtractKeys(ctx, xs[n - 1], keys) == kt then [xs[n - 1]] else [])
  }

  lemma {:induction false} SelectedAreMembers(ctx: Ctx, xs: seq<Value>, n: nat, keys: seq<string>, kt: KeyTuple)
    requires n <= |xs|
    ensures forall i :: 0 <= i < |Select(ctx, xs, n, keys, kt)| ==> Select(ctx, xs, n, keys, kt)[i] in xs
  {
    if n > 0 {
      SelectedAreMembers(ctx, xs, n - 1, keys, kt);
    }
  }

  // ----- what the differ reports -----

  function FieldChange(ctx: Ctx, e: Entry, live: seq<Entry>, path: Path): seq<Change>
    decreases e, 1
  {
    match Lookup(live, e.key)
    case Some(lv) => DiffValue(ctx, e.value, lv, path + [Field(e.key)])
    case None => [Added(path + [Field(e.key)], e.value)]
  }

  /** Desired entries, in order. */
  function DiffFields(ctx: Ctx, desired: seq<Entry>, n: nat, live: seq<Entry>, path: Path): seq<Change>
    requires n <= |desired|
    decreases desired, n
  {
    if n == 0 then []
    else DiffFields(ctx, desired, n - 1, live, path) + FieldChange(ctx, desired[n - 1], live, path)
  }

  function RemovedField(desired: seq<Entry>, e: Entry, path: Path): seq<Change>
  {
    if Lookup(desired, e.key).Some? then [] else [Removed(path + [Field(e.key)], e.value)]
  }

  /** Live entries whose key desired lacks. */
  function RemovedFields(desired: seq<Entry>, live: seq<Entry>, n: nat, path: Path): seq<Change>
    requires n <= |live|
  {
    if n == 0 then []
    else RemovedFields(desired, live, n - 1, path) + RemovedField(desired, live[n - 1], path)
  }

  /** Position `i` of a plain list. */
  function IndexChange(ctx: Ctx, desired: seq<Value>, live: seq<Value>, i: nat, path: Path): seq<Change>
    decreases desired, 0
  {
    var child := path + [Index(i)];
    if i < |desired| then
      if i < |live| then DiffValue(ctx, desired[i], live[i], child) else [Added(child, desired[i])]
    else if i < |live| then [Removed(child, live[i])]
    else []
  }

  function DiffIndexed(ctx: Ctx, desired: seq<Value>, live: seq<Value>, n: nat, path: Path): seq<Change>
    decreases desired, n + 1
  {
    if n == 0 then []
    else DiffIndexed(ctx, desired, live, n - 1, path) + IndexChange(ctx, desired, live, n - 1, path)
  }

  /** Element `i` of a registered list meets the live element that is the same
      occurrence of the same key tuple. */
  function KeyedChange(ctx: Ctx, desired: seq<Value>, i: nat, live: seq<Value>, keys: seq<string>,
                       path: Path): seq<Change>
    requires i < |desired|
    decreases desired, 0
  {
    var kt := ExtractKeys(ctx, desired[i], keys);
    var k := |Select(ctx, desired, i, keys, kt)|;
    var peers := Select(ctx, live, |live|, keys, kt);
    if k < |peers| then DiffValue(ctx, desired[i], peers[k], path + [Keyed(kt)])
    else [Added(path + [Keyed(kt)], desired[i])]
  }

  function DiffKeyed(ctx: Ctx, desired: seq<Value>, n: nat, live: seq<Value>, keys: seq<string>,
                     path: Path): seq<Change>
    requires n <= |desired|
    decreases desired, n + 1
  {
    if n == 0 then []
    else DiffKeyed(ctx, desired, n - 1, live, keys, path) + KeyedChange(ctx, desired, n - 1, live, keys, path)
  }

  /** Live elements whose occurrence number desired does not reach. */
  function RemovedKeyed(ctx: Ctx, desired: seq<Value>, live: seq<Value>, n: nat, keys: seq<string>,
                        path: Path): seq<Change>
    requires n <= |live|
  {
    if n == 0 then []
    else
      var kt := ExtractKeys(ctx, live[n - 1], keys);
      RemovedKeyed(ctx, desired, live, n - 1, keys, path) +
      (if |Select(ctx, live, n - 1, keys, kt)| < |Select(ctx, desired, |desired|, keys, kt)| then []
       else [Removed(path + [Keyed(kt)], live[n - 1])])
  }

  function Max(a: nat, b: nat): nat { if a < b then b else a }

  function DiffValue(ctx: Ctx, desired: Value, live: Value, path: Path): seq<Change>
    decreases desired, 0
  {
    match (desired, live)
    case (Mapping(d), Mapping(l)) =>
      DiffFields(ctx, d, |d|, l, path) + RemovedFields(d, l, |l|, path)
    case (Sequence(d), Sequence(l)) => (
      match ctx.listMaps.KeysFor(ctx.gvk, path)
      case Some(keys) => DiffKeyed(ctx, d, |d|, l, keys, path) + RemovedKeyed(ctx, d, l, |l|, keys, path)
      case None => DiffIndexed(ctx, d, l, Max(|d|, |l|), path)
    )
    case (a, b) => if a == b then [] else [Modified(path, a, b)]
  }

  // ----- manifests -----

  const SERVER_METADATA: seq<string> :=
    ["resourceVersion", "uid", "generation", "creationTimestamp", "managedFields", "selfLink"]

  /** Drop the entry with that key, if any. */
  function RemoveEntry(es: seq<Entry>, key: string): seq<Entry>
  {
    if es == [] then []
    else if es[0].key == key then es[1..]
    else [es[0]] + RemoveEntry(es[1..], key)
  }

  function RemoveEntries(es: seq<Entry>, keys: seq<string>): seq<Entry>
    decreases |keys|
  {
    if keys == [] then es else RemoveEntries(RemoveEntry(es, keys[0]), keys[1..])
  }

  /** Put a new value under an existing key. */
  function ReplaceEntry(es: seq<Entry>, key: string, v: Value): seq<Entry>
  {
    if es == [] then []
    else if es[0].key == key then [Entry(key, v)] + es[1..]
    else [es[0]] + ReplaceEntry(es[1..], key, v)
  }

  function StripExcluded(body: Value): Value
  {
    if body.Mapping? then
      var es := match Lookup(body.entries, "metadata")
        case Some(Mapping(meta)) =>
          ReplaceEntry(body.entries, "metadata", Mapping(RemoveEntries(meta, SERVER_METADATA)))
        case _ => body.entries;
      Mapping(RemoveEntry(es, "status"))
    else body
  }

  function Diff(desired: Manifest<Value>, live: Manifest<Value>, listMaps: ListMapKeys,
                yaml: Value -> string): seq<Change>
  {
    DiffValue(Ctx(desired.gvk, listMaps, yaml), StripExcluded(desired.body), StripExcluded(live.body), [])
  }
}
