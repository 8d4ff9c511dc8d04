/** YAML trees with string mapping keys (serde_yaml values as the differ sees them). */
module Yaml {
  import opened Common

  datatype Num = Int(i: int) | Float(text: string)

  datatype Entry = Entry(key: string, value: Value)

  /** A mapping keeps its insertion order; `Wf` says its keys are distinct. */
  datatype Value =
    | Null
    | Bool(b: bool)
    | Number(n: Num)
    | String(s: string)
    | Sequence(items: seq<Value>)
    | Mapping(entries: seq<Entry>)

  ghost predicate Wf(v: Value)
  {
    match v
    case Sequence(xs) => forall x :: x in xs ==> Wf(x)
    case Mapping(es) => DistinctKeys(es) && forall e :: e in es ==> Wf(e.value)
    case _ => true
  }

  ghost predicate DistinctKeys(es: seq<Entry>)
  {
    forall i, j :: 0 <= i < j < |es| ==> es[i].key != es[j].key
  }

  predicate Composite(v: Value)
  {
    v.Sequence? || v.Mapping?
  }

  /** First entry of that key. */
  function Lookup(es: seq<Entry>, key: string): (r: Option<Value>)
    ensures r.Some? ==> exists i :: 0 <= i < |es| && es[i] == Entry(key, r.value)
    ensures r.None? ==> forall i :: 0 <= i < |es| ==> es[i].key != key
  {
    if es == [] then None
    else if es[0].key == key then Some(es[0].value)
    else Lookup(es[1..], key)
  }

  lemma {:induction false} LookupAt(es: seq<Entry>, i: nat)
    requires DistinctKeys(es) && i < |es|
    ensures Lookup(es, es[i].key) == Some(es[i].value)
  {
    if i > 0 {
      LookupAt(es[1..], i - 1);
    }
  }

  function Get(v: Value, key: string): Option<Value>
  {
    if v.Mapping? then Lookup(v.entries, key) else None
  }

  /** Only a mapping has fields, and a field is the value of its one entry. */
  lemma GetIs(v: Value, key: string, x: Value)
    requires Wf(v)
    ensures Get(v, key) == Some(x) <==> v.Mapping? && Entry(key, x) in v.entries
  {
    if v.Mapping? && Entry(key, x) in v.entries {
      var i :| 0 <= i < |v.entries| && v.entries[i] == Entry(key, x);
      LookupAt(v.entries, i);
    }
  }

  /** Decimal rendering of a natural number, as `to_string` prints it. */
  function NatToString(n: nat): (r: string)
    ensures |r| >= 1 && forall c :: c in r ==> '0' <= c <= '9'
  {
    var digit := [(n % 10) as char + '0'];
    if n < 10 then digit else NatToString(n / 10) + digit
  }

  function IntToString(i: int): string
  {
    if i < 0 then "-" + NatToString(-i) else NatToString(i)
  }
}
