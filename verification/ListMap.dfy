/** Value paths and the registry that says which lists are keyed maps. */
module ListMap {
  import opened Common
  import opened Manifests
  import opened Text

  datatype Segment =
    | Field(name: string)
    | Index(i: nat)
    | Keyed(keys: seq<(string, string)>)

  type Path = seq<Segment>

  datatype ListMapKind = ListMapKind(pattern: string, keys: seq<string>)

  /** Fields keep their name, any list element becomes `*`. The dot before a list
      element is written even at the root, as the source does. */
  function RenderForMatch(path: Path): string
  {
    if path == [] then ""
    else
      var n := |path| - 1;
      var front := RenderForMatch(path[..n]);
      match path[n]
      case Field(name) => if n > 0 then front + "." + name else name
      case _ => front + ".*"
  }

  predicate PatternMatches(pattern: string, rendered: string)
  {
    var p := Split(pattern, '.');
    var r := Split(rendered, '.');
    |p| == |r| && forall i :: 0 <= i < |p| ==> p[i] == "*" || p[i] == r[i]
  }

  function FirstMatch(rules: seq<ListMapKind>, rendered: string): Option<seq<string>>
  {
    if rules == [] then None
    else if PatternMatches(rules[0].pattern, rendered) then Some(rules[0].keys)
    else FirstMatch(rules[1..], rendered)
  }

  datatype ListMapKeys = ListMapKeys(byKind: map<Gvk, seq<ListMapKind>>, universal: seq<ListMapKind>) {

    function RulesOf(gvk: Gvk): seq<ListMapKind>
    {
      if gvk in byKind then byKind[gvk] else []
    }

    /** Universal rules first, then the exact kind, then the version wildcard. */
    function KeysFor(gvk: Gvk, path: Path): Option<seq<string>>
    {
      var rendered := RenderForMatch(path);
      var u := FirstMatch(universal, rendered);
      if u.Some? then u else
      var exact := FirstMatch(RulesOf(gvk), rendered);
      if exact.Some? then exact else
      FirstMatch(RulesOf(gvk.(version := "*")), rendered)
    }
  }

  predicate SameShape(p: Path, q: Path)
  {
    |p| == |q| && forall i :: 0 <= i < |p| ==> p[i] == q[i] || (!p[i].Field? && !q[i].Field?)
  }

  lemma {:induction false} RenderIsShape(p: Path, q: Path)
    requires SameShape(p, q)
    ensures RenderForMatch(p) == RenderForMatch(q)
  {
    if p != [] {
      RenderIsShape(p[..|p| - 1], q[..|q| - 1]);
    }
  }

  /** Which discipline a list has never depends on which elements lead to it. */
  lemma ElementBlind(reg: ListMapKeys, gvk: Gvk, p: Path, q: Path)
    requires SameShape(p, q)
    ensures reg.KeysFor(gvk, p) == reg.KeysFor(gvk, q)
  {
    RenderIsShape(p, q);
  }
}
