/** Ignore rules: what each kind matches, and filtering a diff by a bundle of them. */
module Ignore {
  import opened Common
  import opened Yaml
  import opened Text
  import opened ListMap
  import opened Compare
  import opened Pointer
  import opened Ownership

  datatype IgnoreRule =
    | JsonPointer(pointer: string)
    | PathGlob(glob: string)
    | ManagerAllowlist(managers: seq<string>)

  predicate GlobSegment(p: string, seg: Segment)
  {
    p == "*" || (seg.Field? && p == seg.name)
  }

  /** `*` matches any one segment, a name only a field of that name. */
  predicate PathGlobMatches(glob: string, path: Path)
  {
    var pat := if glob == "" then [] else Split(glob, '.');
    |pat| == |path| && forall i :: 0 <= i < |path| ==> GlobSegment(pat[i], path[i])
  }

  predicate RuleMatches(rule: IgnoreRule, c: Change, live: Value)
  {
    match rule
    case JsonPointer(p) => Render(c.path) == p
    case PathGlob(g) => PathGlobMatches(g, c.path)
    case ManagerAllowlist(ms) => PathOwnedByAny(c.path, live, ms)
  }

  predicate Ignored(rules: seq<IgnoreRule>, c: Change, live: Value)
  {
    exists r :: r in rules && RuleMatches(r, c, live)
  }

  method Matches(rules: seq<IgnoreRule>, c: Change, live: Value) returns (hit: bool)
    ensures hit == Ignored(rules, c, live)
  {
    for i := 0 to |rules|
      invariant forall j :: 0 <= j < i ==> !RuleMatches(rules[j], c, live)
    {
      if RuleMatches(rules[i], c, live) {
        assert rules[i] in rules;
        return true;
      }
    }
    hit := false;
  }

  function ApplyRules(rules: seq<IgnoreRule>, changes: seq<Change>, live: Value): seq<Change>
  {
    Filter(changes, (c: Change) => !Ignored(rules, c, live))
  }

  /** The source's filter, with its shortcut for an empty bundle. */
  method Apply(rules: seq<IgnoreRule>, changes: seq<Change>, live: Value) returns (kept: seq<Change>)
    ensures kept == ApplyRules(rules, changes, live)
  {
    if rules == [] {
      FilterAll(changes, (c: Change) => !Ignored(rules, c, live));
      return changes;
    }
    kept := [];
    for i := 0 to |changes|
      invariant kept == ApplyRules(rules, changes[..i], live)
    {
      assert changes[..i + 1][..i] == changes[..i];
      var hit := Matches(rules, changes[i], live);
      if !hit {
        kept := kept + [changes[i]];
      }
    }
    assert changes[..|changes|] == changes;
  }

  /** Filtering twice is filtering by both. */
  lemma {:induction false} FilterTwice<T>(s: seq<T>, p: T -> bool, q: T -> bool, both: T -> bool)
    requires forall x :: x in s ==> both(x) == (p(x) && q(x))
    ensures Filter(Filter(s, p), q) == Filter(s, both)
  {
    if s != [] {
      var n := |s| - 1;
      assert s[n] in s;
      FilterTwice(s[..n], p, q, both);
      FilterAppend(Filter(s[..n], p), if p(s[n]) then [s[n]] else [], q);
      if p(s[n]) {
        assert [s[n]][..0] == [];
        assert Filter([s[n]], q) == if q(s[n]) then [s[n]] else [];
      }
    }
  }

  /** Applying extended rules is applying the two bundles one after the other, either first. */
  lemma ExtendIsSequence(rules: seq<IgnoreRule>, more: seq<IgnoreRule>, changes: seq<Change>, live: Value)
    ensures ApplyRules(rules + more, changes, live) == ApplyRules(more, ApplyRules(rules, changes, live), live)
    ensures ApplyRules(rules + more, changes, live) == ApplyRules(rules, ApplyRules(more, changes, live), live)
  {
    var p := (c: Change) => !Ignored(rules, c, live);
    var q := (c: Change) => !Ignored(more, c, live);
    var both := (c: Change) => !Ignored(rules + more, c, live);
    forall c | c in changes ensures both(c) == (p(c) && q(c))
    {
      IgnoredByEither(rules, more, c, live);
    }
    FilterTwice(changes, p, q, both);
    FilterTwice(changes, q, p, both);
  }

  lemma IgnoredByEither(rules: seq<IgnoreRule>, more: seq<IgnoreRule>, c: Change, live: Value)
    ensures Ignored(rules + more, c, live) <==> Ignored(rules, c, live) || Ignored(more, c, live)
  {
    assert forall r :: r in rules + more <==> r in rules || r in more;
  }

  /** A pointer rule for one path ignores exactly the changes whose path has its tokens. */
  lemma PointerRuleExact(path: Path, c: Change, live: Value)
    ensures RuleMatches(JsonPointer(Render(path)), c, live) <==> Tokens(c.path) == Tokens(path)
  {
    RenderInjectiveOnTokens(c.path, path);
  }
}
