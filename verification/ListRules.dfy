/** Which rule of the registry makes a list keyed, read off the registry's fields, and what a
    keyed list is compared by. */
module ListRules {
  import opened Common
  import opened Manifests
  import opened Yaml
  import opened Text
  import opened ListMap
  import opened Compare
  import opened CompareSpec
  import opened CompareLaws
  import opened ManifestDiff

  // ----- the rules of a kind, in the order they are tried -----

  /** The universal rules, the kind's own, and those registered for any version of the kind. */
  function RulesFor(reg: ListMapKeys, gvk: Gvk): seq<ListMapKind>
  {
    var anyVersion := Gvk(gvk.group, "*", gvk.kind);
    reg.universal +
    ((if gvk in reg.byKind then reg.byKind[gvk] else []) +
     (if anyVersion in reg.byKind then reg.byKind[anyVersion] else []))
  }

  /** `parts`, joined by dots, are the text. */
  ghost predicate DottedAs(parts: seq<string>, text: string)
  {
    parts != [] && (forall p :: p in parts ==> '.' !in p) && Join(parts, '.') == text
  }

  /** The parts a path is matched by: dots inside a field name part it too, and a path that does
      not begin with a field has an empty part in front. */
  function PartsOf(path: Path): seq<string>
  {
    (if path == [] || !path[0].Field? then [""] else []) + SegmentParts(path)
  }

  function SegmentParts(path: Path): seq<string>
  {
    if path == [] then []
    else
      var n := |path| - 1;
      SegmentParts(path[..n]) + (match path[n] case Field(name) => Split(name, '.') case _ => ["*"])
  }

  /** The rule's pattern has as many parts as the path, each of them `*` or that of the path. */
  ghost predicate Fits(rule: ListMapKind, path: Path)
  {
    exists parts :: DottedAs(parts, rule.pattern) && PartsFit(parts, PartsOf(path))
  }

  predicate PartsFit(pattern: seq<string>, parts: seq<string>)
  {
    |pattern| == |parts| && forall i :: 0 <= i < |parts| ==> pattern[i] == "*" || pattern[i] == parts[i]
  }

  ghost predicate FirstFits(rules: seq<ListMapKind>, path: Path, i: int)
  {
    0 <= i < |rules| && Fits(rules[i], path) && forall j :: 0 <= j < i ==> !Fits(rules[j], path)
  }

  lemma {:induction false} SplitTwo(a: string, b: string, sep: char)
    ensures Split(a + [sep] + b, sep) == Split(a, sep) + Split(b, sep)
  {
    if a == "" {
      assert a + [sep] + b == [sep] + b;
      assert ([sep] + b)[1..] == b;
    } else {
      SplitTwo(a[1..], b, sep);
      assert (a + [sep] + b)[1..] == a[1..] + [sep] + b;
      SplitStep(a, Split(a[1..], sep), Split(b, sep), sep);
    }
  }

  /** One character in front of two split texts. */
  lemma SplitStep(a: string, x: seq<string>, y: seq<string>, sep: char)
    requires a != "" && |x| >= 1
    ensures (if a[0] == sep then [""] + (x + y) else [[a[0]] + (x + y)[0]] + (x + y)[1..]) ==
            (if a[0] == sep then [""] + x else [[a[0]] + x[0]] + x[1..]) + y
  {
    assert (x + y)[0] == x[0] && (x + y)[1..] == x[1..] + y;
  }

  lemma DottedIsSplit(parts: seq<string>, text: string)
    ensures DottedAs(parts, text) <==> parts == Split(text, '.')
  {
    JoinSplit(text, '.');
    if DottedAs(parts, text) {
      SplitJoin(parts, '.');
    }
  }

  lemma {:induction false} RenderedParts(path: Path)
    ensures Split(RenderForMatch(path), '.') == PartsOf(path)
    decreases |path|
  {
    if path != [] {
      var n := |path| - 1;
      RenderedParts(path[..n]);
      var front := RenderForMatch(path[..n]);
      var last := match path[n] case Field(name) => name case _ => "*";
      SplitPlain("*", '.');
      if n > 0 || !path[n].Field? {
        assert RenderForMatch(path) == front + ['.'] + last;
        SplitTwo(front, last, '.');
        PartsSnoc(path);
      } else {
        assert path[..0] == [];
        assert [] + Split(last, '.') == Split(last, '.');
      }
    }
  }

  lemma PartsSnoc(path: Path)
    requires path != [] && (|path| > 1 || !path[|path| - 1].Field?)
    ensures var n := |path| - 1;
            PartsOf(path) == PartsOf(path[..n]) + (match path[n] case Field(name) => Split(name, '.') case _ => ["*"])
  {
    var n := |path| - 1;
    var last := match path[n] case Field(name) => Split(name, '.') case _ => ["*"];
    var lead := if path == [] || !path[0].Field? then [""] else [];
    if n > 0 {
      assert path[..n][0] == path[0];
    }
    assert lead + (SegmentParts(path[..n]) + last) == lead + SegmentParts(path[..n]) + last;
  }

  lemma FitsIff(rule: ListMapKind, path: Path)
    ensures PatternMatches(rule.pattern, RenderForMatch(path)) <==> Fits(rule, path)
  {
    RenderedParts(path);
    DottedIsSplit(Split(rule.pattern, '.'), rule.pattern);
    forall parts | DottedAs(parts, rule.pattern) ensures parts == Split(rule.pattern, '.') {
      DottedIsSplit(parts, rule.pattern);
    }
  }

  lemma {:induction false} FirstMatchFits(rules: seq<ListMapKind>, path: Path, i: nat)
    requires FirstFits(rules, path, i)
    ensures FirstMatch(rules, RenderForMatch(path)) == Some(rules[i].keys)
    decreases i
  {
    FitsIff(rules[0], path);
    if i > 0 {
      assert forall j :: 0 <= j < i ==> rules[1..][j] == rules[j + 1];
      FirstMatchFits(rules[1..], path, i - 1);
    }
  }

  lemma {:induction false} NoMatchFits(rules: seq<ListMapKind>, path: Path)
    requires forall i :: 0 <= i < |rules| ==> !Fits(rules[i], path)
    ensures FirstMatch(rules, RenderForMatch(path)) == None
  {
    if rules != [] {
      FitsIff(rules[0], path);
      NoMatchFits(rules[1..], path);
    }
  }

  lemma FirstMatchIs(rules: seq<ListMapKind>, path: Path)
    ensures forall i :: FirstFits(rules, path, i) ==> FirstMatch(rules, RenderForMatch(path)) == Some(rules[i].keys)
    ensures (forall i :: 0 <= i < |rules| ==> !Fits(rules[i], path)) ==> FirstMatch(rules, RenderForMatch(path)) == None
  {
    forall i | FirstFits(rules, path, i) ensures FirstMatch(rules, RenderForMatch(path)) == Some(rules[i].keys) {
      FirstMatchFits(rules, path, i);
    }
    if forall i :: 0 <= i < |rules| ==> !Fits(rules[i], path) {
      NoMatchFits(rules, path);
    }
  }

  lemma SomeFirst(rules: seq<ListMapKind>, path: Path, n: nat) returns (i: nat)
    requires n < |rules| && Fits(rules[n], path)
    ensures FirstFits(rules, path, i)
    decreases n
  {
    if forall j :: 0 <= j < n ==> !Fits(rules[j], path) {
      i := n;
    } else {
      var j :| 0 <= j < n && Fits(rules[j], path);
      i := SomeFirst(rules, path, j);
    }
  }

  lemma {:induction false} FirstMatchAppend(a: seq<ListMapKind>, b: seq<ListMapKind>, rendered: string)
    ensures FirstMatch(a + b, rendered) ==
            if FirstMatch(a, rendered).Some? then FirstMatch(a, rendered) else FirstMatch(b, rendered)
  {
    if a == [] {
      assert a + b == b;
    } else {
      assert (a + b)[1..] == a[1..] + b;
      FirstMatchAppend(a[1..], b, rendered);
    }
  }

  lemma KeysForIsFirst(reg: ListMapKeys, gvk: Gvk, path: Path)
    ensures reg.KeysFor(gvk, path) == FirstMatch(RulesFor(reg, gvk), RenderForMatch(path))
  {
    var own := if gvk in reg.byKind then reg.byKind[gvk] else [];
    var anyVersion := Gvk(gvk.group, "*", gvk.kind);
    var general := if anyVersion in reg.byKind then reg.byKind[anyVersion] else [];
    FirstMatchAppend(reg.universal, own + general, RenderForMatch(path));
    FirstMatchAppend(own, general, RenderForMatch(path));
  }

  /** A list is keyed by the key fields of the first rule that fits its path, universal rules
      first, then those of the exact kind, then those for any version; it is a plain list if
      and only if no rule fits. */
  lemma KeysForExactly(reg: ListMapKeys, gvk: Gvk, path: Path, keys: seq<string>)
    ensures reg.KeysFor(gvk, path) == Some(keys) <==>
            exists i :: FirstFits(RulesFor(reg, gvk), path, i) && RulesFor(reg, gvk)[i].keys == keys
    ensures reg.KeysFor(gvk, path) == None <==>
            forall i :: 0 <= i < |RulesFor(reg, gvk)| ==> !Fits(RulesFor(reg, gvk)[i], path)
  {
    var rules := RulesFor(reg, gvk);
    KeysForIsFirst(reg, gvk, path);
    FirstMatchIs(rules, path);
    if n :| 0 <= n < |rules| && Fits(rules[n], path) {
      var i := SomeFirst(rules, path, n);
      assert reg.KeysFor(gvk, path) == Some(rules[i].keys);
    }
  }

  /** A path that begins with a field and whose field names hold no dot. */
  predicate Undotted(path: Path)
  {
    path != [] && path[0].Field? && forall i :: 0 <= i < |path| && path[i].Field? ==> '.' !in path[i].name
  }

  /** On such a path a pattern is matched segment by segment: `*` matches any one segment, a
      name the field of that name. */
  lemma FitsBySegments(rule: ListMapKind, path: Path, parts: seq<string>)
    requires Undotted(path) && DottedAs(parts, rule.pattern)
    ensures Fits(rule, path) <==>
            && |parts| == |path|
            && forall i :: 0 <= i < |path| ==> parts[i] == "*" || (path[i].Field? && parts[i] == path[i].name)
  {
    DottedIsSplit(parts, rule.pattern);
    forall other | DottedAs(other, rule.pattern) ensures other == parts {
      DottedIsSplit(other, rule.pattern);
    }
    OnePartEach(path);
  }

  lemma {:induction false} OnePartEach(path: Path)
    requires forall i :: 0 <= i < |path| && path[i].Field? ==> '.' !in path[i].name
    ensures |SegmentParts(path)| == |path|
    ensures forall i :: 0 <= i < |path| ==> SegmentParts(path)[i] == if path[i].Field? then path[i].name else "*"
    decreases |path|
  {
    if path != [] {
      var n := |path| - 1;
      OnePartEach(path[..n]);
      LastPart(path);
    }
  }

  lemma LastPart(path: Path)
    requires path != [] && (path[|path| - 1].Field? ==> '.' !in path[|path| - 1].name)
    ensures var n := |path| - 1;
            SegmentParts(path) == SegmentParts(path[..n]) + [if path[n].Field? then path[n].name else "*"]
  {
    var n := |path| - 1;
    if path[n].Field? {
      SplitPlain(path[n].name, '.');
    }
  }

  // ----- what elements are told apart by -----

  /** The field's text: of a string itself, of any other scalar as it is written, of an absent
      field nothing. */
  predicate HasText(x: Value, key: string, text: string)
  {
    match Get(x, key)
    case None => text == ""
    case Some(String(s)) => text == s
    case Some(Number(Int(i))) => text == if i < 0 then "-" + NatToString(-i) else NatToString(i)
    case Some(Number(Float(written))) => text == written
    case Some(Bool(b)) => text == if b then "true" else "false"
    case Some(Null) => text == "null"
    case _ => false
  }

  ghost predicate HasTexts(x: Value, keys: seq<string>, texts: seq<string>)
  {
    |texts| == |keys| && forall i :: 0 <= i < |keys| ==> HasText(x, keys[i], texts[i])
  }

  /** Key names and texts, pair by pair, as a path segment carries them. */
  function PairedTexts(keys: seq<string>, texts: seq<string>): seq<(string, string)>
    requires |keys| == |texts|
  {
    seq(|keys|, i requires 0 <= i < |keys| => (keys[i], texts[i]))
  }

  lemma TextsAreKeys(ctx: Ctx, x: Value, keys: seq<string>, texts: seq<string>)
    requires HasTexts(x, keys, texts)
    ensures ExtractKeys(ctx, x, keys) == PairedTexts(keys, texts)
  {
    forall i | 0 <= i < |keys| ensures KeyField(ctx, x, keys[i]) == texts[i] {
      assert HasText(x, keys[i], texts[i]);
    }
  }

  lemma DifferentPairs(keys: seq<string>, s: seq<string>, t: seq<string>)
    requires |s| == |t| == |keys| && s != t
    ensures PairedTexts(keys, s) != PairedTexts(keys, t)
  {
    var i :| 0 <= i < |keys| && s[i] != t[i];
    assert PairedTexts(keys, s)[i] != PairedTexts(keys, t)[i];
  }

  /** Two elements of a keyed list are compared with each other if and only if all their key
      fields have the same texts; else the one is added and the other removed, each under its own. */
  lemma PairedByAllKeys(ctx: Ctx, x: Value, y: Value, path: Path, keys: seq<string>, s: seq<string>, t: seq<string>)
    requires ctx.listMaps.KeysFor(ctx.gvk, path) == Some(keys) && HasTexts(x, keys, s) && HasTexts(y, keys, t)
    ensures DiffValue(ctx, Sequence([x]), Sequence([y]), path) ==
            if s == t then DiffValue(ctx, x, y, path + [Keyed(PairedTexts(keys, s))])
            else [Added(path + [Keyed(PairedTexts(keys, s))], x), Removed(path + [Keyed(PairedTexts(keys, t))], y)]
  {
    TextsAreKeys(ctx, x, keys, s);
    TextsAreKeys(ctx, y, keys, t);
    if s != t {
      DifferentPairs(keys, s, t);
    }
    var kx, ky := PairedTexts(keys, s), PairedTexts(keys, t);
    assert Select(ctx, [x], 0, keys, kx) == [] && Select(ctx, [y], 0, keys, kx) == [] &&
           Select(ctx, [y], 0, keys, ky) == [];
    assert Select(ctx, [y], 1, keys, kx) == if s == t then [y] else [];
    assert Select(ctx, [x], 1, keys, ky) == if s == t then [x] else [];
    SingleDiff(ctx, x, y, keys, path);
  }

  lemma SingleDiff(ctx: Ctx, x: Value, y: Value, keys: seq<string>, path: Path)
    ensures DiffKeyed(ctx, [x], 1, [y], keys, path) == KeyedChange(ctx, [x], 0, [y], keys, path)
    ensures RemovedKeyed(ctx, [x], [y], 1, keys, path) ==
            var kt := ExtractKeys(ctx, y, keys);
            if |Select(ctx, [y], 0, keys, kt)| < |Select(ctx, [x], 1, keys, kt)| then []
            else [Removed(path + [Keyed(kt)], y)]
  {
    assert DiffKeyed(ctx, [x], 0, [y], keys, path) == [] && RemovedKeyed(ctx, [x], [y], 0, keys, path) == [];
  }

  /** No two elements have the same texts in all key fields. */
  ghost predicate ToldApart(xs: seq<Value>, keys: seq<string>)
  {
    forall i, j :: 0 <= i < j < |xs| ==>
      exists key :: key in keys && Differ(xs[i], xs[j], key)
  }

  /** The field has two texts in the two elements. */
  ghost predicate Differ(x: Value, y: Value, key: string)
  {
    exists s, t :: s != t && HasText(x, key, s) && HasText(y, key, t)
  }

  ghost predicate DistinctTuples(ctx: Ctx, xs: seq<Value>, keys: seq<string>)
  {
    forall i, j :: 0 <= i < j < |xs| ==> ExtractKeys(ctx, xs[i], keys) != ExtractKeys(ctx, xs[j], keys)
  }

  lemma ToldApartKeys(ctx: Ctx, xs: seq<Value>, keys: seq<string>)
    requires ToldApart(xs, keys)
    ensures DistinctTuples(ctx, xs, keys)
  {
    forall i, j | 0 <= i < j < |xs| ensures ExtractKeys(ctx, xs[i], keys) != ExtractKeys(ctx, xs[j], keys) {
      var key :| key in keys && Differ(xs[i], xs[j], key);
      DifferentTuples(ctx, xs[i], xs[j], keys, key);
    }
  }

  lemma DifferentTuples(ctx: Ctx, x: Value, y: Value, keys: seq<string>, key: string)
    requires key in keys && Differ(x, y, key)
    ensures ExtractKeys(ctx, x, keys) != ExtractKeys(ctx, y, keys)
  {
    var s, t :| s != t && HasText(x, key, s) && HasText(y, key, t);
    var k :| 0 <= k < |keys| && keys[k] == key;
    assert ExtractKeys(ctx, x, keys)[k] == (key, s) && ExtractKeys(ctx, y, keys)[k] == (key, t);
  }

  // ----- reordering a keyed list -----

  lemma {:induction false} SelectNone(ctx: Ctx, xs: seq<Value>, n: nat, keys: seq<string>, kt: KeyTuple)
    requires n <= |xs| && forall i :: 0 <= i < n ==> ExtractKeys(ctx, xs[i], keys) != kt
    ensures Select(ctx, xs, n, keys, kt) == []
  {
    if n > 0 {
      SelectNone(ctx, xs, n - 1, keys, kt);
    }
  }

  lemma SelectsOne(ctx: Ctx, xs: seq<Value>, keys: seq<string>, i: nat)
    requires DistinctTuples(ctx, xs, keys) && i < |xs|
    ensures Select(ctx, xs, |xs|, keys, ExtractKeys(ctx, xs[i], keys)) == [xs[i]]
  {
    var kt := ExtractKeys(ctx, xs[i], keys);
    forall j | 0 <= j < |xs| && j != i ensures ExtractKeys(ctx, xs[j], keys) != kt {
    }
    SelectAlone(ctx, xs, |xs|, keys, kt, i);
  }

  lemma {:induction false} SelectAlone(ctx: Ctx, xs: seq<Value>, n: nat, keys: seq<string>, kt: KeyTuple, i: nat)
    requires i < n <= |xs| && ExtractKeys(ctx, xs[i], keys) == kt
    requires forall j :: 0 <= j < n && j != i ==> ExtractKeys(ctx, xs[j], keys) != kt
    ensures Select(ctx, xs, n, keys, kt) == [xs[i]]
    decreases n
  {
    SelectLast(ctx, xs, n, keys, kt);
    if i < n - 1 {
      SelectAlone(ctx, xs, n - 1, keys, kt, i);
    } else {
      SelectNone(ctx, xs, i, keys, kt);
    }
  }

  lemma SelectLast(ctx: Ctx, xs: seq<Value>, n: nat, keys: seq<string>, kt: KeyTuple)
    requires 0 < n <= |xs|
    ensures Select(ctx, xs, n, keys, kt) ==
            if ExtractKeys(ctx, xs[n - 1], keys) == kt then Select(ctx, xs, n - 1, keys, kt) + [xs[n - 1]]
            else Select(ctx, xs, n - 1, keys, kt)
  {
  }

  lemma SameSelection(ctx: Ctx, xs: seq<Value>, ys: seq<Value>, keys: seq<string>, kt: KeyTuple)
    requires DistinctTuples(ctx, xs, keys) && DistinctTuples(ctx, ys, keys)
    requires forall x :: x in xs <==> x in ys
    ensures Select(ctx, xs, |xs|, keys, kt) == Select(ctx, ys, |ys|, keys, kt)
  {
    if i :| 0 <= i < |xs| && ExtractKeys(ctx, xs[i], keys) == kt {
      assert xs[i] in ys;
      var j :| 0 <= j < |ys| && ys[j] == xs[i];
      SelectsOne(ctx, xs, keys, i);
      SelectsOne(ctx, ys, keys, j);
    } else {
      forall j | 0 <= j < |ys| ensures ExtractKeys(ctx, ys[j], keys) != kt {
        assert ys[j] in xs;
      }
      SelectNone(ctx, xs, |xs|, keys, kt);
      SelectNone(ctx, ys, |ys|, keys, kt);
    }
  }

  lemma ReorderedTold(xs: seq<Value>, ys: seq<Value>, ctx: Ctx, keys: seq<string>)
    requires multiset(xs) == multiset(ys) && DistinctTuples(ctx, xs, keys)
    ensures (forall x :: x in xs <==> x in ys) && DistinctTuples(ctx, ys, keys)
  {
    forall x ensures x in xs <==> x in ys {
      assert x in multiset(xs) <==> x in multiset(ys);
    }
    forall i, j | 0 <= i < j < |ys| ensures ExtractKeys(ctx, ys[i], keys) != ExtractKeys(ctx, ys[j], keys) {
      if ys[i] == ys[j] {
        TwiceIn(ys, i, j);
        OnceIn(ctx, xs, keys, ys[i]);
      } else {
        assert ys[i] in xs && ys[j] in xs;
        var k :| 0 <= k < |xs| && xs[k] == ys[i];
        var m :| 0 <= m < |xs| && xs[m] == ys[j];
        assert k != m;
      }
    }
  }

  lemma TwiceIn<T>(s: seq<T>, i: nat, j: nat)
    requires i < j < |s| && s[i] == s[j]
    ensures multiset(s)[s[i]] >= 2
  {
    assert s == s[..i] + [s[i]] + s[i + 1..j] + [s[j]] + s[j + 1..];
  }

  lemma {:induction false} OnceIn(ctx: Ctx, xs: seq<Value>, keys: seq<string>, x: Value)
    requires DistinctTuples(ctx, xs, keys)
    ensures multiset(xs)[x] <= 1
  {
    if xs != [] {
      var n := |xs| - 1;
      assert xs == xs[..n] + [xs[n]];
      OnceIn(ctx, xs[..n], keys, x);
      LastIsNew(ctx, xs, keys);
    }
  }

  lemma LastIsNew(ctx: Ctx, xs: seq<Value>, keys: seq<string>)
    requires DistinctTuples(ctx, xs, keys) && xs != []
    ensures xs[|xs| - 1] !in xs[..|xs| - 1]
  {
    var n := |xs| - 1;
    forall i | 0 <= i < n ensures xs[..n][i] != xs[n] {
      assert ExtractKeys(ctx, xs[i], keys) != ExtractKeys(ctx, xs[n], keys);
    }
  }

  /** Reordering a keyed list whose elements are told apart by their key fields reports nothing. */
  lemma ReorderedListSilent(ctx: Ctx, xs: seq<Value>, ys: seq<Value>, path: Path, keys: seq<string>)
    requires ctx.listMaps.KeysFor(ctx.gvk, path) == Some(keys) && Wf(Sequence(xs)) && Wf(Sequence(ys))
    requires multiset(xs) == multiset(ys) && ToldApart(xs, keys)
    ensures DiffValue(ctx, Sequence(xs), Sequence(ys), path) == []
  {
    var a, b := Sequence(xs), Sequence(ys);
    ToldApartKeys(ctx, xs, keys);
    ReorderedTold(xs, ys, ctx, keys);
    forall seg ensures Group(ctx, a, path, seg) == Group(ctx, b, path, seg) {
      if seg.Keyed? {
        SameSelection(ctx, xs, ys, keys, seg.keys);
      }
    }
    SameGroupsEquivalent(ctx, a, b, path);
    EmptyIffEquivalent(ctx, a, b, path);
  }

  lemma SameGroupsEquivalent(ctx: Ctx, a: Value, b: Value, path: Path)
    requires BothContainers(a, b) && forall seg :: Group(ctx, a, path, seg) == Group(ctx, b, path, seg)
    ensures Equivalent(ctx, a, b, path)
  {
    forall seg, k | 0 <= k < |Group(ctx, a, path, seg)|
      ensures Equivalent(ctx, Group(ctx, a, path, seg)[k], Group(ctx, b, path, seg)[k], path + [seg])
    {
      EquivalentReflexive(ctx, Group(ctx, a, path, seg)[k], path + [seg]);
    }
  }

  // ----- at a path of fields -----

  /** The value that following these fields leads to. */
  function ValueAt(v: Value, names: seq<string>): Option<Value>
  {
    if names == [] then Some(v)
    else
      match Get(v, names[0])
      case Some(x) => ValueAt(x, names[1..])
      case None => None
  }

  function FieldPath(names: seq<string>): Path
  {
    seq(|names|, i requires 0 <= i < |names| => Field(names[i]))
  }

  /** What is reported at or below a path of fields is the diff of the two values there. */
  lemma {:induction false} DiffAtFields(ctx: Ctx, d: Value, l: Value, path: Path, names: seq<string>)
    requires Wf(d) && Wf(l) && ValueAt(d, names).Some? && ValueAt(l, names).Some?
    ensures At(DiffValue(ctx, d, l, path), path + FieldPath(names)) ==
            DiffValue(ctx, ValueAt(d, names).value, ValueAt(l, names).value, path + FieldPath(names))
    decreases |names|
  {
    var cs, all := DiffValue(ctx, d, l, path), path + FieldPath(names);
    if names == [] {
      assert all == path;
      BelowPath(ctx, d, l, path);
      FilterAll(cs, (c: Change) => path <= c.path);
    } else {
      var a, b, p := Get(d, names[0]).value, Get(l, names[0]).value, path + [Field(names[0])];
      assert all == p + FieldPath(names[1..]);
      FieldWf(d, names[0]);
      FieldWf(l, names[0]);
      DiffAtFields(ctx, a, b, p, names[1..]);
      DiffAtField(ctx, d, l, path, names[0]);
      AtDeeper(cs, p, all);
    }
  }

  lemma FieldWf(v: Value, name: string)
    requires Wf(v) && Get(v, name).Some?
    ensures Wf(Get(v, name).value)
  {
    GetIs(v, name, Get(v, name).value);
  }

  lemma DiffAtField(ctx: Ctx, d: Value, l: Value, path: Path, name: string)
    requires Wf(d) && Wf(l) && Get(d, name).Some? && Get(l, name).Some?
    ensures At(DiffValue(ctx, d, l, path), path + [Field(name)]) ==
            DiffValue(ctx, Get(d, name).value, Get(l, name).value, path + [Field(name)])
  {
    Decompose(ctx, d, l, path, Field(name));
    OnePair(ctx, Get(d, name).value, Get(l, name).value, path + [Field(name)]);
  }

  lemma OnePair(ctx: Ctx, a: Value, b: Value, p: Path)
    ensures GroupDiff(ctx, [a], [b], p) == DiffValue(ctx, a, b, p)
  {
    assert [a][..0] == [] && [b][..0] == [];
    assert GroupDiff(ctx, [], [], p) == [];
  }

  lemma {:induction false} AtDeeper(cs: seq<Change>, p: Path, q: Path)
    requires p <= q
    ensures At(At(cs, p), q) == At(cs, q)
  {
    if cs != [] {
      var n := |cs| - 1;
      AtDeeper(cs[..n], p, q);
      FilterAppend(At(cs[..n], p), if p <= cs[n].path then [cs[n]] else [], (c: Change) => q <= c.path);
      assert [cs[n]][..0] == [];
      assert At([cs[n]], q) == if q <= cs[n].path then [cs[n]] else [];
    }
  }

  /** Stripping leaves what stands outside `status` and `metadata`. */
  lemma StrippedValueAt(body: Value, names: seq<string>)
    requires Wf(body) && names != [] && names[0] != "status" && names[0] != "metadata"
    ensures ValueAt(StripExcluded(body), names) == ValueAt(body, names)
  {
    if body.Mapping? {
      StripLookups(body.entries, names[0]);
    }
  }

  /** Two manifests that hold the same elements at a path of fields, in whatever order: when the
      first rule that fits the path, of the kind's own version or of any, tells the elements
      apart, nothing is reported at or below the path. */
  lemma ReorderReportsNothing(desired: Manifest<Value>, live: Manifest<Value>, listMaps: ListMapKeys,
                              yaml: Value -> string, names: seq<string>, xs: seq<Value>, ys: seq<Value>, i: int)
    requires Wf(desired.body) && Wf(live.body) && names != [] && names[0] != "status" && names[0] != "metadata"
    requires ValueAt(desired.body, names) == Some(Sequence(xs)) && ValueAt(live.body, names) == Some(Sequence(ys))
    requires multiset(xs) == multiset(ys)
    requires FirstFits(RulesFor(listMaps, desired.gvk), FieldPath(names), i)
    requires ToldApart(xs, RulesFor(listMaps, desired.gvk)[i].keys)
    ensures forall c :: c in Diff(desired, live, listMaps, yaml) ==> !(FieldPath(names) <= c.path)
  {
    var ctx, keys, p := Ctx(desired.gvk, listMaps, yaml), RulesFor(listMaps, desired.gvk)[i].keys, FieldPath(names);
    var d, l := StripExcluded(desired.body), StripExcluded(live.body);
    StripWf(desired.body);
    StripWf(live.body);
    StrippedValueAt(desired.body, names);
    StrippedValueAt(live.body, names);
    KeysForExactly(listMaps, desired.gvk, p, keys);
    WfAt(d, names);
    WfAt(l, names);
    DiffAtFields(ctx, d, l, [], names);
    assert [] + p == p;
    ReorderedListSilent(ctx, xs, ys, p, keys);
    forall c | c in Diff(desired, live, listMaps, yaml) ensures !(p <= c.path) {
      FilterMember(DiffValue(ctx, d, l, []), (x: Change) => p <= x.path, c);
    }
  }

  lemma {:induction false} WfAt(v: Value, names: seq<string>)
    requires Wf(v) && ValueAt(v, names).Some?
    ensures Wf(ValueAt(v, names).value)
    decreases |names|
  {
    if names != [] {
      WfAt(Get(v, names[0]).value, names[1..]);
    }
  }
}
