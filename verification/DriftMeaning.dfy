/** What becomes of a change, read off the rules, the managers and the autoscalers themselves. */
module DriftMeaning {
  import opened Common
  import opened Manifests
  import opened Yaml
  import opened Text
  import opened ListMap
  import opened ListRules
  import opened Compare
  import opened Pointer
  import opened FieldsV1
  import opened Ignore
  import opened Scaler
  import opened Pipeline

  // ----- rules -----

  /** Segment by segment, `*` for any one, a name for the field of that name. */
  predicate GlobFits(parts: seq<string>, path: Path)
  {
    |parts| == |path| && forall i :: 0 <= i < |path| ==> parts[i] == "*" || path[i] == Field(parts[i])
  }

  /** A glob rule matches exactly the paths its dotted parts fit; the empty one only the root. */
  lemma GlobRuleExact(parts: seq<string>, glob: string, c: Change, live: Value)
    requires DottedAs(parts, glob) && glob != ""
    ensures RuleMatches(PathGlob(glob), c, live) <==> GlobFits(parts, c.path)
    ensures RuleMatches(PathGlob(""), c, live) <==> c.path == []
  {
    DottedIsSplit(parts, glob);
  }

  predicate NoZeroInFront(digits: string)
  {
    digits == "0" || (digits != "" && digits[0] != '0')
  }

  /** The tokens a pointer spells a path with: a field's name, an index in digits, an element of a
      keyed list by the text of its first key field. */
  predicate PointsTo(tokens: seq<string>, path: Path)
  {
    |tokens| == |path| && forall i :: 0 <= i < |path| ==>
      match path[i]
      case Field(name) => tokens[i] == name
      case Index(n) => AllDigits(tokens[i]) && DigitsValue(tokens[i]) == n && NoZeroInFront(tokens[i])
      case Keyed(pairs) => tokens[i] == if pairs == [] then "" else pairs[0].1
  }

  lemma {:induction false} TokensPoint(path: Path)
    ensures PointsTo(Tokens(path), path)
  {
    if path != [] {
      TokensPoint(path[1..]);
      if path[0].Index? {
        DigitsRoundTrip(path[0].i);
        NoLeadingZero(path[0].i);
      }
    }
  }

  lemma {:induction false} NoLeadingZero(n: nat)
    ensures NoZeroInFront(NatToString(n)) && (NatToString(n) == "0" ==> n == 0)
  {
    if n >= 10 {
      NoLeadingZero(n / 10);
      DigitsRoundTrip(n / 10);
    }
  }

  /** A pointer rule matches exactly the changes whose path it spells, by sections 3 and 4 of
      RFC 6901: a slash and an escaped token for each segment. */
  lemma PointerRuleSpelled(pointer: string, c: Change, live: Value)
    ensures RuleMatches(JsonPointer(pointer), c, live) ==> PointsTo(Decode(pointer), c.path)
    ensures RuleMatches(JsonPointer(pointer), c, live) ==> (pointer == "" <==> c.path == [])
    ensures RuleMatches(JsonPointer(pointer), c, live) && c.path != [] ==> pointer[0] == '/'
    ensures RuleMatches(JsonPointer(Render(c.path)), c, live)
  {
    PointerRoundTrip(c.path);
    TokensPoint(c.path);
  }

  /** A manager rule matches exactly the changes to paths that one of those managers owns. */
  lemma ManagerRuleExact(managers: seq<string>, claims: seq<Claim>, c: Change, live: Value)
    requires ListsClaims(live, claims) && QuoteFreeClaims(claims) && QuoteFreePath(c.path)
    ensures RuleMatches(ManagerAllowlist(managers), c, live) <==>
            exists i :: 0 <= i < |claims| && ClaimsPath(claims[i], c.path) && claims[i].value.0 in managers
  {
    OwnedByAnyIff(live, claims, c.path, managers);
  }

  // ----- ownership -----

  /** A change no rule ignores is drift when the first manager whose listed path agrees with its
      path is ours, or when there is none, and informational when it is another's. */
  lemma FirstClaimDecides(setup: Setup, raw: seq<Change>, live: Value, autoRules: seq<IgnoreRule>,
                          claims: seq<Claim>, c: Change)
    requires ListsClaims(live, claims) && QuoteFreeClaims(claims) && QuoteFreePath(c.path)
    requires c in raw && !Ignored(autoRules, c, live) && !Ignored(setup.userRules, c, live)
    ensures var t := Tiers(setup, raw, live, autoRules);
            && (c in t.drift <==> c !in t.informational)
            && (forall i :: FirstClaim(claims, c.path, i) ==> (c in t.drift <==> claims[i].value.0 == setup.ours))
            && ((forall i :: 0 <= i < |claims| ==> !ClaimsPath(claims[i], c.path)) ==> c in t.drift)
  {
    OwnerIsFirstClaim(live, claims, c.path);
    TiersAreVerdicts(setup, raw, live, autoRules);
    FilterMember(raw, (x: Change) => VerdictOf(setup, live, autoRules, x) == Drift, c);
    FilterMember(raw, (x: Change) => VerdictOf(setup, live, autoRules, x) == Informational, c);
  }

  /** What a rule ignores is reported as neither. */
  lemma IgnoredIsUnreported(setup: Setup, raw: seq<Change>, live: Value, autoRules: seq<IgnoreRule>, c: Change)
    requires Ignored(autoRules, c, live) || Ignored(setup.userRules, c, live)
    ensures var t := Tiers(setup, raw, live, autoRules); c !in t.drift && c !in t.informational
  {
    TiersAreVerdicts(setup, raw, live, autoRules);
    FilterMember(raw, (x: Change) => VerdictOf(setup, live, autoRules, x) == Drift, c);
    FilterMember(raw, (x: Change) => VerdictOf(setup, live, autoRules, x) == Informational, c);
  }

  // ----- autoscalers -----

  /** The object of this name and namespace. */
  predicate IsNamed(obj: Object, namespace: Option<string>, name: string)
  {
    obj.namespace == namespace && obj.name == Some(name)
  }

  /** The last object of the list with this name, among those that could be read. */
  predicate LastRead(objs: seq<Object>, namespace: Option<string>, name: string, i: int)
  {
    && 0 <= i < |objs| && IsNamed(objs[i], namespace, name) && objs[i].parsed.Some?
    && forall j :: i < j < |objs| && IsNamed(objs[j], namespace, name) ==> objs[j].parsed.None?
  }

  /** What an event makes of the claim kept for a controller, a namespace and a name. */
  lemma HandledSource(sources: Sources, controller: ControllerKind, ev: Event, k: SourceKey)
    ensures var after := Handled(sources, controller, ev);
            var same := (k in after <==> k in sources) && (k in after && k in sources ==> after[k] == sources[k]);
            if k.controller != controller then same
            else
              match ev
              case Applied(obj) =>
                if !IsNamed(obj, k.namespace, k.name) then same
                else if obj.parsed.Some? then k in after && after[k] == obj.parsed.value
                else k !in after
              case Deleted(obj) => if IsNamed(obj, k.namespace, k.name) then k !in after else same
              case Restarted(objs) =>
                && (forall i :: LastRead(objs, k.namespace, k.name, i) ==>
                    k in after && after[k] == objs[i].parsed.value)
                && (k in after ==> exists i :: LastRead(objs, k.namespace, k.name, i))
  {
    match ev
    case Applied(obj) =>
    case Deleted(obj) =>
    case Restarted(objs) =>
      ListedSource(WithoutController(sources, controller), controller, objs, k);
  }

  lemma {:induction false} ListedSource(sources: Sources, controller: ControllerKind, objs: seq<Object>, k: SourceKey)
    ensures var after := Listed(sources, controller, objs);
            if k.controller != controller || k in sources then
              k.controller != controller ==>
                (k in after <==> k in sources) && (k in after && k in sources ==> after[k] == sources[k])
            else
              && (forall i :: LastRead(objs, k.namespace, k.name, i) ==> k in after && after[k] == objs[i].parsed.value)
              && (k in after ==> exists i :: LastRead(objs, k.namespace, k.name, i))
  {
    if objs != [] {
      var n := |objs| - 1;
      ListedSource(sources, controller, objs[..n], k);
      if k.controller == controller && k !in sources {
        LastReadStep(objs, k.namespace, k.name);
      }
    }
  }

  lemma LastReadStep(objs: seq<Object>, namespace: Option<string>, name: string)
    requires objs != []
    ensures var n := |objs| - 1;
            if IsNamed(objs[n], namespace, name) && objs[n].parsed.Some? then
              LastRead(objs, namespace, name, n) && forall i :: LastRead(objs, namespace, name, i) ==> i == n
            else forall i :: LastRead(objs, namespace, name, i) <==> LastRead(objs[..n], namespace, name, i)
  {
    var n := |objs| - 1;
    forall i ensures !(IsNamed(objs[n], namespace, name) && objs[n].parsed.Some?) ==>
                       (LastRead(objs, namespace, name, i) <==> LastRead(objs[..n], namespace, name, i))
    {
      if LastRead(objs[..n], namespace, name, i) {
        assert forall j :: i < j < n ==> objs[..n][j] == objs[j];
      }
      if LastRead(objs, namespace, name, i) && i < n {
        assert objs[..n][i] == objs[i];
      }
    }
  }

  /** While a source claims the live object, a change at a path one of its globs fits is
      reported as neither drift nor information. */
  lemma AutoscaledIsUnreported(setup: Setup, raw: seq<Change>, live: Manifest<Value>, sources: Sources, cache: ByTarget,
                               k: SourceKey, glob: string, parts: seq<string>, c: Change)
    requires Groups(cache, sources) && k in sources
    requires sources[k].target == ResourceRef(live.gvk, live.namespace, live.name)
    requires glob in sources[k].ignoredPaths && glob != "" && DottedAs(parts, glob) && GlobFits(parts, c.path)
    ensures var t := Tiers(setup, raw, live.body, AutoRules(cache, live)); c !in t.drift && c !in t.informational
  {
    var target := ResourceRef(live.gvk, live.namespace, live.name);
    ClaimInCache(sources, cache, k, target);
    GlobRuleExact(parts, glob, c, live.body);
    var e := sources[k];
    var i :| 0 <= i < |e.ignoredPaths| && e.ignoredPaths[i] == glob;
    assert GlobsOf(e)[i] == PathGlob(glob);
    RuleFromEntry(EntriesFor(cache, target), PathGlob(glob));
    assert PathGlob(glob) in AutoRules(cache, live);
    IgnoredIsUnreported(setup, raw, live.body, AutoRules(cache, live), c);
  }

  /** The cache lists an entry for a target exactly when some source has it. */
  lemma CacheListsClaims(sources: Sources, cache: ByTarget, e: ScalerEntry, target: ResourceRef)
    requires Groups(cache, sources)
    ensures e in EntriesFor(cache, target) <==> e.target == target && exists k :: k in sources && sources[k] == e
  {
    var order :| Enumerates(order, sources) && CacheOf(cache, sources, order);
    var values := ValuesIn(sources, order);
    FilterMember(values, (x: ScalerEntry) => x.target == target, e);
    if e in values {
      var i :| 0 <= i < |order| && values[i] == e;
      assert order[i] in order;
    }
    forall k | k in sources && sources[k] == e ensures e in values {
      var i :| 0 <= i < |order| && order[i] == k;
      assert values[i] == e;
    }
  }

  lemma ClaimInCache(sources: Sources, cache: ByTarget, k: SourceKey, target: ResourceRef)
    requires Groups(cache, sources) && k in sources && sources[k].target == target
    ensures sources[k] in EntriesFor(cache, target)
  {
    CacheListsClaims(sources, cache, sources[k], target);
  }

  /** Once no source claims the live object, nothing is ignored on an autoscaler's account. */
  lemma UnclaimedIsReported(sources: Sources, cache: ByTarget, live: Manifest<Value>)
    requires Groups(cache, sources)
    requires forall k :: k in sources ==> sources[k].target != ResourceRef(live.gvk, live.namespace, live.name)
    ensures AutoRules(cache, live) == []
  {
    var entries := EntriesFor(cache, ResourceRef(live.gvk, live.namespace, live.name));
    if entries != [] {
      CacheListsClaims(sources, cache, entries[0], ResourceRef(live.gvk, live.namespace, live.name));
    }
  }
}
