/** The built-in registry of keyed lists, and which pod lists it reaches. */
module DefaultRules {
  import opened Common
  import opened Manifests
  import opened Yaml
  import opened Text
  import opened ListMap
  import opened ListRules
  import opened Compare
  import opened CompareSpec
  import opened CompareLaws

  /** A rule, by the parts of its dotted pattern. */
  function Rule(parts: seq<string>, keys: seq<string>): ListMapKind
  {
    ListMapKind(Join(parts, '.'), keys)
  }

  datatype Pattern = Pattern(parts: seq<string>, keys: seq<string>)

  const UNIVERSAL: seq<Pattern> := [
    Pattern(["metadata", "ownerReferences"], ["uid"]),
    Pattern(["metadata", "managedFields"], ["manager", "operation"])]

  /** Lists of a bare pod. */
  const IN_POD: seq<Pattern> := [
    Pattern(["spec", "containers"], ["name"]),
    Pattern(["spec", "initContainers"], ["name"]),
    Pattern(["spec", "ephemeralContainers"], ["name"]),
    Pattern(["spec", "containers", "*", "env"], ["name"]),
    Pattern(["spec", "containers", "*", "envFrom"], ["name"]),
    Pattern(["spec", "containers", "*", "ports"], ["containerPort", "protocol"]),
    Pattern(["spec", "containers", "*", "volumeMounts"], ["mountPath"]),
    Pattern(["spec", "initContainers", "*", "env"], ["name"]),
    Pattern(["spec", "initContainers", "*", "volumeMounts"], ["mountPath"]),
    Pattern(["spec", "volumes"], ["name"]),
    Pattern(["spec", "imagePullSecrets"], ["name"]),
    Pattern(["spec", "tolerations"], ["key", "operator", "effect"])]

  /** Lists of a pod template. */
  const IN_TEMPLATE: seq<Pattern> := [
    Pattern(["spec", "template", "spec", "containers"], ["name"]),
    Pattern(["spec", "template", "spec", "initContainers"], ["name"]),
    Pattern(["spec", "template", "spec", "containers", "*", "env"], ["name"]),
    Pattern(["spec", "template", "spec", "containers", "*", "envFrom"], ["name"]),
    Pattern(["spec", "template", "spec", "containers", "*", "ports"], ["containerPort", "protocol"]),
    Pattern(["spec", "template", "spec", "containers", "*", "volumeMounts"], ["mountPath"]),
    Pattern(["spec", "template", "spec", "initContainers", "*", "env"], ["name"]),
    Pattern(["spec", "template", "spec", "initContainers", "*", "volumeMounts"], ["mountPath"]),
    Pattern(["spec", "template", "spec", "volumes"], ["name"]),
    Pattern(["spec", "template", "spec", "imagePullSecrets"], ["name"]),
    Pattern(["spec", "template", "spec", "tolerations"], ["key", "operator", "effect"])]

  const SERVICE: Pattern := Pattern(["spec", "ports"], ["port", "protocol"])

  const WORKLOADS: seq<Gvk> := [
    Gvk("", "*", "Pod"), Gvk("apps", "*", "Deployment"), Gvk("apps", "*", "StatefulSet"), Gvk("apps", "*", "DaemonSet"),
    Gvk("apps", "*", "ReplicaSet"), Gvk("batch", "*", "Job"), Gvk("batch", "*", "CronJob")]

  function RulesIn(patterns: seq<Pattern>): seq<ListMapKind>
  {
    seq(|patterns|, i requires 0 <= i < |patterns| => Rule(patterns[i].parts, patterns[i].keys))
  }

  function Registered(byKind: map<Gvk, seq<ListMapKind>>, gvk: Gvk, rule: ListMapKind): map<Gvk, seq<ListMapKind>>
  {
    byKind[gvk := (if gvk in byKind then byKind[gvk] else []) + [rule]]
  }

  /** The pod rules for each workload kind in any version, the service rule, the universal rules, and no others. */
  ghost predicate IsDefault(reg: ListMapKeys)
  {
    && reg.universal == RulesIn(UNIVERSAL)
    && (forall gvk :: gvk in reg.byKind <==> gvk in WORKLOADS || gvk == Gvk("", "*", "Service"))
    && (forall gvk :: gvk in WORKLOADS ==> reg.byKind[gvk] == RulesIn(IN_POD + IN_TEMPLATE))
    && reg.byKind[Gvk("", "*", "Service")] == RulesIn([SERVICE])
  }

  lemma KindsDiffer(i: nat, j: nat)
    requires i < j < |WORKLOADS|
    ensures WORKLOADS[i] != WORKLOADS[j]
  {
  }

  lemma ServiceIsNoWorkload(i: nat)
    requires i < |WORKLOADS|
    ensures WORKLOADS[i] != Gvk("", "*", "Service")
  {
  }

  lemma RulesSnoc(patterns: seq<Pattern>, n: nat)
    requires n < |patterns|
    ensures RulesIn(patterns[..n + 1]) == RulesIn(patterns[..n]) + [Rule(patterns[n].parts, patterns[n].keys)]
  {
  }

  /** The nested loops over kinds and patterns. */
  method Defaults() returns (reg: ListMapKeys)
    ensures IsDefault(reg)
  {
    var patterns := IN_POD + IN_TEMPLATE;
    var byKind: map<Gvk, seq<ListMapKind>> := map[];
    for k := 0 to |WORKLOADS|
      invariant forall gvk :: gvk in byKind <==> gvk in WORKLOADS[..k]
      invariant forall gvk :: gvk in byKind ==> byKind[gvk] == RulesIn(patterns)
    {
      var gvk := WORKLOADS[k];
      ghost var before := byKind;
      forall j | 0 <= j < k ensures WORKLOADS[j] != gvk {
        KindsDiffer(j, k);
      }
      assert gvk !in before;
      for n := 0 to |patterns|
        invariant forall g :: g in byKind <==> g in before || (g == gvk && n > 0)
        invariant forall g :: g in before ==> byKind[g] == before[g]
        invariant n > 0 ==> byKind[gvk] == RulesIn(patterns[..n])
      {
        RulesSnoc(patterns, n);
        byKind := Registered(byKind, gvk, Rule(patterns[n].parts, patterns[n].keys));
      }
      assert patterns[..|patterns|] == patterns;
      assert WORKLOADS[..k + 1] == WORKLOADS[..k] + [gvk];
    }
    assert WORKLOADS[..|WORKLOADS|] == WORKLOADS;
    forall j | 0 <= j < |WORKLOADS| ensures WORKLOADS[j] != Gvk("", "*", "Service") {
      ServiceIsNoWorkload(j);
    }
    byKind := Registered(byKind, Gvk("", "*", "Service"), Rule(SERVICE.parts, SERVICE.keys));
    reg := ListMapKeys(byKind, RulesIn(UNIVERSAL));
  }

  // ----- what the patterns reach -----

  predicate Plain(p: Pattern)
  {
    p.parts != [] && forall part :: part in p.parts ==> '.' !in part
  }

  predicate Reaches(p: Pattern, path: Path)
  {
    |p.parts| == |path| &&
    forall i :: 0 <= i < |path| ==> p.parts[i] == "*" || (path[i].Field? && p.parts[i] == path[i].name)
  }

  lemma RuleReaches(p: Pattern, path: Path)
    requires Plain(p) && Undotted(path)
    ensures Fits(Rule(p.parts, p.keys), path) <==> Reaches(p, path)
  {
    FitsBySegments(Rule(p.parts, p.keys), path, p.parts);
  }

  lemma PodPlain(i: nat)
    requires i < |IN_POD|
    ensures Plain(IN_POD[i])
  {
    if i < 6 {
      PodPlainFront(i);
    }
  }

  lemma PodPlainFront(i: nat)
    requires i < 6
    ensures Plain(IN_POD[i])
  {
  }

  lemma TemplatePlain(i: nat)
    requires i < |IN_TEMPLATE|
    ensures Plain(IN_TEMPLATE[i])
  {
    if i < 3 {
      TemplatePlainFront(i);
    } else if i < 6 {
      TemplatePlainMiddle(i);
    }
  }

  lemma TemplatePlainFront(i: nat)
    requires i < 3
    ensures Plain(IN_TEMPLATE[i])
  {
  }

  lemma TemplatePlainMiddle(i: nat)
    requires 3 <= i < 6
    ensures Plain(IN_TEMPLATE[i])
  {
  }

  /** No pattern goes through `spec.jobTemplate`. */
  predicate LeavesOutJobs(p: Pattern)
  {
    && Plain(p) && |p.parts| >= 2
    && (p.parts[0] == "metadata" || (p.parts[0] == "spec" && p.parts[1] != "*" && p.parts[1] != "jobTemplate"))
  }

  lemma PodLeavesOutJobs(i: nat)
    requires i < |IN_POD|
    ensures LeavesOutJobs(IN_POD[i])
  {
    PodPlain(i);
  }

  lemma TemplateLeavesOutJobs(i: nat)
    requires i < |IN_TEMPLATE|
    ensures LeavesOutJobs(IN_TEMPLATE[i])
  {
    TemplatePlain(i);
  }

  lemma UniversalLeavesOutJobs(i: nat)
    requires i < |UNIVERSAL|
    ensures LeavesOutJobs(UNIVERSAL[i])
  {
  }

  /** The rule at a position of a kind's list, as a pattern. */
  lemma RuleAt(reg: ListMapKeys, gvk: Gvk, i: nat) returns (p: Pattern)
    requires IsDefault(reg) && Gvk(gvk.group, "*", gvk.kind) in WORKLOADS && i < |RulesFor(reg, gvk)|
    ensures RulesFor(reg, gvk)[i] == Rule(p.parts, p.keys) && LeavesOutJobs(p)
  {
    var u, n := |UNIVERSAL|, |IN_POD| + |IN_TEMPLATE|;
    if i < u {
      UniversalLeavesOutJobs(i);
      p := UNIVERSAL[i];
    } else {
      var k := if i - u < n then i - u else i - u - n;
      p := (IN_POD + IN_TEMPLATE)[k];
      if k < |IN_POD| {
        PodLeavesOutJobs(k);
      } else {
        TemplateLeavesOutJobs(k - |IN_POD|);
      }
    }
  }

  /** No list in the job template of a cron job is keyed, although the registry lists the kind: its pods are below
      `spec.jobTemplate`, where no pattern looks. */
  lemma JobTemplateIsPlain(reg: ListMapKeys, gvk: Gvk, rest: Path)
    requires IsDefault(reg) && gvk.group == "batch" && gvk.kind == "CronJob"
    requires Undotted([Field("spec"), Field("jobTemplate")] + rest)
    ensures reg.KeysFor(gvk, [Field("spec"), Field("jobTemplate")] + rest) == None
  {
    var path := [Field("spec"), Field("jobTemplate")] + rest;
    assert WORKLOADS[6] == Gvk(gvk.group, "*", gvk.kind);
    forall i | 0 <= i < |RulesFor(reg, gvk)| ensures !Fits(RulesFor(reg, gvk)[i], path) {
      var p := RuleAt(reg, gvk, i);
      RuleReaches(p, path);
      assert path[0] == Field("spec") && path[1] == Field("jobTemplate");
    }
    KeysForExactly(reg, gvk, path, []);
  }

  /** Where the pod specification of a workload is. */
  function PodAt(kind: string): Path
  {
    if kind == "Pod" then [Field("spec")]
    else if kind == "CronJob" then
      [Field("spec"), Field("jobTemplate"), Field("spec"), Field("template"), Field("spec")]
    else [Field("spec"), Field("template"), Field("spec")]
  }

  lemma RuleIs(reg: ListMapKeys, gvk: Gvk, i: nat)
    requires IsDefault(reg) && Gvk(gvk.group, "*", gvk.kind) in WORKLOADS
    requires i < |UNIVERSAL| + |IN_POD| + |IN_TEMPLATE|
    ensures i < |RulesFor(reg, gvk)|
    ensures var p := if i < |UNIVERSAL| then UNIVERSAL[i] else (IN_POD + IN_TEMPLATE)[i - |UNIVERSAL|];
            RulesFor(reg, gvk)[i] == Rule(p.parts, p.keys)
  {
  }

  lemma PodsNamesNoTemplate(i: nat)
    requires i < |IN_POD|
    ensures IN_POD[i].parts[0] == "spec" && IN_POD[i].parts[1] != "*" && IN_POD[i].parts[1] != "template"
  {
  }

  lemma PodContainersAt(i: nat, path: Path)
    requires i <= |UNIVERSAL| && path == [Field("spec"), Field("containers")]
    ensures var p := if i < |UNIVERSAL| then UNIVERSAL[i] else IN_POD[0];
            Fits(Rule(p.parts, p.keys), path) <==> i == |UNIVERSAL|
  {
    var p := if i < |UNIVERSAL| then UNIVERSAL[i] else IN_POD[0];
    if i < |UNIVERSAL| {
      UniversalLeavesOutJobs(i);
    } else {
      PodPlainFront(0);
    }
    RuleReaches(p, path);
  }

  lemma PodContainers(reg: ListMapKeys, gvk: Gvk)
    requires IsDefault(reg) && Gvk(gvk.group, "*", gvk.kind) in WORKLOADS && gvk.kind == "Pod"
    ensures reg.KeysFor(gvk, PodAt(gvk.kind) + [Field("containers")]) == Some(["name"])
  {
    var path := PodAt(gvk.kind) + [Field("containers")];
    var n := |UNIVERSAL|;
    forall i | 0 <= i <= n ensures Fits(RulesFor(reg, gvk)[i], path) <==> i == n {
      RuleIs(reg, gvk, i);
      PodContainersAt(i, path);
    }
    RuleIs(reg, gvk, n);
    assert FirstFits(RulesFor(reg, gvk), path, n);
    KeysForExactly(reg, gvk, path, ["name"]);
  }

  /** A pattern whose first or second part is another name does not reach the path. */
  lemma OtherBranch(p: Pattern, path: Path)
    requires Plain(p) && Undotted(path) && |p.parts| >= 2 && |path| >= 2
    requires (p.parts[0] != "*" && path[0].Field? && p.parts[0] != path[0].name) ||
             (p.parts[1] != "*" && path[1].Field? && p.parts[1] != path[1].name)
    ensures !Fits(Rule(p.parts, p.keys), path)
  {
    RuleReaches(p, path);
  }

  lemma EarlierRulesMiss(i: nat, path: Path)
    requires path == [Field("spec"), Field("template"), Field("spec"), Field("containers")]
    ensures i < |UNIVERSAL| ==> !Fits(Rule(UNIVERSAL[i].parts, UNIVERSAL[i].keys), path)
    ensures i < |IN_POD| ==> !Fits(Rule(IN_POD[i].parts, IN_POD[i].keys), path)
  {
    if i < |UNIVERSAL| {
      UniversalLeavesOutJobs(i);
      OtherBranch(UNIVERSAL[i], path);
    }
    if i < |IN_POD| {
      PodPlain(i);
      PodsNamesNoTemplate(i);
      OtherBranch(IN_POD[i], path);
    }
  }

  lemma TemplateReaches(path: Path)
    requires path == [Field("spec"), Field("template"), Field("spec"), Field("containers")]
    ensures Fits(Rule(IN_TEMPLATE[0].parts, IN_TEMPLATE[0].keys), path)
  {
    TemplatePlainFront(0);
    RuleReaches(IN_TEMPLATE[0], path);
  }

  lemma TemplateContainers(reg: ListMapKeys, gvk: Gvk)
    requires IsDefault(reg) && Gvk(gvk.group, "*", gvk.kind) in WORKLOADS && gvk.kind !in {"Pod", "CronJob"}
    ensures reg.KeysFor(gvk, PodAt(gvk.kind) + [Field("containers")]) == Some(["name"])
  {
    var path := PodAt(gvk.kind) + [Field("containers")];
    var u, n := |UNIVERSAL|, |UNIVERSAL| + |IN_POD|;
    forall i | 0 <= i < n ensures !Fits(RulesFor(reg, gvk)[i], path) {
      RuleIs(reg, gvk, i);
      EarlierRulesMiss(if i < u then i else i - u, path);
    }
    RuleIs(reg, gvk, n);
    TemplateReaches(path);
    assert FirstFits(RulesFor(reg, gvk), path, n);
    KeysForExactly(reg, gvk, path, ["name"]);
  }

  lemma CronJobContainers(reg: ListMapKeys, gvk: Gvk)
    requires IsDefault(reg) && gvk.group == "batch" && gvk.kind == "CronJob"
    ensures reg.KeysFor(gvk, PodAt(gvk.kind) + [Field("containers")]) == None
  {
    var rest := [Field("spec"), Field("template"), Field("spec"), Field("containers")];
    assert PodAt(gvk.kind) + [Field("containers")] == [Field("spec"), Field("jobTemplate")] + rest;
    JobTemplateIsPlain(reg, gvk, rest);
  }

  /** The containers of a workload of a listed kind, in any version, are told apart by name if and only if the kind is
      not `CronJob`. */
  lemma ContainersKeyedIff(reg: ListMapKeys, gvk: Gvk)
    requires IsDefault(reg) && Gvk(gvk.group, "*", gvk.kind) in WORKLOADS
    ensures reg.KeysFor(gvk, PodAt(gvk.kind) + [Field("containers")]) ==
            if gvk.kind == "CronJob" then None else Some(["name"])
  {
    if gvk.kind == "Pod" {
      PodContainers(reg, gvk);
    } else if gvk.kind == "CronJob" {
      CronJobContainers(reg, gvk);
    } else {
      TemplateContainers(reg, gvk);
    }
  }

  /** A list without a rule is compared by position, so its first elements must match. */
  lemma FirstMustMatch(ctx: Ctx, d: seq<Value>, l: seq<Value>, path: Path)
    requires ctx.listMaps.KeysFor(ctx.gvk, path) == None && |d| == |l| == 2
    requires DiffValue(ctx, d[0], l[0], path + [Index(0)]) != []
    ensures DiffValue(ctx, Sequence(d), Sequence(l), path) != []
  {
    var one := DiffIndexed(ctx, d, l, 1, path);
    assert one == DiffIndexed(ctx, d, l, 0, path) + IndexChange(ctx, d, l, 0, path);
    assert DiffIndexed(ctx, d, l, 2, path) == one + IndexChange(ctx, d, l, 1, path);
  }

  /** So two elements of a job template's list that differ are reported when they merely change places. */
  lemma SwapInJobTemplateIsReported(ctx: Ctx, x: Value, y: Value, rest: Path)
    requires IsDefault(ctx.listMaps) && ctx.gvk.group == "batch" && ctx.gvk.kind == "CronJob"
    requires Undotted([Field("spec"), Field("jobTemplate")] + rest) && Wf(x) && Wf(y)
    requires !Equivalent(ctx, x, y, [Field("spec"), Field("jobTemplate")] + rest + [Index(0)])
    ensures DiffValue(ctx, Sequence([x, y]), Sequence([y, x]), [Field("spec"), Field("jobTemplate")] + rest) != []
  {
    var path := [Field("spec"), Field("jobTemplate")] + rest;
    JobTemplateIsPlain(ctx.listMaps, ctx.gvk, rest);
    EmptyIffEquivalent(ctx, x, y, path + [Index(0)]);
    FirstMustMatch(ctx, [x, y], [y, x], path);
  }
}
