/** The order of entries inside one wave. */
module KindOrder {
  import opened Common
  import opened Ordering
  import opened Plan

  const DEFAULT_PRIORITY: nat := 1000

  /** Dependencies before dependents; unknown kinds between RBAC and services. */
  function ApplyPriority(kind: string): nat
  {
    match kind
    case "Namespace" => 100
    case "NetworkPolicy" => 110
    case "ResourceQuota" => 120
    case "LimitRange" => 130
    case "PodSecurityPolicy" => 140
    case "PodDisruptionBudget" => 150
    case "ServiceAccount" => 200
    case "Secret" => 210
    case "SecretList" => 210
    case "ConfigMap" => 220
    case "StorageClass" => 300
    case "PersistentVolume" => 310
    case "PersistentVolumeClaim" => 320
    case "CustomResourceDefinition" => 400
    case "ClusterRole" => 500
    case "ClusterRoleList" => 500
    case "ClusterRoleBinding" => 510
    case "ClusterRoleBindingList" => 510
    case "Role" => 520
    case "RoleList" => 520
    case "RoleBinding" => 530
    case "RoleBindingList" => 530
    case "Service" => 1500
    case "DaemonSet" => 1600
    case "Pod" => 1610
    case "ReplicationController" => 1620
    case "ReplicaSet" => 1630
    case "Deployment" => 1640
    case "HorizontalPodAutoscaler" => 1650
    case "StatefulSet" => 1660
    case "Job" => 1670
    case "CronJob" => 1680
    case "Ingress" => 1800
    case "APIService" => 1810
    case _ => DEFAULT_PRIORITY
  }

  function ActionClass(a: PlannedAction): nat
  {
    if a.Delete? then 1 else 0
  }

  /** Priority, descending for deletes. */
  function CmpPriority(a: PlanEntry, b: PlanEntry): Cmp
  {
    var pa, pb := ApplyPriority(a.resource.gvk.kind), ApplyPriority(b.resource.gvk.kind);
    if a.action.Delete? then CmpInt(pb, pa) else CmpInt(pa, pb)
  }

  /** Kind, namespace, name: the group and version do not take part. */
  function CmpTieBreak(a: PlanEntry, b: PlanEntry): Cmp
  {
    CmpString(a.resource.gvk.kind, b.resource.gvk.kind).Then(
      CmpOption(a.resource.namespace, b.resource.namespace).Then(
        CmpString(a.resource.name, b.resource.name)))
  }

  function WithinWaveCmp(a: PlanEntry, b: PlanEntry): Cmp
  {
    CmpInt(ActionClass(a.action), ActionClass(b.action)).Then(CmpPriority(a, b).Then(CmpTieBreak(a, b)))
  }

  lemma TieBreakLaws(a: PlanEntry, b: PlanEntry, c: PlanEntry)
    ensures CmpTieBreak(b, a) == CmpTieBreak(a, b).Reverse()
    ensures Chain(CmpTieBreak(a, b), CmpTieBreak(b, c), CmpTieBreak(a, c))
  {
    CmpStringLaws(a.resource.gvk.kind, b.resource.gvk.kind, c.resource.gvk.kind);
    CmpOptionLaws(a.resource.namespace, b.resource.namespace, c.resource.namespace);
    CmpStringLaws(a.resource.name, b.resource.name, c.resource.name);
  }

  /** The comparator looks at the action of its left side only, yet is a total preorder:
      by then both sides are in one action class. */
  lemma WithinWaveLawful()
    ensures Lawful(WithinWaveCmp)
  {
    forall a, b ensures WithinWaveCmp(b, a) == WithinWaveCmp(a, b).Reverse()
    {
      TieBreakLaws(a, b, b);
    }
    forall a, b, c ensures Chain(WithinWaveCmp(a, b), WithinWaveCmp(b, c), WithinWaveCmp(a, c))
    {
      TieBreakLaws(a, b, c);
      var ab, bc, ac := CmpPriority(a, b), CmpPriority(b, c), CmpPriority(a, c);
      var ab', bc', ac' := CmpTieBreak(a, b), CmpTieBreak(b, c), CmpTieBreak(a, c);
      if a.action.Delete? == b.action.Delete? == c.action.Delete? {
        ThenChain(ab, bc, ac, ab', bc', ac');
      }
      ThenChain(CmpInt(ActionClass(a.action), ActionClass(b.action)),
                CmpInt(ActionClass(b.action), ActionClass(c.action)),
                CmpInt(ActionClass(a.action), ActionClass(c.action)), ab.Then(ab'), bc.Then(bc'), ac.Then(ac'));
    }
  }

  /** Dependencies come before their dependents, deletes of dependencies after; and every
      delete comes last. */
  lemma DependencyOrder(a: PlanEntry, b: PlanEntry)
    ensures !a.action.Delete? && b.action.Delete? ==> WithinWaveCmp(a, b) == Less
    ensures a.action.Delete? == b.action.Delete? &&
            ApplyPriority(a.resource.gvk.kind) < ApplyPriority(b.resource.gvk.kind) ==>
              if a.action.Delete? then WithinWaveCmp(b, a) == Less else WithinWaveCmp(a, b) == Less
  {
  }

  /** Two entries tie exactly when they share class, kind, namespace and name. Resources
      that differ in group or version alone therefore tie, and only the stability of the
      sort puts them in a determined order. */
  lemma TiesExactly(a: PlanEntry, b: PlanEntry)
    ensures WithinWaveCmp(a, b) == Equal <==>
            && a.action.Delete? == b.action.Delete?
            && a.resource.gvk.kind == b.resource.gvk.kind
            && a.resource.namespace == b.resource.namespace && a.resource.name == b.resource.name
  {
    CmpStringLaws(a.resource.gvk.kind, b.resource.gvk.kind, "");
    CmpOptionLaws(a.resource.namespace, b.resource.namespace, None);
    CmpStringLaws(a.resource.name, b.resource.name, "");
  }
}
