/** The order inside a wave, kind by kind. */
module KindRanks {
  import opened Ordering
  import opened Plan
  import opened Manifests
  import opened KindOrder
  import opened Waves

  /** What other resources are subject to or read from. */
  predicate IsBase(kind: string, rank: nat)
  {
    match rank
    case 0 => kind == "Namespace"
    case 1 => kind == "NetworkPolicy"
    case 2 => kind == "ResourceQuota"
    case 3 => kind == "LimitRange"
    case 4 => kind == "PodSecurityPolicy"
    case 5 => kind == "PodDisruptionBudget"
    case 6 => kind == "ServiceAccount"
    case 7 => kind == "Secret" || kind == "SecretList"
    case 8 => kind == "ConfigMap"
    case _ => false
  }

  /** Storage, custom types and access control. */
  predicate IsAccess(kind: string, rank: nat)
  {
    match rank
    case 9 => kind == "StorageClass"
    case 10 => kind == "PersistentVolume"
    case 11 => kind == "PersistentVolumeClaim"
    case 12 => kind == "CustomResourceDefinition"
    case 13 => kind == "ClusterRole" || kind == "ClusterRoleList"
    case 14 => kind == "ClusterRoleBinding" || kind == "ClusterRoleBindingList"
    case 15 => kind == "Role" || kind == "RoleList"
    case 16 => kind == "RoleBinding" || kind == "RoleBindingList"
    case _ => false
  }

  /** Services and workloads. */
  predicate IsWork(kind: string, rank: nat)
  {
    match rank
    case 18 => kind == "Service"
    case 19 => kind == "DaemonSet"
    case 20 => kind == "Pod"
    case 21 => kind == "ReplicationController"
    case 22 => kind == "ReplicaSet"
    case 23 => kind == "Deployment"
    case _ => false
  }

  /** Scaled, scheduled and exposed work. */
  predicate IsLate(kind: string, rank: nat)
  {
    match rank
    case 24 => kind == "HorizontalPodAutoscaler"
    case 25 => kind == "StatefulSet"
    case 26 => kind == "Job"
    case 27 => kind == "CronJob"
    case 28 => kind == "Ingress"
    case 29 => kind == "APIService"
    case _ => false
  }

  predicate Listed(kind: string)
  {
    exists rank: nat :: rank < 30 && (IsBase(kind, rank) || IsAccess(kind, rank) ||
                              IsWork(kind, rank) || IsLate(kind, rank))
  }

  /** The kinds in the order they are applied; two kinds of one rank are told apart by name. A
      kind that is not listed stands at rank 17, after access control and before `Service`. */
  predicate HasRank(kind: string, rank: nat)
  {
    IsBase(kind, rank) || IsAccess(kind, rank) || IsWork(kind, rank) || IsLate(kind, rank) ||
      (rank == 17 && !Listed(kind))
  }

  /** The numbers behind the ranks; only their order matters. */
  const PRIORITIES: seq<nat> := [
    100, 110, 120, 130, 140, 150, 200, 210, 220, 300, 310, 320, 400, 500, 510, 520, 530,
    1000,
    1500, 1600, 1610, 1620, 1630, 1640, 1650, 1660, 1670, 1680, 1800, 1810]

  lemma BasePriority(kind: string, rank: nat)
    requires IsBase(kind, rank)
    ensures ApplyPriority(kind) == PRIORITIES[rank]
  {
  }

  lemma AccessPriority(kind: string, rank: nat)
    requires IsAccess(kind, rank)
    ensures ApplyPriority(kind) == PRIORITIES[rank]
  {
  }

  lemma WorkPriority(kind: string, rank: nat)
    requires IsWork(kind, rank)
    ensures ApplyPriority(kind) == PRIORITIES[rank]
  {
  }

  lemma ScalingPriority(kind: string, rank: nat)
    requires IsLate(kind, rank) && rank < 27
    ensures ApplyPriority(kind) == PRIORITIES[rank]
  {
  }

  lemma LatePriority(kind: string, rank: nat)
    requires IsLate(kind, rank)
    ensures ApplyPriority(kind) == PRIORITIES[rank]
  {
    if rank < 27 {
      ScalingPriority(kind, rank);
    }
  }

  lemma NotBase(kind: string)
    requires !Listed(kind)
    ensures kind !in {"Namespace", "NetworkPolicy", "ResourceQuota", "LimitRange", "PodSecurityPolicy",
                      "PodDisruptionBudget", "ServiceAccount", "Secret", "SecretList", "ConfigMap"}
  {
    assert forall rank: nat :: rank < 30 ==> !IsBase(kind, rank);
    assert !IsBase(kind, 0) && !IsBase(kind, 1) && !IsBase(kind, 2) && !IsBase(kind, 3) && !IsBase(kind, 4) &&
           !IsBase(kind, 5) && !IsBase(kind, 6) && !IsBase(kind, 7) && !IsBase(kind, 8);
  }

  lemma NotAccess(kind: string)
    requires !Listed(kind)
    ensures kind !in {"StorageClass", "PersistentVolume", "PersistentVolumeClaim", "CustomResourceDefinition",
                      "ClusterRole", "ClusterRoleList", "ClusterRoleBinding", "ClusterRoleBindingList", "Role",
                      "RoleList", "RoleBinding", "RoleBindingList"}
  {
    assert forall rank: nat :: rank < 30 ==> !IsAccess(kind, rank);
    assert !IsAccess(kind, 9) && !IsAccess(kind, 10) && !IsAccess(kind, 11) && !IsAccess(kind, 12) &&
           !IsAccess(kind, 13) && !IsAccess(kind, 14) && !IsAccess(kind, 15) && !IsAccess(kind, 16);
  }

  lemma NotWork(kind: string)
    requires !Listed(kind)
    ensures kind !in {"Service", "DaemonSet", "Pod", "ReplicationController", "ReplicaSet", "Deployment"}
  {
    assert forall rank: nat :: rank < 30 ==> !IsWork(kind, rank);
    assert !IsWork(kind, 18) && !IsWork(kind, 19) && !IsWork(kind, 20);
    assert !IsWork(kind, 21) && !IsWork(kind, 22) && !IsWork(kind, 23);
  }

  lemma NotLate(kind: string)
    requires !Listed(kind)
    ensures kind !in {"HorizontalPodAutoscaler", "StatefulSet", "Job", "CronJob", "Ingress", "APIService"}
  {
    assert forall rank: nat :: rank < 30 ==> !IsLate(kind, rank);
    assert !IsLate(kind, 24) && !IsLate(kind, 25) && !IsLate(kind, 26);
    assert !IsLate(kind, 27) && !IsLate(kind, 28) && !IsLate(kind, 29);
  }

  lemma UnlistedPriority(kind: string)
    requires !Listed(kind)
    ensures ApplyPriority(kind) == 1000
  {
    NotBase(kind);
    NotAccess(kind);
    NotWork(kind);
    NotLate(kind);
  }

  lemma PriorityOfRank(kind: string, rank: nat)
    requires HasRank(kind, rank)
    ensures rank < |PRIORITIES| && ApplyPriority(kind) == PRIORITIES[rank]
  {
    if IsBase(kind, rank) {
      BasePriority(kind, rank);
    } else if IsAccess(kind, rank) {
      AccessPriority(kind, rank);
    } else if IsWork(kind, rank) {
      WorkPriority(kind, rank);
    } else if IsLate(kind, rank) {
      LatePriority(kind, rank);
    } else {
      UnlistedPriority(kind);
    }
  }

  lemma {:induction false} PrioritiesAscend(i: nat, j: nat)
    requires i < j < |PRIORITIES|
    ensures PRIORITIES[i] < PRIORITIES[j]
  {
    if i + 1 < j {
      PrioritiesAscend(i, j - 1);
    }
  }

  /** `a` is carried out before `b`: applies before deletes; applies by ascending rank of the
      kind, deletes by descending; then by kind, namespace (none first) and name. */
  ghost predicate CarriedOutBefore(a: PlanEntry, b: PlanEntry, rankA: nat, rankB: nat)
  {
    if a.action.Delete? != b.action.Delete? then b.action.Delete?
    else if rankA != rankB then (if a.action.Delete? then rankB < rankA else rankA < rankB)
    else if a.resource.gvk.kind != b.resource.gvk.kind then TextBefore(a.resource.gvk.kind, b.resource.gvk.kind)
    else if a.resource.namespace != b.resource.namespace then
      a.resource.namespace.None? ||
      (b.resource.namespace.Some? && TextBefore(a.resource.namespace.value, b.resource.namespace.value))
    else TextBefore(a.resource.name, b.resource.name)
  }

  /** The comparator is exactly that order. */
  lemma WithinWaveIsRankOrder(a: PlanEntry, b: PlanEntry, rankA: nat, rankB: nat)
    requires HasRank(a.resource.gvk.kind, rankA) && HasRank(b.resource.gvk.kind, rankB)
    ensures WithinWaveCmp(a, b) == Less <==> CarriedOutBefore(a, b, rankA, rankB)
  {
    PriorityOfRank(a.resource.gvk.kind, rankA);
    PriorityOfRank(b.resource.gvk.kind, rankB);
    if rankA < rankB {
      PrioritiesAscend(rankA, rankB);
    } else if rankB < rankA {
      PrioritiesAscend(rankB, rankA);
    }
    TieBreakIs(a, b);
  }

  lemma TieBreakIs(a: PlanEntry, b: PlanEntry)
    ensures CmpTieBreak(a, b) == Less <==>
            if a.resource.gvk.kind != b.resource.gvk.kind then TextBefore(a.resource.gvk.kind, b.resource.gvk.kind)
            else if a.resource.namespace != b.resource.namespace then
              a.resource.namespace.None? ||
              (b.resource.namespace.Some? && TextBefore(a.resource.namespace.value, b.resource.namespace.value))
            else TextBefore(a.resource.name, b.resource.name)
  {
    CmpStringIs(a.resource.gvk.kind, b.resource.gvk.kind);
    CmpStringIs(a.resource.name, b.resource.name);
    if a.resource.namespace.Some? && b.resource.namespace.Some? {
      CmpStringIs(a.resource.namespace.value, b.resource.namespace.value);
    }
  }

  /** Inside a wave no entry stands before one that is to be carried out before it. */
  lemma WaveFollowsTheRanks(waveOf: ResourceRef -> int, entries: seq<PlanEntry>, waves: seq<WaveGroup>,
                            g: WaveGroup, i: nat, j: nat, rankI: nat, rankJ: nat)
    requires IsWavePlan(waveOf, entries, waves) && g in waves && i < j < |g.entries|
    requires HasRank(g.entries[i].resource.gvk.kind, rankI) && HasRank(g.entries[j].resource.gvk.kind, rankJ)
    ensures !CarriedOutBefore(g.entries[j], g.entries[i], rankJ, rankI)
  {
    var a, b := g.entries[i], g.entries[j];
    WithinWaveLawful();
    StableSortSorts(EntriesOfWave(waveOf, entries, g.wave), WithinWaveCmp);
    assert WithinWaveCmp(a, b) != Greater && WithinWaveCmp(b, a) == WithinWaveCmp(a, b).Reverse();
    WithinWaveIsRankOrder(b, a, rankJ, rankI);
  }
}
