/** What the applier is handed, and what the cluster becomes of it. */
module WaveHandover {
  import opened Common
  import opened Yaml
  import opened Manifests
  import opened ManifestBodies
  import opened Plan
  import opened Waves
  import opened WaveRun
  import opened WaveLaws

  // ----- the manifests handed over -----

  /** The body of the slice's last manifest of this resource, if it has one. */
  ghost predicate LastBody(ms: seq<Manifest<Body>>, r: ResourceRef, handed: Option<Body>)
  {
    match handed
    case Some(body) => exists i :: LastOf(ms, i, r) && ms[i].body == body
    case None => Absent(ms, r)
  }

  /** Asked to apply, the applier gets what is desired; asked to delete, what is live. */
  ghost predicate HandsOver(desired: seq<Manifest<Body>>, live: seq<Manifest<Body>>, e: Event)
  {
    e.Applied? ==>
      match e.entry.action
      case Apply => LastBody(desired, e.entry.resource, e.manifest)
      case Delete => LastBody(live, e.entry.resource, e.manifest)
      case NoOp => false
  }

  lemma HandedBody(ms: seq<Manifest<Body>>, r: ResourceRef)
    ensures LastBody(ms, r, if r in IndexOf(ms) then Some(IndexOf(ms)[r]) else None)
  {
    IndexedLast(ms, r);
  }

  lemma OneHandover(desired: seq<Manifest<Body>>, live: seq<Manifest<Body>>, cfg: Config, world: World,
                    g: WaveGroup, i: nat, e: Event)
    requires Asked(g, Setting(cfg, world, IndexOf(desired), IndexOf(live)), i, e) && e.Applied?
    ensures HandsOver(desired, live, e)
  {
    HandedBody(desired, e.entry.resource);
    HandedBody(live, e.entry.resource);
    FilterMember(g.entries, (x: PlanEntry) => x.action != NoOp, e.entry);
  }

  lemma {:induction false} InSomeWave(logs: seq<WaveLog>, k: nat) returns (j: nat, o: nat)
    requires k < |Trace(logs)|
    ensures j < |logs| && o < |logs[j].events| && Trace(logs)[k] == logs[j].events[o]
    decreases |logs|
  {
    var n := |logs| - 1;
    if k < |Trace(logs[..n])| {
      j, o := InSomeWave(logs[..n], k);
    } else {
      j, o := n, k - |Trace(logs[..n])|;
    }
  }

  /** Over every run, accepted or refused: an apply is handed the last desired manifest of its
      resource, a delete the last live one, and nothing else is ever asked of the applier. */
  lemma HandsOverTheRightManifest(desired: seq<Manifest<Body>>, live: seq<Manifest<Body>>, cfg: Config, world: World,
                                  waves: seq<WaveGroup>, logs: seq<WaveLog>, outcome: Result<seq<int>, ExecError>,
                                  k: nat)
    requires IsRun(waves, Setting(cfg, world, IndexOf(desired), IndexOf(live)), logs, outcome) && k < |Trace(logs)|
    ensures HandsOver(desired, live, Trace(logs)[k])
  {
    var j, o := InSomeWave(logs, k);
    var e := logs[j].events[o];
    RunShape(waves, Setting(cfg, world, IndexOf(desired), IndexOf(live)), logs, j, o);
    if e.Applied? {
      OneHandover(desired, live, cfg, world, waves[j], o, e);
    }
  }

  /** Every poll asks about the resources of all changes of its wave, in order. */
  lemma PollsAskForAll(waves: seq<WaveGroup>, st: Setting, logs: seq<WaveLog>, outcome: Result<seq<int>, ExecError>,
                       j: nat, o: nat)
    requires IsRun(waves, st, logs, outcome) && j < |logs| && o < |logs[j].events| && logs[j].events[o].Polled?
    ensures var asked, changed := logs[j].events[o].resources, Changed(waves[j].entries);
            |asked| == |changed| && forall i :: 0 <= i < |asked| ==> asked[i] == changed[i].resource
  {
    RunShape(waves, st, logs, j, o);
  }

  // ----- what becomes of the cluster -----

  /** A cluster in which an accepted apply puts what was handed over, and an accepted delete
      removes the resource. */
  function Landed(world: World, cluster: Bodies, e: Event): Bodies
  {
    if !e.Applied? || !world.applyOk(e.action) then cluster
    else
      match (e.entry.action, e.manifest)
      case (Apply, Some(body)) => cluster[e.entry.resource := body]
      case (Delete, _) => cluster - {e.entry.resource}
      case _ => cluster
  }

  function ClusterAfterRun(world: World, cluster: Bodies, events: seq<Event>): Bodies
  {
    if events == [] then cluster
    else Landed(world, ClusterAfterRun(world, cluster, events[..|events| - 1]), events[|events| - 1])
  }

  ghost predicate AllHandedOver(desired: seq<Manifest<Body>>, live: seq<Manifest<Body>>, events: seq<Event>)
  {
    forall k :: 0 <= k < |events| ==> HandsOver(desired, live, events[k])
  }

  /** When the right manifests are handed over, what lands is what was planned. */
  lemma {:induction false} LandsAsPlanned(desired: seq<Manifest<Body>>, live: seq<Manifest<Body>>, world: World,
                                          cluster: Bodies, events: seq<Event>)
    requires AllHandedOver(desired, live, events)
    ensures ClusterAfterRun(world, cluster, events) == Effects(IndexOf(desired), cluster, Accepted(world, events))
  {
    if events != [] {
      var n := |events| - 1;
      LandsAsPlanned(desired, live, world, cluster, events[..n]);
      var done := Accepted(world, events[..n]);
      if events[n].Applied? && world.applyOk(events[n].action) {
        assert (done + [events[n].entry])[..|done|] == done;
        LandsOne(desired, live, world, Effects(IndexOf(desired), cluster, done), events[n]);
      } else {
        assert done + [] == done;
      }
    }
  }

  lemma LandsOne(desired: seq<Manifest<Body>>, live: seq<Manifest<Body>>, world: World, cluster: Bodies, e: Event)
    requires HandsOver(desired, live, e) && e.Applied? && world.applyOk(e.action)
    ensures Landed(world, cluster, e) == Effect(IndexOf(desired), cluster, e.entry)
  {
    IndexedLast(desired, e.entry.resource);
  }

  /** Exactly the desired resources, each with a body that compares equal to the desired one. */
  ghost predicate Converged(parse: Bytes -> Value, desired: seq<Manifest<Body>>, cluster: Bodies)
  {
    && (forall r :: r in cluster <==> !Absent(desired, r))
    && (forall r, i :: LastOf(desired, i, r) && r in cluster ==> SameBody(parse, desired[i].body, cluster[r]))
  }

  /** Plan, run, plan again. Whatever the applier and the health checker do, the second plan's
      changes are exactly the first plan's minus those the applier accepted: none after a
      successful run, which leaves the cluster as desired, and strictly fewer after any
      progress. What the cluster holds is what the applier was handed. */
  lemma RunThenReplan(parse: Bytes -> Value, waveOf: ResourceRef -> int, cfg: Config, world: World,
                      desired: seq<Manifest<Body>>, live: seq<Manifest<Body>>, plan: seq<PlanEntry>,
                      waves: seq<WaveGroup>, logs: seq<WaveLog>, outcome: Result<seq<int>, ExecError>,
                      again: seq<PlanEntry>)
    requires IsPlan(parse, IndexOf(desired), IndexOf(live), plan) && IsWavePlan(waveOf, plan, waves)
    requires IsRun(waves, Setting(cfg, world, IndexOf(desired), IndexOf(live)), logs, outcome)
    requires IsPlan(parse, IndexOf(desired), ClusterAfterRun(world, IndexOf(live), Trace(logs)), again)
    ensures Changed(again) == Filter(Changed(plan), (e: PlanEntry) => e !in Accepted(world, Trace(logs)))
    ensures Accepted(world, Trace(logs)) != [] ==> |Changed(again)| < |Changed(plan)|
    ensures outcome.Ok? ==>
              Changed(again) == [] && Converged(parse, desired, ClusterAfterRun(world, IndexOf(live), Trace(logs)))
  {
    var st, done := Setting(cfg, world, IndexOf(desired), IndexOf(live)), Accepted(world, Trace(logs));
    forall k | 0 <= k < |Trace(logs)| ensures HandsOver(desired, live, Trace(logs)[k]) {
      HandsOverTheRightManifest(desired, live, cfg, world, waves, logs, outcome, k);
    }
    LandsAsPlanned(desired, live, world, IndexOf(live), Trace(logs));
    AcceptedArePlanned(waveOf, st, plan, waves, logs, outcome);
    RestartPlansTheRest(parse, IndexOf(desired), IndexOf(live), plan, done, again);
    ChangesDrop(parse, IndexOf(desired), IndexOf(live), plan, done, again);
    if outcome.Ok? {
      NothingLeftConverges(parse, desired, ClusterAfterRun(world, IndexOf(live), Trace(logs)), again);
    }
  }

  lemma NothingLeftConverges(parse: Bytes -> Value, desired: seq<Manifest<Body>>, cluster: Bodies,
                             again: seq<PlanEntry>)
    requires IsPlan(parse, IndexOf(desired), cluster, again) && Changed(again) == []
    ensures Converged(parse, desired, cluster)
  {
    NothingToDoIff(parse, IndexOf(desired), cluster, again);
    forall r ensures r in cluster <==> !Absent(desired, r) {
      IndexedLast(desired, r);
      assert r in cluster.Keys <==> r in IndexOf(desired).Keys;
    }
    forall r, i | LastOf(desired, i, r) && r in cluster ensures SameBody(parse, desired[i].body, cluster[r]) {
      IndexedLast(desired, r);
    }
  }
}
