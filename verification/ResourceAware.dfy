/** The resource registry and the resource-aware wrapper as mutable objects, each method proved to do what
    module Resources says. */
module ResourceAware {
  import opened Basics
  import opened Placement
  import opened BoardSpec
  import opened BoardLaws
  import opened Resources
  import opened Coordinator

  class NodeResourceRegistry {
    const bodyId: Id
    const proof: Oracle
    var ads: map<Id, ResourceAd>
    var asked: nat

    constructor (bodyId: Id, proof: Oracle)
      ensures this.bodyId == bodyId && this.proof == proof && ads == map[] && asked == 0
    {
      this.bodyId, this.proof := bodyId, proof;
      ads, asked := map[], 0;
    }

    ghost function Abs(): Observed
      reads this
    {
      Observed(bodyId, ads, asked)
    }

    method ProofIsCurrent(ad: ResourceAd) returns (current: bool)
      modifies this`asked
      ensures current == proof(old(asked), ad) && asked == old(asked) + 1
    {
      current := proof(asked, ad);
      asked := asked + 1;
    }

    /** Keeps the newest verified observation of each node; a rejected one also evicts what was held. */
    method Register(ad: ResourceAd) returns (accepted: bool)
      modifies this
      ensures asked == old(asked) + 1
      ensures accepted <==> ad.bodyId == bodyId && proof(old(asked), ad)
      ensures !accepted ==> ads == old(ads) - {ad.nodeId}
      ensures accepted ==> ad.nodeId in ads && ads - {ad.nodeId} == old(ads) - {ad.nodeId}
      ensures accepted ==> ads[ad.nodeId] in {ad} + (if ad.nodeId in old(ads) then {old(ads)[ad.nodeId]} else {})
      ensures accepted ==> ads[ad.nodeId].observedAt >= ad.observedAt
      ensures accepted && ad.nodeId in old(ads) ==> ads[ad.nodeId].observedAt >= old(ads)[ad.nodeId].observedAt
      ensures accepted && ad.nodeId in old(ads) && old(ads)[ad.nodeId].observedAt == ad.observedAt ==>
          ads[ad.nodeId] == ad
    {
      var current := ProofIsCurrent(ad);
      if ad.bodyId != bodyId || !current {
        ads := ads - {ad.nodeId};
        return false;
      }
      if ad.nodeId !in ads || ad.observedAt >= ads[ad.nodeId].observedAt {
        ads := ads[ad.nodeId := ad];
      }
      return true;
    }

    method Get(node: Id) returns (r: Option<ResourceAd>)
      modifies this
      ensures (Abs(), r) == Resources.Get(proof, old(Abs()), node)
    {
      if node !in ads {
        return None;
      }
      var item := ads[node];
      var current := ProofIsCurrent(item);
      if !current {
        ads := ads - {node};
        return None;
      }
      return Some(item);
    }
  }

  /** `_requirement_met`: some online resource of the right kind, scope, unit and capabilities has enough available. */
  method RequirementMet(resources: seq<Resource>, need: Need) returns (met: bool)
    ensures met <==> Met(resources, need)
  {
    for i := 0 to |resources|
      invariant forall j :: 0 <= j < i ==> !Satisfies(resources[j], need)
    {
      var r := resources[i];
      if !r.online { continue; }
      if r.kind != need.kind { continue; }
      if r.scope !in need.scopes { continue; }
      if r.unit != need.unit { continue; }
      if !(need.capabilities <= r.capabilities) { continue; }
      if r.available >= need.minimum {
        assert Satisfies(resources[i], need);
        return true;
      }
    }
    return false;
  }

  lemma ScreenStep(oracle: Oracle, obs: Observed, nodes: seq<Advertisement>, wanted: seq<Need>, i: nat)
    requires i < |nodes|
    ensures var (before, failing) := Screen(oracle, obs, nodes[..i], wanted);
            var (next, meets) := NodeMeets(oracle, before, nodes[i].nodeId, wanted);
            Screen(oracle, obs, nodes[..i + 1], wanted)
                == (next, if meets then failing else failing + {nodes[i].nodeId})
  {
    hide NodeMeets;
    assert nodes[..i + 1][..i] == nodes[..i];
  }

  class ResourceAwareWorkCoordinator {
    const coordinator: DistributedWorkCoordinator
    const resources: NodeResourceRegistry
    var needs: map<Id, seq<Need>>

    constructor (coordinator: DistributedWorkCoordinator, resources: NodeResourceRegistry)
      ensures this.coordinator == coordinator && this.resources == resources && needs == map[]
    {
      this.coordinator, this.resources := coordinator, resources;
      needs := map[];
    }

    method Place(req: Requirement, wanted: seq<Need>, now: real, leaseSeconds: real, exclude: set<Id>)
      returns (r: Outcome<Decision, Error>)
      modifies this, coordinator, resources
      ensures needs == old(needs)[req.workId := wanted]
      ensures (coordinator.Abs(), resources.Abs(), r)
           == PlaceWithin(resources.proof, old(coordinator.Abs()), old(resources.Abs()), req, wanted, now, leaseSeconds,
                          exclude)
    {
      needs := needs[req.workId := wanted];
      var excluded := exclude;
      if wanted != [] {
        var failing := ScreenNodes(wanted);
        excluded := excluded + failing;
      }
      assert wanted == [] ==> exclude + {} == excluded;
      r := coordinator.Place(req, now, leaseSeconds, excluded);
    }

    method RefuseAndReassign(work: Id, node: Id, reason: string, now: real, leaseSeconds: real)
      returns (r: Outcome<Decision, Error>, ghost checks: seq<Check>)
      modifies coordinator, resources
      ensures var (first, o) := Refuse(old(coordinator.Abs()), work, node, reason, now, leaseSeconds);
              Settled(coordinator.Abs(), resources.Abs(), r, checks)
              == Settle(resources.proof, first, old(resources.Abs()), needs, o, now, leaseSeconds, 0, Attempts(first))
      ensures old(Consistent(coordinator.Abs())) ==> Consistent(coordinator.Abs())
      // A lease that comes back is held by a node that passed the last resource check made.
      ensures old(Consistent(coordinator.Abs())) && r.Returned? && r.value.lease.Some? && NeedsOf(needs, work) != [] ==>
          Eligible(resources.proof, resources.Abs(), r.value.lease.value.nodeId, NeedsOf(needs, work))
    {
      ghost var before, seen := coordinator.Abs(), resources.Abs();
      var decision := coordinator.RefuseAndReassign(work, node, reason, now, leaseSeconds);
      r, checks := EnsureResourceEligible(decision, now, leaseSeconds);
      ghost var settled := Settled(coordinator.Abs(), resources.Abs(), r, checks);
      if Consistent(before) {
        if reason != "" {
          ReassignedWorkMeetsItsNeeds(resources.proof, before, seen, needs, work, node, reason, now, leaseSeconds);
          assert WellSettled(resources.proof, Refuse(before, work, node, reason, now, leaseSeconds).0, settled, work,
                             NeedsOf(needs, work));
        }
      }
    }

    method Handoff(work: Id, fromNode: Id, reason: string, now: real, leaseSeconds: real)
      returns (r: Outcome<Decision, Error>, ghost checks: seq<Check>)
      modifies coordinator, resources
      ensures var (first, o) := Refuse(old(coordinator.Abs()), work, fromNode, reason, now, leaseSeconds);
              Settled(coordinator.Abs(), resources.Abs(), r, checks)
              == Settle(resources.proof, first, old(resources.Abs()), needs, o, now, leaseSeconds, 0, Attempts(first))
      ensures old(Consistent(coordinator.Abs())) && r.Returned? && r.value.lease.Some? && NeedsOf(needs, work) != [] ==>
          Eligible(resources.proof, resources.Abs(), r.value.lease.value.nodeId, NeedsOf(needs, work))
    {
      r, checks := RefuseAndReassign(work, fromNode, reason, now, leaseSeconds);
    }

    /** Moves leased work off a node that does not meet its needs any more; None means the lease may stay. */
    method Revalidate(work: Id, now: real, leaseSeconds: real)
      returns (r: Option<Outcome<Decision, Error>>)
      modifies coordinator, resources
      ensures (coordinator.Abs(), resources.Abs(), r)
           == RevalidateWithin(resources.proof, old(coordinator.Abs()), old(resources.Abs()), needs, work, now,
                               leaseSeconds)
      // The lease stays exactly when nothing asks for more than its holder provides, by a proof that is current.
      ensures r.None? <==> MayStay(resources.proof, old(coordinator.Abs()), old(resources.Abs()), needs, work)
      ensures r.None? ==> coordinator.Abs() == old(coordinator.Abs())
      ensures r.Some? ==> work in old(coordinator.leases) && NeedsOf(needs, work) != []
      ensures old(Consistent(coordinator.Abs())) && r.Some? ==>
          && Consistent(coordinator.Abs())
          && old(coordinator.leases[work].nodeId) in RefusalsOf(coordinator.Abs(), work)
          && (r.value.Returned? && r.value.value.lease.Some? ==>
                Eligible(resources.proof, resources.Abs(), r.value.value.lease.value.nodeId, NeedsOf(needs, work)))
    {
      hide Consistent, Refuse, Settle, NodeMeets, Provides, Eligible;
      ghost var before, seen := coordinator.Abs(), resources.Abs();
      LeaseStaysExactlyWhen(resources.proof, before, seen, needs, work, now, leaseSeconds);
      var lease := coordinator.LeaseFor(work);
      if lease.None? {
        return None;
      }
      var wanted := NeedsOf(needs, work);
      if wanted == [] {
        return None;
      }
      var node := coordinator.registry.Get(lease.value.nodeId);
      if node.Some? {
        var meets := MeetsNeeds(lease.value.nodeId, wanted);
        if meets {
          return None;
        }
      }
      ghost var checks;
      var decision;
      decision, checks := RefuseAndReassign(work, lease.value.nodeId, NoLongerMet, now, leaseSeconds);
      r := Some(decision);
    }

    method Complete(work: Id, node: Id) returns (completed: bool)
      modifies this, coordinator
      ensures (coordinator.Abs(), completed) == BoardSpec.Complete(old(coordinator.Abs()), work, node)
      ensures needs == if completed then old(needs) - {work} else old(needs)
    {
      completed := coordinator.Complete(work, node);
      if completed {
        needs := needs - {work};
      }
    }

    /** `_ensure_resource_eligible`: turn holders away until one passes, nothing is placed, or the attempts run out. */
    method EnsureResourceEligible(decision: Outcome<Decision, Error>, now: real, leaseSeconds: real)
      returns (current: Outcome<Decision, Error>, ghost checks: seq<Check>)
      modifies coordinator, resources
      ensures Settled(coordinator.Abs(), resources.Abs(), current, checks)
           == Settle(resources.proof, old(coordinator.Abs()), old(resources.Abs()), needs, decision, now, leaseSeconds,
                     0, Attempts(old(coordinator.Abs())))
    {
      hide Refuse, CheckNode, Settle;
      var attempts := 0;
      var limit := if |coordinator.registry.nodes| < 1 then 1 else |coordinator.registry.nodes|;
      current, checks := decision, [];
      ghost var goal := Settle(resources.proof, coordinator.Abs(), resources.Abs(), needs, decision, now, leaseSeconds,
                               0, limit);
      while current.Returned? && current.value.lease.Some? && attempts < limit
        invariant 0 <= attempts <= limit
        invariant var rest := Settle(resources.proof, coordinator.Abs(), resources.Abs(), needs, current, now,
                                     leaseSeconds, attempts, limit);
                  goal == rest.(checks := checks + rest.checks)
        decreases limit - attempts
      {
        ghost var b, obs, turn := coordinator.Abs(), resources.Abs(), current;
        SettleOnce(resources.proof, b, obs, needs, current, now, leaseSeconds, attempts, limit);
        var lease := current.value.lease.value;
        var wanted := NeedsOf(needs, lease.workId);
        if wanted == [] {
          assert checks + [] == checks;
          return;
        }
        var passed := CheckHolder(lease.nodeId, wanted);
        if passed {
          checks := checks + [Check(lease.nodeId, true)];
          return;
        }
        attempts := attempts + 1;
        current := coordinator.RefuseAndReassign(lease.workId, lease.nodeId, "resource-requirement-unmet", now,
                                                 leaseSeconds);
        ghost var rest := Settle(resources.proof, coordinator.Abs(), resources.Abs(), needs, current, now, leaseSeconds,
                                 attempts, limit);
        assert checks + ([Check(lease.nodeId, false)] + rest.checks)
            == checks + [Check(lease.nodeId, false)] + rest.checks;
        checks := checks + [Check(lease.nodeId, false)];
      }
      SettleOnce(resources.proof, coordinator.Abs(), resources.Abs(), needs, current, now, leaseSeconds, attempts,
                 limit);
      assert checks + [] == checks;
    }

    /** A holder that is no longer registered fails without a proof check. */
    method CheckHolder(node: Id, wanted: seq<Need>) returns (passed: bool)
      modifies resources
      ensures (resources.Abs(), passed) == CheckNode(resources.proof, coordinator.Abs(), old(resources.Abs()), node,
                                                     wanted)
    {
      var ad := coordinator.registry.Get(node);
      if ad.None? {
        return false;
      }
      passed := MeetsNeeds(node, wanted);
    }

    method MeetsNeeds(node: Id, wanted: seq<Need>) returns (meets: bool)
      modifies resources
      ensures (resources.Abs(), meets) == NodeMeets(resources.proof, old(resources.Abs()), node, wanted)
    {
      var ad := resources.Get(node);
      if ad.None? {
        return false;
      }
      ghost var next := resources.Abs();
      for i := 0 to |wanted|
        invariant resources.Abs() == next
        invariant forall j :: 0 <= j < i ==> Met(ad.value.resources, wanted[j])
      {
        var met := RequirementMet(ad.value.resources, wanted[i]);
        if !met {
          assert !Met(ad.value.resources, wanted[i]);
          return false;
        }
      }
      return true;
    }

    method ScreenNodes(wanted: seq<Need>) returns (failing: set<Id>)
      modifies resources
      ensures (resources.Abs(), failing)
           == Screen(resources.proof, old(resources.Abs()), Snapshot(coordinator.registry.nodes), wanted)
    {
      hide NodeMeets, Snapshot;
      var nodes := coordinator.registry.Listing();
      ghost var start := resources.Abs();
      failing := {};
      for i := 0 to |nodes|
        invariant resources.Abs() == Screen(resources.proof, start, nodes[..i], wanted).0
        invariant failing == Screen(resources.proof, start, nodes[..i], wanted).1
      {
        ScreenStep(resources.proof, start, nodes, wanted, i);
        var meets := MeetsNeeds(nodes[i].nodeId, wanted);
        if !meets {
          failing := failing + {nodes[i].nodeId};
        }
      }
      assert nodes[..|nodes|] == nodes;
    }
  }
}
