/** The coordinator and the registry it places work from, as the source's own mutable objects.
    Each method is proved to do exactly what module BoardSpec says. */
module Coordinator {
  import opened Basics
  import opened Placement
  import opened BoardSpec

  datatype Registration = Registration(accepted: bool, bodyMatches: bool, bodyVerified: bool, continuityVerified: bool)

  class VerifiedNodeRegistry {
    const bodyId: Id
    var nodes: map<Id, Advertisement>

    constructor (bodyId: Id)
      ensures this.bodyId == bodyId && nodes == map[]
    {
      this.bodyId := bodyId;
      nodes := map[];
    }

    method Register(ad: Advertisement) returns (r: Registration)
      modifies this
      ensures r.accepted <==> Admissible(bodyId, ad)
      ensures r.bodyMatches <==> ad.bodyId == bodyId
      ensures r.bodyVerified <==> ad.bodyVerified
      ensures r.continuityVerified <==> ad.continuityVerified
      ensures r.accepted <==> r.bodyMatches && r.bodyVerified && r.continuityVerified
      ensures nodes == if Admissible(bodyId, ad) then old(nodes)[ad.nodeId := ad] else old(nodes)
    {
      r := Registration(true, ad.bodyId == bodyId, ad.bodyVerified, ad.continuityVerified);
      if !(r.bodyMatches && r.bodyVerified && r.continuityVerified) {
        r := r.(accepted := false);
        return;
      }
      nodes := nodes[ad.nodeId := ad];
    }

    method Get(node: Id) returns (r: Option<Advertisement>)
      ensures r == if node in nodes then Some(nodes[node]) else None
    {
      r := if node in nodes then Some(nodes[node]) else None;
    }

    method Remove(node: Id) returns (r: Option<Advertisement>)
      modifies this
      ensures r == if node in old(nodes) then Some(old(nodes)[node]) else None
      ensures nodes == old(nodes) - {node}
    {
      r := if node in nodes then Some(nodes[node]) else None;
      nodes := nodes - {node};
    }

    method SetAvailability(node: Id, availability: Availability)
      modifies this
      ensures nodes ==
        if node in old(nodes) then old(nodes)[node := old(nodes)[node].(availability := availability)] else old(nodes)
      ensures forall b: Board :: b.nodes == old(nodes) ==>
                BoardSpec.Availability(b, node, availability) == b.(nodes := nodes)
    {
      if node in nodes {
        nodes := nodes[node := nodes[node].(availability := availability)];
      }
    }

    /** `snapshot`: the advertisements in order of node. */
    method Listing() returns (ads: seq<Advertisement>)
      ensures ads == Snapshot(nodes)
    {
      hide Sorted;
      var keys := SortedKeys(nodes.Keys);
      ads := [];
      for i := 0 to |keys|
        invariant |ads| == i
        invariant forall j :: 0 <= j < i ==> keys[j] in nodes && ads[j] == nodes[keys[j]]
      {
        assert keys[i] in keys;
        ads := ads + [nodes[keys[i]]];
      }
      assert ads == Snapshot(nodes);
    }
  }

  class DistributedWorkCoordinator {
    const registry: VerifiedNodeRegistry
    var leases: map<Id, Lease>
    var requirements: map<Id, Requirement>
    var refusals: map<Id, set<Id>>

    constructor (registry: VerifiedNodeRegistry)
      ensures this.registry == registry
      ensures leases == map[] && requirements == map[] && refusals == map[]
    {
      this.registry := registry;
      leases, requirements, refusals := map[], map[], map[];
    }

    /** The whole state of the placement layer, as one value. */
    ghost function Abs(): Board
      reads this, registry
    {
      Board(registry.bodyId, registry.nodes, leases, requirements, refusals)
    }

    method Place(req: Requirement, now: real, leaseSeconds: real, exclude: set<Id>)
      returns (r: Outcome<Decision, Error>)
      modifies this
      ensures (Abs(), r) == BoardSpec.Place(old(Abs()), req, now, leaseSeconds, exclude)
    {
      if leaseSeconds <= 0.0 {
        return Raised(LeaseSecondsNotPositive);
      }
      ExpireLeases(now);
      if req.workId in leases {
        return Returned(Existing(leases[req.workId]));
      }
      requirements := requirements[req.workId := req];
      var refused := if req.workId in refusals then refusals[req.workId] else {};
      r := PlaceLocked(req, now, leaseSeconds, exclude + refused);
    }

    method RefuseAndReassign(work: Id, node: Id, reason: string, now: real, leaseSeconds: real)
      returns (r: Outcome<Decision, Error>)
      modifies this
      ensures (Abs(), r) == Refuse(old(Abs()), work, node, reason, now, leaseSeconds)
    {
      if reason == "" {
        return Raised(ReasonRequired);
      }
      if work !in leases || work !in requirements || leases[work].nodeId != node {
        return Returned(NotOwned);
      }
      var requirement := requirements[work];
      AddRefusal(work, node);
      leases := leases - {work};
      r := PlaceLocked(requirement, now, leaseSeconds, refusals[work]);
      r := Because(r, RefusedBy(node));
    }

    method Handoff(work: Id, fromNode: Id, reason: string, now: real, leaseSeconds: real)
      returns (r: Outcome<Decision, Error>)
      modifies this
      ensures (Abs(), r) == Refuse(old(Abs()), work, fromNode, reason, now, leaseSeconds)
    {
      r := RefuseAndReassign(work, fromNode, reason, now, leaseSeconds);
    }

    method Complete(work: Id, node: Id) returns (closed: bool)
      modifies this
      ensures (Abs(), closed) == BoardSpec.Complete(old(Abs()), work, node)
      ensures closed <==> work in old(leases) && old(leases)[work].nodeId == node
      ensures var gone := if closed then {work} else {};
              && leases == old(leases) - gone && requirements == old(requirements) - gone
              && refusals == old(refusals) - gone
    {
      if work !in leases || leases[work].nodeId != node {
        return false;
      }
      leases := leases - {work};
      requirements := requirements - {work};
      refusals := refusals - {work};
      return true;
    }

    method LeaseFor(work: Id) returns (r: Option<Lease>)
      ensures r == if work in leases then Some(leases[work]) else None
    {
      r := if work in leases then Some(leases[work]) else None;
    }

    method RecoverUnavailableNodes(now: real, maxAge: real, leaseSeconds: real)
      returns (r: Outcome<seq<Decision>, Error>)
      modifies this, registry
      ensures (Abs(), r) == Recover(old(Abs()), now, maxAge, leaseSeconds)
    {
      hide Sorted, ReassignOne, PlaceOn, TakenOffline, Failed;
      if maxAge <= 0.0 {
        return Raised(MaxAgeNotPositive);
      }
      var failed := Failed(registry.nodes, now, maxAge);
      FailedAreRegistered(registry.nodes, now, maxAge);
      TakeOffline(failed);
      ExpireLeases(now);
      assert Abs() == Swept(old(Abs()), now, maxAge);
      var works := SortedKeys(Affected(leases, failed));
      r := Sweep(works, now, leaseSeconds);
    }

    /** The recovery loop: each affected work in turn, until one raises. */
    method Sweep(works: seq<Id>, now: real, leaseSeconds: real) returns (r: Outcome<seq<Decision>, Error>)
      modifies this
      ensures (Abs(), r) == Reassign(old(Abs()), works, now, leaseSeconds)
    {
      hide ReassignOne;
      var decisions: seq<Decision> := [];
      assert works[0..] == works;
      AfterNothing(Reassign(Abs(), works, now, leaseSeconds).1);
      for i := 0 to |works|
        invariant Reassign(old(Abs()), works, now, leaseSeconds).0 == Reassign(Abs(), works[i..], now, leaseSeconds).0
        invariant Reassign(old(Abs()), works, now, leaseSeconds).1
               == After(decisions, Reassign(Abs(), works[i..], now, leaseSeconds).1)
      {
        var work := works[i];
        assert works[i..][0] == work && works[i..][1..] == works[i + 1..];
        if work in leases {
          var o := ReassignWork(work, now, leaseSeconds);
          if o.Raised? {
            return Raised(o.error);
          }
          AfterJoins(decisions, o.value, Reassign(Abs(), works[i + 1..], now, leaseSeconds).1);
          decisions := decisions + o.value;
        }
      }
      assert works[|works|..] == [] && decisions + [] == decisions;
      r := Returned(decisions);
    }

    // ----- helpers -----

    method ReassignWork(work: Id, now: real, leaseSeconds: real) returns (r: Outcome<seq<Decision>, Error>)
      requires work in leases
      modifies this
      ensures (Abs(), r) == ReassignOne(old(Abs()), work, now, leaseSeconds)
    {
      var oldLease := leases[work];
      if work !in requirements {
        leases := leases - {work};
        return Returned([]);
      }
      var requirement := requirements[work];
      AddRefusal(work, oldLease.nodeId);
      leases := leases - {work};
      var o := PlaceLocked(requirement, now, leaseSeconds, refusals[work]);
      match o {
        case Raised(e) => r := Raised(e);
        case Returned(d) => r := Returned([d.(reasons := [RecoveryFrom(oldLease.nodeId)] + d.reasons)]);
      }
    }

    /** Adds the node to the work's refusals, which start empty. */
    method AddRefusal(work: Id, node: Id)
      modifies this`refusals
      ensures refusals == old(refusals)[work := RefusalsOf(old(Abs()), work) + {node}]
    {
      if work !in refusals {
        refusals := refusals[work := {}];
      }
      refusals := refusals[work := refusals[work] + {node}];
    }

    method TakeOffline(failed: set<Id>)
      requires failed <= registry.nodes.Keys
      modifies registry
      ensures registry.nodes == TakenOffline(old(registry.nodes), failed)
    {
      hide Sorted, TakenOffline;
      var order := SortedKeys(failed);
      ghost var before, done := registry.nodes, {};
      TakeNothingOffline(before);
      for i := 0 to |order|
        invariant done == (set n | n in order[..i])
        invariant registry.nodes == TakenOffline(before, done)
      {
        assert order[i] in order;
        assert order[..i + 1] == order[..i] + [order[i]];
        TakeOneMoreOffline(before, done, order[i]);
        registry.SetAvailability(order[i], Offline);
        done := done + {order[i]};
      }
      assert order[..|order|] == order;
      assert done == failed;
    }

    method ExpireLeases(now: real)
      modifies this`leases
      ensures leases == Unexpired(old(leases), now)
    {
      var expired := set w | w in leases && now >= leases[w].expiresAt;
      while expired != {}
        invariant leases.Keys <= old(leases).Keys
        invariant forall w :: w in leases ==> leases[w] == old(leases)[w]
        invariant forall w :: w in old(leases) && now < old(leases)[w].expiresAt ==> w in leases
        invariant expired == set w | w in leases && now >= leases[w].expiresAt
        decreases |expired|
      {
        var w :| w in expired;
        leases := leases - {w};
        expired := expired - {w};
      }
      forall w | w in leases ensures now < leases[w].expiresAt {
        assert w !in expired;
      }
      assert leases == Unexpired(old(leases), now);
    }

    /** The counting loop: how many leases each node holds. */
    method ActiveCounts() returns (counts: map<Id, nat>)
      ensures forall n :: (if n in counts then counts[n] else 0) == |LeasesOn(leases, n)|
    {
      counts := map[];
      var rest := leases.Keys;
      ghost var counted: set<Id> := {};
      forall n ensures Counted(leases, {}, n) == {} { }
      while rest != {}
        invariant rest + counted == leases.Keys && rest !! counted
        invariant forall n :: (if n in counts then counts[n] else 0) == |Counted(leases, counted, n)|
        decreases |rest|
      {
        var w :| w in rest;
        var n := leases[w].nodeId;
        CountOneMore(leases, counted, w);
        counts := counts[n := (if n in counts then counts[n] else 0) + 1];
        rest, counted := rest - {w}, counted + {w};
      }
      forall n ensures Counted(leases, counted, n) == LeasesOn(leases, n) { }
    }

    /** `_place_locked`: search every registered node, rank the best class, lease to its head. */
    method PlaceLocked(req: Requirement, now: real, leaseSeconds: real, excluded: set<Id>)
      returns (r: Outcome<Decision, Error>)
      modifies this`leases
      ensures (Abs(), r) == PlaceOn(old(Abs()), req, now, leaseSeconds, excluded)
    {
      hide Rank, CandidateFor, ExclusionReason;
      var scan := Search(req, excluded);
      var candidates := if scan.full != [] then scan.full else if scan.partial != [] then scan.partial
          else scan.observe;
      if candidates == [] {
        return Returned(Unplaced(scan.skipped));
      }
      RankSorts(candidates);
      var ranked := Rank(candidates);
      if leaseSeconds <= 0.0 {
        return Raised(ExpiryNotAfterIssue);
      }
      var lease := BoardSpec.LeaseFor(req, ranked[0], now, leaseSeconds);
      leases := leases[req.workId := lease];
      r := Returned(Placed(lease, ranked[1..], scan.skipped));
    }

    method Search(req: Requirement, excluded: set<Id>) returns (scan: Scanned)
      ensures scan == Scan(req, Snapshot(registry.nodes), leases, excluded)
    {
      hide CandidateFor, ExclusionReason, LeasesOn, Snapshot;
      var counts := ActiveCounts();
      var nodes := registry.Listing();
      scan := Scanned([], [], [], []);
      for i := 0 to |nodes|
        invariant scan == Scan(req, nodes[..i], leases, excluded)
      {
        var node := nodes[i];
        assert nodes[..i + 1][..i] == nodes[..i];
        assert node.nodeId in counts || |LeasesOn(leases, node.nodeId)| == 0;
        var active := if node.nodeId in counts then counts[node.nodeId] else 0;
        if node.nodeId in excluded {
          scan := scan.(skipped := scan.skipped + [ExcludedOrRefused(node.nodeId)]);
          continue;
        }
        var exclusion := ExclusionReason(req, node, active);
        if exclusion.Some? {
          scan := scan.(skipped := scan.skipped + [ExcludedFor(node.nodeId, exclusion.value)]);
          continue;
        }
        var candidate := CandidateFor(req, node, active);
        if candidate.Some? {
          scan := scan.Add(candidate.value);
        }
      }
      assert nodes[..|nodes|] == nodes;
    }
  }

  lemma FailedAreRegistered(nodes: map<Id, Advertisement>, now: real, maxAge: real)
    ensures Failed(nodes, now, maxAge) <= nodes.Keys
  {
  }

  lemma TakeNothingOffline(nodes: map<Id, Advertisement>)
    ensures TakenOffline(nodes, {}) == nodes
  {
  }

  lemma TakeOneMoreOffline(nodes: map<Id, Advertisement>, done: set<Id>, n: Id)
    requires n in nodes
    ensures n in TakenOffline(nodes, done)
    ensures var before := TakenOffline(nodes, done);
            TakenOffline(nodes, done + {n}) == before[n := before[n].(availability := Offline)]
  {
  }

  ghost function Counted(leases: map<Id, Lease>, counted: set<Id>, node: Id): set<Id> {
    set w | w in counted && w in LeasesOn(leases, node)
  }

  lemma CountOneMore(leases: map<Id, Lease>, counted: set<Id>, w: Id)
    requires w in leases && w !in counted
    ensures forall n ::
        |Counted(leases, counted + {w}, n)| == |Counted(leases, counted, n)| + if n == leases[w].nodeId then 1 else 0
  {
    forall n ensures
        |Counted(leases, counted + {w}, n)| == |Counted(leases, counted, n)| + if n == leases[w].nodeId then 1 else 0
    {
      if n == leases[w].nodeId {
        assert Counted(leases, counted + {w}, n) == Counted(leases, counted, n) + {w};
      } else {
        assert Counted(leases, counted + {w}, n) == Counted(leases, counted, n);
      }
    }
  }

  lemma AfterNothing(o: Outcome<seq<Decision>, Error>)
    ensures After([], o) == o
  {
    if o.Returned? {
      assert [] + o.value == o.value;
    }
  }

  lemma AfterJoins(done: seq<Decision>, more: seq<Decision>, rest: Outcome<seq<Decision>, Error>)
    ensures After(done, After(more, rest)) == After(done + more, rest)
  {
    if rest.Returned? {
      assert done + (more + rest.value) == done + more + rest.value;
    }
  }
}
