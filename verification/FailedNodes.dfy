/** What a recovery does, told by the heartbeat and the availability of the nodes. */
module FailedNodes {
  import opened Basics
  import opened Placement
  import opened BoardSpec
  import opened BoardLaws
  import opened BoardRuns
  import opened Eligibility

  /** Silent for the whole age bound, taken off line, or quarantined. */
  predicate OutOfReach(node: Advertisement, now: real, maxAge: real) {
    node.lastHeartbeat + maxAge <= now || node.availability == Offline || node.availability == Quarantined
  }

  /** The unexpired lease is held by a registered node that is out of reach. */
  predicate StrandedWork(b: Board, now: real, maxAge: real, w: Id) {
    && w in b.leases && now < b.leases[w].expiresAt
    && b.leases[w].nodeId in b.nodes && OutOfReach(b.nodes[b.leases[w].nodeId], now, maxAge)
  }

  /** Every node out of reach is off line, and every other one is as it was. */
  ghost predicate MarkedOffline(b: Board, nodes: map<Id, Advertisement>, now: real, maxAge: real) {
    && nodes.Keys == b.nodes.Keys
    && forall n :: n in b.nodes ==>
         nodes[n] == if OutOfReach(b.nodes[n], now, maxAge) then b.nodes[n].(availability := Offline) else b.nodes[n]
  }

  /** The lease was made in this recovery, for a node that was within reach and may carry the work. */
  ghost predicate Reissued(b: Board, req: Requirement, now: real, leaseSeconds: real, lease: Lease) {
    && lease.nodeId in b.nodes && Meets(req, b.nodes[lease.nodeId])
    && CarriesAs(req, b.nodes[lease.nodeId], lease.mode, lease.matched, lease.missing)
    && lease.workId == req.workId && lease.organ == b.nodes[lease.nodeId].organ
    && lease.issuedAt == now && lease.expiresAt == now + leaseSeconds
    && lease.courtRequired == req.consequential && lease.degradation == DegradationOf(lease.mode)
  }

  /** The node has no more tasks than it takes. */
  ghost predicate Fits(b: Board, n: Id) {
    n in b.nodes && b.nodes[n].currentTasks + |Carrying(b.leases, n)| <= b.nodes[n].maxTasks
  }

  /** What became of one stranded work: its holder refused it, and a lease it has now is a new one, on a node that has
      room for it. */
  ghost predicate Recovered(b: Board, end: Board, now: real, leaseSeconds: real, w: Id)
    requires w in b.leases
  {
    && b.leases[w].nodeId in RefusalsOf(end, w)
    && (w in end.leases ==>
          && w in b.requirements && Reissued(b, b.requirements[w], now, leaseSeconds, end.leases[w])
          && Fits(end, end.leases[w].nodeId))
  }

  lemma FreshIsReissued(b: Board, req: Requirement, excluded: set<Id>, now: real, leaseSeconds: real, lease: Lease)
    requires IsFresh(b, req, excluded, now, leaseSeconds, lease)
    ensures Reissued(b, req, now, leaseSeconds, lease)
    ensures lease.nodeId in b.nodes && HasRoom(b.nodes[lease.nodeId], |Carrying(b.leases, lease.nodeId)|)
  {
    hide Meets, CarriesAs;
  }

  lemma OneMoreCarried(leases: map<Id, Lease>, lease: Lease, n: Id)
    requires lease.workId !in leases
    ensures |Carrying(leases[lease.workId := lease], n)| == |Carrying(leases, n)| + if n == lease.nodeId then 1 else 0
  {
    assert Carrying(leases[lease.workId := lease], n) == Carrying(leases, n) +
        if n == lease.nodeId then {lease.workId} else {};
  }

  lemma FewerCarried(leases: map<Id, Lease>, work: Id, n: Id)
    ensures |Carrying(leases - {work}, n)| <= |Carrying(leases, n)|
  {
    SubsetSize(Carrying(leases - {work}, n), Carrying(leases, n));
  }

  lemma ReassignOneReissues(b: Board, work: Id, now: real, leaseSeconds: real)
    requires Consistent(b) && work in b.leases
    ensures var (end, o) := ReassignOne(b, work, now, leaseSeconds);
            && end.nodes == b.nodes && end.requirements == b.requirements
            && (o.Returned? ==> Recovered(b, end, now, leaseSeconds, work))
            && (forall n :: Fits(b, n) ==> Fits(end, n))
  {
    hide PlaceOn, ExclusionReason, Consistent, Meets, CarriesAs, MayCarry, SomebodyMay, Reissued;
    ConsistentLease(b, work);
    var dropped := Dropped(b, work);
    SearchMeans(dropped, b.requirements[work], now, leaseSeconds, dropped.refusals[work]);
    var (end, o) := PlaceOn(dropped, b.requirements[work], now, leaseSeconds, dropped.refusals[work]);
    forall n ensures |Carrying(dropped.leases, n)| <= |Carrying(b.leases, n)| {
      FewerCarried(b.leases, work, n);
    }
    if o.Returned? && o.value.lease.Some? {
      var lease := o.value.lease.value;
      FreshIsReissued(dropped, b.requirements[work], dropped.refusals[work], now, leaseSeconds, lease);
      SameReissue(dropped, b, b.requirements[work], now, leaseSeconds, lease);
      forall n ensures |Carrying(end.leases, n)| == |Carrying(dropped.leases, n)| + if n == lease.nodeId then 1 else 0 {
        OneMoreCarried(dropped.leases, lease, n);
      }
      assert Fits(end, lease.nodeId);
    }
  }

  lemma SameReissue(a: Board, b: Board, req: Requirement, now: real, leaseSeconds: real, lease: Lease)
    requires a.nodes == b.nodes
    ensures Reissued(a, req, now, leaseSeconds, lease) <==> Reissued(b, req, now, leaseSeconds, lease)
  {
  }

  lemma StaysRecovered(b: Board, next: Board, end: Board, now: real, leaseSeconds: real, w: Id)
    requires w in b.leases && Recovered(b, next, now, leaseSeconds, w) && RefusalsKept(next, end)
    requires (w in end.leases <==> w in next.leases) && (w in end.leases ==> end.leases[w] == next.leases[w])
    requires forall n :: Fits(next, n) ==> Fits(end, n)
    ensures Recovered(b, end, now, leaseSeconds, w)
  {
    hide Reissued, Fits;
  }

  lemma {:induction false} ReassignReissues(b: Board, works: seq<Id>, now: real, leaseSeconds: real, failed: set<Id>)
    requires Consistent(b) && AllOffline(b, failed) && Ascending(works)
    requires forall w :: w in works ==> w in b.leases
    ensures var (end, o) := Reassign(b, works, now, leaseSeconds);
            && end.nodes == b.nodes && end.requirements == b.requirements
            && (forall n :: Fits(b, n) ==> Fits(end, n))
            && (o.Returned? ==> forall w :: w in works ==> Recovered(b, end, now, leaseSeconds, w))
    decreases |works|
  {
    hide ReassignOne, Consistent, Fits, Reissued, SweepDone;
    if works != [] {
      var work, tail := works[0], works[1..];
      assert work in works;
      ReassignOneReissues(b, work, now, leaseSeconds);
      ReassignOneSettles(b, work, now, leaseSeconds, failed);
      ReassignOneKeepsConsistency(b, work, now, leaseSeconds);
      var (next, first) := ReassignOne(b, work, now, leaseSeconds);
      if first.Returned? {
        forall w ensures w in tail <==> w in works && w != work { MemberOfTail(works, w); }
        ReassignReissues(next, tail, now, leaseSeconds, failed);
        ReassignSettlesEach(next, tail, now, leaseSeconds, failed);
        ReassignKeepsRefusals(next, tail, now, leaseSeconds);
        var (end, rest) := Reassign(next, tail, now, leaseSeconds);
        if rest.Returned? {
          SweptElsewhere(next, end, tail, rest.value, failed, work);
          StaysRecovered(b, next, end, now, leaseSeconds, work);
          forall w | w in tail ensures Recovered(b, end, now, leaseSeconds, w) {
            RecoveredFromNext(b, next, end, now, leaseSeconds, w);
          }
        }
      }
    }
  }

  lemma SweptElsewhere(b: Board, end: Board, works: seq<Id>, ds: seq<Decision>, failed: set<Id>, w: Id)
    requires SweepDone(b, end, works, ds, failed) && w !in works
    ensures (w in end.leases <==> w in b.leases) && (w in end.leases ==> end.leases[w] == b.leases[w])
  {
  }

  lemma RecoveredFromNext(b: Board, next: Board, end: Board, now: real, leaseSeconds: real, w: Id)
    requires next.nodes == b.nodes && next.requirements == b.requirements
    requires w in b.leases && w in next.leases && next.leases[w] == b.leases[w]
    requires Recovered(next, end, now, leaseSeconds, w)
    ensures Recovered(b, end, now, leaseSeconds, w)
  {
    hide Fits, Meets, CarriesAs;
  }

  // ----- the whole recovery -----

  lemma FailedAreOutOfReach(b: Board, now: real, maxAge: real)
    ensures forall n :: n in Failed(b.nodes, now, maxAge) <==> n in b.nodes && OutOfReach(b.nodes[n], now, maxAge)
    ensures forall w :: w in Stranded(b, now, maxAge) <==> StrandedWork(b, now, maxAge, w)
    ensures MarkedOffline(b, Swept(b, now, maxAge).nodes, now, maxAge)
  {
  }

  lemma WithinReachAgain(b: Board, req: Requirement, now: real, maxAge: real, leaseSeconds: real, lease: Lease)
    ensures Reissued(Swept(b, now, maxAge), req, now, leaseSeconds, lease) ==>
        Reissued(b, req, now, leaseSeconds, lease) && !OutOfReach(b.nodes[lease.nodeId], now, maxAge)
  {
    hide CarriesAs;
    FailedAreOutOfReach(b, now, maxAge);
  }

  /** The decision names the node that failed, and no other, as what the work was recovered from. */
  ghost predicate Blames(b: Board, w: Id, d: Decision) {
    w in b.leases && forall n :: RecoveryFrom(n) in d.reasons <==> n == b.leases[w].nodeId
  }

  /** One decision for each stranded work, in order of work. */
  ghost predicate EachBlamed(b: Board, now: real, maxAge: real, works: seq<Id>, ds: seq<Decision>) {
    && |works| == |ds| && Ascending(works)
    && (forall w :: w in works <==> StrandedWork(b, now, maxAge, w))
    && (forall i :: 0 <= i < |works| ==> Blames(b, works[i], ds[i]))
  }

  /** After a recovery that returned: every registered node out of reach is off line and holds no lease; every lease
      that is left was live; a live lease whose holder is within reach, or not registered, is as it was; and of the
      works of the nodes out of reach there is one decision each, in order, their holders have refused them, and a lease
      they have is a new one, on a node within reach that meets every condition and has room. */
  lemma RecoveryMeans(b: Board, now: real, maxAge: real, leaseSeconds: real)
    requires Consistent(b)
    ensures var (end, o) := BoardSpec.Recover(b, now, maxAge, leaseSeconds);
            o.Returned? ==>
              && MarkedOffline(b, end.nodes, now, maxAge) && end.requirements == b.requirements
              && (forall w :: w in end.leases ==>
                    && w in b.leases && now < b.leases[w].expiresAt
                    && (end.leases[w].nodeId in b.nodes ==> !OutOfReach(b.nodes[end.leases[w].nodeId], now, maxAge)))
              && (forall w :: w in b.leases && now < b.leases[w].expiresAt && !StrandedWork(b, now, maxAge, w) ==>
                    w in end.leases && end.leases[w] == b.leases[w])
              && (forall w :: StrandedWork(b, now, maxAge, w) ==> Recovered(b, end, now, leaseSeconds, w))
    ensures var o := BoardSpec.Recover(b, now, maxAge, leaseSeconds).1;
            o.Returned? ==> exists works :: EachBlamed(b, now, maxAge, works, o.value)
  {
    hide Consistent, Failed, AffectedWorks, Stranded, AllOffline, Swept, SweepDone, Recovered, OutOfReach, Reassign;
    RecoveryClearsFailedNodes(b, now, maxAge, leaseSeconds);
    FailedAreOutOfReach(b, now, maxAge);
    var (end, o) := BoardSpec.Recover(b, now, maxAge, leaseSeconds);
    if o.Returned? {
      var swept, works := Swept(b, now, maxAge), AffectedWorks(b, now, maxAge);
      SweptIsConsistent(b, now, maxAge);
      AffectedAreStranded(b, now, maxAge);
      EnumerationIsAscending(works, Stranded(b, now, maxAge));
      ReassignReissues(swept, works, now, leaseSeconds, Failed(b.nodes, now, maxAge));
      SweptKeeps(b, now, maxAge);
      forall w | StrandedWork(b, now, maxAge, w) ensures Recovered(b, end, now, leaseSeconds, w) {
        assert w in works;
        RecoveredSinceStart(b, end, now, maxAge, leaseSeconds, w);
      }
      EachIsBlamed(b, end, now, maxAge, o.value);
      assert EachBlamed(b, now, maxAge, works, o.value);
    }
  }

  lemma EachIsBlamed(b: Board, end: Board, now: real, maxAge: real, ds: seq<Decision>)
    requires SweepDone(Swept(b, now, maxAge), end, AffectedWorks(b, now, maxAge), ds, Failed(b.nodes, now, maxAge))
    ensures |ds| == |AffectedWorks(b, now, maxAge)|
    ensures forall i :: 0 <= i < |ds| ==> Blames(b, AffectedWorks(b, now, maxAge)[i], ds[i])
  {
    hide Failed, AffectedWorks;
    var works, swept := AffectedWorks(b, now, maxAge), Swept(b, now, maxAge);
    forall i | 0 <= i < |ds| ensures Blames(b, works[i], ds[i]) {
      assert works[i] in swept.leases && Settles(swept, end, works[i], ds[i], Failed(b.nodes, now, maxAge));
    }
  }

  lemma SweptKeeps(b: Board, now: real, maxAge: real)
    ensures var swept := Swept(b, now, maxAge);
            && swept.requirements == b.requirements && swept.refusals == b.refusals
            && forall w :: w in swept.leases ==> w in b.leases && swept.leases[w] == b.leases[w]
  {
  }

  lemma RecoveredSinceStart(b: Board, end: Board, now: real, maxAge: real, leaseSeconds: real, w: Id)
    requires w in b.leases && w in Swept(b, now, maxAge).leases
    requires Recovered(Swept(b, now, maxAge), end, now, leaseSeconds, w)
    ensures Recovered(b, end, now, leaseSeconds, w)
  {
    hide Fits, Reissued, Failed;
    if w in end.leases && w in b.requirements {
      WithinReachAgain(b, b.requirements[w], now, maxAge, leaseSeconds, end.leases[w]);
    }
  }
}
