/** What becomes of work that loses its node: who finds a new holder, and when the call raises instead. A lease that
    cannot be built is noticed only once somebody offers to carry the work. */
module BoardOutcomes {
  import opened Basics
  import opened Placement
  import opened BoardSpec
  import opened Choice
  import opened BoardLaws
  import opened BoardRuns

  ghost predicate SomebodyOffers(b: Board, req: Requirement, excluded: set<Id>) {
    exists c :: Offers(b, req, excluded, c)
  }

  /** Searching raises exactly when a node offers and the lease time is not positive; it then changes nothing. */
  lemma PlaceOnRaisesExactlyWhen(b: Board, req: Requirement, now: real, leaseSeconds: real, excluded: set<Id>)
    requires Keyed(b.nodes)
    ensures PlaceOn(b, req, now, leaseSeconds, excluded).1.Raised? <==>
        leaseSeconds <= 0.0 && SomebodyOffers(b, req, excluded)
    ensures leaseSeconds <= 0.0 ==> PlaceOn(b, req, now, leaseSeconds, excluded).0 == b
  {
    hide Scan, Rank, Snapshot, Offers;
    UnplacedExactlyWhenNobodyOffers(b, req, now, leaseSeconds, excluded);
  }

  // ----- refusal -----

  /** Somebody other than the nodes that refused the work, its present holder included, offers to carry it. */
  ghost predicate HasSuccessor(b: Board, work: Id) {
    && work in b.leases && work in b.requirements
    && SomebodyOffers(Dropped(b, work), b.requirements[work], RefusalsOf(b, work) + {b.leases[work].nodeId})
  }

  /** A refusal raises exactly when it gives no reason, or its node holds the work, the lease time is not positive and
      somebody else offers to carry it. */
  lemma RefuseRaisesExactlyWhen(b: Board, work: Id, node: Id, reason: string, now: real, leaseSeconds: real)
    requires Consistent(b)
    ensures Refuse(b, work, node, reason, now, leaseSeconds).1.Raised? <==>
        reason == "" || (Owns(b, work, node) && leaseSeconds <= 0.0 && HasSuccessor(b, work))
  {
    hide PlaceOn, Consistent, Offers;
    if Owns(b, work, node) {
      ConsistentLease(b, work);
      PlaceOnRaisesExactlyWhen(Dropped(b, work), b.requirements[work], now, leaseSeconds,
                               Dropped(b, work).refusals[work]);
    }
  }

  /** A refusal that raised for want of lease time has already taken the work from its node, for good. */
  lemma RaisingRefusalDropsTheLease(b: Board, work: Id, node: Id, reason: string, now: real, leaseSeconds: real)
    requires Consistent(b) && reason != ""
    ensures Refuse(b, work, node, reason, now, leaseSeconds).1.Raised? ==>
        Owns(b, work, node) && Refuse(b, work, node, reason, now, leaseSeconds)
            == (Dropped(b, work), Raised(ExpiryNotAfterIssue))
  {
    hide PlaceOn, Consistent;
    if Owns(b, work, node) {
      ConsistentLease(b, work);
      PlaceOnRaises(Dropped(b, work), b.requirements[work], now, leaseSeconds, Dropped(b, work).refusals[work]);
    }
  }

  // ----- recovery -----

  /** What a sweep without lease time leaves standing: the works not swept yet, and every lease of a healthy node. */
  ghost predicate SweptPart(b: Board, next: Board, failed: set<Id>, works: set<Id>) {
    && next.nodes == b.nodes && next.requirements == b.requirements && works <= next.leases.Keys
    && (forall w :: w in next.leases ==> w in b.leases && next.leases[w] == b.leases[w])
    && (forall w :: w in b.leases && w !in next.leases ==> b.leases[w].nodeId in failed)
    && (forall w :: w in works ==> RefusalsOf(next, w) == RefusalsOf(b, w))
  }

  lemma OfflineNeverOffers(b: Board, req: Requirement, excluded: set<Id>, c: Candidate)
    requires c.nodeId in b.nodes && b.nodes[c.nodeId].availability == Offline
    ensures !Offers(b, req, excluded, c)
  {
    hide CandidateFor, LeasesOn;
  }

  /** Leases gone from failed nodes do not change who offers. */
  lemma SuccessorsStay(b: Board, next: Board, failed: set<Id>, works: set<Id>, work: Id)
    requires Keyed(b.nodes) && SweptPart(b, next, failed, works) && AllOffline(b, failed) && work in works
    ensures HasSuccessor(next, work) <==> HasSuccessor(b, work)
  {
    hide ExclusionReason, CandidateFor;
    if work in b.requirements {
      var req, excluded := b.requirements[work], RefusalsOf(b, work) + {b.leases[work].nodeId};
      forall c
        ensures Offers(Dropped(next, work), req, excluded, c) <==> Offers(Dropped(b, work), req, excluded, c)
      {
        if c.nodeId in b.nodes {
          if c.nodeId in failed {
            OfflineNeverOffers(Dropped(b, work), req, excluded, c);
            OfflineNeverOffers(Dropped(next, work), req, excluded, c);
          } else {
            SameLoad(Dropped(b, work), Dropped(next, work), failed, c.nodeId);
            SameOffer(Dropped(b, work), Dropped(next, work), req, excluded, b.nodes[c.nodeId]);
          }
        }
      }
    }
  }

  lemma SameLoad(b: Board, next: Board, failed: set<Id>, n: Id)
    requires forall w :: w in next.leases ==> w in b.leases && next.leases[w] == b.leases[w]
    requires forall w :: w in b.leases && w !in next.leases ==> b.leases[w].nodeId in failed
    requires n !in failed
    ensures LeasesOn(next.leases, n) == LeasesOn(b.leases, n)
  {
  }

  lemma SameOffer(b: Board, next: Board, req: Requirement, excluded: set<Id>, node: Advertisement)
    requires LeasesOn(next.leases, node.nodeId) == LeasesOn(b.leases, node.nodeId)
    ensures Offer(b, req, excluded, node) == Offer(next, req, excluded, node)
  {
  }

  /** One work of a sweep without lease time: the sweep stops at a work somebody offers to take over, and otherwise
      only drops its lease. */
  lemma ReassignOneWithoutLeaseTime(b: Board, work: Id, now: real, leaseSeconds: real)
    requires Consistent(b) && work in b.leases && leaseSeconds <= 0.0
    ensures var (end, o) := ReassignOne(b, work, now, leaseSeconds);
            && (o.Raised? <==> HasSuccessor(b, work))
            && end == Dropped(b, work)
  {
    hide PlaceOn, Consistent, Offers;
    ConsistentLease(b, work);
    PlaceOnRaisesExactlyWhen(Dropped(b, work), b.requirements[work], now, leaseSeconds,
                             Dropped(b, work).refusals[work]);
  }

  function Members(works: seq<Id>): set<Id> {
    set w | w in works
  }

  lemma DroppedIsSwept(b: Board, next: Board, failed: set<Id>, works: seq<Id>)
    requires works != [] && Ascending(works) && SweptPart(b, next, failed, Members(works))
    requires works[0] in b.leases && b.leases[works[0]].nodeId in failed
    ensures works[0] in next.leases && SweptPart(b, Dropped(next, works[0]), failed, Members(works[1..]))
  {
    assert works[0] in works;
    forall w | w in works[1..] ensures w in works && w != works[0] {
      MemberOfTail(works, w);
    }
  }

  /** A sweep without lease time never moves a lease, and raises exactly when some work of it has a successor. */
  lemma {:induction false} SweepWithoutLeaseTime(b: Board, next: Board, failed: set<Id>, works: seq<Id>, now: real,
                                                 leaseSeconds: real)
    requires Consistent(next) && AllOffline(b, failed) && Keyed(b.nodes) && leaseSeconds <= 0.0
    requires Ascending(works) && SweptPart(b, next, failed, Members(works))
    requires forall w :: w in works ==> w in b.leases && b.leases[w].nodeId in failed
    ensures var (end, o) := Reassign(next, works, now, leaseSeconds);
            && (o.Raised? <==> exists w :: w in works && HasSuccessor(b, w))
            && (forall w :: w in end.leases ==> w in b.leases && end.leases[w] == b.leases[w])
    decreases |works|
  {
    hide ReassignOne, Consistent, HasSuccessor, AllOffline, Keyed, Ascending;
    if works != [] {
      var work, tail := works[0], works[1..];
      assert work in works && forall w :: w in works <==> w == work || w in tail;
      SuccessorsStay(b, next, failed, Members(works), work);
      DroppedIsSwept(b, next, failed, works);
      ReassignOneWithoutLeaseTime(next, work, now, leaseSeconds);
      ReassignOneKeepsConsistency(next, work, now, leaseSeconds);
      var first := ReassignOne(next, work, now, leaseSeconds).1;
      if first.Returned? {
        TailIsAscending(works);
        SweepWithoutLeaseTime(b, Dropped(next, work), failed, tail, now, leaseSeconds);
      }
    }
  }

  lemma TailIsAscending(works: seq<Id>)
    requires works != [] && Ascending(works)
    ensures Ascending(works[1..])
  {
  }

  /** The age bound is not positive, or the lease time is not and some stranded work has a successor. */
  ghost predicate CannotRecover(b: Board, now: real, maxAge: real, leaseSeconds: real) {
    || maxAge <= 0.0
    || (leaseSeconds <= 0.0 && exists w :: w in Stranded(b, now, maxAge) && HasSuccessor(Swept(b, now, maxAge), w))
  }

  /** A recovery raises exactly when the age bound is not positive, or the lease time is not and some stranded work
      has a successor among the nodes that are up. */
  lemma RecoverRaisesExactlyWhen(b: Board, now: real, maxAge: real, leaseSeconds: real)
    requires Consistent(b)
    ensures BoardSpec.Recover(b, now, maxAge, leaseSeconds).1.Raised? <==> CannotRecover(b, now, maxAge, leaseSeconds)
  {
    hide Consistent, Reassign, HasSuccessor, Failed, AffectedWorks, AllOffline;
    RecoveryClearsFailedNodes(b, now, maxAge, leaseSeconds);
    if maxAge > 0.0 && leaseSeconds <= 0.0 {
      SweepOfRecovery(b, now, maxAge, leaseSeconds);
    }
  }

  lemma SweepOfRecovery(b: Board, now: real, maxAge: real, leaseSeconds: real)
    requires Consistent(b) && leaseSeconds <= 0.0
    ensures var (end, o) := Reassign(Swept(b, now, maxAge), AffectedWorks(b, now, maxAge), now, leaseSeconds);
            && (o.Raised? <==> exists w :: w in Stranded(b, now, maxAge) && HasSuccessor(Swept(b, now, maxAge), w))
            && (forall w :: w in end.leases ==> w in b.leases && end.leases[w] == b.leases[w])
  {
    hide Consistent, Reassign, HasSuccessor, Failed, AffectedWorks, AllOffline;
    var failed, swept, works := Failed(b.nodes, now, maxAge), Swept(b, now, maxAge), AffectedWorks(b, now, maxAge);
    SweptIsConsistent(b, now, maxAge);
    AffectedAreStranded(b, now, maxAge);
    EnumerationIsAscending(works, Stranded(b, now, maxAge));
    ConsistentNodes(swept);
    assert forall w :: w in works <==> w in Stranded(b, now, maxAge);
    SweepWithoutLeaseTime(swept, swept, failed, works, now, leaseSeconds);
  }

  // ----- who finds a new holder -----

  /** The board when a sweep comes to its j-th work. */
  ghost function BoardAt(b: Board, works: seq<Id>, j: nat, now: real, leaseSeconds: real): Board
    requires j <= |works|
  {
    Reassign(b, works[..j], now, leaseSeconds).0
  }

  lemma ReassignOnePlacesExactlyWhen(b: Board, work: Id, now: real, leaseSeconds: real)
    requires Consistent(b) && work in b.leases
    ensures var (end, o) := ReassignOne(b, work, now, leaseSeconds);
            o.Returned? ==> (work in end.leases <==> HasSuccessor(b, work))
  {
    hide PlaceOn, Consistent, Offers, ExclusionReason;
    ConsistentLease(b, work);
    var dropped := Dropped(b, work);
    UnplacedExactlyWhenNobodyOffers(dropped, b.requirements[work], now, leaseSeconds, dropped.refusals[work]);
    PlaceOnEffect(dropped, b.requirements[work], now, leaseSeconds, dropped.refusals[work]);
  }

  /** A work nobody offers to take over only loses its lease. */
  lemma ReassignOneUnplaced(b: Board, work: Id, now: real, leaseSeconds: real)
    requires Consistent(b) && work in b.leases && !HasSuccessor(b, work)
    ensures ReassignOne(b, work, now, leaseSeconds).0 == Dropped(b, work)
    ensures ReassignOne(b, work, now, leaseSeconds).1.Returned?
  {
    hide PlaceOn, Consistent, Offers, ExclusionReason;
    ConsistentLease(b, work);
    var dropped := Dropped(b, work);
    UnplacedExactlyWhenNobodyOffers(dropped, b.requirements[work], now, leaseSeconds, dropped.refusals[work]);
    PlaceOnEffect(dropped, b.requirements[work], now, leaseSeconds, dropped.refusals[work]);
  }

  lemma BoardAtLater(b: Board, works: seq<Id>, j: nat, now: real, leaseSeconds: real)
    requires 0 < j <= |works| && works[0] in b.leases && ReassignOne(b, works[0], now, leaseSeconds).1.Returned?
    ensures BoardAt(b, works, j, now, leaseSeconds)
         == BoardAt(ReassignOne(b, works[0], now, leaseSeconds).0, works[1..], j - 1, now, leaseSeconds)
  {
    hide ReassignOne;
    assert works[..j][1..] == works[1..][..j - 1];
  }

  /** In a sweep that returns, a work finds a new holder exactly when somebody offers to carry it at its turn. */
  lemma {:induction false} PlacedExactlyWhenSomebodyOffers(
      b: Board, works: seq<Id>, j: nat, now: real, leaseSeconds: real, failed: set<Id>)
    requires Consistent(b) && AllOffline(b, failed) && Ascending(works) && j < |works|
    requires forall w :: w in works ==> w in b.leases
    ensures var (end, o) := Reassign(b, works, now, leaseSeconds);
            o.Returned? ==>
              (works[j] in end.leases <==> HasSuccessor(BoardAt(b, works, j, now, leaseSeconds), works[j]))
    decreases |works|
  {
    hide ReassignOne, Consistent, HasSuccessor, SweepDone, BoardAt;
    var work, tail := works[0], works[1..];
    assert work in works;
    forall w ensures w in tail <==> w in works && w != work { MemberOfTail(works, w); }
    TailIsAscending(works);
    var (next, first) := ReassignOne(b, work, now, leaseSeconds);
    ReassignOneSettles(b, work, now, leaseSeconds, failed);
    ReassignOneKeepsConsistency(b, work, now, leaseSeconds);
    ReassignOnePlacesExactlyWhen(b, work, now, leaseSeconds);
    if first.Returned? {
      if j == 0 {
        BoardAtFirst(b, works, now, leaseSeconds);
        ReassignSettlesEach(next, tail, now, leaseSeconds, failed);
        OutsideTheSweep(next, tail, now, leaseSeconds, failed, work);
      } else {
        BoardAtLater(b, works, j, now, leaseSeconds);
        assert tail[j - 1] == works[j];
        PlacedExactlyWhenSomebodyOffers(next, tail, j - 1, now, leaseSeconds, failed);
      }
    }
  }

  lemma BoardAtFirst(b: Board, works: seq<Id>, now: real, leaseSeconds: real)
    ensures BoardAt(b, works, 0, now, leaseSeconds) == b
  {
    assert works[..0] == [];
  }

  lemma OutsideTheSweep(b: Board, works: seq<Id>, now: real, leaseSeconds: real, failed: set<Id>, work: Id)
    requires work !in works
    ensures var (end, o) := Reassign(b, works, now, leaseSeconds);
            o.Returned? && SweepDone(b, end, works, o.value, failed) ==> (work in end.leases <==> work in b.leases)
  {
    hide Reassign;
  }

  /** The same for a whole recovery. */
  lemma RecoveredExactlyWhenSomebodyOffers(b: Board, j: nat, now: real, maxAge: real, leaseSeconds: real)
    requires Consistent(b) && j < |AffectedWorks(b, now, maxAge)|
    ensures var (end, o) := BoardSpec.Recover(b, now, maxAge, leaseSeconds);
            var works := AffectedWorks(b, now, maxAge);
            o.Returned? ==>
              (works[j] in end.leases <==>
               HasSuccessor(BoardAt(Swept(b, now, maxAge), works, j, now, leaseSeconds), works[j]))
  {
    hide Consistent, Reassign, HasSuccessor, BoardAt, Failed, AffectedWorks, AllOffline, Swept, Enumerates;
    var works := AffectedWorks(b, now, maxAge);
    SweptIsConsistent(b, now, maxAge);
    AffectedAreStranded(b, now, maxAge);
    EnumerationIsAscending(works, Stranded(b, now, maxAge));
    PlacedExactlyWhenSomebodyOffers(Swept(b, now, maxAge), works, j, now, leaseSeconds, Failed(b.nodes, now, maxAge));
  }

  // ----- an input on either side -----

  function Carrier(node: Id, heartbeat: real): Advertisement
    requires heartbeat >= 0.0
  {
    Node(node, 0, node, SpecialistLinux, {0}, 0.0, 1.0, Available, heartbeat, {}, {}, 2, 0, false, {}, {}, true, true)
  }

  const Work: Requirement := Requirement(7, 0, {0}, {}, 0.5, 0.85, true, true, false, false, true, None, false, false)

  const FirstLease: Lease := Lease(7, 1, 1, Primary, {0}, {}, 0.0, 60.0, NoDegradation, false)

  /** Work 7 leased to node 1, which was last heard of at 0. */
  function Leased(nodes: map<Id, Advertisement>): Board {
    Board(0, nodes, map[7 := FirstLease], map[7 := Work], map[])
  }

  lemma CarrierOffers(b: Board, excluded: set<Id>, heartbeat: real)
    requires 2 in b.nodes && heartbeat >= 0.0 && b.nodes[2] == Carrier(2, heartbeat)
    requires 2 !in excluded && |LeasesOn(b.leases, 2)| == 0
    ensures SomebodyOffers(b, Work, excluded)
  {
    hide Score;
    var c := Candidate(2, 2, Primary, Score(Work, b.nodes[2], 0, Primary), {0}, {});
    assert Offers(b, Work, excluded, c);
  }

  lemma BothHaveASuccessor(b: Board)
    requires b.leases == map[7 := FirstLease] && b.requirements == map[7 := Work] && b.refusals == map[]
    requires 2 in b.nodes && b.nodes[2] == Carrier(2, 9.0)
    ensures HasSuccessor(b, 7)
  {
    hide Offers;
    assert Dropped(b, 7).leases == map[];
    assert LeasesOn(Dropped(b, 7).leases, 2) == {};
    CarrierOffers(Dropped(b, 7), RefusalsOf(b, 7) + {1}, 9.0);
  }

  lemma AloneHasNone(b: Board)
    requires Keyed(b.nodes) && b.leases == map[7 := FirstLease] && b.nodes.Keys == {1}
    ensures !HasSuccessor(b, 7)
  {
    hide ExclusionReason, CandidateFor;
  }

  const Both: Board := Leased(map[1 := Carrier(1, 0.0), 2 := Carrier(2, 9.0)])
  const Alone: Board := Leased(map[1 := Carrier(1, 0.0)])

  lemma BothAreConsistent()
    ensures Consistent(Both) && Consistent(Alone)
  {
  }

  /** With a second node able to carry the work, refusing without lease time raises after the first node has lost it.
      Alone, the first node loses it without an exception. */
  lemma RefusingWithoutLeaseTime()
    ensures Refuse(Both, 7, 1, "overloaded", 10.0, 0.0) == (Dropped(Both, 7), Raised(ExpiryNotAfterIssue))
    ensures Refuse(Alone, 7, 1, "overloaded", 10.0, 0.0).1.Returned?
  {
    hide Refuse, HasSuccessor, Consistent;
    BothAreConsistent();
    RefuseRaisesExactlyWhen(Both, 7, 1, "overloaded", 10.0, 0.0);
    RefuseRaisesExactlyWhen(Alone, 7, 1, "overloaded", 10.0, 0.0);
    RaisingRefusalDropsTheLease(Both, 7, 1, "overloaded", 10.0, 0.0);
    BothHaveASuccessor(Both);
    AloneHasNone(Alone);
  }

  /** The same for a recovery after node 1 fell silent. */
  lemma RecoveringWithoutLeaseTime()
    ensures BoardSpec.Recover(Both, 10.0, 5.0, 0.0).1.Raised?
    ensures BoardSpec.Recover(Alone, 10.0, 5.0, 0.0).1.Returned?
  {
    hide BoardSpec.Recover, HasSuccessor, Consistent;
    BothAreConsistent();
    RecoverRaisesExactlyWhen(Both, 10.0, 5.0, 0.0);
    RecoverRaisesExactlyWhen(Alone, 10.0, 5.0, 0.0);
    assert 7 in Stranded(Both, 10.0, 5.0);
    BothHaveASuccessor(Swept(Both, 10.0, 5.0));
    AloneHasNone(Swept(Alone, 10.0, 5.0));
  }
}
