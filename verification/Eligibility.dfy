/** Who may carry a piece of work, read off the fields of the node and of the work, and what a fresh lease then says. */
module Eligibility {
  import opened Basics
  import opened Placement
  import opened BoardSpec
  import opened Choice

  // ----- the checks -----

  /** What keeps the node from carrying the work under this check, on the fields the check is about. */
  predicate Fails(req: Requirement, node: Advertisement, active: nat, why: Exclusion) {
    match why
    case BodyNotVerified => !node.bodyVerified
    case ContinuityNotVerified => !node.continuityVerified
    case BadAvailability(a) => node.availability == a && a !in {Available, Busy, Degraded}
    case HealthBelowMinimum => node.health < req.minHealth
    case LoadAboveMaximum => req.maxLoad < node.currentLoad
    case TaskLimitExceeded => node.maxTasks < node.currentTasks + active + 1
    case WorkClassRefused => req.workClass in node.refusedClasses
    case WorkClassNotAccepted => node.acceptedClasses != {} && req.workClass !in node.acceptedClasses
    case QueenFallbackDisabled => node.tier == Queen && !req.allowQueenFallback
    case RequiresQueen => req.wholeSystem && node.tier != Queen
  }

  /** The order in which the checks are made. */
  function Turn(why: Exclusion): nat {
    match why
    case BodyNotVerified => 0
    case ContinuityNotVerified => 1
    case BadAvailability(_) => 2
    case HealthBelowMinimum => 3
    case LoadAboveMaximum => 4
    case TaskLimitExceeded => 5
    case WorkClassRefused => 6
    case WorkClassNotAccepted => 7
    case QueenFallbackDisabled => 8
    case RequiresQueen => 9
  }

  /** The node is verified, up, healthy and free enough, and willing. */
  predicate Meets(req: Requirement, node: Advertisement) {
    && node.bodyVerified && node.continuityVerified
    && node.availability in {Available, Busy, Degraded}
    && req.minHealth <= node.health && node.currentLoad <= req.maxLoad
    && req.workClass !in node.refusedClasses
    && (node.acceptedClasses == {} || req.workClass in node.acceptedClasses)
    && (node.tier == Queen ==> req.allowQueenFallback)
    && (req.wholeSystem ==> node.tier == Queen)
  }

  predicate HasRoom(node: Advertisement, active: nat) {
    node.currentTasks + active < node.maxTasks
  }

  lemma ExcludedExactlyWhen(req: Requirement, node: Advertisement, active: nat)
    ensures ExclusionReason(req, node, active) == None <==> Meets(req, node) && HasRoom(node, active)
  {
    var a := node.availability;
    assert a.Available? || a.Busy? || a.Degraded? || a.Saturated? || a.Draining? || a.Offline? || a.Quarantined?;
  }

  /** The check fails and no earlier one does. */
  ghost predicate FailsFirst(req: Requirement, node: Advertisement, active: nat, why: Exclusion) {
    Fails(req, node, active, why) && forall other :: Fails(req, node, active, other) ==> Turn(why) <= Turn(other)
  }

  /** A node is excluded for the first check it fails, and for none exactly when it meets every condition. */
  lemma ExcludedForTheFirstFailure(req: Requirement, node: Advertisement, active: nat, why: Exclusion)
    ensures ExclusionReason(req, node, active) == Some(why) <==> FailsFirst(req, node, active, why)
    ensures ExclusionReason(req, node, active) == None <==> forall other :: !Fails(req, node, active, other)
  {
    ExcludedExactlyWhen(req, node, active);
    var found := ExclusionReason(req, node, active);
    if found.Some? {
      forall other | Fails(req, node, active, other)
        ensures Turn(found.value) <= Turn(other) && (Turn(found.value) == Turn(other) ==> found.value == other)
      {
      }
      assert Fails(req, node, active, found.value);
    } else {
      forall other ensures !Fails(req, node, active, other) {
      }
    }
  }

  // ----- what a node covers -----

  /** A capability the node has, or lends to work that may overflow to it. */
  predicate Overflowing(req: Requirement, node: Advertisement, x: Id) {
    x in node.capabilities || (req.allowOverflow && node.overflowCapable && x in node.overflowCapabilities)
  }

  /** A capability the node has, or takes on for a while if the work allows it. */
  predicate Absorbing(req: Requirement, node: Advertisement, x: Id) {
    x in node.capabilities || (req.allowAbsorption && x in node.absorptionCapabilities)
  }

  predicate Lending(req: Requirement, node: Advertisement, x: Id) {
    Overflowing(req, node, x) || Absorbing(req, node, x)
  }

  /** What the node would carry the work as, with what it covers and what it lacks: itself, then by overflow, then by
      absorption, then in part, then only watching. */
  ghost predicate CarriesAs(req: Requirement, node: Advertisement, mode: Mode, matched: set<Id>, missing: set<Id>) {
    var owns := forall x :: x in req.required ==> x in node.capabilities;
    var overflows := forall x :: x in req.required ==> Overflowing(req, node, x);
    var absorbs := forall x :: x in req.required ==> Absorbing(req, node, x);
    var helps := req.allowPartial && req.partialUseful && exists x :: x in req.required && Lending(req, node, x);
    match mode
    case Primary => owns && (node.tier == Queen ==> req.wholeSystem) && matched == req.required && missing == {}
    case QueenFallback => owns && node.tier == Queen && !req.wholeSystem && matched == req.required && missing == {}
    case Overflow => !owns && overflows && matched == req.required && missing == {}
    case TemporaryAbsorption => !owns && !overflows && absorbs && matched == req.required && missing == {}
    case Partial =>
      && !owns && !overflows && !absorbs && helps
      && (forall x :: x in matched <==> x in req.required && Lending(req, node, x))
      && (forall x :: x in missing <==> x in req.required && !Lending(req, node, x))
    case ObserveOnly =>
      && !owns && !overflows && !absorbs && !helps
      && req.observeOnly.Some? && Lending(req, node, req.observeOnly.value)
      && matched == {req.observeOnly.value} && missing == req.required
  }

  lemma CoverageMeans(req: Requirement, node: Advertisement, mode: Mode, matched: set<Id>, missing: set<Id>)
    ensures Coverage(req, node) == Some((mode, matched, missing)) <==> CarriesAs(req, node, mode, matched, missing)
  {
    var over, absorb := OverflowPool(req, node), AbsorptionPool(req, node);
    assert forall x :: x in over <==> Overflowing(req, node, x);
    assert forall x :: x in absorb <==> Absorbing(req, node, x);
    var shared := req.required * (over + absorb);
    assert forall x :: x in shared <==> x in req.required && Lending(req, node, x);
    if shared != {} {
      var x :| x in shared;
      assert Lending(req, node, x);
    }
    if CarriesAs(req, node, mode, matched, missing) && mode == Partial {
      assert matched == shared && missing == req.required - (over + absorb);
    }
  }

  /** No work is carried in two ways by one node. */
  lemma OneWayToCarry(req: Requirement, node: Advertisement, m: Mode, a: set<Id>, b: set<Id>,
                      n: Mode, c: set<Id>, d: set<Id>)
    requires CarriesAs(req, node, m, a, b) && CarriesAs(req, node, n, c, d)
    ensures (m, a, b) == (n, c, d)
  {
    CoverageMeans(req, node, m, a, b);
    CoverageMeans(req, node, n, c, d);
  }

  // ----- offers -----

  /** The works a node is leased, as a node that is offered another one. */
  ghost function Carrying(leases: map<Id, Lease>, node: Id): set<Id> {
    set w | w in leases && leases[w].nodeId == node
  }

  /** Registered, not excluded, meeting every condition with room for one more, and covering the work. */
  ghost predicate MayCarry(b: Board, req: Requirement, excluded: set<Id>, n: Id,
                           mode: Mode, matched: set<Id>, missing: set<Id>) {
    && n in b.nodes && n !in excluded
    && Meets(req, b.nodes[n]) && HasRoom(b.nodes[n], |Carrying(b.leases, n)|)
    && CarriesAs(req, b.nodes[n], mode, matched, missing)
  }

  /** A node offers exactly when it may carry the work, with what it covers and its score. */
  lemma OffersExactlyWhen(b: Board, req: Requirement, excluded: set<Id>, c: Candidate)
    requires Keyed(b.nodes)
    ensures Offers(b, req, excluded, c) <==>
        && MayCarry(b, req, excluded, c.nodeId, c.mode, c.matched, c.missing)
        && c.organ == b.nodes[c.nodeId].organ
        && c.score == Score(req, b.nodes[c.nodeId], |Carrying(b.leases, c.nodeId)|, c.mode)
  {
    hide ExclusionReason, Coverage, CarriesAs, Meets, HasRoom, Score;
    if c.nodeId in b.nodes {
      var node := b.nodes[c.nodeId];
      assert Carrying(b.leases, c.nodeId) == LeasesOn(b.leases, node.nodeId);
      ExcludedExactlyWhen(req, node, |LeasesOn(b.leases, node.nodeId)|);
      CoverageMeans(req, node, c.mode, c.matched, c.missing);
      if CandidateFor(req, node, |LeasesOn(b.leases, node.nodeId)|).Some? {
        var (mode, matched, missing) := Coverage(req, node).value;
        CoverageMeans(req, node, mode, matched, missing);
      }
    }
  }

  // ----- what a placement does -----

  ghost predicate SomebodyMay(b: Board, req: Requirement, excluded: set<Id>) {
    exists n, mode, matched, missing :: MayCarry(b, req, excluded, n, mode, matched, missing)
  }

  /** What a lease made now for the work says: a holder that may carry it, as what and with what, for how long. */
  ghost predicate IsFresh(b: Board, req: Requirement, excluded: set<Id>, now: real, leaseSeconds: real, lease: Lease) {
    && MayCarry(b, req, excluded, lease.nodeId, lease.mode, lease.matched, lease.missing)
    && lease.workId == req.workId && lease.organ == b.nodes[lease.nodeId].organ
    && lease.issuedAt == now && lease.expiresAt == now + leaseSeconds
    && lease.courtRequired == req.consequential
    && (lease.degradation == NoDegradation <==> lease.mode == Primary)
    && (lease.degradation == FullReplacement <==> lease.mode in {Overflow, TemporaryAbsorption, QueenFallback})
    && (lease.degradation == PartialReplacement <==> lease.mode == Partial)
    && (lease.degradation == ObservationOnly <==> lease.mode == ObserveOnly)
  }

  /** What a decision about the lease says, after any reasons it is led by. */
  ghost predicate TellsOf(d: Decision, lease: Option<Lease>, led: seq<Reason>) {
    && d.lease == lease
    && led + [if lease.Some? then Selected else NothingFits] <= d.reasons
    && (lease.None? ==> d.state == Unavailable && d.degradation == CapabilityUnavailable && d.alternatives == [])
    && (lease.Some? ==>
          && d.state == (if lease.value.mode == Primary then Leased else LeasedDegraded)
          && d.degradation == lease.value.degradation)
  }

  lemma SomebodyOffersExactlyWhen(b: Board, req: Requirement, excluded: set<Id>)
    requires Keyed(b.nodes)
    ensures (exists c :: Offers(b, req, excluded, c)) <==> SomebodyMay(b, req, excluded)
  {
    hide Offers, MayCarry, Score;
    if c :| Offers(b, req, excluded, c) {
      OffersExactlyWhen(b, req, excluded, c);
    }
    if n, mode, matched, missing :| MayCarry(b, req, excluded, n, mode, matched, missing) {
      RegisteredIfMay(b, req, excluded, n, mode, matched, missing);
      var c := Candidate(n, b.nodes[n].organ, mode, Score(req, b.nodes[n], |Carrying(b.leases, n)|, mode),
                         matched, missing);
      OffersExactlyWhen(b, req, excluded, c);
    }
  }

  lemma RegisteredIfMay(b: Board, req: Requirement, excluded: set<Id>, n: Id,
                        mode: Mode, matched: set<Id>, missing: set<Id>)
    requires MayCarry(b, req, excluded, n, mode, matched, missing)
    ensures n in b.nodes
  {
  }

  /** A search changes nothing and places nothing when nobody may carry the work; otherwise it needs lease time, and
      makes one fresh lease. */
  ghost predicate Searched(b: Board, req: Requirement, excluded: set<Id>, now: real, leaseSeconds: real,
                           end: Board, o: Outcome<Decision, Error>, led: seq<Reason>) {
    if !SomebodyMay(b, req, excluded) then end == b && o.Returned? && TellsOf(o.value, None, led)
    else if leaseSeconds <= 0.0 then end == b && o == Raised(ExpiryNotAfterIssue)
    else
      && o.Returned? && o.value.lease.Some? && TellsOf(o.value, o.value.lease, led)
      && IsFresh(b, req, excluded, now, leaseSeconds, o.value.lease.value)
      && end == b.(leases := b.leases[req.workId := o.value.lease.value])
  }

  lemma SearchMeans(b: Board, req: Requirement, now: real, leaseSeconds: real, excluded: set<Id>)
    requires Keyed(b.nodes)
    ensures var (end, o) := PlaceOn(b, req, now, leaseSeconds, excluded);
            Searched(b, req, excluded, now, leaseSeconds, end, o, [])
  {
    hide Scan, Rank, Snapshot, Offers, MayCarry, SomebodyMay, ExclusionReason;
    SomebodyOffersExactlyWhen(b, req, excluded);
    UnplacedExactlyWhenNobodyOffers(b, req, now, leaseSeconds, excluded);
    ChosenBeatsEveryOffer(b, req, now, leaseSeconds, excluded);
    PlaceOnEffect(b, req, now, leaseSeconds, excluded);
    var (end, o) := PlaceOn(b, req, now, leaseSeconds, excluded);
    if o.Returned? && o.value.lease.Some? {
      var chosen :| IsTheChoice(b, req, now, leaseSeconds, excluded, o.value.lease.value, chosen);
      OffersExactlyWhen(b, req, excluded, chosen);
    }
  }

  /** A placement: without lease time it raises; a live lease is handed back; otherwise expired leases go, the
      requirement is stored, and the search goes on without the excluded nodes and those that refused the work. */
  lemma PlacementMeans(b: Board, req: Requirement, now: real, leaseSeconds: real, exclude: set<Id>)
    requires Keyed(b.nodes)
    ensures var (end, o) := BoardSpec.Place(b, req, now, leaseSeconds, exclude);
            var live := Unexpired(b.leases, now);
            var refused := if req.workId in b.refusals then b.refusals[req.workId] else {};
            if leaseSeconds <= 0.0 then end == b && o == Raised(LeaseSecondsNotPositive)
            else if req.workId in live then
              end == b.(leases := live) && o.Returned? && HandsBack(o.value, live[req.workId])
            else
              Searched(b.(leases := live, requirements := b.requirements[req.workId := req]), req, exclude + refused,
                       now, leaseSeconds, end, o, [])
  {
    hide PlaceOn, Searched;
    var live := Unexpired(b.leases, now);
    var start := b.(leases := live, requirements := b.requirements[req.workId := req]);
    SearchMeans(start, req, now, leaseSeconds, exclude + RefusalsOf(b, req.workId));
  }

  ghost predicate HandsBack(d: Decision, lease: Lease) {
    && d.lease == Some(lease) && d.state == AlreadyLeased && d.degradation == lease.degradation
    && d.alternatives == [] && d.reasons == [LeaseExists]
  }

  /** A refusal by the holder: its lease goes, it joins the work's refusals, and the search goes on without those. */
  lemma RefusalMeans(b: Board, work: Id, node: Id, reason: string, now: real, leaseSeconds: real)
    requires Keyed(b.nodes) && (work in b.requirements ==> b.requirements[work].workId == work)
    ensures var (end, o) := BoardSpec.Refuse(b, work, node, reason, now, leaseSeconds);
            var refused := {node} + if work in b.refusals then b.refusals[work] else {};
            if reason == "" then end == b && o == Raised(ReasonRequired)
            else if work !in b.leases || work !in b.requirements || b.leases[work].nodeId != node then
              && end == b && o.Returned? && o.value.lease.None? && o.value.state == LeaseNotOwned
              && o.value.degradation == CapabilityUnavailable && o.value.reasons == [NotOwner]
            else
              Searched(b.(leases := b.leases - {work}, refusals := b.refusals[work := refused]), b.requirements[work],
                       refused, now, leaseSeconds, end, o, [RefusedBy(node)])
  {
    hide PlaceOn, SomebodyMay, IsFresh;
    if reason != "" && Owns(b, work, node) {
      var refused := {node} + if work in b.refusals then b.refusals[work] else {};
      assert refused == RefusalsOf(b, work) + {node};
      var dropped := Dropped(b, work);
      SearchMeans(dropped, b.requirements[work], now, leaseSeconds, dropped.refusals[work]);
    }
  }

  // ----- who is named as passed over -----

  /** Why the node is not considered any further, if it is not. */
  ghost predicate PassedOver(b: Board, req: Requirement, excluded: set<Id>, node: Advertisement, r: Reason) {
    match r
    case ExcludedOrRefused(n) => n == node.nodeId && n in excluded
    case ExcludedFor(n, why) =>
      n == node.nodeId && n !in excluded && ExclusionReason(req, node, |LeasesOn(b.leases, n)|) == Some(why)
    case _ => false
  }

  lemma {:induction false} SkippedInScan(b: Board, req: Requirement, nodes: seq<Advertisement>, excluded: set<Id>,
                                         r: Reason)
    ensures r in Scan(req, nodes, b.leases, excluded).skipped <==>
        exists i :: 0 <= i < |nodes| && PassedOver(b, req, excluded, nodes[i], r)
  {
    hide ExclusionReason, CandidateFor, LeasesOn, PassedOver;
    if nodes != [] {
      var front, last := nodes[..|nodes| - 1], nodes[|nodes| - 1];
      SkippedInScan(b, req, front, excluded, r);
      ConsiderSkips(b, req, Scan(req, front, b.leases, excluded), last, excluded, r);
      if i :| 0 <= i < |front| && PassedOver(b, req, excluded, front[i], r) {
        assert nodes[i] == front[i];
      }
      if i :| 0 <= i < |nodes| && PassedOver(b, req, excluded, nodes[i], r) && i < |front| {
        assert front[i] == nodes[i];
      }
    }
  }

  lemma ConsiderSkips(b: Board, req: Requirement, sofar: Scanned, node: Advertisement, excluded: set<Id>, r: Reason)
    ensures r in Consider(sofar, req, node, |LeasesOn(b.leases, node.nodeId)|, excluded).skipped <==>
        r in sofar.skipped || PassedOver(b, req, excluded, node, r)
  {
    hide ExclusionReason, CandidateFor, LeasesOn;
  }

  /** The reasons of a decision name exactly the registered nodes left out: the excluded ones, and every other one that
      fails a check, with the first check it fails. */
  lemma PassedOverNodesAreNamed(b: Board, req: Requirement, now: real, leaseSeconds: real, excluded: set<Id>, n: Id)
    requires Keyed(b.nodes)
    ensures var o := PlaceOn(b, req, now, leaseSeconds, excluded).1;
            o.Returned? ==>
              && (ExcludedOrRefused(n) in o.value.reasons <==> n in b.nodes && n in excluded)
              && (forall why :: ExcludedFor(n, why) in o.value.reasons <==>
                    n in b.nodes && n !in excluded && FailsFirst(req, b.nodes[n], |Carrying(b.leases, n)|, why))
  {
    hide Scan, Rank, Snapshot, Score, Coverage, ExclusionReason, FailsFirst, PassedOver;
    var skipped := Scan(req, Snapshot(b.nodes), b.leases, excluded).skipped;
    SkippedOfBoard(b, req, excluded, n, ExcludedOrRefused(n));
    PassedOverMeans(b, req, excluded, n);
    forall why
      ensures ExcludedFor(n, why) in skipped <==>
          n in b.nodes && n !in excluded && FailsFirst(req, b.nodes[n], |Carrying(b.leases, n)|, why)
    {
      SkippedOfBoard(b, req, excluded, n, ExcludedFor(n, why));
      if n in b.nodes {
        ExcludedForTheFirstFailure(req, b.nodes[n], |Carrying(b.leases, n)|, why);
      }
    }
  }

  lemma PassedOverMeans(b: Board, req: Requirement, excluded: set<Id>, n: Id)
    requires Keyed(b.nodes)
    ensures n in b.nodes ==>
        && (PassedOver(b, req, excluded, b.nodes[n], ExcludedOrRefused(n)) <==> n in excluded)
        && forall why :: PassedOver(b, req, excluded, b.nodes[n], ExcludedFor(n, why)) <==>
             n !in excluded && ExclusionReason(req, b.nodes[n], |Carrying(b.leases, n)|) == Some(why)
  {
    hide ExclusionReason;
    assert Carrying(b.leases, n) == LeasesOn(b.leases, n);
  }

  lemma SkippedOfBoard(b: Board, req: Requirement, excluded: set<Id>, n: Id, r: Reason)
    requires Keyed(b.nodes) && (r == ExcludedOrRefused(n) || (r.ExcludedFor? && r.node == n))
    ensures r in Scan(req, Snapshot(b.nodes), b.leases, excluded).skipped <==>
        n in b.nodes && PassedOver(b, req, excluded, b.nodes[n], r)
  {
    hide Scan, Snapshot, ExclusionReason, LeasesOn;
    var nodes := Snapshot(b.nodes);
    SkippedInScan(b, req, nodes, excluded, r);
    SnapshotMembers(b.nodes, n);
    if i :| 0 <= i < |nodes| && PassedOver(b, req, excluded, nodes[i], r) {
      assert nodes[i].nodeId == n;
    }
    if n in b.nodes && PassedOver(b, req, excluded, b.nodes[n], r) {
      var i :| 0 <= i < |nodes| && nodes[i].nodeId == n;
      assert nodes[i] == b.nodes[n];
    }
  }
}
