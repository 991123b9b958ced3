/** Which organ may carry a piece of work, and how good a carrier it is:
    the pure part of services/distributed_work_coordinator.py. */
module Placement {
  import opened Basics

  datatype Tier = Microcontroller | SpecialistLinux | HeavyLinux | Queen

  datatype Availability = Available | Busy | Saturated | Degraded | Draining | Offline | Quarantined

  datatype Mode = Primary | Overflow | TemporaryAbsorption | QueenFallback | Partial | ObserveOnly

  datatype Degradation = NoDegradation | FullReplacement | PartialReplacement | ObservationOnly | CapabilityUnavailable

  datatype Node = Node(
    nodeId: Id, bodyId: Id, organ: Id, tier: Tier,
    capabilities: set<Id>, currentLoad: real, health: real, availability: Availability,
    lastHeartbeat: real, acceptedClasses: set<Id>, refusedClasses: set<Id>,
    maxTasks: int, currentTasks: int,
    overflowCapable: bool, overflowCapabilities: set<Id>, absorptionCapabilities: set<Id>,
    bodyVerified: bool, continuityVerified: bool)
  {
    /** The checks an advertisement passes when it is built. */
    predicate Valid() {
      && 0.0 <= currentLoad <= 1.0 && 0.0 <= health <= 1.0
      && 0.0 <= lastHeartbeat
      && 1 <= maxTasks && 0 <= currentTasks <= maxTasks
    }
  }

  /** An advertisement that could be built at all. */
  type Advertisement = n: Node | n.Valid()
    witness Node(0, 0, 0, SpecialistLinux, {}, 0.0, 1.0, Available, 0.0, {}, {}, 1, 0, false, {}, {}, true, true)

  datatype Requirement = Requirement(
    workId: Id, workClass: Id, required: set<Id>, preferred: set<Id>,
    minHealth: real, maxLoad: real,
    allowOverflow: bool, allowAbsorption: bool, allowPartial: bool, partialUseful: bool,
    allowQueenFallback: bool, observeOnly: Option<Id>, wholeSystem: bool, consequential: bool)

  datatype Exclusion =
    | BodyNotVerified
    | ContinuityNotVerified
    | BadAvailability(availability: Availability)
    | HealthBelowMinimum
    | LoadAboveMaximum
    | TaskLimitExceeded
    | WorkClassRefused
    | WorkClassNotAccepted
    | QueenFallbackDisabled
    | RequiresQueen

  /** `score` is in ten-thousandths, the precision the source rounds to. */
  datatype Candidate = Candidate(nodeId: Id, organ: Id, mode: Mode, score: int, matched: set<Id>, missing: set<Id>)

  function ExclusionReason(req: Requirement, node: Advertisement, active: nat): Option<Exclusion> {
    if !node.bodyVerified then Some(BodyNotVerified)
    else if !node.continuityVerified then Some(ContinuityNotVerified)
    else if node.availability in {Saturated, Draining, Offline, Quarantined} then
      Some(BadAvailability(node.availability))
    else if node.health < req.minHealth then Some(HealthBelowMinimum)
    else if node.currentLoad > req.maxLoad then Some(LoadAboveMaximum)
    else if node.currentTasks + active >= node.maxTasks then Some(TaskLimitExceeded)
    else if req.workClass in node.refusedClasses then Some(WorkClassRefused)
    else if node.acceptedClasses != {} && req.workClass !in node.acceptedClasses then Some(WorkClassNotAccepted)
    else if node.tier == Queen && !req.allowQueenFallback then Some(QueenFallbackDisabled)
    else if req.wholeSystem && node.tier != Queen then Some(RequiresQueen)
    else None
  }

  /** Python's `round(x, 4)`, as a count of ten-thousandths: halves go to the even neighbour. */
  function Round4(x: real): int {
    var scaled := x * 10000.0;
    var low := scaled.Floor;
    var fraction := scaled - low as real;
    if fraction < 0.5 || (fraction == 0.5 && low % 2 == 0) then low else low + 1
  }

  function Max(a: real, b: real): real { if a < b then b else a }

  function Min(a: real, b: real): real { if b < a then b else a }

  function AdvertisedCapacity(node: Advertisement): real {
    if node.currentTasks >= node.maxTasks then 0.0
    else Round4(Max(0.0, 1.0 - node.currentLoad)) as real / 10000.0
  }

  function TaskCapacity(node: Advertisement, active: nat): real
  {
    var remaining := node.maxTasks - node.currentTasks - active;
    (if remaining < 0 then 0 else remaining) as real / node.maxTasks as real
  }

  function PreferredRatio(req: Requirement, node: Advertisement): real {
    if req.preferred == {} then 1.0
    else |req.preferred * node.capabilities| as real / |req.preferred| as real
  }

  function Penalty(mode: Mode): real {
    match mode
    case Primary => 0.0
    case Overflow => 0.03
    case TemporaryAbsorption => 0.07
    case QueenFallback => 0.15
    case Partial => 0.18
    case ObserveOnly => 0.22
  }

  /** The score before it is clamped to [0, 1] and rounded. */
  function ExactScore(req: Requirement, node: Advertisement, active: nat, mode: Mode): real
  {
    var capacity := Min(AdvertisedCapacity(node), TaskCapacity(node, active));
    node.health * 0.35 + capacity * 0.35 + PreferredRatio(req, node) * 0.15
    + (if node.availability == Available then 0.10 else 0.05) + 0.05
    - Penalty(mode)
  }

  function Score(req: Requirement, node: Advertisement, active: nat, mode: Mode): int
  {
    Round4(Max(0.0, Min(ExactScore(req, node, active, mode), 1.0)))
  }

  function OverflowPool(req: Requirement, node: Advertisement): set<Id> {
    if req.allowOverflow && node.overflowCapable then node.capabilities + node.overflowCapabilities
    else node.capabilities
  }

  function AbsorptionPool(req: Requirement, node: Advertisement): set<Id> {
    if req.allowAbsorption then node.capabilities + node.absorptionCapabilities else node.capabilities
  }

  /** The mode in which the node would carry the work, with what it covers and what it lacks. */
  function Coverage(req: Requirement, node: Advertisement): Option<(Mode, set<Id>, set<Id>)> {
    var fallback := OverflowPool(req, node) + AbsorptionPool(req, node);
    if req.required <= node.capabilities then
      Some((if node.tier == Queen && !req.wholeSystem then QueenFallback else Primary, req.required, {}))
    else if req.allowOverflow && node.overflowCapable && req.required <= OverflowPool(req, node) then
      Some((Overflow, req.required, {}))
    else if req.allowAbsorption && req.required <= AbsorptionPool(req, node) then
      Some((TemporaryAbsorption, req.required, {}))
    else if req.allowPartial && req.partialUseful && req.required * fallback != {} then
      Some((Partial, req.required * fallback, req.required - fallback))
    else if req.observeOnly.Some? && req.observeOnly.value in fallback then
      Some((ObserveOnly, {req.observeOnly.value}, req.required))
    else None
  }

  function CandidateFor(req: Requirement, node: Advertisement, active: nat): Option<Candidate>
  {
    match Coverage(req, node)
    case None => None
    case Some((mode, matched, missing)) =>
      Some(Candidate(node.nodeId, node.organ, mode, Score(req, node, active, mode), matched, missing))
  }

  function DegradationOf(mode: Mode): Degradation {
    match mode
    case Primary => NoDegradation
    case Overflow => FullReplacement
    case TemporaryAbsorption => FullReplacement
    case QueenFallback => FullReplacement
    case Partial => PartialReplacement
    case ObserveOnly => ObservationOnly
  }

  // ----- what the score means -----

  lemma RoundingIsMonotone(x: real, y: real)
    requires x <= y
    ensures Round4(x) <= Round4(y)
  {
    var a, b := x * 10000.0, y * 10000.0;
    assert a <= b;
    assert a.Floor <= b.Floor;
    if a.Floor == b.Floor {
      assert a - a.Floor as real <= b - b.Floor as real;
    }
  }

  /** The nearest ten-thousandth, and of two equally near ones the even one. */
  lemma RoundingIsToTheNearest(x: real, n: int)
    ensures Round4(x) == n <==>
        var off := x * 10000.0 - n as real;
        -0.5 < off < 0.5 || (n % 2 == 0 && (off == 0.5 || off == -0.5))
  {
    var scaled := x * 10000.0;
    var low := scaled.Floor;
    assert low as real <= scaled < low as real + 1.0;
  }

  lemma RoundingKeepsUnitInterval(x: real)
    requires 0.0 <= x <= 1.0
    ensures 0 <= Round4(x) <= 10000
  {
    RoundingIsMonotone(0.0, x);
    RoundingIsMonotone(x, 1.0);
    assert (1.0 * 10000.0).Floor == 10000;
  }

  lemma RatioInUnitInterval(a: int, b: int)
    requires 0 <= a <= b && 0 < b
    ensures 0.0 <= a as real / b as real <= 1.0
  {
  }

  lemma RatioMonotone(a: int, b: int, c: int)
    requires a <= b && 0 < c
    ensures a as real / c as real <= b as real / c as real
  {
  }

  lemma CapacityBounds(node: Advertisement, active: nat)
    ensures 0.0 <= Min(AdvertisedCapacity(node), TaskCapacity(node, active)) <= 1.0
  {
    var remaining := node.maxTasks - node.currentTasks - active;
    RatioInUnitInterval(if remaining < 0 then 0 else remaining, node.maxTasks);
    RoundingKeepsUnitInterval(Max(0.0, 1.0 - node.currentLoad));
  }

  lemma PreferredRatioBounds(req: Requirement, node: Advertisement)
    ensures 0.0 <= PreferredRatio(req, node) <= 1.0
  {
    if req.preferred != {} {
      SubsetSize(req.preferred * node.capabilities, req.preferred);
      RatioInUnitInterval(|req.preferred * node.capabilities|, |req.preferred|);
    }
  }

  /** Before clamping, a score lies between -0.12 and 1.00; after it, the candidate's own range check cannot fail. */
  lemma ScoreBounds(req: Requirement, node: Advertisement, active: nat, mode: Mode)
    ensures -0.12 <= ExactScore(req, node, active, mode) <= 1.0
    ensures 0 <= Score(req, node, active, mode) <= 10000
  {
    CapacityBounds(node, active);
    PreferredRatioBounds(req, node);
    RoundingKeepsUnitInterval(Max(0.0, Min(ExactScore(req, node, active, mode), 1.0)));
  }

  /** The two ends of that range are reached by nodes that placement scores in these modes, so no narrower
      range holds. */
  lemma ScoreBoundsAreTight(req: Requirement, low: Advertisement, high: Advertisement)
    requires req.preferred != {} && req.preferred !! low.capabilities && req.preferred <= high.capabilities
    requires ExclusionReason(req, low, 0) == None && ExclusionReason(req, high, 0) == None
    requires Coverage(req, low).Some? && Coverage(req, low).value.0 == ObserveOnly
    requires Coverage(req, high).Some? && Coverage(req, high).value.0 == Primary
    requires low.health == 0.0 && low.currentLoad == 1.0 && low.availability != Available
    requires high.health == 1.0 && high.currentLoad == 0.0 && high.currentTasks == 0
    requires high.availability == Available
    ensures ExactScore(req, low, 0, ObserveOnly) == -0.12
    ensures ExactScore(req, high, 0, Primary) == 1.0
  {
    assert req.preferred * low.capabilities == {};
    assert req.preferred * high.capabilities == req.preferred;
    assert (1.0 * 10000.0).Floor == 10000;
    var n := high.maxTasks as real;
    assert n / n == 1.0;
    var k := |req.preferred| as real;
    assert k / k == 1.0;
    assert (0.0 * 10000.0).Floor == 0;
    CapacityBounds(low, 0);
  }

  /** A requirement and two nodes at the two ends. */
  lemma ScoreBoundsAreReached()
    ensures exists req, low: Advertisement, high: Advertisement ::
        && ExclusionReason(req, low, 0) == None && ExclusionReason(req, high, 0) == None
        && Coverage(req, low) == Some((ObserveOnly, {3}, {1})) && Coverage(req, high) == Some((Primary, {1}, {}))
        && ExactScore(req, low, 0, ObserveOnly) == -0.12 && ExactScore(req, high, 0, Primary) == 1.0
  {
    var req := Requirement(0, 0, {1}, {2}, 0.0, 1.0, true, true, false, false, true, Some(3), false, false);
    var low: Advertisement :=
      Node(1, 0, 0, SpecialistLinux, {3}, 1.0, 0.0, Busy, 0.0, {}, {}, 1, 0, false, {}, {}, true, true);
    var high: Advertisement :=
      Node(2, 0, 0, SpecialistLinux, {1, 2}, 0.0, 1.0, Available, 0.0, {}, {}, 1, 0, false, {}, {}, true, true);
    assert Coverage(req, low) == Some((ObserveOnly, {3}, {1}));
    assert Coverage(req, high) == Some((Primary, {1}, {}));
    ScoreBoundsAreTight(req, low, high);
  }

  /** What the score weighs besides capacity and preferred capabilities: health, availability and the mode. */
  lemma WhatTheScoreWeighs(req: Requirement, node: Advertisement, active: nat, mode: Mode, health: real)
    requires 0.0 <= health <= 1.0
    ensures var score := ExactScore(req, node, active, mode);
            && ExactScore(req, node.(health := health), active, mode) == score + (health - node.health) * 0.35
            && (node.availability != Available ==>
                  ExactScore(req, node.(availability := Available), active, mode) == score + 0.05)
            && ExactScore(req, node, active, Primary) - score ==
                 (match mode case Primary => 0.0 case Overflow => 0.03 case TemporaryAbsorption => 0.07
                             case QueenFallback => 0.15 case Partial => 0.18 case ObserveOnly => 0.22)
  {
    hide Round4;
  }

  /** All preferred capabilities together weigh 0.15, each the same. */
  lemma WhatAPreferredCapabilityAdds(req: Requirement, node: Advertisement, active: nat, mode: Mode, x: Id)
    requires x in req.preferred && x !in node.capabilities
    ensures ExactScore(req, node.(capabilities := node.capabilities + {x}), active, mode)
         == ExactScore(req, node, active, mode) + 0.15 / |req.preferred| as real
  {
    hide Round4, TaskCapacity, AdvertisedCapacity;
    var more := node.(capabilities := node.capabilities + {x});
    var had := req.preferred * node.capabilities;
    assert req.preferred * more.capabilities == had + {x};
    var (m, k) := (|had|, |req.preferred|);
    assert (m + 1) as real / k as real == m as real / k as real + 1.0 / k as real;
    SameCapacity(node, more, active);
  }

  lemma SameCapacity(node: Advertisement, more: Advertisement, active: nat)
    requires more == node.(capabilities := more.capabilities)
    ensures AdvertisedCapacity(more) == AdvertisedCapacity(node)
    ensures TaskCapacity(more, active) == TaskCapacity(node, active)
  {
  }

  /** Work without preferences is scored as if all were met. */
  lemma WithoutPreferences(req: Requirement, node: Advertisement, active: nat, mode: Mode, x: Id)
    requires x in node.capabilities
    ensures ExactScore(req.(preferred := {}), node, active, mode)
         == ExactScore(req.(preferred := {x}), node, active, mode)
  {
    assert {x} * node.capabilities == {x};
  }

  /** The score is the ten-thousandth nearest to the exact score, or zero below it. */
  lemma ScoreIsTheNearest(req: Requirement, node: Advertisement, active: nat, mode: Mode, n: int)
    ensures var exact := ExactScore(req, node, active, mode);
            var off := exact * 10000.0 - n as real;
            if exact < 0.0 then Score(req, node, active, mode) == 0
            else Score(req, node, active, mode) == n <==>
                   -0.5 < off < 0.5 || (n % 2 == 0 && (off == 0.5 || off == -0.5))
  {
    hide ExactScore, Round4;
    ScoreBounds(req, node, active, mode);
    RoundingIsToTheNearest(ExactScore(req, node, active, mode), n);
    RoundingIsToTheNearest(0.0, 0);
  }

  lemma LoadLeavesPreference(req: Requirement, node: Advertisement)
    ensures PreferredRatio(req, node.(currentLoad := 1.0)) == PreferredRatio(req, node)
  {
  }

  /** Capacity is the smaller of the free load and the free share of the tasks; a node without either adds nothing. */
  lemma WhatCapacityAdds(req: Requirement, node: Advertisement, active: nat, mode: Mode)
    ensures var rest := ExactScore(req, node.(currentLoad := 1.0), active, mode);
            var added := ExactScore(req, node, active, mode) - rest;
            var free := node.maxTasks - node.currentTasks - active;
            var share := free as real / node.maxTasks as real;
            var unloaded := Round4(1.0 - node.currentLoad) as real / 10000.0;
            added == (if free <= 0 then 0.0 else if unloaded <= share then 0.35 * unloaded else 0.35 * share)
  {
    hide PreferredRatio, Penalty;
    LoadLeavesPreference(req, node);
    assert (0.0 * 10000.0).Floor == 0;
    CapacityBounds(node, active);
    CapacityBounds(node.(currentLoad := 1.0), active);
  }

  lemma FreerNodeHasMoreCapacity(worse: Advertisement, better: Advertisement, activeW: nat, activeB: nat)
    requires better.currentLoad <= worse.currentLoad
    requires TaskCapacity(worse, activeW) <= TaskCapacity(better, activeB)
    ensures Min(AdvertisedCapacity(worse), TaskCapacity(worse, activeW))
         <= Min(AdvertisedCapacity(better), TaskCapacity(better, activeB))
  {
    CapacityBounds(worse, activeW);
    CapacityBounds(better, activeB);
    if better.currentTasks >= better.maxTasks {
      assert TaskCapacity(better, activeB) == 0.0;
    } else {
      RoundingIsMonotone(Max(0.0, 1.0 - worse.currentLoad), Max(0.0, 1.0 - better.currentLoad));
    }
  }

  lemma MorePreferredCapabilities(req: Requirement, worse: Advertisement, better: Advertisement)
    requires req.preferred * worse.capabilities <= req.preferred * better.capabilities
    ensures PreferredRatio(req, worse) <= PreferredRatio(req, better)
  {
    if req.preferred != {} {
      SubsetSize(req.preferred * worse.capabilities, req.preferred * better.capabilities);
      RatioMonotone(|req.preferred * worse.capabilities|, |req.preferred * better.capabilities|, |req.preferred|);
    }
  }

  /** A node at least as healthy, as free and as preferred never scores lower in the same mode and availability. */
  lemma BetterNodeNeverScoresLower(req: Requirement, worse: Advertisement, better: Advertisement, activeW: nat,
                                   activeB: nat, mode: Mode)
    requires worse.availability == better.availability
    requires worse.health <= better.health
    requires better.currentLoad <= worse.currentLoad
    requires TaskCapacity(worse, activeW) <= TaskCapacity(better, activeB)
    requires req.preferred * worse.capabilities <= req.preferred * better.capabilities
    ensures Score(req, worse, activeW, mode) <= Score(req, better, activeB, mode)
  {
    var exactW, exactB := ExactScore(req, worse, activeW, mode), ExactScore(req, better, activeB, mode);
    assert exactW <= exactB by {
      FreerNodeHasMoreCapacity(worse, better, activeW, activeB);
      MorePreferredCapabilities(req, worse, better);
    }
    RoundingIsMonotone(Max(0.0, Min(exactW, 1.0)), Max(0.0, Min(exactB, 1.0)));
  }

  // ----- ranking -----

  /** `_sort_key`: higher score first, then the smaller identifier. */
  predicate Before(a: Candidate, b: Candidate) {
    a.score > b.score || (a.score == b.score && a.nodeId < b.nodeId)
  }

  ghost predicate Ranked(cs: seq<Candidate>) {
    forall i, j :: 0 <= i < j < |cs| ==> !Before(cs[j], cs[i])
  }

  function Insert(c: Candidate, cs: seq<Candidate>): seq<Candidate> {
    if cs == [] || Before(c, cs[0]) then [c] + cs else [cs[0]] + Insert(c, cs[1..])
  }

  /** The source's `sorted(candidates, key=_sort_key)`. */
  function Rank(cs: seq<Candidate>): seq<Candidate> {
    if cs == [] then [] else Insert(cs[0], Rank(cs[1..]))
  }

  lemma {:induction false} InsertKeepsContents(c: Candidate, cs: seq<Candidate>)
    ensures multiset(Insert(c, cs)) == multiset{c} + multiset(cs)
  {
    if cs == [] || Before(c, cs[0]) {
    } else {
      InsertKeepsContents(c, cs[1..]);
      assert cs == [cs[0]] + cs[1..];
    }
  }

  lemma MembersOfInsert(c: Candidate, cs: seq<Candidate>, x: Candidate)
    ensures x in Insert(c, cs) <==> x == c || x in cs
  {
    InsertKeepsContents(c, cs);
    assert x in Insert(c, cs) <==> x in multiset(Insert(c, cs));
    assert x in cs <==> x in multiset(cs);
  }

  lemma {:induction false} InsertKeepsOrder(c: Candidate, cs: seq<Candidate>)
    requires Ranked(cs)
    ensures Ranked(Insert(c, cs))
  {
    if cs != [] && !Before(c, cs[0]) {
      var rest := Insert(c, cs[1..]);
      InsertKeepsOrder(c, cs[1..]);
      forall j | 0 <= j < |rest| ensures !Before(rest[j], cs[0]) {
        MembersOfInsert(c, cs[1..], rest[j]);
        assert rest[j] in rest;
      }
    }
  }

  /** `sorted` neither loses nor invents a candidate, and puts nothing behind something it should precede. */
  lemma {:induction false} RankSorts(cs: seq<Candidate>)
    ensures multiset(Rank(cs)) == multiset(cs)
    ensures Ranked(Rank(cs))
    ensures |Rank(cs)| == |cs|
  {
    if cs != [] {
      RankSorts(cs[1..]);
      InsertKeepsContents(cs[0], Rank(cs[1..]));
      InsertKeepsOrder(cs[0], Rank(cs[1..]));
      assert cs == [cs[0]] + cs[1..];
    }
    assert |multiset(Rank(cs))| == |multiset(cs)|;
  }
}
