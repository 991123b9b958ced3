/** What the distributed-work coordinator does, as functions on its whole state,
    and the invariants every run of it keeps. */
module BoardSpec {
  import opened Basics
  import opened Placement

  datatype Lease = Lease(
    workId: Id, nodeId: Id, organ: Id, mode: Mode, matched: set<Id>, missing: set<Id>,
    issuedAt: real, expiresAt: real, degradation: Degradation, courtRequired: bool)

  /** Decision reasons, tagged; health and capacity text is not kept. */
  datatype Reason =
    | LeaseExists
    | NotOwner
    | NothingFits
    | Selected
    | ExcludedOrRefused(node: Id)
    | ExcludedFor(node: Id, why: Exclusion)
    | RefusedBy(node: Id)
    | RecoveryFrom(node: Id)

  datatype DecisionState = AlreadyLeased | LeaseNotOwned | Unavailable | Leased | LeasedDegraded

  /** A placement decision; it is `placed` exactly when it carries a lease. */
  datatype Decision = Decision(
    state: DecisionState, lease: Option<Lease>, alternatives: seq<Id>,
    degradation: Degradation, reasons: seq<Reason>)

  datatype Error = LeaseSecondsNotPositive | ExpiryNotAfterIssue | ReasonRequired | MaxAgeNotPositive

  datatype Board = Board(
    bodyId: Id,
    nodes: map<Id, Advertisement>,
    leases: map<Id, Lease>,
    requirements: map<Id, Requirement>,
    refusals: map<Id, set<Id>>)

  // ----- the registry -----

  predicate Admissible(bodyId: Id, ad: Advertisement) {
    ad.bodyId == bodyId && ad.bodyVerified && ad.continuityVerified
  }

  ghost function Snapshot(nodes: map<Id, Advertisement>): seq<Advertisement> {
    var keys := Sorted(nodes.Keys);
    seq(|keys|, i requires 0 <= i < |keys| => assert keys[i] in keys; nodes[keys[i]])
  }

  predicate IsFailed(ad: Advertisement, now: real, maxAge: real) {
    now - ad.lastHeartbeat >= maxAge || ad.availability in {Offline, Quarantined}
  }

  function Failed(nodes: map<Id, Advertisement>, now: real, maxAge: real): set<Id> {
    set n | n in nodes && IsFailed(nodes[n], now, maxAge)
  }

  function TakenOffline(nodes: map<Id, Advertisement>, failed: set<Id>): map<Id, Advertisement> {
    map n | n in nodes :: if n in failed then nodes[n].(availability := Offline) else nodes[n]
  }

  // ----- placement -----

  function LeasesOn(leases: map<Id, Lease>, node: Id): set<Id> {
    set w | w in leases && leases[w].nodeId == node
  }

  function Unexpired(leases: map<Id, Lease>, now: real): map<Id, Lease> {
    map w | w in leases && now < leases[w].expiresAt :: leases[w]
  }

  function RefusalsOf(b: Board, work: Id): set<Id> {
    if work in b.refusals then b.refusals[work] else {}
  }

  datatype Scanned = Scanned(full: seq<Candidate>, partial: seq<Candidate>, observe: seq<Candidate>,
                             skipped: seq<Reason>)
  {
    function Add(c: Candidate): Scanned {
      match c.mode
      case Partial => this.(partial := partial + [c])
      case ObserveOnly => this.(observe := observe + [c])
      case _ => this.(full := full + [c])
    }

    /** The best class that has anyone in it. */
    function Best(): seq<Candidate> {
      if full != [] then full else if partial != [] then partial else observe
    }
  }

  /** What one node contributes to the search. */
  function Consider(sofar: Scanned, req: Requirement, node: Advertisement, active: nat, excluded: set<Id>): Scanned {
    if node.nodeId in excluded then sofar.(skipped := sofar.skipped + [ExcludedOrRefused(node.nodeId)])
    else match ExclusionReason(req, node, active)
      case Some(why) => sofar.(skipped := sofar.skipped + [ExcludedFor(node.nodeId, why)])
      case None =>
        match CandidateFor(req, node, active)
        case None => sofar
        case Some(c) => sofar.Add(c)
  }

  function Scan(req: Requirement, nodes: seq<Advertisement>, leases: map<Id, Lease>, excluded: set<Id>): Scanned {
    if nodes == [] then Scanned([], [], [], []) else
      var last := nodes[|nodes| - 1];
      Consider(Scan(req, nodes[..|nodes| - 1], leases, excluded), req, last, |LeasesOn(leases, last.nodeId)|, excluded)
  }

  function LeaseFor(req: Requirement, c: Candidate, now: real, leaseSeconds: real): Lease {
    Lease(req.workId, c.nodeId, c.organ, c.mode, c.matched, c.missing,
          now, now + leaseSeconds, DegradationOf(c.mode), req.consequential)
  }

  function Unplaced(skipped: seq<Reason>): Decision {
    Decision(Unavailable, None, [], CapabilityUnavailable, [NothingFits] + skipped)
  }

  function Ids(cs: seq<Candidate>): seq<Id> {
    seq(|cs|, i requires 0 <= i < |cs| => cs[i].nodeId)
  }

  function Placed(lease: Lease, rest: seq<Candidate>, skipped: seq<Reason>): Decision {
    Decision(if lease.degradation == NoDegradation then Leased else LeasedDegraded,
             Some(lease), Ids(rest), lease.degradation, [Selected] + skipped)
  }

  ghost function PlaceOn(b: Board, req: Requirement, now: real, leaseSeconds: real, excluded: set<Id>)
    : (Board, Outcome<Decision, Error>)
  {
    var scan := Scan(req, Snapshot(b.nodes), b.leases, excluded);
    if scan.Best() == [] then (b, Returned(Unplaced(scan.skipped)))
    else if leaseSeconds <= 0.0 then (b, Raised(ExpiryNotAfterIssue))
    else
      RankSorts(scan.Best());
      var ranked := Rank(scan.Best());
      var lease := LeaseFor(req, ranked[0], now, leaseSeconds);
      (b.(leases := b.leases[req.workId := lease]), Returned(Placed(lease, ranked[1..], scan.skipped)))
  }

  function Existing(lease: Lease): Decision {
    Decision(AlreadyLeased, Some(lease), [], lease.degradation, [LeaseExists])
  }

  ghost function Place(b: Board, req: Requirement, now: real, leaseSeconds: real, exclude: set<Id>)
    : (Board, Outcome<Decision, Error>)
  {
    if leaseSeconds <= 0.0 then (b, Raised(LeaseSecondsNotPositive))
    else
      var live := b.(leases := Unexpired(b.leases, now));
      if req.workId in live.leases then (live, Returned(Existing(live.leases[req.workId])))
      else
        PlaceOn(live.(requirements := live.requirements[req.workId := req]), req, now, leaseSeconds,
                exclude + RefusalsOf(b, req.workId))
  }

  const NotOwned := Decision(LeaseNotOwned, None, [], CapabilityUnavailable, [NotOwner])

  predicate Owns(b: Board, work: Id, node: Id) {
    work in b.leases && work in b.requirements && b.leases[work].nodeId == node
  }

  /** The lease is gone and its holder is on the work's refusal list. */
  function Dropped(b: Board, work: Id): Board
    requires work in b.leases
  {
    b.(leases := b.leases - {work},
       refusals := b.refusals[work := RefusalsOf(b, work) + {b.leases[work].nodeId}])
  }

  function Because(o: Outcome<Decision, Error>, reason: Reason): Outcome<Decision, Error> {
    match o
    case Returned(d) => Returned(d.(reasons := [reason] + d.reasons))
    case Raised(e) => Raised(e)
  }

  /** `refuse_and_reassign`, and `handoff`, which is the same call. */
  ghost function Refuse(b: Board, work: Id, node: Id, reason: string, now: real, leaseSeconds: real)
    : (Board, Outcome<Decision, Error>)
  {
    if reason == "" then (b, Raised(ReasonRequired))
    else if !Owns(b, work, node) then (b, Returned(NotOwned))
    else
      var dropped := Dropped(b, work);
      var (placed, o) := PlaceOn(dropped, b.requirements[work], now, leaseSeconds, dropped.refusals[work]);
      (placed, Because(o, RefusedBy(node)))
  }

  function Complete(b: Board, work: Id, node: Id): (Board, bool) {
    if work in b.leases && b.leases[work].nodeId == node then
      (b.(leases := b.leases - {work}, requirements := b.requirements - {work}, refusals := b.refusals - {work}), true)
    else (b, false)
  }

  // ----- recovery -----

  function Affected(leases: map<Id, Lease>, failed: set<Id>): set<Id> {
    set w | w in leases && leases[w].nodeId in failed
  }

  /** Takes one work off a failed holder: no decision when nothing says what the work required. */
  ghost function ReassignOne(b: Board, work: Id, now: real, leaseSeconds: real)
    : (Board, Outcome<seq<Decision>, Error>)
    requires work in b.leases
  {
    if work !in b.requirements then (b.(leases := b.leases - {work}), Returned([]))
    else
      var dropped := Dropped(b, work);
      var (placed, o) := PlaceOn(dropped, b.requirements[work], now, leaseSeconds, dropped.refusals[work]);
      match o
      case Raised(e) => (placed, Raised(e))
      case Returned(d) => (placed, Returned([d.(reasons := [RecoveryFrom(b.leases[work].nodeId)] + d.reasons)]))
  }

  /** Prefixes already taken decisions to the outcome of the rest of the sweep. */
  function After(done: seq<Decision>, o: Outcome<seq<Decision>, Error>): Outcome<seq<Decision>, Error> {
    match o
    case Raised(e) => Raised(e)
    case Returned(ds) => Returned(done + ds)
  }

  ghost function Reassign(b: Board, works: seq<Id>, now: real, leaseSeconds: real)
    : (Board, Outcome<seq<Decision>, Error>)
    decreases |works|
  {
    if works == [] then (b, Returned([]))
    else if works[0] !in b.leases then Reassign(b, works[1..], now, leaseSeconds)
    else
      var (next, o) := ReassignOne(b, works[0], now, leaseSeconds);
      match o
      case Raised(e) => (next, Raised(e))
      case Returned(ds) =>
        var (end, rest) := Reassign(next, works[1..], now, leaseSeconds);
        (end, After(ds, rest))
  }

  /** The board after the failed nodes are marked offline and expired leases are reaped. */
  function Swept(b: Board, now: real, maxAge: real): Board {
    b.(nodes := TakenOffline(b.nodes, Failed(b.nodes, now, maxAge)), leases := Unexpired(b.leases, now))
  }

  ghost function AffectedWorks(b: Board, now: real, maxAge: real): seq<Id> {
    Sorted(Affected(Unexpired(b.leases, now), Failed(b.nodes, now, maxAge)))
  }

  ghost function Recover(b: Board, now: real, maxAge: real, leaseSeconds: real)
    : (Board, Outcome<seq<Decision>, Error>)
  {
    if maxAge <= 0.0 then (b, Raised(MaxAgeNotPositive))
    else Reassign(Swept(b, now, maxAge), AffectedWorks(b, now, maxAge), now, leaseSeconds)
  }

  // ----- runs -----

  datatype Op =
    | RegisterOp(ad: Advertisement)
    | RemoveOp(node: Id)
    | SetAvailabilityOp(node: Id, availability: Availability)
    | PlaceOp(req: Requirement, now: real, leaseSeconds: real, exclude: set<Id>)
    | RefuseOp(work: Id, node: Id, reason: string, now: real, leaseSeconds: real)
    | CompleteOp(work: Id, node: Id)
    | RecoverOp(now: real, maxAge: real, leaseSeconds: real)

  function Registered(b: Board, ad: Advertisement): Board {
    if Admissible(b.bodyId, ad) then b.(nodes := b.nodes[ad.nodeId := ad]) else b
  }

  function Availability(b: Board, node: Id, availability: Availability): Board {
    if node in b.nodes then b.(nodes := b.nodes[node := b.nodes[node].(availability := availability)]) else b
  }

  ghost function Step(b: Board, op: Op): Board {
    match op
    case RegisterOp(ad) => Registered(b, ad)
    case RemoveOp(node) => b.(nodes := b.nodes - {node})
    case SetAvailabilityOp(node, availability) => Availability(b, node, availability)
    case PlaceOp(req, now, leaseSeconds, exclude) => Place(b, req, now, leaseSeconds, exclude).0
    case RefuseOp(work, node, reason, now, leaseSeconds) => Refuse(b, work, node, reason, now, leaseSeconds).0
    case CompleteOp(work, node) => Complete(b, work, node).0
    case RecoverOp(now, maxAge, leaseSeconds) => Recover(b, now, maxAge, leaseSeconds).0
  }

  ghost function Run(b: Board, ops: seq<Op>): Board
    decreases |ops|
  {
    if ops == [] then b else Step(Run(b, ops[..|ops| - 1]), ops[|ops| - 1])
  }

  function Empty(bodyId: Id): Board {
    Board(bodyId, map[], map[], map[], map[])
  }
}
