/** The distributed-work service and the lifecycle journal it reports to, as functions on their joint state.
    Sinks may fail at any call, before or after they have recorded anything. */
module ServiceSpec {
  import opened Basics
  import opened Placement
  import opened BoardSpec

  datatype EventKind =
    | NodeAdvertised | WorkOffered | WorkAccepted | WorkRefused
    | HandoffRequested | WorkCompleted | WorkDegraded | RecoveryReassigned

  /** A lease is named by its work and its holder. */
  datatype LeaseId = LeaseId(work: Id, node: Id)

  datatype Event = Event(kind: EventKind, subject: Id, node: Option<Id>, organ: Option<Id>, leaseId: Option<LeaseId>)

  datatype ActiveEntry = ActiveEntry(kind: EventKind, node: Option<Id>, organ: Option<Id>, leaseId: Option<LeaseId>,
                                     receipt: nat)

  /** The append-only journal, the restart-detection index beside it, and the service's own account of its sink:
      how often it called and which events came back with a receipt. Receipts are numbered by call. */
  datatype Journal = Journal(records: seq<Event>, active: map<Id, ActiveEntry>, calls: nat, receipted: seq<Event>)

  datatype SinkAnswer =
    | Recorded            // appended, indexed, receipt returned
    | FailedBefore        // raised with nothing appended
    | FailedBetween       // appended, then raised before the index was replaced
    | FailedAfter         // appended and indexed, but no usable receipt came back

  /** What the surroundings answer to the n-th call; nothing is assumed about them. */
  datatype Env = Env(sink: nat -> SinkAnswer, hasQueen: bool, queen: nat -> bool)

  datatype Proposal = Proposal(objective: string, requirement: Requirement)

  datatype Status = ResultCompleted | ResultPartial | ResultFailed | ResultCancelled

  datatype WorkResult = WorkResult(work: Id, node: Id, status: Status, summary: string, important: bool)

  datatype Pending = Pending(result: WorkResult, receipt: nat)

  datatype QueenRecord = QueenRecord(result: WorkResult, receipt: nat)

  /** `delivered` holds the results whose Queen-sink call returned. */
  datatype QueenSide = QueenSide(calls: nat, delivered: seq<QueenRecord>)

  datatype State = State(
    board: Board,
    proposals: map<Id, Proposal>,
    accepted: set<Id>,
    pending: map<Id, Pending>,
    journal: Journal,
    queen: QueenSide)

  datatype ServiceError =
    | NegativeNow
    | AlreadyActive
    | UnknownWork
    | NoActiveLease
    | LeaseNotOwnedByNode
    | NotAccepted
    | DifferentResult
    | NoQueenSink
    | QueenSinkFailed
    | CouldNotClose
    | CannotIdentifyWork
    | EventNotRecorded
    | RefusalReasonRequired
    | CoordinatorRaised(error: Error)

  datatype OutcomeState =
    | Offered | AcceptedState | ReassignedOffered | CompletedState | RecoveryReassignedState
    | DegradedState(decision: DecisionState)

  datatype ServiceOutcome = ServiceOutcome(
    state: OutcomeState, work: Id, node: Option<Id>, leaseId: Option<LeaseId>,
    degradation: Degradation, lifecycle: seq<nat>, escalated: bool)

  type Result = Outcome<ServiceOutcome, ServiceError>

  // ----- the journal -----

  /** What one recorded event does to the active-work index. */
  function Indexed(active: map<Id, ActiveEntry>, e: Event, receipt: nat): map<Id, ActiveEntry> {
    if e.kind in {WorkOffered, WorkAccepted, RecoveryReassigned} then
      active[e.subject := ActiveEntry(e.kind, e.node, e.organ, e.leaseId, receipt)]
    else if e.kind == WorkCompleted || (e.kind == WorkDegraded && e.node == None) then
      active - {e.subject}
    else active
  }

  function Answered(j: Journal, answer: SinkAnswer, e: Event): Journal {
    match answer
    case Recorded => Journal(j.records + [e], Indexed(j.active, e, j.calls), j.calls + 1, j.receipted + [e])
    case FailedBefore => j.(calls := j.calls + 1)
    case FailedBetween => j.(records := j.records + [e], calls := j.calls + 1)
    case FailedAfter => j.(records := j.records + [e], active := Indexed(j.active, e, j.calls), calls := j.calls + 1)
  }

  /** What a new process reports as interrupted: the works in the index the last one left. */
  ghost function Interrupted(active: map<Id, ActiveEntry>): seq<Id> {
    Sorted(active.Keys)
  }

  /** `_emit`: the receipt, or an exception. */
  function Emit(env: Env, s: State, e: Event): (State, Outcome<nat, ServiceError>) {
    var answer := env.sink(s.journal.calls);
    (s.(journal := Answered(s.journal, answer, e)),
     if answer == Recorded then Returned(s.journal.calls) else Raised(EventNotRecorded))
  }

  function LeaseEvent(kind: EventKind, lease: Lease): Event {
    Event(kind, lease.workId, Some(lease.nodeId), Some(lease.organ), Some(LeaseId(lease.workId, lease.nodeId)))
  }

  /** An event that names the node but carries no lease. */
  function NodeEvent(kind: EventKind, lease: Lease): Event {
    Event(kind, lease.workId, Some(lease.nodeId), Some(lease.organ), None)
  }

  function LostEvent(work: Id): Event {
    Event(WorkDegraded, work, None, None, None)
  }

  // ----- outcomes -----

  function LeaseOutcome(state: OutcomeState, lease: Lease, lifecycle: seq<nat>, escalated: bool): ServiceOutcome {
    ServiceOutcome(state, lease.workId, Some(lease.nodeId), Some(LeaseId(lease.workId, lease.nodeId)),
                   lease.degradation, lifecycle, escalated)
  }

  function LostOutcome(work: Id, d: Decision, lifecycle: seq<nat>): ServiceOutcome {
    ServiceOutcome(DegradedState(d.state), work, None, None, d.degradation, lifecycle, false)
  }

  // ----- submit -----

  /** Takes back a placement whose events could not be recorded. */
  function RolledBack(s: State, work: Id, node: Id): State {
    s.(board := BoardSpec.Complete(s.board, work, node).0, proposals := s.proposals - {work})
  }

  function MakeOffer(env: Env, s: State, lease: Lease): (State, Result) {
    var (s1, offered) := Emit(env, s, LeaseEvent(WorkOffered, lease));
    if offered.Raised? then (RolledBack(s1, lease.workId, lease.nodeId), Raised(offered.error))
    else if lease.degradation == NoDegradation then (s1, Returned(LeaseOutcome(Offered, lease, [offered.value], false)))
    else
      var (s2, degraded) := Emit(env, s1, NodeEvent(WorkDegraded, lease));
      if degraded.Raised? then (RolledBack(s2, lease.workId, lease.nodeId), Raised(degraded.error))
      else (s2, Returned(LeaseOutcome(Offered, lease, [offered.value, degraded.value], false)))
  }

  /** Reports that nobody can carry the work. */
  function Lose(env: Env, s: State, work: Id, d: Decision, lifecycle: seq<nat>): (State, Result) {
    var (next, lost) := Emit(env, s, LostEvent(work));
    (next, if lost.Raised? then Raised(lost.error) else Returned(LostOutcome(work, d, lifecycle + [lost.value])))
  }

  ghost function Submit(env: Env, s: State, p: Proposal, now: real, leaseSeconds: real): (State, Result) {
    if now < 0.0 then (s, Raised(NegativeNow))
    else if p.requirement.workId in s.proposals then (s, Raised(AlreadyActive))
    else
      var (board, o) := BoardSpec.Place(s.board, p.requirement, now, leaseSeconds, {});
      var placed := s.(board := board);
      match o
      case Raised(e) => (placed, Raised(CoordinatorRaised(e)))
      case Returned(d) =>
        if d.lease.None? then Lose(env, placed, p.requirement.workId, d, [])
        else MakeOffer(env, placed.(proposals := placed.proposals[p.requirement.workId := p]), d.lease.value)
  }

  // ----- accept -----

  /** The checks made before a node may act on work: a known proposal and an owned lease. */
  function OwnershipError(s: State, work: Id, node: Id): Option<ServiceError> {
    if work !in s.proposals then Some(UnknownWork)
    else if work !in s.board.leases then Some(NoActiveLease)
    else if s.board.leases[work].nodeId != node then Some(LeaseNotOwnedByNode)
    else None
  }

  function Accept(env: Env, s: State, work: Id, node: Id): (State, Result) {
    var error := OwnershipError(s, work, node);
    if error.Some? then (s, Raised(error.value))
    else
      var lease := s.board.leases[work];
      var (next, evidence) := Emit(env, s, LeaseEvent(WorkAccepted, lease));
      if evidence.Raised? then (next, Raised(evidence.error))
      else (next.(accepted := next.accepted + {work}),
            Returned(LeaseOutcome(AcceptedState, lease, [evidence.value], false)))
  }

  // ----- refuse -----

  ghost function Reoffer(
      env: Env, s: State, work: Id, node: Id, reason: string, now: real, leaseSeconds: real, told: seq<nat>)
    : (State, Result)
  {
    var (board, o) := BoardSpec.Refuse(s.board, work, node, reason, now, leaseSeconds);
    match o
    case Raised(e) => (s.(board := board), Raised(CoordinatorRaised(e)))
    case Returned(d) =>
      var moved := s.(board := board, accepted := s.accepted - {work});
      if d.lease.None? then Lose(env, moved, work, d, told)
      else
        var (next, offered) := Emit(env, moved, LeaseEvent(WorkOffered, d.lease.value));
        (next, if offered.Raised? then Raised(offered.error)
               else Returned(LeaseOutcome(ReassignedOffered, d.lease.value, told + [offered.value], false)))
  }

  ghost function Refuse(env: Env, s: State, work: Id, node: Id, reason: string, now: real, leaseSeconds: real)
    : (State, Result)
  {
    if reason == "" then (s, Raised(RefusalReasonRequired))
    else if OwnershipError(s, work, node).Some? then (s, Raised(OwnershipError(s, work, node).value))
    else
      var lease := s.board.leases[work];
      var (s1, refused) := Emit(env, s, NodeEvent(WorkRefused, lease));
      if refused.Raised? then (s1, Raised(refused.error))
      else
        var (s2, handoff) := Emit(env, s1, NodeEvent(HandoffRequested, lease));
        if handoff.Raised? then (s2, Raised(handoff.error))
        else Reoffer(env, s2, work, node, reason, now, leaseSeconds, [refused.value, handoff.value])
  }

  // ----- complete -----

  /** Finds or makes the completion receipt: a retry must bring the same result and reuses the first receipt. */
  function Completion(env: Env, s: State, result: WorkResult, lease: Lease): (State, Outcome<nat, ServiceError>) {
    if result.work in s.pending then
      (s, if s.pending[result.work].result == result then Returned(s.pending[result.work].receipt)
          else Raised(DifferentResult))
    else
      var (next, o) := Emit(env, s, LeaseEvent(WorkCompleted, lease));
      match o
      case Raised(e) => (next, Raised(e))
      case Returned(receipt) => (next.(pending := next.pending[result.work := Pending(result, receipt)]),
                                 Returned(receipt))
  }

  /** Hands an important result to the Queen. */
  function Escalate(env: Env, s: State, result: WorkResult, receipt: nat): (State, Outcome<bool, ServiceError>) {
    if !result.important then (s, Returned(false))
    else if !env.hasQueen then (s, Raised(NoQueenSink))
    else if env.queen(s.queen.calls) then
      (s.(queen := QueenSide(s.queen.calls + 1, s.queen.delivered + [QueenRecord(result, receipt)])), Returned(true))
    else (s.(queen := s.queen.(calls := s.queen.calls + 1)), Raised(QueenSinkFailed))
  }

  function Close(s: State, result: WorkResult, lease: Lease, receipt: nat, escalated: bool): (State, Result) {
    var (board, closed) := BoardSpec.Complete(s.board, result.work, result.node);
    if !closed then (s.(board := board), Raised(CouldNotClose))
    else (s.(board := board, accepted := s.accepted - {result.work}, proposals := s.proposals - {result.work},
             pending := s.pending - {result.work}),
          Returned(LeaseOutcome(CompletedState, lease, [receipt], escalated)))
  }

  function Complete(env: Env, s: State, result: WorkResult): (State, Result) {
    var error := OwnershipError(s, result.work, result.node);
    if error.Some? then (s, Raised(error.value))
    else if result.work !in s.accepted then (s, Raised(NotAccepted))
    else
      var lease := s.board.leases[result.work];
      var (s1, receipt) := Completion(env, s, result, lease);
      if receipt.Raised? then (s1, Raised(receipt.error))
      else
        var (s2, escalated) := Escalate(env, s1, result, receipt.value);
        if escalated.Raised? then (s2, Raised(escalated.error))
        else Close(s2, result, lease, receipt.value, escalated.value)
  }

  // ----- recover -----

  /** `_work_id_from_recovery_reason`: the works that were leased to a node the reasons name. */
  function Suspects(d: Decision, prior: map<Id, Lease>): set<Id> {
    set w | w in prior && RecoveryFrom(prior[w].nodeId) in d.reasons
  }

  ghost function RecoveredWork(d: Decision, prior: map<Id, Lease>): Option<Id> {
    if d.lease.Some? then Some(d.lease.value.workId)
    else if |Suspects(d, prior)| == 1 then var w :| w in Suspects(d, prior); Some(w)
    else None
  }

  /** One decision of a recovery is reported. */
  ghost function ReportOne(env: Env, s: State, d: Decision, prior: map<Id, Lease>): (State, Result) {
    var work := RecoveredWork(d, prior);
    if work.None? then (s, Raised(CannotIdentifyWork))
    else if work.value !in s.proposals || work.value !in prior then (s, Raised(UnknownWork))
    else
      var withdrawn := s.(accepted := s.accepted - {work.value});
      if d.lease.Some? then
        var (next, evidence) := Emit(env, withdrawn, LeaseEvent(RecoveryReassigned, d.lease.value));
        (next, if evidence.Raised? then Raised(evidence.error)
               else Returned(LeaseOutcome(RecoveryReassignedState, d.lease.value, [evidence.value], false)))
      else Lose(env, withdrawn, work.value, d, [])
  }

  ghost function Report(env: Env, s: State, ds: seq<Decision>, prior: map<Id, Lease>)
    : (State, Outcome<seq<ServiceOutcome>, ServiceError>)
    decreases |ds|
  {
    if ds == [] then (s, Returned([]))
    else
      var (next, o) := ReportOne(env, s, ds[0], prior);
      match o
      case Raised(e) => (next, Raised(e))
      case Returned(first) =>
        var (end, rest) := Report(env, next, ds[1..], prior);
        match rest
        case Raised(e) => (end, Raised(e))
        case Returned(outcomes) => (end, Returned([first] + outcomes))
  }

  ghost function Recover(env: Env, s: State, now: real, maxAge: real, leaseSeconds: real)
    : (State, Outcome<seq<ServiceOutcome>, ServiceError>)
  {
    var (board, o) := BoardSpec.Recover(s.board, now, maxAge, leaseSeconds);
    match o
    case Raised(e) => (s.(board := board), Raised(CoordinatorRaised(e)))
    case Returned(ds) => Report(env, s.(board := board), ds, s.board.leases)
  }

  // ----- node registration -----

  function RegisterNode(env: Env, s: State, ad: Advertisement): (State, Outcome<bool, ServiceError>) {
    if !Admissible(s.board.bodyId, ad) then (s, Returned(false))
    else
      var (next, o) := Emit(env, s.(board := Registered(s.board, ad)),
                            Event(NodeAdvertised, ad.nodeId, Some(ad.nodeId), Some(ad.organ), None));
      match o
      case Raised(e) => (next.(board := next.board.(nodes := next.board.nodes - {ad.nodeId})), Raised(e))
      case Returned(_) => (next, Returned(true))
  }

  // ----- runs -----

  datatype Call =
    | RegisterCall(ad: Advertisement)
    | SubmitCall(p: Proposal, now: real, leaseSeconds: real)
    | AcceptCall(work: Id, node: Id)
    | RefuseCall(work: Id, node: Id, reason: string, now: real, leaseSeconds: real)
    | CompleteCall(result: WorkResult)
    | RecoverCall(now: real, maxAge: real, leaseSeconds: real)

  ghost function Serve(env: Env, s: State, c: Call): State {
    match c
    case RegisterCall(ad) => RegisterNode(env, s, ad).0
    case SubmitCall(p, now, leaseSeconds) => Submit(env, s, p, now, leaseSeconds).0
    case AcceptCall(work, node) => Accept(env, s, work, node).0
    case RefuseCall(work, node, reason, now, leaseSeconds) => Refuse(env, s, work, node, reason, now, leaseSeconds).0
    case CompleteCall(result) => Complete(env, s, result).0
    case RecoverCall(now, maxAge, leaseSeconds) => Recover(env, s, now, maxAge, leaseSeconds).0
  }

  ghost function ServeAll(env: Env, s: State, calls: seq<Call>): State
    decreases |calls|
  {
    if calls == [] then s else Serve(env, ServeAll(env, s, calls[..|calls| - 1]), calls[|calls| - 1])
  }

  /** The calls whose exception the run theorems rule out: a recovery that gave up after reassigning. */
  ghost predicate RecoversNormally(env: Env, s: State, c: Call) {
    c.RecoverCall? ==> Recover(env, s, c.now, c.maxAge, c.leaseSeconds).1.Returned?
  }

  const NewJournal := Journal([], map[], 0, [])

  function Start(bodyId: Id): State {
    State(Empty(bodyId), map[], {}, map[], NewJournal, QueenSide(0, []))
  }
}
