/** One authorised execution as a sequence of atomic steps over shared state: the receipt log, the replay ledger
    and the exclusive resources. The surroundings answer every step as they please. */
module Execution {
  import opened Basics

  // ----- what a call is about -----

  /** A capability token; `genuine` says that its signature verifies. */
  datatype Token = Token(tokenId: Id, intent: Id, capability: Id, target: Id, issuedAt: int, expiresAt: int,
                         genuine: bool)

  /** A registered executor. Parameters are identified by number; the contract admits some of them. */
  datatype Executor = Executor(
    name: Id, capability: Id, anyTarget: bool, targets: set<Id>, admitted: set<Id>, resources: set<Id>)

  type Registry = map<Id, Executor>

  datatype Request = Request(id: nat, token: Token, executor: Id, parameters: Id, now: int)

  datatype ExecState =
    | TokenReplay | InvalidToken | NotRegistered | CapabilityMismatch | TargetMismatch | ContractDenied
    | SafetyDenied | StartUnpersisted | ReplayLedgerFailed | ExecutorFailed | CompletionMismatch
    | Completed | CompletedUnreceipted
    | ResourceConflict | OwnerLeaseMismatch | ResourceReceiptUnpersisted | ReleaseFailed | ReleaseUnreceipted

  datatype ExecResult = ExecResult(executed: bool, state: ExecState, startPersisted: bool, finalPersisted: bool)

  // ----- the shared world -----

  datatype ReceiptKind =
    | CourtDenied | CourtAuthorized
    | ExecutionStarted | ExecutionCompleted | ExecutionFailed | ExecutionDenied
    | ResourceDenied | ResourceAcquired | ResourceReleased | ResourceReleaseFailed

  datatype Receipt = Receipt(kind: ReceiptKind, intent: Id)

  /** What happened, in order: a start receipt known to be stored, a token consumed, a handler entered. */
  datatype Act = Started(call: nat, token: Id) | Consumed(call: nat, token: Id) | Ran(call: nat, token: Id, intent: Id)

  /** An owner is named by the token it executes for. */
  datatype World = World(
    log: seq<Receipt>, consumed: set<Id>,
    owners: map<Id, Id>, leases: map<Id, set<Id>>,
    acts: seq<Act>)

  datatype SinkMode = Stores | FailsBefore | FailsAfter
  datatype LedgerMode = Answers | RaisesBefore | RaisesAfter
  datatype SafetyMode = Safe | Unsafe | SafetyRaises
  datatype HandlerMode = ReportsCompletion | ReportsOther | HandlerRaises

  datatype Choice = Choice(sink: SinkMode, ledger: LedgerMode, safety: SafetyMode, handler: HandlerMode)

  function Persist(w: World, mode: SinkMode, r: Receipt): (World, bool) {
    match mode
    case Stores => (w.(log := w.log + [r]), true)
    case FailsBefore => (w, false)
    case FailsAfter => (w.(log := w.log + [r]), false)
  }

  // ----- exclusive resources -----

  datatype Grant = Granted | Conflicting | Mismatched

  function GrantOf(owners: map<Id, Id>, leases: map<Id, set<Id>>, owner: Id, wanted: set<Id>): Grant {
    if owner in leases then if leases[owner] == wanted then Granted else Mismatched
    else if exists r :: r in wanted && r in owners && owners[r] != owner then Conflicting
    else Granted
  }

  function Take(owners: map<Id, Id>, owner: Id, wanted: set<Id>): map<Id, Id> {
    owners + (map r | r in wanted :: owner)
  }

  function Drop(owners: map<Id, Id>, owner: Id, held: set<Id>): map<Id, Id> {
    map r | r in owners && !(r in held && owners[r] == owner) :: owners[r]
  }

  /** `ResourceCoordinator.acquire` for a non-empty request. */
  function Acquire(w: World, owner: Id, wanted: set<Id>): (World, Grant) {
    var grant := GrantOf(w.owners, w.leases, owner, wanted);
    (if grant == Granted && owner !in w.leases then
       w.(owners := Take(w.owners, owner, wanted), leases := w.leases[owner := wanted])
     else w, grant)
  }

  /** `ResourceCoordinator.release` */
  function Release(w: World, owner: Id): (World, bool) {
    if owner !in w.leases then (w, false)
    else (w.(owners := Drop(w.owners, owner, w.leases[owner]), leases := w.leases - {owner}), true)
  }

  // ----- the gates -----

  function Verifies(token: Token, now: int): bool {
    token.genuine && token.issuedAt <= now <= token.expiresAt
  }

  /** `_preflight`: the state in which the call would be denied before its safety gate, if any. */
  function Preflight(reg: Registry, q: Request, consumed: set<Id>): Option<ExecState> {
    if q.token.tokenId in consumed then Some(TokenReplay)
    else if !Verifies(q.token, q.now) then Some(InvalidToken)
    else if q.executor !in reg then Some(NotRegistered)
    else if reg[q.executor].capability != q.token.capability then Some(CapabilityMismatch)
    else if !reg[q.executor].anyTarget && q.token.target !in reg[q.executor].targets then Some(TargetMismatch)
    else if q.parameters !in reg[q.executor].admitted then Some(ContractDenied)
    else None
  }

  /** Where a call stands. `held` says that it runs inside an acquisition. */
  datatype Pc =
    | AtPreflight
    | AtAcquire
    | AtResourceDenied(state: ExecState)
    | AtAcquiredReceipt
    | AtQuietRelease
    | AtReplayCheck(held: bool)
    | AtTokenCheck(held: bool)
    | AtBindingChecks(held: bool)
    | AtDeny(held: bool, state: ExecState)
    | AtSafety(held: bool)
    | AtStart(held: bool)
    | AtConsume(held: bool)
    | AtLateDeny(held: bool, state: ExecState)
    | AtHandler(held: bool)
    | AtFinal(held: bool, kind: ReceiptKind, result: ExecResult)
    | AtRelease(outcome: Option<ExecResult>)
    | AtReleasedReceipt(outcome: Option<ExecResult>, released: bool)
    | Finished(outcome: Option<ExecResult>)     // None: an exception left the call

  datatype Call = Call(request: Request, pc: Pc)

  /** Leaving `execute_authorized`: straight to the caller, or through the cleanup lane. */
  function Leave(held: bool, outcome: Option<ExecResult>): Pc {
    if held then AtRelease(outcome) else Finished(outcome)
  }

  function Early(state: ExecState, persisted: bool): Option<ExecResult> {
    Some(ExecResult(false, state, false, persisted))
  }

  /** The executor-binding and contract checks of `execute_authorized`. */
  function BindingError(reg: Registry, q: Request): Option<ExecState> {
    if q.executor !in reg then Some(NotRegistered)
    else
      var spec := reg[q.executor];
      if spec.capability != q.token.capability then Some(CapabilityMismatch)
      else if !spec.anyTarget && q.token.target !in spec.targets then Some(TargetMismatch)
      else if q.parameters !in spec.admitted then Some(ContractDenied)
      else None
  }

  function ResourcesOf(reg: Registry, q: Request): set<Id> {
    if q.executor in reg then reg[q.executor].resources else {}
  }

  function At(c: Call, pc: Pc): Call { c.(pc := pc) }

  /** The cleanup lane's verdict on a result it passes through. */
  function Cleaned(outcome: Option<ExecResult>, released: bool, persisted: bool): Option<ExecResult> {
    if outcome.Some? && (!released || !persisted) then
      Some(outcome.value.(state := if !released then ReleaseFailed else ReleaseUnreceipted))
    else outcome
  }

  /** What `_consume_token` did, on a ledger whose consume is atomic. */
  datatype Consumption = Taken | Already | ConsumeRaised

  function Consume(w: World, mode: LedgerMode, call: nat, token: Id): (World, Consumption) {
    match mode
    case RaisesBefore => (w, ConsumeRaised)
    case RaisesAfter => (w.(consumed := w.consumed + {token}), ConsumeRaised)
    case Answers =>
      if token in w.consumed then (w, Already)
      else (w.(consumed := w.consumed + {token}, acts := w.acts + [Consumed(call, token)]), Taken)
  }

  /** One atomic step of one call. */
  function Step(reg: Registry, c: Call, w: World, ch: Choice): (Call, World) {
    var q, token := c.request, c.request.token;
    match c.pc
    case AtPreflight =>
      if ch.ledger != Answers then (At(c, Finished(None)), w)
      else if Preflight(reg, q, w.consumed).Some? || ResourcesOf(reg, q) == {} then (At(c, AtReplayCheck(false)), w)
      else (At(c, AtAcquire), w)
    case AtAcquire =>
      var (next, grant) := Acquire(w, token.tokenId, ResourcesOf(reg, q));
      (At(c, match grant
             case Granted => AtAcquiredReceipt
             case Conflicting => AtResourceDenied(ResourceConflict)
             case Mismatched => AtResourceDenied(OwnerLeaseMismatch)), next)
    case AtResourceDenied(state) =>
      var (next, stored) := Persist(w, ch.sink, Receipt(ResourceDenied, token.intent));
      (At(c, Finished(Early(state, stored))), next)
    case AtAcquiredReceipt =>
      var (next, stored) := Persist(w, ch.sink, Receipt(ResourceAcquired, token.intent));
      (At(c, if stored then AtReplayCheck(true) else AtQuietRelease), next)
    case AtQuietRelease =>
      (At(c, Finished(Early(ResourceReceiptUnpersisted, false))), Release(w, token.tokenId).0)
    case AtReplayCheck(held) =>
      if ch.ledger != Answers then (At(c, Leave(held, None)), w)
      else (At(c, if token.tokenId in w.consumed then AtDeny(held, TokenReplay) else AtTokenCheck(held)), w)
    case AtTokenCheck(held) =>
      (At(c, if !Verifies(token, q.now) then AtDeny(held, InvalidToken) else AtBindingChecks(held)), w)
    case AtBindingChecks(held) =>
      var error := BindingError(reg, q);
      (At(c, if error.Some? then AtDeny(held, error.value) else AtSafety(held)), w)
    case AtDeny(held, state) =>
      var (next, stored) := Persist(w, ch.sink, Receipt(ExecutionDenied, token.intent));
      (At(c, Leave(held, Early(state, stored))), next)
    case AtSafety(held) =>
      (At(c, match ch.safety
             case Safe => AtStart(held)
             case Unsafe => AtDeny(held, SafetyDenied)
             case SafetyRaises => Leave(held, None)), w)
    case AtStart(held) =>
      var (next, stored) := Persist(w, ch.sink, Receipt(ExecutionStarted, token.intent));
      if stored then (At(c, AtConsume(held)), next.(acts := next.acts + [Started(q.id, token.tokenId)]))
      else (At(c, Leave(held, Early(StartUnpersisted, false))), next)
    case AtConsume(held) =>
      var (next, consumption) := Consume(w, ch.ledger, q.id, token.tokenId);
      (At(c, match consumption
             case Taken => AtHandler(held)
             case Already => AtLateDeny(held, TokenReplay)
             case ConsumeRaised => AtLateDeny(held, ReplayLedgerFailed)), next)
    case AtLateDeny(held, state) =>
      var (next, stored) := Persist(w, ch.sink, Receipt(ExecutionDenied, token.intent));
      (At(c, Leave(held, Some(ExecResult(false, state, true, stored)))), next)
    case AtHandler(held) =>
      (At(c, match ch.handler
             case HandlerRaises => AtFinal(held, ExecutionFailed, ExecResult(false, ExecutorFailed, true, false))
             case ReportsOther => AtFinal(held, ExecutionFailed, ExecResult(false, CompletionMismatch, true, false))
             case ReportsCompletion => AtFinal(held, ExecutionCompleted, ExecResult(true, Completed, true, false))),
       w.(acts := w.acts + [Ran(q.id, token.tokenId, token.intent)]))
    case AtFinal(held, kind, result) =>
      var (next, stored) := Persist(w, ch.sink, Receipt(kind, token.intent));
      (At(c, Leave(held, Some(result.(finalPersisted := stored,
                                      state := if result.executed && !stored then CompletedUnreceipted
                                               else result.state)))), next)
    case AtRelease(outcome) =>
      var (next, released) := Release(w, token.tokenId);
      (At(c, AtReleasedReceipt(outcome, released)), next)
    case AtReleasedReceipt(outcome, released) =>
      var kind := if released then ResourceReleased else ResourceReleaseFailed;
      var (next, stored) := Persist(w, ch.sink, Receipt(kind, token.intent));
      (At(c, Finished(Cleaned(outcome, released, stored))), next)
    case Finished(_) => (c, w)
  }

  // ----- one call driven to its end -----

  /** Steps still to come, at most. */
  function Rank(pc: Pc): nat {
    match pc
    case AtPreflight => 14
    case AtAcquire => 13
    case AtResourceDenied(_) => 1
    case AtAcquiredReceipt => 12
    case AtQuietRelease => 1
    case AtReplayCheck(_) => 11
    case AtTokenCheck(_) => 10
    case AtBindingChecks(_) => 9
    case AtSafety(_) => 8
    case AtStart(_) => 7
    case AtConsume(_) => 6
    case AtHandler(_) => 5
    case AtDeny(_, _) => 4
    case AtLateDeny(_, _) => 4
    case AtFinal(_, _, _) => 3
    case AtRelease(_) => 2
    case AtReleasedReceipt(_, _) => 1
    case Finished(_) => 0
  }

  lemma StepsFinish(reg: Registry, c: Call, w: World, ch: Choice)
    ensures c.pc.Finished? || Rank(Step(reg, c, w, ch).0.pc) < Rank(c.pc)
  {
  }

  lemma StepKeepsRequest(reg: Registry, c: Call, w: World, ch: Choice)
    ensures Step(reg, c, w, ch).0.request == c.request
  {
  }

  /** What the surroundings answer one call, by the rank of the step it is at: no call is twice at the same rank. */
  type Answers = nat -> Choice

  /** The call runs alone from where it stands to its end. */
  function Drive(reg: Registry, c: Call, w: World, answers: Answers): (Option<ExecResult>, World)
    decreases Rank(c.pc)
  {
    if c.pc.Finished? then (c.pc.outcome, w)
    else
      var choice := answers(Rank(c.pc));
      StepsFinish(reg, c, w, choice);
      var (next, after) := Step(reg, c, w, choice);
      Drive(reg, next, after, answers)
  }

  /** A call one step from its end. */
  lemma DriveEnds(reg: Registry, c: Call, w: World, answers: Answers)
    ensures var (next, after) := Step(reg, c, w, answers(Rank(c.pc)));
            !c.pc.Finished? && next.pc.Finished? ==> Drive(reg, c, w, answers) == (next.pc.outcome, after)
  {
    hide Step;
    StepsFinish(reg, c, w, answers(Rank(c.pc)));
  }

  /** `execute_authorized`, called directly. */
  function ExecuteAuthorized(reg: Registry, q: Request, w: World, answers: Answers): (Option<ExecResult>, World) {
    Drive(reg, Call(q, AtReplayCheck(false)), w, answers)
  }

  /** `execute_coordinated` */
  function ExecuteCoordinated(reg: Registry, q: Request, w: World, answers: Answers): (Option<ExecResult>, World) {
    Drive(reg, NewCall(q), w, answers)
  }

  /** The call is inside `execute_authorized`. */
  predicate Inside(pc: Pc) {
    match pc
    case AtReplayCheck(_) => true
    case AtTokenCheck(_) => true
    case AtBindingChecks(_) => true
    case AtDeny(_, _) => true
    case AtSafety(_) => true
    case AtStart(_) => true
    case AtConsume(_) => true
    case AtLateDeny(_, _) => true
    case AtHandler(_) => true
    case AtFinal(_, _, _) => true
    case _ => false
  }

  /** The same place, reached by a direct call. */
  function Unheld(pc: Pc): Pc {
    match pc
    case AtReplayCheck(_) => AtReplayCheck(false)
    case AtTokenCheck(_) => AtTokenCheck(false)
    case AtBindingChecks(_) => AtBindingChecks(false)
    case AtDeny(_, state) => AtDeny(false, state)
    case AtSafety(_) => AtSafety(false)
    case AtStart(_) => AtStart(false)
    case AtConsume(_) => AtConsume(false)
    case AtLateDeny(_, state) => AtLateDeny(false, state)
    case AtHandler(_) => AtHandler(false)
    case AtFinal(_, kind, result) => AtFinal(false, kind, result)
    case AtRelease(outcome) => Finished(outcome)
    case _ => pc
  }

  predicate Held(pc: Pc) {
    match pc
    case AtReplayCheck(held) => held
    case AtTokenCheck(held) => held
    case AtBindingChecks(held) => held
    case AtDeny(held, _) => held
    case AtSafety(held) => held
    case AtStart(held) => held
    case AtConsume(held) => held
    case AtLateDeny(held, _) => held
    case AtHandler(held) => held
    case AtFinal(held, _, _) => held
    case _ => false
  }

  lemma HeldStep(reg: Registry, c: Call, w: World, ch: Choice)
    requires Inside(c.pc) && Held(c.pc)
    ensures var (next, after) := Step(reg, c, w, ch);
            && ((Inside(next.pc) && Held(next.pc)) || next.pc.AtRelease?)
            && next.request == c.request
            && Step(reg, At(c, Unheld(c.pc)), w, ch) == (At(next, Unheld(next.pc)), after)
  {
    hide Preflight, BindingError, Acquire, Release, Verifies;
  }

  /** Running inside an acquisition is running directly, followed by the cleanup lane. */
  lemma {:induction false} HeldIsUnheldThenReleased(reg: Registry, c: Call, w: World, answers: Answers)
    requires (Inside(c.pc) && Held(c.pc)) || c.pc.AtRelease?
    ensures var (outcome, after) := Drive(reg, At(c, Unheld(c.pc)), w, answers);
            Drive(reg, c, w, answers) == Drive(reg, At(c, AtRelease(outcome)), after, answers)
    decreases Rank(c.pc)
  {
    if !c.pc.AtRelease? {
      hide Step;
      var choice := answers(Rank(c.pc));
      HeldStep(reg, c, w, choice);
      StepsFinish(reg, c, w, choice);
      assert Rank(Unheld(c.pc)) == Rank(c.pc);
      var (next, after) := Step(reg, c, w, choice);
      HeldIsUnheldThenReleased(reg, next, after, answers);
    }
  }

  function NewCall(q: Request): Call { Call(q, AtPreflight) }

  // ----- the preflight tells the truth -----

  /** On the same ledger at the same time, preflight names a state exactly when `execute_authorized` is denied with
      that state before its safety gate; otherwise the call reaches the safety gate. Neither touches anything else. */
  lemma PreflightIsExact(reg: Registry, q: Request, w: World, held: bool, c1: Choice, c2: Choice, c3: Choice)
    requires c1.ledger == Answers
    ensures var s0 := Call(q, AtReplayCheck(held));
            var (s1, w1) := Step(reg, s0, w, c1);
            var (s2, w2) := if s1.pc.AtDeny? then (s1, w1) else Step(reg, s1, w1, c2);
            var (s3, w3) := if s2.pc.AtDeny? then (s2, w2) else Step(reg, s2, w2, c3);
            && w3 == w
            && (forall st :: Preflight(reg, q, w.consumed) == Some(st) <==> s3.pc == AtDeny(held, st))
            && (Preflight(reg, q, w.consumed) == None <==> s3.pc == AtSafety(held))
  {
  }
}
