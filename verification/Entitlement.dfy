/** Who reaches a handler, read off the token, the executor and the request, and what an execution comes to. */
module Entitlement {
  import opened Basics
  import opened Execution
  import opened Interleaving

  // ----- who may run -----

  /** A genuine token in its time, for a registered executor that serves its capability and target and admits the
      parameters. */
  predicate Entitled(reg: Registry, q: Request) {
    && q.token.genuine && q.token.issuedAt <= q.now && q.now <= q.token.expiresAt
    && q.executor in reg
    && reg[q.executor].capability == q.token.capability
    && (reg[q.executor].anyTarget || q.token.target in reg[q.executor].targets)
    && q.parameters in reg[q.executor].admitted
  }

  /** Past a gate, what the gate asks for holds. */
  ghost predicate Vetted(reg: Registry, c: Call) {
    && (c.pc.AtBindingChecks? ==>
          c.request.token.genuine && c.request.token.issuedAt <= c.request.now <= c.request.token.expiresAt)
    && (c.pc.AtSafety? || c.pc.AtStart? || c.pc.AtConsume? || c.pc.AtHandler? ==> Entitled(reg, c.request))
  }

  /** The act is by this request, which was entitled to it. */
  ghost predicate ByEntitled(reg: Registry, q: Request, a: Act) {
    && Entitled(reg, q)
    && a.call == q.id && a.token == q.token.tokenId
    && (a.Ran? ==> a.intent == q.token.intent)
  }

  lemma StepStaysVetted(reg: Registry, c: Call, w: World, ch: Choice)
    requires Vetted(reg, c)
    ensures var (next, after) := Step(reg, c, w, ch);
            && Vetted(reg, next) && next.request == c.request
            && (after.acts == w.acts || exists a :: after.acts == w.acts + [a] && ByEntitled(reg, c.request, a))
  {
    hide Preflight, Acquire, Release;
    var q := c.request;
    match c.pc
    case AtStart(_) =>
      assert Step(reg, c, w, ch).1.acts in {w.acts, w.acts + [Started(q.id, q.token.tokenId)]};
      assert ByEntitled(reg, q, Started(q.id, q.token.tokenId));
    case AtConsume(_) =>
      assert Step(reg, c, w, ch).1.acts in {w.acts, w.acts + [Consumed(q.id, q.token.tokenId)]};
      assert ByEntitled(reg, q, Consumed(q.id, q.token.tokenId));
    case AtHandler(_) =>
      assert Step(reg, c, w, ch).1.acts == w.acts + [Ran(q.id, q.token.tokenId, q.token.intent)];
      assert ByEntitled(reg, q, Ran(q.id, q.token.tokenId, q.token.intent));
    case AtAcquire => ResourcesLeaveActs(w, q.token.tokenId, ResourcesOf(reg, q));
    case AtQuietRelease => ResourcesLeaveActs(w, q.token.tokenId, {});
    case AtRelease(_) => ResourcesLeaveActs(w, q.token.tokenId, {});
    case _ =>
  }

  lemma ResourcesLeaveActs(w: World, owner: Id, wanted: set<Id>)
    ensures Acquire(w, owner, wanted).0.acts == w.acts && Release(w, owner).0.acts == w.acts
  {
  }

  /** Every act so far is by an entitled call, which the number it carries names. */
  ghost predicate AllEntitled(reg: Registry, s: System) {
    && (forall i :: 0 <= i < |s.calls| ==> s.calls[i].request.id == i && Vetted(reg, s.calls[i]))
    && (forall k :: 0 <= k < |s.world.acts| ==>
          s.world.acts[k].call < |s.calls| && ByEntitled(reg, s.calls[s.world.acts[k].call].request, s.world.acts[k]))
  }

  lemma AdvanceStaysEntitled(reg: Registry, s: System, t: Turn)
    requires AllEntitled(reg, s)
    ensures AllEntitled(reg, Advance(reg, s, t)) && SameRequests(s, Advance(reg, s, t))
  {
    hide Step, Vetted, ByEntitled;
    if t.who < |s.calls| {
      StepStaysVetted(reg, s.calls[t.who], s.world, t.choice);
      var next := Advance(reg, s, t);
      forall k | 0 <= k < |next.world.acts|
        ensures next.world.acts[k].call < |next.calls|
        ensures ByEntitled(reg, next.calls[next.world.acts[k].call].request, next.world.acts[k])
      {
        if k < |s.world.acts| {
          assert next.world.acts[k] == s.world.acts[k];
        } else {
          var a :| next.world.acts == s.world.acts + [a] && ByEntitled(reg, s.calls[t.who].request, a);
          ActNamesItsCall(reg, s.calls[t.who].request, a);
        }
      }
    }
  }

  lemma ActNamesItsCall(reg: Registry, q: Request, a: Act)
    requires ByEntitled(reg, q, a)
    ensures a.call == q.id
  {
  }

  ghost predicate SameRequests(s: System, end: System) {
    |end.calls| == |s.calls| && forall i :: 0 <= i < |s.calls| ==> end.calls[i].request == s.calls[i].request
  }

  lemma {:induction false} RunStaysEntitled(reg: Registry, s: System, schedule: seq<Turn>)
    requires AllEntitled(reg, s)
    ensures AllEntitled(reg, Run(reg, s, schedule)) && SameRequests(s, Run(reg, s, schedule))
    decreases |schedule|
  {
    hide AllEntitled, Advance;
    if schedule != [] {
      AdvanceStaysEntitled(reg, s, schedule[0]);
      RunStaysEntitled(reg, Advance(reg, s, schedule[0]), schedule[1..]);
    }
  }

  /** Under every interleaving and failure: whatever starts, consumes a token or runs a handler is one of the calls
      made, with a genuine token in its time, an executor bound to the token's capability and target, and parameters it
      admits. */
  lemma OnlyTheEntitledAct(reg: Registry, s: System, schedule: seq<Turn>)
    requires Fresh(s)
    ensures var acts := Run(reg, s, schedule).world.acts;
            forall k :: 0 <= k < |acts| ==>
              acts[k].call < |s.calls| && ByEntitled(reg, s.calls[acts[k].call].request, acts[k])
  {
    hide Run, ByEntitled;
    RunStaysEntitled(reg, s, schedule);
  }

  // ----- what a refused request is told -----

  /** What is wrong with the request when it is denied with this state. */
  predicate Lacks(reg: Registry, q: Request, consumed: set<Id>, state: ExecState) {
    match state
    case TokenReplay => q.token.tokenId in consumed
    case InvalidToken => !q.token.genuine || q.now < q.token.issuedAt || q.token.expiresAt < q.now
    case NotRegistered => q.executor !in reg
    case CapabilityMismatch => q.executor in reg && reg[q.executor].capability != q.token.capability
    case TargetMismatch =>
      q.executor in reg && !reg[q.executor].anyTarget && q.token.target !in reg[q.executor].targets
    case ContractDenied => q.executor in reg && q.parameters !in reg[q.executor].admitted
    case _ => false
  }

  /** The order of the gates. */
  function Gate(state: ExecState): nat {
    match state
    case TokenReplay => 0
    case InvalidToken => 1
    case NotRegistered => 2
    case CapabilityMismatch => 3
    case TargetMismatch => 4
    case ContractDenied => 5
    case _ => 6
  }

  ghost predicate LacksFirst(reg: Registry, q: Request, consumed: set<Id>, state: ExecState) {
    Lacks(reg, q, consumed, state) && forall other :: Lacks(reg, q, consumed, other) ==> Gate(state) <= Gate(other)
  }

  lemma PreflightNamesTheFirst(reg: Registry, q: Request, consumed: set<Id>, state: ExecState)
    ensures Preflight(reg, q, consumed) == Some(state) <==> LacksFirst(reg, q, consumed, state)
    ensures Preflight(reg, q, consumed) == None <==> Entitled(reg, q) && q.token.tokenId !in consumed
  {
    var found := Preflight(reg, q, consumed);
    if found.Some? {
      assert Lacks(reg, q, consumed, found.value);
      forall other | Lacks(reg, q, consumed, other)
        ensures Gate(found.value) <= Gate(other) && (Gate(found.value) == Gate(other) ==> found.value == other)
      {
      }
    } else {
      forall other ensures !Lacks(reg, q, consumed, other) {
      }
    }
  }

  /** What a sink makes of a receipt. */
  function Kept(mode: SinkMode, r: Receipt): seq<Receipt> {
    if mode == FailsBefore then [] else [r]
  }

  function Noted(w: World, mode: SinkMode, kind: ReceiptKind, intent: Id): World {
    w.(log := w.log + Kept(mode, Receipt(kind, intent)))
  }

  /** Five steps bring a call to its safety gate, or to its denial. */
  lemma UpToTheSafetyGate(reg: Registry, q: Request, w: World, held: bool, answers: Answers)
    requires answers(11).ledger == Answers
    ensures var denied := Preflight(reg, q, w.consumed);
            Drive(reg, Call(q, AtReplayCheck(held)), w, answers) ==
              Drive(reg, Call(q, if denied.Some? then AtDeny(held, denied.value) else AtSafety(held)), w, answers)
  {
    hide Drive;
    DriveOn(reg, Call(q, AtReplayCheck(held)), w, answers);
    DriveOn(reg, Call(q, AtTokenCheck(held)), w, answers);
    DriveOn(reg, Call(q, AtBindingChecks(held)), w, answers);
  }

  lemma DriveOn(reg: Registry, c: Call, w: World, answers: Answers)
    requires !c.pc.Finished?
    ensures var (next, after) := Step(reg, c, w, answers(Rank(c.pc)));
            Drive(reg, c, w, answers) == Drive(reg, next, after, answers)
  {
    hide Step;
    StepsFinish(reg, c, w, answers(Rank(c.pc)));
  }

  lemma DriveDone(reg: Registry, q: Request, w: World, outcome: Option<ExecResult>, answers: Answers)
    ensures Drive(reg, Call(q, Finished(outcome)), w, answers) == (outcome, w)
  {
  }

  /** A request that lacks something, on a ledger that answers, is denied for the first thing it lacks: nothing runs,
      nothing is consumed, and the denial is all that is noted, also when the executor declares resources. */
  lemma DeniedForTheFirstLack(reg: Registry, q: Request, w: World, answers: Answers, state: ExecState)
    requires LacksFirst(reg, q, w.consumed, state) && answers(11).ledger == Answers
    ensures answers(14).ledger == Answers ==>
        ExecuteCoordinated(reg, q, w, answers) == ExecuteAuthorized(reg, q, w, answers)
    ensures var sink := answers(4).sink;
            ExecuteAuthorized(reg, q, w, answers)
            == (Some(ExecResult(false, state, false, sink == Stores)), Noted(w, sink, ExecutionDenied, q.token.intent))
  {
    hide Drive, Preflight, LacksFirst, BindingError;
    PreflightNamesTheFirst(reg, q, w.consumed, state);
    DriveOn(reg, NewCall(q), w, answers);
    UpToTheSafetyGate(reg, q, w, false, answers);
    DriveOn(reg, Call(q, AtDeny(false, state)), w, answers);
    assert w.log + [] == w.log;
    var (next, after) := Step(reg, Call(q, AtDeny(false, state)), w, answers(4));
    DriveDone(reg, q, after, next.pc.outcome, answers);
  }

  // ----- what an entitled request comes to -----

  /** The acts of a request that gets as far as its handler. */
  function ActsOf(q: Request): seq<Act> {
    [Started(q.id, q.token.tokenId), Consumed(q.id, q.token.tokenId),
     Ran(q.id, q.token.tokenId, q.token.intent)]
  }

  /** Nothing runs: an unsafe moment is denied, a raising safety check leaves the call. */
  lemma StoppedBySafety(reg: Registry, q: Request, w: World, answers: Answers)
    requires Entitled(reg, q) && q.token.tokenId !in w.consumed && answers(11).ledger == Answers
    ensures answers(8).safety == SafetyRaises ==> ExecuteAuthorized(reg, q, w, answers) == (None, w)
    ensures answers(8).safety == Unsafe ==>
        ExecuteAuthorized(reg, q, w, answers)
        == (Some(ExecResult(false, SafetyDenied, false, answers(4).sink == Stores)),
            Noted(w, answers(4).sink, ExecutionDenied, q.token.intent))
  {
    hide Drive, Preflight, BindingError;
    PreflightNamesTheFirst(reg, q, w.consumed, SafetyDenied);
    UpToTheSafetyGate(reg, q, w, false, answers);
    DriveOn(reg, Call(q, AtSafety(false)), w, answers);
    assert w.log + [] == w.log;
    if answers(8).safety == SafetyRaises {
      DriveDone(reg, q, w, None, answers);
    }
    if answers(8).safety == Unsafe {
      DriveOn(reg, Call(q, AtDeny(false, SafetyDenied)), w, answers);
      var (next, after) := Step(reg, Call(q, AtDeny(false, SafetyDenied)), w, answers(4));
      DriveDone(reg, q, after, next.pc.outcome, answers);
    }
  }

  lemma ToTheStart(reg: Registry, q: Request, w: World, answers: Answers)
    requires Entitled(reg, q) && q.token.tokenId !in w.consumed && answers(11).ledger == Answers
    requires answers(8).safety == Safe
    ensures ExecuteAuthorized(reg, q, w, answers) == Drive(reg, Call(q, AtStart(false)), w, answers)
  {
    hide Drive, Preflight, BindingError;
    PreflightNamesTheFirst(reg, q, w.consumed, SafetyDenied);
    UpToTheSafetyGate(reg, q, w, false, answers);
    DriveOn(reg, Call(q, AtSafety(false)), w, answers);
  }

  /** Without a stored start receipt nothing is consumed and nothing runs. */
  lemma StoppedByTheStartReceipt(reg: Registry, q: Request, w: World, answers: Answers)
    requires Entitled(reg, q) && q.token.tokenId !in w.consumed && answers(11).ledger == Answers
    requires answers(8).safety == Safe && answers(7).sink != Stores
    ensures ExecuteAuthorized(reg, q, w, answers)
         == (Some(ExecResult(false, StartUnpersisted, false, false)),
             Noted(w, answers(7).sink, ExecutionStarted, q.token.intent))
  {
    hide Drive, Preflight, BindingError;
    ToTheStart(reg, q, w, answers);
    assert w.log + [] == w.log;
    DriveOn(reg, Call(q, AtStart(false)), w, answers);
    var (next, after) := Step(reg, Call(q, AtStart(false)), w, answers(7));
    DriveDone(reg, q, after, next.pc.outcome, answers);
  }

  /** The world once the start is stored. */
  function Begun(w: World, q: Request): World {
    Noted(w, Stores, ExecutionStarted, q.token.intent).(acts := w.acts + [Started(q.id, q.token.tokenId)])
  }

  lemma ToTheConsumption(reg: Registry, q: Request, w: World, answers: Answers)
    requires Entitled(reg, q) && q.token.tokenId !in w.consumed && answers(11).ledger == Answers
    requires answers(8).safety == Safe && answers(7).sink == Stores
    ensures ExecuteAuthorized(reg, q, w, answers) == Drive(reg, Call(q, AtConsume(false)), Begun(w, q), answers)
  {
    hide Drive, Preflight, BindingError;
    ToTheStart(reg, q, w, answers);
    DriveOn(reg, Call(q, AtStart(false)), w, answers);
  }

  /** A ledger that raises stops the execution after its start, with the token consumed or not. */
  lemma StoppedByTheLedger(reg: Registry, q: Request, w: World, answers: Answers)
    requires Entitled(reg, q) && q.token.tokenId !in w.consumed && answers(11).ledger == Answers
    requires answers(8).safety == Safe && answers(7).sink == Stores && answers(6).ledger != Answers
    ensures var consumed := w.consumed + if answers(6).ledger == RaisesAfter then {q.token.tokenId} else {};
            ExecuteAuthorized(reg, q, w, answers)
            == (Some(ExecResult(false, ReplayLedgerFailed, true, answers(4).sink == Stores)),
                Noted(Begun(w, q).(consumed := consumed), answers(4).sink, ExecutionDenied, q.token.intent))
  {
    hide Drive, Preflight, BindingError;
    ToTheConsumption(reg, q, w, answers);
    var begun := Begun(w, q);
    assert begun.log + [] == begun.log && w.consumed + {} == w.consumed;
    DriveOn(reg, Call(q, AtConsume(false)), begun, answers);
    var consumed := Consume(begun, answers(6).ledger, q.id, q.token.tokenId).0;
    DriveOn(reg, Call(q, AtLateDeny(false, ReplayLedgerFailed)), consumed, answers);
    var (next, after) := Step(reg, Call(q, AtLateDeny(false, ReplayLedgerFailed)), consumed, answers(4));
    DriveDone(reg, q, after, next.pc.outcome, answers);
  }

  /** What the executor reports of its handler. */
  function Reported(handler: HandlerMode, stored: bool): ExecResult {
    match handler
    case ReportsCompletion => ExecResult(true, if stored then Completed else CompletedUnreceipted, true, stored)
    case ReportsOther => ExecResult(false, CompletionMismatch, true, stored)
    case HandlerRaises => ExecResult(false, ExecutorFailed, true, stored)
  }

  /** An entitled request on favourable ground starts, consumes its token, runs its handler, and is reported: as
      completed exactly when the handler reported completion, as failed otherwise. */
  lemma RunsAndIsReported(reg: Registry, q: Request, w: World, answers: Answers)
    requires Entitled(reg, q) && q.token.tokenId !in w.consumed && answers(11).ledger == Answers
    requires answers(8).safety == Safe && answers(7).sink == Stores && answers(6).ledger == Answers
    ensures var (m, final) := (answers(5).handler, answers(3).sink);
            var kind := if m == ReportsCompletion then ExecutionCompleted else ExecutionFailed;
            ExecuteAuthorized(reg, q, w, answers)
            == (Some(Reported(m, final == Stores)),
                Noted(Begun(w, q).(consumed := w.consumed + {q.token.tokenId}, acts := w.acts + ActsOf(q)),
                      final, kind, q.token.intent))
  {
    hide Drive, Preflight, BindingError;
    ToTheConsumption(reg, q, w, answers);
    var begun := Begun(w, q);
    DriveOn(reg, Call(q, AtConsume(false)), begun, answers);
    var consumed := Consume(begun, Answers, q.id, q.token.tokenId).0;
    DriveOn(reg, Call(q, AtHandler(false)), consumed, answers);
    var (final, ran) := Step(reg, Call(q, AtHandler(false)), consumed, answers(5));
    assert ran.acts == w.acts + ActsOf(q);
    DriveOn(reg, final, ran, answers);
    var (next, after) := Step(reg, final, ran, answers(3));
    assert ran.log + [] == ran.log;
    DriveDone(reg, q, after, next.pc.outcome, answers);
  }

  lemma StoppedByARaisingLedger(reg: Registry, q: Request, w: World, answers: Answers)
    ensures answers(14).ledger != Answers ==> ExecuteCoordinated(reg, q, w, answers) == (None, w)
    ensures answers(11).ledger != Answers ==> ExecuteAuthorized(reg, q, w, answers) == (None, w)
  {
    hide Drive, Preflight;
    DriveOn(reg, NewCall(q), w, answers);
    DriveOn(reg, Call(q, AtReplayCheck(false)), w, answers);
    DriveDone(reg, q, w, None, answers);
  }

  /** An exception leaves a direct execution exactly when the ledger cannot be asked, or the request is entitled and its
      safety check raises. */
  lemma RaisesExactlyWhen(reg: Registry, q: Request, w: World, answers: Answers)
    ensures ExecuteAuthorized(reg, q, w, answers).0.None? <==>
        || answers(11).ledger != Answers
        || (Entitled(reg, q) && q.token.tokenId !in w.consumed && answers(8).safety == SafetyRaises)
  {
    hide ExecuteAuthorized, LacksFirst, Preflight;
    PreflightNamesTheFirst(reg, q, w.consumed, SafetyDenied);
    if answers(11).ledger != Answers {
      StoppedByARaisingLedger(reg, q, w, answers);
    } else if !Entitled(reg, q) || q.token.tokenId in w.consumed {
      var state := Preflight(reg, q, w.consumed).value;
      PreflightNamesTheFirst(reg, q, w.consumed, state);
      DeniedForTheFirstLack(reg, q, w, answers, state);
    } else if answers(8).safety != Safe {
      StoppedBySafety(reg, q, w, answers);
    } else if answers(7).sink != Stores {
      StoppedByTheStartReceipt(reg, q, w, answers);
    } else if answers(6).ledger != Answers {
      StoppedByTheLedger(reg, q, w, answers);
    } else {
      RunsAndIsReported(reg, q, w, answers);
    }
  }

  // ----- around exclusive resources -----

  /** Some resource the executor wants belongs to another owner. */
  ghost predicate Contested(reg: Registry, q: Request, w: World) {
    exists r :: r in ResourcesOf(reg, q) && r in w.owners && w.owners[r] != q.token.tokenId
  }

  /** A call that preflight refuses, or whose executor declares no resources, is a direct execution. */
  lemma WithoutAcquisition(reg: Registry, q: Request, w: World, answers: Answers)
    requires answers(14).ledger == Answers
    requires !Entitled(reg, q) || q.token.tokenId in w.consumed || reg[q.executor].resources == {}
    ensures ExecuteCoordinated(reg, q, w, answers) == ExecuteAuthorized(reg, q, w, answers)
  {
    hide Drive, Preflight;
    PreflightNamesTheFirst(reg, q, w.consumed, SafetyDenied);
    DriveOn(reg, NewCall(q), w, answers);
  }

  /** A call that wants what another owns, or holds something else already, is denied before its token is looked at. */
  lemma StoppedByResources(reg: Registry, q: Request, w: World, answers: Answers)
    requires Entitled(reg, q) && q.token.tokenId !in w.consumed && answers(14).ledger == Answers
    requires reg[q.executor].resources != {}
    requires if q.token.tokenId in w.leases then w.leases[q.token.tokenId] != reg[q.executor].resources
             else Contested(reg, q, w)
    ensures var state := if q.token.tokenId in w.leases then OwnerLeaseMismatch else ResourceConflict;
            ExecuteCoordinated(reg, q, w, answers)
            == (Some(ExecResult(false, state, false, answers(1).sink == Stores)),
                Noted(w, answers(1).sink, ResourceDenied, q.token.intent))
  {
    hide Drive, Preflight;
    PreflightNamesTheFirst(reg, q, w.consumed, SafetyDenied);
    DriveOn(reg, NewCall(q), w, answers);
    DriveOn(reg, Call(q, AtAcquire), w, answers);
    var state := if q.token.tokenId in w.leases then OwnerLeaseMismatch else ResourceConflict;
    assert w.log + [] == w.log;
    DriveOn(reg, Call(q, AtResourceDenied(state)), w, answers);
    var (next, after) := Step(reg, Call(q, AtResourceDenied(state)), w, answers(1));
    DriveDone(reg, q, after, next.pc.outcome, answers);
  }

  /** Every resource the executor wants belongs to the token, and nothing else has changed. */
  ghost predicate Holds(reg: Registry, q: Request, w: World, held: World) {
    && held == w.(owners := held.owners, leases := w.leases[q.token.tokenId := ResourcesOf(reg, q)])
    && forall r :: (r in held.owners <==> r in w.owners || r in ResourcesOf(reg, q))
                && (r in held.owners ==>
                      held.owners[r] == if r in ResourcesOf(reg, q) then q.token.tokenId else w.owners[r])
  }

  /** The world in which the call runs inside its acquisition. */
  function Acquired(reg: Registry, q: Request, w: World): World {
    Acquire(w, q.token.tokenId, ResourcesOf(reg, q)).0
  }

  lemma AcquiredIsHeld(reg: Registry, q: Request, w: World)
    requires q.token.tokenId !in w.leases && !Contested(reg, q, w)
    ensures GrantOf(w.owners, w.leases, q.token.tokenId, ResourcesOf(reg, q)) == Granted
    ensures Holds(reg, q, w, Acquired(reg, q, w))
  {
  }

  /** Giving back what was acquired restores both tables. */
  lemma ReleaseRestores(reg: Registry, q: Request, w: World, later: World)
    requires Agree(w) && q.token.tokenId !in w.leases && !Contested(reg, q, w)
    requires later.owners == Acquired(reg, q, w).owners && later.leases == Acquired(reg, q, w).leases
    ensures Release(later, q.token.tokenId) == (later.(owners := w.owners, leases := w.leases), true)
  {
    AcquiredIsHeld(reg, q, w);
    var back := Release(later, q.token.tokenId).0;
    assert back.leases == w.leases;
    assert forall r :: r in back.owners <==> r in w.owners;
    assert back.owners == w.owners;
  }

  /** If the acquisition cannot be noted, everything is given back and nothing runs. */
  lemma StoppedByTheAcquisitionReceipt(reg: Registry, q: Request, w: World, answers: Answers)
    requires Entitled(reg, q) && q.token.tokenId !in w.consumed && answers(14).ledger == Answers
    requires reg[q.executor].resources != {} && Agree(w) && q.token.tokenId !in w.leases && !Contested(reg, q, w)
    requires answers(12).sink != Stores
    ensures ExecuteCoordinated(reg, q, w, answers)
         == (Some(ExecResult(false, ResourceReceiptUnpersisted, false, false)),
             Noted(w, answers(12).sink, ResourceAcquired, q.token.intent))
  {
    hide Drive, Preflight, Acquire, Release, Agree;
    PreflightNamesTheFirst(reg, q, w.consumed, SafetyDenied);
    AcquiredIsHeld(reg, q, w);
    AcquireGrants(w, q.token.tokenId, ResourcesOf(reg, q));
    DriveOn(reg, NewCall(q), w, answers);
    DriveOn(reg, Call(q, AtAcquire), w, answers);
    var held := Acquired(reg, q, w);
    assert held.log + [] == held.log;
    DriveOn(reg, Call(q, AtAcquiredReceipt), held, answers);
    var told := Step(reg, Call(q, AtAcquiredReceipt), held, answers(12)).1;
    DriveOn(reg, Call(q, AtQuietRelease), told, answers);
    ReleaseRestores(reg, q, w, told);
    var after := Release(told, q.token.tokenId).0;
    DriveDone(reg, q, after, Early(ResourceReceiptUnpersisted, false), answers);
  }

  lemma AcquireGrants(w: World, owner: Id, wanted: set<Id>)
    ensures Acquire(w, owner, wanted).1 == GrantOf(w.owners, w.leases, owner, wanted)
  {
  }

  /** What the caller is told by a cleanup that gave the resources back. */
  function AfterRelease(outcome: Option<ExecResult>, sink: SinkMode): Option<ExecResult> {
    if outcome.Some? && sink != Stores then Some(outcome.value.(state := ReleaseUnreceipted)) else outcome
  }

  /** A granted acquisition that is noted: the direct execution runs while the resources are held, they are given back
      whatever it came to, and the release is noted. */
  lemma RunsWhileHeld(reg: Registry, q: Request, w: World, answers: Answers)
    requires Entitled(reg, q) && q.token.tokenId !in w.consumed && answers(14).ledger == Answers
    requires reg[q.executor].resources != {}
    requires GrantOf(w.owners, w.leases, q.token.tokenId, reg[q.executor].resources) == Granted
    requires answers(12).sink == Stores
    ensures var held := Noted(Acquired(reg, q, w), Stores, ResourceAcquired, q.token.intent);
            var (o, after) := ExecuteAuthorized(reg, q, held, answers);
            && after.owners == held.owners && after.leases == held.leases && q.token.tokenId in held.leases
            && ExecuteCoordinated(reg, q, w, answers)
               == (AfterRelease(o, answers(1).sink),
                   Noted(Release(after, q.token.tokenId).0, answers(1).sink, ResourceReleased, q.token.intent))
  {
    hide Drive, Preflight, GrantOf, Acquire, Release;
    GrantedIsLeased(w, q.token.tokenId, ResourcesOf(reg, q));
    ReachesTheInside(reg, q, w, answers);
    var held := Noted(Acquired(reg, q, w), Stores, ResourceAcquired, q.token.intent);
    HeldIsUnheldThenReleased(reg, Call(q, AtReplayCheck(true)), held, answers);
    var (o, after) := ExecuteAuthorized(reg, q, held, answers);
    DirectLeavesResources(reg, Call(q, AtReplayCheck(false)), held, answers);
    CleanupGivesBack(reg, q, after, o, answers);
  }

  lemma ReachesTheInside(reg: Registry, q: Request, w: World, answers: Answers)
    requires Entitled(reg, q) && q.token.tokenId !in w.consumed && answers(14).ledger == Answers
    requires reg[q.executor].resources != {}
    requires GrantOf(w.owners, w.leases, q.token.tokenId, reg[q.executor].resources) == Granted
    requires answers(12).sink == Stores
    ensures ExecuteCoordinated(reg, q, w, answers)
         == Drive(reg, Call(q, AtReplayCheck(true)), Noted(Acquired(reg, q, w), Stores, ResourceAcquired,
                                                           q.token.intent), answers)
  {
    hide Drive, Preflight, GrantOf, Acquire;
    PreflightNamesTheFirst(reg, q, w.consumed, SafetyDenied);
    AcquireGrants(w, q.token.tokenId, ResourcesOf(reg, q));
    DriveOn(reg, NewCall(q), w, answers);
    DriveOn(reg, Call(q, AtAcquire), w, answers);
    DriveOn(reg, Call(q, AtAcquiredReceipt), Acquired(reg, q, w), answers);
  }

  /** A cleanup that finds the token's resources gives them back. */
  lemma CleanupGivesBack(reg: Registry, q: Request, w: World, outcome: Option<ExecResult>, answers: Answers)
    requires q.token.tokenId in w.leases
    ensures Drive(reg, Call(q, AtRelease(outcome)), w, answers)
         == (AfterRelease(outcome, answers(1).sink),
             Noted(Release(w, q.token.tokenId).0, answers(1).sink, ResourceReleased, q.token.intent))
  {
    hide Drive;
    DriveOn(reg, Call(q, AtRelease(outcome)), w, answers);
    var released := Release(w, q.token.tokenId).0;
    assert released.log + [] == released.log;
    DriveOn(reg, Call(q, AtReleasedReceipt(outcome, true)), released, answers);
    var (next, last) := Step(reg, Call(q, AtReleasedReceipt(outcome, true)), released, answers(1));
    DriveDone(reg, q, last, next.pc.outcome, answers);
  }

  lemma GrantedIsLeased(w: World, owner: Id, wanted: set<Id>)
    requires GrantOf(w.owners, w.leases, owner, wanted) == Granted
    ensures owner in Acquire(w, owner, wanted).0.leases
  {
  }

  /** Executing with free resources: they are held from the first receipt to the last, and both tables end as they were.
      A release that is not noted is all that changes what the caller is told. */
  lemma RunsInsideAnAcquisition(reg: Registry, q: Request, w: World, answers: Answers)
    requires Entitled(reg, q) && q.token.tokenId !in w.consumed && answers(14).ledger == Answers
    requires reg[q.executor].resources != {} && Agree(w) && q.token.tokenId !in w.leases && !Contested(reg, q, w)
    requires answers(12).sink == Stores
    ensures var held := Noted(Acquired(reg, q, w), Stores, ResourceAcquired, q.token.intent);
            var (o, after) := ExecuteAuthorized(reg, q, held, answers);
            && Holds(reg, q, w, Acquired(reg, q, w))
            && ExecuteCoordinated(reg, q, w, answers)
               == (AfterRelease(o, answers(1).sink),
                   Noted(after.(owners := w.owners, leases := w.leases), answers(1).sink, ResourceReleased,
                         q.token.intent))
  {
    hide Drive, Acquire, Release, Agree, ExecuteAuthorized, ExecuteCoordinated;
    AcquiredIsHeld(reg, q, w);
    RunsWhileHeld(reg, q, w, answers);
    var held := Noted(Acquired(reg, q, w), Stores, ResourceAcquired, q.token.intent);
    ReleaseRestores(reg, q, w, ExecuteAuthorized(reg, q, held, answers).1);
  }

  /** A cleanup that finds nothing to give back says so, whatever the execution came to; an exception stays one. */
  lemma CleanupFindsNothing(reg: Registry, q: Request, w: World, outcome: Option<ExecResult>, answers: Answers)
    requires q.token.tokenId !in w.leases
    ensures Drive(reg, Call(q, AtRelease(outcome)), w, answers)
         == (if outcome.Some? then Some(outcome.value.(state := ReleaseFailed)) else None,
             Noted(w, answers(1).sink, ResourceReleaseFailed, q.token.intent))
  {
    hide Drive;
    assert w.log + [] == w.log;
    DriveOn(reg, Call(q, AtRelease(outcome)), w, answers);
    DriveOn(reg, Call(q, AtReleasedReceipt(outcome, false)), w, answers);
    var (next, after) := Step(reg, Call(q, AtReleasedReceipt(outcome, false)), w, answers(1));
    DriveDone(reg, q, after, next.pc.outcome, answers);
  }

  /** A release takes nothing from anybody else, even from tables that do not agree. */
  lemma ReleaseTakesNothingFromOthers(w: World, owner: Id)
    ensures var after := Release(w, owner).0;
            && (forall r :: r in w.owners && w.owners[r] != owner ==>
                  r in after.owners && after.owners[r] == w.owners[r])
            && (forall o :: o in w.leases && o != owner ==> o in after.leases && after.leases[o] == w.leases[o])
  {
  }

  /** A direct execution leaves the resource tables alone. */
  lemma {:induction false} DirectLeavesResources(reg: Registry, c: Call, w: World, answers: Answers)
    requires (Inside(c.pc) && !Held(c.pc)) || c.pc.Finished?
    ensures var after := Drive(reg, c, w, answers).1; after.owners == w.owners && after.leases == w.leases
    decreases Rank(c.pc)
  {
    if !c.pc.Finished? {
      hide Step;
      StepsFinish(reg, c, w, answers(Rank(c.pc)));
      DirectStep(reg, c, w, answers(Rank(c.pc)));
      var (next, after) := Step(reg, c, w, answers(Rank(c.pc)));
      DirectLeavesResources(reg, next, after, answers);
    }
  }

  lemma DirectStep(reg: Registry, c: Call, w: World, ch: Choice)
    requires Inside(c.pc) && !Held(c.pc)
    ensures var (next, after) := Step(reg, c, w, ch);
            && ((Inside(next.pc) && !Held(next.pc)) || next.pc.Finished?)
            && after.owners == w.owners && after.leases == w.leases
  {
    hide Preflight, BindingError, Verifies;
  }
}
