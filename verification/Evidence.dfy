/** What a dispatch leaves in the receipt log, from its Court decision to its last receipt. */
module Evidence {
  import opened Basics
  import opened Execution
  import opened Entitlement
  import opened DispatchSpec

  // ----- what an execution whose receipts are stored tells -----

  ghost predicate AllStored(answers: Answers) {
    forall n :: answers(n).sink == Stores
  }

  /** Receipts about the intent, by kind. */
  function About(kinds: seq<ReceiptKind>, d: Id): seq<Receipt> {
    seq(|kinds|, i requires 0 <= i < |kinds| => Receipt(kinds[i], d))
  }

  /** What is told of an execution, inside any acquisition, by what it came to. An exception leaves nothing told. */
  function Inner(outcome: Option<ExecResult>): seq<ReceiptKind> {
    match outcome
    case None => []
    case Some(r) =>
      (if r.startPersisted then [ExecutionStarted] else [])
      + (match r.state
         case Completed => [ExecutionCompleted]
         case ExecutorFailed => [ExecutionFailed]
         case CompletionMismatch => [ExecutionFailed]
         case _ => [ExecutionDenied])
  }

  function Whole(held: bool, outcome: Option<ExecResult>): seq<ReceiptKind> {
    if outcome.Some? && outcome.value.state in {ResourceConflict, OwnerLeaseMismatch} then [ResourceDenied]
    else if held then [ResourceAcquired] + Inner(outcome) + [ResourceReleased]
    else Inner(outcome)
  }

  /** The states in which a stored execution can end inside `execute_authorized`. */
  predicate Plain(outcome: Option<ExecResult>) {
    outcome.Some? ==>
      && outcome.value.state !in {ResourceConflict, OwnerLeaseMismatch, ReleaseFailed, ReleaseUnreceipted,
                                 ResourceReceiptUnpersisted, CompletedUnreceipted, StartUnpersisted}
      && outcome.value.finalPersisted
      && (outcome.value.state in {Completed, ExecutorFailed, CompletionMismatch} ==> outcome.value.startPersisted)
      && (outcome.value.executed <==> outcome.value.state == Completed)
  }

  /** What the caller is told when every receipt is stored. */
  predicate Tells(outcome: Option<ExecResult>) {
    Plain(outcome) || (outcome.Some? && outcome.value.state in {ResourceConflict, OwnerLeaseMismatch})
  }

  lemma Joins(log: seq<Receipt>, a: seq<ReceiptKind>, b: seq<ReceiptKind>, d: Id)
    ensures log + About(a, d) + About(b, d) == log + About(a + b, d)
  {
    assert About(a, d) + About(b, d) == About(a + b, d);
  }

  lemma NotesOne(w: World, kind: ReceiptKind, d: Id)
    ensures Noted(w, Stores, kind, d).log == w.log + About([kind], d)
  {
    assert About([kind], d) == [Receipt(kind, d)];
  }

  /** A direct execution tells what it came to. */
  lemma DirectTells(reg: Registry, q: Request, w: World, answers: Answers)
    requires AllStored(answers)
    ensures var (o, after) := ExecuteAuthorized(reg, q, w, answers);
            Plain(o) && after.log == w.log + About(Inner(o), q.token.intent)
  {
    hide ExecuteAuthorized, Entitled, LacksFirst, AllStored;
    StoresAlways(answers);
    var d := q.token.intent;
    PreflightNamesTheFirst(reg, q, w.consumed, SafetyDenied);
    assert w.log + About([], d) == w.log;
    if answers(11).ledger != Answers {
      StoppedByARaisingLedger(reg, q, w, answers);
    } else if !Entitled(reg, q) || q.token.tokenId in w.consumed {
      var state := Preflight(reg, q, w.consumed).value;
      PreflightNamesTheFirst(reg, q, w.consumed, state);
      DeniedForTheFirstLack(reg, q, w, answers, state);
      NotesOne(w, ExecutionDenied, d);
    } else if answers(8).safety != Safe {
      StoppedBySafety(reg, q, w, answers);
      NotesOne(w, ExecutionDenied, d);
    } else {
      var begun := Begun(w, q);
      NotesOne(w, ExecutionStarted, d);
      if answers(6).ledger != Answers {
        StoppedByTheLedger(reg, q, w, answers);
        NotesOne(begun, ExecutionDenied, d);
        Joins(w.log, [ExecutionStarted], [ExecutionDenied], d);
      } else {
        RunsAndIsReported(reg, q, w, answers);
        var kind := if answers(5).handler == ReportsCompletion then ExecutionCompleted else ExecutionFailed;
        NotesOne(begun, kind, d);
        Joins(w.log, [ExecutionStarted], [kind], d);
      }
    }
  }

  lemma StoresAlways(answers: Answers)
    requires AllStored(answers)
    ensures answers(1).sink == answers(3).sink == answers(4).sink == answers(7).sink == answers(12).sink == Stores
  {
  }

  /** The same with resources around it: acquisition and release are told, or that the resources were refused. */
  lemma ExecutionTells(reg: Registry, q: Request, w: World, answers: Answers)
    requires AllStored(answers)
    ensures var (o, after) := ExecuteCoordinated(reg, q, w, answers);
            Tells(o) && exists held :: after.log == w.log + About(Whole(held, o), q.token.intent)
  {
    hide ExecuteAuthorized, ExecuteCoordinated, AllStored, GrantOf, Acquire, Release;
    StoresAlways(answers);
    var d, token := q.token.intent, q.token.tokenId;
    var (o, after) := ExecuteCoordinated(reg, q, w, answers);
    if answers(14).ledger != Answers {
      StoppedByARaisingLedger(reg, q, w, answers);
      assert after.log == w.log + About(Whole(false, o), d);
    } else if !Entitled(reg, q) || token in w.consumed || ResourcesOf(reg, q) == {} {
      WithoutAcquisition(reg, q, w, answers);
      DirectTells(reg, q, w, answers);
      assert after.log == w.log + About(Whole(false, o), d);
    } else if GrantOf(w.owners, w.leases, token, ResourcesOf(reg, q)) != Granted {
      Refused(reg, q, w);
      StoppedByResources(reg, q, w, answers);
      NotesOne(w, ResourceDenied, d);
      assert after.log == w.log + About(Whole(false, o), d);
    } else {
      RunsWhileHeld(reg, q, w, answers);
      AcquireAndReleaseLeaveTheRest(w, token, ResourcesOf(reg, q));
      var held := Noted(Acquired(reg, q, w), Stores, ResourceAcquired, d);
      var (inner, end) := ExecuteAuthorized(reg, q, held, answers);
      DirectTells(reg, q, held, answers);
      AcquireAndReleaseLeaveTheRest(end, token, {});
      NotesOne(Acquired(reg, q, w), ResourceAcquired, d);
      NotesOne(Release(end, token).0, ResourceReleased, d);
      Joins(w.log, [ResourceAcquired], Inner(inner), d);
      Joins(w.log, [ResourceAcquired] + Inner(inner), [ResourceReleased], d);
      assert after.log == w.log + About(Whole(true, o), d);
    }
  }

  lemma Refused(reg: Registry, q: Request, w: World)
    requires Entitled(reg, q) && GrantOf(w.owners, w.leases, q.token.tokenId, ResourcesOf(reg, q)) != Granted
    ensures if q.token.tokenId in w.leases then w.leases[q.token.tokenId] != reg[q.executor].resources
            else Contested(reg, q, w)
  {
  }

  // ----- terminal receipts -----

  /** The kind of terminal receipt that names an outcome; resources that were refused, and exceptions, have none. */
  function TerminalOf(outcome: Option<ExecResult>): Option<ReceiptKind> {
    if outcome.None? then None
    else match outcome.value.state
      case Completed => Some(ExecutionCompleted)
      case ExecutorFailed => Some(ExecutionFailed)
      case CompletionMismatch => Some(ExecutionFailed)
      case ResourceConflict => None
      case OwnerLeaseMismatch => None
      case _ => Some(ExecutionDenied)
  }

  /** Of these receipts exactly one is terminal, of this kind, or none is. */
  ghost predicate OneTerminal(kinds: seq<ReceiptKind>, terminal: Option<ReceiptKind>) {
    match terminal
    case None => forall i :: 0 <= i < |kinds| ==> !Terminal(kinds[i])
    case Some(kind) =>
      exists k :: 0 <= k < |kinds| && kinds[k] == kind && Terminal(kind)
        && forall i :: 0 <= i < |kinds| && i != k ==> !Terminal(kinds[i])
  }

  lemma WholeHasItsTerminal(held: bool, outcome: Option<ExecResult>)
    requires Tells(outcome)
    ensures OneTerminal(Whole(held, outcome), TerminalOf(outcome))
  {
    var kinds := Whole(held, outcome);
    if TerminalOf(outcome).Some? {
      var k := (if held then 1 else 0) + (if outcome.value.startPersisted then 1 else 0);
      assert kinds[k] == TerminalOf(outcome).value && Terminal(kinds[k]);
      assert forall i :: 0 <= i < |kinds| && i != k ==> !Terminal(kinds[i]);
    }
  }

  /** Receipts about an intent that has no terminal one decide what is found of it. */
  lemma FoundAfter(log: seq<Receipt>, kinds: seq<ReceiptKind>, d: Id, terminal: Option<ReceiptKind>)
    requires NoTerminal(log, d) && OneTerminal(kinds, terminal)
    ensures var after := log + About(kinds, d);
            match terminal
            case None => NoTerminal(after, d)
            case Some(kind) => exists i: nat :: OnlyTerminal(after, d, i, kind)
  {
    var after := log + About(kinds, d);
    forall i: nat
      ensures TerminalAt(after, d, i) <==> |log| <= i < |after| && Terminal(kinds[i - |log|])
    {
      assert i < |log| ==> (TerminalAt(after, d, i) <==> TerminalAt(log, d, i));
    }
    if terminal.Some? {
      var k :| 0 <= k < |kinds| && kinds[k] == terminal.value && Terminal(terminal.value)
        && forall i :: 0 <= i < |kinds| && i != k ==> !Terminal(kinds[i]);
      assert OnlyTerminal(after, d, |log| + k, terminal.value);
    }
  }

  /** The one terminal receipt of the intent, and its kind. */
  ghost predicate OnlyTerminal(log: seq<Receipt>, d: Id, i: nat, kind: ReceiptKind) {
    && i < |log| && log[i] == Receipt(kind, d)
    && forall j: nat :: TerminalAt(log, d, j) <==> j == i
  }

  lemma OnlyTerminalIsFound(log: seq<Receipt>, d: Id, i: nat, kind: ReceiptKind)
    requires OnlyTerminal(log, d, i, kind)
    ensures Resolve(log, d) == TerminalReceipt(i)
  {
    ResolutionMeans(log, d);
  }

  // ----- what a dispatch of an open intent leaves -----

  /** A denial that is stored is the intent's one terminal receipt, all that is logged, and its id is the reply. */
  lemma DenialIsTheReply(reg: Registry, w: World, d: Id, s: Surroundings)
    requires Open(w.log, d) && s.readableBefore && s.prepares && s.readableAfter && s.court == CourtDenies
    ensures s.courtSink == Stores ==>
        Dispatch(reg, w, d, s) == (w.(log := w.log + [Receipt(CourtDenied, d)]), ReceiptId(|w.log|))
    ensures s.courtSink == Stores ==> OnlyTerminal(w.log + [Receipt(CourtDenied, d)], d, |w.log|, CourtDenied)
    ensures s.courtSink == FailsBefore ==> Dispatch(reg, w, d, s) == (w, RaisedElsewhere)
  {
    hide Resolve, ExecuteCoordinated, Open, OnlyTerminal;
    OpenResolutions(w.log, d);
    DenialIsOnlyTerminal(w.log, d);
    OnlyTerminalIsFound(w.log + [Receipt(CourtDenied, d)], d, |w.log|, CourtDenied);
  }

  lemma DenialIsOnlyTerminal(log: seq<Receipt>, d: Id)
    requires Open(log, d)
    ensures OnlyTerminal(log + [Receipt(CourtDenied, d)], d, |log|, CourtDenied)
  {
    OneMoreReceipt(log, Receipt(CourtDenied, d), d);
  }

  /** An authorisation that is not known to be stored ends the dispatch: nothing starts. */
  lemma UnstoredAuthorisationEndsIt(reg: Registry, w: World, d: Id, s: Surroundings)
    requires Open(w.log, d) && s.readableBefore && s.prepares && s.court.CourtAllows? && s.courtSink != Stores
    ensures Dispatch(reg, w, d, s) == (Noted(w, s.courtSink, CourtAuthorized, d), RaisedElsewhere)
  {
    hide Resolve, ExecuteCoordinated, Open;
    OpenResolutions(w.log, d);
    var r := Receipt(CourtAuthorized, d);
    assert w.log + [] == w.log;
    AuthorisedIsOpen(w.log, d);
    OpenResolutions(w.log + [r], d);
  }

  lemma AuthorisedIsOpen(log: seq<Receipt>, d: Id)
    requires Open(log, d)
    ensures Open(log + [Receipt(CourtAuthorized, d)], d)
  {
    OneMoreReceipt(log, Receipt(CourtAuthorized, d), d);
  }

  /** An authorised execution whose receipts are all stored: authorisation, then its story. What it came to has one
      terminal receipt, whose kind names it and whose id is the reply; refused resources and exceptions have none. */
  lemma StoredExecutionIsTheReply(reg: Registry, w: World, d: Id, s: Surroundings)
    requires Open(w.log, d) && s.readableBefore && s.prepares && s.readableAfter && s.court.CourtAllows?
    requires s.courtSink == Stores && AllStored(s.answers)
    ensures var authorised := Noted(w, Stores, CourtAuthorized, d);
            var (o, told) := ExecuteCoordinated(reg, RequestOf(d, s), authorised, s.answers);
            var (after, reply) := Dispatch(reg, w, d, s);
            && after == told
            && (exists held :: after.log == authorised.log + About(Whole(held, o), d))
            && (TerminalOf(o).None? ==> NoTerminal(after.log, d) && reply == RaisedElsewhere)
            && (TerminalOf(o).Some? ==>
                  reply.ReceiptId? && OnlyTerminal(after.log, d, reply.receipt, TerminalOf(o).value))
  {
    hide ExecuteCoordinated, Whole, AllStored, OneTerminal, Resolve;
    OpenResolutions(w.log, d);
    var authorised := Noted(w, Stores, CourtAuthorized, d);
    OneMoreReceipt(w.log, Receipt(CourtAuthorized, d), d);
    ExecutionTells(reg, RequestOf(d, s), authorised, s.answers);
    var (o, after) := ExecuteCoordinated(reg, RequestOf(d, s), authorised, s.answers);
    var held :| after.log == authorised.log + About(Whole(held, o), d);
    WholeHasItsTerminal(held, o);
    FoundAfter(authorised.log, Whole(held, o), d, TerminalOf(o));
    if TerminalOf(o).Some? {
      var i: nat :| OnlyTerminal(after.log, d, i, TerminalOf(o).value);
      OnlyTerminalIsFound(after.log, d, i, TerminalOf(o).value);
    } else {
      UntoldHasNotStarted(authorised.log, held, o, d);
      OpenResolutions(after.log, d);
    }
  }

  /** Without the log, before or after, or without a prepared request, nothing is answered about an open intent; and
      without the log before, or the request, nothing is submitted either. */
  lemma UnreadOrUnpreparedRaises(reg: Registry, w: World, d: Id, s: Surroundings)
    ensures !s.readableBefore || (Open(w.log, d) && !s.prepares) ==> Dispatch(reg, w, d, s) == (w, RaisedElsewhere)
    ensures Open(w.log, d) && !s.readableAfter ==> Dispatch(reg, w, d, s).1 == RaisedElsewhere
  {
    hide Resolve, Submit, Open;
    OpenResolutions(w.log, d);
  }

  lemma UntoldHasNotStarted(log: seq<Receipt>, held: bool, o: Option<ExecResult>, d: Id)
    requires TerminalOf(o).None? && !Logged(log, d, ExecutionStarted)
    ensures !Logged(log + About(Whole(held, o), d), d, ExecutionStarted)
  {
    var kinds := Whole(held, o);
    assert forall i :: 0 <= i < |kinds| ==> kinds[i] != ExecutionStarted;
    assert forall r :: r in About(kinds, d) ==> exists i :: 0 <= i < |kinds| && r == Receipt(kinds[i], d);
  }

  /** An exception leaves a submission exactly when the Court raises, or it allows, that is stored, and the execution
      raises: at its preflight, its replay check or its safety check. A call that resources stop does not raise. */
  lemma SubmissionRaisesExactlyWhen(reg: Registry, w: World, d: Id, s: Surroundings)
    ensures !Submit(reg, w, d, s).1 <==>
        || s.court.CourtRaises?
        || (s.court.CourtAllows? && s.courtSink == Stores && ExecutionRaises(reg, RequestOf(d, s), w, s.answers))
  {
    hide ExecuteCoordinated, ExecuteAuthorized, Entitled;
    if s.court.CourtAllows? && s.courtSink == Stores {
      CoordinatedRaisesExactlyWhen(reg, RequestOf(d, s), Noted(w, Stores, CourtAuthorized, d), s.answers);
    }
  }

  /** The execution is let in to its replay check, unless preflight raises or resources stop it, and raises there or at
      its safety check. */
  ghost predicate ExecutionRaises(reg: Registry, q: Request, w: World, answers: Answers) {
    var token := q.token.tokenId;
    var mayRun := Entitled(reg, q) && token !in w.consumed;
    || answers(14).ledger != Answers
    || ((mayRun && ResourcesOf(reg, q) != {} ==>
           GrantOf(w.owners, w.leases, token, ResourcesOf(reg, q)) == Granted && answers(12).sink == Stores)
        && (answers(11).ledger != Answers || (mayRun && answers(8).safety == SafetyRaises)))
  }

  lemma CoordinatedRaisesExactlyWhen(reg: Registry, q: Request, w: World, answers: Answers)
    ensures ExecuteCoordinated(reg, q, w, answers).0.None? <==> ExecutionRaises(reg, q, w, answers)
  {
    hide ExecuteAuthorized, ExecuteCoordinated, GrantOf, Acquire, Release;
    RaisesExactlyWhen(reg, q, w, answers);
    if answers(14).ledger != Answers {
      StoppedByARaisingLedger(reg, q, w, answers);
    } else if !Entitled(reg, q) || q.token.tokenId in w.consumed || ResourcesOf(reg, q) == {} {
      WithoutAcquisition(reg, q, w, answers);
    } else if GrantOf(w.owners, w.leases, q.token.tokenId, ResourcesOf(reg, q)) != Granted {
      Refused(reg, q, w);
      StoppedByResources(reg, q, w, answers);
    } else if answers(12).sink == Stores {
      RunsWhileHeld(reg, q, w, answers);
      var held := Noted(Acquired(reg, q, w), Stores, ResourceAcquired, q.token.intent);
      AcquisitionConsumesNothing(w, q.token.tokenId, ResourcesOf(reg, q));
      RaisesExactlyWhen(reg, q, held, answers);
    } else {
      UnnotedAcquisitionReturns(reg, q, w, answers);
    }
  }

  lemma AcquisitionConsumesNothing(w: World, owner: Id, wanted: set<Id>)
    ensures Acquire(w, owner, wanted).0.consumed == w.consumed
  {
  }

  lemma UnnotedAcquisitionReturns(reg: Registry, q: Request, w: World, answers: Answers)
    requires Entitled(reg, q) && q.token.tokenId !in w.consumed && answers(14).ledger == Answers
    requires reg[q.executor].resources != {} && answers(12).sink != Stores
    requires GrantOf(w.owners, w.leases, q.token.tokenId, reg[q.executor].resources) == Granted
    ensures ExecuteCoordinated(reg, q, w, answers).0.Some?
  {
    hide Drive, Preflight, GrantOf, Acquire, Release;
    PreflightNamesTheFirst(reg, q, w.consumed, SafetyDenied);
    AcquireGrants(w, q.token.tokenId, ResourcesOf(reg, q));
    DriveOn(reg, NewCall(q), w, answers);
    DriveOn(reg, Call(q, AtAcquire), w, answers);
    var held := Acquired(reg, q, w);
    DriveOn(reg, Call(q, AtAcquiredReceipt), held, answers);
    var told := Step(reg, Call(q, AtAcquiredReceipt), held, answers(12)).1;
    DriveOn(reg, Call(q, AtQuietRelease), told, answers);
    DriveDone(reg, q, Release(told, q.token.tokenId).0, Early(ResourceReceiptUnpersisted, false), answers);
  }

  // ----- nothing starts unauthorised -----

  /** Every start receipt of the intent stands behind a Court authorisation of it. */
  ghost predicate StartsAuthorised(log: seq<Receipt>, d: Id) {
    forall i :: 0 <= i < |log| && log[i] == Receipt(ExecutionStarted, d) ==> Receipt(CourtAuthorized, d) in log[..i]
  }

  lemma AuthorisedLog(log: seq<Receipt>, more: seq<Receipt>, d: Id)
    requires StartsAuthorised(log, d)
    requires Receipt(CourtAuthorized, d) in log || Receipt(ExecutionStarted, d) !in more
    ensures StartsAuthorised(log + more, d)
  {
    var all := log + more;
    forall i | 0 <= i < |all| && all[i] == Receipt(ExecutionStarted, d)
      ensures Receipt(CourtAuthorized, d) in all[..i]
    {
      if i < |log| {
        assert all[..i] == log[..i];
      } else {
        assert more[i - |log|] == all[i];
        var j :| 0 <= j < |log| && log[j] == Receipt(CourtAuthorized, d);
        assert all[..i][j] == Receipt(CourtAuthorized, d);
      }
    }
  }

  /** The log only grows while a call runs. */
  lemma {:induction false} DriveExtends(reg: Registry, c: Call, w: World, answers: Answers)
    ensures w.log <= Drive(reg, c, w, answers).1.log
    decreases Rank(c.pc)
  {
    if !c.pc.Finished? {
      hide Step;
      StepsFinish(reg, c, w, answers(Rank(c.pc)));
      StepAppends(reg, c, w, answers(Rank(c.pc)));
      var (next, after) := Step(reg, c, w, answers(Rank(c.pc)));
      DriveExtends(reg, next, after, answers);
    }
  }

  lemma SubmitStaysAuthorised(reg: Registry, w: World, d: Id, s: Surroundings)
    requires StartsAuthorised(w.log, d)
    ensures StartsAuthorised(Submit(reg, w, d, s).0.log, d)
  {
    hide Drive, Step, StartsAuthorised;
    AuthorisedLog(w.log, [Receipt(CourtDenied, d)], d);
    AuthorisedLog(w.log, [Receipt(CourtAuthorized, d)], d);
    if s.court.CourtAllows? && s.courtSink == Stores {
      var next := Persist(w, s.courtSink, Receipt(CourtAuthorized, d)).0;
      var c := NewCall(RequestOf(d, s));
      DriveExtends(reg, c, next, s.answers);
      var after := Drive(reg, c, next, s.answers).1;
      assert next.log[|w.log|] == Receipt(CourtAuthorized, d);
      AuthorisedLog(next.log, after.log[|next.log|..], d);
      assert after.log == next.log + after.log[|next.log|..];
    }
  }

  lemma OpStaysAuthorised(reg: Registry, w: World, op: Op, d: Id)
    requires StartsAuthorised(w.log, d) && OwnReceiptsOnly([op], d)
    ensures StartsAuthorised(Do(reg, w, op).log, d)
  {
    hide Submit, Resolve, StartsAuthorised;
    assert op in [op];
    if op.Elsewhere? {
      AuthorisedLog(w.log, op.receipts, d);
    } else if op.intent == d {
      SubmitStaysAuthorised(reg, w, d, op.surroundings);
    } else {
      SubmitUnaffected(reg, w, op.intent, op.surroundings, d);
      var after := Submit(reg, w, op.intent, op.surroundings).0;
      AuthorisedLog(w.log, after.log[|w.log|..], d);
      assert after.log == w.log + after.log[|w.log|..];
    }
  }

  /** In any sequence of dispatches, whatever fails: no execution of the intent is logged as started unless the log
      holds a Court authorisation of the intent before it. */
  lemma {:induction false} NothingStartsUnauthorised(reg: Registry, w: World, ops: seq<Op>, d: Id)
    requires StartsAuthorised(w.log, d) && OwnReceiptsOnly(ops, d)
    ensures StartsAuthorised(Run(reg, w, ops).log, d)
    decreases |ops|
  {
    hide Do, StartsAuthorised;
    if ops != [] {
      assert ops[0] in ops;
      OpStaysAuthorised(reg, w, ops[0], d);
      NothingStartsUnauthorised(reg, Do(reg, w, ops[0]), ops[1..], d);
    }
  }

  /** And none runs at all: an act of a dispatch of the intent comes only after its authorisation was stored. */
  lemma NoActWithoutAuthorisation(reg: Registry, w: World, d: Id, s: Surroundings)
    ensures Submit(reg, w, d, s).0.acts != w.acts ==>
        s.court.CourtAllows? && s.courtSink == Stores && Entitled(reg, RequestOf(d, s))
  {
    hide Drive, Step, Entitled;
    if s.court.CourtAllows? && s.courtSink == Stores && !Entitled(reg, RequestOf(d, s)) {
      var next := Persist(w, s.courtSink, Receipt(CourtAuthorized, d)).0;
      UnentitledNeverActs(reg, NewCall(RequestOf(d, s)), next, s.answers);
    }
  }

  lemma {:induction false} UnentitledNeverActs(reg: Registry, c: Call, w: World, answers: Answers)
    requires Vetted(reg, c) && !Entitled(reg, c.request)
    ensures Drive(reg, c, w, answers).1.acts == w.acts
    decreases Rank(c.pc)
  {
    if !c.pc.Finished? {
      hide Step, Entitled, Vetted;
      StepsFinish(reg, c, w, answers(Rank(c.pc)));
      StepStaysVetted(reg, c, w, answers(Rank(c.pc)));
      var (next, after) := Step(reg, c, w, answers(Rank(c.pc)));
      UnentitledNeverActs(reg, next, after, answers);
    }
  }
}
