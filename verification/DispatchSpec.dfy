/** One ingress dispatch: look the intent up in the receipt log, submit it at most once, return its terminal receipt. */
module DispatchSpec {
  import opened Basics
  import opened Execution

  // ----- what the log says about an intent -----

  predicate Terminal(kind: ReceiptKind) {
    kind.CourtDenied? || kind.ExecutionDenied? || ReportsRun(kind)
  }

  /** The terminal receipts of an execution whose handler was entered. */
  predicate ReportsRun(kind: ReceiptKind) {
    kind.ExecutionCompleted? || kind.ExecutionFailed?
  }

  /** A receipt is identified by its place in the log. */
  predicate TerminalAt(log: seq<Receipt>, d: Id, i: nat) {
    i < |log| && log[i].intent == d && Terminal(log[i].kind)
  }

  predicate Logged(log: seq<Receipt>, d: Id, kind: ReceiptKind) {
    Receipt(kind, d) in log
  }

  datatype Resolution = Ambiguous | TerminalReceipt(receipt: nat) | Uncertain | AuthorizedOnly | Unseen

  /** Places of the terminal receipts of an intent, in log order. */
  function Terminals(log: seq<Receipt>, d: Id): (places: seq<nat>)
    ensures forall i: nat :: i in places <==> TerminalAt(log, d, i)
    ensures forall a, b :: 0 <= a < b < |places| ==> places[a] < places[b]
  {
    if log == [] then []
    else
      var last := |log| - 1;
      var earlier := Terminals(log[..last], d);
      assert forall i: nat :: TerminalAt(log, d, i) <==>
          TerminalAt(log[..last], d, i) || (i == last && TerminalAt(log, d, last));
      assert forall a :: 0 <= a < |earlier| ==> earlier[a] in earlier;
      if TerminalAt(log, d, last) then earlier + [last] else earlier
  }

  function Resolve(log: seq<Receipt>, d: Id): Resolution {
    var places := Terminals(log, d);
    if |places| > 1 then Ambiguous
    else if |places| == 1 then TerminalReceipt(places[0])
    else if Logged(log, d, ExecutionStarted) then Uncertain
    else if Logged(log, d, CourtAuthorized) then AuthorizedOnly
    else Unseen
  }

  ghost predicate NoTerminal(log: seq<Receipt>, d: Id) {
    forall i: nat :: !TerminalAt(log, d, i)
  }

  ghost predicate OneTerminalAtMost(log: seq<Receipt>, d: Id) {
    forall i: nat, j: nat :: TerminalAt(log, d, i) && TerminalAt(log, d, j) ==> i == j
  }

  /** What each answer means. */
  lemma ResolutionMeans(log: seq<Receipt>, d: Id)
    ensures Resolve(log, d) == Ambiguous <==> !OneTerminalAtMost(log, d)
    ensures forall i: nat :: Resolve(log, d) == TerminalReceipt(i) <==>
        TerminalAt(log, d, i) && OneTerminalAtMost(log, d)
    ensures Resolve(log, d) == Uncertain <==> NoTerminal(log, d) && Logged(log, d, ExecutionStarted)
    ensures Resolve(log, d) == AuthorizedOnly <==>
        NoTerminal(log, d) && !Logged(log, d, ExecutionStarted) && Logged(log, d, CourtAuthorized)
  {
    var places := Terminals(log, d);
    if |places| > 1 {
      assert places[0] in places && places[1] in places;
    } else if |places| == 1 {
      assert forall i: nat :: TerminalAt(log, d, i) <==> i == places[0];
    } else {
      assert NoTerminal(log, d);
    }
  }

  /** `resolve_intent` over a log whose hash chain verifies. */
  method ResolveIntent(log: seq<Receipt>, d: Id) returns (r: Resolution)
    ensures r == Resolve(log, d)
  {
    var terminals: seq<nat> := [];
    var started, authorized := false, false;
    for i := 0 to |log|
      invariant terminals == Terminals(log[..i], d)
      invariant started <==> Logged(log[..i], d, ExecutionStarted)
      invariant authorized <==> Logged(log[..i], d, CourtAuthorized)
    {
      assert log[..i + 1] == log[..i] + [log[i]] && log[..i + 1][..i] == log[..i];
      if log[i].intent == d {
        if Terminal(log[i].kind) {
          terminals := terminals + [i];
        }
        started := started || log[i].kind == ExecutionStarted;
        authorized := authorized || log[i].kind == CourtAuthorized;
      }
    }
    assert log[..|log|] == log;
    if |terminals| > 1 {
      return Ambiguous;
    }
    if |terminals| == 1 {
      return TerminalReceipt(terminals[0]);
    }
    return if started then Uncertain else if authorized then AuthorizedOnly else Unseen;
  }

  // ----- one dispatch -----

  datatype CourtAnswer = CourtRaises | CourtDenies | CourtAllows(token: Token)

  /** What the surroundings of one dispatch answer. The Court names the intent it was asked about in its token. */
  datatype Surroundings = Surroundings(
    readableBefore: bool, prepares: bool,
    court: CourtAnswer, courtSink: SinkMode,
    call: nat, executor: Id, parameters: Id, now: int, answers: Answers,
    readableAfter: bool)

  function RequestOf(d: Id, s: Surroundings): Request
    requires s.court.CourtAllows?
  {
    Request(s.call, s.court.token.(intent := d), s.executor, s.parameters, s.now)
  }

  /** `RuntimePipeline.submit`: Court, then coordinated execution; whether it returned. */
  function Submit(reg: Registry, w: World, d: Id, s: Surroundings): (World, bool) {
    match s.court
    case CourtRaises => (w, false)
    case CourtDenies => (Persist(w, s.courtSink, Receipt(CourtDenied, d)).0, true)
    case CourtAllows(_) =>
      var (next, stored) := Persist(w, s.courtSink, Receipt(CourtAuthorized, d));
      if !stored then (next, true)
      else
        var (outcome, after) := ExecuteCoordinated(reg, RequestOf(d, s), next, s.answers);
        (after, outcome.Some?)
  }

  datatype Reply = ReceiptId(receipt: nat) | ExecutionUncertain | RaisedElsewhere

  function ReplyTo(r: Resolution): Reply {
    match r
    case TerminalReceipt(i) => ReceiptId(i)
    case Uncertain => ExecutionUncertain
    case _ => RaisedElsewhere
  }

  /** The intent may be submitted: nothing terminal is logged for it, and no start. */
  ghost predicate Open(log: seq<Receipt>, d: Id) {
    NoTerminal(log, d) && !Logged(log, d, ExecutionStarted)
  }

  /** `AudioIngressRuntimeHandler.dispatch` */
  function Dispatch(reg: Registry, w: World, d: Id, s: Surroundings): (World, Reply) {
    if !s.readableBefore then (w, RaisedElsewhere)
    else
      var existing := Resolve(w.log, d);
      if !existing.Unseen? && !existing.AuthorizedOnly? then (w, ReplyTo(existing))
      else if !s.prepares then (w, RaisedElsewhere)
      else
        var (after, returned) := Submit(reg, w, d, s);
        (after, if returned && s.readableAfter then ReplyTo(Resolve(after.log, d)) else RaisedElsewhere)
  }

  lemma OpenResolutions(log: seq<Receipt>, d: Id)
    ensures Open(log, d) <==> Resolve(log, d).Unseen? || Resolve(log, d).AuthorizedOnly?
  {
    ResolutionMeans(log, d);
    assert Resolve(log, d).TerminalReceipt? ==> Resolve(log, d) == TerminalReceipt(Resolve(log, d).receipt);
  }

  // ----- the handler ran exactly when the log says so -----

  function Runs(acts: seq<Act>, d: Id): nat {
    if acts == [] then 0
    else
      var last := acts[|acts| - 1];
      Runs(acts[..|acts| - 1], d) + if last.Ran? && last.intent == d then 1 else 0
  }

  lemma OneMoreAct(acts: seq<Act>, a: Act, d: Id)
    ensures Runs(acts + [a], d) == Runs(acts, d) + if a.Ran? && a.intent == d then 1 else 0
  {
    assert (acts + [a])[..|acts|] == acts;
  }

  /** At most one run and one terminal receipt; a run has its start receipt; the terminal receipt says truly
      whether the handler ran. */
  ghost predicate Truthful(w: World, d: Id) {
    && OneTerminalAtMost(w.log, d)
    && Runs(w.acts, d) <= 1
    && (Runs(w.acts, d) == 1 ==> Logged(w.log, d, ExecutionStarted))
    && (forall i: nat :: TerminalAt(w.log, d, i) ==>
          (ReportsRun(w.log[i].kind) <==> Runs(w.acts, d) == 1))
  }

  lemma OneMoreReceipt(log: seq<Receipt>, r: Receipt, d: Id)
    ensures forall i: nat :: TerminalAt(log + [r], d, i) <==>
        TerminalAt(log, d, i) || (i == |log| && r.intent == d && Terminal(r.kind))
    ensures forall kind :: Logged(log + [r], d, kind) <==> Logged(log, d, kind) || r == Receipt(kind, d)
  {
  }

  /** What holds of an intent while its own submission is at some place. */
  ghost predicate Underway(pc: Pc, w: World, d: Id) {
    match pc
    case AtConsume(_) => NoTerminal(w.log, d) && Logged(w.log, d, ExecutionStarted) && Runs(w.acts, d) == 0
    case AtLateDeny(_, _) => NoTerminal(w.log, d) && Logged(w.log, d, ExecutionStarted) && Runs(w.acts, d) == 0
    case AtHandler(_) => NoTerminal(w.log, d) && Logged(w.log, d, ExecutionStarted) && Runs(w.acts, d) == 0
    case AtFinal(_, kind, _) =>
      && ReportsRun(kind)
      && NoTerminal(w.log, d) && Logged(w.log, d, ExecutionStarted) && Runs(w.acts, d) == 1
    case AtRelease(_) => Truthful(w, d)
    case AtReleasedReceipt(_, _) => Truthful(w, d)
    case Finished(_) => Truthful(w, d)
    case _ => NoTerminal(w.log, d) && Runs(w.acts, d) == 0
  }

  /** A step appends at most one receipt, about its own intent, and at most one act; only its own handler is a run. */
  lemma StepAppends(reg: Registry, c: Call, w: World, ch: Choice)
    ensures var after, d := Step(reg, c, w, ch).1, c.request.token.intent;
            && (after.log == w.log || exists kind :: after.log == w.log + [Receipt(kind, d)])
            && (after.acts == w.acts || exists a :: after.acts == w.acts + [a] && (a.Ran? ==> a.intent == d))
  {
    hide Preflight, BindingError, Acquire, Release, Verifies;
    var after, d, token := Step(reg, c, w, ch).1, c.request.token.intent, c.request.token.tokenId;
    match c.pc
    case AtResourceDenied(_) => assert after.log == w.log || after.log == w.log + [Receipt(ResourceDenied, d)];
    case AtAcquiredReceipt => assert after.log == w.log || after.log == w.log + [Receipt(ResourceAcquired, d)];
    case AtDeny(_, _) => assert after.log == w.log || after.log == w.log + [Receipt(ExecutionDenied, d)];
    case AtLateDeny(_, _) => assert after.log == w.log || after.log == w.log + [Receipt(ExecutionDenied, d)];
    case AtStart(_) =>
      assert after.log == w.log || after.log == w.log + [Receipt(ExecutionStarted, d)];
      assert after.acts == w.acts || after.acts == w.acts + [Started(c.request.id, token)];
    case AtConsume(_) => assert after.acts == w.acts || after.acts == w.acts + [Consumed(c.request.id, token)];
    case AtHandler(_) => assert after.acts == w.acts + [Ran(c.request.id, token, d)];
    case AtFinal(_, kind, _) => assert after.log == w.log || after.log == w.log + [Receipt(kind, d)];
    case AtReleasedReceipt(_, released) =>
      assert after.log == w.log
          || after.log == w.log + [Receipt(if released then ResourceReleased else ResourceReleaseFailed, d)];
    case AtAcquire => AcquireAndReleaseLeaveTheRest(w, token, ResourcesOf(reg, c.request));
    case AtQuietRelease => AcquireAndReleaseLeaveTheRest(w, token, {});
    case AtRelease(_) => AcquireAndReleaseLeaveTheRest(w, token, {});
    case _ =>
  }

  lemma AcquireAndReleaseLeaveTheRest(w: World, owner: Id, wanted: set<Id>)
    ensures Acquire(w, owner, wanted).0.log == Release(w, owner).0.log == w.log
    ensures Acquire(w, owner, wanted).0.acts == Release(w, owner).0.acts == w.acts
  {
  }

  /** A terminal receipt that says truly whether the handler ran closes an intent. */
  lemma ClosingReceipt(w: World, r: Receipt, d: Id)
    requires NoTerminal(w.log, d) && r.intent == d && Runs(w.acts, d) <= 1
    requires Runs(w.acts, d) == 1 ==> Logged(w.log, d, ExecutionStarted)
    ensures Truthful(w, d)
    ensures !Terminal(r.kind) || (ReportsRun(r.kind) <==> Runs(w.acts, d) == 1) ==>
        Truthful(w.(log := w.log + [r]), d)
    ensures !Terminal(r.kind) ==> NoTerminal(w.log + [r], d)
    ensures Logged(w.log + [r], d, ExecutionStarted) <==>
        Logged(w.log, d, ExecutionStarted) || r.kind == ExecutionStarted
  {
    OneMoreReceipt(w.log, r, d);
  }

  lemma QuietReceipt(w: World, r: Receipt, d: Id)
    requires !Terminal(r.kind) && Truthful(w, d)
    ensures Truthful(w.(log := w.log + [r]), d)
  {
    OneMoreReceipt(w.log, r, d);
  }

  predicate Claimed(pc: Pc) {
    pc.AtConsume? || pc.AtLateDeny? || pc.AtHandler? || pc.AtFinal? || pc.AtRelease? || pc.AtReleasedReceipt?
        || pc.Finished?
  }

  /** Up to the safety gate. */
  lemma EarlyStepUnderway(reg: Registry, c: Call, w: World, ch: Choice)
    requires !Claimed(c.pc) && !c.pc.AtStart? && Underway(c.pc, w, c.request.token.intent)
    ensures var (next, after) := Step(reg, c, w, ch); Underway(next.pc, after, c.request.token.intent)
  {
    hide Preflight, BindingError, Verifies, Truthful, NoTerminal, Logged, Runs, Acquire, Release;
    var d, token := c.request.token.intent, c.request.token.tokenId;
    ClosingReceipt(w, Receipt(ResourceDenied, d), d);
    ClosingReceipt(w, Receipt(ResourceAcquired, d), d);
    ClosingReceipt(w, Receipt(ExecutionDenied, d), d);
    AcquireAndReleaseLeaveTheRest(w, token, ResourcesOf(reg, c.request));
    SameTruth(w, Release(w, token).0, d);
  }

  lemma StartStepUnderway(reg: Registry, c: Call, w: World, ch: Choice)
    requires c.pc.AtStart? && Underway(c.pc, w, c.request.token.intent)
    ensures var (next, after) := Step(reg, c, w, ch); Underway(next.pc, after, c.request.token.intent)
  {
    hide Truthful, NoTerminal, Logged, Runs;
    var d := c.request.token.intent;
    ClosingReceipt(w, Receipt(ExecutionStarted, d), d);
    OneMoreAct(w.acts, Started(c.request.id, c.request.token.tokenId), d);
  }

  /** Consumption and handler. */
  lemma ClaimedStepUnderway(reg: Registry, c: Call, w: World, ch: Choice)
    requires (c.pc.AtConsume? || c.pc.AtHandler?) && Underway(c.pc, w, c.request.token.intent)
    ensures var (next, after) := Step(reg, c, w, ch); Underway(next.pc, after, c.request.token.intent)
  {
    hide Truthful, NoTerminal, Logged, Runs;
    var d, token := c.request.token.intent, c.request.token.tokenId;
    OneMoreAct(w.acts, Consumed(c.request.id, token), d);
    OneMoreAct(w.acts, Ran(c.request.id, token, d), d);
  }

  /** The receipt that closes the execution. */
  lemma ClosingStepUnderway(reg: Registry, c: Call, w: World, ch: Choice)
    requires (c.pc.AtLateDeny? || c.pc.AtFinal?) && Underway(c.pc, w, c.request.token.intent)
    ensures var (next, after) := Step(reg, c, w, ch); Underway(next.pc, after, c.request.token.intent)
  {
    hide Truthful, NoTerminal, Logged, Runs;
    var d := c.request.token.intent;
    ClosingReceipt(w, Receipt(if c.pc.AtFinal? then c.pc.kind else ExecutionDenied, d), d);
  }

  /** The cleanup lane. */
  lemma CleanupStepUnderway(reg: Registry, c: Call, w: World, ch: Choice)
    requires (c.pc.AtRelease? || c.pc.AtReleasedReceipt? || c.pc.Finished?) && Underway(c.pc, w, c.request.token.intent)
    ensures var (next, after) := Step(reg, c, w, ch); Underway(next.pc, after, c.request.token.intent)
  {
    hide Truthful, Release;
    var d, token := c.request.token.intent, c.request.token.tokenId;
    AcquireAndReleaseLeaveTheRest(w, token, {});
    SameTruth(w, Release(w, token).0, d);
    QuietReceipt(w, Receipt(ResourceReleased, d), d);
    QuietReceipt(w, Receipt(ResourceReleaseFailed, d), d);
  }

  lemma StepUnderway(reg: Registry, c: Call, w: World, ch: Choice)
    requires Underway(c.pc, w, c.request.token.intent)
    ensures var (next, after) := Step(reg, c, w, ch);
            next.request == c.request && Underway(next.pc, after, c.request.token.intent)
  {
    hide Step, Underway;
    StepKeepsRequest(reg, c, w, ch);
    if c.pc.AtStart? {
      StartStepUnderway(reg, c, w, ch);
    } else if c.pc.AtConsume? || c.pc.AtHandler? {
      ClaimedStepUnderway(reg, c, w, ch);
    } else if c.pc.AtLateDeny? || c.pc.AtFinal? {
      ClosingStepUnderway(reg, c, w, ch);
    } else if Claimed(c.pc) {
      CleanupStepUnderway(reg, c, w, ch);
    } else {
      EarlyStepUnderway(reg, c, w, ch);
    }
  }

  lemma SameTruth(w: World, after: World, d: Id)
    requires after.log == w.log && after.acts == w.acts
    ensures Truthful(after, d) <==> Truthful(w, d)
  {
  }

  lemma {:induction false} DriveUnderway(reg: Registry, c: Call, w: World, answers: Answers)
    requires Underway(c.pc, w, c.request.token.intent)
    ensures Truthful(Drive(reg, c, w, answers).1, c.request.token.intent)
    decreases Rank(c.pc)
  {
    hide Step;
    if !c.pc.Finished? {
      var choice := answers(Rank(c.pc));
      StepUnderway(reg, c, w, choice);
      StepsFinish(reg, c, w, choice);
      var (next, after) := Step(reg, c, w, choice);
      DriveUnderway(reg, next, after, answers);
    }
  }

  /** Seen by another intent, nothing happened. */
  ghost predicate Unaffected(w: World, after: World, e: Id) {
    && |w.log| <= |after.log|
    && w.log == after.log[..|w.log|]
    && (forall i :: |w.log| <= i < |after.log| ==> after.log[i].intent != e)
    && Runs(after.acts, e) == Runs(w.acts, e)
  }

  lemma UnaffectedReads(w: World, after: World, e: Id)
    requires Unaffected(w, after, e)
    ensures forall i: nat :: TerminalAt(after.log, e, i) <==> TerminalAt(w.log, e, i)
    ensures forall kind :: Logged(after.log, e, kind) <==> Logged(w.log, e, kind)
    ensures Resolve(after.log, e) == Resolve(w.log, e)
    ensures Truthful(w, e) ==> Truthful(after, e)
  {
    assert forall i :: 0 <= i < |w.log| ==> after.log[i] == w.log[i];
    forall kind
      ensures Logged(after.log, e, kind) <==> Logged(w.log, e, kind)
    {
      if Logged(after.log, e, kind) {
        var i :| 0 <= i < |after.log| && after.log[i] == Receipt(kind, e);
        assert w.log[i] == Receipt(kind, e);
      }
      if Logged(w.log, e, kind) {
        var i :| 0 <= i < |w.log| && w.log[i] == Receipt(kind, e);
        assert after.log[i] == Receipt(kind, e);
      }
    }
    SameResolution(w.log, after.log, e);
  }

  lemma SameResolution(a: seq<Receipt>, b: seq<Receipt>, e: Id)
    requires forall i: nat :: TerminalAt(a, e, i) <==> TerminalAt(b, e, i)
    requires forall kind :: Logged(a, e, kind) <==> Logged(b, e, kind)
    ensures Resolve(a, e) == Resolve(b, e)
  {
    ResolutionMeans(a, e);
    ResolutionMeans(b, e);
    if |Terminals(a, e)| == 1 {
      assert Resolve(a, e) == TerminalReceipt(Terminals(a, e)[0]);
    }
    if |Terminals(b, e)| == 1 {
      assert Resolve(b, e) == TerminalReceipt(Terminals(b, e)[0]);
    }
  }

  lemma UnaffectedChains(a: World, b: World, c: World, e: Id)
    requires Unaffected(a, b, e) && Unaffected(b, c, e)
    ensures Unaffected(a, c, e)
  {
  }

  lemma {:induction false} DriveUnaffected(reg: Registry, c: Call, w: World, answers: Answers, e: Id)
    requires c.request.token.intent != e
    ensures Unaffected(w, Drive(reg, c, w, answers).1, e)
    decreases Rank(c.pc)
  {
    hide Step;
    if !c.pc.Finished? {
      var choice := answers(Rank(c.pc));
      var (next, after) := Step(reg, c, w, choice);
      StepsFinish(reg, c, w, choice);
      StepKeepsRequest(reg, c, w, choice);
      StepAppends(reg, c, w, choice);
      if after.acts != w.acts {
        var a :| after.acts == w.acts + [a] && (a.Ran? ==> a.intent != e);
        OneMoreAct(w.acts, a, e);
      }
      DriveUnaffected(reg, next, after, answers, e);
      UnaffectedChains(w, after, Drive(reg, next, after, answers).1, e);
    }
  }

  /** A submission of an open intent leaves it told truly, and says nothing about any other intent. */
  lemma SubmitTellsTheTruth(reg: Registry, w: World, d: Id, s: Surroundings)
    requires Open(w.log, d) && Truthful(w, d)
    ensures Truthful(Submit(reg, w, d, s).0, d)
  {
    hide Drive, Step;
    OneMoreReceipt(w.log, Receipt(CourtDenied, d), d);
    OneMoreReceipt(w.log, Receipt(CourtAuthorized, d), d);
    if s.court.CourtAllows? {
      var next := Persist(w, s.courtSink, Receipt(CourtAuthorized, d)).0;
      DriveUnderway(reg, NewCall(RequestOf(d, s)), next, s.answers);
    }
  }

  lemma SubmitUnaffected(reg: Registry, w: World, d: Id, s: Surroundings, e: Id)
    requires d != e
    ensures Unaffected(w, Submit(reg, w, d, s).0, e)
  {
    hide Drive, Step;
    if s.court.CourtAllows? {
      var next := Persist(w, s.courtSink, Receipt(CourtAuthorized, d)).0;
      DriveUnaffected(reg, NewCall(RequestOf(d, s)), next, s.answers, e);
      UnaffectedChains(w, next, Submit(reg, w, d, s).0, e);
    }
  }

  // ----- runs -----

  /** A dispatch of some intent, or anything the rest of the runtime does: receipts, consumed tokens, resources. */
  datatype Op =
    | DispatchOf(intent: Id, surroundings: Surroundings)
    | Elsewhere(receipts: seq<Receipt>, consumed: set<Id>, owners: map<Id, Id>, leases: map<Id, set<Id>>)

  function Do(reg: Registry, w: World, op: Op): World {
    match op
    case DispatchOf(d, s) => Dispatch(reg, w, d, s).0
    case Elsewhere(receipts, consumed, owners, leases) =>
      World(w.log + receipts, w.consumed + consumed, owners, leases, w.acts)
  }

  function Run(reg: Registry, w: World, ops: seq<Op>): World
    decreases |ops|
  {
    if ops == [] then w else Run(reg, Do(reg, w, ops[0]), ops[1..])
  }

  /** Receipts about `d` come only from its own dispatches. */
  ghost predicate OwnReceiptsOnly(ops: seq<Op>, d: Id) {
    forall op :: op in ops && op.Elsewhere? ==> forall r :: r in op.receipts ==> r.intent != d
  }

  lemma OpTellsTheTruth(reg: Registry, w: World, op: Op, d: Id)
    requires Truthful(w, d) && OwnReceiptsOnly([op], d)
    ensures Truthful(Do(reg, w, op), d)
    ensures !Open(w.log, d) ==> Unaffected(w, Do(reg, w, op), d)
  {
    hide Submit, Resolve, Truthful;
    assert op in [op];
    if op.Elsewhere? {
      assert Unaffected(w, Do(reg, w, op), d);
      UnaffectedReads(w, Do(reg, w, op), d);
    } else {
      OpenResolutions(w.log, op.intent);
      if op.intent == d {
        if Open(w.log, d) {
          SubmitTellsTheTruth(reg, w, d, op.surroundings);
        }
      } else {
        SubmitUnaffected(reg, w, op.intent, op.surroundings, d);
        UnaffectedReads(w, Submit(reg, w, op.intent, op.surroundings).0, d);
      }
    }
  }

  /** Over any sequence of dispatches, whatever the Court, the sinks, the ledger, the gates and the handler answer:
      the handler of an intent runs at most once, the log never holds two terminal receipts for it, and the terminal
      receipt says COMPLETED or FAILED exactly when the handler ran. */
  lemma {:induction false} EveryRunIsTruthful(reg: Registry, w: World, ops: seq<Op>, d: Id)
    requires Truthful(w, d) && OwnReceiptsOnly(ops, d)
    ensures Truthful(Run(reg, w, ops), d)
    decreases |ops|
  {
    hide Dispatch, Truthful;
    if ops != [] {
      assert ops[0] in ops;
      OpTellsTheTruth(reg, w, ops[0], d);
      EveryRunIsTruthful(reg, Do(reg, w, ops[0]), ops[1..], d);
    }
  }

  /** Once a terminal or a start receipt is logged for an intent, nothing about it changes any more. */
  lemma {:induction false} SettledStaysSettled(reg: Registry, w: World, ops: seq<Op>, d: Id)
    requires Truthful(w, d) && OwnReceiptsOnly(ops, d) && !Open(w.log, d)
    ensures Unaffected(w, Run(reg, w, ops), d)
    decreases |ops|
  {
    hide Dispatch, Truthful;
    if ops == [] {
      assert w.log[..|w.log|] == w.log;
    } else {
      assert ops[0] in ops;
      var next := Do(reg, w, ops[0]);
      OpTellsTheTruth(reg, w, ops[0], d);
      UnaffectedReads(w, next, d);
      assert !Open(next.log, d);
      SettledStaysSettled(reg, next, ops[1..], d);
      UnaffectedChains(w, next, Run(reg, w, ops), d);
    }
  }

  /** Every dispatch after a terminal receipt returns that same receipt, submits nothing and changes nothing. */
  lemma TerminalReceiptIsReturnedForever(reg: Registry, w: World, ops: seq<Op>, d: Id, i: nat, s: Surroundings)
    requires Truthful(w, d) && OwnReceiptsOnly(ops, d) && TerminalAt(w.log, d, i)
    ensures var later := Run(reg, w, ops);
            Dispatch(reg, later, d, s) == (later, if s.readableBefore then ReceiptId(i) else RaisedElsewhere)
  {
    hide Submit, Run;
    SettledStaysSettled(reg, w, ops, d);
    UnaffectedReads(w, Run(reg, w, ops), d);
    ResolutionMeans(w.log, d);
  }

  /** A start without a terminal receipt is never retried: every later dispatch reports the uncertainty. */
  lemma UncertainExecutionIsNeverRetried(reg: Registry, w: World, ops: seq<Op>, d: Id, s: Surroundings)
    requires Truthful(w, d) && OwnReceiptsOnly(ops, d)
    requires NoTerminal(w.log, d) && Logged(w.log, d, ExecutionStarted)
    ensures var later := Run(reg, w, ops);
            Dispatch(reg, later, d, s) == (later, if s.readableBefore then ExecutionUncertain else RaisedElsewhere)
  {
    hide Submit, Run;
    SettledStaysSettled(reg, w, ops, d);
    UnaffectedReads(w, Run(reg, w, ops), d);
    ResolutionMeans(w.log, d);
  }

  /** A receipt id comes back exactly when the log then holds a terminal receipt and could be read; it is that one's. */
  lemma ReturnedIdsAreTerminalReceipts(reg: Registry, w: World, d: Id, s: Surroundings)
    requires Truthful(w, d)
    ensures var (after, reply) := Dispatch(reg, w, d, s);
            && (reply.ReceiptId? ==> TerminalAt(after.log, d, reply.receipt))
            && (reply == ExecutionUncertain ==> NoTerminal(after.log, d) && Logged(after.log, d, ExecutionStarted))
            && (forall i: nat ::
                  && TerminalAt(after.log, d, i) && s.readableBefore && s.readableAfter
                  && (after == w || Submit(reg, w, d, s).1)
                  ==> reply == ReceiptId(i))
  {
    hide Submit;
    var (after, reply) := Dispatch(reg, w, d, s);
    ResolutionMeans(w.log, d);
    ResolutionMeans(after.log, d);
    OpenResolutions(w.log, d);
    if Open(w.log, d) {
      SubmitTellsTheTruth(reg, w, d, s);
    }
  }

  /** A log that does not mention the intent is where every dispatch history starts. */
  lemma UnmentionedIsTruthful(w: World, d: Id)
    requires forall r :: r in w.log ==> r.intent != d
    requires forall a :: a in w.acts ==> !(a.Ran? && a.intent == d)
    ensures Truthful(w, d) && Open(w.log, d)
  {
    NoRuns(w.acts, d);
  }

  lemma {:induction false} NoRuns(acts: seq<Act>, d: Id)
    requires forall a :: a in acts ==> !(a.Ran? && a.intent == d)
    ensures Runs(acts, d) == 0
  {
    if acts != [] {
      assert acts[|acts| - 1] in acts;
      NoRuns(acts[..|acts| - 1], d);
    }
  }
}
