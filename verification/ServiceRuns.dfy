/** Who holds accepted work, and who may complete it. */
module ServiceRuns {
  import opened Basics
  import opened Placement
  import opened BoardSpec
  import opened BoardLaws
  import opened BoardRuns
  import opened ServiceSpec
  import opened ServiceLaws

  // ----- acceptance -----

  /** The node named by the latest receipted acceptance of the work. */
  ghost function LastAcceptor(events: seq<Event>, work: Id): Option<Id>
    decreases |events|
  {
    if events == [] then None
    else
      var last := events[|events| - 1];
      if last.kind == WorkAccepted && last.subject == work then last.node
      else LastAcceptor(events[..|events| - 1], work)
  }

  ghost predicate HeldByAcceptor(s: State, w: Id) {
    w in s.accepted && w in s.board.leases ==>
      LastAcceptor(s.journal.receipted, w) == Some(s.board.leases[w].nodeId)
  }

  /** Work that is both accepted and leased is held by the node that accepted it. */
  ghost predicate AcceptedByHolder(s: State) {
    forall w :: w in s.accepted ==> HeldByAcceptor(s, w)
  }

  /** What the run theorems carry from call to call. */
  ghost predicate Good(s: State) {
    Owned(s) && AcceptedByHolder(s)
  }

  // ----- single emissions -----

  lemma AcceptorAfter(events: seq<Event>, e: Event, w: Id)
    ensures LastAcceptor(events + [e], w) ==
        if e.kind == WorkAccepted && e.subject == w then e.node else LastAcceptor(events, w)
  {
    assert (events + [e])[..|events + [e]| - 1] == events;
  }

  /** Only a receipted acceptance changes who accepted last, and only that work's. */
  lemma EmitAndAcceptors(env: Env, s: State, e: Event, w: Id)
    ensures e.kind != WorkAccepted || e.subject != w || Emit(env, s, e).1.Raised? ==>
        LastAcceptor(Emit(env, s, e).0.journal.receipted, w) == LastAcceptor(s.journal.receipted, w)
    ensures e.kind == WorkAccepted && e.subject == w && Emit(env, s, e).1.Returned? ==>
        LastAcceptor(Emit(env, s, e).0.journal.receipted, w) == e.node
  {
    AcceptorAfter(s.journal.receipted, e, w);
  }

  /** Any event but an acceptance keeps the acceptance property. */
  lemma EmitKeepsAcceptance(env: Env, s: State, e: Event)
    requires AcceptedByHolder(s) && e.kind != WorkAccepted
    ensures AcceptedByHolder(Emit(env, s, e).0)
  {
    hide Answered;
    var next := Emit(env, s, e).0;
    forall w | w in next.accepted ensures HeldByAcceptor(next, w) {
      assert HeldByAcceptor(s, w);
      EmitAndAcceptors(env, s, e, w);
    }
  }

  // ----- submit -----

  lemma OfferKeepsAcceptance(env: Env, s: State, lease: Lease)
    requires AcceptedByHolder(s)
    ensures AcceptedByHolder(MakeOffer(env, s, lease).0)
  {
    hide Answered, AcceptedByHolder;
    EmitKeepsAcceptance(env, s, LeaseEvent(WorkOffered, lease));
    var s1 := Emit(env, s, LeaseEvent(WorkOffered, lease)).0;
    RollbackKeepsAcceptance(s1, lease.workId, lease.nodeId);
    EmitKeepsAcceptance(env, s1, NodeEvent(WorkDegraded, lease));
    RollbackKeepsAcceptance(Emit(env, s1, NodeEvent(WorkDegraded, lease)).0, lease.workId, lease.nodeId);
  }

  lemma RollbackKeepsAcceptance(s: State, work: Id, node: Id)
    requires AcceptedByHolder(s)
    ensures AcceptedByHolder(RolledBack(s, work, node))
  {
    forall w | w in s.accepted ensures HeldByAcceptor(RolledBack(s, work, node), w) { assert HeldByAcceptor(s, w); }
  }

  lemma SubmitKeepsGood(env: Env, s: State, p: Proposal, now: real, leaseSeconds: real)
    requires Good(s)
    ensures Good(Submit(env, s, p, now, leaseSeconds).0)
  {
    hide Consistent, Answered, MakeOffer, BoardSpec.Place;
    SubmitKeepsOwned(env, s, p, now, leaseSeconds);
    var work := p.requirement.workId;
    if now >= 0.0 && work !in s.proposals {
      PlaceMoves(s.board, p.requirement, now, leaseSeconds);
      var (board, o) := BoardSpec.Place(s.board, p.requirement, now, leaseSeconds, {});
      var placed := s.(board := board);
      PlacedKeepsAcceptance(s, board, work);
      if o.Returned? {
        if o.value.lease.Some? {
          var offering := placed.(proposals := placed.proposals[work := p]);
          assert AcceptedByHolder(offering) by {
            forall w | w in offering.accepted ensures HeldByAcceptor(offering, w) { assert HeldByAcceptor(placed, w); }
          }
          OfferKeepsAcceptance(env, offering, o.value.lease.value);
        } else {
          EmitKeepsAcceptance(env, placed, LostEvent(work));
        }
      }
    }
  }

  /** A board change that leaves every accepted work's lease alone, or drops it, keeps the acceptance property. */
  lemma PlacedKeepsAcceptance(s: State, board: Board, work: Id)
    requires AcceptedByHolder(s) && work !in s.accepted
    requires forall w :: w in board.leases && w != work ==> w in s.board.leases && board.leases[w] == s.board.leases[w]
    ensures AcceptedByHolder(s.(board := board))
  {
    forall w | w in s.accepted ensures HeldByAcceptor(s.(board := board), w) { assert HeldByAcceptor(s, w); }
  }

  // ----- accept -----

  lemma AcceptKeepsGood(env: Env, s: State, work: Id, node: Id)
    requires Good(s)
    ensures Good(Accept(env, s, work, node).0)
    ensures Accept(env, s, work, node).1.Returned? ==>
        LastAcceptor(Accept(env, s, work, node).0.journal.receipted, work) == Some(node)
  {
    hide Answered, Consistent;
    AcceptKeepsOwned(env, s, work, node);
    if OwnershipError(s, work, node).None? {
      OwnedBoard(s);
      ConsistentLease(s.board, work);
      var e := LeaseEvent(WorkAccepted, s.board.leases[work]);
      var next := Accept(env, s, work, node).0;
      forall w | w in next.accepted ensures HeldByAcceptor(next, w) {
        assert w in s.accepted ==> HeldByAcceptor(s, w);
        EmitAndAcceptors(env, s, e, w);
      }
      EmitAndAcceptors(env, s, e, work);
    }
  }

  // ----- refuse -----

  lemma ReofferKeepsGood(env: Env, s: State, work: Id, node: Id, reason: string, now: real, leaseSeconds: real,
                         told: seq<nat>)
    requires Good(s) && work in s.board.leases && s.board.leases[work].nodeId == node && reason != ""
    ensures Good(Reoffer(env, s, work, node, reason, now, leaseSeconds, told).0)
  {
    hide Answered, Consistent, BoardSpec.Refuse;
    ReofferKeepsOwned(env, s, work, node, reason, now, leaseSeconds, told);
    RefuseMoves(s.board, work, node, reason, now, leaseSeconds);
    var (board, o) := BoardSpec.Refuse(s.board, work, node, reason, now, leaseSeconds);
    var next := Reoffer(env, s, work, node, reason, now, leaseSeconds, told).0;
    if o.Raised? {
      forall w | w in next.accepted ensures HeldByAcceptor(next, w) { assert HeldByAcceptor(s, w); }
    } else {
      var moved := s.(board := board, accepted := s.accepted - {work});
      forall w | w in moved.accepted ensures HeldByAcceptor(moved, w) { assert HeldByAcceptor(s, w); }
      var e := if o.value.lease.None? then LostEvent(work) else LeaseEvent(WorkOffered, o.value.lease.value);
      EmitKeepsAcceptance(env, moved, e);
    }
  }

  lemma TellKeepsGood(env: Env, s: State, kind: EventKind, lease: Lease)
    requires Good(s) && kind in {WorkRefused, HandoffRequested}
    ensures Good(Emit(env, s, NodeEvent(kind, lease)).0)
    ensures Emit(env, s, NodeEvent(kind, lease)).0.board == s.board
  {
    hide Answered, Consistent;
    EmitKeepsOwned(env, s, NodeEvent(kind, lease));
    EmitKeepsAcceptance(env, s, NodeEvent(kind, lease));
  }

  lemma RefuseKeepsGood(env: Env, s: State, work: Id, node: Id, reason: string, now: real, leaseSeconds: real)
    requires Good(s)
    ensures Good(ServiceSpec.Refuse(env, s, work, node, reason, now, leaseSeconds).0)
  {
    hide Consistent, Reoffer, Good, Emit;
    if reason != "" && OwnershipError(s, work, node).None? {
      var lease := s.board.leases[work];
      LeaseOfGood(s, work);
      TellKeepsGood(env, s, WorkRefused, lease);
      var (s1, refused) := Emit(env, s, NodeEvent(WorkRefused, lease));
      TellKeepsGood(env, s1, HandoffRequested, lease);
      var (s2, handoff) := Emit(env, s1, NodeEvent(HandoffRequested, lease));
      if refused.Returned? && handoff.Returned? {
        ReofferKeepsGood(env, s2, work, node, reason, now, leaseSeconds, [refused.value, handoff.value]);
      }
    }
  }

  lemma LeaseOfGood(s: State, work: Id)
    requires Good(s) && work in s.board.leases
    ensures s.board.leases[work].workId == work && work in s.proposals
  {
    assert LeaseSound(s.board, work);
  }

  // ----- complete -----

  lemma CompletionKeepsGood(env: Env, s: State, result: WorkResult)
    requires Good(s) && result.work in s.board.leases
    ensures var lease := s.board.leases[result.work];
            var next := Completion(env, s, result, lease).0;
            Good(next) && next == s.(journal := next.journal, pending := next.pending)
  {
    hide Answered, Consistent;
    LeaseOfGood(s, result.work);
    var lease := s.board.leases[result.work];
    CompletionKeepsOwned(env, s, result, lease);
    var e := LeaseEvent(WorkCompleted, lease);
    var next := Completion(env, s, result, lease).0;
    if result.work !in s.pending {
      EmitKeepsAcceptance(env, s, e);
      var emitted := Emit(env, s, e).0;
      forall w | w in next.accepted ensures HeldByAcceptor(next, w) { assert HeldByAcceptor(emitted, w); }
    }
  }

  lemma CloseKeepsGood(s: State, result: WorkResult, lease: Lease, receipt: nat, escalated: bool)
    requires AcceptedByHolder(s)
    ensures AcceptedByHolder(Close(s, result, lease, receipt, escalated).0)
  {
    var next := Close(s, result, lease, receipt, escalated).0;
    forall w | w in next.accepted ensures HeldByAcceptor(next, w) { assert HeldByAcceptor(s, w); }
  }

  lemma CompleteKeepsGood(env: Env, s: State, result: WorkResult)
    requires Good(s)
    ensures Good(ServiceSpec.Complete(env, s, result).0)
  {
    hide Completion, Close, Owned;
    CompleteKeepsOwned(env, s, result);
    if OwnershipError(s, result.work, result.node).None? && result.work in s.accepted {
      var lease := s.board.leases[result.work];
      CompletionKeepsGood(env, s, result);
      var (s1, receipt) := Completion(env, s, result, lease);
      if receipt.Returned? {
        var (s2, escalated) := Escalate(env, s1, result, receipt.value);
        forall w | w in s2.accepted ensures HeldByAcceptor(s2, w) { assert HeldByAcceptor(s1, w); }
        if escalated.Returned? {
          CloseKeepsGood(s2, result, lease, receipt.value, escalated.value);
        }
      }
    }
  }

  /** Only the node that itself accepted the work can complete it. */
  lemma OnlyTheAcceptorCompletes(env: Env, s: State, result: WorkResult)
    requires AcceptedByHolder(s)
    ensures ServiceSpec.Complete(env, s, result).1.Returned? ==>
        LastAcceptor(s.journal.receipted, result.work) == Some(result.node)
  {
    if ServiceSpec.Complete(env, s, result).1.Returned? {
      assert HeldByAcceptor(s, result.work);
    }
  }

  // ----- recover -----

  /** Where a recovery's reports stand: these works are still to be withdrawn. */
  ghost predicate Reporting(s: State, works: seq<Id>) {
    forall w :: w in s.accepted && w !in works ==> HeldByAcceptor(s, w)
  }

  /** A decision that is reported without an exception is reported for the work it was made for. */
  lemma ReportNamesTheWork(d: Decision, prior: map<Id, Lease>, work: Id)
    requires work in prior && OnlyBlames(d, prior[work].nodeId)
    requires d.lease.Some? ==> d.lease.value.workId == work
    ensures RecoveredWork(d, prior).Some? ==> RecoveredWork(d, prior).value == work
  {
    if d.lease.None? && |Suspects(d, prior)| == 1 {
      var found :| RecoveredWork(d, prior) == Some(found) && found in Suspects(d, prior);
      assert work in Suspects(d, prior);
      if found != work {
        SubsetSize({found, work}, Suspects(d, prior));
      }
    }
  }

  lemma ReportOneAdvances(env: Env, s: State, d: Decision, prior: map<Id, Lease>, works: seq<Id>)
    requires works != [] && Reporting(s, works)
    requires works[0] in prior && OnlyBlames(d, prior[works[0]].nodeId)
    requires d.lease.Some? <==> works[0] in s.board.leases
    requires d.lease.Some? ==> d.lease.value == s.board.leases[works[0]] && d.lease.value.workId == works[0]
    requires ReportOne(env, s, d, prior).1.Returned?
    ensures Reporting(ReportOne(env, s, d, prior).0, works[1..])
    ensures ReportOne(env, s, d, prior).0.board == s.board
  {
    hide Answered, RecoveredWork;
    var work := works[0];
    ReportNamesTheWork(d, prior, work);
    var withdrawn := s.(accepted := s.accepted - {work});
    var e := if d.lease.Some? then LeaseEvent(RecoveryReassigned, d.lease.value) else LostEvent(work);
    var next := ReportOne(env, s, d, prior).0;
    assert next == Emit(env, withdrawn, e).0;
    forall w | w in next.accepted && w !in works[1..] ensures HeldByAcceptor(next, w) {
      assert w !in works;
      assert HeldByAcceptor(s, w);
      EmitAndAcceptors(env, withdrawn, e, w);
    }
  }

  /** The decisions of a finished sweep, as the report loop needs them. */
  ghost predicate Reportable(board: Board, prior: map<Id, Lease>, works: seq<Id>, ds: seq<Decision>) {
    && |ds| == |works|
    && forall i :: 0 <= i < |works| ==> DecidedFor(board, prior, works[i], ds[i])
  }

  ghost predicate DecidedFor(board: Board, prior: map<Id, Lease>, work: Id, d: Decision) {
    && work in prior && OnlyBlames(d, prior[work].nodeId)
    && (d.lease.Some? <==> work in board.leases)
    && (d.lease.Some? ==> d.lease.value == board.leases[work] && d.lease.value.workId == work)
  }

  lemma {:induction false} ReportFinishes(env: Env, s: State, ds: seq<Decision>, prior: map<Id, Lease>, works: seq<Id>)
    requires Reporting(s, works) && Reportable(s.board, prior, works, ds)
    ensures Report(env, s, ds, prior).1.Returned? ==> Reporting(Report(env, s, ds, prior).0, [])
    decreases |ds|
  {
    hide ReportOne, Reporting, DecidedFor;
    if ds == [] {
      assert works == [];
    } else {
      assert DecidedFor(s.board, prior, works[0], ds[0]);
      var (next, o) := ReportOne(env, s, ds[0], prior);
      if o.Returned? {
        StepReport(env, s, ds[0], prior, works);
        forall i | 0 <= i < |works[1..]| ensures DecidedFor(next.board, prior, works[1..][i], ds[1..][i]) {
          assert DecidedFor(s.board, prior, works[i + 1], ds[i + 1]);
        }
        ReportFinishes(env, next, ds[1..], prior, works[1..]);
      }
    }
  }

  lemma StepReport(env: Env, s: State, d: Decision, prior: map<Id, Lease>, works: seq<Id>)
    requires works != [] && Reporting(s, works) && DecidedFor(s.board, prior, works[0], d)
    requires ReportOne(env, s, d, prior).1.Returned?
    ensures Reporting(ReportOne(env, s, d, prior).0, works[1..])
    ensures ReportOne(env, s, d, prior).0.board == s.board
  {
    hide ReportOne, Reporting;
    ReportOneAdvances(env, s, d, prior, works);
  }

  lemma SweepIsReportable(b: Board, now: real, maxAge: real, leaseSeconds: real)
    requires Consistent(b)
    ensures var (end, o) := BoardSpec.Recover(b, now, maxAge, leaseSeconds);
            o.Returned? ==>
              && Reportable(end, b.leases, AffectedWorks(b, now, maxAge), o.value)
              && forall w :: w in end.leases && w !in AffectedWorks(b, now, maxAge) ==>
                  w in b.leases && end.leases[w] == b.leases[w]
  {
    hide Consistent, BoardSpec.Recover, AffectedWorks;
    RecoveryClearsFailedNodes(b, now, maxAge, leaseSeconds);
    var (end, o) := BoardSpec.Recover(b, now, maxAge, leaseSeconds);
    var works, swept := AffectedWorks(b, now, maxAge), Swept(b, now, maxAge);
    if o.Returned? {
      forall i | 0 <= i < |works| ensures DecidedFor(end, b.leases, works[i], o.value[i]) {
        assert Settles(swept, end, works[i], o.value[i], Failed(b.nodes, now, maxAge));
        if works[i] in end.leases { ConsistentLease(end, works[i]); }
      }
    }
  }

  lemma RecoverKeepsGood(env: Env, s: State, now: real, maxAge: real, leaseSeconds: real)
    requires Good(s) && ServiceSpec.Recover(env, s, now, maxAge, leaseSeconds).1.Returned?
    ensures Good(ServiceSpec.Recover(env, s, now, maxAge, leaseSeconds).0)
  {
    hide Consistent, Report, BoardSpec.Recover, Reportable, AffectedWorks;
    RecoverKeepsOwned(env, s, now, maxAge, leaseSeconds);
    OwnedBoard(s);
    SweepIsReportable(s.board, now, maxAge, leaseSeconds);
    var (board, o) := BoardSpec.Recover(s.board, now, maxAge, leaseSeconds);
    var swept, works := s.(board := board), AffectedWorks(s.board, now, maxAge);
    forall w | w in swept.accepted && w !in works ensures HeldByAcceptor(swept, w) { assert HeldByAcceptor(s, w); }
    ReportFinishes(env, swept, o.value, s.board.leases, works);
  }

  // ----- registration -----

  lemma RegisterKeepsGood(env: Env, s: State, ad: Advertisement)
    requires Good(s)
    ensures Good(RegisterNode(env, s, ad).0)
  {
    hide Consistent, Answered;
    RegisterKeepsOwned(env, s, ad);
    if Admissible(s.board.bodyId, ad) {
      var listed := s.(board := Registered(s.board, ad));
      var e := Event(NodeAdvertised, ad.nodeId, Some(ad.nodeId), Some(ad.organ), None);
      forall w | w in listed.accepted ensures HeldByAcceptor(listed, w) { assert HeldByAcceptor(s, w); }
      EmitKeepsAcceptance(env, listed, e);
      var emitted, next := Emit(env, listed, e).0, RegisterNode(env, s, ad).0;
      forall w | w in next.accepted ensures HeldByAcceptor(next, w) { assert HeldByAcceptor(emitted, w); }
    }
  }

  // ----- runs -----

  lemma StepKeepsGood(env: Env, s: State, c: Call)
    requires Good(s) && RecoversNormally(env, s, c)
    ensures Good(Serve(env, s, c))
  {
    hide Good, RegisterNode, Submit, Accept, ServiceSpec.Refuse, ServiceSpec.Complete, ServiceSpec.Recover;
    match c
    case RegisterCall(ad) => RegisterKeepsGood(env, s, ad);
    case SubmitCall(p, now, leaseSeconds) => SubmitKeepsGood(env, s, p, now, leaseSeconds);
    case AcceptCall(work, node) => AcceptKeepsGood(env, s, work, node);
    case RefuseCall(work, node, reason, now, leaseSeconds) =>
      RefuseKeepsGood(env, s, work, node, reason, now, leaseSeconds);
    case CompleteCall(result) => CompleteKeepsGood(env, s, result);
    case RecoverCall(now, maxAge, leaseSeconds) => RecoverKeepsGood(env, s, now, maxAge, leaseSeconds);
  }

  ghost predicate AllRecoverNormally(env: Env, s: State, calls: seq<Call>) {
    forall i :: 0 <= i < |calls| ==> RecoversNormally(env, ServeAll(env, s, calls[..i]), calls[i])
  }

  lemma {:induction false} RunsStayGood(env: Env, s: State, calls: seq<Call>)
    requires Good(s) && AllRecoverNormally(env, s, calls)
    ensures Good(ServeAll(env, s, calls))
    decreases |calls|
  {
    hide Serve, Good, RecoversNormally;
    if calls != [] {
      var front := calls[..|calls| - 1];
      assert forall i :: 0 <= i < |front| ==> front[..i] == calls[..i];
      RunsStayGood(env, s, front);
      StepKeepsGood(env, ServeAll(env, s, front), calls[|calls| - 1]);
    }
  }

  lemma StartIsGood(bodyId: Id)
    ensures Good(Start(bodyId))
  {
  }

  /** In every run whose recoveries return normally, wherever the sinks fail: accepted and leased work is held by the
      node that accepted it. */
  lemma AcceptedWorkIsHeldByItsAcceptor(env: Env, bodyId: Id, calls: seq<Call>)
    requires AllRecoverNormally(env, Start(bodyId), calls)
    ensures AcceptedByHolder(ServeAll(env, Start(bodyId), calls))
  {
    hide AllRecoverNormally, ServeAll, AcceptedByHolder;
    StartIsGood(bodyId);
    RunsStayGood(env, Start(bodyId), calls);
  }
}
