/** How often the completion of one piece of work is reported, and what closing it takes. */
module Completions {
  import opened Basics
  import opened Placement
  import opened BoardSpec
  import opened BoardLaws
  import opened ServiceSpec
  import opened ServiceLaws

  /** How many receipted WORK_COMPLETED events name the work. */
  ghost function Reports(events: seq<Event>, work: Id): nat
    decreases |events|
  {
    if events == [] then 0
    else
      var last := events[|events| - 1];
      Reports(events[..|events| - 1], work) + if last.kind == WorkCompleted && last.subject == work then 1 else 0
  }

  ghost function Reported(s: State, work: Id): nat {
    Reports(s.journal.receipted, work)
  }

  function One(b: bool): nat { if b then 1 else 0 }

  lemma ReportsAfter(events: seq<Event>, e: Event, work: Id)
    ensures Reports(events + [e], work) == Reports(events, work) + One(e.kind == WorkCompleted && e.subject == work)
  {
    assert (events + [e])[..|events + [e]| - 1] == events;
  }

  lemma EmitAndReports(env: Env, s: State, e: Event, work: Id)
    ensures Reported(Emit(env, s, e).0, work)
         == Reported(s, work) + One(e.kind == WorkCompleted && e.subject == work && Emit(env, s, e).1.Returned?)
  {
    ReportsAfter(s.journal.receipted, e, work);
  }

  /** Nothing about the work's completion has moved. */
  ghost predicate Untouched(s: State, next: State, work: Id) {
    && (work in next.proposals <==> work in s.proposals)
    && (work in next.pending <==> work in s.pending)
    && (work in s.pending ==> next.pending[work] == s.pending[work])
    && Reported(next, work) == Reported(s, work)
  }

  lemma EmitLeavesUntouched(env: Env, s: State, e: Event, work: Id)
    requires e.kind != WorkCompleted || e.subject != work
    ensures Untouched(s, Emit(env, s, e).0, work)
  {
    EmitAndReports(env, s, e, work);
  }

  lemma SubmitLeavesUntouched(env: Env, s: State, p: Proposal, now: real, leaseSeconds: real, work: Id)
    requires Owned(s) && work in s.proposals
    ensures Untouched(s, Submit(env, s, p, now, leaseSeconds).0, work)
  {
    hide Answered, Consistent, BoardSpec.Place, Reported;
    var id := p.requirement.workId;
    if now >= 0.0 && id !in s.proposals {
      var (board, o) := BoardSpec.Place(s.board, p.requirement, now, leaseSeconds, {});
      var placed := s.(board := board);
      JournalDecidesReports(s, placed, work);
      PlaceMoves(s.board, p.requirement, now, leaseSeconds);
      if o.Returned? {
        EmitLeavesUntouched(env, placed, LostEvent(id), work);
        if o.value.lease.Some? {
          var offering := placed.(proposals := placed.proposals[id := p]);
          JournalDecidesReports(s, offering, work);
          OfferLeavesUntouched(env, offering, o.value.lease.value, work);
        }
      }
    }
  }

  lemma JournalDecidesReports(s: State, t: State, work: Id)
    requires s.journal == t.journal
    ensures Reported(s, work) == Reported(t, work)
  {
  }

  lemma OfferLeavesUntouched(env: Env, s: State, lease: Lease, work: Id)
    requires lease.workId != work
    ensures Untouched(s, MakeOffer(env, s, lease).0, work)
  {
    hide Answered;
    var s1 := Emit(env, s, LeaseEvent(WorkOffered, lease)).0;
    EmitLeavesUntouched(env, s, LeaseEvent(WorkOffered, lease), work);
    EmitLeavesUntouched(env, s1, NodeEvent(WorkDegraded, lease), work);
  }

  lemma RefuseLeavesUntouched(env: Env, s: State, w: Id, node: Id, reason: string, now: real, leaseSeconds: real,
                              work: Id)
    ensures Untouched(s, ServiceSpec.Refuse(env, s, w, node, reason, now, leaseSeconds).0, work)
  {
    hide Answered, BoardSpec.Refuse, Reported, Reoffer;
    if reason != "" && OwnershipError(s, w, node).None? {
      var lease := s.board.leases[w];
      var (s1, refused) := Emit(env, s, NodeEvent(WorkRefused, lease));
      EmitLeavesUntouched(env, s, NodeEvent(WorkRefused, lease), work);
      var (s2, handoff) := Emit(env, s1, NodeEvent(HandoffRequested, lease));
      EmitLeavesUntouched(env, s1, NodeEvent(HandoffRequested, lease), work);
      if refused.Returned? && handoff.Returned? {
        ReofferLeavesUntouched(env, s2, w, node, reason, now, leaseSeconds, [refused.value, handoff.value], work);
      }
    }
  }

  lemma ReofferLeavesUntouched(env: Env, s: State, w: Id, node: Id, reason: string, now: real, leaseSeconds: real,
                               told: seq<nat>, work: Id)
    ensures Untouched(s, Reoffer(env, s, w, node, reason, now, leaseSeconds, told).0, work)
  {
    hide Answered, BoardSpec.Refuse, Reported;
    var (board, o) := BoardSpec.Refuse(s.board, w, node, reason, now, leaseSeconds);
    JournalDecidesReports(s, s.(board := board), work);
    if o.Returned? {
      var moved := s.(board := board, accepted := s.accepted - {w});
      JournalDecidesReports(s, moved, work);
      var e := if o.value.lease.None? then LostEvent(w) else LeaseEvent(WorkOffered, o.value.lease.value);
      EmitLeavesUntouched(env, moved, e, work);
    }
  }

  lemma {:induction false} ReportLeavesUntouched(env: Env, s: State, ds: seq<Decision>, prior: map<Id, Lease>, work: Id)
    ensures Untouched(s, Report(env, s, ds, prior).0, work)
    decreases |ds|
  {
    hide Answered, Reported, ReportOne;
    if ds != [] {
      var (next, o) := ReportOne(env, s, ds[0], prior);
      ReportOneLeavesUntouched(env, s, ds[0], prior, work);
      if o.Returned? {
        ReportLeavesUntouched(env, next, ds[1..], prior, work);
      }
    }
  }

  lemma ReportOneLeavesUntouched(env: Env, s: State, d: Decision, prior: map<Id, Lease>, work: Id)
    ensures Untouched(s, ReportOne(env, s, d, prior).0, work)
  {
    hide Answered, Reported, RecoveredWork;
    var w := RecoveredWork(d, prior);
    if w.Some? {
      var withdrawn := s.(accepted := s.accepted - {w.value});
      JournalDecidesReports(s, withdrawn, work);
      var e := if d.lease.Some? then LeaseEvent(RecoveryReassigned, d.lease.value) else LostEvent(w.value);
      EmitLeavesUntouched(env, withdrawn, e, work);
    }
  }

  /** One call that is not a completion of the work leaves its completion alone. */
  lemma OtherCallsLeaveUntouched(env: Env, s: State, c: Call, work: Id)
    requires Owned(s) && work in s.proposals && !c.CompleteCall?
    ensures Untouched(s, Serve(env, s, c), work)
  {
    hide Answered, Owned, Consistent, Submit, ServiceSpec.Refuse, Report, BoardSpec.Recover, Reported;
    match c
    case RegisterCall(ad) => RegisterLeavesUntouched(env, s, ad, work);
    case SubmitCall(p, now, leaseSeconds) => SubmitLeavesUntouched(env, s, p, now, leaseSeconds, work);
    case AcceptCall(w, node) =>
      if OwnershipError(s, w, node).None? {
        var e := LeaseEvent(WorkAccepted, s.board.leases[w]);
        EmitLeavesUntouched(env, s, e, work);
        JournalDecidesReports(Emit(env, s, e).0, Serve(env, s, c), work);
      }
    case RefuseCall(w, node, reason, now, leaseSeconds) =>
      RefuseLeavesUntouched(env, s, w, node, reason, now, leaseSeconds, work);
    case RecoverCall(now, maxAge, leaseSeconds) =>
      var (board, o) := BoardSpec.Recover(s.board, now, maxAge, leaseSeconds);
      JournalDecidesReports(s, s.(board := board), work);
      if o.Returned? {
        ReportLeavesUntouched(env, s.(board := board), o.value, s.board.leases, work);
      }
  }

  lemma RegisterLeavesUntouched(env: Env, s: State, ad: Advertisement, work: Id)
    ensures Untouched(s, RegisterNode(env, s, ad).0, work)
  {
    hide Answered;
    EmitLeavesUntouched(env, s.(board := Registered(s.board, ad)),
                        Event(NodeAdvertised, ad.nodeId, Some(ad.nodeId), Some(ad.organ), None), work);
  }

  // ----- completion itself -----

  /** The receipt a completion of this work is reported under: the first one, if there is one already. */
  function ReceiptFor(s: State, work: Id): nat {
    if work in s.pending then s.pending[work].receipt else s.journal.calls
  }

  lemma CompletionReports(env: Env, s: State, result: WorkResult, lease: Lease, work: Id)
    requires Owned(s) && result.work in s.proposals && lease.workId == result.work
    ensures var (next, o) := Completion(env, s, result, lease);
            && Reported(next, work) == Reported(s, work) + One(work == result.work && work !in s.pending && o.Returned?)
            && (work in next.pending <==> work in s.pending || (work == result.work && o.Returned?))
            && (work in s.pending ==> next.pending[work] == s.pending[work])
            && (o.Returned? ==>
                  o.value == ReceiptFor(s, result.work) && next.pending[result.work] == Pending(result, o.value))
            && next.proposals == s.proposals && next.board == s.board && next.queen == s.queen
  {
    hide Answered, Reported;
    if result.work !in s.pending {
      var e := LeaseEvent(WorkCompleted, lease);
      EmitAndReports(env, s, e, work);
      JournalDecidesReports(Emit(env, s, e).0, Completion(env, s, result, lease).0, work);
    }
  }

  /** What one completion call does to the reporting of `work`. */
  ghost predicate Advances(s: State, next: State, result: WorkResult, o: Result, work: Id) {
    if o.Returned? && work == result.work then
      && work !in next.proposals && work !in next.pending
      && Reported(next, work) == Reported(s, work) + One(work !in s.pending)
      && o.value.lifecycle == [ReceiptFor(s, work)]
      && next.queen.delivered == s.queen.delivered +
          if result.important then [QueenRecord(result, ReceiptFor(s, work))] else []
    else
      && (work in next.proposals <==> work in s.proposals)
      && (work in s.pending ==> work in next.pending && next.pending[work] == s.pending[work])
      && Reported(next, work) + One(work in s.pending) == Reported(s, work) + One(work in next.pending)
  }

  lemma CompleteAdvances(env: Env, s: State, result: WorkResult, work: Id)
    requires Owned(s)
    ensures var (next, o) := ServiceSpec.Complete(env, s, result);
            Advances(s, next, result, o, work)
  {
    hide Answered, Completion, Reported, Consistent;
    var (next, o) := ServiceSpec.Complete(env, s, result);
    if OwnershipError(s, result.work, result.node).None? && result.work in s.accepted {
      OwnedBoard(s);
      ConsistentWork(s.board, result.work);
      var lease := s.board.leases[result.work];
      CompletionReports(env, s, result, lease, work);
      var (s1, receipt) := Completion(env, s, result, lease);
      if receipt.Returned? {
        var (s2, escalated) := Escalate(env, s1, result, receipt.value);
        JournalDecidesReports(s1, s2, work);
        JournalDecidesReports(s2, next, work);
      }
    }
  }

  lemma ConsistentWork(b: Board, work: Id)
    requires Consistent(b) && work in b.leases
    ensures b.leases[work].workId == work
  {
    assert LeaseSound(b, work);
  }

  /** The service never finds itself unable to close a lease it has just checked. */
  lemma ClosingNeverFails(env: Env, s: State, result: WorkResult)
    ensures ServiceSpec.Complete(env, s, result).1 != Raised(CouldNotClose)
  {
    hide Answered;
  }

  /** An important result closes its work only once the Queen sink has returned, with the receipt of the first
      report. */
  lemma ImportantResultsReachTheQueen(env: Env, s: State, result: WorkResult)
    requires Owned(s) && result.important
    ensures var (next, o) := ServiceSpec.Complete(env, s, result);
            o.Returned? ==>
              && env.hasQueen && env.queen(s.queen.calls)
              && next.queen.delivered == s.queen.delivered + [QueenRecord(result, ReceiptFor(s, result.work))]
              && result.work !in next.board.leases
  {
    CompleteAdvances(env, s, result, result.work);
    hide Answered, Reported;
  }

  lemma StepAdvances(env: Env, s: State, c: Call, work: Id)
    requires Owned(s) && work in s.proposals
    ensures var next := Serve(env, s, c);
            && Reported(next, work) + One(work in s.pending)
                == Reported(s, work) + One(work in next.pending || work !in next.proposals)
  {
    hide Reported, Owned;
    if c.CompleteCall? {
      CompleteAdvances(env, s, c.result, work);
    } else {
      hide Serve;
      OtherCallsLeaveUntouched(env, s, c, work);
    }
  }

  /** Between a proposal's submission and its closing at most one WORK_COMPLETED emission succeeds, whatever else is
      called and whatever fails: exactly one once completion is pending or the work is closed, none before. */
  lemma {:induction false} CompletionIsReportedOnce(env: Env, s: State, calls: seq<Call>, work: Id)
    requires Owned(s) && work in s.proposals && work !in s.pending
    requires forall i :: 0 <= i < |calls| ==> work in ServeAll(env, s, calls[..i]).proposals
    ensures var end := ServeAll(env, s, calls);
            && Owned(end)
            && Reported(end, work) == Reported(s, work) + One(work in end.pending || work !in end.proposals)
    decreases |calls|
  {
    hide Serve, Owned, Reported;
    if calls != [] {
      var front := calls[..|calls| - 1];
      assert forall i :: 0 <= i < |front| ==> front[..i] == calls[..i];
      CompletionIsReportedOnce(env, s, front, work);
      var before := ServeAll(env, s, front);
      assert calls[..|calls| - 1] == front;
      StepAdvances(env, before, calls[|calls| - 1], work);
      StepKeepsOwned(env, before, calls[|calls| - 1]);
    }
  }

  /** A proposal that was just offered starts with nothing pending, so the count above starts from it. */
  lemma OfferedWorkHasNothingPending(env: Env, s: State, p: Proposal, now: real, leaseSeconds: real)
    requires Owned(s)
    ensures var (next, o) := Submit(env, s, p, now, leaseSeconds);
            o.Returned? && o.value.state == Offered ==>
              p.requirement.workId in next.proposals && p.requirement.workId !in next.pending && Owned(next)
  {
    SubmitKeepsOwned(env, s, p, now, leaseSeconds);
    hide Answered, Owned, Consistent, BoardSpec.Place, MakeOffer;
    if now >= 0.0 && p.requirement.workId !in s.proposals {
      PendingIsProposed(s, p.requirement.workId);
      var (board, o) := BoardSpec.Place(s.board, p.requirement, now, leaseSeconds, {});
      if o.Returned? && o.value.lease.Some? {
        OfferKeepsProposal(env, s.(board := board, proposals := s.proposals[p.requirement.workId := p]),
                           o.value.lease.value);
      }
    }
  }

  lemma PendingIsProposed(s: State, work: Id)
    requires Owned(s) && work !in s.proposals
    ensures work !in s.pending
  {
  }

  lemma OfferKeepsProposal(env: Env, s: State, lease: Lease)
    ensures var (next, o) := MakeOffer(env, s, lease);
            o.Returned? ==> next.proposals == s.proposals && next.pending == s.pending
  {
    hide Answered;
  }
}
