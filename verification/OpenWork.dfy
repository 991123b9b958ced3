/** Work the service can never close again: it lost its lease, or its completion is pending under a node that gave it
    up. */
module OpenWork {
  import opened Basics
  import opened Placement
  import opened BoardSpec
  import opened BoardLaws
  import opened BoardRuns
  import opened BoardOutcomes
  import opened ServiceSpec
  import opened ServiceLaws
  import opened Completions
  import opened Recoveries

  // ----- what one call does to a work it does not close -----

  /** Nothing about the work's place on the board has moved, except that its lease may be gone. */
  ghost predicate OnlyMayLose(b: Board, next: Board, work: Id) {
    RefusalsOf(next, work) == RefusalsOf(b, work) && (work in next.leases ==> work in b.leases)
  }

  lemma OfferMovesOthersOnly(env: Env, s: State, lease: Lease, work: Id)
    requires lease.workId != work
    ensures OnlyMayLose(s.board, MakeOffer(env, s, lease).0.board, work)
  {
    hide Answered;
  }

  lemma SubmitMovesOthersOnly(env: Env, s: State, p: Proposal, now: real, leaseSeconds: real, work: Id)
    requires Owned(s) && work in s.proposals
    ensures OnlyMayLose(s.board, Submit(env, s, p, now, leaseSeconds).0.board, work)
  {
    hide BoardSpec.Place, MakeOffer, Consistent, Answered;
    OwnedBoard(s);
    if now >= 0.0 && p.requirement.workId !in s.proposals {
      PlaceMoves(s.board, p.requirement, now, leaseSeconds);
      var (board, o) := BoardSpec.Place(s.board, p.requirement, now, leaseSeconds, {});
      if o.Returned? && o.value.lease.Some? {
        var offering := s.(board := board, proposals := s.proposals[p.requirement.workId := p]);
        OfferMovesOthersOnly(env, offering, o.value.lease.value, work);
      }
    }
  }

  lemma RefuseMovesLeasedOnly(env: Env, s: State, w: Id, node: Id, reason: string, now: real, leaseSeconds: real,
                              work: Id)
    requires Owned(s)
    ensures var next := ServiceSpec.Refuse(env, s, w, node, reason, now, leaseSeconds).0;
            && RefusalsOf(s.board, work) <= RefusalsOf(next.board, work)
            && (work in next.board.leases ==> work in s.board.leases)
  {
    hide BoardSpec.Refuse, Consistent, Answered;
    OwnedBoard(s);
    StepKeepsRefusals(s.board, RefuseOp(w, node, reason, now, leaseSeconds), work);
    if reason != "" && OwnershipError(s, w, node).None? {
      RefuseMoves(s.board, w, node, reason, now, leaseSeconds);
    }
  }

  lemma RecoverMovesLeasedOnly(env: Env, s: State, now: real, maxAge: real, leaseSeconds: real, work: Id)
    requires Owned(s)
    ensures var next := ServiceSpec.Recover(env, s, now, maxAge, leaseSeconds).0;
            && RefusalsOf(s.board, work) <= RefusalsOf(next.board, work)
            && (work in next.board.leases ==> work in s.board.leases)
  {
    hide BoardSpec.Recover, Consistent, Report;
    OwnedBoard(s);
    StepKeepsRefusals(s.board, RecoverOp(now, maxAge, leaseSeconds), work);
    RecoverShrinks(s.board, now, maxAge, leaseSeconds);
    ReportKeepsBoard(env, s.(board := BoardSpec.Recover(s.board, now, maxAge, leaseSeconds).0), s.board.leases);
  }

  lemma ReportKeepsBoard(env: Env, s: State, prior: map<Id, Lease>)
    ensures forall ds :: Report(env, s, ds, prior).0.board == s.board
  {
    forall ds ensures Report(env, s, ds, prior).0.board == s.board {
      ReportingKeepsBoard(env, s, ds, prior);
    }
  }

  lemma {:induction false} ReportingKeepsBoard(env: Env, s: State, ds: seq<Decision>, prior: map<Id, Lease>)
    ensures Report(env, s, ds, prior).0.board == s.board
    decreases |ds|
  {
    hide RecoveredWork, Answered;
    if ds != [] {
      ReportingKeepsBoard(env, ReportOne(env, s, ds[0], prior).0, ds[1..], prior);
    }
  }

  /** A call that does not complete the work keeps its refusals, and leases it only if it was leased. */
  lemma CallMovesLeasedOnly(env: Env, s: State, c: Call, work: Id)
    requires Owned(s) && work in s.proposals && !(c.CompleteCall? && c.result.work == work)
    ensures var next := Serve(env, s, c);
            && RefusalsOf(s.board, work) <= RefusalsOf(next.board, work)
            && (work in next.board.leases ==> work in s.board.leases)
  {
    hide Submit, ServiceSpec.Refuse, ServiceSpec.Recover, Owned, Answered;
    match c
    case SubmitCall(p, now, leaseSeconds) => SubmitMovesOthersOnly(env, s, p, now, leaseSeconds, work);
    case RefuseCall(w, node, reason, now, leaseSeconds) =>
      RefuseMovesLeasedOnly(env, s, w, node, reason, now, leaseSeconds, work);
    case RecoverCall(now, maxAge, leaseSeconds) => RecoverMovesLeasedOnly(env, s, now, maxAge, leaseSeconds, work);
    case _ =>
  }

  lemma CallKeepsWork(env: Env, s: State, c: Call, work: Id)
    requires Owned(s) && work in s.proposals && !(c.CompleteCall? && c.result.work == work)
    ensures work in Serve(env, s, c).proposals
    ensures work in s.pending ==> work in Serve(env, s, c).pending && Serve(env, s, c).pending[work] == s.pending[work]
  {
    hide Owned, Reported, Serve;
    if c.CompleteCall? {
      CompleteAdvances(env, s, c.result, work);
      ServedComplete(env, s, c);
    } else {
      OtherCallsLeaveUntouched(env, s, c, work);
    }
  }

  lemma ServedComplete(env: Env, s: State, c: Call)
    requires c.CompleteCall?
    ensures Serve(env, s, c) == ServiceSpec.Complete(env, s, c.result).0
  {
  }

  // ----- work that lost its lease -----

  /** The work is proposed and nobody holds it: its lease expired, or nobody took it over. */
  ghost predicate Lost(s: State, work: Id) {
    Owned(s) && work in s.proposals && work !in s.board.leases
  }

  lemma CallKeepsLost(env: Env, s: State, c: Call, work: Id)
    requires Lost(s, work)
    ensures Lost(Serve(env, s, c), work)
  {
    hide Owned, Serve;
    StepKeepsOwned(env, s, c);
    if c.CompleteCall? && c.result.work == work {
      ServedComplete(env, s, c);
      assert OwnershipError(s, work, c.result.node) == Some(NoActiveLease);
    } else {
      CallMovesLeasedOnly(env, s, c, work);
      CallKeepsWork(env, s, c, work);
    }
  }

  /** Proposed work without a lease never gets one again from any run of calls, and stays open for good. */
  lemma {:induction false} LostWorkStaysLost(env: Env, s: State, calls: seq<Call>, work: Id)
    requires Lost(s, work)
    ensures Lost(ServeAll(env, s, calls), work)
    decreases |calls|
  {
    hide Lost, Serve;
    if calls != [] {
      LostWorkStaysLost(env, s, calls[..|calls| - 1], work);
      CallKeepsLost(env, ServeAll(env, s, calls[..|calls| - 1]), calls[|calls| - 1], work);
    }
  }

  // ----- work whose completion is pending under a node that gave it up -----

  ghost predicate Stuck(s: State, work: Id) {
    && Owned(s) && work in s.proposals && work in s.pending
    && s.pending[work].result.node in RefusalsOf(s.board, work)
  }

  /** Every completion of such work raises and changes nothing: nobody but the first node could repeat the pending
      result, and that node can no longer hold the work. */
  lemma StuckWorkCannotBeCompleted(env: Env, s: State, result: WorkResult)
    requires Stuck(s, result.work)
    ensures var (next, o) := ServiceSpec.Complete(env, s, result); o.Raised? && next == s
    ensures OwnershipError(s, result.work, result.node).None? && result.work in s.accepted ==>
        ServiceSpec.Complete(env, s, result).1 == Raised(DifferentResult)
  {
    hide Consistent;
    OwnedBoard(s);
    if result.work in s.board.leases {
      ConsistentLease(s.board, result.work);
    }
  }

  lemma CallKeepsStuck(env: Env, s: State, c: Call, work: Id)
    requires Stuck(s, work)
    ensures Stuck(Serve(env, s, c), work) && Serve(env, s, c).pending[work] == s.pending[work]
  {
    hide Owned, Serve;
    StepKeepsOwned(env, s, c);
    if c.CompleteCall? && c.result.work == work {
      ServedComplete(env, s, c);
      StuckWorkCannotBeCompleted(env, s, c.result);
    } else {
      CallMovesLeasedOnly(env, s, c, work);
      CallKeepsWork(env, s, c, work);
    }
  }

  /** Once the node of a pending completion refused or failed the work, no run of calls closes it again. */
  lemma {:induction false} StuckWorkStaysStuck(env: Env, s: State, calls: seq<Call>, work: Id)
    requires Stuck(s, work)
    ensures var end := ServeAll(env, s, calls); Stuck(end, work) && end.pending[work] == s.pending[work]
    decreases |calls|
  {
    hide Stuck, Serve;
    if calls != [] {
      StuckWorkStaysStuck(env, s, calls[..|calls| - 1], work);
      CallKeepsStuck(env, ServeAll(env, s, calls[..|calls| - 1]), calls[|calls| - 1], work);
    }
  }

  /** The node that reported the pending completion still holds the work. */
  ghost predicate PendingAtHolder(s: State, work: Id) {
    && Owned(s) && work in s.proposals && work in s.pending
    && work in s.board.leases && s.board.leases[work].nodeId == s.pending[work].result.node
  }

  /** How work gets stuck: that node's refusal is recorded ... */
  lemma RefusingPendingWorkSticksIt(env: Env, s: State, work: Id, reason: string, now: real, leaseSeconds: real)
    requires PendingAtHolder(s, work) && reason != ""
    requires env.sink(s.journal.calls) == Recorded && env.sink(s.journal.calls + 1) == Recorded
    ensures Stuck(ServiceSpec.Refuse(env, s, work, s.pending[work].result.node, reason, now, leaseSeconds).0, work)
  {
    hide Owned, Consistent, BoardSpec.Refuse;
    var node := s.pending[work].result.node;
    OwnedBoard(s);
    ConsistentLease(s.board, work);
    RefuseKeepsOwned(env, s, work, node, reason, now, leaseSeconds);
    RefusingIsRemembered(s.board, work, node, reason, now, leaseSeconds);
  }

  /** ... or it is found unavailable while its lease lasts. */
  lemma RecoveringPendingWorkSticksIt(env: Env, s: State, work: Id, now: real, maxAge: real, leaseSeconds: real)
    requires PendingAtHolder(s, work) && work in Stranded(s.board, now, maxAge)
    requires !CannotRecover(s.board, now, maxAge, leaseSeconds)
    ensures Stuck(ServiceSpec.Recover(env, s, now, maxAge, leaseSeconds).0, work)
  {
    hide Consistent, BoardSpec.Recover, Failed, AffectedWorks, CannotRecover, Report;
    OwnedBoard(s);
    RecoverKeepsOwned(env, s, now, maxAge, leaseSeconds);
    RecoverRaisesExactlyWhen(s.board, now, maxAge, leaseSeconds);
    RecoveryClearsFailedNodes(s.board, now, maxAge, leaseSeconds);
    var (end, o) := BoardSpec.Recover(s.board, now, maxAge, leaseSeconds);
    var works := AffectedWorks(s.board, now, maxAge);
    assert work in works;
    var i :| 0 <= i < |works| && works[i] == work;
    assert Settles(Swept(s.board, now, maxAge), end, works[i], o.value[i], Failed(s.board.nodes, now, maxAge));
    ReportKeepsBoard(env, s.(board := end), s.board.leases);
    ReportKeepsWork(env, s.(board := end), o.value, s.board.leases, work);
  }

  lemma {:induction false} ReportKeepsWork(env: Env, s: State, ds: seq<Decision>, prior: map<Id, Lease>, work: Id)
    ensures var next := Report(env, s, ds, prior).0; next.proposals == s.proposals && next.pending == s.pending
    decreases |ds|
  {
    hide RecoveredWork, Answered;
    if ds != [] {
      ReportKeepsWork(env, ReportOne(env, s, ds[0], prior).0, ds[1..], prior, work);
    }
  }

  // ----- every pending completion is one of the three -----

  lemma RefuseMovesHolder(env: Env, s: State, w: Id, node: Id, reason: string, now: real, leaseSeconds: real, work: Id)
    requires Owned(s)
    ensures MovesByRefusal(s.board, ServiceSpec.Refuse(env, s, w, node, reason, now, leaseSeconds).0.board, work)
  {
    hide BoardSpec.Refuse, Consistent, Answered;
    OwnedBoard(s);
    RefusingIsRemembered(s.board, w, node, reason, now, leaseSeconds);
    if reason != "" && OwnershipError(s, w, node).None? {
      ConsistentLease(s.board, w);
      RefuseMoves(s.board, w, node, reason, now, leaseSeconds);
    }
  }

  lemma RecoverMovesHolder(env: Env, s: State, now: real, maxAge: real, leaseSeconds: real, work: Id)
    requires Owned(s)
    ensures MovesByRefusal(s.board, ServiceSpec.Recover(env, s, now, maxAge, leaseSeconds).0.board, work)
  {
    hide BoardSpec.Recover, Consistent, Report, Failed, AffectedWorks, CannotRecover;
    OwnedBoard(s);
    RecoveryClearsFailedNodes(s.board, now, maxAge, leaseSeconds);
    RaisingSweepMovesNothing(s.board, now, maxAge, leaseSeconds);
    var (end, o) := BoardSpec.Recover(s.board, now, maxAge, leaseSeconds);
    ReportKeepsBoard(env, s.(board := end), s.board.leases);
    var works := AffectedWorks(s.board, now, maxAge);
    if o.Returned? && work in works {
      var i :| 0 <= i < |works| && works[i] == work;
      assert Settles(Swept(s.board, now, maxAge), end, works[i], o.value[i], Failed(s.board.nodes, now, maxAge));
    }
  }

  /** If the work is leased before and after, its holder is the same or has been put on its refusal list. */
  ghost predicate MovesByRefusal(b: Board, next: Board, work: Id) {
    work in b.leases && work in next.leases ==>
      next.leases[work].nodeId == b.leases[work].nodeId || b.leases[work].nodeId in RefusalsOf(next, work)
  }

  lemma OfferMovesNoHolder(env: Env, s: State, lease: Lease, work: Id)
    requires lease.workId != work
    ensures MovesByRefusal(s.board, MakeOffer(env, s, lease).0.board, work)
  {
    hide Answered;
  }

  lemma SubmitMovesNoHolder(env: Env, s: State, p: Proposal, now: real, leaseSeconds: real, work: Id)
    requires Owned(s) && work in s.proposals
    ensures MovesByRefusal(s.board, Submit(env, s, p, now, leaseSeconds).0.board, work)
  {
    hide BoardSpec.Place, MakeOffer, Consistent, Answered;
    OwnedBoard(s);
    if now >= 0.0 && p.requirement.workId !in s.proposals {
      PlaceMoves(s.board, p.requirement, now, leaseSeconds);
      var (board, o) := BoardSpec.Place(s.board, p.requirement, now, leaseSeconds, {});
      if o.Returned? && o.value.lease.Some? {
        var offering := s.(board := board, proposals := s.proposals[p.requirement.workId := p]);
        OfferMovesNoHolder(env, offering, o.value.lease.value, work);
        OfferMovesOthersOnly(env, offering, o.value.lease.value, work);
      }
    }
  }

  lemma CallMovesHolderByRefusal(env: Env, s: State, c: Call, work: Id)
    requires Owned(s) && work in s.proposals && !c.CompleteCall?
    ensures MovesByRefusal(s.board, Serve(env, s, c).board, work)
  {
    hide Submit, ServiceSpec.Refuse, ServiceSpec.Recover, Owned, Answered;
    match c
    case SubmitCall(p, now, leaseSeconds) => SubmitMovesNoHolder(env, s, p, now, leaseSeconds, work);
    case RefuseCall(w, node, reason, now, leaseSeconds) =>
      RefuseMovesHolder(env, s, w, node, reason, now, leaseSeconds, work);
    case RecoverCall(now, maxAge, leaseSeconds) => RecoverMovesHolder(env, s, now, maxAge, leaseSeconds, work);
    case _ =>
  }

  /** A completion moves no lease, and what it leaves pending it leaves with the holder that reported it. */
  lemma CompleteMovesNoHolder(env: Env, s: State, result: WorkResult, work: Id)
    requires Owned(s)
    ensures var next := ServiceSpec.Complete(env, s, result).0;
            && (work in next.board.leases ==> work in s.board.leases && next.board.leases[work] == s.board.leases[work])
            && (work in next.pending && work !in s.pending ==>
                  work in next.board.leases && next.board.leases[work].nodeId == next.pending[work].result.node)
            && (work in next.pending && work in s.pending ==> next.pending[work] == s.pending[work])
  {
    hide Completion, Consistent;
    if OwnershipError(s, result.work, result.node).None? {
      CompletionPends(env, s, result, s.board.leases[result.work]);
    }
  }

  lemma CompletionPends(env: Env, s: State, result: WorkResult, lease: Lease)
    ensures var next := Completion(env, s, result, lease).0;
            && next.board == s.board
            && (next.pending == s.pending || (result.work !in s.pending && exists receipt ::
                  next.pending == s.pending[result.work := Pending(result, receipt)]))
  {
    hide Answered;
  }

  /** A pending completion is with the node that reported it, or its work can never be closed. */
  ghost predicate PendingSettled(s: State, work: Id) {
    PendingAtHolder(s, work) || Stuck(s, work) || Lost(s, work)
  }

  ghost predicate AllPendingSettled(s: State) {
    forall work :: work in s.pending ==> PendingSettled(s, work)
  }

  lemma CallKeepsPendingSettled(env: Env, s: State, c: Call, work: Id)
    requires Owned(s) && AllPendingSettled(s)
    ensures work in Serve(env, s, c).pending ==> PendingSettled(Serve(env, s, c), work)
  {
    hide Owned, Serve, Reported;
    StepKeepsOwned(env, s, c);
    var next := Serve(env, s, c);
    OwnedProposals(next);
    if work in next.pending && work in s.pending {
      assert PendingSettled(s, work);
      if Stuck(s, work) {
        CallKeepsStuck(env, s, c, work);
      } else if Lost(s, work) {
        CallKeepsLost(env, s, c, work);
      } else if c.CompleteCall? {
        ServedComplete(env, s, c);
        CompleteMovesNoHolder(env, s, c.result, work);
      } else {
        CallMovesHolderByRefusal(env, s, c, work);
        CallKeepsWork(env, s, c, work);
      }
    } else if work in next.pending {
      NewlyPending(env, s, c, work);
    }
  }

  /** Only a completion makes a completion pending, and its work is leased to the node that reported it. */
  lemma NewlyPending(env: Env, s: State, c: Call, work: Id)
    requires Owned(s) && work !in s.pending && work in Serve(env, s, c).pending
    ensures var next := Serve(env, s, c);
            work in next.board.leases && next.board.leases[work].nodeId == next.pending[work].result.node
  {
    hide Owned, Answered, BoardSpec.Refuse, BoardSpec.Recover, BoardSpec.Place, Report, ServiceSpec.Complete;
    match c
    case CompleteCall(result) => CompleteMovesNoHolder(env, s, result, work);
    case RecoverCall(now, maxAge, leaseSeconds) =>
      var (board, o) := BoardSpec.Recover(s.board, now, maxAge, leaseSeconds);
      if o.Returned? {
        ReportKeepsWork(env, s.(board := board), o.value, s.board.leases, work);
      }
    case _ =>
  }

  lemma OwnedProposals(s: State)
    ensures Owned(s) ==> forall work :: work in s.pending ==> work in s.proposals
  {
  }

  /** In every run, whatever fails: a pending completion is with the node that reported it, or its work can never be
      closed. */
  lemma {:induction false} EveryPendingCompletionIsSettled(env: Env, bodyId: Id, calls: seq<Call>)
    ensures AllPendingSettled(ServeAll(env, Start(bodyId), calls))
    decreases |calls|
  {
    hide Serve, PendingSettled;
    if calls != [] {
      var front := calls[..|calls| - 1];
      var s := ServeAll(env, Start(bodyId), front);
      EveryPendingCompletionIsSettled(env, bodyId, front);
      EveryReachableStateIsOwned(env, bodyId, front);
      var next := Serve(env, s, calls[|calls| - 1]);
      forall work | work in next.pending ensures PendingSettled(next, work) {
        CallKeepsPendingSettled(env, s, calls[|calls| - 1], work);
      }
    }
  }

  /** A completion of work whose completion is pending returns exactly when it repeats the pending result, the node that
      reported it still holds and accepts the work, and the Queen takes an important result. */
  lemma PendingWorkClosesExactlyWhen(env: Env, s: State, result: WorkResult)
    requires Owned(s) && result.work in s.pending
    ensures ServiceSpec.Complete(env, s, result).1.Returned? <==>
        && PendingAtHolder(s, result.work) && result == s.pending[result.work].result && result.work in s.accepted
        && (result.important ==> env.hasQueen && env.queen(s.queen.calls))
  {
    hide Consistent;
  }
}
