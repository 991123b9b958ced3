/** What a crash would reveal: when the index of active work names every lease, and which calls break it. */
module RestartIndex {
  import opened Basics
  import opened Placement
  import opened BoardSpec
  import opened Choice
  import opened BoardLaws
  import opened BoardRuns
  import opened BoardOutcomes
  import opened ServiceSpec
  import opened ServiceLaws
  import opened ServiceRuns
  import opened Recoveries

  /** The index lists the work with this holder and the name of its lease. */
  predicate Names(active: map<Id, ActiveEntry>, w: Id, node: Id) {
    && w in active
    && active[w].node == Some(node)
    && active[w].leaseId == Some(LeaseId(w, node))
  }

  ghost predicate Listed(s: State, w: Id) {
    w in s.board.leases && w !in s.pending ==> Names(s.journal.active, w, s.board.leases[w].nodeId)
  }

  /** Every lease whose completion is not pending is listed with its current holder and lease. */
  ghost predicate Indexes(s: State) {
    forall w :: w in s.board.leases ==> Listed(s, w)
  }

  /** The n-th sink call from `calls` on reaches the index, whether or not a receipt comes back. */
  predicate Stored(env: Env, calls: nat, n: nat) {
    env.sink(calls + n) == Recorded || env.sink(calls + n) == FailedAfter
  }

  predicate SameEntry(active: map<Id, ActiveEntry>, next: map<Id, ActiveEntry>, w: Id) {
    (w in next <==> w in active) && (w in active ==> next[w] == active[w])
  }

  // ----- single emissions -----

  lemma EmitIndexes(env: Env, s: State, e: Event)
    ensures var active, next := s.journal.active, Emit(env, s, e).0.journal.active;
            && next == (if Stored(env, s.journal.calls, 0) then Indexed(active, e, s.journal.calls) else active)
            && (forall w :: w != e.subject ==> SameEntry(active, next, w))
            && (e.kind in {NodeAdvertised, WorkRefused, HandoffRequested}
                || (e.kind == WorkDegraded && e.node.Some?) ==>
                  next == active)
  {
  }

  /** The events that tell of a new lease list it. */
  lemma LeaseIsNamed(env: Env, s: State, kind: EventKind, lease: Lease)
    requires kind in {WorkOffered, WorkAccepted, RecoveryReassigned}
    ensures Stored(env, s.journal.calls, 0) ==>
        Names(Emit(env, s, LeaseEvent(kind, lease)).0.journal.active, lease.workId, lease.nodeId)
  {
  }

  /** Leases that are as they were, with entries as they were, stay listed. */
  lemma SameIsListed(s: State, t: State, w: Id)
    requires Indexes(s) && (w in t.pending <==> w in s.pending) && SameEntry(s.journal.active, t.journal.active, w)
    requires w in t.board.leases ==> w in s.board.leases && t.board.leases[w] == s.board.leases[w]
    ensures Listed(t, w)
  {
    if w in s.board.leases { assert Listed(s, w); }
  }

  lemma OwnedWork(s: State, w: Id)
    requires Owned(s)
    ensures w in s.board.leases ==> s.board.leases[w].workId == w && w in s.board.requirements
    ensures w !in s.proposals ==> w !in s.board.leases && w !in s.pending
  {
    if w in s.board.leases { assert LeaseSound(s.board, w); }
  }

  // ----- calls that never break the index -----

  lemma RegisterKeepsIndex(env: Env, s: State, ad: Advertisement)
    requires Indexes(s)
    ensures Indexes(RegisterNode(env, s, ad).0)
  {
    hide Answered, Indexes;
    EmitIndexes(env, s.(board := Registered(s.board, ad)),
                Event(NodeAdvertised, ad.nodeId, Some(ad.nodeId), Some(ad.organ), None));
    var next := RegisterNode(env, s, ad).0;
    forall w ensures Listed(next, w) { SameIsListed(s, next, w); }
    AllListed(next);
  }

  lemma AllListed(s: State)
    requires forall w :: Listed(s, w)
    ensures Indexes(s)
  {
  }

  /** Only the work on offer changes its entry; an offer that is not stored is rolled back. */
  lemma OfferIndexes(env: Env, s: State, lease: Lease)
    requires lease.workId in s.board.leases && s.board.leases[lease.workId] == lease
    ensures var next := MakeOffer(env, s, lease).0;
            && next.pending == s.pending && Listed(next, lease.workId)
            && (forall w :: w != lease.workId ==>
                  && SameEntry(s.journal.active, next.journal.active, w)
                  && (w in next.board.leases ==> w in s.board.leases && next.board.leases[w] == s.board.leases[w]))
  {
    hide Answered;
    var s1 := Emit(env, s, LeaseEvent(WorkOffered, lease)).0;
    EmitIndexes(env, s, LeaseEvent(WorkOffered, lease));
    LeaseIsNamed(env, s, WorkOffered, lease);
    EmitIndexes(env, s1, NodeEvent(WorkDegraded, lease));
  }

  lemma SubmitKeepsIndex(env: Env, s: State, p: Proposal, now: real, leaseSeconds: real)
    requires Owned(s) && Indexes(s)
    ensures Indexes(Submit(env, s, p, now, leaseSeconds).0)
  {
    hide Owned, Consistent, Answered, MakeOffer, BoardSpec.Place, Indexes, Indexed;
    var work := p.requirement.workId;
    if now >= 0.0 && work !in s.proposals {
      OwnedBoard(s);
      OwnedWork(s, work);
      PlaceMoves(s.board, p.requirement, now, leaseSeconds);
      var (board, o) := BoardSpec.Place(s.board, p.requirement, now, leaseSeconds, {});
      var next := Submit(env, s, p, now, leaseSeconds).0;
      EmitIndexes(env, s.(board := board), LostEvent(work));
      if o.Returned? && o.value.lease.Some? {
        OfferIndexes(env, s.(board := board, proposals := s.proposals[work := p]), o.value.lease.value);
      }
      forall w ensures Listed(next, w) {
        if w != work { SameIsListed(s, next, w); }
      }
      AllListed(next);
    }
  }

  lemma AcceptKeepsIndex(env: Env, s: State, work: Id, node: Id)
    requires Owned(s) && Indexes(s)
    ensures Indexes(Accept(env, s, work, node).0)
  {
    hide Owned, Answered, Indexes, Indexed, Names;
    if OwnershipError(s, work, node).None? {
      OwnedWork(s, work);
      var lease := s.board.leases[work];
      EmitIndexes(env, s, LeaseEvent(WorkAccepted, lease));
      LeaseIsNamed(env, s, WorkAccepted, lease);
      var next := Accept(env, s, work, node).0;
      forall w ensures Listed(next, w) {
        if w != work || !Stored(env, s.journal.calls, 0) { SameIsListed(s, next, w); }
      }
      AllListed(next);
    }
  }

  // ----- refusals -----

  /** The coordinator finds another node exactly when there is lease time and somebody offers. */
  lemma RefusalMovesExactlyWhen(b: Board, work: Id, node: Id, reason: string, now: real, leaseSeconds: real)
    requires Consistent(b) && work in b.leases && b.leases[work].nodeId == node && reason != ""
    ensures var (end, o) := BoardSpec.Refuse(b, work, node, reason, now, leaseSeconds);
            && (o.Returned? && o.value.lease.Some? <==> leaseSeconds > 0.0 && HasSuccessor(b, work))
            && (o.Returned? && o.value.lease.Some? ==> o.value.lease.value.nodeId != node)
  {
    hide PlaceOn, Consistent, Offers, ExclusionReason;
    ConsistentLease(b, work);
    var dropped := Dropped(b, work);
    PlaceOnRaisesExactlyWhen(dropped, b.requirements[work], now, leaseSeconds, dropped.refusals[work]);
    UnplacedExactlyWhenNobodyOffers(dropped, b.requirements[work], now, leaseSeconds, dropped.refusals[work]);
    PlaceOnEffect(dropped, b.requirements[work], now, leaseSeconds, dropped.refusals[work]);
  }

  /** Both events of a refusal come back with receipts, its work moves, and the offer does not reach the index. */
  ghost predicate OfferIsLost(env: Env, s: State, work: Id, node: Id, reason: string, leaseSeconds: real) {
    && reason != "" && OwnershipError(s, work, node).None? && work !in s.pending
    && Receipts(env, s.journal.calls, 0) && Receipts(env, s.journal.calls, 1)
    && leaseSeconds > 0.0 && HasSuccessor(s.board, work) && !Stored(env, s.journal.calls, 2)
  }

  lemma ReofferIndexes(env: Env, s: State, work: Id, node: Id, reason: string, now: real, leaseSeconds: real,
                       told: seq<nat>)
    requires Owned(s) && Indexes(s) && OwnershipError(s, work, node).None? && reason != ""
    ensures Indexes(Reoffer(env, s, work, node, reason, now, leaseSeconds, told).0) <==>
        work in s.pending || leaseSeconds <= 0.0 || !HasSuccessor(s.board, work) || Stored(env, s.journal.calls, 0)
  {
    hide Owned, Consistent, Answered, BoardSpec.Refuse, Indexes, Indexed, HasSuccessor;
    OwnedBoard(s);
    RefuseMoves(s.board, work, node, reason, now, leaseSeconds);
    RefusalMovesExactlyWhen(s.board, work, node, reason, now, leaseSeconds);
    var (board, o) := BoardSpec.Refuse(s.board, work, node, reason, now, leaseSeconds);
    var moved := s.(board := board, accepted := s.accepted - {work});
    var next := Reoffer(env, s, work, node, reason, now, leaseSeconds, told).0;
    EmitIndexes(env, moved, LostEvent(work));
    if o.Returned? && o.value.lease.Some? {
      EmitIndexes(env, moved, LeaseEvent(WorkOffered, o.value.lease.value));
      LeaseIsNamed(env, moved, WorkOffered, o.value.lease.value);
    }
    forall w | w != work ensures Listed(next, w) { SameIsListed(s, next, w); }
    ListedAt(s, work);
    AllButOneListed(next, work);
  }

  lemma ListedAt(s: State, w: Id)
    ensures Indexes(s) ==> Listed(s, w)
  {
  }

  lemma AllButOneListed(s: State, work: Id)
    requires forall w :: w != work ==> Listed(s, w)
    ensures Indexes(s) <==> Listed(s, work)
  {
  }

  lemma TellingKeepsIndex(env: Env, s: State, kind: EventKind, lease: Lease)
    requires Indexes(s) && kind in {WorkRefused, HandoffRequested}
    ensures var next := Emit(env, s, NodeEvent(kind, lease)).0;
            Indexes(next) && next == s.(journal := next.journal) && next.journal.calls == s.journal.calls + 1
  {
    hide Indexes;
    EmitIndexes(env, s, NodeEvent(kind, lease));
    var next := Emit(env, s, NodeEvent(kind, lease)).0;
    forall w ensures Listed(next, w) { SameIsListed(s, next, w); }
    AllListed(next);
  }

  lemma RefuseIndexes(env: Env, s: State, work: Id, node: Id, reason: string, now: real, leaseSeconds: real)
    requires Owned(s) && Indexes(s)
    ensures Indexes(ServiceSpec.Refuse(env, s, work, node, reason, now, leaseSeconds).0) <==>
        !OfferIsLost(env, s, work, node, reason, leaseSeconds)
  {
    hide Owned, Consistent, Reoffer, Indexes, Answered, HasSuccessor;
    if reason != "" && OwnershipError(s, work, node).None? {
      var lease := s.board.leases[work];
      TellingKeepsIndex(env, s, WorkRefused, lease);
      EmitKeepsOwned(env, s, NodeEvent(WorkRefused, lease));
      var s1 := Emit(env, s, NodeEvent(WorkRefused, lease)).0;
      TellingKeepsIndex(env, s1, HandoffRequested, lease);
      EmitKeepsOwned(env, s1, NodeEvent(HandoffRequested, lease));
      var s2 := Emit(env, s1, NodeEvent(HandoffRequested, lease)).0;
      ReofferIndexes(env, s2, work, node, reason, now, leaseSeconds, [s.journal.calls, s1.journal.calls]);
    }
  }

  // ----- completions -----

  /** The completion is listed as done, no receipt comes back, and so nothing is pending. */
  ghost predicate CompletionIsLost(env: Env, s: State, result: WorkResult) {
    && OwnershipError(s, result.work, result.node).None? && result.work in s.accepted && result.work !in s.pending
    && env.sink(s.journal.calls) == FailedAfter
  }

  lemma CompletionIndexes(env: Env, s: State, result: WorkResult)
    requires Owned(s) && Indexes(s) && OwnershipError(s, result.work, result.node).None?
    ensures var next := Completion(env, s, result, s.board.leases[result.work]).0;
            && next.board == s.board
            && (Indexes(next) <==> result.work in s.pending || env.sink(s.journal.calls) != FailedAfter)
  {
    hide Owned, Answered, Indexes;
    var work, lease := result.work, s.board.leases[result.work];
    OwnedWork(s, work);
    var e := LeaseEvent(WorkCompleted, lease);
    EmitIndexes(env, s, e);
    var next := Completion(env, s, result, lease).0;
    forall w | w != work ensures Listed(next, w) { SameIsListed(s, next, w); }
    ListedAt(s, work);
    AllButOneListed(next, work);
  }

  lemma CloseKeepsIndex(s: State, result: WorkResult, lease: Lease, receipt: nat, escalated: bool)
    requires Indexes(s)
    ensures Indexes(Close(s, result, lease, receipt, escalated).0)
  {
    var next := Close(s, result, lease, receipt, escalated).0;
    forall w | w in next.board.leases ensures Listed(next, w) { assert Listed(s, w); }
  }

  lemma EscalateKeepsIndex(env: Env, s: State, result: WorkResult, receipt: nat)
    requires Indexes(s)
    ensures Indexes(Escalate(env, s, result, receipt).0)
  {
    var next := Escalate(env, s, result, receipt).0;
    forall w | w in next.board.leases ensures Listed(next, w) { assert Listed(s, w); }
  }

  lemma CompleteIndexes(env: Env, s: State, result: WorkResult)
    requires Owned(s) && Indexes(s)
    ensures Indexes(ServiceSpec.Complete(env, s, result).0) <==> !CompletionIsLost(env, s, result)
  {
    hide Owned, Completion, Close, Escalate, Indexes;
    if OwnershipError(s, result.work, result.node).None? && result.work in s.accepted {
      var lease := s.board.leases[result.work];
      CompletionIndexes(env, s, result);
      CompletionReturns(env, s, result, lease);
      var (s1, receipt) := Completion(env, s, result, lease);
      if receipt.Returned? {
        EscalateKeepsIndex(env, s1, result, receipt.value);
        var (s2, escalated) := Escalate(env, s1, result, receipt.value);
        if escalated.Returned? {
          CloseKeepsIndex(s2, result, lease, receipt.value, escalated.value);
        }
      }
    }
  }

  lemma CompletionReturns(env: Env, s: State, result: WorkResult, lease: Lease)
    ensures Completion(env, s, result, lease).1.Returned? ==>
        result.work in s.pending || env.sink(s.journal.calls) == Recorded
  {
  }

  // ----- recoveries -----

  /** What one report does to the index. */
  lemma ReportOneIndexes(env: Env, s: State, d: Decision, prior: map<Id, Lease>, work: Id)
    requires work in s.proposals && DecidedFor(s.board, prior, work, d)
    ensures var active, next := s.journal.active, ReportOne(env, s, d, prior).0.journal.active;
            && (forall w :: w != work ==> SameEntry(active, next, w))
            && (work in s.board.leases ==>
                  if Stored(env, s.journal.calls, 0) then Names(next, work, s.board.leases[work].nodeId)
                  else SameEntry(active, next, work))
  {
    hide Answered, Indexed, RecoveredWork, Suspects, OnlyBlames;
    ReportOneEmits(env, s, d, prior, work);
    var withdrawn := s.(accepted := s.accepted - {work});
    if d.lease.Some? {
      EmitIndexes(env, withdrawn, LeaseEvent(RecoveryReassigned, d.lease.value));
      LeaseIsNamed(env, withdrawn, RecoveryReassigned, d.lease.value);
    } else {
      EmitIndexes(env, withdrawn, LostEvent(work));
    }
  }

  lemma ReportOneEmits(env: Env, s: State, d: Decision, prior: map<Id, Lease>, work: Id)
    requires work in s.proposals && DecidedFor(s.board, prior, work, d)
    ensures var withdrawn := s.(accepted := s.accepted - {work});
            var next := ReportOne(env, s, d, prior).0;
            if d.lease.Some? then next == Emit(env, withdrawn, LeaseEvent(RecoveryReassigned, d.lease.value)).0
            else next == s || next == Emit(env, withdrawn, LostEvent(work)).0
  {
    hide Answered;
    ReportNamesTheWork(d, prior, work);
  }

  lemma ReportOnce(env: Env, s: State, ds: seq<Decision>, prior: map<Id, Lease>)
    ensures ds == [] ==> Report(env, s, ds, prior).0 == s
    ensures ds != [] ==>
        var (next, o) := ReportOne(env, s, ds[0], prior);
        Report(env, s, ds, prior).0 == if o.Returned? then Report(env, next, ds[1..], prior).0 else next
  {
    hide ReportOne;
  }

  /** The report loop leaves the entries of other works alone. */
  lemma {:induction false} ReportKeepsOthers(env: Env, s: State, ds: seq<Decision>, prior: map<Id, Lease>,
                                             works: seq<Id>, w: Id)
    requires Reportable(s.board, prior, works, ds) && w !in works
    requires forall v :: v in works ==> v in s.proposals
    ensures SameEntry(s.journal.active, Report(env, s, ds, prior).0.journal.active, w)
    decreases |ds|
  {
    hide Report, ReportOne, DecidedFor, LastAcceptor, Tellable;
    ReportOnce(env, s, ds, prior);
    if ds != [] {
      assert works[0] in works && DecidedFor(s.board, prior, works[0], ds[0]);
      ReportOneIndexes(env, s, ds[0], prior, works[0]);
      ReportOneExactly(env, s, ds[0], prior, works[0]);
      var (next, o) := ReportOne(env, s, ds[0], prior);
      assert SameEntry(s.journal.active, next.journal.active, w);
      if o.Returned? {
        RestIsReportable(s.board, prior, works, ds);
        ReportKeepsOthers(env, next, ds[1..], prior, works[1..], w);
      }
    }
  }

  lemma RestIsReportable(board: Board, prior: map<Id, Lease>, works: seq<Id>, ds: seq<Decision>)
    requires Reportable(board, prior, works, ds) && works != []
    ensures Reportable(board, prior, works[1..], ds[1..])
    ensures forall v :: v in works[1..] ==> v in works
  {
    hide DecidedFor;
    forall i | 0 <= i < |works[1..]| ensures DecidedFor(board, prior, works[1..][i], ds[1..][i]) {
      assert DecidedFor(board, prior, works[i + 1], ds[i + 1]);
    }
  }

  /** A work that moved is listed anew exactly when the reports get to it and its own reaches the index. */
  lemma {:induction false} ReportIndexes(env: Env, s: State, ds: seq<Decision>, prior: map<Id, Lease>, works: seq<Id>,
                                         j: nat)
    requires Reportable(s.board, prior, works, ds) && Ascending(works) && j < |works|
    requires forall w :: w in works ==> w in s.proposals
    ensures var active, next := s.journal.active, Report(env, s, ds, prior).0.journal.active;
            works[j] in s.board.leases ==>
              if Reached(env, s.journal.calls, s.board, prior, works, j) && Stored(env, s.journal.calls, j)
              then Names(next, works[j], s.board.leases[works[j]].nodeId)
              else SameEntry(active, next, works[j])
    decreases |ds|
  {
    hide Report, ReportOne, DecidedFor, LastAcceptor, Reached, Ascending, Names;
    var work, calls := works[0], s.journal.calls;
    assert work in works && DecidedFor(s.board, prior, works[0], ds[0]);
    ReportOneIndexes(env, s, ds[0], prior, work);
    ReportOneExactly(env, s, ds[0], prior, work);
    ReportOnce(env, s, ds, prior);
    var (next, o) := ReportOne(env, s, ds[0], prior);
    RestIsReportable(s.board, prior, works, ds);
    if j == 0 {
      ReachedNothing(env, calls, s.board, prior, works);
      if o.Returned? {
        FirstIsNotInTail(works);
        ReportKeepsOthers(env, next, ds[1..], prior, works[1..], work);
        if work in s.board.leases {
          EntriesKeepNames(next.journal.active, Report(env, next, ds[1..], prior).0.journal.active,
                           work, s.board.leases[work].nodeId);
        }
      }
    } else {
      ReachedNext(env, calls, s.board, prior, works, j);
      LaterIsAnother(works, j);
      assert SameEntry(s.journal.active, next.journal.active, works[j]);
      if o.Returned? {
        TailIsAscending(works);
        ReportIndexes(env, next, ds[1..], prior, works[1..], j - 1);
      }
    }
  }

  lemma FirstIsNotInTail(works: seq<Id>)
    requires works != [] && Ascending(works)
    ensures works[0] !in works[1..]
  {
  }

  lemma LaterIsAnother(works: seq<Id>, j: nat)
    requires 0 < j < |works| && Ascending(works)
    ensures works[j] != works[0] && works[1..][j - 1] == works[j]
  {
  }

  lemma EntriesKeepNames(active: map<Id, ActiveEntry>, next: map<Id, ActiveEntry>, w: Id, node: Id)
    requires SameEntry(active, next, w)
    ensures Names(active, w, node) <==> Names(next, w, node)
  {
  }

  /** Some work that moves, without a pending completion, is not listed anew. */
  ghost predicate MoveIsLost(env: Env, s: State, now: real, maxAge: real, leaseSeconds: real) {
    var works := AffectedWorks(s.board, now, maxAge);
    && !CannotRecover(s.board, now, maxAge, leaseSeconds)
    && exists j :: 0 <= j < |works| && works[j] !in s.pending && FindsHolder(s.board, now, maxAge, leaseSeconds, j)
         && !(ReportsGetTo(env, s, now, maxAge, leaseSeconds, j) && Stored(env, s.journal.calls, j))
  }

  /** The j-th work of a recovery: listed afterwards, unless it moved and its move is lost. */
  lemma MovedIsListedExactlyWhen(env: Env, s: State, now: real, maxAge: real, leaseSeconds: real, j: nat)
    requires Owned(s) && Indexes(s) && j < |AffectedWorks(s.board, now, maxAge)|
    ensures var next := ServiceSpec.Recover(env, s, now, maxAge, leaseSeconds).0;
            var work := AffectedWorks(s.board, now, maxAge)[j];
            !CannotRecover(s.board, now, maxAge, leaseSeconds) ==>
              (Listed(next, work) <==>
                 || work in s.pending || !FindsHolder(s.board, now, maxAge, leaseSeconds, j)
                 || (ReportsGetTo(env, s, now, maxAge, leaseSeconds, j) && Stored(env, s.journal.calls, j)))
  {
    hide Owned, Consistent, Report, BoardSpec.Recover, AffectedWorks, LastAcceptor, Failed, Reached, ReportsGetTo,
      CannotRecover, HasSuccessor, BoardAt, Indexes, Reportable, Withdrawn, SameAcceptors, Ascending;
    OwnedBoard(s);
    OwnedLeases(s);
    AffectedAreLeased(s.board, now, maxAge);
    RecoverRaisesExactlyWhen(s.board, now, maxAge, leaseSeconds);
    RecoverExactly(env, s, now, maxAge, leaseSeconds);
    RecoveredExactlyWhenSomebodyOffers(s.board, j, now, maxAge, leaseSeconds);
    NewHolder(s.board, now, maxAge, leaseSeconds, j);
    ReachedAsForeseen(env, s, now, maxAge, leaseSeconds, j);
    SweepIsReportable(s.board, now, maxAge, leaseSeconds);
    var (end, o) := BoardSpec.Recover(s.board, now, maxAge, leaseSeconds);
    var works := AffectedWorks(s.board, now, maxAge);
    if o.Returned? {
      ReportIndexes(env, s.(board := end), o.value, s.board.leases, works, j);
      ListedAt(s, works[j]);
      OwnedWork(s, works[j]);
      RecoverKeepsOwned(env, s, now, maxAge, leaseSeconds);
      OwnedWork(ServiceSpec.Recover(env, s, now, maxAge, leaseSeconds).0, works[j]);
    }
  }

  lemma OthersStayListed(env: Env, s: State, now: real, maxAge: real, leaseSeconds: real, w: Id)
    requires Owned(s) && Indexes(s)
    requires CannotRecover(s.board, now, maxAge, leaseSeconds) || w !in AffectedWorks(s.board, now, maxAge)
    ensures Listed(ServiceSpec.Recover(env, s, now, maxAge, leaseSeconds).0, w)
  {
    hide Owned, Consistent, Report, BoardSpec.Recover, AffectedWorks, LastAcceptor, Failed, Reached,
      CannotRecover, Indexes, Reportable, Withdrawn, SameAcceptors, Ascending, Listed;
    OwnedBoard(s);
    OwnedLeases(s);
    AffectedAreLeased(s.board, now, maxAge);
    RecoverRaisesExactlyWhen(s.board, now, maxAge, leaseSeconds);
    RaisingSweepMovesNothing(s.board, now, maxAge, leaseSeconds);
    RecoverExactly(env, s, now, maxAge, leaseSeconds);
    SweepIsReportable(s.board, now, maxAge, leaseSeconds);
    var (end, o) := BoardSpec.Recover(s.board, now, maxAge, leaseSeconds);
    if o.Returned? {
      ReportKeepsOthers(env, s.(board := end), o.value, s.board.leases, AffectedWorks(s.board, now, maxAge), w);
    }
    SameIsListed(s, ServiceSpec.Recover(env, s, now, maxAge, leaseSeconds).0, w);
  }

  lemma RecoverIndexes(env: Env, s: State, now: real, maxAge: real, leaseSeconds: real)
    requires Owned(s) && Indexes(s)
    ensures Indexes(ServiceSpec.Recover(env, s, now, maxAge, leaseSeconds).0) <==>
        !MoveIsLost(env, s, now, maxAge, leaseSeconds)
  {
    hide Owned, ServiceSpec.Recover, AffectedWorks, CannotRecover, Indexes, Listed, FindsHolder, ReportsGetTo, Stored;
    var works, next := AffectedWorks(s.board, now, maxAge), ServiceSpec.Recover(env, s, now, maxAge, leaseSeconds).0;
    forall w | w !in works || CannotRecover(s.board, now, maxAge, leaseSeconds) ensures Listed(next, w) {
      OthersStayListed(env, s, now, maxAge, leaseSeconds, w);
    }
    if CannotRecover(s.board, now, maxAge, leaseSeconds) {
      AllListed(next);
    } else {
      forall j: nat | j < |works|
        ensures Listed(next, works[j]) <==>
            || works[j] in s.pending || !FindsHolder(s.board, now, maxAge, leaseSeconds, j)
            || (ReportsGetTo(env, s, now, maxAge, leaseSeconds, j) && Stored(env, s.journal.calls, j))
      {
        MovedIsListedExactlyWhen(env, s, now, maxAge, leaseSeconds, j);
      }
      if Indexes(next) {
        forall j | 0 <= j < |works| ensures Listed(next, works[j]) { ListedAt(next, works[j]); }
      } else if !MoveIsLost(env, s, now, maxAge, leaseSeconds) {
        forall w ensures Listed(next, w) {
          if w in works {
            var j: nat :| j < |works| && works[j] == w;
            assert Listed(next, works[j]);
          }
        }
        AllListed(next);
      }
    }
  }

  // ----- every call, and runs -----

  /** The three things that break the index. */
  ghost predicate SparesIndex(env: Env, s: State, c: Call) {
    match c
    case RefuseCall(work, node, reason, now, leaseSeconds) => !OfferIsLost(env, s, work, node, reason, leaseSeconds)
    case CompleteCall(result) => !CompletionIsLost(env, s, result)
    case RecoverCall(now, maxAge, leaseSeconds) => !MoveIsLost(env, s, now, maxAge, leaseSeconds)
    case _ => true
  }

  /** A call leaves every lease listed exactly when it loses no offer, no completion and no move: nothing that goes
      wrong in a registration, a submission or an acceptance breaks the index. */
  lemma IndexSurvivesExactlyWhen(env: Env, s: State, c: Call)
    requires Owned(s) && Indexes(s)
    ensures Indexes(Serve(env, s, c)) <==> SparesIndex(env, s, c)
  {
    hide Owned, Indexes, RegisterNode, Submit, Accept, ServiceSpec.Refuse, ServiceSpec.Complete, ServiceSpec.Recover,
      OfferIsLost, CompletionIsLost, MoveIsLost;
    match c
    case RegisterCall(ad) => RegisterKeepsIndex(env, s, ad);
    case SubmitCall(p, now, leaseSeconds) => SubmitKeepsIndex(env, s, p, now, leaseSeconds);
    case AcceptCall(work, node) => AcceptKeepsIndex(env, s, work, node);
    case RefuseCall(work, node, reason, now, leaseSeconds) =>
      RefuseIndexes(env, s, work, node, reason, now, leaseSeconds);
    case CompleteCall(result) => CompleteIndexes(env, s, result);
    case RecoverCall(now, maxAge, leaseSeconds) => RecoverIndexes(env, s, now, maxAge, leaseSeconds);
  }

  /** After every call of the run, and before the first, the index lists every lease. */
  ghost predicate IndexHolds(env: Env, s: State, calls: seq<Call>) {
    && Indexes(ServeAll(env, s, calls))
    && (calls != [] ==> IndexHolds(env, s, calls[..|calls| - 1]))
  }

  ghost predicate AllSpareIndex(env: Env, s: State, calls: seq<Call>) {
    calls != [] ==>
      && AllSpareIndex(env, s, calls[..|calls| - 1])
      && SparesIndex(env, ServeAll(env, s, calls[..|calls| - 1]), calls[|calls| - 1])
  }

  /** In every run, wherever the sinks fail: the index lists every lease throughout exactly when no call of the run
      loses an offer, a completion or a move. */
  lemma {:induction false} IndexHoldsThroughoutExactlyWhen(env: Env, bodyId: Id, calls: seq<Call>)
    ensures IndexHolds(env, Start(bodyId), calls) <==> AllSpareIndex(env, Start(bodyId), calls)
    decreases |calls|
  {
    hide Owned, Indexes, SparesIndex, Serve;
    if calls == [] {
      NothingToIndex(bodyId);
    } else {
      var front := calls[..|calls| - 1];
      IndexHoldsThroughoutExactlyWhen(env, bodyId, front);
      EveryReachableStateIsOwned(env, bodyId, front);
      var s := ServeAll(env, Start(bodyId), front);
      if Indexes(s) {
        IndexSurvivesExactlyWhen(env, s, calls[|calls| - 1]);
      }
    }
  }

  lemma NothingToIndex(bodyId: Id)
    ensures Indexes(Start(bodyId))
  {
  }

  /** After such a run, a restart forgets no lease whose completion was not already reported, and knows its holder and
      lease. */
  lemma RestartForgetsNoLease(env: Env, bodyId: Id, calls: seq<Call>)
    requires AllSpareIndex(env, Start(bodyId), calls)
    ensures var s := ServeAll(env, Start(bodyId), calls);
            forall w :: w in s.board.leases && w !in s.pending ==>
              && w in Interrupted(s.journal.active)
              && s.journal.active[w].node == Some(s.board.leases[w].nodeId)
              && s.journal.active[w].leaseId == Some(LeaseId(w, s.board.leases[w].nodeId))
  {
    hide AllSpareIndex, ServeAll, Owned;
    IndexHoldsThroughoutExactlyWhen(env, bodyId, calls);
    EveryReachableStateIsOwned(env, bodyId, calls);
    var s := ServeAll(env, Start(bodyId), calls);
    forall w | w in s.board.leases && w !in s.pending ensures w in Interrupted(s.journal.active) && Listed(s, w) {
      ListedAt(s, w);
      OwnedWork(s, w);
    }
  }

  // ----- such a call -----

  function EntryOf(lease: Lease): ActiveEntry {
    ActiveEntry(WorkAccepted, Some(lease.nodeId), Some(lease.organ), Some(LeaseId(lease.workId, lease.nodeId)), 0)
  }

  /** Node 1 holds works 7 and 8, has accepted work 8, and the index lists both. */
  const Known: State := Accepted.(journal := Accepted.journal.(
    active := map[7 := EntryOf(OnFirst(7, 0)), 8 := EntryOf(OnFirst(8, 1))]))

  /** When only the receipt of a completion fails to come back, the lease stays and a restart would not know of it. */
  lemma LosingAReceiptLosesTheLease(env: Env)
    requires env.sink(1) == FailedAfter
    ensures Owned(Known) && Indexes(Known)
    ensures var next := ServiceSpec.Complete(env, Known, WorkResult(8, 1, ResultCompleted, "", false)).0;
            8 in next.board.leases && 8 !in Interrupted(next.journal.active) && !Indexes(next)
  {
    hide Consistent, AcceptedByHolder;
    AcceptedIsGood();
    CompleteIndexes(env, Known, WorkResult(8, 1, ResultCompleted, "", false));
  }
}
