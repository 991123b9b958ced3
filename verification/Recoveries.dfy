/** How far a recovery of the service gets after the coordinator has reassigned, and what one that gives up leaves. */
module Recoveries {
  import opened Basics
  import opened Placement
  import opened BoardSpec
  import opened Choice
  import opened BoardLaws
  import opened BoardRuns
  import opened BoardOutcomes
  import opened ServiceSpec
  import opened ServiceLaws
  import opened ServiceRuns

  // ----- which decisions are reported -----

  /** A decision can be attributed: its work found a new holder, or its old holder held that one lease. */
  ghost predicate Tellable(board: Board, prior: map<Id, Lease>, work: Id) {
    work in board.leases || (work in prior && |LeasesOn(prior, prior[work].nodeId)| == 1)
  }

  /** Of the lifecycle sink's calls from `calls` on, the n-th returns a receipt. */
  predicate Receipts(env: Env, calls: nat, n: nat) {
    env.sink(calls + n) == Recorded
  }

  /** The reports before the j-th all went through; the first of them is sink call `calls`. */
  ghost predicate Reached(env: Env, calls: nat, board: Board, prior: map<Id, Lease>, works: seq<Id>, j: nat)
    requires j <= |works|
  {
    forall i :: 0 <= i < j ==> Tellable(board, prior, works[i]) && Receipts(env, calls, i)
  }

  /** The work's decision is taken up by the report loop: its acceptance is withdrawn. */
  ghost predicate Withdrawn(env: Env, calls: nat, board: Board, prior: map<Id, Lease>, works: seq<Id>, work: Id) {
    exists j :: 0 <= j < |works| && works[j] == work && Tellable(board, prior, work)
        && Reached(env, calls, board, prior, works, j)
  }

  ghost predicate SameAcceptors(s: State, t: State) {
    forall w :: LastAcceptor(t.journal.receipted, w) == LastAcceptor(s.journal.receipted, w)
  }

  lemma ReportOneExactly(env: Env, s: State, d: Decision, prior: map<Id, Lease>, work: Id)
    requires work in s.proposals && DecidedFor(s.board, prior, work, d)
    ensures var (next, o) := ReportOne(env, s, d, prior);
            && (o.Returned? <==> Tellable(s.board, prior, work) && Receipts(env, s.journal.calls, 0))
            && next.board == s.board && next.proposals == s.proposals && next.pending == s.pending
            && SameAcceptors(s, next)
            && (!Tellable(s.board, prior, work) ==> next == s && o == Raised(CannotIdentifyWork))
            && (Tellable(s.board, prior, work) ==>
                  next.accepted == s.accepted - {work} && next.journal.calls == s.journal.calls + 1)
  {
    ReportNamesTheWork(d, prior, work);
    if d.lease.None? {
      assert Suspects(d, prior) == LeasesOn(prior, prior[work].nodeId);
    }
    var withdrawn := s.(accepted := s.accepted - {work});
    var e := if d.lease.Some? then LeaseEvent(RecoveryReassigned, d.lease.value) else LostEvent(work);
    forall w ensures LastAcceptor(Emit(env, withdrawn, e).0.journal.receipted, w)
        == LastAcceptor(s.journal.receipted, w) {
      EmitAndAcceptors(env, withdrawn, e, w);
    }
    hide LastAcceptor;
  }

  lemma ReachedNext(env: Env, calls: nat, board: Board, prior: map<Id, Lease>, works: seq<Id>, j: nat)
    requires 0 < j <= |works|
    ensures Reached(env, calls, board, prior, works, j)
       <==> && Tellable(board, prior, works[0]) && Receipts(env, calls, 0)
            && Reached(env, calls + 1, board, prior, works[1..], j - 1)
  {
    hide Tellable;
    var tail := works[1..];
    if Tellable(board, prior, works[0]) && Receipts(env, calls, 0)
        && Reached(env, calls + 1, board, prior, tail, j - 1) {
      forall i | 0 <= i < j ensures Tellable(board, prior, works[i]) && Receipts(env, calls, i) {
        if i > 0 {
          assert Tellable(board, prior, tail[i - 1]) && Receipts(env, calls + 1, i - 1);
        }
      }
    }
    if Reached(env, calls, board, prior, works, j) {
      assert Tellable(board, prior, works[0]) && Receipts(env, calls, 0);
      forall i | 0 <= i < j - 1 ensures Tellable(board, prior, tail[i]) && Receipts(env, calls + 1, i) {
        assert Tellable(board, prior, works[i + 1]) && Receipts(env, calls, i + 1);
      }
      assert Reached(env, calls + 1, board, prior, tail, j - 1);
    }
  }

  /** The works of the tail are taken up exactly when the first report went through and the tail's loop gets to them. */
  lemma WithdrawnNext(env: Env, calls: nat, board: Board, prior: map<Id, Lease>, works: seq<Id>, work: Id)
    requires works != [] && Ascending(works)
    ensures Withdrawn(env, calls, board, prior, works, work) <==>
        if work == works[0] then Tellable(board, prior, work)
        else && Tellable(board, prior, works[0]) && Receipts(env, calls, 0)
             && Withdrawn(env, calls + 1, board, prior, works[1..], work)
  {
    hide Tellable, Receipts, Reached;
    var tail := works[1..];
    if work == works[0] {
      ReachedNothing(env, calls, board, prior, works);
    } else {
      if Withdrawn(env, calls, board, prior, works, work) {
        var j :| 0 <= j < |works| && works[j] == work && Tellable(board, prior, work)
            && Reached(env, calls, board, prior, works, j);
        ReachedNext(env, calls, board, prior, works, j);
        assert tail[j - 1] == work;
      }
      if Withdrawn(env, calls + 1, board, prior, tail, work) && Tellable(board, prior, works[0])
          && Receipts(env, calls, 0) {
        var j :| 0 <= j < |tail| && tail[j] == work && Tellable(board, prior, work)
            && Reached(env, calls + 1, board, prior, tail, j);
        ReachedNext(env, calls, board, prior, works, j + 1);
        assert works[j + 1] == work;
      }
    }
  }

  lemma ReachedNothing(env: Env, calls: nat, board: Board, prior: map<Id, Lease>, works: seq<Id>)
    ensures Reached(env, calls, board, prior, works, 0)
  {
  }

  /** The report loop over the decisions of a finished sweep. */
  lemma {:induction false} ReportExactly(env: Env, s: State, ds: seq<Decision>, prior: map<Id, Lease>, works: seq<Id>)
    requires Reportable(s.board, prior, works, ds) && Ascending(works)
    requires forall w :: w in works ==> w in s.proposals
    ensures var (next, o) := Report(env, s, ds, prior);
            && (o.Returned? <==> Reached(env, s.journal.calls, s.board, prior, works, |works|))
            && next.board == s.board && next.proposals == s.proposals && next.pending == s.pending
            && SameAcceptors(s, next)
            && (forall w :: w in next.accepted <==>
                  w in s.accepted && !Withdrawn(env, s.journal.calls, s.board, prior, works, w))
    decreases |ds|
  {
    hide ReportOne, DecidedFor, Tellable, Receipts, LastAcceptor, Withdrawn, Reached, Ascending;
    if ds == [] {
      assert works == [];
      ReachedNothing(env, s.journal.calls, s.board, prior, works);
      forall w ensures !Withdrawn(env, s.journal.calls, s.board, prior, works, w) {
        NothingWithdrawn(env, s.journal.calls, s.board, prior, w);
      }
    } else {
      var work, tail, calls := works[0], works[1..], s.journal.calls;
      assert work in works && DecidedFor(s.board, prior, works[0], ds[0]);
      ReportOneExactly(env, s, ds[0], prior, work);
      ReachedNext(env, calls, s.board, prior, works, |works|);
      forall w ensures Withdrawn(env, calls, s.board, prior, works, w) <==>
          if w == work then Tellable(s.board, prior, w)
          else && Tellable(s.board, prior, work) && Receipts(env, calls, 0)
               && Withdrawn(env, calls + 1, s.board, prior, tail, w)
      {
        WithdrawnNext(env, calls, s.board, prior, works, w);
      }
      var (next, o) := ReportOne(env, s, ds[0], prior);
      if o.Returned? {
        TailIsAscending(works);
        forall i | 0 <= i < |tail| ensures DecidedFor(next.board, prior, tail[i], ds[1..][i]) {
          assert DecidedFor(s.board, prior, works[i + 1], ds[i + 1]);
        }
        ReportExactly(env, next, ds[1..], prior, tail);
        forall w | w in tail ensures w in works { assert works == [work] + tail; }
        FirstIsNotRepeated(env, calls + 1, s.board, prior, works);
      }
    }
  }

  lemma NothingWithdrawn(env: Env, calls: nat, board: Board, prior: map<Id, Lease>, w: Id)
    ensures !Withdrawn(env, calls, board, prior, [], w)
  {
  }

  lemma FirstIsNotRepeated(env: Env, calls: nat, board: Board, prior: map<Id, Lease>, works: seq<Id>)
    requires works != [] && Ascending(works)
    ensures !Withdrawn(env, calls, board, prior, works[1..], works[0])
  {
    hide Tellable, Reached;
  }

  // ----- the whole call -----

  /** The j-th work of a recovery can be attributed, as the state before the call has it: somebody offers to carry it at
      its turn, or its failed holder held no other lease, expired ones included. */
  ghost predicate Attributable(b: Board, now: real, maxAge: real, leaseSeconds: real, j: nat)
    requires j < |AffectedWorks(b, now, maxAge)|
  {
    var works := AffectedWorks(b, now, maxAge);
    || HasSuccessor(BoardAt(Swept(b, now, maxAge), works, j, now, leaseSeconds), works[j])
    || (works[j] in b.leases && |LeasesOn(b.leases, b.leases[works[j]].nodeId)| == 1)
  }

  lemma AffectedAreLeased(b: Board, now: real, maxAge: real)
    ensures Ascending(AffectedWorks(b, now, maxAge))
    ensures forall w :: w in AffectedWorks(b, now, maxAge) ==>
        w in b.leases && b.leases[w].nodeId in Failed(b.nodes, now, maxAge)
  {
  }

  lemma TellableIsAttributable(b: Board, now: real, maxAge: real, leaseSeconds: real, j: nat)
    requires Consistent(b) && j < |AffectedWorks(b, now, maxAge)|
    ensures var (end, o) := BoardSpec.Recover(b, now, maxAge, leaseSeconds);
            o.Returned? ==>
              (Tellable(end, b.leases, AffectedWorks(b, now, maxAge)[j]) <==>
               Attributable(b, now, maxAge, leaseSeconds, j))
  {
    hide Consistent, BoardSpec.Recover, AffectedWorks, HasSuccessor, BoardAt;
    RecoveredExactlyWhenSomebodyOffers(b, j, now, maxAge, leaseSeconds);
  }

  /** What a recovery whose sweep returned has done to the service. */
  lemma RecoverExactly(env: Env, s: State, now: real, maxAge: real, leaseSeconds: real)
    requires Owned(s)
    ensures var (end, swept) := BoardSpec.Recover(s.board, now, maxAge, leaseSeconds);
            var (next, o) := ServiceSpec.Recover(env, s, now, maxAge, leaseSeconds);
            var works, calls := AffectedWorks(s.board, now, maxAge), s.journal.calls;
            && next.board == end && next.proposals == s.proposals && next.pending == s.pending && SameAcceptors(s, next)
            && (swept.Returned? ==>
                  && (o.Returned? <==> Reached(env, calls, end, s.board.leases, works, |works|))
                  && (forall w :: w in next.accepted <==>
                      w in s.accepted && !Withdrawn(env, calls, end, s.board.leases, works, w)))
            && (swept.Raised? ==> o.Raised? && next.accepted == s.accepted)
  {
    hide Consistent, Report, BoardSpec.Recover, Reportable, AffectedWorks, Reached, Withdrawn, LastAcceptor, Ascending,
        Failed;
    OwnedBoard(s);
    OwnedLeases(s);
    AffectedAreLeased(s.board, now, maxAge);
    SweepIsReportable(s.board, now, maxAge, leaseSeconds);
    var (board, o) := BoardSpec.Recover(s.board, now, maxAge, leaseSeconds);
    if o.Returned? {
      ReportExactly(env, s.(board := board), o.value, s.board.leases, AffectedWorks(s.board, now, maxAge));
    }
  }

  lemma OwnedLeases(s: State)
    requires Owned(s)
    ensures forall w :: w in s.board.leases ==> w in s.proposals
  {
  }

  /** All decisions before the j-th can be attributed, and their events are recorded. */
  ghost predicate ReportsGetTo(env: Env, s: State, now: real, maxAge: real, leaseSeconds: real, j: nat)
    requires j <= |AffectedWorks(s.board, now, maxAge)|
  {
    forall i :: 0 <= i < j ==> Attributable(s.board, now, maxAge, leaseSeconds, i) && Receipts(env, s.journal.calls, i)
  }

  lemma ReachedAsForeseen(env: Env, s: State, now: real, maxAge: real, leaseSeconds: real, j: nat)
    requires Owned(s) && j <= |AffectedWorks(s.board, now, maxAge)|
    ensures var (end, swept) := BoardSpec.Recover(s.board, now, maxAge, leaseSeconds);
            swept.Returned? ==>
              (Reached(env, s.journal.calls, end, s.board.leases, AffectedWorks(s.board, now, maxAge), j)
               <==> ReportsGetTo(env, s, now, maxAge, leaseSeconds, j))
  {
    hide Owned, Consistent, BoardSpec.Recover, AffectedWorks, Tellable, Receipts, Attributable;
    OwnedBoard(s);
    forall i | 0 <= i < j
      ensures var (end, swept) := BoardSpec.Recover(s.board, now, maxAge, leaseSeconds);
              swept.Returned? ==>
                (Tellable(end, s.board.leases, AffectedWorks(s.board, now, maxAge)[i]) <==>
                 Attributable(s.board, now, maxAge, leaseSeconds, i))
    {
      TellableIsAttributable(s.board, now, maxAge, leaseSeconds, i);
    }
  }

  /** Whatever the sinks do, a recovery returns exactly when its sweep can be made and, in order of work, every
      decision can be attributed and its event is recorded. */
  lemma RecoverReturnsExactlyWhen(env: Env, s: State, now: real, maxAge: real, leaseSeconds: real)
    requires Owned(s)
    ensures var works := AffectedWorks(s.board, now, maxAge);
            ServiceSpec.Recover(env, s, now, maxAge, leaseSeconds).1.Returned? <==>
              && !CannotRecover(s.board, now, maxAge, leaseSeconds)
              && ReportsGetTo(env, s, now, maxAge, leaseSeconds, |works|)
  {
    hide Owned, Consistent, ServiceSpec.Recover, BoardSpec.Recover, AffectedWorks, Withdrawn, SameAcceptors, Reached,
      ReportsGetTo, CannotRecover;
    OwnedBoard(s);
    RecoverRaisesExactlyWhen(s.board, now, maxAge, leaseSeconds);
    RecoverExactly(env, s, now, maxAge, leaseSeconds);
    ReachedAsForeseen(env, s, now, maxAge, leaseSeconds, |AffectedWorks(s.board, now, maxAge)|);
  }

  /** What a caller can check without following the sweep: with positive times and events that are recorded, a recovery
      returns when no failed node holds two leases. */
  lemma RecoverReturnsWhenFailedNodesHoldOneLease(env: Env, s: State, now: real, maxAge: real, leaseSeconds: real)
    requires Owned(s) && maxAge > 0.0 && leaseSeconds > 0.0
    requires forall j :: 0 <= j < |AffectedWorks(s.board, now, maxAge)| ==> Receipts(env, s.journal.calls, j)
    requires forall n :: n in Failed(s.board.nodes, now, maxAge) ==> |LeasesOn(s.board.leases, n)| <= 1
    ensures ServiceSpec.Recover(env, s, now, maxAge, leaseSeconds).1.Returned?
  {
    hide Owned, Consistent, ServiceSpec.Recover, BoardSpec.Recover, AffectedWorks, Failed, HasSuccessor, BoardAt,
        Receipts;
    OwnedBoard(s);
    RecoverReturnsExactlyWhen(env, s, now, maxAge, leaseSeconds);
    RecoverRaisesExactlyWhen(s.board, now, maxAge, leaseSeconds);
    AffectedAreLeased(s.board, now, maxAge);
    var works := AffectedWorks(s.board, now, maxAge);
    forall j | 0 <= j < |works|
      ensures Attributable(s.board, now, maxAge, leaseSeconds, j)
    {
      assert works[j] in works;
      assert works[j] in LeasesOn(s.board.leases, s.board.leases[works[j]].nodeId);
    }
  }

  // ----- acceptance -----

  /** The j-th work finds a new holder, as the state before the call has it. */
  ghost predicate FindsHolder(b: Board, now: real, maxAge: real, leaseSeconds: real, j: nat)
    requires j < |AffectedWorks(b, now, maxAge)|
  {
    var works := AffectedWorks(b, now, maxAge);
    HasSuccessor(BoardAt(Swept(b, now, maxAge), works, j, now, leaseSeconds), works[j])
  }

  lemma AcceptorHolds(s: State, w: Id)
    ensures AcceptedByHolder(s) && w in s.accepted && w in s.board.leases ==>
        LastAcceptor(s.journal.receipted, w) == Some(s.board.leases[w].nodeId)
  {
    if AcceptedByHolder(s) && w in s.accepted {
      assert HeldByAcceptor(s, w);
    }
  }

  /** An accepted work that finds a new holder stays accepted, under a node that did not accept it, exactly when the
      reports do not get to it. */
  lemma FateOfAcceptedWork(env: Env, s: State, now: real, maxAge: real, leaseSeconds: real, j: nat)
    requires Owned(s) && AcceptedByHolder(s) && j < |AffectedWorks(s.board, now, maxAge)|
    ensures var (end, swept) := BoardSpec.Recover(s.board, now, maxAge, leaseSeconds);
            var next := ServiceSpec.Recover(env, s, now, maxAge, leaseSeconds).0;
            var work := AffectedWorks(s.board, now, maxAge)[j];
            swept.Returned? && work in s.accepted ==>
              && (FindsHolder(s.board, now, maxAge, leaseSeconds, j) <==> work in next.board.leases)
              && (work in next.board.leases ==>
                    && (work in next.accepted <==> !ReportsGetTo(env, s, now, maxAge, leaseSeconds, j))
                    && (work in next.accepted ==> !HeldByAcceptor(next, work)))
  {
    hide Owned, Consistent, ServiceSpec.Recover, BoardSpec.Recover, AffectedWorks, LastAcceptor, Failed, Reached,
        ReportsGetTo, AcceptedByHolder;
    OwnedBoard(s);
    RecoverExactly(env, s, now, maxAge, leaseSeconds);
    RecoveredExactlyWhenSomebodyOffers(s.board, j, now, maxAge, leaseSeconds);
    NewHolder(s.board, now, maxAge, leaseSeconds, j);
    ReachedAsForeseen(env, s, now, maxAge, leaseSeconds, j);
    var works := AffectedWorks(s.board, now, maxAge);
    var end := BoardSpec.Recover(s.board, now, maxAge, leaseSeconds).0;
    if works[j] in end.leases {
      WithdrawnAt(env, s.journal.calls, end, s.board.leases, works, j, s.board, now, maxAge);
    }
    AcceptorHolds(s, works[j]);
  }

  /** A recovery leaves accepted work with the node that accepted it exactly when the sweep cannot be made, or, for
      every accepted work that finds a new holder, all decisions before it can be attributed and are recorded. */
  lemma AcceptanceSurvivesExactlyWhen(env: Env, s: State, now: real, maxAge: real, leaseSeconds: real)
    requires Owned(s) && AcceptedByHolder(s)
    ensures var works := AffectedWorks(s.board, now, maxAge);
            AcceptedByHolder(ServiceSpec.Recover(env, s, now, maxAge, leaseSeconds).0) <==>
              || CannotRecover(s.board, now, maxAge, leaseSeconds)
              || forall j :: 0 <= j < |works| && works[j] in s.accepted ==>
                   FindsHolder(s.board, now, maxAge, leaseSeconds, j) ==>
                   ReportsGetTo(env, s, now, maxAge, leaseSeconds, j)
  {
    hide Owned, Consistent, ServiceSpec.Recover, BoardSpec.Recover, AffectedWorks, LastAcceptor, Failed, FindsHolder,
      ReportsGetTo, Withdrawn, CannotRecover;
    OwnedBoard(s);
    RecoverRaisesExactlyWhen(s.board, now, maxAge, leaseSeconds);
    RecoverExactly(env, s, now, maxAge, leaseSeconds);
    var works := AffectedWorks(s.board, now, maxAge);
    var next := ServiceSpec.Recover(env, s, now, maxAge, leaseSeconds).0;
    if BoardSpec.Recover(s.board, now, maxAge, leaseSeconds).1.Raised? {
      RaisingSweepMovesNothing(s.board, now, maxAge, leaseSeconds);
      forall w | w in next.accepted ensures HeldByAcceptor(next, w) { assert HeldByAcceptor(s, w); }
    } else {
      SweepIsReportable(s.board, now, maxAge, leaseSeconds);
      forall w | w in next.accepted && w !in works ensures HeldByAcceptor(next, w) { assert HeldByAcceptor(s, w); }
      forall j | 0 <= j < |works| && works[j] in s.accepted
        ensures FindsHolder(s.board, now, maxAge, leaseSeconds, j) <==> works[j] in next.board.leases
        ensures works[j] in next.board.leases ==>
            && (works[j] in next.accepted <==> !ReportsGetTo(env, s, now, maxAge, leaseSeconds, j))
            && (works[j] in next.accepted ==> !HeldByAcceptor(next, works[j]))
      {
        FateOfAcceptedWork(env, s, now, maxAge, leaseSeconds, j);
      }
    }
  }

  lemma WithdrawnAt(env: Env, calls: nat, board: Board, prior: map<Id, Lease>, works: seq<Id>, j: nat,
                    b: Board, now: real, maxAge: real)
    requires works == AffectedWorks(b, now, maxAge) && j < |works| && works[j] in board.leases
    ensures Withdrawn(env, calls, board, prior, works, works[j]) <==> Reached(env, calls, board, prior, works, j)
  {
    hide AffectedWorks, Reached;
    AffectedAreLeased(b, now, maxAge);
  }

  lemma NewHolder(b: Board, now: real, maxAge: real, leaseSeconds: real, j: nat)
    requires Consistent(b) && j < |AffectedWorks(b, now, maxAge)|
    ensures var (end, o) := BoardSpec.Recover(b, now, maxAge, leaseSeconds);
            var work := AffectedWorks(b, now, maxAge)[j];
            && work in b.leases
            && (o.Returned? && work in end.leases ==> end.leases[work].nodeId != b.leases[work].nodeId)
  {
    hide Consistent, BoardSpec.Recover, AffectedWorks, Failed, SweepDone, Enumerates, Stranded;
    AffectedAreLeased(b, now, maxAge);
    assert AffectedWorks(b, now, maxAge)[j] in AffectedWorks(b, now, maxAge);
    RecoveryClearsFailedNodes(b, now, maxAge, leaseSeconds);
  }

  lemma RaisingSweepMovesNothing(b: Board, now: real, maxAge: real, leaseSeconds: real)
    requires Consistent(b)
    ensures var (end, o) := BoardSpec.Recover(b, now, maxAge, leaseSeconds);
            o.Raised? ==> forall w :: w in end.leases ==> w in b.leases && end.leases[w] == b.leases[w]
  {
    hide Consistent, Reassign, HasSuccessor, Failed, AffectedWorks;
    RecoverRaisesExactlyWhen(b, now, maxAge, leaseSeconds);
    if maxAge > 0.0 && leaseSeconds <= 0.0 {
      SweepOfRecovery(b, now, maxAge, leaseSeconds);
    }
  }

  /** What a recovery that gives up breaks. Of two works of one failed node the earlier finds no new holder, the later
      is accepted and does: the recovery raises, the later work stays accepted under a node that never accepted it, and
      that node can complete it. */
  lemma AcceptanceIsInherited(env: Env, s: State, now: real, maxAge: real, leaseSeconds: real, i: nat, j: nat)
    requires Owned(s) && AcceptedByHolder(s) && i < j < |AffectedWorks(s.board, now, maxAge)|
    ensures var works := AffectedWorks(s.board, now, maxAge);
            var (lost, work) := (works[i], works[j]);
            var (next, o) := ServiceSpec.Recover(env, s, now, maxAge, leaseSeconds);
            && lost in s.board.leases && work in s.board.leases
            && (!CannotRecover(s.board, now, maxAge, leaseSeconds)
                && s.board.leases[lost].nodeId == s.board.leases[work].nodeId && work in s.accepted
                && !FindsHolder(s.board, now, maxAge, leaseSeconds, i)
                && FindsHolder(s.board, now, maxAge, leaseSeconds, j) ==>
                  && o.Raised? && (i == 0 ==> o == Raised(CannotIdentifyWork))
                  && work in next.accepted && work in next.board.leases
                  && var heir := next.board.leases[work].nodeId;
                     && LastAcceptor(next.journal.receipted, work) != Some(heir)
                     && (work !in s.pending && Receipts(env, next.journal.calls, 0) ==>
                           ServiceSpec.Complete(env, next,
                                                WorkResult(work, heir, ResultCompleted, "", false)).1.Returned?))
  {
    hide Owned, Consistent, ServiceSpec.Recover, BoardSpec.Recover, AffectedWorks, Receipts, LastAcceptor, Failed,
      CannotRecover, HasSuccessor, BoardAt;
    OwnedBoard(s);
    RecoverRaisesExactlyWhen(s.board, now, maxAge, leaseSeconds);
    RecoveredExactlyWhenSomebodyOffers(s.board, i, now, maxAge, leaseSeconds);
    RecoveredExactlyWhenSomebodyOffers(s.board, j, now, maxAge, leaseSeconds);
    var works, calls := AffectedWorks(s.board, now, maxAge), s.journal.calls;
    var (lost, work) := (works[i], works[j]);
    var (end, swept) := BoardSpec.Recover(s.board, now, maxAge, leaseSeconds);
    var (next, o) := ServiceSpec.Recover(env, s, now, maxAge, leaseSeconds);
    NewHolder(s.board, now, maxAge, leaseSeconds, i);
    NewHolder(s.board, now, maxAge, leaseSeconds, j);
    AffectedAreLeased(s.board, now, maxAge);
    if swept.Returned? && s.board.leases[lost].nodeId == s.board.leases[work].nodeId
       && lost !in end.leases && work in end.leases && work in s.accepted {
      RecoverExactly(env, s, now, maxAge, leaseSeconds);
      TwoLeases(s.board.leases, lost, work);
      assert !Tellable(end, s.board.leases, works[i]);
      WithdrawnAt(env, calls, end, s.board.leases, works, j, s.board, now, maxAge);
      assert HeldByAcceptor(s, work);
      StaysProposed(s, work);
      if i == 0 {
        FirstUnattributed(env, s, now, maxAge, leaseSeconds);
      }
      HeirCompletes(env, next, work);
    }
  }

  lemma TwoLeases(leases: map<Id, Lease>, v: Id, w: Id)
    requires v in leases && w in leases && v != w && leases[v].nodeId == leases[w].nodeId
    ensures |LeasesOn(leases, leases[v].nodeId)| > 1
  {
    SubsetSize({v, w}, LeasesOn(leases, leases[v].nodeId));
  }

  lemma StaysProposed(s: State, work: Id)
    requires Owned(s) && work in s.accepted
    ensures work in s.proposals
  {
  }

  /** When the first work cannot be attributed, that is the exception. */
  lemma FirstUnattributed(env: Env, s: State, now: real, maxAge: real, leaseSeconds: real)
    requires Owned(s) && AffectedWorks(s.board, now, maxAge) != []
    ensures var (end, swept) := BoardSpec.Recover(s.board, now, maxAge, leaseSeconds);
            swept.Returned? && !Tellable(end, s.board.leases, AffectedWorks(s.board, now, maxAge)[0]) ==>
              ServiceSpec.Recover(env, s, now, maxAge, leaseSeconds).1 == Raised(CannotIdentifyWork)
  {
    hide Owned, Consistent, BoardSpec.Recover, AffectedWorks, ReportOne, DecidedFor, Failed;
    OwnedBoard(s);
    OwnedLeases(s);
    AffectedAreLeased(s.board, now, maxAge);
    SweepIsReportable(s.board, now, maxAge, leaseSeconds);
    var (end, swept) := BoardSpec.Recover(s.board, now, maxAge, leaseSeconds);
    var works := AffectedWorks(s.board, now, maxAge);
    if swept.Returned? {
      assert works[0] in works && DecidedFor(end, s.board.leases, works[0], swept.value[0]);
      ReportOneExactly(env, s.(board := end), swept.value[0], s.board.leases, works[0]);
    }
  }

  /** Whoever holds accepted work completes it, when nothing is pending and the event is recorded. */
  lemma HeirCompletes(env: Env, s: State, work: Id)
    ensures work in s.accepted && work in s.proposals && work in s.board.leases && work !in s.pending ==>
        var result := WorkResult(work, s.board.leases[work].nodeId, ResultCompleted, "", false);
        Receipts(env, s.journal.calls, 0) ==> ServiceSpec.Complete(env, s, result).1.Returned?
  {
  }

  // ----- such a state -----

  function Organ(node: Id, skills: set<Id>, heartbeat: real): Advertisement
    requires heartbeat >= 0.0
  {
    Node(node, 0, node, SpecialistLinux, skills, 0.0, 1.0, Available, heartbeat, {}, {}, 4, 0, false, {}, {}, true,
         true)
  }

  function Needing(work: Id, skill: Id): Requirement {
    Requirement(work, 0, {skill}, {}, 0.5, 0.85, true, true, false, false, true, None, false, false)
  }

  function OnFirst(work: Id, skill: Id): Lease {
    Lease(work, 1, 1, Primary, {skill}, {}, 0.0, 60.0, NoDegradation, false)
  }

  /** Node 1 has both skills and holds works 7 and 8; node 2 has only the skill of work 8. */
  const TwoWorks: Board := Board(0,
    map[1 := Organ(1, {0, 1}, 0.0), 2 := Organ(2, {1}, 9.0)],
    map[7 := OnFirst(7, 0), 8 := OnFirst(8, 1)],
    map[7 := Needing(7, 0), 8 := Needing(8, 1)],
    map[])

  /** Node 1 has accepted work 8. */
  const Accepted: State := State(TwoWorks,
    map[7 := Proposal("", Needing(7, 0)), 8 := Proposal("", Needing(8, 1))], {8}, map[],
    Journal([], map[], 1, [LeaseEvent(WorkAccepted, OnFirst(8, 1))]), QueenSide(0, []))

  lemma AcceptedIsGood()
    ensures Owned(Accepted) && AcceptedByHolder(Accepted)
  {
    assert LastAcceptor([LeaseEvent(WorkAccepted, OnFirst(8, 1))], 8) == Some(1);
  }

  lemma FirstFailed()
    ensures Failed(TwoWorks.nodes, 10.0, 5.0) == {1}
  {
  }

  lemma BothAreAffected()
    ensures AffectedWorks(TwoWorks, 10.0, 5.0) == [7, 8]
  {
    hide Failed, AffectedWorks, Swept, Sorted, AllOffline;
    FirstFailed();
    AffectedAreStranded(TwoWorks, 10.0, 5.0);
    assert Stranded(TwoWorks, 10.0, 5.0) == {7, 8};
    EnumerationIsUnique(AffectedWorks(TwoWorks, 10.0, 5.0), [7, 8], {7, 8});
  }

  lemma NobodyTakesSeven(b: Board)
    requires b.nodes == Swept(TwoWorks, 10.0, 5.0).nodes && b.requirements == TwoWorks.requirements
    requires 7 in b.leases && b.leases[7] == OnFirst(7, 0)
    ensures !HasSuccessor(b, 7)
  {
    hide Score, LeasesOn;
    forall c
      ensures !Offers(Dropped(b, 7), Needing(7, 0), RefusalsOf(b, 7) + {1}, c)
    {
      if c.nodeId == 2 {
        assert b.nodes[2] == Organ(2, {1}, 9.0);
        assert Coverage(Needing(7, 0), b.nodes[2]).None?;
      }
    }
  }

  lemma SecondTakesEight(b: Board)
    requires b.nodes == Swept(TwoWorks, 10.0, 5.0).nodes && b.requirements == TwoWorks.requirements
    requires b.leases == map[8 := OnFirst(8, 1)] && 8 !in b.refusals
    ensures HasSuccessor(b, 8)
  {
    hide Score;
    assert b.nodes[2] == Organ(2, {1}, 9.0);
    assert Dropped(b, 8).leases == map[] && LeasesOn(Dropped(b, 8).leases, 2) == {};
    var c := Candidate(2, 2, Primary, Score(Needing(8, 1), b.nodes[2], 0, Primary), {1}, {});
    assert Offers(Dropped(b, 8), Needing(8, 1), RefusalsOf(b, 8) + {1}, c);
  }

  /** When node 1 falls silent, recovery gives up over work 7 and leaves work 8 accepted under node 2, whatever the
      sinks do. */
  lemma RecoveryCanLoseTheAcceptor(env: Env)
    ensures Owned(Accepted) && AcceptedByHolder(Accepted)
    ensures var (next, o) := ServiceSpec.Recover(env, Accepted, 10.0, 5.0, 60.0);
            o == Raised(CannotIdentifyWork) && !AcceptedByHolder(next)
  {
    hide Owned, Consistent, AcceptedByHolder, ServiceSpec.Recover, BoardSpec.Recover, AffectedWorks, HasSuccessor,
        BoardAt, ReassignOne, Swept;
    AcceptedIsGood();
    OwnedBoard(Accepted);
    BothAreAffected();
    TurnOfEight();
    AcceptanceIsInherited(env, Accepted, 10.0, 5.0, 60.0, 0, 1);
    var next := ServiceSpec.Recover(env, Accepted, 10.0, 5.0, 60.0).0;
    AcceptorHolds(next, 8);
  }

  /** Nobody takes work 7 at its turn; at the turn of work 8 only its lease is gone, and node 2 takes it. */
  lemma TurnOfEight()
    ensures !HasSuccessor(BoardAt(Swept(TwoWorks, 10.0, 5.0), [7, 8], 0, 10.0, 60.0), 7)
    ensures HasSuccessor(BoardAt(Swept(TwoWorks, 10.0, 5.0), [7, 8], 1, 10.0, 60.0), 8)
  {
    hide HasSuccessor, ReassignOne, Consistent;
    var swept := Swept(TwoWorks, 10.0, 5.0);
    AcceptedIsGood();
    OwnedBoard(Accepted);
    SweptIsConsistent(TwoWorks, 10.0, 5.0);
    SweptLeases();
    NobodyTakesSeven(swept);
    ReassignOneUnplaced(swept, 7, 10.0, 60.0);
    BoardAtFirst(swept, [7, 8], 10.0, 60.0);
    assert [7, 8][..1] == [7] && [7][1..] == [];
    assert Dropped(swept, 7).leases == map[8 := OnFirst(8, 1)];
    SecondTakesEight(Dropped(swept, 7));
  }

  lemma SweptLeases()
    ensures Swept(TwoWorks, 10.0, 5.0).leases == TwoWorks.leases
  {
  }

  // ----- runs -----

  /** The condition of `AcceptanceSurvivesExactlyWhen`, for a call that is a recovery. */
  ghost predicate SparesAcceptance(env: Env, s: State, c: Call) {
    c.RecoverCall? ==>
      var works := AffectedWorks(s.board, c.now, c.maxAge);
      || CannotRecover(s.board, c.now, c.maxAge, c.leaseSeconds)
      || forall j :: 0 <= j < |works| && works[j] in s.accepted ==>
           FindsHolder(s.board, c.now, c.maxAge, c.leaseSeconds, j) ==>
           ReportsGetTo(env, s, c.now, c.maxAge, c.leaseSeconds, j)
  }

  lemma CallSparesAcceptance(env: Env, s: State, c: Call)
    requires Owned(s) && AcceptedByHolder(s)
    ensures AcceptedByHolder(Serve(env, s, c)) <==> SparesAcceptance(env, s, c)
  {
    hide Owned, AcceptedByHolder, ServiceSpec.Recover, BoardSpec.Recover, AffectedWorks, FindsHolder, ReportsGetTo,
      CannotRecover;
    if c.RecoverCall? {
      AcceptanceSurvivesExactlyWhen(env, s, c.now, c.maxAge, c.leaseSeconds);
    } else {
      StepKeepsGood(env, s, c);
    }
  }

  /** After every call of the run, and before the first, accepted work is with the node that accepted it. */
  ghost predicate AcceptanceHolds(env: Env, s: State, calls: seq<Call>) {
    && AcceptedByHolder(ServeAll(env, s, calls))
    && (calls != [] ==> AcceptanceHolds(env, s, calls[..|calls| - 1]))
  }

  /** Every recovery of the run meets the condition, in the state in which it is called. */
  ghost predicate AllSpareAcceptance(env: Env, s: State, calls: seq<Call>) {
    calls != [] ==>
      && AllSpareAcceptance(env, s, calls[..|calls| - 1])
      && SparesAcceptance(env, ServeAll(env, s, calls[..|calls| - 1]), calls[|calls| - 1])
  }

  /** In every run, wherever the sinks fail: accepted and leased work is held by the node that accepted it throughout,
      exactly when every recovery in the run meets the condition of `AcceptanceSurvivesExactlyWhen`. */
  lemma {:induction false} AcceptanceHoldsThroughoutExactlyWhen(env: Env, bodyId: Id, calls: seq<Call>)
    ensures AcceptanceHolds(env, Start(bodyId), calls) <==> AllSpareAcceptance(env, Start(bodyId), calls)
    decreases |calls|
  {
    hide Owned, AcceptedByHolder, SparesAcceptance, Serve;
    if calls == [] {
      StartIsGood(bodyId);
    } else {
      var front := calls[..|calls| - 1];
      AcceptanceHoldsThroughoutExactlyWhen(env, bodyId, front);
      EveryReachableStateIsOwned(env, bodyId, front);
      var s := ServeAll(env, Start(bodyId), front);
      if AcceptedByHolder(s) {
        CallSparesAcceptance(env, s, calls[|calls| - 1]);
      }
    }
  }
}
