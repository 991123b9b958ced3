/** What the service keeps whatever its sinks do, and even when a recovery gives up half-way. */
module ServiceLaws {
  import opened Basics
  import opened Placement
  import opened BoardSpec
  import opened Choice
  import opened BoardLaws
  import opened BoardRuns
  import opened ServiceSpec

  /** Every lease, refusal list, acceptance and pending completion belongs to an active proposal. */
  ghost predicate Owned(s: State) {
    && Consistent(s.board)
    && s.board.leases.Keys <= s.proposals.Keys
    && s.board.refusals.Keys <= s.proposals.Keys
    && s.accepted <= s.proposals.Keys
    && s.pending.Keys <= s.proposals.Keys
    && (forall w :: w in s.proposals ==> s.proposals[w].requirement.workId == w)
    && (forall w :: w in s.pending ==> s.pending[w].result.work == w)
  }

  // ----- how the board's calls move keys about -----

  /** Nothing new is leased, and only leased works gain refusals. */
  ghost predicate Shrinks(b: Board, next: Board) {
    && next.bodyId == b.bodyId
    && next.leases.Keys <= b.leases.Keys
    && next.refusals.Keys <= b.refusals.Keys + b.leases.Keys
  }

  lemma PlaceMoves(b: Board, req: Requirement, now: real, leaseSeconds: real)
    requires Consistent(b)
    ensures var (next, o) := BoardSpec.Place(b, req, now, leaseSeconds, {});
            && Consistent(next)
            && next.bodyId == b.bodyId && next.nodes == b.nodes && next.refusals == b.refusals
            && next.leases.Keys <= b.leases.Keys + {req.workId}
            && (forall w :: w in next.leases && w != req.workId ==> w in b.leases && next.leases[w] == b.leases[w])
            && (o.Returned? && o.value.lease.Some? ==>
                  && req.workId in next.leases && next.leases[req.workId] == o.value.lease.value
                  && o.value.lease.value.workId == req.workId)
            && (o.Returned? && req.workId !in b.leases ==>
                  next.leases == if o.value.lease.Some? then Unexpired(b.leases, now)[req.workId := o.value.lease.value]
                                 else Unexpired(b.leases, now))
            && (o.Raised? ==> next == b)
  {
    hide PlaceOn, ExclusionReason;
    PlaceKeepsConsistency(b, req, now, leaseSeconds, {});
    var live := b.(leases := Unexpired(b.leases, now));
    var stored := live.(requirements := b.requirements[req.workId := req]);
    PlaceOnEffect(stored, req, now, leaseSeconds, {} + RefusalsOf(b, req.workId));
    PlaceOnRaises(stored, req, now, leaseSeconds, {} + RefusalsOf(b, req.workId));
    if req.workId in live.leases { assert LeaseSound(b, req.workId); }
  }

  lemma RefuseMoves(b: Board, work: Id, node: Id, reason: string, now: real, leaseSeconds: real)
    requires Consistent(b) && work in b.leases && b.leases[work].nodeId == node && reason != ""
    ensures var (next, o) := BoardSpec.Refuse(b, work, node, reason, now, leaseSeconds);
            && Consistent(next)
            && Shrinks(b, next)
            && (forall w :: w != work ==>
                  (w in next.leases <==> w in b.leases) && (w in next.leases ==> next.leases[w] == b.leases[w]))
            && (o.Returned? && o.value.lease.Some? ==>
                  work in next.leases && next.leases[work] == o.value.lease.value && o.value.lease.value.workId == work)
            && (o.Returned? && o.value.lease.None? ==> work !in next.leases)
            && (o.Raised? ==> work !in next.leases)
  {
    hide PlaceOn, ExclusionReason, Consistent;
    ConsistentLease(b, work);
    RefuseKeepsConsistency(b, work, node, reason, now, leaseSeconds);
    var dropped := Dropped(b, work);
    PlaceOnEffect(dropped, b.requirements[work], now, leaseSeconds, dropped.refusals[work]);
  }

  lemma ReassignOneShrinks(b: Board, work: Id, now: real, leaseSeconds: real)
    requires Consistent(b) && work in b.leases
    ensures Shrinks(b, ReassignOne(b, work, now, leaseSeconds).0)
  {
    hide PlaceOn, ExclusionReason, Consistent;
    ConsistentLease(b, work);
    var dropped := Dropped(b, work);
    PlaceOnEffect(dropped, b.requirements[work], now, leaseSeconds, dropped.refusals[work]);
  }

  lemma {:induction false} ReassignShrinks(b: Board, works: seq<Id>, now: real, leaseSeconds: real)
    requires Consistent(b)
    ensures Shrinks(b, Reassign(b, works, now, leaseSeconds).0)
    decreases |works|
  {
    hide ReassignOne, Consistent;
    if works == [] {
    } else if works[0] !in b.leases {
      ReassignShrinks(b, works[1..], now, leaseSeconds);
    } else {
      ReassignOneShrinks(b, works[0], now, leaseSeconds);
      ReassignOneKeepsConsistency(b, works[0], now, leaseSeconds);
      ReassignShrinks(ReassignOne(b, works[0], now, leaseSeconds).0, works[1..], now, leaseSeconds);
    }
  }

  lemma RecoverShrinks(b: Board, now: real, maxAge: real, leaseSeconds: real)
    requires Consistent(b)
    ensures Consistent(BoardSpec.Recover(b, now, maxAge, leaseSeconds).0)
    ensures Shrinks(b, BoardSpec.Recover(b, now, maxAge, leaseSeconds).0)
  {
    hide Reassign, Consistent;
    SweptIsConsistent(b, now, maxAge);
    ReassignShrinks(Swept(b, now, maxAge), AffectedWorks(b, now, maxAge), now, leaseSeconds);
    ReassignKeepsConsistency(Swept(b, now, maxAge), AffectedWorks(b, now, maxAge), now, leaseSeconds);
  }

  // ----- each call keeps ownership -----

  lemma EmitKeepsOwned(env: Env, s: State, e: Event)
    requires Owned(s)
    ensures Owned(Emit(env, s, e).0)
    ensures Emit(env, s, e).0 == s.(journal := Emit(env, s, e).0.journal)
  {
    hide Consistent, Answered;
  }

  lemma RollbackKeepsOwned(s: State, work: Id, node: Id)
    requires Consistent(s.board)
    requires Owned(s) && work in s.board.leases && s.board.leases[work].nodeId == node
    requires work !in s.accepted && work !in s.pending
    ensures Owned(RolledBack(s, work, node))
  {
    CompleteKeepsConsistency(s.board, work, node);
  }

  lemma OfferKeepsOwned(env: Env, s: State, lease: Lease)
    requires Owned(s) && lease.workId in s.board.leases && s.board.leases[lease.workId] == lease
    requires lease.workId !in s.accepted && lease.workId !in s.pending
    ensures Owned(MakeOffer(env, s, lease).0)
  {
    hide Consistent, Answered, Owned, RolledBack;
    var s1 := Emit(env, s, LeaseEvent(WorkOffered, lease)).0;
    EmitKeepsOwned(env, s, LeaseEvent(WorkOffered, lease));
    OwnedBoard(s1);
    RollbackKeepsOwned(s1, lease.workId, lease.nodeId);
    EmitKeepsOwned(env, s1, NodeEvent(WorkDegraded, lease));
    OwnedBoard(Emit(env, s1, NodeEvent(WorkDegraded, lease)).0);
    RollbackKeepsOwned(Emit(env, s1, NodeEvent(WorkDegraded, lease)).0, lease.workId, lease.nodeId);
  }

  lemma OwnedBoard(s: State)
    requires Owned(s)
    ensures Consistent(s.board)
  {
  }

  lemma SubmitKeepsOwned(env: Env, s: State, p: Proposal, now: real, leaseSeconds: real)
    requires Owned(s)
    ensures Owned(Submit(env, s, p, now, leaseSeconds).0)
  {
    hide Consistent, Answered, MakeOffer, BoardSpec.Place;
    var work := p.requirement.workId;
    if now >= 0.0 && work !in s.proposals {
      PlaceMoves(s.board, p.requirement, now, leaseSeconds);
      var (board, o) := BoardSpec.Place(s.board, p.requirement, now, leaseSeconds, {});
      var placed := s.(board := board);
      if o.Returned? {
        if o.value.lease.Some? {
          OfferKeepsOwned(env, placed.(proposals := placed.proposals[work := p]), o.value.lease.value);
        } else {
          assert Owned(placed);
          EmitKeepsOwned(env, placed, LostEvent(work));
        }
      }
    }
  }

  lemma AcceptKeepsOwned(env: Env, s: State, work: Id, node: Id)
    requires Owned(s)
    ensures Owned(Accept(env, s, work, node).0)
  {
    hide Consistent, Answered;
  }

  lemma ReofferKeepsOwned(env: Env, s: State, work: Id, node: Id, reason: string, now: real, leaseSeconds: real,
                          told: seq<nat>)
    requires Owned(s) && work in s.board.leases && s.board.leases[work].nodeId == node && reason != ""
    ensures Owned(Reoffer(env, s, work, node, reason, now, leaseSeconds, told).0)
  {
    hide Consistent, Answered, BoardSpec.Refuse;
    RefuseMoves(s.board, work, node, reason, now, leaseSeconds);
    var (board, o) := BoardSpec.Refuse(s.board, work, node, reason, now, leaseSeconds);
    assert Owned(s.(board := board));
    assert Owned(s.(board := board, accepted := s.accepted - {work}));
  }

  lemma RefuseKeepsOwned(env: Env, s: State, work: Id, node: Id, reason: string, now: real, leaseSeconds: real)
    requires Owned(s)
    ensures Owned(ServiceSpec.Refuse(env, s, work, node, reason, now, leaseSeconds).0)
  {
    hide Consistent, Answered, Reoffer, Owned;
    if reason != "" && OwnershipError(s, work, node).None? {
      var lease := s.board.leases[work];
      EmitKeepsOwned(env, s, NodeEvent(WorkRefused, lease));
      var s1 := Emit(env, s, NodeEvent(WorkRefused, lease)).0;
      EmitKeepsOwned(env, s1, NodeEvent(HandoffRequested, lease));
      var s2 := Emit(env, s1, NodeEvent(HandoffRequested, lease)).0;
      if env.sink(s.journal.calls) == Recorded && env.sink(s1.journal.calls) == Recorded {
        ReofferKeepsOwned(env, s2, work, node, reason, now, leaseSeconds, [s.journal.calls, s1.journal.calls]);
      }
    }
  }

  lemma CompletionKeepsOwned(env: Env, s: State, result: WorkResult, lease: Lease)
    requires Owned(s) && result.work in s.proposals
    ensures var next := Completion(env, s, result, lease).0;
            Owned(next) && next == s.(journal := next.journal, pending := next.pending)
    ensures Completion(env, s, result, lease).1.Returned? ==> result.work in Completion(env, s, result, lease).0.pending
  {
    hide Consistent, Answered;
  }

  lemma CompleteKeepsOwned(env: Env, s: State, result: WorkResult)
    requires Owned(s)
    ensures Owned(ServiceSpec.Complete(env, s, result).0)
  {
    hide Answered, Completion, Consistent;
    if OwnershipError(s, result.work, result.node).None? && result.work in s.accepted {
      var lease := s.board.leases[result.work];
      CompletionKeepsOwned(env, s, result, lease);
      var (s1, receipt) := Completion(env, s, result, lease);
      if receipt.Returned? {
        var s2 := Escalate(env, s1, result, receipt.value).0;
        assert Owned(s2);
        CompleteKeepsConsistency(s2.board, result.work, result.node);
      }
    }
  }

  lemma ReportOneKeepsOwned(env: Env, s: State, d: Decision, prior: map<Id, Lease>)
    requires Owned(s)
    ensures var next := ReportOne(env, s, d, prior).0;
            Owned(next) && next == s.(journal := next.journal, accepted := next.accepted)
  {
    hide Consistent, Answered, RecoveredWork;
  }

  lemma {:induction false} ReportKeepsOwned(env: Env, s: State, ds: seq<Decision>, prior: map<Id, Lease>)
    requires Owned(s)
    ensures var next := Report(env, s, ds, prior).0;
            Owned(next) && next == s.(journal := next.journal, accepted := next.accepted)
    decreases |ds|
  {
    hide ReportOne, Owned;
    if ds != [] {
      ReportOneKeepsOwned(env, s, ds[0], prior);
      ReportKeepsOwned(env, ReportOne(env, s, ds[0], prior).0, ds[1..], prior);
    }
  }

  lemma RecoverKeepsOwned(env: Env, s: State, now: real, maxAge: real, leaseSeconds: real)
    requires Owned(s)
    ensures Owned(ServiceSpec.Recover(env, s, now, maxAge, leaseSeconds).0)
  {
    hide Consistent, Report, BoardSpec.Recover;
    RecoverShrinks(s.board, now, maxAge, leaseSeconds);
    var (board, o) := BoardSpec.Recover(s.board, now, maxAge, leaseSeconds);
    assert Owned(s.(board := board));
    if o.Returned? {
      ReportKeepsOwned(env, s.(board := board), o.value, s.board.leases);
    }
  }

  lemma RegisterKeepsOwned(env: Env, s: State, ad: Advertisement)
    requires Owned(s)
    ensures Owned(RegisterNode(env, s, ad).0)
  {
    hide Answered;
    StepKeepsConsistency(s.board, RegisterOp(ad));
    StepKeepsConsistency(Registered(s.board, ad), RemoveOp(ad.nodeId));
    hide Consistent;
  }

  lemma StepKeepsOwned(env: Env, s: State, c: Call)
    requires Owned(s)
    ensures Owned(Serve(env, s, c))
  {
    hide Owned, RegisterNode, Submit, Accept, ServiceSpec.Refuse, ServiceSpec.Complete, ServiceSpec.Recover;
    match c
    case RegisterCall(ad) => RegisterKeepsOwned(env, s, ad);
    case SubmitCall(p, now, leaseSeconds) => SubmitKeepsOwned(env, s, p, now, leaseSeconds);
    case AcceptCall(work, node) => AcceptKeepsOwned(env, s, work, node);
    case RefuseCall(work, node, reason, now, leaseSeconds) =>
      RefuseKeepsOwned(env, s, work, node, reason, now, leaseSeconds);
    case CompleteCall(result) => CompleteKeepsOwned(env, s, result);
    case RecoverCall(now, maxAge, leaseSeconds) => RecoverKeepsOwned(env, s, now, maxAge, leaseSeconds);
  }

  /** In every run, whatever fails, nothing outlives its proposal. */
  lemma {:induction false} EveryReachableStateIsOwned(env: Env, bodyId: Id, calls: seq<Call>)
    ensures Owned(ServeAll(env, Start(bodyId), calls))
    decreases |calls|
  {
    hide Serve;
    if calls != [] {
      EveryReachableStateIsOwned(env, bodyId, calls[..|calls| - 1]);
      StepKeepsOwned(env, ServeAll(env, Start(bodyId), calls[..|calls| - 1]), calls[|calls| - 1]);
    }
  }

  // ----- a submit that raised leaves no trace of the proposal -----

  /** When a submit raises because an event was not recorded, leases, refusals and proposals are exactly what
      reaping expired leases leaves; acceptances, pending completions, nodes and Queen deliveries are untouched. */
  lemma FailedSubmitLeavesNothing(env: Env, s: State, p: Proposal, now: real, leaseSeconds: real)
    requires Owned(s)
    ensures var (next, o) := Submit(env, s, p, now, leaseSeconds);
            o == Raised(EventNotRecorded) ==>
              && next.board.leases == Unexpired(s.board.leases, now)
              && next.board.refusals == s.board.refusals
              && next.board.nodes == s.board.nodes
              && next.proposals == s.proposals
              && next.accepted == s.accepted && next.pending == s.pending && next.queen == s.queen
  {
    hide Consistent, Answered, BoardSpec.Place;
    var work := p.requirement.workId;
    if now >= 0.0 && work !in s.proposals {
      PlaceMoves(s.board, p.requirement, now, leaseSeconds);
      var (board, o) := BoardSpec.Place(s.board, p.requirement, now, leaseSeconds, {});
      if o.Returned? && o.value.lease.Some? {
        var lease := o.value.lease.value;
        var offering := s.(board := board, proposals := s.proposals[work := p]);
        OfferRollsBack(env, offering, lease);
        assert board.leases - {work} == Unexpired(s.board.leases, now);
        assert s.board.refusals - {work} == s.board.refusals;
        assert s.proposals[work := p] - {work} == s.proposals;
      }
    }
  }

  lemma OfferRollsBack(env: Env, s: State, lease: Lease)
    requires lease.workId in s.board.leases && s.board.leases[lease.workId] == lease
    ensures var (next, o) := MakeOffer(env, s, lease);
            o.Raised? ==> next == RolledBack(s, lease.workId, lease.nodeId).(journal := next.journal)
  {
    hide Answered;
  }
}
