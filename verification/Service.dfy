/** The service, its lifecycle journal and its Queen sink as mutable objects, each method proved to do what
    module ServiceSpec says. */
module Service {
  import opened Basics
  import opened Placement
  import opened BoardSpec
  import opened ServiceSpec
  import opened Coordinator

  /** The journal and the restart-detection state kept beside it. */
  class RuntimeLifecycleJournal {
    const sink: nat -> SinkAnswer
    const interrupted: seq<Id>
    var records: seq<Event>
    var active: map<Id, ActiveEntry>
    var calls: nat
    ghost var receipted: seq<Event>

    /** A new process: what the last one left listed is reported as interrupted, and the list starts empty. */
    constructor (sink: nat -> SinkAnswer, records: seq<Event>, prior: map<Id, ActiveEntry>)
      ensures this.sink == sink && interrupted == Interrupted(prior)
      ensures Abs() == Journal(records, map[], 0, [])
    {
      this.sink := sink;
      this.records := records;
      active, calls, receipted := map[], 0, [];
      var order := SortedKeys(prior.Keys);
      interrupted := order;
    }

    ghost function Abs(): Journal
      reads this
    {
      Journal(records, active, calls, receipted)
    }

    method Record(e: Event) returns (r: Outcome<nat, ServiceError>)
      modifies this
      ensures Abs() == Answered(old(Abs()), sink(old(calls)), e)
      ensures r == if sink(old(calls)) == Recorded then Returned(old(calls)) else Raised(EventNotRecorded)
    {
      var receipt, answer := calls, sink(calls);
      calls := calls + 1;
      if answer == FailedBefore {
        return Raised(EventNotRecorded);
      }
      records := records + [e];
      if answer == FailedBetween {
        return Raised(EventNotRecorded);
      }
      if e.kind in {WorkOffered, WorkAccepted, RecoveryReassigned} {
        active := active[e.subject := ActiveEntry(e.kind, e.node, e.organ, e.leaseId, receipt)];
      } else if e.kind == WorkCompleted {
        active := active - {e.subject};
      } else if e.kind == WorkDegraded && e.node == None {
        active := active - {e.subject};
      }
      if answer == FailedAfter {
        return Raised(EventNotRecorded);
      }
      receipted := receipted + [e];
      return Returned(receipt);
    }
  }

  class QueenResultSink {
    const answer: nat -> bool
    var calls: nat
    var delivered: seq<QueenRecord>

    constructor (answer: nat -> bool)
      ensures this.answer == answer && calls == 0 && delivered == []
    {
      this.answer := answer;
      calls, delivered := 0, [];
    }

    method Deliver(record: QueenRecord) returns (ok: bool)
      modifies this
      ensures ok == answer(old(calls)) && calls == old(calls) + 1
      ensures delivered == if ok then old(delivered) + [record] else old(delivered)
    {
      ok := answer(calls);
      calls := calls + 1;
      if ok {
        delivered := delivered + [record];
      }
    }
  }

  class DistributedWorkService {
    const coordinator: DistributedWorkCoordinator
    const lifecycle: RuntimeLifecycleJournal
    const hasQueen: bool
    const queen: QueenResultSink
    var proposals: map<Id, Proposal>
    var accepted: set<Id>
    var pending: map<Id, Pending>

    constructor (coordinator: DistributedWorkCoordinator, lifecycle: RuntimeLifecycleJournal, hasQueen: bool,
                 queen: QueenResultSink)
      ensures this.coordinator == coordinator && this.lifecycle == lifecycle && this.hasQueen == hasQueen
          && this.queen == queen
      ensures proposals == map[] && accepted == {} && pending == map[]
    {
      this.coordinator, this.lifecycle, this.hasQueen, this.queen := coordinator, lifecycle, hasQueen, queen;
      proposals, accepted, pending := map[], {}, map[];
    }

    ghost function Abs(): State
      reads this, coordinator, coordinator.registry, lifecycle, queen
    {
      State(coordinator.Abs(), proposals, accepted, pending, lifecycle.Abs(), QueenSide(queen.calls, queen.delivered))
    }

    ghost function Surroundings(): Env {
      Env(lifecycle.sink, hasQueen, queen.answer)
    }

    method RegisterNode(ad: Advertisement) returns (r: Outcome<bool, ServiceError>)
      modifies coordinator.registry, lifecycle
      ensures (Abs(), r) == ServiceSpec.RegisterNode(Surroundings(), old(Abs()), ad)
    {
      var decision := coordinator.registry.Register(ad);
      if !decision.accepted {
        return Returned(false);
      }
      var evidence := lifecycle.Record(Event(NodeAdvertised, ad.nodeId, Some(ad.nodeId), Some(ad.organ), None));
      if evidence.Raised? {
        var _ := coordinator.registry.Remove(ad.nodeId);
        return Raised(evidence.error);
      }
      return Returned(true);
    }

    method Submit(p: Proposal, now: real, leaseSeconds: real) returns (r: Result)
      modifies this, coordinator, lifecycle
      ensures (Abs(), r) == ServiceSpec.Submit(Surroundings(), old(Abs()), p, now, leaseSeconds)
    {
      hide BoardSpec.Place, Answered;
      if now < 0.0 {
        return Raised(NegativeNow);
      }
      var work := p.requirement.workId;
      if work in proposals {
        return Raised(AlreadyActive);
      }
      var placement := coordinator.Place(p.requirement, now, leaseSeconds, {});
      if placement.Raised? {
        return Raised(CoordinatorRaised(placement.error));
      }
      var decision := placement.value;
      if decision.lease.None? {
        r := ReportLoss(work, decision, []);
        return;
      }
      proposals := proposals[work := p];
      r := OfferLease(decision.lease.value);
    }

    method OfferLease(lease: Lease) returns (r: Result)
      modifies this, coordinator, lifecycle
      ensures (Abs(), r) == MakeOffer(Surroundings(), old(Abs()), lease)
    {
      hide Answered;
      var offered := lifecycle.Record(LeaseEvent(WorkOffered, lease));
      if offered.Raised? {
        RollBack(lease.workId, lease.nodeId);
        return Raised(offered.error);
      }
      var receipts := [offered.value];
      if lease.degradation != NoDegradation {
        var degraded := lifecycle.Record(NodeEvent(WorkDegraded, lease));
        if degraded.Raised? {
          RollBack(lease.workId, lease.nodeId);
          return Raised(degraded.error);
        }
        receipts := [offered.value, degraded.value];
      }
      return Returned(LeaseOutcome(Offered, lease, receipts, false));
    }

    method RollBack(work: Id, node: Id)
      modifies this`proposals, coordinator
      ensures Abs() == RolledBack(old(Abs()), work, node)
    {
      var _ := coordinator.Complete(work, node);
      proposals := proposals - {work};
    }

    method ReportLoss(work: Id, decision: Decision, told: seq<nat>) returns (r: Result)
      modifies lifecycle
      ensures (Abs(), r) == Lose(Surroundings(), old(Abs()), work, decision, told)
    {
      var lost := lifecycle.Record(LostEvent(work));
      r := if lost.Raised? then Raised(lost.error) else Returned(LostOutcome(work, decision, told + [lost.value]));
    }

    method CheckOwnership(work: Id, node: Id) returns (error: Option<ServiceError>)
      ensures error == OwnershipError(Abs(), work, node)
    {
      if work !in proposals {
        return Some(UnknownWork);
      }
      var lease := coordinator.LeaseFor(work);
      if lease.None? {
        return Some(NoActiveLease);
      }
      if lease.value.nodeId != node {
        return Some(LeaseNotOwnedByNode);
      }
      return None;
    }

    method Accept(work: Id, node: Id) returns (r: Result)
      modifies this, lifecycle
      ensures (Abs(), r) == ServiceSpec.Accept(Surroundings(), old(Abs()), work, node)
    {
      hide Answered;
      var error := CheckOwnership(work, node);
      if error.Some? {
        return Raised(error.value);
      }
      var lease := coordinator.leases[work];
      var evidence := lifecycle.Record(LeaseEvent(WorkAccepted, lease));
      if evidence.Raised? {
        return Raised(evidence.error);
      }
      accepted := accepted + {work};
      return Returned(LeaseOutcome(AcceptedState, lease, [evidence.value], false));
    }

    method Refuse(work: Id, node: Id, reason: string, now: real, leaseSeconds: real) returns (r: Result)
      modifies this, coordinator, lifecycle
      ensures (Abs(), r) == ServiceSpec.Refuse(Surroundings(), old(Abs()), work, node, reason, now, leaseSeconds)
    {
      hide Answered, Reoffer;
      if reason == "" {
        return Raised(RefusalReasonRequired);
      }
      var error := CheckOwnership(work, node);
      if error.Some? {
        return Raised(error.value);
      }
      var lease := coordinator.leases[work];
      var refused := lifecycle.Record(NodeEvent(WorkRefused, lease));
      if refused.Raised? {
        return Raised(refused.error);
      }
      var handoff := lifecycle.Record(NodeEvent(HandoffRequested, lease));
      if handoff.Raised? {
        return Raised(handoff.error);
      }
      r := Reassign(work, node, reason, now, leaseSeconds, [refused.value, handoff.value]);
    }

    method Reassign(work: Id, node: Id, reason: string, now: real, leaseSeconds: real, told: seq<nat>)
      returns (r: Result)
      modifies this, coordinator, lifecycle
      ensures (Abs(), r) == Reoffer(Surroundings(), old(Abs()), work, node, reason, now, leaseSeconds, told)
    {
      hide Answered, BoardSpec.Refuse;
      var reassigned := coordinator.RefuseAndReassign(work, node, reason, now, leaseSeconds);
      if reassigned.Raised? {
        return Raised(CoordinatorRaised(reassigned.error));
      }
      var decision := reassigned.value;
      accepted := accepted - {work};
      if decision.lease.None? {
        r := ReportLoss(work, decision, told);
        return;
      }
      var offered := lifecycle.Record(LeaseEvent(WorkOffered, decision.lease.value));
      if offered.Raised? {
        return Raised(offered.error);
      }
      return Returned(LeaseOutcome(ReassignedOffered, decision.lease.value, told + [offered.value], false));
    }

    method Complete(result: WorkResult) returns (r: Result)
      modifies this, coordinator, lifecycle, queen
      ensures (Abs(), r) == ServiceSpec.Complete(Surroundings(), old(Abs()), result)
    {
      hide Answered;
      var error := CheckOwnership(result.work, result.node);
      if error.Some? {
        return Raised(error.value);
      }
      if result.work !in accepted {
        return Raised(NotAccepted);
      }
      var lease := coordinator.leases[result.work];
      var receipt: nat;
      if result.work !in pending {
        var completion := lifecycle.Record(LeaseEvent(WorkCompleted, lease));
        if completion.Raised? {
          return Raised(completion.error);
        }
        receipt := completion.value;
        pending := pending[result.work := Pending(result, receipt)];
      } else {
        if pending[result.work].result != result {
          return Raised(DifferentResult);
        }
        receipt := pending[result.work].receipt;
      }
      var escalated := false;
      if result.important {
        if !hasQueen {
          return Raised(NoQueenSink);
        }
        escalated := queen.Deliver(QueenRecord(result, receipt));
        if !escalated {
          return Raised(QueenSinkFailed);
        }
      }
      var closed := coordinator.Complete(result.work, result.node);
      if !closed {
        return Raised(CouldNotClose);
      }
      accepted := accepted - {result.work};
      proposals := proposals - {result.work};
      pending := pending - {result.work};
      return Returned(LeaseOutcome(CompletedState, lease, [receipt], escalated));
    }

    method Recover(now: real, maxAge: real, leaseSeconds: real) returns (r: Outcome<seq<ServiceOutcome>, ServiceError>)
      modifies this, coordinator, coordinator.registry, lifecycle
      ensures (Abs(), r) == ServiceSpec.Recover(Surroundings(), old(Abs()), now, maxAge, leaseSeconds)
    {
      hide BoardSpec.Recover, Report;
      var prior := coordinator.leases;
      var recovered := coordinator.RecoverUnavailableNodes(now, maxAge, leaseSeconds);
      if recovered.Raised? {
        return Raised(CoordinatorRaised(recovered.error));
      }
      r := ReportAll(recovered.value, prior);
    }

    method ReportAll(decisions: seq<Decision>, prior: map<Id, Lease>)
      returns (r: Outcome<seq<ServiceOutcome>, ServiceError>)
      modifies this, lifecycle
      ensures (Abs(), r) == Report(Surroundings(), old(Abs()), decisions, prior)
    {
      hide ReportOne;
      var outcomes: seq<ServiceOutcome> := [];
      ghost var start := Abs();
      assert decisions[0..] == decisions;
      PrependNothing(Report(Surroundings(), start, decisions, prior).1);
      for i := 0 to |decisions|
        invariant Report(Surroundings(), start, decisions, prior).0
            == Report(Surroundings(), Abs(), decisions[i..], prior).0
        invariant Report(Surroundings(), start, decisions, prior).1
               == Prepended(outcomes, Report(Surroundings(), Abs(), decisions[i..], prior).1)
      {
        assert decisions[i..][0] == decisions[i] && decisions[i..][1..] == decisions[i + 1..];
        var o := ReportDecision(decisions[i], prior);
        if o.Raised? {
          return Raised(o.error);
        }
        PrependOne(outcomes, o.value, Report(Surroundings(), Abs(), decisions[i + 1..], prior).1);
        outcomes := outcomes + [o.value];
      }
      assert decisions[|decisions|..] == [] && outcomes + [] == outcomes;
      r := Returned(outcomes);
    }

    method ReportDecision(decision: Decision, prior: map<Id, Lease>) returns (r: Result)
      modifies this, lifecycle
      ensures (Abs(), r) == ReportOne(Surroundings(), old(Abs()), decision, prior)
    {
      hide Answered;
      var work := WorkOf(decision, prior);
      if work.None? {
        return Raised(CannotIdentifyWork);
      }
      if work.value !in proposals || work.value !in prior {
        return Raised(UnknownWork);
      }
      accepted := accepted - {work.value};
      if decision.lease.Some? {
        var lease := decision.lease.value;
        var evidence := lifecycle.Record(LeaseEvent(RecoveryReassigned, lease));
        if evidence.Raised? {
          return Raised(evidence.error);
        }
        return Returned(LeaseOutcome(RecoveryReassignedState, lease, [evidence.value], false));
      }
      r := ReportLoss(work.value, decision, []);
    }

    /** `_work_id_from_recovery_reason`, for decisions that carry no lease. */
    method WorkOf(decision: Decision, prior: map<Id, Lease>) returns (work: Option<Id>)
      ensures work == RecoveredWork(decision, prior)
    {
      if decision.lease.Some? {
        return Some(decision.lease.value.workId);
      }
      var matches := Suspects(decision, prior);
      if |matches| != 1 {
        return None;
      }
      var w :| w in matches;
      OnlyOne(matches, w);
      return Some(w);
    }
  }

  lemma OnlyOne(s: set<Id>, w: Id)
    requires |s| == 1 && w in s
    ensures s == {w}
  {
    EqualBySize({w}, s);
  }

  function Prepended(done: seq<ServiceOutcome>, o: Outcome<seq<ServiceOutcome>, ServiceError>)
    : Outcome<seq<ServiceOutcome>, ServiceError>
  {
    match o
    case Raised(e) => Raised(e)
    case Returned(rest) => Returned(done + rest)
  }

  lemma PrependNothing(o: Outcome<seq<ServiceOutcome>, ServiceError>)
    ensures Prepended([], o) == o
  {
    if o.Returned? { assert [] + o.value == o.value; }
  }

  lemma PrependOne(done: seq<ServiceOutcome>, one: ServiceOutcome, o: Outcome<seq<ServiceOutcome>, ServiceError>)
    ensures Prepended(done + [one], o) == Prepended(done, Prepended([one], o))
  {
    if o.Returned? { assert done + [one] + o.value == done + ([one] + o.value); }
  }
}
