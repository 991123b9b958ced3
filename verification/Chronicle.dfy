/** What each call of the service tells the lifecycle journal, event by event, and what it answers its caller. */
module Chronicle {
  import opened Basics
  import opened Placement
  import opened BoardSpec
  import opened BoardLaws
  import opened BoardRuns
  import opened ServiceSpec
  import opened ServiceLaws

  /** The journal after these events were sent to it, until one does not come back with a receipt; whether all did. */
  function Chronicled(env: Env, j: Journal, events: seq<Event>): (Journal, bool)
    decreases |events|
  {
    if events == [] then (j, true)
    else
      var answer := env.sink(j.calls);
      var next := Answered(j, answer, events[0]);
      if answer == Recorded then Chronicled(env, next, events[1..]) else (next, false)
  }

  /** The receipts of n events, the first of which is sink call `calls`. */
  function Receipts(calls: nat, n: nat): seq<nat> {
    seq(n, i requires 0 <= i < n => calls + i)
  }

  predicate Comes(env: Env, call: nat) { env.sink(call) == Recorded }

  /** How many of the events came back with a receipt. */
  function Came(env: Env, calls: nat, n: nat): (k: nat)
    ensures k <= n
    ensures forall i: nat :: calls <= i < calls + k ==> Comes(env, i)
    ensures k < n ==> !Comes(env, calls + k)
    decreases n
  {
    if n == 0 || env.sink(calls) != Recorded then 0 else 1 + Came(env, calls + 1, n - 1)
  }

  /** The first k events came back: they are appended, in order, and receipted. Of the next one, if it was sent, the
      sink may have kept the record; later ones were never sent. */
  ghost predicate Kept(env: Env, j: Journal, events: seq<Event>, k: nat, next: Journal)
    requires k <= |events|
  {
    && next.receipted == j.receipted + events[..k]
    && next.calls == j.calls + (if k == |events| then k else k + 1)
    && next.records == j.records + events[..k] + Leftover(env, j.calls, events, k)
  }

  lemma {:induction false} ChronicledMeans(env: Env, j: Journal, events: seq<Event>)
    ensures var (next, all) := Chronicled(env, j, events);
            var k := Came(env, j.calls, |events|);
            (all <==> k == |events|) && Kept(env, j, events, k, next)
    decreases |events|
  {
    hide Indexed, Leftover;
    if events == [] {
      NoLeftover(env, j.calls, events);
    } else if env.sink(j.calls) == Recorded {
      hide Kept;
      var next := Answered(j, Recorded, events[0]);
      ChronicledMeans(env, next, events[1..]);
      KeptOneMore(env, j, events, Came(env, next.calls, |events| - 1), Chronicled(env, next, events[1..]).0);
    } else {
      FirstLeftover(env, j, events);
    }
  }

  lemma KeptOneMore(env: Env, j: Journal, events: seq<Event>, k: nat, end: Journal)
    requires events != [] && env.sink(j.calls) == Recorded && k < |events|
    requires Kept(env, Answered(j, Recorded, events[0]), events[1..], k, end)
    ensures Kept(env, j, events, k + 1, end)
  {
    hide Indexed, Leftover;
    LeftoverLater(env, j.calls, events, k);
    assert events[..k + 1] == [events[0]] + events[1..][..k];
  }

  /** The record a sink kept of the first event that did not come back. */
  function Leftover(env: Env, calls: nat, events: seq<Event>, k: nat): seq<Event> {
    if k < |events| && env.sink(calls + k) != FailedBefore then [events[k]] else []
  }

  lemma NoLeftover(env: Env, calls: nat, events: seq<Event>)
    ensures Leftover(env, calls, events, |events|) == []
  {
  }

  lemma LeftoverLater(env: Env, calls: nat, events: seq<Event>, k: nat)
    requires events != []
    ensures Leftover(env, calls + 1, events[1..], k) == Leftover(env, calls, events, k + 1)
  {
  }

  lemma FirstLeftover(env: Env, j: Journal, events: seq<Event>)
    requires events != [] && env.sink(j.calls) != Recorded
    ensures Answered(j, env.sink(j.calls), events[0]).records == j.records + Leftover(env, j.calls, events, 0)
  {
  }

  lemma ChronicleOfOne(env: Env, s: State, e: Event)
    ensures var (next, o) := Emit(env, s, e);
            && (next.journal, o.Returned?) == Chronicled(env, s.journal, [e])
            && next == s.(journal := next.journal)
            && (o.Returned? ==> o.value == s.journal.calls && next.journal.calls == s.journal.calls + 1)
            && (o.Raised? ==> o.error == EventNotRecorded)
  {
    hide Indexed;
    assert [e][1..] == [];
  }

  lemma ChronicleJoins(env: Env, j: Journal, e: Event, rest: seq<Event>)
    ensures var (next, came) := Chronicled(env, j, [e]);
            Chronicled(env, j, [e] + rest) == if came then Chronicled(env, next, rest) else (next, false)
  {
    hide Answered;
    assert [e][1..] == [] && ([e] + rest)[1..] == rest;
  }

  /** The call told the journal these events. It returned, with their receipts, exactly when all came back. */
  ghost predicate Tells(env: Env, s: State, next: State, events: seq<Event>, o: Result, answer: ServiceOutcome) {
    && (next.journal, o.Returned?) == Chronicled(env, s.journal, events)
    && (o.Returned? ==> o.value == answer.(lifecycle := Receipts(s.journal.calls, |events|)))
    && (o.Raised? ==> o.error == EventNotRecorded)
  }

  // ----- submit -----

  /** An offer is told with the holder and the lease; a placement in a fallback mode is told as degraded after it. */
  function OfferEvents(work: Id, lease: Lease): seq<Event> {
    [Event(WorkOffered, work, Some(lease.nodeId), Some(lease.organ), Some(LeaseId(work, lease.nodeId)))]
    + if lease.degradation == NoDegradation then []
      else [Event(WorkDegraded, work, Some(lease.nodeId), Some(lease.organ), None)]
  }

  lemma OfferTells(env: Env, s: State, lease: Lease)
    ensures var (next, o) := MakeOffer(env, s, lease);
            var answer := ServiceOutcome(Offered, lease.workId, Some(lease.nodeId),
                                         Some(LeaseId(lease.workId, lease.nodeId)), lease.degradation, [], false);
            && Tells(env, s, next, OfferEvents(lease.workId, lease), o, answer)
            && (o.Returned? ==> next == s.(journal := next.journal))
  {
    hide Chronicled, Answered;
    var work := lease.workId;
    var offered := Event(WorkOffered, work, Some(lease.nodeId), Some(lease.organ), Some(LeaseId(work, lease.nodeId)));
    var degraded := Event(WorkDegraded, work, Some(lease.nodeId), Some(lease.organ), None);
    ChronicleOfOne(env, s, offered);
    var s1 := Emit(env, s, offered).0;
    ChronicleOfOne(env, s1, degraded);
    ChronicleJoins(env, s.journal, offered, [degraded]);
    assert [offered] + [] == [offered];
    assert Receipts(s.journal.calls, 1) == [s.journal.calls];
    assert Receipts(s.journal.calls, 2) == [s.journal.calls, s.journal.calls + 1];
  }

  lemma LossTells(env: Env, s: State, work: Id, d: Decision, told: seq<nat>)
    ensures var (next, o) := Lose(env, s, work, d, told);
            && (next.journal, o.Returned?)
               == Chronicled(env, s.journal, [Event(WorkDegraded, work, None, None, None)])
            && next == s.(journal := next.journal)
            && (o.Returned? ==>
                  o.value == ServiceOutcome(DegradedState(d.state), work, None, None, d.degradation,
                                            told + [s.journal.calls], false))
            && (o.Raised? ==> o.error == EventNotRecorded)
  {
    hide Chronicled, Answered;
    ChronicleOfOne(env, s, Event(WorkDegraded, work, None, None, None));
  }

  /** A submission that is admitted tells the offer, and after it the degradation if the placement is a fallback; work
      nobody takes is told as degraded without a node. If all is recorded the proposal and its lease stand, and the
      answer names them. */
  lemma SubmitTells(env: Env, s: State, p: Proposal, now: real, leaseSeconds: real)
    requires Consistent(s.board)
    ensures var work := p.requirement.workId;
            var (next, o) := Submit(env, s, p, now, leaseSeconds);
            var (board, placed) := BoardSpec.Place(s.board, p.requirement, now, leaseSeconds, {});
            if now < 0.0 then next == s && o == Raised(NegativeNow)
            else if work in s.proposals then next == s && o == Raised(AlreadyActive)
            else if placed.Raised? then next == s.(board := board) && o == Raised(CoordinatorRaised(placed.error))
            else match placed.value.lease
              case None =>
                var lost := DegradedState(placed.value.state);
                && Tells(env, s, next, [Event(WorkDegraded, work, None, None, None)], o,
                         ServiceOutcome(lost, work, None, None, placed.value.degradation, [], false))
                && next == s.(board := board, journal := next.journal)
              case Some(lease) =>
                && Tells(env, s, next, OfferEvents(work, lease), o,
                         ServiceOutcome(Offered, work, Some(lease.nodeId), Some(LeaseId(work, lease.nodeId)),
                                        lease.degradation, [], false))
                && (o.Returned? ==>
                      next == s.(board := board, proposals := s.proposals[work := p], journal := next.journal))
  {
    hide Consistent, MakeOffer, Lose, BoardSpec.Place, Chronicled, Receipts, OfferEvents;
    var work := p.requirement.workId;
    var (board, placed) := BoardSpec.Place(s.board, p.requirement, now, leaseSeconds, {});
    PlaceMoves(s.board, p.requirement, now, leaseSeconds);
    OneReceipt(s.journal.calls);
    if placed.Returned? {
      LossTells(env, s.(board := board), work, placed.value, []);
      if placed.value.lease.Some? {
        OfferTells(env, s.(board := board, proposals := s.proposals[work := p]), placed.value.lease.value);
      }
    }
  }

  lemma OneReceipt(calls: nat)
    ensures Receipts(calls, 1) == [] + [calls]
  {
  }

  // ----- accept, refuse, complete -----

  lemma AcceptTells(env: Env, s: State, work: Id, node: Id)
    requires Consistent(s.board)
    ensures OwnershipError(s, work, node).None? ==>
        var lease := s.board.leases[work];
        var (next, o) := Accept(env, s, work, node);
        && Tells(env, s, next,
                 [Event(WorkAccepted, work, Some(node), Some(lease.organ), Some(LeaseId(work, node)))], o,
                 ServiceOutcome(AcceptedState, work, Some(node), Some(LeaseId(work, node)), lease.degradation, [],
                                false))
        && next == s.(journal := next.journal, accepted := s.accepted + if o.Returned? then {work} else {})
  {
    hide Consistent, Chronicled, Answered, Receipts;
    if OwnershipError(s, work, node).None? {
      ConsistentLease(s.board, work);
      var lease := s.board.leases[work];
      ChronicleOfOne(env, s, Event(WorkAccepted, work, Some(node), Some(lease.organ), Some(LeaseId(work, node))));
      OneReceipt(s.journal.calls);
      assert s.accepted + {} == s.accepted;
    }
  }

  /** The events that open a refusal. */
  function RefusalEvents(work: Id, lease: Lease): seq<Event> {
    [Event(WorkRefused, work, Some(lease.nodeId), Some(lease.organ), None),
     Event(HandoffRequested, work, Some(lease.nodeId), Some(lease.organ), None)]
  }

  /** What closes it: the offer to the next holder, or that the work is lost. */
  function ClosingEvent(work: Id, d: Decision): Event {
    match d.lease
    case None => Event(WorkDegraded, work, None, None, None)
    case Some(lease) =>
      Event(WorkOffered, work, Some(lease.nodeId), Some(lease.organ), Some(LeaseId(work, lease.nodeId)))
  }

  function ClosingOutcome(work: Id, d: Decision): ServiceOutcome {
    match d.lease
    case None => ServiceOutcome(DegradedState(d.state), work, None, None, d.degradation, [], false)
    case Some(lease) =>
      ServiceOutcome(ReassignedOffered, work, Some(lease.nodeId), Some(LeaseId(work, lease.nodeId)), lease.degradation,
                     [], false)
  }

  /** A refusal by the holder tells that it refused and hands off. Until both are recorded nothing moves; then the
      coordinator is asked, and the outcome is told. */
  lemma RefuseTells(env: Env, s: State, work: Id, node: Id, reason: string, now: real, leaseSeconds: real)
    requires Consistent(s.board)
    ensures var (next, o) := ServiceSpec.Refuse(env, s, work, node, reason, now, leaseSeconds);
            if reason == "" then next == s && o == Raised(RefusalReasonRequired)
            else if OwnershipError(s, work, node).Some? then
              next == s && o == Raised(OwnershipError(s, work, node).value)
            else
              var opening := RefusalEvents(work, s.board.leases[work]);
              var (told, both) := Chronicled(env, s.journal, opening);
              var (board, moved) := BoardSpec.Refuse(s.board, work, node, reason, now, leaseSeconds);
              if !both then next == s.(journal := told) && o == Raised(EventNotRecorded)
              else if moved.Raised? then
                next == s.(journal := told, board := board) && o == Raised(CoordinatorRaised(moved.error))
              else
                && Tells(env, s, next, opening + [ClosingEvent(work, moved.value)], o,
                         ClosingOutcome(work, moved.value))
                && next == s.(journal := next.journal, board := board, accepted := s.accepted - {work})
  {
    hide Consistent, Chronicled, Answered, Receipts, Reoffer, BoardSpec.Refuse, ClosingEvent, ClosingOutcome;
    if reason != "" && OwnershipError(s, work, node).None? {
      ConsistentLease(s.board, work);
      var opening := RefusalEvents(work, s.board.leases[work]);
      ChronicleOfOne(env, s, opening[0]);
      var s1 := Emit(env, s, opening[0]).0;
      ChronicleOfOne(env, s1, opening[1]);
      var s2 := Emit(env, s1, opening[1]).0;
      ChronicleJoins(env, s.journal, opening[0], [opening[1]]);
      assert opening == [opening[0]] + [opening[1]];
      if env.sink(s.journal.calls) == Recorded && env.sink(s1.journal.calls) == Recorded {
        ReofferTells(env, s2, work, node, reason, now, leaseSeconds, [s.journal.calls, s1.journal.calls]);
        var moved := BoardSpec.Refuse(s.board, work, node, reason, now, leaseSeconds).1;
        if moved.Returned? {
          var closing := ClosingEvent(work, moved.value);
          ChronicleJoins(env, s.journal, opening[0], [opening[1], closing]);
          ChronicleJoins(env, s1.journal, opening[1], [closing]);
          assert opening + [closing] == [opening[0]] + [opening[1], closing];
          assert [opening[1], closing] == [opening[1]] + [closing];
          ThreeReceipts(s.journal.calls);
        }
      }
    }
  }

  lemma ThreeReceipts(calls: nat)
    ensures Receipts(calls, 3) == [calls, calls + 1] + [calls + 2]
  {
  }

  lemma ReofferTells(env: Env, s: State, work: Id, node: Id, reason: string, now: real, leaseSeconds: real,
                     told: seq<nat>)
    requires Consistent(s.board) && work in s.board.leases && s.board.leases[work].nodeId == node && reason != ""
    ensures var (next, o) := Reoffer(env, s, work, node, reason, now, leaseSeconds, told);
            var (board, moved) := BoardSpec.Refuse(s.board, work, node, reason, now, leaseSeconds);
            if moved.Raised? then next == s.(board := board) && o == Raised(CoordinatorRaised(moved.error))
            else
              && (next.journal, o.Returned?) == Chronicled(env, s.journal, [ClosingEvent(work, moved.value)])
              && next == s.(journal := next.journal, board := board, accepted := s.accepted - {work})
              && (o.Returned? ==>
                    o.value == ClosingOutcome(work, moved.value).(lifecycle := told + [s.journal.calls]))
              && (o.Raised? ==> o.error == EventNotRecorded)
  {
    hide Consistent, Chronicled, Answered, BoardSpec.Refuse;
    RefuseMoves(s.board, work, node, reason, now, leaseSeconds);
    var (board, moved) := BoardSpec.Refuse(s.board, work, node, reason, now, leaseSeconds);
    if moved.Returned? {
      var withdrawn := s.(board := board, accepted := s.accepted - {work});
      ChronicleOfOne(env, withdrawn, ClosingEvent(work, moved.value));
    }
  }

  /** A completion tells WORK_COMPLETED of the lease once, and nothing when one is pending already. */
  lemma CompleteTells(env: Env, s: State, result: WorkResult)
    requires Consistent(s.board)
    ensures OwnershipError(s, result.work, result.node).None? && result.work in s.accepted ==>
        var lease := s.board.leases[result.work];
        var next := ServiceSpec.Complete(env, s, result).0;
        next.journal == Chronicled(env, s.journal,
          if result.work in s.pending then []
          else [Event(WorkCompleted, result.work, Some(result.node), Some(lease.organ),
                      Some(LeaseId(result.work, result.node)))]).0
    ensures OwnershipError(s, result.work, result.node).Some? || result.work !in s.accepted ==>
        ServiceSpec.Complete(env, s, result)
        == (s, Raised(if OwnershipError(s, result.work, result.node).Some?
                      then OwnershipError(s, result.work, result.node).value else NotAccepted))
  {
    hide Consistent, Answered;
    if OwnershipError(s, result.work, result.node).None? {
      ConsistentLease(s.board, result.work);
      var lease := s.board.leases[result.work];
      ChronicleOfOne(env, s, Event(WorkCompleted, result.work, Some(result.node), Some(lease.organ),
                                   Some(LeaseId(result.work, result.node))));
    }
  }

  /** Why a node may not act on a work, in this order: nobody proposed it, nobody holds it, another node holds it. */
  lemma NotOwnedBecause(s: State, work: Id, node: Id)
    ensures OwnershipError(s, work, node) == Some(UnknownWork) <==> work !in s.proposals
    ensures OwnershipError(s, work, node) == Some(NoActiveLease) <==> work in s.proposals && work !in s.board.leases
    ensures OwnershipError(s, work, node) == None <==>
        work in s.proposals && work in s.board.leases && s.board.leases[work].nodeId == node
  {
  }

  /** What is left when the work is closed: nothing of it. */
  function Closed(s: State, work: Id): State {
    s.(board := s.board.(leases := s.board.leases - {work}, requirements := s.board.requirements - {work},
                         refusals := s.board.refusals - {work}),
       accepted := s.accepted - {work}, proposals := s.proposals - {work}, pending := s.pending - {work})
  }

  /** What the Queen sink is left with by an important result. */
  function Escalated(env: Env, q: QueenSide, result: WorkResult, receipt: nat): QueenSide {
    if !result.important || !env.hasQueen then q
    else QueenSide(q.calls + 1,
                   q.delivered + if env.queen(q.calls) then [QueenRecord(result, receipt)] else [])
  }

  /** A completion by the accepting holder, with the one receipt of the work: a pending result must be repeated, a new
      one must be recorded, the Queen must take an important one; then the work is closed. Where it stops, what was
      done before stays. */
  lemma CompletionMeans(env: Env, s: State, result: WorkResult)
    requires Consistent(s.board)
    ensures OwnershipError(s, result.work, result.node).None? && result.work in s.accepted ==>
        var work, waiting := result.work, result.work in s.pending;
        var receipt := if waiting then s.pending[work].receipt else s.journal.calls;
        var (next, o) := ServiceSpec.Complete(env, s, result);
        if waiting && s.pending[work].result != result then next == s && o == Raised(DifferentResult)
        else if !waiting && env.sink(s.journal.calls) != Recorded then
          next == s.(journal := next.journal) && o == Raised(EventNotRecorded)
        else
          var reported := s.(journal := next.journal, pending := s.pending[work := Pending(result, receipt)],
                             queen := Escalated(env, s.queen, result, receipt));
          if result.important && !env.hasQueen then next == reported && o == Raised(NoQueenSink)
          else if result.important && !env.queen(s.queen.calls) then next == reported && o == Raised(QueenSinkFailed)
          else
            && next == Closed(reported, work)
            && o == Returned(ServiceOutcome(CompletedState, work, Some(result.node), Some(LeaseId(work, result.node)),
                                            s.board.leases[work].degradation, [receipt], result.important))
  {
    hide Consistent;
    if OwnershipError(s, result.work, result.node).None? {
      ConsistentLease(s.board, result.work);
      if result.work in s.pending && s.pending[result.work].result == result {
        var kept := s.pending[result.work];
        assert kept == Pending(result, kept.receipt);
        assert s.pending[result.work := kept] == s.pending;
      }
    }
  }

  /** A registration that is admitted tells NODE_ADVERTISED, and stands exactly when that came back. */
  lemma RegisterTells(env: Env, s: State, ad: Advertisement)
    ensures var (next, o) := RegisterNode(env, s, ad);
            var admitted := ad.bodyId == s.board.bodyId && ad.bodyVerified && ad.continuityVerified;
            if !admitted then next == s && o == Returned(false)
            else
              var (told, came) := Chronicled(env, s.journal,
                [Event(NodeAdvertised, ad.nodeId, Some(ad.nodeId), Some(ad.organ), None)]);
              var nodes := if came then s.board.nodes[ad.nodeId := ad] else s.board.nodes - {ad.nodeId};
              && next == s.(journal := told, board := s.board.(nodes := nodes))
              && o == (if came then Returned(true) else Raised(EventNotRecorded))
  {
    hide Chronicled, Answered;
    if Admissible(s.board.bodyId, ad) {
      ChronicleOfOne(env, s.(board := Registered(s.board, ad)),
                     Event(NodeAdvertised, ad.nodeId, Some(ad.nodeId), Some(ad.organ), None));
      assert s.board.nodes[ad.nodeId := ad] - {ad.nodeId} == s.board.nodes - {ad.nodeId};
    }
  }

  // ----- recover -----

  /** The decisions of a recovery, told one by one: the new lease, or the work that is lost. The first that names no
      known work ends it. */
  ghost function RecoveryEvents(s: State, ds: seq<Decision>, prior: map<Id, Lease>): seq<Event>
    decreases |ds|
  {
    if ds == [] then []
    else
      var work := RecoveredWork(ds[0], prior);
      if work.None? || work.value !in s.proposals || work.value !in prior then []
      else
        [match ds[0].lease
         case None => Event(WorkDegraded, work.value, None, None, None)
         case Some(lease) =>
           Event(RecoveryReassigned, lease.workId, Some(lease.nodeId), Some(lease.organ),
                 Some(LeaseId(lease.workId, lease.nodeId)))]
        + RecoveryEvents(s, ds[1..], prior)
  }

  lemma {:induction false} ReportTells(env: Env, s: State, ds: seq<Decision>, prior: map<Id, Lease>)
    ensures Report(env, s, ds, prior).0.journal == Chronicled(env, s.journal, RecoveryEvents(s, ds, prior)).0
    decreases |ds|
  {
    hide RecoveredWork, Answered, Chronicled;
    if ds != [] {
      var work := RecoveredWork(ds[0], prior);
      if work.None? || work.value !in s.proposals || work.value !in prior {
        NothingTold(env, s.journal);
      } else {
        var events := RecoveryEvents(s, ds, prior);
        ChronicleOfOne(env, s.(accepted := s.accepted - {work.value}), events[0]);
        ChronicleJoins(env, s.journal, events[0], events[1..]);
        assert events == [events[0]] + events[1..];
        var (next, o) := ReportOne(env, s, ds[0], prior);
        SameEvents(s, next, ds[1..], prior);
        if o.Returned? {
          ReportTells(env, next, ds[1..], prior);
        }
      }
    } else {
      NothingTold(env, s.journal);
    }
  }

  lemma NothingTold(env: Env, j: Journal)
    ensures Chronicled(env, j, []) == (j, true)
  {
  }

  lemma {:induction false} SameEvents(s: State, t: State, ds: seq<Decision>, prior: map<Id, Lease>)
    requires s.proposals == t.proposals
    ensures RecoveryEvents(s, ds, prior) == RecoveryEvents(t, ds, prior)
    decreases |ds|
  {
    hide RecoveredWork;
    if ds != [] {
      SameEvents(s, t, ds[1..], prior);
    }
  }

  /** What the caller is answered about one decision. */
  ghost predicate AnswersFor(d: Decision, prior: map<Id, Lease>, receipt: nat, answer: ServiceOutcome) {
    var work := RecoveredWork(d, prior);
    && work.Some?
    && answer == match d.lease
         case None => ServiceOutcome(DegradedState(d.state), work.value, None, None, d.degradation, [receipt], false)
         case Some(lease) =>
           ServiceOutcome(RecoveryReassignedState, lease.workId, Some(lease.nodeId),
                          Some(LeaseId(lease.workId, lease.nodeId)), lease.degradation, [receipt], false)
  }

  ghost predicate AllAnswered(ds: seq<Decision>, prior: map<Id, Lease>, calls: nat, answers: seq<ServiceOutcome>) {
    |answers| == |ds| && forall i :: 0 <= i < |ds| ==> AnswersFor(ds[i], prior, calls + i, answers[i])
  }

  lemma {:induction false} ReportAnswers(env: Env, s: State, ds: seq<Decision>, prior: map<Id, Lease>)
    ensures var o := Report(env, s, ds, prior).1;
            o.Returned? ==> AllAnswered(ds, prior, s.journal.calls, o.value)
    decreases |ds|
  {
    hide RecoveredWork, Answered, ReportOne, AnswersFor;
    if ds != [] {
      var (next, first) := ReportOne(env, s, ds[0], prior);
      if first.Returned? {
        OneAnswer(env, s, ds[0], prior);
        ReportAnswers(env, next, ds[1..], prior);
        var rest := Report(env, next, ds[1..], prior).1;
        if rest.Returned? {
          var answers := [first.value] + rest.value;
          forall i | 0 <= i < |ds| ensures AnswersFor(ds[i], prior, s.journal.calls + i, answers[i]) {
            if i > 0 {
              assert AnswersFor(ds[1..][i - 1], prior, next.journal.calls + (i - 1), rest.value[i - 1]);
            }
          }
        }
      }
    }
  }

  lemma OneAnswer(env: Env, s: State, d: Decision, prior: map<Id, Lease>)
    ensures var (next, o) := ReportOne(env, s, d, prior);
            o.Returned? ==> AnswersFor(d, prior, s.journal.calls, o.value) && next.journal.calls == s.journal.calls + 1
  {
    hide RecoveredWork, Indexed;
  }

  /** A recovery whose sweep returned tells its decisions in order, until one cannot be attributed or is not recorded;
      when it returns it answers for each of them. */
  lemma RecoverTells(env: Env, s: State, now: real, maxAge: real, leaseSeconds: real)
    ensures var (board, swept) := BoardSpec.Recover(s.board, now, maxAge, leaseSeconds);
            var next := ServiceSpec.Recover(env, s, now, maxAge, leaseSeconds).0;
            next.journal == if swept.Raised? then s.journal
                            else Chronicled(env, s.journal, RecoveryEvents(s, swept.value, s.board.leases)).0
    ensures var (board, swept) := BoardSpec.Recover(s.board, now, maxAge, leaseSeconds);
            var o := ServiceSpec.Recover(env, s, now, maxAge, leaseSeconds).1;
            && (swept.Raised? ==> o == Raised(CoordinatorRaised(swept.error)))
            && (o.Returned? ==> swept.Returned? && AllAnswered(swept.value, s.board.leases, s.journal.calls, o.value))
  {
    hide BoardSpec.Recover, Report, Chronicled, RecoveryEvents;
    var (board, swept) := BoardSpec.Recover(s.board, now, maxAge, leaseSeconds);
    if swept.Returned? {
      SameEvents(s, s.(board := board), swept.value, s.board.leases);
      ReportTells(env, s.(board := board), swept.value, s.board.leases);
      ReportAnswers(env, s.(board := board), swept.value, s.board.leases);
    }
  }
}
