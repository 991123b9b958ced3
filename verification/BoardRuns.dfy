/** Refusals that stick, capacity that is never exceeded, and recovery that leaves nothing on a failed node. */
module BoardRuns {
  import opened Basics
  import opened Placement
  import opened BoardSpec
  import opened Choice
  import opened BoardLaws

  // ----- a node that refused a work never holds it again until the work is completed -----

  ghost predicate Closes(b: Board, op: Op, work: Id) {
    op.CompleteOp? && op.work == work && Complete(b, work, op.node).1
  }

  ghost predicate NeverClosed(b: Board, ops: seq<Op>, work: Id) {
    forall i :: 0 <= i < |ops| ==> !Closes(Run(b, ops[..i]), ops[i], work)
  }

  ghost predicate RefusalsKept(b: Board, next: Board) {
    forall w :: RefusalsOf(b, w) <= RefusalsOf(next, w)
  }

  lemma PlaceOnKeepsRefusals(b: Board, req: Requirement, now: real, leaseSeconds: real, excluded: set<Id>)
    requires Keyed(b.nodes)
    ensures PlaceOn(b, req, now, leaseSeconds, excluded).0.refusals == b.refusals
    ensures PlaceOn(b, req, now, leaseSeconds, excluded).0.nodes == b.nodes
  {
    hide PlaceOn, ExclusionReason;
    PlaceOnEffect(b, req, now, leaseSeconds, excluded);
  }

  lemma ReassignOneKeepsRefusals(b: Board, work: Id, now: real, leaseSeconds: real)
    requires Consistent(b) && work in b.leases
    ensures RefusalsKept(b, ReassignOne(b, work, now, leaseSeconds).0)
  {
    hide PlaceOn;
    assert LeaseSound(b, work);
    PlaceOnKeepsRefusals(Dropped(b, work), b.requirements[work], now, leaseSeconds, Dropped(b, work).refusals[work]);
  }

  lemma {:induction false} ReassignKeepsRefusals(b: Board, works: seq<Id>, now: real, leaseSeconds: real)
    requires Consistent(b)
    ensures RefusalsKept(b, Reassign(b, works, now, leaseSeconds).0)
    decreases |works|
  {
    hide ReassignOne, Consistent;
    if works == [] {
    } else if works[0] !in b.leases {
      ReassignKeepsRefusals(b, works[1..], now, leaseSeconds);
    } else {
      var next := ReassignOne(b, works[0], now, leaseSeconds).0;
      ReassignOneKeepsRefusals(b, works[0], now, leaseSeconds);
      ReassignOneKeepsConsistency(b, works[0], now, leaseSeconds);
      ReassignKeepsRefusals(next, works[1..], now, leaseSeconds);
    }
  }

  lemma StepKeepsRefusals(b: Board, op: Op, work: Id)
    requires Consistent(b) && !Closes(b, op, work)
    ensures RefusalsOf(b, work) <= RefusalsOf(Step(b, op), work)
  {
    hide PlaceOn, Reassign;
    match op
    case PlaceOp(req, now, leaseSeconds, exclude) =>
      PlaceOnKeepsRefusals(b.(leases := Unexpired(b.leases, now), requirements := b.requirements[req.workId := req]),
                           req, now, leaseSeconds, exclude + RefusalsOf(b, req.workId));
    case RefuseOp(w, node, reason, now, leaseSeconds) =>
      if Owns(b, w, node) {
        PlaceOnKeepsRefusals(Dropped(b, w), b.requirements[w], now, leaseSeconds, Dropped(b, w).refusals[w]);
      }
    case RecoverOp(now, maxAge, leaseSeconds) =>
      SweptIsConsistent(b, now, maxAge);
      ReassignKeepsRefusals(Swept(b, now, maxAge), AffectedWorks(b, now, maxAge), now, leaseSeconds);
    case _ =>
  }

  /** A refusal, voluntary or by failure, is remembered across every later call until the work is completed:
      the refusing node never holds the work again, not even after the lease expires and is placed anew. */
  lemma {:induction false} RefuserNeverHoldsAgain(b: Board, ops: seq<Op>, work: Id, node: Id)
    requires Consistent(b) && node in RefusalsOf(b, work)
    requires NeverClosed(b, ops, work)
    ensures Consistent(Run(b, ops))
    ensures node in RefusalsOf(Run(b, ops), work)
    ensures work in Run(b, ops).leases ==> Run(b, ops).leases[work].nodeId != node
    decreases |ops|
  {
    hide Step, Closes;
    if ops != [] {
      var front := ops[..|ops| - 1];
      assert forall i :: 0 <= i < |front| ==> front[..i] == ops[..i];
      RefuserNeverHoldsAgain(b, front, work, node);
      StepKeepsRefusals(Run(b, front), ops[|ops| - 1], work);
      StepKeepsConsistency(Run(b, front), ops[|ops| - 1]);
    }
    assert work in Run(b, ops).leases ==> LeaseSound(Run(b, ops), work);
  }

  /** An owner that refuses is on the refusal list afterwards, whether or not the call then raised. */
  lemma RefusingIsRemembered(b: Board, work: Id, node: Id, reason: string, now: real, leaseSeconds: real)
    requires Consistent(b)
    ensures reason != "" && Owns(b, work, node) ==>
        node in RefusalsOf(Refuse(b, work, node, reason, now, leaseSeconds).0, work)
  {
    hide PlaceOn;
    if reason != "" && Owns(b, work, node) {
      PlaceOnKeepsRefusals(Dropped(b, work), b.requirements[work], now, leaseSeconds, Dropped(b, work).refusals[work]);
    }
  }

  // ----- a node that left gets no new work -----

  /** Every lease is an old one or on a registered node. */
  ghost predicate OnlyToRegistered(b: Board, next: Board) {
    forall w :: w in next.leases ==>
      (w in b.leases && next.leases[w] == b.leases[w]) || next.leases[w].nodeId in b.nodes
  }

  lemma {:induction false} ReassignOnlyToRegistered(b: Board, works: seq<Id>, now: real, leaseSeconds: real)
    requires Keyed(b.nodes)
    ensures var end := Reassign(b, works, now, leaseSeconds).0; end.nodes == b.nodes && OnlyToRegistered(b, end)
    decreases |works|
  {
    hide PlaceOn, ExclusionReason;
    if works != [] {
      if works[0] in b.leases && works[0] in b.requirements {
        var dropped := Dropped(b, works[0]);
        PlaceOnEffect(dropped, b.requirements[works[0]], now, leaseSeconds, dropped.refusals[works[0]]);
      }
      var next := if works[0] in b.leases then ReassignOne(b, works[0], now, leaseSeconds).0 else b;
      assert next.nodes == b.nodes && OnlyToRegistered(b, next);
      ReassignOnlyToRegistered(next, works[1..], now, leaseSeconds);
    }
  }

  lemma PlaceOnlyToRegistered(b: Board, req: Requirement, now: real, leaseSeconds: real, exclude: set<Id>)
    requires Keyed(b.nodes)
    ensures var next := Place(b, req, now, leaseSeconds, exclude).0; next.nodes == b.nodes && OnlyToRegistered(b, next)
  {
    hide PlaceOn, ExclusionReason, LeasesOn, Keyed;
    PlaceOnEffect(b.(leases := Unexpired(b.leases, now), requirements := b.requirements[req.workId := req]),
                  req, now, leaseSeconds, exclude + RefusalsOf(b, req.workId));
  }

  lemma RefuseOnlyToRegistered(b: Board, work: Id, node: Id, reason: string, now: real, leaseSeconds: real)
    requires Keyed(b.nodes)
    ensures var next := Refuse(b, work, node, reason, now, leaseSeconds).0;
            next.nodes == b.nodes && OnlyToRegistered(b, next)
  {
    hide PlaceOn, ExclusionReason, LeasesOn, Keyed;
    if Owns(b, work, node) {
      PlaceOnEffect(Dropped(b, work), b.requirements[work], now, leaseSeconds, Dropped(b, work).refusals[work]);
    }
  }

  lemma RecoverOnlyToRegistered(b: Board, now: real, maxAge: real, leaseSeconds: real)
    requires Keyed(b.nodes)
    ensures var next := Recover(b, now, maxAge, leaseSeconds).0;
            next.nodes.Keys == b.nodes.Keys && OnlyToRegistered(b, next)
  {
    hide Reassign, Failed, AffectedWorks;
    ReassignOnlyToRegistered(Swept(b, now, maxAge), AffectedWorks(b, now, maxAge), now, leaseSeconds);
  }

  lemma StepOnlyToRegistered(b: Board, op: Op)
    requires Keyed(b.nodes)
    ensures OnlyToRegistered(b, Step(b, op))
    ensures Step(b, op).nodes.Keys <= b.nodes.Keys + (if op.RegisterOp? then {op.ad.nodeId} else {})
  {
    hide Place, Refuse, Recover, Keyed;
    match op
    case PlaceOp(req, now, leaseSeconds, exclude) => PlaceOnlyToRegistered(b, req, now, leaseSeconds, exclude);
    case RefuseOp(work, node, reason, now, leaseSeconds) =>
      RefuseOnlyToRegistered(b, work, node, reason, now, leaseSeconds);
    case RecoverOp(now, maxAge, leaseSeconds) => RecoverOnlyToRegistered(b, now, maxAge, leaseSeconds);
    case _ =>
  }

  lemma ConsistentNodes(b: Board)
    requires Consistent(b)
    ensures Keyed(b.nodes)
  {
  }

  /** Until it registers again, a node that is not registered gets no new lease from any call: it can only keep what it
      held, or lose it. */
  lemma {:induction false} UnregisteredNodeGetsNothingNew(b: Board, ops: seq<Op>, node: Id)
    requires Consistent(b) && node !in b.nodes
    requires forall i :: 0 <= i < |ops| && ops[i].RegisterOp? ==> ops[i].ad.nodeId != node
    ensures var end := Run(b, ops);
            && Consistent(end) && node !in end.nodes
            && forall w :: w in end.leases && end.leases[w].nodeId == node ==>
                w in b.leases && end.leases[w] == b.leases[w]
    decreases |ops|
  {
    hide Step, Consistent;
    if ops != [] {
      var front, last := ops[..|ops| - 1], ops[|ops| - 1];
      UnregisteredNodeGetsNothingNew(b, front, node);
      ConsistentNodes(Run(b, front));
      StepOnlyToRegistered(Run(b, front), last);
      StepKeepsConsistency(Run(b, front), last);
    }
  }

  // ----- capacity -----

  /** The task limit and current task count a node keeps advertising. */
  datatype Declared = Declared(maxTasks: int, currentTasks: int)

  ghost predicate Declares(limits: map<Id, Declared>, ad: Advertisement) {
    ad.nodeId in limits && limits[ad.nodeId] == Declared(ad.maxTasks, ad.currentTasks)
  }

  ghost predicate Load(b: Board, limits: map<Id, Declared>, n: Id) {
    n in limits ==> |LeasesOn(b.leases, n)| + limits[n].currentTasks <= limits[n].maxTasks
  }

  ghost predicate WithinLimits(b: Board, limits: map<Id, Declared>) {
    && Keyed(b.nodes)
    && (forall n :: n in b.nodes ==> Declares(limits, b.nodes[n]))
    && (forall n :: n in limits ==> Load(b, limits, n))
  }

  lemma FewerLeasesKeepLimits(b: Board, next: Board, limits: map<Id, Declared>)
    requires WithinLimits(b, limits)
    requires next.nodes == b.nodes
    requires forall w :: w in next.leases ==> w in b.leases && next.leases[w] == b.leases[w]
    ensures WithinLimits(next, limits)
  {
    forall n | n in limits ensures Load(next, limits, n) {
      assert Load(b, limits, n);
      SubsetSize(LeasesOn(next.leases, n), LeasesOn(b.leases, n));
    }
  }

  lemma OneMoreLease(b: Board, lease: Lease, limits: map<Id, Declared>)
    requires WithinLimits(b, limits) && lease.workId !in b.leases && lease.nodeId in b.nodes
    requires b.nodes[lease.nodeId].currentTasks + |LeasesOn(b.leases, lease.nodeId)| < b.nodes[lease.nodeId].maxTasks
    ensures WithinLimits(b.(leases := b.leases[lease.workId := lease]), limits)
  {
    hide LeasesOn;
    var next := b.(leases := b.leases[lease.workId := lease]);
    assert Declares(limits, b.nodes[lease.nodeId]);
    forall n | n in limits ensures Load(next, limits, n) {
      assert Load(b, limits, n);
      CountAfterLease(b.leases, lease, n);
    }
  }

  lemma CountAfterLease(leases: map<Id, Lease>, lease: Lease, n: Id)
    requires lease.workId !in leases
    ensures |LeasesOn(leases[lease.workId := lease], n)| == |LeasesOn(leases, n)| + if n == lease.nodeId then 1 else 0
  {
    assert LeasesOn(leases[lease.workId := lease], n) == LeasesOn(leases, n) +
        if n == lease.nodeId then {lease.workId} else {};
  }

  lemma PlaceOnKeepsLimits(b: Board, req: Requirement, now: real, leaseSeconds: real, excluded: set<Id>,
                           limits: map<Id, Declared>)
    requires WithinLimits(b, limits) && req.workId !in b.leases
    ensures WithinLimits(PlaceOn(b, req, now, leaseSeconds, excluded).0, limits)
  {
    hide PlaceOn, ExclusionReason, LeasesOn, Load, Declares;
    PlaceOnEffect(b, req, now, leaseSeconds, excluded);
    var o := PlaceOn(b, req, now, leaseSeconds, excluded).1;
    if o.Returned? && o.value.lease.Some? {
      OneMoreLease(b, o.value.lease.value, limits);
    }
  }

  lemma ReassignOneKeepsLimits(b: Board, work: Id, now: real, leaseSeconds: real, limits: map<Id, Declared>)
    requires Consistent(b) && WithinLimits(b, limits) && work in b.leases
    ensures WithinLimits(ReassignOne(b, work, now, leaseSeconds).0, limits)
  {
    hide PlaceOn, WithinLimits;
    assert LeaseSound(b, work);
    FewerLeasesKeepLimits(b, Dropped(b, work), limits);
    PlaceOnKeepsLimits(Dropped(b, work), b.requirements[work], now, leaseSeconds, Dropped(b, work).refusals[work],
                       limits);
  }

  lemma {:induction false} ReassignKeepsLimits(b: Board, works: seq<Id>, now: real, leaseSeconds: real,
                                               limits: map<Id, Declared>)
    requires Consistent(b) && WithinLimits(b, limits)
    ensures WithinLimits(Reassign(b, works, now, leaseSeconds).0, limits)
    decreases |works|
  {
    hide ReassignOne, Consistent, WithinLimits;
    if works == [] {
    } else if works[0] !in b.leases {
      ReassignKeepsLimits(b, works[1..], now, leaseSeconds, limits);
    } else {
      ReassignOneKeepsLimits(b, works[0], now, leaseSeconds, limits);
      ReassignOneKeepsConsistency(b, works[0], now, leaseSeconds);
      ReassignKeepsLimits(ReassignOne(b, works[0], now, leaseSeconds).0, works[1..], now, leaseSeconds, limits);
    }
  }

  lemma PlaceKeepsLimits(b: Board, req: Requirement, now: real, leaseSeconds: real, exclude: set<Id>,
                         limits: map<Id, Declared>)
    requires WithinLimits(b, limits)
    ensures WithinLimits(Place(b, req, now, leaseSeconds, exclude).0, limits)
  {
    hide PlaceOn, WithinLimits;
    var live := b.(leases := Unexpired(b.leases, now));
    FewerLeasesKeepLimits(b, live, limits);
    var stored := live.(requirements := live.requirements[req.workId := req]);
    FewerLeasesKeepLimits(b, stored, limits);
    if req.workId !in live.leases {
      PlaceOnKeepsLimits(stored, req, now, leaseSeconds, exclude + RefusalsOf(b, req.workId), limits);
    }
  }

  lemma RefuseKeepsLimits(b: Board, work: Id, node: Id, reason: string, now: real, leaseSeconds: real,
                          limits: map<Id, Declared>)
    requires Consistent(b) && WithinLimits(b, limits)
    ensures WithinLimits(Refuse(b, work, node, reason, now, leaseSeconds).0, limits)
  {
    hide PlaceOn, WithinLimits;
    if reason != "" && Owns(b, work, node) {
      FewerLeasesKeepLimits(b, Dropped(b, work), limits);
      PlaceOnKeepsLimits(Dropped(b, work), b.requirements[work], now, leaseSeconds, Dropped(b, work).refusals[work],
                         limits);
    }
  }

  lemma SweepKeepsLimits(b: Board, now: real, maxAge: real, limits: map<Id, Declared>)
    requires WithinLimits(b, limits)
    ensures WithinLimits(Swept(b, now, maxAge), limits)
  {
    var live := b.(leases := Unexpired(b.leases, now));
    FewerLeasesKeepLimits(b, live, limits);
    forall n | n in limits ensures Load(Swept(b, now, maxAge), limits, n) { assert Load(live, limits, n); }
    forall n | n in b.nodes ensures Declares(limits, Swept(b, now, maxAge).nodes[n]) {
      assert Declares(limits, b.nodes[n]);
    }
  }

  /** Whatever is registered keeps the task fields it has always declared. */
  ghost predicate KeepsDeclaring(limits: map<Id, Declared>, op: Op) {
    op.RegisterOp? ==> Declares(limits, op.ad)
  }

  lemma RegistryStepKeepsLimits(b: Board, op: Op, limits: map<Id, Declared>)
    requires WithinLimits(b, limits) && KeepsDeclaring(limits, op)
    requires op.RegisterOp? || op.RemoveOp? || op.SetAvailabilityOp?
    ensures WithinLimits(Step(b, op), limits)
  {
    hide Place, Refuse, Complete, Recover, Admissible, LeasesOn;
    var next := Step(b, op);
    assert next.leases == b.leases;
    forall n | n in limits ensures Load(next, limits, n) { assert Load(b, limits, n); }
    forall n | n in next.nodes ensures Declares(limits, next.nodes[n]) {
      assert n in b.nodes ==> Declares(limits, b.nodes[n]);
    }
  }

  lemma StepKeepsLimits(b: Board, op: Op, limits: map<Id, Declared>)
    requires Consistent(b) && WithinLimits(b, limits) && KeepsDeclaring(limits, op)
    ensures WithinLimits(Step(b, op), limits)
  {
    hide Place, Refuse, Reassign, WithinLimits, Consistent;
    match op
    case PlaceOp(req, now, leaseSeconds, exclude) => PlaceKeepsLimits(b, req, now, leaseSeconds, exclude, limits);
    case RefuseOp(work, node, reason, now, leaseSeconds) =>
      RefuseKeepsLimits(b, work, node, reason, now, leaseSeconds, limits);
    case CompleteOp(work, node) => FewerLeasesKeepLimits(b, Complete(b, work, node).0, limits);
    case RecoverOp(now, maxAge, leaseSeconds) =>
      SweptIsConsistent(b, now, maxAge);
      SweepKeepsLimits(b, now, maxAge, limits);
      ReassignKeepsLimits(Swept(b, now, maxAge), AffectedWorks(b, now, maxAge), now, leaseSeconds, limits);
    case _ => RegistryStepKeepsLimits(b, op, limits);
  }

  /** Over every run, the leases a node holds plus the tasks it advertises never exceed its task limit. */
  lemma {:induction false} NoRunOverloadsANode(bodyId: Id, ops: seq<Op>, limits: map<Id, Declared>)
    requires forall n :: n in limits ==> limits[n].currentTasks <= limits[n].maxTasks
    requires forall i :: 0 <= i < |ops| ==> KeepsDeclaring(limits, ops[i])
    ensures WithinLimits(Run(Empty(bodyId), ops), limits)
    ensures Consistent(Run(Empty(bodyId), ops))
    decreases |ops|
  {
    hide Step, KeepsDeclaring;
    if ops == [] {
      forall n | n in limits ensures Load(Empty(bodyId), limits, n) {
        assert LeasesOn(Empty(bodyId).leases, n) == {};
      }
    } else {
      var front := ops[..|ops| - 1];
      NoRunOverloadsANode(bodyId, front, limits);
      StepKeepsLimits(Run(Empty(bodyId), front), ops[|ops| - 1], limits);
      StepKeepsConsistency(Run(Empty(bodyId), front), ops[|ops| - 1]);
    }
  }

  // ----- recovery -----

  /** The decision names this node, and no other, as the one recovered from. */
  ghost predicate OnlyBlames(d: Decision, node: Id) {
    forall n :: RecoveryFrom(n) in d.reasons <==> n == node
  }

  lemma {:induction false} ScanBlamesNobody(req: Requirement, nodes: seq<Advertisement>, leases: map<Id, Lease>,
                                            excluded: set<Id>)
    ensures forall r :: r in Scan(req, nodes, leases, excluded).skipped ==> !r.RecoveryFrom?
  {
    hide ExclusionReason, CandidateFor;
    if nodes != [] {
      ScanBlamesNobody(req, nodes[..|nodes| - 1], leases, excluded);
    }
  }

  lemma PlacementBlamesNobody(b: Board, req: Requirement, now: real, leaseSeconds: real, excluded: set<Id>)
    ensures var o := PlaceOn(b, req, now, leaseSeconds, excluded).1;
            o.Returned? ==> forall r :: r in o.value.reasons ==> !r.RecoveryFrom?
  {
    hide Scan, Rank, Snapshot;
    ScanBlamesNobody(req, Snapshot(b.nodes), b.leases, excluded);
  }

  /** `d` is the decision recovery owes one work: it says who failed, and agrees with the lease left behind,
      which is on no failed node. */
  ghost predicate Settles(b: Board, end: Board, work: Id, d: Decision, failed: set<Id>)
    requires work in b.leases
  {
    && OnlyBlames(d, b.leases[work].nodeId)
    && b.leases[work].nodeId in RefusalsOf(end, work)
    && (d.lease.Some? <==> work in end.leases)
    && (work in end.leases ==> d.lease == Some(end.leases[work]) && end.leases[work].nodeId in b.nodes - failed)
  }

  ghost predicate AllOffline(b: Board, failed: set<Id>) {
    forall n :: n in failed && n in b.nodes ==> b.nodes[n].availability == Offline
  }

  lemma ConsistentLease(b: Board, work: Id)
    requires Consistent(b) && work in b.leases
    ensures Keyed(b.nodes) && LeaseSound(b, work)
  {
  }

  lemma ReassignOneSettles(b: Board, work: Id, now: real, leaseSeconds: real, failed: set<Id>)
    requires Consistent(b) && AllOffline(b, failed) && work in b.leases
    ensures var (end, o) := ReassignOne(b, work, now, leaseSeconds);
            && end.nodes == b.nodes
            && (forall w :: w != work ==>
                  (w in end.leases <==> w in b.leases) && (w in end.leases ==> end.leases[w] == b.leases[w]))
            && (o.Returned? ==> |o.value| == 1 && Settles(b, end, work, o.value[0], failed))
            && (leaseSeconds > 0.0 ==> o.Returned?)
  {
    hide PlaceOn, ExclusionReason, Consistent;
    ConsistentLease(b, work);
    var dropped := Dropped(b, work);
    PlaceOnEffect(dropped, b.requirements[work], now, leaseSeconds, dropped.refusals[work]);
    PlaceOnRaises(dropped, b.requirements[work], now, leaseSeconds, dropped.refusals[work]);
    PlacementBlamesNobody(dropped, b.requirements[work], now, leaseSeconds, dropped.refusals[work]);
    var (placed, o) := PlaceOn(dropped, b.requirements[work], now, leaseSeconds, dropped.refusals[work]);
    assert placed.refusals == dropped.refusals;
  }

  lemma PlaceOnRaises(b: Board, req: Requirement, now: real, leaseSeconds: real, excluded: set<Id>)
    ensures leaseSeconds > 0.0 ==> PlaceOn(b, req, now, leaseSeconds, excluded).1.Returned?
    ensures PlaceOn(b, req, now, leaseSeconds, excluded).1.Raised? ==>
        PlaceOn(b, req, now, leaseSeconds, excluded) == (b, Raised(ExpiryNotAfterIssue))
  {
    hide Scan, Rank, Snapshot;
  }

  /** What a finished sweep leaves: one decision per work, in order, and nothing else touched. */
  ghost predicate SweepDone(b: Board, end: Board, works: seq<Id>, ds: seq<Decision>, failed: set<Id>) {
    && |ds| == |works|
    && (forall i :: 0 <= i < |works| ==> works[i] in b.leases && Settles(b, end, works[i], ds[i], failed))
    && (forall w :: w !in works ==>
          (w in end.leases <==> w in b.leases) && (w in end.leases ==> end.leases[w] == b.leases[w]))
  }

  lemma {:induction false} ReassignSettlesEach(b: Board, works: seq<Id>, now: real, leaseSeconds: real, failed: set<Id>)
    requires Consistent(b) && AllOffline(b, failed) && Ascending(works)
    requires forall w :: w in works ==> w in b.leases
    ensures var (end, o) := Reassign(b, works, now, leaseSeconds);
            && end.nodes == b.nodes
            && (o.Returned? ==> SweepDone(b, end, works, o.value, failed))
            && (leaseSeconds > 0.0 ==> o.Returned?)
    decreases |works|
  {
    hide ReassignOne, Consistent;
    if works != [] {
      var work, tail := works[0], works[1..];
      assert work in works;
      ReassignOneSettles(b, work, now, leaseSeconds, failed);
      ReassignOneKeepsConsistency(b, work, now, leaseSeconds);
      var (next, first) := ReassignOne(b, work, now, leaseSeconds);
      if first.Returned? {
        forall w | w in tail ensures w in works && w != work && w in next.leases {
          MemberOfTail(works, w);
        }
        ReassignSettlesEach(next, tail, now, leaseSeconds, failed);
        ReassignKeepsRefusals(next, tail, now, leaseSeconds);
        var (end, rest) := Reassign(next, tail, now, leaseSeconds);
        if rest.Returned? {
          assert first.value == [first.value[0]];
          JoinSweep(b, next, end, works, first.value[0], rest.value, failed);
        }
      }
    }
  }

  lemma StillSettles(b: Board, next: Board, end: Board, work: Id, d: Decision, failed: set<Id>)
    requires work in b.leases && work in next.leases && next.leases[work] == b.leases[work] && next.nodes == b.nodes
    requires Settles(next, end, work, d, failed)
    ensures Settles(b, end, work, d, failed)
  {
  }

  lemma SettledStays(b: Board, next: Board, end: Board, work: Id, d: Decision, failed: set<Id>)
    requires work in b.leases && Settles(b, next, work, d, failed) && RefusalsKept(next, end)
    requires work in end.leases <==> work in next.leases
    requires work in end.leases ==> end.leases[work] == next.leases[work]
    ensures Settles(b, end, work, d, failed)
  {
  }

  /** One settled work in front of a finished sweep is a finished sweep. */
  lemma JoinSweep(b: Board, next: Board, end: Board, works: seq<Id>, d: Decision, ds: seq<Decision>, failed: set<Id>)
    requires works != [] && Ascending(works) && next.nodes == b.nodes && RefusalsKept(next, end)
    requires forall w :: w in works ==> w in b.leases
    requires works[0] in works && Settles(b, next, works[0], d, failed)
    requires forall w :: w != works[0] ==>
        (w in next.leases <==> w in b.leases) && (w in next.leases ==> next.leases[w] == b.leases[w])
    requires SweepDone(next, end, works[1..], ds, failed)
    ensures SweepDone(b, end, works, [d] + ds, failed)
  {
    hide Settles, Ascending;
    var tail := works[1..];
    forall w ensures w in tail <==> w in works && w != works[0] { MemberOfTail(works, w); }
    forall i | 0 <= i < |works| ensures works[i] in b.leases && Settles(b, end, works[i], ([d] + ds)[i], failed) {
      if i > 0 {
        assert tail[i - 1] == works[i] && works[i] in tail;
        StillSettles(b, next, end, works[i], ds[i - 1], failed);
      } else {
        SettledStays(b, next, end, works[0], d, failed);
      }
    }
  }

  /** The works whose unexpired lease is on a failed node. */
  ghost function Stranded(b: Board, now: real, maxAge: real): set<Id> {
    set w | w in b.leases && now < b.leases[w].expiresAt && b.leases[w].nodeId in Failed(b.nodes, now, maxAge)
  }

  lemma AffectedAreStranded(b: Board, now: real, maxAge: real)
    ensures Enumerates(AffectedWorks(b, now, maxAge), Stranded(b, now, maxAge))
    ensures forall w :: w in AffectedWorks(b, now, maxAge) ==> w in Swept(b, now, maxAge).leases
    ensures AllOffline(Swept(b, now, maxAge), Failed(b.nodes, now, maxAge))
  {
    hide Failed;
    assert Affected(Unexpired(b.leases, now), Failed(b.nodes, now, maxAge)) == Stranded(b, now, maxAge);
  }

  /** A finished sweep over all stranded works leaves every failed node without a lease. */
  lemma NothingLeftStranded(b: Board, end: Board, now: real, maxAge: real, ds: seq<Decision>)
    requires SweepDone(Swept(b, now, maxAge), end, AffectedWorks(b, now, maxAge), ds, Failed(b.nodes, now, maxAge))
    ensures forall w :: w in end.leases ==>
        end.leases[w].nodeId !in Failed(b.nodes, now, maxAge) && w in b.leases && now < b.leases[w].expiresAt
    ensures forall w :: w in b.leases && now < b.leases[w].expiresAt && w !in Stranded(b, now, maxAge) ==>
        w in end.leases && end.leases[w] == b.leases[w]
  {
    hide Failed, AffectedWorks;
    var failed, swept, works := Failed(b.nodes, now, maxAge), Swept(b, now, maxAge), AffectedWorks(b, now, maxAge);
    AffectedAreStranded(b, now, maxAge);
    forall w | w in end.leases ensures end.leases[w].nodeId !in failed && w in swept.leases {
      if w in works {
        var i :| 0 <= i < |works| && works[i] == w;
        assert Settles(swept, end, works[i], ds[i], failed);
      }
    }
  }

  /** After a recovery that returned, no registered node that was stale, offline or quarantined holds a lease;
      every unexpired lease such a node held got exactly one decision, in order of work; every other unexpired
      lease is as it was. With a positive age and lease time it always returns. */
  lemma RecoveryClearsFailedNodes(b: Board, now: real, maxAge: real, leaseSeconds: real)
    requires Consistent(b)
    ensures var (end, o) := Recover(b, now, maxAge, leaseSeconds);
            && (maxAge > 0.0 && leaseSeconds > 0.0 ==> o.Returned?)
            && (o.Returned? ==>
                  && Consistent(end)
                  && (forall w :: w in end.leases ==>
                        && end.leases[w].nodeId !in Failed(b.nodes, now, maxAge)
                        && w in b.leases && now < b.leases[w].expiresAt)
                  && Enumerates(AffectedWorks(b, now, maxAge), Stranded(b, now, maxAge))
                  && SweepDone(Swept(b, now, maxAge), end, AffectedWorks(b, now, maxAge), o.value,
                               Failed(b.nodes, now, maxAge))
                  && (forall w :: w in b.leases && now < b.leases[w].expiresAt && w !in Stranded(b, now, maxAge) ==>
                        w in end.leases && end.leases[w] == b.leases[w]))
  {
    hide Consistent, Reassign, SweepDone, Failed, AffectedWorks, Swept, Stranded, AllOffline, Enumerates;
    if maxAge > 0.0 {
      var failed, swept, works := Failed(b.nodes, now, maxAge), Swept(b, now, maxAge), AffectedWorks(b, now, maxAge);
      SweptIsConsistent(b, now, maxAge);
      AffectedAreStranded(b, now, maxAge);
      EnumerationIsAscending(works, Stranded(b, now, maxAge));
      ReassignSettlesEach(swept, works, now, leaseSeconds, failed);
      ReassignKeepsConsistency(swept, works, now, leaseSeconds);
      var (end, o) := Reassign(swept, works, now, leaseSeconds);
      if o.Returned? {
        NothingLeftStranded(b, end, now, maxAge, o.value);
      }
    }
  }

  lemma EnumerationIsAscending(s: seq<Id>, keys: set<Id>)
    requires Enumerates(s, keys)
    ensures Ascending(s)
  {
  }
}
