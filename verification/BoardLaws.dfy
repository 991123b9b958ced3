/** What every run of the coordinator keeps, and what recovery achieves. */
module BoardLaws {
  import opened Basics
  import opened Placement
  import opened BoardSpec
  import opened Choice

  // ----- consistency -----

  /** Every lease is filed under its work, has a stored requirement, and is not held by a node that refused the work. */
  ghost predicate LeaseSound(b: Board, w: Id) {
    w in b.leases ==>
      && b.leases[w].workId == w
      && w in b.requirements && b.requirements[w].workId == w
      && b.leases[w].issuedAt < b.leases[w].expiresAt
      && b.leases[w].nodeId !in RefusalsOf(b, w)
  }

  ghost predicate Consistent(b: Board) {
    && Keyed(b.nodes)
    && (forall n :: n in b.nodes ==> Admissible(b.bodyId, b.nodes[n]))
    && (forall w :: w in b.requirements ==> b.requirements[w].workId == w)
    && (forall w :: w in b.refusals ==> w in b.requirements)
    && (forall w :: w in b.leases ==> LeaseSound(b, w))
  }

  lemma PlaceOnKeepsConsistency(b: Board, req: Requirement, now: real, leaseSeconds: real, excluded: set<Id>)
    requires Consistent(b) && req.workId in b.requirements && RefusalsOf(b, req.workId) <= excluded
    ensures Consistent(PlaceOn(b, req, now, leaseSeconds, excluded).0)
  {
    hide PlaceOn, ExclusionReason;
    PlaceOnEffect(b, req, now, leaseSeconds, excluded);
    var next := PlaceOn(b, req, now, leaseSeconds, excluded).0;
    forall w | w in next.leases ensures LeaseSound(next, w) {
      assert w != req.workId ==> LeaseSound(b, w);
    }
  }

  lemma UnexpiredKeepsConsistency(b: Board, now: real)
    requires Consistent(b)
    ensures Consistent(b.(leases := Unexpired(b.leases, now)))
  {
    forall w | w in Unexpired(b.leases, now) ensures LeaseSound(b.(leases := Unexpired(b.leases, now)), w) {
      assert LeaseSound(b, w);
    }
  }

  lemma PlaceKeepsConsistency(b: Board, req: Requirement, now: real, leaseSeconds: real, exclude: set<Id>)
    requires Consistent(b)
    ensures Consistent(Place(b, req, now, leaseSeconds, exclude).0)
  {
    hide PlaceOn;
    UnexpiredKeepsConsistency(b, now);
    var live := b.(leases := Unexpired(b.leases, now));
    if leaseSeconds > 0.0 && req.workId !in live.leases {
      var stored := live.(requirements := live.requirements[req.workId := req]);
      forall w | w in stored.leases ensures LeaseSound(stored, w) { assert LeaseSound(live, w); }
      PlaceOnKeepsConsistency(stored, req, now, leaseSeconds, exclude + RefusalsOf(b, req.workId));
    }
  }

  lemma DroppedIsConsistent(b: Board, work: Id)
    requires Consistent(b) && work in b.leases && work in b.requirements
    ensures Consistent(Dropped(b, work))
  {
    forall w | w in Dropped(b, work).leases ensures LeaseSound(Dropped(b, work), w) { assert LeaseSound(b, w); }
  }

  lemma RefuseKeepsConsistency(b: Board, work: Id, node: Id, reason: string, now: real, leaseSeconds: real)
    requires Consistent(b)
    ensures Consistent(Refuse(b, work, node, reason, now, leaseSeconds).0)
  {
    hide PlaceOn;
    if reason != "" && Owns(b, work, node) {
      DroppedIsConsistent(b, work);
      PlaceOnKeepsConsistency(Dropped(b, work), b.requirements[work], now, leaseSeconds,
                              Dropped(b, work).refusals[work]);
    }
  }

  lemma CompleteKeepsConsistency(b: Board, work: Id, node: Id)
    requires Consistent(b)
    ensures Consistent(Complete(b, work, node).0)
  {
    var next := Complete(b, work, node).0;
    forall w | w in next.leases ensures LeaseSound(next, w) { assert LeaseSound(b, w); }
  }

  lemma ReassignOneKeepsConsistency(b: Board, work: Id, now: real, leaseSeconds: real)
    requires Consistent(b) && work in b.leases
    ensures Consistent(ReassignOne(b, work, now, leaseSeconds).0)
  {
    hide PlaceOn;
    assert LeaseSound(b, work);
    DroppedIsConsistent(b, work);
    PlaceOnKeepsConsistency(Dropped(b, work), b.requirements[work], now, leaseSeconds, Dropped(b, work).refusals[work]);
  }

  lemma {:induction false} ReassignKeepsConsistency(b: Board, works: seq<Id>, now: real, leaseSeconds: real)
    requires Consistent(b)
    ensures Consistent(Reassign(b, works, now, leaseSeconds).0)
    decreases |works|
  {
    hide ReassignOne, Consistent;
    if works == [] {
    } else if works[0] !in b.leases {
      ReassignKeepsConsistency(b, works[1..], now, leaseSeconds);
    } else {
      ReassignOneKeepsConsistency(b, works[0], now, leaseSeconds);
      ReassignKeepsConsistency(ReassignOne(b, works[0], now, leaseSeconds).0, works[1..], now, leaseSeconds);
    }
  }

  lemma SweptIsConsistent(b: Board, now: real, maxAge: real)
    requires Consistent(b)
    ensures Consistent(Swept(b, now, maxAge))
  {
    UnexpiredKeepsConsistency(b, now);
    var swept := Swept(b, now, maxAge);
    forall w | w in swept.leases ensures LeaseSound(swept, w) {
      assert LeaseSound(b.(leases := Unexpired(b.leases, now)), w);
    }
  }

  lemma StepKeepsConsistency(b: Board, op: Op)
    requires Consistent(b)
    ensures Consistent(Step(b, op))
  {
    hide Place, Refuse, Complete, Reassign;
    match op
    case PlaceOp(req, now, leaseSeconds, exclude) => PlaceKeepsConsistency(b, req, now, leaseSeconds, exclude);
    case RefuseOp(work, node, reason, now, leaseSeconds) =>
      RefuseKeepsConsistency(b, work, node, reason, now, leaseSeconds);
    case CompleteOp(work, node) => CompleteKeepsConsistency(b, work, node);
    case RecoverOp(now, maxAge, leaseSeconds) =>
      SweptIsConsistent(b, now, maxAge);
      ReassignKeepsConsistency(Swept(b, now, maxAge), AffectedWorks(b, now, maxAge), now, leaseSeconds);
    case _ =>
      forall w | w in Step(b, op).leases ensures LeaseSound(Step(b, op), w) { assert LeaseSound(b, w); }
  }

  /** In every reachable state each lease has a stored requirement and a holder that has not refused the work. */
  lemma {:induction false} EveryReachableBoardIsConsistent(bodyId: Id, ops: seq<Op>)
    ensures Consistent(Run(Empty(bodyId), ops))
    decreases |ops|
  {
    hide Step;
    if ops != [] {
      EveryReachableBoardIsConsistent(bodyId, ops[..|ops| - 1]);
      StepKeepsConsistency(Run(Empty(bodyId), ops[..|ops| - 1]), ops[|ops| - 1]);
    }
  }
}
