/** Live resource observations and the bounded retry loop that keeps work on nodes which meet its resource
    requirements: services/body_capacity.py, as functions on values. */
module Resources {
  import opened Basics
  import opened Placement
  import opened BoardSpec
  import opened Choice
  import opened BoardLaws
  import opened BoardRuns

  datatype Kind = Memory | Storage | Compute | Accelerator

  datatype Scope = Local | Attached | BodyShared

  datatype Resource = Resource(
    resourceId: Id, kind: Kind, scope: Scope, capacity: real, available: real,
    unit: Id, capabilities: set<Id>, online: bool)

  datatype ResourceAd = ResourceAd(nodeId: Id, bodyId: Id, observedAt: real, resources: seq<Resource>)

  datatype Need = Need(kind: Kind, minimum: real, unit: Id, scopes: set<Scope>, capabilities: set<Id>)

  /** The answer of the clock and the verification provider to the n-th proof check. Nothing is assumed about it. */
  type Oracle = (nat, ResourceAd) -> bool

  /** What the registry holds, and how many proof checks it has made. */
  datatype Observed = Observed(bodyId: Id, ads: map<Id, ResourceAd>, asked: nat)

  predicate Satisfies(res: Resource, need: Need) {
    && res.online && res.kind == need.kind && res.scope in need.scopes && res.unit == need.unit
    && need.capabilities <= res.capabilities && res.available >= need.minimum
  }

  ghost predicate Met(resources: seq<Resource>, need: Need) {
    exists i :: 0 <= i < |resources| && Satisfies(resources[i], need)
  }

  ghost predicate AllMet(resources: seq<Resource>, needs: seq<Need>) {
    forall j :: 0 <= j < |needs| ==> Met(resources, needs[j])
  }

  /** `get`: an advertisement whose proof is no longer current is forgotten, not returned. */
  function Get(oracle: Oracle, obs: Observed, node: Id): (Observed, Option<ResourceAd>) {
    if node !in obs.ads then (obs, None)
    else if oracle(obs.asked, obs.ads[node]) then (obs.(asked := obs.asked + 1), Some(obs.ads[node]))
    else (obs.(asked := obs.asked + 1, ads := obs.ads - {node}), None)
  }

  ghost function NodeMeets(oracle: Oracle, obs: Observed, node: Id, needs: seq<Need>): (Observed, bool) {
    var (next, ad) := Get(oracle, obs, node);
    (next, ad.Some? && AllMet(ad.value.resources, needs))
  }

  /** The node's advertisement is held, its proof was current at the last check made, and it covers every need. */
  ghost predicate Eligible(oracle: Oracle, obs: Observed, node: Id, needs: seq<Need>) {
    && node in obs.ads && obs.asked > 0 && oracle(obs.asked - 1, obs.ads[node])
    && AllMet(obs.ads[node].resources, needs)
  }

  lemma MeetingIsEligibility(oracle: Oracle, obs: Observed, node: Id, needs: seq<Need>)
    ensures NodeMeets(oracle, obs, node, needs).1 ==>
        Eligible(oracle, NodeMeets(oracle, obs, node, needs).0, node, needs)
  {
  }

  /** Some resource of the node is on line, of the right kind, scope and unit, has the capabilities, and has enough
      available: for every need. */
  ghost predicate Provides(ad: ResourceAd, needs: seq<Need>) {
    forall need :: need in needs ==>
      exists res :: res in ad.resources
        && res.online && res.kind == need.kind && res.scope in need.scopes && res.unit == need.unit
        && (forall x :: x in need.capabilities ==> x in res.capabilities)
        && need.minimum <= res.available
  }

  /** A node meets the needs exactly when its advertisement is held, is proved current by this check, and provides them.
      The check forgets an advertisement exactly when it is held and not proved. */
  lemma MeetsExactlyWhen(oracle: Oracle, obs: Observed, node: Id, needs: seq<Need>)
    ensures var (next, meets) := NodeMeets(oracle, obs, node, needs);
            var held := node in obs.ads;
            var proved := held && oracle(obs.asked, obs.ads[node]);
            && (meets <==> proved && Provides(obs.ads[node], needs))
            && next.asked == obs.asked + (if held then 1 else 0)
            && next.ads == (if held && !proved then obs.ads - {node} else obs.ads)
  {
    if node in obs.ads && oracle(obs.asked, obs.ads[node]) {
      var ad := obs.ads[node];
      if AllMet(ad.resources, needs) {
        forall need | need in needs ensures exists res :: res in ad.resources && Satisfies(res, need) {
          var j :| 0 <= j < |needs| && needs[j] == need;
          var i :| 0 <= i < |ad.resources| && Satisfies(ad.resources[i], needs[j]);
          assert ad.resources[i] in ad.resources;
        }
      }
      if Provides(ad, needs) {
        forall j | 0 <= j < |needs| ensures Met(ad.resources, needs[j]) {
          assert needs[j] in needs;
          var res :| res in ad.resources && Satisfies(res, needs[j]);
          var i :| 0 <= i < |ad.resources| && ad.resources[i] == res;
        }
      }
    }
  }

  // ----- the retry loop -----

  /** One resource check: which node, and whether it passed. A node no longer registered fails without a proof check. */
  datatype Check = Check(node: Id, passed: bool)

  ghost function CheckNode(oracle: Oracle, b: Board, obs: Observed, node: Id, needs: seq<Need>): (Observed, bool) {
    if node in b.nodes then NodeMeets(oracle, obs, node, needs) else (obs, false)
  }

  function NeedsOf(needs: map<Id, seq<Need>>, work: Id): seq<Need> {
    if work in needs then needs[work] else []
  }

  datatype Settled = Settled(board: Board, observed: Observed, outcome: Outcome<Decision, Error>, checks: seq<Check>)

  /** `_ensure_resource_eligible` from its `attempts`-th turn: at most `limit` nodes are turned away. */
  ghost function Settle(oracle: Oracle, b: Board, obs: Observed, needs: map<Id, seq<Need>>,
                        current: Outcome<Decision, Error>, now: real, leaseSeconds: real, attempts: nat, limit: nat)
    : Settled
    decreases limit - attempts
  {
    if current.Raised? || current.value.lease.None? || attempts >= limit then Settled(b, obs, current, [])
    else
      var lease := current.value.lease.value;
      var wanted := NeedsOf(needs, lease.workId);
      if wanted == [] then Settled(b, obs, current, [])
      else
        var (seen, passed) := CheckNode(oracle, b, obs, lease.nodeId, wanted);
        if passed then Settled(b, seen, current, [Check(lease.nodeId, true)])
        else
          var (next, o) := Refuse(b, lease.workId, lease.nodeId, "resource-requirement-unmet", now, leaseSeconds);
          var rest := Settle(oracle, next, seen, needs, o, now, leaseSeconds, attempts + 1, limit);
          rest.(checks := [Check(lease.nodeId, false)] + rest.checks)
  }

  /** One turn of the loop. */
  lemma SettleOnce(oracle: Oracle, b: Board, obs: Observed, needs: map<Id, seq<Need>>,
                   current: Outcome<Decision, Error>, now: real, leaseSeconds: real, attempts: nat, limit: nat)
    ensures Settle(oracle, b, obs, needs, current, now, leaseSeconds, attempts, limit) ==
      if current.Raised? || current.value.lease.None? || attempts >= limit then Settled(b, obs, current, [])
      else
        var lease := current.value.lease.value;
        var wanted := NeedsOf(needs, lease.workId);
        if wanted == [] then Settled(b, obs, current, [])
        else
          var (seen, passed) := CheckNode(oracle, b, obs, lease.nodeId, wanted);
          if passed then Settled(b, seen, current, [Check(lease.nodeId, true)])
          else
            var (next, o) := Refuse(b, lease.workId, lease.nodeId, "resource-requirement-unmet", now, leaseSeconds);
            var rest := Settle(oracle, next, seen, needs, o, now, leaseSeconds, attempts + 1, limit);
            rest.(checks := [Check(lease.nodeId, false)] + rest.checks)
  {
    hide Refuse, CheckNode, NeedsOf;
  }

  function Attempts(b: Board): nat {
    if |b.nodes| < 1 then 1 else |b.nodes|
  }

  /** The registered nodes that have not refused the work: the retries that are left. */
  function Remaining(b: Board, work: Id): set<Id> {
    b.nodes.Keys - RefusalsOf(b, work)
  }

  /** The decision's lease, if any, is the one on the board, and its holder is registered. */
  ghost predicate Standing(b: Board, work: Id, o: Outcome<Decision, Error>) {
    o.Returned? && o.value.lease.Some? ==>
      var lease := o.value.lease.value;
      lease.workId == work && work in b.leases && b.leases[work] == lease && lease.nodeId in b.nodes
  }

  lemma RefusalStands(b: Board, work: Id, node: Id, reason: string, now: real, leaseSeconds: real)
    requires Consistent(b) && reason != ""
    ensures var (next, o) := Refuse(b, work, node, reason, now, leaseSeconds);
            && Consistent(next) && Standing(next, work, o) && next.nodes == b.nodes
            && (Owns(b, work, node) ==> RefusalsOf(next, work) == RefusalsOf(b, work) + {node})
            && (!Owns(b, work, node) ==> next == b)
  {
    hide PlaceOn, ExclusionReason, Consistent, LeasesOn;
    RefuseKeepsConsistency(b, work, node, reason, now, leaseSeconds);
    if Owns(b, work, node) {
      ConsistentLease(b, work);
      PlaceOnEffect(Dropped(b, work), b.requirements[work], now, leaseSeconds, Dropped(b, work).refusals[work]);
    }
  }

  /** Turning the holder away uses up one of the remaining nodes. */
  lemma RetryUsesUpANode(b: Board, work: Id, now: real, leaseSeconds: real)
    requires Consistent(b) && work in b.leases && b.leases[work].nodeId in b.nodes
    ensures var next := Refuse(b, work, b.leases[work].nodeId, "resource-requirement-unmet", now, leaseSeconds).0;
            && Remaining(next, work) == Remaining(b, work) - {b.leases[work].nodeId}
            && |Remaining(next, work)| == |Remaining(b, work)| - 1
            && RefusalsOf(next, work) == RefusalsOf(b, work) + {b.leases[work].nodeId}
            && next.nodes == b.nodes
  {
    hide Refuse, Consistent, Standing, RefusalsOf;
    ConsistentLease(b, work);
    RefusalStands(b, work, b.leases[work].nodeId, "resource-requirement-unmet", now, leaseSeconds);
  }

  /** What the loop promises about one work: only the last check can have passed, every node that failed was turned
      away for good, no node was checked twice, and a lease that is given back passed the last check made. */
  ghost predicate WellSettled(oracle: Oracle, b: Board, s: Settled, work: Id, wanted: seq<Need>) {
    && Consistent(s.board) && s.board.nodes == b.nodes && Standing(s.board, work, s.outcome)
    && (forall i :: 0 <= i < |s.checks| - 1 ==> !s.checks[i].passed)
    && (forall i, j :: 0 <= i < j < |s.checks| ==> s.checks[i].node != s.checks[j].node)
    && (forall i :: 0 <= i < |s.checks| ==> s.checks[i].node in Remaining(b, work))
    && (forall i :: 0 <= i < |s.checks| && !s.checks[i].passed ==> s.checks[i].node in RefusalsOf(s.board, work))
    && (s.outcome.Returned? && s.outcome.value.lease.Some? && wanted != [] ==>
          && s.checks != [] && s.checks[|s.checks| - 1] == Check(s.outcome.value.lease.value.nodeId, true)
          && Eligible(oracle, s.observed, s.outcome.value.lease.value.nodeId, wanted))
  }

  lemma SettledAtOnce(oracle: Oracle, b: Board, obs: Observed, needs: map<Id, seq<Need>>, work: Id,
                      current: Outcome<Decision, Error>, now: real, leaseSeconds: real, attempts: nat, limit: nat)
    requires Consistent(b) && Standing(b, work, current)
    requires attempts + |Remaining(b, work)| <= limit
    requires current.Raised? || current.value.lease.None? || NeedsOf(needs, work) == []
          || CheckNode(oracle, b, obs, current.value.lease.value.nodeId, NeedsOf(needs, work)).1
    ensures WellSettled(oracle, b, Settle(oracle, b, obs, needs, current, now, leaseSeconds, attempts, limit), work,
                        NeedsOf(needs, work))
  {
    hide Refuse, Consistent, NodeMeets;
    if current.Returned? && current.value.lease.Some? {
      var node := current.value.lease.value.nodeId;
      HolderRemains(b, work);
      assert attempts < limit by { assert node in Remaining(b, work); }
      MeetingIsEligibility(oracle, obs, node, NeedsOf(needs, work));
    }
  }

  lemma HolderRemains(b: Board, work: Id)
    requires Consistent(b) && work in b.leases && b.leases[work].nodeId in b.nodes
    ensures b.leases[work].nodeId in Remaining(b, work)
    ensures |Remaining(b, work)| > 0
  {
    assert LeaseSound(b, work);
  }

  /** The attempt bound never cuts the search short: a lease given back always passed its last resource check,
      because every retry moves a different registered node onto the work's refusal list. */
  lemma {:induction false} RetriesNeverRunOut(
      oracle: Oracle, b: Board, obs: Observed, needs: map<Id, seq<Need>>, work: Id,
      current: Outcome<Decision, Error>, now: real, leaseSeconds: real, attempts: nat, limit: nat)
    requires Consistent(b) && Standing(b, work, current)
    requires attempts + |Remaining(b, work)| <= limit
    ensures WellSettled(oracle, b, Settle(oracle, b, obs, needs, current, now, leaseSeconds, attempts, limit), work,
                        NeedsOf(needs, work))
    decreases limit - attempts
  {
    hide Refuse, Consistent, CheckNode, WellSettled;
    var wanted := NeedsOf(needs, work);
    if current.Raised? || current.value.lease.None? || wanted == []
       || CheckNode(oracle, b, obs, current.value.lease.value.nodeId, wanted).1
    {
      SettledAtOnce(oracle, b, obs, needs, work, current, now, leaseSeconds, attempts, limit);
    } else {
      var node := current.value.lease.value.nodeId;
      HolderRemains(b, work);
      RetryUsesUpANode(b, work, now, leaseSeconds);
      ConsistentLease(b, work);
      RefusalStands(b, work, node, "resource-requirement-unmet", now, leaseSeconds);
      var seen := CheckNode(oracle, b, obs, node, wanted).0;
      var (next, o) := Refuse(b, work, node, "resource-requirement-unmet", now, leaseSeconds);
      RetriesNeverRunOut(oracle, next, seen, needs, work, o, now, leaseSeconds, attempts + 1, limit);
      var rest := Settle(oracle, next, seen, needs, o, now, leaseSeconds, attempts + 1, limit);
      SettleRefusalsKept(oracle, next, seen, needs, work, o, now, leaseSeconds, attempts + 1, limit);
      JoinSettled(oracle, b, next, rest, work, wanted, node);
    }
  }

  lemma {:induction false} SettleRefusalsKept(
      oracle: Oracle, b: Board, obs: Observed, needs: map<Id, seq<Need>>, work: Id,
      current: Outcome<Decision, Error>, now: real, leaseSeconds: real, attempts: nat, limit: nat)
    requires Consistent(b) && Standing(b, work, current)
    ensures var settled := Settle(oracle, b, obs, needs, current, now, leaseSeconds, attempts, limit);
            RefusalsOf(b, work) <= RefusalsOf(settled.board, work)
    decreases limit - attempts
  {
    hide Refuse, Consistent, CheckNode;
    if current.Returned? && current.value.lease.Some? && attempts < limit {
      var node := current.value.lease.value.nodeId;
      ConsistentLease(b, work);
      RefusalStands(b, work, node, "resource-requirement-unmet", now, leaseSeconds);
      var seen := CheckNode(oracle, b, obs, node, NeedsOf(needs, work)).0;
      var (next, o) := Refuse(b, work, node, "resource-requirement-unmet", now, leaseSeconds);
      SettleRefusalsKept(oracle, next, seen, needs, work, o, now, leaseSeconds, attempts + 1, limit);
    }
  }

  lemma JoinSettled(oracle: Oracle, b: Board, next: Board, rest: Settled, work: Id, wanted: seq<Need>, node: Id)
    requires WellSettled(oracle, next, rest, work, wanted) && next.nodes == b.nodes
    requires node in Remaining(b, work) && Remaining(next, work) == Remaining(b, work) - {node}
    requires node in RefusalsOf(next, work) && RefusalsOf(next, work) <= RefusalsOf(rest.board, work)
    requires wanted != []
    ensures WellSettled(oracle, b, rest.(checks := [Check(node, false)] + rest.checks), work, wanted)
  {
    hide Consistent, Eligible;
    var s := rest.(checks := [Check(node, false)] + rest.checks);
    forall i | 0 <= i < |s.checks|
      ensures s.checks[i].node in Remaining(b, work)
      ensures !s.checks[i].passed ==> s.checks[i].node in RefusalsOf(s.board, work)
      ensures i > 0 ==> s.checks[i].node != node
    {
      if i > 0 { assert s.checks[i] == rest.checks[i - 1]; }
    }
    forall i | 0 <= i < |s.checks| - 1 ensures !s.checks[i].passed {
      if i > 0 { assert s.checks[i] == rest.checks[i - 1]; }
    }
    forall i, j | 0 <= i < j < |s.checks| ensures s.checks[i].node != s.checks[j].node {
      assert s.checks[j] == rest.checks[j - 1];
      if i > 0 { assert s.checks[i] == rest.checks[i - 1]; }
    }
  }

  /** For the call as it is made, from a refusal or a handoff: whatever the oracle answers, a lease that comes back
      is on a node that passed its last resource check. */
  lemma ReassignedWorkMeetsItsNeeds(oracle: Oracle, b: Board, obs: Observed, needs: map<Id, seq<Need>>,
                                    work: Id, node: Id, reason: string, now: real, leaseSeconds: real)
    requires Consistent(b) && reason != ""
    ensures var (first, o) := Refuse(b, work, node, reason, now, leaseSeconds);
            WellSettled(oracle, first, Settle(oracle, first, obs, needs, o, now, leaseSeconds, 0, Attempts(first)),
                        work, NeedsOf(needs, work))
  {
    hide Refuse, Consistent, WellSettled;
    RefusalStands(b, work, node, reason, now, leaseSeconds);
    var (first, o) := Refuse(b, work, node, reason, now, leaseSeconds);
    SubsetSize(Remaining(first, work), first.nodes.Keys);
    RetriesNeverRunOut(oracle, first, obs, needs, work, o, now, leaseSeconds, 0, Attempts(first));
  }

  /** The loop leaves a lease as it found it exactly when its work has no needs or its holder passes; a holder that
      fails is turned away for good. */
  lemma LeaseStandsExactlyWhen(oracle: Oracle, b: Board, obs: Observed, needs: map<Id, seq<Need>>, work: Id,
                               current: Outcome<Decision, Error>, now: real, leaseSeconds: real)
    requires Consistent(b) && Standing(b, work, current) && current.Returned? && current.value.lease.Some?
    ensures var node := current.value.lease.value.nodeId;
            var s := Settle(oracle, b, obs, needs, current, now, leaseSeconds, 0, Attempts(b));
            var stands := NeedsOf(needs, work) == [] || NodeMeets(oracle, obs, node, NeedsOf(needs, work)).1;
            && (s.board == b && s.outcome == current <==> stands)
            && (!stands ==> node in RefusalsOf(s.board, work) && node !in RefusalsOf(b, work))
  {
    hide Refuse, Consistent, NodeMeets;
    var node, wanted := current.value.lease.value.nodeId, NeedsOf(needs, work);
    SettleOnce(oracle, b, obs, needs, current, now, leaseSeconds, 0, Attempts(b));
    HolderRemains(b, work);
    if wanted != [] && !NodeMeets(oracle, obs, node, wanted).1 {
      var seen := CheckNode(oracle, b, obs, node, wanted).0;
      ConsistentLease(b, work);
      RefusalStands(b, work, node, "resource-requirement-unmet", now, leaseSeconds);
      var (next, o) := Refuse(b, work, node, "resource-requirement-unmet", now, leaseSeconds);
      SettleRefusalsKept(oracle, next, seen, needs, work, o, now, leaseSeconds, 1, Attempts(b));
    }
  }

  // ----- revalidation -----

  const NoLongerMet := "resource-requirement-no-longer-met"

  /** `revalidate`: None when the lease may stay, otherwise what a handoff and its retries come to. */
  ghost function RevalidateWithin(oracle: Oracle, b: Board, obs: Observed, needs: map<Id, seq<Need>>, work: Id,
                                  now: real, leaseSeconds: real)
    : (Board, Observed, Option<Outcome<Decision, Error>>)
  {
    var wanted := NeedsOf(needs, work);
    if work !in b.leases || wanted == [] then (b, obs, None)
    else
      var node := b.leases[work].nodeId;
      var (seen, passed) := CheckNode(oracle, b, obs, node, wanted);
      if passed then (b, seen, None)
      else
        var (first, o) := Refuse(b, work, node, NoLongerMet, now, leaseSeconds);
        var s := Settle(oracle, first, seen, needs, o, now, leaseSeconds, 0, Attempts(first));
        (s.board, s.observed, Some(s.outcome))
  }

  /** There is no lease, its work has no needs, or its holder is registered, its advertisement is held and proved
      current by the next check, and it provides them. */
  ghost predicate MayStay(oracle: Oracle, b: Board, obs: Observed, needs: map<Id, seq<Need>>, work: Id) {
    work in b.leases && NeedsOf(needs, work) != [] ==>
      var node := b.leases[work].nodeId;
      && node in b.nodes && node in obs.ads && oracle(obs.asked, obs.ads[node])
      && Provides(obs.ads[node], NeedsOf(needs, work))
  }

  /** A revalidation leaves the lease exactly when it may stay, and then nothing on the board moves; otherwise the
      holder is turned away for good, and a lease that comes back is on a node that passed its check. */
  lemma LeaseStaysExactlyWhen(oracle: Oracle, b: Board, obs: Observed, needs: map<Id, seq<Need>>, work: Id,
                              now: real, leaseSeconds: real)
    ensures var (end, seen, r) := RevalidateWithin(oracle, b, obs, needs, work, now, leaseSeconds);
            && (r.None? <==> MayStay(oracle, b, obs, needs, work))
            && (r.None? ==> end == b)
            && (r.Some? && Consistent(b) ==>
                  && Consistent(end)
                  && b.leases[work].nodeId in RefusalsOf(end, work)
                  && (r.value.Returned? && r.value.value.lease.Some? ==>
                        Eligible(oracle, seen, r.value.value.lease.value.nodeId, NeedsOf(needs, work))))
  {
    hide Refuse, Consistent, NodeMeets, Settle, Provides;
    var wanted := NeedsOf(needs, work);
    if work in b.leases && wanted != [] {
      var node := b.leases[work].nodeId;
      MeetsExactlyWhen(oracle, obs, node, wanted);
      var (seen, passed) := CheckNode(oracle, b, obs, node, wanted);
      if !passed && Consistent(b) {
        var (first, o) := Refuse(b, work, node, NoLongerMet, now, leaseSeconds);
        ConsistentLease(b, work);
        RefusalStands(b, work, node, NoLongerMet, now, leaseSeconds);
        ReassignedWorkMeetsItsNeeds(oracle, b, seen, needs, work, node, NoLongerMet, now, leaseSeconds);
        SettleRefusalsKept(oracle, first, seen, needs, work, o, now, leaseSeconds, 0, Attempts(first));
      }
    }
  }

  // ----- placing with resource requirements -----

  /** The screening loop of `place`: every registered node is checked once, in order. */
  ghost function Screen(oracle: Oracle, obs: Observed, nodes: seq<Advertisement>, needs: seq<Need>)
    : (Observed, set<Id>)
  {
    if nodes == [] then (obs, {})
    else
      var last := nodes[|nodes| - 1];
      var (before, failing) := Screen(oracle, obs, nodes[..|nodes| - 1], needs);
      var (next, meets) := NodeMeets(oracle, before, last.nodeId, needs);
      (next, if meets then failing else failing + {last.nodeId})
  }

  /** The node passed a resource check made during this call. */
  ghost predicate PassedIn(oracle: Oracle, obs: Observed, nodes: seq<Advertisement>, needs: seq<Need>, node: Id) {
    exists i :: 0 <= i < |nodes| && nodes[i].nodeId == node
      && NodeMeets(oracle, Screen(oracle, obs, nodes[..i], needs).0, node, needs).1
  }

  lemma {:induction false} ScreeningIsExact(oracle: Oracle, obs: Observed, nodes: seq<Advertisement>, needs: seq<Need>)
    requires DistinctNodes(nodes)
    ensures forall i :: 0 <= i < |nodes| ==>
        (nodes[i].nodeId in Screen(oracle, obs, nodes, needs).1
         <==> !NodeMeets(oracle, Screen(oracle, obs, nodes[..i], needs).0, nodes[i].nodeId, needs).1)
    ensures forall n :: n in Screen(oracle, obs, nodes, needs).1 ==>
        exists i :: 0 <= i < |nodes| && nodes[i].nodeId == n
  {
    hide NodeMeets;
    if nodes != [] {
      var front := nodes[..|nodes| - 1];
      ScreeningIsExact(oracle, obs, front, needs);
      forall i | 0 <= i < |nodes|
        ensures nodes[i].nodeId in Screen(oracle, obs, nodes, needs).1
           <==> !NodeMeets(oracle, Screen(oracle, obs, nodes[..i], needs).0, nodes[i].nodeId, needs).1
      {
        if i < |front| {
          assert front[..i] == nodes[..i] && front[i] == nodes[i];
        } else {
          assert forall j :: 0 <= j < |front| ==> front[j] == nodes[j];
          assert nodes[i].nodeId !in Screen(oracle, obs, front, needs).1;
        }
      }
      forall n | n in Screen(oracle, obs, nodes, needs).1 ensures exists i :: 0 <= i < |nodes| && nodes[i].nodeId == n {
        if n in Screen(oracle, obs, front, needs).1 {
          var i :| 0 <= i < |front| && front[i].nodeId == n;
          assert nodes[i].nodeId == n;
        }
      }
    }
  }

  ghost function PlaceWithin(oracle: Oracle, b: Board, obs: Observed, req: Requirement, needs: seq<Need>,
                             now: real, leaseSeconds: real, exclude: set<Id>)
    : (Board, Observed, Outcome<Decision, Error>)
  {
    var (seen, failing) := if needs == [] then (obs, {}) else Screen(oracle, obs, Snapshot(b.nodes), needs);
    var (next, o) := BoardSpec.Place(b, req, now, leaseSeconds, exclude + failing);
    (next, seen, o)
  }

  /** The work holds a lease that has not expired. */
  predicate HasLiveLease(b: Board, work: Id, now: real) {
    work in b.leases && now < b.leases[work].expiresAt
  }

  /** An existing lease is handed back exactly when the work holds a live one; then nothing is searched. */
  lemma HandsBackExactlyWhenLive(oracle: Oracle, b: Board, obs: Observed, req: Requirement, needs: seq<Need>,
                                 now: real, leaseSeconds: real, exclude: set<Id>)
    ensures var o := PlaceWithin(oracle, b, obs, req, needs, now, leaseSeconds, exclude).2;
            && (o.Returned? && o.value.state == AlreadyLeased <==>
                leaseSeconds > 0.0 && HasLiveLease(b, req.workId, now))
            && (leaseSeconds > 0.0 && HasLiveLease(b, req.workId, now) ==>
                  o == Returned(Existing(b.leases[req.workId])))
  {
    hide Scan, Rank, Snapshot, Screen;
  }

  /** A lease that comes back is on a node that was not excluded and passed a resource check made in this call, unless
      the work held a live lease when it was placed. */
  lemma FreshPlacementMeetsItsNeeds(oracle: Oracle, b: Board, obs: Observed, req: Requirement, needs: seq<Need>,
                                    now: real, leaseSeconds: real, exclude: set<Id>)
    requires Consistent(b)
    ensures var o := PlaceWithin(oracle, b, obs, req, needs, now, leaseSeconds, exclude).2;
            o.Returned? && o.value.lease.Some? && !HasLiveLease(b, req.workId, now) && needs != [] ==>
              && o.value.lease.value.nodeId !in exclude
              && PassedIn(oracle, obs, Snapshot(b.nodes), needs, o.value.lease.value.nodeId)
  {
    hide NodeMeets, PlaceOn, ExclusionReason, Snapshot, Screen;
    var nodes := Snapshot(b.nodes);
    var failing := Screen(oracle, obs, nodes, needs).1;
    var live := b.(leases := Unexpired(b.leases, now), requirements := b.requirements[req.workId := req]);
    var excluded := exclude + failing + RefusalsOf(b, req.workId);
    PlaceOnEffect(live, req, now, leaseSeconds, excluded);
    var o := PlaceWithin(oracle, b, obs, req, needs, now, leaseSeconds, exclude).2;
    if o.Returned? && o.value.lease.Some? && !HasLiveLease(b, req.workId, now) && needs != [] {
      var node := o.value.lease.value.nodeId;
      SnapshotIsDistinct(b.nodes);
      ScreeningIsExact(oracle, obs, nodes, needs);
      SnapshotMembers(b.nodes, node);
      var i :| 0 <= i < |nodes| && nodes[i].nodeId == node;
      assert NodeMeets(oracle, Screen(oracle, obs, nodes[..i], needs).0, node, needs).1;
    }
  }

  /** If a lease comes back, its holder passed a resource check made in this call. */
  ghost predicate Assured(oracle: Oracle, b: Board, obs: Observed, req: Requirement, needs: seq<Need>,
                          now: real, leaseSeconds: real, exclude: set<Id>)
  {
    var o := PlaceWithin(oracle, b, obs, req, needs, now, leaseSeconds, exclude).2;
    o.Returned? && o.value.lease.Some? ==>
      && o.value.lease.value.nodeId !in exclude
      && PassedIn(oracle, obs, Snapshot(b.nodes), needs, o.value.lease.value.nodeId)
  }

  /** No observation is ever proved current. */
  function ProvesNothing(asked: nat, ad: ResourceAd): bool { false }

  /** A live lease comes back unchanged although its holder is excluded and fails its check in this very call. */
  lemma LiveLeaseIsHandedBackUnchecked(b: Board, obs: Observed, req: Requirement, needs: seq<Need>,
                                       now: real, leaseSeconds: real, exclude: set<Id>)
    requires leaseSeconds > 0.0 && HasLiveLease(b, req.workId, now) && b.leases[req.workId].nodeId in exclude
    ensures var (next, _, o) := PlaceWithin(ProvesNothing, b, obs, req, needs, now, leaseSeconds, exclude);
            && o == Returned(Existing(b.leases[req.workId]))
            && next.leases == Unexpired(b.leases, now) && next.leases[req.workId] == b.leases[req.workId]
            && !PassedIn(ProvesNothing, obs, Snapshot(b.nodes), needs, b.leases[req.workId].nodeId)
  {
    hide Snapshot, Screen;
    HandsBackExactlyWhenLive(ProvesNothing, b, obs, req, needs, now, leaseSeconds, exclude);
  }

  /** Whatever the clock and the verification provider answer, a lease that comes back is on a node that is not excluded
      and passed its check: this holds exactly when the lease time is not positive or the work holds no live lease. */
  lemma AssuredExactlyWhenNoLiveLease(b: Board, obs: Observed, req: Requirement, needs: seq<Need>,
                                      now: real, leaseSeconds: real, exclude: set<Id>)
    requires Consistent(b) && needs != []
    ensures (forall oracle: Oracle :: Assured(oracle, b, obs, req, needs, now, leaseSeconds, exclude))
       <==> leaseSeconds <= 0.0 || !HasLiveLease(b, req.workId, now)
  {
    hide PlaceWithin, PassedIn, Snapshot;
    if leaseSeconds <= 0.0 || !HasLiveLease(b, req.workId, now) {
      forall oracle: Oracle
        ensures Assured(oracle, b, obs, req, needs, now, leaseSeconds, exclude)
      {
        WithoutLeaseTimeNothingComesBack(oracle, b, obs, req, needs, now, leaseSeconds, exclude);
        FreshPlacementMeetsItsNeeds(oracle, b, obs, req, needs, now, leaseSeconds, exclude);
      }
    } else {
      HandsBackExactlyWhenLive(ProvesNothing, b, obs, req, needs, now, leaseSeconds, exclude);
      NobodyPasses(b, obs, needs, b.leases[req.workId].nodeId);
      assert !Assured(ProvesNothing, b, obs, req, needs, now, leaseSeconds, exclude);
    }
  }

  lemma WithoutLeaseTimeNothingComesBack(oracle: Oracle, b: Board, obs: Observed, req: Requirement, needs: seq<Need>,
                                         now: real, leaseSeconds: real, exclude: set<Id>)
    ensures leaseSeconds <= 0.0 ==> PlaceWithin(oracle, b, obs, req, needs, now, leaseSeconds, exclude).2.Raised?
  {
    hide Snapshot, Screen;
  }

  lemma NobodyPasses(b: Board, obs: Observed, needs: seq<Need>, node: Id)
    ensures !PassedIn(ProvesNothing, obs, Snapshot(b.nodes), needs, node)
  {
    hide Snapshot, Screen;
  }
}
