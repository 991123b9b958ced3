/** The choice `_place_locked` makes, stated without its lists: who is offered the work, and why them. */
module Choice {
  import opened Basics
  import opened Placement
  import opened BoardSpec

  /** Every node is filed under its own identifier. */
  ghost predicate Keyed(nodes: map<Id, Advertisement>) {
    forall n :: n in nodes ==> nodes[n].nodeId == n
  }

  /** The candidacy of one registered node, if it has one. */
  function Offer(b: Board, req: Requirement, excluded: set<Id>, node: Advertisement): Option<Candidate> {
    var active := |LeasesOn(b.leases, node.nodeId)|;
    if node.nodeId in excluded || ExclusionReason(req, node, active).Some? then None
    else CandidateFor(req, node, active)
  }

  /** Complete coverage beats partial coverage, which beats watching. */
  function Class(mode: Mode): nat {
    match mode
    case Partial => 1
    case ObserveOnly => 2
    case _ => 0
  }

  function Of(s: Scanned, k: nat): seq<Candidate> {
    if k == 0 then s.full else if k == 1 then s.partial else s.observe
  }

  /** `c` goes ahead of `d`: a better class, or the same class and a better rank. */
  predicate Beats(c: Candidate, d: Candidate) {
    Class(c.mode) < Class(d.mode) || (Class(c.mode) == Class(d.mode) && Before(c, d))
  }

  ghost predicate Offers(b: Board, req: Requirement, excluded: set<Id>, c: Candidate) {
    c.nodeId in b.nodes && Offer(b, req, excluded, b.nodes[c.nodeId]) == Some(c)
  }

  /** One more node adds its own offer, to the class of that offer. */
  lemma ConsiderMembers(b: Board, req: Requirement, sofar: Scanned, node: Advertisement, excluded: set<Id>,
                        c: Candidate, k: nat)
    requires k < 3
    ensures c in Of(Consider(sofar, req, node, |LeasesOn(b.leases, node.nodeId)|, excluded), k)
       <==> c in Of(sofar, k) || (Class(c.mode) == k && Offer(b, req, excluded, node) == Some(c))
  {
    hide CandidateFor, ExclusionReason, LeasesOn;
  }

  lemma OfferedByOneMore(b: Board, req: Requirement, excluded: set<Id>, nodes: seq<Advertisement>, c: Candidate)
    requires nodes != []
    ensures OfferedBy(b, req, excluded, nodes, c)
       <==> || OfferedBy(b, req, excluded, nodes[..|nodes| - 1], c)
            || Offer(b, req, excluded, nodes[|nodes| - 1]) == Some(c)
  {
    hide Offer;
    var front := nodes[..|nodes| - 1];
    assert forall i :: 0 <= i < |front| ==> front[i] == nodes[i];
    if i :| 0 <= i < |nodes| && Offer(b, req, excluded, nodes[i]) == Some(c) && i != |nodes| - 1 {
      assert front[i] == nodes[i];
    }
  }

  lemma {:induction false} ScanMembers(b: Board, req: Requirement, nodes: seq<Advertisement>, excluded: set<Id>,
                                       c: Candidate, k: nat)
    requires k < 3
    ensures c in Of(Scan(req, nodes, b.leases, excluded), k)
       <==> Class(c.mode) == k && OfferedBy(b, req, excluded, nodes, c)
  {
    hide Consider, Offer, LeasesOn;
    if nodes != [] {
      var front, last := nodes[..|nodes| - 1], nodes[|nodes| - 1];
      ScanMembers(b, req, front, excluded, c, k);
      ConsiderMembers(b, req, Scan(req, front, b.leases, excluded), last, excluded, c, k);
      OfferedByOneMore(b, req, excluded, nodes, c);
    }
  }

  lemma SnapshotMembers(nodes: map<Id, Advertisement>, n: Id)
    requires Keyed(nodes)
    ensures n in nodes <==> exists i :: 0 <= i < |Snapshot(nodes)| && Snapshot(nodes)[i].nodeId == n
    ensures forall i :: 0 <= i < |Snapshot(nodes)| ==>
        Snapshot(nodes)[i].nodeId in nodes && nodes[Snapshot(nodes)[i].nodeId] == Snapshot(nodes)[i]
  {
    hide Sorted, Ascending;
    var keys := Sorted(nodes.Keys);
    forall i | 0 <= i < |keys|
      ensures keys[i] in nodes && Snapshot(nodes)[i] == nodes[keys[i]]
    {
      assert keys[i] in keys;
    }
    if n in nodes {
      assert n in keys;
      var i :| 0 <= i < |keys| && keys[i] == n;
      assert Snapshot(nodes)[i].nodeId == n;
    }
  }

  /** Some node of the list offers `c`. */
  ghost predicate OfferedBy(b: Board, req: Requirement, excluded: set<Id>, nodes: seq<Advertisement>, c: Candidate) {
    exists i :: 0 <= i < |nodes| && Offer(b, req, excluded, nodes[i]) == Some(c)
  }

  lemma OfferIsByItsNode(b: Board, req: Requirement, excluded: set<Id>, node: Advertisement, c: Candidate)
    requires Offer(b, req, excluded, node) == Some(c)
    ensures c.nodeId == node.nodeId
  {
  }

  lemma SnapshotOffers(b: Board, req: Requirement, excluded: set<Id>, c: Candidate)
    requires Keyed(b.nodes)
    ensures OfferedBy(b, req, excluded, Snapshot(b.nodes), c) <==> Offers(b, req, excluded, c)
  {
    hide Offer, Snapshot;
    var nodes := Snapshot(b.nodes);
    SnapshotMembers(b.nodes, c.nodeId);
    if OfferedBy(b, req, excluded, nodes, c) {
      var i :| 0 <= i < |nodes| && Offer(b, req, excluded, nodes[i]) == Some(c);
      OfferIsByItsNode(b, req, excluded, nodes[i], c);
    }
    if Offers(b, req, excluded, c) {
      var i :| 0 <= i < |nodes| && nodes[i].nodeId == c.nodeId;
      assert nodes[i] == b.nodes[c.nodeId];
    }
  }

  /** A class of the scan holds exactly the offers of that class. */
  lemma OffersAreScanned(b: Board, req: Requirement, excluded: set<Id>, c: Candidate, k: nat)
    requires Keyed(b.nodes) && k < 3
    ensures c in Of(Scan(req, Snapshot(b.nodes), b.leases, excluded), k)
       <==> Class(c.mode) == k && Offers(b, req, excluded, c)
  {
    hide Offer, Scan, Snapshot, OfferedBy, Offers;
    ScanMembers(b, req, Snapshot(b.nodes), excluded, c, k);
    SnapshotOffers(b, req, excluded, c);
  }

  /** The class the choice is made in: every offer is in it or in a worse one. */
  lemma BestClass(b: Board, req: Requirement, excluded: set<Id>) returns (k: nat)
    requires Keyed(b.nodes)
    ensures k < 3
    ensures Scan(req, Snapshot(b.nodes), b.leases, excluded).Best()
        == Of(Scan(req, Snapshot(b.nodes), b.leases, excluded), k)
    ensures forall c :: Offers(b, req, excluded, c) ==> k <= Class(c.mode)
  {
    hide Offer, Scan, Snapshot, Offers;
    var s := Scan(req, Snapshot(b.nodes), b.leases, excluded);
    k := if s.full != [] then 0 else if s.partial != [] then 1 else 2;
    forall c | Offers(b, req, excluded, c) ensures k <= Class(c.mode) {
      OffersAreScanned(b, req, excluded, c, Class(c.mode));
    }
  }

  lemma MembersOfRank(cs: seq<Candidate>, c: Candidate)
    ensures c in Rank(cs) <==> c in cs
  {
    RankSorts(cs);
    assert c in Rank(cs) <==> c in multiset(Rank(cs));
    assert c in cs <==> c in multiset(cs);
  }

  /** Work stays unplaced exactly when no registered node offers to carry it. */
  lemma UnplacedExactlyWhenNobodyOffers(b: Board, req: Requirement, now: real, leaseSeconds: real, excluded: set<Id>)
    requires Keyed(b.nodes)
    ensures PlaceOn(b, req, now, leaseSeconds, excluded).1.Returned?
            && PlaceOn(b, req, now, leaseSeconds, excluded).1.value.lease.None?
       <==> forall c :: !Offers(b, req, excluded, c)
  {
    hide Offer, Scan, Snapshot, Offers, Rank;
    var best := Scan(req, Snapshot(b.nodes), b.leases, excluded).Best();
    RankSorts(best);
    var k := BestClass(b, req, excluded);
    if best != [] {
      assert best[0] in best;
      OffersAreScanned(b, req, excluded, best[0], k);
    } else {
      forall c | Offers(b, req, excluded, c) ensures false {
        OffersAreScanned(b, req, excluded, c, Class(c.mode));
      }
    }
  }

  /** `chosen` is offered, becomes the lease, and beats every other offer made. */
  ghost predicate IsTheChoice(b: Board, req: Requirement, now: real, leaseSeconds: real, excluded: set<Id>,
                              lease: Lease, chosen: Candidate)
  {
    && Offers(b, req, excluded, chosen)
    && lease == LeaseFor(req, chosen, now, leaseSeconds)
    && forall d :: Offers(b, req, excluded, d) && d != chosen ==> Beats(chosen, d)
  }

  lemma HeadOfRankIsTheChoice(b: Board, req: Requirement, now: real, leaseSeconds: real, excluded: set<Id>)
    requires Keyed(b.nodes)
    ensures var best := Scan(req, Snapshot(b.nodes), b.leases, excluded).Best();
            best != [] ==>
              |Rank(best)| > 0 &&
              IsTheChoice(b, req, now, leaseSeconds, excluded, LeaseFor(req, Rank(best)[0], now, leaseSeconds),
                          Rank(best)[0])
  {
    hide Offer, Scan, Rank, Snapshot;
    var best := Scan(req, Snapshot(b.nodes), b.leases, excluded).Best();
    var ranked := Rank(best);
    RankSorts(best);
    if best != [] {
      var k := BestClass(b, req, excluded);
      MembersOfRank(best, ranked[0]);
      OffersAreScanned(b, req, excluded, ranked[0], k);
      forall d | Offers(b, req, excluded, d) && d != ranked[0] ensures Beats(ranked[0], d) {
        OffersAreScanned(b, req, excluded, d, Class(d.mode));
        if Class(d.mode) == k {
          MembersOfRank(best, d);
          var j :| 0 <= j < |ranked| && ranked[j] == d;
          assert !Before(ranked[j], ranked[0]);
          OneOfferBeatsTheOther(b, req, excluded, ranked[0], d);
        }
      }
    }
  }

  /** The node that gets the work offered to carry it, and its offer beats every other offer made. */
  lemma ChosenBeatsEveryOffer(b: Board, req: Requirement, now: real, leaseSeconds: real, excluded: set<Id>)
    requires Keyed(b.nodes)
    ensures var o := PlaceOn(b, req, now, leaseSeconds, excluded).1;
            o.Returned? && o.value.lease.Some? ==>
              exists chosen :: IsTheChoice(b, req, now, leaseSeconds, excluded, o.value.lease.value, chosen)
  {
    hide Offer, Scan, Rank, Snapshot, IsTheChoice;
    HeadOfRankIsTheChoice(b, req, now, leaseSeconds, excluded);
    var best := Scan(req, Snapshot(b.nodes), b.leases, excluded).Best();
    RankSorts(best);
  }

  /** No two offers are the same rank, so the one that beats all others is unique. */
  lemma OneOfferBeatsTheOther(b: Board, req: Requirement, excluded: set<Id>, c: Candidate, d: Candidate)
    requires c != d
    ensures Offers(b, req, excluded, c) && Offers(b, req, excluded, d) ==> Beats(c, d) != Beats(d, c)
  {
    hide Offer;
    if Offers(b, req, excluded, c) && Offers(b, req, excluded, d) {
      assert c.nodeId != d.nodeId;
    }
  }

  // ----- the alternatives -----

  /** No node stands in the list twice. */
  ghost predicate DistinctIds(cs: seq<Candidate>) {
    forall i, j :: 0 <= i < j < |cs| ==> cs[i].nodeId != cs[j].nodeId
  }

  ghost predicate DistinctNodes(nodes: seq<Advertisement>) {
    forall i, j :: 0 <= i < j < |nodes| ==> nodes[i].nodeId != nodes[j].nodeId
  }

  lemma SnapshotIsDistinct(nodes: map<Id, Advertisement>)
    requires Keyed(nodes)
    ensures DistinctNodes(Snapshot(nodes))
  {
    var keys := Sorted(nodes.Keys);
    forall i | 0 <= i < |keys|
      ensures keys[i] in nodes && Snapshot(nodes)[i].nodeId == keys[i]
    {
      assert keys[i] in keys;
    }
  }

  lemma {:induction false} InsertKeepsDistinct(c: Candidate, cs: seq<Candidate>)
    requires DistinctIds(cs) && forall d :: d in cs ==> d.nodeId != c.nodeId
    ensures DistinctIds(Insert(c, cs))
  {
    if cs != [] && !Before(c, cs[0]) {
      var rest := Insert(c, cs[1..]);
      InsertKeepsDistinct(c, cs[1..]);
      forall j | 0 <= j < |rest| ensures rest[j].nodeId != cs[0].nodeId {
        MembersOfInsert(c, cs[1..], rest[j]);
        assert rest[j] in rest;
      }
    }
  }

  lemma {:induction false} RankKeepsDistinct(cs: seq<Candidate>)
    requires DistinctIds(cs)
    ensures DistinctIds(Rank(cs))
  {
    if cs != [] {
      var tail := cs[1..];
      RankKeepsDistinct(tail);
      forall d | d in Rank(tail) ensures d.nodeId != cs[0].nodeId {
        MembersOfRank(tail, d);
        var j :| 0 <= j < |tail| && tail[j] == d;
        assert cs[j + 1] == d;
      }
      InsertKeepsDistinct(cs[0], Rank(tail));
    }
  }

  lemma ConsiderAddsAtMostOne(req: Requirement, sofar: Scanned, node: Advertisement, active: nat, excluded: set<Id>,
                              k: nat)
    requires k < 3
    ensures var (cs, next) := (Of(sofar, k), Of(Consider(sofar, req, node, active, excluded), k));
            next == cs || (|next| == |cs| + 1 && next[..|cs|] == cs && next[|cs|].nodeId == node.nodeId)
  {
    hide Score, Coverage, ExclusionReason;
  }

  /** One node after another is considered once, so no class names a node twice. */
  lemma {:induction false} ScanIsDistinct(req: Requirement, nodes: seq<Advertisement>, leases: map<Id, Lease>,
                                          excluded: set<Id>, k: nat)
    requires k < 3 && DistinctNodes(nodes)
    ensures DistinctIds(Of(Scan(req, nodes, leases, excluded), k))
    ensures forall c :: c in Of(Scan(req, nodes, leases, excluded), k) ==>
        exists i :: 0 <= i < |nodes| && nodes[i].nodeId == c.nodeId
  {
    hide Consider, Of, LeasesOn;
    if nodes == [] {
      EmptyScan(req, leases, excluded, k);
    } else {
      var front, last := nodes[..|nodes| - 1], nodes[|nodes| - 1];
      ScanIsDistinct(req, front, leases, excluded, k);
      var sofar := Scan(req, front, leases, excluded);
      var active := |LeasesOn(leases, last.nodeId)|;
      ConsiderAddsAtMostOne(req, sofar, last, active, excluded, k);
      var cs, next := Of(sofar, k), Of(Consider(sofar, req, last, active, excluded), k);
      forall c | c in cs
        ensures c.nodeId != last.nodeId && exists i :: 0 <= i < |nodes| && nodes[i].nodeId == c.nodeId
      {
        var i :| 0 <= i < |front| && front[i].nodeId == c.nodeId;
        assert nodes[i].nodeId == c.nodeId;
      }
      assert forall i :: 0 <= i < |cs| ==> cs[i] in cs;
      if next != cs {
        assert next == cs + [next[|cs|]];
      }
    }
  }

  lemma EmptyScan(req: Requirement, leases: map<Id, Lease>, excluded: set<Id>, k: nat)
    requires k < 3
    ensures Of(Scan(req, [], leases, excluded), k) == []
  {
  }

  /** The nodes named as alternatives: every other offer of the chosen class, each once, and nobody else. */
  ghost predicate AreTheRunnersUp(b: Board, req: Requirement, excluded: set<Id>, chosen: Id, mode: Mode,
                                  rest: seq<Candidate>) {
    && Ranked(rest)
    && DistinctIds(rest)
    && (forall c :: c in rest ==> Offers(b, req, excluded, c) && Class(c.mode) == Class(mode) && c.nodeId != chosen)
    && (forall c :: Offers(b, req, excluded, c) && Class(c.mode) == Class(mode) && c.nodeId != chosen ==> c in rest)
  }

  lemma TailOfRankIsTheRunnersUp(b: Board, req: Requirement, excluded: set<Id>)
    requires Keyed(b.nodes)
    ensures var best := Scan(req, Snapshot(b.nodes), b.leases, excluded).Best();
            best != [] ==>
              |Rank(best)| > 0 &&
              AreTheRunnersUp(b, req, excluded, Rank(best)[0].nodeId, Rank(best)[0].mode, Rank(best)[1..])
  {
    hide Offer, Scan, Rank, Snapshot, Offers, Of;
    var best := Scan(req, Snapshot(b.nodes), b.leases, excluded).Best();
    var ranked := Rank(best);
    RankSorts(best);
    if best != [] {
      var k := BestClass(b, req, excluded);
      var rest := ranked[1..];
      SnapshotIsDistinct(b.nodes);
      ScanIsDistinct(req, Snapshot(b.nodes), b.leases, excluded, k);
      RankKeepsDistinct(best);
      forall c | c in rest ensures c.nodeId != ranked[0].nodeId {
        var j :| 0 <= j < |rest| && rest[j] == c;
        assert ranked[j + 1] == c;
      }
      forall c | c in ranked ensures Offers(b, req, excluded, c) && Class(c.mode) == k {
        MembersOfRank(best, c);
        OffersAreScanned(b, req, excluded, c, k);
      }
      assert ranked[0] in ranked && forall c :: c in rest ==> c in ranked;
      forall c | Offers(b, req, excluded, c) && Class(c.mode) == k && c.nodeId != ranked[0].nodeId ensures c in rest {
        OffersAreScanned(b, req, excluded, c, k);
        MembersOfRank(best, c);
        assert ranked == [ranked[0]] + rest;
      }
    }
  }

  /** The alternatives named beside a placement are the other offers of the chosen class, each once, best first. */
  lemma AlternativesAreTheOtherOffers(b: Board, req: Requirement, now: real, leaseSeconds: real, excluded: set<Id>)
    requires Keyed(b.nodes)
    ensures var o := PlaceOn(b, req, now, leaseSeconds, excluded).1;
            o.Returned? && o.value.lease.Some? ==>
              exists rest :: o.value.alternatives == Ids(rest)
                && AreTheRunnersUp(b, req, excluded, o.value.lease.value.nodeId, o.value.lease.value.mode, rest)
  {
    hide Offer, Scan, Rank, Snapshot, AreTheRunnersUp;
    TailOfRankIsTheRunnersUp(b, req, excluded);
    var best := Scan(req, Snapshot(b.nodes), b.leases, excluded).Best();
    RankSorts(best);
  }

  /** What a placement does to the board: one lease, on a registered, unexcluded, unfull node; or nothing. */
  lemma PlaceOnEffect(b: Board, req: Requirement, now: real, leaseSeconds: real, excluded: set<Id>)
    requires Keyed(b.nodes)
    ensures var (next, o) := PlaceOn(b, req, now, leaseSeconds, excluded);
            if o.Returned? && o.value.lease.Some? then
              var lease := o.value.lease.value;
              next == b.(leases := b.leases[req.workId := lease])
              && lease.workId == req.workId && lease.issuedAt == now < lease.expiresAt == now + leaseSeconds
              && lease.nodeId in b.nodes && lease.nodeId !in excluded
              && ExclusionReason(req, b.nodes[lease.nodeId], |LeasesOn(b.leases, lease.nodeId)|) == None
              && b.nodes[lease.nodeId].currentTasks + |LeasesOn(b.leases, lease.nodeId)|
                   < b.nodes[lease.nodeId].maxTasks
              && b.nodes[lease.nodeId].availability !in {Saturated, Draining, Offline, Quarantined}
            else next == b
  {
    hide Scan, Rank, Snapshot, Score, Coverage;
    var (next, o) := PlaceOn(b, req, now, leaseSeconds, excluded);
    ChosenBeatsEveryOffer(b, req, now, leaseSeconds, excluded);
    if o.Returned? && o.value.lease.Some? {
      var chosen :| IsTheChoice(b, req, now, leaseSeconds, excluded, o.value.lease.value, chosen);
    }
  }
}
