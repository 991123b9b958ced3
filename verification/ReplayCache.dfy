/** The replay-safe response cache of the local RPC server and the retry loop of its client. */
module ReplayCache {
  import opened Basics

  /** `content` stands for the fingerprint of the whole request, taken as injective. */
  datatype Request = Request(id: Id, content: Id)

  datatype Response = Answered(value: Id) | RequestIdReuse

  datatype Entry = Entry(id: Id, content: Id, response: Response)

  /** The cache from least to most recently used. `touches` records every accepted request with the entry it used,
      `dispatched` every request that was handed to the service. */
  datatype State = State(cache: seq<Entry>, touches: seq<Entry>, dispatched: seq<Request>)

  const Empty: State := State([], [], [])

  /** The last entry under an id. */
  function Find(entries: seq<Entry>, id: Id): Option<Entry> {
    if entries == [] then None
    else
      var last := entries[|entries| - 1];
      if last.id == id then Some(last) else Find(entries[..|entries| - 1], id)
  }

  function Without(entries: seq<Entry>, id: Id): seq<Entry> {
    if entries == [] then []
    else
      var rest, last := Without(entries[..|entries| - 1], id), entries[|entries| - 1];
      if last.id == id then rest else rest + [last]
  }

  function Newest(entries: seq<Entry>, capacity: nat): seq<Entry> {
    if |entries| > capacity then entries[|entries| - capacity..] else entries
  }

  /** `_handle_request` for a well-formed request; `answer` is what the service would respond now. */
  function Handle(capacity: nat, s: State, q: Request, answer: Id): (State, Response) {
    match Find(s.cache, q.id)
    case Some(e) =>
      if e.content != q.content then (s, RequestIdReuse)
      else (s.(cache := Without(s.cache, q.id) + [e], touches := s.touches + [e]), e.response)
    case None =>
      var e := Entry(q.id, q.content, Answered(answer));
      (State(Newest(s.cache + [e], capacity), s.touches + [e], s.dispatched + [q]), e.response)
  }

  // ----- what the cache should hold -----

  /** Every id ever touched, by its most recent touch. */
  function Recency(touches: seq<Entry>): seq<Entry> {
    if touches == [] then []
    else
      var last := touches[|touches| - 1];
      Without(Recency(touches[..|touches| - 1]), last.id) + [last]
  }

  /** The other ids touched since `id` was last touched. */
  function Since(touches: seq<Entry>, id: Id): set<Id> {
    if touches == [] then {}
    else
      var last := touches[|touches| - 1];
      if last.id == id then {} else Since(touches[..|touches| - 1], id) + {last.id}
  }

  /** The cache is, in order, the most recently touched ids with the entries of their last touches. */
  ghost predicate Faithful(capacity: nat, s: State) {
    s.cache == Newest(Recency(s.touches), capacity)
  }

  function IdsOf(entries: seq<Entry>): set<Id> {
    set i | 0 <= i < |entries| :: entries[i].id
  }

  ghost predicate Distinct(entries: seq<Entry>) {
    forall i, j :: 0 <= i < j < |entries| ==> entries[i].id != entries[j].id
  }

  // ----- lists of entries -----

  lemma {:induction false} WithoutJoin(a: seq<Entry>, b: seq<Entry>, id: Id)
    ensures Without(a + b, id) == Without(a, id) + Without(b, id)
    decreases |b|
  {
    if b == [] {
      assert a + b == a;
    } else {
      assert (a + b)[..|a + b| - 1] == a + b[..|b| - 1];
      WithoutJoin(a, b[..|b| - 1], id);
    }
  }

  lemma {:induction false} WithoutAbsent(a: seq<Entry>, id: Id)
    requires id !in IdsOf(a)
    ensures Without(a, id) == a
  {
    hide IdsOf;
    if a != [] {
      var front, last := a[..|a| - 1], a[|a| - 1];
      assert a == front + [last];
      IdsOfPush(front, last);
      WithoutAbsent(front, id);
    }
  }

  lemma WithoutMember(id: Id, e: Entry)
    ensures Without([e], id) == if e.id == id then [] else [e]
  {
    assert [e][..0] == [];
  }

  lemma {:induction false} WithoutIds(a: seq<Entry>, id: Id)
    requires Distinct(a)
    ensures Distinct(Without(a, id))
    ensures IdsOf(Without(a, id)) == IdsOf(a) - {id}
  {
    if a != [] {
      var front, last := a[..|a| - 1], a[|a| - 1];
      WithoutIds(front, id);
      IdsOfPush(front, last);
      assert a == front + [last];
      assert last.id !in IdsOf(front);
      IdsOfPush(Without(front, id), last);
      DistinctPush(Without(front, id), last);
    }
  }

  lemma IdsOfPush(a: seq<Entry>, e: Entry)
    ensures IdsOf(a + [e]) == IdsOf(a) + {e.id}
  {
    forall id | id in IdsOf(a) + {e.id}
      ensures id in IdsOf(a + [e])
    {
      if id == e.id {
        assert (a + [e])[|a|].id == id;
      } else {
        var i :| 0 <= i < |a| && a[i].id == id;
        assert (a + [e])[i].id == id;
      }
    }
  }

  lemma DistinctPush(a: seq<Entry>, e: Entry)
    requires Distinct(a) && e.id !in IdsOf(a)
    ensures Distinct(a + [e])
  {
  }

  lemma {:induction false} DistinctCount(a: seq<Entry>)
    requires Distinct(a)
    ensures |IdsOf(a)| == |a|
  {
    if a == [] {
      assert IdsOf(a) == {};
    } else {
      var front, last := a[..|a| - 1], a[|a| - 1];
      assert a == front + [last];
      IdsOfPush(front, last);
      DistinctCount(front);
      assert last.id !in IdsOf(front);
    }
  }

  lemma {:induction false} RecencyIsDistinct(t: seq<Entry>)
    ensures Distinct(Recency(t))
  {
    if t != [] {
      var front, last := t[..|t| - 1], t[|t| - 1];
      RecencyIsDistinct(front);
      WithoutIds(Recency(front), last.id);
      DistinctPush(Without(Recency(front), last.id), last);
    }
  }

  /** An id's entry stands in the list with exactly the ids touched since behind it. */
  ghost predicate StandsAt(t: seq<Entry>, id: Id, at: nat) {
    var r := Recency(t);
    && at < |r|
    && Find(t, id) == Some(r[at])
    && r[at].id == id
    && IdsOf(r[at + 1..]) == Since(t, id)
  }

  lemma {:induction false} TouchedStandsInRecency(t: seq<Entry>, id: Id)
    ensures Find(t, id).None? ==> id !in IdsOf(Recency(t))
    ensures Find(t, id).Some? ==> exists at :: StandsAt(t, id, at)
  {
    if t != [] {
      var front, last := t[..|t| - 1], t[|t| - 1];
      var r := Recency(front);
      TouchedStandsInRecency(front, id);
      RecencyIsDistinct(front);
      WithoutIds(r, last.id);
      IdsOfPush(Without(r, last.id), last);
      if last.id == id {
        assert Recency(t)[|Recency(t)| - 1..] == [last] && Recency(t)[|Recency(t)|..] == [];
        assert StandsAt(t, id, |Recency(t)| - 1);
      } else if Find(front, id).Some? {
        var at: nat :| StandsAt(front, id, at);
        StandsAfterTouch(t, id, at);
      }
    }
  }

  lemma StandsAfterTouch(t: seq<Entry>, id: Id, at: nat)
    requires t != [] && t[|t| - 1].id != id && StandsAt(t[..|t| - 1], id, at)
    ensures exists now :: StandsAt(t, id, now)
  {
    hide IdsOf, Distinct, Without;
    var front, last := t[..|t| - 1], t[|t| - 1];
    var r := Recency(front);
    var before, e, behind := r[..at], r[at], r[at + 1..];
    assert r == (before + [e]) + behind;
    WithoutJoin(before + [e], behind, last.id);
    WithoutJoin(before, [e], last.id);
    WithoutMember(last.id, e);
    RecencyIsDistinct(front);
    DistinctSlice(r, at + 1);
    WithoutIds(behind, last.id);
    var now := |Without(before, last.id)|;
    var moved := Without(behind, last.id) + [last];
    IdsOfPush(Without(behind, last.id), last);
    assert Recency(t) == Without(before, last.id) + [e] + moved;
    assert Recency(t)[now + 1..] == moved;
    assert IdsOf(moved) == Since(t, id);
    assert StandsAt(t, id, now);
  }

  lemma {:induction false} FindInDistinct(a: seq<Entry>, i: nat)
    requires Distinct(a) && i < |a|
    ensures Find(a, a[i].id) == Some(a[i])
  {
    var front := a[..|a| - 1];
    if i < |front| {
      assert front[i] == a[i] && a[i].id != a[|a| - 1].id;
      FindInDistinct(front, i);
    }
  }

  lemma {:induction false} FindAbsent(a: seq<Entry>, id: Id)
    ensures Find(a, id).None? <==> id !in IdsOf(a)
    ensures Find(a, id).Some? ==> Find(a, id).value.id == id && Find(a, id).value in a
  {
    if a != [] {
      FindAbsent(a[..|a| - 1], id);
      IdsOfPush(a[..|a| - 1], a[|a| - 1]);
      assert a == a[..|a| - 1] + [a[|a| - 1]];
    }
  }

  lemma DistinctSlice(a: seq<Entry>, from: nat)
    requires Distinct(a) && from <= |a|
    ensures Distinct(a[from..]) && Distinct(a[..from])
  {
  }

  /** A member of a list is among its newest exactly when fewer than `capacity` follow it. */
  lemma PlaceDecides(r: seq<Entry>, at: nat, capacity: nat)
    requires Distinct(r) && at < |r|
    ensures Find(Newest(r, capacity), r[at].id) == if |r| - 1 - at < capacity then Some(r[at]) else None
  {
    var kept := Newest(r, capacity);
    var dropped := |r| - |kept|;
    DistinctSlice(r, dropped);
    assert kept == r[dropped..];
    FindAbsent(kept, r[at].id);
    if at >= dropped {
      assert kept[at - dropped] == r[at];
      FindInDistinct(kept, at - dropped);
    } else {
      assert forall i :: 0 <= i < |kept| ==> kept[i] == r[dropped + i] && kept[i].id != r[at].id;
    }
  }

  /** An id is cached, with the entry of its last touch, exactly when fewer than `capacity` other ids were touched
      since. */
  lemma CachedExactlyWhenRecent(capacity: nat, s: State, id: Id)
    requires Faithful(capacity, s)
    ensures Find(s.cache, id) == if |Since(s.touches, id)| < capacity then Find(s.touches, id) else None
  {
    hide Find, Newest, Distinct;
    var t := s.touches;
    var r := Recency(t);
    RecencyIsDistinct(t);
    TouchedStandsInRecency(t, id);
    if Find(t, id).None? {
      FindAbsent(s.cache, id);
      NewestIds(r, capacity);
    } else {
      var at: nat :| StandsAt(t, id, at);
      DistinctSlice(r, at + 1);
      DistinctCount(r[at + 1..]);
      PlaceDecides(r, at, capacity);
    }
  }

  lemma NewestIds(r: seq<Entry>, capacity: nat)
    ensures IdsOf(Newest(r, capacity)) <= IdsOf(r)
  {
  }

  // ----- every run keeps the cache faithful -----

  lemma WithoutShortens(a: seq<Entry>, id: Id)
    requires Distinct(a) && id in IdsOf(a)
    ensures |Without(a, id)| == |a| - 1
  {
    WithoutIds(a, id);
    DistinctCount(a);
    DistinctCount(Without(a, id));
  }

  lemma IdsApart(a: seq<Entry>, b: seq<Entry>, id: Id)
    requires Distinct(a + b) && id in IdsOf(b)
    ensures id !in IdsOf(a) && Distinct(b)
  {
    var j :| 0 <= j < |b| && b[j].id == id;
    assert (a + b)[|a| + j].id == id;
    assert forall i :: 0 <= i < |a| ==> (a + b)[i] == a[i];
    assert forall i :: 0 <= i < |b| ==> (a + b)[|a| + i] == b[i];
  }

  lemma NewestSplit(r: seq<Entry>, capacity: nat) returns (gone: seq<Entry>)
    ensures r == gone + Newest(r, capacity)
    ensures if |r| > capacity then |Newest(r, capacity)| == capacity else gone == []
  {
    gone := r[..|r| - |Newest(r, capacity)|];
  }

  /** Moving a member that is among the newest to the end. */
  lemma NewestHit(r: seq<Entry>, capacity: nat, id: Id, e: Entry)
    requires Distinct(r) && id in IdsOf(Newest(r, capacity))
    ensures Newest(Without(r, id) + [e], capacity) == Without(Newest(r, capacity), id) + [e]
  {
    var kept := Newest(r, capacity);
    var gone := NewestSplit(r, capacity);
    hide IdsOf, Distinct, Without;
    WithoutJoin(gone, kept, id);
    IdsApart(gone, kept, id);
    WithoutAbsent(gone, id);
    WithoutShortens(kept, id);
    NewestOfJoin(gone, Without(kept, id) + [e], capacity);
    assert gone + Without(kept, id) + [e] == gone + (Without(kept, id) + [e]);
  }

  lemma NewestOfJoin(a: seq<Entry>, b: seq<Entry>, capacity: nat)
    requires |b| <= capacity && (a == [] || |b| == capacity)
    ensures Newest(a + b, capacity) == b
  {
  }

  /** Pushing an entry whose id is not among the newest. */
  lemma NewestMiss(r: seq<Entry>, capacity: nat, id: Id, e: Entry)
    requires capacity >= 1 && id !in IdsOf(Newest(r, capacity))
    ensures Newest(Without(r, id) + [e], capacity) == Newest(Newest(r, capacity) + [e], capacity)
  {
    var kept := Newest(r, capacity);
    var gone := NewestSplit(r, capacity);
    hide IdsOf, Without;
    WithoutJoin(gone, kept, id);
    WithoutAbsent(kept, id);
    var rest := Without(gone, id);
    if |r| > capacity {
      assert rest + kept + [e] == (rest + [kept[0]]) + (kept[1..] + [e]);
      NewestOfJoin(rest + [kept[0]], kept[1..] + [e], capacity);
      assert Newest(kept + [e], capacity) == kept[1..] + [e];
    } else {
      assert Without([], id) == [] by {
        WithoutNothing(id);
      }
      assert rest + kept == kept;
    }
  }

  lemma WithoutNothing(id: Id)
    ensures Without([], id) == []
  {
  }

  lemma HandleKeepsFaithful(capacity: nat, s: State, q: Request, answer: Id)
    requires capacity >= 1 && Faithful(capacity, s)
    ensures Faithful(capacity, Handle(capacity, s, q, answer).0)
  {
    hide Newest, Find, Without, IdsOf, Distinct;
    var r := Recency(s.touches);
    RecencyIsDistinct(s.touches);
    FindAbsent(s.cache, q.id);
    var e := if Find(s.cache, q.id).Some? then Find(s.cache, q.id).value else Entry(q.id, q.content, Answered(answer));
    assert (s.touches + [e])[..|s.touches|] == s.touches;
    assert Recency(s.touches + [e]) == Without(r, q.id) + [e];
    if Find(s.cache, q.id).Some? {
      NewestHit(r, capacity, q.id, e);
    } else {
      NewestMiss(r, capacity, q.id, e);
    }
  }

  datatype Op = Op(request: Request, answer: Id)

  function Run(capacity: nat, s: State, ops: seq<Op>): State
    decreases |ops|
  {
    if ops == [] then s else Run(capacity, Handle(capacity, s, ops[0].request, ops[0].answer).0, ops[1..])
  }

  /** After any requests the cache is the last `capacity` ids by most recent touch. */
  lemma {:induction false} CacheIsTheMostRecent(capacity: nat, s: State, ops: seq<Op>)
    requires capacity >= 1 && Faithful(capacity, s)
    ensures Faithful(capacity, Run(capacity, s, ops))
    decreases |ops|
  {
    hide Faithful, Handle;
    if ops != [] {
      HandleKeepsFaithful(capacity, s, ops[0].request, ops[0].answer);
      CacheIsTheMostRecent(capacity, Handle(capacity, s, ops[0].request, ops[0].answer).0, ops[1..]);
    }
  }

  /** A request reaches the service exactly when its id was never touched or `capacity` others were touched since. */
  lemma DispatchedExactlyWhen(capacity: nat, s: State, q: Request, answer: Id)
    requires Faithful(capacity, s)
    ensures Handle(capacity, s, q, answer).0.dispatched ==
        if Find(s.touches, q.id).None? || |Since(s.touches, q.id)| >= capacity then s.dispatched + [q] else s.dispatched
  {
    CachedExactlyWhenRecent(capacity, s, q.id);
  }

  // ----- retries -----

  function RequestedIds(ops: seq<Op>): set<Id> {
    set i | 0 <= i < |ops| :: ops[i].request.id
  }

  /** The entry is the last touch of its id, and all ids touched since are among `seen`. */
  ghost predicate Remembers(s: State, e: Entry, seen: set<Id>) {
    Find(s.touches, e.id) == Some(e) && Since(s.touches, e.id) <= seen
  }

  lemma RequestKeepsMemory(capacity: nat, s: State, e: Entry, seen: set<Id>, op: Op)
    requires Faithful(capacity, s) && Remembers(s, e, seen) && |seen| < capacity
    ensures Remembers(Handle(capacity, s, op.request, op.answer).0, e, seen + ({op.request.id} - {e.id}))
  {
    var next := Handle(capacity, s, op.request, op.answer).0;
    SubsetSize(Since(s.touches, e.id), seen);
    CachedExactlyWhenRecent(capacity, s, e.id);
    FindAbsent(s.cache, op.request.id);
    if next != s {
      assert next.touches[..|s.touches|] == s.touches;
      assert next.touches[|s.touches|].id == op.request.id;
    }
  }

  lemma NothingRequested()
    ensures RequestedIds([]) == {}
  {
  }

  lemma RequestedFirst(ops: seq<Op>)
    requires ops != []
    ensures RequestedIds(ops) == {ops[0].request.id} + RequestedIds(ops[1..])
  {
    var rest := ops[1..];
    assert forall i :: 0 <= i < |rest| ==> rest[i] == ops[i + 1];
    forall id | id in RequestedIds(ops) && id != ops[0].request.id
      ensures id in RequestedIds(rest)
    {
      var i :| 0 <= i < |ops| && ops[i].request.id == id;
      assert rest[i - 1].request.id == id;
    }
  }

  lemma SeenMore(seen: set<Id>, first: Id, others: set<Id>, id: Id)
    ensures seen + ({first} + others - {id}) == seen + ({first} - {id}) + (others - {id})
  {
  }

  lemma {:induction false} RunKeepsMemory(capacity: nat, s: State, e: Entry, seen: set<Id>, ops: seq<Op>)
    requires capacity >= 1 && Faithful(capacity, s) && Remembers(s, e, seen)
    requires |seen + (RequestedIds(ops) - {e.id})| < capacity
    ensures Remembers(Run(capacity, s, ops), e, seen + (RequestedIds(ops) - {e.id}))
    ensures Faithful(capacity, Run(capacity, s, ops))
    decreases |ops|
  {
    hide Faithful, Handle, Remembers, RequestedIds;
    if ops == [] {
      NothingRequested();
      assert seen + (RequestedIds(ops) - {e.id}) == seen;
    } else {
      var op, rest := ops[0], ops[1..];
      var more := seen + ({op.request.id} - {e.id});
      RequestedFirst(ops);
      SeenMore(seen, op.request.id, RequestedIds(rest), e.id);
      SubsetSize(seen, seen + (RequestedIds(ops) - {e.id}));
      RequestKeepsMemory(capacity, s, e, seen, op);
      HandleKeepsFaithful(capacity, s, op.request, op.answer);
      RunKeepsMemory(capacity, Handle(capacity, s, op.request, op.answer).0, e, more, rest);
    }
  }

  lemma AcceptedIsRemembered(capacity: nat, s: State, q: Request, answer: Id)
    requires Faithful(capacity, s)
    ensures var (next, r) := Handle(capacity, s, q, answer);
            r != RequestIdReuse ==> Remembers(next, Entry(q.id, q.content, r), {})
  {
    var (next, r) := Handle(capacity, s, q, answer);
    FindAbsent(s.cache, q.id);
    if r != RequestIdReuse {
      assert next.touches[..|s.touches|] == s.touches;
    }
  }

  lemma RememberedIsCached(capacity: nat, s: State, e: Entry, seen: set<Id>)
    requires Faithful(capacity, s) && Remembers(s, e, seen) && |seen| < capacity
    ensures Find(s.cache, e.id) == Some(e)
  {
    SubsetSize(Since(s.touches, e.id), seen);
    CachedExactlyWhenRecent(capacity, s, e.id);
  }

  /** After a request was accepted and fewer than `capacity` other ids were requested, the same request gets the same
      response without reaching the service, and the same id with other content is refused and changes nothing. */
  lemma RetriesAreReplayed(capacity: nat, s: State, q: Request, answer: Id, between: seq<Op>, again: Request, later: Id)
    requires capacity >= 1 && Faithful(capacity, s) && again.id == q.id
    requires |RequestedIds(between) - {q.id}| < capacity
    requires Handle(capacity, s, q, answer).1 != RequestIdReuse
    ensures var (accepted, r) := Handle(capacity, s, q, answer);
            var before := Run(capacity, accepted, between);
            var (after, response) := Handle(capacity, before, again, later);
            && after.dispatched == before.dispatched
            && (again == q ==> response == r)
            && (again != q ==> response == RequestIdReuse && after == before)
  {
    hide Faithful, Handle;
    var (accepted, r) := Handle(capacity, s, q, answer);
    var e := Entry(q.id, q.content, r);
    var seen := RequestedIds(between) - {q.id};
    AcceptedIsRemembered(capacity, s, q, answer);
    HandleKeepsFaithful(capacity, s, q, answer);
    assert {} + seen == seen;
    RunKeepsMemory(capacity, accepted, e, {}, between);
    var before := Run(capacity, accepted, between);
    RememberedIsCached(capacity, before, e, seen);
    CachedAnswer(capacity, before, again, later, e);
  }

  lemma CachedAnswer(capacity: nat, s: State, q: Request, answer: Id, e: Entry)
    ensures Find(s.cache, q.id) == Some(e) ==>
        && Handle(capacity, s, q, answer).0.dispatched == s.dispatched
        && Handle(capacity, s, q, answer).1 == (if e.content == q.content then e.response else RequestIdReuse)
        && (e.content != q.content ==> Handle(capacity, s, q, answer).0 == s)
  {
  }

  // ----- the client's retry loop -----

  /** One connection: what others asked meanwhile, whether the request arrives, what the service would say to it, and
      whether the response gets back. */
  datatype Attempt = Attempt(traffic: seq<Op>, arrives: bool, answer: Id, delivered: bool)

  /** `UnixRpcClient.call`: None is a transport error after the last attempt. */
  function Call(capacity: nat, s: State, q: Request, attempts: seq<Attempt>): (State, Option<Response>)
    decreases |attempts|
  {
    if attempts == [] then (s, None)
    else
      var a := attempts[0];
      var busy := Run(capacity, s, a.traffic);
      if !a.arrives then Call(capacity, busy, q, attempts[1..])
      else
        var (handled, response) := Handle(capacity, busy, q, a.answer);
        if a.delivered then (handled, Some(response)) else Call(capacity, handled, q, attempts[1..])
  }

  ghost predicate GetsThrough(attempts: seq<Attempt>, i: nat) {
    i < |attempts| && attempts[i].arrives && attempts[i].delivered
  }

  /** A response comes back exactly when some attempt arrives and is delivered; with the first one that is, the client
      stops. */
  lemma {:induction false} RespondsExactlyWhenDelivered(capacity: nat, s: State, q: Request, attempts: seq<Attempt>)
    ensures Call(capacity, s, q, attempts).1.Some? <==> exists i: nat :: GetsThrough(attempts, i)
    ensures forall i: nat :: GetsThrough(attempts, i) && (forall j: nat :: j < i ==> !GetsThrough(attempts, j)) ==>
        Call(capacity, s, q, attempts) == Call(capacity, s, q, attempts[..i + 1])
    decreases |attempts|
  {
    hide Handle, Run;
    if attempts != [] {
      var a, rest := attempts[0], attempts[1..];
      var busy := Run(capacity, s, a.traffic);
      var next := if a.arrives then Handle(capacity, busy, q, a.answer).0 else busy;
      RespondsExactlyWhenDelivered(capacity, next, q, rest);
      assert forall i: nat :: GetsThrough(rest, i) <==> GetsThrough(attempts, i + 1);
      if i: nat :| GetsThrough(attempts, i) && i > 0 {
        assert GetsThrough(rest, i - 1);
      }
      if a.arrives && a.delivered {
        assert GetsThrough(attempts, 0);
      }
      forall i: nat | GetsThrough(attempts, i) && (forall j: nat :: j < i ==> !GetsThrough(attempts, j))
        ensures Call(capacity, s, q, attempts) == Call(capacity, s, q, attempts[..i + 1])
      {
        if i > 0 {
          assert !GetsThrough(attempts, 0) && GetsThrough(rest, i - 1);
          assert forall j: nat :: j < i - 1 ==> !GetsThrough(rest, j);
          assert attempts[..i + 1][1..] == rest[..i] && attempts[..i + 1][0] == a;
        }
      }
    }
  }

  function TrafficIds(attempts: seq<Attempt>): set<Id>
    decreases |attempts|
  {
    if attempts == [] then {} else RequestedIds(attempts[0].traffic) + TrafficIds(attempts[1..])
  }

  /** What the service says to the first attempt that arrives. */
  function FirstAnswer(attempts: seq<Attempt>): Option<Id>
    decreases |attempts|
  {
    if attempts == [] then None
    else if attempts[0].arrives then Some(attempts[0].answer)
    else FirstAnswer(attempts[1..])
  }

  function Dispatches(dispatched: seq<Request>, id: Id): nat {
    if dispatched == [] then 0
    else
      Dispatches(dispatched[..|dispatched| - 1], id) + if dispatched[|dispatched| - 1].id == id then 1 else 0
  }

  lemma OneMoreDispatch(dispatched: seq<Request>, q: Request, id: Id)
    ensures Dispatches(dispatched + [q], id) == Dispatches(dispatched, id) + if q.id == id then 1 else 0
  {
    assert (dispatched + [q])[..|dispatched|] == dispatched;
  }

  /** Traffic under other ids never touches or dispatches this one. */
  lemma {:induction false} OtherTraffic(capacity: nat, s: State, ops: seq<Op>, id: Id)
    requires id !in RequestedIds(ops)
    ensures Dispatches(Run(capacity, s, ops).dispatched, id) == Dispatches(s.dispatched, id)
    ensures Find(Run(capacity, s, ops).touches, id) == Find(s.touches, id)
    decreases |ops|
  {
    if ops != [] {
      var op, rest := ops[0], ops[1..];
      assert ops[0].request.id in RequestedIds(ops);
      assert forall i :: 0 <= i < |rest| ==> rest[i] == ops[i + 1] && rest[i].request.id in RequestedIds(ops);
      var next := Handle(capacity, s, op.request, op.answer).0;
      FindAbsent(s.cache, op.request.id);
      if next != s {
        assert next.touches[..|s.touches|] == s.touches && next.touches[|s.touches|].id == op.request.id;
        OneMoreDispatch(s.dispatched, op.request, id);
      }
      OtherTraffic(capacity, next, rest, id);
    }
  }

  /** Attempts after the first arrival: no further dispatch, and the remembered response. */
  lemma {:induction false} LaterAttempts(capacity: nat, s: State, q: Request, attempts: seq<Attempt>, r: Response,
                                         seen: set<Id>)
    requires capacity >= 1 && Faithful(capacity, s) && Remembers(s, Entry(q.id, q.content, r), seen)
    requires q.id !in TrafficIds(attempts) && |seen + TrafficIds(attempts)| < capacity
    ensures var (after, response) := Call(capacity, s, q, attempts);
            && Dispatches(after.dispatched, q.id) == Dispatches(s.dispatched, q.id)
            && (response.Some? ==> response.value == r)
    decreases |attempts|
  {
    hide Faithful, Handle, Remembers;
    if attempts != [] {
      var a, rest, e := attempts[0], attempts[1..], Entry(q.id, q.content, r);
      var ids := RequestedIds(a.traffic);
      var busy := Run(capacity, s, a.traffic);
      assert ids - {q.id} == ids;
      assert seen + ids + TrafficIds(rest) == seen + TrafficIds(attempts);
      SubsetSize(seen + ids, seen + TrafficIds(attempts));
      OtherTraffic(capacity, s, a.traffic, q.id);
      RunKeepsMemory(capacity, s, e, seen, a.traffic);
      RememberedIsCached(capacity, busy, e, seen + ids);
      CachedAnswer(capacity, busy, q, a.answer, e);
      RequestKeepsMemory(capacity, busy, e, seen + ids, Op(q, a.answer));
      assert seen + ids + ({q.id} - {e.id}) == seen + ids;
      HandleKeepsFaithful(capacity, busy, q, a.answer);
      LaterAttempts(capacity, if a.arrives then Handle(capacity, busy, q, a.answer).0 else busy, q, rest, r,
                    seen + ids);
    }
  }

  /** A call under a fresh id, with fewer than `capacity` other ids in the meantime, reaches the service exactly once if
      any attempt arrives and never otherwise; the response that comes back is the one the service gave then. */
  lemma {:induction false} OneCallIsDispatchedOnce(capacity: nat, s: State, q: Request, attempts: seq<Attempt>)
    requires capacity >= 1 && Faithful(capacity, s) && Find(s.touches, q.id).None?
    requires q.id !in TrafficIds(attempts) && |TrafficIds(attempts)| < capacity
    ensures var (after, response) := Call(capacity, s, q, attempts);
            && Dispatches(after.dispatched, q.id)
               == Dispatches(s.dispatched, q.id) + (if FirstAnswer(attempts).Some? then 1 else 0)
            && (response.Some? ==>
                  FirstAnswer(attempts).Some? && response.value == Answered(FirstAnswer(attempts).value))
    decreases |attempts|
  {
    hide Faithful, Remembers;
    if attempts != [] {
      var a, rest := attempts[0], attempts[1..];
      var busy := Run(capacity, s, a.traffic);
      CacheIsTheMostRecent(capacity, s, a.traffic);
      OtherTraffic(capacity, s, a.traffic, q.id);
      SubsetSize(TrafficIds(rest), TrafficIds(attempts));
      if !a.arrives {
        OneCallIsDispatchedOnce(capacity, busy, q, rest);
      } else {
        CachedExactlyWhenRecent(capacity, busy, q.id);
        AcceptedIsRemembered(capacity, busy, q, a.answer);
        OneMoreDispatch(busy.dispatched, q, q.id);
        HandleKeepsFaithful(capacity, busy, q, a.answer);
        assert {} + TrafficIds(rest) == TrafficIds(rest);
        LaterAttempts(capacity, Handle(capacity, busy, q, a.answer).0, q, rest, Answered(a.answer), {});
      }
    }
  }
}
