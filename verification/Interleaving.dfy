/** Any number of authorised executions, interleaved step by step in any order, with any failures. */
module Interleaving {
  import opened Basics
  import opened Execution

  datatype System = System(calls: seq<Call>, world: World)

  /** Which call moves, and what the surroundings answer it. */
  datatype Turn = Turn(who: nat, choice: Choice)

  function Advance(reg: Registry, s: System, t: Turn): System {
    if t.who < |s.calls| then
      var (call, world) := Step(reg, s.calls[t.who], s.world, t.choice);
      System(s.calls[t.who := call], world)
    else s
  }

  function Run(reg: Registry, s: System, schedule: seq<Turn>): System
    decreases |schedule|
  {
    if schedule == [] then s else Run(reg, Advance(reg, s, schedule[0]), schedule[1..])
  }

  /** Every call is at its beginning and is named by its index; nothing has happened yet. */
  ghost predicate Fresh(s: System) {
    && s.world.acts == []
    && forall i :: 0 <= i < |s.calls| ==> s.calls[i] == NewCall(s.calls[i].request) && s.calls[i].request.id == i
  }

  // ----- at most once -----

  /** Consumption is unique per token, follows the consumer's own stored start receipt, and precedes its one run. */
  ghost predicate ActsSound(acts: seq<Act>, consumed: set<Id>) {
    && (forall k :: 0 <= k < |acts| && acts[k].Consumed? ==> acts[k].token in consumed)
    && (forall i, k :: 0 <= i < k < |acts| && acts[i].Consumed? && acts[k].Consumed? ==> acts[i].token != acts[k].token)
    && (forall k :: 0 <= k < |acts| && acts[k].Consumed? ==> Started(acts[k].call, acts[k].token) in acts[..k])
    && (forall k :: 0 <= k < |acts| && acts[k].Ran? ==> Consumed(acts[k].call, acts[k].token) in acts[..k])
    && (forall i, k :: 0 <= i < k < |acts| && acts[i].Ran? && acts[k].Ran? ==> acts[i].call != acts[k].call)
  }

  ghost predicate HasRun(acts: seq<Act>, call: nat) {
    exists k :: 0 <= k < |acts| && acts[k].Ran? && acts[k].call == call
  }

  /** The call has passed its handler. */
  predicate Past(pc: Pc) {
    pc.AtFinal? || pc.AtRelease? || pc.AtReleasedReceipt? || pc.Finished?
  }

  function OutcomeOf(pc: Pc): Option<ExecResult> {
    match pc
    case AtFinal(_, _, result) => Some(result)
    case AtRelease(outcome) => outcome
    case AtReleasedReceipt(outcome, _) => outcome
    case Finished(outcome) => outcome
    case _ => None
  }

  ghost predicate CallSound(c: Call, acts: seq<Act>) {
    && (c.pc.AtConsume? ==> Started(c.request.id, c.request.token.tokenId) in acts)
    && (c.pc.AtHandler? ==> Consumed(c.request.id, c.request.token.tokenId) in acts)
    && (HasRun(acts, c.request.id) ==> Past(c.pc))
    && (c.pc.AtFinal? ==> HasRun(acts, c.request.id))
    && (OutcomeOf(c.pc).Some? && OutcomeOf(c.pc).value.executed ==> HasRun(acts, c.request.id))
  }

  ghost predicate Sound(s: System) {
    && ActsSound(s.world.acts, s.world.consumed)
    && (forall i :: 0 <= i < |s.calls| ==> s.calls[i].request.id == i && CallSound(s.calls[i], s.world.acts))
  }

  lemma ActsGrow(acts: seq<Act>, a: Act, consumed: set<Id>, more: set<Id>)
    requires ActsSound(acts, consumed) && consumed <= more
    requires a.Consumed? ==> a.token !in consumed && a.token in more && Started(a.call, a.token) in acts
    requires a.Ran? ==> Consumed(a.call, a.token) in acts && !HasRun(acts, a.call)
    ensures ActsSound(acts + [a], more)
  {
    var grown := acts + [a];
    forall k | 0 <= k < |grown| && grown[k].Consumed? ensures Started(grown[k].call, grown[k].token) in grown[..k] {
      if k < |acts| { assert grown[..k] == acts[..k]; } else { assert grown[..k] == acts; }
    }
    forall k | 0 <= k < |grown| && grown[k].Ran? ensures Consumed(grown[k].call, grown[k].token) in grown[..k] {
      if k < |acts| { assert grown[..k] == acts[..k]; } else { assert grown[..k] == acts; }
    }
  }

  /** One step writes at most one act, and only one its call is entitled to. */
  ghost predicate WritesSoundly(c: Call, w: World, next: Call, after: World) {
    && next.request == c.request
    && ActsSound(after.acts, after.consumed)
    && CallSound(next, after.acts)
    && (after.acts == w.acts || (|after.acts| == |w.acts| + 1 && after.acts[..|w.acts|] == w.acts
                                && after.acts[|w.acts|].call == c.request.id))
  }

  /** The step at a start receipt, a consumption or a handler is the only kind that writes an act. */
  lemma QuietStep(reg: Registry, c: Call, w: World, ch: Choice)
    requires ActsSound(w.acts, w.consumed) && CallSound(c, w.acts)
    requires !c.pc.AtStart? && !c.pc.AtConsume? && !c.pc.AtHandler?
    ensures WritesSoundly(c, w, Step(reg, c, w, ch).0, Step(reg, c, w, ch).1)
  {
    hide ActsSound, HasRun, Preflight, BindingError, ResourcesOf, Verifies;
  }

  lemma StartStep(reg: Registry, c: Call, w: World, ch: Choice)
    requires ActsSound(w.acts, w.consumed) && CallSound(c, w.acts) && c.pc.AtStart?
    ensures WritesSoundly(c, w, Step(reg, c, w, ch).0, Step(reg, c, w, ch).1)
  {
    hide ActsSound, HasRun;
    var a := Started(c.request.id, c.request.token.tokenId);
    ActsGrow(w.acts, a, w.consumed, w.consumed);
    RunsAfter(w.acts, a, c.request.id);
  }

  lemma ConsumeStep(reg: Registry, c: Call, w: World, ch: Choice)
    requires ActsSound(w.acts, w.consumed) && CallSound(c, w.acts) && c.pc.AtConsume?
    ensures WritesSoundly(c, w, Step(reg, c, w, ch).0, Step(reg, c, w, ch).1)
  {
    hide ActsSound, HasRun;
    var token := c.request.token.tokenId;
    var a := Consumed(c.request.id, token);
    if token !in w.consumed {
      ActsGrow(w.acts, a, w.consumed, w.consumed + {token});
    }
    MoreConsumed(w.acts, w.consumed, w.consumed + {token});
    RunsAfter(w.acts, a, c.request.id);
  }

  lemma MoreConsumed(acts: seq<Act>, consumed: set<Id>, more: set<Id>)
    requires ActsSound(acts, consumed) && consumed <= more
    ensures ActsSound(acts, more)
  {
  }

  lemma HandlerStep(reg: Registry, c: Call, w: World, ch: Choice)
    requires ActsSound(w.acts, w.consumed) && CallSound(c, w.acts) && c.pc.AtHandler?
    ensures WritesSoundly(c, w, Step(reg, c, w, ch).0, Step(reg, c, w, ch).1)
  {
    hide ActsSound, HasRun;
    var a := Ran(c.request.id, c.request.token.tokenId, c.request.token.intent);
    ActsGrow(w.acts, a, w.consumed, w.consumed);
    RunsAfter(w.acts, a, c.request.id);
  }

  lemma StepActs(reg: Registry, c: Call, w: World, ch: Choice)
    requires ActsSound(w.acts, w.consumed) && CallSound(c, w.acts)
    ensures WritesSoundly(c, w, Step(reg, c, w, ch).0, Step(reg, c, w, ch).1)
  {
    hide ActsSound, CallSound, Step, WritesSoundly;
    match c.pc
    case AtStart(_) => StartStep(reg, c, w, ch);
    case AtConsume(_) => ConsumeStep(reg, c, w, ch);
    case AtHandler(_) => HandlerStep(reg, c, w, ch);
    case _ => QuietStep(reg, c, w, ch);
  }

  lemma RunsAfter(acts: seq<Act>, a: Act, call: nat)
    ensures HasRun(acts + [a], call) <==> HasRun(acts, call) || (a.Ran? && a.call == call)
  {
    var grown := acts + [a];
    if HasRun(acts, call) {
      var k :| 0 <= k < |acts| && acts[k].Ran? && acts[k].call == call;
      assert grown[k].Ran?;
    }
    if a.Ran? && a.call == call { assert grown[|acts|].Ran?; }
  }

  /** What one call writes does not disturb another. */
  lemma OthersUndisturbed(c: Call, acts: seq<Act>, a: Act)
    requires CallSound(c, acts) && a.call != c.request.id
    ensures CallSound(c, acts + [a])
  {
    RunsAfter(acts, a, c.request.id);
  }

  lemma AdvanceKeepsSound(reg: Registry, s: System, t: Turn)
    requires Sound(s)
    ensures Sound(Advance(reg, s, t))
  {
    hide Step, ActsSound, CallSound;
    if t.who < |s.calls| {
      var next := Advance(reg, s, t);
      StepActs(reg, s.calls[t.who], s.world, t.choice);
      forall i | 0 <= i < |next.calls|
        ensures next.calls[i].request.id == i && CallSound(next.calls[i], next.world.acts)
      {
        if i != t.who && next.world.acts != s.world.acts {
          var a := next.world.acts[|s.world.acts|];
          assert next.world.acts == s.world.acts + [a];
          OthersUndisturbed(s.calls[i], s.world.acts, a);
        }
      }
    }
  }

  lemma {:induction false} RunKeepsSound(reg: Registry, s: System, schedule: seq<Turn>)
    requires Sound(s)
    ensures Sound(Run(reg, s, schedule))
    decreases |schedule|
  {
    hide Sound, Advance;
    if schedule != [] {
      AdvanceKeepsSound(reg, s, schedule[0]);
      RunKeepsSound(reg, Advance(reg, s, schedule[0]), schedule[1..]);
    }
  }

  lemma FreshIsSound(s: System)
    requires Fresh(s)
    ensures Sound(s)
  {
  }

  /** The consumption a run rests on. */
  lemma ConsumptionOf(acts: seq<Act>, consumed: set<Id>, k: nat) returns (y: nat)
    requires ActsSound(acts, consumed) && k < |acts| && acts[k].Ran?
    ensures y < k && acts[y] == Consumed(acts[k].call, acts[k].token)
  {
    y :| 0 <= y < |acts[..k]| && acts[..k][y] == Consumed(acts[k].call, acts[k].token);
  }

  lemma ConsumptionIsUnique(acts: seq<Act>, consumed: set<Id>, x: nat, y: nat)
    requires ActsSound(acts, consumed) && x < |acts| && y < |acts| && acts[x].Consumed? && acts[y].Consumed?
    ensures acts[x].token == acts[y].token ==> acts[x].call == acts[y].call
  {
  }

  /** In a sound history no token is run twice. */
  lemma NoTokenRunsTwice(acts: seq<Act>, consumed: set<Id>, i: nat, k: nat)
    requires ActsSound(acts, consumed)
    requires i < k < |acts| && acts[i].Ran? && acts[k].Ran?
    ensures acts[i].token != acts[k].token
  {
    var x := ConsumptionOf(acts, consumed, i);
    var y := ConsumptionOf(acts, consumed, k);
    ConsumptionIsUnique(acts, consumed, x, y);
  }

  predicate ReportsExecution(pc: Pc) {
    pc.Finished? && pc.outcome.Some? && pc.outcome.value.executed
  }

  /** Under every interleaving and every failure: each token reaches a handler at most once; a handler run follows
      that call's own consumption, which follows that call's own stored start receipt; and a call that reports
      having executed did run its handler. */
  lemma EachTokenRunsAtMostOnce(reg: Registry, s: System, schedule: seq<Turn>)
    requires Fresh(s)
    ensures var end := Run(reg, s, schedule); var acts := end.world.acts;
            && (forall i, k :: 0 <= i < k < |acts| && acts[i].Ran? && acts[k].Ran? ==> acts[i].token != acts[k].token)
            && (forall k :: 0 <= k < |acts| && acts[k].Ran? ==>
                  exists y :: 0 <= y < k && acts[y] == Consumed(acts[k].call, acts[k].token)
                    && exists x :: 0 <= x < y && acts[x] == Started(acts[k].call, acts[k].token))
            && (forall i :: 0 <= i < |end.calls| && ReportsExecution(end.calls[i].pc) ==> HasRun(acts, i))
  {
    hide Run, Step, HasRun;
    FreshIsSound(s);
    RunKeepsSound(reg, s, schedule);
    var end := Run(reg, s, schedule);
    var acts := end.world.acts;
    forall i, k | 0 <= i < k < |acts| && acts[i].Ran? && acts[k].Ran? ensures acts[i].token != acts[k].token {
      NoTokenRunsTwice(acts, end.world.consumed, i, k);
    }
    forall k | 0 <= k < |acts| && acts[k].Ran?
      ensures exists y :: 0 <= y < k && acts[y] == Consumed(acts[k].call, acts[k].token)
                && exists x :: 0 <= x < y && acts[x] == Started(acts[k].call, acts[k].token)
    {
      var y :| 0 <= y < |acts[..k]| && acts[..k][y] == Consumed(acts[k].call, acts[k].token);
      assert acts[y] == Consumed(acts[k].call, acts[k].token);
      var x :| 0 <= x < |acts[..y]| && acts[..y][x] == Started(acts[y].call, acts[y].token);
      assert acts[x] == Started(acts[k].call, acts[k].token);
    }
  }

  // ----- exclusive resources -----

  /** The call is between its acquisition and its release. */
  predicate Holding(pc: Pc) {
    match pc
    case AtAcquiredReceipt => true
    case AtQuietRelease => true
    case AtReplayCheck(held) => held
    case AtTokenCheck(held) => held
    case AtBindingChecks(held) => held
    case AtDeny(held, _) => held
    case AtSafety(held) => held
    case AtStart(held) => held
    case AtConsume(held) => held
    case AtLateDeny(held, _) => held
    case AtHandler(held) => held
    case AtFinal(held, _, _) => held
    case AtRelease(_) => true
    case _ => false
  }

  /** The two tables of the resource coordinator describe the same ownership. */
  ghost predicate Agree(w: World) {
    && (forall o, r :: o in w.leases && r in w.leases[o] ==> r in w.owners && w.owners[r] == o)
    && (forall r :: r in w.owners ==> w.owners[r] in w.leases && r in w.leases[w.owners[r]])
  }

  /** A call owns exactly its declared set while it holds, and nothing otherwise. */
  ghost predicate Possesses(reg: Registry, c: Call, w: World) {
    if Holding(c.pc) then
      c.request.token.tokenId in w.leases && w.leases[c.request.token.tokenId] == ResourcesOf(reg, c.request)
    else c.request.token.tokenId !in w.leases
  }

  ghost predicate Orderly(reg: Registry, s: System) {
    && Agree(s.world)
    && (forall i :: 0 <= i < |s.calls| ==> Possesses(reg, s.calls[i], s.world))
  }

  ghost predicate DistinctTokens(s: System) {
    forall i, j :: 0 <= i < j < |s.calls| ==> s.calls[i].request.token.tokenId != s.calls[j].request.token.tokenId
  }

  lemma AcquireKeepsAgreement(w: World, owner: Id, wanted: set<Id>)
    requires Agree(w) && owner !in w.leases
    ensures var (next, grant) := Acquire(w, owner, wanted);
            && Agree(next)
            && (grant == Granted ==> next.leases == w.leases[owner := wanted])
            && (grant != Granted ==> next == w)
  {
  }

  lemma ReleaseKeepsAgreement(w: World, owner: Id)
    requires Agree(w)
    ensures Agree(Release(w, owner).0) && Release(w, owner).0.leases == w.leases - {owner}
    ensures Release(w, owner).1 <==> owner in w.leases
  {
  }

  predicate Transfers(pc: Pc) { pc.AtAcquire? || pc.AtQuietRelease? || pc.AtRelease? }

  lemma QuietOwnership(reg: Registry, c: Call, w: World, ch: Choice)
    requires !Transfers(c.pc)
    ensures var (next, after) := Step(reg, c, w, ch);
            && after.owners == w.owners && after.leases == w.leases
            && Holding(next.pc) == Holding(c.pc)
  {
    hide Preflight, BindingError, Verifies, ResourcesOf, Acquire, Release;
  }

  lemma TransferOwnership(reg: Registry, c: Call, w: World, ch: Choice)
    requires Transfers(c.pc)
    ensures var (next, after) := Step(reg, c, w, ch);
            var (taken, grant) := Acquire(w, c.request.token.tokenId, ResourcesOf(reg, c.request));
            && after == (if c.pc.AtAcquire? then taken else Release(w, c.request.token.tokenId).0)
            && Holding(next.pc) == (c.pc.AtAcquire? && grant == Granted)
  {
    hide Acquire, Release, ResourcesOf;
  }

  /** One step of a call moves only its own lease, and keeps the tables in agreement. */
  lemma StepOwnership(reg: Registry, c: Call, w: World, ch: Choice)
    requires Agree(w) && Possesses(reg, c, w)
    ensures var (next, after) := Step(reg, c, w, ch);
            && next.request == c.request
            && Agree(after) && Possesses(reg, next, after)
            && (forall o :: o != c.request.token.tokenId ==>
                  (o in after.leases <==> o in w.leases) && (o in w.leases ==> after.leases[o] == w.leases[o]))
  {
    hide Acquire, Release, Step, Agree, ResourcesOf;
    StepKeepsRequest(reg, c, w, ch);
    if Transfers(c.pc) {
      TransferOwnership(reg, c, w, ch);
      ReleaseKeepsAgreement(w, c.request.token.tokenId);
      if c.pc.AtAcquire? {
        AcquireKeepsAgreement(w, c.request.token.tokenId, ResourcesOf(reg, c.request));
      }
    } else {
      QuietOwnership(reg, c, w, ch);
      SameTables(w, Step(reg, c, w, ch).1);
    }
  }

  lemma SameTables(w: World, v: World)
    requires Agree(w) && v.owners == w.owners && v.leases == w.leases
    ensures Agree(v)
  {
  }

  lemma AdvanceKeepsOrder(reg: Registry, s: System, t: Turn)
    requires Orderly(reg, s) && DistinctTokens(s)
    ensures Orderly(reg, Advance(reg, s, t)) && DistinctTokens(Advance(reg, s, t))
  {
    hide Step, Agree;
    if t.who < |s.calls| {
      StepOwnership(reg, s.calls[t.who], s.world, t.choice);
      var next := Advance(reg, s, t);
      forall i | 0 <= i < |next.calls| ensures Possesses(reg, next.calls[i], next.world) {
        assert Possesses(reg, s.calls[i], s.world);
        if i != t.who {
          assert s.calls[i].request.token.tokenId != s.calls[t.who].request.token.tokenId;
        }
      }
    }
  }

  lemma {:induction false} RunKeepsOrder(reg: Registry, s: System, schedule: seq<Turn>)
    requires Orderly(reg, s) && DistinctTokens(s)
    ensures Orderly(reg, Run(reg, s, schedule)) && DistinctTokens(Run(reg, s, schedule))
    decreases |schedule|
  {
    hide Orderly, DistinctTokens, Advance;
    if schedule != [] {
      AdvanceKeepsOrder(reg, s, schedule[0]);
      RunKeepsOrder(reg, Advance(reg, s, schedule[0]), schedule[1..]);
    }
  }

  /** None of the calls' tokens owns anything yet, whatever else is owned. */
  ghost predicate Unclaimed(s: System) {
    Agree(s.world) && forall i :: 0 <= i < |s.calls| ==> s.calls[i].request.token.tokenId !in s.world.leases
  }

  /** While the calls in flight carry distinct tokens: any two that are between acquisition and release hold disjoint
      resources, and a call that has ended, by result or by exception, owns nothing. */
  lemma ExecutionsExcludeEachOther(reg: Registry, s: System, schedule: seq<Turn>)
    requires Fresh(s) && Unclaimed(s) && DistinctTokens(s)
    ensures var end := Run(reg, s, schedule);
            && |end.calls| == |s.calls|
            && (forall i, j :: 0 <= i < j < |end.calls| && Holding(end.calls[i].pc) && Holding(end.calls[j].pc) ==>
                  ResourcesOf(reg, end.calls[i].request) !! ResourcesOf(reg, end.calls[j].request))
            && (forall i :: 0 <= i < |end.calls| && end.calls[i].pc.Finished? ==>
                  && end.calls[i].request.token.tokenId !in end.world.leases
                  && forall r :: r in end.world.owners ==> end.world.owners[r] != end.calls[i].request.token.tokenId)
  {
    hide Run, Step;
    RunKeepsOrder(reg, s, schedule);
    RunKeepsLength(reg, s, schedule);
    var end := Run(reg, s, schedule);
    forall i, j | 0 <= i < j < |end.calls| && Holding(end.calls[i].pc) && Holding(end.calls[j].pc)
      ensures ResourcesOf(reg, end.calls[i].request) !! ResourcesOf(reg, end.calls[j].request)
    {
      assert Possesses(reg, end.calls[i], end.world) && Possesses(reg, end.calls[j], end.world);
      var a, b := end.calls[i].request.token.tokenId, end.calls[j].request.token.tokenId;
      assert a != b;
      assert forall r :: r in end.world.leases[a] ==> end.world.owners[r] == a;
      assert forall r :: r in end.world.leases[b] ==> end.world.owners[r] == b;
    }
    forall i | 0 <= i < |end.calls| && end.calls[i].pc.Finished?
      ensures end.calls[i].request.token.tokenId !in end.world.leases
      ensures forall r :: r in end.world.owners ==> end.world.owners[r] != end.calls[i].request.token.tokenId
    {
      assert Possesses(reg, end.calls[i], end.world);
    }
  }

  lemma {:induction false} RunKeepsLength(reg: Registry, s: System, schedule: seq<Turn>)
    ensures |Run(reg, s, schedule).calls| == |s.calls|
    decreases |schedule|
  {
    hide Step;
    if schedule != [] {
      RunKeepsLength(reg, Advance(reg, s, schedule[0]), schedule[1..]);
    }
  }

  // ----- what distinct tokens are for -----

  const Smooth := Choice(Stores, Answers, Safe, ReportsCompletion)

  /** The call passes every gate before its safety check and declares free resources under an unused owner name. */
  ghost predicate Admissible(reg: Registry, c: Call, w: World) {
    && c.pc == AtPreflight
    && Preflight(reg, c.request, w.consumed) == None
    && ResourcesOf(reg, c.request) != {}
    && c.request.token.tokenId !in w.leases
    && ResourcesOf(reg, c.request) !! w.owners.Keys
  }

  /** The condition on tokens is needed: two admissible calls that share a token and its resources are both let in. */
  lemma SharedTokenBreaksExclusion(reg: Registry, s: System, i: nat, j: nat)
    requires i < j < |s.calls| && Admissible(reg, s.calls[i], s.world) && Admissible(reg, s.calls[j], s.world)
    requires s.calls[i].request.token.tokenId == s.calls[j].request.token.tokenId
    requires ResourcesOf(reg, s.calls[i].request) == ResourcesOf(reg, s.calls[j].request)
    ensures var end := Run(reg, s, [Turn(i, Smooth), Turn(i, Smooth), Turn(j, Smooth), Turn(j, Smooth)]);
            && |end.calls| == |s.calls|
            && Holding(end.calls[i].pc) && Holding(end.calls[j].pc)
            && !(ResourcesOf(reg, end.calls[i].request) !! ResourcesOf(reg, end.calls[j].request))
  {
    hide Preflight, ResourcesOf;
    var t, u := Turn(i, Smooth), Turn(j, Smooth);
    var s1 := Advance(reg, s, t);
    var s2 := Advance(reg, s1, t);
    var s3 := Advance(reg, s2, u);
    var s4 := Advance(reg, s3, u);
    assert s2.calls[i].pc == AtAcquiredReceipt
        && s2.world.leases[s.calls[i].request.token.tokenId] == ResourcesOf(reg, s.calls[i].request);
    assert s4.calls[j].pc == AtAcquiredReceipt;
    assert Run(reg, s, [t, t, u, u]) == Run(reg, s1, [t, u, u]) by { assert [t, t, u, u][1..] == [t, u, u]; }
    assert Run(reg, s1, [t, u, u]) == Run(reg, s2, [u, u]) by { assert [t, u, u][1..] == [u, u]; }
    assert Run(reg, s2, [u, u]) == Run(reg, s3, [u]) by { assert [u, u][1..] == [u]; }
    assert Run(reg, s3, [u]) == Run(reg, s4, []) by { assert [u][1..] == []; }
  }

  // ----- exactly when executions exclude each other -----

  /** Any two calls that are between acquisition and release hold disjoint resources. */
  ghost predicate Exclusive(reg: Registry, s: System) {
    forall i, j :: 0 <= i < j < |s.calls| && Holding(s.calls[i].pc) && Holding(s.calls[j].pc) ==>
      ResourcesOf(reg, s.calls[i].request) !! ResourcesOf(reg, s.calls[j].request)
  }

  /** Judged before anything runs: the call passes preflight and declares resources. */
  ghost predicate MayAcquire(reg: Registry, q: Request, consumed: set<Id>) {
    Preflight(reg, q, consumed) == None && ResourcesOf(reg, q) != {}
  }

  /** Two requests that may acquire share their token and their resources. */
  ghost predicate Share(reg: Registry, q: Request, r: Request, consumed: set<Id>) {
    && MayAcquire(reg, q, consumed) && MayAcquire(reg, r, consumed)
    && q.token.tokenId == r.token.tokenId && ResourcesOf(reg, q) == ResourcesOf(reg, r)
  }

  ghost predicate NoneShare(reg: Registry, s: System, consumed: set<Id>) {
    forall i, j :: 0 <= i < j < |s.calls| ==> !Share(reg, s.calls[i].request, s.calls[j].request, consumed)
  }

  /** A call that is about to acquire was entitled to from the start, and one that holds owns exactly its set. */
  ghost predicate Entitled(reg: Registry, c: Call, w: World, consumed: set<Id>) {
    && (c.pc.AtAcquire? || Holding(c.pc) ==> MayAcquire(reg, c.request, consumed))
    && (Holding(c.pc) ==>
          c.request.token.tokenId in w.leases && w.leases[c.request.token.tokenId] == ResourcesOf(reg, c.request))
  }

  ghost predicate AllEntitled(reg: Registry, s: System, consumed: set<Id>) {
    && Agree(s.world) && consumed <= s.world.consumed
    && (forall i :: 0 <= i < |s.calls| ==> Entitled(reg, s.calls[i], s.world, consumed))
  }

  lemma ConsumingDeniesMore(reg: Registry, q: Request, consumed: set<Id>, more: set<Id>)
    requires consumed <= more && Preflight(reg, q, more) == None
    ensures Preflight(reg, q, consumed) == None
  {
  }

  lemma WayToAcquire(reg: Registry, c: Call, w: World, ch: Choice)
    ensures var (next, after) := Step(reg, c, w, ch);
            && w.consumed <= after.consumed
            && (next.pc.AtAcquire? ==> c.pc.AtPreflight? && MayAcquire(reg, c.request, w.consumed))
  {
    hide Preflight, BindingError, Acquire, Release, Verifies, ResourcesOf;
    TransfersConsumeNothing(w, c.request.token.tokenId, ResourcesOf(reg, c.request));
  }

  lemma TransfersConsumeNothing(w: World, owner: Id, wanted: set<Id>)
    ensures Acquire(w, owner, wanted).0.consumed == Release(w, owner).0.consumed == w.consumed
  {
  }

  lemma AcquireForOwner(w: World, owner: Id, wanted: set<Id>)
    requires Agree(w)
    ensures var (next, grant) := Acquire(w, owner, wanted);
            && Agree(next)
            && (grant == Granted ==> owner in next.leases && next.leases[owner] == wanted)
            && (forall o :: o in w.leases ==> o in next.leases && next.leases[o] == w.leases[o])
  {
  }

  /** A step of a call that does not hold takes nothing from anybody; one that holds touches only its own lease. */
  lemma StepEntitled(reg: Registry, c: Call, w: World, ch: Choice, consumed: set<Id>)
    requires Agree(w) && consumed <= w.consumed && Entitled(reg, c, w, consumed)
    ensures var (next, after) := Step(reg, c, w, ch);
            && next.request == c.request && Agree(after) && consumed <= after.consumed
            && Entitled(reg, next, after, consumed)
            && (forall o :: o in w.leases && (o != c.request.token.tokenId || !Holding(c.pc)) ==>
                  o in after.leases && after.leases[o] == w.leases[o])
  {
    hide Acquire, Release, Step, Agree, ResourcesOf, Preflight;
    var owner := c.request.token.tokenId;
    StepKeepsRequest(reg, c, w, ch);
    WayToAcquire(reg, c, w, ch);
    if c.pc.AtPreflight? && Step(reg, c, w, ch).0.pc.AtAcquire? {
      ConsumingDeniesMore(reg, c.request, consumed, w.consumed);
    }
    if Transfers(c.pc) {
      TransferOwnership(reg, c, w, ch);
      ReleaseKeepsAgreement(w, owner);
      AcquireForOwner(w, owner, ResourcesOf(reg, c.request));
    } else {
      QuietOwnership(reg, c, w, ch);
      SameTables(w, Step(reg, c, w, ch).1);
    }
  }

  lemma AdvanceEntitled(reg: Registry, s: System, t: Turn, consumed: set<Id>)
    requires AllEntitled(reg, s, consumed) && NoneShare(reg, s, consumed)
    ensures AllEntitled(reg, Advance(reg, s, t), consumed) && NoneShare(reg, Advance(reg, s, t), consumed)
  {
    hide Step, Agree, MayAcquire, ResourcesOf;
    if t.who < |s.calls| {
      StepEntitled(reg, s.calls[t.who], s.world, t.choice, consumed);
      var next := Advance(reg, s, t);
      forall i | 0 <= i < |next.calls| ensures Entitled(reg, next.calls[i], next.world, consumed) {
        assert Entitled(reg, s.calls[i], s.world, consumed) && Entitled(reg, s.calls[t.who], s.world, consumed);
        if i < t.who {
          assert !Share(reg, s.calls[i].request, s.calls[t.who].request, consumed);
        } else if i > t.who {
          assert !Share(reg, s.calls[t.who].request, s.calls[i].request, consumed);
        }
      }
      assert forall i :: 0 <= i < |next.calls| ==> next.calls[i].request == s.calls[i].request;
    }
  }

  lemma {:induction false} RunEntitled(reg: Registry, s: System, schedule: seq<Turn>, consumed: set<Id>)
    requires AllEntitled(reg, s, consumed) && NoneShare(reg, s, consumed)
    ensures AllEntitled(reg, Run(reg, s, schedule), consumed) && NoneShare(reg, Run(reg, s, schedule), consumed)
    decreases |schedule|
  {
    hide AllEntitled, NoneShare, Advance;
    if schedule != [] {
      AdvanceEntitled(reg, s, schedule[0], consumed);
      RunEntitled(reg, Advance(reg, s, schedule[0]), schedule[1..], consumed);
    }
  }

  lemma EntitledExclude(reg: Registry, s: System, consumed: set<Id>)
    requires AllEntitled(reg, s, consumed) && NoneShare(reg, s, consumed)
    ensures Exclusive(reg, s)
  {
    hide MayAcquire, ResourcesOf;
    forall i, j | 0 <= i < j < |s.calls| && Holding(s.calls[i].pc) && Holding(s.calls[j].pc)
      ensures ResourcesOf(reg, s.calls[i].request) !! ResourcesOf(reg, s.calls[j].request)
    {
      assert Entitled(reg, s.calls[i], s.world, consumed) && Entitled(reg, s.calls[j], s.world, consumed);
      assert !Share(reg, s.calls[i].request, s.calls[j].request, consumed);
      var a, b := s.calls[i].request.token.tokenId, s.calls[j].request.token.tokenId;
      assert forall r :: r in s.world.leases[a] ==> s.world.owners[r] == a;
      assert forall r :: r in s.world.leases[b] ==> s.world.owners[r] == b;
    }
  }

  /** Nobody owns anything yet. */
  ghost predicate Idle(w: World) { w.owners == map[] && w.leases == map[] }

  /** Started with nothing owned, calls exclude each other under every schedule and every failure exactly when no two of
      those that pass preflight at the start share their token and a non-empty set of resources. */
  lemma ExclusiveExactlyWhenNoneShare(reg: Registry, s: System)
    requires Fresh(s) && Idle(s.world)
    ensures (forall schedule :: Exclusive(reg, Run(reg, s, schedule))) <==> NoneShare(reg, s, s.world.consumed)
  {
    hide Run, Step, Preflight, ResourcesOf;
    if NoneShare(reg, s, s.world.consumed) {
      assert AllEntitled(reg, s, s.world.consumed);
      forall schedule
        ensures Exclusive(reg, Run(reg, s, schedule))
      {
        RunEntitled(reg, s, schedule, s.world.consumed);
        EntitledExclude(reg, Run(reg, s, schedule), s.world.consumed);
      }
    } else {
      var i, j :| 0 <= i < j < |s.calls| && Share(reg, s.calls[i].request, s.calls[j].request, s.world.consumed);
      SharedTokenBreaksExclusion(reg, s, i, j);
      assert !Exclusive(reg, Run(reg, s, [Turn(i, Smooth), Turn(i, Smooth), Turn(j, Smooth), Turn(j, Smooth)]));
    }
  }
}
