/** Dispatches that overlap: several look an intent up before any of them has started it. */
module DispatchRaces {
  import opened Basics
  import opened Execution
  import opened Entitlement
  import opened Interleaving
  import opened DispatchSpec

  datatype Stage = Looking | Asking | Executing(call: Call) | Ended

  /** One dispatch in flight, with the request it submits if the Court allows it. The token is fixed by the moment at
      which the dispatch reads the clock. */
  datatype Dispatcher = Dispatcher(plan: Request, stage: Stage)

  datatype Race = Race(dispatchers: seq<Dispatcher>, world: World)

  /** Which dispatch moves, and what the Court and the surroundings answer it. */
  datatype Move = Move(who: nat, allows: bool, choice: Choice)

  function StepOne(reg: Registry, d: Dispatcher, w: World, m: Move): (Dispatcher, World) {
    var intent := d.plan.token.intent;
    match d.stage
    case Looking =>
      var found := Resolve(w.log, intent);
      (d.(stage := if found.Unseen? || found.AuthorizedOnly? then Asking else Ended), w)
    case Asking =>
      var (next, stored) := Persist(w, m.choice.sink,
                                    Receipt(if m.allows then CourtAuthorized else CourtDenied, intent));
      (d.(stage := if m.allows && stored then Executing(NewCall(d.plan)) else Ended), next)
    case Executing(call) =>
      var (next, after) := Step(reg, call, w, m.choice);
      (d.(stage := Executing(next)), after)
    case Ended => (d, w)
  }

  function MoveOne(reg: Registry, r: Race, m: Move): Race {
    if m.who < |r.dispatchers| then
      var (d, world) := StepOne(reg, r.dispatchers[m.who], r.world, m);
      Race(r.dispatchers[m.who := d], world)
    else r
  }

  function RunRace(reg: Registry, r: Race, moves: seq<Move>): Race
    decreases |moves|
  {
    if moves == [] then r else RunRace(reg, MoveOne(reg, r, moves[0]), moves[1..])
  }

  /** Nothing has happened yet; the dispatches are numbered. */
  ghost predicate AtTheStart(r: Race) {
    && r.world.acts == []
    && forall i :: 0 <= i < |r.dispatchers| ==> r.dispatchers[i].stage == Looking && r.dispatchers[i].plan.id == i
  }

  // ----- one token -----

  ghost predicate StageSound(d: Dispatcher, acts: seq<Act>) {
    && (d.stage.Executing? ==> d.stage.call.request == d.plan && CallSound(d.stage.call, acts))
    && (d.stage.Looking? || d.stage.Asking? ==> !HasRun(acts, d.plan.id))
  }

  /** Every run is by the dispatch whose number it carries, with that dispatch's token and intent. */
  ghost predicate AsPlanned(dispatchers: seq<Dispatcher>, a: Act) {
    a.Ran? ==>
      && a.call < |dispatchers|
      && a.token == dispatchers[a.call].plan.token.tokenId
      && a.intent == dispatchers[a.call].plan.token.intent
  }

  ghost predicate RaceSound(r: Race) {
    && ActsSound(r.world.acts, r.world.consumed)
    && (forall i :: 0 <= i < |r.dispatchers| ==>
          r.dispatchers[i].plan.id == i && StageSound(r.dispatchers[i], r.world.acts))
    && (forall k :: 0 <= k < |r.world.acts| ==> AsPlanned(r.dispatchers, r.world.acts[k]))
  }

  /** A step writes at most one act, in its own name. */
  lemma StepOneSound(reg: Registry, d: Dispatcher, w: World, m: Move)
    requires ActsSound(w.acts, w.consumed) && StageSound(d, w.acts)
    ensures var (next, after) := StepOne(reg, d, w, m);
            && next.plan == d.plan && ActsSound(after.acts, after.consumed) && StageSound(next, after.acts)
            && (after.acts == w.acts
                || exists a :: after.acts == w.acts + [a] && a.call == d.plan.id
                     && (a.Ran? ==> a.token == d.plan.token.tokenId && a.intent == d.plan.token.intent))
  {
    hide ActsSound, HasRun, Step;
    if d.stage.Executing? {
      var call := d.stage.call;
      StepActs(reg, call, w, m.choice);
      StepWrites(reg, call, w, m.choice);
    }
  }

  lemma StepWrites(reg: Registry, c: Call, w: World, ch: Choice)
    ensures var (after, q) := (Step(reg, c, w, ch).1, c.request);
            after.acts == w.acts
            || exists a :: after.acts == w.acts + [a] && a.call == q.id
                 && (a.Ran? ==> a.token == q.token.tokenId && a.intent == q.token.intent)
  {
    hide Preflight, BindingError, Acquire, Release, Verifies, ResourcesOf;
    var after, q := Step(reg, c, w, ch).1, c.request;
    match c.pc
    case AtStart(_) => assert after.acts == w.acts || after.acts == w.acts + [Started(q.id, q.token.tokenId)];
    case AtConsume(_) => assert after.acts == w.acts || after.acts == w.acts + [Consumed(q.id, q.token.tokenId)];
    case AtHandler(_) => assert after.acts == w.acts + [Ran(q.id, q.token.tokenId, q.token.intent)];
    case AtAcquire => AcquireAndReleaseLeaveTheRest(w, q.token.tokenId, ResourcesOf(reg, q));
    case AtQuietRelease => AcquireAndReleaseLeaveTheRest(w, q.token.tokenId, {});
    case AtRelease(_) => AcquireAndReleaseLeaveTheRest(w, q.token.tokenId, {});
    case _ =>
  }

  lemma StageUndisturbed(d: Dispatcher, acts: seq<Act>, a: Act)
    requires StageSound(d, acts) && a.call != d.plan.id
    ensures StageSound(d, acts + [a])
  {
    hide CallSound, HasRun;
    RunsAfter(acts, a, d.plan.id);
    if d.stage.Executing? {
      OthersUndisturbed(d.stage.call, acts, a);
    }
  }

  lemma MoveKeepsSound(reg: Registry, r: Race, m: Move)
    requires RaceSound(r)
    ensures RaceSound(MoveOne(reg, r, m))
    ensures |MoveOne(reg, r, m).dispatchers| == |r.dispatchers|
    ensures forall i :: 0 <= i < |r.dispatchers| ==> MoveOne(reg, r, m).dispatchers[i].plan == r.dispatchers[i].plan
  {
    hide StepOne, ActsSound, StageSound;
    if m.who < |r.dispatchers| {
      var next := MoveOne(reg, r, m);
      StepOneSound(reg, r.dispatchers[m.who], r.world, m);
      if next.world.acts != r.world.acts {
        var a :| next.world.acts == r.world.acts + [a] && a.call == m.who
          && (a.Ran? ==>
                && a.token == r.dispatchers[m.who].plan.token.tokenId
                && a.intent == r.dispatchers[m.who].plan.token.intent);
        forall i | 0 <= i < |next.dispatchers| && i != m.who ensures StageSound(next.dispatchers[i], next.world.acts) {
          StageUndisturbed(r.dispatchers[i], r.world.acts, a);
        }
        assert AsPlanned(next.dispatchers, a);
      }
      forall k | 0 <= k < |next.world.acts| ensures AsPlanned(next.dispatchers, next.world.acts[k]) {
        if k < |r.world.acts| { assert AsPlanned(r.dispatchers, r.world.acts[k]); }
      }
    }
  }

  lemma {:induction false} RunKeepsRaceSound(reg: Registry, r: Race, moves: seq<Move>)
    requires RaceSound(r)
    ensures var end := RunRace(reg, r, moves);
            && RaceSound(end) && |end.dispatchers| == |r.dispatchers|
            && forall i :: 0 <= i < |r.dispatchers| ==> end.dispatchers[i].plan == r.dispatchers[i].plan
    decreases |moves|
  {
    hide RaceSound, MoveOne;
    if moves != [] {
      MoveKeepsSound(reg, r, moves[0]);
      RunKeepsRaceSound(reg, MoveOne(reg, r, moves[0]), moves[1..]);
    }
  }

  lemma {:induction false} OneRunAtMost(acts: seq<Act>, d: Id)
    requires forall i, k :: 0 <= i < k < |acts| && acts[i].Ran? && acts[k].Ran? && acts[i].intent == d ==>
        acts[k].intent != d
    ensures Runs(acts, d) <= 1
  {
    if acts != [] {
      var front, last := acts[..|acts| - 1], acts[|acts| - 1];
      OneRunAtMost(front, d);
      if last.Ran? && last.intent == d {
        forall a | a in front ensures !(a.Ran? && a.intent == d) {
          var i :| 0 <= i < |front| && front[i] == a;
          assert acts[i] == a;
        }
        NoRuns(front, d);
      }
    }
  }

  // ----- which runs are possible -----

  /** The gates a call has passed at its place, judged by the ledger of the start: consuming only ever denies more. */
  ghost predicate Checked(reg: Registry, c: Call, consumed: set<Id>) {
    match c.pc
    case AtTokenCheck(_) => c.request.token.tokenId !in consumed
    case AtBindingChecks(_) => c.request.token.tokenId !in consumed && Verifies(c.request.token, c.request.now)
    case AtSafety(_) => Preflight(reg, c.request, consumed) == None
    case AtStart(_) => Preflight(reg, c.request, consumed) == None
    case AtConsume(_) => Preflight(reg, c.request, consumed) == None
    case AtHandler(_) => Preflight(reg, c.request, consumed) == None
    case _ => true
  }

  lemma BindingCompletesPreflight(reg: Registry, q: Request, consumed: set<Id>)
    requires q.token.tokenId !in consumed && Verifies(q.token, q.now) && BindingError(reg, q) == None
    ensures Preflight(reg, q, consumed) == None
  {
  }

  lemma StepStaysChecked(reg: Registry, c: Call, w: World, ch: Choice, consumed: set<Id>)
    requires Checked(reg, c, consumed) && consumed <= w.consumed
    ensures var (next, after) := Step(reg, c, w, ch);
            next.request == c.request && Checked(reg, next, consumed) && consumed <= after.consumed
  {
    hide Preflight, BindingError, Verifies, Acquire, Release, ResourcesOf;
    TransfersConsumeNothing(w, c.request.token.tokenId, ResourcesOf(reg, c.request));
    if c.pc.AtBindingChecks? && BindingError(reg, c.request) == None {
      BindingCompletesPreflight(reg, c.request, consumed);
    }
  }

  /** A step that is a run is the handler's. */
  lemma RunsAreAtHandlers(reg: Registry, c: Call, w: World, ch: Choice, a: Act)
    ensures Step(reg, c, w, ch).1.acts == w.acts + [a] && a.Ran? ==> c.pc.AtHandler?
  {
    hide Preflight, BindingError, Acquire, Release, Verifies, ResourcesOf;
    AcquireAndReleaseLeaveTheRest(w, c.request.token.tokenId, ResourcesOf(reg, c.request));
    assert (w.acts + [a])[|w.acts|] == a;
  }

  /** Everybody who ran, and everybody about to, passes preflight on the ledger of the start. */
  ghost predicate RaceChecked(reg: Registry, r: Race, consumed: set<Id>) {
    && consumed <= r.world.consumed
    && (forall i :: 0 <= i < |r.dispatchers| && r.dispatchers[i].stage.Executing? ==>
          && r.dispatchers[i].stage.call.request == r.dispatchers[i].plan
          && Checked(reg, r.dispatchers[i].stage.call, consumed))
    && (forall k :: 0 <= k < |r.world.acts| ==> RanEntitled(reg, r.dispatchers, r.world.acts[k], consumed))
  }

  ghost predicate RanEntitled(reg: Registry, dispatchers: seq<Dispatcher>, a: Act, consumed: set<Id>) {
    a.Ran? ==> a.call < |dispatchers| && Preflight(reg, dispatchers[a.call].plan, consumed) == None
  }

  lemma MoveStaysChecked(reg: Registry, r: Race, m: Move, consumed: set<Id>)
    requires RaceSound(r) && RaceChecked(reg, r, consumed)
    ensures RaceChecked(reg, MoveOne(reg, r, m), consumed)
  {
    hide ActsSound, StageSound, Step, Checked, Preflight, Resolve;
    if m.who < |r.dispatchers| {
      var d, next := r.dispatchers[m.who], MoveOne(reg, r, m);
      StepOneSound(reg, d, r.world, m);
      if d.stage.Executing? {
        StepStaysChecked(reg, d.stage.call, r.world, m.choice, consumed);
      } else {
        NewCallIsChecked(reg, d.plan, consumed);
      }
      forall k | 0 <= k < |next.world.acts|
        ensures RanEntitled(reg, next.dispatchers, next.world.acts[k], consumed)
      {
        if k < |r.world.acts| {
          assert next.world.acts[k] == r.world.acts[k];
          assert RanEntitled(reg, r.dispatchers, r.world.acts[k], consumed);
        } else if d.stage.Executing? {
          var a := next.world.acts[k];
          assert next.world.acts == r.world.acts + [a];
          RunsAreAtHandlers(reg, d.stage.call, r.world, m.choice, a);
          HandlersPass(reg, d.stage.call, consumed);
        }
      }
    }
  }

  lemma NewCallIsChecked(reg: Registry, q: Request, consumed: set<Id>)
    ensures Checked(reg, NewCall(q), consumed)
  {
  }

  lemma HandlersPass(reg: Registry, c: Call, consumed: set<Id>)
    ensures Checked(reg, c, consumed) && c.pc.AtHandler? ==> Preflight(reg, c.request, consumed) == None
  {
  }

  lemma {:induction false} RunStaysChecked(reg: Registry, r: Race, moves: seq<Move>, consumed: set<Id>)
    requires RaceSound(r) && RaceChecked(reg, r, consumed)
    ensures RaceChecked(reg, RunRace(reg, r, moves), consumed)
    decreases |moves|
  {
    hide RaceSound, RaceChecked, MoveOne;
    if moves != [] {
      MoveKeepsSound(reg, r, moves[0]);
      MoveStaysChecked(reg, r, moves[0], consumed);
      RunStaysChecked(reg, MoveOne(reg, r, moves[0]), moves[1..], consumed);
    }
  }

  // ----- one token -----

  /** The dispatch is about the intent, and its request passes preflight on the ledger of the start. */
  ghost predicate MayRun(reg: Registry, q: Request, d: Id, consumed: set<Id>) {
    q.token.intent == d && Preflight(reg, q, consumed) == None
  }

  /** The dispatches of the intent that may run obtained one token, as when they read the same second. */
  ghost predicate OneToken(reg: Registry, r: Race, d: Id, consumed: set<Id>) {
    forall i, j :: 0 <= i < j < |r.dispatchers| ==>
      MayRun(reg, r.dispatchers[i].plan, d, consumed) && MayRun(reg, r.dispatchers[j].plan, d, consumed) ==>
      r.dispatchers[i].plan.token.tokenId == r.dispatchers[j].plan.token.tokenId
  }

  /** However overlapping dispatches interleave and whatever fails, with one token the handler of the intent runs at
      most once, although several of them may have found the intent open. */
  lemma OneTokenRunsOnce(reg: Registry, r: Race, moves: seq<Move>, d: Id)
    requires AtTheStart(r) && OneToken(reg, r, d, r.world.consumed)
    ensures Runs(RunRace(reg, r, moves).world.acts, d) <= 1
  {
    hide RunRace, ActsSound, StageSound, Preflight;
    StartIsSound(r);
    RunKeepsRaceSound(reg, r, moves);
    RunStaysChecked(reg, r, moves, r.world.consumed);
    var end := RunRace(reg, r, moves);
    var acts := end.world.acts;
    forall i, k | 0 <= i < k < |acts| && acts[i].Ran? && acts[k].Ran? && acts[i].intent == d
      ensures acts[k].intent != d
    {
      NoTokenRunsTwice(acts, end.world.consumed, i, k);
      var p, q := acts[i].call, acts[k].call;
      assert AsPlanned(end.dispatchers, acts[i]) && AsPlanned(end.dispatchers, acts[k]);
      assert RanEntitled(reg, end.dispatchers, acts[i], r.world.consumed);
      assert RanEntitled(reg, end.dispatchers, acts[k], r.world.consumed);
      assert end.dispatchers[p].plan == r.dispatchers[p].plan && end.dispatchers[q].plan == r.dispatchers[q].plan;
    }
    OneRunAtMost(acts, d);
  }

  lemma StartIsSound(r: Race)
    requires AtTheStart(r)
    ensures RaceSound(r)
  {
  }

  // ----- two tokens -----

  /** The call alone, every answer favourable, for `n` steps. */
  function Smoothly(reg: Registry, c: Call, w: World, n: nat): (Call, World)
    decreases n
  {
    if n == 0 then (c, w)
    else
      var (next, after) := Step(reg, c, w, Smooth);
      Smoothly(reg, next, after, n - 1)
  }

  /** From the replay check to the final receipt, with or without resources held: eight steps. */
  lemma EightStepsRun(reg: Registry, q: Request, w: World, held: bool)
    requires Preflight(reg, q, w.consumed) == None
    ensures var (c, after) := Smoothly(reg, Call(q, AtReplayCheck(held)), w, 8);
            && c.request == q && (exists outcome :: c.pc == Leave(held, outcome))
            && after.acts == w.acts + ActsOf(q) && after.consumed == w.consumed + {q.token.tokenId}
            && after.owners == w.owners && after.leases == w.leases
  {
    FourStepsToTheStart(reg, q, w, held);
    FourStepsThrough(reg, q, w, held);
    SmoothlyJoins(reg, Call(q, AtReplayCheck(held)), w, 4, 4);
  }

  lemma FourStepsToTheStart(reg: Registry, q: Request, w: World, held: bool)
    requires Preflight(reg, q, w.consumed) == None
    ensures Smoothly(reg, Call(q, AtReplayCheck(held)), w, 4) == (Call(q, AtStart(held)), w)
  {
    hide Verifies;
    var token, binding, safety := Call(q, AtTokenCheck(held)), Call(q, AtBindingChecks(held)), Call(q, AtSafety(held));
    assert Smoothly(reg, Call(q, AtReplayCheck(held)), w, 4) == Smoothly(reg, token, w, 3);
    assert Smoothly(reg, token, w, 3) == Smoothly(reg, binding, w, 2);
    assert Smoothly(reg, binding, w, 2) == Smoothly(reg, safety, w, 1);
    assert Smoothly(reg, safety, w, 1) == Smoothly(reg, Call(q, AtStart(held)), w, 0);
  }

  lemma FourStepsThrough(reg: Registry, q: Request, w: World, held: bool)
    requires q.token.tokenId !in w.consumed
    ensures var (c, after) := Smoothly(reg, Call(q, AtStart(held)), w, 4);
            && c.request == q && (exists outcome :: c.pc == Leave(held, outcome))
            && after.acts == w.acts + ActsOf(q) && after.consumed == w.consumed + {q.token.tokenId}
            && after.owners == w.owners && after.leases == w.leases
  {
    hide Preflight, BindingError, Acquire, Release, Leave;
    var result := ExecResult(true, Completed, true, false);
    var start, consume, handler := Call(q, AtStart(held)), Call(q, AtConsume(held)), Call(q, AtHandler(held));
    var final := Call(q, AtFinal(held, ExecutionCompleted, result));
    var w1 := Step(reg, start, w, Smooth).1;
    var w2 := Step(reg, consume, w1, Smooth).1;
    var w3 := Step(reg, handler, w2, Smooth).1;
    var (end, w4) := Step(reg, final, w3, Smooth);
    assert Smoothly(reg, start, w, 4) == Smoothly(reg, consume, w1, 3);
    assert Smoothly(reg, consume, w1, 3) == Smoothly(reg, handler, w2, 2);
    assert Smoothly(reg, handler, w2, 2) == Smoothly(reg, final, w3, 1);
    assert Smoothly(reg, final, w3, 1) == (end, w4);
    assert end.pc == Leave(held, Some(result.(finalPersisted := true)));
    assert w4.acts == w.acts + ActsOf(q);
  }

  lemma {:induction false} FinishedStays(reg: Registry, c: Call, w: World, n: nat)
    requires c.pc.Finished?
    ensures Smoothly(reg, c, w, n) == (c, w)
    decreases n
  {
    if n > 0 {
      FinishedStays(reg, c, w, n - 1);
    }
  }

  /** Thirteen smooth steps take a call that passes preflight through its handler to its end; if nothing was owned
      before, nothing is owned after. */
  lemma ThirteenStepsRun(reg: Registry, q: Request, w: World)
    requires Preflight(reg, q, w.consumed) == None && Idle(w)
    ensures var (c, after) := Smoothly(reg, NewCall(q), w, 13);
            && c.pc.Finished? && after.acts == w.acts + ActsOf(q) && after.consumed == w.consumed + {q.token.tokenId}
            && Idle(after)
  {
    hide Preflight, Smoothly;
    if ResourcesOf(reg, q) == {} {
      WithoutResources(reg, q, w);
    } else {
      WithResources(reg, q, w);
    }
  }

  lemma WithoutResources(reg: Registry, q: Request, w: World)
    requires Preflight(reg, q, w.consumed) == None && ResourcesOf(reg, q) == {}
    ensures var (c, after) := Smoothly(reg, NewCall(q), w, 13);
            && c.pc.Finished? && after.acts == w.acts + ActsOf(q) && after.consumed == w.consumed + {q.token.tokenId}
            && after.owners == w.owners && after.leases == w.leases
  {
    hide Preflight, ResourcesOf;
    var inside := Call(q, AtReplayCheck(false));
    assert Smoothly(reg, NewCall(q), w, 13) == Smoothly(reg, inside, w, 12);
    EightStepsRun(reg, q, w, false);
    SmoothlyJoins(reg, inside, w, 8, 4);
    var (c, after) := Smoothly(reg, inside, w, 8);
    FinishedStays(reg, c, after, 4);
  }

  lemma WithResources(reg: Registry, q: Request, w: World)
    requires Preflight(reg, q, w.consumed) == None && ResourcesOf(reg, q) != {} && Idle(w)
    ensures var (c, after) := Smoothly(reg, NewCall(q), w, 13);
            && c.pc.Finished? && after.acts == w.acts + ActsOf(q) && after.consumed == w.consumed + {q.token.tokenId}
            && Idle(after)
  {
    hide Preflight, ResourcesOf, Acquire, Release;
    var owner, wanted := q.token.tokenId, ResourcesOf(reg, q);
    var acquire, receipt, inside := Call(q, AtAcquire), Call(q, AtAcquiredReceipt), Call(q, AtReplayCheck(true));
    IdleAcquires(w, owner, wanted);
    var w1 := Acquire(w, owner, wanted).0;
    var w2 := w1.(log := w1.log + [Receipt(ResourceAcquired, q.token.intent)]);
    assert Smoothly(reg, NewCall(q), w, 13) == Smoothly(reg, acquire, w, 12);
    assert Smoothly(reg, acquire, w, 12) == Smoothly(reg, receipt, w1, 11);
    assert Smoothly(reg, receipt, w1, 11) == Smoothly(reg, inside, w2, 10);
    EightStepsRun(reg, q, w2, true);
    SmoothlyJoins(reg, inside, w2, 8, 2);
    var (c, w3) := Smoothly(reg, inside, w2, 8);
    TwoStepsRelease(reg, q, w3, c, wanted);
  }

  lemma IdleAcquires(w: World, owner: Id, wanted: set<Id>)
    requires Idle(w)
    ensures var (next, grant) := Acquire(w, owner, wanted);
            && grant == Granted
            && next == w.(owners := map r | r in wanted :: owner, leases := map[owner := wanted])
  {
    assert map[] + (map r | r in wanted :: owner) == (map r | r in wanted :: owner);
  }

  lemma TwoStepsRelease(reg: Registry, q: Request, w: World, c: Call, wanted: set<Id>)
    requires c.request == q && c.pc.AtRelease?
    requires w.owners == (map r | r in wanted :: q.token.tokenId) && w.leases == map[q.token.tokenId := wanted]
    ensures var (end, after) := Smoothly(reg, c, w, 2);
            end.pc.Finished? && Idle(after) && after.acts == w.acts && after.consumed == w.consumed
  {
    var owner := q.token.tokenId;
    var w1 := Release(w, owner).0;
    assert w1.owners == map[] && w1.leases == map[];
    var (next, after) := Step(reg, c, w, Smooth);
    assert after == w1 && next.pc.AtReleasedReceipt?;
    assert Smoothly(reg, c, w, 2) == Smoothly(reg, next, w1, 1);
    assert Smoothly(reg, next, w1, 1) == Step(reg, next, w1, Smooth);
  }

  lemma {:induction false} SmoothlyJoins(reg: Registry, c: Call, w: World, m: nat, n: nat)
    ensures var (next, after) := Smoothly(reg, c, w, m);
            Smoothly(reg, c, w, m + n) == Smoothly(reg, next, after, n)
    decreases m
  {
    hide Step;
    if m > 0 {
      var (next, after) := Step(reg, c, w, Smooth);
      SmoothlyJoins(reg, next, after, m - 1, n);
    }
  }

  function Repeatedly(who: nat, n: nat): seq<Move> {
    if n == 0 then [] else [Move(who, true, Smooth)] + Repeatedly(who, n - 1)
  }

  lemma {:induction false} RaceJoins(reg: Registry, r: Race, a: seq<Move>, b: seq<Move>)
    ensures RunRace(reg, r, a + b) == RunRace(reg, RunRace(reg, r, a), b)
    decreases |a|
  {
    hide MoveOne;
    if a == [] {
      assert a + b == b;
    } else {
      assert (a + b)[1..] == a[1..] + b;
      RaceJoins(reg, MoveOne(reg, r, a[0]), a[1..], b);
    }
  }

  /** One dispatch moving alone is its call going smoothly; the others stay where they are. */
  lemma {:induction false} MovesAlone(reg: Registry, r: Race, who: nat, n: nat)
    requires who < |r.dispatchers| && r.dispatchers[who].stage.Executing?
    ensures var (c, w) := Smoothly(reg, r.dispatchers[who].stage.call, r.world, n);
            RunRace(reg, r, Repeatedly(who, n))
            == Race(r.dispatchers[who := r.dispatchers[who].(stage := Executing(c))], w)
    decreases n
  {
    hide Step;
    if n == 0 {
      assert r.dispatchers[who := r.dispatchers[who]] == r.dispatchers;
    } else {
      var m := Move(who, true, Smooth);
      assert Repeatedly(who, n)[1..] == Repeatedly(who, n - 1);
      MovesAlone(reg, MoveOne(reg, r, m), who, n - 1);
    }
  }

  function BothAsk(i: nat, j: nat): seq<Move> {
    [Move(i, true, Smooth), Move(j, true, Smooth), Move(i, true, Smooth), Move(j, true, Smooth)]
  }

  /** Both dispatches look the intent up, find it open, and are authorised before either has started. */
  lemma BothAreLetIn(reg: Registry, r: Race, i: nat, j: nat, d: Id)
    requires i < |r.dispatchers| && j < |r.dispatchers| && i != j
    requires r.dispatchers[i].stage.Looking? && r.dispatchers[j].stage.Looking?
    requires r.dispatchers[i].plan.token.intent == r.dispatchers[j].plan.token.intent == d && Open(r.world.log, d)
    ensures var end := RunRace(reg, r, BothAsk(i, j));
            && |end.dispatchers| == |r.dispatchers|
            && end.dispatchers[i] == r.dispatchers[i].(stage := Executing(NewCall(r.dispatchers[i].plan)))
            && end.dispatchers[j] == r.dispatchers[j].(stage := Executing(NewCall(r.dispatchers[j].plan)))
            && end.world.acts == r.world.acts && end.world.consumed == r.world.consumed
            && end.world.owners == r.world.owners && end.world.leases == r.world.leases
  {
    hide Resolve, Open;
    OpenResolutions(r.world.log, d);
    var a, b := Move(i, true, Smooth), Move(j, true, Smooth);
    var r1 := MoveOne(reg, r, a);
    var r2 := MoveOne(reg, r1, b);
    var r3 := MoveOne(reg, r2, a);
    var r4 := MoveOne(reg, r3, b);
    assert [a, b, a, b][1..] == [b, a, b] && [b, a, b][1..] == [a, b] && [a, b][1..] == [b] && [b][1..] == [];
    assert RunRace(reg, r, [a, b, a, b]) == RunRace(reg, r1, [b, a, b]);
    assert RunRace(reg, r1, [b, a, b]) == RunRace(reg, r2, [a, b]);
    assert RunRace(reg, r2, [a, b]) == RunRace(reg, r3, [b]);
    assert RunRace(reg, r3, [b]) == RunRace(reg, r4, []);
  }

  /** With two tokens two dispatches of one open intent can both run its handler: each was let in before the other
      started. Exclusive resources do not prevent it; the second run follows the first one's release. */
  lemma TwoTokensRunTwice(reg: Registry, r: Race, i: nat, j: nat, d: Id)
    requires AtTheStart(r) && Idle(r.world) && i < |r.dispatchers| && j < |r.dispatchers| && Open(r.world.log, d)
    requires MayRun(reg, r.dispatchers[i].plan, d, r.world.consumed)
    requires MayRun(reg, r.dispatchers[j].plan, d, r.world.consumed)
    requires r.dispatchers[i].plan.token.tokenId != r.dispatchers[j].plan.token.tokenId
    ensures exists moves :: Runs(RunRace(reg, r, moves).world.acts, d) == 2
  {
    hide Open, RunRace, Smoothly, Runs, Preflight;
    var p, q := r.dispatchers[i].plan, r.dispatchers[j].plan;
    BothAreLetIn(reg, r, i, j, d);
    var r1 := RunRace(reg, r, BothAsk(i, j));
    MovesAlone(reg, r1, i, 13);
    ThirteenStepsRun(reg, p, r1.world);
    var r2 := RunRace(reg, r1, Repeatedly(i, 13));
    StillPasses(reg, q, r1.world.consumed, p.token.tokenId);
    MovesAlone(reg, r2, j, 13);
    ThirteenStepsRun(reg, q, r2.world);
    var r3 := RunRace(reg, r2, Repeatedly(j, 13));
    ThreeActs(r1.world.acts, p, d);
    ThreeActs(r2.world.acts, q, d);
    NoRuns([], d);
    RaceJoins(reg, r, BothAsk(i, j), Repeatedly(i, 13));
    RaceJoins(reg, r, BothAsk(i, j) + Repeatedly(i, 13), Repeatedly(j, 13));
    assert RunRace(reg, r, BothAsk(i, j) + Repeatedly(i, 13) + Repeatedly(j, 13)) == r3;
  }

  lemma StillPasses(reg: Registry, q: Request, consumed: set<Id>, other: Id)
    requires Preflight(reg, q, consumed) == None && q.token.tokenId != other
    ensures Preflight(reg, q, consumed + {other}) == None
  {
  }

  lemma ThreeActs(acts: seq<Act>, q: Request, d: Id)
    requires q.token.intent == d
    ensures Runs(acts + ActsOf(q), d) == Runs(acts, d) + 1
  {
    hide Runs;
    var s := ActsOf(q);
    OneMoreAct(acts, s[0], d);
    OneMoreAct(acts + [s[0]], s[1], d);
    OneMoreAct(acts + [s[0]] + [s[1]], s[2], d);
    assert acts + s == acts + [s[0]] + [s[1]] + [s[2]];
  }

  /** From an open intent, with nothing owned: however its dispatches overlap and whatever fails, the handler runs at
      most once, exactly when no two of them that pass preflight at the start carry different tokens. */
  lemma RunsOnceExactlyWhenOneToken(reg: Registry, r: Race, d: Id)
    requires AtTheStart(r) && Open(r.world.log, d) && Idle(r.world)
    ensures (forall moves :: Runs(RunRace(reg, r, moves).world.acts, d) <= 1) <==> OneToken(reg, r, d, r.world.consumed)
  {
    hide RunRace, Runs, Open, MayRun;
    if OneToken(reg, r, d, r.world.consumed) {
      forall moves
        ensures Runs(RunRace(reg, r, moves).world.acts, d) <= 1
      {
        OneTokenRunsOnce(reg, r, moves, d);
      }
    } else {
      var i, j :| 0 <= i < j < |r.dispatchers|
        && MayRun(reg, r.dispatchers[i].plan, d, r.world.consumed)
        && MayRun(reg, r.dispatchers[j].plan, d, r.world.consumed)
        && r.dispatchers[i].plan.token.tokenId != r.dispatchers[j].plan.token.tokenId;
      TwoTokensRunTwice(reg, r, i, j, d);
    }
  }
}
