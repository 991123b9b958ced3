/** How many terminal receipts overlapping dispatches leave. */
module RaceReceipts {
  import opened Basics
  import opened Execution
  import Interleaving
  import opened DispatchSpec
  import opened DispatchRaces

  // ----- one dispatch of an intent -----

  /** What holds of an intent while its only dispatch is at some stage. */
  ghost predicate StageUnderway(d: Dispatcher, w: World) {
    var intent := d.plan.token.intent;
    match d.stage
    case Looking => NoTerminal(w.log, intent) && Runs(w.acts, intent) == 0
    case Asking => NoTerminal(w.log, intent) && Runs(w.acts, intent) == 0
    case Executing(call) => call.request == d.plan && Underway(call.pc, w, intent)
    case Ended => Truthful(w, intent)
  }

  lemma OwnMove(reg: Registry, d: Dispatcher, w: World, m: Move)
    requires StageUnderway(d, w)
    ensures var (next, after) := StepOne(reg, d, w, m); next.plan == d.plan && StageUnderway(next, after)
  {
    hide Step, Underway, Resolve, Truthful, NoTerminal, Runs;
    var intent := d.plan.token.intent;
    match d.stage
    case Looking => NothingIsTruthful(w, intent);
    case Asking =>
      AskedUnderway(w, intent, m.allows, m.choice.sink);
      StartsUnderway(d.plan, Persist(w, m.choice.sink, Receipt(CourtAuthorized, intent)).0);
    case Executing(call) => StepUnderway(reg, call, w, m.choice);
    case Ended =>
  }

  lemma NothingIsTruthful(w: World, intent: Id)
    ensures NoTerminal(w.log, intent) && Runs(w.acts, intent) == 0 ==> Truthful(w, intent)
  {
  }

  lemma StartsUnderway(q: Request, w: World)
    ensures NoTerminal(w.log, q.token.intent) && Runs(w.acts, q.token.intent) == 0 ==>
        Underway(NewCall(q).pc, w, q.token.intent)
  {
  }

  lemma AskedUnderway(w: World, intent: Id, allows: bool, mode: SinkMode)
    requires NoTerminal(w.log, intent) && Runs(w.acts, intent) == 0
    ensures var next := Persist(w, mode, Receipt(if allows then CourtAuthorized else CourtDenied, intent)).0;
            && Truthful(next, intent)
            && Runs(next.acts, intent) == 0
            && (allows ==> NoTerminal(next.log, intent))
  {
    hide Runs;
    ClosingReceipt(w, Receipt(if allows then CourtAuthorized else CourtDenied, intent), intent);
  }

  /** What a dispatch of another intent does is nothing to this one. */
  lemma MoveUnaffected(reg: Registry, d: Dispatcher, w: World, m: Move, e: Id)
    requires d.plan.token.intent != e
    requires d.stage.Executing? ==> d.stage.call.request == d.plan
    ensures Unaffected(w, StepOne(reg, d, w, m).1, e)
    ensures StepOne(reg, d, w, m).0.plan == d.plan
    ensures var next := StepOne(reg, d, w, m).0; next.stage.Executing? ==> next.stage.call.request == d.plan
  {
    hide Step, Resolve;
    if d.stage.Executing? {
      var call := d.stage.call;
      var after := Step(reg, call, w, m.choice).1;
      StepKeepsRequest(reg, call, w, m.choice);
      StepAppends(reg, call, w, m.choice);
      if after.acts != w.acts {
        var a :| after.acts == w.acts + [a] && (a.Ran? ==> a.intent != e);
        OneMoreAct(w.acts, a, e);
      }
    }
  }

  lemma StaysUnderway(d: Dispatcher, w: World, after: World)
    requires StageUnderway(d, w) && Unaffected(w, after, d.plan.token.intent)
    ensures StageUnderway(d, after)
  {
    hide Truthful, Resolve, Runs;
    UnaffectedReads(w, after, d.plan.token.intent);
  }

  /** At most one of the dispatches is about the intent. */
  ghost predicate OneDispatch(r: Race, d: Id) {
    forall i, j :: 0 <= i < j < |r.dispatchers| ==>
      !(r.dispatchers[i].plan.token.intent == d && r.dispatchers[j].plan.token.intent == d)
  }

  ghost predicate Orderly(r: Race, d: Id) {
    && OneDispatch(r, d)
    && Truthful(r.world, d)
    && (forall i :: 0 <= i < |r.dispatchers| ==>
          && (r.dispatchers[i].stage.Executing? ==> r.dispatchers[i].stage.call.request == r.dispatchers[i].plan)
          && (r.dispatchers[i].plan.token.intent == d ==> StageUnderway(r.dispatchers[i], r.world)))
  }

  lemma UnderwayIsTruthful(d: Dispatcher, w: World)
    ensures StageUnderway(d, w) ==> Truthful(w, d.plan.token.intent)
    ensures StageUnderway(d, w) && d.stage.Executing? ==> d.stage.call.request == d.plan
  {
    hide Runs;
  }

  lemma MoveKeepsOrderly(reg: Registry, r: Race, m: Move, d: Id)
    requires Orderly(r, d)
    ensures Orderly(MoveOne(reg, r, m), d)
  {
    hide StepOne, StageUnderway, Truthful, Unaffected;
    if m.who < |r.dispatchers| {
      var mover, next := r.dispatchers[m.who], MoveOne(reg, r, m);
      if mover.plan.token.intent == d {
        OwnMove(reg, mover, r.world, m);
        UnderwayIsTruthful(next.dispatchers[m.who], next.world);
      } else {
        MoveUnaffected(reg, mover, r.world, m, d);
        UnaffectedReads(r.world, next.world, d);
        forall i | 0 <= i < |r.dispatchers| && r.dispatchers[i].plan.token.intent == d
          ensures StageUnderway(r.dispatchers[i], next.world)
        {
          StaysUnderway(r.dispatchers[i], r.world, next.world);
        }
      }
      assert forall i :: 0 <= i < |next.dispatchers| ==> next.dispatchers[i].plan == r.dispatchers[i].plan;
    }
  }

  lemma {:induction false} RunKeepsOrderly(reg: Registry, r: Race, moves: seq<Move>, d: Id)
    requires Orderly(r, d)
    ensures Orderly(RunRace(reg, r, moves), d)
    decreases |moves|
  {
    hide Orderly, MoveOne;
    if moves != [] {
      MoveKeepsOrderly(reg, r, moves[0], d);
      RunKeepsOrderly(reg, MoveOne(reg, r, moves[0]), moves[1..], d);
    }
  }

  /** The only dispatch of an intent leaves it told truly, whatever dispatches of other intents do meanwhile. */
  lemma OneDispatchTellsTheTruth(reg: Registry, r: Race, moves: seq<Move>, d: Id)
    requires AtTheStart(r) && Open(r.world.log, d) && OneDispatch(r, d)
    ensures Truthful(RunRace(reg, r, moves).world, d)
  {
    hide RunRace;
    RunKeepsOrderly(reg, r, moves, d);
  }

  // ----- two dispatches of an intent -----

  function BothDenied(i: nat, j: nat): seq<Move> {
    [Move(i, true, Interleaving.Smooth), Move(j, true, Interleaving.Smooth),
     Move(i, false, Interleaving.Smooth), Move(j, false, Interleaving.Smooth)]
  }

  /** Both look the intent up and find it open; then the Court denies both. */
  lemma BothLeaveATerminal(reg: Registry, r: Race, i: nat, j: nat, d: Id)
    requires i < |r.dispatchers| && j < |r.dispatchers| && i != j
    requires r.dispatchers[i].stage.Looking? && r.dispatchers[j].stage.Looking?
    requires r.dispatchers[i].plan.token.intent == r.dispatchers[j].plan.token.intent == d && Open(r.world.log, d)
    ensures !OneTerminalAtMost(RunRace(reg, r, BothDenied(i, j)).world.log, d)
  {
    hide Resolve, Open;
    OpenResolutions(r.world.log, d);
    var moves := BothDenied(i, j);
    var r1 := MoveOne(reg, r, moves[0]);
    var r2 := MoveOne(reg, r1, moves[1]);
    var r3 := MoveOne(reg, r2, moves[2]);
    var r4 := MoveOne(reg, r3, moves[3]);
    FourMoves(reg, r, moves);
    var n := |r.world.log|;
    assert r4.world.log == r.world.log + [Receipt(CourtDenied, d)] + [Receipt(CourtDenied, d)];
    assert TerminalAt(r4.world.log, d, n) && TerminalAt(r4.world.log, d, n + 1);
  }

  lemma FourMoves(reg: Registry, r: Race, moves: seq<Move>)
    requires |moves| == 4
    ensures RunRace(reg, r, moves)
         == MoveOne(reg, MoveOne(reg, MoveOne(reg, MoveOne(reg, r, moves[0]), moves[1]), moves[2]), moves[3])
  {
    hide MoveOne;
    var one := MoveOne(reg, r, moves[0]);
    var two := MoveOne(reg, one, moves[1]);
    var three := MoveOne(reg, two, moves[2]);
    assert RunRace(reg, r, moves) == RunRace(reg, one, moves[1..]);
    assert RunRace(reg, one, moves[1..]) == RunRace(reg, two, moves[2..]) by { assert moves[1..][1..] == moves[2..]; }
    assert RunRace(reg, two, moves[2..]) == RunRace(reg, three, moves[3..]) by { assert moves[2..][1..] == moves[3..]; }
    assert RunRace(reg, three, moves[3..]) == MoveOne(reg, three, moves[3]) by { assert moves[3..][1..] == []; }
  }

  /** From an open intent: under every interleaving and failure its dispatches leave at most one terminal receipt,
      exactly when at most one of them is in flight. Two can be denied one after the other, and the intent then resolves
      no more. */
  lemma OneTerminalExactlyWhenOneDispatch(reg: Registry, r: Race, d: Id)
    requires AtTheStart(r) && Open(r.world.log, d)
    ensures (forall moves :: OneTerminalAtMost(RunRace(reg, r, moves).world.log, d)) <==> OneDispatch(r, d)
  {
    hide RunRace, Open, OneTerminalAtMost;
    if OneDispatch(r, d) {
      forall moves
        ensures OneTerminalAtMost(RunRace(reg, r, moves).world.log, d)
      {
        OneDispatchTellsTheTruth(reg, r, moves, d);
      }
    } else {
      var i, j :| 0 <= i < j < |r.dispatchers|
        && r.dispatchers[i].plan.token.intent == d && r.dispatchers[j].plan.token.intent == d;
      BothLeaveATerminal(reg, r, i, j, d);
    }
  }
}
