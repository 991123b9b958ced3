/** A race with one dispatch in it is that dispatch: the step machine of the races and the call of the ingress agree. */
module LoneDispatch {
  import opened Execution
  import opened DispatchSpec
  import opened DispatchRaces

  /** The moves of a call that meets these answers with nobody else about. */
  function MovesFrom(reg: Registry, c: Call, w: World, answers: Answers): seq<Move>
    decreases Rank(c.pc)
  {
    if c.pc.Finished? then []
    else
      var choice := answers(Rank(c.pc));
      StepsFinish(reg, c, w, choice);
      var (next, after) := Step(reg, c, w, choice);
      [Move(0, true, choice)] + MovesFrom(reg, next, after, answers)
  }

  function Alone(plan: Request, stage: Stage, w: World): Race {
    Race([Dispatcher(plan, stage)], w)
  }

  lemma {:induction false} CallAloneIsDriven(reg: Registry, plan: Request, c: Call, w: World, answers: Answers)
    ensures var (outcome, after) := Drive(reg, c, w, answers);
            RunRace(reg, Alone(plan, Executing(c), w), MovesFrom(reg, c, w, answers))
            == Alone(plan, Executing(At(c, Finished(outcome))), after)
    decreases Rank(c.pc)
  {
    hide Step;
    if !c.pc.Finished? {
      var choice := answers(Rank(c.pc));
      StepsFinish(reg, c, w, choice);
      StepKeepsRequest(reg, c, w, choice);
      var (next, after) := Step(reg, c, w, choice);
      var moves := MovesFrom(reg, next, after, answers);
      CallAloneIsDriven(reg, plan, next, after, answers);
      assert ([Move(0, true, choice)] + moves)[1..] == moves;
      assert MoveOne(reg, Alone(plan, Executing(c), w), Move(0, true, choice)) == Alone(plan, Executing(next), after);
    }
  }

  /** What the Court and the surroundings answer a dispatch, as moves of a race. */
  function MovesOf(reg: Registry, w: World, plan: Request, s: Surroundings): seq<Move> {
    var ask := s.answers(0).(sink := s.courtSink);
    [Move(0, true, s.answers(0))]
    + match s.court
      case CourtRaises => []
      case CourtDenies => [Move(0, false, ask)]
      case CourtAllows(_) =>
        [Move(0, true, ask)]
        + if s.courtSink == Stores then
            MovesFrom(reg, NewCall(plan), Persist(w, Stores, Receipt(CourtAuthorized, plan.token.intent)).0, s.answers)
          else []
  }

  lemma TwoMovesFirst(reg: Registry, r: Race, a: Move, b: Move, rest: seq<Move>)
    ensures RunRace(reg, r, [a] + ([b] + rest)) == RunRace(reg, MoveOne(reg, MoveOne(reg, r, a), b), rest)
    ensures RunRace(reg, r, [a] + []) == MoveOne(reg, r, a)
  {
    hide MoveOne;
    assert ([a] + ([b] + rest))[1..] == [b] + rest && ([b] + rest)[1..] == rest;
    assert ([a] + [])[1..] == [];
    assert RunRace(reg, r, [a] + ([b] + rest)) == RunRace(reg, MoveOne(reg, r, a), [b] + rest);
  }

  /** A dispatch that reads the log and prepares its intent leaves what the race of it alone leaves. */
  lemma LoneRaceIsTheDispatch(reg: Registry, w: World, plan: Request, s: Surroundings)
    requires s.readableBefore && s.prepares
    requires s.court.CourtAllows? ==> plan == RequestOf(plan.token.intent, s)
    ensures RunRace(reg, Alone(plan, Looking, w), MovesOf(reg, w, plan, s)).world
         == Dispatch(reg, w, plan.token.intent, s).0
  {
    hide Step, Drive, Resolve, MovesFrom, MoveOne, ExecuteCoordinated;
    var d := plan.token.intent;
    var look, ask := Move(0, true, s.answers(0)), s.answers(0).(sink := s.courtSink);
    var start := Alone(plan, Looking, w);
    if Resolve(w.log, d).Unseen? || Resolve(w.log, d).AuthorizedOnly? {
      LookingFindsItOpen(reg, w, plan, look);
      AskingIsAnswered(reg, w, plan, Move(0, s.court.CourtAllows?, ask));
      var next := Persist(w, Stores, Receipt(CourtAuthorized, d)).0;
      var rest := if s.court.CourtAllows? && s.courtSink == Stores then MovesFrom(reg, NewCall(plan), next, s.answers)
                  else [];
      TwoMovesFirst(reg, start, look, Move(0, s.court.CourtAllows?, ask), rest);
      assert [Move(0, false, ask)] == [Move(0, false, ask)] + [];
      if s.court.CourtAllows? && s.courtSink == Stores {
        CallAloneIsDriven(reg, plan, NewCall(plan), next, s.answers);
        DrivenIsExecuted(reg, plan, next, s.answers);
      }
    } else {
      LookingFindsItSettled(reg, w, plan, look);
      EndedStaysEnded(reg, Alone(plan, Ended, w), MovesOf(reg, w, plan, s)[1..]);
      assert RunRace(reg, start, MovesOf(reg, w, plan, s))
          == RunRace(reg, MoveOne(reg, start, look), MovesOf(reg, w, plan, s)[1..]);
    }
  }

  lemma DrivenIsExecuted(reg: Registry, q: Request, w: World, answers: Answers)
    ensures Drive(reg, NewCall(q), w, answers) == ExecuteCoordinated(reg, q, w, answers)
  {
  }

  lemma LookingFindsItOpen(reg: Registry, w: World, plan: Request, look: Move)
    requires Resolve(w.log, plan.token.intent).Unseen? || Resolve(w.log, plan.token.intent).AuthorizedOnly?
    requires look.who == 0
    ensures MoveOne(reg, Alone(plan, Looking, w), look) == Alone(plan, Asking, w)
  {
  }

  lemma LookingFindsItSettled(reg: Registry, w: World, plan: Request, look: Move)
    requires !Resolve(w.log, plan.token.intent).Unseen? && !Resolve(w.log, plan.token.intent).AuthorizedOnly?
    requires look.who == 0
    ensures MoveOne(reg, Alone(plan, Looking, w), look) == Alone(plan, Ended, w)
  {
  }

  lemma AskingIsAnswered(reg: Registry, w: World, plan: Request, ask: Move)
    requires ask.who == 0
    ensures var kind := if ask.allows then CourtAuthorized else CourtDenied;
            var (next, stored) := Persist(w, ask.choice.sink, Receipt(kind, plan.token.intent));
            MoveOne(reg, Alone(plan, Asking, w), ask)
            == Alone(plan, if ask.allows && stored then Executing(NewCall(plan)) else Ended, next)
  {
  }

  lemma {:induction false} EndedStaysEnded(reg: Registry, r: Race, moves: seq<Move>)
    requires forall i :: 0 <= i < |r.dispatchers| ==> r.dispatchers[i].stage == Ended
    ensures RunRace(reg, r, moves).world == r.world
    decreases |moves|
  {
    if moves != [] {
      EndedStaysEnded(reg, MoveOne(reg, r, moves[0]), moves[1..]);
    }
  }
}
