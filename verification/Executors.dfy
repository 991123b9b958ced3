/** The executor's collaborators and its two entry points as mutable objects, proved to do what module
    Execution says. */
module Executors {
  import opened Basics
  import opened Execution

  /** A receipt sink over an append-only log. It may raise without appending, or after. */
  class ReceiptSink {
    var log: seq<Receipt>

    constructor (log: seq<Receipt>)
      ensures this.log == log
    {
      this.log := log;
    }

    /** `_persist`: whether the sink returned. */
    method Persist(r: Receipt, mode: SinkMode) returns (stored: bool)
      modifies this
      ensures stored <==> mode == Stores
      ensures log == if mode == FailsBefore then old(log) else old(log) + [r]
    {
      if mode == FailsBefore {
        return false;
      }
      log := log + [r];
      return mode == Stores;
    }
  }

  class ReplayLedger {
    var consumed: set<Id>

    constructor (consumed: set<Id>)
      ensures this.consumed == consumed
    {
      this.consumed := consumed;
    }

    /** Atomic consume; a failure may come before or after the token is written. */
    method Consume(token: Id, mode: LedgerMode) returns (r: Consumption)
      modifies this
      ensures r == ConsumeRaised <==> mode != Answers
      ensures r == Already <==> mode == Answers && token in old(consumed)
      ensures consumed == if r == Taken || mode == RaisesAfter then old(consumed) + {token} else old(consumed)
    {
      if mode == RaisesBefore {
        return ConsumeRaised;
      }
      if mode == Answers && token in consumed {
        return Already;
      }
      consumed := consumed + {token};
      r := if mode == Answers then Taken else ConsumeRaised;
    }
  }

  lemma TakeNothing(owners: map<Id, Id>, owner: Id)
    ensures Take(owners, owner, {}) == owners
  {
  }

  lemma TakeOneMore(owners: map<Id, Id>, owner: Id, taken: set<Id>, r: Id)
    ensures Take(owners, owner, taken + {r}) == Take(owners, owner, taken)[r := owner]
  {
  }

  lemma DropOneMore(owners: map<Id, Id>, owner: Id, dropped: set<Id>, r: Id)
    ensures var sofar := Drop(owners, owner, dropped);
            Drop(owners, owner, dropped + {r}) == if r in sofar && sofar[r] == owner then sofar - {r} else sofar
  {
  }

  class ResourceCoordinator {
    var owners: map<Id, Id>
    var leases: map<Id, set<Id>>

    constructor ()
      ensures owners == map[] && leases == map[]
    {
      owners, leases := map[], map[];
    }

    method Claim(owner: Id, wanted: set<Id>)
      modifies this`owners
      ensures owners == Take(old(owners), owner, wanted)
    {
      hide Take;
      var rest := wanted;
      TakeNothing(owners, owner);
      assert wanted - rest == {};
      while rest != {}
        invariant rest <= wanted
        invariant owners == Take(old(owners), owner, wanted - rest)
        decreases |rest|
      {
        var r :| r in rest;
        TakeOneMore(old(owners), owner, wanted - rest, r);
        assert wanted - (rest - {r}) == wanted - rest + {r};
        owners := owners[r := owner];
        rest := rest - {r};
      }
      assert wanted - rest == wanted;
    }

    /** All of the set or none of it. */
    method Acquire(owner: Id, wanted: set<Id>) returns (grant: Grant)
      modifies this
      ensures grant == if wanted == {} then Granted else GrantOf(old(owners), old(leases), owner, wanted)
      ensures var taken := wanted != {} && grant == Granted && owner !in old(leases);
              && owners == (if taken then Take(old(owners), owner, wanted) else old(owners))
              && leases == (if taken then old(leases)[owner := wanted] else old(leases))
    {
      hide Take;
      if wanted == {} {
        return Granted;
      }
      if owner in leases {
        return if leases[owner] == wanted then Granted else Mismatched;
      }
      if exists r :: r in wanted && r in owners && owners[r] != owner {
        return Conflicting;
      }
      Claim(owner, wanted);
      leases := leases[owner := wanted];
      return Granted;
    }

    method Release(owner: Id) returns (released: bool)
      modifies this
      ensures released <==> owner in old(leases)
      ensures owners == if released then Drop(old(owners), owner, old(leases)[owner]) else old(owners)
      ensures leases == if released then old(leases) - {owner} else old(leases)
    {
      if owner !in leases {
        return false;
      }
      var held := leases[owner];
      leases := leases - {owner};
      var rest := held;
      assert owners == Drop(owners, owner, held - rest);
      while rest != {}
        invariant rest <= held && leases == old(leases) - {owner}
        invariant owners == Drop(old(owners), owner, held - rest)
        decreases |rest|
      {
        var r :| r in rest;
        DropOneMore(old(owners), owner, held - rest, r);
        assert held - (rest - {r}) == held - rest + {r};
        if r in owners && owners[r] == owner {
          owners := owners - {r};
        }
        rest := rest - {r};
      }
      assert held - rest == held;
      return true;
    }
  }

  class ExecutorRegistry {
    var executors: Registry

    constructor ()
      ensures executors == map[]
    {
      executors := map[];
    }

    /** A name is registered once; a second registration raises and changes nothing. */
    method Register(spec: Executor) returns (accepted: bool)
      modifies this
      ensures accepted <==> spec.name !in old(executors) && (spec.targets != {} || spec.anyTarget)
      ensures executors == if accepted then old(executors)[spec.name := spec] else old(executors)
    {
      if spec.targets == {} && !spec.anyTarget {
        return false;
      }
      if spec.name in executors {
        return false;
      }
      executors := executors[spec.name := spec];
      return true;
    }
  }

  class ExecutionGate {
    const registry: ExecutorRegistry
    const sink: ReceiptSink
    const ledger: ReplayLedger
    const resources: ResourceCoordinator
    ghost var acts: seq<Act>

    constructor (registry: ExecutorRegistry, sink: ReceiptSink, ledger: ReplayLedger, resources: ResourceCoordinator)
      ensures this.registry == registry && this.sink == sink && this.ledger == ledger && this.resources == resources
      ensures acts == []
    {
      this.registry, this.sink, this.ledger, this.resources := registry, sink, ledger, resources;
      acts := [];
    }

    ghost function Abs(): World
      reads this, sink, ledger, resources
    {
      World(sink.log, ledger.consumed, resources.owners, resources.leases, acts)
    }

    method Deny(q: Request, state: ExecState, mode: SinkMode) returns (r: Option<ExecResult>)
      modifies sink
      ensures (Abs(), r) == (Persist(old(Abs()), mode, Receipt(ExecutionDenied, q.token.intent)).0,
                             Early(state, mode == Stores))
    {
      var stored := sink.Persist(Receipt(ExecutionDenied, q.token.intent), mode);
      return Some(ExecResult(false, state, false, stored));
    }

    /** None means that an exception left the call. */
    method Execute(q: Request, answers: Answers) returns (r: Option<ExecResult>)
      modifies this, sink, ledger
      ensures (r, Abs()) == ExecuteAuthorized(registry.executors, q, old(Abs()), answers)
    {
      hide Verifies, BindingError;
      ghost var reg := registry.executors;
      if answers(Rank(AtReplayCheck(false))).ledger != Answers {
        DriveEnds(reg, Call(q, AtReplayCheck(false)), Abs(), answers);
        return None;
      }
      if q.token.tokenId in ledger.consumed {
        DriveEnds(reg, Call(q, AtDeny(false, TokenReplay)), Abs(), answers);
        r := Deny(q, TokenReplay, answers(Rank(AtDeny(false, TokenReplay))).sink);
        return;
      }
      assert ExecuteAuthorized(reg, q, Abs(), answers) == Drive(reg, Call(q, AtTokenCheck(false)), Abs(), answers);
      if !Verifies(q.token, q.now) {
        DriveEnds(reg, Call(q, AtDeny(false, InvalidToken)), Abs(), answers);
        r := Deny(q, InvalidToken, answers(Rank(AtDeny(false, InvalidToken))).sink);
        return;
      }
      assert ExecuteAuthorized(reg, q, Abs(), answers) == Drive(reg, Call(q, AtBindingChecks(false)), Abs(), answers);
      var error := BindingError(registry.executors, q);
      if error.Some? {
        DriveEnds(reg, Call(q, AtDeny(false, error.value)), Abs(), answers);
        r := Deny(q, error.value, answers(Rank(AtDeny(false, error.value))).sink);
        return;
      }
      assert ExecuteAuthorized(reg, q, Abs(), answers) == Drive(reg, Call(q, AtSafety(false)), Abs(), answers);
      r := PastChecks(q, answers);
    }

    /** From the safety gate on. */
    method PastChecks(q: Request, answers: Answers) returns (r: Option<ExecResult>)
      modifies this, sink, ledger
      ensures (r, Abs()) == Drive(registry.executors, Call(q, AtSafety(false)), old(Abs()), answers)
    {
      var safety := answers(Rank(AtSafety(false))).safety;
      if safety == SafetyRaises {
        DriveEnds(registry.executors, Call(q, AtSafety(false)), Abs(), answers);
        return None;
      }
      if safety == Unsafe {
        DriveEnds(registry.executors, Call(q, AtDeny(false, SafetyDenied)), Abs(), answers);
        r := Deny(q, SafetyDenied, answers(Rank(AtDeny(false, SafetyDenied))).sink);
        return;
      }
      r := PastSafety(q, answers);
    }

    /** From the start receipt on: receipt, consumption, handler, final receipt. */
    method PastSafety(q: Request, answers: Answers) returns (r: Option<ExecResult>)
      modifies this, sink, ledger
      ensures (r, Abs()) == Drive(registry.executors, Call(q, AtStart(false)), old(Abs()), answers)
    {
      var started := sink.Persist(Receipt(ExecutionStarted, q.token.intent), answers(Rank(AtStart(false))).sink);
      if !started {
        return Some(ExecResult(false, StartUnpersisted, false, false));
      }
      acts := acts + [Started(q.id, q.token.tokenId)];
      assert Drive(registry.executors, Call(q, AtStart(false)), old(Abs()), answers)
          == Drive(registry.executors, Call(q, AtConsume(false)), Abs(), answers);
      r := PastStart(q, answers);
    }

    method PastStart(q: Request, answers: Answers) returns (r: Option<ExecResult>)
      modifies this, sink, ledger
      ensures (r, Abs()) == Drive(registry.executors, Call(q, AtConsume(false)), old(Abs()), answers)
    {
      ghost var before := Abs();
      var consumption := ledger.Consume(q.token.tokenId, answers(Rank(AtConsume(false))).ledger);
      if consumption != Taken {
        var state := if consumption == Already then TokenReplay else ReplayLedgerFailed;
        assert Drive(registry.executors, Call(q, AtConsume(false)), before, answers)
            == Drive(registry.executors, Call(q, AtLateDeny(false, state)), Abs(), answers);
        DriveEnds(registry.executors, Call(q, AtLateDeny(false, state)), Abs(), answers);
        var persisted := sink.Persist(Receipt(ExecutionDenied, q.token.intent),
                                      answers(Rank(AtLateDeny(false, state))).sink);
        return Some(ExecResult(false, state, true, persisted));
      }
      acts := acts + [Consumed(q.id, q.token.tokenId)];
      assert Drive(registry.executors, Call(q, AtConsume(false)), before, answers)
          == Drive(registry.executors, Call(q, AtHandler(false)), Abs(), answers);
      r := RunHandler(q, answers);
    }

    method RunHandler(q: Request, answers: Answers) returns (r: Option<ExecResult>)
      modifies this, sink
      ensures (r, Abs()) == Drive(registry.executors, Call(q, AtHandler(false)), old(Abs()), answers)
    {
      ghost var before := Abs();
      acts := acts + [Ran(q.id, q.token.tokenId, q.token.intent)];
      var answer := answers(Rank(AtHandler(false))).handler;
      var kind, executed, state :=
        if answer == ReportsCompletion then ExecutionCompleted else ExecutionFailed,
        answer == ReportsCompletion,
        if answer == HandlerRaises then ExecutorFailed else if answer == ReportsOther then CompletionMismatch
            else Completed;
      var result := ExecResult(executed, state, true, false);
      assert Drive(registry.executors, Call(q, AtHandler(false)), before, answers)
          == Drive(registry.executors, Call(q, AtFinal(false, kind, result)), Abs(), answers);
      DriveEnds(registry.executors, Call(q, AtFinal(false, kind, result)), Abs(), answers);
      var persisted := sink.Persist(Receipt(kind, q.token.intent), answers(Rank(AtFinal(false, kind, result))).sink);
      var final := if executed && !persisted then CompletedUnreceipted else state;
      return Some(ExecResult(executed, final, true, persisted));
    }

    /** Acquire declared resources, execute, release on every exit path. */
    method ExecuteHolding(q: Request, answers: Answers) returns (r: Option<ExecResult>)
      modifies this, sink, ledger, resources
      ensures (r, Abs()) == ExecuteCoordinated(registry.executors, q, old(Abs()), answers)
    {
      ghost var reg, before := registry.executors, Abs();
      if answers(Rank(AtPreflight)).ledger != Answers {
        DriveEnds(reg, Call(q, AtPreflight), before, answers);
        return None;
      }
      var preflight := Preflight(registry.executors, q, ledger.consumed);
      if preflight.Some? || registry.executors[q.executor].resources == {} {
        assert ExecuteCoordinated(reg, q, before, answers) == ExecuteAuthorized(reg, q, before, answers);
        r := Execute(q, answers);
        return;
      }
      assert ExecuteCoordinated(reg, q, before, answers) == Drive(reg, Call(q, AtAcquire), before, answers);
      var grant := resources.Acquire(q.token.tokenId, registry.executors[q.executor].resources);
      if grant != Granted {
        var state := if grant == Conflicting then ResourceConflict else OwnerLeaseMismatch;
        assert Drive(reg, Call(q, AtAcquire), before, answers)
            == Drive(reg, Call(q, AtResourceDenied(state)), Abs(), answers);
        DriveEnds(reg, Call(q, AtResourceDenied(state)), Abs(), answers);
        var persisted := sink.Persist(Receipt(ResourceDenied, q.token.intent),
                                      answers(Rank(AtResourceDenied(state))).sink);
        return Some(ExecResult(false, state, false, persisted));
      }
      assert Drive(reg, Call(q, AtAcquire), before, answers) == Drive(reg, Call(q, AtAcquiredReceipt), Abs(), answers);
      r := PastAcquisition(q, answers);
    }

    method PastAcquisition(q: Request, answers: Answers) returns (r: Option<ExecResult>)
      modifies this, sink, ledger, resources
      ensures (r, Abs()) == Drive(registry.executors, Call(q, AtAcquiredReceipt), old(Abs()), answers)
    {
      ghost var reg, before := registry.executors, Abs();
      var stored := sink.Persist(Receipt(ResourceAcquired, q.token.intent), answers(Rank(AtAcquiredReceipt)).sink);
      if !stored {
        assert Drive(reg, Call(q, AtAcquiredReceipt), before, answers)
            == Drive(reg, Call(q, AtQuietRelease), Abs(), answers);
        DriveEnds(reg, Call(q, AtQuietRelease), Abs(), answers);
        var _ := resources.Release(q.token.tokenId);
        return Some(ExecResult(false, ResourceReceiptUnpersisted, false, false));
      }
      assert Drive(reg, Call(q, AtAcquiredReceipt), before, answers)
          == Drive(reg, Call(q, AtReplayCheck(true)), Abs(), answers);
      HeldIsUnheldThenReleased(reg, Call(q, AtReplayCheck(true)), Abs(), answers);
      r := Execute(q, answers);
      assert Drive(reg, Call(q, AtAcquiredReceipt), before, answers)
          == Drive(reg, Call(q, AtRelease(r)), Abs(), answers);
      r := Cleanup(q, r, answers);
    }

    /** The `finally` lane. */
    method Cleanup(q: Request, result: Option<ExecResult>, answers: Answers) returns (r: Option<ExecResult>)
      modifies sink, resources
      ensures (r, Abs()) == Drive(registry.executors, Call(q, AtRelease(result)), old(Abs()), answers)
    {
      ghost var before := Abs();
      var released := resources.Release(q.token.tokenId);
      assert Drive(registry.executors, Call(q, AtRelease(result)), before, answers)
          == Drive(registry.executors, Call(q, AtReleasedReceipt(result, released)), Abs(), answers);
      DriveEnds(registry.executors, Call(q, AtReleasedReceipt(result, released)), Abs(), answers);
      var persisted := sink.Persist(Receipt(if released then ResourceReleased else ResourceReleaseFailed,
                                            q.token.intent),
                                    answers(Rank(AtReleasedReceipt(result, released))).sink);
      r := result;
      if result.Some? && (!released || !persisted) {
        r := Some(result.value.(state := if !released then ReleaseFailed else ReleaseUnreceipted));
      }
    }
  }
}
