/** The pipeline and the ingress handler as objects over the execution gate, proved to do what module
    DispatchSpec says. */
module Dispatch {
  import opened Basics
  import opened Execution
  import opened Executors
  import opened DispatchSpec

  class RuntimePipeline {
    const gate: ExecutionGate

    constructor (gate: ExecutionGate)
      ensures this.gate == gate
    {
      this.gate := gate;
    }

    /** Court, then coordinated execution; false means that an exception left the call. */
    method Submit(d: Id, s: Surroundings) returns (returned: bool)
      modifies gate, gate.sink, gate.ledger, gate.resources
      ensures (gate.Abs(), returned) == DispatchSpec.Submit(gate.registry.executors, old(gate.Abs()), d, s)
    {
      hide Drive, ExecuteCoordinated;
      match s.court
      case CourtRaises =>
        return false;
      case CourtDenies =>
        var _ := gate.sink.Persist(Receipt(CourtDenied, d), s.courtSink);
        return true;
      case CourtAllows(_) =>
        var stored := gate.sink.Persist(Receipt(CourtAuthorized, d), s.courtSink);
        if !stored {
          return true;
        }
        var outcome := gate.ExecuteHolding(RequestOf(d, s), s.answers);
        return outcome.Some?;
    }
  }

  class AudioIngressRuntimeHandler {
    const pipeline: RuntimePipeline

    constructor (pipeline: RuntimePipeline)
      ensures this.pipeline == pipeline
    {
      this.pipeline := pipeline;
    }

    method Dispatch(d: Id, s: Surroundings) returns (reply: Reply)
      modifies pipeline.gate, pipeline.gate.sink, pipeline.gate.ledger, pipeline.gate.resources
      ensures (pipeline.gate.Abs(), reply) == DispatchSpec.Dispatch(pipeline.gate.registry.executors,
                                                                    old(pipeline.gate.Abs()), d, s)
    {
      hide DispatchSpec.Submit, Resolve;
      if !s.readableBefore {
        return RaisedElsewhere;
      }
      var existing := ResolveIntent(pipeline.gate.sink.log, d);
      if existing.TerminalReceipt? {
        return ReceiptId(existing.receipt);
      }
      if existing.Uncertain? {
        return ExecutionUncertain;
      }
      if existing.Ambiguous? || !s.prepares {
        return RaisedElsewhere;
      }
      var returned := pipeline.Submit(d, s);
      if !returned || !s.readableAfter {
        return RaisedElsewhere;
      }
      var resolved := ResolveIntent(pipeline.gate.sink.log, d);
      if resolved.TerminalReceipt? {
        return ReceiptId(resolved.receipt);
      }
      return if resolved.Uncertain? then ExecutionUncertain else RaisedElsewhere;
    }
  }
}
