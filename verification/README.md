# Velvet Runtime, verified

A Dafny 4.11 model of the parts of Velvet Runtime whose correctness spans several calls, with machine-checked proofs.
`dafny verify dfyconfig.toml` checks all of it.

| subject | modules |
|---|---|
| placing and leasing distributed work on verified nodes | `Placement`, `BoardSpec`, `Choice`, `BoardLaws`, `BoardRuns`, `BoardOutcomes`, `Eligibility`, `FailedNodes`, `Coordinator` |
| keeping work on nodes that meet its resource needs | `Resources`, `ResourceAware` |
| the service over it: proposals, acceptance, completion, recovery, lifecycle journal | `ServiceSpec`, `ServiceLaws`, `ServiceRuns`, `Recoveries`, `RestartIndex`, `Completions`, `OpenWork`, `Chronicle`, `Service` |
| at-most-once authorised execution with exclusive resources | `Execution`, `Interleaving`, `Entitlement`, `Executors` |
| dispatching an ingress intent over the receipt log | `DispatchSpec`, `Evidence`, `DispatchRaces`, `RaceReceipts`, `LoneDispatch`, `Dispatch` |
| the RPC server's replay cache and the client's retries | `ReplayCache`, `RpcTransport` |
| the body-state snapshot shared by several producers | `BodyStateSpec`, `BodyStateRuns`, `BodyState` |
| following the health journal | `FollowerSpec`, `Follower` |
| the dimensions of a JPEG frame | `Jpeg` |

`Basics` holds options, outcomes and sorted enumerations.

Where the source changes objects step by step, the model has a class with the same fields and methods. Each method is
proved equal to a function on the whole state (`ensures (Abs(), r) == Place(old(Abs()), ...)`), and the theorems are
about those functions and about runs of calls. `Eligibility`, `FailedNodes`, `Entitlement`, `Evidence` and `Chronicle`
say what the calls come to on the fields of their arguments and tables. Exceptions are outcomes that keep the state
mutated so far visible. Clocks, the Court, safety gates, handlers, verification providers, the Queen sink and every sink
or ledger failure are parameters that answer arbitrarily; a receipt sink may also fail after it has appended.

Things the proofs brought out that a reader of the code may not expect:

- `place` hands an unexpired lease back and ignores exclusions, while the resource-aware wrapper has already replaced the
  work's resource needs. With a positive lease time, the holder that comes back has passed its resource check, whatever
  is observed, exactly when there was no such lease (`Resources.AssuredExactlyWhenNoLiveLease`).
- A lease time that is not positive is noticed by `refuse_and_reassign` and recovery only when a node offers to take the
  work over: they then raise after the old lease is gone, and return without an exception when nobody offers
  (`BoardOutcomes.RefuseRaisesExactlyWhen`, `BoardOutcomes.RecoverRaisesExactlyWhen`). `place` raises at once.
- Service recovery can raise after the coordinator has reassigned, because a degraded decision names only the failed node.
  Accepted work behind that decision then stays accepted under a node that never accepted it
  (`Recoveries.RecoverReturnsExactlyWhen`, `Recoveries.AcceptanceIsInherited`).
- Two concurrent executions with one token and one resource set are both granted it; only one of them consumes the token
  (`Interleaving.ExclusiveExactlyWhenNoneShare`, `Interleaving.EachTokenRunsAtMostOnce`).
- Two overlapping dispatches of one intent that read different seconds obtain different tokens and can both run its
  handler, with or without exclusive resources (`DispatchRaces.RunsOnceExactlyWhenOneToken`). Even with one token two of
  them can leave two terminal receipts, after which the intent resolves no more
  (`RaceReceipts.OneTerminalExactlyWhenOneDispatch`).
- A completion that is pending when its node refuses or fails the work blocks it: the next holder's result always differs
  from the pending one, and the first node can never hold the work again. Work whose lease expired is likewise never
  placed again while its proposal is open (`OpenWork.EveryPendingCompletionIsSettled`, `OpenWork.LostWorkStaysLost`).
- The restart index forgets a lease in exactly three ways; failures while submitting or accepting are not among them
  (`RestartIndex.IndexSurvivesExactlyWhen`).
- A batch that raises loses its prefix under the locked bridge and keeps it under a long-lived one; the journal has it in
  both cases (`BodyStateRuns.RaisingBatchIsNotTheFold`).
- A record whose family is `sensor` with surrounding blanks validates as a sensor record and is filed with the health
  records, where it competes with the module's health record. Records are therefore kept per shelf and module
  (`BodyStateSpec.FamiliesCompeteExactlyWhen`).
- A journal replaced by one at least as long as the offset is read on from the old offset, so its health records before
  it are never published, and the tail of an over-long line is parsed as a line
  (`FollowerSpec.ReplacementIsHandedOutWholeExactlyWhen`, `FollowerSpec.OverlongLineLeavesItsTail`).

## Model

| member | source | states |
|---|---|---|
| Placement.ScoreBounds | services/distributed_work_coordinator.py:637-683 | no advertisement can score outside -0.12 to 1.00 before clamping, and the rounded score is always one the candidate record admits |
| Placement.ScoreBoundsAreTight | services/distributed_work_coordinator.py:637-683 | both ends of that range are reached by nodes that pass every exclusion check and are scored in the modes their coverage gives them, so no narrower bound holds |
| Placement.ScoreBoundsAreReached | services/distributed_work_coordinator.py:637-683 | one requirement with one such node at either end |
| Placement.BetterNodeNeverScoresLower | services/distributed_work_coordinator.py:637-683 | in one mode and availability, a node at least as healthy, as free and as preferred never scores lower, also after rounding half to even |
| Placement.RankSorts | services/distributed_work_coordinator.py:513-514 | ranking loses and invents no candidate and puts nothing behind one it should precede |
| Placement.RoundingIsToTheNearest | services/distributed_work_coordinator.py:681 | a score is rounded to the nearest ten-thousandth, and of two equally near ones to the even one |
| Placement.ScoreIsTheNearest | services/distributed_work_coordinator.py:649-681 | the score of a candidate is the ten-thousandth nearest to its exact score, and zero when that is negative |
| Placement.WhatTheScoreWeighs | services/distributed_work_coordinator.py:649-672 | a change of health counts 0.35 of itself, full availability counts 0.05 more than any other, and a fallback mode costs its stated penalty, all else being equal |
| Placement.WhatAPreferredCapabilityAdds | services/distributed_work_coordinator.py:643-652 | each preferred capability a node gains adds an equal part of 0.15 |
| Placement.WithoutPreferences | services/distributed_work_coordinator.py:644-648 | work without preferences is scored as if all of them were met |
| Placement.WhatCapacityAdds | services/distributed_work_coordinator.py:638-651 | capacity adds 0.35 of the smaller of the free load, rounded, and the free share of the tasks, and nothing on a full node |
| Eligibility.ExcludedForTheFirstFailure | services/distributed_work_coordinator.py:547-580 | a node is excluded for the first of the ten checks it fails, each written on the fields of node and work, and for none exactly when it fails none |
| Eligibility.CoverageMeans | services/distributed_work_coordinator.py:587-636 | in which of the six modes a node covers a work, what it matches and what it misses, read off the capabilities it has, lends by overflow and takes on by absorption |
| Eligibility.OffersExactlyWhen | services/distributed_work_coordinator.py:477-502 | a node offers exactly when it is registered, not excluded, verified, up, healthy, unloaded and willing enough, has room for one more task, and covers the work in some mode |
| Eligibility.SearchMeans | services/distributed_work_coordinator.py:465-545 | a search places nothing exactly when no node may carry the work; otherwise, with lease time, the one new lease names a node that may, its mode and what it covers, its times, degradation and Court flag |
| Eligibility.PlacementMeans | services/distributed_work_coordinator.py:295-330 | what a placement comes to from its arguments and tables: the error, the live lease, or the search without the excluded nodes and those that refused the work |
| Eligibility.RefusalMeans | services/distributed_work_coordinator.py:332-371 | what a refusal comes to: the error, the decision that the node is not the owner, or the search without the refuser and the earlier ones |
| Eligibility.PassedOverNodesAreNamed | services/distributed_work_coordinator.py:485-493 | the reasons of a decision name exactly the registered nodes left out: the excluded ones, and each other failing one with the first check it fails |
| Choice.UnplacedExactlyWhenNobodyOffers | services/distributed_work_coordinator.py:477-511 | work stays unplaced exactly when no registered, unexcluded node is able to carry it |
| Choice.ChosenBeatsEveryOffer | services/distributed_work_coordinator.py:504-545 | the lease goes to a node that offered, and its offer beats every other one: complete before partial before observing, then higher score, then lower id |
| Choice.OneOfferBeatsTheOther | services/distributed_work_coordinator.py:686-687 | two different offers never tie, so the winner is unique |
| Choice.AlternativesAreTheOtherOffers | services/distributed_work_coordinator.py:513-545 | the alternatives named beside a lease are exactly the other offers of the same class, each once, best first, never the chosen node |
| Choice.PlaceOnEffect | services/distributed_work_coordinator.py:465-545 | a placement adds one lease, for the stated time, on a registered node that is neither excluded nor full nor out of service; or it changes nothing |
| Coordinator.VerifiedNodeRegistry.Register | services/distributed_work_coordinator.py:123-141 | exactly the advertisements verified for this body enter the registry; the others leave it as it was |
| Coordinator.VerifiedNodeRegistry.SetAvailability | services/distributed_work_coordinator.py:151-163 | the availability of one registered node changes and nothing else |
| Coordinator.VerifiedNodeRegistry.Listing | services/distributed_work_coordinator.py:180-182 | every registered node once, in order of id |
| Coordinator.DistributedWorkCoordinator.Place | services/distributed_work_coordinator.py:295-330 | the whole new state and the decision, a live lease being handed back unchanged |
| Coordinator.DistributedWorkCoordinator.RefuseAndReassign | services/distributed_work_coordinator.py:332-371 | the whole new state and the decision; only the owner is heard |
| Coordinator.DistributedWorkCoordinator.Handoff | services/distributed_work_coordinator.py:373-388 | a handoff is a refusal by the node it is taken from |
| Coordinator.DistributedWorkCoordinator.Complete | services/distributed_work_coordinator.py:390-400 | lease, requirement and refusals go together, and only for the holder |
| Coordinator.DistributedWorkCoordinator.RecoverUnavailableNodes | services/distributed_work_coordinator.py:402-455 | the whole new state and the decisions, in order of work |
| Coordinator.DistributedWorkCoordinator.Sweep | services/distributed_work_coordinator.py:432-455 | the recovery loop takes the affected works one by one and stops where a lease cannot be built |
| Coordinator.DistributedWorkCoordinator.ExpireLeases | services/distributed_work_coordinator.py:703-710 | exactly the leases that have not expired remain |
| Coordinator.DistributedWorkCoordinator.ActiveCounts | services/distributed_work_coordinator.py:473-475 | the counting loop computes the number of leases of every node |
| Coordinator.DistributedWorkCoordinator.PlaceLocked | services/distributed_work_coordinator.py:465-545 | searching, ranking and leasing in place is the placement the choice theorems speak of |
| Coordinator.DistributedWorkCoordinator.Search | services/distributed_work_coordinator.py:477-502 | the search loop sorts every node into the class it offers in, or names why it is left out |
| BoardLaws.StepKeepsConsistency | services/distributed_work_coordinator.py:295-455 | every registry and coordinator call keeps: each lease has a stored requirement, a later expiry, and a holder that has not refused the work |
| BoardLaws.EveryReachableBoardIsConsistent | services/distributed_work_coordinator.py:295-455 | so it holds in every state any run of calls reaches, whatever the arguments |
| BoardRuns.RefuserNeverHoldsAgain | services/distributed_work_coordinator.py:323-330 | a node that refused a work, or failed with it, never holds it again until it is completed, across expiry, re-placement and recovery |
| BoardRuns.UnregisteredNodeGetsNothingNew | services/distributed_work_coordinator.py:147-149 | a node that was removed gets no new lease from any run of calls until it registers again; it keeps or loses what it held |
| BoardRuns.RefusingIsRemembered | services/distributed_work_coordinator.py:358-365 | the refusal is on record even when the reassignment then raises |
| BoardOutcomes.RefuseRaisesExactlyWhen | services/distributed_work_coordinator.py:341-371 | a refusal raises exactly when it gives no reason, or its node holds the work, the lease time is not positive and somebody else offers to carry the work |
| BoardOutcomes.RaisingRefusalDropsTheLease | services/distributed_work_coordinator.py:358-365 | a refusal that raised for want of lease time has taken the lease away and kept the refusal, and changed nothing else |
| BoardOutcomes.RefusingWithoutLeaseTime | services/distributed_work_coordinator.py:504-531 | one board on which that happens, and one on which the same call returns because nobody else can carry the work |
| BoardOutcomes.RecoverRaisesExactlyWhen | services/distributed_work_coordinator.py:402-455 | a recovery raises exactly when the age bound is not positive, or the lease time is not and some stranded work has a successor among the nodes that are up |
| BoardOutcomes.RecoveringWithoutLeaseTime | services/distributed_work_coordinator.py:402-455 | one board on either side of that condition |
| BoardOutcomes.RecoveredExactlyWhenSomebodyOffers | services/distributed_work_coordinator.py:432-455 | in a recovery that returns, a work finds a new holder exactly when, at its turn, a node that has not refused it offers to carry it |
| BoardRuns.NoRunOverloadsANode | services/distributed_work_coordinator.py:563-569 | while advertisements keep their task fields, no run gives a node more leases and declared tasks than its limit |
| BoardRuns.RecoveryClearsFailedNodes | services/distributed_work_coordinator.py:402-455 | after recovery no stale, offline or quarantined node holds a lease, each unexpired lease it held got exactly one decision, all other unexpired leases are as they were, and positive times make it return |
| FailedNodes.RecoveryMeans | services/distributed_work_coordinator.py:402-455 | after a recovery that returns: every node silent for the age bound, offline or quarantined is offline and holds nothing; leases of other nodes are as they were; each work taken from such a node has one decision blaming that node, which has refused it, and a new lease only on a node within reach that meets every condition and has room |
| ResourceAware.NodeResourceRegistry.Register | services/body_capacity.py:208-224 | only proven observations of this body are kept, the newest one per node; a rejected one evicts what was held |
| ResourceAware.NodeResourceRegistry.Get | services/body_capacity.py:226-232 | an observation is returned only while its proof is current, and forgotten otherwise |
| ResourceAware.RequirementMet | services/body_capacity.py:569-588 | a requirement is met exactly when some online resource of its kind, scope and unit has the capabilities and enough available |
| ResourceAware.ResourceAwareWorkCoordinator.Place | services/body_capacity.py:440-463 | screening, placing, and the resource needs remembered for the work |
| ResourceAware.ResourceAwareWorkCoordinator.RefuseAndReassign | services/body_capacity.py:465-481 | a lease that comes back is on a node that passed the last resource check made |
| ResourceAware.ResourceAwareWorkCoordinator.Handoff | services/body_capacity.py:483-498 | the same for a handoff |
| ResourceAware.ResourceAwareWorkCoordinator.Revalidate | services/body_capacity.py:500-523 | None comes back exactly when the work has no lease or no needs, or its holder is registered and its advertisement is held, proved current now and provides every need; otherwise the holder is turned away for good and a lease that comes back is on a node that passed |
| ResourceAware.ResourceAwareWorkCoordinator.Complete | services/body_capacity.py:525-529 | the needs are forgotten exactly when the work is closed |
| ResourceAware.ResourceAwareWorkCoordinator.EnsureResourceEligible | services/body_capacity.py:531-556 | the bounded retry loop, with every check it made |
| Resources.RetriesNeverRunOut | services/body_capacity.py:531-556 | as many attempts as registered nodes always suffice: each retry turns a different registered node away, so a lease given back has passed |
| Resources.MeetsExactlyWhen | services/body_capacity.py:226-232 | a node passes a check exactly when its advertisement is held, is proved current by that check, and has for each need a resource of the right kind, scope and unit, on line, capable and with enough available; an unproved one is forgotten |
| Resources.LeaseStandsExactlyWhen | services/body_capacity.py:531-556 | the retry loop leaves a lease exactly when its work has no needs or its holder passes, and turns the holder away for good otherwise |
| Resources.LeaseStaysExactlyWhen | services/body_capacity.py:500-523 | what revalidation decides, moves and promises, on values |
| Resources.RetryUsesUpANode | services/body_capacity.py:549-555 | one retry leaves one fewer node that could be tried |
| Resources.ReassignedWorkMeetsItsNeeds | services/body_capacity.py:465-498 | for any eligibility oracle, from a refusal or a handoff, the bound as it is computed never cuts the search short |
| Resources.ScreeningIsExact | services/body_capacity.py:454-457 | exactly the nodes that failed their own check are screened out |
| Resources.HandsBackExactlyWhenLive | services/distributed_work_coordinator.py:304-322 | an existing lease is handed back exactly when the lease time is positive and the work holds an unexpired lease, and then it is that lease |
| Resources.FreshPlacementMeetsItsNeeds | services/body_capacity.py:440-463 | unless the work held an unexpired lease, a lease that comes back is on a node that was not excluded and passed a check made in the same call |
| Resources.LiveLeaseIsHandedBackUnchecked | services/body_capacity.py:440-463 | otherwise the lease comes back unchanged although its holder is excluded and fails its check in this very call |
| Resources.AssuredExactlyWhenNoLiveLease | services/body_capacity.py:440-463 | the holder that comes back is unexcluded and has passed, whatever clock and verification provider answer, exactly when the lease time is not positive or the work holds no unexpired lease |
| Service.RuntimeLifecycleJournal.constructor | services/distributed_work_daemon.py:262-278 | a new process reports exactly what the last one left listed as interrupted, and starts an empty list |
| Service.RuntimeLifecycleJournal.Record | services/distributed_work_daemon.py:280-313 | journal, index and receipt after an event, for a sink that may fail before, between or after its two writes |
| Service.DistributedWorkService.RegisterNode | services/distributed_work_service.py:237-252 | registration and its event, taken back when the event is not recorded |
| Service.DistributedWorkService.Submit | services/distributed_work_service.py:254-333 | placement, proposal and events, rolled back when an event is not recorded |
| Service.DistributedWorkService.Accept | services/distributed_work_service.py:335-362 | only the leaseholder of a known proposal accepts, and only with a receipt |
| Service.DistributedWorkService.Refuse | services/distributed_work_service.py:364-454 | refusal, handoff request, reassignment and the offer that follows |
| Service.DistributedWorkService.Complete | services/distributed_work_service.py:456-525 | report once, hand to the Queen, close |
| Service.DistributedWorkService.Recover | services/distributed_work_service.py:527-595 | the coordinator recovers, then each decision is reported until one cannot be |
| Service.DistributedWorkService.WorkOf | services/distributed_work_service.py:697-713 | a degraded decision is attributed to the one work its failed holder held, or to none |
| ServiceLaws.EveryReachableStateIsOwned | services/distributed_work_service.py:254-595 | in every run, with every pattern of sink failures, each lease, refusal, acceptance and pending completion belongs to an active proposal |
| ServiceLaws.FailedSubmitLeavesNothing | services/distributed_work_service.py:318-326 | a submit that raises because an event was not recorded leaves leases, refusals, proposals, acceptances and completions exactly as expiry reaping leaves them |
| Chronicle.ChronicledMeans | services/distributed_work_daemon.py:280-313 | of a list of events sent to the journal the first ones come back and are appended, indexed and receipted in order; of the first that does not come back the sink may have kept the record; later ones are not sent |
| Chronicle.SubmitTells | services/distributed_work_service.py:254-333 | the events of a submission: the offer with holder and lease, and after it WORK_DEGRADED if the placement is a fallback, or the loss alone; it returns, with their receipts and the offer as its answer, exactly when all came back |
| Chronicle.AcceptTells | services/distributed_work_service.py:335-362 | an acceptance by the holder tells WORK_ACCEPTED with the lease, and stands exactly when that came back |
| Chronicle.RefuseTells | services/distributed_work_service.py:364-454 | the events of a refusal: refusal and handoff request of the old lease, then the next offer or the loss; until the first two come back nothing moves |
| Chronicle.CompleteTells | services/distributed_work_service.py:456-485 | a completion tells WORK_COMPLETED of the lease, and nothing when one is pending |
| Chronicle.CompletionMeans | services/distributed_work_service.py:456-526 | what a completion by the accepting holder comes to: a pending result must be repeated, a new one recorded under one receipt, an important one taken by the Queen; then nothing of the work is left, and where it stops what was done before stays |
| Chronicle.NotOwnedBecause | services/distributed_work_service.py:614-629 | why a node may not act on a work: it is not proposed, else not leased, else leased to another node |
| Chronicle.RegisterTells | services/distributed_work_service.py:237-252 | a verified registration tells NODE_ADVERTISED and stands exactly when that came back; otherwise the node is not registered |
| Chronicle.RecoverTells | services/distributed_work_service.py:527-595 | a recovery tells its decisions in order, each as a reassignment with the new lease or as a loss, until one cannot be attributed or does not come back, and when it returns it answers for each of them |
| ServiceRuns.AcceptedWorkIsHeldByItsAcceptor | services/distributed_work_service.py:335-409 | accepted and leased work is always held by the node that accepted it, wherever the sinks fail, in every run whose recoveries return |
| ServiceRuns.OnlyTheAcceptorCompletes | services/distributed_work_service.py:456-463 | a completion that returns was made by the node that itself accepted last |
| RestartIndex.IndexSurvivesExactlyWhen | services/distributed_work_service.py:254-595 | a call of any kind keeps every lease listed in the index exactly when it does not lose one of three events: the offer after a refusal that found another node, the receipt of a listed completion, or the report of a work that recovery moved |
| RestartIndex.IndexHoldsThroughoutExactlyWhen | services/distributed_work_daemon.py:280-313 | in any run of calls with any sink failures, the index names holder and lease of every lease whose completion is not pending throughout exactly when no call of the run loses such an event |
| RestartIndex.RestartForgetsNoLease | services/distributed_work_daemon.py:262-278 | after such a run a restart reports every one of those leases as interrupted work, with its holder |
| RestartIndex.LosingAReceiptLosesTheLease | services/distributed_work_service.py:466-485 | a state in which one completion whose receipt does not come back leaves a lease a restart would not know of |
| Recoveries.RecoverReturnsExactlyWhen | services/distributed_work_service.py:527-595 | for any sinks a recovery returns exactly when its sweep can be made and, in order of work, every event is recorded and every work finds a successor at its turn or was the only lease of its failed holder |
| Recoveries.RecoverReturnsWhenFailedNodesHoldOneLease | services/distributed_work_service.py:543-548 | so, with positive times and recorded events, it returns whenever no failed node holds two leases |
| Recoveries.AcceptanceSurvivesExactlyWhen | services/distributed_work_service.py:542-550 | a recovery leaves accepted work with its acceptor exactly when its sweep cannot be made, or all decisions before every accepted work that finds a new holder can be attributed and are recorded |
| Recoveries.AcceptanceHoldsThroughoutExactlyWhen | services/distributed_work_service.py:254-595 | in any run of calls with any sink failures, accepted and leased work stays with its acceptor throughout exactly when every recovery in the run meets that condition |
| Recoveries.AcceptanceIsInherited | services/distributed_work_service.py:542-550 | what a recovery that gives up breaks: an accepted work behind an unattributable one stays accepted under a node that never accepted it, and that node can complete it |
| Recoveries.RecoveryCanLoseTheAcceptor | services/distributed_work_service.py:542-550 | a state in which this happens, whatever the sinks do |
| Completions.CompletionIsReportedOnce | services/distributed_work_service.py:466-485 | while a proposal is open, at most one WORK_COMPLETED emission succeeds whatever is called and whatever fails: one once it is pending or closed, none before |
| Completions.CompleteAdvances | services/distributed_work_service.py:456-525 | what one completion call, returning or raising, does to reports, pending results and Queen deliveries; a retry reuses the first receipt |
| Completions.ClosingNeverFails | services/distributed_work_service.py:507-511 | the error about a lease that could not be closed is unreachable |
| Completions.ImportantResultsReachTheQueen | services/distributed_work_service.py:487-506 | an important result closes its work only after the Queen sink returned, with the first receipt |
| Completions.OfferedWorkHasNothingPending | services/distributed_work_service.py:280-333 | an offered proposal starts with nothing pending, which is where the count starts |
| OpenWork.EveryPendingCompletionIsSettled | services/distributed_work_service.py:364-595 | in every run, whatever fails, a pending completion is with the node that reported it, or its work has no lease or is with another node and stays open for good |
| OpenWork.PendingWorkClosesExactlyWhen | services/distributed_work_service.py:466-511 | work with a pending completion is closed exactly by repeating that result while its node still holds and accepts the work and the Queen takes it if it is important |
| OpenWork.StuckWorkCannotBeCompleted | services/distributed_work_service.py:466-474 | once the node of a pending completion is on the refusal list of the work, every completion raises and changes nothing; an accepting holder is told the result differs |
| OpenWork.StuckWorkStaysStuck | services/distributed_work_service.py:364-595 | and no run of calls ends that: the first node never gets the work back |
| OpenWork.RefusingPendingWorkSticksIt | services/distributed_work_service.py:364-454 | a recorded refusal by that node is one way into it |
| OpenWork.RecoveringPendingWorkSticksIt | services/distributed_work_service.py:527-595 | being found unavailable while the lease lasts is the other |
| OpenWork.LostWorkStaysLost | services/distributed_work_service.py:266-280 | proposed work that lost its lease never gets one again from any run of calls, so it stays open too |
| Execution.PreflightIsExact | services/coordinated_executor.py:175-199 | preflight names a state exactly when the executor is denied with it before its safety gate, and otherwise the executor reaches that gate |
| Execution.HeldIsUnheldThenReleased | services/coordinated_executor.py:134-172 | executing inside an acquisition is executing directly followed by the cleanup lane, on every exit path, exceptions included |
| Entitlement.OnlyTheEntitledAct | services/approved_executor.py:92-178 | under every interleaving and failure, whatever starts, consumes a token or runs a handler is one of the calls made, with a genuine token within its time, an executor registered for its capability and target, and parameters it admits |
| Entitlement.PreflightNamesTheFirst | services/coordinated_executor.py:175-199 | preflight names the first thing a request lacks, each written on its own fields, and nothing exactly when it lacks none |
| Entitlement.DeniedForTheFirstLack | services/approved_executor.py:102-178 | a request that lacks something, on a ledger that answers, ends denied with the state of the first thing it lacks; a denial receipt is all it leaves |
| Entitlement.StoppedBySafety | services/approved_executor.py:92-256 | an unsafe moment ends in a denial, a raising safety check leaves the call; nothing runs |
| Entitlement.StoppedByTheStartReceipt | services/approved_executor.py:180-200 | without a stored start receipt nothing is consumed and nothing runs |
| Entitlement.StoppedByTheLedger | services/approved_executor.py:202-229 | a raising ledger ends a started execution in a denial, with the token consumed or not |
| Entitlement.RunsAndIsReported | services/approved_executor.py:180-330 | an entitled request on favourable ground starts, consumes its token and runs its handler once, and the result, its receipt and its flags follow from what the handler reported and whether the last receipt was stored |
| Entitlement.StoppedByResources | services/coordinated_executor.py:72-132 | a request for resources another owner has, or other than the token holds, is denied with the state that says which, before its token is looked at |
| Entitlement.StoppedByTheAcquisitionReceipt | services/coordinated_executor.py:72-132 | an acquisition that is not noted is given back and nothing runs |
| Entitlement.RunsInsideAnAcquisition | services/coordinated_executor.py:134-172 | with free resources the direct execution runs while they are held, both ownership tables end as they were, and an unnoted release is all that changes the answer |
| Entitlement.CleanupFindsNothing | services/coordinated_executor.py:134-172 | a cleanup with nothing to give back turns the result into a failed release and notes it; an exception stays an exception |
| Entitlement.ReleaseTakesNothingFromOthers | services/resource_coordinator.py:81-93 | a release by one owner leaves every other owner what it holds, also in tables that disagree |
| Entitlement.RaisesExactlyWhen | services/approved_executor.py:92-256 | an exception leaves a direct execution exactly when the ledger cannot be asked, or the request lacks nothing and its safety check raises |
| Interleaving.EachTokenRunsAtMostOnce | services/approved_executor.py:180-256 | under every interleaving and every failure each token reaches a handler at most once, after that call's own stored start and own consumption, and only calls whose handler ran report execution |
| Interleaving.ExecutionsExcludeEachOther | services/coordinated_executor.py:72-172 | calls with distinct tokens that are between acquisition and release hold disjoint resources, and a call that ended, even by a raising safety check, owns nothing |
| Interleaving.SharedTokenBreaksExclusion | services/resource_coordinator.py:56-60 | two calls with one token are both granted the same resources |
| Interleaving.ExclusiveExactlyWhenNoneShare | services/coordinated_executor.py:38-172 | started with nothing owned, calls exclude each other under every schedule and failure exactly when no two that pass preflight share their token and a non-empty resource set |
| Interleaving.StepOwnership | services/resource_coordinator.py:46-93 | one step of a call moves only its own resources, and the two ownership tables keep agreeing |
| Executors.ReceiptSink.Persist | services/approved_executor.py:413-418 | a receipt counts as stored only when the sink returned, though it may be in the log when it did not |
| Executors.ReplayLedger.Consume | services/token_replay_ledger.py:35-64 | a token is taken by one caller only; a failure may leave it consumed |
| Executors.ResourceCoordinator.Acquire | services/resource_coordinator.py:46-79 | all of the requested set or none of it |
| Executors.ResourceCoordinator.Release | services/resource_coordinator.py:81-93 | exactly what the owner holds is given back |
| Executors.ExecutorRegistry.Register | services/approved_executor.py:55-72 | a name is bound once; a second registration changes nothing |
| Executors.ExecutionGate.Execute | services/approved_executor.py:92-330 | the gated execution on mutable sink and ledger is the step machine of the interleaving theorems run alone |
| Executors.ExecutionGate.ExecuteHolding | services/coordinated_executor.py:22-172 | the same for coordinated execution, with every exit path of its cleanup |
| DispatchSpec.ResolutionMeans | services/execution_receipt_sink.py:136-199 | terminal with a receipt exactly when it is the only terminal receipt; uncertain exactly when there is a start and no terminal; refused exactly when there are two |
| DispatchSpec.ResolveIntent | services/execution_receipt_sink.py:148-199 | the collecting loop computes that classification |
| DispatchSpec.SubmitTellsTheTruth | services/runtime_pipeline.py:48-79 | submitting an intent without start or terminal receipt leaves at most one run, at most one terminal receipt, and a start receipt beside every run |
| DispatchSpec.EveryRunIsTruthful | services/audio_ingress_runtime.py:152-225 | over any dispatches, Court answers and failures: the handler of an intent runs at most once, no second terminal receipt appears, and the terminal receipt says completed or failed exactly when the handler ran |
| DispatchSpec.SettledStaysSettled | services/audio_ingress_runtime.py:168-176 | once a start or terminal receipt is logged, nothing recorded about the intent changes any more |
| DispatchSpec.TerminalReceiptIsReturnedForever | services/audio_ingress_runtime.py:168-171 | every dispatch after a terminal receipt returns that receipt and changes nothing |
| DispatchSpec.UncertainExecutionIsNeverRetried | services/audio_ingress_runtime.py:172-176 | a start without a terminal receipt is reported by every later dispatch and never run again |
| DispatchSpec.ReturnedIdsAreTerminalReceipts | services/audio_ingress_runtime.py:204-225 | an id that comes back is that of the terminal receipt in the log, and it does come back when the log can be read |
| DispatchSpec.UnmentionedIsTruthful | services/execution_receipt_sink.py:194-199 | a log that does not mention the intent is a valid start for all of these |
| Evidence.DenialIsTheReply | services/audio_ingress_runtime.py:204-225 | a stored Court denial of an open intent is its only terminal receipt, all that is logged, and the reply; unstored, nothing changes |
| Evidence.UnstoredAuthorisationEndsIt | services/runtime_pipeline.py:59-69 | when the authorisation is not known to be stored, nothing starts |
| Evidence.ExecutionTells | services/coordinated_executor.py:22-172 | an execution whose receipts are all stored leaves exactly the receipts that its outcome calls for, in order |
| Evidence.StoredExecutionIsTheReply | services/audio_ingress_runtime.py:152-225 | an authorised dispatch whose receipts are all stored ends with one terminal receipt, whose kind names the outcome and whose id is the reply; refused resources and exceptions leave none |
| Evidence.SubmissionRaisesExactlyWhen | services/runtime_pipeline.py:48-79 | an exception leaves a submission exactly when the Court raises, or its stored authorisation is followed by an execution that raises at preflight, replay check or safety check |
| Evidence.UnreadOrUnpreparedRaises | services/audio_ingress_runtime.py:152-225 | a log that cannot be read, before or after, or a request that cannot be prepared gives no answer about an open intent, and before the submission it changes nothing |
| Evidence.NothingStartsUnauthorised | services/runtime_pipeline.py:48-79 | in any sequence of dispatches every start receipt of an intent stands behind a Court authorisation of it |
| Evidence.NoActWithoutAuthorisation | services/runtime_pipeline.py:48-79 | a submission starts, consumes or runs anything only after an authorisation that was stored, for an entitled request |
| LoneDispatch.LoneRaceIsTheDispatch | services/audio_ingress_runtime.py:152-225 | a race with one dispatch in it leaves what that dispatch leaves, so the race theorems speak of the same calls |
| DispatchRaces.RunsOnceExactlyWhenOneToken | services/audio_ingress_runtime.py:166-211 | overlapping dispatches of an open intent, with nothing owned, run its handler at most once under every interleaving and failure exactly when no two of them that pass preflight at the start carry different tokens |
| DispatchRaces.OneTokenRunsOnce | services/audio_ingress_runtime.py:166-211 | one direction, also with resources owned: with one token among those that pass preflight the handler runs at most once |
| DispatchRaces.TwoTokensRunTwice | services/court_token.py:35-49 | the other: two that pass with different tokens, as when the clock moved on between them, both run the handler under some schedule, whether or not it declares exclusive resources |
| RaceReceipts.OneTerminalExactlyWhenOneDispatch | services/execution_receipt_sink.py:148-199 | overlapping dispatches of an open intent leave at most one terminal receipt under every interleaving and failure exactly when at most one dispatch of the intent is in flight |
| RaceReceipts.OneDispatchTellsTheTruth | services/audio_ingress_runtime.py:152-225 | a dispatch alone in flight for its intent leaves a truthful log however dispatches of other intents interleave with it |
| Dispatch.RuntimePipeline.Submit | services/runtime_pipeline.py:48-79 | Court, then coordinated execution, on the mutable log, ledger and resources |
| Dispatch.AudioIngressRuntimeHandler.Dispatch | services/audio_ingress_runtime.py:152-225 | the dispatch the theorems speak of, on mutable state |
| ReplayCache.CacheIsTheMostRecent | services/distributed_work_unix_transport.py:264-301 | after any requests the cache holds, in order, the last N distinct ids by most recent touch, each with the entry it was last answered from |
| ReplayCache.CachedExactlyWhenRecent | services/distributed_work_unix_transport.py:271-281 | an id is cached exactly when fewer than N other ids were touched since |
| ReplayCache.DispatchedExactlyWhen | services/distributed_work_unix_transport.py:264-301 | a request reaches the service exactly when its id was never touched or N others were touched since |
| ReplayCache.RetriesAreReplayed | services/distributed_work_unix_transport.py:271-281 | with fewer than N other ids in between, an identical retry gets the same response without a dispatch, and other content under the id is refused and changes nothing |
| ReplayCache.OneCallIsDispatchedOnce | services/distributed_work_unix_transport.py:110-139 | a client call under a fresh id reaches the service once however often it is retried, and what comes back is what the service answered then |
| ReplayCache.RespondsExactlyWhenDelivered | services/distributed_work_unix_transport.py:122-139 | a call gets a response exactly when some attempt arrives and its answer is delivered, and makes no attempt after the first that is |
| RpcTransport.UnixRpcServer.HandleRequest | services/distributed_work_unix_transport.py:264-301 | lookup, move to end, insertion and the eviction loop on the mutable cache |
| RpcTransport.UnixRpcClient.Call | services/distributed_work_unix_transport.py:122-139 | the retry loop, with other clients served between attempts |
| BodyStateSpec.SnapshotReadsBack | services/body_state_bridge.py:96-131 | reloading a snapshot gives back exactly the table it was taken of |
| BodyStateSpec.GreatestTimestampIsKept | services/body_state_bridge.py:133-148 | per shelf and module the greatest timestamp is kept, the later arrival on ties, over everything applied, also when the batch then raised |
| BodyStateSpec.WinnerIsUnique | services/body_state_bridge.py:139-144 | that rule names one record |
| BodyStateSpec.FamiliesCompeteExactlyWhen | services/body_state_bridge.py:134-137 | two records whose trimmed families differ take the same slot exactly when they are of one module and one is a padded sensor record, the other a health record |
| BodyStateSpec.PaddedSensorCompetesWithHealth | services/body_state_bridge.py:134-137 | of such a pair the newer one is kept on the health shelf, whichever came first |
| BodyStateSpec.BatchSucceedsExactlyWhenItFits | services/body_state_bridge.py:146-147 | a batch raises exactly when it holds a malformed record or some shelf would have more modules than the limit |
| BodyStateSpec.OrderDoesNotMatter | services/body_state_bridge.py:83-94 | with room for all modules and ties only between repetitions, any order and repetition of the same records gives one table |
| BodyStateRuns.LockedRunIsAtomicFold | services/locked_body_state_bridge.py:41-49 | whatever producers publish, the shared file is the fold of their batches in lock order, a raising batch counting for nothing |
| BodyStateRuns.FilesAfterABatch | services/body_state_bridge.py:83-94 | the journal gets what a batch applied and the record that found no room; the snapshot is rewritten from the table when the batch went through and was not empty, or there was none yet |
| BodyStateRuns.ManyProducersActAsOne | services/locked_body_state_bridge.py:41-49 | while no batch raises, reload-merge-write by many producers leaves the same files and table as one bridge fed all records |
| BodyStateRuns.ProducersMayInterleaveFreely | services/locked_body_state_bridge.py:41-49 | then the table depends only on which records were published, not on producer, batch or lock order |
| BodyStateRuns.AppliedIsLongestFitting | services/body_state_bridge.py:85-89 | a batch is applied exactly as far as its records are well formed and have room |
| BodyStateRuns.SomeRecordsFit | services/body_state_bridge.py:85-89 | every batch has exactly one longest fitting part |
| BodyStateRuns.FileAndMemoryAgreeExactlyWhen | services/locked_body_state_bridge.py:41-49 | file and bridge in memory agree after a batch exactly when all of it fits, or its longest fitting part leaves every slot as it was |
| BodyStateRuns.RaisingBatchIsNotTheFold | services/body_state_bridge.py:83-94 | a malformed record after a good one: memory keeps the good one, the shared file does not, both have journalled it |
| BodyStateRuns.JournalReplaysTheBridge | services/body_state_bridge.py:150-187 | replaying the journal rebuilds the table of a bridge in memory, whether or not its batches raised |
| BodyState.BodyStateSnapshotBridge.constructor | services/body_state_bridge.py:62-78 | opening a bridge loads what the snapshot file holds, skipping what is refused |
| BodyState.BodyStateSnapshotBridge.Insert | services/body_state_bridge.py:133-148 | one record is kept, dropped as stale, or refused at the limit |
| BodyState.BodyStateSnapshotBridge.PublishMany | services/body_state_bridge.py:83-94 | journal and apply record by record, then rewrite the snapshot; a raise leaves the prefix |
| BodyState.BodyStateSnapshotBridge.TakeSnapshot | services/body_state_bridge.py:96-105 | sensors by module, then health by module |
| BodyState.LockedBodyStateSnapshotBridge.PublishMany | services/locked_body_state_bridge.py:41-49 | reload, merge and write under the lock |
| BodyState.LockedBodyStateSnapshotBridge.ReadSnapshot | services/locked_body_state_bridge.py:51-57 | a reader sees the table the file holds |
| FollowerSpec.ReadingIsIncremental | services/body_health_journal_follower.py:113-136 | bytes that arrive later change neither what was read nor where the follower rests |
| FollowerSpec.EachReadIsAttemptedOnce | services/body_health_journal_follower.py:94-141 | while one journal grows, under any interleaving of appends cut anywhere and polls, also when the publisher raises, each complete read is handed out once and in order |
| FollowerSpec.EveryLifeIsReadOnce | services/body_health_journal_follower.py:94-103 | over runs in which the journal also disappears and is created again, each disappearance noticed by a poll: the records handed out are those of one journal after the other, each read once from its first byte |
| FollowerSpec.FirstPollPrimes | services/body_health_journal_follower.py:94-99 | the first poll of a follower that was not primed hands out nothing and primes it |
| FollowerSpec.PollCatchesUp | services/body_health_journal_follower.py:94-141 | after a poll that returns, everything complete since priming has been handed out |
| FollowerSpec.ReadsAreLinesExactlyWhen | services/body_health_journal_follower.py:116-131 | the reads are the complete lines exactly when no complete line is longer than the bound |
| FollowerSpec.FollowingHandsOutTheLines | services/body_health_journal_follower.py:94-141 | with lines within the bound, exactly the health records among the complete lines are handed to the publisher, each once in order, also when it raised earlier, and the offset rests on a line boundary |
| FollowerSpec.ReplacedJournalIsReadFrom | services/body_health_journal_follower.py:105-119 | a journal found shorter than the offset is read from its start; a replacement at least as long is read on from the old offset |
| FollowerSpec.ReplacementIsHandedOutWholeExactlyWhen | services/body_health_journal_follower.py:105-131 | a poll that does not raise hands out all records of a replacement exactly when it is shorter than the offset or holds no health record before it, if reading it would rest at the offset |
| FollowerSpec.ReplacementInsideALine | services/body_health_journal_follower.py:105-131 | inside a line the rest of that line is parsed as a line, and all records are handed out exactly when that gives what the lines up to its end give |
| FollowerSpec.ReplacementInsideThePartialLine | services/body_health_journal_follower.py:105-131 | inside a line that is not complete nothing is handed out |
| FollowerSpec.ReplacementLosesARecord | services/body_health_journal_follower.py:105-119 | a journal whose first record is never handed out |
| FollowerSpec.OverlongLineLeavesItsTail | services/body_health_journal_follower.py:122-127 | the end of an over-long line is parsed as if it were a line |
| Follower.BodyHealthJournalFollower.Prime | services/body_health_journal_follower.py:51-58 | history before priming is skipped |
| Follower.BodyHealthJournalFollower.Poll | services/body_health_journal_follower.py:94-141 | unprimed, missing, truncated and grown journals, on the mutable offset |
| Jpeg.FindDimensions | services/current_frame_publisher.py:644-673 | the scan terminates with every read in bounds on any bytes |
| Jpeg.ScanPasses | services/current_frame_publisher.py:651-672 | a marker or segment that is no frame header is skipped whole, whatever its payload holds |
| Jpeg.FoundExactlyWhenShown | services/current_frame_publisher.py:644-673 | dimensions are returned exactly when the bytes after the first two are skippable items followed by a long enough frame header with those non-zero dimensions, as in B.1.1.4 and B.2.2 of ITU-T T.81, and the image ends in EOI |
| Jpeg.MarkerFailsAs | services/current_frame_publisher.py:651-672 | which failure is reported for a segment cut off, a length that does not fit, a frame header too short, and a zero dimension |

## Left out

- Floating point: loads, health, scores, times and resource amounts are exact reals; rounding to four places is modelled, NaN and infinities are not.
- Text: identifiers are normalised already and represented by their place in string order; reasons are tagged values without their wording.
- Field checks of records at construction, and the dictionary serialisers: records that could not be built are not represented.
- JSON, SHA-256 and HMAC: a document reads back as written, fingerprints are injective, and a token is genuine or not.
- Threads inside coordinator, service, bridge and RPC server: each public method is one atomic step. Only execution steps are interleaved.
- The set-valued replay store: its check and its insertion are not atomic, so it is no basis for the interleaving theorems.
- A different `now` for preflight and execution: one call has one time.
- DispatchSpec.EveryRunIsTruthful: is about dispatches that follow one another; overlapping ones are the subject of DispatchRaces and RaceReceipts, which fix the token of every dispatch beforehand and start from an open intent.
- Linking receipts to an ingress dispatch, and the special receipt of the memory-recall executor: the receipt libraries are not part of this model; every receipt keeps its own event name.
- Route lookup, envelope checks and context identity in a dispatch: one flag says whether the preparation succeeded.
- Court policy, authority and context decisions: the Court raises, denies or allows with a token naming the intent it was asked about.
- ServiceRuns.AcceptedWorkIsHeldByItsAcceptor: speaks of runs whose recoveries return; for all runs see Recoveries.AcceptanceHoldsThroughoutExactlyWhen.
- Liveness of proposals: that open work is eventually completed is not claimed; OpenWork says which work never is.
- BoardRuns.NoRunOverloadsANode: assumes that re-advertisements keep the task fields, because nothing re-examines leases when they change.
- FollowerSpec.EveryLifeIsReadOnce: needs every disappearance noticed by a poll; one that is not is a replacement, of which FollowerSpec.ReplacedJournalIsReadFrom and the lemmas after it speak for one poll.
- FollowerSpec.ReplacementInsideALine: not for an offset inside a read that is over the bound; there FollowerSpec.ReplacedJournalIsReadFrom still says what is handed out.
- `publish_current_unhealthy` of the follower: one filter over a snapshot.
- The capacity summary, resource probes and storage checks of the body-capacity file: no state that outlives a call.
- The PNG header check and the size, pixel and freshness bounds around the JPEG scan: one reading settles them.
- Sockets, peer credentials, file modes, fsync, subprocesses, daemons, configuration and the command line.
