# Shingo's dispatch core, in Dafny

Shingo moves bins around a plant with a robot fleet. This project models the parts of it whose
correctness depends on every run, every interleaving or every string, and proves what they promise.

* **Reservation allocator** (`Reservations`, `Allocator*`, `Pickups`, `BinFlow`). Complex orders hold bins
  and slots as reservation rows over repeated ticks and commit the complete set to hard claims. The store is
  a class with its rows and claims; a tick and a commit are methods proved against functions on those values;
  and any number of orders then take single store operations in any interleaving, with terminal releases,
  deliveries, the reaper and crashes in between.
* **Segmented release** (`Plans`, `Blocks`, `PlanShape`, `PlanRewrites`, `Release`, `ReleaseContents`,
  `Releaser`, `Witness`, `DwellTail`). A plan is cut at its waits and each segment is appended to a live fleet
  order, with `wait_index` as the durable witness. Fleet errors, lost replies, failed writes, stale snapshots,
  redirects, plan rewrites and the late binding of a dig leg's destination may fall anywhere.
* **Lane admission and the gate** (`LaneAdmission`, `LaneSplice`, `LaneRuns`, `LaneCases`). A fail-closed
  decision, the insertion of lane waits in front of gated entries, and rows and robots over whole runs.
* **Outbox drainer** (`Outbox`), **simulated clock and message deadlines** (`SimTime`), **window order**
  (`WindowOrder`), **order state machine and its mirror** (`StatusGraph`), **episode keys** (`EpisodeKeys`,
  `Decimals`); `Options` is shared.

Where a promise turned out not to hold for every input, the code is kept as it is and the exact condition is
proved:

* The witness never moves backwards if and only if no bare wait stands directly behind another wait
  (`Witness.WitnessNeverRegressesIff`), and a lost witness write stops the plan for good
  (`Witness.LostWitnessWedgesForever`).
* A dig leg that is sent out without a destination is marked complete only with its tail in if and only if no
  releaser sends the last segment of a plan it read without the tail (`DwellTail.SealedWholeIff`). The station
  release has that guard and the hard release has not, and a leg released by it never moves again
  (`DwellTail.HardReleaseStrands`).
* A second reserve after a complete one changes nothing if and only if the bins taken, counted by node and
  emptiness, are what the pickups ask for (`AllocatorRetry.SecondTickIsIdleIff`); a supply pickup that was
  given an empty carrier alternates for ever (`AllocatorRetry.CarrierForSupplyAlternates`).
* The slot reserve is complete if and only if the needed nodes are distinct and each can be had
  (`AllocatorSlots.ReserveComplexSlots`): two needs on one node never complete.
* Claims and confirmed rows agree for live orders when ticks are serialized; without the mutex they agree if
  and only if no coupled release meets another live order's confirmed row on its bin
  (`AllocatorCoupling.CoupledThroughoutIff`, with a run in `AllocatorRuns.UnserializedTicksUncouple`).
* The lanes an order is recorded in are the lanes it enters if and only if no segment behind its first wait
  enters a lane that has no gate and was not in the create (`LaneSplice.RegisteredIffEntered`, with a plan in
  `LaneCases.StationWaitLaneIsUnrecorded`).
* Occupancy rows cover every robot over a whole run if and only if each step meets its guard
  (`LaneRuns.OneRobotPerLane`). A create or tail append whose answer is lost, a release behind a wait, and a
  row release before the robot is out do not, and each has a run from the empty plant with two robots in
  one lane (`LaneCases`).
* Following the bins by node agrees with following them one by one if and only if the plan never picks while
  loaded and never drops onto an occupied node (`BinFlow.AgreeThroughoutIff`).
* All sorted arrangements of a loader's windows are one and the same if and only if no two different windows
  tie, and two tie exactly when they differ only by leading zeros (`WindowOrder.OneArrangementIff`,
  `WindowOrder.TieIffPaddings`).
* A message is not expired within its wall-time budget as long as the clock is not sped up after stamping
  (`SimTime.NotExpiredEarly`); over every run the exact expiry is given, with and without the clamp
  (`SimTime.BuiltClockDeadlines`).
* An accepted episode key is rebuilt byte for byte unless it is a changeover key whose id text is not the
  way `%d` prints a number (`EpisodeKeys.RebuiltIff`).

Where code and documentation disagree the code is followed. The comment at
`shingo-core/dispatch/admission.go:698-703` says that taking occupancy skips gated lanes; the code
(`shingo-core/dispatch/lane_gate.go:448-455`) does not, and it is the create's pre-wait part that keeps gated
lanes out (`LaneSplice.CreateEntersNoGatesLane`). The header of `reserveComplexPlan` calls the (node, empty)
key unambiguous; with a removal or an untyped supply pickup it is not, as above.

Conventions: a char of a window name stands for one byte; times and speeds are exact reals; nodes are
named by their own name; reads that can fail, fleet outcomes and wall readings are parameters of the step
they belong to.

## Model

| member | source | states |
|---|---|---|
| Reservations.Store.AcquireRow | shingo-core/store/reservations/reservations.go:154-174 | conflicts exactly when the bin or slot has any row, the order's own included; otherwise appends one pending row |
| Reservations.Store.ReleaseRow | shingo-core/store/reservations/reservations.go:216-226 | removes the order's row on that bin or slot and nothing else |
| Reservations.Store.ReleaseClaimAndRow | shingo-core/store/orders.go:737-750 | the claim goes only if it is the order's; the row of a bin goes whoever holds it |
| Reservations.Store.ConfirmRow | shingo-core/store/reservations/reservations.go:191-202 | flips the order's own pending row only, in place |
| Reservations.Store.ClaimAndConfirm | shingo-core/store/bins/bins.go:874-887 | succeeds exactly when unclaimed or own, reserved by the order and pending, and clear on the floor; claim and confirm land together |
| Reservations.KeepUnique | shingo-core/store/reservations/reservations.go:216-265 | no release can create a second row on a bin or slot |
| Reservations.KeepKeepsOrder | shingo-core/store/reservations/reservations.go:216-265 | a release drops exactly the rows it names and never reorders the others |
| AllocatorRuns.RowsStayUnique | shingo-core/dispatch/allocator.go:182-475 | in every interleaving of any number of orders no bin or slot ever has two reservation rows |
| AllocatorRuns.ClaimStands | shingo-core/dispatch/allocator.go:645-717 | once an order's claim succeeded, no interleaving lets another order claim the same thing until the owner gives it up or it is delivered |
| AllocatorRuns.CommittedOrdersDoNotShare | shingo-core/dispatch/allocator.go:645-717 | two orders whose commits both succeeded in one run, their claims and looks interleaved in any way, never share a bin or slot |
| AllocatorRuns.ClaimsMatchConfirmedRows | shingo-core/dispatch/allocator.go:182-717 | with serialized ticks, in every run, a live order has a claim exactly where its row is confirmed, and nobody else has a row there |
| AllocatorRuns.SerialInv | shingo-core/fulfillment/scanner.go:89-108 | the inductive invariant behind it, including what a listed row still means while its tick is the only one |
| AllocatorRuns.StrayKeepsInv | shingo-core/dispatch/allocator.go:283-303 | with serialized ticks a stray release from a listing that may be stale keeps the invariant and changes no row and no claim of another order |
| AllocatorRuns.UnserializedTicksUncouple | shingo-core/dispatch/allocator.go:592-596 | a concrete unserialized run leaves a live order with a claim and no row |
| AllocatorCoupling.CouplingStepIff | shingo-core/store/orders.go:737-750 | with ticks side by side, a step keeps live orders' claims on exactly their confirmed rows if and only if it is not a coupled release of a bin on which another live order has a confirmed row |
| AllocatorCoupling.CoupledThroughoutIff | shingo-core/dispatch/allocator.go:182-717 | over whole unserialized runs the coupling holds after every step if and only if no step was such a release |
| AllocatorRuns.ReapedTickLeavesAClaim | shingo-core/store/reservations/reservations.go:315-326 | a tick that outlives its order can leave a claim without a row; the claim sweep clears it |
| AllocatorRuns.TerminalFrees | shingo-core/store/orders.go:697-720 | the end of an order takes away exactly its rows and its claims on bins and slots; everybody else's stand as they were |
| AllocatorRuns.ArrivalFrees | shingo-core/store/internal/helpers/place_bin.go:130-183 | a delivery ends the claim on a slot whoever has it, and that on a bin unless an order outside the placer and its compound siblings has it; the row goes with the claim, and nothing else changes |
| AllocatorRuns.ReapAndSweepFree | shingo-core/store/reservations/reservations.go:315-326 | the reaper takes exactly the rows of ended orders and the sweep exactly their claims |
| AllocatorRuns.EndedOrderLetsGo | shingo-core/store/orders.go:697-720 | what an ended order held, by row or by claim, the next order that asks gets: with its next clear claim if it has a pending row there, by taking and claiming otherwise |
| AllocatorRuns.EndedStaysGone | shingo-core/store/orders.go:697-720 | an order that ended with no tick at work has no row and no claim in any later run, as long as no tick is begun for it |
| Pickups.ComplexPickups | shingo-core/dispatch/complex_plan.go:204-218 | the walk with a growing set of drop nodes yields every pickup with the relay flag the backward look gives |
| Pickups.NeedsAreThePickups | shingo-core/dispatch/bin_for_step.go:261-268 | a need for each pickup and no other; its relay flag is the gate's question at that step |
| Allocator.FirstMatch | shingo-core/dispatch/allocator.go:542-552 | the first unused hold with the pickup's node and emptiness, or none exists |
| Allocator.FirstAvailable | shingo-core/dispatch/allocator.go:597-629 | the first available bin in listing order, or none exists |
| Allocator.ReserveComplexPlan | shingo-core/dispatch/allocator.go:182-375 | store, assignment and outcome after the tick are those of the reconcile function the lemmas below are about |
| Allocator.ReleaseStrays | shingo-core/dispatch/allocator.go:287-303 | holds no pickup used are dropped, claim and row together if confirmed |
| AllocatorFacts.ReserveLeavesExactlyTheTaken | shingo-core/dispatch/allocator.go:182-310 | after a tick the order's bin rows are exactly the bins it took, pairwise distinct; slot rows and other orders' rows and claims are untouched; no claim is added |
| AllocatorFacts.StraysDropped | shingo-core/dispatch/allocator.go:287-303 | although a bin's row is dropped by bin, uniqueness makes it the order's own |
| AllocatorRetry.CompleteIff | shingo-core/dispatch/allocator.go:194-308 | complete exactly when what was taken lines up, pickup for pickup, with the pickups that are not empty-node relays |
| AllocatorOutcome.OutcomeIff | shingo-core/dispatch/allocator.go:305-374 | complete exactly when covered; moot exactly when a pure evac's line is empty, or nothing was taken, no pickup's node has a bin and the leg does not fill the line; holding otherwise |
| AllocatorRetry.TakenAreRight | shingo-core/dispatch/allocator.go:200-281 | every taken bin stands at its pickup's node and was the order's own hold of the right emptiness, or usable, free of everybody's claim and reservation and of the right payload: any at the process node, none for an empty pickup, otherwise none or the one the order names |
| AllocatorRetry.MissMeansNothingToHave | shingo-core/dispatch/allocator.go:221-257 | a pickup is missed exactly if no unused hold matches and either no usable, unclaimed, unpending bin of the right payload is at its node and it is no empty-node relay, or the first such bin has a confirmed row without a claim; a book whose confirmed rows all have claims has none of those |
| AllocatorRetry.VisitUsesSupply | shingo-core/dispatch/allocator.go:200-208 | a pickup reuses a hold exactly when one of its node and emptiness is left, and uses up that one |
| AllocatorRetry.IdleIffBalanced | shingo-core/dispatch/allocator.go:182-310 | a tick over as many standing holds as wanted pickups changes nothing exactly when holds and pickups agree by node and emptiness |
| AllocatorRetry.SecondTickIsIdleIff | shingo-core/dispatch/allocator.go:163-178 | after a complete reserve, reserving again acquires and releases nothing if and only if the taken bins, by node and emptiness, are what is asked for; then it is complete with the same bins |
| AllocatorRetry.MatchingEmptiesBalance | shingo-core/dispatch/allocator.go:542-552 | pointwise matching emptiness is enough for that |
| AllocatorRetry.CarrierForSupplyAlternates | shingo-core/dispatch/allocator.go:597-629 | a supply pickup at a node with only an empty carrier alternates for ever between complete and empty-handed |
| AllocatorSlots.SlotNeedsOf | shingo-core/dispatch/allocator.go:148-161 | exactly the named dropoffs that are a storage slot or declared exclusive, each once and in plan order, with node and group |
| AllocatorSlots.ReserveComplexSlots | shingo-core/dispatch/allocator.go:401-475 | the reconcile function's book; complete if and only if the dropoffs that need a slot have distinct nodes and each is own or resolvable and unreserved; a needed dropoff with a group goes back to it exactly when its slot is another order's or an earlier dropoff's |
| AllocatorSlots.SlotReserveRows | shingo-core/dispatch/allocator.go:401-475 | of the order's slot rows those still needed stay as they were, every other needed slot it could have gets a pending row, everything else and other orders' claims are as before |
| AllocatorSlots.ReleaseSlotStrays | shingo-core/dispatch/allocator.go:447-461 | slot holds no need used are dropped, claim and row together if confirmed |
| AllocatorSlots.SlotStraysDropped | shingo-core/store/nodes.go:90-103 | slot releases are owner-matched: nothing of another order goes |
| AllocatorSlots.OwnedAfter | shingo-core/dispatch/allocator.go:401-452 | the slots an order ends up with are just the needed ones it could have |
| AllocatorSlots.SlotReserveIsIdempotent | shingo-core/dispatch/allocator.go:401-461 | reconciling the same needs again, complete or not, leaves rows and claims exactly as they are |
| AllocatorConfirm.ConfirmComplexPlan | shingo-core/dispatch/allocator.go:645-724 | slots before bins, stopping at the first failure; a plan without bins is refused |
| AllocatorConfirm.CommitClaimsAll | shingo-core/dispatch/allocator.go:645-717 | a commit that succeeded has claimed and confirmed every target and touched nothing else |
| AllocatorConfirm.AllSettles | shingo-core/dispatch/allocator.go:635-659 | wherever a commit stops, exactly the targets it passed are claimed and confirmed; it stops only at a blocked one |
| AllocatorConfirm.RetriedCommit | shingo-core/dispatch/allocator.go:635-659 | a commit that stopped anywhere, retried, ends exactly where an uninterrupted one ends |
| AllocatorCycle.InterruptedOrderConverges | shingo-core/dispatch/allocator.go:182-717 | slots, bins, a commit blocked anywhere, slots and bins again, commit: the second tick touches no row and no claim, and the end state is that of a commit that was never interrupted |
| AllocatorCycle.TickIsTruthful | shingo-core/dispatch/allocator.go:200-208 | the confirmed flag handed to the commit is the state of the row |
| AllocatorCycle.TickKeepsCoupling | shingo-core/dispatch/allocator.go:182-303 | a tick keeps an order's claims on exactly its confirmed rows |
| AllocatorCycle.TickIsARun | shingo-core/dispatch/allocator.go:182-475 | a whole tick, slots and bins, is a sequence of enabled store operations of one order, so the theorems over all interleavings apply to it |
| AllocatorCycle.CommitIsARun | shingo-core/dispatch/allocator.go:645-717 | so is a commit, up to where it stops; one that succeeds has committed all its targets in that run |
| BinFlow.ResolvePerBinDestinations | shingo-core/dispatch/complex_claims.go:129-165 | the loop computes the destinations of the walk by node |
| BinFlow.AgreeThroughoutIff | shingo-core/dispatch/complex_claims.go:119-128 | after every step each claimed bin is in exactly the one place a walk by bin puts it, if and only if the plan never picks while loaded and never drops onto an occupied node |
| BinFlow.DestinationsAreWhereBinsEnd | shingo-core/dispatch/complex_claims.go:129-165 | for such plans a bin's recorded destination is where it ends, and a bin without one never moved to a node |
| Plans.SplitAtWait | shingo-core/dispatch/complex_steps.go:327-339 | the part in front of the first wait, with a wait that names a node included |
| Plans.SplitSegment | shingo-core/dispatch/complex_steps.go:354-408 | the segment, whether waits follow, and how many blocks were released before it |
| Plans.WaitAt | shingo-core/dispatch/complex_steps.go:430-445 | finds the wait exactly when a segment exists for that index |
| Plans.SegmentsPartitionPlan | shingo-core/dispatch/complex_steps.go:341-408 | pre-wait part and segments concatenate to exactly the block-producing steps in order |
| Plans.OffsetCountsReleased | shingo-core/dispatch/complex_steps.go:354-408 | a segment's offset is the number of block-producing steps released before it |
| Blocks.StepsToBlocks | shingo-core/dispatch/complex_steps.go:519-553 | step by step and with nothing between: a block at the step's node under the step's number, JackLoad for a pickup, JackUnload for a dropoff, Wait for a wait with a node, none for a bare wait; the first pickup under a load sequence has one block per task, in order |
| Blocks.SentIsNumberedPrefix | shingo-core/dispatch/complex_steps.go:519-553 | create and segments, each numbered from its own offset, number the plan 1, 2, 3, ... without gap or restart |
| Blocks.WholePlanIsSent | shingo-core/dispatch/complex_steps.go:354-408 | after the last segment exactly the whole plan has been sent |
| Blocks.NumberedWithoutGap | shingo-core/dispatch/complex_steps.go:519-553 | every block-producing step has its own number |
| Blocks.BlockIdInjective | shingo-core/dispatch/complex_steps.go:504-506 | a block id names one step number and one load task |
| Blocks.BlockIdsOfDifferentOrdersDiffer | shingo-core/dispatch/complex_steps.go:476-506 | block ids of different orders never coincide |
| Blocks.IdsDistinct | shingo-core/dispatch/complex_steps.go:480-506 | no id is minted twice within an order |
| PlanShape.SameSegments | shingo-core/dispatch/complex_steps.go:354-408 | plans of one shape are cut at the same places with the same offsets |
| PlanShape.SameSentIds | shingo-core/dispatch/complex_steps.go:504-553 | and have sent the same ids at every stage |
| PlanRewrites.ReResolve | shingo-core/dispatch/complex_steps.go:93-146 | re-resolves exactly the steps still naming a group, gives the plan back on failure, keeps the shape and the lane waits; changed exactly when a node changed |
| PlanRewrites.WidenSupplyPickups | shingo-core/dispatch/complex_steps.go:595-727 | a supply pickup in front of the first operator wait is asked about exactly if a hold is left for it or its anchor is a known concrete node; it moves, keeping its anchor as group, exactly to the node advised, up to the first that is blocked; blocked exactly if one asked about is; shape and lane waits are kept |
| PlanRewrites.SlotRevertKeepsShape | shingo-core/dispatch/allocator.go:425-436 | sending fungible dropoffs back to their group keeps the shape and the lane waits |
| PlanRewrites.RewriteChainKeepsSegments | shingo-core/dispatch/complex_steps.go:93-146 | after any chain of rewrites every wait index cuts the plan at the same place with the same offset and waits to come |
| Release.PatchRedirectSegments | shingo-core/dispatch/complex_release.go:185-198 | in place: only the last dropoff of the last segment gets the delivery node |
| Release.RedirectMovesOneBlock | shingo-core/dispatch/complex_release.go:185-198 | a redirect renames no block and moves at most one |
| Release.AppendEffect | shingo-core/dispatch/complex_steps.go:480-506 | with duplicate rejection an append adds the next segment in line or nothing |
| Release.EveryRunIsSafe | shingo-core/dispatch/complex_release.go:414-475 | over every run the fleet's block ids are the plan's cut at a segment boundary, none twice; the witness never runs ahead; complete is sent only with everything in |
| ReleaseContents.EveryRunSendsThePlan | shingo-core/dispatch/complex_release.go:414-475 | over every run without rewrites the fleet's blocks are those of the released steps, in that sense |
| ReleaseContents.StepsWithAre | shingo-core/dispatch/complex_release.go:185-198 | the released steps are the plan's, but for the node of the last dropoff of the last segment, which a redirect may change |
| Releaser.FleetOrder.ReleaseOrder | shingo-core/dispatch/complex_steps.go:480-503 | a repeated id refuses the whole call; the caller sees an error also when only the answer is lost |
| Releaser.AppendSegmentAndAdvance | shingo-core/dispatch/complex_release.go:414-475 | append, then witness, then status; a reported refusal means nothing landed unless the answer was lost |
| Releaser.ReleaseSegment | shingo-core/dispatch/complex_release.go:231-305 | the segment path does to fleet and row exactly what a releaser of the protocol does |
| Witness.WitnessNeverRegressesIff | shingo-core/dispatch/complex_release.go:414-475 | over every run the witness never moves backwards if and only if no bare wait stands directly behind a wait |
| Witness.InnerSegmentsSendIff | shingo-core/dispatch/complex_steps.go:354-408 | every inner segment has blocks exactly for those plans |
| Witness.LostWitnessWedgesForever | shingo-core/dispatch/complex_release.go:378-413 | a segment whose witness write was lost is refused by every later release: nothing more is ever sent |
| Witness.FailedWriteWedges | shingo-core/dispatch/complex_release.go:440-475 | one failed write is enough for that |
| Witness.SealIsKept | shingo-core/dispatch/complex_release.go:414-475 | for such plans complete, once sent, is never withdrawn |
| DwellTail.WaitGatesAnAppend | shingo-core/dispatch/dig_dwell.go:137-144 | finds exactly the lane waits with no pickup and no dropoff behind them |
| DwellTail.DigLegDwells | shingo-core/dispatch/dig_dwell.go:192-216 | the plan of a dig leg has one wait, and it is such a wait |
| DwellTail.PlanEvents | shingo-core/dispatch/dig_dwell.go:641-667 | the binding appends one plain dropoff at the chosen node, only to a plan parked at such a wait, and changes nothing else |
| DwellTail.EveryDwellRunIsSafe | shingo-core/dispatch/dig_dwell.go:641-667 | over every run with the destination bound under way and releasers acting on either plan: the plan grows once at most and by one dropoff; the fleet's ids are the old plan's up to a segment or the whole grown plan, none twice; the witness never runs ahead |
| DwellTail.SealedWholeIff | shingo-core/dispatch/complex_release.go:80-106 | throughout a run complete is sent only with the tail in, if and only if no releaser sends the last segment of a plan it read without the tail before the tail is in |
| DwellTail.HardReleaseStrands | shingo-core/dispatch/complex_release.go:231-305 | a hard release of a leg without a destination marks the fleet order complete, and no later run sends anything more |
| DwellTail.StrandedForever | shingo-core/dispatch/dig_dwell.go:336-349 | past its last wait a plan without its tail never gets one |
| DwellTail.BoundLegIsReleased | shingo-core/dispatch/dig_dwell.go:336-372 | a leg parked at its last wait, bound and released, has its whole plan at the fleet, complete and ending at the chosen node, whether or not an empty segment went out before |
| LaneAdmission.AdmitPlan | shingo-core/dispatch/admission.go:667-687 | the first step that is not admitted decides |
| LaneAdmission.PlanAdmitsIff | shingo-core/dispatch/admission.go:667-899 | a plan is admitted exactly when none of its lanes was unreadable, each is left to its gate or answered free of foreign digs and of others, and each unexcused pickup's bin is in reach |
| LaneAdmission.PlanRefusalIsTrue | shingo-core/dispatch/admission.go:667-899 | the cause a refused plan is parked with is true of the lane it names, at the first step that is not admitted |
| LaneAdmission.AdmittedIffEveryStep | shingo-core/dispatch/admission.go:667-687 | a plan is admitted exactly when each of its steps is |
| LaneAdmission.AdmissionIsMonotone | shingo-core/dispatch/admission.go:321-351 | losing answers never admits what full answers refuse, and removing a skip never turns a refusal into an admission |
| LaneAdmission.PlanNodes | shingo-core/dispatch/admission.go:649-665 | the nodes rows are taken on are the nodes admission asks about |
| LaneAdmission.AdmittedLaneIsFree | shingo-core/dispatch/admission.go:743-899 | every lane of an admitted plan that no gate owns was asked about and free of others |
| LaneSplice.SpliceLaneWait | shingo-core/dispatch/lane_gate_dispatch.go:165-268 | refuses a plan it cannot read, one not concrete up to its last gated entry, and one whose result fails its self-check; otherwise yields the spliced plan |
| LaneSplice.SpliceOnlyInserts | shingo-core/dispatch/lane_gate_dispatch.go:240-268 | without its lane waits the plan is what it was |
| LaneSplice.InsertedWaitIsAtMark | shingo-core/dispatch/lane_gate_dispatch.go:246-260 | an inserted wait stands at the mark of the gated lane that the step behind it enters, and carries that lane and nothing else |
| LaneSplice.SplicedIsGuarded | shingo-core/dispatch/lane_gate_dispatch.go:165-268 | every step into a gated lane stands directly behind that lane's wait or the robot has been in the lane since |
| LaneSplice.EntryIsGuarded | shingo-core/dispatch/lane_gate_dispatch.go:240-268 | said of the site: a step in a lane with a group and a mark stands directly behind a wait for that lane, or an earlier step stood in it and nothing in between moved the robot |
| LaneSplice.SplicesIff | shingo-core/dispatch/lane_gate_dispatch.go:235-430 | the splice goes through exactly when every lane asked for can be read, no step without a node stands in front of a gated entry, and, where there is one, every lane wait of the result has its entry behind it or ends the plan in its lane behind a pickup there |
| LaneSplice.CreateEntersNoGatesLane | shingo-core/dispatch/lane_gate_dispatch.go:549-621 | the create goes into no lane a gate owns |
| LaneSplice.SelfCheckPasses | shingo-core/dispatch/lane_gate_dispatch.go:347-373 | the splice's own check cannot fail on a plan without lane waits |
| LaneSplice.RegisteredIffEntered | shingo-core/dispatch/complex_dispatch.go:571-618 | recorded lanes are entered lanes if and only if no later segment enters an ungated lane that was not in the create |
| LaneRuns.OneOrderPerLane | shingo-core/dispatch/lane_gate_dispatch.go:725-826 | in every reachable state at most one order has an occupancy row on a lane |
| LaneRuns.CreateLanesAreAsked | shingo-core/dispatch/admission.go:640-665 | the lanes a create takes rows on are lanes admission asked about and no gate owns |
| LaneRuns.CreateLeaves | shingo-core/dispatch/lane_gate.go:448-455 | row by row and robot by robot what a create leaves, for every way its handover can end |
| LaneRuns.OutsideLeaves | shingo-core/dispatch/lane_gate.go:1067-1082 | a robot driving out leaves that lane and no row changes; a lift drops one row and an order's end all of its rows, and no robot moves |
| LaneRuns.RefusedChangesNothing | shingo-core/dispatch/lane_gate_dispatch.go:725-745 | a plan the splice refuses, and a wait that is no lane wait with its entry behind it, change nothing |
| LaneRuns.StepIsSafeIff | shingo-core/dispatch/fleet_handover.go:134-149 | for creates with every end of the handover, tail appends, operator and hard releases, exit, dropoff and terminal row releases: a step keeps every robot covered by a row exactly when its guard holds |
| LaneRuns.OneRobotPerLane | shingo-core/dispatch/lane_gate_dispatch.go:725-826 | over every run of those steps the rows cover every robot after every step if and only if each step is lawful, and then no lane ever has two robots sent into it |
| LaneRuns.ReadCreateIsLawful | shingo-core/dispatch/fleet_handover.go:134-149 | a create that stands is lawful whenever the names it sends resolve, the self-check seeing to waits inside lanes |
| LaneCases.LostReplyLetsTwoIn | shingo-core/dispatch/lane_gate_dispatch.go:815-823 | a run from the empty plant with two orders waiting at the mark: a tail append whose answer is lost rolls its row back and the next order is let into the same lane |
| LaneCases.LostCreateAnswerLetsTwoIn | shingo-core/dispatch/fleet_handover.go:134-149 | a run from the empty plant: a create whose answer is lost gives its rows back behind the robot |
| LaneCases.StationReleaseLetsTwoIn | shingo-core/dispatch/complex_release.go:94-108 | a run from the empty plant: a station release sends a robot into an ungated lane without a row and the next order is admitted to it |
| LaneCases.FirstDropoffLetsTwoIn | shingo-core/dispatch/lane_gate.go:522-526 | a run from the empty plant: the first dropoff of two deletes the row on the second lane before the robot has been there |
| LaneCases.StationWaitLaneIsUnrecorded | shingo-core/dispatch/complex_dispatch.go:571-618 | a plan that fetches, waits for its station and stores into an ungated lane enters a lane it is never recorded in |
| Outbox.Drainer.PublishOne | protocol/outbox/drainer.go:268-300 | one row by its own outcome: a counted failure adds a retry, a marked panic sets ten, a publish is counted and its ack marks the row sent; nothing else changes |
| Outbox.Drainer.Drain | protocol/outbox/drainer.go:236-262 | every row of the batch by its own outcome whatever happens to the others; failed exactly when some publish did |
| Outbox.Drainer.OnTick | protocol/outbox/drainer.go:213-223 | a tick always drains and sets the mute by its result |
| Outbox.Drainer.OnWake | protocol/outbox/drainer.go:193-212 | a wake while muted changes nothing |
| Outbox.OneFailingDrainPerTick | protocol/outbox/drainer.go:174-188 | from one tick until the next there is at most one failing drain, for any wakes and outcomes |
| Outbox.RetryBudget | protocol/outbox/drainer.go:167-225 | a message that never panics gains at most T+1 retries in T ticks and is not dead-lettered before MaxRetries-1 ticks |
| Outbox.DrainRow | protocol/outbox/drainer.go:268-300 | the same of a row in any drain of a run, and a row no drain lists is left alone |
| Outbox.RetriesAreCountedFailures | protocol/outbox/drainer.go:283-292 | over every run without a marked panic a message's retries are exactly its counted failures; a fresh one is dead-lettered after exactly ten and never has more |
| Outbox.TenFailingTicks | protocol/outbox/drainer.go:240-262 | when every tick fails and counts the message at the head of the queue, it is dead-lettered by the tenth and not before |
| Outbox.MessagesConserved | protocol/outbox/drainer.go:236-300 | in every reachable state an unpurged message is exactly one of pending, acked after a publish, or exhausted; only settled ones are purged |
| Outbox.PurgeTakesSettled | shingo-core/store/messaging/messaging.go:146-176 | housekeeping takes exactly the named rows that are sent or dead-lettered |
| Outbox.HealthyDrainsSuffice | protocol/outbox/drainer.go:236-262 | with a healthy publisher the queue is empty after exactly ceil(n/limit) drains and not sooner |
| Outbox.HealthyDrainsAckAll | protocol/outbox/drainer.go:236-300 | by then each of them is published and acked |
| SimTime.SimClock.ReadNow | protocol/clock/sim_clock.go:292-305 | simulated now with the clamp |
| SimTime.SimClock.SetSpeed | protocol/clock/sim_clock.go:377-400 | re-anchors with two wall readings |
| SimTime.SimClock.SetMaxSpeed | protocol/clock/sim_clock.go:406-418 | re-anchors and applies the new cap to the requested speed |
| SimTime.NowIsMonotoneAndLipschitz | protocol/clock/sim_clock.go:292-305 | time never runs back, a clamping clock never passes the wall, growth is at most max(speed,1) times the wall's |
| SimTime.RateIsSlope | protocol/clock/sim_clock.go:272-283 | the effective rate is the true slope between instants of the same clamp status |
| SimTime.ReanchorDoesNotJump | protocol/clock/sim_clock.go:377-418 | changing speed or cap does not move simulated time |
| SimTime.SyncedBuildsAgree | protocol/clock/sim_clock.go:214-249 | clocks built from the same non-zero epoch and anchor agree at every instant whenever each was built |
| SimTime.BuiltClockShows | protocol/clock/sim_clock.go:214-249 | a clock built with epoch and anchor shows the epoch at the anchor; the others show the wall or the epoch when built, with what passed while building; mode, clamp and speed by epoch and anchor, the speed being the smaller of what is asked for and the cap |
| SimTime.SpeedInForce | protocol/clock/sim_clock.go:377-419 | after a change of speed or cap the rate is the smaller of the two |
| SimTime.RunGrowth | protocol/clock/sim_clock.go:292-418 | over every run of advances and changes: monotone, bounded by the speed-weighted wall time, exact without a clamp, never past the wall with one |
| SimTime.NotExpiredEarly | protocol/clock/clock.go:120-130 | a message with TTL T is not expired within T of wall time, through the clamp, unless the clock is sped up after stamping |
| SimTime.UnclampedExpiryIff | protocol/expiry.go:106-120 | without a clamp it is expired exactly when the speed-weighted wall time passes the stretched TTL |
| SimTime.ClampedExpiryIff | protocol/clock/sim_clock.go:292-305 | with a clamp it is expired exactly when the run carries simulated time past the deadline from the stamp and from the wall at every point since |
| SimTime.ClampedConstantSpeed | protocol/clock/sim_clock.go:292-305 | at constant speed with a clamp: its own span has passed and the wall has covered the stretched TTL beyond its lead |
| SimTime.BuiltClockDeadlines | protocol/clock/sim_clock.go:214-249 | both for every clock a configuration builds: no early expiry unless sped up, and the exact expiry over every run |
| SimTime.ConstantSpeedExpiresExactly | protocol/envelope.go:55-78 | without a clamp, at constant speed of at least 1, it expires exactly after T |
| SimTime.NoExpiryNeverExpires | protocol/expiry.go:106-120 | a subject without expiry never expires |
| SimTime.SpeedingUpExpiresEarly | protocol/clock/clock.go:120-130 | doubling the speed after stamping expires the message within its budget |
| WindowOrder.LessName | shared/windoworder/windoworder.go:84-124 | the index loop is dictionary order on tokens, digit runs by number and other bytes as themselves |
| WindowOrder.StrippedIsNumeric | shared/windoworder/windoworder.go:103-119 | length first and then text decides the order of the numbers |
| WindowOrder.LessIsStrictWeak | shared/windoworder/windoworder.go:27-30 | a strict weak order |
| WindowOrder.OrdinalFirst | shared/windoworder/windoworder.go:63-69 | a smaller ordinal comes first |
| WindowOrder.NumberFirst | shared/windoworder/windoworder.go:84-124 | at equal ordinals, behind a common part that does not end in a digit, the smaller number comes first |
| WindowOrder.ByteFirst | shared/windoworder/windoworder.go:84-124 | there the smaller byte comes first, bytes below the digits before numbers and bytes above them after, and a name before its continuations |
| WindowOrder.TieIff | shared/windoworder/windoworder.go:32-37 | two windows tie exactly when ordinals agree and the names differ at most by leading zeros |
| WindowOrder.TokensOfPrint | shared/windoworder/windoworder.go:84-124 | writing the tokens out and reading them gives them back |
| WindowOrder.PadIsInvisible | shared/windoworder/windoworder.go:32-37 | taking a zero out from in front of a digit run leaves the tokens alone |
| WindowOrder.TieIffPaddings | shared/windoworder/windoworder.go:32-37 | said of the names alone: two windows tie exactly when ordinals agree and both names come from one name by putting zeros in front of its digit runs |
| WindowOrder.OneArrangementIff | shared/windoworder/windoworder.go:39-44 | all sorted permutations are one and the same if and only if no two different windows tie |
| StatusGraph.IsForwardJump | protocol/types.go:579-599 | the search terminates on every table and is true exactly for a distinct target reachable but not in one step |
| StatusGraph.EdgeRow.MirrorTransition | shingo-edge/orders/manager_status.go:175-205 | a legal step or a forward jump is taken, anything else leaves the row |
| StatusGraph.LossyMirrorConverges | shingo-edge/orders/manager_status.go:165-205 | told any in-order part of a Core run, the mirror accepts it all and ends at the last status told |
| StatusGraph.MirrorIsReachable | protocol/types.go:556-578 | whatever it is told, the mirror is at a status reachable from its start and never leaves a terminal one |
| EpisodeKeys.ParseOfKey | protocol/episode_key.go:310-387 | parsing any constructed key gives its components back |
| EpisodeKeys.KeysDoNotCollide | protocol/episode_key.go:145-273 | keys of different kinds or components never collide |
| EpisodeKeys.AcceptedIsValid | protocol/episode_key.go:310-387 | whatever is accepted has bar-free parts, the required ones not blank, and an id in range |
| EpisodeKeys.RebuiltIff | protocol/episode_key.go:310-387 | an accepted key is rebuilt byte for byte unless it is a changeover key whose id text is not printed form |
| EpisodeKeys.PaddingIsReadOver | protocol/episode_key.go:379-382 | blanks in front of a changeover id and anything behind its digits are read over |
| EpisodeKeys.BlankRanges | protocol/episode_key.go:379-382 | the ends of the ranges of blanks that are read over |
| EpisodeKeys.PlusSignIsLost | protocol/episode_key.go:374-383 | a changeover id with a plus sign is accepted and not written back |

## Left out

- Releases inside `widenSupplyPickups` for a buried hold: only the plan rewrite is modelled, not the row it drops.
- What becomes of a moot order, the swap-peer unwind and dig dispositions: policy, not protocol.
- Errors of single database calls inside a tick: the tick methods have none; the interleaving model lets a tick stop after any store operation.
- Dotted node paths, retired bins and node lookups that fail for a held row: a node is its name and every held bin is on the floor or nowhere.
- The primary bin of an order and the `order_bins` junction rows: bookkeeping after the commit, except for the destinations.
- Which orders are compound siblings of a placer: the set is a parameter of a delivery.
- The single-bin dispatch path and its claims: it shares the store but not the tick.
- AllocatorRuns.ClaimsMatchConfirmedRows: stated for live orders, because a tick that outlives its order can leave a claim behind (AllocatorRuns.ReapedTickLeavesAClaim).
- Release.EveryRunIsSafe: speaks of block ids, because plan rewrites may change locations under way; ReleaseContents.EveryRunSendsThePlan adds the contents when there are none. Its rewrites keep the number of steps; the one that adds a step is in DwellTail.EveryDwellRunIsSafe.
- DwellTail.EveryDwellRunIsSafe: the choice of the destination, its slot claim and the lane rows of a dwelling leg are not modelled, only the two plans and their releases.
- LaneRuns.OneRobotPerLane: covers creates, tail appends and releases of complex orders; plain single-leg orders, dig legs, compound legs and dig dwells also take and give back rows and are not modelled.
- LaneRuns.OneOrderPerLane: admission, the take and the self-check of a create share one reading of names and lanes, as one step; a gate mark is always read, and a tail's entry stands right behind its wait.
- The store-side entry cause behind admission in the gate's verdict: it can only refuse more.
- Outbox.RetryBudget: an operator's requeue, which resets the counter, is not an event.
- Goroutines, real timers and the settle delay of the drainer: ticks and wakes are events in any order.
- Float rounding and duration truncation in the clock; tickers and waits on it.
- The status table itself, `TerminalStatuses` and Edge's forced fleet statuses: the graph results hold for every table.
- Liveness of the reservation layer: it depends on operators and on which nodes are interchangeable.
- SQL, Kafka, JSON, HMAC, logging, audit rows, queue reasons, configuration and user interface.
