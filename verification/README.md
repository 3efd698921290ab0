# Verified model of the OptionX trading core

A Dafny model of the parts of OptionX that keep money and threads straight, with proofs about whole runs.

- **Settlement machines.** An execution group folds settlement events of a fixed roster into one outcome
  (`Accumulator`, `Aggregator`, `GroupRuns`); a series owns one such group at a time behind revision checks
  (`Progression`, `SeriesRuns`); a risk owner keeps reservations under limits and frees them against replayed
  evidence (`RiskEvidence`, `Risk`, `RiskRuns`); `Closing` joins the three: what a group closes, the risk owner
  can settle, and an overflowed group holds its risk. Each owner is a class that does what the source's class does.
  Its methods are proved against a value-level specification (`After`, `Next`, `Answer`), and the run lemmas
  speak about arbitrary sequences of calls. A mutex makes every public method of the risk owner one atomic
  step, so an interleaving of its clients is one such sequence.
- **Fixed-point arithmetic.** The decimal parser and printer (`Decimal`, `Money`) and percentage sizing
  (`Sizing`) use bounded words, so freedom from overflow is proved, against statements in unbounded integers.
- **Bridge stop protocol.** `BridgeStop` gives the lock-protected blocks of the BotBinary bridge as methods
  and as steps of a state machine whose agents are the threads between two blocks; `BridgeRuns` proves safety
  and progress over every interleaving. A join is a guard: a finalizer completes only when nothing runs on
  the threads it joins. `Dedupe` is the bridge's memory of
  recent keys, `DedupeRuns` its use by overlapping dispatches, and `FilePolls` the polling of a directory.
- **Smaller cores.** Staged shutdown (`Lifecycle`, `LifecycleRuns`, `LifecycleReentry`), comment stripping (`JsonComments`),
  trading windows (`TradingWindow`) and history ranges (`HistoryRange`).

- **Laws.** `GroupLaws`, `SeriesLaws`, `RiskLaws`, `BridgeLaws`, `JsonLaws`, `LifecycleLaws` and `MoneyLaws` say of
  each operation exactly when it gives each of its answers and what it leaves behind, in terms of inputs and
  state alone, so that the specification functions are not their own only witness.

`Common`, `Sums`, `Settlement` and `Identity` hold the shared values. `dafny verify dfyconfig.toml` checks
everything.

Some properties hold only under a condition, and the model says which:

- `run` releases the lock between its claim and its installation. With one thread at a time inside `run` no
  live thread or server is without an owner (`BridgeRuns.NothingIsLost`). A second claim in between can end in
  an assignment over a live thread, which terminates the process (`BridgeRuns.SecondRunnerTerminates`, and
  `BridgeRuns.TwoRunnersTerminate` from the idle bridge), or in a server that nobody can stop
  (`BridgeRuns.SecondRunnerLosesServer`); `BridgeRuns.ClaimCanFailExactlyWhen` is the exact condition.
- A command that fails leaves its key retryable only if the failure is returned. The trade callback is wrapped
  in a handler for standard exceptions alone (line 742 of the bridge), so another exception escapes with the
  key remembered (`Dedupe.EscapeLocksKey`); `Dedupe.LockedExactlyWhen` is the exact condition.
- Dispatches overlap, and a late failure of an earlier dispatch of the same key unlocks a key that a later one
  has delivered (`DedupeRuns.DeliveredKeyIsUnlocked`). `DedupeRuns.DeliveryIsSafeExactlyWhen` says when that
  cannot happen.
- Kept files are dispatched once only if the memory of file names holds them all
  (`FilePolls.DispatchedOnceExactlyWhen`), and a file whose dispatch failed is not retried although its key is
  free (`FilePolls.FailedFileIsNotRetried`).
- A module's `shutdown` that calls the stack's `process` can make the walk skip a module
  (`LifecycleReentry.SkipsModule`) or leave the vector (`LifecycleReentry.RunsOutOfBounds`);
  `LifecycleReentry.KeepsStagingExactlyWhen` is the exact condition.
- A line comment is not ended by a lone carriage return, although a carriage return counts as a line start
  elsewhere in the scanner: `JsonComments.LoneCarriageReturn`, with the exact condition in
  `JsonComments.CarriageReturnEndsExactlyWhen`.
- A second preserving pass can remove more than the first (`JsonComments.SecondPassCanRemove`);
  `JsonComments.SecondPassIsIdleExactlyWhen` says when it does not.

Where the guide for the risk owner and the code differ, the model follows the code. The diagram in
guides/trading-system-batch4.md lines 35-40 draws an arrow from the commit to RELEASED, while the code releases
only from RESERVED; and the code marks a reservation unknown directly from RESERVED, which the diagram does not
show.

## Model

| member | source | states |
|---|---|---|
| `Accumulator.Magnitude.Add` | include/optionx_cpp/trading_system/ExecutionGroupAggregator.hpp:94-102 | the two limbs hold the exact sum as long as it fits 128 bits; the carry recovered from the wrapped low limb loses nothing |
| `Accumulator.Magnitude.LessThan` | include/optionx_cpp/trading_system/ExecutionGroupAggregator.hpp:104-106 | limb comparison is comparison of the 128-bit values |
| `Accumulator.Magnitude.Subtract` | include/optionx_cpp/trading_system/ExecutionGroupAggregator.hpp:108-110 | limb subtraction with borrow is exact for a smaller subtrahend |
| `Accumulator.NetAccumulator.Add` | include/optionx_cpp/trading_system/ExecutionGroupAggregator.hpp:113-121 | each of the first 2^32 - 1 signed words, INT64_MIN included, changes the mathematical net by exactly its value |
| `Accumulator.NetAccumulator.ToUnits` | include/optionx_cpp/trading_system/ExecutionGroupAggregator.hpp:123-139 | narrowing succeeds if and only if the mathematical net fits a signed 64-bit word, and then returns it |
| `Aggregator.ExecutionGroupAggregator.constructor` | include/optionx_cpp/trading_system/ExecutionGroupAggregator.hpp:25-39 | valid exactly for a non-zero intent, valid money and a roster of distinct non-zero trade ids of the expected size (with a group id when larger than one); then every slot is open |
| `Aggregator.ExecutionGroupAggregator.Enroll` | include/optionx_cpp/trading_system/ExecutionGroupAggregator.hpp:35-37 | slots are opened for exactly the listed ids, or the roster is refused at a zero or repeated id |
| `Aggregator.ExecutionGroupAggregator.Apply` | include/optionx_cpp/trading_system/ExecutionGroupAggregator.hpp:47-78 | the verdict and the new group are those of the specification: one recorded event, its receipt and the recomputed outcome, or no change |
| `Aggregator.ExecutionGroupAggregator.Aggregate` | include/optionx_cpp/trading_system/ExecutionGroupAggregator.hpp:146-183 | the looped outcome equals the loop-free one: completed count, uncertainty, closing, and the unbounded net when it fits |
| `Aggregator.ExecutionGroupAggregator.Tally` | include/optionx_cpp/trading_system/ExecutionGroupAggregator.hpp:146-164 | one pass over the members counts the terminal ones and accumulates exactly their unbounded net |
| `Aggregator.AfterKeepsInvariant` | include/optionx_cpp/trading_system/ExecutionGroupAggregator.hpp:47-78 | every event keeps: outcome is the one of the recorded members, each recorded event sits in its own slot and is receipted |
| `Aggregator.FreshInvariant` | include/optionx_cpp/trading_system/ExecutionGroupAggregator.hpp:25-39 | an accepted empty roster starts in the invariant, with the pending outcome |
| `GroupRuns.RunKeepsInvariant` | include/optionx_cpp/trading_system/ExecutionGroupAggregator.hpp:47-78 | the group invariant holds after every sequence of deliveries |
| `GroupRuns.RunExtends` | include/optionx_cpp/trading_system/ExecutionGroupAggregator.hpp:47-78 | over every run receipts are never lost or rewritten, a finished member is never reopened and the roster stays fixed |
| `GroupRuns.CompletedNeverDecreases` | include/optionx_cpp/trading_system/ExecutionGroupAggregator.hpp:152-165 | the published number of completed members never decreases over a run |
| `GroupRuns.AppliedOnce` | include/optionx_cpp/trading_system/ExecutionGroupAggregator.hpp:44-52 | an applied event replays as a duplicate for ever, another payload under its id is a conflict, and neither changes anything |
| `GroupRuns.ClosedIsPermanent` | include/optionx_cpp/trading_system/ExecutionGroupAggregator.hpp:60-62 | once all members are terminal no sequence of events changes the group |
| `GroupRuns.BatchRecorded` | include/optionx_cpp/trading_system/ExecutionGroupAggregator.hpp:47-78 | deliveries for distinct open members are all applied and exactly they are recorded |
| `GroupRuns.OrderIndependence` | include/optionx_cpp/trading_system/ExecutionGroupAggregator.hpp:47-78 | any two arrival orders of the same deliveries are accepted throughout and end in the same group, whatever overflowed on the way |
| `GroupRuns.BatchNet` | include/optionx_cpp/trading_system/ExecutionGroupAggregator.hpp:146-163 | a batch raises the unbounded net by exactly the sum of its profits |
| `GroupRuns.FullBatchCloses` | include/optionx_cpp/trading_system/ExecutionGroupAggregator.hpp:165-182 | one terminal event per member closes the group with the outcome computed from the list alone: sign of the exact net, rejection or cancellation, or overflow |
| `Progression.SeriesProgression.Begin` | include/optionx_cpp/trading_system/SeriesProgression.hpp:43-89 | answer and new series are those of the specification; a refused begin changes nothing |
| `Progression.SeriesProgression.CheckIntent` | include/optionx_cpp/trading_system/SeriesProgression.hpp:51-68 | the first failed condition on status, step limit, identity, intent status, cardinality and reuse decides the answer |
| `Progression.SeriesProgression.Apply` | include/optionx_cpp/trading_system/SeriesProgression.hpp:92-130 | answer and new series are those of the specification; replays are recognised before the revision is looked at |
| `Progression.SeriesProgression.TakeOutcome` | include/optionx_cpp/trading_system/SeriesProgression.hpp:109-125 | the group outcome decides blocked, active (with the step advanced only for a net profit value), unresolved or waiting |
| `Progression.SeriesProgression.Complete` | include/optionx_cpp/trading_system/SeriesProgression.hpp:133-140 | only an active series at the expected revision is completed |
| `Progression.SeriesProgression.CheckRevision` | include/optionx_cpp/trading_system/SeriesProgression.hpp:143-153 | identity, revision, revision overflow and step ceiling are checked in this order |
| `Progression.NextKeepsInvariant` | include/optionx_cpp/trading_system/SeriesProgression.hpp:43-140 | every call keeps: a group is held exactly in the outstanding states, status fits the members, group receipts are series receipts |
| `Progression.MembersTell` | include/optionx_cpp/trading_system/ExecutionGroupAggregator.hpp:165-182 | unresolved, waiting and overflowed outcomes say exactly which members are uncertain, open or all finished |
| `SeriesRuns.InnerApplyIsFresh` | include/optionx_cpp/trading_system/SeriesProgression.hpp:92-108 | inside a series the group never answers duplicate, conflict or invalid configuration |
| `SeriesRuns.RunCounts` | include/optionx_cpp/trading_system/SeriesProgression.hpp:43-153 | over any run the revision rises by the number of applied calls and the step by the number of operations finalized with a net profit value; the step stays within its ceiling |
| `SeriesRuns.StepCounts` | include/optionx_cpp/trading_system/SeriesProgression.hpp:43-153 | one call moves the two counters by exactly what it achieved, and a call that is not applied leaves the whole series unchanged |
| `SeriesRuns.AppliedEventOnce` | include/optionx_cpp/trading_system/SeriesProgression.hpp:91-97 | a settlement id takes effect once in the whole life of a series: at any later time, under any revision, its replay is a duplicate, another payload a conflict, and nothing changes |
| `SeriesRuns.BegunIntentOnce` | include/optionx_cpp/trading_system/SeriesProgression.hpp:65-68 | an intent id and an idempotency key begin at most one operation over the whole life of the series |
| `SeriesRuns.EndStatesAreFinal` | include/optionx_cpp/trading_system/SeriesProgression.hpp:98-140 | from a blocked or a completed series no sequence of calls is ever applied again |
| `SeriesRuns.StatusMeaning` | include/optionx_cpp/trading_system/SeriesProgression.hpp:100-125 | in every reachable state the status says whether a group is held, whether a member is uncertain, and blocked means all members finished |
| `SeriesRuns.DeliveriesAccepted` | include/optionx_cpp/trading_system/SeriesProgression.hpp:92-130 | new deliveries for distinct open members, each under the then current revision, are all applied |
| `SeriesRuns.DeliveriesLand` | include/optionx_cpp/trading_system/SeriesProgression.hpp:106-128 | the series ends where the outcome of the standalone aggregator puts it, with all receipts filed |
| `SeriesRuns.SettlementOrderIsIrrelevant` | include/optionx_cpp/trading_system/SeriesProgression.hpp:92-130 | every arrival order of the deliveries of one operation leaves exactly the same series |
| `SeriesRuns.FullRosterSettlesSeries` | include/optionx_cpp/trading_system/SeriesProgression.hpp:109-125 | one terminal event per member settles the operation: step advanced exactly for a representable net, blocked exactly for an unrepresentable one |
| `RiskEvidence.ValidFor` | include/optionx_cpp/trading_system/RiskAdmission.hpp:170-213 | true if and only if the evidence proves the reservation closed: matching identities, one terminal event per member with distinct ids and in its money, and the claimed outcome is the representable outcome of those events |
| `RiskEvidence.ScanSettlements` | include/optionx_cpp/trading_system/RiskAdmission.hpp:182-192 | the scan passes exactly when every event is admissible and no settlement or trade id repeats |
| `RiskEvidence.Replays` | include/optionx_cpp/trading_system/RiskAdmission.hpp:203-212 | replaying through a fresh aggregator decides the same question as the statement without a replay |
| `RiskEvidence.ReplayDecides` | include/optionx_cpp/trading_system/RiskAdmission.hpp:203-212 | when every event is applied, comparing the final outcome with the claim is sound and complete |
| `RiskEvidence.EvidenceOrderIsIrrelevant` | include/optionx_cpp/trading_system/RiskAdmission.hpp:182-212 | evidence that proves keeps proving in every order of its settlements |
| `Closing.ClosedGroupProvesExactlyWhen` | include/optionx_cpp/trading_system/RiskAdmission.hpp:170-213 | for a group whose members have all finished, a claim made of its recorded events proves its reservation if and only if the group closed with a representable net and the claim is its outcome |
| `Closing.ClosedGroupIsListed` | include/optionx_cpp/trading_system/ExecutionGroupAggregator.hpp:152-165 | the recorded events of such a group can be listed, one per member |
| `Closing.ClosedSeriesProvesExactlyWhen` | include/optionx_cpp/trading_system/SeriesProgression.hpp:106-125 | after one terminal event per member, these events with a claim prove the reservation if and only if the series is active again and the claim is its outcome |
| `Closing.ClosedGroupSettlesExactlyWhen` | include/optionx_cpp/trading_system/RiskAdmission.hpp:439-452 | the risk owner settles a submitted or unknown reservation from the closed group under exactly that condition, and then gives its risk back |
| `Closing.OverflowHoldsRisk` | include/optionx_cpp/trading_system/RiskAdmission.hpp:424-452 | over every run that settles only from the events of an overflowed group, the risk of its reservation stays held |
| `Risk.RiskAdmission.UpdateSnapshot` | include/optionx_cpp/trading_system/RiskAdmission.hpp:300-324 | answer and new state are those of the specification: only a newer revision in the same money replaces the snapshot |
| `Risk.RiskAdmission.Reserve` | include/optionx_cpp/trading_system/RiskAdmission.hpp:326-415 | answer and new state are those of the specification: refused with the first reason that applies, or both indexes and the id sequence move together |
| `Risk.RiskAdmission.CheckLimits` | include/optionx_cpp/trading_system/RiskAdmission.hpp:370-388 | the bounded comparison decides exactly the limits on the unbounded total |
| `Risk.RiskAdmission.ActiveRiskUnits` | include/optionx_cpp/trading_system/RiskAdmission.hpp:507-520 | the saturating loop returns the exact unbounded sum of the risk still held; its saturating exit is never taken |
| `Risk.RiskAdmission.Publish` | include/optionx_cpp/trading_system/RiskAdmission.hpp:401-413 | neither the key nor the intent is taken, so both insertions succeed and the id sequence advances or is exhausted |
| `Risk.RiskAdmission.Commit` | include/optionx_cpp/trading_system/RiskAdmission.hpp:418-422 | moves a stored reserved reservation to submitted, or changes nothing |
| `Risk.RiskAdmission.Release` | include/optionx_cpp/trading_system/RiskAdmission.hpp:424-428 | moves a stored reserved reservation to released, or changes nothing |
| `Risk.RiskAdmission.MarkUnknown` | include/optionx_cpp/trading_system/RiskAdmission.hpp:430-437 | moves a reserved or submitted reservation to unknown execution, or changes nothing |
| `Risk.RiskAdmission.Settle` | include/optionx_cpp/trading_system/RiskAdmission.hpp:439-452 | moves a submitted or unknown reservation to settled only under proving evidence, or changes nothing |
| `Risk.RiskAdmission.Transition` | include/optionx_cpp/trading_system/RiskAdmission.hpp:536-550 | unknown, conflicting, repeated and forbidden transitions are answered in this order and change nothing |
| `Risk.NextKeepsInvariant` | include/optionx_cpp/trading_system/RiskAdmission.hpp:300-452 | every call keeps: the indexes agree, one currency and precision, the exact total within the signed range and the limit |
| `RiskRuns.ReachableBook` | include/optionx_cpp/trading_system/RiskAdmission.hpp:300-452 | in every reachable state intent i is indexed under key k if and only if k holds the reservation of i, all risks are in the money of the snapshot, and the exact total is within the limit |
| `RiskRuns.RiskConserved` | include/optionx_cpp/trading_system/RiskAdmission.hpp:326-452 | the total changes by exactly what an admission takes and what a release of a never-submitted reservation or a proved settlement gives back |
| `RiskRuns.AdmissionFits` | include/optionx_cpp/trading_system/RiskAdmission.hpp:364-388 | an admission leaves the exact total within the fresh balance and the limit |
| `RiskRuns.SettledMeansProved` | include/optionx_cpp/trading_system/RiskAdmission.hpp:439-446 | an applied settlement is proved for the stored reservation, not only for the token |
| `RiskRuns.RunFollows` | include/optionx_cpp/trading_system/RiskAdmission.hpp:535-550 | over every run a reservation keeps everything but its state, which only moves forward, and snapshots only get newer in the same money |
| `RiskRuns.AdmittedOnce` | include/optionx_cpp/trading_system/RiskAdmission.hpp:331-339 | a key and an intent are admitted at most once ever, even after release or settlement |
| `RiskRuns.NoSecondSubmission` | include/optionx_cpp/trading_system/RiskAdmission.hpp:278-282 | once a reservation has left the reserved state no later request under its key or intent is answered with leave to submit |
| `RiskRuns.AtMostThreeMoves` | include/optionx_cpp/trading_system/RiskAdmission.hpp:535-550 | a reservation takes at most three applied transitions over any run |
| `RiskRuns.ClosedReservationStays` | include/optionx_cpp/trading_system/RiskAdmission.hpp:535-550 | released and settled reservations never move or change again |
| `RiskRuns.RunIds` | include/optionx_cpp/trading_system/RiskAdmission.hpp:340-342 | every run keeps the ids distinct and consecutive from the first id, and exhausted exactly after 2^64 - 1 |
| `RiskRuns.IssuedInSequence` | include/optionx_cpp/trading_system/RiskAdmission.hpp:391-413 | in every reachable state the next admission gets the first id plus the number of reservations, and none is possible once the ids are used up |
| `Money.FromDecimal` | include/optionx_cpp/trading_system/PolicyTypes.hpp:201-272 | accepts exactly the texts sign? digits* (. digits*)? with a digit whose value times 10^precision is an integer in the signed 64-bit range, and returns that integer; no step wraps |
| `Money.ScanWhole` | include/optionx_cpp/trading_system/PolicyTypes.hpp:228-237 | the bounded digit loop gives the exact whole part, or stops exactly when it is malformed or beyond 64 bits |
| `Money.ScanFraction` | include/optionx_cpp/trading_system/PolicyTypes.hpp:239-249 | the kept digits are read exactly, and a non-zero digit beyond the precision or a non-digit is refused |
| `Money.SplitText` | include/optionx_cpp/trading_system/PolicyTypes.hpp:210-226 | sign and dot handling finds the only possible reading of the text, or none exists |
| `Money.Join` | include/optionx_cpp/trading_system/PolicyTypes.hpp:254-259 | the quotient guard admits exactly the magnitudes within the limit, and the product does not wrap |
| `Money.Signed` | include/optionx_cpp/trading_system/PolicyTypes.hpp:264-270 | the sign is applied exactly, the magnitude 2^63 included |
| `Money.PowerOfTen` | include/optionx_cpp/trading_system/PolicyTypes.hpp:174-178 | the loop computes the exact power for every admitted precision |
| `Money.PrintedDenotes` | include/optionx_cpp/trading_system/PolicyTypes.hpp:275-293 | the printed text denotes exactly the amount |
| `Money.PrintThenParse` | include/optionx_cpp/trading_system/PolicyTypes.hpp:201-293 | any correct parse of a printed amount gives the amount back, INT64_MIN and precision 18 included |
| `Money.DenotesUnique` | include/optionx_cpp/trading_system/PolicyTypes.hpp:201-272 | a text denotes at most one amount in a precision |
| `Money.SpellsUnique` | include/optionx_cpp/trading_system/PolicyTypes.hpp:210-226 | a text has at most one reading as whole and fraction digits |
| `Sizing.PercentageUnits` | include/optionx_cpp/trading_system/Sizing.hpp:26-82 | for inputs past the guards the result is balance * basis points * 10^delta / 10^4 rounded in the mode, and absent if and only if that exceeds INT64_MAX |
| `Sizing.Multiplied` | include/optionx_cpp/trading_system/Sizing.hpp:47-57 | with four or more extra decimals the product is exact, or refused exactly when it does not fit |
| `Sizing.Divided` | include/optionx_cpp/trading_system/Sizing.hpp:59-81 | the split multiplication gives the exactly rounded share without leaving the word |
| `Sizing.RoundedUnique` | include/optionx_cpp/trading_system/Sizing.hpp:17-21 | each rounding mode determines one result |
| `Sizing.RoundedExists` | include/optionx_cpp/trading_system/Sizing.hpp:17-21 | in every mode a percentage has a rounded value |
| `Sizing.AbsentExactlyWhenTooLarge` | include/optionx_cpp/trading_system/Sizing.hpp:26-82 | the size is the rounded percentage, and absent exactly when that exceeds INT64_MAX |
| `Sizing.RoundingChain` | include/optionx_cpp/trading_system/Sizing.hpp:17-21 | DOWN <= HALF_UP <= UP <= DOWN + 1 |
| `Sizing.NeverAboveBalance` | include/optionx_cpp/trading_system/Sizing.hpp:26-82 | in every mode the size is at most the balance in the output precision |
| `Sizing.ScaledRounding` | include/optionx_cpp/trading_system/Sizing.hpp:59-62 | cancelling a power of ten from both sides does not change the rounded quotient |
| `Sizing.Evaluate` | include/optionx_cpp/trading_system/Sizing.hpp:135-181 | a stake is sized exactly for a usable account and a positive representable result, it is the rounded percentage and at most the balance; every other input gets the reason of its first failed check |
| `BridgeStop.RuntimeState.ClaimRun` | include/optionx_cpp/bridges/bot_binary/BotBinaryBridge.hpp:163-182 | the first lock scope of run claims an idle bridge with all flags reset and all key caches emptied, or leaves a running one alone |
| `BridgeStop.RuntimeState.InstallTransports` | include/optionx_cpp/bridges/bot_binary/BotBinaryBridge.hpp:208-243 | nothing is installed after a stop in between; otherwise the server is replaced in any case and each thread only by a new one, and assigning over a live thread terminates the process |
| `BridgeStop.RuntimeState.AbortStart` | include/optionx_cpp/bridges/bot_binary/BotBinaryBridge.hpp:198-206 | a failed preparation takes the claim back |
| `BridgeStop.RuntimeState.BeginHttpRequest` | include/optionx_cpp/bridges/bot_binary/BotBinaryBridge.hpp:384-392 | a request is counted exactly when it is admitted, which a stop prevents |
| `BridgeStop.RuntimeState.EndHttpRequest` | include/optionx_cpp/bridges/bot_binary/BotBinaryBridge.hpp:394-409 | the last request of a pending shutdown is told to drain |
| `BridgeStop.RuntimeState.DrainPendingCallbackShutdown` | include/optionx_cpp/bridges/bot_binary/BotBinaryBridge.hpp:1107-1130 | the handles leave the state exactly when the shutdown is pending and no request is active |
| `BridgeStop.RuntimeState.Shutdown` | include/optionx_cpp/bridges/bot_binary/BotBinaryBridge.hpp:1149-1186 | nothing happens while stopping or idle; inside a callback the handles stay, elsewhere they are handed out |
| `BridgeStop.RuntimeState.FailStart` | include/optionx_cpp/bridges/bot_binary/BotBinaryBridge.hpp:1063-1085 | a failed start takes the handles unless somebody else is stopping |
| `BridgeStop.RuntimeState.CompleteStop` | include/optionx_cpp/bridges/bot_binary/BotBinaryBridge.hpp:1022-1027 | the last lock scope of a finalizer ends the stop |
| `BridgeRuns.StepKeepsOrder` | include/optionx_cpp/bridges/bot_binary/BotBinaryBridge.hpp:146-1233 | every step of every thread keeps the order: one owner of a stop, every live thread held in one place, agents on live threads, an exact request counter, a drain owed |
| `BridgeRuns.StopHasOneOwner` | include/optionx_cpp/bridges/bot_binary/BotBinaryBridge.hpp:146-1233 | in every interleaving stopping holds exactly when the callback shutdown is pending or one agent holds the handles, never both; a pending shutdown with no request always has somebody who drains it; once neither running nor stopping every thread is joined and no request is left |
| `BridgeRuns.HandedOverOnce` | include/optionx_cpp/bridges/bot_binary/BotBinaryBridge.hpp:1107-1186 | over every run the handle of a thread leaves the state at most once |
| `BridgeRuns.HandOverIsTaken` | include/optionx_cpp/bridges/bot_binary/BotBinaryBridge.hpp:1107-1186 | when it leaves, an agent holds all the handles that were there |
| `BridgeRuns.SomebodyCanGoOn` | include/optionx_cpp/bridges/bot_binary/BotBinaryBridge.hpp:988-1140 | while the bridge is stopping some thread that still has to act is able to |
| `BridgeRuns.StepLowersRank` | include/optionx_cpp/bridges/bot_binary/BotBinaryBridge.hpp:988-1140 | while stopping, every productive step lowers the rank and no other step raises it |
| `BridgeRuns.StopIsNeverLost` | include/optionx_cpp/bridges/bot_binary/BotBinaryBridge.hpp:384-392 | as long as the bridge is stopping nobody is admitted, a productive step is possible, and only as many as the rank says fit before the stop completes |
| `BridgeRuns.NothingIsLost` | include/optionx_cpp/bridges/bot_binary/BotBinaryBridge.hpp:208-243 | with one thread at a time in run the process is never terminated and every live thread, and the server it runs, is in somebody's hands, over every run |
| `BridgeRuns.SecondRunnerTerminates` | include/optionx_cpp/bridges/bot_binary/BotBinaryBridge.hpp:163-243 | when a second run claims between the two lock scopes of a first one, both may install HTTP, and the later one assigns over a live thread: the process terminates |
| `BridgeRuns.SecondRunnerLosesServer` | include/optionx_cpp/bridges/bot_binary/BotBinaryBridge.hpp:208-243 | if the later one has only the file transport, it resets the server of the live HTTP thread, and nobody can stop that server any more |
| `BridgeRuns.TwoRunnersTerminate` | include/optionx_cpp/bridges/bot_binary/BotBinaryBridge.hpp:146-243 | a concrete run of six steps from the idle bridge to the terminated process |
| `BridgeRuns.ClaimCanFailExactlyWhen` | include/optionx_cpp/bridges/bot_binary/BotBinaryBridge.hpp:163-243 | in every orderly state a claim can be followed by such a failure, with all later claims made alone, if and only if another thread is between the two lock scopes of run |
| `BridgeRuns.SecondRunnerIsReachable` | include/optionx_cpp/bridges/bot_binary/BotBinaryBridge.hpp:163-243 | such a moment is reachable by a claim, an outside shutdown and its completion |
| `Dedupe.DedupeCache.RememberKey` | include/optionx_cpp/bridges/bot_binary/BotBinaryBridge.hpp:497-515 | a key is accepted exactly when it is new; queue and set keep the same keys without repeats and at most the cache size |
| `Dedupe.DedupeCache.ForgetKey` | include/optionx_cpp/bridges/bot_binary/BotBinaryBridge.hpp:517-531 | the key, and only the key, leaves both containers |
| `Dedupe.DedupeCache.DispatchCommand` | include/optionx_cpp/bridges/bot_binary/BotBinaryBridge.hpp:573-764 | for every combination of callbacks the answer with its reason, the report and the cache are those of the specification |
| `Dedupe.KeysTellCommandsApart` | include/optionx_cpp/bridges/bot_binary/BotBinaryBridge.hpp:486-495 | two commands share a key exactly when they have the same suffix, or no suffix and the same text |
| `Dedupe.RunKeepsCache` | include/optionx_cpp/bridges/bot_binary/BotBinaryBridge.hpp:497-531 | over every run the queue has no repeats and at most the cache size of keys |
| `Dedupe.AcceptedKeyIsRejected` | include/optionx_cpp/bridges/bot_binary/BotBinaryBridge.hpp:497-515 | an accepted key that is not forgotten is rejected until at least the cache size of further keys has been accepted, whatever else is forgotten |
| `Dedupe.AcceptedAgainExactlyWhen` | include/optionx_cpp/bridges/bot_binary/BotBinaryBridge.hpp:497-515 | without forgets, and while it is not offered, it would be accepted again exactly when that many keys have been accepted |
| `Dedupe.FailureIsRetryable` | include/optionx_cpp/bridges/bot_binary/BotBinaryBridge.hpp:608-761 | in sequential use every returned failure leaves the key free and locks out no other key |
| `Dedupe.LockedExactlyWhen` | include/optionx_cpp/bridges/bot_binary/BotBinaryBridge.hpp:735-763 | a new key stays locked exactly when the trade callback was reached and did not throw a standard exception; an exception of another type escapes and its retry is a duplicate |
| `Dedupe.EscapeLocksKey` | include/optionx_cpp/bridges/bot_binary/BotBinaryBridge.hpp:735-763 | a concrete command whose trade callback throws something else: the answer escapes and the retry is a duplicate |
| `DedupeRuns.LockedThroughoutExactlyWhen` | include/optionx_cpp/bridges/bot_binary/BotBinaryBridge.hpp:497-764 | over every interleaving of dispatches that accepts fewer than cache size further keys, a locked key stays locked exactly when no dispatch of the same key that is under way fails |
| `DedupeRuns.DeliveryIsSafeExactlyWhen` | include/optionx_cpp/bridges/bot_binary/BotBinaryBridge.hpp:573-764 | a dispatch that does not fail keeps its key locked against all such interleavings if and only if no other dispatch of the key is under way when it is accepted |
| `DedupeRuns.DeliveredKeyIsUnlocked` | include/optionx_cpp/bridges/bot_binary/BotBinaryBridge.hpp:573-764 | a concrete run of two threads from the empty cache, with room for one key, after which a delivered key is acceptable again |
| `DedupeRuns.YoungDispatchesNeverOverlap` | include/optionx_cpp/bridges/bot_binary/BotBinaryBridge.hpp:497-764 | over every run in which no dispatch outlives cache size further acceptances, an acceptable key is not under way anywhere |
| `FilePolls.PollFileSignals` | include/optionx_cpp/bridges/bot_binary/BotBinaryBridge.hpp:905-934 | one poll remembers every name of the listing in order and dispatches exactly those it did not know |
| `FilePolls.PollsDispatch` | include/optionx_cpp/bridges/bot_binary/BotBinaryBridge.hpp:533-547 | over any number of polls of a directory whose files are kept, every file is dispatched once if they fit into the memory, and once in every poll if they do not |
| `FilePolls.DispatchedOnceExactlyWhen` | include/optionx_cpp/bridges/bot_binary/BotBinaryBridge.hpp:533-547 | over two or more such polls each file is dispatched exactly once if and only if the memory holds them all |
| `FilePolls.FailedFileIsNotRetried` | include/optionx_cpp/bridges/bot_binary/BotBinaryBridge.hpp:925-934 | a file whose dispatch failed leaves its key free, and yet the next poll passes it over |
| `JsonComments.IsEscapedJsonQuote` | include/optionx_cpp/utils/json_comments.hpp:21-29 | the backslash loop decides the parity that the transducer carries along |
| `JsonComments.AppendSpacesPreserveNewlines` | include/optionx_cpp/utils/json_comments.hpp:32-42 | the removed characters come out as spaces, line breaks as themselves |
| `JsonComments.StripJsonComments` | include/optionx_cpp/utils/json_comments.hpp:52-176 | the chunk-copying scanner equals the character-by-character transducer in both modes |
| `JsonComments.PreservingKeepsShape` | include/optionx_cpp/utils/json_comments.hpp:45-51 | in preserving mode the length and every line break stay, and any other character is itself or a space inside a comment |
| `JsonComments.ModesAgree` | include/optionx_cpp/utils/json_comments.hpp:52-176 | the compact output is the preserving one without its comment positions |
| `JsonComments.BlockCommentExtent` | include/optionx_cpp/utils/json_comments.hpp:156-166 | a block comment runs to the first closer after its opener, or to the end, and leaves the line-start flag alone |
| `JsonComments.LineCommentExtent` | include/optionx_cpp/utils/json_comments.hpp:132-153 | a line or hash comment runs up to the first LF or CRLF after its opener, which is kept |
| `JsonComments.CarriageReturnEndsExactlyWhen` | include/optionx_cpp/utils/json_comments.hpp:140-153 | inside a line comment a CR ends it exactly when an LF follows |
| `JsonComments.LoneCarriageReturn` | include/optionx_cpp/utils/json_comments.hpp:132-153 | in a comment marker, one letter, a CR and another letter everything goes: three spaces, the CR and a space, or nothing in the compact mode |
| `JsonComments.SecondPassIsIdleExactlyWhen` | include/optionx_cpp/utils/json_comments.hpp:52-176 | a second preserving pass changes nothing if and only if the first kept no hash right behind a comment |
| `JsonComments.SecondPassCanRemove` | include/optionx_cpp/utils/json_comments.hpp:52-176 | a concrete text on which a second preserving pass removes more |
| `JsonComments.StringsAreUntouched` | include/optionx_cpp/utils/json_comments.hpp:79-98 | nothing from an opening quote to the next unescaped quote is touched |
| `JsonComments.PlainTextIsUntouched` | include/optionx_cpp/utils/json_comments.hpp:52-176 | a text without any comment opener comes out as it went in |
| `Lifecycle.LifecycleStack.AddModule` | include/optionx_cpp/lifecycle/LifecycleStack.hpp:28-36 | a module is appended unless it is the stack itself, is there already, or shutdown has started |
| `Lifecycle.LifecycleStack.Process` | include/optionx_cpp/lifecycle/LifecycleStack.hpp:54-68 | the modules still needed are looked at in order and run unless they have stopped by then; a request that comes back from one of them takes effect at once; then the shutdown, if requested, advances |
| `Lifecycle.LifecycleStack.TakeTurn` | include/optionx_cpp/lifecycle/LifecycleStack.hpp:60-65 | a module runs exactly if it has not stopped when it is looked at, and its call may come back into shutdown |
| `Lifecycle.LifecycleStack.Shutdown` | include/optionx_cpp/lifecycle/LifecycleStack.hpp:71-76 | only the first request has an effect: it starts the staged shutdown from the last module |
| `Lifecycle.LifecycleStack.AskCurrent` | include/optionx_cpp/lifecycle/LifecycleStack.hpp:93-97 | the current module is asked once, and looked at again |
| `Lifecycle.LifecycleStack.AdvanceShutdown` | include/optionx_cpp/lifecycle/LifecycleStack.hpp:84-103 | the loop equals the recursive statement: move down over stopped modules, ask and wait at the first other |
| `LifecycleRuns.ShutdownIsStaged` | include/optionx_cpp/lifecycle/LifecycleStack.hpp:54-103 | over every run, whoever stops modules and when, with requests that come back from process calls and process calls left by exceptions, each module is asked at most once, in reverse order of registration and only when all later ones have stopped; a stopped stack means that shutdown was requested and every module has stopped |
| `LifecycleRuns.StopIsNoticed` | include/optionx_cpp/lifecycle/LifecycleStack.hpp:54-103 | after every call that advances the shutdown, the stack is stopped exactly when all modules are |
| `LifecycleRuns.EarlierModulesKeepRunning` | include/optionx_cpp/lifecycle/LifecycleStack.hpp:54-68 | a process call runs, once each and in order, exactly the modules still needed that have not stopped when their turn comes |
| `LifecycleRuns.ProcessNeedsLess` | include/optionx_cpp/lifecycle/LifecycleStack.hpp:84-103 | each process call during shutdown lowers what the current and the earlier modules still need |
| `LifecycleRuns.ShutdownCompletes` | include/optionx_cpp/lifecycle/LifecycleStack.hpp:71-103 | if module i needs at most k_i process calls after its request, every run after the request with the sum of the k_i process calls ends with the stack stopped, whatever stops modules in between |
| `LifecycleRuns.RunKeepsStack` | include/optionx_cpp/lifecycle/LifecycleStack.hpp:28-103 | the stack invariant holds after every sequence of calls and outside stops |
| `LifecycleReentry.KeepsStagingExactlyWhen` | include/optionx_cpp/lifecycle/LifecycleStack.hpp:84-103 | if the shutdown call of a module comes back into process, the staging survives if and only if the module has not stopped when its call returns, or the inner call did not go past it, or the module the inner call waits for has stopped meanwhile |
| `LifecycleReentry.SkipsModule` | include/optionx_cpp/lifecycle/LifecycleStack.hpp:84-103 | two modules on which such a call makes the stack report that it has stopped while the earlier module has not |
| `LifecycleReentry.RunsOutOfBounds` | include/optionx_cpp/lifecycle/LifecycleStack.hpp:84-103 | one module on which such a call decrements the cursor below zero |
| `TradingWindow.TradingWindowFilter.Evaluate` | include/optionx_cpp/trading_system/Filters.hpp:196-246 | a time is allowed if and only if no denied window covers it on the timeline and some allowed window that started on an allowed day covers it; the other decisions are told apart just as exactly |
| `TradingWindow.TradingWindowFilter.constructor` | include/optionx_cpp/trading_system/Filters.hpp:180-194 | the configuration is valid exactly when every window and weekday is |
| `TradingWindow.CoversExactlyWhen` | include/optionx_cpp/trading_system/Filters.hpp:36-42 | an occurrence that started on day d covers t exactly when the second-of-day test holds and d is the current day, or the previous one in the tail after midnight |
| `TradingWindow.CoveredExactlyWhen` | include/optionx_cpp/trading_system/Filters.hpp:249-257 | some window contains the second of the day exactly when some occurrence covers the time |
| `TradingWindow.PreviousWeekday` | include/optionx_cpp/trading_system/Filters.hpp:265-271 | the result is the weekday of the day before, for every day with this weekday |
| `HistoryRange.SafeMultiply` | include/optionx_cpp/market_data/MarketDataContinuityService.hpp:383-391 | the product, capped at the largest word |
| `HistoryRange.MakeHistoryRequest` | include/optionx_cpp/market_data/MarketDataContinuityService.hpp:393-412 | the second range is the millisecond range divided down; the signed cap is never reached |
| `HistoryRange.MakeGapRequest` | include/optionx_cpp/market_data/MarketDataContinuityService.hpp:84-102 | the saturating computation gives exactly the range of unbounded arithmetic: a gap longer than max_bars slots is cut to exactly timeframe * (max_bars - 1) seconds, any other is asked for whole |
| `HistoryRange.GapIsBounded` | include/optionx_cpp/market_data/MarketDataContinuityService.hpp:78-102 | a bounded gap request spans exactly timeframe * (max_bars - 1) seconds when the gap is longer, and the whole gap otherwise |
| `HistoryRange.PrefillSpansBars` | include/optionx_cpp/market_data/MarketDataContinuityService.hpp:60-76 | for a positive timeframe the range ends at the last slot boundary not after now (once there has been one) and starts exactly timeframe * (bars - 1) seconds earlier, or at the epoch; zero and negative timeframes give the range their conversions lead to |
| `Settlement.MoneyExactly` | include/optionx_cpp/trading_system/PolicyTypes.hpp:191-194 | money is known exactly in a real currency with at most eighteen decimals |
| `Settlement.EventsExactly` | include/optionx_cpp/trading_system/Settlement.hpp:62-77 | an event is valid exactly if its ids are set and its kind is the one its evidence and profit lead to; terminal kinds are all but the unknown one |
| `Settlement.ClosingKindsExactly` | include/optionx_cpp/trading_system/ExecutionGroupAggregator.hpp:174-182 | the kind of a closed group is the sign of its net, or the refusal or cancellation of something that never ran |
| `Identity.ShapesExactly` | include/optionx_cpp/trading_system/Identity.hpp:146-158 | which member counts and group ids fit each cardinality, and what the slot of ZERO_OR_ONE is normalized to |
| `Identity.IntentsExactly` | include/optionx_cpp/trading_system/TradeIntent.hpp:36-43 | an intent is valid exactly if it is numbered and keyed, stands alone or in a series, and its group fits |
| `GroupLaws.RostersExactly` | include/optionx_cpp/trading_system/ExecutionGroupAggregator.hpp:25-39 | a roster is accepted exactly if it has as many different non-zero members as announced, known money, an intent and, beyond one member, a group id |
| `GroupLaws.RosterOpens` | include/optionx_cpp/trading_system/ExecutionGroupAggregator.hpp:25-39 | an accepted roster begins as a group of exactly its members, all open, without receipts |
| `GroupLaws.VerdictsExactly` | include/optionx_cpp/trading_system/ExecutionGroupAggregator.hpp:47-70 | each of the ten answers to an event is given if and only if its condition holds, stated without the order of the tests |
| `GroupLaws.EventIsFiled` | include/optionx_cpp/trading_system/ExecutionGroupAggregator.hpp:71-78 | an applied event is filed in its slot and among the receipts and nowhere else; any other answer changes nothing |
| `GroupLaws.PublishedFlags` | include/optionx_cpp/trading_system/ExecutionGroupAggregator.hpp:152-183 | in every group, open members included, the published count, uncertainty, closing, overflow and final flags are what the members say |
| `GroupLaws.PublishedMoney` | include/optionx_cpp/trading_system/ExecutionGroupAggregator.hpp:165-174 | the published profit is the exact net of the recorded members as soon as one of them earned, open members or not, and absent exactly if nobody did or no signed word holds it |
| `GroupLaws.PublishedKind` | include/optionx_cpp/trading_system/ExecutionGroupAggregator.hpp:174-182 | a kind is published exactly when the outcome is final: the sign of the net, or rejection, or cancellation |
| `GroupLaws.DeliveredOutcome` | include/optionx_cpp/trading_system/ExecutionGroupAggregator.hpp:146-183 | after any deliveries for distinct members of a group without records, full roster or not, the published outcome is computed from the list of deliveries alone |
| `SeriesLaws.IdleIs` | include/optionx_cpp/trading_system/SeriesProgression.hpp:38-38 | a new series is active at its own step and revision and has seen nothing |
| `SeriesLaws.RevisionsExactly` | include/optionx_cpp/trading_system/SeriesProgression.hpp:143-153 | each answer of the revision check is given if and only if its condition holds |
| `SeriesLaws.BeginExactly` | include/optionx_cpp/trading_system/SeriesProgression.hpp:43-76 | an operation begins exactly if the revision is current, the intent is the next step of this idle series, proposed or admitted, not of several executions and never used, and its roster is accepted |
| `SeriesLaws.IntentRefusalsExactly` | include/optionx_cpp/trading_system/SeriesProgression.hpp:51-68 | each reason to refuse an intent is given if and only if its condition is the first to fail |
| `SeriesLaws.BegunIs` | include/optionx_cpp/trading_system/SeriesProgression.hpp:70-89 | every field of the series that an accepted intent leaves: one revision on, waiting, bound to the intent and its open roster, both used sets extended |
| `SeriesLaws.DeliverExactly` | include/optionx_cpp/trading_system/SeriesProgression.hpp:92-108 | a delivery is answered by its id, then by revision and status, then by the group; applied exactly if all of them let it pass |
| `SeriesLaws.DeliveredIs` | include/optionx_cpp/trading_system/SeriesProgression.hpp:109-130 | status, step, revision, binding and receipts after an applied delivery, from the members of the group alone |
| `SeriesLaws.CompleteExactly` | include/optionx_cpp/trading_system/SeriesProgression.hpp:133-140 | a series is completed exactly if it has an id, is active, at the given revision and below both ceilings |
| `SeriesLaws.CompletesForGood` | include/optionx_cpp/trading_system/SeriesProgression.hpp:133-140 | an applied completion leaves the series completed and one revision on, and no later run of calls applies anything |
| `RiskLaws.NewBookIs` | include/optionx_cpp/trading_system/RiskAdmission.hpp:291-296 | a new owner knows no account and no reservation and has every id left |
| `RiskLaws.ConfigurationsExactly` | include/optionx_cpp/trading_system/RiskAdmission.hpp:59-63 | which configurations can admit at all |
| `RiskLaws.RequestsExactly` | include/optionx_cpp/trading_system/RiskAdmission.hpp:91-97 | which requests have a valid identity |
| `RiskLaws.SnapshotsExactly` | include/optionx_cpp/trading_system/RiskAdmission.hpp:47-50 | which account snapshots are valid |
| `RiskLaws.ReserveExactly` | include/optionx_cpp/trading_system/RiskAdmission.hpp:326-415 | a request is admitted if and only if the owner is usable, the request well-formed and new, an id is left, stake and risk are positive in one known money, a supported snapshot in that money is fresh, and the exact total stays within the word, the balance and the limit |
| `RiskLaws.IdentityRefusalsExactly` | include/optionx_cpp/trading_system/RiskAdmission.hpp:328-342 | duplicate, payload conflict, invalid request and configuration are answered if and only if their condition holds, a duplicate with the stored reservation |
| `RiskLaws.MoneyRefusalsExactly` | include/optionx_cpp/trading_system/RiskAdmission.hpp:343-369 | each refusal of a new request by its money or by the snapshot is given if and only if its condition holds |
| `RiskLaws.LimitRefusalsExactly` | include/optionx_cpp/trading_system/RiskAdmission.hpp:370-388 | each refusal by the exact total, the balance or the limit is given if and only if its condition holds |
| `RiskLaws.SubmissionExactly` | include/optionx_cpp/trading_system/RiskAdmission.hpp:278-282 | the caller may submit exactly after an admission or on a repeat of a request that is still only reserved |
| `RiskLaws.AdmittedIs` | include/optionx_cpp/trading_system/RiskAdmission.hpp:390-414 | every field of the stored reservation, both indexes and the next id after an admission |
| `RiskLaws.SnapshotExactly` | include/optionx_cpp/trading_system/RiskAdmission.hpp:300-324 | a snapshot replaces the known one exactly if it is valid, newer and in the same money; every other answer has its exact condition and changes nothing |
| `RiskLaws.CommitExactly` | include/optionx_cpp/trading_system/RiskAdmission.hpp:418-422 | a reservation is committed exactly if the token names it field by field and it is reserved; every other answer has its exact condition |
| `RiskLaws.ReleaseExactly` | include/optionx_cpp/trading_system/RiskAdmission.hpp:424-428 | the same for a release, from reserved alone |
| `RiskLaws.MarkUnknownExactly` | include/optionx_cpp/trading_system/RiskAdmission.hpp:430-437 | the same for an unknown execution, from reserved or submitted |
| `RiskLaws.SettleExactly` | include/optionx_cpp/trading_system/RiskAdmission.hpp:439-452 | the same for a settlement, from submitted or unknown, under proving evidence; without it the call is refused whatever is stored |
| `RiskLaws.ProvesExactly` | include/optionx_cpp/trading_system/RiskAdmission.hpp:170-213 | evidence proves a reservation if and only if it names its id, intent and group and lists one terminal event per expected member, nothing twice, whose plain sum is the claimed outcome |
| `BridgeLaws.StopRequestTakesEffect` | include/optionx_cpp/bridges/bot_binary/BotBinaryBridge.hpp:1158-1186 | in every world and whatever is being served, each form of request stops a bridge that runs or has anything left to join: stopping, not running, nobody admitted, every thread still there |
| `BridgeLaws.CallbackStopIsPending` | include/optionx_cpp/bridges/bot_binary/BotBinaryBridge.hpp:1167-1175 | inside a callback the stop stays pending behind a debtor and the handles stay in the state |
| `BridgeLaws.OutsideStopTakesHandles` | include/optionx_cpp/bridges/bot_binary/BotBinaryBridge.hpp:1177-1186 | elsewhere the caller leaves with all the handles |
| `BridgeLaws.NothingToStop` | include/optionx_cpp/bridges/bot_binary/BotBinaryBridge.hpp:1151-1165 | a request during a stop, or to a bridge with nothing to stop, changes nothing |
| `BridgeLaws.CanBeStoppedExactlyWhen` | include/optionx_cpp/bridges/bot_binary/BotBinaryBridge.hpp:1158-1165 | in an orderly world there is something to stop exactly while the bridge runs |
| `BridgeLaws.RequestedStopIsCarriedThrough` | include/optionx_cpp/bridges/bot_binary/BotBinaryBridge.hpp:988-1186 | any request to stop a running bridge leads, in every interleaving, to a stop that only a bounded number of productive steps precede, one of which is always possible |
| `BridgeLaws.RequestAdmittedExactlyWhen` | include/optionx_cpp/bridges/bot_binary/BotBinaryBridge.hpp:384-392 | a request is admitted exactly while the bridge runs, beside any number of others |
| `BridgeLaws.RequestEnds` | include/optionx_cpp/bridges/bot_binary/BotBinaryBridge.hpp:394-409 | a request that ends leaves, and owes the drain exactly if it was the last one under a pending stop |
| `BridgeLaws.DrainTakesExactlyWhen` | include/optionx_cpp/bridges/bot_binary/BotBinaryBridge.hpp:1107-1130 | a drain hands the handles to a finalizer exactly if a stop is pending and nobody is served |
| `BridgeLaws.DrainPaysDebt` | include/optionx_cpp/bridges/bot_binary/BotBinaryBridge.hpp:1107-1140 | after a drain the debtor is back at its request or gone, and all others are where they were |
| `BridgeLaws.LaunchPassesHandles` | include/optionx_cpp/bridges/bot_binary/BotBinaryBridge.hpp:1055-1105 | a failed start passes all it has taken to the thread it spawns |
| `BridgeLaws.FinishLeavesNothing` | include/optionx_cpp/bridges/bot_binary/BotBinaryBridge.hpp:1022-1027 | when the holder of the handles is done no thread, flag or handle is left |
| `BridgeLaws.FinishEndsStop` | include/optionx_cpp/bridges/bot_binary/BotBinaryBridge.hpp:1022-1219 | in any world the last lock scope ends the stop, and only the asynchronous one clears the pending flag |
| `BridgeLaws.ClaimStarts` | include/optionx_cpp/bridges/bot_binary/BotBinaryBridge.hpp:163-182 | a claim leaves an idle bridge running with everything reset |
| `BridgeLaws.InstallStartsThreads` | include/optionx_cpp/bridges/bot_binary/BotBinaryBridge.hpp:208-243 | a claimed run starts exactly the configured transports, unless it was stopped in between |
| `BridgeLaws.InstallTerminatesExactlyWhen` | include/optionx_cpp/bridges/bot_binary/BotBinaryBridge.hpp:213-240 | an install ends the process exactly if it assigns over a thread that is still to be joined |
| `BridgeLaws.AbortGivesBack` | include/optionx_cpp/bridges/bot_binary/BotBinaryBridge.hpp:198-206 | a run that cannot start leaves the bridge not running and changes nothing else |
| `Dedupe.DispatchAnswersExactly` | include/optionx_cpp/bridges/bot_binary/BotBinaryBridge.hpp:573-764 | each answer of a dispatch, with its reason, is given if and only if its condition on key and callbacks holds |
| `Dedupe.ReportsExactly` | include/optionx_cpp/bridges/bot_binary/BotBinaryBridge.hpp:573-764 | every answer but the accepted one is reported under its own name, and an escaping exception reports nothing |
| `Dedupe.RememberedExactly` | include/optionx_cpp/bridges/bot_binary/BotBinaryBridge.hpp:497-515 | after an acceptance the queue is the longest end of the old queue and the key that fits the size |
| `Dedupe.ForgottenExactly` | include/optionx_cpp/bridges/bot_binary/BotBinaryBridge.hpp:517-531 | forgetting cuts the key out of the queue and leaves the others in their order |
| `JsonLaws.SpacesExactly` | include/optionx_cpp/utils/json_comments.hpp:116-118 | which characters are white space, and which of them end a line |
| `JsonLaws.LineStartMeans` | include/optionx_cpp/utils/json_comments.hpp:79-130 | the line-start flag says that since the last kept line break there was only kept white space |
| `JsonLaws.HashOpensExactlyWhen` | include/optionx_cpp/utils/json_comments.hpp:113-124 | a hash opens a comment exactly at the text start, behind white space or on an otherwise white line |
| `JsonLaws.CodeExactly` | include/optionx_cpp/utils/json_comments.hpp:79-130 | outside strings and comments a character is removed exactly if it opens a comment, and a string begins exactly at an unescaped quote |
| `LifecycleLaws.EmptyIs` | include/optionx_cpp/lifecycle/LifecycleStack.hpp:105-109 | a new stack has no modules, and nothing is requested, asked or stopped |
| `LifecycleLaws.AddExactly` | include/optionx_cpp/lifecycle/LifecycleStack.hpp:28-36 | a new module goes behind the others, exactly before the request and never twice |
| `LifecycleLaws.RequestIsMade` | include/optionx_cpp/lifecycle/LifecycleStack.hpp:71-76 | the first request is registered and asks the last module unless that is found stopped; a second one changes nothing |
| `LifecycleLaws.TurnExactly` | include/optionx_cpp/lifecycle/LifecycleStack.hpp:60-65 | a module runs exactly if it is not seen stopped, and its request is taken up at once |
| `LifecycleLaws.ProcessExactly` | include/optionx_cpp/lifecycle/LifecycleStack.hpp:54-68 | a process call is a round of turns and then a walk exactly if the shutdown has been requested by then; it stops the stack exactly if all modules have stopped |
| `TradingWindow.WeekdaysExactly` | include/optionx_cpp/trading_system/Filters.hpp:213-213 | the calendar: weekdays follow each other, and two known days have theirs; without listed weekdays every day is allowed |
| `TradingWindow.WindowsExactly` | include/optionx_cpp/trading_system/Filters.hpp:30-42 | a window holds the seconds from its start round the clock for its length, the end not included |
| `TradingWindow.OpenExactly` | include/optionx_cpp/trading_system/Filters.hpp:196-246 | a time is covered, or open, exactly by a stretch that began at the start second of some, or of some allowed, day |
| `MoneyLaws.NotationExactly` | include/optionx_cpp/trading_system/PolicyTypes.hpp:228-249 | ten digits, each place worth ten times the next |
| `MoneyLaws.FormsDenote` | include/optionx_cpp/trading_system/PolicyTypes.hpp:201-272 | a text with an optional sign, digits and perhaps a dot and more digits denotes those digits scaled to the precision, and only that |
| `MoneyLaws.OnlyFormsDenote` | include/optionx_cpp/trading_system/PolicyTypes.hpp:201-272 | no other text denotes an amount |
| `MoneyLaws.TextsInHundredths` | include/optionx_cpp/trading_system/PolicyTypes.hpp:201-272 | concrete texts with plus, minus, a leading and a trailing dot, and their worth |
| `MoneyLaws.TextsWithoutAmount` | include/optionx_cpp/trading_system/PolicyTypes.hpp:201-272 | a digit too many, a lone dot and the empty text denote nothing |
| `MoneyLaws.PrintedShape` | include/optionx_cpp/trading_system/PolicyTypes.hpp:275-293 | an amount prints with an optional minus, no leading zeros and exactly its precision in decimals; unknown money prints as nothing |
| `MoneyLaws.RoundedExactly` | include/optionx_cpp/trading_system/Sizing.hpp:17-21 | the three roundings are the quotients towards zero, away from it and to the nearest with ties away |
| `MoneyLaws.PercentagesExactly` | include/optionx_cpp/trading_system/Sizing.hpp:26-82 | percentages are proportional, and all basis points make the whole balance in every mode |
| `MoneyLaws.HalfACent` | include/optionx_cpp/trading_system/Sizing.hpp:59-81 | concrete halves, and what each mode makes of them |
| `MoneyLaws.PoliciesExactly` | include/optionx_cpp/trading_system/Sizing.hpp:26-39 | which inputs can be sized and which policies are valid |

## Left out

- Visiting order: loops over the source's ordered maps and sets visit the elements in an arbitrary order here; no result depends on it.
- Allocation failure and exceptions of the containers: copy-and-swap publication is modelled, its behaviour on a failed allocation is not.
- `TradeIntent` fields that no modelled code reads (the request and its own revision); JSON conversion, enum names and logging.
- `Sizing.Evaluate`: covers policies made from basis points; the constructor from a floating-point percentage is not part of this model, and fixed stakes would add only an easy member.
- `BridgeRuns.StopHasOneOwner`: assumes, as the source's callers do, that one thread at a time calls `run`, that finalizers run on a thread of their own, and that stopping a server and joining a thread do not throw; the detach path is not modelled.
- `BridgeRuns.StopIsNeverLost`: bounds the productive steps and shows one is always possible; that the scheduler eventually takes it is an assumption, not a theorem.
- Waiting on the condition variable: a caller that waits for the end of a stop is a step that changes nothing.
- `Dedupe.DedupeCache.DispatchCommand`: handles the key, the answer and the kind of report; signal construction and the report's content are not modelled, and other users of the cache do not run during the callbacks here (`DedupeRuns` covers them).
- File polling: listings are sequences of names, and the directories in `FilePolls.PollsDispatch` keep their files and their order; deletion, directory errors and the content of signals are not modelled. HTTP, parsing and path handling are left out.
- `Lifecycle.LifecycleStack.AddModule`: modules are addresses with one kind of state instead of objects behind an interface; a nested stack is such a module, as long as it is not part of a cycle.
- `Lifecycle.LifecycleStack.Process`: the method does not end by an exception; a call that a module leaves by one is a call of its own in `LifecycleRuns`, which advances nothing. Calls of `process` from a module's `shutdown` are only in `LifecycleReentry`, one deep.
- `TradingWindow.TradingWindowFilter.Evaluate`: starts from local seconds and rounds down to days, before the epoch too; time_shield is not part of this model, and the symbol and source filters would add only easy members.
- The symbol and price source of a history request are copied unchanged and not modelled, nor are the checks of delivered bars and ticks.
- `Lifecycle.Module` budgets: modules never un-stop; one that never stops is represented over each finite run by one with a larger budget.
- The market-data router, the databases, the trade executors, the other bridges, the MetaTrader file writer, codecs, hubs and the browser extension.
