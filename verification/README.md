# VPS Guardian: models and proofs

This project models the parts of VPS Guardian that keep accounts, run protocols and promise
something over whole runs, and proves those promises in Dafny. It verifies with
`dafny verify dfyconfig.toml`.

What is modelled, component by component:

- **Net helper** (`agent/nethelper`). Policies and their kernel names (`PolicyModel`), the rendering
  order (`PolicyOrder`), the emitted nft transaction with an interpreter for it (`NftTable`), what
  the rules do to packets (`NftPackets`, `NftKernel`), applying with rollback (`HelperNetwork`),
  folding counters and editing the policy list (`HelperAccounting`), the bounded nonce store
  (`HelperNonces`), the helper object (`NetHelper`), how its requests end (`HelperChanges`), what a
  snapshot puts back (`HelperHealing`), conservation over every run (`HelperRuns`), and where it
  fails (`HelperFailures`).
- **Traffic accounting of the controller** (`port_traffic.py`). Civil dates (`Calendar`), the reset
  schedule (`ResetSchedule`), its validation (`ResetValidation`), ingestion with hourly and daily
  rollups (`TrafficRollups`), raw history (`TrafficHistory`).
- **Agent identity lifecycle** (`api.py`). The protocol and its invariants (`IdentityLifecycle`),
  whose requests are accepted (`IdentityAuthentication`), and the rows the handlers assign
  (`IdentityStore`).
- **Replay, delivery, execution**. Signed requests (`AgentReplay`), the disk queue and the agent loop
  (`DiskQueue`), executing tasks once (`AgentActions`).
- **State machines with run properties**. Alerts (`Alerts`, `AlertRuns`), enrollment sessions (`Enrollment`,
  `EnrollmentRuns`) and their limiter (`EnrollmentLimiter`), notification delivery
  (`NotificationDelivery`), the lifecycle journal (`LifecycleJournal`), backup manifests
  (`RecoveryMetadata`, `RecoveryManifest`, `RecoveryVerification`, `RecoveryChecks`).

`Base`, `StringOrder` and `Paths` hold shared definitions.

Each component follows one plan. A specification function gives the effect of one operation. Where the
source updates fields step by step, a class or a method does the same and its `ensures` equates the
new state with that function. Runs are sequences of events over the specification, and the main
results are lemmas about every run. For the checks an operation makes, lemmas named `...Iff`,
`...Plainly` and `...Ends` say on the stored fields and the events alone what is accepted and what
follows.

Four places where the code does less than one would expect are stated exactly:

- Two branches of the helper absorb counters without restarting them (a committed dry run, a failed
  restore). `HelperRuns.InPlaceBalancedIff` says they keep conservation if and only if every policy
  counter reads zero; `HelperFailures` gives a reachable host on which each counts bytes twice, and says
  when a failed operation loses bytes.
- Finalizing a decommission revokes the identity named by its session, which need not be the active
  one any more. `IdentityLifecycle.DecommissionIsCleanIff` and `StuckWhileActiveRemains` say when an
  active identity is left behind and that the host then cannot enroll again;
  `DecommissionLeavesActive` is a run that ends so.
- Silencing one alert stores a silence with no matchers, and a silence without matchers meets every
  rule. `Alerts.SuppressionIsGlobal` and `OneSilenceMutesAll` say that it mutes every alert until it ends.
- Raising the request lifetime lets an old request in again. `AgentReplay.ReplayIff` says exactly when.

And a staged backup tree does not always verify against its own manifest:
`RecoveryVerification.WrittenVerifiesIff` gives the exact condition, `BackslashDoesNotVerify` and
`NestedManifestDoesNotVerify` trees that fail it.

## Model

| member | source | states |
|---|---|---|
| `PolicyModel.ParsePolicy` | agent/nethelper/types.go:90-169 | a decoded policy lies within every bound (ports, span of at most 4096, quota, rate 0 or at least 8000, generation from 1 to 2^31-1, quota required when enforcing) and starts with empty accounts |
| `PolicyModel.ParsesIff` | agent/nethelper/types.go:90-169 | exactly when a request's policy is decoded: identifier, words, port range, quota, rate, generation, interface, reset policy and next reset |
| `PolicyModel.ParsedCarriesRequest` | agent/nethelper/types.go:164-169 | the decoded policy has the protocol, direction, mode, ports, interface, quota, rate, generation and reset settings of the request |
| `PolicyModel.NamesPlainly` | agent/nethelper/types.go:178-180 | the counters and the quota are named after the five groups of the identifier |
| `PolicyModel.PolicyKeyInjective` | agent/nethelper/types.go:178-180 | two valid policy identifiers that give the same kernel key are equal, although the key drops the dashes |
| `PolicyModel.CounterNameInjective` | agent/nethelper/network.go:75-86 | a counter name determines its policy and its direction |
| `PolicyModel.QuotaNameInjective` | agent/nethelper/network.go:87-101 | a quota name determines its policy |
| `PolicyOrder.SortForgetsOrder` | agent/nethelper/network.go:73-74 | two lists of the same distinct policies are rendered in the same order |
| `NftTable.RenderNft` | agent/nethelper/network.go:50-142 | the emitter's passes over the sorted policies produce the specified transaction |
| `NftTable.RenderObjects` | agent/nethelper/network.go:75-101 | per policy, the two counters and, when enforcing, the quota |
| `NftTable.RenderRules` | agent/nethelper/network.go:104-139 | per policy and protocol, the counting rule of each direction, with the quota drop when enforcing |
| `NftTable.RenderInstalls` | agent/nethelper/network.go:50-142 | run where the table's existence is as stated, the transaction succeeds and leaves exactly the ruleset of the policies, whatever the table held before |
| `NftTable.RenderForgetsOrder` | agent/nethelper/network.go:73-74 | the stored order of the policies does not reach the kernel |
| `NftTable.RealisesUnique` | agent/nethelper/network.go:50-142 | two kernels that hold the ruleset of the same policies are equal: chains, counters and quotas |
| `NftPackets.TraversePolicy` | agent/nethelper/network.go:104-139 | all rules of one policy together count a packet at most once, also for a tcp-and-udp policy |
| `NftPackets.PacketsAreCountedOnce` | agent/nethelper/network.go:104-139 | in a rendered chain a policy counts a packet exactly once if it watches it and no earlier policy dropped it, and never otherwise; nothing else is counted |
| `NftKernel.KernelCountsIff` | agent/nethelper/network.go:104-139 | in the kernel after the transaction a policy counts a packet exactly once if and only if way, interface, port and layer-4 protocol fit its fields and no policy with a lesser identifier dropped the packet |
| `NftKernel.KernelDropsIff` | agent/nethelper/network.go:110-139 | a packet is dropped if and only if it is traffic of some enforcing policy whose quota is used up |
| `NftKernel.KernelObjects` | agent/nethelper/network.go:75-101 | after the transaction the kernel has exactly the counters and quotas the policies ask for, each quota with what the period leaves of it |
| `HelperNetwork.Kernel.RunNft` | agent/nethelper/network.go:380-385 | a transaction is atomic: a refused or failing one leaves the table as it was |
| `HelperNetwork.Kernel.ApplyNetwork` | agent/nethelper/network.go:375-405 | preflight, transaction, traffic control, verification, in this order, with the rollback after a late failure |
| `HelperNetwork.Kernel.RollBack` | agent/nethelper/network.go:386-403 | the rollback transaction is rendered for the table as it then is |
| `HelperNetwork.RealisedIsVerified` | agent/nethelper/network.go:407-453 | the desired ruleset passes the counter check made after an apply |
| `HelperNetwork.ApplyEnds` | agent/nethelper/network.go:375-405 | success leaves exactly the desired ruleset; a refused preflight or transaction leaves the kernel untouched; a later failure brings back exactly the previous ruleset if the rollback runs and leaves the desired one if it does not |
| `HelperHealing.ApplySucceedsIff` | agent/nethelper/network.go:375-405 | an apply succeeds if and only if every shaped policy names an interface, traffic control cooperates where a rate is limited, nft runs if there is anything to run, and the check passes |
| `HelperHealing.SnapshotHeals` | agent/nethelper/main.go:133-151 | after a snapshot whose restore meets no fault the kernel shows every counter of every stored policy; where the devices pass their check it leaves the ruleset alone if and only if none was missing |
| `HelperHealing.SnapshotActsIff` | agent/nethelper/main.go:139-147 | whatever the faults, a snapshot touches the kernel if and only if the devices fail their check or a counter or the table is missing, or a table is there without policies |
| `HelperHealing.SnapshotHealsEveryRun` | agent/nethelper/main.go:133-151 | after any run, whatever was lost in the kernel, such a snapshot leaves every counter of every stored policy in place |
| `HelperAccounting.AbsorbCounters` | agent/nethelper/network.go:179-198 | the loop adds to each total what its counter gained since it was last read, nothing when it reads less than then, and expects counters at zero next |
| `HelperAccounting.CheckpointOne` | agent/nethelper/main.go:157-238 | one turn of the snapshot loop: the folded policy and its report, with period bytes, quota state, missing rules and discontinuity |
| `HelperAccounting.TakeCheckpoint` | agent/nethelper/main.go:152-239 | the snapshot loop folds and reports every policy in its place |
| `HelperAccounting.FindPolicy` | agent/nethelper/main.go:66-73 | the position of the identifier, or -1 exactly when it is absent |
| `HelperAccounting.ComputeDesiredState` | agent/nethelper/main.go:82-131 | the edit of the copied list equals the specified transition, with its refusals |
| `HelperAccounting.DesiredSane` | agent/nethelper/main.go:82-131 | no request breaks the stored state: distinct identifiers, at most 64 policies, all bounds, no period start beyond its total |
| `HelperAccounting.RequestKeepsAccounts` | agent/nethelper/main.go:93-128 | an apply keeps the totals, period and generation of an existing policy; a reset starts the period at the total and raises the generation by one; only an apply brings in a policy, with empty accounts |
| `HelperAccounting.RequestKeepsPolicies` | agent/nethelper/main.go:93-128 | a removal takes exactly one policy away, and the other operations none |
| `HelperAccounting.RequestSetsThePolicy` | agent/nethelper/main.go:82-131 | after an apply the policy of that identifier has the rule, mode, quota, rate and reset settings of the request; after a reset it keeps its rule and takes the reset settings; every other policy is as it was |
| `HelperAccounting.RequestAcceptedIff` | agent/nethelper/main.go:82-131 | exactly when a request is accepted: a new policy with fewer than 64 stored and no protocol and port that a stored one already covers, a change of a stored policy and a removal always, a reset of a stored policy |
| `HelperAccounting.AnswersTheStoredGeneration` | agent/nethelper/main.go:119-131 | the generation answered is that of the policy as it is then stored, and the request's where none is |
| `HelperAccounting.OverlapIsSharedTraffic` | agent/nethelper/main.go:75-80 | two policies overlap if and only if some protocol and port belongs to both |
| `HelperAccounting.QuotaThresholds` | agent/nethelper/main.go:179-207 | the reported quota state by used and allowed bytes |
| `HelperAccounting.KernelQuotaNeverRegrants` | agent/nethelper/network.go:87-101 | the kernel quota of an enforcing policy lies in 1..quota, and with what the period used it makes up the quota while any is left |
| `HelperNonces.Sweep` | agent/nethelper/authorization.go:134-147 | the loop drops exactly the expired nonces and finds one that expires first |
| `HelperNonces.ConsumeNonce` | agent/nethelper/authorization.go:134-150 | sweep, evict one when full, insert |
| `HelperNonces.ConsumeBounded` | agent/nethelper/authorization.go:134-150 | one use keeps the store within 4096 entries and its expiries within the window |
| `HelperNonces.StoreStaysBounded` | agent/nethelper/store.go:57-59 | over every run the store has at most 4096 entries, so the helper reloads what it wrote |
| `HelperNonces.UsedNonceIsRemembered` | agent/nethelper/authorization.go:134-150 | a used nonce is still stored, or has expired, or an unexpired nonce that expires no earlier was evicted |
| `HelperNonces.NeverAcceptedTwice` | agent/nethelper/authorization.go:78-83 | an authorization whose expiry is greater than that of every live nonce evicted so far is never accepted twice |
| `HelperNonces.NothingForgottenBelowTheLimit` | agent/nethelper/authorization.go:134-150 | while no use finds the store full of unexpired nonces, no authorization is accepted twice |
| `HelperNonces.FewUsesNeverFill` | agent/nethelper/authorization.go:134-150 | up to 4096 uses never fill the store |
| `HelperNonces.UseKeepsAllButTheOldest` | agent/nethelper/authorization.go:134-150 | a use evicts if and only if 4096 unexpired nonces are stored, and then one that expires first; the other unexpired ones stay |
| `HelperNonces.AcceptedIff` | agent/nethelper/authorization.go:72-83 | over every run that never fills the store, an authorization is accepted if and only if it is sound, has a nonce of at least 16 characters, expires within 900 seconds, and no earlier use of the nonce was unexpired at the last use |
| `NetHelper.Helper.TakeSnapshot` | agent/nethelper/main.go:133-240 | read, verify, restore if needed, reread, fold, write: the new policies and kernel table, and a report of each policy that says whether the ruleset was restored |
| `NetHelper.Helper.Execute` | agent/nethelper/main.go:265-387 | a signed apply, remove or reset: refused checks change nothing, and otherwise policies, nonces and kernel end as the outcome says; the answer carries the generation of the desired state |
| `NetHelper.Helper.Change` | agent/nethelper/main.go:343-387 | absorb, edit, consume the nonce, apply, write; the answer carries the generation of the desired state |
| `NetHelper.Helper.Commit` | agent/nethelper/main.go:372-387 | a state that cannot be written is undone in the kernel, and the old accounts are written if they can be |
| `NetHelper.Helper.ExecuteDryRun` | agent/nethelper/main.go:330-371 | a signed dry run consumes its nonce and commits the absorbed totals, changes no policy and no kernel object, and answers with the generation the change would give |
| `NetHelper.Helper.DryRun` | agent/nethelper/main.go:343-371 | the part of a dry run after its checks |
| `NetHelper.Helper.Purge` | agent/nethelper/main.go:301-324 | the table is removed, then the policies and nonces; a failed write is undone |
| `HelperChanges.ChangeEnds` | agent/nethelper/main.go:343-387 | exactly when an apply, removal or reset reaches the disk, with the ruleset of the desired policies in the kernel; one that cannot be written is taken back |
| `HelperChanges.PurgeEnds` | agent/nethelper/main.go:301-324 | a purge without a fault leaves no policy and no table; one that cannot be written is taken back |
| `HelperChanges.DryRunEnds` | agent/nethelper/main.go:355-371 | a dry run leaves the kernel alone and commits exactly the absorbed totals, if and only if the change would be accepted and the state is written |
| `HelperChanges.CommittedIsRefused` | agent/nethelper/main.go:372-387 | what is committed for an authorization is stored with its nonce, so it is refused afterwards; a request that commits nothing uses up no nonce |
| `HelperRuns.ApplyRestartsOrKeeps` | agent/nethelper/network.go:375-405 | every apply, failed or not, leaves all counters alone or restarts all of them |
| `HelperRuns.CommitCases` | agent/nethelper/main.go:372-387 | after a change the disk holds nothing new, the desired state, or the old accounts, and whenever it holds something new the counters have restarted |
| `HelperRuns.NothingCommitted` | agent/nethelper/main.go:372-387 | an operation that commits nothing never raises a counter |
| `HelperRuns.StepSane` | agent/nethelper/main.go:265-387 | every event keeps the stored state sane |
| `HelperRuns.StepBalanced` | agent/nethelper/main.go:133-178 | every event that reads no byte twice keeps both sides of conservation |
| `HelperRuns.InPlaceBalancedIff` | agent/nethelper/main.go:139-151 | from a state in which nothing vanished, an absorption without a restart (a committed dry run, a failed restore) keeps conservation if and only if every policy counter reads zero |
| `HelperRuns.StepGains` | agent/nethelper/main.go:157-178 | a policy stored before and after an event keeps its total or gains |
| `HelperRuns.StepPeriods` | agent/nethelper/main.go:119-128 | a reset closes the running period, a new policy has none, everything else leaves the periods alone |
| `HelperRuns.PeriodsOverRuns` | agent/nethelper/main.go:82-131 | in every reachable state identifiers are distinct, at most 64 policies are stored, period starts do not exceed totals, and the closed periods and the running one make up the lifetime total |
| `HelperRuns.ConservationOverRuns` | agent/nethelper/network.go:179-198 | over every run that reads no byte twice, a total plus the unread part of its counter never exceeds the bytes really counted, and falls short of them by no more than what vanished |
| `HelperRuns.ExactWithoutLoss` | agent/nethelper/network.go:179-198 | when no byte left a counter uncommitted, neither outside the helper nor in a failed operation of its own, the total plus the unread bytes equals the bytes really counted |
| `HelperRuns.TotalsNeverDecrease` | agent/nethelper/main.go:133-178 | while a policy stays stored its totals never decrease, whatever happens, including dry runs and failed restores |
| `HelperFailures.HelperLosesIff` | agent/nethelper/main.go:372-387 | the helper itself loses bytes if and only if it replaced the ruleset, could commit nothing and the counter was not zero; then it loses the whole counter |
| `HelperFailures.BusyIsReached` | agent/nethelper/main.go:343-387 | one apply and five bytes of traffic, a legal run, lead to the host of the next two rows |
| `HelperFailures.DryRunCountsTwice` | agent/nethelper/main.go:355-371 | on that host, balanced before, a committed dry run breaks conservation |
| `HelperFailures.FailedRestoreCountsTwice` | agent/nethelper/main.go:139-151 | on that host, balanced before, a committed snapshot whose restore nft refused breaks conservation |
| `ResetSchedule.NextReset` | controller/guardian/port_traffic.py:174-218 | for every policy type the result is the least date of the schedule after the local day, none for a manual or past fixed-date policy, an error past the last representable year |
| `ResetSchedule.JumpDays` | controller/guardian/port_traffic.py:206-211 | the closed form for day intervals yields the least scheduled day after today |
| `ResetSchedule.StepMonths` | controller/guardian/port_traffic.py:212-217 | the stepping loop ends, and yields the least scheduled date after today |
| `ResetSchedule.MonthlyLeast` | controller/guardian/port_traffic.py:185-189 | the clamped day of this month, or of the next, is the least monthly date after today |
| `ResetSchedule.YearlyLeast` | controller/guardian/port_traffic.py:190-201 | the clamped date of this year, or of the next, is the least yearly date after today |
| `ResetSchedule.ClosedFormLeast` | controller/guardian/port_traffic.py:206-211 | whole intervals elapsed and one more lead to the least step after today |
| `ResetSchedule.MonthsLeast` | controller/guardian/port_traffic.py:212-217 | the first step after today is the least scheduled date after it |
| `ResetSchedule.NoMonthEndDrift` | controller/guardian/port_traffic.py:162-164 | stepping from a step gives the next step: clamping to a short month leaves no trace in later ones |
| `ResetSchedule.NextIsUnique` | controller/guardian/port_traffic.py:174-218 | the schedule alone determines the answer |
| `ResetSchedule.ChainSkipsNothing` | controller/guardian/port_traffic.py:923-932 | computing each boundary from the previous one enumerates the schedule strictly increasing with no date skipped |
| `ResetSchedule.NextResetAt` | controller/guardian/port_traffic.py:174-218 | on instants: the local midnight of the next date, a later instant |
| `ResetSchedule.MidnightIsOnItsDate` | controller/guardian/port_traffic.py:218 | the instant computed for a date falls on that date locally |
| `ResetSchedule.NextAfterBoundary` | controller/guardian/port_traffic.py:923-932 | started from a due boundary the computation yields the boundary after it |
| `ResetSchedule.SchedulePlainly` | controller/guardian/port_traffic.py:158-218 | the dates of each policy type by day, month and day number alone: clamped days, whole multiples of days from the anchor, whole multiples of months from it |
| `ResetSchedule.LocalDatePlainly` | controller/guardian/port_traffic.py:180-218 | an instant is on a local date exactly when it lies in the 24 hours from its midnight, counted by the leap-year rule from 0001-01-01 |
| `Calendar.DayNumberPlainly` | controller/guardian/port_traffic.py:158-164 | day numbers count the days of the proleptic Gregorian calendar: 365 a year, a leap day every fourth year but not in centuries indivisible by 400 |
| `ResetValidation.ValidatedIsNormalized` | controller/guardian/port_traffic.py:104-155 | an accepted document is a policy within the bounds the date computation needs, with every interval at least one |
| `ResetValidation.ValidateIdempotent` | controller/guardian/port_traffic.py:104-155 | validating the stored form gives it back |
| `ResetValidation.ValidatesIff` | controller/guardian/port_traffic.py:104-155 | a document is accepted if and only if it has no unknown field, a known type and time zone, and the fields of its type within their bounds; exactly those fields are stored |
| `TrafficRollups.TrafficStore.IngestObservations` | controller/guardian/port_traffic.py:481-572 | the loop over a heartbeat's observations equals ingesting them one by one, and returns exactly the enabled policies it names whose latest sample is of that time |
| `TrafficRollups.TrafficStore.IngestOne` | controller/guardian/port_traffic.py:500-572 | one observation: ignored when not later than the last sample, otherwise stored with its contribution to the hour and the day |
| `TrafficRollups.TrafficStore.UpdateRollup` | controller/guardian/port_traffic.py:441-478 | find or create the row, then add to each field |
| `TrafficRollups.RollupsRefineSamples` | controller/guardian/port_traffic.py:510-572 | over every run of arrivals in any order, the incremental rollups equal the grouping of the stored samples, and sample times strictly increase |
| `TrafficRollups.LateArrivalsChangeNothing` | controller/guardian/port_traffic.py:506-519 | an observation at an equal or older time changes no sample and no rollup |
| `TrafficRollups.LaterArrivalAdds` | controller/guardian/port_traffic.py:506-572 | in every run a later observation adds to the rows of its hour and its day both counter differences if the generation is equal and neither counter fell, and no bytes otherwise; no other row changes |
| `TrafficRollups.FirstArrivalAdds` | controller/guardian/port_traffic.py:520-572 | the first observation of a policy adds no bytes, no interval and no gap |
| `TrafficRollups.RowsNeverNegative` | controller/guardian/port_traffic.py:520-572 | in every run no hourly or daily row has negative bytes |
| `TrafficRollups.BatchIsPerPolicy` | controller/guardian/port_traffic.py:481-500 | a batch treats every enabled policy as if it were alone and leaves the others as they were |
| `TrafficRollups.FirstOfBatchWins` | controller/guardian/port_traffic.py:500-519 | of several observations of one policy in a batch only the first can count |
| `TrafficRollups.DailyIsSumOfHourly` | controller/guardian/port_traffic.py:434-478 | in every run each daily row is the sum of that day's hourly rows in every field |
| `TrafficRollups.StretchIsMaximal` | controller/guardian/port_traffic.py:520-540 | the stretches over which counters are subtracted are maximal same-generation nondecreasing ones |
| `TrafficRollups.IntervalsTelescope` | controller/guardian/port_traffic.py:520-540 | summed contributions are the telescoped counter differences of the stretches |
| `TrafficRollups.RollupsConserveBytes` | controller/guardian/port_traffic.py:510-572 | over any range of hours covering the samples, the rolled-up bytes are the telescoped differences: no byte lost or counted twice between rows |
| `TrafficHistory.QueryRaw` | controller/guardian/port_traffic.py:699-744 | the raw query walks the selected samples with a baseline and yields the specified points |
| `TrafficHistory.PointsOfWindow` | controller/guardian/port_traffic.py:699-744 | the points of an hour inside a window carry exactly the contributions of its samples |
| `TrafficHistory.RawHistoryAgreesWithRollup` | controller/guardian/port_traffic.py:699-744 | for every run and every unlimited raw window holding an hour's samples and the one before, the hour's raw points add up to its rollup row, missing intervals included |
| `TrafficHistory.WindowHolds` | controller/guardian/port_traffic.py:699-722 | the window of a raw query holds exactly the samples between its ends, both included |
| `TrafficHistory.PointsPlainly` | controller/guardian/port_traffic.py:722-744 | each point of the raw history: both counter differences to the sample before if the generation is equal and neither counter fell, otherwise none, and the whole minutes missed between them |
| `IdentityLifecycle.StepSound` | controller/guardian/api.py:4962-5596 | no handler breaks the lifecycle invariant |
| `IdentityLifecycle.StepForward` | controller/guardian/api.py:5224-5263 | identity states only move forward, and generations and credentials never change |
| `IdentityLifecycle.LifecycleOverRuns` | controller/guardian/api.py:5016-5364 | over every run generations are distinct and at most the version, at most one identity is active and one pending, and an unrevoked agent has exactly one active identity whose credentials its row mirrors |
| `IdentityLifecycle.WinClaims` | controller/guardian/api.py:4962-4980 | a request that names a version and takes effect found that version, and raised it by one or, finalizing a decommission, revoked the agent |
| `IdentityLifecycle.OneWinnerPerVersion` | controller/guardian/api.py:4962-4980 | no two requests naming the same version both take effect, unless both finalize a decommission |
| `IdentityLifecycle.HeartbeatsCounted` | controller/guardian/api.py:6153-6190 | the counter of an identity is the number of its authenticated heartbeats while pending |
| `IdentityLifecycle.TwoHeartbeatsBeforeActivation` | controller/guardian/api.py:5300-5364 | a prepared identity is active only after at least two of its own heartbeats arrived while it was pending |
| `IdentityLifecycle.DecommissionIsCleanIff` | controller/guardian/api.py:5966-5988 | a finalized decommission leaves no active identity if and only if the session's identity is still the active one |
| `IdentityLifecycle.DecommissionLeavesActive` | controller/guardian/api.py:5966-5988 | a decommission session created before a renewal is accepted after it and leaves the renewed identity active |
| `IdentityLifecycle.StuckWhileActiveRemains` | controller/guardian/api.py:6025-6104 | a revoked agent that kept an active identity stays so under every request but another decommission |
| `IdentityLifecycle.CleanAgentCanEnroll` | controller/guardian/api.py:3064-3096 | a revoked agent without an active identity can be enrolled with any new certificate |
| `IdentityAuthentication.DistinctOverRuns` | controller/guardian/api.py:5016-5263 | over every run a fingerprint, a serial number and a rotation each name at most one identity of the agent |
| `IdentityAuthentication.AcceptedOverRuns` | controller/guardian/agent_security.py:124-145 | over every run of an agent a heartbeat is accepted if and only if the agent is not revoked and the fingerprint is that of an identity that is active, retiring, or pending before its expiry |
| `IdentityAuthentication.HeartbeatAcceptedIff` | controller/guardian/api.py:6146-6190 | the heartbeat of an identity is accepted exactly while it is live and the agent unrevoked, and counts for that identity alone, while it is pending |
| `IdentityAuthentication.FinishedIsRefusedForGood` | controller/guardian/agent_security.py:124-145 | once an identity is revoked or retired, no heartbeat, validation or renewal with its certificate is accepted ever again |
| `IdentityAuthentication.ExpiredIsRefusedForGood` | controller/guardian/agent_security.py:124-145 | once a pending identity is past its expiry, no later heartbeat, validation or renewal with its certificate is accepted, and it never becomes active |
| `IdentityAuthentication.ValidateAcceptedIff` | controller/guardian/api.py:5504-5548 | a validation needs the pending identity's own certificate before its expiry and the current version |
| `IdentityAuthentication.RenewAcceptedIff` | controller/guardian/api.py:5169-5263 | a renewal needs the active identity's own certificate, an unused rotation, an unused new certificate and the current version |
| `IdentityAuthentication.PrepareAcceptedIff` | controller/guardian/api.py:5016-5161 | a new pending identity needs an unused certificate and no pending one before its expiry; a known rotation is accepted with its own certificate and changes nothing |
| `IdentityAuthentication.ActivateAcceptedIff` | controller/guardian/api.py:5280-5364 | an activation before the expiry needs the proof and two heartbeats, and takes over from the active identity; after it, the identity is retired |
| `IdentityAuthentication.EnrollAcceptedIff` | controller/guardian/api.py:3064-3096 | enrollment again needs a revoked agent without an active identity and an unused certificate |
| `IdentityAuthentication.MoveComesFrom` | controller/guardian/api.py:4962-5596 | every change of an identity's state has its own request |
| `IdentityAuthentication.ProofComesFrom` | controller/guardian/api.py:5504-5548 | an identity counts as proved only after a request made with its own certificate, while pending and before its expiry |
| `IdentityStore.AgentRecord.constructor` | controller/guardian/api.py:3064-3096 | the first enrollment creates generation 1, active and mirrored |
| `IdentityStore.AgentRecord.ClaimVersion` | controller/guardian/api.py:4962-4980 | the compare-and-set wins exactly on the expected version and then raises it |
| `IdentityStore.AgentRecord.Bootstrap` | controller/guardian/api.py:3064-3096 | re-enrollment of a revoked agent, field by field |
| `IdentityStore.AgentRecord.PrepareIdentity` | controller/guardian/api.py:5016-5161 | replay of a rotation, expiry of an old pending identity, version claim, new pending identity |
| `IdentityStore.AgentRecord.RecordHeartbeat` | controller/guardian/api.py:6153-6190 | a pending identity's heartbeat is counted and proves possession; an active one changes nothing; a disabled host is turned away |
| `IdentityStore.AgentRecord.ValidateIdentity` | controller/guardian/api.py:5504-5548 | a proof of possession outside a heartbeat counts no heartbeat |
| `IdentityStore.AgentRecord.RenewCertificate` | controller/guardian/api.py:5169-5263 | the active identity retires and its successor becomes active and mirrored in one step |
| `IdentityStore.AgentRecord.ActivateIdentity` | controller/guardian/api.py:5280-5364 | activation of a verified pending identity with two heartbeats, or retirement of an expired one |
| `IdentityStore.AgentRecord.RetirePending` | controller/guardian/api.py:5452-5495 | an operator retires a pending identity |
| `IdentityStore.AgentRecord.RevokeRetiring` | controller/guardian/api.py:5376-5421 | a retiring identity is revoked on matching revocation evidence; repeating it changes nothing |
| `IdentityStore.AgentRecord.Revoke` | controller/guardian/api.py:5557-5596 | the agent and its active identity are revoked together |
| `IdentityStore.AgentRecord.FinalizeDecommission` | controller/guardian/api.py:5966-5988 | the session's identity and the agent are revoked |
| `AgentReplay.NonceTable.VerifyRequest` | controller/guardian/agent_security.py:146-184 | the timestamp window, the purge of expired nonces, the nonce check and its storing, inside one transaction |
| `AgentReplay.PurgeDecidesNothing` | controller/guardian/agent_security.py:153-157 | purging expired nonces changes the answer to no request that arrives at or after the purge, nor what it stores |
| `AgentReplay.NonceStays` | controller/guardian/agent_security.py:147-183 | a committed nonce stays until the clock passes its expiry |
| `AgentReplay.NoReplay` | controller/guardian/agent_security.py:147-183 | under a clock that does not go back, no committed request is accepted again, for every lifetime and interleaving of purges, unless a later check uses a longer lifetime |
| `AgentReplay.ReplayIff` | controller/guardian/agent_security.py:147-183 | over every run, a copy of a committed request is accepted if and only if the expiry of the last commit of its nonce has passed while the window in force still reaches the timestamp, which takes a longer lifetime |
| `AgentReplay.AcceptedIff` | controller/guardian/agent_security.py:134-184 | over every run a request is accepted if and only if it is sound, its nonce has 16 to 128 characters, its timestamp is within the lifetime, and every earlier commit of its nonce has outlived its own lifetime, counted from its arrival and its timestamp |
| `AgentReplay.LongerLifetimeReopens` | controller/guardian/agent_security.py:147-183 | a concrete request accepted twice after the lifetime was raised |
| `DiskQueue.OverflowIsLeast` | agent/queue.go:39-59 | a write drops the fewest oldest records that make the encoding fit, or leaves one |
| `DiskQueue.OverflowIff` | agent/queue.go:39-59 | a write drops a number of records if and only if the JSON text of the rest fits and that of no longer rest does |
| `DiskQueue.Queue.Write` | agent/queue.go:39-59 | the trimming loop stores exactly the records after the overflow |
| `DiskQueue.Queue.Enqueue` | agent/queue.go:61-73 | the new record is appended and the queue trimmed |
| `DiskQueue.Queue.Snapshot` | agent/queue.go:75-86 | at most the limit of the oldest records, and the queue is unchanged |
| `DiskQueue.Queue.Ack` | agent/queue.go:98-109 | the acknowledged prefix goes, and more only by overflow |
| `DiskQueue.Queue.Round` | agent/main.go:29-73 | one round: send a batch, acknowledge it if accepted, record results or failures |
| `DiskQueue.AckRemovesTheBatch` | agent/queue.go:98-109 | from a queue that fits, an ack removes exactly the batch that was sent |
| `DiskQueue.AckOnlyDelivers` | agent/queue.go:98-109 | from a queue that fits, everything an ack removes was delivered and nothing is dropped |
| `DiskQueue.RoundDelivers` | agent/main.go:29-73 | from a queue that fits, an accepted round removes exactly the 100 oldest records, or all of fewer |
| `DiskQueue.RoundQueues` | agent/main.go:29-73 | an unreachable controller leaves the queue with the new record, minus the overflow |
| `DiskQueue.QueueRefinesLog` | agent/main.go:30-69 | from any queue file, in every run the queue is a suffix of all that was stored, and every record that left it was in an accepted batch or dropped as oldest by overflow |
| `DiskQueue.DropsAreNecessary` | agent/queue.go:39-59 | a record is dropped only by a write that could not fit it |
| `AgentActions.ActionRegistry.constructor` | agent/actions.go:48-68 | a start loads the ledger of the state file |
| `AgentActions.ActionRegistry.Execute` | agent/actions.go:94-164 | completed, cooling down or run; what memory and file then hold |
| `AgentActions.EachTaskRunsAtMostOnce` | agent/actions.go:94-164 | with arbitrary redelivery and restarts that forget nothing, the body of a task runs at most once |
| `AgentActions.SavesMakeItDurable` | agent/actions.go:79-92 | restarts forget nothing when every save succeeds |
| `AgentActions.RestartRerunsIff` | agent/actions.go:94-164 | after a restart a redelivered task runs again if and only if the file had forgotten it |
| `AgentActions.LostSaveRunsTwice` | agent/actions.go:94-164 | one lost save is enough for a second run |
| `AgentActions.LastRunIsRecorded` | agent/actions.go:157-160 | the recorded time of an action and target is never older than its last successful run |
| `AgentActions.CooldownSeparates` | agent/actions.go:94-164 | two successful non-dry-run executions of the same non-port-traffic action and target are at least 600 whole seconds apart |
| `AgentActions.CompletedIff` | agent/actions.go:94-104 | over every run whose restarts forget nothing, a call is answered as completed if and only if its task has run before |
| `AgentActions.CoolingDownIff` | agent/actions.go:105-113 | over every run whose restarts forget nothing, a new task is held back if and only if it is no port traffic one and less than 600 seconds have passed since the second in which the latest successful run, not a dry run, of its action and target ended |
| `Alerts.AlertInstance.constructor` | controller/guardian/alerting.py:137-152 | the first observation of a rule starts from a fresh, quiet alert |
| `Alerts.AlertInstance.RecordTransition` | controller/guardian/alerting.py:73-91 | a transition is logged exactly when the state changed |
| `Alerts.AlertInstance.ScheduleNotifications` | controller/guardian/alerting.py:94-125 | one delivery per enabled channel whose filters pass; the alert is stamped only when there was one |
| `Alerts.AlertInstance.Observe` | controller/guardian/alerting.py:128-209 | counters, state, transition and notice of one check result, and whether state and notices changed |
| `Alerts.AlertInstance.Acknowledge` | controller/guardian/alerting.py:212-223 | accepted exactly in firing or pending |
| `Alerts.AlertInstance.Silence` | controller/guardian/alerting.py:226-252 | accepted exactly for an end within the next 30 days; the alert is silenced and the stored silence carries no matcher |
| `Alerts.AlertInstance.Close` | controller/guardian/api.py:3642-3658 | accepted exactly in acknowledged or resolved |
| `Alerts.RunIsTheLongestSuffix` | controller/guardian/alerting.py:162-175 | a trailing run is the longest suffix of one result |
| `Alerts.CountersAreRuns` | controller/guardian/alerting.py:162-175 | in every run the two counters are the lengths of the trailing failure and success runs of the observation history |
| `Alerts.EntriesMeetTheirThreshold` | controller/guardian/alerting.py:162-192 | an alert enters firing if and only if the event is an unsuppressed failure of an unacknowledged, not yet firing alert whose trailing failure run meets the threshold; likewise resolved with the success run; acknowledging, silencing and closing enter neither |
| `Alerts.LogIsAPath` | controller/guardian/alerting.py:73-91 | every transition log is a connected path of allowed moves from ok to the current state, through observe, acknowledge, silence and close |
| `Alerts.FiredAtIsTheFirstFiring` | controller/guardian/alerting.py:185-188 | the stored firing time is that of the first firing ever, across recoveries |
| `Alerts.RemindersAreSpaced` | controller/guardian/alerting.py:196-208 | a reminder is sent only by a failure of a firing alert, at least the repeat interval after every earlier notice, and never as the first one |
| `Alerts.SuppressionIsGlobal` | controller/guardian/alerting.py:39-70 | a failure is suppressed if and only if any alert's silence is running or a maintenance window matches, whichever alert was silenced |
| `Alerts.OneSilenceMutesAll` | controller/guardian/alerting.py:226-252 | after one alert is silenced, a failure of any alert until the end of that silence leaves that alert silenced |
| `AlertRuns.FailureIsSilencedIff` | controller/guardian/alerting.py:39-70 | in every run a failure leaves its alert silenced if and only if some alert was silenced until after it, or a maintenance window is on whose matchers are all labels of the rule |
| `AlertRuns.ObservationMoves` | controller/guardian/alerting.py:165-192 | what an observation does to the state, in every case |
| `AlertRuns.OperatorMoves` | controller/guardian/alerting.py:212-252 | what acknowledging, silencing and closing do, in every case |
| `AlertRuns.ResolvedAtFollows` | controller/guardian/alerting.py:165-192 | the time of the last recovery is set on entering resolved, cleared on entering firing and otherwise left alone; every change of state is logged with its time |
| `AlertRuns.NoticeIsSentIff` | controller/guardian/alerting.py:94-125 | in every run a notice is sent if and only if one is due (firing entered, resolved entered and wanted, or the repeat interval over while firing) and some enabled channel takes its kind and severity; it goes at once to exactly those channels |
| `Enrollment.NewestIsNewest` | controller/guardian/enrollment.py:456-475 | the session a heartbeat selects is open and created no earlier than any other open one; there is none exactly when none is open |
| `Enrollment.NewestIff` | controller/guardian/enrollment.py:456-475 | a heartbeat selects a session if and only if it is of its host, consumed, neither revoked nor completed, and no such session is newer |
| `Enrollment.TokenAcceptedIff` | controller/guardian/enrollment.py:301-341 | a token is accepted if and only if the caller is allowed, the session has not expired and was never consumed, and nothing in its log fails or revokes it |
| `Enrollment.ProgressAcceptedIff` | controller/guardian/enrollment.py:344-373 | the progress credential is accepted if and only if it was handed out and not taken back, the session has not expired, and nothing in its log ends it |
| `Enrollment.ReportAcceptedIff` | controller/guardian/api.py:2911-2939 | each credential reports only its own steps, never backwards, or an explained failure, of a session that has not ended or expired |
| `Enrollment.IssueRevokesIff` | controller/guardian/enrollment.py:249-274 | a new session revokes exactly those of its host that were not consumed, not revoked and have not expired |
| `Enrollment.BootstrapPlainly` | controller/guardian/api.py:3031-3104 | a bootstrap logs every step not yet reached up to the certificate, in order, marks the session used and hands out the progress credential |
| `Enrollment.EnrollmentStore.Advance` | controller/guardian/enrollment.py:150-182 | one step forward with its log entry, or the refusal: invalid, inactive or backwards |
| `Enrollment.EnrollmentStore.Walk` | controller/guardian/enrollment.py:407-412 | a session already under way passes every step of a range it has not reached, each logged, and none is refused |
| `Enrollment.EnrollmentStore.Consume` | controller/guardian/enrollment.py:376-413 | accepted exactly for an unused, unrevoked, unexpired, not failed session of an allowed caller; then used, with the steps before the certificate request caught up |
| `Enrollment.EnrollmentStore.Bootstrap` | controller/guardian/api.py:3031-3104 | consumption, the certificate step and the progress credential together, or nothing |
| `Enrollment.EnrollmentStore.Fail` | controller/guardian/enrollment.py:185-218 | refused exactly for completed and revoked sessions; the progress credential goes |
| `Enrollment.EnrollmentStore.Complete` | controller/guardian/enrollment.py:456-493 | a heartbeat completes the newest open session of its host unless that one failed |
| `Enrollment.EnrollmentStore.Issue` | controller/guardian/enrollment.py:221-298 | every live session of the host is revoked before the new one is added |
| `Enrollment.EnrollmentStore.Revoke` | controller/guardian/enrollment.py:416-444 | only unused sessions can be revoked; repeating it changes nothing |
| `Enrollment.EnrollmentStore.Report` | controller/guardian/api.py:2911-2939 | each credential reports only its own steps, never backwards, or a failure with an explanation |
| `Enrollment.NoneStaysLive` | controller/guardian/enrollment.py:249-274 | after the revocation no session of the host can be consumed, now or later, and every other session is as it was |
| `EnrollmentRuns.Perform` | controller/guardian/enrollment.py:150-493 | every operation of the store is one step of a run |
| `EnrollmentRuns.StepEvolves` | controller/guardian/enrollment.py:150-218 | one operation keeps a session sound and only moves it on |
| `EnrollmentRuns.SessionsStaySound` | controller/guardian/enrollment.py:150-218 | in every run a session's log climbs strictly, so no status is logged twice and the step never falls; completed only after consumption, and consumed before expiry |
| `EnrollmentRuns.SessionsOnlyEvolve` | controller/guardian/enrollment.py:249-298 | completed and revoked are final, failed can only become revoked while unused, consumption is never undone, the log only grows |
| `EnrollmentRuns.ConsumedAtMostOnce` | controller/guardian/enrollment.py:376-413 | a token is consumed at most once in every run |
| `EnrollmentRuns.OneLivePerHost` | controller/guardian/enrollment.py:249-298 | at any instant a host has at most one unused, unrevoked, unexpired token |
| `EnrollmentRuns.HeartbeatCompletesIff` | controller/guardian/enrollment.py:456-493 | a heartbeat completes a session if and only if it is its host's newest open one and has not failed |
| `EnrollmentLimiter.RateLimiter.Check` | controller/guardian/enrollment.py:38-46 | the loop prunes exactly the attempts outside the window; allowed exactly below the limit |
| `EnrollmentLimiter.ResetIsLocal` | controller/guardian/enrollment.py:48-50 | a reset changes neither the history of another key nor the answer to its next check |
| `EnrollmentLimiter.PrunedIsTheWindow` | controller/guardian/enrollment.py:42-43 | popping from the front cuts a sorted history exactly at the window |
| `EnrollmentLimiter.QueueIsTheWindow` | controller/guardian/enrollment.py:38-50 | a key's queue is exactly the in-window suffix of all attempts allowed since its last reset, as of its last check |
| `EnrollmentLimiter.AllowedIff` | controller/guardian/enrollment.py:38-46 | a check is allowed if and only if fewer than the limit were allowed in the 600 seconds up to it |
| `EnrollmentLimiter.NoWindowExceedsTheLimit` | controller/guardian/enrollment.py:38-46 | since the last reset no half-open window of 600 seconds holds more allowed attempts than the limit |
| `EnrollmentLimiter.ResetReopens` | controller/guardian/enrollment.py:48-50 | right after a reset a key with a positive limit is allowed again |
| `NotificationDelivery.BackoffGrows` | controller/guardian/notifications.py:226-234 | the backoff never shortens, starts at the clamped base and stays within 5 and 3600 seconds |
| `NotificationDelivery.DelayDoubles` | controller/guardian/notifications.py:226-234 | the pause doubles with every failed try until it is an hour |
| `NotificationDelivery.SettingsPlainly` | controller/guardian/notifications.py:213-233 | the maximum of tries and the base delay: their defaults and bounds |
| `NotificationDelivery.DueIff` | controller/guardian/notifications.py:182-190 | a batch takes a delivery if and only if it is due and fewer than 100 older ones are |
| `NotificationDelivery.OutcomeIff` | controller/guardian/notifications.py:191-241 | what becomes of a delivery in a batch: cancelled, put off by a minute, delivered, given up or retried, each exactly when |
| `NotificationDelivery.Outbox.DeliverPending` | controller/guardian/notifications.py:176-241 | the loop over a batch of due deliveries: cancelled, postponed, delivered, retried or given up, each counting the deliveries before it; it returns how many were sent |
| `NotificationDelivery.BatchCountsDelivered` | controller/guardian/notifications.py:190-241 | the number returned is how many more deliveries are delivered after the batch |
| `NotificationDelivery.Outbox.Retry` | controller/guardian/api.py:3799-3811 | a manual retry revives exactly dead letters and keeps their count of attempts |
| `NotificationDelivery.BatchIsARun` | controller/guardian/notifications.py:182-196 | a batch is a run of single deliveries: none disturbs a later one, and other deliveries stay |
| `NotificationDelivery.NoMinuteExceedsTheRate` | controller/guardian/notifications.py:199-209 | no closed window of 60 seconds holds more deliveries of a channel than its limit per minute |
| `NotificationDelivery.AttemptsAreBounded` | controller/guardian/notifications.py:210-225 | a delivery is tried at most its clamped maximum plus once per manual retry, and a dead letter nobody revived exactly the maximum |
| `NotificationDelivery.TriesAreApart` | controller/guardian/notifications.py:226-234 | without manual retries consecutive tries are at least the backoff apart |
| `LifecycleJournal.UpdateDocument` | scripts/lifecycle-journal.py:265-285 | an accepted update takes an allowed transition, keeps what identifies the transaction, moves time on and yields a valid document |
| `LifecycleJournal.UpdatesIff` | scripts/lifecycle-journal.py:265-285 | an update of a valid document is accepted if and only if its transition is allowed, the release it restores exists and what it writes is valid; it writes exactly the given fields, the phase and a later time |
| `LifecycleJournal.AllowedIff` | scripts/lifecycle-journal.py:34-58 | all allowed transitions: forward with only the middle phases optional, recovery from anywhere before the end, abort without recovery only up to prepared |
| `LifecycleJournal.CanonicalIff` | scripts/lifecycle-journal.py:124-134 | an accepted path is an absolute one of plain parts without control characters |
| `LifecycleJournal.Journal.Init` | scripts/lifecycle-journal.py:509-526 | a new transaction starts only in an empty journal |
| `LifecycleJournal.Journal.Update` | scripts/lifecycle-journal.py:529-545 | the stored document is replaced by its update, or stays |
| `LifecycleJournal.Journal.Clear` | scripts/lifecycle-journal.py:555-560 | only a finished transaction is cleared |
| `LifecycleJournal.Perform` | scripts/lifecycle-journal.py:509-560 | one command on the stored journal is one step of a run |
| `LifecycleJournal.RunsHoldTransactions` | scripts/lifecycle-journal.py:224-285 | every journal a run leaves is empty or holds a transaction that started initialized and took only allowed transitions |
| `LifecycleJournal.UnfinishedStays` | scripts/lifecycle-journal.py:288-302 | an unfinished transaction is never replaced or cleared |
| `LifecycleJournal.FinishedLeavesOnlyByClear` | scripts/lifecycle-journal.py:288-302 | a finished one leaves only through a clear |
| `LifecycleJournal.TransactionsEnd` | scripts/lifecycle-journal.py:34-58 | every update uses up at least one of at most nine, and nothing remains exactly in a terminal phase |
| `LifecycleJournal.IdentityIsFixed` | scripts/lifecycle-journal.py:256-285 | operation, releases, first revision and creation time never change, and the update time strictly increases even if the clock goes back |
| `LifecycleJournal.EndingsAreEarned` | scripts/lifecycle-journal.py:34-58 | commit only through activation and verification and never after recovery was required; an activated candidate is given up only through recovery; an install never ends with the previous release restored |
| `LifecycleJournal.NothingIsStuck` | scripts/lifecycle-journal.py:34-58 | from every unfinished transaction at most three accepted updates end it |
| `RecoveryMetadata.SortedSetSorts` | controller/guardian/backup.py:799-806 | the normalized lists hold exactly the given members, once each, increasing |
| `RecoveryMetadata.NormalizeIdempotent` | controller/guardian/backup.py:758-806 | normalizing twice is normalizing once |
| `RecoveryMetadata.NormalizeForgetsOrder` | controller/guardian/backup.py:799-806 | two lists normalize to the same one if and only if they have the same members |
| `RecoveryChecks.NormalizesIff` | controller/guardian/backup.py:758-806 | exactly which metadata is accepted, and what is stored of it |
| `RecoveryManifest.BuildManifest` | controller/guardian/backup.py:809-843 | the loop over the staged entries lists every regular file but manifests, and refuses unsafe entries and empty trees |
| `RecoveryChecks.BuildsIff` | controller/guardian/backup.py:809-843 | a manifest is built if and only if names and metadata are safe, nothing but a manifest is an unsafe kind of file, and some regular file is to be listed |
| `RecoveryChecks.BuiltLists` | controller/guardian/backup.py:809-843 | a built manifest lists exactly the regular files whose last path component is not manifest.json, with sizes and digests, once each |
| `RecoveryManifest.ParsePayload` | controller/guardian/backup.py:855-911 | the loop over the artifacts fills the table of expected files or refuses |
| `RecoveryManifest.ByPathIff` | controller/guardian/backup.py:875-905 | an artifact list is accepted if and only if every entry is valid and no path repeats |
| `RecoveryManifest.ByPathKeeps` | controller/guardian/backup.py:875-905 | the table holds the size and digest of each artifact and nothing else |
| `RecoveryVerification.LoadAndVerify` | controller/guardian/backup.py:945-988 | checksum, single root manifest, file set, sizes and digests, in the source's order |
| `RecoveryChecks.VerifiesIff` | controller/guardian/backup.py:945-988 | exactly when a restored tree is accepted: the checksum, regular files only, one manifest at the root, a safe manifest of the scope, paths that stay beneath the root, and a tree that is what it lists |
| `RecoveryVerification.AcceptedTreesAgree` | controller/guardian/backup.py:945-988 | two restored trees accepted for the same checksum have the same files with the same contents |
| `RecoveryVerification.ArtifactsList` | controller/guardian/backup.py:819-832 | the artifacts list exactly the entries not skipped, once each |
| `RecoveryVerification.BuiltParses` | controller/guardian/backup.py:809-911 | a built manifest parses back to itself if and only if no listed name holds a backslash |
| `RecoveryVerification.AcceptedIff` | controller/guardian/backup.py:945-988 | against the written manifest's checksum a restored tree is accepted if and only if no listed name holds a backslash and the tree is exactly the listed files with their contents and the manifest |
| `RecoveryVerification.WrittenVerifiesIff` | controller/guardian/backup.py:846-852 | the staged tree verifies after writing if and only if moreover no manifest is nested in it, it links to no directory, and no file has the temporary file's name |
| `RecoveryVerification.BackslashDoesNotVerify` | controller/guardian/backup.py:883 | a staged tree of one file whose name holds a backslash gets a manifest and does not verify against it |
| `RecoveryVerification.NestedManifestDoesNotVerify` | controller/guardian/backup.py:961-963 | a staged tree with a manifest file in a directory gets a manifest without it and does not verify against it |

## Left out

- Cryptography: signatures, certificates and proofs of possession are inputs (`sound`, `allowed`, authenticated fingerprints). Digests are a function that tells apart the contents at hand.
- JSON, HTTP, SQL and file plumbing: a handler is one atomic transaction over records; a decoded document has its declared types; a failed write changes nothing. Uniqueness across agents is an input (`foreign`).
- `flush table`: the interpreter empties chains, counters and quotas, as the repository's own test runner does (`agent/nethelper/main_test.go:60-68`) and as the zeroed counters at `agent/nethelper/network.go:194` presume.
- Traffic control: classes, filters and leftovers of a partial apply are reduced to whether each stage succeeds (`HelperNetwork.Faults`).
- Listing the table and reading counters is truthful when it succeeds; traffic inside one helper operation is not modelled.
- Integers are mathematical: overflow of 64-bit byte counts and of dates past year 9999 in the journal is not modelled.
- HelperRuns.ConservationOverRuns: assumes that no byte is read twice, which excludes exactly the two branches of HelperRuns.InPlaceBalancedIff when a counter is not zero.
- HelperNonces.NeverAcceptedTwice: as for every result about this store, runs contain no purge, which empties the store.
- Controller checks of an authorization other than expiry and nonce are one input.
- Quota percentages are compared as whole numbers of bytes; the source divides floating-point numbers.
- Time zones: a fixed offset; daylight-saving changes and the zone database are not part of this model. The local date is assumed to exist in Python's range.
- Dispatching due resets, runtime and quota alerts raised during ingestion, spike detection, exhaustion estimates and pruning.
- History at hour and day resolution, which reads the rollup rows as they are.
- ResetSchedule.ChainSkipsNothing: assumes the stored policy does not change between boundaries.
- Maintenance sessions other than the final step of a decommission; the revocation-list check is an input.
- AgentActions: task signatures, the actions' bodies, and the restart counter.
- DiskQueue: a round in which the queue file cannot be read, which fails the collection of the snapshot and changes nothing; the `null` a nil slice encodes to is not told apart from an empty list.
- Alerts: assignment, summaries, details, the number of notices, and who acknowledged or closed an alert and when; maintenance windows are given with each observation, as nothing in the controller creates them.
- Alerts.RemindersAreSpaced: assumes a clock that does not go back, as do Alerts.SuppressionIsGlobal and EnrollmentRuns.OneLivePerHost.
- Enrollment: tokens are known by their position instead of by digest; the legacy shared enrollment token; audit and error texts; the status `expired`, which no operation stores.
- Enrollment.NewestIsNewest: of sessions created at the same instant the later row is taken; the source leaves that to the database.
- EnrollmentLimiter.NoWindowExceedsTheLimit: counts since the last reset of the key, as a successful bootstrap resets it.
- NotificationDelivery: a channel's rate and retry settings stay fixed during a run; sending is an input; rows are stored in the order of their creation.
- LifecycleJournal: root-only file modes, locks and symbolic links; the size limit; timestamps as text.
- RecoveryManifest: characters of a control-like Unicode category are a given predicate; unknown keys of a manifest are not kept; directories with the names of the manifest or its temporary file.
- Recovery-point promotion, approvals, incidents, diagnostics, probes, the installer and the dashboard: smaller state machines of the same shape, or no state at all.
