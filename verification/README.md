# Verification of the autoscale test framework's helpers

The repository is an end-to-end test suite for autoscaling on OpenShift. Most of it talks to a
cluster; some helpers carry real logic, and their verdicts are only as good as that logic. This
project models those helpers in Dafny and proves what they do, for every input and every run. The
API server, the clock, the scheduler and the pods are an environment that may answer anything.

Verify everything with `dafny verify dfyconfig.toml`.

## The modules

The resource consumer (`pkg/framework/resource_consumer.go`):

- `LoadSplit.dfy`: one send pass. Go's truncated division, the shares, the retrying fallback, and
  how much load is acknowledged under any pattern of failures.
- `LoadLoop.dfy`: one background loop by itself, as the log its `select` choices produce.
- `ConsumerProtocol.dfy`: callers, both loops, the context, the stop channels, the WaitGroup and
  CleanUp, interleaved step by step.
- `LeaseTiming.dfy`: the loop on a clock, with 30 s refreshes and 40 s leases.
- `LoadOverTime.dfy`: passes put on the clock: the load the pods are under at every instant, between
  passes and during them.
- `EndToEnd.dfy`: the protocol put together with passes and clock.

The event watcher (`cas/pkg/machineapi/event.go`), in `EventWatcher.dfy`: lock-level steps of
dispatch, registration and enabling by any number of threads, the same operations run alone, and the
two objects, whose methods do what those do.

Monitors and reconcilers: `CheckUntil.dfy` (`RunCheckUntil`), `SpotMachineSet.dfy`,
`NodeDraining.dfy` (both over the vocabulary in `Polling.dfy`), `OperatorGroups.dfy`,
`Workload.dfy`, `MachinesPresent.dfy`.

Architectures and metrics: `Architectures.dfy`, `ArchSelection.dfy`, `HPAMetrics.dfy`; and
`ScaleFromZero.dfy`, which composes the selection with `RunCheckUntil` into the test that uses both.

`Common.dfy` and `Strings.dfy` hold filters and the few string functions needed.

A method is written in the form of the source and proved against a specification function or
property; lemmas then say what that means over whole runs and histories. Where the environment
decides, it is a parameter: an acknowledgement oracle, a history of snapshots, a sequence of steps.

## Where the code and its comments part

The model follows the code. Each difference has a theorem that says exactly when it shows, and an
input on which it does.

- CleanUp is documented to wait for the loops. It does so exactly if both goroutines have executed
  their `wg.Add` before, which start-up guarantees exactly when both initial totals are positive
  (`ConsumerProtocol.BarrierExactly`, `ConsumerProtocol.StartUpBarrierExactly`,
  `ConsumerProtocol.UnconditionalBarrierFails`).
- "Delete any existing OperatorGroups that don't match the desired mode": the loop returns at the
  first match, so later mismatches stay (`OperatorGroups.OnlyWantedModeExactly`,
  `OperatorGroups.StaleGroupSurvives`).
- "If the check fails before the condition succeeds, the test will fail": a check that fails in the
  very poll in which the condition succeeds is forgiven (`CheckUntil.SucceedsExactly`,
  `CheckUntil.FailedCheckForgiven`).
- "until the condition succeeds": a condition that returns false without recording a failure counts as
  having succeeded, because only recorded failures become errors (`CheckUntil.RunAssertion`,
  `CheckUntil.SilentFalsePasses`).
- MachinesPresent is said to return true when all machines were found; its length shortcut is right
  against every list exactly for distinct arguments (`MachinesPresent.CorrectExactlyForDistinct`,
  `MachinesPresent.RepeatedArgumentMissed`).
- The selection loop is said to prefer an architecture other than amd64; an empty architecture
  followed by an amd64 set defeats it (`ArchSelection.OtherArchPreferredExactly`), and the annotation
  `kubernetes.io/arch=` yields one (`ScaleFromZero.EmptyArchitectureLoses`).
- Refreshes outlast leases only if passes are short: ten seconds for two consecutive passes is the
  exact bound, and one exhausted fallback already takes fifteen (`LeaseTiming.TenSecondsIsSharp`,
  `LeaseTiming.ExhaustedFallbackOutlastsSlack`, `LoadOverTime.LongPassesDropTheLoad`).

## Model

| member | source | states |
|---|---|---|
| LoadSplit.GoDivision | pkg/framework/resource_consumer.go:280-281 | the modelled `/` and `%` truncate toward zero: they recompose the dividend, and the remainder is smaller than the divisor and never has the opposite sign |
| LoadSplit.SendRequest | pkg/framework/resource_consumer.go:335-355 | sends exactly the attempts up to the first acknowledgement, at most three, and sleeps five seconds for each failed one |
| LoadSplit.SendPerPod | pkg/framework/resource_consumer.go:250-305 | sends exactly the pass's requests: one share per running pod in list order, or the fallback if listing fails or nobody runs |
| LoadSplit.RunningStep | pkg/framework/resource_consumer.go:264-286 | looking at one more pod extends the running pods seen so far by it exactly if it runs, and what has been seen is always an initial part of all running pods in list order |
| LoadSplit.Conservation | pkg/framework/resource_consumer.go:280-299 | for every integer total the shares sum to it, go to exactly the running pods, and to nobody else |
| LoadSplit.Fairness | pkg/framework/resource_consumer.go:280-290 | for a non-negative total shares lie between zero and it and differ by at most the remainder, which is below the pod count |
| LoadSplit.NoOverflow | pkg/framework/resource_consumer.go:280-290 | no share exceeds the total in magnitude, for either sign |
| LoadSplit.AttemptsShape | pkg/framework/resource_consumer.go:335-355 | one to three attempts, only the last possibly acknowledged, stopping early only on success |
| LoadSplit.AckedNeverExceeds | pkg/framework/resource_consumer.go:250-305 | in every branch and under every failure pattern the acknowledged load is between zero and the total |
| LoadSplit.FullyAckedExactly | pkg/framework/resource_consumer.go:250-305 | all of the load is acknowledged exactly when every distinct target given a non-zero amount acknowledged a request |
| LoadSplit.AtMostOneFallbackAck | pkg/framework/resource_consumer.go:337-353 | the fallback never gets two acknowledgements |
| LoadSplit.PassRequests | pkg/framework/resource_consumer.go:250-355 | everything a pass sends, number by number: with a running pod, one request per running pod on port 8080 for 40 seconds, each for the quotient and the first also for the remainder; otherwise one to three to the service on port 80, for the total and as long |
| LoadSplit.EveryLeaseIsFortySeconds | pkg/framework/resource_consumer.go:258-299 | every request of every pass asks for 40 seconds |
| LoadLoop.ConsumeLoop | pkg/framework/resource_consumer.go:197-216 | the goroutine's log is the one its select choices determine, and it stops at the first cancellation or stop it picks |
| LoadLoop.LogsAreLegal | pkg/framework/resource_consumer.go:203-215 | every command is followed by exactly one pass with its value, every timer by a pass with the latest command if that is positive and by none otherwise, and no pass has another cause |
| LoadLoop.LegalLogsArise | pkg/framework/resource_consumer.go:203-215 | conversely every log of that shape is produced by some sequence of choices |
| LoadLoop.ChoicesReadBack | pkg/framework/resource_consumer.go:201-215 | what select picked can be read back from the log: no command or timer is lost, altered or reordered |
| LoadLoop.NothingBeforeFirstCommand | pkg/framework/resource_consumer.go:201-209 | before the first command nothing is sent, however many timers fire |
| ConsumerProtocol.RunKeepsInv | pkg/framework/resource_consumer.go:191-237 | in every interleaving the WaitGroup counter is loops started minus loops finished and each loop's history is its sequential one |
| ConsumerProtocol.ReturnedCallFinishedEarlierPasses | pkg/framework/resource_consumer.go:181-188 | ConsumeCPU or ConsumeMem returns only for a pending call, and then all passes of that loop for earlier commands have ended |
| ConsumerProtocol.EveryLogIsLegal | pkg/framework/resource_consumer.go:197-238 | in every reachable state each loop's log, with a pass in progress closed off, satisfies the command semantics |
| ConsumerProtocol.CallsAreAccountedFor | pkg/framework/resource_consumer.go:181-204 | over every run, the calls pending after it and those taken in it are those pending before it and those made in it, each as often |
| ConsumerProtocol.CommandsAreCalls | pkg/framework/resource_consumer.go:181-204 | from the start, the commands in a loop's log and the calls still pending are together the calls made |
| ConsumerProtocol.EveryCommandWasCalled | pkg/framework/resource_consumer.go:181-204 | no loop takes a command that nobody called |
| ConsumerProtocol.ReturnsOnlyWhenTold | pkg/framework/resource_consumer.go:191-213 | a loop picks its stop channel only after that was closed, the context only after it was cancelled, and returns only after one of the two |
| ConsumerProtocol.WaitingLoopCanReturnExactly | pkg/framework/resource_consumer.go:210-213 | a loop in its select can return in its next step if and only if its own stop channel was closed or the context cancelled, whatever its value and whoever waits |
| ConsumerProtocol.RunProjects | pkg/framework/resource_consumer.go:161-162 | any run of both loops projects to a valid run of each loop alone, ending in the same state |
| ConsumerProtocol.ProjectionsCompose | pkg/framework/resource_consumer.go:197-238 | outside CleanUp any interleaving of two valid single-loop runs is a valid run: the loops never block each other |
| ConsumerProtocol.GoneStaysQuiet | pkg/framework/resource_consumer.go:191-213 | a loop that has picked a cancellation or stop makes no pass and accepts no command in any continuation, even before its deferred Done |
| ConsumerProtocol.StartedGivesBarrier | pkg/framework/resource_consumer.go:191-199 | once both goroutines have executed wg.Add, every run in which CleanUp returns has both loops exited by then |
| ConsumerProtocol.BarrierExactly | pkg/framework/resource_consumer.go:191-199 | in every reachable state in which CleanUp has not returned, called or not, its return will mean that both loops have exited, in all continuations, if and only if both have executed wg.Add |
| ConsumerProtocol.CleanUpBarrier | pkg/framework/resource_consumer.go:181-195 | after one completed ConsumeCPU and one completed ConsumeMem, both loops are gone when CleanUp returns and nothing is sent later |
| ConsumerProtocol.StartUpBarrierExactly | pkg/framework/resource_consumer.go:161-169 | start-up alone guarantees the barrier exactly when both initial totals are positive |
| ConsumerProtocol.UnconditionalBarrierFails | pkg/framework/resource_consumer.go:191-199 | a run in which CleanUp returns and a pass begins afterwards |
| ConsumerProtocol.CleanUpNeverStuck | pkg/framework/resource_consumer.go:194-213 | while CleanUp waits, it can return or a loop has a step that takes it towards its exit |
| ConsumerProtocol.PendingCallCanReturnExactly | pkg/framework/resource_consumer.go:181-213 | a pending ConsumeCPU or ConsumeMem can still return in some continuation if and only if its loop has not picked a cancellation or stop |
| ConsumerProtocol.CallAfterExitBlocks | pkg/framework/resource_consumer.go:181-183 | a call can be made after that, and stays pending in every continuation |
| LeaseTiming.GapBetweenRequests | pkg/framework/resource_consumer.go:206-209 | the time between two requests to a pod is the time inside the two passes between them plus at most thirty seconds, exactly thirty for a refresh |
| LeaseTiming.LoadNeverLapses | pkg/framework/resource_consumer.go:197-216 | if two consecutive passes never last more than ten seconds together, a pod that keeps acknowledging is covered without a gap |
| LeaseTiming.RefreshCoverageExactly | pkg/framework/resource_consumer.go:206-299 | over refreshes a pod is covered throughout if and only if at most ten seconds of passes lie between each two of its requests |
| LeaseTiming.TenSecondsIsSharp | pkg/framework/resource_consumer.go:24-299 | two pass durations are safe for every placement of the requests if and only if they add up to at most ten seconds |
| LeaseTiming.PositiveValueAlwaysSends | pkg/framework/resource_consumer.go:206-209 | while a positive value is in force no turn of the loop is skipped |
| LeaseTiming.ExhaustedFallbackOutlastsSlack | pkg/framework/resource_consumer.go:337-353 | a fallback that fails three times sleeps longer than the slack between refresh and lease |
| LeaseTiming.LeasesAreWhatIsSent | pkg/framework/resource_consumer.go:24-299 | the lease on the clock is the duration that every request of every pass asks for, ten seconds more than the thirty of a refresh |
| EndToEnd.NoPassExceedsLatestCommand | pkg/framework/resource_consumer.go:197-305 | in every interleaving and whatever a pass meets, its acknowledged load is at most the latest accepted command; a non-positive value is sent only as a command |
| EndToEnd.TimedHistoriesAreRuns | pkg/framework/resource_consumer.go:197-216 | every timed history is a run of the loop in the protocol, with the same choices and log |
| EndToEnd.PassesSendWhatWasCalled | pkg/framework/resource_consumer.go:181-238 | in every interleaving each pass sends a value with which ConsumeCPU or ConsumeMem was called on that loop |
| LoadOverTime.LoadInForceExactly | pkg/framework/resource_consumer.go:206-299 | with one value in force and pods that run and acknowledge, at any instant after the first of those passes has reached every pod and before the next turn is picked, the load is between zero and that value, and equal to it if and only if every pod with a non-zero share is covered by a lease just then |
| LoadOverTime.CommandedLoadIsKeptUp | pkg/framework/resource_consumer.go:206-299 | if moreover two consecutive passes never take more than ten seconds together, the loads of the pods add up to the commanded value at every such instant at which no lease of the last pass has ended |
| LoadOverTime.LoadFollowsCommands | pkg/framework/resource_consumer.go:203-299 | over any commands and whatever came before: from the end of a pass of at most ten seconds in which the pods acknowledge until the next turn is picked, the loads of the pods add up to the latest command |
| LoadOverTime.LoadUntilRefreshExactly | pkg/framework/resource_consumer.go:206-299 | when a refresh comes next, they do so throughout if and only if every pod with a non-zero share was reached within the last ten seconds of the pass |
| LoadOverTime.LoadWhileChanging | pkg/framework/resource_consumer.go:203-299 | at every instant of a pass that changes the value, the load is less than the number of pods away from the range between the old value and the new |
| LoadOverTime.RaiseCanDip | pkg/framework/resource_consumer.go:280-299 | raised from 5 to 6 over three pods, the load is 4 once only the first pod has its new share |
| LoadOverTime.LongPassesDropTheLoad | pkg/framework/resource_consumer.go:206-299 | for any two pass durations beyond ten seconds together there is a history with an instant at which all other conditions of CommandedLoadIsKeptUp hold and none of the commanded load is live |
| EventWatcher.StepKeepsInv | cas/pkg/machineapi/event.go:45-101 | every step keeps lock ownership, list positions and the account of what each handler has received |
| EventWatcher.DeliverHandler | cas/pkg/machineapi/event.go:58-64 | if a handler's log accounts for all dispatched events but the last, one delivery of that one makes it account for all of them: the matcher's selection of those since it was enabled |
| EventWatcher.ReceivedIsFilteredSuffix | cas/pkg/machineapi/event.go:45-65 | in every interleaving a handler has received its matcher's selection of a suffix of the dispatched events, in order, without duplicates, none created before the watcher |
| EventWatcher.EnabledHandlerMissesNothing | cas/pkg/machineapi/event.go:58-102 | between two moments at which no dispatch is on its way to an enabled handler it receives exactly the matching events dispatched in between |
| EventWatcher.NothingFromBeforeEnable | cas/pkg/machineapi/event.go:83-102 | a handler never receives an event whose delivery was over before it was enabled |
| EventWatcher.EnableTakesEffect | cas/pkg/machineapi/event.go:97-102 | in every interleaving, when an enable has returned its handler is enabled, and stays so |
| EventWatcher.CompletedDispatchIsReceived | cas/pkg/machineapi/event.go:45-65 | in every interleaving, a fresh matching event whose dispatch begins after a handler was enabled and has returned was received by it |
| EventWatcher.MutualExclusion | cas/pkg/machineapi/event.go:55-101 | at most one thread holds the handler list, and at most one is inside a handler |
| EventWatcher.NeverDeadlocks | cas/pkg/machineapi/event.go:55-101 | in every reachable state with an operation pending some thread can step |
| EventWatcher.StepMakesProgress | cas/pkg/machineapi/event.go:55-101 | every step lowers the total of steps left, counting handlers still to be registered |
| EventWatcher.MaximalRunsFinish | cas/pkg/machineapi/event.go:55-101 | without new operations every run is bounded, and one that cannot go on has completed every operation |
| EventWatcher.DoneMeansQuiet | cas/pkg/machineapi/event.go:55-101 | whenever every operation is done no lock is held |
| EventWatcher.DispatchAlone | cas/pkg/machineapi/event.go:45-65 | a dispatch nobody interferes with changes nothing if the event is stale; otherwise in 3n+2 steps it appends it to what every enabled handler with a matching matcher has received, and releases all locks |
| EventWatcher.RegisterAlone | cas/pkg/machineapi/event.go:83-95 | a registration alone appends one handler: disabled, with the given matcher, nothing received |
| EventWatcher.EnableAlone | cas/pkg/machineapi/event.go:97-102 | enabling alone leaves the handler enabled, accounting for what is dispatched from then on, and changes nothing else |
| EventWatcher.ObjectsFollowProtocol | cas/pkg/machineapi/event.go:45-102 | what those runs do to the handlers is, history counts and locks aside, what the objects' methods promise |
| EventWatcher.EventHandler.Enable | cas/pkg/machineapi/event.go:97-102 | the handler is enabled afterwards and has received what it had; as the protocol's enabling alone |
| EventWatcher.Watcher.OnEvent | cas/pkg/machineapi/event.go:83-95 | adds a new object at the end of the list, disabled, with the given matcher and nothing received; as the protocol's registration alone |
| EventWatcher.Watcher.Dispatch | cas/pkg/machineapi/event.go:45-65 | appends an event that is not stale to what each enabled handler with a matching matcher has received, and changes nothing else; as the protocol's dispatch alone |
| CheckUntil.RunAssertion | cas/pkg/framework/utils.go:72-90 | an error exactly if the context is done, or the assertion returned false after reporting a failure, and then the last one reported |
| CheckUntil.RunCheckUntil | cas/pkg/framework/utils.go:48-69 | returns the verdict of the poll history |
| CheckUntil.SucceedsExactly | cas/pkg/framework/utils.go:48-69 | success at poll k if and only if k is the first poll without condition error, all earlier checks held and no cancellation was seen before |
| CheckUntil.CheckFailsExactly | cas/pkg/framework/utils.go:61-64 | stops over the check at poll k if and only if all earlier polls went on and at k both fail, reporting the check's last message |
| CheckUntil.UndecidedExactly | cas/pkg/framework/utils.go:53-68 | while nothing is cancelled it goes on if and only if every check holds and every condition fails |
| CheckUntil.ContextEndsExactly | cas/pkg/framework/utils.go:53-68 | ends over the context at poll k if and only if that is the first poll after which it is seen done, and no poll up to k had a passing condition or, with an open context, a failed check |
| CheckUntil.UnfinishedExactly | cas/pkg/framework/utils.go:53-68 | is undecided if and only if no poll succeeds, none is stopped by its check, and the context is never seen done in between |
| CheckUntil.NoSuccessAfterCancellation | cas/pkg/framework/utils.go:57-75 | once the condition finds the context done no later poll can succeed |
| CheckUntil.FailedCheckForgiven | cas/pkg/framework/utils.go:44-57 | the smallest history in which a failed check does not fail the run |
| CheckUntil.SilentFalsePasses | cas/pkg/framework/utils.go:80-90 | a condition that returns false without recording a failure makes the run succeed |
| SpotMachineSet.FilterMachines | cas/pkg/framework/machines.go:24-34 | the machines in the phase, in order |
| SpotMachineSet.IsNodeReady | cas/pkg/framework/nodes.go:167-175 | true exactly if the first Ready condition is True |
| SpotMachineSet.HasInsufficientCapacity | cas/pkg/framework/machinesets.go:670-714 | each of the four answers exactly characterised: unsupported platform, unreadable status, deciding condition reports lack of capacity, otherwise fine |
| SpotMachineSet.OutOfCapacityExactly | cas/pkg/framework/machinesets.go:696-714 | capacity is lacking if and only if the first condition reporting a failed creation contains the platform's message, InsufficientInstanceCapacity on AWS and SkuNotAvailable on Azure |
| SpotMachineSet.PollOnce | cas/pkg/framework/machinesets.go:606-666 | satisfied and retrying polls, and failing ones with each error, exactly characterised by the snapshot |
| SpotMachineSet.DoneExactly | cas/pkg/framework/machinesets.go:606-666 | a poll is satisfied if and only if there are as many machines as wanted, all in phase Running with ready nodes, and none has a capacity problem |
| SpotMachineSet.MachineFailedExactly | cas/pkg/framework/machinesets.go:616-630 | fails over a machine if and only if there are as many as wanted and one is in phase Failed |
| SpotMachineSet.CapacityFailsExactly | cas/pkg/framework/machinesets.go:632-643 | fails over capacity, or over a status, if and only if no machine is in phase Failed and that is the first thing to report in list order |
| SpotMachineSet.FirstDecides | cas/pkg/framework/machinesets.go:605-667 | success and failure at poll k mean that k is the first poll that is done or fails |
| SpotMachineSet.AllRunningAndReady | cas/pkg/framework/machinesets.go:645-665 | the length comparison and the node loop accept exactly the lists in which every machine runs on a ready node |
| SpotMachineSet.WaitForSpotMachineSet | cas/pkg/framework/machinesets.go:599-667 | fails before polling exactly if the machine set cannot be read; otherwise succeeds at poll k if and only if that snapshot has exactly the wanted machines, all up, no full-size snapshot up to it had a failed machine or lacked capacity, and none before was all up; and fails at poll k with a given error if and only if that is the first deciding snapshot and calls for that error |
| NodeDraining.CountPods | cas/pkg/framework/nodes.go:240-246 | the number of pods on the node that are not being deleted |
| NodeDraining.PollOnce | cas/pkg/framework/nodes.go:202-282 | satisfied, failing and retrying polls exactly characterised, and the node name kept up to date |
| NodeDraining.VerifyNodeDraining | cas/pkg/framework/nodes.go:197-285 | success at poll k, and a budget violation at poll k, each if and only if the history says so; the name returned is the last node linked |
| NodeDraining.ViolatedExactly | cas/pkg/framework/nodes.go:202-270 | for non-negative counts, the budget is violated at poll k if and only if there, with the node cordoned and everything read, replicas minus ready replicas exceed one, and every earlier such poll missed at most one and had more than two pods left |
| NodeDraining.DrainedExactly | cas/pkg/framework/nodes.go:202-282 | the drain is over at poll k if and only if there at most one replica is missing and at most two pods with that node name are not being deleted, and every earlier such poll missed at most one but had more pods left |
| NodeDraining.LastLinkedExactly | cas/pkg/framework/nodes.go:214-219 | the name kept is that of the last poll that found a node, and empty if none did |
| NodeDraining.CountsDoNotWrap | cas/pkg/framework/nodes.go:268 | for non-negative 32-bit counts the comparison does not wrap |
| OperatorGroups.FirstMatch | pkg/framework/operators.go:75-88 | the leading mismatches all have the wrong mode, and the group after them, if any, has the wanted one |
| OperatorGroups.MatchesExactly | pkg/framework/operators.go:77-79 | a group that lists target namespaces matches the one mode, any other, even with a malformed list, the other |
| OperatorGroups.Namespace.DropMismatches | pkg/framework/operators.go:75-88 | the loop deletes leading mismatches only, up to the first match, the end, or a refused delete |
| OperatorGroups.Namespace.EnsureOperatorGroupWithMode | pkg/framework/operators.go:67-104 | succeeds exactly if listing and the needed writes go through, leaving the reconciled list; fails over a delete, or over the create, each exactly if that is the first write refused, and then has dropped the mismatches deleted before and nothing else |
| OperatorGroups.ReconcileAchieves | pkg/framework/operators.go:74-103 | a group of the wanted mode exists, none that had it is gone, and one is created exactly when none had it |
| OperatorGroups.ReconcileIsIdempotent | pkg/framework/operators.go:67-104 | a second call on the same order changes nothing |
| OperatorGroups.OnlyWantedModeExactly | pkg/framework/operators.go:74-88 | only groups of the wanted mode remain if and only if no mismatch came after a match |
| OperatorGroups.StaleGroupSurvives | pkg/framework/operators.go:74-88 | the smallest list in which a group of the wrong mode survives |
| OperatorGroups.SwitchReplacesLoneGroup | pkg/framework/operators.go:90-103 | the created group is classified as the mode it was created for, so asking for the other replaces it |
| ArchSelection.BuildPerArch | cas/pkg/framework/machinesets.go:68-102 | panics exactly if some worker's architecture lookup does; otherwise one entry, in order, for each worker that is the first of its resolvable architecture |
| ArchSelection.NothingListedExactly | cas/pkg/framework/machinesets.go:81-102 | the list is empty if and only if no worker's architecture can be resolved |
| ArchSelection.FirstsExactly | cas/pkg/framework/machinesets.go:81-99 | the workers picked are exactly the first occurrences |
| ArchSelection.DistinctArchitectures | cas/pkg/framework/machinesets.go:66-99 | the listed architectures are pairwise distinct |
| ArchSelection.AllArchitectures | cas/pkg/framework/machinesets.go:66-99 | an architecture is listed if and only if some worker resolves to it |
| ArchSelection.DeployAndSelect | cas/pkg/machineapi/autoscaler.go:368-398 | the loop leaves the specified architecture and machine set, and keeps all machine sets |
| ArchSelection.Watched | cas/pkg/machineapi/autoscaler.go:423-436 | all machine sets but those with the selected name, in order |
| ArchSelection.SelectedExactly | cas/pkg/machineapi/autoscaler.go:391-397 | the last set that is not amd64 is selected, unless its architecture is empty and an amd64 set follows |
| ArchSelection.OtherArchPreferredExactly | cas/pkg/machineapi/autoscaler.go:391-397 | an architecture other than amd64 is selected if and only if that exception does not apply; for non-empty architectures always |
| ArchSelection.ScaleFromZeroChoice | cas/pkg/machineapi/autoscaler.go:363-441 | asks for a non-amd64 architecture exactly when a worker has one, exactly one set has it, and exactly the others are watched |
| ScaleFromZero.WatchedAreTheOthers | cas/pkg/machineapi/autoscaler.go:423-441 | the check holds of the watched sets exactly when every set of another architecture is at zero |
| ScaleFromZero.TestSucceedsExactly | cas/pkg/machineapi/autoscaler.go:391-450 | the test succeeds at poll k if and only if there is a selected set and it has one replica there, and at every earlier poll it could be read and did not, all sets of other architectures were at zero, and nothing was cancelled |
| ScaleFromZero.TestPanicsExactly | cas/pkg/machineapi/autoscaler.go:391-450 | the until condition dereferences nil at poll k if and only if all earlier polls went on, the context is open, and there is no selected set or it or its replica count cannot be read |
| ScaleFromZero.NothingToScaleExactly | cas/pkg/machineapi/autoscaler.go:368-443 | with readable sets the test panics in its first poll if and only if no worker's architecture can be resolved and the condition finds the context open |
| ScaleFromZero.EmptyArchitectureLoses | cas/pkg/machineapi/autoscaler.go:391-397 | a worker whose annotation names the architecture label without a value, followed by an amd64 worker, makes the selection amd64 |
| Architectures.GetArchitecture | cas/pkg/framework/machinesets.go:364-379 | the first node's architecture, else what the first annotation entry mentioning the label reads as, else none; an index panic exactly if without nodes that entry has no equals sign |
| Architectures.IndexErrorExactly | cas/pkg/framework/machinesets.go:369-373 | an annotation reads as an index panic if and only if its first entry mentioning the label has no equals sign |
| Architectures.ReadsAsFirstMention | cas/pkg/framework/machinesets.go:369-373 | an annotation reads as its first entry with kubernetes.io/arch in it |
| Architectures.EntryReads | cas/pkg/framework/machinesets.go:371 | an entry with an equals sign reads as what lies between the first one and the next or the end |
| Architectures.ArchitectureReadsBack | cas/pkg/framework/machinesets.go:369-373 | a rendered annotation reads back as the value of its first label mentioning the architecture, without an index error |
| Architectures.NoArchitectureExactly | cas/pkg/framework/machinesets.go:369-375 | and as no architecture if and only if no label mentions it |
| Strings.SplitJoin | cas/pkg/framework/machinesets.go:369-371 | splitting undoes joining |
| Strings.JoinSplit | cas/pkg/framework/machinesets.go:369-371 | joining undoes splitting, and no part has the separator in it |
| Strings.SplitsExactly | cas/pkg/framework/machinesets.go:371 | splitting gives a second part exactly if the separator occurs |
| Strings.ContainsAcross | cas/pkg/framework/machinesets.go:370 | the label occurs in `key=value` if and only if it occurs in the key or in the value |
| Strings.ContainsExactly | cas/pkg/framework/machinesets.go:370 | a string contains another if and only if it is that with something before and something after |
| Workload.IsPodRunningOnMachineSet | cas/pkg/framework/jobs.go:187-199 | whether the pod's node is among the machines' nodes |
| Workload.CollectMachines | cas/pkg/framework/jobs.go:128-145 | succeeds exactly if every set can be listed and every machine has a node, and then covers exactly the union of the sets' nodes |
| Workload.CountRunning | cas/pkg/framework/jobs.go:147-174 | for fewer than 2^31 pods, the number of positions in the list with a running pod on one of the nodes; beyond, modulo the 32-bit counter |
| Workload.CountOnExactly | cas/pkg/framework/jobs.go:149-173 | one more pod counts exactly if it is running and its node is one of the nodes |
| Workload.ArrivedExactly | cas/pkg/framework/jobs.go:117-178 | a poll is done if and only if there are as many pods as completions, every set could be listed, every machine has a node, and the expected number of pods run on a node of some machine of some set |
| Workload.PollOnce | cas/pkg/framework/jobs.go:101-183 | done, giving up, and the nil dereference of an unset number of completions, each exactly characterised by the snapshot; in a poll that is counted the counter does not wrap |
| Workload.WaitForWorkloadOverMachineSets | cas/pkg/framework/jobs.go:95-183 | fails before polling exactly if the job cannot be read; otherwise succeeds, gives up or panics at poll k, or polls on to the end, each if and only if the history says so |
| Workload.CountIsInclusionExclusion | cas/pkg/framework/jobs.go:149-174 | over overlapping node groups each pod counts once; over disjoint ones counts add up |
| Workload.CountIgnoresPodOrder | cas/pkg/framework/jobs.go:149-174 | the count does not depend on the order of the pods |
| Workload.DisjointSetsAdd | cas/pkg/framework/jobs.go:90-145 | a further machine set with its own nodes adds exactly its own count |
| Workload.NodesIgnoreSetOrder | cas/pkg/framework/jobs.go:128-145 | the nodes covered do not depend on the order of the machine sets or on repetitions |
| MachinesPresent.MachinesPresent | cas/pkg/framework/machines.go:56-73 | the shortcut and the map together answer: at least as many existing as given, and every given UID exists |
| MachinesPresent.ShortcutIsSound | cas/pkg/framework/machines.go:57-59 | distinct machines that all exist cannot outnumber the existing list, even one with duplicates |
| MachinesPresent.CorrectExactlyForDistinct | cas/pkg/framework/machines.go:54-73 | the answer is plain inclusion against every existing list if and only if the given UIDs are distinct |
| MachinesPresent.RepeatedArgumentMissed | cas/pkg/framework/machines.go:54-73 | a machine given twice is missed in the list that has it |
| HPAMetrics.CreateHPA | pkg/framework/framework.go:440-548 | appends exactly the metrics of the settings that are set, and panics exactly if a given quantity does not parse |
| HPAMetrics.ListInFields | pkg/framework/framework.go:440-548 | the list, field by field of the configuration: for the pods and then the container, for CPU and then memory, the percentage and then the quantity, each if given |
| HPAMetrics.AllEight | pkg/framework/framework.go:440-548 | the list of a configuration with all eight settings |
| HPAMetrics.ParsesExactly | pkg/framework/framework.go:450-540 | no panic if and only if each of the four quantities is empty or readable |
| HPAMetrics.SettingsRecovered | pkg/framework/framework.go:440-548 | every setting is recovered from the metric with its tag, and is absent exactly when unset |
| HPAMetrics.TagsInOrder | pkg/framework/framework.go:440-548 | tags are distinct and in a fixed order |
| HPAMetrics.TranslationIsInvertible | pkg/framework/framework.go:440-548 | two configurations give the same metric list if and only if they ask for the same, with the empty container name read as test-container |
| HPAMetrics.BuildersYieldOneMetric | test/e2e/hpa/hpa_test.go:387-447 | for CPU or memory and Utilization or AverageValue each builder yields exactly one metric for that resource, with the percentage, or with the average in m or Mi |
| HPAMetrics.DecimalReadsBack | test/e2e/hpa/hpa_test.go:403-435 | the number written into a quantity reads back |
| HPAMetrics.UnsupportedYieldsNothing | test/e2e/hpa/hpa_test.go:399-435 | for anything else it yields none |

## Left out

- LoadSplit.SendPerPod: totals are unbounded integers; LoadSplit.NoOverflow shows that no share leaves the range of the total.
- LoadSplit.FullyAckedExactly: pod names within one listing are distinct, as they are in a namespace; with repeated names a target is reached by either request.
- LoadLoop.ConsumeLoop: the pass is one pair of begin and end events; what it sends is LoadSplit.SendPerPod, and which requests a cancelled context fails is left to the acknowledgement oracle.
- LeaseTiming.LoadNeverLapses: the timer is ideal and a lease starts when its request arrives; scheduling delay after the timer fires is not modelled.
- ConsumerProtocol.CleanUpNeverStuck: safety only; that select eventually picks a closed stop channel is a fairness assumption about Go that is not made here.
- ConsumerProtocol.CleanUpBarrier: a second CleanUp, which panics on closing a closed channel, is not a step of the model.
- EventWatcher.EventHandler.Enable: the handler's mutex is only in the step model.
- EventWatcher.Watcher.OnEvent: the list's mutex is only in the step model.
- EventWatcher.Watcher.Dispatch: the objects are sequential, with locks only in the step model; callbacks terminate and do not re-enter the watcher, and their effect is the log of received events.
- EventWatcher.NeverDeadlocks: starting and stopping the informer, and its replay of cached objects, are not modelled; a dispatch is any event at any time.
- CheckUntil.RunCheckUntil: Eventually's polling interval is only the order of polls; no timeout other than the context applies; an assertion function that panics is modelled only for the scale-from-zero test.
- LoadOverTime.CommandedLoadIsKeptUp: a pod's load is the amount of its latest request while that lease runs; how the consumer inside a pod combines overlapping leases is decided outside this repository.
- SpotMachineSet.HasInsufficientCapacity: JSON decoding is an outcome: absent, malformed, or a list of conditions.
- HPAMetrics.CreateHPA: quantities are their numeric values through an arbitrary parser; object metadata and scale-down behaviour are not modelled.
- OperatorGroups.Namespace.EnsureOperatorGroupWithMode: deletes and creates take effect at once and names are unique; finalizers are not modelled.
- Sidecar load delivery is a broadcast that does not interact with the loops.
- Deployments, services, namespaces, subscriptions, REST and exec calls, YAML templates, log gathering and the operators table are plumbing around single calls.
- Webhook arithmetic, vertical recommendations, KEDA and cluster-autoscaler decisions are made by components outside this repository.
- Simple waits poll one condition and return it; they have no property beyond that one branch.
