# Verified models of wasmCloud's protocols

A Dafny model of the parts of wasmCloud whose correctness rests on interleavings,
whole runs or exact arithmetic, with proofs of what they promise. Every protocol
is a total step function over a state; a run is an arbitrary sequence of steps, a
step that is not possible changes nothing, and the theorems quantify over all runs.
Code that works in place is a class or a method proved against the step function or
a value-level specification.

Check everything with `dafny verify dfyconfig.toml`.

| files | what they model |
|---|---|
| `RoutingTables`, `RoutingLedger`, `RoutingRuns` | the gateway's `HostTracker`: five maps updated by four calls, against a ledger that only remembers the live registrations |
| `GatewayReconciler` | the Host and Workload reconcilers that drive the tracker from a cluster's state |
| `OrderTotals`, `Accumulate`, `StreamOrder` | the running total kept by compare-and-swap under redelivery and concurrent handlers, and which orders of delivery count every order |
| `EnvScopes`, `EnvThreads` | scoped changes to the process environment: nesting, panics, one lock, many threads |
| `BenchStart`, `BenchCleanup`, `BenchEvidence`, `BenchRamp`, `Density` | the density bench: start retries, cleanup and what its evidence is worth, the ramp with its memory watcher, sampling and the capacity estimate |
| `CwasmCache` | the cache of precompiled components under races, crashes and sweeps |
| `TrustStore`, `AuthId` | once-only trust roots; the credential encoding fed to a hash |
| `Wit` | printing, parsing, hashing and version compatibility of WIT interfaces |
| `Text`, `Common` | trimming, splitting, joining and decimal text, and small shared definitions |

## What holds only under a condition

Each of these is promised by the source or is a natural reading of it, is not true
of the code for every input, and is proved to hold exactly under the condition given.

- *The tables index the live registrations.* After every call of a run if and only
  if every call is `Compatible`: no key takes or redefines an ID another key still
  needs (`ExactThroughoutIff`). Fresh IDs, as UUIDs are, suffice
  (`FreshIDsAreCompatible`).
- *The order of reconciles does not matter.* If and only if objects that share an
  ID agree on it (`ConfluenceIff`).
- *Reconciling everything reaches the desired registrations.* From any earlier
  registrations, if and only if no registered host is of unknown readiness, every
  registered route of a workload whose placement is pending is on a host that
  reconciling retires, and each wanted workload is reconciled after the last event
  that drops its host (`StabilisesIff`, and `TablesStabiliseIff` for the tables
  themselves). With hosts reconciled first, only the first two matter
  (`HostsFirstStabilisesIff`, `HostsFirstTablesIff`). A host that goes not-ready and comes back
  leaves its workloads unrouted until they are reconciled (`HostFlapLosesRoutes`).
- *An order is added exactly once.* Every order answered Ok is counted, whatever is
  read, written and redelivered, if and only if every delivery is in stream order:
  it repeats a sequence that the stored total has reached, or is the newest so far
  while the total has reached all others (`ExactlyOnceIff`). The total can be read
  before the delivery (`ReachedIsReadable`). A consumer that waits for an Ok
  before it sends a newer order meets the condition (`WaitingCountsEveryOrder`).
- *The ramp ends.* In every world if and only if the memory limit is positive or
  there is nothing to start (`RampTerminatesIff`).
- *A workload confirmed removed is gone.* For every start and wherever it is cut
  short, if and only if its replies are `Conclusive`: they show that the host handled
  every request that may have reached it, or all but one, and that one is all that
  cleanup could come to see (`EvidenceIsConclusiveIff`). A start that timed out, was
  not found and was sent again can be running after it was confirmed removed
  (`RetryOutlivesCleanup`); if the second request is refused and the workload then
  seen running, it cannot (`RefusedRetryIsConclusive`).
- *The estimate is how many workloads fit.* Within the limit, if and only if that
  number fits 64 bits (the cast wraps otherwise); over the limit, if and only if the
  excess is a whole number of workloads, no more than there are
  (`CountIsLargestIff`).
- *Parsing undoes printing.* If and only if the interface is `Printable` and its
  version is read back from its own text (`RoundTripIff`).
- *The cache never shows a wrong file.* If and only if URLs that share a digest
  share their bytes (`SoundIffNoClash`).
- *Version compatibility carries over.* Through a version, always; through an
  unversioned side, which matches anything, not (`CompatibleThroughIff`).

Where code and comments disagree the model follows the code. The comment on
`accumulate` says a retry needs no second read; the code reads again, and so does
the model. Losing a `create` is not reported as a revision mismatch by the host's
key-value interface, so it ends the handler with an error instead of a retry; the
model allows both.

## Model

| member | source | states |
|---|---|---|
| RoutingTables.HostTracker.constructor | runtime-gateway/tracker.go:71-80 | a new tracker has no routes and no hosts |
| RoutingTables.HostTracker.Resolve | runtime-gateway/tracker.go:82-140 | the lookup leaves the tables alone and takes a branch open for the header's host, or for the request's host when the header is empty, answering as that branch does |
| RoutingTables.HostTracker.RegisterHost | runtime-gateway/tracker.go:142-156 | the five maps, updated in place, become what the value-level registration gives |
| RoutingTables.EndpointSplits | runtime-gateway/tracker.go:142-156 | the endpoint registered for a host leads back to its name, IPv6 literals included, and its port |
| RoutingTables.HostTracker.DeregisterHost | runtime-gateway/tracker.go:158-169 | the five maps become what the value-level deregistration gives; an unknown key changes nothing |
| RoutingTables.HostTracker.RemoveHost | runtime-gateway/tracker.go:176-196 | the nested deletion loops remove the host, all of its placements and their entries under every hostname |
| RoutingTables.HostTracker.RemovePlacements | runtime-gateway/tracker.go:182-193 | deleting from the map while looping over it still visits every placement of the host once |
| RoutingTables.HostTracker.RemoveFromHostnames | runtime-gateway/tracker.go:187-192 | the inner loop takes one workload out of every hostname's set and drops the sets it empties |
| RoutingTables.HostTracker.RegisterWorkload | runtime-gateway/tracker.go:198-217 | the five maps become what the value-level registration gives, the key's differing earlier route being removed first |
| RoutingTables.HostTracker.DeregisterWorkload | runtime-gateway/tracker.go:219-230 | the five maps become what the value-level deregistration gives; an unknown key changes nothing |
| RoutingTables.HostTracker.RemoveWorkload | runtime-gateway/tracker.go:233-241 | the route leaves the placements and its hostname's set, and an emptied set is dropped |
| RoutingLedger.IndexIsUnique | runtime-gateway/tracker.go:54-69 | the live registrations determine the five maps: two tables that index the same ledger are equal |
| RoutingLedger.LedgerIsUnique | runtime-gateway/tracker.go:54-69 | and the five maps determine the live registrations |
| RoutingLedger.RegisterWorkloadExactIff | runtime-gateway/tracker.go:198-217 | registering a workload keeps the tables an exact index if and only if no other key's route loses the ID, host or hostname entry it shares |
| RoutingLedger.DeregisterWorkloadExactIff | runtime-gateway/tracker.go:219-241 | deregistering a workload keeps them exact if and only if no other key shares its workload ID |
| RoutingLedger.RegisterHostExactIff | runtime-gateway/tracker.go:142-156 | registering a host keeps them exact if and only if no other key has its ID at another endpoint or still needs the replaced ID |
| RoutingLedger.DeregisterHostExactIff | runtime-gateway/tracker.go:158-196 | deregistering a host keeps them exact, its routes dropped with it, if and only if no other key shares its host ID |
| RoutingLedger.StepExactIff | runtime-gateway/tracker.go:142-241 | any of the four calls keeps the tables exact if and only if it is compatible with the live registrations |
| RoutingRuns.ExactThroughoutIff | runtime-gateway/tracker.go:142-241 | over every sequence of calls, the tables are the exact index after each one if and only if each is compatible |
| RoutingRuns.CompatibleRunIsExact | runtime-gateway/tracker.go:142-241 | the induction: every prefix of a compatible run leaves exact tables |
| RoutingRuns.FreshStep | runtime-gateway/tracker.go:142-217 | a call that brings an ID no other key holds is compatible and keeps IDs unique |
| RoutingRuns.FreshIDsAreCompatible | runtime-gateway/tracker.go:142-217 | when each ID is only ever under one key, every call of every run is compatible |
| RoutingRuns.ResolveIsLive | runtime-gateway/tracker.go:82-140 | on exact tables a lookup can take a branch if and only if the live registrations call for it; the empty-set and unplaced-workload fallbacks are never taken |
| RoutingRuns.UnknownHostnameIffNoRoute | runtime-gateway/tracker.go:92-99 | the invalid-hostname fallback is open if and only if no live route has the hostname |
| RoutingRuns.RouteLiveIff | runtime-gateway/tracker.go:158-241 | over whole runs, a route is live if and only if some call registered it and no later call deregistered, replaced or dropped it with its host |
| RoutingRuns.HostLiveIff | runtime-gateway/tracker.go:142-196 | over whole runs, a host is live if and only if some call registered it and no later call ended that |
| RoutingRuns.HitIffRegisteredSince | runtime-gateway/tracker.go:82-140 | after every compatible run a lookup can hit a workload at an endpoint if and only if both were registered by earlier calls that nothing since has ended |
| RoutingRuns.AnswerIsLive | runtime-gateway/tracker.go:82-140 | after every compatible run, what a lookup returns is a registered workload at its host's endpoint over HTTP; or the endpoint for unserved hostnames when no live route has the name; or the one for names without workloads when a live route's host is gone |
| GatewayReconciler.HostnameIsFirst | runtime-gateway/reconciler.go:99-119 | the hostname is that of the first HTTP interface that carries one, and empty if none does |
| GatewayReconciler.WorkloadHostname | runtime-gateway/reconciler.go:99-119 | the search loop, with its skips, finds that hostname |
| GatewayReconciler.ReconcileWorkload | runtime-gateway/reconciler.go:47-97 | a Workload reconcile makes at most one registry call, the one its object's state calls for; a failed read or patch makes none |
| GatewayReconciler.ReconcileHost | runtime-gateway/reconciler.go:134-181 | a Host reconcile makes at most one registry call, none while readiness is unknown or on failure |
| GatewayReconciler.DesiredHostIff | runtime-gateway/reconciler.go:150-162 | a host is wanted exactly when its object exists, is not being deleted and is Ready, under its ID and at its address |
| GatewayReconciler.DesiredRouteIff | runtime-gateway/reconciler.go:66-94 | a route is wanted exactly when its workload exists, is not being deleted, is placed and available and advertises a hostname, and it is for that hostname, workload and host |
| GatewayReconciler.WorkloadCallIff | runtime-gateway/reconciler.go:47-97 | a Workload reconcile leaves the tables alone exactly while placement is pending, registers exactly when the route is wanted, and deregisters otherwise |
| GatewayReconciler.HostCallIff | runtime-gateway/reconciler.go:134-181 | a Host reconcile leaves the tables alone exactly while readiness is unknown, registers exactly when the host is wanted, and deregisters otherwise |
| GatewayReconciler.LedgerOfEvents | runtime-gateway/reconciler.go:47-181 | from a fresh tracker and a fixed cluster, the registrations are those wanted of the objects reconciled so far, whatever the order, repeats and failures |
| GatewayReconciler.EventsAreExact | runtime-gateway/reconciler.go:47-181 | and the tables are their exact index after every reconcile, when objects sharing an ID agree |
| GatewayReconciler.ReconcilesReachDesired | runtime-gateway/reconciler.go:47-181 | any covering sequence of reconciles ends in the index of the Ready hosts and the placed, available workloads with a hostname |
| GatewayReconciler.ConfluenceIff | runtime-gateway/reconciler.go:47-181 | all covering sequences end in the same tables if and only if objects sharing an ID agree on it |
| GatewayReconciler.ConfluentIsConsistent | runtime-gateway/reconciler.go:47-181 | two objects that disagree on a shared ID make the final tables depend on which was reconciled last |
| GatewayReconciler.RunThenEvents | runtime-gateway/reconciler.go:47-181 | reconciling after any earlier history starts from the registrations that history left |
| GatewayReconciler.HostSettles | runtime-gateway/reconciler.go:134-181 | from any registrations, a reconciled host ends as the cluster wants it; one of unknown readiness, or not reconciled, stays as it was |
| GatewayReconciler.DropsIff | runtime-gateway/reconciler.go:134-181 | only the first reconcile of a host object can drop its host, and exactly when it takes the registered ID away |
| GatewayReconciler.RouteSettlesIff | runtime-gateway/reconciler.go:47-181 | from any registrations and for every workload, pending placements included, exactly which route the events leave, in terms of the registrations, the cluster and the events |
| GatewayReconciler.StabilisesIff | runtime-gateway/reconciler.go:47-181 | from any registrations, reconciling everything reaches the desired ones if and only if nothing undecided stays registered and every wanted workload is reconciled after its host is last dropped |
| GatewayReconciler.TablesStabiliseIff | runtime-gateway/reconciler.go:47-181 | after any history of compatible calls, the five maps come to index exactly the desired registrations under the same condition |
| GatewayReconciler.HostsFirstStabilisesIff | runtime-gateway/reconciler.go:47-181 | with hosts reconciled first it does so if and only if nothing undecided stays registered, a condition on the registrations and the cluster alone |
| GatewayReconciler.HostsFirstTablesIff | runtime-gateway/reconciler.go:47-181 | and so do the five maps, after any history of compatible calls |
| GatewayReconciler.HostFlapLosesRoutes | runtime-gateway/reconciler.go:159-178 | a host that goes not-ready and returns leaves its workloads without routes, though the cluster is as before |
| OrderTotals.ParsesIff | examples/nats-jetstream-replay/src/lib.rs:72-79 | a stored text parses to a total if and only if it writes it as two 64-bit numerals around a sign, white space and leading zeros or plus signs allowed |
| OrderTotals.TotalRoundTrip | examples/nats-jetstream-replay/src/lib.rs:72-83 | parsing the encoding gives every pair of 64-bit values back |
| Accumulate.RunKeepsInv | examples/nats-jetstream-replay/src/lib.rs:91-146 | over every interleaving, the entry holds the total of the counted sequences, and each handler's pending write extends exactly what it read |
| Accumulate.TotalIsExact | examples/nats-jetstream-replay/src/lib.rs:85-146 | the entry always reads back as the saturated sum over the counted sequences with the newest of them; no sequence is counted twice |
| Accumulate.NoWriteClobbers | examples/nats-jetstream-replay/src/lib.rs:85-90 | no step of any run overwrites a value its writer did not read |
| Accumulate.CountedGrows | examples/nats-jetstream-replay/src/lib.rs:91-146 | a counted sequence stays counted |
| Accumulate.CountedWereDelivered | examples/nats-jetstream-replay/src/lib.rs:91-146 | only delivered sequences are counted |
| Accumulate.OutcomesMeanWhatTheySay | examples/nats-jetstream-replay/src/lib.rs:102-146 | a handler that returns Ok reports a total that was current and includes or supersedes its order; one that gives up lost to five others |
| Accumulate.CountedIffNotOvertaken | examples/nats-jetstream-replay/src/lib.rs:115-119 | over every run, an order whose handler returned Ok is counted if and only if no step counted a higher sequence before it |
| StreamOrder.ReachedIsReadable | examples/nats-jetstream-replay/src/lib.rs:107-119 | what the deliveries of a run have reached can be read off the stored total |
| StreamOrder.RefusedIsRetried | examples/nats-jetstream-replay/src/lib.rs:138-144 | after any run, a write that finds another revision sends its handler back to read, with one more attempt, up to the fifth, with which it gives up |
| StreamOrder.OtherRefusalIsFinal | examples/nats-jetstream-replay/src/lib.rs:138-144 | any other error ends the handler |
| StreamOrder.RetrySucceeds | examples/nats-jetstream-replay/src/lib.rs:98-144 | after any run, a refused handler that is then left alone ends with an Ok and its order counted, unless the total had already reached it |
| StreamOrder.PassedOrderIsLost | examples/nats-jetstream-replay/src/lib.rs:113-119 | after any run, an uncounted order below what is stored is answered Ok on its next delivery and is not counted whatever follows |
| StreamOrder.ConcurrentOrderIsLost | examples/nats-jetstream-replay/src/lib.rs:113-119 | after any run, of two orders not yet reached the lower can lose to the higher for good, and still be answered Ok |
| StreamOrder.OutOfOrderLoses | examples/nats-jetstream-replay/src/lib.rs:85-146 | after any run, a delivery out of stream order can be continued by reads, a write and redeliveries alone to an Ok for an order that is never counted |
| StreamOrder.InOrderKeepsOlderCounted | examples/nats-jetstream-replay/src/lib.rs:91-146 | in stream order, every delivered sequence below another one, or below what is stored, is counted |
| StreamOrder.InOrderCountsEveryOrder | examples/nats-jetstream-replay/src/lib.rs:85-146 | in stream order, every order answered Ok is counted |
| StreamOrder.WaitingCountsEveryOrder | examples/nats-jetstream-replay/src/lib.rs:85-146 | a consumer that sends a newer order only once each older one was answered Ok has every order answered Ok, and every older one, counted |
| StreamOrder.ExactlyOnceIff | examples/nats-jetstream-replay/src/lib.rs:85-146 | over every run, no continuation by reads, writes, failures and redeliveries loses an order answered Ok if and only if every delivery was in stream order |
| StreamOrder.InOrderCountsExactlyTheDelivered | examples/nats-jetstream-replay/src/lib.rs:85-146 | in stream order, once deliveries are settled, counted and delivered sequences are the same |
| StreamOrder.ReplayRebuilds | examples/nats-jetstream-replay/README.md:152-153 | every run in stream order from an empty bucket that delivers a stream's orders until each is answered Ok leaves the total of that stream, whatever it repeats and retries |
| StreamOrder.ReplayCounts | examples/nats-jetstream-replay/README.md:152-153 | there is such a run for every stream: each order delivered, read and written in turn |
| EnvScopes.UndoSaved | crates/wash-runtime/src/env_guard.rs:81-115 | logging a variable and then changing it is undone by the log, repeated keys included |
| EnvScopes.LastBindingWins | crates/wash-runtime/src/env_guard.rs:44-70 | of several bindings of a variable the last is in force, removals included |
| EnvScopes.UnboundIsUntouched | crates/wash-runtime/src/env_guard.rs:44-70 | a variable that is not bound keeps its value |
| EnvScopes.Process.constructor | crates/wash-runtime/src/env_guard.rs:19-32 | a process starts unlocked at depth zero |
| EnvScopes.Process.WithVars | crates/wash-runtime/src/env_guard.rs:44-115 | for any tree of nested calls and panics, the environment, depth and lock are as found, and every body saw its bindings over its caller's |
| EnvScopes.Process.Run | crates/wash-runtime/src/env_guard.rs:44-70 | a body inside a scope leaves the environment as its scope set it, and ends as the tree says |
| EnvThreads.RunKeepsInv | crates/wash-runtime/src/env_guard.rs:44-115 | over every interleaving of threads, each open call's log leads back to what it found |
| EnvThreads.CallsNeverOverlap | crates/wash-runtime/src/env_guard.rs:44-70 | no two threads are inside calls at once, the lock is held exactly by the thread inside one, and when it is free the environment is the initial one |
| EnvThreads.NestedCallsNeverWait | crates/wash-runtime/src/env_guard.rs:21-32 | a nested call never waits for the lock its own thread holds |
| EnvThreads.BodySeesItsVariables | crates/wash-runtime/src/env_guard.rs:44-70 | a running body always sees its variables over what its call found |
| EnvThreads.FinishedCallRestored | crates/wash-runtime/src/env_guard.rs:97-115 | a call that ends, by return or panic, leaves what it found |
| EnvThreads.EntryIsWhatWasFound | crates/wash-runtime/src/env_guard.rs:44-70 | what a call is said to have found is the environment at its entry, and is never rewritten |
| EnvThreads.OthersDoNotInterfere | crates/wash-runtime/src/env_guard.rs:44-70 | while a thread is inside a call, no step of another changes the environment or its calls |
| EnvThreads.HolderCanRelease | crates/wash-runtime/src/env_guard.rs:97-115 | from every reachable state the holder can unwind by its own steps to a free lock and the initial environment |
| BenchStart.Bench.constructor | crates/bench-scale/src/lifecycle.rs:12-31 | a bench starts with an empty journal and no halt |
| BenchStart.Bench.Start | crates/bench-scale/src/bench.rs:167-228 | the retry loop does what its trace says, journals it, and sets halt exactly when the result is refused or unanswered; under halt it skips and touches nothing |
| BenchStart.Bench.Attempt | crates/bench-scale/src/bench.rs:183-213 | one attempt sends the start once, acknowledges its ID in the journal if the host answers, and resolves as the replies decide |
| BenchStart.Bench.SettleLoop | crates/bench-scale/src/bench.rs:232-256 | the status loop ends as its replies and the clock decide |
| BenchStart.BoundedStarts | crates/bench-scale/src/bench.rs:183-228 | at most retries + 1 start requests are sent |
| BenchStart.ResendOnlyUnseen | crates/bench-scale/src/bench.rs:183-256 | a start is sent again only right after a reply that nobody is listening or that the host does not know it |
| BenchStart.ResultWasReported | crates/bench-scale/src/bench.rs:183-256 | a start comes back live, refused or failed exactly according to the decisive replies it heard |
| BenchStart.DeadlineIffUndecided | crates/bench-scale/src/bench.rs:232-256 | the status loop runs into its deadline, unanswered, exactly when every reply up to it leaves the start open |
| BenchStart.StatusIsAskedIff | crates/bench-scale/src/bench.rs:184-212 | a status is asked for exactly when the request timed out, the workload is on its way up, or a repeated request was an error |
| BenchStart.FirstErrorIsFinal | crates/bench-scale/src/bench.rs:195 | a first request answered with an error is a refusal at once |
| BenchStart.GivesUpOnlyAfterAllRetries | crates/bench-scale/src/bench.rs:214-223 | a start given up as unseen was sent as often as allowed |
| BenchStart.StartRetries | crates/bench-scale/src/bench.rs:167-256 | for every host, clock and number of retries: the bound and the reason for every request, and which of the four results a start has, from its replies alone |
| BenchCleanup.CleanupOne | crates/bench-scale/src/lifecycle.rs:122-166 | an ID is removed if and only if it was acknowledged or shown held, and that or a later status said it was gone |
| BenchCleanup.Cleanup | crates/bench-scale/src/lifecycle.rs:122-166 | the residual is exactly the journaled IDs without that evidence, each once |
| BenchCleanup.OnlyNotFoundIsResidual | crates/bench-scale/src/lifecycle.rs:122-166 | an unanswered start that only ever gets not-found is residual |
| BenchCleanup.WithCleanup | crates/bench-scale/src/lifecycle.rs:88-120 | the run's result or error survives cleanup, the IDs reported are exactly the journaled ones not confirmed removed, and none is reported if and only if all were |
| BenchCleanup.StartIsJournaledFirst | crates/bench-scale/src/bench.rs:179-187 | a start request is never sent before its ID is journaled |
| BenchCleanup.InterleavingIsJournaledFirst | crates/bench-scale/src/bench.rs:268-289 | that holds of any number of traces interleaved in any way |
| BenchCleanup.LaunchesAreJournaledFirst | crates/bench-scale/src/bench.rs:268-289 | and so of the starts of any run, skipped ones included |
| BenchCleanup.PrefixIsJournaledFirst | crates/bench-scale/src/lifecycle.rs:33-43 | and of any run cut short by cancellation |
| BenchCleanup.JournalIsExact | crates/bench-scale/src/lifecycle.rs:12-31 | the journal of a run holds exactly the submitted IDs, and marks exactly the acknowledged ones |
| BenchCleanup.CleanUpAfter | crates/bench-scale/src/lifecycle.rs:88-166 | for any starts, any interleaving and any cut: if the result mentions no ID, every ID ever sent a start was confirmed removed; and it mentions none exactly when every submitted ID was |
| BenchEvidence.RunKeepsInv | crates/wash-runtime/src/host/mod.rs:1314-1370 | whatever a host does that refuses an ID in use and names states from its table, the requests that the replies give away are among those it handled, and what cleanup knows comes from a handled request |
| BenchEvidence.ConfirmedIsGone | crates/bench-scale/src/lifecycle.rs:122-166 | when the replies to the starts are conclusive, a workload that cleanup confirms removed is gone and nothing can bring it back |
| BenchEvidence.EvidenceNamesTheEntry | crates/bench-scale/src/lifecycle.rs:133-156 | cleanup takes for evidence exactly the states that a host names from an entry, and for removal exactly those that say there is none |
| BenchEvidence.StartIsWellFormed | crates/bench-scale/src/bench.rs:167-256 | in every start, a reply follows each request, acknowledgements follow answers, and status queries follow replies |
| BenchEvidence.AnswerableIff | crates/bench-scale/src/bench.rs:167-256 | some host can give a start its replies if and only if at no point they give away more requests than may have reached one |
| BenchEvidence.InconclusiveCanBeWrong | crates/bench-scale/src/lifecycle.rs:122-166 | when they are not, some host that accepts what it says it runs gives the bench exactly those replies and holds the workload after it was confirmed removed |
| BenchEvidence.OneRequestIsConclusive | crates/bench-scale/src/bench.rs:183-228 | a start sent at most once is conclusive |
| BenchEvidence.RetryIsInconclusive | crates/bench-scale/src/bench.rs:183-228 | a start that timed out, was not found, was sent again and came up is not conclusive |
| BenchEvidence.RetryOutlivesCleanup | crates/bench-scale/src/bench.rs:183-228 | the steps by which such a workload runs after it was stopped and confirmed removed |
| BenchEvidence.RefusedRetryIsConclusive | crates/bench-scale/src/bench.rs:189-194 | a retry refused as a duplicate of a first start that is then seen running is conclusive |
| BenchEvidence.EvidenceIsConclusiveIff | crates/bench-scale/src/lifecycle.rs:122-166 | for every start and every cut of it, cleanup's confirmation is right for every host behaviour, then and ever after, if and only if the replies are conclusive, which the bench can compute |
| BenchRamp.BatchEnds | crates/bench-scale/src/bench.rs:268-289 | under every schedule of starts and watcher steps, a batch ends every start, and a skipped start means a stop condition holds |
| BenchRamp.EndedStays | crates/bench-scale/src/memory.rs:42-54 | the watcher running on after the batch changes none of its results |
| BenchRamp.EveryStartIsCounted | crates/bench-scale/src/bench.rs:268-289 | live, refused, unanswered, failed and skipped starts add up to the batch |
| BenchRamp.StartGoesOutAndComesBack | crates/bench-scale/src/bench.rs:167-228 | with the flag down a start goes out and ends with its reply, raising the flag exactly when refused or unanswered |
| BenchRamp.HaltedSendsNothing | crates/bench-scale/src/bench.rs:167-171 | with the flag up no start goes out under any schedule, and the flag stays up |
| BenchRamp.HaltedBatchSkips | crates/bench-scale/src/bench.rs:268-289 | a batch that begins with the flag up skips every start |
| BenchRamp.InFlightIsBounded | crates/bench-scale/src/bench.rs:268-273 | under every schedule at most the configured number of starts is under way |
| BenchRamp.WatcherRaisesFlag | crates/bench-scale/src/memory.rs:42-54 | a reading at or over the limit raises the flags and the peak, one below raises none, a lost one does when readings are required |
| BenchRamp.AttemptsWhatFits | crates/bench-scale/src/bench.rs:466-467 | a turn attempts as many starts as the step and the cap allow, and at least one |
| BenchRamp.StopsIffCause | crates/bench-scale/src/bench.rs:454-616 | a turn stops the run for a reason exactly when that is the first of the causes that hold |
| BenchRamp.GoesOnIffNoCause | crates/bench-scale/src/bench.rs:454-616 | the run goes on exactly when no cause holds: readings below the limit, no refused or unanswered start, no failed warm-up, at most half of the sample and of the starts failed |
| BenchRamp.LiveIndicesWork | crates/bench-scale/src/bench.rs:268-289 | the live indices are ascending, lie in the batch and are exactly the live starts |
| BenchRamp.UnstoppedTurnMakesProgress | crates/bench-scale/src/bench.rs:454-616 | a turn that does not stop the run skipped no start, and at least half of it came up |
| BenchRamp.RampKeepsRunning | crates/bench-scale/src/bench.rs:454-616 | whatever the limit, after every turn the running workloads are within the cap, in ascending order |
| BenchRamp.TurnKeeps | crates/bench-scale/src/bench.rs:454-616 | every turn stops the run or adds a running workload, within the cap and in ascending order |
| BenchRamp.RampKeeps | crates/bench-scale/src/bench.rs:454-616 | after k unstopped turns at least k workloads run |
| BenchRamp.RampTerminates | crates/bench-scale/src/bench.rs:454-616 | with a positive limit, in every world, the run ends within cap batches and never exceeds the cap |
| BenchRamp.ZeroLimitCanStall | crates/bench-scale/src/memory.rs:42-54 | with a zero limit there is a world in which it never ends |
| BenchRamp.RampTerminatesIff | crates/bench-scale/src/bench.rs:454-616 | it ends in every world if and only if the limit is positive or the cap is zero |
| BenchRamp.RunTurn | crates/bench-scale/src/bench.rs:454-616 | one pass of the loop body, checks in their order, takes the ramp's turn |
| BenchRamp.MeasureFlavour | crates/bench-scale/src/bench.rs:415-616 | the loop, whenever it ends in every world, ends within cap + 1 turns, in the ramp's state, at the first turn with a cause to stop, and reports that cause |
| Density.SpreadSpans | crates/bench-tools/src/density.rs:302-314 | min(requested, count) ascending positions below the count, ending at the newest and starting at the oldest when there are two |
| Density.SpreadIsEven | crates/bench-tools/src/density.rs:302-314 | any two gaps differ by at most one |
| Density.SpreadFits | crates/bench-tools/src/density.rs:305-314 | no product overflows 128 bits and no position 64 |
| Density.SampleIsOfRunning | crates/bench-scale/src/bench.rs:493-496 | a sample of ascending workloads is that many distinct ones of them, the newest among them |
| BenchRamp.RampSamplesRunning | crates/bench-scale/src/bench.rs:493-496 | after every turn of the ramp the sample is such a sample of the running workloads, of the size that failures are held against |
| Density.EstimateIsLargest | crates/bench-tools/src/density.rs:243-270 | within the limit, the estimate is the largest count that fits |
| Density.EstimateFitsIff | crates/bench-tools/src/density.rs:243-270 | exactly when the estimated count fits the limit, over the limit included |
| Density.EstimateIsClose | crates/bench-tools/src/density.rs:249-270 | over the limit it is less than one workload above the real-valued answer, or zero |
| Density.CostIsWhatWasAdded | crates/bench-tools/src/density.rs:243-270 | there is an estimate exactly when there is a clean reading, its cost is what each workload added since the first reading or over the baseline, rounded down, and there is a count exactly when that is positive |
| Density.AverageEstimateFits | crates/bench-tools/src/density.rs:249-270 | from a single reading the cast to 64 bits is exact |
| Density.SlopeEstimateFits | crates/bench-tools/src/density.rs:249-270 | from a slope it is exact when the first count plus the limit fits 64 bits |
| Density.SlopeEstimateCanWrap | crates/bench-tools/src/density.rs:249-270 | two readings past that bound for which the cast wraps |
| Density.CountIsLargestThatFits | crates/bench-tools/src/density.rs:243-270 | for every list of steps with a count and a last reading within the limit, the count returned is the largest that fits at the returned cost |
| Density.CastIsLargestIff | crates/bench-tools/src/density.rs:264-267 | within the limit the cast keeps the largest count if and only if a bound on the readings, stated without dividing, holds |
| Density.ExcessIsLargestIff | crates/bench-tools/src/density.rs:264-267 | over the limit the count is the largest that fits if and only if the excess is a whole number of workloads |
| Density.CountIsLargestIff | crates/bench-tools/src/density.rs:243-270 | for every list of 64-bit readings, exactly when the returned count is the largest that fits at the returned cost |
| CwasmCache.CacheKey | crates/wash-runtime/src/fetch_precompiled.rs:175-185 | the loop writes two lower-case hex digits per byte |
| CwasmCache.HexIsInjective | crates/wash-runtime/src/fetch_precompiled.rs:171-185 | different digests have different file names |
| CwasmCache.TempIsNeverFinal | crates/wash-runtime/src/fetch_precompiled.rs:129-135 | no temporary name is a final name |
| CwasmCache.TempIsInjective | crates/wash-runtime/src/fetch_precompiled.rs:135 | temporary names differ when their unique parts do, whatever the digests |
| CwasmCache.RunKeepsInv | crates/wash-runtime/src/fetch_precompiled.rs:99-156 | over every run, final files are whole, each download's temporary file is a prefix of its bytes, and no two share one |
| CwasmCache.NeverHalfWritten | crates/wash-runtime/src/fetch_precompiled.rs:129-151 | under any races, failures, crashes and sweeps, a file under a URL's name is absent or the URL's whole component |
| CwasmCache.StepKeepsFinal | crates/wash-runtime/src/fetch_precompiled.rs:99-156 | a final file disappears only by being swept |
| CwasmCache.OkMeansWhole | crates/wash-runtime/src/fetch_precompiled.rs:86-156 | a call that returns Ok names a file holding what a direct fetch gives, then and until it is swept |
| CwasmCache.CachedIsReused | crates/wash-runtime/src/fetch_precompiled.rs:108-117 | after any run, what is cached is handed back without a download, and what is not, or cannot be looked up, is fetched |
| CwasmCache.FailedMoveCleansUp | crates/wash-runtime/src/fetch_precompiled.rs:139-147 | a failed move is an error and its temporary file is removed if it can be |
| CwasmCache.UndisturbedFills | crates/wash-runtime/src/fetch_precompiled.rs:99-156 | a download that meets no obstacle fills the cache and returns Ok |
| CwasmCache.SoundIffNoClash | crates/wash-runtime/src/fetch_precompiled.rs:93-98 | the cache is right over every run if and only if URLs sharing a digest share their bytes |
| TrustStore.RunKeepsInv | crates/wash-runtime/src/oci.rs:119-168 | over every interleaving of callers, each caller's phase agrees with what the store holds |
| TrustStore.ClaimedOnce | crates/wash-runtime/src/oci.rs:119-155 | what is in force stays in force |
| TrustStore.ClaimIsSomeCallers | crates/wash-runtime/src/oci.rs:119-155 | the store is never claimed by an empty set, and only by a caller that asked for it and was told Ok |
| TrustStore.AnswersStayTrue | crates/wash-runtime/src/oci.rs:105-168 | a non-empty caller is told Ok only if exactly its set is in force then and ever after, and of a conflict only if a different one is |
| TrustStore.RejectedFindsWinner | crates/wash-runtime/src/oci.rs:148-153 | a caller that lost the race always finds a set in force, so the empty branch is unreachable |
| TrustStore.EmptyRequestIsHarmless | crates/wash-runtime/src/oci.rs:121-133 | a caller that asks for nothing is told Ok and never claims the store |
| TrustStore.CallAlone | crates/wash-runtime/src/oci.rs:119-155 | from any state, an uninterrupted caller succeeds exactly when its set is in force or free to claim and loads; a failed load claims nothing |
| AuthId.LittleEndianRoundTrip | crates/wash-runtime/src/oci.rs:575-578 | a length is recovered from its little-endian bytes |
| AuthId.FeedHasher | crates/wash-runtime/src/oci.rs:571-593 | fields fed one after another make up the encoding |
| AuthId.DecodesBack | crates/wash-runtime/src/oci.rs:571-593 | every credential is decoded from the bytes fed for it |
| AuthId.PreimageIsInjective | crates/wash-runtime/src/oci.rs:574 | no two different credentials feed the hasher the same bytes |
| Wit.ParsedIsPrintable | crates/wash-runtime/src/wit.rs:439-476 | every text parses to an unnamed, unconfigured interface free of misplaced separators |
| Wit.RoundTripIff | crates/wash-runtime/src/wit.rs:395-476 | parsing the printed form gives an interface back, in whatever order its set is printed, if and only if it is unnamed, unconfigured, free of misplaced separators, and its version is read back |
| Wit.NameIsShown | crates/wash-runtime/src/wit.rs:395-401 | a name, which parsing does not read, is printed after the package |
| Wit.ParsingIsSettled | crates/wash-runtime/src/wit.rs:395-476 | one parse settles any text if and only if its version is read back |
| Wit.FoldIgnoresOrder | crates/wash-runtime/src/wit.rs:413-437 | a commuting fold over a set gives the same value in every enumeration order |
| Wit.Hash | crates/wash-runtime/src/wit.rs:413-437 | accumulating over the set and over the map feeds the hasher their XOR folds |
| Wit.EqualInterfacesHashAlike | crates/wash-runtime/src/wit.rs:413-437 | equal interfaces feed the same values, whatever order their sets and maps iterate in |
| Wit.CompatibleThroughIff | crates/wash-runtime/src/wit.rs:342-369 | compatibility through a middle version is transitive if and only if the middle is versioned |
| Wit.CompatibleIff | crates/wash-runtime/src/wit.rs:342-369 | two versions are compatible exactly when they differ in build alone, or neither is a prerelease and they agree up to the first non-zero of major and minor; an unversioned side matches anything |

## Left out

- BenchRamp.MeasureFlavour: requires a positive memory limit or nothing to start, because otherwise the loop need not end (RampTerminatesIff).
- EnvScopes.Process.WithVars: variable names that the operating system rejects, and bodies that change the environment other than through nested calls, are not modelled.
- Wit.RoundTripIff: how semantic versions print and parse is a parameter; that a version is read back is part of the condition.
- BenchEvidence.EvidenceIsConclusiveIff: takes a host to answer a start only once it has handled it, to name a state only from the table entry that it has, and to refuse an ID in use; starting and running entries are not told apart, nor failed and stopping ones, and an entry may be lost at any time, as by a restart.
- CwasmCache.OkMeansWhole: takes a fetch of a URL to give the same bytes each time, and temporary names to be fresh; bytes lost by a power failure after a rename, and which files the sweep chooses by age and use, are not modelled (the model may sweep any file at any time).
- Accumulate: other keys of the bucket, deleted keys and non-UTF-8 values; the parsing of orders and the acknowledgement of messages.
- BenchRamp: the run without a cap and its floating-point estimate of one, percentiles, the per-step report and the order in which results arrive.
- Density: `served_sample` and `ServingEvidence`, which would only add easy members.
- TrustStore: what a certificate bundle holds; loading one succeeds or fails.
- AuthId and CwasmCache: SHA-256 itself; properties are about what is fed to it, or hold for digests that do not clash.
- Wit: `merge`, `contains` and the matching of worlds.
- Clocks, sleeps and deadlines are arbitrary finite traces of replies; memory accesses are sequentially consistent.
- Kubernetes client calls, finalizer patches, HTTP proxying and the two fallback endpoints of the gateway.
- The operator, the OCI pull coalescer and disk cache, configuration layering, log and error texts.
