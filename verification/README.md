# Tyrion: verified model of the control plane

Tyrion dispatches contained coding agents ("Workers") on behalf of a Principal. This
project models the parts of it that decide: which work may start, who does it, whether
what a Worker reports can be believed, what a Worker is told while it runs, what a
credentialed effect may claim, and what a client may assume after a lost answer. Every
property below is a statement over all inputs, all interleavings or all runs.

| modules | component | main results |
|---|---|---|
| `Splitting`, `Scopes`, `Frontier`, `FrontierOptimality`, `Scheduling` | execution frontier | greedy admission is the lexicographically first feasible set; in every run no path, read component by component, has two writers outside one competition, and usage stays within the ceilings last dispatched under |
| `Planning`, `PlanValidity`, `PlanAdmission`, `PlanExecution`, `PlanProgress`, `Capacity` | planner proposals, host capacity | the two depth-first searches are reachability and acyclicity on every graph; in every execution of an accepted plan, recoveries included, nothing is held for overlap, nothing stalls and everything can be completed; the closed-form Worker ceiling is what the loop admits |
| `Routing`, `RoutingMeaning`, `RoutingOrder` | Worker routing | the selection is the best by its scores among those that meet the request and can run; the decision does not depend on catalog order; whole reroute sequences do not drift |
| `AdapterEvents`, `AdapterContract`, `TraceAssembly`, `TraceGuarantees`, `TraceAttestation`, `LifecycleMeaning`, `TraceAcceptance` | adapter trace contract | what acceptance means on the trace itself, for four adapter kinds: exactly which traces are accepted, event by event |
| `LiveTelemetry`, `TelemetryExamples` | live telemetry | exactly when live totals equal reported totals |
| `AdapterRun`, `OpenCodeAdapter`, `OpenCodeMeaning`, `OpenCodeAcceptance` | OpenCode adapter | when the loop settles and in which state, said of the turns alone; exactly which settled runs the contract accepts |
| `CodexQueues`, `CodexAcceptance`, `PiAdapter`, `PiAcceptance` | Codex and Pi adapters | two buffers act as one queue: nothing is lost, repeated or reordered; an undisturbed run finishes exactly when its terminal event arrives; exactly which finished runs the contract accepts |
| `LiveControl` | steer, interrupt, attach, detach, Watchdog | what is accepted and what the adapter is sent, in every interleaving |
| `CapturedOutput`, `SandboxObjects`, `CredentialEffects`, `EffectNecessity`, `DestinationOrigin`, `DestinationAcceptance`, `CurlConfig`, `ShellQuote` | credentialed effects | exact outcome and receipt, and exactly what may be left behind, for every combination of external answers; which destinations are accepted; three string round trips |
| `EntrySession`, `IdempotentCalls`, `EntryDiscipline` | Entry Sessions | a key is answered once and for all; retrying starts exactly one Commission, however calls are lost; exactly when a session has two under way |

Code that changes state is modelled as methods and classes, each proved equal to a
specification function; the results are lemmas about those functions. `u64` is a subset
type of `nat`, so every unchecked addition in the source is an obligation to show that it
does not overflow.

## What the code does that a reader may not expect

* An OpenCode or Pi run that is both interrupted and failed is always rejected by the
  contract: an OpenCode run settles as `interrupted`, but the earlier error fixed the
  contract's state at `failed`. `docs/reference/routing.md:108` says that an aborted session
  normalizes to the interrupted state. The model follows the code
  (`OpenCodeAcceptance.InterruptedFailureIsRejected` is such a run;
  `SettledRunIsAcceptedExactly` in `OpenCodeAcceptance` and `PiAcceptance` are the conditions).
* Live Codex and Pi totals can differ from the reported ones on accepted traces: for Codex
  when a ready, Skill or Result event also carries totals, for Pi when an assistant message
  follows the usage report. `TelemetryExamples` gives one trace of each kind;
  `LiveTelemetry` gives the exact conditions, and `PiAdapter` and `CodexAcceptance` show that
  the adapters themselves never produce such a trace.
* A Watchdog that finds the adapter attached, and is overtaken by a detach before its
  interrupt, leaves the Result standing although its signal is recorded
  (`LiveControl.WatchdogCanMissADetach`; the exact condition is `WatchdogContainsExactly`).
* A one-shot effect can be reported as Failed while a container created for it may remain:
  when a Docker call after egress is not issued in time or gives no answer, or the launched
  image cannot be read, the code returns without deleting anything. No secret has been
  delivered on those paths. `CredentialEffects.FailedEffectCanLeaveSandbox` is such a call,
  and `FailedStartLeavesNothingExactly` says when a failed start leaves nothing.
* An effect can be reported as Ok with its sandbox destroyed while parts of it remain. A
  removal that fails is accepted when its error text, in any case, mentions "no such", "not
  found" or "already in progress", for whatever reason it does. So a sandbox that is still
  being removed counts as gone (`CredentialEffects.SuccessCanPrecedeRemoval`), and when the
  Docker host's name stops resolving ("no such host") everything remains behind an Ok receipt
  (`SuccessCanLeaveEverything`). The network removals also pass an empty second name, whose
  own error text excuses a refusal about the first (`SandboxObjects.AnyTextAroundExcuses`).
  Under a receipt that claims destruction, what may remain is exactly what was excused by
  its text although it is still there (`CredentialEffects.ExecuteOneShot`).
* A leak that was found can go unreported. When a response was judged and is not clean, and
  the sandbox then cannot be deleted, the receipt is replaced by one that only says so, and
  the judged response, leak included, is dropped (`src/credential.rs:981-991`).
  `CredentialEffects.DroppedLeakGoesUnreported` is such a call; `KeepsResponse` in the
  contract of `ExecuteOneShot` is the exact condition under which the response is kept.
* The Codex adapter passes a completed turn on before it looks at its status. With a null
  status its loop goes on, with another value that is no string the loop ends; the contract
  rejects both traces (`CodexAcceptance.FinishedTurnIsAcceptedExactly`).
* A session that gives up on a start and starts another task can have two Commissions under
  way: the first acceptance may have been applied although its answer was lost
  (`EntryDiscipline.AbandonedStartLeavesTwoUnderway`). `StartCollidesExactly` says which
  starts do this, and `NeverTwoUnderwayExactly` which sessions; one that retries a failed
  start before starting anything else never does.
* Storage: when a proposal has more Assignments than storage bytes, each still receives one
  byte, so an independent set is admitted whole only up to the storage ceiling.
  `PlanAdmission.AntichainIsAdmittedWhole` has this as part of its condition.

## Model

| member | source | states |
|---|---|---|
| Scopes.WithinIsPrefixOfComponents | src/store/frontier.rs:135-137 | a path lies within a scope exactly when the components of the scope, between slashes, are the first components of the path |
| Scopes.OverlapIsSharedPath | src/store/frontier.rs:115-139 | two scope lists overlap exactly when the components of some path start with those of a scope of each: the textual test is sound and complete |
| Frontier.Select | src/store/frontier.rs:57-93 | the loop takes the specified decision on every candidate, so selected and held items, with reasons, come out in candidate order |
| FrontierOptimality.FeasibleCons | src/store/frontier.rs:95-134 | a list may run together exactly when its head may be admitted and the rest may run after reserving it |
| FrontierOptimality.GreedyIsFeasible | src/store/frontier.rs:57-93 | everything selected at once is pairwise compatible, compatible with what runs, and within all four ceilings |
| FrontierOptimality.GreedyIsLexicographicallyFirst | src/store/frontier.rs:63-92 | the selection precedes every other feasible set in candidate order |
| FrontierOptimality.GreedyIsMaximal | src/store/frontier.rs:63-92 | no held candidate could be added to the final selection |
| FrontierOptimality.SelectionPartitionsCandidates | src/store/frontier.rs:63-92 | what the frontier selects are the items of its optimal set in order, and selected and held items together are the candidates, none lost and none repeated |
| FrontierOptimality.DecisionsPartition | src/store/frontier.rs:70-90 | any decision on each candidate splits the candidates in two |
| FrontierOptimality.SelectedItemsArePicked | src/store/frontier.rs:90-92 | the selected items are those of the optimal set, in order |
| FrontierOptimality.OverlapHoldsAreExact | src/store/frontier.rs:66-73 | a candidate is held for overlap exactly when it conflicts with occupied work or with a candidate admitted before it |
| FrontierOptimality.ConflictIsExact | src/store/frontier.rs:66-69 | two works conflict exactly when some path may be written by both and they are not in one and the same competition |
| FrontierOptimality.DecisionsAreExact | src/store/frontier.rs:63-92 | the decision on each candidate and its reason, from what is occupied and the sums of what was admitted before: conflict first, then slots and storage, then the host |
| FrontierOptimality.HeldItemsAreExact | src/store/frontier.rs:70-90 | the held items are those of the candidates that are not admitted, in order, each with its reason |
| Scheduling.HostLoadIsShared | src/store.rs:13261-13272 | every Commission sees the same CPU and memory in use |
| Scheduling.OccupiedIsExact | src/store/projection.rs:1077-1139 | what occupies a Commission is exactly what it runs |
| Scheduling.UsedIsExact | src/store/projection.rs:1077-1139 | slots and storage in use are the sums over the Commission, CPU and memory over the host |
| Scheduling.StepKeepsSafe | src/store.rs:7363-7430 | dispatching any prefix of a selection, or finishing any Attempt, keeps exclusion, and keeps usage within the ceilings then in force, over several Commissions on one host |
| Scheduling.RunStaysSafe | src/store.rs:7363-7430 | every state of every run is safe |
| Scheduling.WritersExcludeEachOther | src/store/frontier.rs:66-69 | in every run, a path is in the write scopes of two running Assignments of a Commission only within one competition |
| Scheduling.UsageStaysWithinCeilings | src/store/projection.rs:1077-1139 | in every state of every run, what is reserved is within the ceilings of the dispatches that last started work (of the Commission for slots and storage, of any for CPU and memory), so the recomputed sums fit 64 bits |
| Scheduling.SelectionCanStart | src/store.rs:7363-7430 | any prefix of what the frontier selects can be started, and then runs beside everything that ran before |
| Planning.StorageShare | src/store/planning.rs:152-153 | the largest even share that stays within the ceiling, and at least one byte even when there are more Assignments than bytes |
| Planning.CompletePlan | src/store/planning.rs:148-176 | expansion keeps everything proposed, and adds one slot, the even storage share, no spend, no Worker requirements and no competition |
| Planning.DependsOn | src/store/planning.rs:221-235 | the search terminates on every graph, cyclic or dangling, and finds exactly whether a non-empty dependency path exists |
| Planning.FindOverlap | src/store/planning.rs:238-245 | finds a left scope that meets some right scope exactly when the scope lists overlap |
| Planning.UnorderedOverlap | src/store/planning.rs:238-252 | reports a scope exactly when the pair overlaps and neither depends on the other |
| Planning.FindUnordered | src/store/planning.rs:237-254 | the first later Assignment that overlaps a given one without an order |
| Planning.EnsureOverlapsAreOrdered | src/store/planning.rs:210-257 | accepts exactly the plans whose overlapping writers are ordered by a dependency path, and otherwise names the first unordered pair and a scope that both write |
| PlanAdmission.ReachabilityIsDeclared | src/store/planning.rs:211-220 | a path in the collected map is a path of declared dependencies, even with repeated ids |
| PlanAdmission.AcceptanceIsDeclared | src/store/planning.rs:206-257 | a plan with unique ids is accepted exactly when any two Assignments that may write one path are ordered by a chain of declared dependencies |
| PlanValidity.Visit | src/store.rs:17145-17166 | the recursive visit with its two sets terminates and answers exactly whether no cycle can be reached from the id; what it remembers is clear of cycles |
| PlanValidity.EnsureAcyclic | src/store.rs:17144-17185 | the check over all ids, in any order, accepts exactly the acyclic graphs |
| PlanValidity.ValidateDependencies | src/store.rs:15833-15843 | accepts exactly the plans in which every dependency is the id of another Assignment |
| PlanValidity.ValidateGraph | src/store.rs:15833-15878 | both checks together; the first makes the look-ups of the second safe |
| PlanValidity.AcyclicAsDeclared | src/store.rs:17144-17185 | acyclic means that no Assignment waits for itself, directly or through others |
| PlanAdmission.ReadyWorkIsIndependent | src/store/planning.rs:210-257 | Assignments that are not done but whose dependencies are never depend on each other, directly or through others |
| PlanAdmission.AcceptedPlanIsNeverHeldForOverlap | src/store/planning.rs:206-257 | while running and ready Assignments of an accepted plan are independent, the frontier never holds one for a write overlap |
| PlanAdmission.WholeAdmissionIsFeasibility | src/store/frontier.rs:57-93 | a list is admitted whole exactly when it may run together |
| PlanAdmission.AntichainIsAdmittedWhole | src/store/planning.rs:146-176 | an independent set of an accepted proposal is admitted whole by an idle Commission exactly when its size is within the concurrency and storage ceilings and the host has room |
| PlanExecution.ReachabilitySurvives | src/store.rs:13021-13044 | every dependency path of a plan is, with the superseded id renamed, one of the recovered plan |
| PlanExecution.RecoveryKeepsPlanAccepted | src/store.rs:12968-13053 | superseding an Assignment by a recovery one keeps ids unique and overlapping writers ordered |
| PlanExecution.RecoveryKeepsSound | src/store.rs:12968-13053 | recovery keeps every running Assignment unsettled and free of open dependencies, and every dependent waiting for the recovery |
| PlanExecution.StepKeepsSound | src/store.rs:12178-12213 | dispatching the first selected Assignment, ending an Attempt or recovering keeps the plan accepted and every running Assignment unsettled, distinct and free of open dependencies |
| PlanExecution.ExecutionStaysSound | src/store.rs:12165-12225 | the same in every state of every execution |
| PlanExecution.ExecutionNeverHoldsForOverlap | src/store/planning.rs:206-257 | in every state of every execution of an accepted plan, recoveries included, whatever is ready, used and allowed, the frontier holds no Assignment for a write overlap |
| PlanExecution.ExecutionKeepsWritersApart | src/store/planning.rs:206-257 | in every execution of an accepted plan no path is in the write scopes of two running Assignments |
| PlanProgress.ReachabilityReturns | src/store.rs:13021-13044 | every dependency path of a recovered plan stands for one of the plan |
| PlanProgress.RecoveryKeepsValid | src/store.rs:12968-13053 | recovery keeps ids unique, every dependency named and the graph acyclic |
| PlanProgress.WaitEnds | src/store.rs:12178-12213 | in any state of a valid plan, whatever is not settled is ready or running, or waits, perhaps through others, for something that is |
| PlanProgress.ExecutionNeverStalls | src/store.rs:12165-12225 | the same in every state of every execution, recoveries included |
| PlanProgress.ReadyWorkCanStart | src/store/frontier.rs:57-93 | in every sound state a ready Assignment whose reservation fits is admitted, whatever else is running |
| PlanProgress.EveryExecutionCanFinish | src/store.rs:12165-12225 | every execution of a valid plan can be completed from wherever it is, if each Assignment alone fits the ceilings |
| Capacity.IdenticalWorkers | src/store/frontier.rs:63-90 | identical compatible Workers are admitted in order until the host is full; all later ones are held for host capacity |
| Capacity.WorkerCeilingMatchesAdmission | src/init.rs:335-342 | of any number of default Workers on an idle host, exactly the first `worker_ceiling` are admitted |
| Capacity.WorkerCeilingExamples | src/init.rs:1234-1241 | the four examples that the repository fixes |
| Routing.FailedGates | src/worker/routing.rs:717-833 | the reported failures are exactly the gates, of thirteen, that the configuration fails, so there is none exactly when it is eligible |
| RoutingMeaning.EligibleMeetsRequest | src/worker/routing.rs:717-833 | eligible exactly when the configuration, field by field, supplies what the request asks for |
| RoutingMeaning.EachGateIsItsField | src/worker/routing.rs:717-833 | each reported gate is about its own field |
| RoutingMeaning.UsableCanRun | src/worker/routing.rs:672-701 | usable exactly when declared available, qualified if it is Pi, its adapter executable if structured, and not excluded by a failure |
| RoutingMeaning.ApproximatelyEqualStaysClose | src/worker/routing.rs:868-885 | approximately equal exactly when in the same class and at most 100 basis points below on each of three scores |
| RoutingMeaning.PrecedesRanksAbove | src/worker/routing.rs:841-866 | the order on the metrics, without the comparison: more correctness, adherence, first-pass acceptance, less time, less cost, more continuity, each only if those before tie; then the smaller id at the first different character, or a proper prefix |
| Routing.Partition | src/worker/routing.rs:289-301 | every configuration goes to one list, in catalog order, with its failed gates |
| Routing.FindReplacement | src/worker/routing.rs:317-321 | the first usable candidate approximately equal to the preferred one, or none |
| Routing.RouteBy | src/worker/routing.rs:284-362 | the decision for any gates: status, attention, selection, ranked eligible list, ineligible list, fallback |
| Routing.Route | src/worker/routing.rs:284-362 | the same for the gates of a request |
| RoutingOrder.OrderIsTotal | src/worker/routing.rs:841-866 | configurations tie only with equal ids; otherwise exactly one precedes |
| RoutingOrder.OrderIsTransitive | src/worker/routing.rs:841-866 | the seven keys compose to a transitive order |
| RoutingOrder.FindDuplicateId | src/worker/routing.rs:420-439 | validation accepts ids exactly when they are unique, and otherwise names one that occurs twice |
| RoutingOrder.SortSorts | src/worker/routing.rs:302 | the eligible list is the same configurations in strictly ascending order |
| RoutingOrder.SortedListingIsUnique | src/worker/routing.rs:302 | a set of configurations has only one sorted listing |
| RoutingOrder.RouteIsCanonical | src/worker/routing.rs:284-362 | permuting the catalog changes neither the selection nor the ranked list nor the fallback, and only reorders the ineligible entries |
| RoutingOrder.SelectionIsBestAlternative | src/worker/routing.rs:307-331 | the selection is the best usable eligible configuration approximately equal to the best eligible one; there is none exactly when no such configuration exists |
| RoutingOrder.UsableBestIsSelected | src/worker/routing.rs:309-314 | a usable best configuration is itself selected |
| RoutingOrder.AttentionNamesThePreferred | src/worker/routing.rs:332-342 | attention is required exactly when no usable eligible configuration is approximately equal to the best one; it then asks about the best one, or for any eligible one if there is none |
| RoutingOrder.RouteSelectsForRequest | src/worker/routing.rs:284-362 | for a request, the best by the metrics of those that meet it, can run and are close to the best that meets it is selected, and none exactly when there is none |
| RoutingOrder.FallbackIsReported | src/worker/routing.rs:332-362 | the eligible ids are those of a sorted listing of what meets the request; the preferred configuration is reported exactly when it cannot run, and a replacement exactly when one is then selected |
| RoutingOrder.ReroutesWalkTheAlternatives | src/worker/routing.rs:302-331 | failing every selection in turn walks exactly the alternatives of the original preferred configuration, best first |
| RoutingOrder.ReroutesNeverDrift | src/worker/routing.rs:868-885 | a reroute sequence never repeats, moves strictly down, is no longer than the eligible list, and stays in the original class and within 100 basis points of the original scores |
| AdapterContract.RunLifecycle | src/worker/adapter_contract.rs:463-657 | each lifecycle loop is the fold of its step, stopping at the first rejected event |
| AdapterContract.InvokedSkillVersions | src/worker/adapter_contract.rs:292-338 | the invocation loop is the fold that keeps one version per name |
| AdapterContract.Positions | src/worker/adapter_contract.rs:379-388 | the listed positions are exactly those of the events in a phase, ascending |
| TraceGuarantees.AcceptedTraceBeginsReady | src/worker/adapter_contract.rs:49-66 | an accepted trace has its single ready event first |
| TraceGuarantees.AcceptedTraceIsOrdered | src/worker/adapter_contract.rs:198-238 | an accepted trace of any kind starts once and then ends once, all usage reports lie strictly between and there is one, and the interrupted flag agrees with a legal terminal state |
| TraceGuarantees.CompletedTraceHasOneBoundResult | src/worker/adapter_contract.rs:183-243 | a completed trace has exactly one Result, bound to the expected ids and revisions, without effects and with the reported legible summary |
| TraceGuarantees.AcceptedTraceInvokesAllowedSkills | src/worker/adapter_contract.rs:170-182 | every invoked Skill is allowed, native, content-identified and of one version per name, and every pinned Skill is invoked |
| TraceAttestation.AcceptedTraceIsAttested | src/worker/adapter_contract.rs:68-83 | an accepted trace of any kind opens with a ready event that attests the expected fingerprint, the expected profile and enforced containment, and the session that is reported |
| TraceAttestation.AttestationCannotBeFlipped | src/worker/adapter_contract.rs:68-83 | changing any one attested field of an accepted trace makes it rejected |
| TraceAttestation.ContentIdentityIsExact | src/worker/adapter_contract.rs:292-338 | content-identified exactly when the name is trimmed and without NUL and the digest is "sha256:" and 64 lowercase hexadecimal digits |
| TraceAttestation.AcceptedTracePreparesPinnedSkills | src/worker/adapter_contract.rs:85-169 | an accepted trace prepares exactly the pinned Skills, in order, allowed and by content, and lists each among the native Skills |
| TraceAttestation.AcceptedTraceReportsItsResult | src/worker/adapter_contract.rs:183-258 | whatever the terminal state, the reported summary and cost are those of the one bound Result, or blank and zero without one |
| LifecycleMeaning.OrderIsExact | src/worker/adapter_contract.rs:353-413 | vendor events are in order exactly when there is one start, one terminal after it, and usage only in between |
| LifecycleMeaning.RunningFold | src/worker/adapter_contract.rs:507-657 | up to the terminal, Claude, Pi and OpenCode events are legible exactly when their usage is sound; the fold is then what the events so far amount to |
| LifecycleMeaning.OrderedLifecycle | src/worker/adapter_contract.rs:198-243 | for events in order: when they are accepted, the reported state and the reported totals |
| LifecycleMeaning.LifecycleExactly | src/worker/adapter_contract.rs:198-243 | exactly which vendor events of any adapter kind form a valid lifecycle, said of the events by name |
| TraceAcceptance.PreparationsExactly | src/worker/adapter_contract.rs:117-169 | the preparation loop yields exactly the listed versions, each once |
| TraceAcceptance.InvokedExactly | src/worker/adapter_contract.rs:292-338 | the invocation loop succeeds exactly when every invocation is allowed, native and by content, and no two name different versions of one Skill |
| TraceAcceptance.SkillsExactly | src/worker/adapter_contract.rs:85-182 | the Skill checks pass exactly when every pinned Skill is discovered, prepared once and invoked, and every invocation is sound |
| TraceAcceptance.AcceptedExactly | src/worker/adapter_contract.rs:44-258 | a trace of any kind is accepted exactly when it opens with the only ready event, which attests, its Skills are sound, it has no Result or one bound one, and its vendor events are in order and acceptable |
| LiveTelemetry.Telemetry.constructor | src/worker.rs:620-625 | a new record has observed nothing and is bounded by its limit |
| LiveTelemetry.Telemetry.ObserveAdapterEvent | src/worker.rs:189-312 | every event updates the native session and the usage; the retained events stay within the byte limit, and are all events observed unless truncation is flagged |
| LiveTelemetry.LiveSessionMatchesReport | src/worker.rs:211-214 | on every accepted trace of any kind, the native session followed live is the reported one |
| LiveTelemetry.SessionIsTheLastNamed | src/worker.rs:211-214 | on every trace the live session is what the last ready event names |
| LiveTelemetry.LiveUsageMatchesReport | src/worker.rs:235-304 | on every accepted Claude or OpenCode trace the live totals are the reported ones |
| LiveTelemetry.CodexLiveMatchesExactly | src/worker.rs:216-234 | on an accepted Codex trace totals agree exactly when the last event that carries totals repeats the last usage report; they differ only through a ready, Skill or Result event |
| LiveTelemetry.CodexCarriersExist | src/worker.rs:221-231 | every accepted Codex trace has a last usage report and a last event that carries totals, so the condition decides every one |
| LiveTelemetry.CodexLiveMatchesReport | src/worker.rs:216-234 | without such events the Codex totals agree |
| LiveTelemetry.PiLiveMatchesExactly | src/worker.rs:257-284 | on an accepted Pi trace totals agree exactly when no assistant message after the report adds to an unsaturated total |
| TelemetryExamples.CodexTotalsCanDiffer | src/worker/adapter_contract.rs:198-205 | an accepted Codex trace on which live and reported totals differ |
| TelemetryExamples.PiTotalsCanDiffer | src/worker.rs:269-279 | an accepted Pi trace on which live and reported totals differ |
| AdapterRun.TraceIsAcceptedExactly | src/worker/adapter_contract.rs:44-258 | the trace of a properly launched run of any adapter, with its pinned Skills prepared and invoked, is accepted exactly when its Result is valid and its vendor events are a valid lifecycle; the report is that of the lifecycle |
| AdapterRun.OwnResultIsValid | src/worker/adapter_contract.rs:415-449 | the Result an adapter builds is valid exactly when its summary is legible |
| OpenCodeAdapter.RunLoop | adapters/opencode_server.py:270-326 | the loop is the fold over its turns, and the events it emits record exactly whether it was interrupted or failed |
| OpenCodeAdapter.LoopStaysConsistent | adapters/opencode_server.py:275-326 | whatever controls and server events arrive, the flags agree with the events emitted, none of which plays a part in the lifecycle order |
| OpenCodeMeaning.LoopSettlesExactly | adapters/opencode_server.py:270-326 | the loop settles in the first turn in which the grace after an interrupt is over or a busy server goes idle; interrupted, failed, last text and emitted events are those of the turns so far |
| OpenCodeMeaning.LoopSettlesOnlyThen | adapters/opencode_server.py:270-326 | and settles only then |
| OpenCodeMeaning.RunIsAcceptedByItsTurns | adapters/opencode_server.py:270-360 | acceptance of a run, said of its turns and messages alone |
| OpenCodeAdapter.SumTokens | adapters/opencode_server.py:328-336 | totals are the sums over assistant messages, cache and reasoning included |
| OpenCodeMeaning.TotalsAreSums | adapters/opencode_server.py:328-336 | input is what assistants read, cached or not, and output what they wrote, reasoning included |
| OpenCodeAdapter.Run | adapters/opencode_server.py:248-360 | the whole trace of a run that settles |
| OpenCodeAcceptance.SettledRunIsAcceptedExactly | src/worker/adapter_contract.rs:612-657 | a settled run is accepted exactly when it is not both interrupted and failed, its totals are u64, and a completed one has a legible summary; the reported state is then the settled status |
| OpenCodeAcceptance.EveryRunIsAcceptedExactly | adapters/opencode_server.py:270-360 | the same for every run of the adapter that reaches settlement |
| OpenCodeAcceptance.InterruptedFailureIsRejected | adapters/opencode_server.py:300-344 | a run that is busy, meets a server error and goes idle when it is interrupted settles as interrupted, and its trace is rejected |
| CodexQueues.AppServer.constructor | adapters/codex_app_server.py:95-99 | a new connection has all its arrivals ahead of it |
| CodexQueues.AppServer.Request | adapters/codex_app_server.py:105-129 | answered by the first message with the id of the request and no method; every message before it is kept in order, or denied if it is a request of the server; no notification is lost, repeated or reordered |
| CodexQueues.AppServer.TakeBuffered | adapters/codex_app_server.py:140-143 | the buffer is handed over whole and emptied |
| CodexQueues.AppServer.RequestAndKeep | adapters/codex_app_server.py:350-364 | a steer or interrupt in mid-turn leaves the notifications still to be handled as they were |
| CodexQueues.AppServer.NextMessage | adapters/codex_app_server.py:367-373 | what is taken next is the head of the one queue |
| CodexQueues.AppServer.ApplyControl | adapters/codex_app_server.py:348-366 | a turn with or without a control message leaves what is still to be handled as it was |
| CodexQueues.AppServer.HandleNotification | adapters/codex_app_server.py:385-401 | a notification is passed on and remembered, then ends the turn, raises for want of a status, or neither |
| CodexQueues.AppServer.Iterate | adapters/codex_app_server.py:347-401 | one iteration keeps handled followed by remaining notifications equal to the arrivals; a terminal one ends the turn and a completed turn without a status raises; what is passed on and the last text are those of the handled ones |
| CodexQueues.AppServer.RunTurn | adapters/codex_app_server.py:344-401 | a turn handles a prefix of the notifications in arrival order, and a finished one exactly those up to the first terminal one; a turn that is answered and not disturbed finishes exactly when a terminal notification comes before any malformed one |
| CodexQueues.LastTextIsOfTheLast | adapters/codex_app_server.py:393-396 | the last text is that of the last completed item that has one |
| CodexAcceptance.TurnFold | src/worker/adapter_contract.rs:463-491 | events before the terminal are legible exactly when every report carries both totals and they never fall; the gathered totals are those of a report and above all others |
| CodexAcceptance.RelayedExactly | adapters/codex_app_server.py:385-392 | exactly the events of five methods are passed on, in order and as they came |
| CodexAcceptance.TerminalsAreTheContracts | adapters/codex_app_server.py:397-400 | the notifications that end the loop are those that the contract takes as terminal, but for a null or missing status |
| CodexAcceptance.FinishedTurnIsAcceptedExactly | adapters/codex_app_server.py:342-416 | a finished turn, whatever its status is, is accepted exactly when nothing before completed a turn, it started once and before any usage, reported usage with totals that never fall, ended in a legal state and, if completed, has a legible summary; the reported state is then that of the terminal notification |
| CodexAcceptance.FinishedTurnKeepsLiveTotals | adapters/codex_app_server.py:384-415 | every accepted trace of this adapter has live totals equal to the reported ones |
| PiAdapter.PiRpc.constructor | adapters/pi_rpc_adapter.py:165-169 | a new connection has all its arrivals ahead of it |
| PiAdapter.PiRpc.Request | adapters/pi_rpc_adapter.py:175-187 | answered by the first response with the id of the request; everything before it is kept in order, and the queue of events stays as it was |
| PiAdapter.PiRpc.NextMessage | adapters/pi_rpc_adapter.py:189-195 | what is taken next is the head of the queue, or a stray response |
| PiAdapter.PiRpc.ApplyControl | adapters/pi_rpc_adapter.py:475-483 | a steer, or the two requests of an interrupt, keep the queue |
| PiAdapter.PiRpc.NextEvent | adapters/pi_rpc_adapter.py:486-492 | skipping responses moves no event |
| PiAdapter.PiRpc.HandleNext | adapters/pi_rpc_adapter.py:486-509 | at most one event is handled, in arrival order, with its tokens, cost and text taken, and the settling one ends the loop |
| PiAdapter.PiRpc.RunPrompt | adapters/pi_rpc_adapter.py:463-509 | every run handles a prefix of the events in arrival order, and one that settles exactly those up to the settling one; totals, last text and relayed events are those of the handled messages, and the trace is marked exactly when interrupted |
| PiAdapter.SessionUsage | adapters/pi_rpc_adapter.py:316-342 | accepted exactly when the session is the same, both totals are integers not below what was observed, and neither side saw a cost; they are then the totals of the session |
| PiAdapter.ObservedIsLive | adapters/pi_rpc_adapter.py:487-500 | until Pi settles, the totals that the adapter sums up are those followed live from what it emitted, as long as messages report both counts and the sums are u64 |
| PiAdapter.LastTextIsOfTheLast | adapters/pi_rpc_adapter.py:493-500 | the last text is that of the last assistant message |
| PiAdapter.SettledRunKeepsLiveTotals | adapters/pi_rpc_adapter.py:510-537 | every accepted trace of this adapter has live totals equal to the reported ones |
| PiAcceptance.SettledRunIsAcceptedExactly | adapters/pi_rpc_adapter.py:463-537 | a run that settles is accepted exactly when Pi reported one agent start, the run was not both interrupted and failed, and its totals are u64; the report then has the settled state and the totals of the session |
| LiveControl.WorkerControl.constructor | src/worker.rs:66-78 | a new control record |
| LiveControl.WorkerControl.Steer | src/worker.rs:654-703 | the whole new record: repeated, refused after detach or interrupt, or queued and sent if attached |
| LiveControl.WorkerControl.Interrupt | src/worker.rs:705-750 | the whole new record: repeated, refused, or sent if attached, with its reason and the flag set |
| LiveControl.WorkerControl.AttachAdapterInput | src/worker.rs:100-148 | replays the accepted clarifications in order, then the interrupt if there is one, and opens the channel |
| LiveControl.WorkerControl.DetachAdapterInput | src/worker.rs:150-159 | closes the channel, and marks a terminal boundary only if there was one |
| LiveControl.EveryRunKeepsInvariant | src/worker.rs:99-163 | the invariant of record, stream and flags in every interleaving with at most one attach |
| LiveControl.StreamIsWhatWasAccepted | src/worker.rs:654-750 | the adapter is sent exactly the accepted clarifications in order, each once, then at most one interrupt and nothing after it |
| LiveControl.AcceptanceIsExact | src/worker.rs:654-750 | in every run with at most one attach, a new command is accepted exactly when the Attempt was not interrupted and no detach followed an attach |
| LiveControl.SteerGrowsExactly | src/worker.rs:654-703 | a steer adds exactly its message to what was accepted, and to the stream if attached, or changes nothing |
| LiveControl.InterruptStopsExactly | src/worker.rs:705-750 | the same for an interrupt, which also leaves the Attempt interrupted |
| LiveControl.AttachAlwaysSucceeds | src/worker.rs:124-134 | an attach always finds a reason to replay |
| LiveControl.RepeatedCommandIsNoOp | src/worker.rs:661-717 | a command is answered as a repetition exactly when its id was accepted before, as steer or as interrupt, and then has no effect |
| LiveControl.AcceptedInterruptDiscardsResult | src/worker.rs:1128-1140 | an interrupt accepted before the final flag read always discards the Result |
| LiveControl.WatchdogContainsExactly | src/worker.rs:761-785 | in every run, a Watchdog thread ends with the Attempt interrupted exactly when it found the adapter detached, or the Attempt was interrupted already, or the adapter is still attached and no clarification took the command id of the thread |
| LiveControl.WatchdogAloneContains | src/worker.rs:761-785 | a Watchdog that is not overtaken leaves the Attempt interrupted, unless a clarification took its command id |
| LiveControl.WatchdogCanMissADetach | src/worker.rs:767-784 | an interleaving in which the Watchdog's signal is recorded and the Result is kept |
| CapturedOutput.ContainsBytes | src/credential.rs:1663-1668 | true exactly when the needle is non-empty and occurs contiguously |
| CapturedOutput.LastOccurrence | src/credential.rs:1289-1290 | the last position of the marker, or none when it does not occur |
| CapturedOutput.HttpStatus | src/credential.rs:1286-1293 | the status is the one read after the last marker |
| CapturedOutput.MarkerSpells | src/credential.rs:1232-1234 | the marker that is searched for is the text that curl is told to write |
| CapturedOutput.TrailerDecidesStatus | src/credential.rs:1232-1234 | whatever the body contains, markers included, the status is the trailer's |
| CredentialEffects.RevokeAndVerify | src/credential.rs:1351-1371 | verified exactly when both commands ran and the look-up reports the item missing |
| CredentialEffects.ScanOutput | src/credential.rs:1282-1283 | a leak is any contiguous occurrence of the secret in either stream |
| CredentialEffects.JudgeResponse | src/credential.rs:1284-1326 | clean exactly when successful, 2xx, bounded and without a leak |
| CredentialEffects.Settle | src/credential.rs:370-414 | how revocation settles an execution: Ok and Failed survive only a verified revocation, and leave-started skips it |
| CredentialEffects.RunCurl | src/credential.rs:1190-1327 | Failed exactly when the secret never reached curl; Ok exactly for a clean response; the receipt of every judged response has the leak, the size, the status after the last marker and whether that is 2xx |
| CredentialEffects.ExecuteBrokered | src/credential.rs:335-415 | Ok exactly when every gate passed, the response is clean and the credential is verified absent; Failed exactly when the secret was not delivered and absence is verified; otherwise Uncertain, with a receipt that claims absence exactly when it was verified; whenever a response was judged, the receipt, directly or enclosed, reports its leak, size and status exactly |
| CredentialEffects.RunInSandbox | src/credential.rs:785-950 | delivered exactly when every preparation succeeded in time; Ok exactly when response and logs are free of the secret, the response is clean and containment is attested; the receipt of every judged response reports what is true of it, leaks in the logs included |
| SandboxObjects.DeleteSandbox | src/credential.rs:1163-1188 | accepted exactly when every removal succeeds or is excused by its text; an object is cleared exactly when its removal was reached and it is in fact gone |
| SandboxObjects.AnyTextAroundExcuses | src/credential.rs:1591-1596 | no further error text withdraws an excuse, so a text about another name or reason excuses a removal |
| SandboxObjects.ReportsMissingExactly | src/credential.rs:1591-1596 | exactly the texts that contain one of the three phrases, in any case, excuse a removal |
| SandboxObjects.ExcusedIsExact | src/credential.rs:1177-1187 | what an accepted deletion does not clear is exactly what was accepted for its text alone and is still there |
| SandboxObjects.OpenEgress | src/credential.rs:1067-1161 | open exactly when all commands succeed; an object may exist exactly when the command that creates it was issued, whatever that answered |
| CredentialEffects.StartSandbox | src/credential.rs:704-784 | started exactly when egress, container and image are as asked; after a failed start exactly the uncleared objects may exist |
| CredentialEffects.RunEffectSandbox | src/credential.rs:663-993 | Ok only after an accepted deletion; Failed exactly when nothing was delivered and no started sandbox is stranded; an object may remain exactly when a command that creates it was issued and no deletion cleared it; a judged response is kept in the receipt exactly when the final deletion is accepted or the response was clean |
| CredentialEffects.ExecuteOneShot | src/credential.rs:426-511 | the exact condition of each of Ok, Failed and leave-started, and of each object that may remain, over every combination of external answers; an Uncertain receipt claims absence exactly when verified; under a receipt that claims destruction exactly the excused objects remain; whenever the response is kept, the receipt reports its leak, size and status exactly |
| CredentialEffects.AcceptedDeletionLeavesExactly | src/credential.rs:1163-1188 | after any accepted deletion, early or final, of what was created exactly what was excused by its error text and is still there may remain |
| CredentialEffects.FailedStartLeavesNothingExactly | src/credential.rs:704-784 | a failed start leaves nothing exactly when it created nothing, or a deletion is made that reaches every object it created, and each is in fact gone |
| CredentialEffects.FailedEffectCanLeaveSandbox | src/credential.rs:722-764 | a call that is reported as Failed although the container, the relay and both networks may exist |
| CredentialEffects.SuccessCanPrecedeRemoval | src/credential.rs:1591-1596 | a call that is reported as Ok and destroyed while the container is still being removed |
| CredentialEffects.SuccessCanLeaveEverything | src/credential.rs:1163-1188 | a call that is reported as Ok and destroyed although both containers and both networks remain, because the name of the Docker host no longer resolves |
| CredentialEffects.DroppedLeakGoesUnreported | src/credential.rs:981-991 | a call whose response contains the secret and whose receipt does not say so |
| EffectNecessity.RevocationNeedsNotFound | src/credential.rs:1351-1371 | revocation counts only when the deletion ran and the look-up then exits with status 44 |
| EffectNecessity.DeliveryNeedsEveryStep | src/credential.rs:663-861 | no step before the delivery may fail or be left out |
| EffectNecessity.SuccessNeedsEveryAnswer | src/credential.rs:426-511 | an effect that succeeded would not have, had any one later answer been different |
| ShellQuote.QuotedReadsBack | src/credential.rs:1598-1600 | for every string, the quoted form reads as exactly one word equal to it under the POSIX quoting rules |
| ShellQuote.QuotingIsInjective | src/credential.rs:1598-1600 | different values have different quoted forms |
| CurlConfig.DeliverableReadsBack | src/credential.rs:1217-1229 | a secret is deliverable exactly when it is printable and curl reads it back unchanged from its quoted configuration |
| CurlConfig.HeaderReadsBack | src/credential.rs:1226-1229 | a deliverable secret is read back unchanged after any plain text of the header, whatever follows the quote |
| DestinationOrigin.OriginSurvivesBinding | src/credential.rs:1608-1647 | for every accepted destination and every target, the origin of the bound URL is the configured origin |
| DestinationOrigin.AcceptedDestinationSpellsOrigin | src/credential.rs:1615-1647 | an accepted destination is its scheme, host and optional non-zero port, and nothing else |
| DestinationAcceptance.HostIsSpelled | src/credential.rs:1634-1641 | a host is accepted exactly when it consists of non-empty labels of ASCII letters, digits and hyphens between dots, and neither starts nor ends with a hyphen |
| DestinationAcceptance.PortIsSpelled | src/credential.rs:1615-1647 | a port is read exactly from a decimal numeral of at most 65535, with zeros in front or a plus sign allowed |
| DestinationAcceptance.DestinationIsAcceptedExactly | src/credential.rs:1615-1647 | exactly which destinations are accepted, and as which origin |
| EntrySession.EntryState.constructor | src/entry_mcp.rs:119-125 | a new session tracks and caches nothing |
| EntrySession.EntryState.EnsurePreviousIsTerminal | src/entry_mcp.rs:272-294 | forgets a finished Commission and refuses while one is not terminal or cannot be inspected |
| EntrySession.EntryState.Start | src/entry_mcp.rs:206-270 | the whole new session and daemon state of one start, whichever call is lost |
| EntrySession.EntryState.ClearCurrentOperation | src/entry_mcp.rs:436-440 | nothing tracked or cached, and a fresh operation |
| EntrySession.EntryState.Cancel | src/entry_mcp.rs:400-434 | the whole new session and daemon state of one cancel |
| EntrySession.StartKeeps | src/entry_mcp.rs:206-270 | one attempt creates at most one Commission, only under the proposal's key; a failure keeps that key, a success is its accepted Commission |
| EntrySession.RetryStartsExactlyOne | src/entry_mcp.rs:206-270 | however calls are lost before or after being applied, retrying until success leaves exactly one accepted Commission under the key |
| EntrySession.NextProposalUsesAFreshKey | src/entry_mcp.rs:222-224 | after a success a different proposal uses a key never used before |
| EntrySession.RetryAfterSuccessAddsOne | src/entry_mcp.rs:206-270 | after a success, retrying another proposal until success adds exactly one Commission |
| EntrySession.CancelKeepsInvariant | src/entry_mcp.rs:400-440 | a cancel creates nothing and, once it succeeds, moves to an operation no stored key has |
| EntrySession.EverySessionIsConsistent | src/entry_mcp.rs:119-125 | in every session a tracked Commission has a cached start, and every Commission is the answer stored for one key |
| IdempotentCalls.AnsweredOnceForAll | src/store.rs:17375-17407 | an answered call is answered the same from then on, whatever is served in between, and is applied only once |
| IdempotentCalls.AnotherRequestConflicts | src/store.rs:17387-17393 | another request under an answered key is a conflict and changes nothing |
| IdempotentCalls.TransitionsAreExact | src/store.rs:6576-6587 | an accept or cancel is answered exactly when the Commission has the expected revision and the needed status, and then changes that Commission alone |
| IdempotentCalls.OneOfTwoSucceeds | src/store.rs:3036-3048 | of two calls that expect one revision of a Commission at most one is answered |
| EntryDiscipline.StartPutsUnderwayExactly | src/entry_mcp.rs:206-270 | a start puts the Commission of its key under way exactly when the attempt is made, its acceptance is applied and that Commission was not accepted before; nothing else changes |
| EntryDiscipline.StartSucceedsExactly | src/entry_mcp.rs:206-270 | exactly when a start succeeds, from the session and the faults alone |
| EntryDiscipline.ReleaseIsExact | src/entry_mcp.rs:272-294 | a new start may be made exactly when nothing is tracked, or what is tracked can be inspected and is complete or cancelled |
| EntryDiscipline.CancelIsExact | src/entry_mcp.rs:400-440 | a cancel whose calls are answered, on a Commission under way, leaves it cancelled and the session cleared; exactly when it succeeds, and what it changes |
| EntryDiscipline.StartCollidesExactly | src/entry_mcp.rs:206-294 | with at most one Commission under way, a start leaves two exactly when it puts one under way while another is |
| EntryDiscipline.NeverTwoUnderwayExactly | src/entry_mcp.rs:206-440 | a whole session never has two Commissions under way exactly when none of its starts collides in the state it is made in |
| EntryDiscipline.DisciplinedStartNeverCollides | src/entry_mcp.rs:272-294 | a start that finishes what was started does not collide |
| EntryDiscipline.DisciplinedSessionHasOneUnderway | src/entry_mcp.rs:206-294 | so a session that retries a failed start before starting anything else never has two under way |
| EntryDiscipline.AbandonedStartLeavesTwoUnderway | src/entry_mcp.rs:246-270 | without it, a lost acceptance followed by another start leaves two under way |

## Left out

- Storage: SQLite, its queries and `src/store/schema.rs`; reservations and running Attempts are one list, although the store keeps them in two tables. Of plan revisions only the recovery of a repeatedly failing Assignment is modelled, with an id that is new (the store would refuse one in use); the superseded row, to which nothing refers any more, is dropped.
- External programs: Docker, curl, the Keychain, process groups, Git, files, clocks and sockets answer through `World` values; "delivered" means that the command given the secret was launched, and a removal that exits successfully is taken to have removed its object.
- CapturedOutput.HttpStatus: decoding, trimming and `u16` parsing of the trailer's text are a parameter, and so is finding containment attestations in the sandbox logs. The process marker that curl writes before the trailer counts as part of the body, which may be any bytes.
- Secret reading: `read_secret` trims a final line ending; its result is an input.
- LiveTelemetry.Telemetry.ObserveAdapterEvent: does not record the latest activity and its time, which are display strings and a clock.
- JSON: an event is its type, its method and a typed view of the fields that are read. Schemas, prompts, digests and the `as_str` tables are not part of the model.
- Result summaries: `result_summary` and `parse_result` are parameters; of the latter the model uses that it refuses blank summaries. A Pi run that settles failed still emits its Result, as in the source.
- PiAdapter.PiRpc.ApplyControl: the validation of what Pi answers to `clear_queue` is left out; an answered request is taken to be valid.
- PiAcceptance.SettledRunIsAcceptedExactly: assumes that Pi itself sends no event of a type that the adapter or Tyrion speaks (`tyrion.*`).
- CodexAcceptance.FinishedTurnIsAcceptedExactly: assumes that notifications carry no top-level `tyrion.*` type.
- Live control: failed or partial writes to the adapter's input, a second attach, lock poisoning and waking waiters; one Attempt per record, so the Attempt id is omitted from Watchdog command ids.
- Routing: the `executable` set stands for the adapter files whose digest on disk matches; validation of everything in a catalog but ids, the wording of the attention requirement, the constant ordering labels, `sort_by` as an insertion sort (ties cannot occur among unique ids), and metrics without a machine width.
- Capacity: `worker_ceiling` multiplies without a check, so the model asks that the number of CPUs times 1000 fits 64 bits.
- Entry Sessions: idempotency keys are structured values instead of formatted strings, operation ids are counters instead of random ones, a digest is its proposal, the native entry checks are one flag, and the daemon is what the client relies on (active and paused Commissions are both "under way"): it replays a stored response per key and refuses a key reused for another request.
- Plan validation: of its checks, those that dependencies are named and acyclic; criteria, scopes, resources and the shape of competition groups (whose comparison Assignments are not part of an execution either) are left out.
- PlanProgress.EveryExecutionCanFinish: shows that a completing run exists; it cannot promise that Attempts are accepted.
- Proposals: checks made before `complete_plan`; model and paid-service spend, which the frontier does not gate; Worker requirements other than the required and excluded configurations, and the exclusion of the failed configuration that a recovery Assignment adds.
- Adapters: startup of all adapters, the Claude adapter (its emission order depends on task interleaving inside its SDK), and the model and Skill selection of the others.
- ShellQuote.QuotedReadsBack: reads quoting only; expansions of unquoted special characters are reported as not modelled, and never occur in a quoted value.
- OpenCodeAcceptance.EveryRunIsAcceptedExactly: covers runs without pinned Skills, because the adapter stops before its ready event when there are any.
- Fixed tables and setup: `attachment::negotiate`, `planning_plan`, downloads and probes of `tyrion init`, the launcher and the command line would only add easy members.
