# Crucible run orchestration, modelled and proved in Dafny

Crucible plans infrastructure changes, gates them, has them approved, applies them
and propagates them to dependent stacks. The state lives in shared tables and is
changed by guarded updates from API handlers, external agents, runner callbacks, chat
links and the finalizer. This project models that machinery and proves what holds
over every execution of it.

- `DependencyGraph` – the recursive reachability query and acyclicity.
- `Predicates` – conditional triggers on edges, with `float64(int)` rounding spelled out.
- `RunMachine` – the tables (`Db`), every handler as a step, executions.
- `RunServer` – the same handlers as a class with loops and in-place updates, each
  proved to perform exactly the step of `RunMachine`.
- `StatusEntries` – for every status, exactly which calls put a run into it, and when.
- `RunLifecycle` – phases, approval gates and terminal statuses over whole executions.
- `Progress` – exactly which runs can still be brought to an end.
- `Triggers` – exactly which stacks a finished apply triggers, predicates included.
- `FanIn`, `FanInWave` – freshness of fan-in triggers; one run per wave.
- `Cascade`, `RetryChains` – why triggers and retries cannot cascade forever, with bounds;
  retry delays.
- `Witnesses` – executions from a fresh installation on which an expected property fails
  or a bound is reached.
- `ApproverChain` – concurrent approvals, interleaved statement by statement, with other
  handlers in between; a request left alone is the sequential handler.
- `AgentSlots` – any number of agents with slot semaphores over the same tables,
  with lost messages; polling takes the oldest run exactly when a slot is free, and a
  shutdown can always complete.
- `PolicyEngine`, `PolicyCache`, `PostPlanGate` – policy merging, the engine as a cache,
  the gate after the plan phase.
- `PlanDiff`, `AttemptWindow`, `ChatOpsToken` – smaller algorithmic cores.

Conventions. A handler call is one atomic step, except in `ApproverChain`, where one SQL
statement is. The clock ticks once per step, so a timestamp names the step that wrote
it. Run ids are handed out in insertion order, which is `queued_at` order. "Apply
finishes, then triggers downstream" and "run fails, then schedules a retry" are each one
step. Rego, HMAC, `json.Marshal`, `ParseFloat`, clocks and the row order of queries are
parameters or free choices. Money is `real`.

## What the proofs found

Where the code does not do what its comments, or a reader, would expect. Where a property
fails there is an input or an execution from a fresh installation on which it fails, and a
theorem that says exactly when it holds; where a bound is other than documented, the true
one is proved and reached.

- A pool run can be finished exactly from a claim of it until the first status callback,
  cancel or accepted finish (`RunLifecycle.AcceptsExactlyWhileClaimed`), because Finish
  accepts only `preparing`. The runner does send status callbacks (`runner/entrypoint.sh`):
  the first one strands the run (`Witnesses.ReportStrandsRun`) for good
  (`RunLifecycle.FinishedRunsNeverReported`), and until it is canceled its stack is not
  triggered again (`FanIn.StrandedRunBlocksTriggers`).
- Claim compares the status *returned by* its own update with `confirmed`, so an agent is
  never told that it claimed an apply (`RunServer.Server.ClaimRun`). Finish will treat the
  run as an apply exactly when it was claimed from `confirmed` (`RunLifecycle.ClaimedPhase`),
  which every automatically applying stack reaches (`Witnesses.ConfirmedRunIsClaimed`).
- A run can still finish exactly if it has a pool, no status callback was accepted for it
  and it is not over (`Progress.CanFinishIff`); so a stranded run can only be canceled.
- A confirmed run can be neither canceled nor discarded (`StatusEntries.CanceledExactly`,
  `StatusEntries.DiscardedExactly`): only the claim of its pool, or a status callback, takes it on.
- A run that waits for its confirmation already carries a `finished_at`, and keeps it while it
  is confirmed, claimed and applied (`Witnesses.ManualConfirmIsApplied`).
- Freshness holds over the events of every execution as long as the two runs involved are
  not deleted (`FanIn.FanInFreshness`); deleting either one breaks it
  (`Witnesses.DeletionBreaksFreshness`), and `FanIn.DeletionUnblocksIff` says exactly when a
  Delete turns a stale upstream into a ready one.
- Every live status but `confirmed` of a downstream run blocks another trigger
  (`FanIn.OnlyConfirmedCoexists`); `confirmed` does not
  (`Witnesses.ConfirmedRunDoesNotBlock`).
- The comment in approveWithChain says `approved_by` is the user who satisfied the last
  step. That is so for a request that inserted the last step itself
  (`ApproverChain.LastInserterEarnsCredit`). It fails in two other ways: for a request, by any
  user, that finds the chain satisfied (`ApproverChain.LateRequestTakesCredit`), and for one
  that read an earlier step and inserts only after everybody else
  (`ApproverChain.SlowRequestTakesCredit`). `ApproverChain.CreditExactlyByLastInsert` gives
  the exact condition for every chain, user and way.
- The engine is an exact cache of the table if and only if compiling ignores the module
  name (`PolicyCache.CacheExactIffNameBlind`): Update drops the error of its last Load.
- A policy that errors opens the gate, and changes the outcome exactly when a policy denied
  or asked for approval (`PostPlanGate.EvaluationErrorOpensGate`).
- The comment on the failure tracker says "sliding window"; windows are fixed, and 39 failing
  lookups fit into 300 seconds, no more (`AttemptWindow.SpanBound`, `SpanBoundIsTight`).
- The comment on retry delays says at most backoff × 1024; attempts stop at 9, so it is
  backoff × 512 and the exponent cap never binds (`Cascade.RetryIsWithinSettings`). Every
  permitted setting is exhausted by some execution (`Witnesses.RetryBoundIsReached`).
- Integer predicates compare exactly up to 2^53, and in general exactly when rounding
  does not merge the operands (`Predicates.IntDetourExact`); one past it four of the six
  operators are wrong (`Predicates.IntDetourFailsBeyond2Pow53`).

## Model

| member | source | states |
|---|---|---|
| `DependencyGraph.ReachableFrom` | api/internal/deps/handler.go:143-150 | the iterated set-union query terminates on every finite graph and returns exactly the transitive closure of the start |
| `DependencyGraph.InsertGuardIsExact` | api/internal/deps/handler.go:124-153 | on an acyclic graph an edge keeps it acyclic if and only if it is no self-loop and its upstream is not reachable from its downstream |
| `DependencyGraph.RemovalKeepsAcyclic` | api/internal/deps/handler.go:355-359 | removing edges cannot create a cycle |
| `RunServer.Server.AddDownstreamEdge` | api/internal/deps/handler.go:118-179 | for stacks of the caller's org the request is rejected exactly when the edge would close a cycle; the graph stays acyclic; the tables change as the AddDownstream step says |
| `RunServer.Server.RemoveDownstreamEdge` | api/internal/deps/handler.go:349-372 | deletes the edge and nulls the edge reference of the runs it triggered; 404 exactly for an edge that is missing or not the org's, which changes nothing |
| `RunServer.Server.SetRetryPolicy` | api/internal/deps/handler.go:308-346 | 400 exactly for settings outside 0..10 and 1..3600, 404 exactly for a missing edge, and otherwise writes them, so that every edge stays capped |
| `RunServer.Server.SetTriggerPredicate` | api/internal/deps/handler.go:259-302 | answers 400 exactly for predicates Validate rejects, 404 exactly for a missing edge; incomplete ones are stored as no predicate |
| `RunLifecycle.GraphStaysAcyclic` | api/internal/deps/handler.go:124-169 | after every sequence of steps from an empty graph the dependency graph is acyclic |
| `Predicates.ValidatedPredicateIsCompared` | api/internal/deps/predicate.go:64-151 | a set predicate that Validate accepts is decided by one real comparison of its field, never by a fall-through default |
| `Predicates.IntDetourExact` | api/internal/deps/predicate.go:163-195 | comparing integers through float64 is right for all six operators if and only if rounding does not merge two different operands |
| `Predicates.IntDetourExactUpTo2Pow53` | api/internal/deps/predicate.go:163-169 | it is right for every operator for all magnitudes up to 2^53 |
| `Predicates.IntDetourFailsBeyond2Pow53` | api/internal/deps/predicate.go:163-195 | comparing 2^53 + 1 with "9007199254740992" answers wrongly for ==, !=, > and <= |
| `Predicates.RoundingMonotone` | api/internal/deps/predicate.go:168 | round-to-nearest-even conversion of integers keeps order at every magnitude |
| `Predicates.ComplementFlips` | api/internal/deps/predicate.go:64-121 | the complement operator validates again and flips the answer for every run, always for == and !=, and for ordering operators exactly when no NaN is compared |
| `Predicates.AcceptsExactly` | api/internal/deps/predicate.go:64-121 | which predicates Validate accepts, field by field |
| `Predicates.RejectedNeverMatches` | api/internal/deps/predicate.go:64-151 | a predicate that Validate rejects would match no run at all, drift flags aside |
| `Predicates.RoundingIsNearest` | api/internal/deps/predicate.go:163-169 | the rounded integer is representable in 53 bits, and no representable integer is nearer |
| `Predicates.TiesGoToEven` | api/internal/deps/predicate.go:163-169 | halfway between two neighbours the even significand is taken |
| `Predicates.ComparesAsExtendedReals` | api/internal/deps/predicate.go:179-195 | the six operators are the order of the extended real line, and with a NaN only != holds |
| `RunServer.Server.LatestFinish` | api/internal/runs/finalize.go:418-423 | the MAX over finished tracked/destroy runs of a stack, NULL exactly when there is none |
| `RunServer.Server.LatestStart` | api/internal/runs/finalize.go:424-427 | the MAX over start times of a stack's runs |
| `RunServer.Server.IsReady` | api/internal/runs/finalize.go:413-416 | the SQL comparison of the two maxima decides whether some finish of the upstream is later than every start of the downstream |
| `RunServer.Server.IsEligible` | api/internal/runs/finalize.go:403-432 | enabled, unlocked, same org, no run in the six listed statuses, every other upstream ready |
| `RunServer.Server.EligibleRows` | api/internal/runs/finalize.go:439-448 | the scan collects every eligible downstream exactly once, in any order |
| `RunServer.Server.TriggerDownstreamStacks` | api/internal/runs/finalize.go:367-479 | every stack listed by the query gains exactly one queued run, with its own pool and edge, if the load failed or the edge's predicate matches the upstream's run, and none otherwise; no other change |
| `Triggers.TriggersExactly` | api/internal/runs/finalize.go:398-463 | on every execution, for every finished apply and every other stack: it gains exactly one queued run if it is an enabled, unlocked downstream of the same org with nothing under way, all its other upstreams can be incorporated, and its edge's predicate holds of the upstream's run (or there is none, or the load failed); otherwise its runs stay as they were |
| `Triggers.NoTriggerOverUnmetPredicate` | api/internal/runs/finalize.go:450-457 | no execution inserts a dependency run over an edge whose loaded predicate does not hold of the upstream's run |
| `Triggers.StoredPredicatesAreValid` | api/internal/deps/handler.go:259-302 | in every reachable state each edge stores either no predicate or a complete one that Validate accepts |
| `Witnesses.UnmetPredicateSkips` | api/internal/runs/finalize.go:450-457 | an execution in which an eligible downstream guarded by type == destroy stays without a run when a tracked run of its upstream finishes |
| `FanIn.FanInFreshness` | api/internal/runs/finalize.go:398-478 | in every execution a non-retry dependency run is inserted only by a finished apply of its upstream, for a downstream with no run in the six statuses; and every other upstream that ever finished an apply has finished one after every event that started a run of the downstream, unless one of those two runs was deleted |
| `FanIn.EveryUpstreamFinishesBetween` | api/internal/runs/finalize.go:398-432 | without deletions, between any start of the downstream and its next trigger every other initialised upstream finishes at least once |
| `FanIn.ExecutionsAreDated` | api/internal/runs/finalize.go:206-228 | in every reachable state started_at names a claim and the finished_at of a finished tracked/destroy run names the apply finish of its own stack |
| `FanIn.StrandedRunBlocksTriggers` | api/internal/runs/finalize.go:406-410 | a downstream run put into planning/applying by a callback blocks all later triggers of its stack until it is canceled |
| `FanIn.DeletionUnblocksIff` | api/internal/runs/handler.go:716-727 | a Delete turns a stale upstream into a ready one exactly if the run is terminal and is the only start of the downstream that is too late, or the only finished apply of the upstream |
| `Witnesses.DeletionBreaksFreshness` | api/internal/runs/handler.go:700-730 | two executions from a fresh installation, one per deleted run, on which a stale upstream does not hold back a trigger |
| `FanIn.OnlyConfirmedCoexists` | api/internal/runs/finalize.go:406-410 | whenever a dependency run is inserted every run of its stack on record is terminal or confirmed |
| `Witnesses.ConfirmedRunDoesNotBlock` | api/internal/runs/finalize.go:409 | an execution that triggers a stack while a run of it is confirmed and waiting to be applied |
| `FanInWave.OneRunPerWave` | api/internal/runs/finalize.go:398-463 | any number of upstreams finishing in any order, each at least once, among unrelated steps: until the last has finished the downstream gains nothing, from then on it has exactly one new run |
| `FanInWave.EligibleExactlyAtLast` | api/internal/runs/finalize.go:411-432 | inside a wave the downstream is a row of the trigger query if and only if the finishing upstream is the last one |
| `Cascade.CascadeIsFinite` | api/internal/runs/finalize.go:107-203 | on a fixed acyclic graph every execution, with retry settings and stacks edited at will, inserts at most as many runs as the live runs hold in reserve plus what manual creates add |
| `Cascade.OneRunCascadeBound` | api/internal/runs/finalize.go:53-57 | from a reachable state with one live run on a stack with n descendants at most 10 + 11 (2^n - 1) runs are ever inserted |
| `Cascade.FinalisationSpendsPotential` | api/internal/runs/finalize.go:107-121 | every step that finalises a run strictly lowers the potential summed over live runs |
| `Cascade.WalksBound` | api/internal/deps/handler.go:143-153 | a stack with n descendants starts at most 2^n - 1 dependency walks |
| `Cascade.ReachableRetriesCapped` | api/internal/deps/handler.go:321-333 | in every reachable state each retry count and each run's attempt is at most 10 |
| `Cascade.RetryIsWithinSettings` | api/internal/runs/finalize.go:163-182 | a scheduled retry repeats a failed run over its own edge within its current retry count; the exponent cap does not bind; the delay is backoff · 2^attempt, at most 512 · 3600 s, within int64 nanoseconds |
| `RetryChains.RetryChainDelay` | api/internal/runs/finalize.go:163-182 | in every execution the retries of one dependency run number at most the retry count then in force, and with a fixed backoff the delays computed for m of them sum to backoff · (2^m - 1) |
| `RetryChains.AttemptsCount` | api/internal/runs/finalize.go:163-182 | the i-th failure of such a chain has attempt number i |
| `Witnesses.RetryBoundIsReached` | api/internal/deps/handler.go:321-333 | for every permitted setting an execution in which a run is retried that often, with that total delay |
| `RunServer.Server.Fail` | api/internal/runs/finalize.go:107-203 | the run's row becomes failed with the moment stamped, every other row is kept, and the next attempt is inserted exactly when its edge survives with retries left, with that delay |
| `RunServer.Server.CompletePlanPhase` | api/internal/runs/finalize.go:63-104 | the run's row after each outcome, column by column: failed, pending_approval and unconfirmed stamp finished_at, confirmed stamps approved_at; every other row is kept |
| `RunServer.Server.FinishRun` | api/internal/agent/handler.go:221-283 | answers 404 exactly for runs that are not this pool's preparing runs; otherwise the row is given by cause: failed reports fail it, previews and applies finish it, plans go where the verdict sends them |
| `RunServer.Server.ClaimRun` | api/internal/agent/handler.go:99-138 | takes the oldest queued or confirmed run of the pool, none exactly when there is none; only its status changes, and started_at the first time; the job spec never says apply |
| `RunServer.Server.CreateRun` | api/internal/runs/handler.go:276-369 | adds exactly one row, queued, of the given kind, with the stack's pool and no upstream; 404 exactly for a missing stack, 409 for a locked one, 429 at the org's cap, none of which inserts |
| `RunServer.Server.CountActiveRuns` | api/internal/quotas/handler.go:118-134 | counts the runs of the org in the six statuses, which leave out confirmed |
| `RunServer.Server.ReportStatus` | api/internal/runs/internal.go:21-61 | 403 for another run's token, 400 for other statuses, 409 exactly for missing or terminal runs; otherwise the run's status becomes the reported one and nothing else changes |
| `RunServer.Server.ConfirmRun` | api/internal/runs/handler.go:446-466 | succeeds exactly for unconfirmed runs, by REST or chat; the row then is the old one with status confirmed and approved_at now, every other row is kept, and a refusal changes no row |
| `RunServer.Server.ApproveRun` | api/internal/runs/handler.go:496-564 | for exactly pending_approval runs of stacks without a chain the row becomes unconfirmed, or confirmed for auto-apply non-destroy runs, with approved_at now; 404 for a missing run, chained stacks handed on, 409 otherwise, none of which changes a row |
| `RunServer.Server.ChatApproveRun` | api/internal/runs/handler.go:1379-1387 | exactly pending_approval runs become unconfirmed with approved_at now, without consulting the chain |
| `RunServer.Server.DiscardRun` | api/internal/runs/handler.go:648-670 | exactly unconfirmed runs, for chat also pending_approval ones, become discarded with finished_at now; nothing else changes |
| `RunServer.Server.CancelRun` | api/internal/runs/handler.go:673-696 | exactly runs in the six listed statuses become canceled with finished_at now; confirmed runs cannot be canceled |
| `RunServer.Server.DeleteRun` | api/internal/runs/handler.go:700-730 | removes exactly terminal runs of the caller's org and no other row; 404 for missing or foreign runs, 409 for live ones |
| `RunServer.Server.ChatOpsAction` | api/internal/runs/handler.go:1333-1414 | 400 exactly for other actions, 403 exactly for a bad token, and otherwise the row changes as confirm, approve or discard says, or nothing changes and the answer is 409 |
| `RunServer.Server.Complete` | api/internal/runs/finalize.go:37-61 | the run's row after a successful execution, by cause: previews and applies finish, plans go where the verdict sends them; only an apply triggers downstream stacks |
| `StatusEntries.ConfirmedExactly` | api/internal/runs/handler.go:446-466 | a step makes a run confirmed if and only if it is a confirm of an unconfirmed run, an approve of a pending one on an auto-apply stack without a chain, or an accepted plan of an auto-apply tracked run that no policy or budget holds back; approved_at is that step |
| `StatusEntries.UnconfirmedExactly` | api/internal/runs/handler.go:526-540 | a step makes a run unconfirmed if and only if it is an approve, by REST, chat or the chain, that does not go straight on to confirmed, or an accepted plan that needs a confirmation and no approval |
| `StatusEntries.PendingExactly` | api/internal/runs/finalize.go:93-98 | a step makes a run pending_approval if and only if it reports a plan that no policy denies and some policy wants approved |
| `StatusEntries.PreparingExactly` | api/internal/agent/handler.go:116-129 | a step makes a run preparing if and only if its pool claims and no older run of the pool is queued or confirmed; started_at is stamped only the first time |
| `StatusEntries.OverExactly` | api/internal/agent/handler.go:239-281 | a step finishes a run if and only if its agent reports success of a preview or an apply, and fails it if and only if the agent reports a failure, or a plan that is denied |
| `StatusEntries.CanceledExactly` | api/internal/runs/handler.go:685-688 | a step cancels a run if and only if it is a cancel call in one of the six statuses |
| `StatusEntries.DiscardedExactly` | api/internal/runs/handler.go:660-670 | a step discards a run if and only if it is a discard of an unconfirmed run, or a chat discard of a pending one |
| `StatusEntries.RemovedExactly` | api/internal/runs/handler.go:716-727 | a step removes a run if and only if it is a delete of a terminal one |
| `StatusEntries.ReportedExactly` | api/internal/runs/internal.go:37-45 | a step makes a run planning or applying if and only if it is that status callback for a run that is not terminal |
| `StatusEntries.QueuedExactly` | api/internal/runs/finalize.go:163-182 | a new run is queued for its stack's pool and comes from a create on an unlocked stack, a finished apply of its upstream, or the failed report of a dependency run with retries left, as its next attempt |
| `Progress.CanFinishIff` | api/internal/agent/handler.go:239-281 | after every execution some further calls finish a run, or have, if and only if it has a pool and is queued, preparing, pending_approval, unconfirmed or confirmed |
| `Witnesses.ManualConfirmIsApplied` | api/internal/runs/handler.go:459-463 | for every pool stack without auto-apply the execution create, claim, plan, confirm, claim, after which Finish treats the run as an apply |
| `RunLifecycle.ExecutionsAreConsistent` | api/internal/agent/handler.go:116-129 | the inductive invariant tying every run's status, approved_at and history together in every reachable state |
| `RunLifecycle.PhaseAgreement` | api/internal/agent/handler.go:239-281 | confirmed implies approved_at; a preparing run has approved_at exactly when its last claim took it from confirmed, so Finish's phase is right; at most one confirm, at most two claims |
| `RunLifecycle.TerminalIsFinal` | api/internal/runs/internal.go:42-45 | no execution changes the status or finished_at of a terminal run |
| `RunLifecycle.ClosedStatusesAreKept` | api/internal/runs/internal.go:37-45 | nothing but a cancel takes a pool run out of planning/applying, and run ids are never reused |
| `RunLifecycle.AcceptsExactlyWhileClaimed` | api/internal/agent/handler.go:239-248 | in every execution Finish accepts a pool's call for a run if and only if some claim took it and no status callback, cancel or accepted finish of it came since |
| `RunLifecycle.FinishedRunsNeverReported` | api/internal/agent/handler.go:243-248 | once a status callback was accepted the run is planning, applying or canceled forever |
| `Witnesses.ReportStrandsRun` | api/internal/runs/internal.go:42-45 | for every stack of a pool, the execution create, claim, callback, after which the finish call is refused |
| `RunLifecycle.ClaimedPhase` | api/internal/agent/handler.go:116-138 | Finish will treat a claimed run as an apply exactly when it was claimed from confirmed |
| `Witnesses.ConfirmedRunIsClaimed` | api/internal/agent/handler.go:120-129 | an execution after which a confirmed run is next to be claimed |
| `RunLifecycle.ApprovalGateHolds` | api/internal/runs/finalize.go:82-98 | if the plan-phase policies of a run required approval, every execution that confirms it has, after that plan phase, an approve action that took it from pending_approval to unconfirmed or confirmed |
| `RunLifecycle.DestroyNeedsConfirm` | api/internal/runs/handler.go:536-540 | every execution that confirms a destroy run has a confirm action that took it from unconfirmed to confirmed |
| `ApproverChain.ChainPrefixInvariant` | api/internal/runs/chain.go:83-116 | under every statement-level interleaving approved steps form an initial segment and every row is by an approver of its step |
| `ApproverChain.OnlyACompleteChainUnlocks` | api/internal/runs/handler.go:596-613 | a statement takes the run out of pending_approval only when every step has a row by one of its approvers, and then to unconfirmed, credited to the request's own user |
| `ApproverChain.StatementsSpareOthers` | api/internal/runs/handler.go:605-611 | no statement of a request changes status or approved_by of a run that is not pending |
| `ApproverChain.OutOfPendingIsOut` | api/internal/runs/handler.go:575-611 | once another handler took the run out of pending_approval, in every continuation its status is what other handlers make it, approved_by stays, and requests that begin after get no further than the status check |
| `ApproverChain.OvertakenUpdate` | api/internal/runs/handler.go:605-611 | a request overtaken by a cancel or discard just before its update leaves the run alone, though it answers success |
| `ApproverChain.LeftAloneItCompletes` | api/internal/runs/handler.go:570-619 | from every reachable state a request whose statements nobody interrupts is refused exactly if the run is not pending or the user may not approve the pending step; else it adds that one row and unlocks exactly if it was the last |
| `ApproverChain.CreditExactlyByLastInsert` | api/internal/runs/handler.go:605-611 | for every chain, user and way into the update: some interleaving puts a user into approved_by who has not approved the last step, if and only if every step has an approver, the last step has another one, and the request inserted nothing or an earlier step the user may approve |
| `ApproverChain.LastInserterEarnsCredit` | api/internal/runs/handler.go:605-611 | in every execution a request that inserted the last step and performs the update is by an approver of that step, on record |
| `ApproverChain.LateRequestTakesCredit` | api/internal/runs/chain.go:94-96 | with all steps approved and the run still pending, a request by any user performs the update and becomes approved_by |
| `ApproverChain.SlowRequestTakesCredit` | api/internal/runs/chain.go:97-115 | so does a request that read an earlier step and inserts last |
| `ApproverChain.SatisfiedWhilePendingIsReachable` | api/internal/runs/handler.go:582-612 | a satisfied chain with the run still pending is reachable if and only if every step has an approver |
| `ApproverChain.NextPendingStep` | api/internal/runs/chain.go:56-78 | the map-and-scan computes the first step without a row, or the chain length |
| `ApproverChain.LoadChainStatus` | api/internal/runs/chain.go:130-175 | the progress view marks exactly the steps before the next pending one, each with one of its recorded, listed approvers |
| `ApproverChain.ChainRun.ApproveWithChain` | api/internal/runs/handler.go:570-619 | run alone, a request advances exactly one step for an approver of the pending step, unlocks exactly at the last and records that user; a satisfied chain is unlocked by any user; everything else changes nothing |
| `AgentSlots.ClaimsAreExclusive` | api/internal/agent/handler.go:116-129 | for any number of agents and interleavings a run is never in two slots, and a preparing run is in one unless a message about it was lost |
| `AgentSlots.SlotsAreConserved` | api/cmd/crucible-agent/main.go:90-131 | an agent never executes more than its capacity; runLoop returns only when every received run has been through executeRun and every goroutine is gone |
| `AgentSlots.WorldStaysOk` | api/cmd/crucible-agent/main.go:110-131 | the joint invariant of semaphores, wait groups, held runs and run statuses |
| `AgentSlots.OnlyClaimsPrepare` | api/internal/agent/handler.go:117-127 | only a claim makes a run preparing, and an accepted finish ends it |
| `AgentSlots.PollClaimsIff` | api/cmd/crucible-agent/main.go:110-131 | in every reachable world a poll of a pool with work claims the oldest run if and only if one of the agent's slots is free; with none free the tick changes nothing |
| `AgentSlots.ShutdownCompletes` | api/cmd/crucible-agent/main.go:90-131 | from every reachable world some execution stops the agent with every received run executed |
| `PolicyEngine.ParseResultSet` | api/internal/policy/policy.go:204-223 | a result allows exactly if no string stands in an array under "deny", and asks for approval exactly if `true` stands under "require_approval"; anything but an object allows |
| `PolicyEngine.ObjectIsRead` | api/internal/policy/policy.go:204-242 | of an object, deny, warn and trigger are the string items of the array under their own key, in order and with multiplicity, and it allows exactly if no string is under "deny" |
| `PolicyEngine.Engine.EvaluateByIDs` | api/internal/policy/policy.go:160-194 | walks the map in any order; fails exactly if some selected policy errors; otherwise one record per selected policy, merged |
| `PolicyEngine.MergeIgnoresMapOrder` | api/internal/policy/policy.go:166-194 | any two iteration orders give the same Allow and RequireApproval and the same messages up to order |
| `PolicyEngine.MergedAllowIsUnanimous` | api/internal/policy/policy.go:190-192 | the merged Allow holds exactly when every record allows |
| `PolicyEngine.FinalizerAgreesWithMerge` | api/internal/runs/finalize.go:311-333 | the finalizer's recomputed flags equal the merged result it drops |
| `PolicyEngine.FlagsFromRecords` | api/internal/runs/finalize.go:316-333 | denied and requiresApproval are the existential flags over the records |
| `PolicyEngine.FlagsAreAboutObjects` | api/internal/runs/finalize.go:311-333 | a record denies exactly if some selected policy's object has a string under "deny", and asks exactly if some has true under "require_approval" |
| `PolicyEngine.MergeKeepsMessages` | api/internal/policy/policy.go:175-194 | the merged messages are those of all records together, with multiplicity |
| `PolicyCache.CacheExactIffNameBlind` | api/internal/policies/handler.go:177-257 | from a startup load, after every sequence of Validate/Create/Update/Delete calls, accepted or rejected, the engine equals the active compiling rows with no scratch entry left, if and only if compiling ignores the module name |
| `PolicyCache.NameSensitiveCompilerGoesStale` | api/internal/policies/handler.go:253-257 | otherwise a rename leaves a stale entry behind |
| `PolicyCache.PolicyService.LoadEngine` | api/internal/policies/handler.go:45-68 | startup load, in any row order, fills the engine with exactly the active compiling rows and counts them |
| `PolicyCache.PolicyService.LoadPolicy` | api/internal/policy/policy.go:66-79 | replaces the entry if the source compiles and leaves the engine alone otherwise |
| `PolicyCache.PolicyService.UnloadPolicy` | api/internal/policy/policy.go:121-125 | removes the entry |
| `PolicyCache.PolicyService.ValidateBody` | api/internal/policies/handler.go:74-113 | validation leaves table and engine as they were, up to its scratch id |
| `PolicyCache.PolicyService.CreatePolicy` | api/internal/policies/handler.go:159-204 | a body that does not compile and a failed insert change nothing; otherwise one row is added, and the entry exactly if it is active |
| `PolicyCache.PolicyService.UpdatePolicy` | api/internal/policies/handler.go:207-263 | refused exactly for a missing row or a new body that does not compile; otherwise the row is written column by column and the entry is replaced if active and compiling, kept if active and not compiling, removed if inactive |
| `PolicyCache.PolicyService.DeletePolicy` | api/internal/policies/handler.go:266-283 | for the org's own policy the row and the engine's entry are gone and all others kept; otherwise nothing changes |
| `PolicyCache.RetiredStaysOut` | api/internal/policies/handler.go:253-277 | a policy that was deleted or deactivated is out of the engine, and stays out through every call sequence that does not create or reactivate it |
| `PostPlanGate.CheckBudgetThresholds` | api/internal/runs/finalize.go:484-516 | lists exactly the breached metrics |
| `PostPlanGate.CheckCostQuota` | api/internal/projects/budgets.go:101-154 | quota, spend, projection, forecast, breach and forecast-breach of a run against its project |
| `PostPlanGate.ApplyProjectCostQuota` | api/internal/runs/finalize.go:557-577 | blocks exactly for enforcement "block" with a breach, or with a forecast breach when that blocks |
| `PostPlanGate.CompletePlanPhase` | api/internal/runs/finalize.go:63-104 | failed exactly if some record denies, pending_approval exactly if none denies and some asks, confirmed exactly if neither, on auto-apply tracked runs within their thresholds and project budget |
| `PostPlanGate.GateByCauses` | api/internal/runs/finalize.go:63-104 | each of the four outcomes if and only if its causes: the records' denials and requests, auto-apply, tracked, thresholds, project budget and forecast |
| `PostPlanGate.EvaluatePlanPolicies` | api/internal/runs/finalize.go:282-311 | fails exactly if a selected policy of the engine errors; otherwise one record per selected policy, none when none is selected |
| `PostPlanGate.PoliciesDecide` | api/internal/runs/finalize.go:63-69 | the gate over the Rego objects: failed exactly if some selected policy has a string under "deny", pending_approval exactly if none has and some has true under "require_approval" |
| `PostPlanGate.OneDenialFails` | api/internal/policy/policy.go:204-223 | one selected policy with one string under "deny" fails the run, whatever else is loaded or configured |
| `PostPlanGate.GateMonotone` | api/internal/runs/finalize.go:63-104 | with error-free evaluation, loading or selecting more policies, lower limits or budget, more spend, more blocking switches or no auto-apply never give a more permissive outcome |
| `PolicyEngine.MorePoliciesMoreRecords` | api/internal/policy/policy.go:160-194 | evaluating a larger table for a larger selection yields every record of the smaller one |
| `PostPlanGate.BudgetOnlyInhibitsAutoApply` | api/internal/runs/finalize.go:72-91 | thresholds and quota only ever turn confirmed into unconfirmed, and do so exactly if a metric is over its limit on a stack that blocks, or spend or forecast is over the budget of a project that blocks |
| `PostPlanGate.EvaluationErrorOpensGate` | api/internal/runs/finalize.go:64-67 | an evaluation error gives the outcome without any policy, the most permissive one, and differs exactly when a policy denied or asked for approval |
| `PostPlanGate.BreachImpliesForecastBreachIffBudgetNonNegative` | api/internal/projects/budgets.go:151-152 | over budget implies trending over budget on every date, exactly for non-negative budgets |
| `PostPlanGate.ForecastEqualsProjectionOnLastDay` | api/internal/projects/budgets.go:84-92 | on the last day of every month, leap years included, the forecast is the projection |
| `PostPlanGate.MonthLastsUntilNext` | api/internal/projects/budgets.go:84-92 | the days of a month are the distance between its first day and the next month's, for every year |
| `PlanDiff.IndexPlanResources` | api/internal/runs/plandiff.go:147-155 | holds exactly the addresses some change of which is not ["no-op"], each with the last such change |
| `PlanDiff.IndexHoldsLastChange` | api/internal/runs/plandiff.go:147-155 | the same of the index the other lemmas speak of |
| `PlanDiff.IndexedExactly` | api/internal/runs/plandiff.go:147-159 | an address is in the index if and only if one of its changes is not exactly ["no-op"] |
| `PlanDiff.DiffPlanAttrs` | api/internal/runs/plandiff.go:199-229 | exactly the attributes whose capped values marshal differently, with the capped values of both sides |
| `PlanDiff.ReportedExactly` | api/internal/runs/plandiff.go:199-240 | with a marshaler that tells values apart, an attribute is reported if and only if its two values, null where missing, differ and are not two longer strings with the same first 512 bytes |
| `PlanDiff.PlanResourceChanged` | api/internal/runs/plandiff.go:161-195 | a change entry exactly for different actions or differing attributes |
| `PlanDiff.BuildPlanDiff` | api/internal/runs/plandiff.go:101-145 | for every map order: New, Removed and Changed list exactly the addresses they should, each once |
| `PlanDiff.DiffRoundTrip` | api/internal/runs/plandiff.go:101-145 | replaying a diff on the old plan's address-to-actions index gives the new plan's |
| `PlanDiff.DiffIsDisjoint` | api/internal/runs/plandiff.go:113-142 | no address is in two of the lists |
| `PlanDiff.SelfDiffIsEmpty` | api/internal/runs/plandiff.go:133-142 | a plan does not differ from itself |
| `PlanDiff.SwappedDiff` | api/internal/runs/plandiff.go:101-145 | swapping the plans swaps New with Removed and flips every Changed entry, whose type column becomes the other plan's |
| `AttemptWindow.FailTracker.CheckAndRecord` | api/internal/auth/oidc.go:336-353 | the new count and reset time are given by cases: success clears the entry, an expired window restarts at one, otherwise one more; every other IP is left alone |
| `AttemptWindow.FailTracker.Authenticate` | api/internal/auth/oidc.go:371-392 | an attempt is counted before its lookup, and looked up only below the limit |
| `AttemptWindow.SuccessRestoresBudget` | api/internal/auth/oidc.go:371-392 | on every trace and clock, after an attempt that is let in the next twenty of its IP reach the lookup |
| `AttemptWindow.WindowBound` | api/internal/auth/oidc.go:336-353 | on every trace with a non-decreasing clock and no success from an IP at most 20 of its attempts per window reach the lookup, whatever other IPs do |
| `AttemptWindow.SpanBound` | api/internal/auth/oidc.go:333-343 | and at most 39 in any 300-second span |
| `AttemptWindow.SpanBoundIsTight` | api/internal/auth/oidc.go:325-334 | 39 is reached |
| `ChatOpsToken.TokenLifetime` | api/internal/chatops/token.go:24-46 | a generated token validates for its run and action exactly until 24 hours after issue |
| `ChatOpsToken.MessageDecodes` | api/internal/chatops/token.go:48-52 | the signed message decodes uniquely for colon-free actions and any run id |
| `ChatOpsToken.TokenBindsRunAndAction` | api/internal/runs/handler.go:1338-1345 | with an injective HMAC no token, generated or not, is good for two runs or two actions |
| `ChatOpsToken.IssuedMacIsBound` | api/internal/chatops/token.go:24-52 | with a collision-free HMAC an issued MAC, presented under any expiry, is good only for its own run, action and key, and for 24 hours |
| `ChatOpsToken.ColonInActionIsAmbiguous` | api/internal/chatops/token.go:50 | with a colon in the action two links would share one message |

## Left out

- Which columns of the upstream's run an edge predicate sees: `type`, plan counts, cost and the drift flag are an input of the finish step, loaded or not, since nothing else here writes them.
- PlanDiff.ReportedExactly: assumes a marshaler that tells values apart; `json.Marshal` is a parameter, and does not for strings cut inside a multi-byte character. `PlanDiff.DiffPlanAttrs` is for any marshaler.
- The in-process queue worker, its job retries, drift remediation and preview-stack deletion: runs of stacks without a worker pool stay queued in this model. Retry delays are computed as in the source; pool agents ignore them, only the in-process queue waits.
- The approval-expiry sweep: its update has the row effect of the chat discard step, which may happen at any time here.
- Webhook, schedule and drift inserts of runs: like a manual create, which may happen at any time here.
- `approved_by`, audit rows, logs, notifications, role checks and variable overrides; `approved_by` is modelled in `ApproverChain` only.
- `PostPlanGate.CheckCostQuota`: month-to-date spend is a parameter, not summed from the runs table, because the sum is plain SQL.
- Rounding of money: costs are `real`; float64 rounding is modelled for integer predicates only.
- Races between two statements of one handler, other than in the approver chain, and chain edits while a run is pending.
- `AttemptWindow.SpanBound`: for clocks after 1970, since an absent entry reads as a window that expired at second 0.
- Cascades under changing graphs: `Cascade.CascadeIsFinite` fixes the edges, since adding edges adds walks.
- `Engine.Evaluate` by policy type, org defaults and git policy sources: the selection of policy ids is an input.
- Stack deletion and its cascades over runs and edges.
