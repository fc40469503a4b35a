# A verified model of the agency's orchestration kernel

This project models, in Dafny, the part of the system that schedules, checkpoints, retries, chains and
gates work: the work graph, the workflow engine, the job queue, the audit chain, the task service, the
crawler, the rate limiter, the approval gate, the model router with its circuit breakers, the delivery
pipeline with its reviewer, and the line framing of the MCP server.

Code that changes state is modelled as classes and methods with loops. Each method is proved equal to a
function of the old state, and the theorems are proved about that function, over every input, every run
or every interleaving. Database tables are maps or sequences of rows, and each SQL statement is one
atomic step. Handlers, clocks, git, the network, test runners and language models are functions or
arbitrary values that the theorems quantify over. `verify` on `dfyconfig.toml` checks everything.

## Layout

| files | subject |
|---|---|
| `Optional`, `Graphs` | optional values; walks, reachability and cycles, shared by several modules |
| `WorkGraphLevels`, `CycleFinder`, `WorkGraphCompile`, `WorkGraphTheorems` | Kahn layering and the three-colour search |
| `WorkGraphExecute`, `WorkGraphOutcomes`, `WorkGraphStranded`, `WorkGraphContext` | the level-by-level executor, its closed form and the node lists for which it holds, and what handlers find in the context |
| `WorkflowModel`, `WorkflowEngine`, `WorkflowRuns`, `WorkflowHandled`, `WorkflowOutputs`, `WorkflowAgreement`, `WorkflowProgress` | the persisted stage machine, with a crash possible before any write; what finishes a stage; when interrupted runs record what uninterrupted ones do |
| `JobTable`, `JobQueue`, `JobProtocol`, `JobSafety`, `JobAttempts`, `JobProgress`, `JobWork`, `JobOrder`, `JobOutcomes` | the job table, one serial worker, and any number of interleaved workers: safety, how often a job is tried, progress, due order and why a job ended |
| `JsonText`, `CanonicalText`, `AuditChain`, `AuditLog` | JSON texts, canonical JSON, the hashed text of an event, the chain |
| `TaskLifecycle`, `TaskService`, `TaskProtocol` | the transition table, the dependency graph, concurrent versioned updates |
| `Crawler`, `CrawlOrder` | the crawl loop and the order and extent of what it visits |
| `RateLimit`, `RateLimitEquivalence` | two stores for one fixed-window counter |
| `Approvals`, `ApprovalProtocol` | the approval service and the sweeper, alone and interleaved |
| `Breaker`, `RouterModel`, `ModelRouter`, `RouterTheorems` | breakers, candidate order, the fallback loop |
| `Reviewer`, `DeliveryModel`, `DeliveryPipeline`, `DeliverySafety` | the review verdict and the gate sequence |
| `McpFraming` | cutting a stream of chunks into lines |

## Where the code and its description part

- `compile` calls its levels topological. When an acyclic graph has a missing dependency, the last
  level is not: `TopologicalIff` gives the exact condition and `StrandedExample` an input. On that level a
  node can complete although the handler of its own dependency raised (`StrandedRunsBeside`). Statuses follow
  from the failures and false conditions below each node, whatever handlers and conditions do, exactly when
  the graph has a cycle or no node that cannot be placed depends on another such node (`ClosedFormIff`).
- A branch that is retried is handed the state with the outputs of its siblings, the finished names so far
  and the last pause, none of which it sees in an uninterrupted run. Interrupted runs record the same
  outputs exactly when no handler is disturbed by these (`AgreeIffSteady`); `RetriedBranchDiffers` is a run
  that ends differently.
- The comment at `workflow.ts:111` lets `resume` continue a failed run. The code refuses the status
  `failed`, so a run whose plain stage threw never changes again (`FailedRunsStayFailed`).
- `persistState` treats an empty stage name as "no change": no name is finished twice exactly when every
  stage after the first has a name (`FinishesOnceIff`, `UnnamedStageExample`).
- `canonicalJson` drops members called `__proto__`, because `sortValue` assigns them to the prototype.
  It decides equality up to such members (`CanonicalIffSameMeaning`, `ProtoExample`), and so does the
  audit chain.
- A handler that still runs when its job is dead-lettered and requeued can put it back once more, an
  attempt beyond the limit that no reclaim accounts for (`CarriedHolderExample`). From an enqueue or requeue
  on, attempts stay within the limit plus the reclaims in every run exactly when no worker is about to put
  the job back and, unless `max_attempts` is below one, none still runs its handler (`StaysWithinIff`); such
  workers add at most one attempt each (`AttemptsSince`), and there is a run in which all of them do
  (`AttemptsReached`).
- The set of jobs ahead of a due job can still grow at the very instant it falls due (`DueQueueMayGrow`),
  and never afterwards while it waits (`OverdueJobsAreNext`).
- `enqueue` goes on to insert when the key belongs to a dead-lettered job, hits the unique index and
  returns the dead row. With an empty key it passes the violation on to the caller.
- `assertApproved` is described as asking for a live approved decision, but it judges the newest approved
  row only. The two agree exactly when no live row hides behind a consumed or expired newest one
  (`GrantedIffLiveIff`, `HiddenLiveExample`); behind a consumed one it is never read again (`HiddenForGood`).
- The in-memory and the SQL rate limiter answer alike exactly when every limit is at least 1 and the
  window is at most 600001 ms (`EquivalentIff`), provided key hashes hold no `|`.
- `verify(orgId)` starts from the genesis link, so it accepts an intact log exactly when the rows of
  that organisation come first (`OrgAcceptedIffPrefix`).
- The pipeline tests every delivery exactly when `maxRepairAttempts` is not negative (`TestedIff`); its
  static scan sees files as generated, not as repaired or with the fault injected (`ScannedIff`); and
  its check on main ignores the exit code: success means that the tests pass on main exactly when
  no run on main can report no failure and yet not pass (`MainPassesIff`, `KilledRunOnMainPasses`).
- `select` says "exact tier first", but the tier is a filter; the order is by price alone. The
  constraints `privacyLocalOnly` and `maxLatencyMs` are not read.

## Model

| member | source | states |
|---|---|---|
| WorkGraphCompile.Compile | packages/orchestration/src/workgraph.ts:41-88 | returns exactly the missing dependencies, only real cyclic chains, none exactly when the graph is acyclic, and the levels that the next rows characterise |
| WorkGraphCompile.CollectMissing | packages/orchestration/src/workgraph.ts:43-47 | the loop yields the specified report |
| WorkGraphCompile.ReportedIffDangling | packages/orchestration/src/workgraph.ts:43-47 | an entry is reported exactly when it names a node with all of its dangling dependencies, of which there is at least one |
| WorkGraphCompile.NothingMissingIffComplete | packages/orchestration/src/workgraph.ts:43-47 | the report is empty exactly when every dependency exists |
| WorkGraphCompile.IndexDependents | packages/orchestration/src/workgraph.ts:52-61 | the in-degrees count all dependencies and the child lists invert the dependency lists, with multiplicity |
| WorkGraphCompile.PeelLevels | packages/orchestration/src/workgraph.ts:62-79 | the decrementing loop ends and yields exactly the Kahn levels, each in roster order |
| WorkGraphCompile.RosterOrderRearranges | packages/orchestration/src/workgraph.ts:74-75 | putting a batch in roster order rearranges it and nothing else |
| WorkGraphCompile.RosterOrderFollowsNodes | packages/orchestration/src/workgraph.ts:74-75 | and lists its ids as the nodes are listed |
| WorkGraphLevels.LayeredIffGrounded | packages/orchestration/src/workgraph.ts:62-80 | a node is placed exactly when no dependency path leads from it to a cycle or to a missing id |
| WorkGraphLevels.LevelIsLongestChain | packages/orchestration/src/workgraph.ts:62-79 | the level of a node is the length in edges of its longest dependency chain |
| WorkGraphLevels.AcyclicLayersAllIffComplete | packages/orchestration/src/workgraph.ts:80-85 | on an acyclic graph all nodes are placed exactly when nothing is missing |
| WorkGraphTheorems.KahnHoldsGroundedOnce | packages/orchestration/src/workgraph.ts:62-80 | the flattened levels hold exactly the nodes without a path to a cycle or a missing id, each once |
| WorkGraphTheorems.KahnLevelIsLongestChain | packages/orchestration/src/workgraph.ts:62-79 | the index of a node's level equals the length of its longest chain |
| WorkGraphTheorems.KahnIsTopological | packages/orchestration/src/workgraph.ts:62-79 | every dependency of a placed node sits in a strictly earlier level |
| WorkGraphTheorems.CompleteGraphsSort | packages/orchestration/src/workgraph.ts:41-88 | on acyclic complete graphs the levels flatten to a permutation of the nodes, in topological order |
| WorkGraphTheorems.TopologicalIff | packages/orchestration/src/workgraph.ts:9-10 | the returned levels are topological exactly when there is a cycle or nothing is missing |
| WorkGraphTheorems.StrandedListsDangling | packages/orchestration/src/workgraph.ts:81-85 | a stranded level that covers a node with a missing dependency breaks the topological order |
| WorkGraphTheorems.StrandedExample | packages/orchestration/src/workgraph.ts:81-85 | an acyclic input on which one level holds a node beside its own dependency |
| CycleFinder.FindCycles | packages/orchestration/src/workgraph.ts:151-186 | every reported chain is a closed walk along dependency edges, and the list is empty exactly when the graph on existing ids is acyclic |
| CycleFinder.CycleFinder.Dfs | packages/orchestration/src/workgraph.ts:162-180 | ends because white nodes decrease; restores the stack; finishes the node; with no chain found its dependencies finish before it |
| CycleFinder.CycleFinder.ReportChain | packages/orchestration/src/workgraph.ts:170-173 | the stack from the gray node on, closed by that node, is a closed walk |
| CycleFinder.FinishedMeansAcyclic | packages/orchestration/src/workgraph.ts:151-186 | a finishing order in which dependencies come first rules out every cycle |
| WorkGraphExecute.Execute | packages/orchestration/src/workgraph.ts:90-148 | with handlers that share and may read the context at any moment of their level: the returned context is the initial one overlaid with exactly the outputs of the completed results; the results list the levels in order, each accounted for as the next row says; and they are those of the level-by-level specification |
| WorkGraphExecute.ResultAccounts | packages/orchestration/src/workgraph.ts:101-136 | a result is completed, or blocked by its handler, exactly when the handler ran and returned, or raised, just that; what ran returned what it returns on a context that differs from the one its level began with at most in what siblings stored; and the own condition of a node skips it exactly when it is registered and false on that context and no dependency blocks it |
| WorkGraphContext.HandlersReadDependencies | packages/orchestration/src/workgraph.ts:118-120 | whatever handlers do and however they interleave: when a handler runs, every dependency that could be placed has completed, and the handler returned what it returns on a context with all their outputs |
| WorkGraphExecute.FinishTasks | packages/orchestration/src/workgraph.ts:118-131 | handlers finish in any order, each having read the shared context at some moment since the level began; context and blocked set are determined by what they returned |
| WorkGraphExecute.SiblingsIgnored | packages/orchestration/src/workgraph.ts:118-131 | a level whose handlers do not depend on their siblings has one result, whatever the order |
| WorkGraphExecute.ExecuteLevel | packages/orchestration/src/workgraph.ts:101-136 | one level with tasks started in order, finished in any order and settled in order: the context gains exactly the outputs of the completed results, each result is accounted for, and together they are one level of the specification |
| WorkGraphExecute.LevelsRunAlike | packages/orchestration/src/workgraph.ts:101-136 | results depend only on what the handlers of the listed nodes return |
| WorkGraphOutcomes.DecisionsAreIndependent | packages/orchestration/src/workgraph.ts:102-117 | inside a level without inner dependencies each task decides as if it started alone |
| WorkGraphOutcomes.StatusClosedForm | packages/orchestration/src/workgraph.ts:101-136 | on Kahn's levels, for any handler outcomes: blocked exactly when the node or a transitive dependency had its handler raise; skipped exactly when not blocked and the node or a transitive dependency had a false condition |
| WorkGraphOutcomes.DecisionsGoBack | packages/orchestration/src/workgraph.ts:102-117 | in any level, also one with dependencies inside, a task is blocked at once exactly when going back through earlier listed dependencies leads to one blocked before the level, and likewise for skipping |
| WorkGraphOutcomes.StrandedClosedForm | packages/orchestration/src/workgraph.ts:81-85 | what `execute` reports of the stranded level: each node as going back decides, with its handler's outcome when it starts |
| WorkGraphOutcomes.StrandedRunsBeside | packages/orchestration/src/workgraph.ts:81-85 | an input on which a stranded node completes although its own dependency raised |
| WorkGraphStranded.ClosedFormIff | packages/orchestration/src/workgraph.ts:81-136 | whatever handlers and conditions do, every reported node is blocked exactly when a handler at or below it raised, and skipped exactly when not blocked with a false condition at or below it: for exactly the node lists that have a cycle or in which no node that cannot be placed depends on another |
| WorkGraphStranded.FailsIfStuckOnStuck | packages/orchestration/src/workgraph.ts:81-136 | when one such node depends on another, a run in which only the handler of the latter raises breaks the closed form |
| WorkGraphOutcomes.ExecutionClosedForm | packages/orchestration/src/workgraph.ts:90-148 | on acyclic complete graphs each node is reported once, with the status of the closed form |
| WorkflowEngine.WorkflowEngine.Start | packages/orchestration/src/workflow.ts:149-183 | the inserted row: first stage, status running, medium tier by default, nothing completed |
| WorkflowEngine.WorkflowEngine.AdvanceRun | packages/orchestration/src/workflow.ts:185-265 | row, outcome and handlers called equal the specification, also when the process dies before any of its writes; handlers are handed the state as it stands |
| WorkflowEngine.WorkflowEngine.SkipLowRisk | packages/orchestration/src/workflow.ts:215-226 | stages passed over are checkpointed one by one, and the rest of the call continues from there |
| WorkflowEngine.WorkflowEngine.AdvancePlain | packages/orchestration/src/workflow.ts:236-264 | missing handler blocks, a throw fails the run, success stores output and moves on |
| WorkflowEngine.WorkflowEngine.AdvanceFanOut | packages/orchestration/src/workflow.ts:272-350 | runs only unfinished branches, checkpoints those that succeed, converges when none is left |
| WorkflowEngine.WorkflowEngine.Converge | packages/orchestration/src/workflow.ts:287-301 | the convergence write: the stage joins the finished names and the run moves on or ends |
| WorkflowEngine.RunBranches | packages/orchestration/src/workflow.ts:302-323 | collects, in listing order, the outputs of the branches that succeed and the failures |
| WorkflowEngine.SettleAll | packages/orchestration/src/workflow.ts:302-309 | all pending branches run on their own copy of the same state and settle in any order |
| WorkflowEngine.AllPassed | packages/orchestration/src/workflow.ts:332-334 | without failures every branch is finished, so the code after the check is unreachable |
| WorkflowEngine.WorkflowEngine.PauseForApproval | packages/orchestration/src/workflow.ts:352-361 | stores the action with the resource reference laid over it and sets the status, leaving the position |
| WorkflowEngine.WorkflowEngine.Resume | packages/orchestration/src/workflow.ts:363-370 | succeeds exactly from waiting, paused or blocked, and then only the status changes |
| WorkflowRuns.AdvanceIsSafe | packages/orchestration/src/workflow.ts:185-350 | whatever handlers return, a call that dies at any point leaves the row standing at a stage, forgets nothing, and calls no handler whose success is recorded |
| WorkflowRuns.HistoryIsSafe | packages/orchestration/src/workflow.ts:185-370 | the same over every sequence of calls, crashes, pauses and resumptions |
| WorkflowRuns.CrashConsistency | packages/orchestration/src/workflow.ts:185-350 | in every history, whatever handlers return, finished names hold no duplicates and are the stages and branches before the current stage plus some of its branches; a run that ends has finished everything |
| WorkflowHandled.FinishedByHandlers | packages/orchestration/src/workflow.ts:213-350 | in every history, unless the tier is low and the stage flagged, a stage is finished only after its handler, or the handler of each of its branches, was called in some call and did not throw |
| WorkflowHandled.LowTierPassesOver | packages/orchestration/src/workflow.ts:213-226 | with a low tier no call of any history runs a handler of a flagged stage, and a run that ends has finished it |
| WorkflowHandled.LowTierMovesOn | packages/orchestration/src/workflow.ts:215-226 | nor does such a run wait: a call that lives for one write leaves the stage behind |
| WorkflowHandled.PlainStageCall | packages/orchestration/src/workflow.ts:236-264 | one call at a plain stage, in what it leaves, calls and reports: blocked without a handler, failed when it throws, else its output merged and the run at the next stage or ended |
| WorkflowHandled.FailingFanOutCall | packages/orchestration/src/workflow.ts:283-331 | a call with a throwing branch keeps the outputs of the branches that succeed beside those kept before, finishes exactly their names, counts the failures and leaves the run where it is |
| WorkflowHandled.ConvergingFanOutCall | packages/orchestration/src/workflow.ts:283-345 | a call in which no outstanding branch throws finishes all of them and the stage, and the run moves on |
| WorkflowOutputs.LookingBackIsSteady | packages/orchestration/src/workflow.ts:302-309 | handlers that depend on nothing but what earlier stages recorded are steady |
| WorkflowOutputs.EndsAsUninterrupted | packages/orchestration/src/workflow.ts:185-350 | with steady handlers a run that ends has exactly the outputs of the uninterrupted run |
| WorkflowOutputs.EndsAgree | packages/orchestration/src/workflow.ts:185-350 | with steady handlers two histories of one run that both end agree on outputs and finished names |
| WorkflowAgreement.AgreeIffSteady | packages/orchestration/src/workflow.ts:244-325 | histories that have finished the same names always record the same outputs exactly when at every stage, with every checkpoint, order of finishing and pause that can arise, the handlers due record what they would in an uninterrupted run |
| WorkflowAgreement.Arises | packages/orchestration/src/workflow.ts:272-350 | whatever handlers return, every such checkpoint, order and pause is that of some history; when histories always agree, its handlers are handed exactly what the condition speaks of |
| WorkflowAgreement.RetriedBranchDiffers | packages/orchestration/src/workflow.ts:304-325 | a run in which a retried branch sees its sibling's output and ends differently |
| WorkflowRuns.NeverRunAgain | packages/orchestration/src/workflow.ts:283-323 | a stage or branch whose success was persisted is never run again |
| WorkflowProgress.FaultlessCall | packages/orchestration/src/workflow.ts:185-350 | a call without faults that outlives its writes gets past the current stage |
| WorkflowProgress.CallsFinish | packages/orchestration/src/workflow.ts:185-350 | as many fault-free calls as there are stages left finish the run, whatever handlers return |
| WorkflowProgress.EveryRunningRunCanFinish | packages/orchestration/src/workflow.ts:185-350 | from every running row that any history leaves, including the one between branch checkpoint and convergence, fault-free calls end the run; with steady handlers, with the uninterrupted outputs |
| WorkflowProgress.FailedRunsStayFailed | packages/orchestration/src/workflow.ts:363-367 | a failed run is never changed again by calls, pauses or resumptions |
| WorkflowAgreement.FinishesOnceIff | packages/orchestration/src/workflow.ts:399-411 | names being distinct, no history finishes a name twice exactly when every stage after the first has a name |
| WorkflowProgress.UnnamedStageExample | packages/orchestration/src/workflow.ts:409 | a definition with an unnamed stage on which one stage is completed twice |
| JobQueue.JobQueue.Enqueue | packages/orchestration/src/jobs.ts:45-89 | keeps keys unique; a taken key gives back its row whatever its status; the empty key fails; a new row has the given fields, the due time and the defaults |
| JobQueue.JobQueue.SelectNext | packages/orchestration/src/jobs.ts:94-109 | a pending job whose due time has come and than which no pending job is due earlier, or none exactly when no pending job is due |
| JobQueue.JobQueue.Claim | packages/orchestration/src/jobs.ts:92-129 | locks that job and counts the attempt, or leaves the table alone |
| JobQueue.JobQueue.ProcessOne | packages/orchestration/src/jobs.ts:131-173 | true exactly when a job is due; then one such job, a first one, is claimed and settled as the next row says, and no other row changes |
| JobQueue.ProcessedSettles | packages/orchestration/src/jobs.ts:131-173 | the settled row in its columns: one more attempt; succeeded and unlocked if the handler returned; dead-lettered with the error if it gave up, or threw at the last attempt; else pending, unlocked, due after half a second doubled per attempt, at most a minute |
| JobQueue.JobQueue.ReclaimStale | packages/orchestration/src/jobs.ts:180-188 | exactly the running jobs with an old lock become pending, and are counted |
| JobQueue.JobQueue.RetryDeadLetter | packages/orchestration/src/jobs.ts:234-243 | resets exactly a dead-lettered job, and reports whether there was one |
| JobTable.Backoff | packages/orchestration/src/jobs.ts:162 | the delay lies between half a second and one minute |
| JobTable.BackoffDoubles | packages/orchestration/src/jobs.ts:162 | it starts at half a second and doubles until it reaches the minute |
| JobProtocol.KeptStep | packages/orchestration/src/jobs.ts:92-188 | every step of every worker keeps the invariant that ties attempts to pending rows, holders, reclaims and carried holders |
| JobSafety.AttemptsBound | packages/orchestration/src/jobs.ts:148-170 | over all interleavings attempts exceed the limit by at most the reclaims since the last requeue plus the workers that could still put the job back at that requeue |
| JobSafety.AttemptsBoundSpareless | packages/orchestration/src/jobs.ts:148-170 | when jobs are requeued only once no worker can still put them back, by at most the reclaims |
| JobAttempts.StartsAnewAfter | packages/orchestration/src/jobs.ts:234-239 | right after every enqueue and every requeue the job is pending with no attempts and no reclaims, the state the next rows start from |
| JobAttempts.AttemptsSince | packages/orchestration/src/jobs.ts:92-173 | from an enqueue or requeue until the next one, attempts exceed the limit by at most the reclaims plus the workers that could still put the job back at the start |
| JobAttempts.AttemptsReached | packages/orchestration/src/jobs.ts:131-173 | from every such state a run without requeue or reclaim uses up the limit and one more attempt for each of these workers |
| JobAttempts.StaysWithinIff | packages/orchestration/src/jobs.ts:148-170 | from such a state attempts stay within the limit plus the reclaims in every run exactly when no worker is about to put the job back and none holds it with a limit of at least one |
| JobSafety.CarriedHolderExample | packages/orchestration/src/jobs.ts:155-169 | a reachable state with three attempts of two and no reclaim since the requeue |
| JobSafety.AtMostOneHolder | packages/orchestration/src/jobs.ts:122-129 | if no live holder is reclaimed and no held job requeued, at most one worker holds a job; the row is running, or given up by that worker, and names it in locked_by |
| JobSafety.TerminalStays | packages/orchestration/src/jobs.ts:142-145 | under the same condition succeeded and dead-lettered jobs stay so until requeued |
| JobProgress.ProcessingDecreasesWork | packages/orchestration/src/jobs.ts:131-173 | each processed job uses up at least one of the attempts left over all unfinished jobs |
| JobProgress.SerialRunsEnd | packages/orchestration/src/jobs.ts:131-173 | a serial worker processes no more jobs than attempts are left, and none is left exactly when no job is pending or running |
| JobProgress.SomeJobFallsDue | packages/orchestration/src/jobs.ts:102-108 | while a job is unfinished there is a time from which the claim query finds one |
| JobProgress.GoesOnIffUnfinished | packages/orchestration/src/jobs.ts:131-173 | a serial worker can process another job, sooner or later, exactly while one is unfinished |
| JobProgress.AllJobsEnd | packages/orchestration/src/jobs.ts:131-173 | a serial run that cannot be extended is no longer than the attempts left at its start, and every job unfinished then has succeeded or is dead-lettered |
| JobWork.ClaimsUseWork | packages/orchestration/src/jobs.ts:92-188 | for any number of workers, each claim of a pending job uses up one of the attempts left over all unfinished jobs, and nothing but a new job adds any |
| JobWork.ClaimsAreBounded | packages/orchestration/src/jobs.ts:92-188 | over every interleaving without reclaim or requeue, claims are paid for by the attempts left at the start and those of new jobs |
| JobWork.ClaimsFromStart | packages/orchestration/src/jobs.ts:92-188 | from an empty queue there are never more claims than the attempts that the jobs enqueued so far may use |
| JobWork.StepsAreBounded | packages/orchestration/src/jobs.ts:131-173 | so are all steps that claim a job or take a held one further |
| JobWork.UnfinishedGoesOn | packages/orchestration/src/jobs.ts:131-173 | while a job is unfinished and no worker has crashed holding one, some worker can after a wait take a held job further, or select one and claim it |
| JobWork.NoOrphansStep | packages/orchestration/src/jobs.ts:122-173 | without crashes every running job keeps a live worker |
| JobOrder.OverdueJobsAreNext | packages/orchestration/src/jobs.ts:102-108 | along every run without reclaims in which an overdue job is neither selected nor changed, only jobs ahead of it at the start are selected, none joins them, and each is claimed at most once |
| JobOrder.UnselectedWaits | packages/orchestration/src/jobs.ts:122-173 | when live holders are left alone, a pending job waits unchanged as long as nobody selects it |
| JobOrder.DueQueueMayGrow | packages/orchestration/src/jobs.ts:68 | at the instant it falls due a job without delay still can join |
| JobOutcomes.SucceededAfterClaim | packages/orchestration/src/jobs.ts:131-145 | in every interleaving a job has succeeded only if some worker claimed it pending and later marked it while it was still running |
| JobOutcomes.DeadAfterClaim | packages/orchestration/src/jobs.ts:146-161 | and is dead-lettered only if some worker claimed it and later its handler gave it up, or threw after the worker had read that the limit was reached |
| JsonText.ParseStringify | packages/security/src/audit.ts:68 | printing a JSON value and reading it back gives the value |
| CanonicalText.FirstDifferenceDecides | packages/core/src/ids.ts:48 | keys are ordered by their first difference, a proper prefix first |
| CanonicalText.RankIsUnitOrder | packages/core/src/ids.ts:48 | characters are ordered by their UTF-16 code units, one after the other |
| CanonicalText.IndexKeysMean | packages/core/src/ids.ts:47-51 | the keys that an object lists first are the numbers below 2^32 - 1 without leading zeros |
| CanonicalText.IndexKeysByNumber | packages/core/src/ids.ts:47-51 | and these it lists by number |
| CanonicalText.SortMeaning | packages/core/src/ids.ts:44-54 | sorting keeps the value, all members but those called `__proto__`, at every depth |
| CanonicalText.CanonicalIffSameMeaning | packages/core/src/ids.ts:39-54 | equal canonical text exactly when equal up to member order and `__proto__` members |
| CanonicalText.CanonicalIffEqual | packages/core/src/ids.ts:39-54 | without such members, exactly when equal up to member order |
| CanonicalText.ProtoExample | packages/core/src/ids.ts:47-50 | an object with such a member shares its text with the empty object |
| AuditChain.BodyDeterminesEvent | packages/security/src/audit.ts:43-57 | the canonical body text determines every field, and the metadata up to member order and `__proto__` |
| AuditChain.UniqueSplit | packages/security/src/audit.ts:58 | a link followed by an object text can be split in one way |
| AuditChain.InputDeterminesRow | packages/security/src/audit.ts:58 | the hashed text determines the link and the event |
| AuditChain.HashedTextReads | packages/security/src/audit.ts:43-58 | the hashed text is the link followed by JSON that reads back as one object of thirteen members in key order |
| AuditChain.HashedActor | packages/security/src/audit.ts:43-47 | of which these are the id, organisation, actor type and actor |
| AuditChain.HashedTarget | packages/security/src/audit.ts:48-51 | the action, resource type, resource and request |
| AuditChain.HashedResult | packages/security/src/audit.ts:52-56 | and the risk level, decision, result, metadata and time |
| AuditChain.ReaderReadsBack | packages/security/src/audit.ts:132-138 | the assumption on `JSON.parse` is met by the reader of `JsonText` |
| AuditLog.AuditLog.Append | packages/security/src/audit.ts:35-79 | adds one row, column by column: the next number, the fields with their defaults, the metadata text, the hash before it or `GENESIS`, and the hash of that and the canonical event |
| AuditLog.AuditLog.Verify | packages/security/src/audit.ts:82-114 | valid exactly when every row holds; otherwise the number reported is that of the earliest failing row, or its metadata cannot be read |
| AuditLog.RowHoldsMeans | packages/security/src/audit.ts:88-112 | a row holds exactly when its link is the hash of the row before, or `GENESIS`, its metadata can be parsed, and its hash is that of the link and the canonical event |
| AuditLog.OfOrgKeeps | packages/security/src/audit.ts:83-86 | the rows of an organisation are exactly those with its id, in the order of the log |
| AuditLog.ScopeMeans | packages/security/src/audit.ts:82-86 | without an organisation, or with an empty id, every row is looked at, and else the rows of that organisation |
| AuditLog.AppendKeepsAccepted | packages/security/src/audit.ts:35-79 | appending keeps an accepted log accepted, although the reader sorts differently from the writer |
| AuditLog.BuiltLogsAreAccepted | packages/security/src/audit.ts:35-114 | every log built by appends alone is accepted |
| AuditLog.PrefixAccepted | packages/security/src/audit.ts:82-114 | every prefix of an accepted log is accepted |
| AuditLog.TamperEvident | packages/security/src/audit.ts:25-28 | two accepted logs with the same last hash have the same length and the same events in order, unless two texts they hash collide |
| AuditLog.OrgAcceptedIffPrefix | packages/security/src/audit.ts:82-87 | on an accepted log the rows of one organisation are accepted exactly when they come first |
| TaskLifecycle.DeployingIsGated | packages/orchestration/src/statemachine.ts:12-29 | every entry to deploying is immediately preceded by work, review, QA, security and approval, in that order |
| TaskLifecycle.CompletionFollowsDeployment | packages/orchestration/src/statemachine.ts:12-29 | completion follows a deploying with nothing but deployed, monitoring and rollback between |
| TaskLifecycle.FinalStatesEnd | packages/orchestration/src/statemachine.ts:24-28 | nothing follows completed or cancelled |
| TaskLifecycle.EnteredFrom | packages/orchestration/src/statemachine.ts:12-33 | the table agrees with the table read backwards |
| TaskLifecycle.CanStillComplete | packages/orchestration/src/statemachine.ts:12-29 | from every state but cancelled a legal way leads to completed |
| TaskService.TaskService.ReachesFrom | packages/orchestration/src/tasks.ts:87-100 | one search branch with the shared set: a yes is a path, and after a no everything it added leads only to what is seen, never to the target |
| TaskService.TaskService.IsReachable | packages/orchestration/src/tasks.ts:87-100 | true exactly when a dependency path exists |
| TaskService.TaskService.AddDependency | packages/orchestration/src/tasks.ts:67-85 | adds the edge exactly when it closes no cycle and both ends exist, and keeps the graph acyclic |
| TaskService.TaskService.Create | packages/orchestration/src/tasks.ts:41-65 | all of the draft task, with the default priority and first version, and its edges, or nothing; exactly when it succeeds; the graph stays acyclic |
| TaskService.TaskService.Transition | packages/orchestration/src/tasks.ts:117-132 | moves exactly along the table, with the version one higher, and otherwise changes nothing |
| TaskService.SomeTaskIsReady | packages/orchestration/src/tasks.ts:102-115 | an unfinished self-contained project on an acyclic graph has a ready task |
| TaskService.ReadyQueueExists | packages/orchestration/src/tasks.ts:112 | the ready tasks can be listed once each by priority and creation time |
| TaskService.ReadyQueueProgress | packages/orchestration/src/tasks.ts:102-115 | the queue holds exactly the draft and ready tasks of the project whose dependencies are all completed, the most urgent first and among equals the oldest; and that of an unfinished self-contained project on an acyclic graph is not empty |
| TaskProtocol.HistoriesAreTraces | packages/db/src/index.ts:59-76 | with concurrent callers between read and update, states follow the table and the version counts the transitions and assignments that went through |
| TaskProtocol.StepsMean | packages/db/src/index.ts:59-76 | an update goes through exactly when the version is still the one read, and then makes its one change and raises the version |
| Crawler.RunCrawl | packages/scraper/src/crawler.ts:112-194 | ends, yields the pages of the specified visits, each blocked exactly when robots rules say so and failed exactly when it could not be fetched otherwise, and the counts add up to the pages |
| Crawler.Visit | packages/scraper/src/crawler.ts:130-193 | one page of the right kind, one counter, and the unvisited same-host links queued when above the depth limit |
| Crawler.QueueLinks | packages/scraper/src/crawler.ts:176-181 | the loop queues exactly the normalized unvisited same-host links, in order |
| CrawlOrder.VisitsInOrder | packages/scraper/src/crawler.ts:112-116 | visits are distinct, each at its exact distance from the seeds, in nondecreasing distance |
| CrawlOrder.NothingIsMissed | packages/scraper/src/crawler.ts:112-194 | a crawl that is not cut short visits every URL within the depth limit |
| CrawlOrder.CapCutsTail | packages/scraper/src/crawler.ts:112 | with a smaller cap the visits are a prefix of the same sequence |
| CrawlOrder.CrawlIsBreadthFirst | packages/scraper/src/crawler.ts:112-194 | all three together, from the seeds |
| CrawlOrder.LinksIff | packages/scraper/src/crawler.ts:39-45 | a page leads to exactly the normalized links to its own host, if it may be and can be fetched; distances are lengths of chains of these |
| CrawlOrder.LinksAreFollowed | packages/scraper/src/crawler.ts:158-181 | in a crawl the cap does not cut, every link to its own host on a page fetched above the depth limit is a page |
| CrawlOrder.CrawlStaysOnHosts | packages/scraper/src/crawler.ts:39-45 | if normalizing keeps the host, every page is on the host of some seed |
| RateLimit.MemoryStore.Check | apps/control-plane/src/ratelimit.ts:35-64 | pruning, counting and answer of the in-memory store, column by column |
| RateLimit.MemoryStore.Prune | apps/control-plane/src/ratelimit.ts:40 | the loop deletes exactly the buckets older than ten minutes |
| RateLimit.PostgresStore.Check | apps/control-plane/src/ratelimit.ts:78-112 | the row the UPSERT leaves and the answer read from it, column by column |
| RateLimitEquivalence.BucketIdInjective | apps/control-plane/src/ratelimit.ts:37 | the joined bucket id separates what the table key separates |
| RateLimitEquivalence.EquivalentIff | apps/control-plane/src/ratelimit.ts:25-113 | both stores answer every timely request sequence alike exactly when limits are at least 1 and the window is at most 600001 ms |
| RateLimitEquivalence.AtMostTwiceTheLimit | apps/control-plane/src/ratelimit.ts:78-112 | a row admits at most twice its limit in any interval as long as the window |
| RateLimitEquivalence.RunsAdmitAtMostTwice | apps/control-plane/src/ratelimit.ts:78-112 | the same for one caller over whole runs of all callers |
| RateLimitEquivalence.WindowAdmitsLimit | apps/control-plane/src/ratelimit.ts:78-112 | from the request that opens a window on, exactly the first requests to the row up to its limit are admitted until the window is over, whatever is requested in between, with the numbers left and the time to wait |
| RateLimitEquivalence.WaitingHelps | apps/control-plane/src/ratelimit.ts:102-110 | a rejected caller that stays silent for the announced time is admitted exactly when its limit admits anyone |
| RateLimitEquivalence.MemoryAdmitsAtMostTwice | apps/control-plane/src/ratelimit.ts:35-64 | wherever the stores are equivalent the in-memory store admits a caller at most twice its limit in any such interval |
| RateLimitEquivalence.WaitingHelpsInMemory | apps/control-plane/src/ratelimit.ts:54-62 | and admits a rejected caller after the announced wait |
| Approvals.ApprovalService.Request | packages/security/src/approvals.ts:37-67 | inserts a pending row with the given columns and the expiry computed from the ttl, one hour by default |
| Approvals.ApprovalService.DecideRequest | packages/security/src/approvals.ts:69-108 | decided exactly when the request is pending, not overdue and of the approver's organisation; approved or rejected as asked, with approver and time; otherwise refused for the first reason, an overdue request turned expired and nothing else changed |
| Approvals.ApprovalService.AssertApproved | packages/security/src/approvals.ts:116-158 | refuses for lack of an approved row exactly when there is none; otherwise judges a newest one, and consumes exactly the row it grants |
| Approvals.GrantedIffLiveIff | packages/security/src/approvals.ts:110-139 | a grant implies a live approved row, and a live row implies a grant for exactly the tables in which no newest approved row is consumed or expired while another is live |
| Approvals.HiddenLiveExample | packages/security/src/approvals.ts:110-139 | a table with a live approved row for which the call reports it consumed |
| Approvals.ApprovalService.Sweep | apps/control-plane/src/sweeper.ts:10-67 | exactly the overdue pending rows and the overdue approved rows that nobody used expire, with the columns each sets, and the count is that of the rows changed |
| Approvals.ApprovalService.ExpirePending | apps/control-plane/src/sweeper.ts:17-37 | the first loop |
| Approvals.ApprovalService.ExpireApproved | apps/control-plane/src/sweeper.ts:45-65 | the second loop |
| ApprovalProtocol.InvStep | packages/security/src/approvals.ts:116-158 | every read, update, decision and sweep step keeps the invariant |
| ApprovalProtocol.ApprovalsAreSingleUse | packages/security/src/approvals.ts:110-147 | over all interleavings a row authorises at most one caller, consumed_at is written at most once, and no success rests on a row expired when read |
| ApprovalProtocol.SuccessWasDecided | packages/security/src/approvals.ts:69-93 | over all interleavings every success follows a decision in favour of that very row by somebody of its organisation |
| ApprovalProtocol.FinalDecisionsStay | apps/control-plane/src/sweeper.ts:10-67 | over all interleavings a rejected or expired request stays so |
| ApprovalProtocol.ConsumeDecides | packages/security/src/approvals.ts:141-147 | the update of a caller succeeds, and uses the row, exactly when nobody has used it since |
| ApprovalProtocol.HiddenForGood | packages/security/src/approvals.ts:116-139 | over every interleaving, an approved row behind a consumed newer one for the same key is never read by a caller again |
| ApprovalProtocol.SuccessesNeedDecisions | packages/security/src/approvals.ts:116-158 | successes for an organisation, action and resource never exceed its approve decisions |
| Breaker.CircuitBreaker.Acquire | packages/models/src/breaker.ts:33-38 | admits unless open, turning half open once the cooldown is over |
| Breaker.CircuitBreaker.CurrentState | packages/models/src/breaker.ts:26-31 | the getter and the change it makes |
| Breaker.CircuitBreaker.OnSuccess | packages/models/src/breaker.ts:40-43 | closes and forgets failures |
| Breaker.CircuitBreaker.OnFailure | packages/models/src/breaker.ts:45-52 | trips from half open or at the threshold, else counts |
| Breaker.RefusesIffCoolingDown | packages/models/src/breaker.ts:26-58 | for every threshold and cooldown, after any serial history a call is refused exactly when the last outcomes are failures, at least as many as the threshold, and the last is less than the cooldown ago |
| RouterModel.SelectedIsTheStableSort | packages/models/src/router.ts:105-131 | the candidate list is the one stable sort by price of the healthy models that match tier and capabilities |
| RouterModel.SelectedMeans | packages/models/src/router.ts:106-131 | it holds exactly the models of providers not known to be unhealthy that have the wanted tier and every required capability, the cheapest first where the policy prefers that and else the dearest |
| ModelRouter.ModelRouter.Select | packages/models/src/router.ts:106-131 | the loops yield that list |
| ModelRouter.ModelRouter.TryCandidate | packages/models/src/router.ts:196-245 | the retry loop makes exactly the attempts of the specification |
| ModelRouter.ModelRouter.ServeCandidate | packages/models/src/router.ts:184-248 | one candidate: refused, answered with spend and breaker closed, or given up with the failure counted |
| ModelRouter.ModelRouter.Complete | packages/models/src/router.ts:133-266 | outcome, breakers, calls and spend equal the specification for every provider behaviour and clock |
| RouterTheorems.AnswersFromFirst | packages/models/src/router.ts:184-248 | a candidate answers at an attempt exactly when its breaker admits it, earlier attempts failed in a retryable way, and every earlier candidate was refused or never answered |
| RouterModel.KeysSeparate | packages/models/src/router.ts:185 | there is one breaker for each model of each provider, provided provider ids hold no colon |
| RouterTheorems.AnswersFromInitialBreakers | packages/models/src/router.ts:185-189 | with one breaker per candidate these are the breakers as they stood before the request |
| RouterTheorems.CompleteAnswersAndSpends | packages/models/src/router.ts:133-266 | success records its cost once and nothing else records any; fallbackCount is the position of the answering model, all before it passed over; total failure passed over all |
| RouterTheorems.CandidatesMean | packages/models/src/router.ts:144-182 | the candidates asked are those of the first `maxFallbacks + 1` whose window holds the request |
| RouterTheorems.RefusalsMean | packages/models/src/router.ts:139-182 | which requests are refused for lack of a model, by the budget, or because no window is large enough |
| RouterTheorems.AnswerMeans | packages/models/src/router.ts:203-228 | the cost is that of the reply at the price of the model that answered, and the reason names the downgrade, or else the number of fallbacks, if any |
| RouterTheorems.CostMeans | packages/models/src/router.ts:203 | prices are per thousand tokens, in and out apart |
| RouterTheorems.ServingIsOneUse | packages/models/src/router.ts:184-248 | a request uses a breaker as the breaker theorem assumes |
| RouterTheorems.RefusedIffCoolingDown | packages/models/src/router.ts:184-194 | after any history of requests and the earlier candidates of the next one, a candidate is refused exactly while its own outcomes are cooling down |
| RouterTheorems.TrippedModelsAreLeftAlone | packages/models/src/breaker.ts:26-58 | in every sequential history no call is made to a model within the cooldown after its breaker tripped |
| Reviewer.ReviewDiff | packages/delivery/src/reviewer.ts:28-83 | findings and verdict equal the specification, for every limit on files and lines |
| Reviewer.VerdictIff | packages/delivery/src/reviewer.ts:77-80 | blocked exactly when empty or some file leaks a secret or has an unsafe path; approved exactly when within the limits with no such file and no debug logging |
| Reviewer.DangerousMeans | packages/delivery/src/reviewer.ts:15-20 | a leak or an unsafe path, in the characters of file and path |
| Reviewer.LoggingMeans | packages/delivery/src/reviewer.ts:53-59 | debug logging in sources and unresolved markers, in the characters of file and path |
| Reviewer.LinesAreNewlines | packages/delivery/src/reviewer.ts:46 | a text has one line more than it has newlines |
| Reviewer.MergeAdvisories | packages/delivery/src/reviewer.ts:91-110 | keeps base findings and adds each advisory of a new key that is no blocker |
| Reviewer.ExtendedKeeps | packages/delivery/src/reviewer.ts:95-103 | base findings come first, only non-blocking advisories follow, and every key offered is present |
| Reviewer.AddedAreNew | packages/delivery/src/reviewer.ts:95-103 | no finding is added whose rule and message were there before |
| Reviewer.OfferedAreThere | packages/delivery/src/reviewer.ts:95-103 | and those of every advisory that is no blocker are there afterwards |
| Reviewer.AdvisoriesOnlyWorsen | packages/delivery/src/reviewer.ts:85-90 | a verdict never improves, never becomes a block, and approval still means no blocker and no major finding |
| DeliveryPipeline.DeliveryPipeline.Run | packages/delivery/src/pipeline.ts:75-314 | outcome, main branch, files and attempts equal the specification for every behaviour of the outside world |
| DeliveryPipeline.DeliveryPipeline.HealLoop | packages/delivery/src/pipeline.ts:131-184 | the test and repair loop |
| DeliveryPipeline.DeliveryPipeline.PassGates | packages/delivery/src/pipeline.ts:186-231 | contract, benchmark and review in order |
| DeliveryPipeline.DeliveryPipeline.LandChange | packages/delivery/src/pipeline.ts:233-300 | converge, or commit, merge, verify and revert |
| DeliverySafety.HealsIff | packages/delivery/src/pipeline.ts:131-184 | the loop lets go exactly when the tests pass within 1 + maxRepairs attempts, and with the files that passed |
| DeliverySafety.GatesOnRuns | packages/delivery/src/runner.ts:36-46 | a run passes in the worktree exactly when it ends with exit code 0 and printed no failure; on main exactly when it printed that nothing failed, or printed no count and ended with 0 |
| DeliverySafety.HealStops | packages/delivery/src/pipeline.ts:131-184 | why the loop stopped, in what happened at its last attempt |
| DeliverySafety.PreparedMeans | packages/delivery/src/pipeline.ts:95-130 | what is tested first: generated code the scan does not object to, broken on request, written to a worktree |
| DeliverySafety.GatesSay | packages/delivery/src/pipeline.ts:186-231 | which gate stops a change: contract, then benchmark, then review |
| DeliverySafety.JudgedApproves | packages/delivery/src/pipeline.ts:208-231 | the review approves one to twelve files of at most 800 lines without secret, unsafe path or debug logging, unless an advice that counts is major |
| DeliverySafety.AttemptsAreBounded | packages/delivery/src/pipeline.ts:131-150 | tests run at most 1 + maxRepairs times before the gates |
| DeliverySafety.DeliversIff | packages/delivery/src/pipeline.ts:257-300 | success with a commit exactly when files passed tests and all gates, were merged, and main shows no failure; main is then that commit |
| DeliverySafety.ConvergesIff | packages/delivery/src/pipeline.ts:241-256 | success without a commit exactly when such files equal main and main is green; main stays |
| DeliverySafety.FailureRestoresMain | packages/delivery/src/pipeline.ts:272-304 | a failed delivery leaves main at its base unless a call after the merge raised or the reset failed, and then at the new commit |
| DeliverySafety.TestedIff | packages/delivery/src/pipeline.ts:132 | no success goes untested exactly when the repair budget is not negative |
| DeliverySafety.ScannedIff | packages/delivery/src/pipeline.ts:107-125 | what is delivered always passed the static scan exactly when no fault is injected and no repair allowed |
| DeliverySafety.MainPassesIff | packages/delivery/src/pipeline.ts:266-272 | whatever is delivered, the tests pass on the main branch it leaves exactly when no run on main can report no failure and yet not pass |
| DeliverySafety.KilledRunOnMainPasses | packages/delivery/src/pipeline.ts:266-272 | such a run: killed after printing that nothing failed |
| McpFraming.LineReader.OnData | apps/mcp-server/src/index.ts:223-239 | one chunk: the buffer becomes the unterminated rest, and each complete non-blank line is handled or reported, in order |
| McpFraming.ReadAll | apps/mcp-server/src/index.ts:221-240 | many chunks, one call each |
| McpFraming.SegmentsIff | apps/mcp-server/src/index.ts:226-228 | terminated segments and rest are the one way to cut the input at newlines |
| McpFraming.TrimOnlyDropsSpace | apps/mcp-server/src/index.ts:227 | trimming removes white space at the ends and nothing else |
| McpFraming.BlankIff | apps/mcp-server/src/index.ts:229 | a line is dropped exactly when it is all white space |
| McpFraming.EventMeans | apps/mcp-server/src/index.ts:227-238 | any other segment leads to one event with its trimmed text, handled when it parses and else reported |
| McpFraming.EventsFollowSegments | apps/mcp-server/src/index.ts:225-239 | in the order of the segments |
| McpFraming.SpacesAre | apps/mcp-server/src/index.ts:227 | the twenty-five white-space characters |
| McpFraming.FramingIgnoresChunks | apps/mcp-server/src/index.ts:221-240 | however the input is cut into chunks, lines and rest are those of the whole input |

## Left out

- SQL engines, the database worker bridge, migrations, `updated_at` columns and the encryption of workflow state: tables are maps or sequences, and a row is stored as it is.
- HTTP routes, sessions, roles, the dashboard, metrics and configuration: plumbing and finite tables.
- Timers, politeness delays and sleeping between retries: time is an integer that callers pass in.
- `issueQualityReceipt` in `tasks.ts`, `stats` and `deadLetters` in `jobs.ts`, `list` in `audit.ts`: single reads or writes.
- SHA-256 is a function to lower-case hex digests of 64 characters; collisions are excluded only among the texts two logs hash.
- JSON numbers are their texts, and lone surrogates are not part of the strings: how the platform prints a number is not modelled.
- Audit events written by approvals and the sweeper: the audit log is modelled on its own.
- Log lines, stage events and latencies of the router and the pipeline, and the cleanup of worktrees.
- WorkGraphExecute.Execute: a handler reads the shared context once, at any moment, and writes to it only by its output; conditions do not throw.
- WorkGraphExecute.ExecuteLevel: handlers raise only after their first suspension, as async functions do; one that throws at once, at `workgraph.ts:119`, would join the blocked set before later siblings of its level start.
- WorkflowEngine.WorkflowEngine.Start: the initial state brings data only and overrides none of the engine's own keys.
- WorkflowEngine.WorkflowEngine.AdvanceRun: stage and branch names are pairwise distinct and stages after the first are named, handlers are functions of what they are handed and their outputs touch none of the engine's keys, the order of keys inside an object is not observed, and calls on one run are serial.
- WorkflowEngine.WorkflowEngine.PauseForApproval: takes the run to be running, since the code has no guard of its own.
- JobQueue.JobQueue.ProcessOne: the worker that dead-letters its own job is taken to return normally afterwards, as `delivery-worker.ts:45-62` does.
- JobProgress.SerialRunsEnd: for one worker; `JobWork` has the statements for any number. Without reclaims or requeues, which start attempts anew.
- TaskProtocol.HistoriesAreTraces: assignment is modelled here and not as a method of the class.
- Crawler.RunCrawl: seeds are URLs (the code rejects the whole job otherwise), normalization is idempotent, and fetching, robots rules and extraction depend on the URL alone; redaction is not modelled.
- Approvals.ApprovalService.DecideRequest: one step, as are a caller's clock reading and its read; two concurrent decisions on one row are not interleaved.
- RateLimitEquivalence.EquivalentIff: whole milliseconds, a clock that does not run backwards or below zero, and key hashes without the separator.
- ModelRouter.ModelRouter.Complete: callbacks do not throw, requests run one after the other, prices are exact, and the budget's verdict is an input.
- DeliveryPipeline.DeliveryPipeline.Run: nobody else moves main meanwhile, the progress callback does not throw, and generator, repair, scan, contract check and benchmark are functions of the files.
- McpFraming.LineReader.OnData: the decoding of bytes to characters and what a handler does with a line.
