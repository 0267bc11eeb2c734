# Verification model of the learning platform's core

This project models the parts of the platform whose correctness is not visible from any single
function, and proves what they promise. Every value, state and step is written in Dafny; nothing here
calls or needs the original program.

| part | modules | what it covers |
|---|---|---|
| prerequisite graph | Graphs, Kahn, GraphMeasures, Containment, Provenance, Diagnostics | ordering, cycle reports, depths, descendants, containment, closure of confirmed prerequisites, budgeted selection |
| job queue | JobPolicy, JobEvents, JobKeys, JobQueue, JobRuns, JobLeases, JobRetries, JobRepository, JobStream | leases and fencing, retries, the durable event log, the event stream |
| mastery | MasteryModel, MasteryEngine, MasteryCredit, MasteryLaws, MasteryHistory, MasteryCounters, MasteryAudit, MasteryReplay, MasteryReplayRun | the Beta posterior, blame, forgetting, replay, the lazy read |
| extraction and drafts | Extraction, Structure, StructureTraceability, StructureParents, DraftModel, DraftRoundTrip, DraftHierarchy, DraftRecheck, Drafts | the heading scan and its validator, draft assembly and its re-check |
| model access | Admission, AdmissionMonitor, Circuit, CircuitCounts, CircuitCalls | priority admission, the circuit breaker, the retry loop |

`Support` holds optional values, results, sorting and counting. Operations that the program performs by
updating objects are methods of classes (`JobRepository.Repository` and `Job`,
`AdmissionMonitor.PriorityAdmission`, `CircuitCalls.CircuitBreaker`); loops are methods with loops, comprehensions are functions. Each method is
proved equal to a function or a relation on values, and the theorems are proved about those.

`dafny verify dfyconfig.toml` checks the whole project.

## How the parts are modelled

- Identifiers are natural numbers whose order is the order of their string form. Ids derived from a name
  (structure nodes, draft elements) are data constructors of what they are derived from, so they are equal
  exactly when that is.
- A database transaction is one step. What its query answers is a parameter that must satisfy the query:
  rows locked by others are a set of skipped ids, and the answer is the best of the rest. Every reading of
  the database clock is a separate parameter, later readings not smaller.
- Between two steps any other transaction, task or waiter may act. Runs are sequences of such steps; the
  claims ever issued, the permits ever handed out and the event logs are part of the state.
- Scores and weights are exact reals. The retention factor is any function of half-life and days that is 1
  at zero days, lies in (0, 1] and turns sums of days into products (`MasteryModel.Lawful`).

## Where the code and an expectation part

- An open circuit can grant a permit before its window ends, after a late probe success:
  `Circuit.OpenUntilEscape` gives the exact condition, `Circuit.LateProbeEndsWindow` a run.
- A circuit can open below its failure threshold: the failure of a probe that was still out when the circuit
  closed opens it at once (`CircuitCounts.LateProbeOpensAtOnce`, `CircuitCounts.OpensAtThreshold`).
- Half-open probe capacity bounds the counter, not the probes in flight. A window that opens again forgets
  the probes of earlier windows that are still out (`Circuit.ReopeningAdmitsSecondProbe`), and cancelling one
  of them then frees a slot of the current window (`Circuit.StaleCancelAdmitsSecondProbe`). The counter is
  exact if and only if no window opens over such a probe (`Circuit.CapacityBoundsProbes`); the grants that
  exceed capacity are those of `Circuit.OverCapacityIffOverfills`.
- A start wakes nobody, so the next waiter can sleep although its lane has room
  (`Admission.SilentStartStrands`); `Admission.StrandedIffStartsOverSleeper` says exactly when. It never lasts
  beyond the next release (`Admission.NeverWedged`).
- A worker that has lost its job is still told that a report succeeded when the report's key is in use
  (`JobRuns.StaleIsInert`).
- The heading scan can produce a section under a section, which the validator refuses
  (`StructureTraceability.TraceableIffNoClash`, `StructureTraceability.SectionUnderSection`).
- A concept known from a self-report alone never fades in replay but fades when its stored revision is read
  (`MasteryReplay.LazyReadAgreesIff`, `MasteryReplay.SelfReportAloneDiffers`).
- A draft can be assembled exactly when, besides acceptable outputs, no section title is blank: the
  extraction validator allows such a title, the draft validator does not (`DraftHierarchy.AssemblyValid`,
  `DraftHierarchy.BlankTitleIsTraceable`).

## Model

| member | source | states |
|---|---|---|
| Kahn.OrderNodes | packages/curriculum/graph.py:101-126 | The algorithm returns if and only if the edges are acyclic. The order it returns is the lexicographically least topological order of all nodes. The nodes it reports otherwise are, in ascending order, exactly those on a cycle or reachable from one. |
| Kahn.TopologicalOrder | packages/curriculum/graph.py:49-65 | Self-loops on any edge, even a rejected one, are refused first; after that the outcome depends on the selected prerequisite edges alone: the least topological order, or in ascending order the nodes on or behind a cycle. |
| Kahn.ValidateDag | packages/curriculum/graph.py:129-139 | Accepts exactly the graphs without a self-loop whose selected prerequisite edges are acyclic. |
| Kahn.Drain | packages/curriculum/graph.py:112-122 | The heap loop: what it leaves unordered is what it reports (indegree above zero), and the order is greedy, each node the least of those whose predecessors are all placed. |
| Kahn.Discount | packages/curriculum/graph.py:118-121 | Lowering the indegrees of the children of a placed node keeps every indegree equal to the number of edges from unplaced nodes, and the heap equal to the unplaced nodes of indegree zero, parallel edges included. |
| Kahn.BuildAdjacency | packages/curriculum/graph.py:105-109 | The adjacency lists hold each child once for each edge. |
| Kahn.BuildIndegree | packages/curriculum/graph.py:106-109 | The indegree of a node is the number of edges into it. |
| Kahn.FinishedLeavesUnresolved | packages/curriculum/graph.py:124-125 | When the heap is empty, the nodes left over are exactly those on a cycle or reachable from one. |
| Kahn.UnresolvedEmptyIffAcyclic | packages/curriculum/graph.py:124-126 | There are such nodes if and only if there is a cycle. |
| Kahn.GreedyIsLeast | packages/curriculum/graph.py:112-122 | The greedy order is lexicographically no greater than any topological order. |
| Kahn.LeastTopologicalIsUnique | packages/curriculum/graph.py:112-126 | There is only one least topological order. |
| Kahn.OrderIgnoresSupply | packages/curriculum/graph.py:62-65 | The order depends on the sets of nodes and edges only, not on the sequence in which they are supplied. |
| Kahn.CandidateHidesNoCycle | packages/curriculum/graph.py:129-139 | If the candidate graph, proposed edges included, is acyclic, confirming any of its edges cannot produce a cycle in the executable graph. |
| Graphs.EdgeCounts | packages/curriculum/graph.py:49-62 | An edge counts as a prerequisite exactly when it is of that kind and confirmed, or proposed where candidates count too; a rejected edge or one of another kind changes nothing. |
| Graphs.LoopCounts | packages/curriculum/graph.py:95-98 | Any edge from a node to itself is a self-loop, whatever its kind and status. |
| GraphMeasures.TopologicalDepth | packages/curriculum/graph.py:152-166 | The depth of a node is the number of edges of the longest path that ends in it: a path of that length exists and none is longer. |
| GraphMeasures.LevelsAreLongestPaths | packages/curriculum/graph.py:158-166 | A level map that is raised by every edge and justified at every node is the map of longest paths. |
| GraphMeasures.Relax | packages/curriculum/graph.py:160-165 | Relaxing the edges out of a node keeps every settled edge climbing and every depth justified by a path. |
| GraphMeasures.UniqueDescendantCounts | packages/curriculum/graph.py:169-188 | The reverse-order set accumulation counts exactly the nodes reachable along at least one edge. |
| GraphMeasures.Accumulate | packages/curriculum/graph.py:175-188 | Each accumulated set is the set of nodes reachable from its node. |
| GraphMeasures.Search | packages/curriculum/graph.py:200-208 | The worklist search finds exactly the nodes reachable along at least one edge. |
| GraphMeasures.Descendants | packages/curriculum/graph.py:191-211 | The descendants are those nodes, each once, never the node itself, as many as the accumulated count says; an unknown node or a cycle is refused. |
| Containment.ValidateForest | packages/domain/graph.py:248-260 | The containment loop with its shared visited set accepts exactly the containments without a cycle. |
| Containment.WalkUp | packages/domain/graph.py:250-259 | One upward walk refuses only if it has closed a cycle, and otherwise everything it adds to the visited set is free of cycles all the way up. |
| Provenance.ConfirmedProvenance | packages/curriculum/diagnostics.py:93-122 | The keys are exactly the strict confirmed ancestors of the targets, and each maps to exactly the confirmed edges out of it that end in a target or in a strict ancestor of one, in ascending order; it ends on cyclic input too. |
| Provenance.CloseTarget | packages/curriculum/diagnostics.py:107-118 | The worklist for one target adds exactly the edges that prove an ancestor of that target. |
| Provenance.BuildReverse | packages/curriculum/diagnostics.py:99-105 | The reverse index lists exactly the confirmed prerequisite edges into each node. |
| Provenance.AncestorIffProved | packages/curriculum/diagnostics.py:93-122 | A node is a strict ancestor of a target if and only if some edge proves it. |
| Provenance.ConfirmedAreSelected | packages/curriculum/diagnostics.py:99-105 | The edges that can prove an ancestor are those the executable graph is ordered by. |
| Diagnostics.ListedMeans | packages/curriculum/diagnostics.py:39-61 | Who is a candidate, by the data alone: a standing that is not assessed, not excluded, and a question not yet attempted; with exactly those questions in ascending order, and its own count, rank and confidence. |
| Diagnostics.SelectCandidates | packages/curriculum/diagnostics.py:18-81 | With no budget nothing is selected and no graph error is raised. Otherwise a cycle or self-loop is refused, and the selection is what the budget takes of the ranking: one entry for each eligible concept, best score first, then topological rank, then id. |
| Diagnostics.ListCandidates | packages/curriculum/diagnostics.py:39-61 | There is one candidate for each concept that is known, not assessed, not excluded and has an unattempted question, with its questions in ascending order. |
| Diagnostics.Spend | packages/curriculum/diagnostics.py:63-81 | The budget loop takes exactly what Take describes. |
| Diagnostics.SpendsExactly | packages/curriculum/diagnostics.py:64-81 | The questions selected are exactly as many as the budget, or all that the candidates offer at two each, whichever is less. |
| Diagnostics.TakesPrefix | packages/curriculum/diagnostics.py:66-81 | The selection is a prefix of the ranking; every selected concept gets its first one or two questions, and only the last may get fewer than it could. |
| Diagnostics.BestFirst | packages/curriculum/diagnostics.py:63-81 | Whatever is left out is worth no more than anything selected, worth being one more than the descendants times the lack of confidence, with ties broken by rank and then id; and it is left out only when the budget is spent. |
| JobPolicy.RetryDelay | packages/domain/jobs.py:183-194 | Refuses exactly the invalid policies; the doubling loop with its early exit equals the minimum of the maximum and base times two to the power of attempts minus one. |
| JobPolicy.BackoffBounds | packages/domain/jobs.py:183-194 | The delay lies between base and maximum and never falls from one attempt to the next. |
| JobPolicy.BackoffDoubles | packages/domain/jobs.py:183-194 | The first delay is the base, each further one twice the one before up to the maximum. |
| JobPolicy.TransitionTable | packages/domain/jobs.py:160-176 | The lifecycle as a table: what may follow each status. |
| JobEvents.AppendedReads | packages/persistence/job_events.py:57-78 | What one append does to everything read off the log: the folded status, the counts, the numbering and the keys in use. |
| JobEvents.AppendedUnique | packages/persistence/job_events.py:57-78 | The keys of a job stay unique if and only if the appended key is new. |
| JobEvents.EventsAfterIsSlice | packages/persistence/job_events.py:90-100 | On a numbered log the replay read is the slice that starts right after the cursor, cut at the limit. |
| JobKeys.RenderInjective | apps/worker/handlers.py:62-89 | Keys render to the same string only if they are equal: repository keys and worker keys of any attempt, stage, percentage or result kind never collide. |
| JobKeys.JoinInjective | apps/worker/handlers.py:62-89 | Segments without a colon can be read back from the joined string. |
| JobKeys.StageForm | apps/worker/handlers.py:62-71 | The key of a stage start, as it is written. |
| JobKeys.ProgressForm | apps/worker/handlers.py:73-82 | The key of a progress report, as it is written. |
| JobKeys.PartialForm | apps/worker/handlers.py:84-89 | The key of a partial result, as it is written. |
| JobKeys.RepositoryForms | packages/persistence/jobs.py:84-87 | The keys of creation, cancellation and start, as they are written. |
| JobKeys.ClosingForms | packages/persistence/jobs.py:135-279 | The keys that close an attempt, as they are written. |
| JobKeys.DecimalReadsBack | apps/worker/handlers.py:70-88 | The digits of a number in a key read back as that number. |
| JobQueue.AppendAgrees | packages/persistence/job_events.py:57-78 | A log with one more event agrees with a row that has just been updated if and only if the log was sound, the key is new and allowed, and the event folds to the row's status and fits the counts. |
| JobQueue.NewRecordInv | packages/persistence/job_creation.py:81-106 | A new job with at least one attempt satisfies the row and log invariant. |
| JobQueue.ClaimedInv | packages/persistence/jobs.py:67-93 | A claim keeps the row and log invariant, with the next attempt number and a fresh key. |
| JobQueue.FinishedInv | packages/persistence/jobs.py:108-170 | Finishing by the owner, in every outcome, keeps the invariant; the terminal event is the only one. |
| JobQueue.CancelledInv | packages/persistence/jobs.py:178-201 | Cancelling in any cancellable status keeps the invariant. |
| JobQueue.ReportedInv | packages/persistence/jobs.py:203-231 | A progress report by the owner keeps the invariant. |
| JobQueue.ReapedInv | packages/persistence/jobs.py:233-280 | Recovering a lapsed row keeps the invariant, through its two events when attempts remain and its one when they do not. |
| JobRuns.ApplyIsEffect | packages/persistence/jobs.py:67-280 | Each transaction touches rows independently of one another, and only an enqueue adds a row. |
| JobRuns.RunKeepsInv | packages/persistence/jobs.py:67-280 | The invariant of rows, logs and issued claims holds after any number of interleaved transactions and clock ticks, with reports under any keys that are not the repository's own. |
| JobRuns.RunEvolves | packages/persistence/jobs.py:67-280 | Along any run the clock, the issued claims and every log only grow, and a finished job never changes again. |
| JobRuns.AtMostOneOwner | packages/persistence/jobs.py:48-55 | At any instant at most one of all claims ever issued passes the ownership test for a job. |
| JobRuns.LiveLeaseHasOwner | packages/persistence/jobs.py:48-55 | While a running row has a live lease, one issued claim does pass it. |
| JobRuns.StaleForever | packages/persistence/jobs.py:48-55 | A claim that has lost its job never passes the ownership test again, whatever happens later. |
| JobRuns.StaleIsInert | packages/persistence/jobs.py:95-231 | So every later heartbeat, finish or report of such a claim leaves the whole table unchanged. A heartbeat or a finish is refused; a report is answered yes if and only if its key is already in use, since the code looks for the key before it tests ownership. |
| JobRuns.OneTerminalOutcome | packages/persistence/jobs.py:108-170 | A finished job has exactly one terminal event and keeps its row and its log for ever; an unfinished one has none. |
| JobRuns.LogRefinesRow | packages/persistence/job_events.py:57-78 | In every reachable world the sequences are 1 to the latest, no key occurs twice, folding the log gives the row's status and attempt count, attempts equal the STARTED events and never exceed the maximum, and a row has an owner and a lease exactly when it runs. |
| JobRuns.StatusChangeLowersRank | packages/domain/jobs.py:160-181 | Every change of status lowers a measure bounded by twice the maximum number of attempts plus one. |
| JobRuns.UnfinishedIsServed | packages/persistence/jobs.py:31-45 | An unfinished job that is due can be claimed by a worker of its lane or reaped. |
| JobRuns.QueueNeverStalls | packages/persistence/jobs.py:31-45 | So while such a job exists, some claim or some reap finds work and lowers the measure of some job. |
| JobLeases.ClaimSecuresLease | packages/persistence/jobs.py:67-93 | A claim that found a job issues a new token for the worker and the lease asked for; the row's lease ends when the token says, and the token passes the ownership test at every instant before that and at none after. |
| JobLeases.LeaseStep | packages/persistence/jobs.py:48-106 | Before a lease ends, the only steps that take the job from its claim are a cancellation of the job and a finish by that claim, and both do; a heartbeat by the claim moves the end to its own clock plus the lease it asks for; nothing else moves it. |
| JobLeases.KeepsLease | packages/persistence/jobs.py:48-106 | So along any run a claim owns its job until its lease ends, as far as its heartbeats have moved that, unless the job is cancelled or the claim finishes it. |
| JobLeases.ClaimHolds | packages/persistence/jobs.py:67-106 | The same from the claim on: the token it issues holds the job through any undisturbed run. |
| JobLeases.OwnerIsIssued | packages/persistence/jobs.py:48-55 | Any token that passes the ownership test carries the worker and the attempt of one issued for that job. |
| JobRetries.FinishWrites | packages/persistence/jobs.py:108-170 | A finish by the owner writes the outcome it was given, or a failure if that is a retry without attempts left; frees the row; keeps a result of a success or partial outcome only; dates a retry its backoff after the last clock reading; and logs the one event that says so. |
| JobRetries.ReapWrites | packages/persistence/jobs.py:233-280 | The reaper returns a lapsed row to waiting exactly while attempts remain, for the backoff of that attempt, and fails it otherwise, with the events and the code that say the lease ran out. |
| JobRetries.CancelWrites | packages/persistence/jobs.py:178-201 | A cancellation frees and ends any job not yet finished, and leaves a finished one alone. |
| JobRetries.ClaimTakesFirst | packages/persistence/jobs.py:31-45 | A claim takes a due job of its lanes with attempts left, none of which that is free has a higher priority, or the same one and an earlier creation, or the same of both and a smaller id; and starts its next attempt. |
| JobRetries.ReapTakesOldest | packages/persistence/jobs.py:240-245 | The reaper fills its batch with the leases that ran out first. |
| JobRetries.EnqueueWrites | packages/persistence/job_creation.py:81-106 | A new job is pending, due at once and as requested, with its creation as the only event. |
| JobRetries.ReportWrites | packages/persistence/jobs.py:203-231 | A report by the owner under a new key adds that event, numbered and under the running attempt, and changes nothing else but the progress shown. |
| JobRetries.HeartbeatWrites | packages/persistence/jobs.py:95-106 | A heartbeat by the owner moves its own time and the end of the lease, and nothing else. |
| JobRetries.StepsKeepToTheirJobs | packages/persistence/jobs.py:67-280 | A step leaves all jobs it is not about as they are, and changes the status of its own only as the lifecycle allows. |
| JobRetries.RetryWaits | packages/persistence/jobs.py:119-143 | A job that waits for a retry is not started by any run before its delay is over; until then it can only be cancelled. |
| JobRetries.ProgressIsLastReport | packages/persistence/job_events.py:67-71 | In every reachable world the progress shown on a row is the one its log reports last. |
| JobRetries.EventsCarryAttempt | packages/persistence/job_events.py:57-78 | In every reachable world each event carries the number of attempts started when it was written. |
| JobRepository.Repository.Enqueue | packages/persistence/job_creation.py:42-106 | Adds a new pending job with its first event; a repeated request gets the stored job and changes nothing; another lane, priority or limit under the same id is a conflict, and a limit below one is refused. |
| JobRepository.Repository.Claim | packages/persistence/jobs.py:67-93 | Overwrites exactly the row the query found, in the way the claim transaction says, and returns the token it issued, which owns the job at exactly the instants before now plus the lease. |
| JobRepository.Repository.Heartbeat | packages/persistence/jobs.py:95-106 | Renews the lease if the ownership test passes and returns whether it did; then the claim owns the job exactly until now plus the lease. Otherwise nothing changes. |
| JobRepository.Repository.Finish | packages/persistence/jobs.py:108-170 | Writes the outcome, the release, the retry time and the event if the ownership test still passes, and returns whether it did; otherwise nothing changes. A retry without attempts left becomes a failure. |
| JobRepository.Repository.Fail | packages/persistence/jobs.py:172-176 | Leaves the job retrying exactly if the failure is retryable and attempts are left, failed otherwise, with the code given and nobody holding it. |
| JobRepository.Repository.Cancel | packages/persistence/jobs.py:178-201 | Cancels exactly the cancellable rows. |
| JobRepository.Repository.ReportProgress | packages/persistence/jobs.py:203-231 | Answers yes without writing when the key exists, appends once if the caller owns the job, and otherwise answers no. |
| JobRepository.Repository.Reap | packages/persistence/jobs.py:233-280 | Recovers every row of the batch, each once, and no other. |
| JobRepository.Job.AppendEvent | packages/persistence/job_events.py:57-78 | Takes the next number, moves the progress fields for stage events, and appends one event. |
| JobRepository.Job.Recover | packages/persistence/jobs.py:246-279 | The row and event changes of one recovery, in both branches. |
| JobStream.Cursor | apps/api/jobs.py:45-59 | Refuses what is not a non-negative number; a cursor within the log is taken as it is, one beyond it is clamped to its end. |
| JobStream.RunGivesHistory | apps/api/jobs.py:85-109 | Reads made at successive points of any queue run see ever later states of the job. |
| JobStream.Stream | apps/api/jobs.py:85-109 | The stream yields the events right after the accepted cursor, in order, without gap or repeat, whatever commits in between; when it ends because the job is over it has yielded the whole log. It stops before that only when a check finds the client gone or the reads observed run out; while the client stays, all that a read has seen is sent within as many further reads as there were events, and once a read finds the job over the stream ends so. |
| JobStream.SendPage | apps/api/jobs.py:91-96 | Within a page too, a lost connection leaves a prefix without gap or repeat. |
| JobStream.ResumptionContinues | apps/api/jobs.py:45-59 | A client that reconnects with the number of the last event it received continues without gap or repeat, whatever was appended in between (Last-Event-ID, section 9.2.4 of the WHATWG HTML Living Standard). |
| JobStream.NothingFollows | apps/api/jobs.py:100-103 | After such an end no event of the job ever follows. |
| MasteryModel.WeightsPositive | packages/mastery/weights.py:54-70 | Both weights of valid evidence are positive, and hints never raise the weight of a correct answer. |
| MasteryLaws.PlainWeight | packages/mastery/weights.py:26-41 | An answer of middle difficulty without hints and with full confidence in its tags weighs the same right as wrong: the rubric grader's confidence, or the weight of its question type, which for multiple choice is corrected for guessing. |
| MasteryLaws.DifficultyWeights | packages/mastery/weights.py:6-23 | An easy question credits three tenths less and blames three tenths more than a middle one, a hard question the other way round. |
| MasteryLaws.HintWeights | packages/mastery/weights.py:44-51 | The first hint halves the credit, the second halves it again, more cost nothing; hints never change the blame. |
| MasteryLaws.TagWeights | packages/mastery/weights.py:54-70 | Both weights are proportional to the confidence in the tags, taken as at least a half and at most one. |
| MasteryLaws.StatusByWeights | packages/mastery/engine.py:50-72 | The status in terms of alpha and beta without a division: unassessed below three in all, weak where beta leads with 26/7 in all, proficient with alpha at three times beta and six in all from three direct answers to two questions, mastered with a passed review besides. |
| MasteryLaws.MetricsMean | packages/mastery/engine.py:34-47 | The metrics are the evidence over the prior, alpha's part of both weights, and that evidence against four more. |
| MasteryLaws.HalfLifeLadder | packages/mastery/engine.py:86-89 | 21 days, three fifths more with each passed review, never above 180, and 180 from the fifth on. |
| MasteryLaws.HalvesAfterHalfLife | packages/mastery/engine.py:92-113 | Where the retention over a half-life is one half, what a state holds over the prior halves in that time and its counters stay. |
| MasteryLaws.ReviewPassedIff | packages/mastery/engine.py:210-217 | A review is passed exactly when it is direct and fully correct and there were earlier learning events of other items about the concept, none of them within the last day. |
| MasteryLaws.ReviewMovesRung | packages/mastery/engine.py:214-232 | A failed review takes the concept to the first rung, a passed one up to the fifth, and nothing else moves it. |
| MasteryLaws.SelfReportRemembered | packages/mastery/engine.py:267-287 | Replay marks exactly the concepts with a self-report. |
| MasteryLaws.SelfReportIsWeak | packages/mastery/engine.py:267-287 | A concept known from a self-report alone stands at two to one and is developing. |
| MasteryLaws.AppliedInOrder | packages/mastery/engine.py:373-376 | Items apply in the order of their times, and of their ids at one time. |
| MasteryLaws.EventForIsLeast | packages/mastery/engine.py:317-327 | The event of an item is the one with the least id among those that name its evidence or its attempt. |
| MasteryModel.LawsHaveAModel | packages/mastery/engine.py:92-113 | The laws assumed of the retention factor are consistent: no forgetting at all meets them. |
| MasteryModel.MasteryBounds | packages/mastery/engine.py:34-47 | From the prior upwards mastery lies strictly between 0 and 1 and confidence below 1. |
| MasteryModel.HalfLifeBounds | packages/mastery/engine.py:86-89 | The half-life lies between 21 and 180 days. |
| MasteryModel.DecayScales | packages/mastery/engine.py:92-113 | Decay multiplies what lies above the prior by one factor in (0, 1], and keeps a state above the prior. |
| MasteryModel.DecayComposes | packages/mastery/engine.py:92-113 | Forgetting in two stages is forgetting in one. |
| MasteryModel.ForgettingNeverPromotes | packages/mastery/engine.py:34-113 | Decay multiplies the effective sample size by exactly the factor, moves mastery towards one half without crossing it, never raises confidence, and leaves a state WEAK, PROFICIENT or MASTERED only if it had that status before. |
| MasteryEngine.ApplyEvidence | packages/mastery/engine.py:131-264 | Fails exactly when a tagged concept was last touched after the evidence; otherwise every tagged concept is decayed and gets its own credit and share of blame, every other concept keeps its state, and one contribution is recorded for each tag. Partly correct inferred evidence changes no state. |
| MasteryEngine.UpdateTag | packages/mastery/engine.py:205-264 | The new state and the contribution of one tagged concept. |
| MasteryEngine.AppliedAt | packages/mastery/engine.py:205-250 | Each tagged concept gets exactly its own new state; no other concept changes. |
| MasteryEngine.BlameIsConserved | packages/mastery/engine.py:165-203 | The blame shares of one item add up to exactly its negative mass, whichever branch splits it. |
| MasteryEngine.FallbackNeverTaken | packages/mastery/engine.py:182-191 | In states from the prior upwards the suspicion denominator is positive, so the fallback by role is never taken. |
| MasteryEngine.WeakerTakesMoreBlame | packages/mastery/engine.py:191-203 | Among concepts in the same role the more suspect takes at least as much blame. |
| MasteryEngine.AppliedAtLeastPrior | packages/mastery/engine.py:218-250 | Applying evidence keeps alpha and beta at 1 or more in every state. |
| MasteryCredit.RightAnswerCredits | packages/mastery/engine.py:165-198 | A fully correct answer raises alpha and mastery of every tagged concept over the decayed state, and leaves beta as it had decayed. |
| MasteryCredit.WrongAnswerBlames | packages/mastery/engine.py:165-198 | A wrong direct answer raises beta and lowers mastery of every tagged concept, and leaves alpha as it had decayed. |
| MasteryCredit.PartialCredit | packages/mastery/engine.py:165-174 | The rise of alpha is proportional to how much of a direct answer is right. |
| MasteryCredit.PartialBlame | packages/mastery/engine.py:170-198 | The rise of beta is proportional to how much of it is wrong. |
| MasteryCredit.BetterGradeIsBetter | packages/mastery/engine.py:165-198 | Of two grades for one answer the better one credits every tagged concept more and blames it less. |
| MasteryCredit.WholeCredit | packages/mastery/engine.py:165-169 | A fully right answer credits a primary concept with the whole frozen weight, a prerequisite with half of it. |
| MasteryCredit.WholeBlame | packages/mastery/engine.py:170-198 | A fully wrong one raises the betas of the tagged concepts by the other weight in all. |
| MasteryCredit.InferredCredit | packages/mastery/engine.py:165-174 | A right answer that is only inferred credits three tenths of what the same answer given directly would. |
| MasteryCredit.InferredPartialIsIgnored | packages/mastery/engine.py:147-163 | An inferred answer that is not fully right changes no state and is recorded unapplied, with zero for each concept. |
| MasteryCredit.ContributionsReport | packages/mastery/engine.py:218-263 | Any other answer is recorded as applied: for each tagged concept, in order, what its alpha and beta rose by. |
| MasteryCredit.BlameFollowsLack | packages/mastery/engine.py:175-198 | The rises of beta are in proportion to what each concept lacks of mastery, halved for a prerequisite. |
| MasteryCredit.LessMasteredIsBlamedMore | packages/mastery/engine.py:175-198 | Of two concepts in one role, the one with the lower decayed mastery takes at least as much blame, and strictly more if it is strictly lower and there is blame to take. |
| MasteryHistory.AuditItemChangesNothing | packages/mastery/engine.py:148-163 | Adding an inferred item that is not fully correct to a history changes no state. |
| MasteryHistory.PriorsApplyOnce | packages/mastery/engine.py:267-287 | Applying the same self-reports twice is applying them once. |
| MasteryHistory.StateShape | packages/mastery/engine.py:218-250 | In a replayed state: which concepts are present, when each was last touched, and that review successes and the qualifying flag are those of its applied items. |
| MasteryHistory.ReplayAtLeastPrior | packages/mastery/engine.py:350-392 | Every state of a replay has alpha and beta at 1 or more. |
| MasteryHistory.ReplayIsTimely | packages/mastery/engine.py:370-392 | In chronological order no state is ever decayed backwards. |
| MasteryCounters.CountersCount | packages/mastery/engine.py:205-250 | In a replayed state the direct count and the distinct questions are those of its direct items, the rung is the number of reviews passed since the last failed one, at most five, and the recorded review is the last one passed. |
| MasteryAudit.ProjectionIsAudited | packages/mastery/engine.py:92-113 | alpha - 1 and beta - 1 of any projection are the decay-weighted sums of the self-report and of the contributions recorded for the concept, where the self-report fades only from the first applied item on. |
| MasteryAudit.StateIsAudited | packages/mastery/engine.py:370-392 | The same for the state at the time it was last touched. |
| MasteryAudit.TakenOfItem | packages/mastery/engine.py:251-264 | One item records one applied contribution for each concept it touches and none for any other. |
| MasteryAudit.MassFades | packages/mastery/engine.py:92-113 | All that is left of the past fades by the one factor of the current half-life. |
| MasteryReplayRun.Replay | packages/mastery/engine.py:350-414 | The result, errors included, is a function of the sets of evidence, events and self-reports: order and repetition cannot matter. Two different items under one id, two self-reports for one concept, and a projection time before an applied item are refused, in that order. |
| MasteryReplayRun.Deduplicate | packages/mastery/engine.py:358-369 | Keeps one copy of each item; fails exactly when two different items share an id. |
| MasteryReplayRun.ApplyPriors | packages/mastery/engine.py:267-287 | Fails exactly when two self-reports are about one concept; otherwise each concept is credited once, in whatever order they come. |
| MasteryReplayRun.LatestEarlier | packages/mastery/engine.py:299-314 | The latest time of an event about the concept strictly before the item that is not the item's own event. |
| MasteryReplayRun.EventIdFor | packages/mastery/engine.py:317-327 | The least id among the events of the item's evidence or attempt. |
| MasteryReplayRun.ReplayItems | packages/mastery/engine.py:371-392 | The loop over the sorted items computes the states and contributions of the set of items. |
| MasteryReplayRun.ProjectAll | packages/mastery/engine.py:393-403 | One projection for each concept in ascending order, unless a state would be decayed backwards. |
| MasteryReplay.BackwardsIffAppliedLater | packages/mastery/engine.py:393-396 | Projection fails exactly when some applied item happened after the projection time; audit-only items never stand in the way. |
| MasteryReplay.AuditItemKeepsProjections | packages/mastery/engine.py:350-414 | Adding an inferred item that is not fully correct changes no projection and no refusal. |
| MasteryReplay.ReplayReports | packages/mastery/engine.py:393-414 | A replay reports one projection for each concept with a state, in ascending order, the numbers of items and self-reports, and the last item by time and then id. |
| MasteryReplay.ProjectionReports | packages/mastery/engine.py:393-403 | Each projection is its state decayed to the projection time, with metrics that count it as reviewed exactly if some review was passed. |
| MasteryReplay.ReadProjection | packages/persistence/mastery.py:646-672 | The lazy read decays the stored revision to the time of the read, and fails exactly when that lies before the revision. |
| MasteryReplay.LazyReadAgreesIff | packages/persistence/mastery.py:615-672 | Reading at t2 the revision stored at t1 gives the weights, counters and metrics that replaying at t2 gives, if and only if the concept has an applied item or nothing fades between t1 and t2. A concept known from a self-report alone is the exception: replay never decays it, the read does. |
| MasteryReplay.SelfReportAloneDiffers | packages/persistence/mastery.py:615-672 | For one self-report and no evidence, under every retention that fades between the two times, read and replay differ. |
| Extraction.ValidateTraceability | packages/domain/extraction.py:112-167 | Apart from the summary counts the validator accepts exactly the traceable extractions: every line of text claimed once, nodes in order under their own ids and titles, parents earlier and of fitting rank, unclassified ranges ordered, warnings inside the document. |
| Extraction.Claim | packages/domain/extraction.py:120-128 | Claims every line of a reference, or refuses if it lies outside the document or meets a line already claimed. |
| Extraction.CheckNodes | packages/domain/extraction.py:133-151 | The loop over the nodes fails exactly when some node is out of place or claims a claimed line. |
| Extraction.CheckUnclassified | packages/domain/extraction.py:152-157 | The loop over the unclassified ranges fails exactly when one is out of order, outside the document or overlaps. |
| Extraction.TamperedNodeRefused | packages/domain/extraction.py:133-146 | Giving one node of a traceable extraction another title, even under the id that goes with it, another id or another number makes the validator refuse it. |
| Extraction.SwappedNodesRefused | packages/domain/extraction.py:135-138 | So does exchanging two neighbouring nodes. |
| Extraction.MisplacedNodeRefused | packages/domain/extraction.py:147-152 | So does hanging a node below itself, a later node or one of higher rank number. |
| Extraction.LeftOutRangeRefused | packages/domain/extraction.py:160-163 | So does leaving out an unclassified range that holds text. |
| Extraction.WrongWarningRefused | packages/domain/extraction.py:164-170 | So does a warning that names one page and points at another. |
| Structure.DetectStructure | packages/curriculum/structure.py:35-114 | The scan yields, for each heading line, the node whose kind, parent, order, id and title the headings before it dictate, the runs of plain lines, and a warning for each ambiguous line. |
| Structure.FindParent | packages/curriculum/structure.py:97-103 | The stack and the number map yield the numeric parent if it does not rank after the heading, else the nearest earlier heading of lower rank. |
| Structure.Classify | packages/curriculum/structure.py:54-81 | The kind of a decimal heading follows from its numeric parent or its depth. |
| Structure.StackShowsNearest | packages/curriculum/structure.py:98-99 | What the popped stack shows on top is the nearest earlier heading of strictly lower rank. |
| Structure.RecordsGrow | packages/curriculum/structure.py:95-113 | After a heading the number map again holds exactly the visible numbers: cleared at a module, unit or chapter, and without the numbers that extend a newer one. |
| StructureParents.ParentByPosition | packages/curriculum/structure.py:95-108 | A heading hangs below the heading in use under the number it extends, if that fits, and else below the last earlier heading of strictly lower rank; it has no parent exactly when there is neither. In use: the latest heading with that number, with no chapter, unit or module and no heading whose number it extends in between. |
| StructureParents.NestedByRank | packages/curriculum/structure.py:98-103 | A heading without a fitting numeric parent has a parent exactly when some earlier heading ranks strictly lower, and then the last of these. |
| StructureParents.KindByPosition | packages/curriculum/structure.py:54-81 | What each node takes from its line: kind, number, detection method, confidence and title; a decimal heading is a subtopic below a topic or subtopic or from four parts on, a section with two parts, a topic with one or three. |
| StructureTraceability.WarningsByLine | packages/curriculum/structure.py:82-86 | One warning for each plain line that reads like a numbered heading, in order, and no other. |
| StructureTraceability.RunsAreMaximal | packages/curriculum/structure.py:82-94 | The unclassified ranges are the maximal runs of plain lines. |
| StructureTraceability.DetectionCoversExactlyOnce | packages/curriculum/structure.py:50-114 | Every line of text is claimed exactly once, by one heading or one range, in increasing order, with the right ids and titles; only the hierarchy can make the validator refuse. |
| StructureTraceability.ParentPrecedes | packages/curriculum/structure.py:97-108 | Every parent comes before its child and ranks no lower. |
| StructureTraceability.TraceableIffNoClash | packages/curriculum/structure.py:95-108 | The result is traceable if and only if no heading clashes with its numeric parent: no two-part number under a section, and no dotted section or topic keyword under one of its own kind. |
| StructureTraceability.SectionUnderSection | packages/curriculum/structure.py:64-74 | "Section 1" followed by "1.1 Background" is such a clash, and the validator refuses it. |
| Drafts.GenerationInputs | packages/curriculum/drafts.py:18-33 | One request for each root, holding the nodes under that root in order. |
| DraftRoundTrip.RequestsPartition | packages/curriculum/drafts.py:18-33 | Every section is in one request and in no other. |
| Drafts.ValidateProviderOutput | packages/curriculum/drafts.py:36-65 | Accepts exactly the outputs whose every element names a section of the request, carries its own id, title and source range, and hangs below the section or an earlier element of it. |
| DraftRoundTrip.AcceptedBySection | packages/curriculum/drafts.py:36-65 | Acceptance is decided section by section. |
| DraftRoundTrip.RegroupedAccepted | packages/curriculum/drafts.py:36-65 | An accepted output stays accepted when its elements are regrouped by section. |
| Drafts.AssembleDraft | packages/curriculum/drafts.py:68-114 | Equals assembly as specified: one acceptable output for each request, each section followed by its elements, and the draft's own validation. |
| Drafts.BuildElements | packages/curriculum/drafts.py:79-96 | Each section is followed by its own elements in output order, numbered from one. |
| DraftHierarchy.AssemblyValid | packages/curriculum/drafts.py:68-114 | For a traceable extraction assembly succeeds if and only if every request has an acceptable output and no section title is blank; nothing else can make the draft's own validator refuse. |
| DraftHierarchy.BlankTitleIsTraceable | packages/domain/extraction.py:133-151 | A node over two blank lines, whose title is their join, a single blank, passes the extraction validator, and no outputs assemble to a draft of it. |
| DraftHierarchy.BuildIsGood | packages/domain/curriculum.py:79-100 | Accepted elements under titled sections give distinct ids, consecutive order, fitting parents and pages within the source. |
| DraftHierarchy.CompleteWithoutReasons | packages/curriculum/drafts.py:96-114 | An assembled draft carries each warning exactly when there is reason for it, and is complete exactly when all pages have text, no line is left over and every heading found leads down to topics. |
| DraftHierarchy.BuildCarries | packages/curriculum/drafts.py:79-96 | Every element carries the source, the range and the confidence of its section, says whether the source or a provider named it, and fills nothing in. |
| Drafts.ValidateHierarchy | packages/domain/curriculum.py:79-105 | Accepts exactly the valid drafts. |
| Drafts.ValidateDraftSource | packages/curriculum/drafts.py:117-157 | Equals the re-check as specified. |
| DraftRecheck.AssembledPassesRecheck | packages/curriculum/drafts.py:117-157 | Round trip: taking the generated elements back out of an assembled draft, regrouping them by request and assembling again gives the same draft, so every assembled draft passes. |
| DraftRecheck.RecheckAcceptsExactlyAssembled | packages/curriculum/drafts.py:117-157 | The re-check accepts a draft if and only if some provider outputs assemble to it. |
| DraftRecheck.TakeBackBuilt | packages/curriculum/drafts.py:147-153 | The elements taken back out for a request are those put in, section by section. |
| AdmissionMonitor.PriorityAdmission.CanStart | packages/model_client/policies.py:154-164 | Refuses a full lane, a waiter of a better lane and an earlier waiter of the same lane, and nothing else. |
| AdmissionMonitor.PriorityAdmission.Arrive | packages/model_client/policies.py:166-172 | A newcomer joins the queue and starts at once or sleeps. |
| AdmissionMonitor.PriorityAdmission.Recheck | packages/model_client/policies.py:172-174 | A woken waiter starts, leaving the queue and waking nobody, or sleeps again. |
| AdmissionMonitor.PriorityAdmission.Cancel | packages/model_client/policies.py:175-180 | A cancelled waiter leaves and wakes everybody. |
| AdmissionMonitor.PriorityAdmission.Release | packages/model_client/policies.py:182-187 | Frees one place and wakes everybody; in a reachable state it never finds the lane idle. |
| Admission.StepKeepsInv | packages/model_client/policies.py:154-187 | Every step keeps the counts equal to the permits held, and the first waiter awake whenever no permit is held. |
| Admission.NeverWedged | packages/model_client/policies.py:154-187 | Over every run no lane exceeds its capacity, and if the first waiter could start but sleeps then some permit is held, whose release succeeds and wakes every waiter. |
| Admission.OnlyFirstStarts | packages/model_client/policies.py:154-164 | Only one waiter can start, the first by lane priority and then by arrival, and exactly when its lane has room. |
| Admission.LanesInOrder | packages/model_client/policies.py:28-32 | A waiting interactive call keeps every other lane from starting, a waiting prefetch call the batch lane, and an earlier call a later one of its lane. |
| Admission.WaitingMakesProgress | packages/model_client/policies.py:166-187 | While anybody waits, a permit is held, or the first waiter is awake and starts when it rechecks. |
| Admission.StrandedIffStartsOverSleeper | packages/model_client/policies.py:166-187 | A step leaves the first waiter asleep with room in its lane if and only if it is the silent start of a woken waiter whose successor sleeps and has room in its own lane. |
| Admission.SilentStartStrands | packages/model_client/policies.py:172-175 | A run, with rechecks in the order of falling asleep, after which the only waiter sleeps although its lane is idle. |
| CircuitCalls.CircuitBreaker.Acquire | packages/model_client/policies.py:225-238 | Grants or refuses as the state machine says; a granted permit is new and uncompleted. |
| CircuitCalls.CircuitBreaker.Success | packages/model_client/policies.py:240-250 | Completes the permit once; a second completion changes nothing. |
| CircuitCalls.CircuitBreaker.Failure | packages/model_client/policies.py:252-262 | Completes the permit once, and opens the circuit on a probe, in a half-open circuit, or at the threshold. |
| CircuitCalls.CircuitBreaker.Cancel | packages/model_client/policies.py:264-270 | Completes the permit once, and frees a probe slot if any is taken. |
| Circuit.StepKeepsInv | packages/model_client/policies.py:225-282 | Each call keeps the probe count within capacity, zero outside half-open and within the uncompleted probes, and a closed circuit below its threshold. |
| Circuit.RunKeepsInv | packages/model_client/policies.py:225-282 | The same over every run with late completions; and a half-open circuit that rejects has a live probe. |
| Circuit.OpenUntilEscape | packages/model_client/policies.py:225-282 | Along a run within an open window the circuit stays open and would refuse every acquire, if and only if there is neither a reset nor the success of a probe still out from before; then no permit is issued. |
| Circuit.LateProbeEndsWindow | packages/model_client/policies.py:240-248 | A run in which such a late success ends an open window early and a permit is granted inside it. |
| Circuit.CapacityBoundsProbes | packages/model_client/policies.py:225-282 | Over every run the probe count of a half-open circuit is the number of all probes in flight, if and only if no window opens again while a probe is still out. Then the probes in flight stay within capacity; with capacity one, only then. |
| Circuit.ReopeningAdmitsSecondProbe | packages/model_client/policies.py:227-237 | A run without any cancellation in which a window opens again over an earlier probe, and two probes are in flight with capacity one. |
| Circuit.RunKeepsAccounts | packages/model_client/policies.py:225-282 | Over every run the probes in flight of a half-open circuit are the probe count, plus the slots freed by cancelling probes of earlier windows, plus the live probes of those windows. |
| Circuit.UnseenComeFromReopening | packages/model_client/policies.py:225-270 | A window opens over as many uncounted probes as are in flight; no later step within it adds to them, and a cancellation while a slot is taken frees that slot whichever window the probe is of. |
| Circuit.OverCapacityIffOverfills | packages/model_client/policies.py:225-282 | A step takes the probes in flight over capacity if and only if it grants a probe while the counted and the uncounted ones together fill the capacity: by opening a window over earlier probes, or within such a window. |
| Circuit.BoundsIffNeverOverfills | packages/model_client/policies.py:225-282 | Over every run and at any capacity, the probes in flight stay within capacity in every half-open state if and only if no such grant occurs. |
| Circuit.StaleCancelAdmitsSecondProbe | packages/model_client/policies.py:264-270 | A run in which cancelling a probe of an earlier window lets a second probe of the current one out while the first is still out, with capacity one. |
| CircuitCounts.CompletedIffSpent | packages/model_client/policies.py:240-270 | A permit is completed exactly when a step of the run was its success, failure or cancellation. |
| CircuitCounts.ClosedCountsFailures | packages/model_client/policies.py:240-262 | While the circuit is closed, its failure count is the number of first failures of permits since the last first success or reset, counted on the calls alone, and below the threshold. |
| CircuitCounts.OpensAtThreshold | packages/model_client/policies.py:252-262 | A step opens a closed circuit if and only if it is such a failure and either brings that number to the threshold or is of a probe left from an earlier window; it opens at the time of the failure. |
| CircuitCounts.LateProbeOpensAtOnce | packages/model_client/policies.py:252-259 | A run in which the one failure of a late probe opens a closed circuit with a threshold of two. |
| CircuitCounts.CountIsFailuresCounted | packages/model_client/policies.py:240-262 | In every state the failure count is the number of first failures of ordinary permits outside half-open since the last first success or reset. |
| CircuitCounts.FromOpen | packages/model_client/policies.py:225-262 | An open circuit turns half-open exactly on the first acquire after its window, closes exactly on a reset or the first success of a probe, and starts its window again exactly on the first failure of a probe or at the threshold. |
| CircuitCounts.FromHalfOpen | packages/model_client/policies.py:240-262 | A half-open circuit closes exactly on a reset or a first success, and opens exactly on a first failure. |
| CircuitCounts.IssuesPermit | packages/model_client/policies.py:225-238 | A permit is issued exactly by an acquire in a closed circuit, after the window of an open one, or below capacity in a half-open one; it is a probe unless the circuit was closed. |
| CircuitCalls.InvokeWithResilience | apps/model_gateway/gateway.py:270-302 | Whatever other tasks do, every permit the loop acquires is completed by exactly one step, which reports how its own attempt ended: success if it returned, failure at its end if it failed, cancellation if it was interrupted. All attempts before the last failed and could be retried; the loop raises exactly if the last one failed and could not be retried or was the last allowed, answers exactly if it returned, and stops exactly on an interruption; calls are the attempts that reached the provider. |

## Left out

- JobQueue: job types, payload contents, the updated_at column and the length limits of keys are not modelled; they take no part in ownership, order or the log.
- JobRuns.RunKeepsInv: reports under a key the repository builds itself are outside the runs: the database would then refuse the repository's own later event of that key.
- JobStream: text framing, keep-alive comments and Redis wake-ups, which only decide when the next read happens.
- JobRepository.Repository.Enqueue: the id stands for the idempotency key too; job type, payload and parent, which a repeated request must also match, are not modelled.
- JobStream.Stream: a job row that disappears between two reads ends the stream in the code; rows are never deleted here.
- job_snapshot and JSON payload validation: reads and checks that change nothing.
- Kahn.OrderNodes: the heap is a set from which the least element is taken; error objects carry the node ids only, not their messages.
- Containment.ValidateForest: labels, concepts, mappings and edge uniqueness checks of GraphDefinition, which are single lookups.
- Diagnostics.SelectCandidates: the questions offered for a concept are a set; the candidate type refuses repeated ones.
- MasteryEngine.ApplyEvidence: floating point and real exponentials; rounding is not modelled. The state classes' own range checks are preconditions.
- MasteryModel.LawsHaveAModel: only the constant factor is exhibited, because no exponential over the reals can be built from the arithmetic of the language; the laws hold of the code's power of one half.
- MasteryReplay: the evidence digest, time zones, and the versioned rows that store a projection.
- Extraction.ValidateTraceability: the summary counts and raw page text; a line is its stripped title and the class the patterns give it.
- Structure.DetectStructure: the regular expressions, the search for repeated capitals and the 120-character heading shape decide the class of a line before the scan; how they decide is not modelled.
- Drafts.GenerationInputs: the passage text sent to the provider, which assembly never reads.
- Drafts.ValidateProviderOutput: JSON decoding and the length limits of titles and keys; blank means made of blanks, tabs and line breaks.
- AdmissionMonitor.PriorityAdmission: the event loop's lock is never contended between awaits, so each method is one step; fairness of the loop itself is not modelled.
- CircuitCalls.InvokeWithResilience: the loop acts on the breaker's state as a value, with the steps of other tasks as input; admission and time-outs inside an attempt only decide how the attempt ends.
- The lanes' capacities, retry sleeps with jitter, caching, telemetry, streaming generation, and all routes, authentication, storage and vendor clients.
- Remediation, triggers, scheduling, planning, execution and evaluation code: mostly branching inside one function.
