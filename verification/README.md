# Bid-writing backend: verified models

This project models the algorithms and protocols of a bid-writing backend and proves what its callers rely on. Each
Dafny module stands for one source file. Code that updates objects or loops over buffers is a class or a method with
the same branches, proved against a specification function; what the code promises is then proved about that function
over all inputs, all runs or all interleavings. Check everything with `dafny verify dfyconfig.toml`.

| Module | What it covers | Main result |
|---|---|---|
| `PersonnelMatcher` | backtracking assignment of distinct assets to roles | the search never skips a role it could fill, yet finds a maximum matching |
| `GenerationRun` | resumable seven-step orchestrator | any interleaving of resume workers keeps successes a prefix of the step order |
| `TenderPipeline`, `TenderOutcome`, `TenderImport` | twelve-step import with artefact files and step markers | after crashes, torn writes, errors and resumes, exactly when the files are those of one undisturbed run |
| `ExpertChunking` | token windows, text packing, table splitting | the contract of the packing leaves one result only; tables are split into as few chunks as possible |
| `Governance`, `LlmAudit` | token budgets over Redis, process memory and the database | reservations are serializable, and grants never exceed the three stores' remainders |
| `ConcurrencyLimiter` | counting semaphore, local and in Redis | the counter is exact if and only if the key outlives its holders |
| `ApiRateLimiter` | fixed-window limiter that forgets old windows | forgetting changes no decision |
| `SemanticCache` | bounded cache with expiry | every hit is that of an ideal unbounded map |
| `RankFusion`, `Reranking` | hybrid retrieval and reordering by a model's answer | sort-then-filter equals filter-then-stable-sort; an answer can only permute |
| `StandardLifecycle` | versions of technical standards | the active versions are the newest ones, whatever the ingest order |

`StableSort` holds what is used of Python's stable `sorted`; `Common` holds `Option`, `Result`, `Max` and `Min`.

What the proofs brought to light about the code:

- `FATAL_BLOCKED` is not final inside the invocation that sets it: the import report is written in the same `try`, and
  an error there, and nothing else, replaces the marker by `FAILED`
  (`TenderPipeline.FatalBlockedIsReplacedExactlyByAReportError`, `TenderOutcome.FatalBlockedCanBeLost`).
- Resuming a run that is already `READY_FOR_WRITING` rewrites `compliance_check.json`, so a crash can leave it torn
  under that marker (`TenderOutcome.ReadyRunCanHoldATornComplianceCheck`); `TenderOutcome.CrashesDoNotChangeTheResult`
  says exactly when all files are right.
- The first-use write of `get_budget` erases a concurrent reservation exactly when the key is missing and the default
  budget is positive (`Governance.PeekErasesExactlyOnFirstUse`).
- Holding every slot for less than the time to live does not keep the Redis semaphore within its limit
  (`ConcurrencyLimiter.ShortHoldsDoNotSuffice`).
- `run_step(G8)` called directly on a fresh run completes it (`GenerationRun.DirectCallCompletesEarly`); a caller can
  tell beforehand which direct calls are safe (`GenerationRun.DirectCallKeepsOrderIff`).
- `_fuse_hybrid` appends before it compares with `top_k`, so a direct call with a `top_k` below one gets one item if any
  is usable (`RankFusion.NoMoreThanAskedIff`); `search` slices its answer again, and the reranker raises its own to one.
- The local rate limiter reads the clock before it takes the lock; one identifier's requests that enter with an older
  reading behind a newer one restart its count (`ApiRateLimiter.OlderReadingResetsTheCount`).

## Model

| member | source | states |
|---|---|---|
| PersonnelMatcher.TeamSearch.Dfs | app/services/personnel_matcher.py:67-101 | One search call leaves the used assets and the team as it found them, and offers every leaf below its node, in order, to the best team so far |
| PersonnelMatcher.TeamSearch.TryCandidates | app/services/personnel_matcher.py:77-98 | The candidate loop reports whether a candidate was free, and restores used assets and team |
| PersonnelMatcher.TeamSearch.Take | app/services/personnel_matcher.py:83-98 | Taking a candidate, searching below and undoing explores exactly that candidate's branch |
| PersonnelMatcher.CompletionsAreAdmissible | app/services/personnel_matcher.py:78-101 | The leaves of the search are exactly the assignments that leave a role empty only when all its candidates are taken |
| PersonnelMatcher.CompletionsInOrder | app/services/personnel_matcher.py:78-101 | The leaves come in the order of the earlier candidate at the first difference, without repetition |
| PersonnelMatcher.Exchange | app/services/personnel_matcher.py:78-101 | For any assignment of distinct assets there is a leaf at least as large, although the search skips no fillable role |
| PersonnelMatcher.TeamSize | app/services/personnel_matcher.py:69-75 | The size of a leaf's team is the number of roles its assignment fills |
| PersonnelMatcher.TeamHoldsTheCandidates | app/services/personnel_matcher.py:85-95 | A leaf's team has one member per candidate taken, with all its fields, and scores the sum of their match scores, an absent one counting nothing |
| PersonnelMatcher.SearchBestTeam | app/services/personnel_matcher.py:62-104 | The search returns the first best leaf of the value-level specification |
| PersonnelMatcher.PickIsFirstLexicographicMaximum | app/services/personnel_matcher.py:65-104 | The result is the lexicographic maximum of size and sum of match scores over all admissible assignments, the first one on ties, and its members carry the role of their slot and the data of their candidate |
| PersonnelMatcher.PickIsMaximumMatching | app/services/personnel_matcher.py:62-104 | No assignment of distinct assets fills more roles than the returned team |
| PersonnelMatcher.PickIsBestCompleteTeam | app/services/personnel_matcher.py:62-104 | When a complete team exists the result is complete and no complete assignment has a greater sum of match scores |
| PersonnelMatcher.NormalizeRequirements | app/services/personnel_matcher.py:19-30 | Roles are stripped of every space Python strips, unnamed requirements dropped, order kept |
| PersonnelMatcher.StripTakesEndsOff | app/services/personnel_matcher.py:21 | Stripping takes spaces, and all of them, off both ends |
| PersonnelMatcher.NormalizedKeepsNamed | app/services/personnel_matcher.py:19-30 | Every requirement with a role that is not blank is kept, stripped, in its place, and no other |
| PersonnelMatcher.MissingRoles | app/services/personnel_matcher.py:48-53 | The missing roles are the multiset difference of required and matched roles, grouped by first mention |
| PersonnelMatcher.MatchPersonnelTeam | app/services/personnel_matcher.py:12-59 | The answer is the first best team of the pool with its sum of match scores, greatest among complete teams, and accounts for every role |
| PersonnelMatcher.CounterDifferenceIsMatchResult | app/services/personnel_matcher.py:47-59 | Required roles are team roles plus missing roles, `matched` holds iff all roles can be filled at once, and the missing list is as short as possible |
| GenerationRun.RunRow.RunStepLocked | app/services/generation_run_orchestrator.py:49-133 | Skip, block, retry-limit and execute branches commit the specified row and answer |
| GenerationRun.RunStepDecides | app/services/generation_run_orchestrator.py:62-125 | Skipped iff the step has succeeded; blocked iff not and the redline status is BLOCKED and the step is one of G5 to G8; out of retries iff neither and three failures are stored; otherwise the row and answer that the executor's outcome calls for |
| GenerationRun.RunRow.ExecuteStep | app/services/generation_run_orchestrator.py:85-125 | Success or failure of the executor is recorded with retry counts, pointer and status |
| GenerationRun.RunRow.StartIndex | app/services/generation_run_orchestrator.py:144-149 | An unrecognised pointer starts at the first step |
| GenerationRun.RunRow.ResumeRun | app/services/generation_run_orchestrator.py:136-158 | Runs the remaining steps up to the first failed, blocked or exhausted one |
| GenerationRun.ResumeStopsAtFirstStop | app/services/generation_run_orchestrator.py:151-158 | A pass calls at most the steps from the pointer on; only its last answer is failed, blocked or out of retries, and only such an answer cuts it short |
| GenerationRun.RunStepKeepsOrder | app/services/generation_run_orchestrator.py:59-125 | A step at or before the frontier keeps successes a prefix and the pointer on the frontier |
| GenerationRun.RunStepEffect | app/services/generation_run_orchestrator.py:59-125 | One call touches one step only, adds a retry exactly on failure, and never drops the redline flag |
| GenerationRun.DirectCallKeepsOrderIff | app/services/generation_run_orchestrator.py:59-125 | A direct call keeps the order invariant whatever its executor does if and only if its step is not past the frontier or will not execute |
| GenerationRun.ResumeWorkersKeepOrder | app/services/generation_run_orchestrator.py:59-125 | The order invariant holds under every interleaving of resume workers, deaths, redline changes and direct calls that meet that guard |
| GenerationRun.ResumeOnlyIsGuarded | app/services/generation_run_orchestrator.py:136-158 | Histories of resume workers alone meet the guard |
| GenerationRun.FreshRunsStayOrdered | app/services/generation_run_orchestrator.py:59-158 | From a fresh run, with direct calls guarded, successes are a prefix, the pointer decodes to its end capped at G8, and COMPLETED means all seven succeeded |
| GenerationRun.UndisturbedWorkerResumes | app/services/generation_run_orchestrator.py:136-158 | A worker of the interleaved system that nobody disturbs does what one `resume_run` does |
| GenerationRun.HistoriesAreAccounted | app/services/generation_run_orchestrator.py:75-125 | Every history of calls, direct ones included, keeps outcomes, retries and completion in step |
| GenerationRun.EveryHistoryIsBounded | app/services/generation_run_orchestrator.py:66-125 | At most three outcomes a step, run retries are the sum of step retries, and only G2 to G4 execute under the status BLOCKED |
| GenerationRun.ThreeFailuresHappen | app/services/generation_run_orchestrator.py:75-118 | Three is reached: a step that is not held back can fail three times |
| GenerationRun.DirectCallCompletesEarly | app/services/generation_run_orchestrator.py:101-107 | The input that fails the guard: a direct G8 call completes a fresh run although G2 has not succeeded |
| GenerationRun.EachResumeFailsOnceOrFinishes | app/services/generation_run_orchestrator.py:136-158 | Every sequential resume completes the run, meets an exhausted step or records one failure |
| GenerationRun.ResumesComplete | app/services/generation_run_orchestrator.py:136-158 | Unblocked and with no step exhausted, one call more than the failures completes the run |
| GenerationRun.ResumeManyAccounts | app/services/generation_run_orchestrator.py:109-118 | Run retries stay the sum of step retries over any number of resumes |
| GenerationRun.FifteenResumesSettle | app/services/generation_run_orchestrator.py:13-158 | Fifteen sequential resumes complete an unblocked run or exhaust a step, whatever the executors do |
| TenderImport.ImportRun.SaveDerived | app/tender/pipeline.py:68-74 | Writes one artefact from what it reads; a torn input is recorded as FAILED |
| TenderImport.ImportRun.Section | app/tender/pipeline.py:122-164 | A guarded section performs exactly its effects of the program, unless the stored step is beyond it |
| TenderImport.ImportRun.GateSection | app/tender/pipeline.py:166-204 | The gate section goes on past a passed gate, and otherwise marks FATAL_BLOCKED and leaves only the report |
| TenderImport.ImportRun.Finish | app/tender/pipeline.py:305-363 | The compliance check, then READY only if deviation tables exist |
| TenderImport.ImportRun.RunPipeline | app/tender/pipeline.py:77-365 | A whole invocation does what the effect machine does from the stored step, whether it is killed anywhere or an effect raises and its handler records FAILED, cannot record it, or only logs |
| TenderImport.ImportRun.Handle | app/tender/pipeline.py:137-313 | The handlers: the compliance check only logs and goes on, elsewhere the invocation ends as FAILED if that can be stored |
| TenderImport.ProcessIsAHistory | app/tender/pipeline.py:77-365 | What a process does is a history of effects, so the results about histories cover it |
| TenderImport.InvocationIsAHistory | app/tender/pipeline.py:77-365 | So is a whole invocation with its kill or error, and its effects all use its extractor |
| TenderPipeline.NextKeepsCertified | app/tender/pipeline.py:77-365 | Every event keeps the stored step's certificate and never lowers its rank |
| TenderPipeline.MarkerVouches | app/tender/pipeline.py:166-204 | After any crashes, errors and asset changes: SCORING_EXTRACTED or later means a whole gate report on disk that says passed, READY means deviation tables |
| TenderPipeline.BlockedMeansRefused | app/tender/pipeline.py:184-195 | FATAL_BLOCKED is never stored without a whole report on disk that refuses |
| TenderPipeline.DecisionReadsTheReport | app/tender/pipeline.py:184-197 | One decision marks FATAL_GATE_CHECKED on a passed report and FATAL_BLOCKED on a refusing one |
| TenderPipeline.TornInputsAreNeverRead | app/tender/pipeline.py:173-181 | What an extractor is about to read has always been written whole |
| TenderPipeline.ErrorsEndInFailed | app/tender/pipeline.py:201-313 | An error in the compliance check changes no marker; any other ends the invocation, as FAILED if that is recorded, and touches no other artefact |
| TenderPipeline.TornInputEndsInFailed | app/tender/pipeline.py:173-204 | Reading a torn artefact ends the invocation as FAILED |
| TenderPipeline.ReadyNeedsDeviationTables | app/tender/pipeline.py:355-362 | READY_FOR_WRITING with deviation tables, FAILED without |
| TenderPipeline.WrapperRecordsFailed | app/worker/tender_tasks.py:33-48 | The task wrapper records FAILED over anything but FATAL_BLOCKED |
| TenderPipeline.RankNeverFalls | app/tender/pipeline.py:91-95 | Until a terminal state the stored rank never decreases |
| TenderPipeline.TerminalAbsorbs | app/worker/tender_tasks.py:24-48 | Between invocations FAILED and FATAL_BLOCKED absorb, under the pipeline and the task wrapper |
| TenderPipeline.FatalBlockedIsReplacedExactlyByAReportError | app/tender/pipeline.py:181-204 | FATAL_BLOCKED is replaced if and only if the report write of the same invocation raises and that is recorded |
| TenderOutcome.FatalBlockedCanBeLost | app/tender/pipeline.py:181-204 | The history that loses it: a failed gate, then an error in writing the report |
| TenderOutcome.DeterministicThroughout | app/tender/pipeline.py:97-365 | With one extractor throughout, every certified artefact but the compliance check equals its extracted value, whatever is killed or raises |
| TenderOutcome.HistoriesTrackCompliance | app/tender/pipeline.py:305-313 | The compliance file is what its last write left: as extracted, torn, or as uploaded |
| TenderOutcome.UninterruptedFinishes | app/tender/pipeline.py:77-365 | One undisturbed run ends READY or FATAL_BLOCKED as the gate says, with the extracted files |
| TenderOutcome.WhatExtractorsSee | app/tender/pipeline.py:173-181 | The gate sees the preliminary evaluation and the personnel constraints, the tables the technical requirements, the blueprint format, scoring and technical requirements |
| TenderOutcome.OthersSeeNoArtefact | app/tender/pipeline.py:122-272 | The other extractors read the uploaded text and no artefact |
| TenderOutcome.GateDecidesTheRun | app/tender/pipeline.py:184-200 | A report that passed ends READY; one that refuses ends FATAL_BLOCKED with nothing behind the gate touched |
| TenderOutcome.CrashesDoNotChangeTheResult | app/tender/pipeline.py:77-365 | Any history of crashes, torn writes, errors and resumes: FATAL_BLOCKED leaves the files of the undisturbed run, READY leaves them but for the compliance check, and that one too if and only if its last write went through (or none was made and the upload held the right text); import report aside |
| TenderOutcome.ReturnedRunsEndAlike | app/tender/pipeline.py:77-365 | With no error hidden in the compliance check, a READY run whose last invocation returned has all the files of the undisturbed run |
| TenderOutcome.ReadyRunCanHoldATornComplianceCheck | app/tender/pipeline.py:304-313 | The history that fails the condition: a READY run resumed and killed in its compliance write |
| ExpertChunking.ToTokenSlices | app/services/expert_chunking.py:22-34 | Returns the overlapping windows, an error exactly for a non-empty text with overlap at least max, and terminates |
| ExpertChunking.WindowsCount | app/services/expert_chunking.py:22-34 | There are ceil(n / (max - overlap)) slices, none empty and none above max |
| ExpertChunking.WindowsKeepTokens | app/services/expert_chunking.py:22-34 | The first max - overlap tokens of the slices concatenate to the input |
| ExpertChunking.WindowsHoldRuns | app/services/expert_chunking.py:22-34 | Every run of overlap + 1 tokens lies whole in some slice |
| ExpertChunking.Packer.Flush | app/services/expert_chunking.py:171-178 | Emits the buffer as one chunk with its page mark, keeping the text |
| ExpertChunking.Packer.Add | app/services/expert_chunking.py:180-201 | One block keeps the packing invariant and adds exactly its items: nothing, itself whole, or its windows if it is oversized |
| ExpertChunking.SplitTextBlocks | app/services/expert_chunking.py:159-204 | The chunks hold, in order, each small block whole and each oversized block as its windows; none is above max; packed chunks close at min tokens and otherwise only for lack of room, a slice or the end |
| ExpertChunking.PackingIsDetermined | app/services/expert_chunking.py:159-204 | Only one list of chunks meets that contract for given blocks and limits |
| ExpertChunking.ItemsKeepText | app/services/expert_chunking.py:159-204 | Every token of the blocks once and in order, counting of a slice only what the next does not repeat |
| ExpertChunking.SmallBlocksStayWhole | app/services/expert_chunking.py:193-201 | A block of at most max tokens lies whole inside one packed chunk |
| ExpertChunking.LargeBlocksAreSliced | app/services/expert_chunking.py:186-191 | Each window of a block with more than max tokens is a chunk of its own |
| ExpertChunking.WellPackedAt | app/services/expert_chunking.py:185-204 | Each chunk is at most max and closes no sooner than needed before the next |
| ExpertChunking.NeighboursReachMin | app/services/expert_chunking.py:185-204 | Two neighbouring packed chunks together reach min tokens |
| ExpertChunking.RunsAreDense | app/services/expert_chunking.py:185-204 | A run of N packed chunks holds at least floor(N/2) * min tokens |
| ExpertChunking.StretchHasItsOwnChunks | app/services/expert_chunking.py:180-203 | The blocks between two oversized ones have chunks of their own |
| ExpertChunking.StretchesAreDense | app/services/expert_chunking.py:180-203 | If those are N chunks, the blocks hold at least floor(N/2) * min tokens |
| ExpertChunking.MarkPages | app/services/expert_chunking.py:37-43 | The page mark is the one page of all parts, or the lowest and highest page among them |
| ExpertChunking.FindSeparator | app/services/expert_chunking.py:114-119 | The first separator below the first line ends the header |
| ExpertChunking.GroupRows | app/services/expert_chunking.py:131-155 | Non-blank rows once and in order, in groups that fit and cannot take the next row |
| ExpertChunking.GreedyStaysAhead | app/services/expert_chunking.py:125-156 | A greedy split uses no more groups than any other split whose groups fit |
| ExpertChunking.SplitTableWithHeader | app/services/expert_chunking.py:100-156 | A table without separator or data rows stays whole; otherwise parts under the repeated header, each a single row or within the token limit, closed only when the next row did not fit |
| ExpertChunking.TableSplitIsLossless | app/services/expert_chunking.py:125-156 | Data rows in order under their header; a chunk of several rows keeps header and rows within the limit |
| ExpertChunking.SplitKeepsEveryRow | app/services/expert_chunking.py:138-151 | Every row that is not blank as often as in the table, and no other |
| ExpertChunking.TableSplitIsMinimal | app/services/expert_chunking.py:128-156 | No contiguous split into single rows and groups within that limit takes fewer chunks |
| ExpertChunking.ChunkSections | app/services/expert_chunking.py:207-352 | The four limit errors and no others; otherwise every section split as above, only large tables split |
| Governance.BudgetStore.ReserveRedis | app/services/governance.py:82-104 | The retry loop ends at the first attempt that is refused or not overtaken, with the answer for the budget it then found |
| Governance.BudgetStore.ReserveLocal | app/services/governance.py:106-112 | Charges exactly when enough is left and reports the remainder, negative ones too |
| Governance.NextIsStep | app/services/governance.py:82-104 | Each round trip of each call is invisible or one whole reservation on the budget then stored |
| Governance.AnswerAt | app/services/governance.py:82-104 | Each logged answer is the one its call gets in the sequential order of the log |
| Governance.AnswersByTheNumbers | app/services/governance.py:88-100 | Granted iff the initial use, the grants logged before and the request fit the total (or nothing is asked), with the remainder that leaves |
| Governance.ReservationsAreSerializable | app/services/governance.py:82-104 | For every interleaving: stored use is initial use plus grants, never beyond the total, answers of a sequential order, failed EXECs paid for by writes of others |
| Governance.FailuresArePaidForByGrants | app/services/governance.py:82-104 | Without `get_budget`, the failed EXECs of a call are at most the grants that others logged while it ran |
| Governance.AloneIsGranted | app/services/governance.py:82-104 | A call nobody disturbs is charged and granted when enough is left |
| Governance.PeekErasesExactlyOnFirstUse | app/services/governance.py:49-69 | With `get_budget` among the calls, grants are conserved if and only if the key exists or the default is not positive |
| Governance.ErasingHistory | app/services/governance.py:55-63 | The history in which the first-use write erases a grant |
| LlmAudit.HistoriesStaySound | app/services/llm_audit.py:32-55 | Store failures and lost replies keep every store charged within its total, and grants within the charges |
| LlmAudit.GrantsFitTheThreeStores | app/services/llm_audit.py:32-55 | Grants never exceed what database, Redis and local store had left |
| LlmAudit.FreshProjectBound | app/services/llm_audit.py:32-55 | For a fresh project that is its total plus two defaults |
| LlmAudit.PersistentBudget.TryRow | app/services/llm_audit.py:37-55 | The locked row is charged or refused; a missing row or an error passes the call on |
| LlmAudit.PersistentBudget.ReservePersistent | app/services/llm_audit.py:32-55 | A whole call leaves the stores of a ledger history, answers (granted, remaining) with the first store that replies, and has a grant charged somewhere |
| ConcurrencyLimiter.LocalSlots.Acquire | app/services/concurrency_limiter.py:63-70 | Refuses at the limit, else counts one more |
| ConcurrencyLimiter.LocalSlots.Release | app/services/concurrency_limiter.py:71-78 | Counts one less and drops the key at zero |
| ConcurrencyLimiter.LocalCountersAreExact | app/services/concurrency_limiter.py:63-78 | On every interleaving each local counter is its number of holders, within its limit |
| ConcurrencyLimiter.LocalHoldersStayWithinLimit | app/services/concurrency_limiter.py:63-78 | From an empty table on, a key has as many holders as counted and no more than its limit |
| ConcurrencyLimiter.EntersIffRoom | app/services/concurrency_limiter.py:65-70 | A task gets in iff fewer tasks than the limit hold the key |
| ConcurrencyLimiter.KeyServer.RunAcquire | app/services/concurrency_limiter.py:81-94 | The acquire script: one more exactly below the limit; the deadline is set by the acquisition that found no key and by no other |
| ConcurrencyLimiter.KeyServer.RunRelease | app/services/concurrency_limiter.py:96-103 | The release script: decrement, delete at zero |
| ConcurrencyLimiter.AcquiresIffRoom | app/services/concurrency_limiter.py:81-94 | Where the counter is exact a task gets a slot iff fewer tasks than the limit hold one |
| ConcurrencyLimiter.OutageFallsBack | app/services/concurrency_limiter.py:118-135 | A task Redis does not answer takes a local slot iff one is free; a lost reply leaves its count behind |
| ConcurrencyLimiter.LostReleaseLeavesItsCount | app/services/concurrency_limiter.py:123-131 | So does a release that does not reach Redis |
| ConcurrencyLimiter.KeyExpiresAtDeadline | app/services/concurrency_limiter.py:84-88 | The key is gone exactly from its deadline on |
| ConcurrencyLimiter.DeadlineIsSetOnce | app/services/concurrency_limiter.py:85-88 | The time to live runs from the first of overlapping holders |
| ConcurrencyLimiter.HoldersStayBounded | app/services/concurrency_limiter.py:106-135 | With outages, lost replies and lost releases, Redis and local holders stay within the limit each and twice the limit together while the key does not expire under a holder |
| ConcurrencyLimiter.CounterIsExactIffKeyOutlivesHolders | app/services/concurrency_limiter.py:81-135 | With a reliable Redis the counter is the number of holders throughout if and only if the key never expires while held |
| ConcurrencyLimiter.ShortHoldsDoNotSuffice | app/services/concurrency_limiter.py:81-94 | Three holders at limit two although each holds for less than the time to live |
| ApiRateLimiter.LocalRateLimiter.AllowRequest | app/services/api_rate_limiter.py:40-56 | Reads, purges and writes the window table as specified |
| ApiRateLimiter.OldBucketsAreForgotten | app/services/api_rate_limiter.py:45-49 | A request that opens a new bucket forgets all but its own and the one before |
| ApiRateLimiter.SameBucketForgetsNothing | app/services/api_rate_limiter.py:44-49 | Any other request forgets nothing |
| ApiRateLimiter.NextIsIdeal | app/services/api_rate_limiter.py:40-56 | A request is allowed iff the admissions of its bucket in the whole history are below the limit |
| ApiRateLimiter.ForgettingIsInvisible | app/services/api_rate_limiter.py:43-55 | For every request sequence in time order the verdicts are those of a counter that never forgets |
| ApiRateLimiter.IdealIffRemembered | app/services/api_rate_limiter.py:40-56 | In whatever order requests enter the lock: every decision, for every limit, is that of counting everything if and only if the table still has each request's bucket or nothing was admitted in it |
| ApiRateLimiter.OneBucketLateIsInvisible | app/services/api_rate_limiter.py:40-56 | That holds when no request is late by more than one bucket and none behind a newer one of its own identifier |
| ApiRateLimiter.OlderReadingResetsTheCount | app/services/api_rate_limiter.py:41-55 | It fails when an identifier's older clock reading enters behind a newer one: its count starts again |
| ApiRateLimiter.AtMostTwiceTheLimit | app/services/api_rate_limiter.py:40-56 | Any interval of window length admits at most twice the limit per identifier |
| ApiRateLimiter.RetryAfterIsTheEarliestSecond | app/services/api_rate_limiter.py:51-53 | `now + retry_after` is the earliest second at which the identifier can be admitted |
| SemanticCache.LocalCache.PruneLocked | app/services/semantic_cache.py:68-79 | Drops the expired, then the overflow by a stable sort on expiry |
| SemanticCache.LocalCache.Get | app/services/semantic_cache.py:102-109 | Prunes to at most max entries; a hit is a live stored payload of the key, a miss means the key is not left |
| SemanticCache.LocalCache.Set | app/services/semantic_cache.py:123-130 | Prunes, then replaces or adds one entry and keeps every other; at most max + 1 entries |
| SemanticCache.LocalCache.Invalidate | app/services/semantic_cache.py:151-159 | Removes exactly the entries whose key has the prefix, or all, and counts them |
| SemanticCache.EvictKeepsTheLatest | app/services/semantic_cache.py:74-79 | Capacity eviction keeps min(size, max) entries, and none it drops expires later than one it keeps |
| SemanticCache.PruneKeepsTheLatest | app/services/semantic_cache.py:68-79 | After a prune at most max live entries; a live one is lost only to a full cache of entries that expire no sooner |
| SemanticCache.HitsAreIdeal | app/services/semantic_cache.py:68-159 | For every operation sequence a hit is the latest unexpired, uninvalidated payload, and the size stays within max + 1 |
| SemanticCache.HitIsTheLatestSet | app/services/semantic_cache.py:68-159 | After any history a hit is the payload of the last set of its key, which has not expired and which nothing invalidated since |
| SemanticCache.RoomyHitIff | app/services/semantic_cache.py:68-159 | With room for every live key there is a hit exactly when there is such a set |
| SemanticCache.RoomyCacheIsIdeal | app/services/semantic_cache.py:68-159 | With at most max live keys, cache and ideal map give the same answers |
| StableSort.SortSorts | app/services/qdrant_store.py:645 | Sorting orders and permutes |
| StableSort.SortIsStable | app/services/qdrant_store.py:645 | Elements that tie keep their order |
| StableSort.FilterThenSort | app/services/qdrant_store.py:645-652 | Filtering before or after a stable sort makes no difference |
| RankFusion.CandidateTable.Add | app/services/qdrant_store.py:601-631 | `setdefault` and overwriting of one candidate |
| RankFusion.MergeVectorHit | app/services/qdrant_store.py:599-614 | A vector hit keeps the table the merge of the hits so far |
| RankFusion.MergeSparseHit | app/services/qdrant_store.py:616-631 | So does a sparse hit, whose payload wins |
| RankFusion.IdsInOrderOfAppearance | app/services/qdrant_store.py:597-631 | Candidates stand in the order in which their chunks first appear |
| RankFusion.FuseHybrid | app/services/qdrant_store.py:590-665 | Distinct chunks, each with its last payload and its reciprocal rank sum, all public, unpriced, in force and with text, best first; such a chunk is left out only when top_k others score no less; ties in order of first appearance |
| RankFusion.FusedResult | app/services/qdrant_store.py:590-665 | The same of the chosen candidates: distinct, showable, best first, nothing better left out |
| RankFusion.NoMoreThanAskedIff | app/services/qdrant_store.py:646-665 | The answer is no longer than top_k if and only if top_k is at least one, or zero with no usable chunk |
| RankFusion.AgreementBeatsOneList | app/services/qdrant_store.py:635-643 | A chunk in both lists at ranks up to rrf_k + 1 scores at least as high as any chunk in one list |
| Reranking.Reorder | app/services/qdrant_store.py:327-346 | The two loops return the first elements of the order the answer induces |
| Reranking.RerankHits | app/services/qdrant_store.py:262-346 | Empty input, missing ids and candidate limit as in the code |
| Reranking.OrderIsNamedThenOthers | app/services/qdrant_store.py:327-346 | Named candidates first, each once, then the others in their old order |
| Reranking.NamedInAnswerOrder | app/services/qdrant_store.py:329-337 | Named candidates come in the order in which the answer first names them |
| Reranking.AnswersOnlyReorder | app/services/qdrant_store.py:327-346 | Whatever the model answers, the whole order is a permutation of the candidates |
| Reranking.RerankedAreDistinctCandidates | app/services/qdrant_store.py:327-346 | The result has distinct ids, invents none, and is short of top_k only when every candidate id is in it |
| StandardLifecycle.ExpertLibrary.ValidateVersion | app/services/lifecycle_manager.py:68-85 | Latest iff no active version of the code is newer |
| StandardLifecycle.ExpertLibrary.AutoDeprecate | app/services/lifecycle_manager.py:88-129 | Deprecates exactly the active older versions and their chunks, and counts the documents |
| StandardLifecycle.ExpertLibrary.Ingest | app/services/expert_library.py:661-673 | Status decision, deprecation and insertion of a document with its chunks |
| StandardLifecycle.LatestIffNewest | app/services/lifecycle_manager.py:68-85 | The check against active rows is a check against everything ever ingested |
| StandardLifecycle.IngestSettles | app/services/expert_library.py:661-673 | One more ingest keeps every document and chunk at its final status for the uploads so far |
| StandardLifecycle.ActiveVersionsAreTheNewest | app/services/expert_library.py:661-871 | A versioned document is active iff no newer year of its code was ingested, and its chunks agree |
| StandardLifecycle.ChunksOfEveryUpload | app/services/expert_library.py:836-871 | Every upload has as many chunk rows as chunks |
| StandardLifecycle.NothingChangesWithoutAutoDeprecation | app/services/expert_library.py:666-673 | With auto-deprecation off an ingest changes nothing already stored |
| StandardLifecycle.OrderDoesNotMatter | app/services/expert_library.py:661-871 | Any two ingest orders of the same uploads end with the same documents and statuses |

## Left out

- Adapters and I/O: model calls, prompts, embeddings, OCR, document parsing and rendering, HTTP routes, the Redis and SQL clients themselves. Their results are parameters or events.
- Extractors and the fatal gate's rules: in the pipeline they are uninterpreted functions of what they read.
- Global score optimality of incomplete teams: not claimed, because the search fills every role it can (with R1 offering a at 1 and R2 offering a at 10 the code returns score 1).
- PersonnelMatcher.MatchPersonnelTeam: the asset query is a function of one requirement.
- Floating point: match and fusion scores are exact reals. BM25, decay, cosine and cross-encoder scores are not modelled.
- Row locks: `with_for_update` is taken as an atomic step, as on PostgreSQL; SQLite takes no row lock.
- GenerationRun.RunRow.ExecuteStep: the executor is a function of the step and the row; its own edits of `output_json` are overwritten by the code and not modelled. `updated_at` and the executor registry are left out.
- TenderImport.ImportRun.RunPipeline: one error or kill and a final kill per invocation; further errors of one invocation are in the event machine only. Step reports, durations, the content of the import report, `fatal_reason`, addendum rows and addendum files are left out; the manifest and the uploaded text are fixed.
- ExpertChunking.SplitTextBlocks: text is its token sequence; chunk ids, locators and section paths are left out.
- ExpertChunking.SplitTableWithHeader: lines carry their token counts and separator test; `header_columns` and the parameter-table flag are left out.
- Governance.BudgetStore.ReserveRedis: finitely many rivals overtake one call, since endless rivals make the source loop endless; negative requests are left out.
- Budget calls without a project id, which keep no account.
- `reset_budget`, `remaining_budget` and `get_budget` as a query: only its first-use write is modelled, as two events.
- ConcurrencyLimiter.HoldersStayBounded: times to live are positive and a body that itself raises a Redis error is left out; one process falls back locally. The limit of a task is at least one, as `_limit_for` returns.
- ApiRateLimiter.LocalRateLimiter.AllowRequest: the Redis variant and the clamping of arguments in `allow_api_request` are left out.
- SemanticCache.LocalCache.Get: the Redis side and copying of payload dictionaries are left out.
- Reranking.RerankHits: fetching and parsing the answer is left out, it is an arbitrary list of ids.
- StandardLifecycle.ExpertLibrary.Ingest: the detection patterns, asset expiry, concurrent or half-finished ingests, and the status copy in the vector index, which the code does not update on deprecation.
- Security-facing code (tokens, secrets, archive and path checks), migrations, and services made of single conditions or short sums, which would only add easy members.
