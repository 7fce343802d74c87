# A verified model of the reasoning orchestrator's state-keeping core

This Dafny project models the parts of the orchestrator that keep state over time and proves what
they promise: the federation coordinator and its two backends, the worker's heartbeats, the local
priority job queue, the bi-temporal audit log, the caches and the trajectory store, the verified code
loop with its fence parser, the rate limiter, and the reputation and gossip folds.

Each component has the same shape. Pure functions say what one operation does to a state; a class
with the source's fields has methods with the source's loops, each proved equal to such a function;
lemmas then state, over every input or every run, what the operations mean together. Models,
sandboxes, clocks, hashes, signers, embeddings and similarities are parameters, so every theorem
quantifies over them.

`dafny verify dfyconfig.toml` checks the whole project.

| file | contents |
|---|---|
| `Sequences.dfy`, `StableSort.dfy`, `Text.dfy` | list comprehensions, stable sorting, subsequences, string helpers |
| `FederationJobs.dfy`, `FederationMemory.dfy` | the coordinator over a dict: step functions and class |
| `FederationRecords.dfy` | what each request does to one record, and what a client's orders come to |
| `FederationSafety.dfy`, `FederationTiming.dfy` | whole-run safety and the reaper's real-time bounds |
| `RedisStamps.dfy`, `RedisJobs.dfy`, `RedisBackend.dfy` | the Redis backend, down to the text order of its sorted-set members |
| `FederationRefinement.dfy` | Redis refines the dict |
| `FederationWorker.dfy` | failover order, heartbeat loop, and the worker's survival under the reaper |
| `JobSteps.dfy`, `JobInvariants.dfy`, `JobTheorems.dfy`, `JobOutcomes.dfy`, `JobQueue.dfy` | the job queue as steps between awaits, its invariant, its theorems, how each job ends, its class |
| `AuditLog.dfy`, `AuditMeaning.dfy`, `AuditIntegrity.dfy`, `AuditQueries.dfy` | the hash-chained log, what its records and error reports mean, tamper evidence, the three queries |
| `RouteCache.dfy`, `ResultCache.dfy` | the LRU cache and the semantic result cache |
| `Clustering.dfy`, `Synthesis.dfy` | greedy clustering and replacing clusters by distilled entries |
| `FenceParser.dfy`, `CodeLoop.dfy`, `CodeLoopAnswers.dfy` | the fence grammar, its printer, the verified code loop, and what it answers round by round |
| `RateLimiter.dfy`, `Reputation.dfy` | the sliding window, the body guard, reputation and gossip |

## Where the code and its documentation disagree

The model follows the code; each point is a theorem here.

- A submission that reuses an id resets the job, and a completion is accepted on a pending job. On Redis
  both leave the sorted-set member of a pending job behind, so the two backends part exactly when the
  job is pending: `SubmitCommutesIff` and `CompleteCommutesIff` give the guards,
  `ReusedPendingIdIsHandedOutTwice` and `FinishedJobIsHandedOutAgain` the runs.
- The heartbeat comment speaks of a 300 s timeout and a fivefold margin; the configured timeout is 180 s,
  three intervals. A worker whose loop has not given up keeps its claim in every run if and only if three
  intervals and four posts fit in the timeout, the fourth being the post in which the coordinator last
  heard it (`TimeoutIsEnoughIff`). With the defaults they fit only if posts take no time at all, and
  `SlowPostsLoseTheClaim` gives the run that loses the claim otherwise.
- A finished job's status can still change: when its awaited callback ends in a CancelledError, the
  handler for user cancellation turns `completed` into `cancelled` (`FinalStatusChangesIff`, with the run
  `CallbackCancelsCompletedJob`). Once the job's event is set nothing changes any more (`SettledForEver`).
- `is_cache_entry_trustworthy` is documented to enforce the rules of insertion. With
  `allow_weak_cache` insertion wants a score of at least 0.75 and lookup refuses weak entries above
  0.65, so no weak entry that is let in is ever served (`AdmittedIsServedIff`).
- The fallback order of the block extractor names the first block when none parses; the code returns
  the last (`Chosen`). It also accepts an info string with backticks in it, which section 4.5 of the
  CommonMark Spec rules out for backtick fences, and drops a block that is never closed
  (`ReadDocument`), which the Spec closes at the end of the text.
- Synthesized entries are said never to be synthesized again. They are left out of the prompt, but
  removed with the cluster they fall in; the report then counts too few removals
  (`RemovedCountIsRightIff`).
- The code loop rejects a candidate whose mutant passes the tests, but does not remember that the tests
  were found vacuous. Over the worlds whose passing runs report no error and whose generalist never
  repeats a spec, no result is verified with such tests if and only if there is no repair round or just
  one candidate a round (`NoFlaggedTestsAcceptedIff`); if the generalist may repeat a spec, no setting
  rules it out (`NoSettingRulesOutRepeatedTests`). What a score of 1.0 does stand for is `Earned`.
- The limiter counts a deque, not the history. Under a clock that never steps back that is the same; after
  readings in any other order, its verdicts are those of the history from some moment on if and only if
  what is left of each deque ascends (`VerdictsAgreeFromNowOnIff`, with `ClockStepBackMisleads` as an
  instance).
- One line of the persistence file that cannot be read makes every removal give up, while recovery skips
  it: the file lists exactly the unfinished jobs if and only if it is legible or nothing has finished
  (`FileIsExactIff`, with the run `GarbledLineKeepsFinishedJob`), and nothing the queue does changes whether
  it is (`LegibilityLasts`).
- `start()` reads the file whatever is already under way. Called again after a stop, it queues every
  unfinished job once more, be it waiting, launched or running, and the finished ones too if the file is
  illegible (`StartAddsCopies`): some job is queued again if and only if some job has not finished
  (`StartQueuesAgainIff`). `RunningIsQueuedAgain` gives a run with nothing waiting. The list itself then holds
  some job twice if and only if one was waiting (`StartQueuesTwiceIff`).
- The comment on the reputation weights wants about three bad outcomes in a row to bring a node from 1.0 to 0.4,
  so that a single fluke does no harm. One refutation does that (`OneRefutationDoesNot`), and it silences a node
  that has just turned up (`FirstReportSilencesIff`).
- In vector-store-only mode the result cache never serves what its own insertions mirrored, since they
  leave out the claim count (`MirroredIsNeverServed`).

## Model

| member | source | states |
|---|---|---|
| FederationMemory.InMemoryFederationState.Submit | federation_server.py:134-145 | field by field, the job carries what the client sent and no claim or outcome; the dict holds it under its id, and a known id keeps its place in the order |
| FederationMemory.InMemoryFederationState.Claim | federation_server.py:147-160 | the scan hands out the head of the stable sort by (-priority, created_at) of the pending jobs, or nothing |
| FederationMemory.InMemoryFederationState.Complete | federation_server.py:162-178 | finishes any job that is not finished, pending ones included, and reports whether it did |
| FederationMemory.InMemoryFederationState.Heartbeat | federation_server.py:180-195 | refreshes the record only for the worker that holds the claim |
| FederationMemory.InMemoryFederationState.ReapStaleClaims | federation_server.py:197-225 | requeues exactly the stale claims and returns their ids in dict order |
| FederationJobs.ClaimIsBest | federation_server.py:147-160 | a claim fails only when nothing is pending; otherwise it takes a pending job of the highest priority, the oldest among those, sets its status, claimer and two times, and changes no other job |
| FederationRecords.RecordsMove | federation_server.py:134-225 | every request moves every single record by a table in terms of its fields, adds none but the one submitted, and is answered by what the state before it says |
| FederationRecords.OrdersArePlaced | federation_server.py:134-145 | after any submissions with distinct ids the coordinator holds each order as it was placed |
| FederationRecords.OrdersKeepTheirPlace | federation_server.py:134-145 | and lists new ids behind the known ones, in the order of submission |
| FederationRecords.MostUrgentGoesFirst | federation_server.py:134-160 | of any such orders, the first claim hands out the one of the largest priority asked for, the earliest among those, with its query and route |
| FederationSafety.RunIsSafe | federation_server.py:134-225 | over any run with fresh ids no job is lost or invented, claim fields are set exactly on claimed jobs, order forms never change and finished records are frozen |
| FederationSafety.FinishedFrozenIff | federation_server.py:134-178 | a finished record changes in a step exactly when its id is submitted again |
| FederationSafety.LostClaimStaysLost | federation_server.py:180-195 | heartbeats of a worker that does not hold the claim, and does not claim again, change nothing at any later point |
| FederationTiming.ReapedIffSilent | federation_server.py:197-225 | in any run from empty, a job is reaped exactly when it is claimed and more than the timeout has passed since its last accepted claim or heartbeat |
| FederationTiming.LiveWorkerIsNeverReaped | federation_server.py:180-225 | a worker whose accepted heartbeats are at most the timeout apart still holds its claim at the end of any run |
| FederationTiming.ReportedIsPending | federation_server.py:197-225 | whatever a reaper tick reports is pending right after it |
| FederationTiming.SilentClaimIsRequeued | federation_server.py:859-871 | with ticks every half timeout, a silent claim is reported and pending again within 1.5 timeouts of its last contact |
| RedisStamps.OlderSortsFirst | federation_server.py:562-602 | fixed-width stamps make the text order of sorted-set members the time order, and distinct times distinct members |
| RedisStamps.IdRoundTrip | federation_server.py:424-445 | the id cut out of a member after its first colon is the id that was put in |
| RedisStamps.FixedWidthIff | federation_server.py:562-602 | the width that the order needs is that of every time from September 2001 to November 2286 |
| RedisJobs.FirstIsUnique | federation_server.py:604-641 | ZRANGE 0 0 has one possible answer: lowest score, then lowest text |
| RedisJobs.RequeuedHash | federation_server.py:729-768 | a requeued job keeps its order and stamp and nothing of the claim, and its member is back under its score |
| RedisBackend.RedisFederationState.Submit | federation_server.py:562-602 | the same job, field by field; hash, sorted-set member and id set after it; fields it does not write survive |
| RedisBackend.RedisFederationState.Claim | federation_server.py:424-445 | the script takes the first member, removes it and marks the hash claimed |
| RedisBackend.RedisFederationState.Complete | federation_server.py:686-710 | the hash is finished, the sorted set is not touched |
| RedisBackend.RedisFederationState.Heartbeat | federation_server.py:712-727 | the hash is refreshed only for the holder |
| RedisBackend.RedisFederationState.ReapStaleClaims | federation_server.py:729-768 | every stale claim, in whatever order the id set is visited, is requeued with its original score and stamp |
| FederationRefinement.SubmitCommutesIff | federation_server.py:562-602 | a submission keeps the backends together if and only if its id is not that of a pending job |
| FederationRefinement.ClaimCommutes | federation_server.py:604-641 | both backends hand out the same job and stay together |
| FederationRefinement.CompleteCommutesIff | federation_server.py:686-710 | a completion keeps the backends together if and only if the job is not pending |
| FederationRefinement.StepCommutes | federation_server.py:562-768 | under those guards every operation commutes with the abstraction and gives the same reply |
| FederationRefinement.RedisRefinesMemory | federation_server.py:505-768 | over every guarded run the Redis backend gives the dict's replies |
| FederationRefinement.FreshBackendsAgree | federation_server.py:505-768 | from empty backends the replies agree, and the sorted set is exactly the pending jobs under (-priority, stamp:id) |
| FederationRefinement.FinishedJobIsHandedOutAgain | federation_server.py:700-709 | after submit and complete the dict has nothing to claim while Redis hands the finished job out |
| FederationRefinement.ReusedPendingIdIsHandedOutTwice | federation_server.py:562-641 | after two submissions under one id the dict hands out one job and Redis hands it out twice |
| WorkerSchedule.UrlOrderIsComplete | federated_queue.py:372-385 | the sticky URL first, every other usable URL after it, none lost, none twice |
| WorkerSchedule.FailoverLosesNothing | federated_queue.py:372-390 | a failover between listed URLs keeps the same URLs in reach |
| WorkerSchedule.OrdersAreListed | federated_queue.py:372-390 | both URL orders hold listed URLs only |
| WorkerSchedule.ReportOrderIsComplete | federated_queue.py:637-643 | a claimed job is reported to its origin first, then to every other URL, none twice |
| WorkerSchedule.SilenceIsBounded | federated_queue.py:654-680 | while no three posts in a row have failed, every post ends within three intervals and four posts of what the coordinator heard last |
| WorkerSurvival.HeartbeatsKeepTheClaim | federated_queue.py:619-680 | worker loop and reaper together: if those fit in the timeout, the claim is still held at the end of any run of the coordinator |
| WorkerSurvival.SlowPostsLoseTheClaim | federated_queue.py:654-680 | if they do not, a run of a loop that never gave up in which the reaper takes the claim |
| WorkerSurvival.TimeoutIsEnoughIff | federated_queue.py:642-680 | for every claim: all such runs keep it if and only if three intervals and four slowest posts fit in the timeout |
| FederationWorker.FederatedQueue.PostToAnyUrl | federated_queue.py:711-738 | succeeds exactly when some URL answers, the first that answers becomes sticky, and the sticky URL stays a listed one |
| FederationWorker.FederatedQueue.HeartbeatLoop | federated_queue.py:654-680 | the beats sent, and that the loop gives up exactly on its first three failures in a row |
| FederationWorker.BeatsAreTimed | federated_queue.py:654-680 | when each beat is sent and its post ends, and when it counts as answered |
| FederationWorker.LoopFollowsSchedule | federated_queue.py:654-680 | those beats meet the schedule that the survival theorem asks for |
| JobQueueObject.JobQueue.Enqueue | rfsn_job_queue.py:295-303 | the scan puts a job behind all of its priority or higher |
| JobQueueObject.JobQueue.Start | rfsn_job_queue.py:237-265 | recovery inserts the file's jobs, first line of each id, into whatever is queued |
| JobQueueObject.JobQueue.LoadPersisted | rfsn_job_queue.py:193-222 | the first legible line of each non-empty id, in file order |
| JobQueueObject.JobQueue.RemoveFromFile | rfsn_job_queue.py:169-191 | exactly the job's lines leave the file, or nothing does when a line cannot be read |
| JobQueueObject.JobQueue.Submit | rfsn_job_queue.py:279-307 | status, pending list, file and wake-up after a submission |
| JobQueueObject.JobQueue.Cancel | rfsn_job_queue.py:353-383 | what cancelling does and returns in each status |
| JobQueueObject.JobQueue.Stop | rfsn_job_queue.py:267-271 | the dispatcher is told to end and woken |
| JobQueueObject.JobQueue.Dispatch | rfsn_job_queue.py:386-425 | the dispatcher's loop from one await to the next, or to its return |
| JobQueueObject.JobQueue.Begin | rfsn_job_queue.py:427-433 | a task's first step; a job cancelled in the meantime is not run |
| JobQueueObject.JobQueue.Finish | rfsn_job_queue.py:436-471 | completion, failure or cancellation of the orchestrator call: the job gets the status that the call ended with |
| JobQueueObject.JobQueue.CallbackEnds | rfsn_job_queue.py:449-471 | the end of an awaited callback, and its CancelledError path |
| JobQueueObject.JobQueue.Cleanup | rfsn_job_queue.py:422-425 | the done callback frees the slot |
| JobTheorems.QueueIsSafe | rfsn_job_queue.py:237-471 | every state reachable from any file keeps the invariant: coherent statuses, tasks and events, the two lists (the file as long as it is legible), and the control state |
| JobInvariants.NextKeeps | rfsn_job_queue.py:237-471 | each step keeps it, in particular that the pending list is the stable priority sort of the waiting arrivals and the file lists the unfinished ones in order |
| JobTheorems.ExactlyOnePlace | rfsn_job_queue.py:386-471 | every job is in exactly one of pending list, launched, running, terminal |
| JobTheorems.EventsAreForFinishedJobs | rfsn_job_queue.py:436-471 | an event is set only for a finished job; a finished job without one is inside its callback |
| JobTheorems.AtMostMaxRunning | rfsn_job_queue.py:402-425 | at most max_concurrent jobs run at once |
| JobTheorems.FinalStatusChangesIff | rfsn_job_queue.py:449-463 | a terminal status changes in a step exactly when an awaited callback ends in a CancelledError |
| JobTheorems.CallbackCancelsCompletedJob | rfsn_job_queue.py:436-463 | a run, for every job, in which a completed job becomes cancelled |
| JobTheorems.SettledForEver | rfsn_job_queue.py:427-471 | once a job's event is set its status is the same at the end of any run |
| JobOutcomes.CallEndsJob | rfsn_job_queue.py:436-471 | when the orchestrator call ends, its job gets just that status, leaves a legible file, and gets its event unless a callback is awaited; no other status changes |
| JobOutcomes.UsersAreFree | rfsn_job_queue.py:267-383 | the runs leave out nothing that users may do: cancelling, stopping and submitting under a fresh id are possible at any time |
| JobOutcomes.EndsAsItWasTold | rfsn_job_queue.py:353-471 | over any run a job has ended with just the status that the run gave it last: the outcome of its call, or cancelled while pending or by its callback; without such an event it has not ended |
| JobOutcomes.CancelAnswers | rfsn_job_queue.py:353-383 | cancel answers true exactly for jobs that neither completed nor failed, and what it changes in each case |
| JobOutcomes.AskedByCancel | rfsn_job_queue.py:375-383 | over any run, a job has been asked to stop exactly if some cancel found it running |
| JobTheorems.NextLaunchIsBest | rfsn_job_queue.py:414-417 | the job popped next is the earliest arrival among the waiting ones of the highest priority |
| JobTheorems.PendingFromFile | rfsn_job_queue.py:152-222 | the pending list is the priority sort of the file restricted to the jobs still waiting |
| JobTheorems.CrashRecovery | rfsn_job_queue.py:246-265 | starting over from a legible file queues every unfinished job exactly once, from an illegible one every job that arrived; those that were waiting keep their order |
| JobOutcomes.FirstLineCounts | rfsn_job_queue.py:200-219 | recovery takes exactly the first legible line of each non-empty id |
| JobTheorems.FileIsExactIff | rfsn_job_queue.py:169-222 | the file lists exactly the unfinished jobs if and only if it is legible or no job has finished |
| JobTheorems.LegibilityLasts | rfsn_job_queue.py:152-191 | no run makes a file legible or illegible |
| JobTheorems.GarbledLineKeepsFinishedJob | rfsn_job_queue.py:169-222 | a run, for every job, in which one garbled line keeps a finished job in the file |
| JobTheorems.StartAddsCopies | rfsn_job_queue.py:237-265 | how many records of each job the pending list holds after a second start, and the job's status: one more for every unfinished job, and for every job if the file is illegible |
| JobTheorems.StartQueuesAgainIff | rfsn_job_queue.py:237-265 | a second start queues some job again that is waiting, launched or running if and only if some job has not finished |
| JobTheorems.RunningIsQueuedAgain | rfsn_job_queue.py:237-277 | a run, for every job, after which nothing waits and a second start queues, and with a free slot launches, the job that the orchestrator still has |
| JobTheorems.StartQueuesTwiceIff | rfsn_job_queue.py:237-265 | after a second start the pending list holds some job twice if and only if some job was waiting |
| JobTheorems.DispatcherIsNeverStuck | rfsn_job_queue.py:397-415 | a blocked dispatcher either has nothing to do and has not been stopped, or all slots are taken |
| JobTheorems.OwnStepsDecrease | rfsn_job_queue.py:386-471 | every step that the queue takes by itself lowers a measure |
| JobTheorems.DrainIsBounded | rfsn_job_queue.py:267-277 | left alone it comes to rest within that many steps |
| JobTheorems.StoppedMeansDone | rfsn_job_queue.py:267-277 | when `stop()` returns, every job that arrived before the dispatcher returned is finished |
| JobTheorems.RestMeansDone | rfsn_job_queue.py:267-277 | at rest every job that arrived before the dispatcher returned is finished, and after a stop the dispatcher has returned |
| AuditLog.BiTemporalAuditLog.FindLastEntry | bitemporal_log.py:171-184 | the last record of the file, malformed lines skipped |
| AuditLog.BiTemporalAuditLog.RecordEvent | bitemporal_log.py:194-253 | the file after one call, and that a failed write leaves nothing behind |
| AuditLog.BiTemporalAuditLog.VerifyChain | bitemporal_log.py:278-375 | the error list of strict verification, in order, and the verdict |
| AuditLog.MigrateLegacyLog | bitemporal_log.py:479-555 | migration writes what recording the legible legacy entries one by one would write |
| AuditMeaning.RecordAddsFacts | bitemporal_log.py:194-253 | a write on an accepted log adds one entry with the facts of the draft, the next number, the link, its own hash, and a signature just when there is a signer |
| AuditMeaning.LogKeepsFacts | bitemporal_log.py:194-253 | any calls leave the old entries alone and add, in order, one entry with the facts of the draft for each successful write |
| AuditMeaning.LinkOfLast | bitemporal_log.py:186-231 | where the chain goes on after a last record without a number or a hash, and when the write raises |
| AuditMeaning.FaultsAreDefects | bitemporal_log.py:306-375 | each of the eleven kinds of error is reported for a line exactly when the fields of that entry, and of those before it, have that defect |
| AuditIntegrity.NoFaultsIffSound | bitemporal_log.py:306-375 | no error exactly when every entry has the schema, its sequence number, the previous hash, its own hash and, with a signer, a valid signature |
| AuditIntegrity.RecordedLogVerifies | bitemporal_log.py:194-253 | any sequence of calls, some of whose writes fail, keeps the log acceptable and adds one entry for each successful write |
| AuditIntegrity.EmptyLogVerifies | bitemporal_log.py:194-375 | in particular from an empty file |
| AuditIntegrity.PrefixVerifies | bitemporal_log.py:306-375 | every prefix of an accepted log is accepted: truncation does not show |
| AuditIntegrity.LastHashFixesTheLog | bitemporal_log.py:95-100 | two accepted logs ending in the same record_hash are equal entry by entry, signatures aside |
| AuditIntegrity.ReplacedEntryShows | bitemporal_log.py:306-375 | replacing any entry but the last by one with different hashed content fails verification |
| AuditIntegrity.RemovedEntryShows | bitemporal_log.py:306-375 | so does removing one |
| AuditQueries.CurrentState | bitemporal_log.py:452-469 | one scan gives, for each job with a live entry, a live one with the latest valid time, or the latest transaction time, as the axis says; tied ones as its history ends |
| AuditQueries.AsOfIsGreatest | bitemporal_log.py:428-450 | the answer is a live entry of the job with the greatest key not after T, and None exactly when there is none |
| AuditQueries.ValidTimeAnswer | bitemporal_log.py:428-450 | on the valid axis that is the latest valid_time not after T among the entries of the job that nothing corrects |
| AuditQueries.TransactionTimeAnswer | bitemporal_log.py:428-450 | on the transaction axis, the latest transaction_time |
| AuditQueries.ValidTimeHistory | bitemporal_log.py:411-426 | the history holds exactly those entries, by valid_time, entries of one time in file order |
| AuditQueries.TransactionTimeHistory | bitemporal_log.py:411-426 | the same by transaction_time |
| AuditQueries.AsOfIsLastOfHistoryIff | bitemporal_log.py:411-450 | it is the last of the history cut at T if and only if the greatest key is not tied |
| AuditQueries.LateEntryKeepsAnswerIff | bitemporal_log.py:401-450 | appending an entry with a later key keeps the answer at T if and only if it does not correct that answer |
| RouteCache.Cache.constructor | persistent_cache.py:420-442 | loading keeps the most recent entries that fit, in order |
| RouteCache.Cache.Get | persistent_cache.py:457-488 | a hit moves to the recent end; a miss changes nothing |
| RouteCache.Cache.Put | persistent_cache.py:464-501 | a present key is replaced and becomes the most recent, an absent one evicts the oldest when full |
| RouteCache.HitIsStored | persistent_cache.py:457-488 | a get answers with the value stored under the key, and None just when there is none |
| RouteCache.PutThenGet | persistent_cache.py:457-501 | after a put its key answers with the new value and every other key as before, except the oldest when a new key met a full cache |
| RouteCache.StepKeepsBound | persistent_cache.py:464-501 | no operation overfills the cache and updating a present key evicts nothing |
| RouteCache.SmallerCacheIsIncluded | persistent_cache.py:457-501 | on every run the smaller cache is an order-preserving subsequence of the larger one |
| RouteCache.LargerCacheHitsToo | persistent_cache.py:457-501 | a hit in the smaller cache is a hit with the same value in the larger one |
| RouteCache.BoundKeepsNewest | persistent_cache.py:420-442 | reloading with a smaller bound keeps exactly the newest entries in order |
| ResultEntries.AdmittedIsServedIff | persistent_cache.py:260-349 | an admitted entry is served exactly when it is not a self-claim |
| ResultEntries.TrustworthyIff | persistent_cache.py:260-301 | what an entry must be to be served, in terms of its fields |
| ResultEntries.ShouldCacheIff | persistent_cache.py:304-349 | what a result must be to be stored |
| ResultEntries.MirroredIsNeverServed | persistent_cache.py:872-892 | what an insertion mirrors to the vector store, and that it is never trustworthy |
| ResultEntries.FirstExact | persistent_cache.py:720-755 | the first trustworthy entry with this very problem, None exactly when there is none |
| ResultEntries.MostSimilar | persistent_cache.py:757-793 | a most similar entry among those that are trustworthy, close enough and good enough, None exactly when there is none, for every way of breaking ties |
| ResultEntries.RankingExists | persistent_cache.py:757-765 | for any similarities there is such an order, so the condition on `argsort` can be met |
| ResultEntries.BumpKeepsIndex | persistent_cache.py:633-641 | counting an access leaves the embedding index right |
| ResultEntries.IndexIff | persistent_cache.py:633-641 | there is an index exactly when every entry has an embedding and there is one, and its rows are the embeddings |
| ResultCache.ExactIff | persistent_cache.py:718-727 | when lookups compare texts instead of embeddings |
| ResultEntries.EvictionKeepsTheBest | persistent_cache.py:849-860 | an eviction splits the entries, and every kept one was used more often than every evicted one, or as often with a score at least as good |
| ResultEntries.NewEntryDisplacesIff | persistent_cache.py:849-860 | a full cache keeps a new entry exactly when some old one was used less often, or as often with a lower score |
| ResultCache.CLRResultCache.Lookup | persistent_cache.py:652-793 | on each of the three paths, when there is a hit and what it carries, the one access count that grows, and the index that stays right |
| ResultCache.CLRResultCache.InsertEntry | persistent_cache.py:796-862 | the entries after an insertion and its eviction, the bound, and the index rebuilt |
| ClusterSpec.LeaderFacts | persistent_cache.py:1458-1482 | everyone's leader is the first leader close to it, or itself |
| ClusterSpec.LeadersAreFarApart | persistent_cache.py:1458-1482 | no two leaders are close, those of small groups included |
| ClusterSpec.ClusterFacts | persistent_cache.py:1458-1482 | a group is an increasing list that starts with its leader, everyone in it close to the leader |
| ClusterSpec.ClustersAreTheLargeGroups | persistent_cache.py:1480-1482 | the groups reported are exactly those with enough members, in the order of their leaders |
| ClusterSpec.ClustersAreDisjoint | persistent_cache.py:1458-1482 | no entry is reported twice |
| ClusterLoops.Direct | persistent_cache.py:1463-1482 | the loop over the whole matrix computes those groups |
| ClusterLoops.Chunked | persistent_cache.py:1483-1513 | so does the loop over blocks of rows, for every block size |
| ClusterLoops.FindClusters | persistent_cache.py:1403-1513 | early exits, the vector store's clusters when it has any, else task-type filter, choice of loop and translation to store indices |
| ClusterLoops.LocatedIff | persistent_cache.py:1422-1436 | which store indices a cluster of vector ids stands for |
| ClusterLoops.DelegatedIff | persistent_cache.py:1414-1440 | which of the vector store's clusters count |
| ClusterLoops.ReportedClusters | persistent_cache.py:1446-1513 | in store indices: increasing, separate, large enough, of the wanted type, and each similar enough to the first of its list |
| Distillation.SynthesisConservesIff | hybrid_orchestrator.py:3192-3312 | the run swaps clusters for masters and nothing else if and only if the old entries and the masters due, as decided on the old store, fit, or none is due |
| Distillation.RoomForEveryCluster | hybrid_orchestrator.py:3192-3312 | room for the entries and one master a cluster is enough |
| Distillation.RunDistils | hybrid_orchestrator.py:3213-3296 | in that case exactly the clusters with enough originals and a usable reply are distilled, decided on the old store |
| Distillation.OriginalsIff | hybrid_orchestrator.py:3213-3225 | which entries of a cluster are read |
| Distillation.UsableIff | hybrid_orchestrator.py:3243-3247 | a reply counts as blank exactly when all of it is white space |
| Distillation.MasterStandsForBest | hybrid_orchestrator.py:3249-3286 | a master stands under the query and task type of the first of the best originals, names all their queries, and scores 0.65 only when re-verified |
| Distillation.StoreOneDropsTheWorst | persistent_cache.py:1535-1602 | storing into a full store drops what was used least and scores worst among that |
| Distillation.FailedClusterLosesNothing | hybrid_orchestrator.py:3236-3247 | a cluster whose call failed or came back blank keeps every entry |
| Distillation.RemovedCountIsRightIff | hybrid_orchestrator.py:3291-3308 | the reported number of removed entries is right exactly when no distilled cluster held an older master |
| Distillation.ReportCounts | hybrid_orchestrator.py:3227-3312 | the report counts the masters that were verified again, and, as long as everything fits, the calls that failed or came back blank |
| Synthesis.TrajectoryStore.RemoveEntries | persistent_cache.py:1515-1533 | exactly the entries at the given indices leave, the others keep their order |
| Synthesis.TrajectoryStore.StoreSynthesized | persistent_cache.py:1535-1602 | an unverified master is appended, blank answers are not, the bound is kept |
| Synthesis.TrajectoryStore.StoreSynthesizedVerified | persistent_cache.py:1609-1677 | the same for a re-verified master |
| Synthesis.SynthesizeTrajectories | hybrid_orchestrator.py:3192-3312 | the whole loop: store and report after the run |
| Synthesis.ReportedClustersQualify | hybrid_orchestrator.py:3192-3203 | the clusters that the store reports meet the theorems' conditions |
| Fences.ParseLines | hybrid_orchestrator.py:1616-1644 | the line loop computes the line machine's blocks |
| Fences.MatchIff | hybrid_orchestrator.py:1607-1614 | a line is a fence exactly when it is up to three spaces, three backticks or more, and an info string |
| Fences.TagIsFirstWord | hybrid_orchestrator.py:1634-1641 | the tag is the first word of the info string in lower case, and a blank one gives none |
| Fences.ReadDocument | hybrid_orchestrator.py:1607-1644 | reading a document of the fence grammar gives exactly its closed blocks |
| Fences.EmptyBlock | hybrid_orchestrator.py:1616-1644 | a fence closed at once gives an empty block with its tag |
| Fences.EveryTextIsADocument | hybrid_orchestrator.py:1607-1644 | every text is such a document |
| FencePrinter.ParseOfPrint | hybrid_orchestrator.py:1607-1644 | parsing undoes printing, whatever shorter or info-bearing fences the bodies contain |
| BlockChoice.ExtractPythonBlock | hybrid_orchestrator.py:1646-1672 | the backwards loop computes the extraction function |
| BlockChoice.ExtractIsChosen | hybrid_orchestrator.py:1646-1672 | that function gives the last Python or untagged block that parses, else the last such block, else the stripped text, and nothing else meets this rule |
| BlockChoice.PythonBlocksOfPrint | hybrid_orchestrator.py:1646-1660 | of a printed document the extractor sees just the blocks in Python or without a language, in order |
| BlockChoice.LastPrintedBlockIsExtracted | hybrid_orchestrator.py:1607-1672 | printing a document that ends in a parsing Python block and extracting gives that block |
| CodeLoop.Orchestrator.GenerateTestSpec | hybrid_orchestrator.py:1709-1762 | at most two questions, which answer is taken, and when there is none |
| CodeLoop.Orchestrator.MutationCheck | hybrid_orchestrator.py:1764-1811 | one run of the mutant, a raised error counting as not vacuous |
| CodeLoop.Orchestrator.Draft | hybrid_orchestrator.py:2004-2015 | the code blocks of the answers that came back, in order |
| CodeLoop.Orchestrator.VerifyAll | hybrid_orchestrator.py:2036-2046 | every candidate is run, and a raised error ends the loop |
| CodeLoop.Orchestrator.JudgeCandidates | hybrid_orchestrator.py:2052-2128 | the first candidate that passed decides between acceptance and a rewrite of the tests |
| CodeLoop.Orchestrator.PickRepairedCandidate | hybrid_orchestrator.py:2191-2234 | the first repaired candidate that passed and is told from its mutant |
| CodeLoop.Orchestrator.PlainAnswer | hybrid_orchestrator.py:1855-1953 | the unverified answer and its partial score; `NoTestsAnswer` says which score it is |
| CodeLoop.Orchestrator.RepairLoop | hybrid_orchestrator.py:2132-2241 | the repair rounds and when they end |
| CodeLoop.Orchestrator.RunCodeSpecialistVerified | hybrid_orchestrator.py:1813-2260 | the whole loop computes the loop function, and its outcome is honest |
| CodeLoopSpec.LoopIsSound | hybrid_orchestrator.py:1813-2260 | for every world: a score of 1.0 comes with a run of that very candidate against the recorded tests that passed, a mutant that did not, tests that are not vacuous and came from the generalist; 0.65 with an answer that ran in the sandbox; 0.2 with one that looks harmless where no sandbox is and that is allowed; every other score is 0.0; the calls stay in budget |
| CodeLoopSpec.AcceptanceIsEarned | hybrid_orchestrator.py:2065-2118 | what accepting a candidate needs |
| CodeLoopSpec.PickedIsEarned | hybrid_orchestrator.py:2191-2234 | the same for a repaired candidate, wherever in the list it is |
| CodeLoopAnswers.AskForTestsIff | hybrid_orchestrator.py:1709-1762 | which answer of the generalist gives the tests, how many are asked for, and when there are none |
| CodeLoopAnswers.NoTestsAnswer | hybrid_orchestrator.py:1853-1953 | without tests: 0.65 exactly for an answer that ran in the sandbox, 0.0 for one that trapped, else 0.2 or 0.0 by the static look |
| CodeLoopAnswers.DraftsInOrder | hybrid_orchestrator.py:2004-2015 | the drafts are the code blocks of the answers that came, in the order of the calls |
| CodeLoopAnswers.RoundDecides | hybrid_orchestrator.py:2004-2130 | a round of candidates: empty, raised, accepted, tests to be rewritten, or on to repair, by what the runs said |
| CodeLoopAnswers.RepairRoundDecides | hybrid_orchestrator.py:2164-2241 | a repair round returns a verified candidate exactly when the log shows one whose mutant did not pass, the first such; what the next round starts from |
| CodeLoopAnswers.RepairGoesOnIff | hybrid_orchestrator.py:2132-2260 | repair goes on exactly while rounds are left and some candidate failed an assertion or an import; else the first candidate is returned unverified |
| CodeLoopAnswers.RewrittenOnce | hybrid_orchestrator.py:1955-1985 | the tests are rewritten once at most, and what follows when that fails |
| CodeLoopAnswers.GoodCandidateIsReturned | hybrid_orchestrator.py:1813-2118 | the converse of soundness: the first verified candidate of the first round whose mutant does not pass is returned with 1.0 |
| CodeLoopSpec.LoopAcceptsNoFlagged | hybrid_orchestrator.py:1813-2260 | without repair, or with one candidate a round, no result is verified with tests found vacuous |
| CodeLoopSpec.FlaggedTestsAreVacuous | hybrid_orchestrator.py:2065-2118 | tests are found vacuous only when the log shows some code and its mutant both passing them |
| CodeLoopSpec.RepairAcceptsFlagged | hybrid_orchestrator.py:2064-2118 | with both, a world without repeated specs whose clean verdicts depend on the code alone and whose result is verified with such tests |
| CodeLoopSpec.NoFlaggedTestsAcceptedIff | hybrid_orchestrator.py:1813-2260 | the exact condition on the settings, over all worlds with clean passes and distinct specs |
| CodeLoopSpec.NoSettingRulesOutRepeatedTests | hybrid_orchestrator.py:1958-1969 | with repeated specs no setting rules it out |
| RateLimiter.Limiter.Allow | web_security.py:155-166 | the deque after one request and the verdict |
| RateLimiter.LimiterRefinesCounter | web_security.py:143-166 | under a non-decreasing clock the verdicts are those of counting the full history |
| RateLimiter.FreshLimiterRefinesCounter | web_security.py:143-166 | in particular for a new limiter |
| RateLimiter.WindowBound | web_security.py:143-166 | in any run under a non-decreasing clock every closed interval of one window holds at most max requests of a key that the limiter accepted |
| RateLimiter.VerdictIff | web_security.py:143-166 | under a non-decreasing clock a request passes exactly when fewer than max requests of its key passed in the window that ends with it |
| RateLimiter.VerdictsAgreeFromNowOnIff | web_security.py:155-166 | after readings in any order, all continuations under a clock that no longer steps back get the naive verdicts if and only if each deque ascends once its expired head is gone |
| RateLimiter.SettledForEveryWindowIff | web_security.py:155-166 | whatever the window, that is: the remembered times ascend |
| RateLimiter.ClockStepBackMisleads | web_security.py:155-166 | an instance: three readings on which the verdicts part |
| BodyGuard.Guard.Receive | web_security.py:84-96 | the guard delivers messages as long as the bytes seen stay within the limit |
| BodyGuard.BytesAdd | web_security.py:84-96 | only the sizes of the chunks count, however a body is cut into messages |
| Reputation.ReputationStore.RecordOutcome | federation_server.py:312-327 | the clamped update of one identity |
| Reputation.IdentitiesAreIndependent | federation_server.py:312-340 | a score is a fold over the reports about its own identity and stays in [0, 1] |
| Reputation.HistoryIsOneWindow | federation_server.py:312-327 | any history acts on every starting score as one clamped shift |
| Reputation.ReportMoves | federation_server.py:312-404 | what each kind of report does to a score |
| Reputation.TwoRefutationsSilence | federation_server.py:273-340 | two results judged wrong in a row bring any score, and its gossip factor, to 0 |
| Reputation.OneRefutationDoesNot | federation_server.py:273-340 | one does not |
| Reputation.FirstReportSilencesIff | federation_server.py:268-340 | a new node starts at 0.7, and its first report silences it exactly when it is a refutation |
| Reputation.GossipsIff | federation_server.py:333-340 | a node gossips exactly from a score of 0.3 on, with its score for a weight |
| Gossip.Coordinator.SonaSync | federation_server.py:1147-1182 | the merge loop and its two counters |
| Gossip.StoredPatternIsWeightiest | federation_server.py:1147-1182 | over any run of syncs the stored weight is the largest positive factor offered for the id, and the stored pattern the last one offered with it |

## Left out

- FederationMemory.InMemoryFederationState.Claim: each federation operation is one atomic step at one reading of the clock; the interleaving of the Redis commands inside `complete`, `heartbeat` and `reap_stale_claims` is not modelled.
- RedisBackend.RedisFederationState.Claim: models the Lua script only; the WATCH/MULTI fallback may answer None with work pending.
- RedisStamps.OlderSortsFirst: stamps are integer microseconds printed with ten digits of seconds and six of fraction; other renderings of the clock are not covered.
- FederationRefinement.RedisRefinesMemory: compares records after reading empty strings as absent, since Redis stores them so; it asks for distinct creation stamps and a non-empty worker name.
- WorkerSurvival.TimeoutIsEnoughIff: worker and coordinator share one clock; the claim's answer takes no longer than a post; a post may be handled at several of the URLs it is tried at, and these share one coordinator state.
- FederationWorker.FederatedQueue.HeartbeatLoop: the end of the job is the number of whole intervals it lasts; the claim loop and the final report are not modelled.
- JobQueueObject.JobQueue.Start: not called while an earlier dispatcher is still ending; the invariant is that of a queue started once, before the first submission, with max_concurrent at least 1. Records of one id share one status and one task here; in the source a second start makes a second job object, with a status of its own.
- JobQueueObject.JobQueue.Cancel: drops the first record of the id; where a second start has left two, the source drops the first that equals the newer one in every field, callback included.
- JobQueueObject.JobQueue.RemoveFromFile: file writes succeed, and every line ends in a newline; a failed write is only reported by the source, and a line cut short would swallow the next one appended.
- JobQueueObject.JobQueue.Finish: the orchestrator call ends in any of the three ways whether or not cancellation was asked for, as it may swallow the request.
- JobQueueObject.JobQueue.Submit: results, timestamps and the audit entries written at each transition are not fields of the model.
- JobTheorems.RestMeansDone: a job submitted after the dispatcher has returned stays pending and in the file; the statement is about the earlier ones.
- AuditLog.BiTemporalAuditLog.VerifyChain: a chain field that is present but null skips its test in the source; the tamper theorems ask for files without such fields.
- AuditLog.MigrateLegacyLog: without a signer and to an empty target file.
- AuditQueries.CurrentState: timestamps are integers, so the text order of ISO stamps is taken as given.
- RouteCache.Cache.Put: one cache of the two that share the code, with size at least 1; texts are not normalised here.
- ResultCache.CLRResultCache.Lookup: saving and dimension errors are not modelled; similarity, argsort and the vector store's nearest entry are parameters.
- ClusterLoops.Chunked: the same similarity function as the direct loop; the chunked source code adds 1e-10 to the norms, which the model ignores.
- ClusterLoops.FindClusters: the vector store's clusters are a parameter, and may overlap; the theorems on separate clusters are about the local ones.
- Synthesis.SynthesizeTrajectories: min_cluster_size is at least 1; re-verification is a parameter, and embeddings and saving are left out.
- FencePrinter.ParseOfPrint: lower-casing is a parameter; a printed tag is one word that it leaves alone.
- CodeLoop.Orchestrator.Draft: calls gathered in parallel are numbered in candidate order, which loses nothing as each service answers every call arbitrarily; prompts, few-shot context and temperatures are left out.
- CodeLoop.Orchestrator.MutationCheck: the mutation operators are one deterministic parameter.
- Reputation.HistoryIsOneWindow: scores are real numbers, without rounding.
- HTTP, FastAPI routing, TLS, CORS, API keys, payload encryption and signature internals: plumbing over libraries.
- Embeddings, retrieval, NLI, Docker and Wasm execution, keyword routing and compute-limit heuristics: foreign calls or tables.
- Mirroring of inserts into a vector store: ids are derived from the current length and reused after an eviction.
- `scoring.py`, `serialization.py`, `vt_config.py`, `format_enforcer.py`, `math_solver.py`, `tool_callbacks.py`: small decisions that would only add easy members.
