# Coordination layer, verified

A Dafny model of the multi-agent coordination layer (task queue, shared state, message bus,
agent monitor) and of five self-contained stateful algorithms beside it (sliding-window rate
limiter, text chunker, in-memory vector search, memory graph, login lockout), with proofs of
what they promise over every run and every input.

To check it: `dafny verify dfyconfig.toml`.

## How the model is laid out

Each stateful component comes in up to three layers.

* `...Model` modules say what one operation does to a value (`Complete(q, id, now)`), and what
  a run is: a sequence of events of any length, applied from the empty state. `Legal` runs are
  those that follow the client protocol.
* The class (`TaskQueue.Queue`, `SharedState.SharedState`, ...) keeps the program's own fields:
  dictionaries in insertion order, objects changed in place, bounded deques. Every method is
  proved to move the class's `View()` exactly as the model's function does, with the loops and
  early returns of the program.
* The remaining modules prove theorems about the model, hence about the class. Many of them say what
  an operation or a run leaves behind without the functions that compute it, so that these cannot
  be wrong together.

| component | modules |
|---|---|
| task queue | `TaskQueueModel`, `TaskQueue`, `TaskQueueSafety`, `TaskQueueLiveness`, `TaskQueueAccounting`, `TaskQueueProspects`, `TaskQueueRecords` |
| shared state | `SharedStateModel`, `SharedState`, `SharedStateExpiry`, `SharedStateLog`, `SharedStateUpdates`, `SharedStateWrites` |
| rate limiter | `RateLimit` |
| chunker | `Text`, `Chunker`, `ChunkerWords`, `ChunkerStructure`, `ChunkerProperties`, `ChunkerOptimality` |
| vector search | `Cosine`, `Ranking`, `Retriever` |
| memory graph | `MemoryGraphModel`, `MemoryGraph` |
| message bus | `Topics`, `MessageBusModel`, `MessageBusProperties`, `MessageBus` |
| agent monitor | `Coordinator` |
| login lockout | `Lockout` |
| shared by several | `Collections`, `StableSort` |

Clocks are parameters. Floating-point numbers are reals. A square root is a parameter with its
defining property. The relevance of a memory node to a query is an arbitrary function of the
query, the content and the embedding. Checking a password is a boolean parameter.

## What the code does that its documentation does not say

The model follows the code; each of these is stated exactly, most of them as an equivalence.

* `chunk` says that chunks are at most `chunk_size` long. For texts without overlong words this
  holds for all texts if and only if overlap is off (`SizePromiseNeedsNoOverlap`). Without
  overlap it holds for a text if and only if it holds for each of its words
  (`SizeHoldsWithoutOverlap`).
* `get_ready_tasks` says that dependencies are satisfied, but only looks at the status. In every
  state that protocol runs reach the two are the same (`ReadyIsRunnable`). A call outside the
  protocol, made in such a state, never breaks this if it is `mark_completed`
  (`ReadyAfterComplete`); when `mark_running` and `mark_failed` do is in `ReadyAfterStart` and
  `ReadyAfterFail`. The coordinator's `fail_task` lets any id through to `mark_failed`: a task that
  still waits becomes ready by failing (`FailureBreaksReadyList`). When such calls break the whole
  invariant, which says more than the ready list, is in `StartNeedsPending`, `CompleteNeedsRunning`
  and `FailNeedsRunning`.
* `set` on an expired entry that nobody has swept continues its version and keeps its time to
  live, so a write can vanish that would have stayed after a sweep (`SetAfterSweep`,
  `SetVersionAfterSweep`); `delete` then returns true although no reader can tell that it was
  called (`DeleteAgreesWithReaders`). `StaleEntryShows` is a run that ends in such a state.
* The pattern `agent.**` also matches topics that go on in the middle of the last segment, such
  as `agents` (`DoubleStarOvermatches`, `AgentsIsNoAgent`), and what follows the stars elsewhere in
  a pattern is glued to what goes before them (`DoubleStarAnywhere`).
* `allow` reads the clock before it takes the lock, so threads can be served out of order. The
  window bound survives this exactly for limits up to one (`BoundNeedsOrder`).
* The monitor sleeps for its interval and then works, so its passes are more than 15 seconds
  apart; the detection band is stated for every gap (`DetectionBand`, `BandIsTight`).
* `query` with a limit of zero or less still returns one node (`QueryIsBruteForce`).

## Model

| member | source | states |
|---|---|---|
| TaskQueueSafety.ReachableInv | src/agent/coordination/task_queue.py:110-224 | in every state that protocol runs reach, pending, running, completed and dead tasks have all dependencies completed, no waiting task does (no lost wake-up), time stamps, error and retry counts follow the status, and the running counter is the number of running tasks |
| TaskQueueSafety.StepKeepsInv | src/agent/coordination/task_queue.py:110-239 | each of the six client operations keeps that invariant |
| TaskQueueSafety.AddKeepsInv | src/agent/coordination/task_queue.py:110-120 | adding a fresh task keeps the invariant, whichever of the two states it is given |
| TaskQueueSafety.CompleteKeepsInv | src/agent/coordination/task_queue.py:158-202 | completing a running task and waking its dependents leaves no dependent behind and wakes none too early |
| TaskQueueSafety.FailKeepsInv | src/agent/coordination/task_queue.py:170-224 | failing a running task keeps the invariant through both retry and dead letter |
| TaskQueueLiveness.ClosureCompleted | src/agent/coordination/task_queue.py:189-202 | along any dependency path from a released task everything is completed |
| TaskQueueLiveness.CompletionOrderIsTopological | src/agent/coordination/task_queue.py:158-168 | the order of completions in a run lists each completed task once, after all of its dependencies |
| TaskQueueLiveness.StuckHasReason | src/agent/coordination/task_queue.py:189-202 | with nothing pending or running, from each waiting task a chain of waiting tasks leads to a cancelled, dead or absent one or into a cycle |
| TaskQueueLiveness.NoStuckWork | src/agent/coordination/task_queue.py:158-202 | with acyclic present dependencies and no casualties, a queue at rest has completed everything |
| TaskQueueLiveness.RestMeansDone | src/agent/coordination/task_queue.py:110-202 | a run at rest completed everything if and only if dependencies are acyclic and present and nothing was cancelled or dead-lettered |
| TaskQueueLiveness.DoomedForever | src/agent/coordination/task_queue.py:122-133 | a set of tasks that are cancelled or wait for one another is never released, whatever clients do next |
| TaskQueueLiveness.RestIsFinal | src/agent/coordination/task_queue.py:158-202 | after a rest with dependencies present and no dead letters, what is not completed never will be |
| TaskQueueProspects.HelpToRest | src/agent/coordination/task_queue.py:110-202 | every reachable queue can be brought to rest by adding what is missing, under ids never used before, and running tasks to completion, without cancelling, failing or clearing anything |
| TaskQueueProspects.CanCompleteUnlessLost | src/agent/coordination/task_queue.py:110-239 | given that no id is used twice, some continuation of the run completes a task if and only if it is in no lost set: cancelled, dead, cleared away, or waiting for a member |
| TaskQueueProspects.LostForever | src/agent/coordination/task_queue.py:122-133 | no continuation that uses no id twice completes a member of a lost set |
| TaskQueueProspects.DeadNeverCompletes | src/agent/coordination/task_queue.py:233-239 | a dead letter never completes, cleared or not |
| TaskQueueAccounting.MeasureDrops | src/agent/coordination/task_queue.py:122-185 | between additions each start, completion, failure and effective cancellation strictly lowers the measure and nothing raises it |
| TaskQueueAccounting.WorkIsBounded | src/agent/coordination/task_queue.py:122-216 | every run does at most three working steps per permitted attempt of the tasks added, and the measure is what is not yet spent |
| TaskQueueAccounting.AttemptsAreExact | src/agent/coordination/task_queue.py:148-156 | starts of a task are counted exactly by its fields, never exceed max_retries + 1, and a dead letter used them all |
| TaskQueueAccounting.ClampNeverActs | src/agent/coordination/task_queue.py:166-178 | the running counter is exact in every reachable state, at least one whenever something runs |
| TaskQueueAccounting.StartNeedsPending | src/agent/coordination/task_queue.py:148-156 | off the protocol, mark_running keeps the invariant if and only if the task is pending or unknown |
| TaskQueueAccounting.CompleteNeedsRunning | src/agent/coordination/task_queue.py:158-168 | off the protocol, mark_completed keeps the invariant if and only if the task is running or unknown, or completed already while nothing runs |
| TaskQueueAccounting.FailNeedsRunning | src/agent/coordination/task_queue.py:170-185 | off the protocol, mark_failed keeps the invariant if and only if the task is running or unknown, or nothing runs and it is dead, pending with retries left, cancelled with retries left and dependencies met, or completed with no released task depending on it |
| TaskQueueAccounting.ReadyAfterStart | src/agent/coordination/task_queue.py:148-156 | off the protocol, mark_running leaves ready and runnable the same if and only if it takes back no completion that a pending task relies on |
| TaskQueueAccounting.ReadyAfterComplete | src/agent/coordination/task_queue.py:158-168 | mark_completed always does, whatever the status of the task |
| TaskQueueAccounting.ReadyAfterFail | src/agent/coordination/task_queue.py:170-185 | mark_failed does if and only if it takes back no such completion and retries no task with unmet dependencies |
| TaskQueueAccounting.FailureBreaksReadyList | src/agent/coordination/coordinator.py:253-255 | a run after which reporting the failure of a waiting task puts it on the ready list although it may not run |
| TaskQueueAccounting.ReadyIsRunnable | src/agent/coordination/task_queue.py:139-146 | in every reachable state the ready list is exactly the tasks that may run by the documentation, once each, by priority, then creation, then insertion |
| TaskQueueRecords.StatusIsExact | src/agent/coordination/task_queue.py:110-239 | each protocol step moves the status of every task along the lifecycle and nowhere else; a waiting task moves exactly with the completion of its last missing dependency |
| TaskQueueRecords.EndedAs | src/agent/coordination/task_queue.py:122-185 | over every run the result of a completed task, the error of a dead one and the time at which a task ended are those of the event that ended it |
| TaskQueueRecords.StartedBy | src/agent/coordination/task_queue.py:148-156 | a start time is that of the last start |
| TaskQueueRecords.AddedAs | src/agent/coordination/task_queue.py:110-120 | priority, creation time, dependencies and retry limit are still those of the task as it was last added |
| TaskQueueRecords.ClearingIsExact | src/agent/coordination/task_queue.py:233-239 | clearing takes out the dead letters, as many as it reports, and leaves every other record as it is |
| TaskQueue.Queue.AddTask | src/agent/coordination/task_queue.py:110-120 | the new task ends up pending or waiting by its dependencies; nothing else moves |
| TaskQueue.Queue.CancelTask | src/agent/coordination/task_queue.py:122-133 | cancels exactly pending and waiting tasks and says whether it did |
| TaskQueue.Queue.GetReadyTasks | src/agent/coordination/task_queue.py:139-146 | returns the very task objects of the model's ready list, in its order |
| TaskQueue.Queue.MarkRunning | src/agent/coordination/task_queue.py:148-156 | starts a known task and counts it; unknown ids change nothing |
| TaskQueue.Queue.MarkCompleted | src/agent/coordination/task_queue.py:158-168 | completes a known task with its result, then promotes all waiting tasks whose dependencies are now met |
| TaskQueue.Queue.MarkFailed | src/agent/coordination/task_queue.py:170-185 | requeues with cleared bookkeeping while retries are left, else dead-letters with the error kept |
| TaskQueue.Queue.CheckDependencies | src/agent/coordination/task_queue.py:189-195 | true exactly if every dependency is present and completed |
| TaskQueue.Queue.UnblockDependents | src/agent/coordination/task_queue.py:197-202 | the one-by-one sweep promotes exactly the tasks that were ready when it began |
| TaskQueue.Queue.RetryTask | src/agent/coordination/task_queue.py:206-216 | pending again, one more retry used, error and time stamps cleared |
| TaskQueue.Queue.ClearDeadLetters | src/agent/coordination/task_queue.py:233-239 | removes exactly the dead letters, returns their number, keeps the order of the rest |
| StableSort.SortIsStable | src/agent/coordination/task_queue.py:145 | the sort is ordered and leaves every class of ties as it was |
| StableSort.StableSortUnique | src/agent/coordination/task_queue.py:145 | no other list is a stable sort of the input |
| StableSort.SortPermutes | src/agent/coordination/task_queue.py:145 | the sort is a permutation, by multiset |
| StableSort.TiesKeepOrder | src/agent/coordination/task_queue.py:145 | ties come out in the order in which they went in |
| SharedStateExpiry.SweepChangesNoRead | src/agent/coordination/shared_state.py:144-164 | for any run of sections with a non-decreasing clock, sweeping at the start changes no later read of a key until it is next set |
| SharedStateExpiry.StepKeepsSame | src/agent/coordination/shared_state.py:166-297 | stores that readers of a key cannot tell apart stay so through every section but a set of the key |
| SharedStateExpiry.SweepIsInvisible | src/agent/coordination/shared_state.py:347-351 | a sweep changes no read at that time or later, for any key |
| SharedStateExpiry.TouchIsInvisible | src/agent/coordination/shared_state.py:144-164 | neither does the removal that a read does on its way |
| SharedStateExpiry.LiveIsPointwise | src/agent/coordination/shared_state.py:202-212 | the view behind keys and items is what single-key reads see one by one |
| SharedStateExpiry.SetAfterSweep | src/agent/coordination/shared_state.py:109-127 | set with and without a sweep before it leave readers the same values from then on if and only if no expired entry is in place or the call brings a time to live |
| SharedStateExpiry.SetVersionAfterSweep | src/agent/coordination/shared_state.py:109-129 | and the same version if and only if no expired entry is in place |
| SharedStateExpiry.DeleteAgreesWithReaders | src/agent/coordination/shared_state.py:166-176 | delete returns true exactly when it takes something from readers, if and only if no expired entry is in place |
| SharedStateExpiry.StaleEntryShows | src/agent/coordination/shared_state.py:109-117 | a run that leaves an expired entry in place, and what set and delete then do with and without a sweep |
| SharedStateLog.LogIsChained | src/agent/coordination/shared_state.py:105-139 | over every run, each event of a key updates the one before (version one higher, its value as old value), ends that life at its version, or starts a new life at version 1 with no old value; and a stored key's last event is its set |
| SharedStateLog.StoreIsReplay | src/agent/coordination/shared_state.py:166-221 | the store is the replay of the whole log less exactly the keys lost to silent expiry or clear and not set since |
| SharedStateLog.GhostsAreExact | src/agent/coordination/shared_state.py:214-221 | key by key: replay has it exactly if the store does or it was lost silently, never both |
| SharedStateLog.ReplayIsLastEvent | src/agent/coordination/shared_state.py:353-370 | replaying gives each key the value and version of its last event, and drops it if that was an end |
| SharedStateUpdates.NoLostUpdates | src/agent/coordination/shared_state.py:225-297 | in every interleaving, while a key stays its value is the fold of the successful updates in commit order and its version rose by their number |
| SharedStateUpdates.UnexpiringKeyStays | src/agent/coordination/shared_state.py:336-341 | a key without time to live stays for the whole such run |
| SharedStateUpdates.GoneStaysGone | src/agent/coordination/shared_state.py:236-242 | a key not stored stays out, and no update of it succeeds |
| SharedStateWrites.SetIsSeen | src/agent/coordination/shared_state.py:93-142 | from then on readers see exactly the value given, under the caller's name and the next version, until the effective time to live runs out, then nothing; other keys look the same; one event with the call's own data |
| SharedStateWrites.AtomicUpdateIsSeen | src/agent/coordination/shared_state.py:225-261 | on a live key readers see the function of the old value, one version on and fresh for another time to live; otherwise nothing anybody could see happens |
| SharedStateWrites.CompareAndSetIsSeen | src/agent/coordination/shared_state.py:263-297 | the same with the value proposed, exactly if the live value is the one expected |
| SharedStateWrites.DeleteIsSeen | src/agent/coordination/shared_state.py:166-189 | nobody sees the key again, other keys look the same, one event if and only if it was stored |
| SharedStateWrites.CleanupIsRecorded | src/agent/coordination/shared_state.py:353-370 | one event for each entry that readers no longer saw, in store order, with its last value and version |
| SharedStateWrites.ValueComesFrom | src/agent/coordination/shared_state.py:93-297 | in every run a stored value is the one its last set gave, folded with the updates that succeeded since, in commit order |
| SharedState.SharedState.Set | src/agent/coordination/shared_state.py:93-142 | new entry at version 1, or old entry raised by one with its time to live unless a new one is given; one event; the stored object is returned |
| SharedState.SharedState.Get | src/agent/coordination/shared_state.py:144-153 | answers from the live view; drops at most the expired entry in its way, without event |
| SharedState.SharedState.GetEntry | src/agent/coordination/shared_state.py:155-164 | returns the stored object itself exactly if it is live |
| SharedState.SharedState.Delete | src/agent/coordination/shared_state.py:166-189 | removes a stored key, expired or not, with one event, and says whether it was stored |
| SharedState.SharedState.Exists | src/agent/coordination/shared_state.py:191-200 | true exactly for keys in the live view |
| SharedState.SharedState.Keys | src/agent/coordination/shared_state.py:202-206 | exactly the live keys, once each |
| SharedState.SharedState.Items | src/agent/coordination/shared_state.py:208-212 | exactly the live keys with their values |
| SharedState.SharedState.Clear | src/agent/coordination/shared_state.py:214-221 | empties the store without events and returns how many entries it held |
| SharedState.SharedState.AtomicUpdate | src/agent/coordination/shared_state.py:225-261 | a live key gets the function of its own value, one version higher, with one event; else nothing but the silent drop |
| SharedState.SharedState.CompareAndSet | src/agent/coordination/shared_state.py:263-297 | succeeds exactly if the live value equals the expected one; failure changes nothing readers see |
| SharedState.SharedState.GetChangeHistory | src/agent/coordination/shared_state.py:319-321 | the last events of the whole history, out of the last 1000 |
| SharedState.SharedState.IsExpired | src/agent/coordination/shared_state.py:336-341 | exactly when more than the time to live has passed since the last write |
| SharedState.SharedState.SweepExpiredUnlocked | src/agent/coordination/shared_state.py:347-351 | leaves exactly the live entries, in order |
| SharedState.SharedState.CleanupExpired | src/agent/coordination/shared_state.py:353-370 | a sweep that logs one EXPIRED event for each entry dropped, in store order |
| SharedState.SharedState.Log | src/agent/coordination/shared_state.py:87 | the deque holds exactly the last 1000 events of the whole history |
| RateLimit.RateLimiter.Allow | src/core/rate_limit.py:56-66 | serves the key as the deque machine does and touches no other; with an ordered clock it decides as the full history calls for and keeps exactly the admissions inside the window |
| RateLimit.ServingIsExact | src/core/rate_limit.py:56-66 | over every ordered run the deque machine admits exactly what a limiter that remembers everything would, and forgets only hits that are too old to matter |
| RateLimit.EvictIsRecent | src/core/rate_limit.py:61-62 | popping from the left removes exactly the hits outside the window |
| RateLimit.WindowBound | src/core/rate_limit.py:56-66 | every closed interval of one window holds at most limit admissions of a key |
| RateLimit.LongRunBound | src/core/rate_limit.py:56-66 | n windows in a row hold at most n times the limit |
| RateLimit.RateBound | src/core/rate_limit.py:56-66 | every interval of length L holds at most (floor(L / window) + 1) * limit |
| RateLimit.BoundIsAttained | src/core/rate_limit.py:56-66 | runs on an ordered clock exist that admit n * limit within any length above n - 1 windows, so the bound cannot be lowered |
| RateLimit.DequeShape | src/core/rate_limit.py:60-65 | the deque is never longer than the limit, and sorted while the clock is ordered |
| RateLimit.RefusedExactlyWhenFull | src/core/rate_limit.py:63-64 | a request is refused if and only if exactly limit admissions lie in its window |
| RateLimit.Recovers | src/core/rate_limit.py:61-66 | strictly more than a window after the last admission a request is admitted, if and only if the limit is positive |
| RateLimit.KeysAreIndependent | src/core/rate_limit.py:60 | what a key is granted is what it would be granted alone |
| RateLimit.BoundNeedsOrder | src/core/rate_limit.py:58-59 | if requests may carry their times in any order, the window bound holds for all runs if and only if the limit is at most one |
| ChunkerProperties.WordsAreConserved | src/features/rag/chunker.py:41-129 | each chunk is a carried tail of the piece before it and a text of its own, and the words of these texts in order are exactly the words of the input, for every text |
| ChunkerProperties.WordsAreConservedExactly | src/features/rag/chunker.py:41-129 | without overlap the words of the chunks are exactly the words of the input |
| ChunkerStructure.PlanCutsUp | src/features/rag/chunker.py:59-82 | the pieces of a text use up its sentences in order; between pieces of whole sentences every cut is forced, since the next sentence would not fit, and with overlap exactly these carry the tail of the text before; the chunks of a long sentence follow one another and carry nothing |
| ChunkerStructure.PlanIsTheOnlyWay | src/features/rag/chunker.py:41-129 | pieces obey this if and only if they are those of the packing: the rules leave no other outcome |
| ChunkerStructure.ChunksAreExact | src/features/rag/chunker.py:63-82 | each chunk is the carried tail and the text of its piece, less the spaces at the ends |
| ChunkerProperties.TailIsExact | src/features/rag/chunker.py:95-104 | overlap repeats the end of the text before, from behind the first blank among its last characters, or all of them if there is none |
| ChunkerProperties.ChunkSizes | src/features/rag/chunker.py:59-82 | every chunk is non-empty and stripped, and fits, or is one overlong word, or is one sentence behind a carried tail at most overlap + 1 too long |
| ChunkerProperties.SizeHoldsWithoutOverlap | src/features/rag/chunker.py:106-129 | without overlap all chunks fit if and only if all words do |
| ChunkerProperties.SizeHoldsWithRoom | src/features/rag/chunker.py:95-104 | with overlap all chunks fit if all words do and every sentence that fits leaves room for a tail and a blank |
| ChunkerProperties.SizePromiseNeedsNoOverlap | src/features/rag/chunker.py:44-47 | the documented size holds for all texts of fitting words if and only if overlap is zero |
| ChunkerOptimality.GreedyStaysAhead | src/features/rag/chunker.py:106-129 | no layout of the same units has fewer lines at any point, or as many with an emptier last one |
| ChunkerOptimality.GreedyIsLayout | src/features/rag/chunker.py:106-129 | the packed chunks are the lines of a layout of the units, joined |
| ChunkerOptimality.LongSentenceIsOptimal | src/features/rag/chunker.py:106-129 | splitting a long sentence yields a layout of its words with the fewest chunks possible |
| ChunkerOptimality.ChunkingIsOptimal | src/features/rag/chunker.py:59-82 | without overlap and with fitting sentences the chunks are a layout of whole sentences, and no layout has fewer |
| Chunker.Create | src/features/rag/chunker.py:27-35 | construction succeeds if and only if 0 <= overlap < chunk_size, and keeps both |
| Chunker.Chunk | src/features/rag/chunker.py:41-84 | the loop with its early returns, for every text, gives the rendered pieces that the theorems are about |
| Chunker.SplitLongSentence | src/features/rag/chunker.py:106-129 | the word loop gives the greedy packing of the sentence's words |
| Chunker.PackWordsKeepsWords | src/features/rag/chunker.py:106-129 | packing words loses and reorders none |
| Chunker.PackWordsFits | src/features/rag/chunker.py:115-129 | each packed chunk is stripped, non-empty and fits, or is a single overlong word |
| Text.PartsKeepWords | src/features/rag/chunker.py:90-93 | sentence splitting loses no word |
| Text.PartsAreExact | src/features/rag/chunker.py:25 | parts have no sentence end inside, all but the last end in one, all but the first start behind the spaces |
| Text.WordsSplitAtSpace | src/features/rag/chunker.py:108 | a cut beside a space does not cut a word |
| Text.StripFacts | src/features/rag/chunker.py:61-62 | stripping keeps the words, leaves no space at either end, and gives nothing exactly for blank text |
| Text.StripIs | src/features/rag/chunker.py:61-62 | stripping takes spaces off the ends and touches nothing in between |
| Text.PartsRebuild | src/features/rag/chunker.py:90-93 | the parts with spaces put back between them are the text |
| Cosine.DotAdds | src/features/rag/retriever.py:454 | the product of vectors is additive |
| Cosine.DotScales | src/features/rag/retriever.py:454 | and homogeneous, for factors of either sign |
| Cosine.DotUnit | src/features/rag/retriever.py:454 | the product with a unit vector is the component |
| Cosine.DotIsTheOnlyProduct | src/features/rag/retriever.py:454 | no other function obeys these three laws |
| Cosine.CauchySchwarz | src/features/rag/retriever.py:444-461 | the inequality, for vectors of any length |
| Cosine.CosineIs | src/features/rag/retriever.py:444-461 | the score times both lengths is the product, and zero if a length is zero |
| Cosine.MultiplesScoreOne | src/features/rag/retriever.py:444-461 | a nonzero vector scores 1 with every positive multiple of itself and -1 with every negative one |
| Cosine.OrthogonalScoresZero | src/features/rag/retriever.py:444-461 | orthogonal vectors score 0 |
| Cosine.CosineBounded | src/features/rag/retriever.py:444-461 | every score lies in [-1, 1] |
| Cosine.CosineSelf | src/features/rag/retriever.py:458-461 | a vector scores 1 with itself if it is not zero, else 0 |
| Cosine.SimilarityBounded | src/agent/sovereign/memory_graph.py:32-42 | the memory graph's similarity has the same bound and agrees with the retriever's on equal lengths |
| Retriever.TopKIsExact | src/features/rag/retriever.py:391 | the cut ranking holds the min(k, n) best, in descending order, ties by position, each beating everything left out |
| Retriever.SearchIsTopK | src/features/rag/retriever.py:375-393 | a search returns these entries, each with its own metadata and a score in [-1, 1] |
| Retriever.StoredVectorScoresOne | src/features/rag/retriever.py:389-393 | querying a stored nonzero vector gives a top score of 1 |
| Retriever.MultiplesAreFound | src/features/rag/retriever.py:389-393 | a search for everything finds an entry that points the way of the query with score 1 and an opposite one with score -1, each with its metadata |
| Retriever.SameDirectionComesFirst | src/features/rag/retriever.py:389-393 | if any entry points the way of the query the first hit has score 1 |
| Retriever.SearchFails | src/features/rag/retriever.py:381-387 | a search fails if and only if it asks a nonempty store for something of another dimension |
| Retriever.AcceptedExactly | src/features/rag/retriever.py:184-208 | an addition is accepted if and only if it leaves the lists parallel and of one dimension and brings as many texts as vectors |
| Retriever.AddedBehind | src/features/rag/retriever.py:266-269 | what is added goes behind what is there, each vector with its own metadata |
| Retriever.Retriever.Add | src/features/rag/retriever.py:167-213 | succeeds exactly for acceptable input and is all or nothing; vectors and metadata stay parallel, of one dimension |
| Retriever.Retriever.Search | src/features/rag/retriever.py:271-302 | the outcome of the model's search, including both empty cases and the dimension error |
| Retriever.Retriever.Clear | src/features/rag/retriever.py:395-406 | back to the empty index, ready for any dimension |
| Ranking.RankedFacts | src/features/rag/retriever.py:391 | ranking is a descending permutation that keeps elements distinct |
| Ranking.DedupFacts | src/agent/sovereign/memory_graph.py:156-163 | keeping first occurrences keeps every element once and the descending order |
| Ranking.SameSetSameScores | src/agent/sovereign/memory_graph.py:154-163 | two descending rankings of the same things have the same scores whatever the order of ties |
| MemoryGraphModel.ReachableOk | src/agent/sovereign/memory_graph.py:72-109 | after any run of commits and links, each tag lists exactly its nodes, once each, in order of commitment, and links are mutual |
| MemoryGraphModel.CommitKeepsIndex | src/agent/sovereign/memory_graph.py:101-106 | a commit extends exactly the lists of the node's tags |
| MemoryGraphModel.LinkKeepsMutual | src/agent/sovereign/memory_graph.py:192-196 | linking keeps links mutual, with multiplicity, self-links included |
| MemoryGraphModel.QueryIsBruteForce | src/agent/sovereign/memory_graph.py:111-165 | a query through the index returns distinct matching nodes in descending order, as many as the limit allows, with the scores that ranking a full scan gives |
| MemoryGraphModel.QueryKeepsTo | src/agent/sovereign/memory_graph.py:122-132 | a query returns only nodes of the tier and with one of the tags asked for |
| MemoryGraphModel.QueryIsTop | src/agent/sovereign/memory_graph.py:122-165 | it leaves such a node out only once it has as many as the limit, none of them less relevant |
| MemoryGraphModel.CommittedAs | src/agent/sovereign/memory_graph.py:72-109 | after any run each node is as it was committed, but for its links |
| MemoryGraphModel.LinksAreCounted | src/agent/sovereign/memory_graph.py:192-196 | and lists another exactly as often as the two were linked while both were known |
| MemoryGraph.SovereignMemory.Commit | src/agent/sovereign/memory_graph.py:72-109 | stores the node and indexes it under each of its tags, whatever the order of the set |
| MemoryGraph.SovereignMemory.Query | src/agent/sovereign/memory_graph.py:111-165 | returns the node objects of the model's query |
| MemoryGraph.TakeUnique | src/agent/sovereign/memory_graph.py:156-163 | the loop with its early exit gives the first occurrences, cut at the limit |
| MemoryGraph.SovereignMemory.LinkNodes | src/agent/sovereign/memory_graph.py:192-196 | appends the link on both sides, or changes nothing if either node is unknown |
| MessageBusProperties.ReachableInv | src/agent/coordination/message_bus.py:96-191 | in every reachable state published is dispatched followed by queued, and the table is the list of current subscriptions grouped by pattern |
| MessageBusProperties.GroupedLikeFlat | src/agent/coordination/message_bus.py:176-181 | dispatching through the table gives each subscription what going through a flat list would |
| MessageBusProperties.SubscriptionGetsItsMessages | src/agent/coordination/message_bus.py:166-191 | while subscribed, a subscription receives exactly the dispatched messages that match its pattern and filter, once each, in order of publication |
| MessageBusProperties.PlainSubscription | src/agent/coordination/message_bus.py:166-232 | without a wildcard a subscription receives exactly the messages dispatched meanwhile whose topic is its pattern and that pass its filter |
| MessageBusProperties.SingleStarSubscription | src/agent/coordination/message_bus.py:166-232 | with `prefix.*`, those with one segment more than the prefix |
| MessageBusProperties.DoubleStarSubscription | src/agent/coordination/message_bus.py:166-232 | with `prefix.**`, those whose topic starts with the characters of the prefix |
| MessageBusProperties.StarSubscription | src/agent/coordination/message_bus.py:166-232 | with `*` or `**`, all that pass its filter |
| MessageBusProperties.FirstInFirstOut | src/agent/coordination/message_bus.py:130-174 | after n dispatches the first n messages handed in have been dispatched and the others wait, in order |
| MessageBusProperties.UnsubscribeTakesOne | src/agent/coordination/message_bus.py:120-126 | unsubscribing takes away that subscription and no other |
| MessageBusProperties.NewSubscriptionStartsEmpty | src/agent/coordination/message_bus.py:110-118 | nothing dispatched earlier reaches a new subscription |
| MessageBusProperties.UnsubscribedGetsNothing | src/agent/coordination/message_bus.py:120-126 | a handle that is not subscribed receives nothing more |
| MessageBus.MessageBus.Subscribe | src/agent/coordination/message_bus.py:96-118 | appends to the pattern's list and to nothing else |
| MessageBus.MessageBus.Unsubscribe | src/agent/coordination/message_bus.py:120-126 | drops that subscription only, and the pattern if none is left |
| MessageBus.MessageBus.Publish | src/agent/coordination/message_bus.py:130-133 | puts the message last in the queue |
| MessageBus.MessageBus.Dispatch | src/agent/coordination/message_bus.py:166-191 | takes the oldest message, records it among the last 1000 and makes exactly the calls the model lists |
| MessageBus.MessageBus.FanOut | src/agent/coordination/message_bus.py:176-184 | the nested loops make these calls in table order |
| MessageBus.MessageBus.GetHistory | src/agent/coordination/message_bus.py:195-200 | out of the last 1000 dispatched, those of the topic, the last of them |
| Topics.PlainPattern | src/agent/coordination/message_bus.py:232 | a pattern that is no wildcard matches exactly the topic of the same segments |
| Topics.SingleWildcard | src/agent/coordination/message_bus.py:227-231 | `p.*` matches exactly the topics with one more segment than `p` |
| Topics.DoubleStarPrefix | src/agent/coordination/message_bus.py:224-226 | `q.**` matches exactly the topics that start with the characters of `q` |
| Topics.SegmentPrefix | src/agent/coordination/message_bus.py:218-220 | being under `q` by whole segments is being `q` or starting with `q` and a dot |
| Topics.DoubleStarOvermatches | src/agent/coordination/message_bus.py:218-226 | `q.**` agrees with being under `q` if and only if the topic does not continue the last segment of `q` |
| Topics.AgentsIsNoAgent | src/agent/coordination/message_bus.py:218-226 | the topic `agents` matches `agent.**` without being under `agent` |
| Topics.DoubleStarAnywhere | src/agent/coordination/message_bus.py:224-226 | `a**b`, cut at its first pair of stars, matches exactly the topics that start with `a` and the rest without its pairs of stars, glued together, less the dots at the end |
| Topics.CutAtFirst | src/agent/coordination/message_bus.py:224 | every pattern with `**` in it can be cut like that |
| Topics.StripDotsIs | src/agent/coordination/message_bus.py:225 | stripping drops exactly the dots at the end |
| Coordinator.DegradedMeansSilentAtTick | src/agent/coordination/coordinator.py:190-218 | in every run on an ordered clock, however irregular the passes, an agent is degraded if and only if it had been silent for more than 45 s at the last pass |
| Coordinator.RecordIsExact | src/agent/coordination/coordinator.py:123-203 | after every run an agent is known if and only if it was registered and not deregistered since, its time is that of its last registration or heartbeat, and unless degraded it is active if and only if it has signalled since it registered |
| Coordinator.StatusIsExact | src/agent/coordination/coordinator.py:123-218 | so its record can be told from the run alone |
| Coordinator.NeverTooEarly | src/agent/coordination/coordinator.py:211-213 | silent for 45 s or less is never degraded, whatever the monitor does |
| Coordinator.DetectionBand | src/agent/coordination/coordinator.py:205-218 | for every gap between passes: silent for 45 s or less is never degraded, silent for more than 45 s and the gap always is |
| Coordinator.EveryStateInBand | src/agent/coordination/coordinator.py:205-218 | the same in every state of a run whose passes are at most the gap apart |
| Coordinator.DetectionBandAtInterval | src/agent/coordination/coordinator.py:28-29 | with the nominal interval: never up to 45 s, always after 60 s |
| Coordinator.BandIsTight | src/agent/coordination/coordinator.py:205-218 | for every gap and every silence between the two limits, runs with either outcome exist |
| Coordinator.AgentCoordinator.RegisterAgent | src/agent/coordination/coordinator.py:123-135 | a new record replaces any of that name |
| Coordinator.AgentCoordinator.DeregisterAgent | src/agent/coordination/coordinator.py:157-178 | removes that agent only from the registry and says whether it was known |
| Coordinator.AgentCoordinator.ReceiveHeartbeat | src/agent/coordination/coordinator.py:190-198 | moves the time of a known agent and revives a registered or degraded one |
| Coordinator.AgentCoordinator.MonitorTick | src/agent/coordination/coordinator.py:205-218 | one pass degrades exactly the agents silent too long |
| Lockout.RecordCountsMisses | src/db/crud.py:147-166 | over every run the counter is the number of wrong passwords checked since the last success, and from the fifth on the lock ends 30 minutes after the last |
| Lockout.AcceptedExactly | src/db/crud.py:147-167 | after every run an attempt is accepted if and only if its password is right and it is not within thirty minutes of the fifth or a later miss in a row |
| Lockout.LockIffFive | src/db/crud.py:155-160 | a lock time is set if and only if the counter is at least five |
| Lockout.MissesBounded | src/db/crud.py:147-162 | with no success in between, at most 5 + floor(L / 30) wrong passwords are checked within L minutes of the first |
| Lockout.BoundIsAttained | src/db/crud.py:147-162 | runs exist that attain this |
| Lockout.LockHoldsThenLifts | src/db/crud.py:147-167 | while locked even the right password changes nothing; at the end of the lock it clears the account |
| Lockout.User.AuthenticateUser | src/db/crud.py:138-167 | accepts exactly a right password on an account not locked, and leaves the record as the model says in all three branches |

## Left out

Assumed of callers, because nothing in the code enforces it:

- Task ids, memory ids and subscription objects are distinct (they are random or compared by
  identity): the theorems about what can still complete use no id twice, the others allow the id of
  a cleared task to come back; `Unsubscribe` gets a subscription that was given out.
- The queue's client protocol: fresh tasks arrive pending, only pending tasks are started, only
  running ones finished. The methods themselves are modelled for every call; the run theorems are
  about this protocol.
- Clocks do not run backwards, where a lemma says `Ordered` or `ClockFrom`; for the rate limiter
  what happens otherwise is stated.
- Observer, subscriber and filter functions terminate, do not raise and do not touch the structure
  that calls them; `updater_fn` does not raise.

Not modelled:

- Task queue: `max_concurrent` (stored, never read), the retry delay (computed and logged, but the
  task is pending at once), the TIMEOUT status (never assigned), payload and metadata; a result is an optional string.
- Task queue: clients that change a task object's fields from outside, or add a task object a
  second time; the methods are modelled for such states, the run theorems do not cover them.
- Shared state: observers; one reading of the clock stands for the one or two a section makes;
  a section and the append to the log that follows it count as one step, and so does the whole of
  `_cleanup_expired`, although it releases control between its events.
- Shared state: values are a tree of numbers, strings and lists; other Python objects, and
  objects whose equality is not structural, are not part of this model.
- Rate limiter: parsing of the limit string, the middleware, the lock itself.
- Chunker: characters are Unicode code points; logging.
- Retriever: Qdrant, hybrid and sparse search, messages of the errors beyond their kind.
- Memory graph: the relevance score itself, the distillation of lessons, contexts, time stamps
  and confidence.
- Message bus: starting and stopping the loop, cancellation in the middle of a dispatch,
  subscribing or unsubscribing during a dispatch, exceptions in callbacks, `publish_sync`.
- Coordinator.AgentCoordinator.RegisterAgent: does not model the two entries it sets in the shared
  state and the message it publishes; `Set` and `Publish` say what these calls do.
- Coordinator.AgentCoordinator.DeregisterAgent: does not model the entry it sets and the message it
  publishes, for the same reason.
- Coordinator: task routing; registration and deregistration are one step each, so the moment in which an agent being deregistered is
  STOPPING but still listed is not visible.
- Lockout: other columns and accounts, database sessions, hashing, unknown user names.
- Statistics methods and simple look-ups, which would only add easy members.
- Floating-point rounding, everywhere.
