# Verified model of the agent orchestration engine

This project models the algorithms and protocols that the engine's services rely on, in Dafny, and
proves what they promise over all inputs and all runs. Redis, the databases, the agent SDK, the
embedding API, git and the parsers appear only as the maps, lists and results they hand back.

| file | models |
|---|---|
| `MemoryLimiter.dfy` | the in-memory sliding-window rate limiter, any interleaving of callers at the sleep |
| `RedisLimiter.dfy`, `RedisBounds.dfy` | the Redis rate limiter, N workers whose clock reads, checks and adds interleave freely |
| `JobQueue.dfy`, `JobQueueRuns.dfy`, `JobHolders.dfy` | the Redis job queue with its TTLs; every run with crashes, ticks and overlapping reclaim scans; who holds a job |
| `WorktreeLock.dfy` | the leased worktree lock; every run with crashes, expiry and field updates |
| `LeasedJobs.dfy` | queue and locks together: workers that pull jobs, lock their conversation and release it |
| `JobExecution.dfy` | the interrupt/auto-continue loop around the SDK, and the setup, lock, error and cleanup paths, while other workers use the same locks |
| `CodeGraph.dfy`, `CallChain.dfy`, `TraceFlow.dfy`, `EnclosingDef.dfy` | edge caches, level and queue breadth-first search, backtracking call chain, enclosing-definition search |
| `EmbeddingCache.dfy` | cached batch embedding |
| `RankFusion.dfy`, `RankPrecedence.dfy` | hybrid search by Reciprocal Rank Fusion |
| `PromptBudget.dfy`, `BudgetBounds.dfy` | assembling and truncating the system prompt under a token budget |
| `Transcript.dfy`, `Turns.dfy`, `TurnCuts.dfy` | incremental JSONL reading, grouping rows into turns, and turns over several invocations |
| `Chunker.dfy` | splitting oversized functions and the regular-expression fallback |
| `RetryLoop.dfy` | the memory worker's pop/process/retry loop and the dead-letter protocol |
| `ConversationKey.dfy` | lock keys, worktree paths and project directories as encodings of conversations |
| `Names.dfy`, `Text.dfy`, `Wrappers.dfy` | sorted names, string operations, optional values |

`dafny verify dfyconfig.toml` verifies all of it.

Where code that changes state is modelled, it is a class or a method with loops, and its contract
ties the new state to a function of the old one; the theorems are then about those functions and
about runs built from them. Time is a real number (milliseconds for the lock), read from a clock
that never goes back.

## Where the code and its promises differ

The model follows the code. These differences are theorems here:

- The Redis limiter is documented as safe for several workers. Because clock read, check and add are
  separate steps, n workers can put max + 2(n - 1) grants in one window; max + n - 1 if no worker is
  delayed between reading the clock and checking; max + 2n - 1 if the key may expire during such a
  delay. All three bounds are exact for every configuration (`RedisLimiter.EveryWindowWithinLimit`,
  `RedisBounds.LimitsAreAttained`).
- Pulling a job does not renew its data, so a slow job is re-queued while it runs, however often
  scans run (`JobQueueRuns.SlowJobRunsTwice`). A second worker can come to hold a job exactly when
  it is queued or overdue (`JobHolders.SecondHolderIff`). Scans never lose a job exactly when they
  lag by at most one TTL (`JobQueueRuns.DropThreshold`).
- A lock field update rewrites the TTL in whole seconds and so can end the lease early, at exactly the
  moments that round down (`WorktreeLock.UpdateCanShortenLease`). Mutual exclusion holds exactly for
  workers whose job ids differ (`WorktreeLock.MutualExclusionIff`), so a slow job, which the queue
  hands out twice, breaks it (`LeasedJobs.SlowJobBreaksExclusion`).
- The session signature is described as never truncated. It survives whole exactly when it fits next
  to the prompt content, and vanishes when the prompt content alone exceeds the budget
  (`PromptBudget.Assemble`).
- A limit below one makes the in-memory limiter read the head of an empty deque
  (`MemoryLimiter.RefinesIdealLimiter`); a file hint that matches no definition makes `trace_flow`
  read the head of an empty list (`TraceFlow.Trace`).
- Hits found by both searches precede the others for lists of m and n rows exactly when
  (m - 1)(n - 1) < 61 * 61, so for max_results exactly up to 61, while up to 100 may be asked for
  (`RankPrecedence.PrecedenceIff`, `RankPrecedence.MaxResultsThreshold`). A key repeated in the text
  list is labelled hybrid without a semantic hit (`RankFusion.FusionIsLabelled`).
- Every part of a split function is given the signature plus a newline, so the parts rebuild the
  function with an extra empty line when the body starts on its first line
  (`Chunker.PartsRebuildFunction`). Only the function node's direct children are looked at.
- A hook invocation that reads in the middle of a turn loses what follows, unless it tells the open
  turn nothing new (`TurnCuts.InvocationsEmitAllTurnsIff`, `TurnCuts.CutIsHarmlessIff`). A turn loses
  a message exactly when a row's id is the name a row without an id is given
  (`Turns.LatestVersionsInOrderIff`).
- The double dash keeps repositories apart exactly for owners without a double or a trailing hyphen.
  A conversation of any other owner that does not begin with a hyphen shares all its keys with that
  of another repository (`ConversationKey.OtherKeysCollide`); `ConversationKey.SharesKeyIff` says
  exactly which repositories share a key with another.

## Model

| member | source | states |
|---|---|---|
| `MemoryLimiter.Backend.Attempt` | shared/rate_limiter.py:52-82 | one pass of the acquire loop prunes, grants, times out, fails or sleeps as specified and changes only its own key's deque |
| `MemoryLimiter.EveryWindowWithinLimit` | shared/rate_limiter.py:46-82 | in every run of interleaved callers on any keys, every window (t-W, t] holds at most max_requests grants |
| `MemoryLimiter.RefinesIdealLimiter` | shared/rate_limiter.py:58-76 | the bounded deque answers like a limiter that remembers every grant; a caller is held back only with exactly max_requests grants in its window; the sleep is positive; the empty-deque error occurs iff the limit is below one and the call has not timed out |
| `MemoryLimiter.OutcomeIff` | shared/rate_limiter.py:56-76 | in every run a pass is granted iff fewer than max_requests grants lie in its trailing window, and times out iff at least that many do and its timeout has run out; it sleeps only before its deadline, until the oldest of the last max_requests grants is a window old |
| `MemoryLimiter.SleepIsExact` | shared/rate_limiter.py:73-82 | if nobody else is granted meanwhile, a later pass is granted iff the computed sleep has elapsed |
| `MemoryLimiter.PrunedIsTrailingWindow` | shared/rate_limiter.py:57-59 | after pruning, the deque is exactly the grants of the trailing window |
| `MemoryLimiter.WindowBound` | shared/rate_limiter.py:62-64 | grants spaced as the loop spaces them never exceed the limit in any window |
| `RedisLimiter.SortedSet.PruneAndCount` | shared/rate_limiter.py:120-131 | the atomic pipeline removes scores from 0 to the window start and counts the rest |
| `RedisLimiter.RefusedOnlyWhenFull` | shared/rate_limiter.py:116-134 | in every run a check that is refused has at least max_requests added entries later than a window before its reading |
| `RedisLimiter.PromptCheckIsExact` | shared/rate_limiter.py:116-134 | a check that runs on time passes iff fewer than max_requests grants lie in the trailing window |
| `RedisLimiter.SortedSet.Add` | shared/rate_limiter.py:136-137 | ZADD adds the entry and reports whether it was new |
| `RedisLimiter.EveryWindowWithinLimit` | shared/rate_limiter.py:115-142 | in every run of n workers, with the key expiring, every window holds at most max + 2n - 1 grants by score; at most max + 2(n-1) if the key does not expire; at most max + n - 1 when every check runs on time, which is exactly the limit for one worker |
| `RedisBounds.LimitsAreAttained` | shared/rate_limiter.py:115-142 | for every limit, window and n some run of each of the three kinds attains its bound, so none can be improved |
| `RedisLimiter.CheckKeepsInv` | shared/rate_limiter.py:120-134 | a check keeps the count of granted and pending entries of every window within the bound, before and after pruning has passed the window |
| `RedisLimiter.ExpireKeepsInv` | shared/rate_limiter.py:139-142 | when the key expires no window still open has an entry, so the bounds stand |
| `RedisLimiter.GrantRenewsKey` | shared/rate_limiter.py:139-142 | a grant keeps the key for the whole seconds of the window and a minute more |
| `JobQueue.Queue.CreateJob` | shared/job_queue.py:129-148 | data and status are written with the TTL and the id is appended to pending |
| `JobQueue.Queue.GetNextJob` | shared/job_queue.py:170-228 | the head is popped; with live data it moves to processing with a backup of twice the TTL, else to the dead letters |
| `JobQueue.Queue.CompleteJob` | shared/job_queue.py:272-290 | result and status are written, the job leaves processing and its backup is deleted |
| `JobQueue.Queue.VisitJob` | shared/job_queue.py:360-408 | one job of a reclaim scan is kept, re-queued without its token, or dropped |
| `JobQueue.Queue.ReclaimStaleJobs` | shared/job_queue.py:346-412 | in whatever order the set is listed, exactly the processing jobs without data leave; exactly those with a live backup are re-queued once each, stripped, and counted; nothing else changes |
| `JobQueue.VisitExtends` | shared/job_queue.py:360-408 | one iteration extends the description of the whole scan by its job |
| `JobQueue.ScanRestores` | shared/job_queue.py:374-390 | a whole scan gives exactly the stale jobs new data, with every field of their backup but the token, and the status pending |
| `JobQueueRuns.RunInv` | shared/job_queue.py:129-412 | every reachable state satisfies the conservation, exclusion, payload and timing invariants together |
| `JobQueueRuns.NothingIsLostOrDoubled` | shared/job_queue.py:129-412 | in every reachable state pending has no duplicates and is disjoint from processing, and every created job is pending, processing, completed, dead-lettered or dropped |
| `JobQueueRuns.PullReturnsCreatedPayload` | shared/job_queue.py:176-225 | every pull of a job that no scan has re-queued returns exactly the created payload; of a re-queued one exactly the created fields other than github_token, with the created values |
| `JobQueueRuns.BackupOutlivesScans` | shared/job_queue.py:204-225 | while finished scans lag by less than a TTL, every job in progress has a live backup |
| `JobQueueRuns.NoJobIsDropped` | shared/job_queue.py:346-408 | then no job is ever removed from processing for lack of a backup |
| `JobQueueRuns.DropThreshold` | shared/job_queue.py:346-408 | runs whose scans lag by less than L never drop a job if and only if L is at most one TTL |
| `JobQueueRuns.AbandonedJobIsRequeued` | shared/job_queue.py:346-408 | then a pulled job that nobody completes is re-queued before its backup, two TTLs from the pull, expires |
| `JobQueueRuns.LateScanDropsJob` | shared/job_queue.py:402-408 | for every lag above one TTL, however slightly, some run within that lag drops a job |
| `JobQueueRuns.SlowJobRunsTwice` | shared/job_queue.py:176-225 | for every TTL and however small the lag of the scans, a slow job runs on two workers at once |
| `JobHolders.FreshJobsRunOnce` | shared/job_queue.py:176-225 | if at every moment the jobs that workers hold still have live data, no job is ever held by two workers and every held job is in processing |
| `JobHolders.SecondHolderIff` | shared/job_queue.py:170-408 | at any moment of any run, a job that a worker holds can come to be held by two at that moment if and only if two already hold it, it is queued with live data, or it is overdue: in processing with its data expired and its backup live |
| `JobHolders.SecondHolderCanCome` | shared/job_queue.py:360-408 | from every such state a scan and pulls by one free worker lead there, whatever else is queued |
| `JobHolders.UnavailableStays` | shared/job_queue.py:170-408 | otherwise nothing the workers do without the clock moving gives the job a second holder |
| `WorktreeLock.Lock.Acquire` | shared/worktree_lock.py:141-163 | sets the key iff it is absent or expired, and records the job iff it did |
| `WorktreeLock.Lock.Release` | shared/worktree_lock.py:178-201 | deletes the key iff it names this lock's job, and is idempotent |
| `WorktreeLock.Lock.Update` | shared/worktree_lock.py:218-228 | rewrites one field with the rounded remaining TTL, if anything remains |
| `WorktreeLock.UpdateKeepsOwner` | shared/worktree_lock.py:218-228 | an update never changes the owner or another key; it moves the deadline exactly when at least half a second remains that is not whole seconds, then to the nearest whole number of seconds |
| `WorktreeLock.UpdateSetsField` | shared/worktree_lock.py:218-228 | an update goes through iff at least half a second is left, and then sets the field it names and leaves the two others |
| `WorktreeLock.ReleaseIsExact` | shared/worktree_lock.py:178-201 | in every run of workers with distinct job ids a release deletes the key exactly when the worker is inside its lease; a stale release changes nothing |
| `WorktreeLock.LeaseIsExact` | shared/worktree_lock.py:141-228 | in every such run a worker that acquired and has not released is before its deadline, as updates moved it, if and only if the live key names its job; the deadline is the TTL give or take half a second for each move |
| `WorktreeLock.AtMostOneInLease` | shared/worktree_lock.py:141-228 | at most one worker per key is inside its lease |
| `WorktreeLock.MutualExclusionIff` | shared/worktree_lock.py:141-228 | that holds in all runs of a set of workers if and only if no two workers of one key share a job id |
| `WorktreeLock.UpdateCanShortenLease` | shared/worktree_lock.py:218-228 | for every TTL and moment of update, a second worker gets in before the first one's TTL is over if and only if the update rounds down and the new deadline has passed |
| `WorktreeLock.SameJobTwiceBreaksExclusion` | shared/worktree_lock.py:178-201 | any two workers with one key and job id can, for every TTL, both come to be inside their leases through a stale release |
| `LeasedJobs.OneWorkerPerConversation` | services/sandbox_executor/processor.py:80-101 | in every run of queue and locks together in which held jobs keep live data, with any crashes, scans, expiries and updates, at most one worker per conversation is inside its lease |
| `LeasedJobs.RetiredStep` | shared/job_queue.py:272-290 | a job that is finished is never handed out again, so its lock may be released after it |
| `LeasedJobs.SlowJobBreaksExclusion` | shared/job_queue.py:360-408 | without that condition, for every job TTL and lock TTL, some run has two workers of one conversation inside their leases |
| `JobExecution.Processor.TakeLock` | services/sandbox_executor/processor.py:182-208 | the lock is acquired if and only if it is free at once, or some poll finds it free and it is free again right after; a job that fails to acquire leaves the locks as the others made them |
| `JobExecution.Processor.AwaitRun` | services/sandbox_executor/processor.py:631-686 | what a run delivers, whether it was interrupted or stopped, and that exactly a cancelled task marks the lock, whose status then reads interrupted |
| `JobExecution.TurnFromScript` | services/sandbox_executor/processor.py:631-714 | whether a turn breaks, is superseded or continues, and what it hands over, told from what happened to its run |
| `JobExecution.Processor.ExecuteSdkLoop` | services/sandbox_executor/processor.py:567-744 | the loop ends and starts runs exactly as the recursive account says and records only a superseded status itself |
| `JobExecution.Processor.SaveSession` | services/sandbox_executor/processor.py:775-816 | a saved session id stands in the lock afterwards if its key has half a second left, and nothing else is written to it |
| `JobExecution.Processor.Process` | services/sandbox_executor/processor.py:80-101 | for every script, clock and interference by other workers: records the status and runs of the account for the lock as it was settled, and an error without any run if the id is invalid, the setup fails or the lock is not had; when a job that acquired returns, its key no longer names it, however it ended; a job that never acquired has not touched the locks |
| `JobExecution.LoopFromTurn` | services/sandbox_executor/processor.py:567-744 | the loop's end, number of runs and each run's prompt and session follow from the last turn and the result delivered last |
| `JobExecution.RunsAndStatusesAreBounded` | services/sandbox_executor/processor.py:567-744 | for every script at most MAX_AUTO_CONTINUES + 1 runs start, each with the merged messages before it, and at most one terminal status is recorded |
| `JobExecution.NoStatusIff` | services/sandbox_executor/processor.py:703-744 | no status is recorded iff every turn up to the cap was stopped by the user with nothing delivered and a message waiting |
| `JobExecution.StatusFromLastTurn` | services/sandbox_executor/processor.py:688-744 | which status is recorded, told from the last turn: error, superseded, success if any run delivered, else cancelled |
| `JobExecution.ErrorIff` | services/sandbox_executor/processor.py:882-937 | a job is recorded as an error iff its id is invalid, its setup fails, its last turn breaks, or it ends well but the teardown raises |
| `JobExecution.SupersededIff` | services/sandbox_executor/processor.py:688-701 | it is recorded as superseded iff another prompt cut off its last turn |
| `JobExecution.MergedReads` | services/sandbox_executor/processor.py:714-719 | a single waiting message is the next prompt as it is; several become the first with the others as a follow-up, separated by semicolons |
| `JobExecution.OpeningFromScript` | services/sandbox_executor/processor.py:567-744 | the first run has the job's prompt and session, a later one the session of the result handed over last; a job stopped before any result ends with a cancelled one that names its session |
| `CodeGraph.LoadReverse` | shared/code_graph.py:76-87 | the reverse cache is the transpose of the forward one |
| `CodeGraph.LevelIsShortestDistance` | shared/code_graph.py:1575-1662 | the level-k frontier is exactly the names at shortest distance k from the seeds |
| `CodeGraph.EmptyLevelIsLast` | shared/code_graph.py:1613-1617 | stopping on an empty frontier loses nothing |
| `CodeGraph.UpstreamMirrorsDownstream` | shared/code_graph.py:1575-1662 | b is at downstream level k of a iff a is at upstream level k of b |
| `CodeGraph.Expand` | shared/code_graph.py:1593-1612 | one level finds exactly the unvisited neighbours and lists each of their definitions once |
| `CodeGraph.Impact` | shared/code_graph.py:1575-1662 | entry d lists the definitions of exactly the names at distance d, and is absent only when there are none |
| `CallChain.Build` | shared/code_graph.py:1005-1046 | terminates, restores the shared path set, and builds the sorted, visited callees of each node that is not cut |
| `CallChain.BranchesAreGenuinePaths` | shared/code_graph.py:1005-1046 | the chain's branches are exactly the call paths with no repeated name before the end, within the depth; a leaf is truncated iff it is at the limit or repeats |
| `Names.LessIff` | shared/code_graph.py:1024-1028 | names are listed in the order of their first difference, a prefix first |
| `TraceFlow.VisitCallees` | shared/code_graph.py:897-926 | expanding the queue's head keeps the search invariant and finds all its callees |
| `TraceFlow.Search` | shared/code_graph.py:887-926 | lists each symbol reachable within the depth exactly once, in nondecreasing depth equal to its shortest distance, with a caller one level up |
| `TraceFlow.Trace` | shared/code_graph.py:829-939 | the whole operation with its not-found, ambiguous and empty-candidate outcomes |
| `TraceFlow.CandidatesAre` | shared/code_graph.py:859-861 | with a file hint exactly the definitions in that file are candidates, in order |
| `TraceFlow.ClampIs` | shared/code_graph.py:880-882 | the depth limit is the one asked for, within 1 and 50 |
| `TraceFlow.ChainHasEveryCallPath` | shared/code_graph.py:928-930 | filtering by the visited set cuts off no call path within the depth |
| `EnclosingDef.BuildMap` | shared/code_graph.py:1101-1109 | the map holds the collected entries, each once, sorted by start, and those of equal start in the order they were first collected |
| `EnclosingDef.StableSortSorts` | shared/code_graph.py:1101-1102 | the sort is a sorted permutation |
| `EnclosingDef.StableSortIsStable` | shared/code_graph.py:1101-1102 | entries with equal start keep their order |
| `EnclosingDef.BisectRight` | shared/code_graph.py:1211-1218 | exactly the entries before the returned index start at or before the node |
| `EnclosingDef.FindEnclosing` | shared/code_graph.py:1199-1231 | returns the smallest enclosing definition, the highest index on ties, and None iff none encloses |
| `EnclosingDef.TightestIsUnique` | shared/code_graph.py:1219-1231 | that description determines the answer |
| `EnclosingDef.LinearSearchIsTightest` | shared/code_graph.py:1219-1231 | a full linear search finds the same entry |
| `EnclosingDef.Resolve` | shared/code_graph.py:1101-1231 | for any collected entries bisect and backward scan agree with the linear search and name a smallest enclosing entry |
| `EmbeddingCache.CallApi` | services/indexing_worker/indexing_worker.py:169-222 | a batch is answered by its first attempt that is not rate-limited, within the retries, or not at all |
| `EmbeddingCache.AnswerIff` | services/indexing_worker/indexing_worker.py:169-222 | that is: some attempt answers and all before it were rate-limited |
| `EmbeddingCache.EmbedTexts` | services/indexing_worker/indexing_worker.py:151-224 | for any batch size and any answers, also short ones and ones with empty embeddings, the vectors and indices are what the answers hold at each text's place in its batch; it raises iff a batch is never answered |
| `EmbeddingCache.Misses` | services/indexing_worker/indexing_worker.py:120-124 | the miss list is exactly the positions without a cached vector, ascending |
| `EmbeddingCache.MissingAt` | services/indexing_worker/indexing_worker.py:269-270 | a miss's place in that list is the number of misses before it |
| `EmbeddingCache.Cache.Lookup` | services/indexing_worker/indexing_worker.py:103-129 | each position holds its cached vector, and everything is a miss when the lookup fails |
| `EmbeddingCache.HashMapping` | services/indexing_worker/indexing_worker.py:137-139 | every content's hash maps to the vector of the last content with that hash, and nothing else is mapped |
| `EmbeddingCache.Cache.Store` | services/indexing_worker/indexing_worker.py:132-143 | writes exactly the given vectors under their hashes, or nothing when writing fails |
| `EmbeddingCache.Merge` | services/indexing_worker/indexing_worker.py:264-292 | merging hits and new vectors through the two index maps gives in order what was had for each text |
| `EmbeddingCache.Cache.BatchEmbed` | services/indexing_worker/indexing_worker.py:227-292 | for any cache, batch size, answers and failures, returns in order what cache or API had for each text; raises if and only if some batch of the misses is never answered; stores all that was had; and if cache and API give texts their own embeddings, so do the result and the cache afterwards |
| `EmbeddingCache.CollectIsAligned` | services/indexing_worker/indexing_worker.py:264-292 | when nothing is missing, position i belongs to text i |
| `EmbeddingCache.CollectTakesInOrder` | services/indexing_worker/indexing_worker.py:275-285 | each value that is there stands behind exactly the values before it |
| `RankFusion.Tally` | mcp_servers/codebase_tools/tools.py:757-773 | the dictionaries hold, in first-appearance order, each key's summed reciprocal ranks, shown row and label |
| `RankFusion.RankScore` | mcp_servers/codebase_tools/tools.py:760-767 | a key that occurs once in a list scores 1 / (60 + rank) there |
| `RankFusion.FirstKeysInOrder` | mcp_servers/codebase_tools/tools.py:757-775 | keys stand in the order of their first occurrences, which breaks ties |
| `RankFusion.RowsShown` | mcp_servers/codebase_tools/tools.py:764-773 | of repeated semantic rows the last is shown, of repeated text rows the first |
| `RankFusion.SortIsOrdered` | mcp_servers/codebase_tools/tools.py:775 | the descending sort is a permutation, ordered by score with ties in insertion order |
| `RankFusion.Fuse` | mcp_servers/codebase_tools/tools.py:754-778 | the hits are the max_results highest-ranked keys in rank order, each with its row and label |
| `RankFusion.HybridSearch` | mcp_servers/codebase_tools/tools.py:739-778 | errors of the semantic search come first, then the fusion of the valid rows |
| `RankFusion.RowsTakenApart` | mcp_servers/codebase_tools/tools.py:754-755 | error rows and valid rows are told apart one by one, in order, none lost |
| `RankFusion.FusionIsLabelled` | mcp_servers/codebase_tools/tools.py:764-773 | no key is listed twice; hybrid iff in both lists or repeated in the text list; semantic iff not in the text list |
| `RankPrecedence.ShortListsKeepOrder` | mcp_servers/codebase_tools/tools.py:754-778 | with distinct keys in lists of m and n rows, (m - 1)(n - 1) < 61 * 61, hits found by both searches precede hits found by one |
| `RankPrecedence.PrecedenceIff` | mcp_servers/codebase_tools/tools.py:754-778 | for every max_results that admits lists of m and n rows, all outputs list hits of both before hits of one if and only if (m - 1)(n - 1) < 61 * 61 |
| `RankPrecedence.MaxResultsThreshold` | mcp_servers/codebase_tools/tools.py:739-778 | over all lists of at most max_results rows that holds if and only if max_results is at most 61 |
| `RankPrecedence.TwoRanksBeatOne` | mcp_servers/codebase_tools/tools.py:44 | with the constant 60, ranks m and n together outweigh rank 1 if and only if (m - 1)(n - 1) < 61 * 61 |
| `RankPrecedence.OneCanPrecedeBoth` | mcp_servers/codebase_tools/tools.py:754-778 | for all other lengths, and every max_results that admits them, some output has a hit found once before a hit found by both |
| `PromptBudget.Truncate` | shared/sdk_factory.py:884-932 | returns a text that fits unchanged; else the longest line prefix, or suffix from the top, that fits, with its marker; None iff no line fits |
| `PromptBudget.LongestFit` | shared/sdk_factory.py:906-932 | stopping at the first line that does not fit finds the greatest number that fits |
| `PromptBudget.CutKeepsOneEnd` | shared/sdk_factory.py:906-932 | a cut text is the marker and whole lines from its end, or whole lines from its beginning and the marker |
| `PromptBudget.MarkerWords` | shared/sdk_factory.py:917-932 | the markers add exactly two and four words to any text |
| `PromptBudget.WordsApart` | shared/sdk_factory.py:811-812 | whitespace between texts makes their word counts add up |
| `PromptBudget.AddPart` | shared/sdk_factory.py:831-842 | a component is added whole iff it fits, else cut using up the budget, else left out, and the books stay balanced |
| `PromptBudget.AddPriority` | shared/sdk_factory.py:828-842 | prompt then signature; the signature is kept whole iff both fit together |
| `PromptBudget.AddRest` | shared/sdk_factory.py:844-872 | thread history and structural context follow with what is left and displace nothing |
| `PromptBudget.CutAssemblyIsInOrder` | shared/sdk_factory.py:825-871 | an assembly that had to be cut holds prompt, signature, thread history and structural context in that order, each whole or cut at its own end |
| `PromptBudget.ComponentIs` | shared/sdk_factory.py:786-794 | a component is there iff it has more than whitespace, and is then stripped |
| `PromptBudget.PartsAreJoined` | shared/sdk_factory.py:873-876 | a blank line stands between any two parts, and nothing is added elsewhere |
| `PromptBudget.Assemble` | shared/sdk_factory.py:786-881 | the parts are exactly those of the three passes; for any components the estimate exceeds the budget by at most 6, by at most 2 when nothing is cut; everything is kept in order when it fits; exactly when the signature survives |
| `BudgetBounds.CutBoundIsAttained` | shared/sdk_factory.py:825-881 | some prompt and thread exceed the budget by exactly 6 next to any 46-word signature instruction |
| `BudgetBounds.WholeBoundIsAttained` | shared/sdk_factory.py:814-818 | some components that all fit exceed it by exactly 2 |
| `PromptBudget.FinalEstimate` | shared/sdk_factory.py:873-881 | balanced books bound the estimate of the joined text |
| `Text.SplitJoins` | hooks/langfuse_hook.py:363-364 | joining the pieces of a split gives the text back |
| `Text.SplitIsUnique` | hooks/langfuse_hook.py:363-364 | splitting is the only way to cut a text into separator-free pieces |
| `Text.SplitContinues` | hooks/langfuse_hook.py:363-366 | splitting can be resumed from the last, unfinished piece |
| `Text.StripIs` | hooks/langfuse_hook.py:372-374 | stripping removes whitespace, and all of it, at both ends, and nothing else |
| `Transcript.Session.Read` | hooks/langfuse_hook.py:337-380 | a missing, unreadable or unchanged file changes nothing; otherwise the rows are those of the new complete lines and the rest is buffered |
| `Transcript.RowsOfLine` | hooks/langfuse_hook.py:371-378 | a line adds the row its stripped text parses to; blank lines and lines that do not parse add nothing |
| `Transcript.IncrementalIsBatch` | hooks/langfuse_hook.py:337-380 | after any interleaving of appends, reads and failed reads the rows are one parse of all complete lines read, and the buffer is the text after the last newline |
| `Transcript.ReadingScheduleIsIrrelevant` | hooks/langfuse_hook.py:337-380 | runs that end with a read of the same file have the same rows, offset and buffer |
| `Turns.BuildTurns` | hooks/langfuse_hook.py:391-464 | each user row opens a turn up to the next user row, kept iff it has an assistant row |
| `Turns.TurnHolds` | hooks/langfuse_hook.py:405-420 | a user row and its following rows make a turn iff one is an assistant row; it has that user row, the tool results, and, where no names clash, the latest version of each message |
| `Turns.TurnsCompose` | hooks/langfuse_hook.py:391-464 | turns of two transcripts concatenated before a user row are the turns of each |
| `TurnCuts.TurnsOfConcatenation` | hooks/langfuse_hook.py:391-464 | of two consecutive batches only the turn left open by the first is affected by the second, and only by its rows before the first user row |
| `TurnCuts.CutIff` | hooks/langfuse_hook.py:670-702 | two invocations emit the turns of the whole if and only if the open turn is kept |
| `TurnCuts.InvocationsEmitAllTurnsIff` | hooks/langfuse_hook.py:670-702 | any number of invocations emit the turns of the whole transcript if and only if the turn each leaves open is kept by what follows up to the next user row |
| `TurnCuts.BoundaryReadsKeepAll` | hooks/langfuse_hook.py:670-702 | batches that open with user rows lose nothing |
| `TurnCuts.KeepsTurnIff` | hooks/langfuse_hook.py:431-458 | following rows keep a turn if and only if they bring no assistant row that is new or changed and, where the turn has an assistant row, no tool result that is new or changed |
| `TurnCuts.CutIsHarmlessIff` | hooks/langfuse_hook.py:431-458 | a cut is harmless if and only if no turn is open or the rows before the next user row tell it nothing new |
| `Turns.LatestVersionsInOrderIff` | hooks/langfuse_hook.py:449-458 | a turn shows each assistant message once, in order of first rows, in its latest version, if and only if no row without an id shares the turn with a row whose id is the name it is given |
| `Turns.ClashStaysBehind` | hooks/langfuse_hook.py:454-457 | from such a clash on, fewer names than messages are known |
| `Turns.LatestResultWins` | hooks/langfuse_hook.py:431-436 | of the tool results with one id the last is kept, and no others |
| `Chunker.Boundaries` | shared/chunker.py:409-414 | the boundaries increase from the body's first line to past the end, and with blocks in order are exactly the block starts after it |
| `Chunker.FirstBodyIs` | shared/chunker.py:400-407 | the body begins at the first body child, or at the function without one |
| `Chunker.BlockStartsAre` | shared/chunker.py:391-395 | the starts of exactly the block statements among the direct children, in order |
| `Chunker.SplitOversized` | shared/chunker.py:370-451 | fewer than two blocks give one chunk; otherwise the parts tile body_start..end_line, begin exactly at the boundaries and carry the signature |
| `Chunker.CutAt` | shared/chunker.py:422-445 | consecutive boundaries become numbered parts that begin at them, tile the body and carry the signature before their own lines |
| `Chunker.TilesCoverOnce` | shared/chunker.py:422-428 | each line of the body lies in exactly one part |
| `Chunker.PartsRebuildFunction` | shared/chunker.py:416-434 | signature and part texts joined are the function's lines, with an empty line before them iff the body starts on the first line |
| `Chunker.FindDefinitions` | shared/chunker.py:486-494 | exactly the lines some pattern matches, in order |
| `Chunker.TrimEnd` | shared/chunker.py:517-519 | the trimmed end has only blank lines after it and is not blank unless it is the definition's own line |
| `Chunker.ChunkByDefinitions` | shared/chunker.py:475-534 | no lines give no chunks, no definition gives the whole file, else one trimmed chunk per definition |
| `Chunker.DefinitionChunksCover` | shared/chunker.py:510-534 | the chunks are ordered and disjoint, and every non-blank line from the first definition on lies in exactly one |
| `RetryLoop.Worker.EnqueueForRetry` | shared/dlq.py:41-79 | the count goes up and the message goes to the dead letters iff it reaches max_retries, else to the tail of the queue |
| `RetryLoop.Worker.Process` | services/memory_worker/memory_worker.py:168-189 | one attempt is made, and the message is done, queued again or dead by its outcome; a permanent failure uses max_retries 0 |
| `RetryLoop.Worker.Round` | services/memory_worker/memory_worker.py:156-192 | a round lowers the budget and keeps the sum of what has happened and what is to come; invalid JSON is dropped |
| `RetryLoop.Worker.Drain` | services/memory_worker/memory_worker.py:156-192 | the loop drains any queue, and its attempts, completions and dead letters are those of each message retried on its own |
| `RetryLoop.AttemptsAreBounded` | shared/dlq.py:50-70 | a message's attempts count up by one and are at most three for a fresh one |
| `RetryLoop.FreshDoneIff` | shared/dlq.py:50-70 | a fresh message is done iff one of its first three attempts succeeds after transient failures only |
| `RetryLoop.LastAttemptIsFinal` | shared/dlq.py:50-70 | a transient failure ends in the dead letters only with three attempts counted |
| `RetryLoop.OutcomeDecides` | shared/dlq.py:50-70 | a success or permanent failure ends a message, a transient failure only at the third attempt, and a failed end is a dead letter with that attempt counted |
| `RetryLoop.EachMessageEndsOnce` | services/memory_worker/memory_worker.py:156-189 | in a queue of distinct messages each is done or dead exactly once, and each of its attempts is made exactly once |
| `RetryLoop.EveryMessageIsAccountedFor` | services/memory_worker/memory_worker.py:156-189 | as many messages are done or dead as were queued, within the budget of attempts |
| `ConversationKey.SanitizedRepo` | shared/constants.py:89-95 | the slash becomes a double dash and nothing else changes |
| `ConversationKey.StringsAre` | shared/worktree_lock.py:53-60 | lock key, worktree path and thread written out |
| `ConversationKey.RepoDecodesIffPlain` | shared/constants.py:89-95 | the repository key can be undone iff the owner has no double and no trailing hyphen |
| `ConversationKey.SharesKeyIff` | shared/constants.py:89-95 | a repository shares its key with another one that has an owner and a name if and only if its key has a double dash elsewhere than at its own slash, with text on both sides |
| `ConversationKey.OtherOwnersCollide` | shared/constants.py:89-95 | every owner that is not plain shares its key with another repository, one with an owner and a name unless it begins with a hyphen |
| `ConversationKey.LockKeyDecodes` | shared/worktree_lock.py:53-60 | the lock key determines the conversation iff the owner is plain |
| `ConversationKey.WorktreePathDecodes` | shared/worktree_manager.py:47-48 | so does the worktree path |
| `ConversationKey.ProjectDirDecodes` | shared/worktree_manager.py:187-188 | so does the SDK project directory |
| `ConversationKey.WorkflowIsDetachable` | workflows/engine.py:147 | a workflow name the pattern accepts can be cut off at any of the separators |
| `ConversationKey.KeysAreInjective` | shared/worktree_lock.py:53-67 | distinct conversations of plain owners share no lock key, worktree path or project directory |
| `ConversationKey.OtherKeysCollide` | shared/worktree_manager.py:47-48 | a conversation of an owner that is not plain shares all three strings with another one, of a repository with an owner and a name unless the owner begins with a hyphen |

## Left out

- Redis, SurrealDB, HTTP, git, tree-sitter, regular expressions, JSON, the agent SDK, Gemini and Langfuse: only the values they hand back are modelled.
- Rate limiters: `cleanup`, wall clocks that go backwards, and a key that expires between the ZADD and the EXPIRE of one grant, which are one step here.
- Job queue: interleavings of commands inside one method, at which conservation does not hold; job-id validation, corrupt JSON in a key, and the write-only timestamp key.
- Worktree lock: `acquire` with a waiting timeout, which no service uses, and the contents of the pending-prompt slot and the cancel channel.
- JobExecution.Processor.Process: Redis calls that fail, cancellation of the worker's own task outside the SDK wait, and what is published to a streaming session.
- Code graph: building and incremental updates, `_parse_git_diff`, and record ids; the search orders of Python sets are arbitrary here.
- EmbeddingCache.EmbedTexts: a batch size below one, with which the source's range fails; an answer with more embeddings than the batch has texts; the waits between retries.
- Embedding: alignment of chunks and embeddings when some text has none, because the shorter list is zipped by position; the cache is shown consistent for a hash that does not confuse texts with different embeddings.
- RankFusion.Fuse: scores are exact reals, so a tie that floating point would break the other way is kept; max_results is not negative, as its caller clamps it to 1..100.
- PromptBudget.Assemble: the wording of the signature instruction, which is passed in already formatted; that it does not end with the truncation marker is assumed where exact survival is stated.
- Transcript.Session.Read: bytes and UTF-8 decoding at read boundaries; the file is characters.
- Turns.BuildTurns: how a row's role, ids and tool results are read out of its JSON, and the emission of turns.
- Chunker.SplitOversized: decoding of invalid UTF-8; class chunks and header chunks.
- RetryLoop.Worker.Drain: an `attempts` value that is not an integer, shutdown in the middle of the queue, new arrivals, and the error text kept in a dead letter.
- ConversationKey.WorktreePathDecodes: the home directory is any string, already in the form a path prints in.
- Configuration classes, MCP servers, webhook tables, user interface and thin wrappers: they would only add easy members.
