# A verified model of yadcc's stateful core

yadcc distributes C++ compilations over a cluster: a scheduler grants compilation slots on servants, servants
run compilers, and a cache server with two layers keeps results. This project models the parts of it whose
correctness spans many functions, and proves what the rest of the program relies on.

| component | files | main results |
|---|---|---|
| first-level cache (a byte-weighted ARC) | `CacheLists`, `ArcModel`, `ArcProofs`, `ArcRoom`, `ArcPuts`, `ArcRuns`, `InMemoryCache` | `ArcRuns.ReachableStates`, `ArcProofs.AcceptedPutIsKnownIff`, `ArcRoom.MakeRoomCuts`, `ArcPuts.PutStaysResidentIff` |
| scheduler's dispatcher and bookkeeper | `DispatcherModel`, `DispatcherProofs`, `DispatcherGrants`, `DispatcherLeases`, `TaskDispatcher` | `DispatcherProofs.CountersSumToTasks`, `DispatcherProofs.ExpiryIsFinal`, `DispatcherGrants.GrantGoesToTheRightOne`, `DispatcherLeases.PunctualServantKeepsTasks` |
| daemon's grant queue | `TaskGrantKeeper`, `GrantLeases` | `TaskGrantKeepers.LeaseTiming`, `GrantLeases.HandedOutIsLive` |
| servant's execution engine | `EngineModel`, `ExecutionEngine` | `EngineModel.EngineAccounting`, `ExecutionEngines.DelayedReplyKillsNoLiveTask` |
| Bloom-filter synchronisation | `BloomFilterGenerator`, `CacheServerModel`, `BloomSync`, `CacheService` | `CacheServerModel.ServerCoverage`, `BloomSync.ReaderCoverage` |
| path discovery and patching | `PathLocations`, `PathPatching` | `PathLocations.FindAllPathLocation`, `PathPatching.ScanPlusPatch` |
| consistent hashing | `ConsistentHash` | `ConsistentHashing.Monotone` |
| disk cache | `DiskPaths`, `DiskCache`, `DiskSteps` | `DiskCaches.DiskCache.PurgeCacheAt`, `DiskCaches.DiskCache.constructor`, `DiskSteps.OpeningRunsAgree`, `DiskSteps.FileHoldsLatestPut` |
| multi-chunk codec | `Decimals`, `TextSplit`, `MultiChunk` | `MultiChunk.RoundTrip`, `MultiChunk.ParseIsSound` |

Each component that updates state has two halves. A value model gives one function per step and lemmas over every
step, every interleaving and every run. A class with the program's own fields and loops is proved, method by
method, to compute those steps. A section under one lock is one step; where the program reads shared state without
the lock, or lets other work in between, a step model splits it accordingly (TryQueueTask, FreeTask and Stop against
the child reaper, PutEntry against the rebuild timer and its directory-wise snapshot, the disk cache's Purge against Put
and TryGet, a fetch against everything the server does meanwhile), and the class's method is the undisturbed call.

A long function of the program is sometimes several methods here (EvictBack, EvictResident and the two Trims, MoveToFront, UpdateTarget, Promote and
MakeRoomIn*Lists; FindServant, SplitReport, FreeSet, RemoveExpiredServants and MakeZombies; PatchFile and AllApplied;
ParseSizes and CutChunks; the steps of PutEntry; FindOwner; LoadFile and DiscardUntilBelow; the two halves of Get and of LoadCacheBloomFilter around
their wait), and functions that differ only in a predicate are one method with a parameter.

Clock readings, the results of system calls, random numbers and hash functions are parameters. Times are
nanoseconds.

Where the code does not do what one might expect, the model follows the code:

- "Put, then TryGet hits" is not a law of the first-level cache; `ArcPuts.PutStaysResidentIff` gives the exact
  condition, `ArcPuts.ModestPutStays` a simple sufficient one and `ArcRuns.PutCanMiss` a run that misses. Overwriting a
  resident key with a larger buffer can forget the key altogether (`ArcRuns.OverwriteCanForget`);
  `ArcProofs.AcceptedPutIsKnownIff` says exactly when.
- A phantom hit divides by the byte size of a phantom list. With non-empty buffers that is never zero
  (`ArcRuns.NonEmptyRunsAreDefined`); one empty buffer is enough to make it so (`ArcRuns.EmptyBufferDividesByZero`).
- TryQueueTask checks the exit flag before it counts its task. If the child reaper leaves in between, the process
  started afterwards is never waited for (`EngineModel.LeavingEarlyStrandsAChild`, from the start
  `EngineModel.ChildStrandedFromStart`, and for good `EngineModel.AbandonedForever`); in every other run a finished reaper has waited for every child (`EngineModel.EveryChildIsReaped`).
- The reader's constructor stamps a full fetch even if the first load failed, and so does a full answer that cannot
  be read; older keys then stay unknown until a usable full answer arrives, at least ten minutes later, although
  fetches succeed in between (`BloomSync.BlindForever`, `BloomSync.TenMinutesBlind`).
- PatchPathOccurrences compares the desired path with the whole located string only; `PathPatching.CheckIsTooWeak`
  says which paths pass that check without fitting. The servant's long directory name makes every path of up to
  PATH_MAX-25 bytes fit (`PathPatching.LongPrefixLeavesRoom`, end to end `PathPatching.ServantThenClient`); longer paths
  are legal, and some of them pass the check and do not fit (`PathPatching.CheckIsTooWeakExample`).
- The multi-chunk parser adds sizes in 64 bits and can cut beyond the end of its data. `MultiChunk.OverrunIff` says
  exactly for which messages, `MultiChunk.OverrunExample` gives one.
- The disk cache's Purge unlinks a file without entry after it has let the directory's lock go. A Put that succeeds in
  between loses its file and keeps its entry, and the next lookup aborts the server
  (`DiskSteps.RacingPutStrandsItsEntry`). It takes an earlier Put whose file could not be opened: in every interleaving
  without such a failure index and store agree (`DiskSteps.OpeningRunsAgree`), and so they do in every one without that
  race (`DiskSteps.RaceFreeRunsAgree`).
- Without any sub-directory level the disk cache registers no directory at all
  (`DiskPaths.InitializeWorkspaceAt`); everything else about it is proved for one level or more.

`dafny verify dfyconfig.toml` checks the whole project.

## Model

| member | source | states |
|---|---|---|
| ArcModel.ApartIff | yadcc/cache/in_memory_cache.cc:243-265 | the four lists are duplicate-free and pairwise disjoint exactly when their concatenation has no duplicate key |
| ArcModel.ScaledAtLeast | yadcc/cache/in_memory_cache.cc:169-188 | scaling by the ratio of the phantom lists never shrinks the step of the target |
| ArcProofs.EvictOnceKeeps | yadcc/cache/in_memory_cache.cc:311-317 | moving the back of t1 to b1 keeps the cache well formed, forgets only that buffer and keeps the chain t1, b1 in order |
| ArcProofs.EvictMoreKeeps | yadcc/cache/in_memory_cache.cc:319-325 | the same for t2 and b2 |
| ArcProofs.AdjustKeeps | yadcc/cache/in_memory_cache.cc:327-340 | the adaptive adjustment keeps the cache well formed and never reads the back of an empty list |
| ArcProofs.AdjustKeepsChains | yadcc/cache/in_memory_cache.cc:327-340 | the adjustment changes neither chain (t1 then b1, t2 then b2) nor the total bytes |
| ArcProofs.TryEvictKeeps | yadcc/cache/in_memory_cache.cc:267-284 | the re-entrant eviction loop terminates and keeps the cache well formed |
| ArcProofs.TryEvictFrees | yadcc/cache/in_memory_cache.cc:267-284 | the loop frees the desired bytes or empties its list and returns the shortfall; it forgets only the least recent end of its own chain |
| ArcProofs.MakeRoomKeeps | yadcc/cache/in_memory_cache.cc:196-237 | making room for a new key keeps the cache well formed and changes no surviving buffer |
| ArcProofs.OverflowKeepsRecentPrefixes | yadcc/cache/in_memory_cache.cc:286-309 | after overflow eviction t1 then b1 is the longest prefix of itself that fits the limit, and so is t2 then b2; all byte bounds hold |
| ArcProofs.PutKeeps | yadcc/cache/in_memory_cache.cc:45-81 | every Put keeps the invariant and the byte bounds; a refused one changes nothing; an accepted one changes no other key's buffer |
| ArcProofs.GetKeeps | yadcc/cache/in_memory_cache.cc:85-97 | a lookup conserves contents, resident bytes and total, and a hit becomes the front of t2 |
| ArcProofs.RemoveKeeps | yadcc/cache/in_memory_cache.cc:99-114 | Remove drops exactly the named resident keys and keeps the invariant |
| ArcProofs.OverflowKnows | yadcc/cache/in_memory_cache.cc:286-309 | overflow eviction keeps a key known exactly when it fits behind the more recent keys of its chain |
| ArcProofs.AcceptedPutIsKnownIff | yadcc/cache/in_memory_cache.cc:45-81 | after an accepted Put the key is resident with the new buffer or in a phantom list, if and only if it fits behind the more recent keys of its list; a key that was not resident is never lost |
| ArcProofs.ShrinkIsTwoPhase | yadcc/cache/in_memory_cache.cc:286-293 | overflow takes from t1 until it is within the target, then from t2 alone |
| ArcProofs.MakeRoomLeavesPrefixes | yadcc/cache/in_memory_cache.cc:196-237 | making room leaves the recent part of t1 and of t2 |
| ArcProofs.RoomyPutEvictsNothing | yadcc/cache/in_memory_cache.cc:196-241 | a new key that fits beside what is resident evicts nothing from memory |
| ArcRoom.RoundIsStep | yadcc/cache/in_memory_cache.cc:270-281 | one round of the eviction loop cuts one node off the end of a chain and shifts at most one node within a chain, at places told from the lists before the loop |
| ArcRoom.TryEvictDrains | yadcc/cache/in_memory_cache.cc:267-284 | the re-entrant loop does exactly the least number of rounds that is enough, and returns what is missing |
| ArcRoom.DrainCuts | yadcc/cache/in_memory_cache.cc:267-284 | draining a list cuts its chain from the end: it frees the bytes wanted or empties the list of bytes, with no node too many |
| ArcRoom.MakeRoomIs | yadcc/cache/in_memory_cache.cc:196-237 | making room leaves every list, the buffers and the target exactly as told in closed form from the lists before the call |
| ArcRoom.MakeRoomCuts | yadcc/cache/in_memory_cache.cc:196-237 | among non-empty buffers: t1 then b1 loses the shortest end that frees the new size exactly if that does not fit, t2 then b2 the shortest end that frees the rest exactly if all lists then reach twice the limit, and nothing else is forgotten |
| ArcPuts.OverflowSplits | yadcc/cache/in_memory_cache.cc:286-309 | overflow leaves t1 its longest prefix within the target or what t2 leaves room for, t2 its longest prefix beside that, and cuts both chains at the limit |
| ArcPuts.WithoutAt | yadcc/cache/in_memory_cache.cc:243-258 | erasing a node moves no other |
| ArcPuts.ResizedAt | yadcc/cache/in_memory_cache.cc:155-157 | recording a size changes one node in place |
| ArcPuts.GetMoves | yadcc/cache/in_memory_cache.cc:85-97 | a lookup takes its node out, moves no other, and puts it in front of t2 |
| ArcPuts.RemoveOneErases | yadcc/cache/in_memory_cache.cc:99-114 | removing a resident key takes out its node and its buffer and nothing else |
| ArcPuts.OverwriteLists | yadcc/cache/in_memory_cache.cc:148-160 | all lists after a Put of a resident key, from those before: its size changes in place, and only a larger buffer makes memory overflow |
| ArcPuts.NewKeyLists | yadcc/cache/in_memory_cache.cc:196-241 | all lists after a Put of an unknown key, from those before: room making in closed form, the key in front of t1, overflow |
| ArcPuts.ScaledIsStep | yadcc/cache/in_memory_cache.cc:169-188 | the step of the target is the buffer's size times the ratio of the phantom lists, rounded down, and never less than the size |
| ArcPuts.PhantomLists | yadcc/cache/in_memory_cache.cc:162-194 | all lists and the target after a Put of a key still in a phantom list, from those before: the exact target, at most one node shifted under it, the key from its phantom list to the front of t2, overflow |
| ArcPuts.PutStaysResidentIff | yadcc/cache/in_memory_cache.cc:45-81 | exactly when a Put of a key that was not resident is followed by a hit, told from the state before the call: by the part of t1 the new target lets stay on a phantom hit, by the target or the part of t2 that room making leaves (its own closed form) for a new key |
| ArcPuts.ModestPutStays | yadcc/cache/in_memory_cache.cc:196-241 | a new key whose buffer fits the target, or fits beside t2 as it is, is always a hit afterwards |
| ArcPuts.RoomMakesAHit | yadcc/cache/in_memory_cache.cc:196-237 | a full cache in which making room is what turns a Put into a hit |
| ArcProofs.TargetAdapts | yadcc/cache/in_memory_cache.cc:162-189 | a hit in b1 raises the target by at least the buffer's size up to the limit, a hit in b2 lowers it by at least as much down to zero, nothing else moves it |
| ArcRuns.RunRefines | yadcc/cache/in_memory_cache.cc:45-114 | over every run of Put, TryGet and Remove the cache holds a part of the map in which each accepted Put overwrites and each Remove erases |
| ArcRuns.ReachableStates | yadcc/cache/in_memory_cache.cc:45-340 | in every reachable state the lists are disjoint, exactly resident keys have buffers of the recorded sizes, t1+t2, t1+b1 and the target are within the limit, all lists within twice the limit, and a hit returns the latest accepted buffer |
| ArcRuns.MoreListsBound | yadcc/cache/in_memory_cache.cc:85-97 | t2+b2 within the limit is kept by Put and Remove; only a lookup can break it |
| ArcRuns.NonEmptyRunsAreDefined | yadcc/cache/in_memory_cache.cc:162-189 | with non-empty buffers no run ever divides by zero |
| ArcRuns.EmptyBufferDividesByZero | yadcc/cache/in_memory_cache.cc:170-183 | a run from an empty cache with one empty buffer after which a Put of that key divides by zero |
| ArcRuns.OverwriteCanForget | yadcc/cache/in_memory_cache.cc:148-160 | a run from an empty cache, two Puts and a larger overwrite, after which nothing is known of the overwritten key |
| ArcRuns.PutCanMiss | yadcc/cache/in_memory_cache.cc:286-293 | a run from an empty cache whose last Put of a new key is no hit afterwards |
| InMemoryCaches.InMemoryCache.constructor | yadcc/cache/in_memory_cache.cc:42-43 | a new cache is empty and settled |
| InMemoryCaches.InMemoryCache.UnsafePutEntryIntoList | yadcc/cache/in_memory_cache.cc:243-265 | the entry leaves the list it belonged to, with its recorded size, and becomes the front of the destination |
| InMemoryCaches.InMemoryCache.EvictHitOnceToPhantom | yadcc/cache/in_memory_cache.cc:311-317 | lists, cached sizes and both maps move together and compute the model's step |
| InMemoryCaches.InMemoryCache.EvictMoreThanOnceToPhantom | yadcc/cache/in_memory_cache.cc:319-325 | the same for t2 |
| InMemoryCaches.InMemoryCache.UnsafeAdaptiveAdjust | yadcc/cache/in_memory_cache.cc:327-340 | computes the model's adjustment, also while an eviction loop is half way through removing a node |
| InMemoryCaches.InMemoryCache.UnsafeTryEvict | yadcc/cache/in_memory_cache.cc:267-284 | the loop computes the model's state and shortfall |
| InMemoryCaches.InMemoryCache.EvictBack | yadcc/cache/in_memory_cache.cc:270-281 | the loop's body |
| InMemoryCaches.InMemoryCache.EvictMemoryOverflow | yadcc/cache/in_memory_cache.cc:286-309 | the three loops in a row compute the model's overflow eviction |
| InMemoryCaches.InMemoryCache.EvictResident | yadcc/cache/in_memory_cache.cc:287-293 | the first loop brings the resident lists within the limit as the model says |
| InMemoryCaches.InMemoryCache.TrimHitOncePhantom | yadcc/cache/in_memory_cache.cc:294-300 | the second cuts b1 |
| InMemoryCaches.InMemoryCache.TrimMoreThanOncePhantom | yadcc/cache/in_memory_cache.cc:301-308 | the third cuts b2 |
| InMemoryCaches.InMemoryCache.UnsafeOverwrite | yadcc/cache/in_memory_cache.cc:148-160 | replaces a resident buffer, evicting only if it grew |
| InMemoryCaches.InMemoryCache.UpdateTarget | yadcc/cache/in_memory_cache.cc:165-189 | the target moves as the model says |
| InMemoryCaches.InMemoryCache.UnsafeCacheInPhantom | yadcc/cache/in_memory_cache.cc:162-194 | a phantom hit computes the model's step |
| InMemoryCaches.InMemoryCache.Promote | yadcc/cache/in_memory_cache.cc:191-193 | the key leaves its phantom list and enters t2 |
| InMemoryCaches.InMemoryCache.MakeRoomInOnceLists | yadcc/cache/in_memory_cache.cc:201-212 | first half of making room |
| InMemoryCaches.InMemoryCache.MakeRoomInMoreLists | yadcc/cache/in_memory_cache.cc:213-236 | second half of making room |
| InMemoryCaches.InMemoryCache.UnsafeCacheIfMiss | yadcc/cache/in_memory_cache.cc:196-241 | a miss computes the model's step |
| InMemoryCaches.InMemoryCache.Put | yadcc/cache/in_memory_cache.cc:45-81 | computes the model's Put, keeps the invariant, and answers whether the buffer was accepted |
| InMemoryCaches.InMemoryCache.TryGet | yadcc/cache/in_memory_cache.cc:85-97 | computes the model's lookup and returns the stored buffer exactly on a hit |
| InMemoryCaches.InMemoryCache.MoveToFront | yadcc/cache/in_memory_cache.cc:85-97 | a hit becomes the front of t2 |
| InMemoryCaches.InMemoryCache.Remove | yadcc/cache/in_memory_cache.cc:99-114 | the loop computes the model's removal |
| InMemoryCaches.InMemoryCache.GetKeys | yadcc/cache/in_memory_cache.cc:116-123 | exactly the resident keys, each once |
| DispatcherProofs.RoomIff | yadcc/scheduler/task_dispatcher.cc:283-313 | a servant has room exactly if its memory suffices or is not reported, it is below its own limit, and its load, reported or known, leaves a processor |
| DispatcherProofs.BestIsFirstLowest | yadcc/scheduler/task_dispatcher.cc:418-451 | the pass over the candidates finds the first one of which the smallest part of its slots is taken among those wanted, by cross-multiplied counts and the personality's own fields; nobody exactly when none is wanted |
| DispatcherProofs.PickIsWellPicked | yadcc/scheduler/task_dispatcher.cc:362-416 | lightly loaded dedicated servants first, then any other, the requestor's own only when it is the sole candidate; someone is picked whenever there is a candidate |
| DispatcherProofs.GrantIsWellPicked | yadcc/scheduler/task_dispatcher.cc:93-140 | a grant goes to a registered eligible servant with room, best of its class; refusal and blocking happen exactly when no servant is eligible or none has room |
| DispatcherProofs.StepKeeps | yadcc/scheduler/task_dispatcher.cc:93-277 | every step keeps: counters equal the tasks of each servant, every task's servant is registered, locations are unique, booked locations are live |
| DispatcherProofs.RunKeeps | yadcc/scheduler/task_dispatcher.cc:93-536 | so does every run |
| DispatcherProofs.CountersSumToTasks | yadcc/scheduler/task_dispatcher.cc:121-135 | in every reachable state the counters are non-negative and add up to the number of tasks |
| DispatcherProofs.GrantIdsIncrease | yadcc/scheduler/task_dispatcher.cc:121-135 | the ids granted in any run strictly increase, from the first id not issued before it |
| DispatcherProofs.UnknownIsNotLive | yadcc/scheduler/task_dispatcher.cc:222-277 | a report is answered with exactly the reported grants that are not live at that servant |
| DispatcherProofs.DeadStaysDeadForever | yadcc/scheduler/task_dispatcher.cc:142-165 | an issued grant that is not live at a location never becomes so in any later run |
| DispatcherProofs.ExpiryIsFinal | yadcc/scheduler/task_dispatcher.cc:222-277 | a grant returned as expired to a servant is never again a live grant of that servant |
| DispatcherProofs.TasksHoldTheirSlots | yadcc/scheduler/task_dispatcher.cc:453-536 | a task leaves the books exactly when it is freed, is a zombie its servant's report omits, or is orphaned; zombies are never revived |
| DispatcherProofs.NeverOverbooked | yadcc/scheduler/task_dispatcher.cc:283-313 | over every run a servant's running tasks never exceed the largest limit it ever reported |
| DispatcherGrants.CandidatesInOrder | yadcc/scheduler/task_dispatcher.cc:316-360 | the candidates stand in the order of the servants |
| DispatcherGrants.OtherIff | yadcc/scheduler/task_dispatcher.cc:362-416 | the pick compares exactly the servants that serve the request and have room, but for the first of them on the requestor's host |
| DispatcherGrants.GrantGoesToTheRightOne | yadcc/scheduler/task_dispatcher.cc:93-140 | over all servants, told in their reports and counters: a grant goes to one that serves the request and has room, the requestor's own only if no other does, a lightly loaded dedicated one if there is one, and of those the first with the lowest running/slots; it gains one task and nothing else changes; blocked exactly if nobody has room, refused exactly if nobody serves |
| DispatcherLeases.OnlyBeatsSetLeases | yadcc/scheduler/task_dispatcher.cc:190-220 | no step but a heartbeat from its own location changes a servant's report or lease, or registers one |
| DispatcherLeases.BeatRegisters | yadcc/scheduler/task_dispatcher.cc:190-220 | a heartbeat replaces the report and prolongs the lease of a known servant, keeping its identity and counters, or adds one without tasks |
| DispatcherLeases.RegisteredAsReported | yadcc/scheduler/task_dispatcher.cc:190-220 | after every run a registered servant is what its location's latest heartbeat reported, and its lease ends when that heartbeat said |
| DispatcherLeases.TimerRemovesIff | yadcc/scheduler/task_dispatcher.cc:498-520 | the timer removes exactly the servants whose lease has ended and leaves the report and lease of the others |
| DispatcherLeases.PunctualIsInTime | yadcc/scheduler/task_dispatcher.cc:190-220 | if each heartbeat comes before the lease ends, no timer finds it ended |
| DispatcherLeases.PunctualServantStays | yadcc/scheduler/task_dispatcher.cc:190-220 | a servant whose heartbeats come in time stays registered, as the same descriptor, through every run |
| DispatcherLeases.PunctualServantKeepsTasks | yadcc/scheduler/task_dispatcher.cc:478-536 | and its tasks stay on the books unless they are freed or its own reports omit them |
| DispatcherLeases.TaskTellsItsStory | yadcc/scheduler/task_dispatcher.cc:142-165 | through every run a task's lease and whether it is a zombie follow from its renewals and the timers alone |
| DispatcherLeases.ReportIsBooked | yadcc/scheduler/task_dispatcher.cc:222-277 | a registered servant's report is booked exactly as far as its grants are live there, each entry as often as reported, and no other location's book changes |
| DispatcherLeases.BooksStand | yadcc/scheduler/task_dispatcher.cc:498-520 | otherwise only the timer touches the books, and strikes exactly the locations it removes a servant from |
| TaskDispatchers.RunningTaskBookkeeper.SetServantRunningTasks | yadcc/scheduler/running_task_bookkeeper.cc:24-29 | replaces one servant's report and no other |
| TaskDispatchers.RunningTaskBookkeeper.DropServant | yadcc/scheduler/running_task_bookkeeper.cc:31-34 | forgets one servant's report and no other |
| TaskDispatchers.RunningTaskBookkeeper.GetRunningTasks | yadcc/scheduler/running_task_bookkeeper.cc:36-43 | the reports of all locations one after the other, each location's exactly once |
| TaskDispatchers.TaskDispatcher.constructor | yadcc/scheduler/task_dispatcher.cc:78-87 | starts empty |
| TaskDispatchers.TaskDispatcher.UnsafeEnumerateEligibleServants | yadcc/scheduler/task_dispatcher.cc:316-344 | the servants with the environment, a recent enough version and tasks to give, in order |
| TaskDispatchers.TaskDispatcher.UnsafeEnumerateFreeServants | yadcc/scheduler/task_dispatcher.cc:346-360 | those of them with fewer tasks than capacity, in order |
| TaskDispatchers.TaskDispatcher.UnsafeTryPickServantFor | yadcc/scheduler/task_dispatcher.cc:418-451 | computes the model's choice, and none of its assertions can fail for candidates with room |
| TaskDispatchers.TaskDispatcher.UnsafePickServantFor | yadcc/scheduler/task_dispatcher.cc:362-416 | computes the model's pick |
| TaskDispatchers.TaskDispatcher.WaitForStartingNewTask | yadcc/scheduler/task_dispatcher.cc:93-140 | one attempt computes the model's allocation and keeps the invariant |
| TaskDispatchers.TaskDispatcher.KeepTaskAlive | yadcc/scheduler/task_dispatcher.cc:142-165 | renews exactly a known task that is no zombie, to the time of the call and the span asked for |
| TaskDispatchers.TaskDispatcher.FreeTask | yadcc/scheduler/task_dispatcher.cc:167-170 | gives back one task's slot |
| TaskDispatchers.TaskDispatcher.UnsafeFreeTasks | yadcc/scheduler/task_dispatcher.cc:172-188 | the loop gives back the slots of the tasks named, up to the first unknown one, without underflow |
| TaskDispatchers.FreesUpToUnknown | yadcc/scheduler/task_dispatcher.cc:172-188 | which those are: the ids before the first that is not, or no longer, on the books |
| TaskDispatchers.TaskDispatcher.KeepServantAlive | yadcc/scheduler/task_dispatcher.cc:190-220 | computes the model's heartbeat, which updates or registers the servant of one location |
| TaskDispatchers.TaskDispatcher.NotifyServantRunningTasks | yadcc/scheduler/task_dispatcher.cc:222-277 | computes the model's notification and its answer |
| TaskDispatchers.TaskDispatcher.UnsafeSweepZombiesOf | yadcc/scheduler/task_dispatcher.cc:453-476 | frees the servant's zombies that it no longer reports |
| TaskDispatchers.TaskDispatcher.OnExpirationTimer | yadcc/scheduler/task_dispatcher.cc:498-536 | removes expired servants, frees their tasks and turns expired tasks into zombies |
| TaskDispatchers.TaskDispatcher.UnsafeSweepOrphans | yadcc/scheduler/task_dispatcher.cc:478-496 | frees exactly the tasks whose servant is gone |
| TaskGrantKeepers.StepKeeps | yadcc/daemon/local/task_grant_keeper.cc:52-79 | every step keeps: the queue is sorted by expiry, ids are distinct, queued grants were queued after every present waiter began to wait, and each departed grant left properly |
| TaskGrantKeepers.LeaseTiming | yadcc/daemon/local/task_grant_keeper.cc:117-167 | over every run with genuine answers each grant is handed out at most once, with five seconds left on its lease, four if the caller waited, and only locally expired grants are dropped |
| TaskGrantKeepers.GetDropsEveryExpired | yadcc/daemon/local/task_grant_keeper.cc:53-60 | after the front is cleaned no locally expired grant is left anywhere in the queue |
| TaskGrantKeepers.SchedulerLease | yadcc/scheduler/task_dispatcher.cc:127-135 | the scheduler registers a grant under an id not in use with the lease the queue counts on |
| TaskGrantKeepers.PerEnvGrantKeeper.TakeFront | yadcc/daemon/local/task_grant_keeper.cc:52-69 | Get up to its wait computes the model's step: it takes the first unexpired grant, which is the one that the model counts as handed out, and leaves what was behind it; none exactly if all had expired |
| TaskGrantKeepers.PerEnvGrantKeeper.DropExpired | yadcc/daemon/local/task_grant_keeper.cc:53-60 | pops exactly the expired front |
| TaskGrantKeepers.PerEnvGrantKeeper.FinishWait | yadcc/daemon/local/task_grant_keeper.cc:70-79 | Get after its wait takes the front, the grant that the model counts as handed out, or gives up; the waiter count never becomes negative |
| TaskGrantKeepers.PerEnvGrantKeeper.PushGrants | yadcc/daemon/local/task_grant_keeper.cc:137-167 | queues every grant of the answer in order, to expire ten seconds after the request was made |
| GrantLeases.AnswersAreGenuine | yadcc/daemon/local/task_grant_keeper.cc:152-166 | what the scheduler grants to a call is new to the queue and was granted during the call |
| GrantLeases.JointStepKeeps | yadcc/daemon/local/task_grant_keeper.cc:117-167 | every step of scheduler and queue together keeps: the scheduler's own record of each queued grant has the lease the queue counts on, and is a zombie only past it |
| GrantLeases.HandedOutIsLive | yadcc/daemon/local/task_grant_keeper.cc:52-79 | in every run of scheduler and queue, a grant is handed out once, and then the scheduler's own task is no zombie and expires no sooner than four seconds later, five without waiting, unless it was given up |
| GrantLeases.LostMeans | yadcc/scheduler/task_dispatcher.cc:453-536 | a live task is given up only by a free or by its servant's expiry |
| GrantLeases.StaysLive | yadcc/scheduler/task_dispatcher.cc:498-536 | until its lease ends such a task stays registered and no zombie whatever the scheduler does, unless renewed or given up |
| EngineModel.StepKeeps | yadcc/daemon/cloud/execution_engine.cc:185-281 | every step of every interleaving keeps the counters, the reaper's and the tasks' invariants |
| EngineModel.RunKeeps | yadcc/daemon/cloud/execution_engine.cc:185-489 | so does every run |
| EngineModel.EngineAccounting | yadcc/daemon/cloud/execution_engine.cc:363-489 | in every reachable state running_tasks_ is processes started minus exit callbacks run, plus a task just being queued; those processes never exceed the limit; retained tasks are referenced; no task completes twice; wait has a child until Stop's release, and after it the reaper never blocks on an empty semaphore; the fatal check never fires |
| EngineModel.TaskAfter | yadcc/daemon/cloud/execution_engine.cc:185-454 | what every step makes of every retained task, and when it drops it |
| EngineModel.DroppedIff | yadcc/daemon/cloud/execution_engine.cc:258-281 | a task is dropped exactly by the release of its last reference or by the cleanup of one completed over a minute ago |
| EngineModel.ReferencesBalance | yadcc/daemon/cloud/execution_engine.cc:227-281 | while a task is retained its count is what clients added minus what they released |
| EngineModel.CompletedBy | yadcc/daemon/cloud/execution_engine.cc:416-454 | an exit callback completes exactly the retained task of its process |
| EngineModel.ReaperWindsDown | yadcc/daemon/cloud/execution_engine.cc:456-489 | after Stop the reaper can always move, each move brings its end nearer and nothing sets it back |
| EngineModel.StopSignalsEveryChild | yadcc/daemon/cloud/execution_engine.cc:312-327 | in every run, once Stop is through its locked section, every child still to be waited for has been signalled, or a free that dropped its task has its signal outstanding |
| EngineModel.EveryChildIsReaped | yadcc/daemon/cloud/execution_engine.cc:456-489 | unless it leaves while a TryQueueTask stands between check and count, a finished reaper has waited for every child |
| EngineModel.LeavingEarlyStrandsAChild | yadcc/daemon/cloud/execution_engine.cc:363-390 | if it does leave then, the process started afterwards is not waited for |
| EngineModel.ChildStrandedFromStart | yadcc/daemon/cloud/execution_engine.cc:363-390 | a run from the start in which Stop begins during a TryQueueTask, the reaper leaves and the process started afterwards is left behind |
| EngineModel.AbandonedForever | yadcc/daemon/cloud/execution_engine.cc:456-489 | nor in any later run |
| ExecutionEngines.ExecutionEngine.constructor | yadcc/daemon/cloud/execution_engine.cc:115-171 | starts idle, without tasks, with the given limit |
| ExecutionEngines.ExecutionEngine.TryStartingNewTaskUnsafe | yadcc/daemon/cloud/execution_engine.cc:363-390 | grants a fresh id exactly when not exiting, below the limit and with enough memory; a refusal leaves the counter as it was |
| ExecutionEngines.ExecutionEngine.TryQueueTask | yadcc/daemon/cloud/execution_engine.cc:185-225 | an undisturbed call is the four model steps in a row; the new task has one reference |
| ExecutionEngines.ExecutionEngine.TryReferenceTask | yadcc/daemon/cloud/execution_engine.cc:227-235 | adds a reference exactly to a known task |
| ExecutionEngines.ExecutionEngine.KillTask | yadcc/daemon/cloud/execution_engine.cc:329-343 | signals the process exactly if the task is running |
| ExecutionEngines.ExecutionEngine.FreeTask | yadcc/daemon/cloud/execution_engine.cc:258-281 | releases a reference, and signals the process exactly if that dropped a running task |
| ExecutionEngines.ExecutionEngine.KillExpiredTasks | yadcc/daemon/cloud/execution_engine.cc:294-310 | signals exactly the running tasks with an expired grant |
| ExecutionEngines.ExecutionEngine.Stop | yadcc/daemon/cloud/execution_engine.cc:312-327 | an undisturbed call is the three model steps in a row and signals exactly the running tasks |
| ExecutionEngines.ExecutionEngine.OnCleanupTimer | yadcc/daemon/cloud/execution_engine.cc:392-413 | drops exactly the tasks completed over a minute ago |
| ExecutionEngines.ExecutionEngine.OnProcessExitCallback | yadcc/daemon/cloud/execution_engine.cc:416-454 | gives the slot back and completes the task of that process if it is still retained |
| ExecutionEngines.ExecutionEngine.FindOwner | yadcc/daemon/cloud/execution_engine.cc:420-427 | the traversal finds a task of the process if there is one |
| ExecutionEngines.DelayedReplyKillsNoLiveTask | yadcc/daemon/cloud/execution_engine.cc:294-306 | however late the scheduler's answer arrives, a process signalled because of it belongs to no grant that is live at this servant |
| BloomGeneration.RecentIsComplete | yadcc/cache/bloom_filter_generator.cc:72-80 | scanning a sorted history from the back finds exactly the keys added since then |
| BloomGeneration.DropOldCuts | yadcc/cache/bloom_filter_generator.cc:66-70 | forgetting cuts off exactly the entries that are too old |
| BloomGeneration.NewSinceIsRecent | yadcc/cache/bloom_filter_generator.cc:61-81 | together they yield exactly the keys of the window within the hour of history |
| BloomGeneration.UnsortedHistoryHidesKeys | yadcc/cache/bloom_filter_generator.cc:72-80 | on an unsorted history the scan would miss a key |
| BloomGeneration.ScanBack | yadcc/cache/bloom_filter_generator.cc:72-80 | the scanning loop, latest key first |
| BloomGeneration.BloomFilterGenerator.constructor | yadcc/cache/bloom_filter_generator.h:76-82 | starts with an empty filter and history |
| BloomGeneration.BloomFilterGenerator.Add | yadcc/cache/bloom_filter_generator.cc:43-47 | the key enters the filter and the end of the history, which stays sorted |
| BloomGeneration.BloomFilterGenerator.UnsafeGetNewlyPopulatedKeys | yadcc/cache/bloom_filter_generator.cc:61-81 | forgets old entries and returns exactly the keys of the window |
| BloomGeneration.BloomFilterGenerator.GetNewlyPopulatedKeys | yadcc/cache/bloom_filter_generator.cc:49-53 | the same under the lock |
| BloomGeneration.BloomFilterGenerator.GetBloomFilter | yadcc/cache/bloom_filter_generator.cc:55-59 | the present filter |
| BloomGeneration.BloomFilterGenerator.Rebuild | yadcc/cache/bloom_filter_generator.cc:25-41 | the new filter holds exactly the given keys and those of the compensation window |
| CacheServerModel.RebuildCovers | yadcc/cache/cache_service_impl.cc:204-207 | a rebuild within 10 s of its start keeps every completed put that a snapshot saw or came too late for |
| CacheServerModel.DirectoryRead | yadcc/common/disk_cache.cc:314-328 | reading one more directory keeps the snapshot so far faithful, and the last one completes it |
| CacheServerModel.StepKeeps | yadcc/cache/cache_service_impl.cc:150-170 | every step keeps the history sorted and recent, the snapshots faithful, each directory of the second layer to the moment it was read, and the filter covering |
| CacheServerModel.CachedIsReported | yadcc/cache/cache_service_impl.cc:150-170 | a key that one layer has held since its completed put is in the filter |
| CacheServerModel.ServerCoverage | yadcc/cache/cache_service_impl.cc:193-207 | at every moment of every run with rebuilds of at most 10 s, a completed put is reported if a layer held its key ever since, or if a layer's last snapshot, taken directory by directory in the second, either came before it or saw it |
| CacheServerModel.LateRebuildForgets | yadcc/cache/cache_service_impl.cc:204-207 | for every longer delay there is a run in which a key that both layers hold is not in the filter |
| BloomSync.WindowExact | yadcc/cache/cache_service_impl.cc:106-113 | the window reaches back to the last fetch exactly when delay, flooring and first-return time together are at most 5 s |
| BloomSync.FourSecondsSuffice | yadcc/cache/cache_service_impl.cc:106-113 | a request handled within 4 s, first-return time included, is always in time |
| BloomSync.WindowInHistory | yadcc/cache/cache_service_impl.cc:53-65 | an incremental answer never needs more than the hour of history |
| BloomSync.NeverRefused | yadcc/cache/cache_service_impl.cc:91-95 | the reader's own requests never fail the argument check |
| BloomSync.TooLateMisses | yadcc/cache/cache_service_impl.cc:103-113 | beyond that cost the answer lacks a key announced at the reader's last fetch |
| BloomSync.IncrementalNames | yadcc/cache/cache_service_impl.cc:103-113 | an incremental answer names every key announced since the last successful fetch was handled |
| BloomSync.SyncStepKeeps | yadcc/daemon/local/distributed_cache_reader.cc:115-173 | every step of reader, network and server keeps the coverage invariant |
| BloomSync.ReaderCoverage | yadcc/daemon/local/distributed_cache_reader.cc:115-173 | in every run, whatever fetches fail, once a usable full answer has arrived the reader's filter holds every key announced before the last successful fetch was handled and still cached, and TryRead asks for it |
| BloomSync.FailedFirstLoadIsBlind | yadcc/daemon/local/distributed_cache_reader.cc:51-52 | a failed first load is stamped, and a key announced over five seconds before the stamp is then out of sight |
| BloomSync.GarbledAnswerIsBlind | yadcc/daemon/local/distributed_cache_reader.cc:152-166 | so is a key missing from the filter when a full answer cannot be read |
| BloomSync.BlindForever | yadcc/daemon/local/distributed_cache_reader.cc:115-173 | a key out of sight stays out of the reader's filter in every run in which no usable full answer arrives and it is not announced anew, however many fetches succeed |
| BloomSync.TenMinutesBlind | yadcc/cache/cache_service_impl.cc:103-113 | and for ten minutes after the stamp no full answer is given |
| BloomSync.LateRequestLosesKey | yadcc/cache/cache_service_impl.cc:106-113 | for every delay over five seconds there is a run from the start after which a cached key counted as covered is not in the reader's filter |
| BloomSync.FullWhenDue | yadcc/cache/cache_service_impl.cc:91-123 | a request gets the whole filter exactly if the reader's last full fetch is the client's interval ago or never was |
| BloomSync.NamedSince | yadcc/cache/cache_service_impl.cc:103-113 | else exactly the keys announced in the whole seconds since its last fetch and five more, within the hour of history |
| BloomSync.ReaderHoldsWhatItHeard | yadcc/daemon/local/distributed_cache_reader.cc:142-173 | in every run the reader's filter is the latest usable full one with exactly the keys named to it since, and its stamps are the times of the requests answered |
| BloomSync.AsksIff | yadcc/daemon/local/distributed_cache_reader.cc:64-77 | the server is asked unless a filter updated in the last ten minutes lacks the key |
| CacheServices.CacheService.constructor | yadcc/cache/cache_service_impl.cc:172-180 | starts in the server model's initial state: the first filter holds exactly the stored keys |
| CacheServices.CacheService.GetKeys | yadcc/cache/cache_service_impl.cc:193-202 | exactly the keys of both layers |
| CacheServices.CacheService.OnRebuildTimer | yadcc/cache/cache_service_impl.cc:204-207 | an undisturbed call is the server model's start, two snapshots and rebuild in a row |
| CacheServices.CacheService.PutEntry | yadcc/cache/cache_service_impl.cc:150-170 | an undisturbed call is the server model's receipt, second layer, first layer and announcement in a row |
| CacheServices.CacheService.StoreInL2 | yadcc/cache/cache_service_impl.cc:167-167 | the second layer's step, for an entry just received |
| CacheServices.CacheService.StoreInL1 | yadcc/cache/cache_service_impl.cc:168-168 | the first layer's step, only once the second has the entry |
| CacheServices.CacheService.AnnounceKey | yadcc/cache/cache_service_impl.cc:169-169 | the announcement, only once both layers have the entry |
| CacheServices.CacheService.FetchBloomFilter | yadcc/cache/cache_service_impl.cc:81-123 | refuses, answers incrementally or in full as the protocol model says, with the client's own interval, and takes the server model's step |
| CacheServices.DistributedCacheReader.constructor | yadcc/daemon/local/distributed_cache_reader.cc:44-56 | applies the first answer and stamps both times afterwards |
| CacheServices.DistributedCacheReader.MakeRequest | yadcc/daemon/local/distributed_cache_reader.cc:115-130 | whole seconds since the last fetches, or the largest number if there was none |
| CacheServices.DistributedCacheReader.ApplyReply | yadcc/daemon/local/distributed_cache_reader.cc:142-173 | stamps and filter change as the protocol model says |
| CacheServices.DistributedCacheReader.ConsultsServer | yadcc/daemon/local/distributed_cache_reader.cc:64-77 | the server is skipped exactly if a filter updated in the last ten minutes lacks the key |
| PathLocations.MakeLongLongRelativePathWith | yadcc/daemon/cloud/remote_task/cxx_compilation_task.cc:78-92 | the directory with "/output" has at least PATH_MAX-25 bytes, is NUL-free if base and salt are, starts with the salt, and every added name respects NAME_MAX |
| PathLocations.Search | yadcc/daemon/cloud/remote_task/cxx_compilation_task.cc:111-124 | the first match at or after a position, or the end |
| PathLocations.RunFound | yadcc/daemon/cloud/remote_task/cxx_compilation_task.cc:107-131 | each round finds the first occurrence of the next NUL-delimited run and strictly progresses |
| PathLocations.FindAllPathLocation | yadcc/daemon/cloud/remote_task/cxx_compilation_task.cc:94-140 | the locations are exactly the first occurrences in their NUL-terminated runs of at most PATH_MAX bytes; they are increasing and disjoint |
| PathPatching.ThreeWrites | yadcc/client/cxx/compilation_saas.cc:104-112 | copy, move and clear together put desired path, old suffix and NULs in place of the string |
| PathPatching.EachAsIfAlone | yadcc/client/cxx/compilation_saas.cc:95-113 | disjoint locations are patched as if each were alone |
| PathPatching.OutsideIsKept | yadcc/client/cxx/compilation_saas.cc:95-113 | no byte outside the located strings changes |
| PathPatching.ScanPlusPatch | yadcc/client/cxx/compilation_saas.cc:84-125 | every located string, which read prefix and suffix, reads desired path and the same suffix; length and all other bytes are kept |
| PathPatching.CheckIsTooWeak | yadcc/client/cxx/compilation_saas.cc:96-100 | a path fits exactly if it is no longer than the prefix; exactly the paths between prefix and whole string pass the check without fitting |
| PathPatching.CheckIsTooWeakExample | yadcc/client/cxx/compilation_saas.cc:96-100 | after every prefix of PATH_MAX-25 bytes, a five-byte suffix and any path up to five bytes longer than the prefix: the check passes and the path does not fit |
| PathPatching.LongPrefixLeavesRoom | yadcc/daemon/cloud/remote_task/cxx_compilation_task.cc:244-252 | every path of up to PATH_MAX-25 bytes fits wherever the servant's prefix was located |
| PathPatching.CopyIn | yadcc/client/cxx/compilation_saas.cc:104-105 | memcpy |
| PathPatching.Move | yadcc/client/cxx/compilation_saas.cc:106-108 | memmove over overlapping ranges |
| PathPatching.Clear | yadcc/client/cxx/compilation_saas.cc:110-112 | memset |
| PathPatching.ApplyPatch | yadcc/client/cxx/compilation_saas.cc:104-112 | one location is patched in place |
| PathPatching.PatchFile | yadcc/client/cxx/compilation_saas.cc:95-113 | patches locations in order until one is too small; succeeds exactly if none is |
| PathPatching.PatchPathOccurrences | yadcc/client/cxx/compilation_saas.cc:84-125 | succeeds exactly if every location is large enough and every patch has its file; then every file is fully patched, otherwise each file is patched up to some location |
| PathPatching.AllApplied | yadcc/client/cxx/compilation_saas.cc:115-124 | whether every patch found its file |
| PathPatching.ServantThenClient | yadcc/daemon/cloud/remote_task/cxx_compilation_task.cc:244-252 | directory, scan and patch in a row: for every path of up to PATH_MAX-25 bytes the patch succeeds, every string that named the servant's output names the client's, and no other byte changes |
| PathPatching.RelocatedByPatch | yadcc/client/cxx/compilation_saas.cc:84-125 | patching exactly the located strings renames each of them and keeps every byte outside |
| ConsistentHashing.OneServer | yadcc/common/consistent_hash.cc:19-29 | with unshared positions one directory serves each hash |
| ConsistentHashing.Monotone | yadcc/common/consistent_hash.h:51-67 | growing one directory moves a hash only to that directory |
| ConsistentHashing.AddingMovesOnlyToTheNew | yadcc/common/consistent_hash.h:51-67 | adding a directory changes the answer only to the new one, for every hash |
| ConsistentHashing.RemovingMovesOnlyItsOwn | yadcc/common/consistent_hash.h:51-67 | removing a directory changes the answer only for hashes it served |
| ConsistentHashing.SortRing | yadcc/common/consistent_hash.h:62-66 | a sorted permutation |
| ConsistentHashing.LowerBound | yadcc/common/consistent_hash.cc:21-24 | the first position not below the hash |
| ConsistentHashing.ConsistentHash.constructor | yadcc/common/consistent_hash.h:51-67 | the ring holds exactly the virtual nodes of the configuration, sorted, and is not empty if some directory has weight |
| ConsistentHashing.ConsistentHash.GetNode | yadcc/common/consistent_hash.cc:19-29 | the answer is a configured directory with a node nearest clockwise |
| ConsistentHashing.GetWeightedDirs | yadcc/common/disk_cache.cc:298-312 | one unit of weight per 128 MB, the last entry of a directory counting |
| ConsistentHashing.EveryDirectoryHasANode | yadcc/common/disk_cache.cc:298-312 | every configured directory has at least one node, so the ring of any shard is not empty |
| ConsistentHashing.WeightCountsUnits | yadcc/common/disk_cache.cc:298-312 | a directory's weight is its size in whole units of 128 MB, or one, by its last entry |
| ConsistentHashing.NodesOf | yadcc/common/consistent_hash.h:51-67 | a directory's positions are the 32-bit hashes of its numbered names, a hundred for each unit of weight |
| ConsistentHashing.NodeNamesDiffer | yadcc/common/consistent_hash.h:51-67 | the names that are hashed for a directory's nodes differ |
| ConsistentHashing.OnlyConfigured | yadcc/common/disk_cache.cc:298-312 | no other directory appears |
| DiskPaths.EncodeRoundTrip | yadcc/common/disk_cache.cc:70-81 | percent-decoding undoes percent-encoding for every byte string |
| DiskPaths.EncodeHasNoSlash | yadcc/common/disk_cache.cc:64-73 | an encoded key is one file name |
| DiskPaths.EncodeShape | yadcc/common/disk_cache.cc:64-73 | unreserved characters stand for themselves, every other takes three, and "a/b" is "a%2Fb" |
| DiskPaths.FileReadsBack | yadcc/common/disk_cache.cc:75-81 | a file named by the cache gives back its directory and its key |
| DiskPaths.FileInjective | yadcc/common/disk_cache.cc:70-81 | different directories or keys have different files |
| DiskPaths.GetSubdirsFor | yadcc/common/disk_cache.cc:83-93 | one digit per level, each below the number of sub-directories |
| DiskPaths.SubdirsAreDigits | yadcc/common/disk_cache.cc:83-93 | the sub-directories are the lowest digits of the hash in that base, least significant first |
| DiskPaths.SubdirAt | yadcc/common/disk_cache.cc:83-93 | level by level: the digit that names it |
| DiskPaths.LeafReadsBack | yadcc/common/disk_cache.cc:541-543 | each level is the directory right below the one before, named by its digit in decimal |
| DiskPaths.NextLevel | yadcc/common/disk_cache.cc:280-290 | exactly the sub-directories of the given directories |
| DiskPaths.InitializeWorkspaceAt | yadcc/common/disk_cache.cc:275-296 | registers exactly the directories of the lowest level, none if there are no levels |
| DiskCaches.PathIsRegistered | yadcc/common/disk_cache.cc:526-547 | every key's path lies in a registered leaf directory and reads back as the key |
| DiskCaches.PathSpellsHash | yadcc/common/disk_cache.cc:526-547 | the path of a key leads from the shard of its 32-bit hash through one directory per level, named in decimal by the digits of the full hash |
| DiskCaches.RingIsSound | yadcc/common/disk_cache.cc:214-216 | a shard mapper that answers as the consistent-hash ring promises answers with a configured shard |
| DiskCaches.LoadOneKeeps | yadcc/common/disk_cache.cc:229-270 | loading one file, whatever is done with misplaced ones, keeps index and store in agreement |
| DiskCaches.LoadOneSettles | yadcc/common/disk_cache.cc:229-270 | and settles that file without unsettling another |
| DiskCaches.SurvivalKept | yadcc/common/disk_cache.cc:245-263 | and loses no well-placed file, and when moving no key |
| DiskCaches.DiskCache.Registry | yadcc/common/disk_cache.cc:217-223 | all leaf directories of all shards, empty; none if there are no levels |
| DiskCaches.DiskCache.constructor | yadcc/common/disk_cache.cc:214-273 | after loading, every indexed key has its file in its place, every file is indexed in its place unless it was to be ignored or is named too long, only misplaced files were moved or deleted, and every file's content and every entry's size and time are those of a stored file of the key |
| DiskCaches.DiskCache.LoadFiles | yadcc/common/disk_cache.cc:227-271 | the loop over one shard's files |
| DiskCaches.DiskCache.LoadFile | yadcc/common/disk_cache.cc:229-270 | moves, deletes, ignores or indexes one file as the model says |
| DiskCaches.DiskCache.TryGetPathOfKey | yadcc/common/disk_cache.cc:526-547 | the path of the key, or none if its name is too long |
| DiskCaches.DiskCache.Put | yadcc/common/disk_cache.cc:420-524 | an undisturbed call, which the directory's lock makes every call be: the key's file holds exactly the bytes put and its entry their size; if the file cannot be created the entry is erased; every other key's file and entry is as before; index and store agree |
| DiskCaches.DiskCache.TryGet | yadcc/common/disk_cache.cc:356-412 | where index and store agree, an indexed key's file opens; its intact bytes are returned and its times updated; nothing else changes |
| DiskCaches.DiskCache.Discard | yadcc/common/disk_cache.cc:577-594 | undisturbed, removes one file and exactly its entry |
| DiskCaches.DiskCache.DiscardUntilBelow | yadcc/common/disk_cache.cc:565-595 | the purging loop, undisturbed |
| DiskCaches.DiskCache.PurgeCacheAt | yadcc/common/disk_cache.cc:551-597 | an undisturbed call removes the shortest oldest-first prefix that leaves usage below 95 % of the limit, or every file, and exactly its entries |
| DiskCaches.PutWrites | yadcc/common/disk_cache.cc:420-524 | bytes, checksum, time and size that a Put leaves in the key's file and entry, and that it leaves the others alone |
| DiskCaches.GetMarks | yadcc/common/disk_cache.cc:377-391 | a lookup that finds entry and file marks both as used now and changes nothing else |
| DiskCaches.ReadBack | yadcc/common/disk_cache.cc:356-439 | what was put is what a lookup of the same key then reads, unless the key is too long for a file name |
| DiskCaches.LoadOneOrigins | yadcc/common/disk_cache.cc:229-270 | loading one file makes up no content: files and entries stem from stored files of their key |
| DiskCaches.SortByUse | yadcc/common/disk_cache.cc:561-563 | a permutation, oldest first |
| DiskSteps.WholeIsAgreement | yadcc/common/disk_cache.cc:214-273 | in a shaped state, agreement is that every indexed key has its file |
| DiskSteps.StepKeepsShape | yadcc/common/disk_cache.cc:356-597 | every step of Put, TryGet and Purge, in any order, keeps every entry in its place, every file named by the cache, and every file that Purge has listed or is about to unlink in existence |
| DiskSteps.StepAgreesIff | yadcc/common/disk_cache.cc:575-594 | the only step that breaks an agreement is the unlinking of a file that has got an entry since Purge looked at it |
| DiskSteps.KeyAfter | yadcc/common/disk_cache.cc:356-597 | what every step makes of one key's entry and file: only its own Puts, lookups and Purge's steps on its own path touch them |
| DiskSteps.FileHoldsLatestPut | yadcc/common/disk_cache.cc:420-439 | through every interleaving, races or not, a key's file holds the bytes of the latest Put of that key whose file opened, or those it had at the start |
| DiskSteps.LookupIsLatestPut | yadcc/common/disk_cache.cc:356-412 | a lookup after any run answers with those bytes exactly if entry and file are there and the checksum holds |
| DiskSteps.RaceFreeRunsAgree | yadcc/common/disk_cache.cc:551-597 | over every interleaving in which no Put succeeds on a file between Purge's look at it and its unlinking, index and store agree and no lookup aborts |
| DiskSteps.OpeningRunsAreRaceFree | yadcc/common/disk_cache.cc:495-524 | from a cache whose files in place are all indexed, no interleaving has that race unless some Put fails to open its file |
| DiskSteps.OpeningRunsAgree | yadcc/common/disk_cache.cc:495-597 | from an opened cache, in every interleaving in which every Put opens its file, index and store agree and no lookup aborts |
| DiskSteps.RacingPutStrandsItsEntry | yadcc/common/disk_cache.cc:575-594 | from any cache at rest and for every key, a run after which the key is indexed without its file and a lookup of it aborts |
| DiskSteps.UndisturbedPurge | yadcc/common/disk_cache.cc:571-595 | looking at listed files and unlinking them with nothing in between removes exactly them and their entries |
| Decimals.DecimalRoundTrip | yadcc/client/common/multi_chunk.cc:34-36 | printing a number loses nothing |
| Decimals.StrtolOfDecimal | yadcc/client/common/multi_chunk.cc:79-84 | strtol reads a printed number back, up to its ceiling |
| TextSplit.Find | yadcc/client/common/utility.cc:94-97 | the first match or none |
| TextSplit.Split | yadcc/client/common/utility.cc:85-108 | the non-empty pieces between matches, from the left |
| TextSplit.SplitJoined | yadcc/client/common/utility.cc:85-108 | splitting undoes joining for non-empty parts without the separator |
| MultiChunk.MakeMultiChunkHeader | yadcc/client/common/multi_chunk.cc:28-40 | the sizes in decimal, joined by commas, and CRLF |
| MultiChunk.MessageExample | yadcc/client/common/multi_chunk.cc:28-40 | the header of "something" and "fancy" is "9,5" and CRLF |
| MultiChunk.MakeMultiChunk | yadcc/client/common/multi_chunk.cc:42-60 | the header followed by the concatenated parts |
| MultiChunk.TryParseMultiChunk | yadcc/client/common/multi_chunk.cc:62-98 | computes the parse that the following rows are about |
| MultiChunk.ParseSizes | yadcc/client/common/multi_chunk.cc:77-87 | the sizes, if all are acceptable, and their sum modulo 2^64 |
| MultiChunk.CutChunks | yadcc/client/common/multi_chunk.cc:92-95 | the loop that cuts the chunks off |
| MultiChunk.HeaderIsFound | yadcc/client/common/multi_chunk.cc:69-75 | the first newline of a made message ends its header, which splits into the printed sizes |
| MultiChunk.RoundTrip | yadcc/client/common/multi_chunk.cc:42-98 | parsing what was made returns exactly the parts if none is empty, and is refused otherwise |
| MultiChunk.CutIsExact | yadcc/client/common/multi_chunk.cc:89-95 | cutting succeeds exactly if the sizes fit, and returns chunks of those sizes in order |
| MultiChunk.JudgeExact | yadcc/client/common/multi_chunk.cc:76-97 | from the listed sizes and the bytes: chunks exactly if the sizes are acceptable and add up, an overrun exactly if they add up only modulo 2^64, else a refusal |
| MultiChunk.ParseIsSound | yadcc/client/common/multi_chunk.cc:62-98 | a message parses as given chunks exactly if it is a newline-free header listing their sizes, CRLF and the chunks, none empty |
| MultiChunk.OverrunIff | yadcc/client/common/multi_chunk.cc:89-95 | the cutting runs off the end exactly if the acceptable sizes of the header add up to 2^64 or more and wrap to the number of bytes that follow |
| MultiChunk.OverrunExample | yadcc/client/common/multi_chunk.cc:89-95 | a message that does: two sizes of 2^63-2, one of 4, and no bytes |

## Left out

- Waiting: condition variables, timeouts and fiber scheduling; a blocked allocation returns `Blocked` and is tried again, and the grant queue's wait is two steps.
- Memory order of relaxed atomics and the coarse clocks' lag of a few milliseconds: every read sees the latest write, and both machines' steady clocks advance alike.
- Machine integers, except the 64-bit sum of the multi-chunk parser and 32-bit ring positions: byte totals, counters and seconds are unbounded, and the adaptive ratio and the 95 % threshold are exact rationals instead of doubles.
- List iterators and descriptor pointers: a node is identified by its key, a servant by a number.
- Statistics, logging, DumpInternals and EnumerateTasks: reporting only.
- Access tokens, compiler registry, protobuf, JSON, compression, temporary files and process spawning: the environment's business.
- False positives of a real Bloom filter: the filter is the set of keys it was fed.
- Overlapping fetches of one reader and overlapping rebuilds: each timer's next call starts after the previous one ended.
- TaskDispatchers.TaskDispatcher.WaitForStartingNewTask: is one attempt, because the wait between attempts changes no state.
- ExecutionEngines.ExecutionEngine.constructor: takes the limit as a parameter.
- How the execution engine's limit follows from processors, cgroups and flags (yadcc/daemon/cloud/execution_engine.cc:115-171): it is a parameter.
- WaitForTask and Join: they only read.
- The generator's second clock reading within one call: the service and the protocol take it to equal the first.
- Reuse of process ids: a new process has an id that no retained task or unreaped child has.
- Files in the disk cache's directories that it did not name itself, and the removal of such strangers while enumerating.
- DiskCaches.DiskCache.constructor: asks that the files found were named by a cache like this one and that there is a sub-directory level; the program ignores or misplaces other names and has no directory to index without levels.
- DiskCaches.DiskCache.TryGetPathOfKey: asks for a non-zero number of sub-directories, because the program divides by it.
- Two Purges at once, and the entry's own lock that a reader holds after it has let the directory's go: the timer runs one Purge at a time, and a file that is open can still be read when it is unlinked.
- DiskCaches.DiskCache.Put: does not model a write that fails half way, which ends the program.
- PathPatching.PatchFile: asks that a located string which passes the size check also has room, because the program otherwise writes out of bounds.
- PathPatching.PatchPathOccurrences: asks that a located string which passes the size check also has room; otherwise the program writes out of bounds.
- InMemoryCaches.InMemoryCache.UpdateTarget: asks that the phantom list it divides by is not empty of bytes, because the program's result is then undefined.
- InMemoryCaches.InMemoryCache.UnsafeCacheInPhantom: asks the same.
- InMemoryCaches.InMemoryCache.Put: asks that the phantom list it divides by is not empty of bytes; with non-empty buffers it never is.
- The daemon's DistributedTaskDispatcher: it frees a different id than it referenced on the result-reuse path (yadcc/daemon/local/distributed_task_dispatcher.cc:268-285), so that pairing does not hold as written, and the rest is sequencing of remote calls.
- LocalTaskMonitor, FileDigestCache, ConfigKeeper, RunningTaskKeeper, ParseCacheDirs and Purge's loop over shards: would only add easy members.
