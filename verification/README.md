# Verification of the neblina server core

This project models the concurrent part of the neblina server and the data structures below it, and proves what
they promise. `dafny verify dfyconfig.toml` verifies it with Dafny 4.11.

## What is modelled

**The multithreaded server** (`SessionServer*.dfy`). The dispatcher thread of `server.c`, the session pool of
`spool.c` and n worker threads form a labelled step system: a program counter for each thread, the session mutex and
one mutex per worker, sleeping and woken workers, the two hashes, the poller, and for every session object ever
created how often it has been finalised, freed and closed. One step is one lock operation, one shared read or write,
one hash operation or one callback; any interleaving of steps, spurious wake-ups included, is a run. The results are
about every state of every run: `SessionServerInvariant` holds the invariant part by part, `SessionServerSteps` its
preservation, and the other files what follows from it.

**The hash table** (`UtHash*.dfy`, `HashBuckets.dfy`). `HashTable` is a class over heap items, each threaded through
the list of all items and through the chain of its bucket, with an array of buckets that is doubled in place. Its
ghost fields name the items in order and the items of each chain; `Valid` gives what `HASH_FSCK` checks and, beyond it,
that each item is in the bucket of its hash value, that keys differ and that chains are short. `UtHashRuns` ties whole runs of operations to
a plain map and to insertion order.

**The in-place list sorts** (`StableSort.dfy`, `UtList.dfy`) share one merge pass on heap nodes for the three list
shapes and for the hash table's sort. Each is proved equal to the bottom-up merge sort on sequences, which is proved
equal to insertion sort, and that is proved sorted, a permutation and stable. `UtListOps.dfy` holds the operations
that keep the shape of a doubly linked list.

**Substring search** (`KmpTable.dfy`, `UtString.dfy`): the two table builders, the two search loops and the two entry
points, with the number of comparisons counted in the search loops.

**Four smaller state machines**: the receive buffer and its line splitter (`CommBuf.dfy`), the restart rules of the
watchdog (`Watchdog.dfy`), the ring buffer (`RingBuffer.dfy`) and the future (`Future.dfy`). `Sequences.dfy` holds what the
parts share.

## Assumptions

- Sockets, the poller, the clock, `fork` and `waitpid` are inputs. An accepted fd is not among the fds already polled.
  The watchdog's clock does not run backwards where a lemma says `Monotone`.
- User callbacks return, and return no error. Allocation succeeds.
- Sessions are named in the order of their creation, so that an address reused by the allocator is a new name.
- A mutex-protected section of `future.c` is one step.
- `PID_NOT_RUNNING` has its POSIX value, -1.

## Where the code differs from what is promised

- `HACKING.md` says that a service that ended with the non-recoverable status is not restarted. The code sets its
  attempts to the maximum, and a later step resets them once more than 10 seconds have passed since the last start.
  `Watchdog.NonRecoverableStaysDown` says exactly in which runs it is started again, and
  `Watchdog.NonRecoverableIsRestarted` gives one.
- `start_task_if_stopped` does not count an attempt for which `os_start_service` returns 0, so the restart limit does
  not cover it: `Watchdog.StartsAreLimited` limits all starts of a run in which none returns 0, and
  `Watchdog.LimitedUnlessStartReturnsZero` gives the exact condition. Only this branch of `watchdog.c` allows it, and
  neither `os_start_service` in the repository reaches it: on POSIX it returns the child's pid, or -1 if `fork` fails,
  which is `PID_NOT_RUNNING` and is counted; on Windows it returns a process id or `(DWORD) -1`, which is counted too.
- `watchdog_program_state` reports a service as given up while its tenth attempt is still running:
  `Watchdog.ReportedState` says that this is the only case, and `Watchdog.TenthAttemptIsReportedGivenUp` gives a run.
- The `abort` in `future_await` that is marked as unreachable is reached when another thread reports an error between
  its two comparisons of the status, and only then (`Future.AbortsByReportBetween`, `Future.AbortIsReached`).

## Model

| member | source | states |
|---|---|---|
| SessionServer.LeastPopulated | src/server/spool/spool.c:143-161 | the pick has the smallest load of all threads, and no thread before it has as small a load |
| SessionServerSteps.StepKeepsInv | src/server/spool/spool.c:40-218 | every enabled step of any thread and every event keeps the invariant |
| SessionServerSteps.RunKeepsInv | src/server/spool/spool.c:40-218 | every state of every interleaving from the initial state satisfies the invariant |
| SessionServerSafety.NoLostWakeUp | src/server/spool/spool.c:44-65 | in every reachable state a ready session has should_wake set, or its worker has consumed it and not yet passed the session in its scan, or the dispatcher is inside that flush; and its worker sleeps only while a signal is on its way, so never between events |
| SessionServerSafety.ProcessedSessionsAreAlive | src/server/spool/spool.c:53-71 | a worker that processes a session holds the session mutex, owns the session, finds it in both hashes, and it has been neither finalised nor freed nor closed; no other thread is inside the mutex |
| SessionServerSafety.ThreeViewsAgree | src/server/server.c:70-134 | between events poller, session hash and pool name the same connections, one session per fd, and every other session ever created has been finalised, freed and closed exactly once |
| SessionServerSafety.FinalizeReleasesEachSessionOnce | src/server/server.c:167-179 | when spool_destroy begins, deleting while iterating has left all tables empty and released every session ever created exactly once |
| SessionServerSafety.LockOrder | src/server/spool/spool.c:40-76 | no thread waits for the session mutex while it holds a context mutex |
| SessionServerSafety.HoldersMove | src/server/spool/spool.c:40-76 | a worker that holds any mutex has an enabled step |
| SessionServerSafety.WorkerWaits | src/server/spool/spool.c:40-76 | a blocked worker waits for a worker that can move, or for a dispatcher that is busy and not joining |
| SessionServerSafety.DispatcherWaits | src/server/spool/spool.c:108-214 | a blocked dispatcher waits for a busy worker, and unless it is joining for one that can move |
| SessionServerSafety.NoDeadlock | src/server/spool/spool.c:40-132 | in every reachable state, following from any busy thread who waits for whom leads within three steps to a thread that can move |
| SessionServerProgress.ShutdownStep | src/server/spool/spool.c:108-132 | every step of any thread during shutdown lowers the measure, but for spurious wake-ups, which raise it by at most two |
| SessionServerProgress.ShutdownIsBounded | src/server/spool/spool.c:108-132 | spool_destroy on n threads takes at most 37n + 3 steps of all threads together, plus three per spurious wake-up, in any interleaving |
| SessionServerProgress.ShutdownCompletes | src/server/spool/spool.c:108-132 | until every worker has exited and been joined and every mutex destroyed, some thread can move; no join waits for ever |
| SessionServerService.AnyStep | src/server/spool/spool.c:44-65 | no step of another thread moves a worker further from a session it owes a scan, and its own steps bring it closer |
| SessionServerService.ReadySessionsAreCollected | src/server/spool/spool.c:44-65 | a flushed session is collected, or removed, within a bounded number of its worker's own steps, whatever all other threads do |
| SessionServerServing.BatchStep | src/server/spool/spool.c:56-69 | each step of a worker that has collected a session brings it closer to processing it, and never drops it |
| SessionServerServing.CollectedSessionsAreServed | src/server/spool/spool.c:56-71 | a worker processes every session it has collected before it unlocks the session mutex |
| SessionServerServing.FlushedSessionsAreServed | src/server/spool/spool.c:44-71 | a flushed session is processed, or removed, within 7P + 12 of its worker's own steps, P being the peak number of sessions |
| SessionServerServing.DataIsServed | src/server/server.c:126-134 | new data on an fd is answered: in every interleaving the worker of its session processes it within that many of its own steps after the dispatcher has handled the event, unless the session is removed |
| SessionServerServing.NoServiceWithoutData | src/server/spool/spool.c:58-65 | in every run a session has been collected at most as often as data has been reported for it |
| SessionServerEvents.HandlingInRun | src/server/server.c:136-154 | what the session hash and the session objects are while an event is being handled and when it has been, whatever the workers do |
| SessionServerEvents.ConnectionIsSetUp | src/server/server.c:70-93 | when the dispatcher is idle again after a new connection, its fd is polled and has one new session in hash and pool, and nothing else has changed |
| SessionServerEvents.ConnectionIsReleased | src/server/server.c:95-124 | when it is idle again after a disconnection, the fd is in no table, its session has been released exactly once, and nothing else has changed |
| SessionServerEvents.DataIsFlushed | src/server/server.c:126-134 | before it is idle again after new data, the fd's session has been ready in the pool, and no connection has changed |
| SessionServerEvents.AnythingMayHappen | src/server/server.c:136-154 | there is a run for every number of threads, every idle state of a run takes any event, and any sleeping worker may wake for no reason |
| SessionServerEvents.HandlersReturn | src/server/server.c:136-154 | an event is handled within 11 steps of the dispatcher |
| SessionServerEvents.FinalizeLeadsToStop | src/server/server.c:167-179 | server_finalize never goes back to events and comes to spool_destroy within 12 of the dispatcher's steps for each connection and one more |
| SessionServerLoad.LeastPopulatedThread | src/server/spool/spool.c:143-161 | the counting loops find the first thread with the smallest load |
| SessionServerLoad.CeilingRoundsUp | src/server/spool/spool.c:143-161 | the bound used below is the quotient rounded up |
| SessionServerLoad.AddKeepsLoad | src/server/spool/spool.c:163-180 | adding to a least loaded thread keeps the bound, and keeps loads within one of each other |
| SessionServerLoad.LoadIsBounded | src/server/spool/spool.c:143-198 | in every reachable state no thread owns more than ceil(P/n) sessions, P being the peak so far, and before the first removal loads differ by at most one |
| SessionServerLoad.PeakIsAttained | src/server/spool/spool.c:163-198 | P is the largest size the pool has had in an earlier state of the run |
| HashBuckets.BucketIsRemainder | src/contrib/uthash/uthash.h:430-433 | the bucket is the hash value modulo the number of buckets |
| HashBuckets.BucketSplits | src/contrib/uthash/uthash.h:430-433 | masking gives a bucket in range, and doubling the number n of buckets sends bucket b to b or b + n |
| HashBuckets.ShiftDivides | src/contrib/uthash/uthash.h:846-848 | the shift and the mask are quotient and remainder of the same division |
| HashBuckets.IdealIsCeiling | src/contrib/uthash/uthash.h:846-848 | ideal_chain_maxlen is the number of items divided by the new number of buckets, rounded up |
| HashBuckets.ExpandMultCovers | src/contrib/uthash/uthash.h:856-861 | a bucket with c items, more than the ideal length L, ends with a multiplier m such that (m-1)L < c <= mL + 1; others keep 0 |
| HashBuckets.ExcessAfterOneMore | src/contrib/uthash/uthash.h:856-857 | one more item adds one to the sum of the excess lengths exactly when its bucket is at the ideal length or above |
| UtHashLinks.PushFront | src/contrib/uthash/uthash.h:767-777 | the chain gains the item in front and stays threaded both ways, with head and count right |
| UtHashLinks.RemoveFromBucket | src/contrib/uthash/uthash.h:789-801 | the chain loses exactly that item and stays threaded both ways, with head and count right |
| UtHashLinks.FindInBucket | src/contrib/uthash/uthash.h:745-764 | finds an item of the chain with the key, or there is none |
| UtHashLinks.AppendList | src/contrib/uthash/uthash.h:278-284 | the order list gains the item at its end, linked both ways |
| UtHashLinks.UnlinkOrder | src/contrib/uthash/uthash.h:450-477 | the order list loses exactly that item, with head and tail right |
| UtHash.PushingDoubles | src/contrib/uthash/uthash.h:833-883 | pushing every item into its new bucket one by one gives new bucket c the items of old bucket c or c - n that hash to it, and nothing else |
| UtHash.DoublingPlaces | src/contrib/uthash/uthash.h:833-883 | doubling loses nothing, duplicates nothing and puts each item into the bucket of its hash value |
| UtHash.MoveItem | src/contrib/uthash/uthash.h:853-868 | moving one item keeps all new chains threaded, their multipliers those of their counts, and counts the item as non-ideal exactly when it exceeds the ideal length |
| UtHash.RehashAll | src/contrib/uthash/uthash.h:833-883 | the loops fill the new array with the doubled chains and compute the total excess over the ideal length |
| UtHash.HashTable.ExpandBuckets | src/contrib/uthash/uthash.h:833-883 | the table stays well formed over the same items, and the figures of the expansion and noexpand are right |
| UtHash.HashTable.MakeTable | src/contrib/uthash/uthash.h:212-242 | an empty table of 32 buckets with all multipliers and figures 0 |
| UtHash.HashTable.AddToBucket | src/contrib/uthash/uthash.h:767-786 | the item is in front of its chain; the buckets have been doubled exactly when the chain reached ten times its multiplier plus one and expansion is not switched off, and otherwise no bucket, multiplier or figure has changed |
| UtHash.AddedStaysShort | src/contrib/uthash/uthash.h:767-883 | the law of chain lengths, part of what is valid after any run: no chain has reached the length that doubles the table, unless expansion is switched off or the last expansion found more than nine items per bucket |
| HashBuckets.ShortAfterExpansion | src/contrib/uthash/uthash.h:843-871 | an expansion leaves no chain that another addition would find too long if the ideal length is at most nine; with a longer one it may |
| UtHash.HashTable.CountsAddUp | src/contrib/uthash/uthash.h:516-563 | the bucket counts add up to the number of items |
| UtHash.HashTable.Add | src/contrib/uthash/uthash.h:396-415 | for a fresh key the item becomes the last one in order and everything stays valid, whether or not the table had to be made or doubled, and the same of the buckets |
| UtHash.HashTable.Find | src/contrib/uthash/uthash.h:153-170 | an item with the key if there is one among all items, otherwise null |
| UtHash.HashTable.Delete | src/contrib/uthash/uthash.h:450-477 | exactly that item is gone from order and from its chain, no multiplier or figure has changed, and everything stays valid; deleting the only item frees the table |
| UtHash.HashTable.Sort | src/contrib/uthash/uthash.h:890-972 | the order is the bottom-up merge sort of the old one, with prev links and tail right, and no chain or bucket is touched |
| UtHash.SortOrder | src/contrib/uthash/uthash.h:899-969 | the loops of the sort terminate with a well linked list in the order of the bottom-up merge sort |
| UtHash.HashTable.DeleteWhere | src/contrib/uthash/uthash.h:1060-1062 | iteration whose body deletes any of the items it visits still visits every item exactly once, in order, and leaves exactly the others |
| UtHashRuns.ReplayAgreesWithMap | src/contrib/uthash/uthash.h:396-477 | after any legal run of additions and deletions the items are exactly the values of the plain map, each under its own key |
| UtHashRuns.FindAgreesWithMap | src/contrib/uthash/uthash.h:153-170 | after any legal run a find answers what the plain map holds under the key |
| UtHashRuns.OrderIsInsertionOrder | src/contrib/uthash/uthash.h:278-284 | after any legal run the order list is insertion order without the items deleted since they were added |
| UtHashRuns.Execute | src/contrib/uthash/uthash.h:396-477 | carrying out any legal run on a real table ends in a valid table with that order and that map |
| StableSort.BottomUpPermutes | src/contrib/uthash/utlist.h:113-171 | the sort permutes its input whatever the comparison function answers |
| StableSort.BottomUpIsInsertionSort | src/contrib/uthash/utlist.h:113-171 | on a total preorder the sort is insertion sort |
| StableSort.InsertionSortIsStable | src/contrib/uthash/utlist.h:113-171 | elements that compare equal keep their order |
| StableSort.SortContract | src/contrib/uthash/utlist.h:113-171 | on a total preorder the result is sorted, a permutation and stable |
| UtList.MergeRuns | src/contrib/uthash/utlist.h:138-160 | the inner loop appends the merge of two runs to the output, keeps all parts apart and well linked, and stops at what follows |
| UtList.MergePass | src/contrib/uthash/utlist.h:124-164 | one turn of the main loop merges all pairs of runs and counts the merges |
| UtList.SortSinglyLinked | src/contrib/uthash/utlist.h:113-171 | terminates with a null-terminated list in the order of the bottom-up merge sort |
| UtList.SortDoublyLinked | src/contrib/uthash/utlist.h:177-234 | the same, with prev links back and the head's prev the tail |
| UtList.SortCircularlyLinked | src/contrib/uthash/utlist.h:240-311 | the same, with the ring closed both ways |
| UtListOps.Prepend | src/contrib/uthash/utlist.h:626-636 | the list gains the element in front and keeps its shape |
| UtListOps.Append | src/contrib/uthash/utlist.h:641-653 | the list gains the element at its end and keeps its shape |
| UtListOps.AppendElem | src/contrib/uthash/utlist.h:806-821 | the list gains the element at the given place and keeps its shape |
| UtListOps.Concat | src/contrib/uthash/utlist.h:690-703 | two lists become one of the same shape, either of them possibly empty |
| UtListOps.Delete | src/contrib/uthash/utlist.h:708-726 | the list loses exactly that element and keeps its shape |
| UtListOps.LowerBoundElem | src/contrib/uthash/utlist.h:674-685 | the last element of the front part of elements smaller than the given one, or null |
| UtListOps.InsertInOrder | src/contrib/uthash/utlist.h:658-669 | the element is inserted behind that front part and the list keeps its shape |
| UtListOps.InsertInOrderSorts | src/contrib/uthash/utlist.h:658-669 | a sorted list stays sorted, and the insertion is the one of insertion sort, in front of equal elements |
| KmpTable.StoredEntry | src/contrib/uthash/utstring.h:189-203 | what is stored for position i is the longest border after which a different character follows |
| KmpTable.CandidateFails | src/contrib/uthash/utstring.h:183-186 | following the table from a failed border refutes every border in between |
| KmpTable.MismatchShifts | src/contrib/uthash/utstring.h:265-268 | following the table after a mismatch skips no occurrence |
| KmpTable.TablesMirror | src/contrib/uthash/utstring.h:211-247 | the two builders' tables are images of each other under reversal of the needle and of the index |
| KmpTable.LastMirrorsFirst | src/contrib/uthash/utstring.h:284-314 | the last occurrence is the mirror image of the first one in the reversed strings |
| UtString.BuildTable | src/contrib/uthash/utstring.h:171-207 | entry i is the longest border k of the first i characters with needle[k] != needle[i], or -1, and the last entry the longest border of the whole needle |
| UtString.BuildTableR | src/contrib/uthash/utstring.h:211-247 | the table is the mirror image of that of the reversed needle |
| UtString.FindFirst | src/contrib/uthash/utstring.h:251-280 | the first occurrence, or -1 exactly when there is none, with at most two comparisons per character of the haystack |
| UtString.FindLast | src/contrib/uthash/utstring.h:284-314 | the last occurrence, or -1 exactly when there is none, within the same bound |
| UtString.Find | src/contrib/uthash/utstring.h:318-360 | the first occurrence that starts at or after start, or at or after length + start if start is negative, or -1 exactly when there is none; -1 for an empty needle |
| UtString.FindR | src/contrib/uthash/utstring.h:364-402 | the last occurrence that ends at or before start, or at or before length + start if start is negative, or -1 exactly when there is none; -1 for an empty needle |
| CommBuf.LinesSplit | src/server/commbuf.c:86-111 | lines and rest join to the stream, each line holds the separator at its end and nowhere else, and the rest does not hold it |
| CommBuf.SplitUnique | src/server/commbuf.c:86-111 | there is no other division of the stream with these properties |
| CommBuf.TakeEarly | src/server/commbuf.c:86-111 | lines may be taken out before the rest of the stream has arrived |
| CommBuf.ChunkingDoesNotMatter | src/server/commbuf.c:30-111 | for a non-empty separator, draining after each chunk gives the lines and the rest of the whole stream |
| CommBuf.CommunicationBuffer.AddToRecvBuffer | src/server/commbuf.c:30-37 | the pending bytes gain the new ones at their end; the process ends only if a block is resized to nothing and the C library returns none |
| CommBuf.CommunicationBuffer.Extract | src/server/commbuf.c:75-84 | all pending bytes are handed out and none is left; no block when there are none |
| CommBuf.CommunicationBuffer.FindSeparator | src/server/commbuf.c:91-97 | the first occurrence of the separator, or -1 exactly when there is none |
| CommBuf.CommunicationBuffer.ExtractLine | src/server/commbuf.c:86-111 | hands out the first complete line, zero-terminated, and keeps exactly what follows it; 0 when there is none or the separator is empty |
| CommBuf.CommunicationBuffer.Drain | tests/tcp.cc:30-33 | taking lines until there is none yields all lines of the pending bytes and keeps the rest |
| CommBuf.ReceiveInChunks | src/server/commbuf.c:30-111 | a real buffer fed in any chunks and drained after each yields the lines and keeps the rest of the whole stream, unless an empty chunk arrives while nothing is pending and the C library returns no empty block |
| Watchdog.Supervisor.StartTaskIfStopped | src/watchdog/watchdog.c:28-46 | what the start rule does to one service, and to no other |
| Watchdog.Supervisor.MarkTaskAsTerminatedIfDead | src/watchdog/watchdog.c:48-58 | what a death does to one service, and to no other |
| Watchdog.Supervisor.Step | src/watchdog/watchdog.c:79-94 | the three loops of a step act on each service as a step of its own, whatever happens to the others |
| Watchdog.AttemptsAreBounded | src/watchdog/watchdog.c:28-94 | in every run attempts stay within 0 to 11, and a service with 11 does not run |
| Watchdog.DeathIsFollowedByStart | src/watchdog/watchdog.c:28-92 | a service that dies is started by the very next step if and only if it ended otherwise than with status 57 and has fewer than ten attempts, or its last start is more than 10 seconds ago |
| Watchdog.LivesOn | src/watchdog/watchdog.c:28-92 | while its process lives a service keeps its pid, its attempts and the time of its last start |
| Watchdog.DeadServicesAreRestarted | src/watchdog/watchdog.c:28-92 | a service started with fewer than nine attempts that dies in any later step is started again by the step after that, unless it ended with the non-recoverable status |
| Watchdog.OneProcessAtATime | src/watchdog/watchdog.c:28-58 | between two starts of a service the process of the first has been found dead, unless the start produced none |
| Watchdog.RateLimit | src/watchdog/watchdog.c:28-92 | any 11 counted starts of one service span more than 10 seconds |
| Watchdog.StartsAreLimited | src/watchdog/watchdog.c:28-92 | any 11 starts of one service span more than 10 seconds in every run in which no start returns 0, whatever the pids |
| Watchdog.LimitedUnlessStartReturnsZero | src/watchdog/watchdog.c:36-40 | whatever set of pids starting may return, all starts are so limited in all runs if and only if 0 is not among them |
| Watchdog.NonRecoverableGivesUp | src/watchdog/watchdog.c:48-92 | a non-recoverable end gives the service up exactly when the same step does not reset its attempts |
| Watchdog.GivesUpForTenSeconds | src/watchdog/watchdog.c:28-92 | a service given up is not started in a run if and only if no step but possibly the last ends more than 10 seconds after its last attempt |
| Watchdog.GivenUpHasElevenAttempts | src/watchdog/watchdog.c:31-33 | a service given up has 11 attempts from the next step on, until 10 seconds have passed |
| Watchdog.LateStepStartsAfresh | src/watchdog/watchdog.c:88-92 | the first step after that gives it all its attempts back and changes nothing else |
| Watchdog.NonRecoverableStaysDown | src/watchdog/watchdog.c:48-92 | the same from the step in which a service ends with the non-recoverable status, whatever its state before |
| Watchdog.NonRecoverableIsRestarted | src/watchdog/watchdog.c:48-92 | a run in which a service that ended with the non-recoverable status is started again |
| Watchdog.ReportedState | src/watchdog/watchdog.c:125-137 | stopped is reported exactly when the next step gives the service a new pid, and whether it runs is reported rightly except during the tenth attempt |
| Watchdog.TenthAttemptIsReportedGivenUp | src/watchdog/watchdog.c:125-137 | a run in which the tenth attempt runs and the service is reported as given up |
| RingBuffer.IndicesAreInverse | src/contrib/uthash/utringbuffer.h:95-101 | element index and slot index are inverse to each other on the elements present and the slots in use |
| RingBuffer.UtRingBuffer.EltPtrFindsElement | src/contrib/uthash/utringbuffer.h:95-101 | element j is the j-th of the last min(k, n) pushed values after k pushes, its slot leads back to j, and there is no other element |
| RingBuffer.UtRingBuffer.Neighbours | src/contrib/uthash/utringbuffer.h:103-106 | next and prev go from element j to j + 1 and j - 1, and from NULL to the front and the back |
| RingBuffer.UtRingBuffer.PushBack | src/contrib/uthash/utringbuffer.h:84-89 | the buffer holds the last n pushed values; when full, exactly its oldest element is destroyed; what was copied in is what was destroyed followed by what is held |
| RingBuffer.UtRingBuffer.Clear | src/contrib/uthash/utringbuffer.h:50-66 | every element is destroyed once, oldest first, and none is left |
| RingBuffer.UtRingBuffer.Forwards | src/contrib/uthash/utringbuffer.h:103-104 | iteration visits each element once, oldest first |
| RingBuffer.UtRingBuffer.Backwards | src/contrib/uthash/utringbuffer.h:105-106 | iteration visits each element once, newest first |
| RingBuffer.PushAll | src/contrib/uthash/utringbuffer.h:84-89 | any number of pushes leaves the last n of the old contents and the new values |
| Future.TaskReportsKeep | src/util/future.c:25-110 | the invariant of every interleaving in which only the task reports errors |
| Future.AwaitedOutcome | src/util/future.c:79-95 | in such interleavings the wait does not abort, returns the last reported error or else what the task returned, and observed statuses never go backwards |
| Future.StatusIs | src/util/future.c:25-110 | in all interleavings the status is FU_RUNNING until the task finishes or an error is reported, then FU_ERROR if one has ever been reported, and otherwise FU_SUCCESS |
| Future.AnswersAreTrue | src/util/future.c:96-102 | future_status can be asked at any time, answers that status and changes nothing |
| Future.ReportsAreTaken | src/util/future.c:104-110 | errors can be reported at any time, by the task until it returns and by other threads always, and a task that has returned can finish |
| Future.AwaitReturns | src/util/future.c:79-94 | once the task has finished, future_await can always take its next step and returns after at most three |
| Future.GoesBackOnlyByLateReport | src/util/future.c:96-110 | in all interleavings the status goes backwards if and only if an error is reported while the status is success |
| Future.WhatIsHandedOut | src/util/future.c:79-95 | in all interleavings an error handed out is the last one reported until it is read, and a success hands out what the task returned |
| Future.NoAbortWithoutLateReport | src/util/future.c:79-110 | without such a report the wait does not abort: it hands out the last error reported until it is read if one was reported, and otherwise what the task returned |
| Future.AbortsByReportBetween | src/util/future.c:79-95 | in all interleavings the wait aborts if and only if an error is reported between its two comparisons |
| Future.AbortIsReached | src/util/future.c:93-93 | a run that reaches the abort |

## Left out

- The server, the pool and the future are step systems on values, because their threads run concurrently: where their
  objects lie in memory is not modelled, and that a session has been freed is what its counter says. Both hashes of the
  server are a map and an order here, as `UtHashRuns` shows them to be.
- Single-threaded mode (`n_threads` equal to `SINGLE_THREADED`), where data is processed by the dispatcher itself.
- Sockets, TLS and the poller's internals: the poller is a set of fds, and events arrive one at a time. What `recv` and
  `send` return, and the send buffer, are not modelled; `server_process_session` is an active check and one service step.
- Callbacks that fail: the path that closes the socket inside a worker is not part of the model.
- The unsynchronised lookups: workers read the session hash while the dispatcher, which alone changes it, may be
  adding to it. Each lookup and each change is one atomic step here.
- Allocation failure, the bloom filter, the variants for compilers without typeof, and the choice of the hash function,
  which is any function of the key. The stored hash value and the table pointer of an item are not fields of the model.
- Wrap-around of the 32-bit counters of uthash and utlist.
- HASH_ADD_INORDER, HASH_REPLACE, HASH_SELECT and HASH_CLEAR.
- The growth of UT_string, its printf and append functions, and the other operations of utlist.
- UtString.Find: start positions before the start of the string, for which the code reads outside of it, are excluded.
- UtString.FindR: start positions past the end of the string are excluded for the same reason.
- CommBuf.CommunicationBuffer.ExtractLine: buffers of INT_MAX bytes or more are excluded, because the code casts to int.
- UtString.FindFirst: an empty needle is excluded, because the loop then reads past its end; the entry points never pass
  one on. The same holds for UtString.FindLast.
- RingBuffer.UtRingBuffer.constructor: capacities of 2^31 and more are excluded, because the sum of two indices then wraps
  around in `unsigned`.
- RingBuffer.UtRingBuffer.PushBack: a capacity of 0 is excluded, because the code then writes outside the buffer.
- Future: destroying a future after an explicit wait, which joins the same thread twice, is not part of the model.
- The watchdog's shutdown with its wall-clock wait, logging, and the commands that start services.
- utarray.h, utstack.h, session.c, timers, the TCP client and window output would only add easy members.
