# Verified models of the concurrency kit, its stream buffer and its HTTP front end

This project models the concurrent protocols of the repository, its chunked byte
stream, its HTTP request parser and its split-ordered hash table, and proves what
they are for. `dafny verify dfyconfig.toml` checks everything.

The protocols (lock-free list with hazard pointers, MCS lock, barrier, thread
pool, file cache, output side of a connection) are step relations over a
sequentially consistent shared state, for any number of threads and any
interleaving; each theorem is about every state of every run. History variables
are read by no step. The buffer, its iterator, the parser, the read loop, the
start-node list, the hash table and the statistics are classes and loops, each
proved against a function on plain values, about which the theorems are proved.

| file | what it holds |
|---|---|
| ListModel, ListInvariant, ListSteps, ListCas, ListTheorems | the lock-free sorted set: steps, invariant, preservation, theorems |
| ListProgress | a call returns when its thread runs alone |
| ListSplitSwap | when the exchange of the hazard slots is safe |
| SplitOrder, HashTable | bit-reversal arithmetic; the start-node list and the table on it |
| McsLock, Barrier, ThreadPool, FileCache, Connection | one protocol each |
| Bytes, Chunks, Buffer, Iterator | the chunked stream and what it means as flat bytes |
| Http, HttpGrammar, HttpStream | requests as strings: the parser, the grammar that it reads, printing, and the read loop |
| HttpParser, HttpConnection | parsing, printing and reading over buffers |
| RequestStats | the sliding-window counters |

## What holds only under a condition

Some properties that the code is meant to have are false of it. The model keeps
the code as it is, shows the failure, and proves the exact condition.

* Safe reclamation is false of the exchange of the two hazard slots by two stores
  (lock_free_list.hpp:247-249). `SafeIffAlone` says when the code is safe: if and
  only if there is at most one thread, whatever the threshold of the scan. For
  every larger number of threads and every threshold, `SplitSwapFaults` builds a
  run in which a node is freed between the two stores and dereferenced afterwards.
  The theorems of ListTheorems hold for one thread, and for any number of threads
  once the exchange is one step.
* A hash table key is found exactly when its bucket's dummy sorts before it
  (`Fits`); `ReplayAny` says for every sequence of calls which answers are those of
  a map. All keys below the bucket count fit, and all keys below 2^31 would if
  the bucket count were a power of two; 10016 does not fit in 10000 buckets, and
  an insert of such a key reports success and loses the entry, every time.
* `write` and `copyFrom` keep every byte but can leave the read position at the
  end of a drained chunk, where `readSize` is 0 although bytes follow. buffer.hpp
  calls a `reserve` before `write` optional; the code needs it when the last chunk
  is full and drained. `Readable()` is that condition, and each contract says
  exactly when it is kept; `WriteToFullDrained` and `CopyToDrained` lose it. An
  iterator over an unreadable buffer neither moves nor ends (`StepMany`).
* `byteCount` is right when the read chunk is the first one, and its contract gives
  the exact excess otherwise. `appendFrom` to a buffer that was drained behind some
  bytes always makes it count too much (`AppendToDrained`, `OvercountAfterDrain`).
* `appendFrom` leaves its source well formed if and only if the last chunk of the
  source was not empty (`AppendEmptyTail`, `AppendReserved`).
* parseLine reads the byte behind a CR without checking that there is one. Parsing
  depends on that byte exactly on inputs that end there (`Dangling`).
* The parser asks for more input exactly on the proper starts of messages, with one
  exception: a request line with a space behind its version, which no input can make
  complete (`ParserReadsGrammar`, `SpaceIsNoStart`).
* Reports of the statistics stay within their bounds if and only if no thread
  finishes two requests in the same twentieth of a second, one of them within a
  twentieth of a second after its slot was made and the other later.
* A write turn that finds the output buffer empty is asked to write nothing, and can
  be given up for good right there, although the socket never failed a write of
  bytes (`EmptyTurnCanDie`, `DeadForever`). A call of startWrite can bring that about
  by itself if and only if the buffer is empty (`FatalIffEmpty`), it happens only
  after such a call (`DeadNeedsHollowStart`), and two threads that each append and
  then call startWrite can race into it (`DeliveryCanStop`). What was appended can
  still be sent in full if and only if the turn was not given up with bytes left
  (`DeliverableIffAlive`).

## Model

| member | source | states |
|---|---|---|
| ListTheorems.StepKeepsInv | lock_free_list.hpp:155-256 | every step of every thread keeps the invariant of list, hazard slots, retired sets and history, and dereferences allocated nodes only |
| ListTheorems.RunKeepsInv | lock_free_list.hpp:155-256 | the invariant holds in every state of every run, with one thread or with the slot exchange in one step |
| ListTheorems.NoThreadFaults | lock_free_list.hpp:215-254 | no thread ever dereferences, compares-and-swaps through or frees an address that is not allocated, although freed addresses are reused |
| ListTheorems.FreedNodeIsUnprotected | hazard_pointers.hpp:206-235 | a node that is freed is protected by no thread: none has it published, validated and still in use |
| ListTheorems.ListShape | lock_free_list.hpp:204-256 | in every state, following `next` from the head gives a finite, strictly increasing path that visits exactly the linked nodes; an unmarked inserted node is one of them |
| ListTheorems.NodesStep | lock_free_list.hpp:167-193 | what one step may do to an allocated node; it becomes unlinked only by a step whose thread retires it next |
| ListTheorems.MarkedIsFrozen | lock_free_list.hpp:182-189 | a marked `next` never changes again while the node is allocated |
| ListTheorems.NodeLifeGoesForward | lock_free_list.hpp:182-193 | a node goes from private to linked to marked to unlinked and never back |
| ListTheorems.RetiredOnce | hazard_pointers.hpp:196-204 | a node about to be retired is in no retired set, the retired sets are disjoint, and no path from the head meets any of their nodes |
| ListTheorems.NothingLeaks | hazard_pointers.hpp:206-235 | every unlinked node is in a retired set or on its way into one |
| ListTheorems.SetChangesOnlyAtCas | lock_free_list.hpp:156-196 | the set of keys of linked unmarked nodes changes only by a successful insert CAS, which adds the key, and a successful marking CAS, which removes it |
| ListTheorems.LogIsHistory | lock_free_list.hpp:156-196 | the recorded history is the sequence of abstract sets of the run |
| ListTheorems.CallSpansRun | lock_free_list.hpp:156-202 | from its recorded start on, a call in progress is the same call |
| ListTheorems.CallBegan | lock_free_list.hpp:156-202 | the operation and the key that a thread works on are those that its call was made with |
| ListTheorems.Linearizable | lock_free_list.hpp:156-202 | every returned boolean is the answer of an atomic set, for the operation and key that the call was made with, at one moment between call and return; that moment is the step that changed the set if the call changed it |
| ListProgress.StepIsCloser | lock_free_list.hpp:204-256 | whatever the other threads left behind, each step of a call leaves its thread less to do |
| ListProgress.AloneReturns | lock_free_list.hpp:155-256 | a thread that runs alone, from any reachable state, returns from its call within a number of steps that is given by the list, the retired nodes and the number of threads |
| ListProgress.NeverBlocked | lock_free_list.hpp:155-256 | a thread inside a call can always take its next step |
| ListSplitSwap.SplitSwapFaults | lock_free_list.hpp:246-250 | for two threads or more and every scan threshold there is a run, from the empty list, that ends with a thread touching freed memory between the two stores of the exchange |
| ListSwapTheorem.SafeIffAlone | lock_free_list.hpp:246-250 | the code, with its two stores, never touches memory that is not allocated, in any run and at any threshold, if and only if there is at most one thread |
| SplitOrder.Reverse | lock_free_hash_table.cpp:78-86 | the shifting loop computes the reversal of 32 bits |
| SplitOrder.RevInvolution | lock_free_hash_table.cpp:78-86 | reversing twice gives back the number, for every width |
| SplitOrder.RegularAfterDummy | lock_free_hash_table.cpp:68-76 | a regular key is the even dummy key of the low 31 bits plus one |
| SplitOrder.RegularInjective | lock_free_hash_table.cpp:68-70 | equal regular keys mean equal low 31 bits |
| SplitOrder.DummyInjective | lock_free_hash_table.cpp:74-76 | buckets have distinct dummy keys |
| SplitOrder.GetParent | lock_free_hash_table.cpp:88-98 | the loop computes the number without its highest bit |
| SplitOrder.ParentSortsBefore | lock_free_hash_table.cpp:88-111 | the parent of a bucket is smaller and its dummy sorts before, so initialisation terminates and finds its place |
| SplitOrder.SmallKeysFit | lock_free_hash_table.cpp:29-34 | keys below the bucket count sort after the dummy of their bucket |
| SplitOrder.PowerOfTwoFits | lock_free_hash_table.cpp:29-34 | with a power of two of buckets all 31-bit keys do |
| SplitOrder.LargeKeyDoesNotFit | lock_free_hash_table.cpp:10-11 | 10016 sorts before the dummy of its bucket among 10000 |
| StartList.List.LookupFrom | lock_free_list.hpp:204-256 | from a start node of the chain, the walk ends at the place of the key, and finds it if and only if the list holds it behind the start |
| StartList.List.InsertFrom | lock_free_list.hpp:280-305 | non-overwriting insert behind a start node with a smaller key; from a larger one the new node is lost |
| StartList.List.RemoveFrom | lock_free_list.hpp:307-330 | removes exactly the key, if it is behind the start node; a start node with that key is given away while the list still links it, so the list stays well formed exactly if it has another key |
| StartList.List.FindFrom | lock_free_list.hpp:339-351 | the value of the key, if it is in the start node or behind it |
| HashTable.Table.SetBucket | lock_free_hash_table.cpp:121-135 | writes one bucket, allocates its segment if need be, and changes no other bucket |
| HashTable.Table.InitializeBucket | lock_free_hash_table.cpp:100-111 | gives the bucket its dummy, initialises parents first, changes no initialised bucket and no entry; terminates |
| HashTable.Table.Insert | lock_free_hash_table.cpp:29-43 | adds the key if it fits and is absent; reports success and loses it if it does not fit; counts it; doubles the bucket count exactly above the load limit |
| HashTable.Table.Remove | lock_free_hash_table.cpp:46-56 | removes the key if it fits and is present, and counts it |
| HashTable.Table.Lookup | lock_free_hash_table.cpp:59-65 | finds exactly the present keys that fit, with their values; changes no entry |
| HashTable.Perform | lock_free_hash_table.cpp:29-65 | one call on a 31-bit key changes the findable entries as it changes a map, and answers as the map does if and only if the key fits or is not in the map |
| HashTable.ReplayAny | lock_free_hash_table.cpp:29-65 | for every sequence of calls on 31-bit keys within the load limit, exactly the calls whose key fits or is absent get the answer of the map; the counter is the findable entries plus the lost inserts, and the table never grows |
| HashTable.FewInsertsWithinLoad | lock_free_hash_table.cpp:37-40 | fewer inserts than the load limit keep within it, whatever the keys |
| HashTable.KeysStaySmall | lock_free_hash_table.cpp:37-40 | keys below the bucket count lose nothing and give at most that many entries, so the load limit is out of reach |
| HashTable.Replay | lock_free_hash_table.cpp:29-65 | for every sequence of calls on keys below 10000, however long, a new table gives exactly the answers of the map, its counter is the size of the map, and it never grows |
| McsLock.StepKeepsInv | spinlock_mcs.hpp:16-37 | every step keeps queue, links and hand-off state consistent, and writes through nodes of threads only |
| McsLock.MutualExclusion | spinlock_mcs.hpp:16-37 | at most one thread is between the return of lock and the end of unlock |
| McsLock.FirstComeFirstServed | spinlock_mcs.hpp:20-24 | the grants are a prefix of the tail exchanges, and all granted threads but the holder have left |
| McsLock.NoWildWrites | spinlock_mcs.hpp:23-36 | no step writes through a pointer to no node |
| McsLock.MoverMoves | spinlock_mcs.hpp:28-36 | with a non-empty queue some thread can always move the lock on, also while a successor has not linked itself |
| McsLock.OthersDoNotHinder | spinlock_mcs.hpp:16-37 | no step of any thread moves the hand-off further away |
| McsLock.HandOffIsBounded | spinlock_mcs.hpp:16-37 | the head of the queue is gone after nine steps of movers, whatever happens in between |
| McsLock.ReturnsBetween | spinlock_mcs.hpp:16-37 | a thread that comes to the tail exchange again has returned from unlock in between |
| McsLock.EntersBetween | spinlock_mcs.hpp:16-26 | a thread that has left the queue was given its critical section in between |
| Barrier.StepKeepsInv | thread_barrier.hpp:59-75 | every step keeps the token, the counter and the two gates consistent |
| Barrier.OneToken | thread_barrier.hpp:59-75 | the two semaphores and the threads in a critical section total one |
| Barrier.GateOpensWhenAllArrived | thread_barrier.hpp:68-69 | a thread passes the departure gate only after exactly as many threads as there are participants arrived in its round, itself among them |
| Barrier.AllLeftBeforeNextRound | thread_barrier.hpp:60-61 | a thread enters a round only when all of the previous one have left |
| Barrier.RoundsAreComplete | thread_barrier.hpp:59-75 | the threads that leave a completed round are those that arrived, and as many as there are participants |
| Barrier.BlockedOnlyForMissing | thread_barrier.hpp:59-75 | if no caller can move, all callers wait at the departure gate and are fewer than the participants |
| Barrier.StepsOfCall | thread_barrier.hpp:59-75 | each step of a caller leads on to its return, so a call takes at most eleven |
| Barrier.ReturnsBetween | thread_barrier.hpp:59-75 | a thread that comes to the arrival gate again has returned from wait in between |
| ThreadPool.StepKeepsInv | thread_pool_fast.cpp:50-171 | every step keeps lists, slots and history consistent |
| ThreadPool.NeverBothWaiting | thread_pool_fast.cpp:147-171 | free list and dispatch queue are never both non-empty |
| ThreadPool.HandedInOrder | thread_pool_fast.cpp:147-171 | what was added is what was handed out, then at most one task on its way, then the queue: a prefix, in order, nothing lost or repeated |
| ThreadPool.AddedAsCalled | thread_pool_fast.cpp:160-171 | what is appended to the tasks is what some call of addTask was made with, and that call appends it once |
| ThreadPool.EveryCallAdds | thread_pool_fast.cpp:160-171 | a call of addTask that is past its decision has appended its task, whether a worker was free or not |
| ThreadPool.SlotIsFreeWhenWritten | thread_pool_fast.cpp:87-93 | a slot is written only when its worker has taken and finished what it held |
| ThreadPool.SlotIsStable | thread_pool_fast.cpp:56-75 | from assignment to the end of the task the slot holds exactly the task handed to that worker |
| ThreadPool.TakenOnceByItsWorker | thread_pool_fast.cpp:56-63 | each handed task is taken at most once, and until then sits in the slot of the worker it was handed to |
| ThreadPool.TakenIsRun | thread_pool_fast.cpp:65-75 | a taken task is being tested or is running in the worker it was handed to, or has run to its end; a NULL never runs and ends its worker |
| ThreadPool.RunsOnce | thread_pool_fast.cpp:65-75 | what runs was taken, is not NULL and has not run before |
| ThreadPool.ExitedIff | thread_pool_fast.cpp:65-80 | a worker has left its loop if and only if it took a NULL or finished a task as the last worker, and never for both reasons |
| ThreadPool.QuitsOnlyAsLast | thread_pool_fast.cpp:77-80 | only the end of a task as the last worker makes a worker quit |
| ThreadPool.WorkerIsAccounted | thread_pool_fast.cpp:82-83 | no worker is lost: one without a task is in the free list, in the hands of a thread, gone, or was never enlisted |
| ThreadPool.RestMeansDone | thread_pool_fast.cpp:50-171 | when nothing moves, every task that was handed out has run to its end, and tasks wait only if no enlisted worker is left |
| ThreadPool.WorkIsBounded | thread_pool_fast.cpp:50-171 | however the threads are scheduled, without new calls the pool makes a bounded number of steps |
| ThreadPool.RestIffStuck | thread_pool_fast.cpp:50-171 | it cannot move if and only if it is at rest: there is no deadlock |
| ThreadPool.StopComesLast | thread_pool_fast.cpp:123-130 | when a worker is told to exit, all tasks added before the first NULL have been handed out, and earlier |
| FileCache.StepKeepsInv | file_cache.cpp:21-101 | every step of pin and unpin keeps sizes, pins and lock consistent |
| FileCache.BytesAreAccounted | file_cache.cpp:48-78 | the byte count is the sum of the sizes of the cached files and within the limit |
| FileCache.PinsAreCounted | file_cache.cpp:30-36 | a pin count is the number of handles out or on their way back, and a file with a handle is cached |
| FileCache.PinnedIsNeverEvicted | file_cache.cpp:48-66 | an entry that leaves the cache has no pins and no handle in use, and makes way for a file that does not fit |
| FileCache.UnpinNeverFails | file_cache.cpp:89-101 | unpin always finds its entry, and finds it pinned |
| FileCache.EvictionIsAlone | file_cache.cpp:44-45 | while one thread evicts, no other changes an entry or the byte count |
| FileCache.EvictionTerminates | file_cache.cpp:48-66 | each round of the loop removes an entry, and nothing is added before it ends |
| FileCache.FailsOnlyWhenPinnedFull | file_cache.cpp:63-82 | a pin fails for want of space only when every remaining entry is pinned |
| FileCache.PinOutcome | file_cache.cpp:21-87 | a call of pin works on the file it was called with, pins it if the lookup finds it, and ends with one more handle, or without one because the file did not load, had been inserted meanwhile, or did not fit with all entries left pinned; no other step of it changes a handle |
| FileCache.WorkIsBounded | file_cache.cpp:21-101 | however the threads are scheduled, without new calls a bounded number of steps is left |
| FileCache.IdleIffStuck | file_cache.cpp:21-101 | no thread in pin or unpin can move if and only if there is none: there is no deadlock |
| Connection.StepKeepsInv | connection.cpp:204-270 | every step keeps the byte stream, the flags and the single turn consistent |
| Connection.SentIsPrefix | connection.cpp:225-270 | the bytes sent are a prefix of the bytes appended, and all of them once no turn is left and no append is without its startWrite |
| Connection.AtMostOneTurn | connection.cpp:204-215 | a turn that is running or about to be scheduled excludes any other, scheduled, waiting or running |
| Connection.FlagsExclude | io_manager.cpp:218-267 | `can_write_` and `waiting_write_` are never both set, and at most one turn is scheduled |
| Connection.EventsAreAccounted | io_manager.cpp:218-267 | every readiness event resumed a turn, is remembered, or found one remembered already, and every resumed turn was taken or is on its way: none is resumed without an event of its own |
| Connection.EventResumesWaiter | io_manager.cpp:252-267 | an event that comes while the turn waits ends the waiting, and its thread schedules the turn next |
| Connection.EventIsRemembered | io_manager.cpp:218-233 | a turn that gets to writeWhenReady uses a remembered event and is scheduled next, or waits if there is none |
| Connection.RefusedWaitsForEvent | connection.cpp:240-243 | after EAGAIN nothing is sent before the turn was resumed and taken again |
| Connection.DeadForever | connection.cpp:204-211 | once the turn is given up, nothing is ever sent again |
| Connection.CanDeliver | connection.cpp:204-270 | from every reachable state in which the turn was not given up, the run can go on until all bytes are sent |
| Connection.DeliverableIffAlive | connection.cpp:204-270 | what was appended can still be sent in full if and only if the turn was not given up with bytes left |
| Connection.DeadNeedsHollowStart | connection.cpp:204-215 | if no write of bytes fails, the turn is given up only after a call of startWrite took it on an empty buffer |
| Connection.FatalIffEmpty | connection.cpp:204-253 | a call of startWrite that gets the turn can have it given up without a failed write of bytes and without other threads if and only if the buffer is empty |
| Connection.EmptyTurnCanDie | connection.cpp:250-253 | from every reachable state with a turn that read size 0, the run goes on to a turn given up, in at most two steps, with nothing sent |
| Connection.DeliveryCanStop | connection.cpp:204-215 | for any bytes and any number of threads, two threads that append and then call startWrite can end all sending although no write of bytes fails; what is appended later stays unsent |
| Chunks.FromIs | buffer.hpp:149-165 | what a position means: the rest of its chunk and all later chunks |
| Chunks.EmptyAtEnd | buffer.hpp:120-124 | at a readable position nothing is left only at the write position |
| Chunks.JoinedBytes | buffer.cpp:110-131 | trimming, joining and closing the chunks of two buffers concatenates their bytes |
| Buffers.Buffer.WriteSize | buffer.hpp:87-88 | the room left in the last chunk |
| Buffers.Buffer.ReadSize | buffer.hpp:120-124 | the read area holds the next unread bytes, and for a readable buffer is empty only if nothing is unread |
| Buffers.Buffer.Reserve | buffer.cpp:25-50 | makes room, keeps the unread bytes and readability, refuses more than a chunk |
| Buffers.Buffer.Advance | buffer.cpp:52-61 | appends what the producer stored, exactly when it is not empty and fits |
| Buffers.Buffer.Write | buffer.cpp:63-86 | appends all bytes; readable afterwards exactly unless the last chunk was full and drained; terminates |
| Buffers.Buffer.MaybeRemoveLast | buffer.cpp:88-97 | removes the last chunk exactly if it is empty |
| Buffers.Buffer.AppendFrom | buffer.cpp:99-153 | moves all chunks behind the own ones, becomes readable, and moves the read position exactly if it was done with a chunk; the source is well formed, and empty, exactly if its last chunk was not empty; a consumed or empty source is left alone |
| Buffers.Buffer.CopyFrom | buffer.cpp:155-182 | copies all bytes behind the own ones and leaves the source alone; readable exactly unless drained with no room for the first chunk |
| Buffers.Buffer.Consume | buffer.cpp:184-210 | drops the first n bytes or all; readable afterwards, unless n is 0 |
| Buffers.Buffer.ByteCount | buffer.cpp:212-222 | the number of unread bytes plus the sizes of the chunks from the second up to the read one |
| Buffers.Buffer.DropChunks | buffer.cpp:231-240 | removes chunks at the front without changing what is unread |
| Buffers.Replay | buffer.cpp:25-86 | after any sequence of calls the byte count is that of a byte queue; if writes follow reserves, the read area is empty only when the queue is |
| Buffers.WriteToFullDrained | buffer.cpp:63-86 | a write behind a full and drained chunk leaves nothing in the read area although its bytes are unread |
| Buffers.CopyToDrained | buffer.cpp:155-182 | so does a copy into any drained buffer without room for the first chunk |
| Buffers.AppendToDrained | buffer.cpp:133-137 | after appending to any buffer drained behind some bytes, byteCount exceeds the unread bytes |
| Buffers.OvercountAfterDrain | buffer.cpp:212-222 | it does for every received and consumed piece and every piece appended then |
| Buffers.AppendEmptyTail | buffer.cpp:143-152 | a source with an empty last chunk is left with a write position outside its chunks |
| Buffers.AppendReserved | buffer.cpp:143-152 | so is every source that was filled and has reserved room for more |
| Iterators.Iterator.constructor | buffer.cpp:254-267 | begin stands before the first unread byte, and is stuck exactly if the buffer is unreadable |
| Iterators.Iterator.Eob | buffer.hpp:214-220 | true exactly when nothing is left, and never when stuck |
| Iterators.Iterator.GetChar | buffer.hpp:234-236 | the next byte, or the byte behind the last one |
| Iterators.Iterator.Next | buffer.hpp:222-232 | passes exactly one byte and counts it, on the fast and the slow path, stays at the end, and does not move when stuck |
| Iterators.Iterator.SlowNext | buffer.cpp:280-296 | the same without a budget, across chunk boundaries |
| Iterators.Visit | buffer.hpp:214-236 | stepping from begin to eob visits exactly the flat unread bytes, and counts them |
| Iterators.StepMany | buffer.hpp:214-236 | however often next is called, a readable buffer is read byte by byte to its end, and an unreadable one is not read at all and never ends |
| Http.JunkMattersIffDangling | http_parser.cpp:117-134 | the byte behind the input matters if and only if the input ends between CR and LF of a header or blank line |
| Http.VerdictIsFinal | http_parser.cpp:11-57 | unless the input is dangling, more input changes neither a verdict nor the fields nor the bytes read |
| HttpStream.CutAtNul | http_request.cpp:20-27 | printing a field stops at its first NUL and keeps everything before it |
| HttpGrammar.MessageParses | http_parser.cpp:11-47 | a request line, any header lines and the empty line, followed by anything, are parsed: the three fields are read, and everything up to the empty line and no more |
| HttpGrammar.ParsedIsMessage | http_parser.cpp:11-47 | what was parsed is such a message, and its fields are the ones delivered |
| HttpGrammar.ParserReadsGrammar | http_parser.cpp:11-57 | outside dangling input, the parser succeeds if and only if the input starts with a message, asks for more if and only if it is the start of one or ends in a space behind the version, and fails otherwise |
| HttpGrammar.SpaceIsNoStart | http_parser.cpp:143-152 | a request line that ends in a space behind its version is the start of no message |
| HttpGrammar.CutIsIncomplete | http_parser.cpp:50-52 | a message cut anywhere is incomplete, except between CR and LF of a header or empty line, where it is dangling |
| HttpGrammar.CutInEmptyLine | http_parser.cpp:121-128 | cut between its last CR and LF, the byte behind decides between success and error |
| HttpStream.PrintIsMessage | http_request.cpp:20-27 | a printable request is printed as the request line of a message |
| HttpStream.PrintIsBare | http_request.cpp:20-27 | the printer writes no header lines and one empty line |
| HttpStream.RoundTrip | http_request.cpp:20-27 | parsing a printed request with any header lines, followed by anything, gives it back and stops right behind the empty line, if and only if its fields have no space, CR or NUL and its address starts with a slash |
| HttpStream.LoopGoesOn | http_connection.cpp:33-54 | the loop over more input does what it did, then goes on with the rest; once it stopped it stops in the same place |
| HttpStream.FragmentsDoNotMatter | http_connection.cpp:33-54 | however a stream is cut outside dangling places, the same requests are handled, with the same decision and the same rest |
| HttpStream.Pipelining | http_connection.cpp:33-54 | any number of messages and the start of another: exactly the complete ones are handled, in order, exactly the start is left, and reading goes on |
| HttpStream.QuitEndsPipeline | http_connection.cpp:56-63 | a message for "quit" is the last one handled: reading stops, and what follows is left |
| HttpStream.LoopIsExplained | http_connection.cpp:33-54 | whatever the input, the requests handled are those of the messages that it starts with; the loop goes on only in front of the start of another, and stops only behind a "quit" or in front of no message |
| HttpParser.ParseString | http_parser.cpp:105-115 | reads the first word of the flat bytes |
| HttpParser.ParseLine | http_parser.cpp:117-134 | reads the first line and its end as the flat bytes say |
| HttpParser.SkipChar | http_parser.cpp:136-141 | skips the character, or ends with the right exception without moving |
| HttpParser.SkipNewLine | http_parser.cpp:143-152 | skips CR LF, or ends with the right exception one byte further |
| HttpParser.ParseHeaders | http_parser.cpp:41-45 | the loop over header lines ends as the flat bytes say; terminates |
| HttpParser.ParseRequestFrom | http_parser.cpp:11-57 | code, fields and bytes read are a function of the flat bytes and the byte behind them, whatever the chunks |
| HttpConnection.ToBuffer | http_request.cpp:20-27 | appends the printed request |
| HttpConnection.Respond | http_connection.cpp:103-121 | appends header and cached file, and keeps the output buffer readable |
| HttpConnection.Connection.ReadDone | http_connection.cpp:33-54 | handles exactly the requests of the flat input, consumes exactly them, and decides as the flat loop; terminates |
| HttpConnection.Connection.Receive | connection.cpp:168-174 | a read of up to the offered room appends its bytes to the input |
| HttpConnection.Serve | connection.cpp:168-197 | a stream that the socket cuts in any way within the offered room, outside dangling places, is handled through the chunked buffer as the stream in one piece |
| RequestStats.SameEpoch | request_stats.cpp:27-32 | times in one twentieth of a second are closer than that |
| RequestStats.OtherEpoch | request_stats.cpp:27-32 | times that share a slot otherwise are more than 19/20 of a second apart |
| RequestStats.ReportUpper | request_stats.cpp:41-55 | a report is at most the number of requests in the last second |
| RequestStats.ReportLower | request_stats.cpp:41-55 | without a straddling pair it is at least the number of requests in the last 19/20 of a second |
| RequestStats.StraddleBreaksBound | request_stats.cpp:31-38 | at a straddling request it is not |
| RequestStats.BoundsIffNoStraddle | request_stats.cpp:27-55 | reports are in bounds, after every request and at all later times, if and only if there is no straddling pair |
| RequestStats.BoundsOnceWarm | request_stats.cpp:27-55 | so they are when all requests come a twentieth of a second after construction |
| RequestStats.EarlyRequestIsLost | request_stats.hpp:51-55 | two requests of which the second erases the first |
| RequestStats.Stats.FinishedRequest | request_stats.cpp:27-39 | records the request: every slot is what the history says |
| RequestStats.Stats.GetStats | request_stats.cpp:41-55 | returns the report on the history |

## Left out

- ListTheorems.NoThreadFaults: for several threads it takes the exchange of the hazard slots as one step, as do all theorems of ListTheorems, because the property is false of the two stores in the code (`ListSwapTheorem.SafeIffAlone`).
- ListTheorems.Linearizable: does not model weak memory ordering; the model is sequentially consistent, and so are the other protocols.
- StartList.List.RemoveFrom: does not model marks, hazard slots and retirement, because with one thread every CAS succeeds and the node is given away when the call returns.
- HashTable.Table.InitializeBucket: does not model racing threads; bucket 0 is created by a CAS on a local variable.
- HashTable.Table.Insert: demands a bucket number that the segment table has room for, because the code indexes it unchecked.
- Iterators.Iterator.GetChar: past the end of a full chunk it reads foreign memory; the byte found there is a parameter that is the same throughout a call of the read loop.
- HttpConnection.Serve: excludes fragments that end between CR and LF of a header or blank line, because the property is false there (`HttpGrammar.CutInEmptyLine`).
- Iterators.Visit: demands a readable buffer, because on an unreadable one it would not end (`Iterators.StepMany`).
- HttpConnection.Respond: does not model the text of the header, whose content length is the size of the first chunk only.
- Connection.StepKeepsInv: does not model reference counts, connecting and closing; it takes the output buffer to be readable, which `HttpConnection.Respond` keeps.
- ThreadPool.StepKeepsInv: folds the sections under the mutex of a worker into single steps, and lets any finished worker be the last one.
- FileCache.StepKeepsInv: does not model file contents, the counters of hits and failures, or the node that leaks when two threads insert the same file; a handle is the name of its file, and file sizes do not change.
- RequestStats.Stats.GetStats: does not model reads that race with updates, rounding, or 64-bit overflow.
- Connection.CanDeliver: says that delivery stays possible, not that it happens, because that is up to the socket and the scheduler.
- ListProgress.AloneReturns: says nothing of threads that run together, where a call can be made to restart without end.
- HashTable.ReplayAny: stays within the load limit, because above it insert indexes by a larger bucket count than lookup and remove; the contracts of the single calls have no such limit.
- parseResponse, the key-value connections, callbacks, timers, the poller, logging, signal handling and thread-local storage: they would only add easy members or are foreign calls.
- ListBasedSet, Spinlock, CircularBuffer and ThreadPoolNormal: simpler than what is modelled.
- Destructors, cache-line alignment and pointer tagging; a `next` field is a pair of pointer and mark.
