# Verified models of the WebRTC base library

This project models six parts of the library and proves what they are for. Each `.dfy` file
holds one module; `dafny verify dfyconfig.toml` checks them all.

**Threads and messages.**
`SendGraph` is the deadlock check of `Send`: a class with the worklist loop, which keeps no set
of visited threads. Its termination, the completeness of its search and the acyclicity of the
graph it maintains need one another: the list that the loop builds has exactly one entry for
every walk out of the target, a number that is finite because the graph is acyclic. Over it, a
state machine of Sends shows that threads blocked in `Send` never deadlock in a build with debug
checks, where every Send is registered.
`WakeupProtocol` takes `Get`, `Post`, `PostDelayed`, `Quit`, `Clear` and `Send` apart into the
steps between which other threads can run (test the stop flag, publish under the lock, signal,
scan, let go of the lock, wait), for any number of threads, and `SendProtocol` follows the request
of each `Send` through it.
`EventProtocol` is the event that they wait on, as a mutex, a condition variable and a flag.
`WakeupProgress` shows that no thread is stuck in it.
`DelayedQueue`, `ThreadQueues` and `ThreadQueueRuns` are the queue itself: the peek slot, the
ready list, and a binary heap of delayed messages that a clear compacts in place and makes into a
heap again. The heap is specified by its schedule, the entries in the order in which they are due,
so that the results do not depend on the layout of the heap. A `Get` takes its environment as an
argument: whatever other threads do at each point where it does not hold the lock.
`ThreadQueueUse` states what its callers rely on, in terms of handlers, identifiers and times alone.
`ThreadQuits` and `WakeupQuits` say exactly when a thread that is to stop leaves a message behind.

**The ring between two threads.** `SwapQueues` has the methods of the queue as one thread sees
them, and then the atomic steps (load, swap, update the shared count, move the private index) that
a producer and a consumer interleave.

**Bits.** `Words` models machine words as big-endian sequences of bits, `BitCodes` the two
variable-length codes, `BitBuffers` the reader and writer over an array of bytes, and `BitFields`
whole records of mixed fields. The codes are defined by their published descriptions, and every
reader is specified without reference to how it reads: it succeeds exactly when what lies ahead
begins with a code word, and it returns that word's value.

**Rates.** `RateStatisticsModel` compares the circular array of buckets with the list of samples,
`RateRuns` says when the sum of a run overflows,
and `RateTransparency` decides what an extra call of `Rate` changes for its callers.

**One-time initialisation.** `CallOnce` is the Windows branch of `call_once`, where the lock that
late callers wait on is made by the protocol itself.

**Arithmetic and state.** `TmToTimes` is the calendar, `Randoms` the xorshift generator and its
reduction to a range, `GrowableBuffers` the amortised growth of a buffer.

Points where the model had to decide, and findings:

- The contract of `Quit` says that every message that is ready is delivered before a `Get` of the
  stopped thread returns without one (`thread.h:176-181`). The code breaks it in three ways. A `Get`
  with a time limit can run out of time while a message and the request to quit arrive
  (`thread.cc:401-405`). Since the lock is not held between finding the queue empty and testing the
  stop flag (`thread.cc:360-379`), a message posted in between, before the request to quit, stays
  behind even without a time limit. And since `Post` tests the flag before it takes the lock
  (`thread.cc:414-424`), a post that is caught between the two by the request to quit can push in that
  same gap, even if the thread was stopped long before. `ThreadQuits.ReadyIsLeftBehind` and
  `WakeupQuits.ReadyIsLeftBehindByQuitting` give the inputs. Over all that other threads may do, the
  contract holds if and only if a message can be had at once (`ReadyIsDeliveredExactly`); with whole
  posts alone also if the thread is stopped already (`WholePostsDeliverExactly`); and with nothing in
  that gap also if there is no time limit (`PromptTestsDeliverExactly`).
- The header of `RateStatistics` says that a `Rate` call makes no difference that other methods
  can observe as long as time is monotonic (`rate_statistics.h:53-58`). With `SetWindowSize` this is
  not so: a `Rate` drops samples by the window of that moment, and a window that is enlarged
  afterwards no longer finds them. `RateIsNoticedAfterEnlarging` gives the shortest such run;
  `RateIsNoticedExactly` says when an extra `Rate` can be noticed at all, and `ResizeNoticesRate` by
  which resizes. Results differ there if one is a rate and the other none, or if their quotients of
  sum and active window differ.
- `TmToTime` returns milliseconds, although its header speaks of seconds (`time_utils.h:113-117`).
- `ReadNonSymmetric` leaves the offset behind the bits it has read when the last bit of a long code
  is missing, unlike `ReadExponentialGolomb`, which restores it (`bit_buffer.cc:172-179`). The contract
  states the offset in both cases.
- Bit counts are 1 to 64 for writing, because zero shifts a 64-bit value by 64, and 1 to 32 for
  reading, because zero is excluded by an assertion (`bit_buffer.cc:114`). The non-symmetric reader and
  writer take 2 to below 2^31 values: 1 would mean reading or writing no bit at all, and 2^31 shifts
  a 32-bit value by 32. `SizeNonSymmetricBits`, which does neither, also takes 1.
- A failed check that ends the program (a Send that would close a cycle) is `ok == false`. Sets of
  pointers are visited in ascending order.
- A `Get` is given a list of rounds: what arrives after each message disposed of, between finding
  the queue empty and testing the stop flag, and until the wait returns (whole posts, the pushes of
  posts that have tested the flag before, and requests to quit), whether the wait succeeded,
  and the clock after it. When the list ends nothing more arrives, and a `Get` that would wait has the
  outcome `StillWaiting`. A `kForever` wait is -1, as in the source.
- Numbers of delayed messages do not wrap around: the source asserts this at `thread.cc:481`.
- Counts and times of `RateStatistics` are unbounded but for the overflow test of the sum; times
  are not negative, so that the sentinel start time means what it should.
- Words of the generator are sequences of 64 bits, and the multiplication is modulo 2^64.

## Model

| member | source | states |
|---|---|---|
| SendGraph.ThreadManager.RegisterSendAndCheckForCycles | thread.cc:119-139 | from an acyclic graph the worklist ends, lists exactly the threads that the target reaches with one entry for each walk, refuses the edge if and only if it would close a cycle, and otherwise adds just that edge |
| SendGraph.ThreadManager.RemoveFromSendGraph | thread.cc:108-117 | no edge into or out of the removed thread remains, all others do, and the graph stays acyclic |
| SendGraph.AddEdgeAcyclic | thread.cc:119-139 | an edge keeps an acyclic graph acyclic if and only if its source cannot be reached from its target |
| SendGraph.RankDecreases | thread.cc:126-137 | in an acyclic graph every edge leads to a thread that reaches strictly fewer threads |
| SendGraph.WorklistStep | thread.cc:126-137 | handling one entry of the worklist leaves the number of walks from all entries unchanged but for that one, so the loop ends although it may visit a thread many times |
| SendGraph.ClosedContainsReachable | thread.cc:126-137 | a list that holds the targets of all its members holds all that can be reached from them |
| SendGraph.StepKeepsBlockedAlongEdges | thread.cc:791-797 | each registered, refused, returning or removing step keeps "blocked in Send on" within an acyclic graph |
| SendGraph.RunKeepsBlockedAlongEdges | thread.cc:791-797 | over every run the blocked relation is part of the graph, and the graph is acyclic |
| SendGraph.NoSendDeadlock | thread.cc:791-797 | at any point of any run, every non-empty group of blocked threads has a member that waits for a thread outside of the group |
| SendGraph.WaitingEndsAtRunningThread | thread.cc:873-882 | following who waits for whom always ends, at a thread that is not blocked |
| SendGraph.AllSendsCanReturn | thread.cc:873-882 | all Sends that are under way can return, in an order in which each waits for a thread that is not blocked then |
| SendGraph.HappensExactly | thread.cc:791-797 | a Send can start exactly if its thread is not blocked, its target is another thread and it closes no cycle; it can return exactly if it has started |
| WakeupProtocol.StepMissesNothing | thread.cc:335-432 | each atomic step of any thread keeps: whoever has looked at a queue or reply and missed something has a wakeup pending; also while a Get disposes of a message, whose destructor may post and send (thread.cc:369-373) |
| WakeupProtocol.RunMissesNothing | thread.cc:335-432 | so does every run from idle threads |
| WakeupProtocol.NoLostWakeup | thread.cc:380-398 | a Get committed to its wait while a message, a stop or an earlier delayed message is there, and a Send waiting although its reply is ready, have their event signalled or a thread about to signal it |
| WakeupProtocol.LooksTakeTheFront | thread.cc:347-376 | a look makes ready what it has found due, and takes exactly the front message |
| WakeupProgress.CanGoOn | thread.cc:335-432 | at any point of any run, every thread that does not wait on its event can take a step of its own, whatever the others do |
| WakeupProgress.WaitingGetScansAgain | thread.cc:380-398 | a Get that waits although it has something to do can be back at its scan after two steps |
| WakeupProgress.WaitingSendReturns | thread.cc:962-978 | a Send that waits although its reply is ready can be past its wait after three steps |
| WakeupProgress.FinishedIsAnswered | thread.cc:967-974 | once the handler of a Send has returned, the ready flag is set or the handler's thread is about to set it |
| WakeupQuits.QuittingLeavesWhatWasPushed | thread.cc:359-379 | in every run, a Get that quits leaves a ready message behind if and only if, between that Get's last look and its test of the stop flag, some thread has pushed one, or kept one when it cleared the queue, and nobody has cleared the queue after that |
| WakeupQuits.ReadyIsLeftBehindByQuitting | thread.h:176-181 | a run of two threads in which a message posted before the request to quit stays behind, against the contract of Quit |
| WakeupQuits.StopFollowsLastRequest | thread.cc:294-305 | over every run, the stop flag of a thread follows the last Quit or Restart directed at it |
| WakeupProtocol.NewlyMissed | thread.cc:410-433 | only a thread that is itself about to signal can make another one miss something |
| SendProtocol.RunKeepsSendsInOrder | thread.cc:864-882 | over every run the request of a Send is in at most one place, and the place agrees with how far the Send has got |
| SendProtocol.SendReturnsAfterItsHandler | thread.cc:962-978 | when a Send finds its reply ready, its handler has run to the end exactly once |
| SendProtocol.HandlersRunAtMostOnce | thread.cc:962-978 | no handler runs twice for one Send |
| EventProtocol.RunKeepsInvariant | event.cc:107-177 | sleeping waiters only while the flag is clear, and for auto-reset no more successful waits than signals |
| EventProtocol.NoSleeperWhileSignalled | event.cc:107-155 | while the flag is set nobody sleeps, and a waiter that tests it returns true |
| EventProtocol.OneWaiterPerSignal | event.cc:168-176 | an auto-reset event lets at most one waiter through for each signal |
| EventProtocol.StaysSetUntilReset | event.cc:107-118 | a manual-reset event stays signalled from a Set to the next Reset, and every test before that succeeds |
| EventProtocol.NoSuccessAfterReset | event.cc:114-118 | no wait succeeds between a Reset and the next Set |
| EventProtocol.NoSuccessAfterSuccess | event.cc:168-176 | after one success of an auto-reset event there is no other before the next Set |
| EventProtocol.WaitersGetOut | event.cc:141-155 | while the event is signalled, every waiter that has the mutex again gets out |
| EventProtocol.TimeLetsOut | event.cc:141-176 | a sleeping waiter whose time is up gets out without success |
| DelayedQueue.SortedIsUnique | thread.h:383-396 | distinct keys leave only one order in which delayed messages can be due |
| DelayedQueue.ScheduleIgnoresLayout | thread.h:398-401 | the order in which delayed messages leave does not depend on how the heap is laid out |
| DelayedQueue.KeepCommutesWithSchedule | thread.cc:532-548 | dropping entries from the container drops them from the schedule and moves no other |
| DelayedQueue.TopIsFirst | thread.h:383-401 | the top of a heap is the entry that is due first, the lowest-numbered one among those of equal times |
| DelayedQueue.RestOfSchedule | thread.cc:355-356 | without its top entry, a container in any order has the rest of the schedule |
| DelayedQueue.PriorityQueue.Push | thread.cc:476 | keeps the heap order and adds the entry |
| DelayedQueue.PriorityQueue.Pop | thread.cc:356 | keeps the heap order and removes the top entry alone |
| DelayedQueue.PriorityQueue.Reheap | thread.h:398-401 | makes a heap of a container in any order, with the same entries |
| ThreadQueues.Thread.Post | thread.cc:410-433 | appends to the ready messages, or refuses when quitting |
| ThreadQueues.Thread.PushMessage | thread.cc:423-431 | its second half, which appends although a request to quit has come in between |
| ThreadQueues.Thread.DoDelayPost | thread.cc:453-484 | puts the message into the schedule behind all that are due no later, or refuses when quitting |
| ThreadQueues.Thread.PushDelayed | thread.cc:468-482 | its second half, which does so although a request to quit has come in between |
| ThreadQueues.Thread.MoveDueMessages | thread.cc:347-358 | makes ready the delayed messages that are due, in order, and no others |
| ThreadQueues.Thread.TakeReadyMessage | thread.cc:359-376 | takes the first ready message that is no request to dispose, and disposes of those before it, whatever arrives between the passes |
| ThreadQueues.TakeAmidStep | thread.cc:339-376 | taking the passes one by one, with arrivals after each, is the same as letting all of these arrive first |
| ThreadQueues.Thread.Get | thread.cc:319-408 | for every course of waits and of posts, pushes of posts that have tested the flag before, and requests to quit, at each point where the lock is not held: the new state, outcome, disposed messages and last clock reading are those of AfterGet |
| ThreadQueues.Thread.Peek | thread.cc:307-317 | the new state, outcome, disposed messages and last clock reading are those of AfterPeek |
| ThreadQueueUse.PeekReturnsAsGet | thread.cc:307-317 | a Peek returns what a Get on the same course returns, and puts a message that it gets back in front |
| ThreadQueueUse.PeekShowsFirst | thread.cc:307-317 | a Peek returns the first of what can be had at once, and leaves all of it ahead of what arrives meanwhile |
| ThreadQueueUse.PeekedStaysFirst | thread.cc:308-326 | over every run without a Get or a clear that matches it, a peeked message is what every later Peek and the next Get return |
| ThreadQueues.Thread.Clear | thread.cc:502-549 | keeps exactly the messages that do not match, with the heap order restored, and returns the others |
| ThreadQueues.Thread.Size | thread.h:221-224 | the number of messages held |
| ThreadQueues.GetTakesFirst | thread.cc:326-379 | a Get hands out the first of what is available (the peeked, then the ready, then the due messages) and leaves the others, ahead of what arrives meanwhile; with none it quits if told so |
| ThreadQueueUse.AvailableExactly | thread.cc:339-376 | what can be had at once is the peeked message, and every ready or due message whose identifier is not 0xFFFFFFFE |
| ThreadQueueUse.OnlyRequestsAreDisposedOf | thread.cc:368-374 | what a Get disposes of has this identifier, and what it returns has not |
| ThreadQueueUse.WaitsForFirst | thread.cc:380-406 | a Get that finds nothing, and then waits undisturbed, returns the first message that is available when the wait ends |
| ThreadQueueUse.TimesOutOnlyInTime | thread.cc:401-405 | without a time limit a Get never runs out of time, and with one not before its time is up |
| ThreadQueueUse.LimitEndsTheWait | thread.cc:394-405 | a Get has returned once a wait has failed, or has ended when the time is up |
| ThreadQueueUse.DelayedPostGoesBehind | thread.h:383-396 | a message posted with a delay goes behind all that are due no later, and ahead of all that are due later |
| ThreadQueues.DueComeFirst | thread.cc:349-357 | in a sorted schedule, the messages due by a time are an initial part |
| ThreadQueues.MoveDueKeepsOrder | thread.cc:347-358 | making messages ready changes nothing in the order in which messages are to leave |
| ThreadQueues.DrainHandsOutAvailable | thread.cc:319-408 | repeated Gets hand out the peeked, the ready and the due messages in this order, whether or not the thread is quitting |
| ThreadQuits.QuittingLeavesOnlyLate | thread.cc:359-379 | a Get that quits leaves a ready message behind if and only if, between finding the queue empty and testing the flag, one was posted before the request to quit, or one was pushed whose post had tested the flag before; delayed messages only if their time has not come or they arrived in the course of the last look |
| ThreadQuits.ForeverLeavesReady | thread.h:176-181 | without a time limit, and with waits that succeed, a Get breaks the contract of Quit on exactly those courses on which its last look finds nothing, then a message lands, and then the flag is set |
| ThreadQuits.ReadyIsDeliveredExactly | thread.h:176-181 | whatever other threads do, the contract of Quit holds for a Get if and only if a message can be had at once |
| ThreadQuits.WholePostsDeliverExactly | thread.h:176-181 | when no post is caught between its test of the flag and its push, the contract holds if and only if the thread is stopped already or a message can be had at once |
| ThreadQuits.PromptTestsDeliverExactly | thread.h:176-181 | when nothing arrives between the two tests of a Get, it holds if and only if there is no time limit, the thread is stopped already, or a message can be had at once |
| ThreadQuits.LateLeavesReady | thread.cc:359-379 | in every queue from which no message can be had at once, a message that lands between the two tests, with a request to quit, stays behind |
| ThreadQuits.ReadyIsLeftBehind | thread.h:176-181 | the three inputs on which a Get breaks the contract |
| ThreadQueues.ClearFiltersOrder | thread.cc:502-549 | a clear takes the matching messages out of the order and moves no other |
| ThreadQueueUse.ClearOfAll | thread_message.h:46-49 | a clear with no handler and the identifier 0xFFFFFFFF leaves nothing |
| ThreadQueueUse.ClearOfHandler | thread_message.h:46-49 | a clear of a handler with that identifier leaves exactly the messages of other handlers, in order |
| ThreadQueueUse.ClearOfId | thread_message.h:46-49 | a clear with no handler and another identifier leaves exactly the messages with different ones, in order |
| ThreadQueueUse.ClearOfHandlerAndId | thread_message.h:46-49 | a clear with both leaves exactly the messages that differ in one of them, in order |
| ThreadQueues.ClearCommutesWithDrain | thread.cc:502-549 | clearing and then draining hands out the same as draining and leaving out the matches |
| ThreadQueues.PushInserts | thread.cc:475-476 | a pushed entry with the next number is inserted into the schedule, wherever the heap puts it |
| ThreadQueues.RemovedAreHits | thread.cc:507-546 | what a clear returns is what matches, although it finds the delayed ones in the layout of the heap |
| ThreadQueueRuns.RunConserves | thread.cc:307-549 | over every run each message held or taken in is still held, has left or was cleared, exactly once |
| ThreadQueueRuns.RunLeavesInLine | thread.cc:319-408 | over every run messages that are held together leave in the order in which they are held |
| ThreadQueueRuns.DelayedLeaveInOrder | thread.h:383-396 | of two delayed entries pending together the one with the earlier run time, or with the lower number for the same run time, is ahead in line, and the messages leave from the head of the line, as long as none of their kind is posted or cleared |
| ThreadQueueRuns.NothingRunsEarly | thread.cc:347-358 | over every run with a monotonic clock, no delayed message is handed out or shown before its time |
| SwapQueues.SwapQueue.Insert | swap_queue.h:131-164 | appends the input unless full, and hands one unused item back |
| SwapQueues.SwapQueue.Remove | swap_queue.h:172-204 | takes the front item unless empty, and leaves the input behind |
| SwapQueues.SwapQueue.Clear | swap_queue.h:112-123 | empties the queue |
| SwapQueues.SwapQueue.SizeAtLeast | swap_queue.h:210-214 | the number of items |
| SwapQueues.StepKeepsInvariant | swap_queue.h:112-204 | each atomic step of either side keeps indices, count, slots and history in agreement |
| SwapQueues.RunKeepsInvariant | swap_queue.h:112-204 | so does every interleaving, with a Clear anywhere within an Insert |
| SwapQueues.EveryStepIsAtomic | swap_queue.h:112-204 | every step of every interleaving is one step of an atomic bounded queue |
| SwapQueues.ReceivedInOrder | swap_queue.h:172-204 | the consumer has received the inserted items in order, without exactly those that a clear dropped |
| SwapQueues.NoSharedSlot | swap_queue.h:136-157 | between its check and its count update neither side's slot is the other's |
| SwapQueues.NothingLostOrCopied | swap_queue.h:145-146 | slots and hands together always hold the same items |
| SwapQueues.CountStaysInRange | swap_queue.h:152-161 | the count is below the size when it is raised and above zero when it is lowered |
| SwapQueues.ProducerNeverWaits | swap_queue.h:131-164 | at any point of any interleaving the producer can go on, and each of its steps brings an Insert nearer to its end |
| SwapQueues.ConsumerNeverWaits | swap_queue.h:112-204 | so can the consumer, in Remove and Clear |
| SwapQueues.LooksDecide | swap_queue.h:136-180 | an Insert goes on if and only if there is room when it looks, and a Remove if and only if there is an item |
| BitCodes.UeShape | bit_buffer.h:66-71 | the Exp-Golomb code of v is one zero less than v + 1 has digits, and then v + 1 in binary |
| BitCodes.UeCodeNumber | bit_buffer.cc:185-215 | its value is the code number of section 9.1 of ITU-T H.264: 2^leadingZeroBits - 1 plus the suffix |
| BitCodes.UePrefixFree | bit_buffer.cc:185-215 | at most one value's code begins a string of bits |
| BitCodes.SignedBijection | bit_buffer.cc:217-228 | the signed mapping is a bijection between 0..2^32-2 and the 32-bit integers without the least one |
| BitCodes.SignedCodeOnBits | bit_buffer.cc:217-228 | section 9.1.1 of ITU-T H.264 on the bits: of the code of v, the bits from the first one to the last but one form the magnitude of v, and the last bit is 0 for exactly the positive values |
| BitCodes.SignedCodeIsUnique | bit_buffer.cc:343-355 | no other bits have this property for v |
| BitCodes.NsComplete | bit_buffer.cc:162-183 | every string that is long enough begins with a non-symmetric code word, of the decoded value |
| BitCodes.NsInverse | bit_buffer.cc:308-317 | decoding what begins with the code of v gives v and the length of its code |
| BitCodes.NsPrefixFree | bit_buffer.h:54-64 | at most one value's non-symmetric code begins a string of bits |
| BitCodes.NsKraftEquality | bit_buffer.h:54-64 | the weights of all code words add up to exactly one: the code wastes nothing |
| BitCodes.NsOrdered | bit_buffer.h:54-64 | the non-symmetric codes are in the order of their values: where two first differ, the lesser has a 0 |
| BitCodes.NsLengths | bit_buffer.cc:319-327 | with 2^(k-1) <= n < 2^k, the first 2^k - n values have codes of k - 1 bits and the others of k |
| BitBuffers.WritePartialByte | bit_buffer.cc:43-60 | every bit of the result: the n highest bits of the source at the offset, the source bits behind them or'ed into the target, and the other bits of the target |
| BitBuffers.WritePartialByteExact | bit_buffer.cc:43-60 | when the source has no bits behind those n, exactly n bits of the target change |
| BitBuffers.CountBits | bit_buffer.cc:63-70 | the length of the binary representation |
| BitBuffers.BitBuffer.PeekBits | bit_buffer.cc:110-142 | the value of exactly the next bits, if there are that many and at most 32; nothing moves |
| BitBuffers.BitBuffer.ReadBits | bit_buffer.cc:144-146 | the same, and the offset moves behind them |
| BitBuffers.BitBuffer.ConsumeBits | bit_buffer.cc:152-160 | moves on by the bits, if they are there |
| BitBuffers.BitBuffer.ConsumeBytes | bit_buffer.cc:148-150 | the same for whole bytes |
| BitBuffers.BitBuffer.Seek | bit_buffer.cc:238-247 | moves to an offset that lies in the buffer or at its end, and to no other |
| BitBuffers.BitBuffer.ReadExponentialGolomb | bit_buffer.cc:185-215 | succeeds exactly if the rest begins with the code of a 32-bit value, returns it and consumes exactly its code; otherwise restores the offset |
| BitBuffers.BitBuffer.ReadSignedExponentialGolomb | bit_buffer.cc:217-228 | the same for signed values; the bits consumed give magnitude and sign |
| BitBuffers.BitBuffer.ReadNonSymmetric | bit_buffer.cc:162-183 | succeeds exactly if the rest begins with a code word, returns its value and consumes it; states where a failure leaves the offset |
| BitBuffers.BitBuffer.WriteBits | bit_buffer.cc:263-306 | the next bits become the low bits of the value, most significant first, and no other bit of the buffer changes |
| BitBuffers.BitBuffer.WriteNonSymmetric | bit_buffer.cc:308-317 | the next bits become the code, if it fits; otherwise nothing changes |
| BitBuffers.BitBuffer.SizeNonSymmetricBits | bit_buffer.cc:319-327 | the length of the code |
| BitBuffers.BitBuffer.WriteExponentialGolomb | bit_buffer.cc:329-341 | the next bits become the code of any value but 2^32-1, if it fits |
| BitBuffers.BitBuffer.WriteSignedExponentialGolomb | bit_buffer.cc:343-355 | the same for any signed value but the least one; the bits written give magnitude and sign |
| BitFields.FieldPrefixFree | bit_buffer.cc:144-228 | two fields of the same kind whose codes begin the same bits are the same |
| BitFields.RecordsUniquelyDecodable | bit_buffer.cc:144-228 | so are two records of the same kinds |
| BitFields.WriteFields | bit_buffer.cc:263-355 | a record of mixed fields is written in full, if it fits, and nothing outside of it changes |
| BitFields.ReadFields | bit_buffer.cc:144-228 | a record is read exactly if one lies ahead |
| BitFields.WriteSeekRead | bit_buffer.cc:144-355 | writing any record, seeking back and reading it gives the same record and ends at the same offset |
| RateStatisticsModel.RateStatistics.Update | rate_statistics.cc:63-89 | the new state is AfterUpdate of the old one: moved, started by a first sample, and with the sample in the bucket of its millisecond |
| RateStatisticsModel.RateStatistics.EraseOld | rate_statistics.cc:117-143 | the loop over the buckets has the effect of AfterErase |
| RateStatisticsModel.RateStatistics.Rate | rate_statistics.cc:91-105 | moves the window, and tells whether there is a rate and what it is computed from |
| RateStatisticsModel.RateStatistics.SetWindowSize | rate_statistics.cc:145-151 | refuses sizes out of range, and otherwise resizes and moves the window |
| RateStatisticsModel.RateStatistics.Reset | rate_statistics.cc:52-61 | the state is that of a new counter |
| RateStatisticsModel.RunAgrees | rate_statistics.cc:63-151 | over every run with non-negative times, each bucket holds exactly the samples of its millisecond, and the counters their number and, until the first overflow, their sum |
| RateStatisticsModel.RateIsTheSlidingSum | rate_statistics.cc:91-94 | with a monotonic clock and a fixed window W, the counters behind a rate are the number and sum of all samples offered in (now - W, now] |
| RateRuns.OverflowsExactly | rate_statistics.cc:81-87 | for every run: the counter has overflowed if and only if, since the last Reset, an accepted sample brought the samples then in the window to 2^63 - 1 |
| RateRuns.NoOverflowBelowLimit | rate_statistics.cc:81-87 | as long as the samples accepted since the last Reset add up to less, nothing overflows, whatever the sizes of the window |
| RateRuns.SlidingOverflowsExactly | rate_statistics.cc:81-87 | with a monotonic clock and a fixed window W: if and only if at some sample at t the samples offered in (t - W, t] reached 2^63 - 1 |
| RateRuns.RateOfSamples | rate_statistics.cc:91-105 | with a monotonic clock and a fixed window W, whether there is a rate, overflow included, and what it is computed from, in terms of the samples offered alone: the sum over (now - W, now], over the time since the first sample or W |
| RateRuns.WindowOfRun | rate_statistics.cc:22-61 | a new counter and one that has been reset have the largest window, until another size is set |
| RateStatisticsModel.OverflowLasts | rate_statistics.cc:81-105 | after an overflow there is no rate until Reset |
| RateTransparency.EraseTwice | rate_statistics.cc:117-143 | moving the window start in two stages is the same as moving it at once if and only if the second stage does not ask for an earlier start |
| RateTransparency.RateIsTransparent | rate_statistics.h:53-58 | an extra Rate changes no later result of a run whose first effective operation is no earlier and no resize that remembers it |
| RateTransparency.ResizeRemembersRate | rate_statistics.cc:145-151 | exactly when a resize leaves a different state after an earlier Rate |
| RateTransparency.RunsReach | rate_statistics.cc:63-151 | every run with non-negative times leads to a counter of which the next two hold |
| RateTransparency.ResizeNoticesRate | rate_statistics.h:53-58 | a Rate followed by a resize gives different results (a rate against none, or another quotient of sum and active window) in some later run if and only if nothing has overflowed, the Rate moved the window, and the resize would have let it start earlier |
| RateTransparency.RateIsNoticedExactly | rate_statistics.h:53-58 | with monotonic times an extra Rate can be noticed at all if and only if nothing has overflowed, it moved the window, and the window can still be enlarged |
| RateTransparency.OverflowHidesAll | rate_statistics.cc:81-105 | two counters that have overflowed cannot be told apart by any run |
| RateTransparency.RateIsNoticedAfterEnlarging | rate_statistics.h:53-58 | two runs from a new counter that differ in one Rate, and in a later rate |
| CallOnce.StepKeepsInvariant | features/thread_c_inl.h:520-548 | each step of any thread keeps the status in agreement with where the winning thread is |
| CallOnce.CallOnceIsSafe | features/thread_c_inl.h:520-548 | in every interleaving the function starts at most once, no thread touches the lock before it exists, and nobody returns before the function has finished |
| CallOnce.NobodyPassesARunningFunction | features/thread_c_inl.h:538-541 | while the function runs no waiter gets past the lock |
| CallOnce.NoDeadlock | features/thread_c_inl.h:520-548 | at any point of any interleaving a held lock is held by a caller inside it, and unless all have returned, some caller can take a step |
| CallOnce.AllCanReturn | features/thread_c_inl.h:520-548 | from any point of any interleaving the callers can be run on until all of them have returned |
| TmToTimes.TmToTime | time_utils.cc:75-118 | 1000 times the formula of section 4.16 of IEEE Std 1003.1-2017 for every valid time from 1970 on, and -1 for every other |
| TmToTimes.NextSecondAddsOne | time_utils.cc:97-117 | one second later is one second more, across months, leap days, centuries and 400 years |
| TmToTimes.NextSecondIsNext | time_utils.cc:75-95 | what is called the next second is the very next valid time in the order of the calendar |
| TmToTimes.StrictlyIncreasing | time_utils.cc:97-117 | the result orders times as the calendar does, and tells all of them apart |
| TmToTimes.CalendarInverse | time_utils.cc:97-117 | counting seconds from the Epoch reaches every valid time, after as many steps as the formula says |
| TmToTimes.FitsInt64 | time_utils.cc:112-117 | up to 292 million years after 1900 the milliseconds fit into 64 bits |
| TmToTimes.MonthLengths | time_utils.cc:79-95 | the lengths of the months, with February of leap years |
| TmToTimes.KnownSeconds | time_utils.cc:97-117 | the dates and times of the seconds 10^9 and 2^31 - 1 |
| Randoms.StepIsPermutation | random.h:67-71 | the three shifts permute the 64-bit states |
| Randoms.NeverZero | random.h:66-72 | from a non-zero seed the state is never zero, however long the run |
| Randoms.RunsStayApart | random.h:67-71 | different seeds never lead to the same state after the same number of steps |
| Randoms.OutputIsInjective | random.h:72 | the state can be recovered from the output |
| Randoms.OutputIsNonZero | random.h:66-72 | the output is zero for the zero state alone |
| Randoms.FirstOutputs | random.h:67-73 | the first two outputs from a seed of 1 |
| Randoms.DrawsOf | random.cc:29-35 | the 32-bit draws with a given result are those of one interval |
| Randoms.DrawsAreShared | random.cc:29-35 | the intervals cover all draws, and each has the floor or the ceiling of 2^32 / (t + 1) of them |
| Randoms.Random.NextOutput | random.h:67-73 | steps the state, which stays non-zero, and returns its non-zero output |
| Randoms.Random.RandUpTo | random.cc:24-36 | a number in [0, t], whose interval holds the draw |
| Randoms.Random.RandUnsigned | random.cc:38-41 | a number in [low, high] |
| Randoms.Random.RandSigned | random.cc:43-48 | a number in [low, high], for any signed bounds |
| Randoms.Random.RandBool | random.cc:64-67 | true for exactly the upper half of the draws |
| GrowableBuffers.Buffer.AppendData | buffer.h:264-272 | the contents become the old ones and the new items |
| GrowableBuffers.Buffer.SetData | buffer.h:209-217 | the contents become the items |
| GrowableBuffers.Buffer.SetSize | buffer.h:327-333 | the contents are kept up to the new size |
| GrowableBuffers.Buffer.EnsureCapacityWithHeadroom | buffer.h:361-382 | there is room, with half as much again as before if it had to grow, and the contents stay |
| GrowableBuffers.CopyingIsAmortized | buffer.h:366-371 | over every run all copies together are at most four and a half times the largest size reached, and the capacity at most one and a half times it |

## Left out

- ThreadQueues.Thread.Get: how long it asks to wait, and the debug assertion that a dispose message has no handler.
- ThreadQueueRuns.DelayedLeaveInOrder: runs that post or clear messages of the same kind as the two; the kind may be narrowed down to the two messages alone.
- ThreadQueues.Thread.DoDelayPost: the wrap-around of the message number after 2^32 delayed posts.
- ThreadQueues.AfterPeek: the peek slot has no lock, so only the owner calls Peek, Get and Clear.
- WakeupProtocol.NoLostWakeup: safety only; that a Send returns in the end is not claimed, and is false when a Quit comes between the two tests of the stop flag.
- SendProtocol.SendReturnsAfterItsHandler: `ready` is one atomic flag, because sender and handler guard it by different locks; Sends from threads without a Thread object, which use an event of their own, and handlers that call Get themselves are not modelled.
- WakeupProtocol.Next: Clear and Restart are single steps, the timeout of a wait may happen at any time, and neither a handler nor a destructor makes a Get of its own.
- SendGraph.NoSendDeadlock: builds without debug checks, where a Send is not registered (thread.cc:107 and 792) and two Sends can block each other; and runs in which a thread is removed while it is blocked or waited for are excluded, as by the source.
- SwapQueues.SwapQueue: sequentially consistent atomics, a size above zero, and no item verifier.
- RateStatisticsModel.RateStatistics.Rate: the floating-point scaling of the result and its own range test; the sample counts are unbounded.
- RateTransparency.ResizeNoticesRate: a result is the quotient of sum and active window as a real number; scaling it by a constant and rounding it, which may hide a small difference, is left out.
- RateTransparency.RateIsNoticedExactly: the same scaling and rounding.
- RateStatisticsModel.RunAgrees: after an overflow only the buckets and the number of samples agree, not the sum.
- TmToTimes.TmToTime: years beyond those of FitsInt64, where the 64-bit product overflows.
- Randoms.Random: the floating-point draws and the plain casts of an output.
- GrowableBuffers.Buffer: moves, appends of a buffer's own elements, zeroing on free, and EnsureCapacity, which grows without headroom and has no such bound.
- BitBuffers.BitBuffer: the fixed-width wrappers ReadUInt8 to WriteUInt32 and null arguments; one class has both the reader and the writer.
- EventProtocol.RunKeepsInvariant: the Windows event and the semaphore branch, and the warning timeout, which only waits again.
- CallOnce.AllCanReturn: that under a given scheduler all callers return in the end.
- GetDelay, Dispatch and ProcessMessages: how long until the next message, the timing of handlers, and the loop around Get.
- ThreadManager: the registration of threads and of the current one.
- Locks, reference counts, file and trace wrappers, platform threads, optional, safe conversions and the headers of macros: thin wrappers that would add only easy members.
