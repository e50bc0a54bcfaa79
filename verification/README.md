# Gudov: a verified model of the fiber runtime, its buffers, timers, pool and address text

Gudov is an M:N coroutine server framework. This project models the parts of it whose
correctness does not show in any single function, and proves what they promise.

* **Fiber scheduling** (`Protocol*.dfy`). Worker threads, fibers, event slots, sleep timers and
  the shutdown test form a labelled step system; a run is any interleaving of its steps. Proved
  over every run: a fiber that waits to be woken has exactly one wake-up token and every other
  fiber has none; no fiber is resumed by two threads, or resumed while Running or ended; tasks
  and event counters are conserved; what `Stopping` means, and what a completed shutdown means;
  no worker is ever stuck. `ProtocolSteps.dfy` says what the steps mean in the terms of the code.
* **Task list and event table** (`Scheduler.dfy`, `IoManager.dfy`, `EventLoop.dfy`). The objects
  as the code updates them in place; bits, slots, the pending counter and the kernel's interest
  set always agree; what is done to list and table are steps of the step system.
* **Timers** (`Timer.dfy`). The ordered set keyed by mutable fields, expiry, re-arming, and the
  announcement of a new earliest deadline.
* **Byte buffers** (`Bits.dfy`, `ByteArray.dfy`, `Codec.dfy`, `Values.dfy`, `BufferCodec.dfy`,
  `Stream.dfy`). The linked blocks with a cached cursor refine one flat memory; on top of it the
  integer, varint, zigzag and string codecs, scatter/gather lists and the fixed-size stream loops.
* **Connection pool** (`Pool.dfy`). The pool as one caller sees it, and under any interleaving of
  concurrent callers.
* **Addresses** (`Ipv6Text.dfy`, `Prefix.dfy`). The IPv6 printer against section 2.2 of RFC 4291,
  and prefix masks bit by bit (section 3.1 of RFC 4632).

`dafny verify dfyconfig.toml` checks everything.

## Results to know about

* `Stopping` can hold while a fiber still sleeps: an idle thread that has collected expired
  callbacks and not scheduled them yet holds wake-ups that are in no timer and no queue, so a
  second worker's idle fiber may end. `QuiescenceUpToBatches` shows that this is the only
  exception, `StoppingWithSleeper` is a run that reaches it, and `CleanShutdown` shows that the
  exception is gone once all workers have left their loop.
* A fiber can be queued before it has yielded (`QueuedWhileRunning`); only the test for Running
  fibers in the scan of `Run` keeps another thread from resuming it.
* 64-bit varints, signed 64-bit varints and varint-prefixed strings survive exactly below 2^32,
  because the reader narrows every group to 32 bits before shifting. Shifts of a 32-bit value by
  32 or more are left open by the language: the statements hold for every value they may have.
* Reading an empty string is a null dereference when its length prefix ends at the end of the
  capacity; `WriteThenRead` says when that happens in terms of the buffer before writing.
* `WriteToFile` works exactly when nothing is readable, the position is at a block boundary, or
  at least one block is readable.
* The fixed-size stream loops store a negative result in an unsigned variable: a failing call
  adds one to what is left to move instead of ending the loop.
* An event report that is partly stale (one reported bit registered, another not) fails the
  assertion of `TriggerEvent`; all others are handled.
* The two age tests of the pool keep old connections and discard young ones, and the creation
  time they use is never set (`YoungIsNeverTaken`). The model follows the code.
* The comment above `IOManager::Tickle` says that nothing is written when no thread is idle; the
  guard does the opposite. Nothing here depends on it.

## Model

| member | source | states |
|---|---|---|
| `ProtocolTokens.SingleWakeUpToken` | gudov/hook.cpp:165-181 | in every state of every run a fiber that registered itself, sleeps, or is freshly submitted has exactly one place that will wake it (slot, sleep timer, collected or queued or executing callback, queue entry); one that runs free, has ended or had its slot deleted has none |
| `ProtocolTokens.ResumeIsExclusive` | gudov/fiber.cpp:132-164 | in every run a fiber about to be resumed is Ready and executed nowhere, so the assertion of Resume cannot fail; no two threads execute one fiber; a fiber is Running exactly while some thread executes it |
| `ProtocolTokens.InvRun` | gudov/scheduler.cpp:129-193 | the invariant behind both holds in every reachable state |
| `ProtocolTokens.WaitMoves` | gudov/iomanager.cpp:148-157 | registering itself gives the running fiber a token in the slot, which was free, and moves no other |
| `ProtocolTokens.TokensStep` | gudov/scheduler.cpp:129-193 | every step keeps the token invariant |
| `ProtocolTokens.SleepMoves` | gudov/hook.cpp:201-206 | arming the sleep timer gives the running fiber a token in the timer and moves no other |
| `ProtocolTokens.TriggerMoves` | gudov/iomanager.cpp:39-51 | triggering or cancelling an event moves what its slot holds to the end of the queue and moves nothing else |
| `ProtocolTokens.DelMoves` | gudov/iomanager.cpp:190-197 | deleting an event removes what its slot holds and moves nothing |
| `ProtocolTokens.ExpirePlaces` | gudov/iomanager.cpp:337-338 | the i-th expired timer's token is now the i-th of the batch, expired timers hold none, every other place is as before |
| `ProtocolTokens.BatchPlaces` | gudov/iomanager.cpp:339-343 | the i-th token of the batch is now that of the i-th new queue entry, the batch holds none, every other place is as before |
| `ProtocolTokens.TakeMoves` | gudov/scheduler.cpp:155-159 | taking a task moves its token from the queue to the taking thread and moves nothing else |
| `ProtocolTokens.ResumeMoves` | gudov/scheduler.cpp:169-182 | resuming a queued fiber uses up exactly its token; starting a callback moves none |
| `ProtocolTokens.RunWakeMoves` | gudov/hook.cpp:201-206 | the callback of a sleep timer moves the sleeper's token to the end of the queue |
| `ProtocolTokens.RunCancelMoves` | gudov/hook.cpp:152-160 | the timeout callback moves what the slot still holds to the queue, and otherwise moves nothing |
| `ProtocolTokens.FibersTake` | gudov/scheduler.cpp:138-160 | a taken fiber is Ready, thanks to the skip of Running ones |
| `ProtocolCounts.TasksAreConserved` | gudov/scheduler.cpp:129-193 | in every run the submitted tasks are the disjoint union of queued, held and finished; no task is held twice; the active counter is the number of threads holding one; a pinned task is held by its own thread only |
| `ProtocolCounts.PendingCountsEvents` | gudov/iomanager.cpp:139-142 | in every run the pending counter is the number of registered events plus the triggers whose decrement is still to come |
| `ProtocolCounts.TakeHandsOver` | gudov/scheduler.cpp:155-159 | taking a task removes exactly it from the queue and gives exactly it to the thread |
| `ProtocolCounts.ReturnFinishes` | gudov/scheduler.cpp:169-182 | coming back from a fiber takes its task from the thread, and exactly it becomes finished |
| `ProtocolCounts.ActiveStep` | gudov/scheduler.cpp:158-181 | every step keeps the active counter equal to the number of threads holding a task |
| `ProtocolCounts.PendingStep` | gudov/iomanager.cpp:226-229 | every step keeps the pending counter equal to registered events plus half-done triggers |
| `ProtocolShutdown.QuiescenceUpToBatches` | gudov/iomanager.cpp:286-291 | when Stopping holds, nothing is queued, armed, registered or executing, and a fiber still waits to be woken if and only if its wake-up is in a collected, unscheduled batch |
| `ProtocolShutdown.CleanShutdown` | gudov/scheduler.cpp:183-188 | once every worker has left its loop and no outside call came after Stop, every task is finished and every fiber has ended or has lost its wake-up (`LostMeaning`) |
| `ProtocolShutdown.IdleRun` | gudov/iomanager.cpp:311-317 | in every state of every run some worker's idle fiber is still alive, or Stopping holds, or an outside call came after Stop |
| `ProtocolShutdown.StoppingWithSleeper` | gudov/iomanager.cpp:336-343 | a run in which Stopping holds and a second idle fiber may end while a fiber sleeps |
| `ProtocolShutdown.QueuedWhileRunning` | gudov/scheduler.cpp:149-153 | a run in which a fiber is queued, unpinned, while another thread still executes it, and only the Running test makes it ineligible |
| `ProtocolSteps.TakeMeaning` | gudov/scheduler.cpp:138-160 | in every run an entry may be taken exactly when it is not pinned to another thread and, if it is a fiber, no thread executes it; a callback is never held back |
| `ProtocolSteps.FiberResumes` | gudov/scheduler.cpp:169-172 | for a taken fiber exactly that fiber can be resumed, and it then runs on the thread |
| `ProtocolSteps.CallStarts` | gudov/scheduler.cpp:173-182 | a taken callback starts in any new fiber and is what that fiber runs |
| `ProtocolSteps.WakeFires` | gudov/hook.cpp:203-205 | a started sleep callback queues the sleeper |
| `ProtocolSteps.TimeoutFires` | gudov/hook.cpp:152-160 | a started timeout, still wanted, queues the fiber that waits in the slot and empties the slot |
| `ProtocolSteps.FiberLifeCycle` | gudov/fiber.cpp:132-194 | the state of a fiber changes only on its Resume, on the Yield of the thread that executes it, and when its function ends, to Running, Ready and Term |
| `ProtocolSteps.FiberBirth` | gudov/scheduler.cpp:173-180 | a fiber appears exactly when it is submitted, Ready, or started for a callback, Running |
| `ProtocolSteps.TermIsFinal` | gudov/fiber.cpp:182-194 | a fiber that has ended stays ended for the rest of the run |
| `ProtocolSteps.LostMeaning` | gudov/iomanager.cpp:190-197 | a fiber loses its wake-up exactly when its slot is deleted or it yields without having arranged for one |
| `ProtocolSteps.TimersMeaning` | gudov/timer.cpp:158-170 | exactly which timers there are after each step: recurring ones survive expiry, others do not, a cancelled one is gone, no entry changes |
| `ProtocolSteps.ExpireCollects` | gudov/timer.cpp:162-163 | the collected callbacks are those of the expired timers, in order |
| `ProtocolSteps.SubmitStores` | gudov/scheduler.h:140-149 | a submitted task is stored with its own work and pin at the end of the queue |
| `ProtocolSteps.BatchStores` | gudov/scheduler.h:88-102 | a scheduled batch is stored in order and unpinned at the end of the queue |
| `ProtocolSteps.TasksPersist` | gudov/scheduler.cpp:156 | a task keeps its work and its pin for the rest of the run |
| `ProtocolSteps.FlagsMeaning` | gudov/scheduler.cpp:75-81 | the stop flag says that Stop was called, and the flag for late calls that an outside call came after it |
| `ProtocolSteps.StopTestMeaning` | gudov/iomanager.cpp:286-291 | in every run the stop test holds exactly when Stop was called, nothing is armed, registered or queued, no trigger is half done and no thread holds a task |
| `ProtocolSteps.NoWorkerIsStuck` | gudov/scheduler.cpp:129-193 | in every state of every run each worker that has not left its loop has a next step, named by where it is |
| `ProtocolSteps.MayAct` | gudov/hook.cpp:144-165 | code that runs freely may use every public operation, each under exactly the condition on what it is about |
| `ProtocolSteps.IdleRoundTrip` | gudov/scheduler.cpp:183-192 | a thread with nothing to do can enter its idle fiber, changing nothing else |
| `ProtocolSteps.IdleGoesBack` | gudov/iomanager.cpp:336-343 | an idle thread with nothing expired goes through its turn changing nothing |
| `ProtocolSteps.HandlingGoesBack` | gudov/iomanager.cpp:404-412 | after its events an idle thread comes back to the top of the loop, changing nothing |
| `ProtocolSteps.IdleLeaves` | gudov/scheduler.cpp:185-188 | once the stop test holds an idle thread can leave its loop for good |
| `ProtocolSteps.FinishRoundTrip` | gudov/fiber.cpp:182-194 | a fiber that ends brings its thread back to the top of the loop with exactly its task finished and counted off |
| `ProtocolSteps.YieldRoundTrip` | gudov/fiber.cpp:148-164 | a fiber that yields after arranging its wake-up brings its thread back in the same way and is Ready with that wake-up |
| `Scheduler.Scheduler.Schedule` | gudov/scheduler.h:140-149 | non-empty work is appended with its pin, empty work dropped; a tickle is asked for exactly when the list was empty |
| `Scheduler.Scheduler.ScheduleAll` | gudov/scheduler.h:88-102 | all non-empty entries are appended in order |
| `Scheduler.Scheduler.TakeTask` | gudov/scheduler.cpp:137-160 | removes exactly the earliest task that, when the scan comes to it, is neither pinned to another thread nor a Running fiber; every skipped entry is one or the other |
| `Scheduler.TakeRefinesStep` | gudov/scheduler.cpp:155-159 | the step Take is possible exactly for the entries the scan would take, and list and counter change as in the step |
| `Scheduler.PushRefinesList` | gudov/scheduler.h:141-149 | appending one task is the queueing of the step system |
| `Scheduler.PushAllRefinesList` | gudov/scheduler.h:88-102 | appending a range is the batch queueing of the step system |
| `EventTable.PendingCountsBits` | gudov/iomanager.cpp:139-142 | in an orderly table the pending counter is the number of set event bits |
| `EventTable.KernelKnows` | gudov/iomanager.cpp:125-132 | the kernel watches a descriptor exactly when its bits are not empty, so ADD, MOD or DEL chosen from the bits is the legal operation |
| `EventTable.PutKeepsTable` | gudov/iomanager.cpp:139-157 | adding an unset event keeps bits, slots, counter and kernel set in agreement and fills exactly one slot |
| `EventTable.RetireKeepsTable` | gudov/iomanager.cpp:190-197 | removing events keeps the agreement and empties exactly their slots |
| `EventTable.GrowKeepsTable` | gudov/iomanager.cpp:92-101 | growing the table changes no slot and keeps the agreement |
| `IoManager.FdContext.TriggerEvent` | gudov/iomanager.cpp:39-51 | clears the bit and the slot and queues exactly what the slot held |
| `IoManager.IOManager.Resize` | gudov/iomanager.cpp:92-101 | existing contexts are kept, new ones are empty |
| `IoManager.IOManager.Register` | gudov/iomanager.cpp:118-158 | outcome by outcome: a duplicate or a refusing kernel leaves the table alone, otherwise exactly one slot is added |
| `IoManager.IOManager.AddEvent` | gudov/iomanager.cpp:103-159 | the filled slots gain exactly the callback or the running fiber; fails exactly on a duplicate or a kernel fault |
| `IoManager.IOManager.DelEvent` | gudov/iomanager.cpp:161-198 | drops exactly that slot without queueing anything; fails exactly when it is not registered or the kernel refuses |
| `IoManager.IOManager.CancelEvent` | gudov/iomanager.cpp:200-230 | drops that slot and queues what it held, once |
| `IoManager.IOManager.CancelAll` | gudov/iomanager.cpp:232-268 | empties the descriptor and queues what its slots held, Read first |
| `IoManager.IOManager.HandleEvent` | gudov/iomanager.cpp:355-401 | handled, skipped or aborted, each with its exact condition; a handled report triggers and removes exactly the reported bits |
| `IoManager.IOManager.HandleEvents` | gudov/iomanager.cpp:346-402 | the loop is a sequence of turns, one per report, each changing table and list as its report says; it aborts exactly when some report is partly stale at its own turn |
| `EventLoop.BatchSlots` | gudov/iomanager.cpp:346-402 | over a batch exactly the slots that some report not refused by the kernel is about are emptied; every other slot keeps its contents |
| `EventLoop.BatchConserves` | gudov/iomanager.cpp:393-401 | over a batch every task is queued or waiting in a slot as often as before and the list only grows at its end, so what leaves the table is queued exactly once |
| `EventLoop.TurnSlot` | gudov/iomanager.cpp:365-391 | one turn empties exactly the slots its report is about and keeps the table in order |
| `EventSteps.WaitIsStep` | gudov/iomanager.cpp:118-158 | AddEvent for the running fiber is possible exactly when the step WaitEvent is, with the same slots and counter after it |
| `EventSteps.AddIsStep` | gudov/iomanager.cpp:118-158 | the same for AddEvent with a callback and the step AddEventCall |
| `EventSteps.DelIsStep` | gudov/iomanager.cpp:170-197 | the same for DelEvent |
| `EventSteps.CancelIsSteps` | gudov/iomanager.cpp:208-229 | CancelEvent is the step CancelEvent and then Settle: same slots, counter and queued tasks |
| `EventSteps.TriggerIsSteps` | gudov/iomanager.cpp:393-401 | a triggered bit of the event loop is the step Trigger and then Settle |
| `EventLoop.QueuedLength` | gudov/iomanager.cpp:394-401 | every triggered bit queues exactly one task |
| `EventLoop.QueuedOrder` | gudov/iomanager.cpp:257-264 | exactly the work of the triggered slots is queued, the reader before the writer |
| `EventLoop.StaleMeaning` | gudov/iomanager.cpp:365-379 | a report fails exactly when the kernel obeys, it is about a registered event, and it names an event that is not registered; an error or hang-up alone never fails |
| `TimerOrder.SearchFinds` | gudov/timer.cpp:68-85 | in a set sorted by the comparator a lookup finds a key if and only if it is there, and an absent key fits where the search lands |
| `TimerOrder.ProbeAddressIsIrrelevant` | gudov/timer.cpp:153-157 | whatever the address of the probe, the scan ends exactly after the timers whose deadline has come |
| `TimerOrder.FrontKept` | gudov/timer.cpp:162-170 | re-armed timers never undercut a front deadline that was due |
| `TimerOrder.RolloverMeaning` | gudov/timer.cpp:188-195 | a rollover is a step back of more than an hour, or any step back while the clock is below one hour |
| `TimerOrder.ResetDeadlineMeaning` | gudov/timer.cpp:56-63 | a reset from now ends one new period from now; any other reset keeps the start of the timer |
| `TimerManager.TimerManager.Find` | gudov/timer.cpp:33-36 | the lookup finds a timer exactly when it is in the set |
| `TimerManager.TimerManager.Cancel` | gudov/timer.cpp:17-26 | leaves the set exactly when the callback was set; the unchecked erase is always of the timer itself; announcement kept |
| `TimerManager.TimerManager.AddTimer` | gudov/timer.cpp:91-97 | the new timer joins the set in order; an earlier front is announced once |
| `TimerManager.TimerManager.InsertAndAnnounce` | gudov/timer.cpp:173-186 | a timer that becomes the front sets the flag and raises exactly one notification unless the flag is already set; no other raises one |
| `TimerManager.TimerManager.Refresh` | gudov/timer.cpp:28-41 | the deadline is now plus the period, the set keeps its members and order, the announcement survives a clock that does not run back |
| `TimerManager.TimerManager.Reset` | gudov/timer.cpp:43-66 | period and result in exactly the accepted cases; a reset from now ends at now plus the new period and any other keeps the start; members, order and announcement kept |
| `TimerManager.TimerManager.GetNextTimeout` | gudov/timer.cpp:117-131 | the time to the earliest deadline, zero if it has passed, none if there is no timer; the caller now plans for that deadline |
| `TimerManager.TimerManager.ExpiredEnd` | gudov/timer.cpp:153-157 | the expired prefix: all timers on rollover, else exactly those due |
| `TimerManager.TimerManager.Settle` | gudov/timer.cpp:162-170 | every expired timer yields its callback in order and is re-armed once or retired |
| `TimerManager.TimerManager.ListExpiredCallbacks` | gudov/timer.cpp:133-171 | exactly the due timers (all on rollover) leave the set in deadline order; recurring ones are back once at now plus period, the others lose their callback; a timer is in the set exactly while it has a callback; without a rollover no unannounced earlier deadline appears |
| `TimerManager.TimerManager.Forget` | gudov/timer.cpp:158-170 | a timer outside the set can be freed and its address used again; order, membership and announcement are kept |
| `ByteArray.ByteArray.CursorIsBlock` | gudov/bytearray.cpp:394-410 | the cursor is block position / base size, and null exactly at the end of the capacity |
| `ByteArray.ByteArray.AddCapacity` | gudov/bytearray.cpp:584-613 | adds exactly the whole blocks needed, keeps all contents, and repairs a null cursor |
| `ByteArray.ByteArray.Write` | gudov/bytearray.cpp:299-333 | the flat memory changes exactly at the position; position, size and capacity follow |
| `ByteArray.ByteArray.Read` | gudov/bytearray.cpp:335-362 | the next n flat bytes; refused exactly when fewer are readable; null dereference exactly for n = 0 at the end of the capacity |
| `ByteArray.ByteArray.SetPosition` | gudov/bytearray.cpp:394-410 | refused exactly past the capacity; the cursor is the block of the new position |
| `ByteArray.ByteArray.Seek` | gudov/bytearray.cpp:402-409 | the walk from the root ends at the block of the position |
| `ByteArray.ByteArray.Clear` | gudov/bytearray.cpp:285-297 | empty, at position 0, one block left with its contents |
| `ByteArray.ByteArray.Gather` | gudov/bytearray.cpp:497-515 | the gather loop yields the segments of the requested positions, and fails exactly when they do not fit the capacity |
| `ByteArray.ByteArray.GetReadBuffers` | gudov/bytearray.cpp:487-516 | the segments of the next readable bytes, at most len |
| `ByteArray.ByteArray.GetReadBuffersAt` | gudov/bytearray.cpp:518-552 | the same from any position, found by walking from the root; it runs off the last block exactly when there is something to read and it does not fit behind that position |
| `ByteArray.ByteArray.CursorAgreesWithWalk` | gudov/bytearray.cpp:526-534 | at the current position both lists are the same |
| `ByteArray.ByteArray.SegmentsInside` | gudov/bytearray.cpp:500-514 | segments are not empty, lie inside consecutive blocks, and no two are in the same block |
| `ByteArray.ByteArray.SegmentsHold` | gudov/bytearray.cpp:500-514 | segments concatenate to exactly the flat slice they stand for |
| `ByteArray.ByteArray.NextSegmentsHold` | gudov/bytearray.cpp:487-516 | what is handed to the kernel stands for the next flat bytes |
| `ByteArray.ByteArray.GetWriteBuffers` | gudov/bytearray.cpp:554-582 | room is made and the segments cover the next len positions |
| `ByteArray.ByteArray.WriteToFile` | gudov/bytearray.cpp:412-434 | emits exactly the readable bytes if and only if nothing is readable, the position is at a boundary, or a block is readable |
| `ByteArray.ByteArray.Scatter` | gudov/socket_stream.cpp:23-28 | data received into the segments lands at the next positions and nowhere else |
| `Varint.Varint32RoundTrip` | gudov/bytearray.cpp:209-221 | every 32-bit value is read back and the bytes after it are left |
| `Varint.Varint64RoundTrip` | gudov/bytearray.cpp:225-237 | a value is read back if and only if it is below 2^32, whatever over-wide shifts yield |
| `Varint.ReadsNarrow` | gudov/bytearray.cpp:225-237 | whatever the bytes, the result of either loop has 32 bits |
| `Varint.ReadsUntil` | gudov/bytearray.cpp:209-237 | on any bytes a loop stops after an unmarked byte or after as many groups as the width has room for, and runs out of bytes only before that |
| `Varint.ReadsSum` | gudov/bytearray.cpp:209-221 | on any bytes, as long as no shift reaches 32, the result is the number the groups read stand for, up to wrap-around |
| `Varint.VarintLength` | gudov/bytearray.cpp:113-135 | the encoding uses as few 7-bit groups as the value needs |
| `Varint.VarintFits` | gudov/bytearray.cpp:113-135 | 5 and 10 groups are enough, so the fixed arrays are not overrun |
| `Varint.VarintPrefixFree` | gudov/bytearray.cpp:113-121 | no encoding is a prefix of another |
| `Zigzag.EncodeMeaning` | gudov/bytearray.cpp:91-105 | non-negative numbers become the even codes and negative ones the odd codes, the minimum included |
| `Zigzag.DecodeMeaning` | gudov/bytearray.cpp:107-109 | shift and xor halve even codes and complement odd ones |
| `Zigzag.DecodeEncode` | gudov/bytearray.cpp:91-109 | decoding undoes encoding for every signed value of any width |
| `Zigzag.EncodeDecode` | gudov/bytearray.cpp:91-109 | encoding undoes decoding for every word of any width |
| `Words.SwapReverses` | gudov/endian.h:12-25 | a byte swap reverses the bytes in memory, and twice is the identity |
| `Words.PutWordIsPortable` | gudov/bytearray.cpp:49-89 | the bytes written depend on the chosen order, not on the machine |
| `Words.GetWordIsPortable` | gudov/bytearray.cpp:184-204 | so does the value read |
| `Words.PutThenGet` | gudov/bytearray.cpp:184-204 | a word written by one machine is read by any other |
| `Values.ValueRoundTrip` | gudov/bytearray.cpp:45-169 | each kind of value read back where it was written is the same, with the same bytes after it, if and only if it fits what the reader can represent; the empty string at the end of a full memory is the null dereference |
| `Values.ListRoundTrip` | gudov/bytearray.cpp:171-283 | any list of typed values, in either byte order and between any two machines, is read back if and only if every value fits and the list does not end in an empty string at the end of a full memory |
| `Values.FixedFormat` | gudov/bytearray.cpp:45-89 | fixed-width numbers are stored in two's complement in the chosen byte order |
| `Values.VarFormat` | gudov/bytearray.cpp:111-135 | unsigned varints store the number, signed ones 2n or -2n - 1 |
| `Values.StrFormat` | gudov/bytearray.cpp:149-167 | strings store their length, cut to the prefix, and then their bytes |
| `BufferCodec.CollectGroups` | gudov/bytearray.cpp:113-121 | the mask-or-shift loop fills the array with exactly the groups |
| `BufferCodec.WriteGroups` | gudov/bytearray.cpp:113-135 | the varint appears in the flat memory at the position |
| `BufferCodec.WriteWord` | gudov/bytearray.cpp:49-89 | the fixed-width word does |
| `BufferCodec.WriteStr` | gudov/bytearray.cpp:149-162 | the narrowed length and the string do |
| `BufferCodec.WriteStrVint` | gudov/bytearray.cpp:164-167 | the varint length and the string do |
| `BufferCodec.ReadWord` | gudov/bytearray.cpp:184-204 | the word at the position, or the exception exactly when bytes are missing |
| `BufferCodec.ReadGroupsLoop` | gudov/bytearray.cpp:209-237 | the loop reads what the group-by-group meaning says and leaves the rest |
| `BufferCodec.WriteValue` | gudov/bytearray.cpp:45-169 | every kind of write appends the value's encoding |
| `BufferCodec.ReadValue` | gudov/bytearray.cpp:171-283 | every kind of read decodes the readable bytes |
| `BufferCodec.WriteThenRead` | gudov/bytearray.cpp:45-283 | on the linked buffer, values written at any position and read from there are the same and end at the same position, if and only if all fit and the last is not an empty string ending at a block boundary at or past the old capacity |
| `Stream.WriteSome` | gudov/socket_stream.cpp:39-50 | puts the next bytes on the wire, as many as the kernel takes, and advances past them |
| `Stream.ReadSome` | gudov/socket_stream.cpp:19-30 | takes the next bytes off the wire into the buffer and advances past them |
| `Stream.WriteFixSize` | gudov/stream.cpp:65-78 | a finished transfer has sent, in order, length bytes and one more for each failing call; an unfinished one has sent less; every call that neither failed nor ended it has moved something |
| `Stream.SendExactly` | gudov/stream.cpp:65-78 | for every sequence of positive kernel answers the transfer finishes and has sent exactly the next n bytes |
| `Stream.ReadFixSize` | gudov/stream.cpp:33-46 | the same for receiving |
| `Stream.ReceiveExactly` | gudov/stream.cpp:33-46 | for every sequence of positive kernel answers the transfer finishes and has stored exactly the next n bytes in flight |
| `Stream.SendAndReceive` | gudov/stream.cpp:33-78 | for every pattern of positive short transfers on either side and any two block sizes, n bytes sent and received arrive complete, unchanged and in order |
| `PoolRules.Discarded` | gudov/http/http_connection.cpp:251-264 | everything discarded was unusable and the first one kept is usable |
| `HttpConnectionPool.Pool.PopUsable` | gudov/http/http_connection.cpp:251-264 | the loop discards exactly the unusable front, takes the first usable connection and keeps the rest in order |
| `HttpConnectionPool.Pool.GetConnection` | gudov/http/http_connection.cpp:246-292 | exactly the discarded connections are freed, one connection at most is lent and never more often than allowed, total stays pooled plus lent; a pooled connection is lent only when it is connected and past its lifetime, and such a one is never freed and keeps a new one from being opened |
| `PoolRules.YoungIsNeverTaken` | gudov/http/http_connection.cpp:258-261 | a pooled connection within its lifetime is never the one taken |
| `HttpConnectionPool.Pool.LeasesBounded` | gudov/http/http_connection.cpp:295-298 | no pooled or lent connection has been lent more than max_request times (once if that is 0) |
| `HttpConnectionPool.Pool.ReleasePtr` | gudov/http/http_connection.cpp:294-304 | a returned connection goes to the back of the list exactly when it is connected, past its lifetime and used less often than allowed, and is freed otherwise; total stays pooled plus lent |
| `PoolRuns.PoolConservation` | gudov/http/http_connection.cpp:246-304 | in every interleaving of callers the total is what is pooled, lent or still to be settled, and pooled plus lent when no call is in progress; nothing is pooled or lent twice or both, freed twice, freed while in use, or lent more than max_request times (once if that is 0) |
| `PoolRuns.OwnerStep` | gudov/http/http_connection.cpp:265-304 | every step leaves each connection with one owner, or none after its only deletion |
| `PoolRuns.TotalStep` | gudov/http/http_connection.cpp:265-302 | every step keeps the total equal to pooled, lent and unsettled |
| `PoolRuns.InvRun` | gudov/http/http_connection.cpp:246-304 | the pool invariant holds in every reachable state |
| `PoolRuns.JudgeMeaning` | gudov/http/http_connection.cpp:295-301 | a returned connection is kept exactly when it is alive and used less often than allowed, and deleted otherwise |
| `PoolRuns.NoCallIsStuck` | gudov/http/http_connection.cpp:246-304 | in every state of every run each call has a next step and every lent connection can be returned |
| `PoolRuns.OpenLends` | gudov/http/http_connection.cpp:269-291 | an opened connection is counted and lent once |
| `PoolRuns.JudgedSettles` | gudov/http/http_connection.cpp:295-303 | a kept connection ends up at the back of the list with the total as it was, a deleted one lowers the total by one |
| `Ipv6Text.PrintGroups` | gudov/address.cpp:357-374 | the loop prints the first run of zero groups as "::" and the other groups in hexadecimal |
| `Ipv6Text.ExpandPrint` | gudov/address.cpp:355-379 | reading the printed text by section 2.2 of RFC 4291 gives back the eight groups, for every address |
| `Ipv6Text.PrintInjective` | gudov/address.cpp:355-379 | different addresses print differently |
| `Ipv6Text.OneDoubleColon` | gudov/address.cpp:359-374 | "::" stands only for zeros and appears at most once |
| `Ipv6Text.Insert` | gudov/address.cpp:355-379 | the line, read by section 2.2 of RFC 4291, gives the eight numbers made of the stored bytes, high byte first, and the stored port |
| `Ipv6Text.GroupsMeaning` | gudov/address.cpp:357-370 | group i is 256 times stored byte 2i plus stored byte 2i + 1 |
| `Ipv6Text.PrintMeaning` | gudov/address.cpp:359-374 | the first run of zero groups, as long as it is, becomes "::"; without one all groups are printed |
| `Ipv6Text.LineBack` | gudov/address.cpp:355-379 | the line determines groups and port |
| `Ipv6Text.InsertInjective` | gudov/address.cpp:355-379 | lines are equal only for equal stored addresses and ports |
| `Prefix.MaskMeaning` | gudov/address.cpp:15-18 | the host mask is 2^n - 1 for n host bits below 32, the wrap-around at 31 included |
| `Prefix.CountBytes` | gudov/address.cpp:20-27 | the clear-lowest-bit loop counts the set bits |
| `Prefix.Subnet4Bits` | gudov/address.cpp:310-317 | for prefixes 1 to 32 the stored mask is that many leading ones in network order |
| `Prefix.Subnet4Length` | gudov/address.cpp:146-150 | counting the bits of the stored mask gives the prefix back |
| `Prefix.Broadcast4Bits` | gudov/address.cpp:290-298 | agrees with the address on the prefix, all ones after it |
| `Prefix.SubnetAddress` | gudov/address.cpp:399-409 | the loop builds the mask bytes |
| `Prefix.BroadcastAddress` | gudov/address.cpp:381-388 | the loop builds the broadcast bytes |
| `Prefix.Subnet6Bits` | gudov/address.cpp:399-409 | for prefixes 0 to 127 the mask is that many leading ones |
| `Prefix.Broadcast6Bits` | gudov/address.cpp:381-388 | agrees with the address on the prefix, all ones after it |
| `Prefix.Subnet6Length` | gudov/address.cpp:151-158 | counting the bits of all bytes gives the prefix back |
| `Prefix.PrefixLength` | gudov/address.cpp:151-158 | the loop over the sixteen bytes counts the set bits |

## Left out

- Step granularity: `Yield`'s state write and its context swap are one step; the lookup and growth of `fd_contexts_` are one step; `IOManager::Stopping` is evaluated as one step; in `AddEvent` and `DelEvent` the counter and the slot change in one step; the announcement of a new front timer happens with its insertion.
- `Scheduler::Run`, `Fiber` and the hooks are steps of the state machine and not classes with fields, because what matters about them is how they interleave; the ownership that `Task` constructors swap out of their argument is not represented.
- One `IOManager`: slots always queue into the scheduler of the manager that holds them.
- Pipe wake-ups and tickling, and with them every claim about liveness or latency; `TimerInfo.cancelled`, `errno` and whether a timeout reaches its fiber in time.
- Programs that queue a fiber themselves while it also waits for an event or a timer: only freshly created fibers are submitted from outside.
- ProtocolShutdown.CleanShutdown: calls from outside threads after `Stop` are excluded, because such a call can come after the workers have gone.
- TimerManager.TimerManager.ListExpiredCallbacks: the announcement is promised without clock rollovers and without deadlines that wrap around 64 bits, as it needs a clock that does not run back.
- TimerManager.TimerManager.AddTimer: the address of a new timer differs from those of the timers not yet freed (`Forget`), as the allocator guarantees.
- The timer set and the timers of the step system are modelled separately; no lemma ties them.
- Stream.WriteFixSize: a length that reaches 2^64 with the failing calls added is excluded; a peer that is not connected appears as a failing call.
- Prefix.Subnet4Bits: prefix 0 is excluded, where the code shifts a 32-bit value by 32; IPv6 prefixes of 128 and more write outside the address and are excluded too.
- Base size 0 of a buffer, which divides by zero; the double arithmetic of `ceil` in AddCapacity is exact division; memory is never exhausted and deallocation is not modelled.
- Floating-point reads and writes: they are the fixed-width words of their bits.
- The positional const `Read`, which starts from the cursor and is only called with the current position; `ReadFromFile`, `ToString`, `ToHexString`.
- `NetworkAddress` of both families, which applies the host mask instead of the prefix mask.
- The `total_` counter as a 32-bit integer, the bound `max_size_`, which the pool never consults, and the requests sent over a connection.
- The Ragel parsers, chunked bodies, HTTP sessions and servlets: they depend on generated automata.
- Logging, configuration, environment, file utilities, socket wrappers, TcpServer and the examples: they would only add easy members.
