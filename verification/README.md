# Models of ESP-IDF components

Dafny models of ten parts of ESP-IDF with proofs of what each is for. Check everything with
`dafny verify dfyconfig.toml`.

- **Trace transport** (`RingBuffer.dfy`, `Framing.dfy`, `Membufs.dfy`). A ring buffer that hands out
  contiguous chunks, and on top of it two memory blocks that device and host swap, with a ring for
  packets that do not fit. Main results: the stream shown ++ block ++ pending is, after every operation,
  the encoding of the packets put so far followed by the open one (`Proto.Valid`, which every method
  keeps), after a full flush the host recovers exactly the packets sent (`Proto.Flush`), and where a
  packet goes, and when there is no room for one, is determined (`Proto.UpBufferGet`).
- **Static-initialisation guards** (`Guards.dfy`, `GuardSchedules.dfy`). One mutex and one counting semaphore shared by all
  guards, as a state machine with one step per semaphore operation, for any number of tasks and guards; a
  class with the globals does the same steps in place. Main results: `InitialiseOnce`, `CallsAnswered`,
  `NoStrandedWaiter`, `StuckIff`, `FlatDrains`, `DeadlockIff`, `StrandedIff`.
- **Over-the-air update** (`OtaImage.dfy`, `OtaBoot.dfy`). Writing an image in chunks of any size with
  erase-ahead and 16-byte caching, and the choice of the boot slot by device and host tool. Flash is NOR
  flash: programming only clears bits. Main results: `Session.Write`, `Session.FlushBlankIff`,
  `OtaData.SwitchTo`, `ToolMatchesDevice`, `ToolEffective`.
- **Task scheduler of idf.py** (`Scheduler.dfy`). Main results: `ExecuteTasks`, `WhichRuns`.
- **Console argument splitter** (`SplitArgv.dfy`). Main results: `Split`, `TokensOf`, `LineSplits`.
- **DFU image writer** (`Dfu.dfy`). The reader is the "new ASCII" cpio layout: a magic number, thirteen
  8-digit hexadecimal fields, the name with its NUL, and name and data padded to four bytes. Main results:
  `ArchiveReadsBack`, `Writer.Finish`, `Writer.IndexedInOrder`.
- **eFuse table checks** (`Efuse.dfy`). Main results: `OverlapsMean`, `SharedBitsShareRoot`.
- **Splitting paths at spaces** (`SplitPaths.dfy`). Main results: `CutsAreNumbers`, `SplitPathsBySpaces`.

`Base.dfy` holds shared types, bytes and modular arithmetic.

## Where the code and its documentation differ

The models follow the code.

- The comments at `esp-idf/components/cxx/cxx_guards.cpp:79-88` say that a waiting task's take will
  succeed because the semaphore is given once per waiter. With two guards a task can take a token meant for the waiter
  of another guard (`TokensCanBeTaken`). What holds is `NoStrandedWaiter`: that is possible only while another guard is
  being initialised. It takes two tasks and two guards (`StrandedIff`), three tasks if initialisers do not nest
  (`FlatStrandedIff`).
- Initialisation can deadlock exactly if some initialiser may ask for a guard itself (`DeadlockIff`), even when the
  initialisers depend on each other acyclically (`NestedDeadlocks`). Otherwise everybody returns (`FlatDrains`).
- `esp_ota_begin` rounds the image size up in 32 bits (`esp_ota_ops.c:169`). For the last sizes below 2^32 the
  rounding wraps to 0: nothing is erased and the call succeeds (`EraseLength`, `Begin`).
- `esp_ota_end` (`esp-idf/components/app_update/esp_ota_ops.c:353-362`) writes the cached unit without an
  erase. In sequential mode the unit can lie in a sector no write erased (`FlushMeetsOldCells`);
  `FlushBlankIff` gives the exact condition on total size and last chunk.
- The boot formula wraps for sequence number 0 (`esp_ota_ops.c:544`): switching to the last slot from number 0
  keeps 0, which boots that slot only if the slot count divides 2^32 (`Effective`).
- `otatool.py` ignores entry states and keeps the state of the copy it overwrites (`ToolIgnoresStates`,
  `ToolWithoutEffect`). `ToolMatchesDevice` says exactly when it decides like the device, `ToolEffective` exactly when
  its switch takes effect.
- `idf.py` warns that only the first occurrence of a repeated command is executed (lines 529-538). Every turn of the
  loop that pulls the command forward for a task that needs it takes the last occurrence, so which one is run depends
  on the number of those turns (`WhichRuns`); without order-only dependencies that number is known before the call
  (`WhichRunsBefore`). The warning is right if no earlier task reaches the command
  (`FirstRuns`), and wrong for a whole family of lists (`LastRuns`, `LastOccurrenceRuns`).
- `mkdfu.py` documents how a file is split; with part size 0 the file is dropped without an error (`Writer.AddFile`).

## Assumptions

- Trace: equal block sizes; user sizes below 2^15 in the layout without SystemView; a reserved packet is filled and
  put before the next get, swap or flush. A permitted swap means the host has drained the block it hands back; which
  swaps are permitted, what the host leaves in the block and when a timeout fires is arbitrary, except that data the
  host announces fits the block: the source copies as many bytes as the announced size says
  (`esp-idf/components/app_trace/app_trace_membufs_proto.c:96-110`). A configuration
  without pending storage is a pending ring of one byte, which never holds a packet.
- Guards: fewer than 2^31 tasks; only the task that got 1 for a guard releases or aborts it.
- Update: the partition is a whole number of sectors; claims about the stream hold until a partition write fails.
  Sequence numbers in force stay below 2^32 - 17; a copy whose erase or write failed is as it was or does not have a
  matching checksum.
  The checksum of a sequence number is a parameter.
- Scheduler: the union of both kinds of dependencies has a rank, and every dependency is a known command.
- DFU: MD5, CRC-32 and the contents of files are parameters; names are the bytes of their UTF-8 form.
- eFuse: field widths of at least one bit, and the check of root fields was made.
- Paths: which paths exist is a parameter.

## Model

| member | source | states |
|---|---|---|
| RingBuffer.Ring.constructor | esp-idf/components/app_trace/include/esp_app_trace_util.h:114-120 | A new ring is a valid, empty queue over the storage given. |
| RingBuffer.Ring.Produce | esp-idf/components/app_trace/app_trace_util.c:87-127 | Succeeds exactly when a contiguous chunk fits at the write pointer or, after an early wrap, at the front; then exactly that chunk joins the end of the queue, over no unread byte. A refusal changes nothing; without an early wrap `cur_size` stays. |
| RingBuffer.Ring.Consume | esp-idf/components/app_trace/app_trace_util.c:129-153 | Succeeds exactly when the next bytes are contiguous; returns a prefix of the queue and leaves exactly the rest, also where the read pointer wraps at a shrunk `cur_size`. Every chunk that could be produced before still can. |
| RingBuffer.Ring.ReadSize | esp-idf/components/app_trace/app_trace_util.c:155-166 | What one consume can return is at most what is held, and is 0 exactly when the queue is empty. |
| RingBuffer.Ring.WriteSize | esp-idf/components/app_trace/app_trace_util.c:168-182 | Exactly the chunks up to this size fit without an early wrap; with `cur_size` full it is within the free space and 0 only when nothing is free. |
| RingBuffer.ViewGrown | esp-idf/components/app_trace/app_trace_util.c:87-127 | Each way the write pointer moves (plain, to the very end, early wrap, reset of an empty ring) appends exactly the chunk to the byte queue the three indices stand for. |
| RingBuffer.ViewShrunk | esp-idf/components/app_trace/app_trace_util.c:129-153 | Each way the read pointer moves removes exactly a prefix from that queue. |
| RingBuffer.Ring.Store | esp-idf/components/app_trace/app_trace_membufs_proto.c:210-216 | Writing into a chunk still held rewrites those bytes of the queue and nothing else, wherever the chunk lies. |
| RingBuffer.ViewStored | esp-idf/components/app_trace/app_trace_membufs_proto.c:210-216 | The same on memory images: a store inside the last chunk, on either side of the wrap, replaces the matching bytes of the queue. |
| Framing.RoundTrip | esp-idf/components/app_trace/app_trace_membufs_proto.c:41-45 | A host that reads block_sz, wr_sz and the 15-bit length recovers packets ps from a byte stream if and only if the stream is the encoding of ps. |
| Framing.ParsedIsEncoded | esp-idf/components/app_trace/app_trace_membufs_proto.c:261-274 | Whatever a complete parse returns encodes to exactly the bytes parsed. |
| Framing.PrefixRecovers | esp-idf/components/app_trace/app_trace_membufs_proto.c:261-274 | Stopping anywhere in the stream, the host has recovered a prefix of the packets written, and in it every packet it was shown in full. |
| Framing.OpenPacketReported | esp-idf/components/app_trace/app_trace_membufs_proto.c:261-267 | A packet that was started and not ended is noticed by the host, after all packets before it were recovered. |
| Membufs.DownBufferWrite | esp-idf/components/app_trace/app_trace_membufs_proto.c:194-220 | Accepts exactly min(size, free) bytes, as a prefix in order, behind what the ring holds; never triggers the early wrap. |
| Membufs.UpPath.Pump | esp-idf/components/app_trace/app_trace_membufs_proto.c:118-136 | Pending bytes move into the new block in order, none lost or doubled; bytes are left pending only if the block is full. |
| Membufs.UpPath.PumpChunk | esp-idf/components/app_trace/app_trace_membufs_proto.c:125-135 | One round keeps block ++ pending as it was and advances the marker by the bytes moved. |
| Membufs.UpPath.Complete | esp-idf/components/app_trace/app_trace_membufs_proto.c:116-139 | The host is shown the filled part of the block just left, and the device holds exactly what was pending. |
| Membufs.UpPath.Store | esp-idf/components/app_trace/app_trace_membufs_proto.c:261-274 | A write through the pointer of a reserved chunk changes the end of the stream and nothing before it, in the block or in the ring. |
| Membufs.Proto.constructor | esp-idf/components/app_trace/app_trace_membufs_proto.c:56-72 | A new protocol state has an empty stream in both directions. |
| Membufs.Proto.DownBufferConfig | esp-idf/components/app_trace/app_trace_membufs_proto.c:74-77 | Gives the down path an empty queue over new storage; the up path keeps its invariant. |
| Membufs.Proto.ReceiveFromHost | esp-idf/components/app_trace/app_trace_membufs_proto.c:94-115 | What is received grows by exactly the first min(size, free) bytes of the message the host offered, the down ring still holds exactly the bytes not delivered, and the size field of a message taken is cleared. |
| Membufs.Proto.Exchange | esp-idf/components/app_trace/app_trace_membufs_proto.c:84-139 | A permitted swap keeps the stream exposed ++ block ++ pending byte for byte. |
| Membufs.Proto.Swap | esp-idf/components/app_trace/app_trace_membufs_proto.c:80-140 | A refused swap changes nothing. After a permitted one the host was shown the whole filled part, the part of its message there was room for was received, and the invariant of the stream holds. |
| Membufs.Proto.SwapWait | esp-idf/components/app_trace/app_trace_membufs_proto.c:142-153 | A swap is tried and, while refused, tried again after each check of the time that succeeds: the host answers as many refusals as checks succeeded, then the last word. It fails only with the timeout fired, and then everything is as it was; success is one permitted swap. |
| Membufs.Proto.Wait4Buf | esp-idf/components/app_trace/app_trace_membufs_proto.c:222-259 | Either the timeout fires and nothing changes, or one swap is permitted; then the block is used if what was pending and the packet fit it, the ring otherwise, and there is no result exactly if neither has room. |
| Membufs.Proto.Reserve | esp-idf/components/app_trace/app_trace_membufs_proto.c:300-313 | A reservation in the pending ring is at the end of the stream, where the ring has room, behind a block that is not empty; it fails exactly when the ring has no contiguous room. |
| Membufs.Proto.ReserveInBlock | esp-idf/components/app_trace/app_trace_membufs_proto.c:324-330 | A reservation in the block happens with nothing pending, at the marker, and is the end of the stream. |
| Membufs.Proto.Take | esp-idf/components/app_trace/app_trace_membufs_proto.c:297-331 | With nothing pending and room in the block, the block at the marker; else, with room in the pending ring, the ring, at its write pointer or its front, and neither host nor clock is asked; else what waiting for a swap gives. |
| Membufs.Proto.Place | esp-idf/components/app_trace/app_trace_membufs_proto.c:286-331 | The same, after one attempt to swap if anything is pending: with room in the ring before the call the result is there after that one attempt, and if the swap succeeds and the block then holds all that was pending with room to spare, it is in the block. None only if the ring refused, and then the timeout fired or a permitted swap left no room in block and ring. |
| Membufs.Proto.PktStart | esp-idf/components/app_trace/app_trace_membufs_proto.c:261-267 | The open packet starts with a header that says nothing was written; the user gets the address just behind it. |
| Membufs.Proto.UpBufferGet | esp-idf/components/app_trace/app_trace_membufs_proto.c:276-337 | Opens a packet of the size and core asked for at the end of the stream and keeps the invariant. A packet larger than a block is refused without any effect. Otherwise: in the block at once if nothing is pending and it fits; else in the pending ring at once, with no swap asked for, if nothing is pending and the ring has room; with neither, at the start of the next block if the host permits a swap before the timeout. With bytes pending, as Place says. None only if the ring refused, and then the timeout fired or the swap left room nowhere. |
| Membufs.Proto.Fill | esp-idf/components/app_trace/app_trace.c:292-302 | The user's bytes land in the open packet where it put them; header and stream stay. |
| Membufs.Proto.OpenMemory | esp-idf/components/app_trace/app_trace_membufs_proto.c:332-337 | The memory behind the pointer the user holds is exactly the open packet at the end of the stream. |
| Membufs.Proto.PktEnd | esp-idf/components/app_trace/app_trace_membufs_proto.c:269-274 | Copies block_sz over wr_sz in memory and changes nothing else of the stream. |
| Membufs.Proto.UpBufferPut | esp-idf/components/app_trace/app_trace_membufs_proto.c:339-348 | Closes the open packet: the list of packets sent grows by exactly (core, bytes filled in). |
| Membufs.Proto.Recovered | esp-idf/components/app_trace/app_trace_membufs_proto.c:80-140 | In every valid state what the host recovers from the bytes shown is a prefix of the packets sent, with all those shown in full. |
| Membufs.Proto.Flush | esp-idf/components/app_trace/app_trace_membufs_proto.c:350-372 | Performs exactly the number of permitted swaps after which at most min_sz bytes are left in the block, none if that holds already; fails exactly if the timeout fires before, with more left. With min_sz = 0 block and ring are then empty and a host reading all it was shown recovers exactly the packets sent. |
| Membufs.Proto.AwaitData | esp-idf/components/app_trace/app_trace_membufs_proto.c:169-183 | Announced data is fetched by a swap, tried until the timeout; without an announcement only the time is checked, and the end of the time is the only failure. |
| Membufs.Proto.DownBufferGet | esp-idf/components/app_trace/app_trace_membufs_proto.c:155-186 | Hands out the next bytes accepted and not delivered, as many as wanted or as many as lie contiguous, without any swap if there are some. Otherwise a swap is tried each time the host announces data; None only with nothing to deliver and the timeout fired. |
| Guards.StepKeeps | esp-idf/components/cxx/cxx_guards.cpp:66-211 | Every step of every task keeps the invariant (mutual exclusion, one owner per pending guard, exact waiting count, tokens, history), and no assert of the file fails. |
| Guards.RunKeeps | esp-idf/components/cxx/cxx_guards.cpp:113-211 | So after every schedule of any number of tasks and guards. |
| Guards.NoStrandedWaiter | esp-idf/components/cxx/cxx_guards.cpp:66-111 | After every schedule: the waiting count is the number of tasks inside the wait; with no guard pending, tokens plus gives still owed cover every task without one; a task is left without only while some guard is being initialised. |
| Guards.Progress | esp-idf/components/cxx/cxx_guards.cpp:66-211 | In every state that is neither idle nor deadlocked a task inside a guard function can go on, or an initialiser can leave its guard. |
| Guards.StuckIff | esp-idf/components/cxx/cxx_guards.cpp:66-211 | Without further calls of acquire nothing can happen exactly in the idle states and in the deadlocked ones, where all tasks inside and all owners of pending guards wait for tokens and there are none. |
| Guards.WorkDecreases | esp-idf/components/cxx/cxx_guards.cpp:66-211 | Every step except a call of acquire lowers a measure, whatever is pending: waiters cannot loop for ever on tokens. |
| Guards.Drains | esp-idf/components/cxx/cxx_guards.cpp:66-211 | From every state a run without further calls of acquire ends idle or in a deadlock. |
| Guards.FlatRuns | esp-idf/components/cxx/cxx_guards.cpp:66-211 | Schedules in which no initialiser calls acquire never deadlock. |
| Guards.FlatDrains | esp-idf/components/cxx/cxx_guards.cpp:66-211 | Liveness for those schedules, whatever is pending: all tasks return and every guard is left. |
| GuardSchedules.DeadlockIff | esp-idf/components/cxx/cxx_guards.cpp:66-211 | With at least two tasks, exactly when initialisation can deadlock: some initialiser may ask for a guard while its task owns another (or the same). |
| GuardSchedules.NestedDeadlocks | esp-idf/components/cxx/cxx_guards.cpp:66-111 | Counterexample: two tasks with nested, acyclic initialisers of two guards reach a state in which no task can take any step. |
| GuardSchedules.StrandedIff | esp-idf/components/cxx/cxx_guards.cpp:74-111 | Exactly when some schedule strands a waiter of a guard that is not pending, with no token there or owed: there are at least two tasks and two guards. |
| GuardSchedules.FlatStrandedIff | esp-idf/components/cxx/cxx_guards.cpp:74-111 | The same for schedules without nested initialisers: at least three tasks and two guards. |
| GuardSchedules.StrandingNeeds | esp-idf/components/cxx/cxx_guards.cpp:74-111 | A schedule that strands a waiter uses two tasks and two guards. |
| Guards.StepTokens | esp-idf/components/cxx/cxx_guards.cpp:66-111 | One step keeps the account of tokens, gives owed and registered tasks. |
| Guards.StepMutex | esp-idf/components/cxx/cxx_guards.cpp:113-211 | No step fails an assert, and exactly the holder of the mutex is in a protected stretch. |
| Guards.StepOwners | esp-idf/components/cxx/cxx_guards.cpp:148-152 | Exactly the pending guards have an owner, none is ready, and only the owner releases or aborts. |
| Guards.InitialiseOnce | esp-idf/components/cxx/cxx_guards.cpp:113-211 | In every schedule, for every guard: 0 is returned only after a release, 1 never after one, and two returns of 1 are separated by an abort of the first. CallsAnswered ties these events to the calls. |
| Guards.CallsAnswered | esp-idf/components/cxx/cxx_guards.cpp:113-211 | In every schedule every call a task makes of acquire, release or abort is completed by its own kind of event, in the order of the calls, except the one the task is still busy with. |
| Guards.EventsWereCalled | esp-idf/components/cxx/cxx_guards.cpp:170-211 | Every release in the history was called as a release by that task in the schedule, every abort as an abort, every return as an acquire. |
| Guards.NotReadyUnlessReleased | esp-idf/components/cxx/cxx_guards.cpp:113-211 | A schedule without a call of release for a guard leaves it not ready, whatever is aborted, and no acquire of it returns 0. |
| Guards.ReadyIff | esp-idf/components/cxx/cxx_guards.cpp:170-190 | After every schedule exactly the guards with a completed release are ready. |
| Guards.LeaveOwesWaiters | esp-idf/components/cxx/cxx_guards.cpp:105-111 | Clearing pending owes exactly one give per task inside the wait; gives are paid one by one, and the mutex is given back with the last. |
| GuardSchedules.TokensCanBeTaken | esp-idf/components/cxx/cxx_guards.cpp:74-94 | Counterexample to the comments in the loop: a schedule of three tasks and two guards without nested initialisers, after which a waiter of a released guard is blocked on an empty semaphore with no give owed. |
| Guards.Runtime.constructor | esp-idf/components/cxx/cxx_guards.cpp:22-41 | The globals start in the initial state of the model, which satisfies the invariant. |
| Guards.Runtime.Advance | esp-idf/components/cxx/cxx_guards.cpp:66-211 | The in-place code between two semaphore operations does exactly the step of the model, or nothing when it has to wait. |
| Guards.Runtime.Execute | esp-idf/components/cxx/cxx_guards.cpp:113-211 | A whole schedule executed in place is the run of the model. |
| Guards.Runtime.Proceed | esp-idf/components/cxx/cxx_guards.cpp:66-211 | The same for each place a task can be at. |
| Guards.Runtime.TestPending | esp-idf/components/cxx/cxx_guards.cpp:132-152 | Testing pending under the mutex either registers the task and lets go, or decides who initialises. |
| Guards.Runtime.TestAgain | esp-idf/components/cxx/cxx_guards.cpp:83-95 | A woken task either waits again for a guard still pending or leaves the count and decides. |
| Guards.Runtime.ClearPending | esp-idf/components/cxx/cxx_guards.cpp:173-181 | Release and abort clear pending, mark ready only on release, and start signalling as many tasks as are counted. |
| Guards.Runtime.Signal | esp-idf/components/cxx/cxx_guards.cpp:105-111 | One give, up to the capacity of the semaphore, or the end of signalling. |
| OtaImage.Partition.Erase | esp-idf/components/esp_partition/partition_target.c:123-144 | Erases only whole sectors inside the partition and refuses anything else untouched; succeeds on every range it does not refuse when there are no faults. |
| OtaImage.Partition.Write | esp-idf/components/esp_partition/partition_target.c:63-89 | Blank cells take the bytes, cells outside the range stay, writing over a cell that is not blank is recorded, and a range outside the partition is refused untouched. |
| OtaImage.Begin | esp-idf/components/app_update/esp_ota_ops.c:131-189 | Starts an empty image; with a known size the size rounded up in 32 bits is erased, with none the whole partition, in sequential mode nothing yet. Without faults it fails exactly for a size larger than the partition whose rounding does not wrap. |
| OtaImage.EraseLength | esp-idf/components/app_update/esp_ota_ops.c:165-171 | The length asked to erase covers the size, except that for the last sizes below 2^32 it wraps to 0. |
| OtaImage.Session.EraseAhead | esp-idf/components/app_update/esp_ota_ops.c:210-224 | Erasing never touches a byte already written; on success the blank cells reach the end of the sector the chunk ends in. Without faults it succeeds exactly if the chunk ends inside the partition. |
| OtaImage.Session.FillUnit | esp-idf/components/app_update/esp_ota_ops.c:236-253 | Completing a cached unit keeps flash ++ cache equal to the bytes accepted, with at most one unit cached. |
| OtaImage.Session.FlushUnit | esp-idf/components/app_update/esp_ota_ops.c:244-252 | A full cache goes to flash as one unit and is emptied and filled with 0xFF; without faults this fails exactly if the unit does not fit. |
| OtaImage.Session.WriteTail | esp-idf/components/app_update/esp_ota_ops.c:255-266 | The rest goes to flash in whole units and to the cache, so that flash ++ cache is the old image followed by the chunk. |
| OtaImage.Session.Write | esp-idf/components/app_update/esp_ota_ops.c:191-274 | For any chunk sizes: success appends exactly the chunk to the image held as flash ++ cache; nothing in flash is touched; in sequential mode only blank cells are written; a wrong first byte is refused. Without faults it succeeds exactly for empty chunks and for those with the right first byte and room. |
| OtaImage.Session.Frontier | esp-idf/components/app_update/esp_ota_ops.c:210-266 | Although the erase bounds ignore the cached bytes, the write stops inside what was erased and less than a sector before its end. |
| OtaImage.Session.End | esp-idf/components/app_update/esp_ota_ops.c:336-379 | The flush touches nothing already written; over blank cells it writes the cached unit whole, and the whole image is in flash. Without faults the flush fails exactly if the unit does not fit the partition. |
| OtaImage.Session.FlushInSector | esp-idf/components/app_update/esp_ota_ops.c:353-362 | A flushed unit that does not start a sector is blank, in any session. |
| OtaImage.Session.FlushBlank | esp-idf/components/app_update/esp_ota_ops.c:353-362 | It is blank if the condition on total size and last chunk holds, also in a session with a refused chunk. |
| OtaImage.Session.FlushBlankIff | esp-idf/components/app_update/esp_ota_ops.c:353-362 | When all chunks were accepted, it is blank exactly under that condition. |
| OtaImage.FlushReach | esp-idf/components/app_update/esp_ota_ops.c:353-362 | The arithmetic of that condition: the last erase covers the flushed unit, or ends before it. |
| OtaImage.FlushMeetsOldCells | esp-idf/components/app_update/esp_ota_ops.c:353-362 | Counterexample, without faults and with begin, both writes and end reporting success: 4095 bytes and then 2, in sequential mode under encryption, make the flush write cells nobody erased. |
| OtaBoot.NextSeq | esp-idf/components/app_update/esp_ota_ops.c:438-442 | The loop yields the least number from the one in force on that is congruent to slot + 1. |
| OtaBoot.NextSeqUnique | esp-idf/components/app_update/esp_ota_ops.c:438-442 | There is only one such number. |
| OtaBoot.SlotOfNext | esp-idf/components/app_update/esp_ota_ops.c:544 | Such a number boots the slot asked for, except 0 when the slot count does not divide 2^32. |
| OtaBoot.Effective | esp-idf/components/app_update/esp_ota_ops.c:436-451 | Writing the chosen entry makes the slot boot if and only if the number does not stay 0 for the last slot with a count that does not divide 2^32. |
| OtaBoot.OtaData.RewriteSeq | esp-idf/components/app_update/esp_ota_ops.c:381-395 | Erases one copy and writes the entry to it; the other copy stays. Without flash faults it always succeeds; a failed erase or write leaves the copy as it was or invalid. |
| OtaBoot.OtaData.SwitchTo | esp-idf/components/app_update/esp_ota_ops.c:407-452 | Without flash faults it succeeds exactly for slots that exist. Success leaves in the chosen copy the chosen number, its checksum and the state new exactly with rollback enabled, and makes the requested slot boot (with the one exception that Effective names); after a failed erase or write, or a crash before or during either, what boots is what booted before. |
| OtaBoot.ToolChoose | esp-idf/components/app_update/otatool.py:131-164 | The tool picks the copy that is not its base and the next number from its base. |
| OtaBoot.OtaData.ToolSwitch | esp-idf/components/app_update/otatool.py:131-188 | In place, only number and checksum of that copy change; when no copy is marked invalid or aborted the slot asked for boots (with the exception that Effective names). |
| OtaBoot.ToolMatchesDevice | esp-idf/components/app_update/otatool.py:94-97 | For all entries, exactly when tool and device write the same number to the same copy: the tool found no valid copy, or the state of its base is not marked, or base 1 is marked, the device sees no valid copy and the next number happens to be slot + 1. |
| OtaBoot.ToolEffective | esp-idf/components/app_update/otatool.py:131-188 | For all entries: exactly when the slot boots after the tool's switch, including copies whose state is kept as invalid or aborted. |
| OtaBoot.ToolIgnoresStates | esp-idf/components/app_update/otatool.py:94-97 | Counterexample: with the newer copy marked aborted, tool and device choose different copies and numbers. |
| OtaBoot.ToolWithoutEffect | esp-idf/components/app_update/otatool.py:174-188 | Counterexample: the tool writes a copy that stays marked aborted, and the device goes on booting the other slot. |
| Scheduler.ExecuteTasks | esp-idf/tools/idf.py:573-616 | For acyclic dependencies the loop ends; it runs exactly the least closure of the requested names, each once, each behind its dependencies and behind the order-only ones requested; a requested name is run as a requested task, and as the first of them if no task before it reaches the name; an ordered list is left alone. |
| Scheduler.ProcessFirst | esp-idf/tools/idf.py:575-616 | Every turn keeps the invariants and lowers the measure (names unseen, names not run, length, rank of the first task). |
| Scheduler.Round | esp-idf/tools/idf.py:581-608 | One pass over the dependencies keeps the list inside the closure, puts only lower-ranked tasks in front, and moves nothing exactly when all that the first task needs has run. |
| Scheduler.MovedRound | esp-idf/tools/idf.py:581-608 | A pass that moved something lowers the measure. |
| Scheduler.PoppedRound | esp-idf/tools/idf.py:610-616 | Taking the first task off lowers the measure and keeps the order of what runs. |
| Scheduler.Finished | esp-idf/tools/idf.py:573-616 | When the list is empty, what was run is the least closure. |
| Scheduler.Reorder | esp-idf/tools/idf.py:581-608 | The two in-place loops compute the reordered list of the specification. |
| Scheduler.PulledInReverse | esp-idf/tools/idf.py:582-602 | The dependencies that have not run, if none is named twice, end up in front of the list, pulled up or created, the last one foremost. |
| Scheduler.OrderPulledInReverse | esp-idf/tools/idf.py:605-608 | So do the listed order-only dependencies that have not run. |
| Scheduler.FirstRuns | esp-idf/tools/idf.py:529-538 | The warning about repeated commands is right for a task that no task before it reaches through either kind of dependency: it is the one run. |
| Scheduler.WhichRuns | esp-idf/tools/idf.py:529-616 | Exactly which task is run for a requested name: counting back from the first, cyclically, once for each turn that pulled the name forward; so the first is run exactly if the number of those turns is a multiple of the number of its tasks. |
| Scheduler.WhichRunsBefore | esp-idf/tools/idf.py:529-616 | Without order-only dependencies that number can be read off the table and the list before the call: one if a command mentions the name, and then on from its last dependency that needs it, starting from the first task listed that needs it. |
| Scheduler.LastRuns | esp-idf/tools/idf.py:529-616 | For every list that starts with a task of the only command mentioning a name, the last task of that name is run; the warning is wrong whenever there are several. |
| Scheduler.LastOccurrenceRuns | esp-idf/tools/idf.py:529-616 | The smallest such input, as a result of the whole loop: the second of two repeated commands is run and the first is not. |
| SplitArgv.Split | esp-idf/components/console/split_argv.c:33-112 | For every line and every argv of at least one place: argv holds the first argv_size - 1 arguments of the line as C strings in the overwritten buffer, then a null. |
| SplitArgv.ScanLine | esp-idf/components/console/split_argv.c:42-101 | The write pointer never passes the read pointer, finished arguments stay in place, and the scan stops at the end or when only the null's place is left. |
| SplitArgv.Feed | esp-idf/components/console/split_argv.c:47-100 | One character: at most one byte written, at or before the one read, and the buffer holds the arguments so far. |
| SplitArgv.Conclude | esp-idf/components/console/split_argv.c:102-111 | An unfinished last argument is terminated and recorded, and the null follows. |
| SplitArgv.TokensOf | esp-idf/components/console/split_argv.c:33-112 | The meaning of every line: arguments without quotes end at a space, arguments in quotes at the closing quote, with or without a space behind it; a quote inside an unquoted argument stands for itself, a backslash before anything other than space, quote and backslash drops both; an argument the line ends in counts as far as it goes. |
| SplitArgv.LineParts | esp-idf/components/console/split_argv.c:33-112 | Every line is composed of such arguments and spaces, so the meaning is defined for all lines. |
| SplitArgv.LineSplits | esp-idf/components/console/split_argv.c:33-112 | Round trip: any list of arguments, each written with or without quotes, splits into exactly that list. |
| SplitArgv.FirstTokens | esp-idf/components/console/split_argv.c:42-46 | Stopping early yields a prefix of all arguments. |
| SplitArgv.LaidStrings | esp-idf/components/console/split_argv.c:97-109 | Arguments laid one behind the other with their NULs read back as C strings at their offsets. |
| Dfu.FieldReadsBack | esp-idf/tools/mkdfu.py:66-67 | An 8-digit field is made of digits 0 to 9 and a to f and reads back as the number exactly when that is below 2^32; a longer numeral is cut. |
| Dfu.HeaderLayout | esp-idf/tools/mkdfu.py:36-87 | Byte by byte: magic number, mode, links, file and name size at the offsets of the newc layout, for files and for the trailer; every other field is 0. |
| Dfu.EntryReadsBack | esp-idf/tools/mkdfu.py:235-246 | A newc reader recovers an entry's header numbers, name and data, whatever follows, exactly when its sizes fit. |
| Dfu.ArchiveReadsBack | esp-idf/tools/mkdfu.py:198-210 | Reading the archive yields every file in order and the trailer if and only if all sizes fit and no file bears the trailer's name. |
| Dfu.RecordAt | esp-idf/tools/mkdfu.py:90-94 | Record i of the index has the address, flags and digest of flash entry i, and its name exactly if that is at most 64 bytes without NUL. |
| Dfu.RoundUpIs | esp-idf/tools/mkdfu.py:131-134 | Padding goes to the least multiple that is not smaller. |
| Dfu.PadIs | esp-idf/tools/mkdfu.py:131-134 | Padding keeps the bytes and adds zeros, less than one multiple of them, up to a multiple. |
| Dfu.ChunkNameReads | esp-idf/tools/mkdfu.py:184-194 | The first chunk bears the name of the file, chunk i > 0 that name, a dot and the decimal numeral of i without leading zeros. |
| Dfu.DecimalReadsBack | esp-idf/tools/mkdfu.py:194 | The numeral of n reads back as n and starts with 0 only for 0. |
| Dfu.ChunkNamesDiffer | esp-idf/tools/mkdfu.py:194 | No two chunks of a file share a name. |
| Dfu.ChunkPlaces | esp-idf/tools/mkdfu.py:179-196 | Chunk i starts i * part_size into the file and into its flash range. |
| Dfu.Writer.AddFile | esp-idf/tools/mkdfu.py:179-196 | Chunks are named in order, contiguous in flash, all but the last full; joined they are the file, except that part_size 0 adds nothing. |
| Dfu.Writer.AddFlashParamsFile | esp-idf/tools/mkdfu.py:156-177 | Adds the chip parameters at address 0 with their flags; a size that needs more than 32 bits fails before anything is added. |
| Dfu.Writer.AddFlashEntry | esp-idf/tools/mkdfu.py:220-233 | Archive entry and index record of one item are appended together: the record holds its address, flags and name and the MD5 of its data. |
| Dfu.Writer.IndexedInOrder | esp-idf/tools/mkdfu.py:198-233 | In the finished archive member i + 1 is flash entry i, and record i of the first member has its address, its flags and the MD5 of its data, and its name exactly if that is at most 64 bytes without NUL. |
| Dfu.Writer.Finish | esp-idf/tools/mkdfu.py:198-218 | Fails exactly if the address or flags of some entry are outside 32 bits or the product number outside 16; otherwise whole blocks plus a suffix a reader accepts, and an archive that reads back as index, files and trailer exactly when all sizes fit and no file bears the trailer's name. |
| Dfu.SuffixReadsBack | esp-idf/tools/mkdfu.py:212-215 | A reader that asks for signature, length, version and the complement of the CRC-32 accepts the suffix and gets the product and vendor back. |
| Efuse.CheckMeans | esp-idf/components/efuse/efuse_table_gen.py:151-164 | What the four answers say about the bits two fields share. |
| Efuse.PrefixesAre | esp-idf/components/efuse/efuse_table_gen.py:183-185 | The loop over the parts of a name goes through exactly the beginnings of the name in front of its dots and the name itself. |
| Efuse.CheckStructFieldName | esp-idf/components/efuse/efuse_table_gen.py:136-148 | Passes exactly when every prefix of every structured name is another row of the block. |
| Efuse.VerifyOverlaps | esp-idf/components/efuse/efuse_table_gen.py:177-199 | Passes exactly when no pair of rows is objectionable. |
| Efuse.OverlapsMean | esp-idf/components/efuse/efuse_table_gen.py:177-199 | A table passes exactly when no two undotted rows of a block share a bit and every dotted row that shares bits with another lies, bit by bit, within the first other row that bears each beginning of its name: well-placed nested structures pass. |
| Efuse.IsInsideAll | esp-idf/components/efuse/efuse_table_gen.py:182-195 | The loops over the parts of a name and over the rows check containment in the first row that bears each prefix. |
| Efuse.RootRow | esp-idf/components/efuse/efuse_table_gen.py:136-199 | A structured row that overlaps another lies inside an unstructured row that bears its root name. |
| Efuse.UndottedDisjoint | esp-idf/components/efuse/efuse_table_gen.py:177-199 | In a table that passes, unstructured rows of a block share no bit. |
| Efuse.SharedBitsShareRoot | esp-idf/components/efuse/efuse_table_gen.py:136-199 | In a table that passes, rows of a block that share a bit belong to the same structure, and one of them is structured. |
| Efuse.FlatTable | esp-idf/components/efuse/efuse_table_gen.py:177-199 | Without structured rows, passing is equivalent to disjointness. |
| Efuse.FillStarts | esp-idf/components/efuse/efuse_table_gen.py:77-85 | A missing start becomes start + count of the row before, in the same block, or 0; nothing else changes. |
| Efuse.RunAscends | esp-idf/components/efuse/efuse_table_gen.py:77-85 | In a run of rows of one block without starts, each starts where the first starts plus the counts of all rows between. |
| SplitPaths.SelectiveJoin | esp-idf/tools/split_paths_by_spaces.py:184-211 | Computes the way to cut that the bits of n describe. |
| SplitPaths.CutLast | esp-idf/tools/split_paths_by_spaces.py:186-192 | Bit i of n, and no other, decides whether there is a cut at the space before part i + 1. |
| SplitPaths.CutThree | esp-idf/tools/split_paths_by_spaces.py:188-192 | The four examples of the documentation, for any three parts. |
| SplitPaths.CutsAreNumbers | esp-idf/tools/split_paths_by_spaces.py:141-151 | For a string with N spaces, the numbers below 2^N and the ways to cut it at them correspond one to one. |
| SplitPaths.CutRejoins | esp-idf/tools/split_paths_by_spaces.py:184-211 | Rejoining the pieces of any cut restores the string. |
| SplitPaths.CutExists | esp-idf/tools/split_paths_by_spaces.py:184-211 | Every way to cut is some number below 2^N. |
| SplitPaths.CutInjective | esp-idf/tools/split_paths_by_spaces.py:184-211 | Different numbers cut differently. |
| SplitPaths.ValidNumbersAre | esp-idf/tools/split_paths_by_spaces.py:150-155 | The numbers collected are exactly those whose cut has only pieces that exist. |
| SplitPaths.CountDecides | esp-idf/tools/split_paths_by_spaces.py:150-181 | Counting the valid numbers decides between one valid cut, none and several. |
| SplitPaths.NonEmptyAre | esp-idf/tools/split_paths_by_spaces.py:153 | The paths returned are the subsequence of the non-empty pieces, in order. |
| SplitPaths.TrimIs | esp-idf/tools/split_paths_by_spaces.py:130-139 | Trimming takes only spaces off the ends, and all of them. |
| SplitPaths.SplitPathsBySpaces | esp-idf/tools/split_paths_by_spaces.py:120-181 | Returns a list if and only if exactly one cut of the trimmed string has only pieces that exist, and then that cut's non-empty pieces; reports no way exactly when no cut qualifies. |

## Left out

- RingBuffer.Ring.Produce: indices are unbounded; the source's 32-bit sum of write pointer and size does not wrap for sizes the buffers can have.
- Membufs.Proto.UpBufferGet: user sizes of 2^15 and more that fit a block, whose length field would run into the core bit, and the SystemView header layout are not modelled.
- Membufs.Proto.SwapWait: a wait without a timeout that never succeeds is not modelled; the number of retries is finite and arbitrary.
- Membufs.Proto.Swap: packets still open across a swap or flush are excluded by precondition; the source leaves such a packet to its user.
- Membufs.Proto.DownBufferConfig: bytes still in the old down buffer are dropped, as in the source, so the history of the down path restarts there.
- Membufs.UpPath.Expose: the call that tells the host is a ghost step; the registers behind it are not part of this model.
- Membufs.Environment.HostDataPending: the host announces data only finitely often before the timeout, so that every run ends.
- Guards.Runtime.Advance: creation of the mutex and semaphore and the branch before the scheduler starts are not modelled; the primitives exist and the scheduler runs.
- Guards.FlatDrains: fairness of the task scheduler is not modelled; it says that the steps exist, and WorkDecreases that they run out.
- OtaImage.Session.Write: nothing is claimed about the image after a failed partition write, except that flash written before is untouched.
- OtaImage.Session.Write: the list of handles, a null data pointer and esp_ota_write_with_offset are not modelled.
- OtaImage.Session.FlushBlankIff: sessions with a failed erase since the last chunk or a refused first chunk are excluded, because what such an erase left blank is not a matter of sizes; FlushBlank and FlushInSector say what still holds.
- OtaImage.Partition.Write: encryption is transparent to the reader; cipher text and alignment errors of the flash driver are not modelled.
- OtaImage.Begin: the checks for the running partition, the rollback state and memory exhaustion come before what is modelled.
- OtaImage.Session.End: image verification is a boolean parameter.
- OtaBoot.OtaData.SwitchTo: image validation, anti-rollback and the erase for a factory partition in esp_ota_set_boot_partition are not modelled; nor are sequence numbers about to reach 2^32.
- OtaBoot.OtaData.ToolSwitch: the temporary file and the transfer over the serial line are not modelled.
- Scheduler.ExecuteTasks: cyclic dependencies, for which the loop does not end, are excluded by precondition; aliases, global options, callbacks and running the tasks are not modelled.
- Scheduler.PulledInReverse: a name that occurs twice among the dependencies of one command is pulled up again by its second occurrence; this lemma and OrderPulledInReverse speak of distinct names.
- SplitArgv.Split: argv_size 0, for which the source's argv_size - 1 wraps, is excluded by precondition.
- Dfu.Writer.AddFile: opening and reading the file is a parameter; duplicate names across files are possible, as in the source.
- Dfu.Writer.AddFlashParamsFile: parsing of the size argument is not modelled.
- Efuse.OverlapsMean: names that start with a dot, whose first part is empty, are excluded; VerifyOverlaps covers them as the loops treat them.
- Efuse.VerifyOverlaps: checks of single rows and duplicate names, filling in of names and groups, and the error texts are not modelled.
- SplitPaths.SplitPathsBySpaces: warnings and the error texts are not modelled.
- Dispatch tables of app_trace.c and host_file_io.c, esp-tls, esp_console_repl.c, idf_tools.py, the I2Cdev and MPU6050 drivers and the applications under codes/: argument packing, drivers and user interface, with easy claims only.
