# AESD final project: a verified model

This project models the stateful core of the AESD final project in Dafny 4.11 and proves what it
promises. `dafny verify dfyconfig.toml` checks everything.

**The character device** (`aesd-char-driver`). Writes are collected in a scratch buffer that doubles
when it is too small; when the collected bytes end in a newline they become one message in a ring of
ten entries, which evicts and frees the oldest. `CharDevice.Device` is that object: a kernel heap of
numbered blocks, the ring with its array, the shared fill flag, and the scratch fields. Its
specification (`DriverLog`, `DriverRuns`, `Chunking`) is an append-only log of messages read through a
window of ten. Every run of the object, with any interleaving of files and any pattern of refused
allocations and failed copies, is shown to be a run of that log (`CharDevice.Execute`), and the
results about readers, seeks, draining and chunking are proved about all runs of the log.

**The command queue** (`server/commandQueue.c`). `CommandQueue` is a state machine of any number of
threads in which locking, the tests, the slot write, the index advance, the flag write, the unlock and
the execution are separate steps. It is linearizable to a sequential FIFO of capacity ten
(`CommandQueue.Linearizable`). `CommandQueue.Queue` is the same
code as an object; each of its calls is proved to leave what the uninterrupted steps of the state
machine leave.

**Lists** (`server/queue.h`, `listenLoop`). `TailQueue` holds the TAILQ macros over heap links,
`ThreadRegistry` the SLIST of client threads with its remove-while-iterating pass.

**SAFE_MODE** (`readme.md`, `server/nvmeInterface.c`, the partition commands of `server/aesdsocket.c`).
`SafeMode.Drive` is the disk. The promise is that no run of commands touches a partition whose name
does not start with `AESD`; `SafeMode.SafeRunIff` gives the runs for which the code keeps it.

Conventions. Allocation, user copies, libparted, the perf engine and the presence of the device are
parameters of the calls, so every statement holds for all their answers. The kernel's `kmalloc` is
taken to refuse requests above 128 MiB (any smaller limit is covered, because every request may be
refused). This is an assumption about the kernel; that the `int` byte counters do not overflow is
derived from it (`DriverLog.FlattenBounds`). `count` of a write is at most the kernel's `MAX_RW_COUNT`.
32- and 64-bit conversions are written out in `CInt`. An entry point of the driver runs under
`deviceMutex` and is one step.

Where the code and its own description differ, the model follows the code:

- The lookup is documented to return NULL when the position is not available
  (aesd-char-driver/aesd-circular-buffer.c:27-28). On a ring without bytes the final test compares
  `(size_t)-1`, so it returns the slot at `out_offs` for every position. `CircularBuffer.Ring.FindEntry`
  states both cases; the documented behaviour holds exactly when the ring holds at least one byte.
- As a consequence a read can copy from outside every live block. In any run it does so exactly when no
  message has been committed before it, its file position is not a multiple of 2^64 and it asks for at
  least one byte (`DriverRuns.WildIff`, and for the code `CharDevice.Device.Read`);
  `DriverRuns.WildBeforeCommit` is such an input.
- Messages are the lines of the input exactly when no write has a newline before its last byte
  (`Chunking.RunIsLinesIff`); `Chunking.InnerNewline` is an input where they are not.
- The perf commands stop only on an error from the range check, not when the device is missing for it,
  and add the partition start in 32-bit arithmetic. A perf command is safe for every behaviour of the
  engine exactly when the range it computes meets no unprefixed partition (`SafeMode.PerfSafeIff`), and
  a run exactly when each of its commands is, on the disk as it finds it (`SafeMode.SafeRunIff`).
  `SafeMode.SkippedCheckEscapes` and `SafeMode.WrappedRangeEscapes` are inputs for which another
  partition is overwritten; on devices of at most 2^32 sectors that stay present for the range check
  every run is safe (`SafeMode.SteadyRunsAreSafe`).

## Model

| member | source | states |
|---|---|---|
| ByteStream.HoldsByte | aesd-char-driver/aesd-circular-buffer.c:22-23 | a (message, offset) pair names the byte at its position of the concatenated stream |
| ByteStream.HoldsExists | aesd-char-driver/aesd-circular-buffer.c:47-62 | a position is named by some pair if and only if it is below the total |
| ByteStream.HoldsUnique | aesd-char-driver/aesd-circular-buffer.c:47-62 | no position is named by two pairs |
| CircularBuffer.Ring.Init | aesd-char-driver/aesd-circular-buffer.c:127-130 | leaves an empty buffer, whatever the shared flag says |
| CircularBuffer.Ring.AddEntry | aesd-char-driver/aesd-circular-buffer.c:84-122 | appends to the entries added, returns the pointer of the entry evicted (the one added ten before) or NULL, sets the flag exactly on wrapping |
| CircularBuffer.Ring.FindEntry | aesd-char-driver/aesd-circular-buffer.c:30-75 | with bytes in the ring: NULL exactly when the position is not below the total, otherwise the slot and byte that hold it (so never an empty slot); without bytes: always the slot at `out_offs` |
| CircularBuffer.Ring.BytesBefore | aesd-char-driver/main.c:303-314 | the seek loop returns the prefix sum of the sizes in ring order |
| CircularBuffer.SlotsAppend | aesd-char-driver/aesd-circular-buffer.c:98-99 | overwriting the slot at the write index is appending to the log behind the ring |
| CircularBuffer.RotateAtIn | aesd-char-driver/aesd-circular-buffer.c:103-117 | read from the write index, the slots are the unused ones and then the last ten entries, oldest first |
| CircularBuffer.RotateAtZero | aesd-char-driver/aesd-circular-buffer.c:103-117 | before ten entries, read from slot 0, the slots are the entries in order and then the unused ones |
| CircularBuffer.AroundIsWindow | aesd-char-driver/aesd-circular-buffer.c:89-120 | whoever set the static flag, a buffer's byte stream is that of its last ten entries |
| CircularBuffer.AroundAlone | aesd-char-driver/aesd-circular-buffer.c:89-120 | for the only user of the flag the window comes first and unused slots last |
| CircularBuffer.RunBuffers | aesd-char-driver/aesd-circular-buffer.c:84-130 | any interleaving of init and add on any number of buffers sharing the flag leaves each with the stream of the last ten entries since its own init |
| KernelHeap.Heap.Kmalloc | aesd-char-driver/main.c:127-133 | a granted block is new, nothing else changes; a refused request changes nothing |
| KernelHeap.Heap.Krealloc | aesd-char-driver/main.c:150-166 | success keeps the old bytes and frees the old block if it moved; failure keeps the old block |
| KernelHeap.Heap.Kfree | aesd-char-driver/main.c:155-158 | only a live block or NULL may be freed; the block becomes freed for good |
| DriverLog.CapLeast | aesd-char-driver/main.c:138-146 | the scratch capacity is 32 times a power of two and the least such number that covers the need |
| DriverLog.GrowthAmortised | aesd-char-driver/main.c:138-167 | the capacities given up while one message is collected sum to less than its final capacity |
| DriverLog.WritePreserves | aesd-char-driver/main.c:114-224 | messages always end in a newline, the pending bytes never do, and all sizes stay within the allocator's limit |
| DriverLog.WriteOutcomeIff | aesd-char-driver/main.c:123-205 | a write succeeds if and only if the text stays within the allocator's limit and nothing it needs is refused; it answers EFAULT if and only if there is room and the copy of a non-empty chunk fails, and ENOMEM otherwise |
| DriverLog.FlattenBounds | aesd-char-driver/aesd-circular-buffer.c:43-49 | the bytes of ten messages stay below 2^31, so the `int` counters do not overflow |
| DriverLog.ReplyWithin | aesd-char-driver/main.c:87-106 | a read at byte o of message c returns the rest of that message cut to the count, or a fault |
| CharDevice.NewCapacity | aesd-char-driver/main.c:139-146 | the doubling loop ends at the capacity for the need and reports whether it had to grow |
| CharDevice.Device.constructor | aesd-char-driver/main.c:374-385 | a new device is the empty log |
| CharDevice.Device.OpenScratch | aesd-char-driver/main.c:124-137 | starts a message with a 32-byte block, or changes nothing when refused |
| CharDevice.Device.GrowScratch | aesd-char-driver/main.c:138-167 | succeeds exactly when the bytes fit or the reallocation is granted; failure drops the pending bytes and frees their block |
| CharDevice.Device.ReallocScratch | aesd-char-driver/main.c:148-167 | keeps the collected bytes and the ownership of every other block |
| CharDevice.Device.CopyIn | aesd-char-driver/main.c:168-183 | appends the chunk to the pending bytes; a failed copy drops them and frees their block |
| CharDevice.Device.CopyOut | aesd-char-driver/main.c:189-202 | copies the pending bytes to a block of their own |
| CharDevice.Device.CloseScratch | aesd-char-driver/main.c:212-217 | frees the scratch block and nothing else |
| CharDevice.Device.IsComplete | aesd-char-driver/main.c:184-186 | true exactly when the collected bytes end in a newline |
| CharDevice.Device.PushEntry | aesd-char-driver/main.c:203-210 | commits the message and frees exactly the block it evicts |
| CharDevice.Device.Commit | aesd-char-driver/main.c:189-217 | the pending bytes become a message, or are dropped if the entry cannot be allocated; the scratch block is freed either way |
| CharDevice.Device.CommitIfComplete | aesd-char-driver/main.c:184-218 | a message is committed exactly when the bytes end in a newline |
| CharDevice.Device.Collect | aesd-char-driver/main.c:124-183 | the outcome of collecting a chunk, and the bytes then pending |
| CharDevice.Device.Extend | aesd-char-driver/main.c:138-183 | the outcome of adding a chunk to an ongoing message, and the bytes then pending |
| CharDevice.Device.WriteChunk | aesd-char-driver/main.c:123-220 | outcome and new log of a write, before the file position is moved |
| CharDevice.Device.Write | aesd-char-driver/main.c:114-224 | outcome, new log and file position of a write, for every pattern of failures; with nothing refused it succeeds exactly when the text stays within the allocator's limit, and only a success moves the position, by the length of the chunk |
| CharDevice.Device.Read | aesd-char-driver/main.c:65-112 | the reply of the log at the file position, and the position advanced by the bytes returned; it leaves the live blocks exactly when nothing is committed, the converted position is not 0 and the count is positive |
| CharDevice.Device.ReadAt | aesd-char-driver/main.c:76-106 | the lookup and copy return the window's bytes at the position, and leave the live blocks exactly on an empty window at a position other than 0 with a positive count |
| CharDevice.Device.SeekTo | aesd-char-driver/main.c:294-323 | the position of byte `offset` of command `cmd` in the window, in `int` arithmetic, or EINVAL |
| CharDevice.Device.SeekWithin | aesd-char-driver/main.c:294-319 | the same for a ring that shows the given messages |
| CharDevice.Device.Cleanup | aesd-char-driver/main.c:408-416 | frees every message block exactly once; only the scratch block of an unfinished message remains |
| CharDevice.Device.FreeSlots | aesd-char-driver/main.c:408-415 | the loop frees the block of every slot that has one, each once |
| CharDevice.LiveBlocks | aesd-char-driver/main.c:124-218 | between calls there is one live block per message of the window plus the scratch block of an ongoing write; every other address is freed |
| CharDevice.ScratchAmortised | aesd-char-driver/main.c:138-167 | the capacities the device has given up for the message being collected are those its chunks call for, and sum to less than the block it holds |
| CharDevice.RingStreamIsReadable | aesd-char-driver/aesd-circular-buffer.c:84-122 | the blocks found around the ring, concatenated, are the readable bytes of the log |
| CharDevice.Device.SeekThenFind | aesd-char-driver/main.c:303-319 | seeking to byte o of command c and looking the position up returns slot (out_offs + c) mod 10 and byte o, and that slot's block holds the command |
| CharDevice.Device.SeekThenFindWithin | aesd-char-driver/main.c:303-319 | the same for any ring that shows the given messages |
| CharDevice.Device.FindThenSeek | aesd-char-driver/aesd-circular-buffer.c:30-75 | looking a position below the total up and seeking to the command and byte found returns the position |
| CharDevice.Device.FindThenSeekWithin | aesd-char-driver/aesd-circular-buffer.c:30-75 | the same for any ring that shows the given messages |
| CharDevice.Perform | aesd-char-driver/main.c:336-345 | one entry-point call is one step of the log |
| CharDevice.Execute | aesd-char-driver/main.c:65-333 | every run of the device gives the answers, positions, messages and pending bytes of the log |
| DriverRuns.HistoryIsEvictedPlusReadable | aesd-char-driver/main.c:203-210 | the committed bytes are the evicted ones followed by the readable ones |
| DriverRuns.RunAppends | aesd-char-driver/main.c:203-210 | over every run the history only grows at its end and eviction only increases |
| DriverRuns.DeliveryIsHistory | aesd-char-driver/main.c:76-106 | what a read at position p returns is the history from evicted + p on, and still is at the end of the run |
| DriverRuns.PositionLaw | aesd-char-driver/main.c:105-222 | a file that never seeks stands at the sum of the lengths of the chunks it has written and of the answers it has read |
| DriverRuns.PositionStep | aesd-char-driver/main.c:105-319 | where one call leaves each file: a success moves its own file by the bytes written or read, or to the position sought; a failure and a call on another file leave it alone |
| DriverRuns.PositionAfterSeek | aesd-char-driver/main.c:319 | after a seek a file stands at the position sought plus what it has written and read since |
| DriverRuns.ReadsAdvance | aesd-char-driver/main.c:65-222 | a later read starts where the earlier one ended plus the bytes evicted and the bytes the file wrote and read in between: nothing is delivered twice |
| DriverRuns.WildIff | aesd-char-driver/main.c:79-97 | in any run, a read leaves the live blocks if and only if nothing was committed before it, its converted position is not 0 and its count is positive |
| DriverRuns.WildFromStart | aesd-char-driver/main.c:79-97 | for a file that never seeks, from a fresh device: if and only if nothing is committed, the bytes it has written are not a multiple of 2^64 and the count is positive |
| DriverRuns.ReadBeforeCommit | aesd-char-driver/main.c:79-106 | the answer of every read while nothing is committed |
| DriverRuns.ReadPastEnd | aesd-char-driver/main.c:80-85 | with a message committed, every read at or past the end, also at a negative position, returns nothing and moves nothing |
| DriverRuns.AnswersAt | aesd-char-driver/main.c:65-333 | each answer of a run is given in the state left by the calls before it |
| DriverRuns.NeverWildAfterCommit | aesd-char-driver/main.c:79-97 | once a message is committed no read of any later state leaves the live blocks |
| DriverRuns.WildBeforeCommit | aesd-char-driver/main.c:79-97 | an input for it: a partial write and a read on a fresh device |
| DriverRuns.ReadStep | aesd-char-driver/main.c:76-111 | one read hands over the next bytes and moves the position by them; it is empty only at the end, and a fault leaves everything alone |
| DriverRuns.DrainDelivers | aesd-char-driver/main.c:76-111 | any reads of one file, faulting or not: their answers concatenate to the next bytes of the stream, the position stands right behind them, none leaves the live blocks; an empty answer, or as many working copies as bytes, means exactly the rest was delivered |
| DriverRuns.ReadStaysInMessage | aesd-char-driver/main.c:87-94 | no read crosses a message boundary |
| DriverRuns.SeekIsBijection | aesd-char-driver/main.c:303-319 | the positions below the total are exactly those of the window's bytes, and the byte sought is the byte at the position |
| DriverRuns.SeekThenRead | aesd-char-driver/main.c:303-319 | a read after a seek to byte o of command c returns the command from byte o on, cut to the count |
| DriverRuns.SeekExact | aesd-char-driver/main.c:294-319 | the position of every seek, to missing commands and offsets as well; refused exactly from command ten on |
| DriverRuns.SeekIsInjective | aesd-char-driver/main.c:303-319 | different bytes have different positions |
| DriverRuns.ReachableWellFormed | aesd-char-driver/main.c:114-224 | the seek results apply to every reachable state |
| Chunking.RunIsFraming | aesd-char-driver/main.c:168-218 | the log of any run is the framing of its writes and their outcomes; a failing call drops the pending message |
| Chunking.FailureForgets | aesd-char-driver/main.c:129-200 | a failing write costs the message being collected: earlier messages stay, and what follows is framed as on a fresh device |
| Chunking.FrameKeepsBytes | aesd-char-driver/main.c:168-218 | without failures messages and pending bytes together are the input |
| Chunking.SplitUnique | aesd-char-driver/main.c:184-186 | a text has one split into newline-terminated lines and a rest |
| Chunking.CleanIffOneLineChunks | aesd-char-driver/main.c:184-186 | messages are single lines if and only if every write has its newline at its end |
| Chunking.LogIsLinesIff | aesd-char-driver/main.c:184-218 | the framing of failure-free writes is the line split of the input if and only if no write has a newline before its last byte |
| Chunking.ChunkingIndependence | aesd-char-driver/main.c:184-218 | two such ways of writing the same bytes leave the same messages and pending bytes |
| Chunking.AttemptsDone | aesd-char-driver/main.c:114-224 | in a run whose writes report no error the writes are framed as successes, in order |
| Chunking.GrantedWriteIff | aesd-char-driver/main.c:123-222 | in any run, a write to which nothing is refused succeeds if and only if the text collected with it stays within the allocator's limit |
| Chunking.GrantedRunSucceeds | aesd-char-driver/main.c:123-222 | a run to which nothing is refused and that writes no more than the limit has no failing write |
| Chunking.RunIsLinesIff | aesd-char-driver/main.c:184-218 | after such a run from a fresh device, with any reads and seeks in between, the log is the line split of the bytes written if and only if no write has a newline before its last byte |
| Chunking.RunsAgree | aesd-char-driver/main.c:184-218 | two such runs that write the same bytes leave the same messages, pending bytes and readable bytes |
| Chunking.InnerNewline | aesd-char-driver/main.c:184-186 | an input where a finished line is held back because the write goes on after its newline |
| CommandQueue.RingPush | server/commandQueue.c:208-209 | storing at the enqueue index appends to the ring's contents |
| CommandQueue.RingPop | server/commandQueue.c:156-158 | the slot at the dequeue index holds the front; zeroing it and advancing drops the front |
| CommandQueue.RestTests | server/commandQueue.c:17-26 | with the mutex free the tests for empty and full read off lengths 0 and 10 |
| CommandQueue.OwnerStep | server/commandQueue.c:149-164 | every step inside the mutex keeps the shape of the ring for where the owner stands and acts on the bounded queue |
| CommandQueue.TicketsTake | server/commandQueue.c:156-157 | a command taken is in the hands of exactly one thread |
| CommandQueue.TicketsSettle | server/commandQueue.c:166-185 | a command is settled once, as its contents demand |
| CommandQueue.InsideInv | server/commandQueue.c:149-164 | a step of the mutex owner keeps the invariant and is a step of the bounded queue |
| CommandQueue.WaitingInv | server/commandQueue.c:188-203 | an idle thread enters the section of the function it calls, with the command it was given, or is turned away by validation; a waiting thread gets the free mutex; the bounded queue is left alone |
| CommandQueue.StepRefines | server/commandQueue.c:140-238 | every step of every thread keeps the invariant and is a step of a FIFO of capacity 10; full, empty and status answers match its length |
| CommandQueue.InitInv | server/commandQueue.c:120-135 | the initialised queue satisfies the invariant |
| CommandQueue.RunInv | server/commandQueue.c:140-238 | every schedule of any number of threads keeps the invariant |
| CommandQueue.QueueIsFifo | server/commandQueue.c:140-238 | in every reachable state: taken commands are a prefix of the accepted ones, each settled or held by one thread; with the mutex free the ring is exactly the rest, other slots zeroed, and accepted equals acknowledged |
| CommandQueue.SettledAsValidated | server/commandQueue.c:166-183 | a command is executed if and only if it needs the idle state, by the executor of its type; the default branch is never taken |
| CommandQueue.Linearizable | server/commandQueue.c:140-238 | for every schedule and thread: the calls take effect in one order in which a sequential queue of capacity ten gives the same answers and holds the same commands; the thread's calls in it are its finished calls, with the arguments it passed and the answers it got, and at most the one it is in; what is accepted and taken are the arguments of the successful enqueues and the commands that were run |
| CommandQueue.LogStep | server/commandQueue.c:149-231 | one step adds at most one call to that order, answered as the sequential queue answers it |
| CommandQueue.SeenStep | server/commandQueue.c:140-238 | what a thread is asked and answered stays in step with its calls in that order |
| CommandQueue.OneLog | server/commandQueue.c:140-238 | the order is the same whichever thread is watched |
| CommandQueue.AloneFinishes | server/commandQueue.c:140-238 | a thread not kept out of the mutex ends its call within eight of its steps |
| CommandQueue.AloneIsSection | server/commandQueue.c:140-238 | left alone inside the mutex, a thread reaches its unlock with the ring and the result of the uninterrupted section |
| CommandQueue.EnqueueSection | server/commandQueue.c:201-212 | the four steps of a section that enqueues store, advance and clear the flag, or find the queue full |
| CommandQueue.ProcessSection | server/commandQueue.c:149-164 | the steps of a section that dequeues take the slot at the dequeue index, zero it, advance and set the flag when the indices meet |
| CommandQueue.Queue.Init | server/commandQueue.c:120-135 | an empty queue in idle mode, or ERROR_GENERAL |
| CommandQueue.Queue.Enqueue | server/commandQueue.c:188-215 | result code by the abstract length; appends on success; ring and result are those of the uninterrupted steps |
| CommandQueue.Queue.ProcessNext | server/commandQueue.c:140-186 | takes the front; its result is ERROR_STATE if it needs another state, that of the drive for a user command, ERROR_NOT_SUPPORTED for the other two; ring and result are those of the uninterrupted steps |
| CommandQueue.Queue.GetStatus | server/commandQueue.c:217-238 | empty, full or neither according to the length; ring and result are those of the uninterrupted steps |
| TailQueue.Init | server/queue.h:690-694 | an empty queue |
| TailQueue.InsertHead | server/queue.h:721-732 | the element comes first |
| TailQueue.InsertTail | server/queue.h:734-742 | the element comes last |
| TailQueue.InsertAfter | server/queue.h:696-709 | the element follows the given one |
| TailQueue.InsertBefore | server/queue.h:711-719 | the element precedes the given one |
| TailQueue.Remove | server/queue.h:752-768 | the element is gone, the others keep their order, its own pointers are untouched |
| TailQueue.Concat | server/queue.h:635-644 | the second queue's elements follow the first's, the second is empty |
| TailQueue.Swap | server/queue.h:770-785 | the two heads exchange their elements |
| TailQueue.Last | server/queue.h:744-745 | the last element, or NULL if there is none |
| TailQueue.Prev | server/queue.h:749-750 | the predecessor, or NULL for the first element |
| TailQueue.ForeachReverse | server/queue.h:670-673 | visits the reversed sequence |
| TailQueue.LinkedInserted | server/queue.h:696-742 | four pointers around a gap make an insertion of a linked queue |
| TailQueue.LinkedUnique | server/queue.h:635-785 | a head leads to one sequence of elements only |
| ThreadRegistry.Registry.InsertHead | server/queue.h:241-244 | the new node is listed first |
| ThreadRegistry.Registry.Remove | server/queue.h:248-269 | exactly the given node is unlinked, by a walk over listed nodes only |
| ThreadRegistry.Registry.Visit | server/aesdsocket.c:1026-1032 | one turn of the pass: the successor is read first, then the node is removed, joined and freed if complete |
| ThreadRegistry.Registry.Reap | server/aesdsocket.c:1024-1033 | the list becomes the ordered sublist of nodes not seen complete; exactly the others are freed |
| ThreadRegistry.Registry.Shutdown | server/aesdsocket.c:1039-1045 | the list is empty and every node ever inserted is freed |
| ThreadRegistry.KeepIds | server/aesdsocket.c:1026-1033 | the nodes kept carry the thread numbers kept |
| ThreadRegistry.ListedIffNeverSeen | server/aesdsocket.c:994-1035 | a thread is listed exactly when no pass since its insertion saw it complete, newest first |
| ThreadRegistry.Accept | server/aesdsocket.c:1010-1015 | one new node per connection, listed first |
| ThreadRegistry.Serve | server/aesdsocket.c:1010-1033 | one turn of the accept loop |
| ThreadRegistry.ListenLoop | server/aesdsocket.c:992-1045 | over every run one node per connection, joined and freed exactly once, and the list before shutdown is the one characterised above |
| SafeMode.SafeNameIsPrefix | server/nvmeInterface.c:677-689 | the comparison accepts exactly the names that start with AESD |
| SafeMode.NewNameIsPrefixed | server/nvmeInterface.c:258-266 | the name given to a new partition starts with AESD |
| SafeMode.DigitsRoundTrip | server/nvmeInterface.c:259 | the digits printed for a number stand for it, without leading zeros |
| SafeMode.NewNameExact | server/nvmeInterface.c:258-264 | a partition gets a name if and only if its number has at most five digits, and no two numbers get the same |
| SafeMode.LastEndIs | server/nvmeInterface.c:206-232 | the space test uses the end of the partition with the largest number |
| SafeMode.GateExact | server/nvmeInterface.c:560-579 | for ordered ranges the four tests accept exactly when the end is below the partition's length |
| SafeMode.ConfinedIff | server/aesdsocket.c:783-803 | the translated range lies in the partition with its length kept if and only if it passes the gate and its absolute end is below 2^32 |
| SafeMode.InsideSafePartition | server/nvmeInterface.c:427-439 | writes inside one prefixed partition preserve all others |
| SafeMode.Drive.CreatePartition | server/nvmeInterface.c:173-289 | status for every case; success adds exactly the partition placed, under the name made from its number; every unprefixed partition keeps name, geometry and contents, none is added, and the table stays disjoint |
| SafeMode.Drive.DeletePartition | server/nvmeInterface.c:296-347 | status for every case; removes exactly the prefixed partition named; every unprefixed partition keeps name, geometry and contents |
| SafeMode.Drive.WritePartitionSector | server/nvmeInterface.c:395-458 | status for every case; writes exactly the first sector of the prefixed partition named, with the outcome of a failed write; every unprefixed partition keeps its contents |
| SafeMode.Drive.CheckLbaRangeInPart | server/nvmeInterface.c:526-580 | accepts exactly the ranges that end below the partition's length |
| SafeMode.Drive.PerfWrite | server/aesdsocket.c:755-811 | when the engine starts, on which range, that nothing outside it is written, and that unprefixed partitions are preserved if the range meets none |
| SafeMode.PerfConfinedIff | server/aesdsocket.c:860-912 | a job that starts is confined to the partition named if and only if the range check found the device or would have passed, and the absolute end fits in 32 bits |
| SafeMode.PerfStartsIff | server/aesdsocket.c:755-809 | on a device of at most 2^32 sectors that stays present, a job starts if and only if the arguments name a prefixed partition and an ordered range of it, and its range is that one |
| SafeMode.PerfNeedsDevice | server/aesdsocket.c:755-800 | no job starts without the device at the name and boundary checks; without it at the range check one starts whatever the range |
| SafeMode.EngineHarmlessIff | server/aesdsocket.c:806-809 | no engine behaviour harms an unprefixed partition if and only if the range meets none |
| SafeMode.PerfSafeIff | server/aesdsocket.c:755-809 | a perf command preserves unprefixed partitions under every behaviour of the engine if and only if it starts no job or its range meets none of them |
| SafeMode.ConfinedAvoids | server/aesdsocket.c:755-809 | with 32-bit sector numbers and the device present at the range check, the range of a job meets no unprefixed partition |
| SafeMode.CreatePreserves | server/nvmeInterface.c:250-277 | creating a partition preserves unprefixed partitions and disjointness, and adds only a prefixed one |
| SafeMode.DeletePreserves | server/nvmeInterface.c:296-347 | deleting a partition preserves unprefixed partitions |
| SafeMode.SectorWritePreserves | server/nvmeInterface.c:419-446 | a sector write preserves unprefixed partitions |
| SafeMode.SkippedCheckEscapes | server/aesdsocket.c:784-788 | an input where the device is missing for the range check and another partition is overwritten |
| SafeMode.WrappedRangeEscapes | server/aesdsocket.c:802-803 | an input on a larger device where the 32-bit sum leads into another partition |
| SafeMode.EffectPreserves | server/aesdsocket.c:612-912 | one command preserves unprefixed partitions, a perf command if its range meets none |
| SafeMode.EffectIs | server/aesdsocket.c:612-680 | what each of mkpart, rmpart and write does to the disk |
| SafeMode.EffectChanges | server/aesdsocket.c:612-912 | which partitions and sectors one command can change |
| SafeMode.PartitionStays | server/nvmeInterface.c:296-347 | over every run a partition keeps number, name and geometry unless an rmpart names it |
| SafeMode.PartitionAbsent | server/nvmeInterface.c:173-289 | over every run no partition appears unless an mkpart was given its number |
| SafeMode.SectorStays | server/aesdsocket.c:612-912 | over every run a sector changes only by a write to the prefixed partition starting there or by a job covering it |
| SafeMode.SafeOverRuns | readme.md:7 | over every run of commands that are safe where they stand, unprefixed partitions keep name, geometry and contents, and every partition added is prefixed |
| SafeMode.SafeRunIff | readme.md:7 | a run preserves unprefixed partitions under every behaviour of its engines if and only if every command is safe on the disk as it finds it |
| SafeMode.SteadyRunsAreSafe | server/aesdsocket.c:755-809 | every run is safe on a device of at most 2^32 sectors that is present at the range checks |
| SafeMode.HarmfulEngines | server/aesdsocket.c:806-809 | if some command of a run is not safe, some behaviour of the engines leaves an unprefixed partition damaged at its end |
| SafeMode.LayoutRun | server/aesdsocket.c:755-809 | which jobs a run starts does not depend on what is stored in the sectors |
| SafeMode.Perform | server/aesdsocket.c:612-912 | one command has the stated effect, keeps the table disjoint and, if it is safe, preserves unprefixed partitions |
| SafeMode.Serve | server/aesdsocket.c:510-966 | the command loop has the effect of the run, keeps the table disjoint and, if the run is safe, preserves unprefixed partitions |

## Left out

- `aesd_llseek`: its guard rejects every `whence`, so nothing behind it can be reached.
- File positions of 2^63 and more: signed overflow of `loff_t` is not modelled; the position is unbounded and converted to `size_t` at the lookup.
- CircularBuffer.Ring.FindEntry: used on its own it needs the bytes in the ring to total less than 2^31, beyond which the C `int` addition is undefined; inside the driver this follows from the allocator's limit.
- CircularBuffer.Ring.BytesBefore: the same bound on the bytes in the ring.
- Decoding of the ioctl argument, `aesd_open`, `aesd_release`, cdev and module registration, and the allocation of the ring structure itself.
- SafeMode.SafeOverRuns: commands are atomic; the property does not hold of every run, and `SafeMode.SafeRunIff` states the runs it holds of.
- SafeMode.Drive.CreatePartition: where libparted puts a partition is only constrained to be free space; the constraint solver is not part of this model.
- The perf engine: modelled as arbitrary writes inside the range it is handed; its source is not part of this model.
- Commands with missing arguments that the server passes on to `atoi` or `strlen` as NULL: commands start from parsed arguments.
- SafeMode.Drive.WritePartitionSector: the contents of one sector are one value; how many bytes the caller's buffer holds is not modelled.
- Races of several clients on the disk: each check reopens the device without a lock.
- Calls on the command queue before it is initialised appear in `CommandQueue.Queue` only; the threads of the state machine start after `commandQueueInit`, as in `main`.
- CommandQueue.SettledAsValidated: the drive operations behind a user command are the commands of `SafeMode`, not repeated in the queue.
- ThreadRegistry.ListenLoop: whether a thread is complete when a pass reaches its node is an input; the thread that sets the flag is not modelled.
- Sockets, signals, the receive loop (the same newline framing as the driver), the timer, logging, `LIST`, `STAILQ` and the rest of `SLIST`: these would only add easier members.
- `read`, `seq_read`, `rand_read`, `status` and `listparts`: they change nothing on the disk and appear as `ReadOnly`.
