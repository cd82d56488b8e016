# Verified models of the example drivers

Dafny models of four of the kernel drivers, with the properties they are meant to have:

* the blocking and pollable FIFO device (`06-char-dev-blocking`, `07-char-dev-poll`),
* the request path of the RAM disk (`08-block-dev-ramdisk-basic`),
* bring-up and teardown of several devices (`05-char-dev-auto-node`),
* one message buffer per minor number (`03-char-dev-multibuf`).

`dafny verify dfyconfig.toml` checks everything.
No lemma relies on automatic induction (`{:induction false}` throughout): every induction is written out.

## The FIFO device

Three layers, each tied to the next by proof.

* `AtomicQueue` is what a user may believe: a bounded queue on which reads, writes and polls are single
  operations. Every byte ever accepted has a fate (delivered to one reader, or dropped) or is still pending.
* `Machine` is the driver as the kernel runs it: any number of threads, interleaved one statement at a time,
  over the two positions, the buffer, the mutex and both wait queues. `Locking`, `Refinement`, `Outcomes`, `Reports`,
  `Causes`, `Wakeups`, `LostWakeup`, `LostBytes`, `Retries`, `Progress` and `Service` are statements about all of its
  runs, of any length and with any number of threads, with signals, timeouts and copy faults wherever they can occur.
* `PollDevice` is the critical sections as imperative code on an array and two fields, proved to perform the
  operations of the queue.

A program point of `Machine` is one statement of the source (line numbers of
`07-char-dev-poll/src/char-dev-poll.c`):

* `RLock` 88, `RNonblock` 92, `RUnlockAgain` 93, `RTest` 98, `RUnlockWait` 99;
* `RCond`, `RPrepare`, `RAsleep` 102 (test, enqueue, sleep), `RRelock` 107;
* `RLoad` 112-114, `RCopy` 116, `RUnlockFault` 117, `RAdvance` 121, `RTestEmpty` 128, `RResetR` 129,
  `RResetW` 130, `RUnlock` 133, `RWake` 136;
* `WLock` 148, `WTest` 152, `WResetR` 153, `WResetW` 154, `WLoad` 157-159, `WCopy` 161, `WUnlockFault` 162,
  `WAdvance` 166, `WUnlock` 172, `WWake` 175;
* `PRegisterR` 189, `PRegisterW` 190, `PLock` 192, `PTestIn` 195, `PTestOut` 201, `PUnlock` 206; `PDecide`
  and `PAsleep` are poll(2) around it.

With `nonblock` never set and no pollers, the machine is the driver of 06.

What is assumed of the kernel:

* Memory is sequentially consistent. The unlocked `has_data` in the wait loads its two fields one at a time,
  in either order.
* `wait_event_interruptible` tests the condition; if it is false it enqueues the thread and tests again, and
  sleeps until it is woken or signalled; then it enqueues and tests again. A pending signal ends it only when
  the test fails.
* `wake_up_interruptible` takes every sleeping reader off the queue, and triggers every poller registered
  on it. A triggered poller runs `dev_poll` again.
* The mutex excludes; `mutex_lock_interruptible` may fail on a signal.
* A faulting copy changes only its destination range, and a copy of length 0 cannot fault.

Two results are negative, or conditional, and exact:

* A write that resets a full buffer and then faults (lines 152-164) returns without a wake-up, although it has
  made space. A poller that sleeps for POLLOUT is then overlooked. `Wakeups.LostSpaceExactly` says that this is
  the only way to be overlooked, `LostWakeup.SpaceWakeupCanBeLost` gives a run for every size of the buffer. The
  driver's documentation (`07-char-dev-poll/README.md:206-207`) promises a wake-up whenever events occur.
* A write that meets a full buffer discards what nobody has read (line 152). `Refinement.LosesExactly` says that
  accepted bytes are lost if and only if that has happened, `Refinement.LossesBounded` how many, and
  `LostBytes.BytesCanBeLost` gives a run for every size of the buffer.

## The RAM disk

A request is a list of bios, a bio a list of segments of pages. `BlockIo` gives the sequence of copies that the
driver's cursor arithmetic makes of it, `RamDisk` is the nested loops over a byte array and page arrays, proved
to do exactly the copies before the first that would pass the end of the disk. `BlockCopies`,
`BlockRequests`, `BlockOrder` and `BlockService` state what that means: a contiguous request is one flat copy however it is
divided, merging and splitting change nothing, disjoint requests commute.

The block layer is assumed to hand over segments that are positive multiples of 512 bytes long, bios that follow
each other within a request, and, for what a read delivers, segments that do not overlap. Each of these is a
`requires` of the lemmas that need it; the failure, merging and commutation lemmas need none of them.

The driver computes `sector * 512`, `offset + len` and the cursor in 64 bits, and so does the model: a segment at
sector 2^55 passes the check and is copied to sector 0. `BlockIo.CheckIsExact` says exactly when the bounds check is
wrong: when the end of a segment wraps around onto the disk, which needs a sector number of nearly 2^55 or more. The
block layer rejects such a bio, as its sectors lie past the capacity. Where no sector number is that large, offsets
as computed are the true ones. Where the sum in the check wraps by itself, the copy that follows leaves the array;
the loops report that as `Overlooked` and stop.

## Bring-up and teardown

`Ledger` is the kernel as a ledger of device numbers, classes, memory, cdevs and nodes. A primitive may fail
whenever it likes, and then changes nothing. What it demands of its caller is its `requires`, so that a verified
caller never frees memory with a live cdev, destroys a class with a node left, and so on. `Bringup.Driver`
is the driver on top of it, for any number of devices and not only `NUM_DEVICES`. `Kernel.refused` records the error
of each call that has failed, so that the driver can be held to failing only when one of its calls has.

`05-char-dev-auto-node/src/char-dev-auto-node.c:239` and the driver's documentation ask for cleanup in reverse
order. The code goes through the devices in ascending order (lines 126-128); the model follows the code, and
states the order that does hold.

## Message buffers

`MultiBuf` has the buffers as values and as arrays. Traces of whole calls on all minors and any number of open
files are interleaved in any order; copies may stop short anywhere. The file system layer is assumed to limit
offset and length so that their sum does not wrap.

## Model

| member | source | states |
|---|---|---|
| `Locking.LockDiscipline` | 07-char-dev-poll/src/char-dev-poll.c:88-133 | after any run: a thread is in a critical section iff it is the recorded owner, at most one is, no returned call and no sleeper holds the mutex, and an O_NONBLOCK reader is never in the wait |
| `Locking.InvAlways` | 07-char-dev-poll/src/char-dev-poll.c:81-209 | the invariant behind everything else (ownership, positions at rest when the mutex is free, what each program point may rely on) holds after every run |
| `Locking.InvStep` | 06-char-dev-blocking/src/char-dev-blocking.c:85-188 | every step of every thread keeps that invariant for all threads |
| `Locking.ThreadStepGood` | 07-char-dev-poll/src/char-dev-poll.c:81-209 | only the owner of the mutex changes positions or buffer, and the mutex changes hands only through the stepping thread |
| `Locking.PollMaskNotEmpty` | 07-char-dev-poll/src/char-dev-poll.c:192-208 | with the mutex free, `read_pos < write_pos <= buffer_size` or both are 0; dev_poll never returns an empty mask |
| `Locking.CopiesInBounds` | 07-char-dev-poll/src/char-dev-poll.c:112-164 | over every run: where the code subtracts positions the difference does not wrap, and where it copies it stays inside the buffer and the caller's length |
| `Refinement.RunsRefine` | 06-char-dev-blocking/src/char-dev-blocking.c:85-188 | every run, signals and faults included, is a run of the atomic bounded queue, which drops its contents only when a write finds it full; the device always stands for that queue |
| `Refinement.StepSimulated` | 07-char-dev-poll/src/char-dev-poll.c:81-209 | one step of one thread is no step, or one allowed operation, of the queue |
| `Refinement.ReadTakesEffect` | 07-char-dev-poll/src/char-dev-poll.c:112-131 | advancing `read_pos` hands out exactly the oldest pending bytes |
| `Refinement.WriteTakesEffect` | 07-char-dev-poll/src/char-dev-poll.c:152-167 | advancing `write_pos` has the copied bytes accepted, behind what is pending or, after a reset, behind what it dropped |
| `Refinement.DeviceHoldsPending` | 06-char-dev-blocking/src/char-dev-blocking.c:115-137 | with the mutex free, `buffer[0..write_pos]` is the last `write_pos` bytes accepted, the bytes between the positions are those neither delivered nor dropped, and accepted = delivered + dropped + (`write_pos` - `read_pos`) |
| `Refinement.DeliveredExactlyOnce` | 06-char-dev-blocking/src/char-dev-blocking.c:115-176 | over every run, the bytes that a thread's reads have returned, and those one of them is about to return, are exactly the accepted bytes settled as delivered to it, once each and in order of acceptance |
| `Refinement.LossesBounded` | 07-char-dev-poll/src/char-dev-poll.c:152-167 | with full resets counted where the code makes them (less one still under way): each is paid for by `buffer_size` accepted bytes, drops at least one byte and at most `buffer_size`, and the device is a lossless FIFO if and only if there has been none |
| `Refinement.LosesExactly` | 07-char-dev-poll/src/char-dev-poll.c:152-166 | a run loses accepted bytes (they are neither delivered nor pending) if and only if some write has reset a full buffer and gone on to its effect |
| `LostBytes.BytesCanBeLost` | 07-char-dev-poll/src/char-dev-poll.c:152-167 | for every buffer size, there is a run of the driver that loses bytes |
| `LostBytes.AdvanceLoses` | 07-char-dev-poll/src/char-dev-poll.c:152-167 | whatever happened before, a run loses bytes once a write that has reset a full buffer takes effect |
| `Refinement.ResetsCounted` | 07-char-dev-poll/src/char-dev-poll.c:152-166 | the executions of the reset of a full buffer number exactly the full resets of the queue, and one more while a write stands between its reset and its effect |
| `Refinement.PollInIsHonest` | 07-char-dev-poll/src/char-dev-poll.c:192-206 | after dev_poll has found data, until an operation takes the last byte or a write meets a full buffer and faults or brings nothing, no read is told -EAGAIN and a read of positive length that does not fault brings at least one byte |
| `Refinement.ReportedPollInIsHonest` | 07-char-dev-poll/src/char-dev-poll.c:92-206 | the same from the POLLIN that poll(2) has returned: it stands for an answer of dev_poll in that call, and any read that takes effect later is served as above if nobody has disturbed the queue since that answer |
| `Outcomes.OneEffectPerCall` | 07-char-dev-poll/src/char-dev-poll.c:81-178 | a call that returned bytes, a count, -EAGAIN or -EFAULT had exactly one atomic operation, with its own arguments and that very answer; a call ended by a signal had none |
| `Outcomes.EffectsUnderTheLock` | 07-char-dev-poll/src/char-dev-poll.c:88-172 | that operation takes effect while its caller holds the mutex, before and after the step |
| `Causes.FailuresHaveCauses` | 07-char-dev-poll/src/char-dev-poll.c:88-209 | over every run: a call that has returned -ERESTARTSYS was signalled since it began; it returned -EFAULT if and only if a copy of its own faulted; it returned a time-out if and only if its timer expired |
| `Reports.HandedOutIsReturned` | 07-char-dev-poll/src/char-dev-poll.c:121-138 | over every run, what the queue has handed to a thread is what all its reads together have returned, followed by what one of them is about to return |
| `Reports.TakenIsReported` | 07-char-dev-poll/src/char-dev-poll.c:161-177 | over every run, the bytes the queue has accepted from a thread are the beginnings of its callers' data that its writes together have reported as taken, followed by what one of them is about to report |
| `Reports.PollReportsLastAnswer` | 07-char-dev-poll/src/char-dev-poll.c:189-208 | what poll(2) returns is the last answer dev_poll found under the mutex in this very call, masked by what the caller asked for, if and only if that has a wanted bit; a call ended by a signal or by time had a last answer without one |
| `Reports.StreamsGrow` | 07-char-dev-poll/src/char-dev-poll.c:121-177 | the streams of what a thread's reads and writes have reported grow exactly by what each call reports as it returns |
| `Service.ReaderIsServed` | 07-char-dev-poll/src/char-dev-poll.c:88-138 | in every reachable state with the mutex free and data there, a read that starts, is in the wait with nothing loaded, has been woken or is about to lock returns, running by itself, within a bounded number of steps, exactly the oldest bytes, as many as it asked for or there are |
| `Service.SignalledReaderIsServed` | 07-char-dev-poll/src/char-dev-poll.c:102-138 | a read in the wait that is signalled while data is there is served all the same |
| `Service.SignalledReaderGivesUp` | 07-char-dev-poll/src/char-dev-poll.c:102-105 | a signalled read in the wait that finds no data returns -ERESTARTSYS |
| `Service.NonblockingReaderIsTold` | 07-char-dev-poll/src/char-dev-poll.c:88-95 | with no data there an O_NONBLOCK read returns -EAGAIN |
| `Service.WriterIsServed` | 07-char-dev-poll/src/char-dev-poll.c:148-177 | in every reachable state with the mutex free, a write returns, running by itself, how much of its data there is room for, the whole buffer if it was full |
| `Service.PollerIsServed` | 07-char-dev-poll/src/char-dev-poll.c:189-208 | a poll that registers or looks again while an event it asks for is there returns exactly the events asked for and there |
| `Service.FaultIsReported` | 07-char-dev-poll/src/char-dev-poll.c:116-164 | any copy of at least one byte can fault; the call then returns -EFAULT, positions unmoved and no byte of the buffer touched outside the destination of the copy |
| `Service.SignalsAndTimersAreObeyed` | 07-char-dev-poll/src/char-dev-poll.c:88-149 | a signal ends a call that waits for the mutex interruptibly, and a poll that sleeps; time ends a poll that sleeps |
| `Wakeups.NoLostReaderWakeup` | 06-char-dev-blocking/src/char-dev-blocking.c:96-185 | with the mutex free, data there and a reader asleep unwoken, some writer stands between its unlock and its wake-up |
| `Wakeups.NoLostPollWakeup` | 07-char-dev-poll/src/char-dev-poll.c:133-206 | with the mutex free and a poller asleep unwoken whose event is there, a wake-up of its queue is under way; for POLLOUT unless a write has reset a full buffer and faulted since the last wake-up |
| `Wakeups.LostSpaceExactly` | 07-char-dev-poll/src/char-dev-poll.c:152-175 | the POLLOUT exception is exact: with nobody about to wake, there is unannounced space iff such a write has happened since the last wake-up |
| `Wakeups.SleepsUntilWoken` | 07-char-dev-poll/src/char-dev-poll.c:102-175 | over every run, a reader that has enqueued itself is on read_queue if and only if no writer has woken the queue since |
| `Wakeups.QueuesHoldWaiters` | 07-char-dev-poll/src/char-dev-poll.c:102-190 | over every run, the wait queues hold exactly the pollers that have registered, until their call returns, and only readers in the wait |
| `Wakeups.ServedAlways` | 07-char-dev-poll/src/char-dev-poll.c:88-206 | the invariant behind these, over every run: the unlocked loads of a queued reader cannot hide data, in spite of the half-done reset, unless a wake-up is owed |
| `Wakeups.ServedStep` | 07-char-dev-poll/src/char-dev-poll.c:88-206 | every step of every thread keeps that invariant for all waiters |
| `LostWakeup.FaultAfterResetLoses` | 07-char-dev-poll/src/char-dev-poll.c:152-164 | the fault exit of a write that reset a full buffer loses a POLLOUT wake-up iff nobody else is about to wake |
| `LostWakeup.SpaceWakeupCanBeLost` | 07-char-dev-poll/src/char-dev-poll.c:152-164 | for every buffer size, there is a run of the driver that loses one |
| `Retries.RetriesBounded` | 06-char-dev-blocking/src/char-dev-blocking.c:96-113 | over any run, the times a thread woke and found no data under the mutex never exceed the drains and full resets of other threads |
| `Retries.RetryHasCause` | 06-char-dev-blocking/src/char-dev-blocking.c:96-160 | when a woken reader finds no data, some other thread has set `write_pos` to 0 since that reader loaded it for its test |
| `Retries.CountsGrow` | 06-char-dev-blocking/src/char-dev-blocking.c:96-160 | retries and assignments of 0 to `write_pos` are counted exactly where they happen |
| `Progress.StuckMeansWaiting` | 07-char-dev-poll/src/char-dev-poll.c:88-206 | if no unfinished call can step without a signal, timeout or new call: the mutex is free, each is a sleeping reader or poller, a waiting reader means an empty buffer, and a poller's event is absent (POLLOUT: or was never announced) |
| `Progress.OwnerCanStep` | 07-char-dev-poll/src/char-dev-poll.c:92-133 | the owner of the mutex always has a next step |
| `AtomicQueue.ExactlyOnceInOrder` | 06-char-dev-blocking/src/char-dev-blocking.c:115-176 | in every run of the queue, what a reader was handed is exactly the accepted bytes whose fate is delivery to it, in order; what was accepted is exactly what the writes reported |
| `AtomicQueue.Conservation` | 07-char-dev-poll/src/char-dev-poll.c:112-167 | accepted = delivered + dropped + pending |
| `AtomicQueue.LossBound` | 07-char-dev-poll/src/char-dev-poll.c:152-167 | each full reset is paid for by `buffer_size` accepted bytes of its own, and drops between one byte and `buffer_size` |
| `AtomicQueue.LosslessExactly` | 07-char-dev-poll/src/char-dev-poll.c:152-155 | what was read followed by what is pending is what was written, if and only if the run has no full reset |
| `AtomicQueue.ReadableUnlessSpoilt` | 07-char-dev-poll/src/char-dev-poll.c:128-164 | a readable queue stays readable iff the operation neither takes the last byte nor meets a full queue and brings nothing |
| `AtomicQueue.UndisturbedExactly` | 07-char-dev-poll/src/char-dev-poll.c:128-164 | a stretch of operations is undisturbed if and only if the queue is readable after every one of them |
| `AtomicQueue.AnswersAreDetermined` | 07-char-dev-poll/src/char-dev-poll.c:92-167 | the answer to a request is determined by the queue, but for a fault of the copy; and a copy can fault only where it would move at least one byte |
| `AtomicQueue.PollInIsHonest` | 07-char-dev-poll/src/char-dev-poll.c:92-95 | in a run of the queue: behind a poll that answered readable, and operations none of which takes the last byte or meets a full queue and brings nothing, the next operation is not an -EAGAIN, and if it is a read of positive length that does not fault it brings at least one byte |
| `PollDevice.Device.Read` | 07-char-dev-poll/src/char-dev-poll.c:91-138 | the critical section as code performs one read of the atomic queue; it must wait, is told -EAGAIN, -EFAULT, or the oldest bytes, each in exactly its case |
| `PollDevice.Device.Write` | 07-char-dev-poll/src/char-dev-poll.c:151-177 | the critical section as code performs one write of the atomic queue; it answers -EFAULT if and only if a copy of at least one byte fails, and otherwise accepts and reports exactly what there is room for |
| `PollDevice.Device.ResetIfFull` | 07-char-dev-poll/src/char-dev-poll.c:152-155 | a full buffer loses all it holds, any other keeps it, and there is room afterwards |
| `PollDevice.Device.Append` | 07-char-dev-poll/src/char-dev-poll.c:161-167 | a copy that is counted in has its bytes accepted |
| `PollDevice.Device.Poll` | 07-char-dev-poll/src/char-dev-poll.c:195-204 | the mask says exactly whether the queue is readable and not full, and is never empty |
| `PollDevice.ReadOp` | 07-char-dev-poll/src/char-dev-poll.c:92-119 | the answer of a read is always one the queue allows; there is none iff the queue is empty and the call may block, and a fault iff data is there and a copy of at least one byte fails |
| `PollDevice.WriteOp` | 07-char-dev-poll/src/char-dev-poll.c:157-164 | the answer of a write is always one the queue allows, and a fault iff a copy of at least one byte fails |
| `RamDisk.Disk.TransferSegment` | 08-block-dev-ramdisk-basic/src/block-dev-ramdisk-basic.c:53-75 | in 64-bit arithmetic: the segment is copied at the offset as computed if that leaves it on the disk; otherwise nothing changes, and it is refused unless the sum in the check has itself wrapped onto the disk |
| `BlockIo.CheckIsExact` | 08-block-dev-ramdisk-basic/src/block-dev-ramdisk-basic.c:55-61 | the bounds check agrees with "the segment ends on the disk", in exact arithmetic, if and only if the segment's end does not wrap at 64 bits onto the disk |
| `BlockIo.PassedIsOnDisk` | 08-block-dev-ramdisk-basic/src/block-dev-ramdisk-basic.c:55-73 | a segment that passes is copied within the array unless offset + len wraps in the check itself |
| `BlockIo.CheckCanBeWrong` | 08-block-dev-ramdisk-basic/src/block-dev-ramdisk-basic.c:55-73 | there is a sector number far past the disk for which the check passes, and the segment goes to sector 0 |
| `RamDisk.Disk.TransferBio` | 08-block-dev-ramdisk-basic/src/block-dev-ramdisk-basic.c:43-80 | the loop over segments does exactly the copies before the first that is not on the disk, at the offsets as computed in 64 bits, and reports the verdict on that one |
| `RamDisk.Disk.TransferRequest` | 08-block-dev-ramdisk-basic/src/block-dev-ramdisk-basic.c:83-96 | the same over all bios, stopping at the first that fails |
| `RamDisk.Disk.QueueRq` | 08-block-dev-ramdisk-basic/src/block-dev-ramdisk-basic.c:99-116 | the request ends with BLK_STS_OK iff every copy, at its offset as computed, is on the disk, and with BLK_STS_IOERR iff the first that is not is refused; the remaining case is a copy out of the array |
| `BlockIo.CursorIsExact` | 08-block-dev-ramdisk-basic/src/block-dev-ramdisk-basic.c:46-77 | with whole sectors, each copy goes to the first sector plus the bytes done so far (at 64 bits) |
| `BlockIo.DivisionIntoBiosIrrelevant` | 08-block-dev-ramdisk-basic/src/block-dev-ramdisk-basic.c:88-95 | a contiguous request, however divided into bios, makes the copies of one bio with all its segments |
| `BlockCopies.BeforeIsExact` | 08-block-dev-ramdisk-basic/src/block-dev-ramdisk-basic.c:58-61 | serving stops exactly at the first copy past the end, and nowhere iff there is none |
| `BlockCopies.VerdictIsExact` | 08-block-dev-ramdisk-basic/src/block-dev-ramdisk-basic.c:58-61 | everything moves iff no copy passes the end; otherwise the outcome is that of the first copy that does |
| `BlockCopies.WriteIsOneCopy` | 08-block-dev-ramdisk-basic/src/block-dev-ramdisk-basic.c:52-77 | an in-range write bio is one copy of its gathered bytes to its first sector, and nothing else moves |
| `BlockCopies.ReadIsOneCopy` | 08-block-dev-ramdisk-basic/src/block-dev-ramdisk-basic.c:52-77 | an in-range read bio leaves in its segments, end to end, the disk's bytes from its first sector on, and the disk as it was |
| `BlockRequests.ExactFailure` | 08-block-dev-ramdisk-basic/src/block-dev-ramdisk-basic.c:58-113 | a request fails iff some segment ends past the disk; then exactly the segments before the first such one are transferred (segments taken at their offsets as computed; for the true ones see `BlockIo.CheckIsExact`) |
| `BlockRequests.DiskElsewhere` | 08-block-dev-ramdisk-basic/src/block-dev-ramdisk-basic.c:63-73 | every disk byte outside those transfers is unchanged |
| `BlockRequests.PagesElsewhere` | 08-block-dev-ramdisk-basic/src/block-dev-ramdisk-basic.c:63-73 | every page byte outside those transfers is unchanged |
| `BlockRequests.MergedIsPartsInOrder` | 08-block-dev-ramdisk-basic/src/block-dev-ramdisk-basic.c:88-95 | a merged request succeeds iff its parts do, and has the effect of its parts issued in order up to the first that fails |
| `BlockRequests.SucceedsIffItEndsOnDisk` | 08-block-dev-ramdisk-basic/src/block-dev-ramdisk-basic.c:58-93 | a contiguous request succeeds iff it ends on the disk, however divided; for a first byte past 2^64, iff it does from where that byte wraps to |
| `BlockRequests.SucceedsIffWithinCapacity` | 08-block-dev-ramdisk-basic/src/block-dev-ramdisk-basic.c:23-61 | in sectors: a contiguous request succeeds iff it ends within the 32 * 1024 sectors announced as the capacity |
| `BlockRequests.RequestIsOneCopy` | 08-block-dev-ramdisk-basic/src/block-dev-ramdisk-basic.c:46-95 | an in-range request, however divided, is one flat copy at its first sector, in either direction; a write changes nothing else, a read no disk byte and no page byte outside its segments |
| `BlockRequests.RoundTrip` | 08-block-dev-ramdisk-basic/src/block-dev-ramdisk-basic.c:43-96 | bytes written with any division and read back from the same sectors with any other come back exactly |
| `BlockOrder.RequestsCommute` | 08-block-dev-ramdisk-basic/src/block-dev-ramdisk-basic.c:55-76 | requests disjoint on the disk and in memory commute, whether they succeed or fail |
| `BlockOrder.OrderIrrelevant` | 08-block-dev-ramdisk-basic/src/block-dev-ramdisk-basic.c:99-115 | any two dispatch orders of pairwise disjoint requests leave the same disk and the same pages |
| `BlockService.EachIsServed` | 08-block-dev-ramdisk-basic/src/block-dev-ramdisk-basic.c:55-115 | after any pairwise disjoint requests have been served, each in-range one among them has had its own effect: a write's bytes are on the disk, a read's segments hold what the disk held at first |
| `BlockService.DisjointByRange` | 08-block-dev-ramdisk-basic/src/block-dev-ramdisk-basic.c:55-76 | in-range requests over disjoint sector ranges, with their segments apart, are disjoint in that sense |
| `Bringup.Driver.InitDevice` | 05-char-dev-auto-node/src/char-dev-auto-node.c:141-186 | all of one device (memory, cdev, node) if no call fails; otherwise the error of the one call that failed, with ledger and array as before |
| `Bringup.Driver.CleanupDevice` | 05-char-dev-auto-node/src/char-dev-auto-node.c:111-121 | takes exactly one device's resources off the ledger, node before cdev before memory; an absent device changes nothing |
| `Bringup.Driver.CleanupDevices` | 05-char-dev-auto-node/src/char-dev-auto-node.c:124-129 | takes all devices off in ascending order and leaves region and class |
| `Bringup.Driver.CleanupClassAndDevnum` | 05-char-dev-auto-node/src/char-dev-auto-node.c:132-138 | the class goes, then the region, and the ledger is as before loading |
| `Bringup.Driver.InitDevices` | 05-char-dev-auto-node/src/char-dev-auto-node.c:219-228 | the loop ends with all N devices up if no call fails; otherwise with everything undone and the error of the first call that failed |
| `Bringup.Driver.Init` | 05-char-dev-auto-node/src/char-dev-auto-node.c:189-233 | for every N and every pattern of failures: 0 with all N devices registered if and only if no call fails; otherwise the error of the first that does, which is the last tried, with the ledger exactly as before; every primitive's precondition is met |
| `Bringup.Driver.Exit` | 05-char-dev-auto-node/src/char-dev-auto-node.c:236-244 | everything goes; the log shows each device's node, cdev, memory in this order, and the class after all nodes |
| `Bringup.Driver.LoadAndUnload` | 05-char-dev-auto-node/src/char-dev-auto-node.c:189-244 | loading and unloading leaves the ledger as it was, whatever failed on the way, and fails only if a call did |
| `Bringup.AllRegistered` | 05-char-dev-auto-node/src/char-dev-auto-node.c:155-181 | "all N devices registered" means memory, cdev and node of each under its own minor, and everybody else's resources untouched |
| `Bringup.TeardownOrder` | 05-char-dev-auto-node/src/char-dev-auto-node.c:112-119 | calls 3k to 3k + 2 of a teardown are device k's node, cdev and memory |
| `Bringup.FirstLast` | 05-char-dev-auto-node/src/char-dev-auto-node.c:126-128 | the oldest device may as well have been added last, which is why ascending teardown undoes ascending bring-up |
| `MultiBuf.MinorsAreIsolated` | 03-char-dev-multibuf/src/char-dev-multibuf.c:32-71 | over any interleaved trace, each minor's answers, message and offsets are those of its own operations run alone |
| `MultiBuf.NoSuchMinor` | 03-char-dev-multibuf/src/char-dev-multibuf.c:37-61 | a call is answered -ENODEV iff its minor is at least DEV_MAX, and then changes nothing |
| `MultiBuf.ChunksReassemble` | 03-char-dev-multibuf/src/char-dev-multibuf.c:41-52 | reads of any lengths and short copies from offset 0, with no write to the minor between, deliver exactly the message up to the offset, which never passes the message's size |
| `MultiBuf.EndOfMessage` | 03-char-dev-multibuf/src/char-dev-multibuf.c:41-45 | a fully copied read of positive length returns 0 iff the whole message has been delivered |
| `MultiBuf.WriteThenRead` | 03-char-dev-multibuf/src/char-dev-multibuf.c:41-67 | a fully copied read of any length at any offset, behind any write to the same minor, returns exactly the caller's bytes from that offset on, up to the count the write was told |
| `MultiBuf.ReadAnswers` | 03-char-dev-multibuf/src/char-dev-multibuf.c:41-51 | a read answers the count asked for or left, less what the copy missed, with those bytes of the message, advances the offset by as many, and changes nothing else |
| `MultiBuf.WriteAnswers` | 03-char-dev-multibuf/src/char-dev-multibuf.c:63-70 | a write answers the count given or fitting, less what the copy missed; those bytes become the message of its minor, and nothing else changes |
| `MultiBuf.BehindTheMessage` | 03-char-dev-multibuf/src/char-dev-multibuf.c:66-67 | behind the message stand a terminating 0, then what a short copy may have torn, then the old bytes |
| `MultiBuf.Overwrite` | 03-char-dev-multibuf/src/char-dev-multibuf.c:63-67 | any write, long or short-copied, leaves a message of at most BUF_LEN - 1 bytes |
| `MultiBuf.Driver.constructor` | 03-char-dev-multibuf/src/char-dev-multibuf.c:21-22 | the zeroed static arrays are distinct, and stand for empty messages |
| `MultiBuf.Driver.Read` | 03-char-dev-multibuf/src/char-dev-multibuf.c:32-52 | the code over the arrays answers with the message's bytes at the offset, as many as were asked for or are left less what the copy missed, and advances it by as many |
| `MultiBuf.Driver.Write` | 03-char-dev-multibuf/src/char-dev-multibuf.c:55-71 | the code over the arrays replaces its own minor's message by the bytes given that fit, less what the copy missed, answers their count, and leaves every other minor alone |

## Left out

- Logging, module macros, makefiles, the container and emulator scripts: no logic.
- Init and exit code of 06, 07 and 08: fallible bring-up is modelled for 05; the late error paths of these three read a field of a structure already freed, so the ledger property is not claimed for them.
- Opening and releasing the FIFO device (07, lines 63-78 and 212-225): these calls take the same mutex around their counters, touch neither positions nor buffer nor wait queues, and never wait inside; the machine has no program points for them. The counters `readers` and `writers`, and `open_count` of 05, are only logged.
- Reads and writes of 02, 05 and 09: the same logic as one minor of 03.
- 04 and 10: range-checked setters, and stubs whose matching belongs to the kernel's bus.
- Weak memory ordering, scheduler fairness, the insides of blk-mq and of page mapping: the assumptions are stated above.
- Copies to and from user memory by the FIFO device are one step each; nobody else may touch the buffer meanwhile, as the mutex is held.
- PollDevice.Device.Read: covers the call from the moment it holds the mutex; the wait and the wake-up are in `Machine` and `Wakeups`.
- PollDevice.Device.Write: covers the call while it holds the mutex; the wake-up behind it is in `Machine` and `Wakeups`.
- RamDisk.Disk.TransferSegment: where the sum in the check wraps by itself and lets a segment through, the code copies to or from memory outside the array; the model stops there and reports it.
- RamDisk.Disk.TransferRequest: pages are whole arrays and `kmap_atomic` is taken to give access to them.
- Bringup.Driver.Exit: does not state strict reverse order over devices, because the code does not have it.
- MultiBuf.MinorsAreIsolated: traces are of whole calls; the driver takes no lock, so two calls on one minor at the same time are not covered.
- Seeking and positioned reads on 03: file offsets start at 0 or anywhere, and move only by reads.
