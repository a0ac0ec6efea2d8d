# Velocitor

Velocitor is an accelerator in two halves: a QEMU device model and the Linux driver that
runs it, meeting at a register file, device-local memory, four split virtqueues and a
firmware image both have to read the same way. This project models both halves as linked
state machines and proves what they owe each other, under crashes, restarts and every
interleaving of host and device.

- **Device memory** (`Allocator`, `Device`, `Store`, `Sessions`, `DeviceModel`). A bump
  allocator per node, a handle table restarted at every boot and a copy engine over one flat
  memory refine a map from live handles to private byte arrays, for every run. What was copied
  in is what is copied out, whatever happens in between that spares it. The life cycle
  and the naming of allocations by {generation, handle} are proved over whole runs.
- **Queues** (`FreeRunning`, `SplitRing`, `EngineQueue`, `QueueWindow`, `Transport`). The ring of
  section 2.6 of VIRTIO 1.1 refines a FIFO across unbounded wraps of its 16-bit indices, and
  the engine's program on it returns heads in order, exactly those it did not drop. The drain
  serves it while the host goes on publishing. Doorbells, the sweep mask, purges and the
  driver's stop/start order lose no wakeup and carry no stale head across a recovery.
- **Control plane** (`CtrlTransaction`, `Ctrl`, `ControlPlane`, `Rpmsg`). The concurrent ownership
  protocol of a transaction; the byte formats and their round trips; the drain that makes
  it an in-order exactly-once call.
- **Handles and submissions** (`HandleTable`, `Cdev`, `Submission`, `DataWire`, `SlotPool`). The driver's handle table
  agrees with the device's live blocks across boots; the ioctls keep it so end to end; what
  the driver accepts, the device serves; submission slots are conserved.
- **Trace ring** (`TraceRing`, `TraceMemory`), **sliding window** (`Window`), **resource table**
  (`ResourceTable`, `FirmwareImage`).

Numbers of the contract (lengths, offsets, errnos, limits) stand as numbers in the theorems about
them, so a constant and its use cannot drift together.

`Hardware` holds the constants, little-endian words and memory stores the others share. Each
machine is a datatype with a step function whose events are the atomic actions of one party,
so a run is an arbitrary interleaving. Code that works in place (the device's callbacks, the
queue registers, the control block, the handle table, the trace ring, the window, the slot
pool, the firmware image) is a class, or a method with loops over arrays, proved equal to its
step of the machine. The host CPU, the virtio, rpmsg and remoteproc cores, the bus and the
clock are environment: their actions are events, their verdicts parameters.

`dafny verify dfyconfig.toml` checks the whole project.

## Hypotheses the code forces

Each is stated where it is used, and most have a lemma showing what happens without it.

- **Queue size.** The device accepts any `VQ_NUM` in 1..256; a queue is a FIFO exactly when it divides
  65536 (`SplitRing.QueueSizeExactly`). The driver always writes 256.
- **RESET alternates 1, 0.** A second release re-verifies without cancelling a pending boot
  (`Sessions.LifeStepExactly`, `Sessions.DoubleReleaseRunsRejected`) and without purging queues
  (`Transport.ClearWithoutStop`).
- **Fewer than 2^32 boots** for {generation, handle} to be a name (`Sessions.NameReuse`).
- **No claim between a transaction's allocation and send's `kref_get`, only the four known ops, and
  no sequence number reused while a caller still holds its previous owner.** Together they are exact
  (`CtrlTransaction.StepExactly`); `CtrlTransaction.EarlyClaimFrees`, `CtrlTransaction.UnknownOpDangles` and
  `CtrlTransaction.ReusedSeqMisclaims` say what each prevents. The cyclic allocator sees to the last
  short of 2^31 allocations in between.
- **A FREE is sent only for a number that is spent**: given out in this boot, not in the driver's
  table, in no reply on its way there. That is exact (`HandleTable.SendExactly`). That the handle was
  erased under the table's present generation suffices (`HandleTable.SameGenerationSuffices`), and the
  driver could check it; nothing in `cdev.c` does (`HandleTable.LateFreeBreaks`,
  `HandleTable.LateFreeArises`).
- **Trace ring word-aligned** (`Device.TraceStaysInRing`), **below the 2^32 wrap**
  (`TraceRing.WrapLosesSilently`; 511 does not divide 2^32), **reads atomic** for the exact balance
  (`TraceRing.RacedReadAccounted` gives the exact error otherwise).
- **No ring faults** for no-lost-wakeup and for losing no head. A fault is an event or a host's
  verdict. A chain that cannot be followed ends the drain with its head; a failed used-ring push
  loses its head silently and the drain goes on. Which heads come back is exact in both cases
  (`EngineQueue.ReturnedExactly`, `EngineQueue.NothingLostExactly`), and so is giving a queue up (the
  `gaveUp` clause of `Transport.NoLostWakeup`).
- **`iova + len` does not wrap 64 bits** (`Device.ReachExactly`); the model keeps the wrap.

Two findings about the code itself. A control-channel probe that fails after publishing the
channel drops it without draining. That is harmless exactly when nothing listed was sent on it
(`CtrlTransaction.FailedProbeExactly`); otherwise the request stays unclaimed and its caller blocked
for as long as no later channel opens (`CtrlTransaction.StrandedForGood`), and a run gets there
(`CtrlTransaction.StrandingArises`). And a window read of zero bytes at the very end of memory is
answered -EIO, although the range check lets it through (`Window.UndisturbedExactly`); the driver's one
caller returns before it for such an offset (`module/src/window.c:18-19`), so this is unreachable today.

## Model

| member | source | states |
|---|---|---|
| `Allocator.FreeIsExact` | qemu-device/velocitor.c:617-620 | STAT's free figure of each node is its capacity less everything handed out there, in every state of a session: the unsigned subtraction never underflows |
| `Allocator.RefusedOnlyWhenFull` | qemu-device/velocitor.c:1221-1298 | an admissible ALLOC is granted if and only if a handle is left and some node it allows has the room after rounding up to 256 |
| `Allocator.AllocExactly` | qemu-device/velocitor.c:1250-1314 | for every request: -22 exactly for a node that does not exist, size 0 or more than 256 MiB; -12 exactly for an injection, which it spends, no handle left of 1024, or no room on any node it allows; otherwise the lowest node that has the room serves it |
| `Allocator.AllocKeepsInv` | qemu-device/velocitor.c:1250-1314 | ALLOC keeps the session invariant: all blocks ever handed out, live or freed, are 256-aligned, inside their node, pairwise disjoint; each bump pointer is the node base plus the sizes there; `live_handles` counts the live entries; handles run 1, 2, 3... |
| `Allocator.BlocksApart` | qemu-device/velocitor.c:1300-1305 | what that invariant says of any two blocks, in numbers: 256-aligned, node 0 between 16 and 128 MiB, node 1 between 128 and 256 MiB, never overlapping |
| `Allocator.GrantGrows` | qemu-device/velocitor.c:1300-1313 | a granted request appends exactly one block at the bump pointer, under the next handle, with no wrap-around anywhere |
| `Allocator.FreeKeepsInv` | qemu-device/velocitor.c:1324-1339 | FREE keeps the same invariant, freed blocks included |
| `Allocator.FreeRevokes` | qemu-device/velocitor.c:1336-1338 | FREE of a live handle turns off that entry and nothing else, and the live count does not underflow |
| `Device.StepKeepsInv` | qemu-device/velocitor.c:860-897 | every step of the device (allocations, copies, log lines, aperture writes, RESET, boot, injected faults) keeps the session invariant and leaves the trace ring inside the aperture |
| `Device.ServeActs` | qemu-device/velocitor.c:1895-1992 | a copy that reached the bus was for a live handle of the current generation, stayed inside that block and above the aperture, changed no byte outside the named slice and returned exactly that slice |
| `Device.ServeFrame` | qemu-device/velocitor.c:2066-2093 | a data-plane request changes device memory and nothing else |
| `Device.ServeExactly` | qemu-device/velocitor.c:1895-1992 | what every data request comes to, byte for byte: the errno, the charge of 100 cycles, or 400 and one far access; a copy in leaves what the bus brought at the front of the slice (all of it on success, as much as came on failure) and every other byte of memory as it was; a copy out returns the slice and changes nothing |
| `Device.ReachExactly` | qemu-device/velocitor.c:1383-1392 | the 42-bit check decides as the unbounded sum would, except exactly for sums that wrap 64 bits and land low |
| `Device.TraceStaysBelow` | qemu-device/velocitor.c:708-757 | a log line never touches the heap |
| `Device.TraceStaysInRing` | qemu-device/velocitor.c:668-673 | a log line changes only bytes of the trace ring if and only if the ring's address is a multiple of 4; otherwise the head counter is stored partly below it |
| `DeviceModel.VelocitorState.constructor` | qemu-device/velocitor.c:2919-2960 | power-on: held in reset, an empty session, generation 0 |
| `DeviceModel.VelocitorState.AllocReset` | qemu-device/velocitor.c:631-641 | the loops leave exactly a fresh session |
| `DeviceModel.VelocitorState.AllocPickNode` | qemu-device/velocitor.c:1221-1240 | the loop finds the node the specification picks: the one named, or the first with room |
| `DeviceModel.VelocitorState.AllocBlock` | qemu-device/velocitor.c:1250-1314 | updating the fields in place is the ALLOC step, answer included |
| `DeviceModel.VelocitorState.FreeBlock` | qemu-device/velocitor.c:1324-1339 | updating the table in place is the FREE step, error included |
| `DeviceModel.VelocitorState.StatFill` | qemu-device/velocitor.c:1348-1360 | the loop fills in exactly the STAT answer and changes nothing |
| `DeviceModel.VelocitorState.DataCopy` | qemu-device/velocitor.c:1941-1992 | a copy in place (handle, bounds, charge, bus, in this order; the bus's own bytes stored into the block) is the specified copy, partial failure included |
| `DeviceModel.VelocitorState.Serve` | qemu-device/velocitor.c:2066-2093 | one engine request in place (generation first, then op, then length) is the data step |
| `DeviceModel.VelocitorState.Trace` | qemu-device/velocitor.c:708-757 | three stores (entry, loss count, head) are the log step |
| `DeviceModel.VelocitorState.FwVerify` | qemu-device/velocitor.c:802-858 | the header check in place leaves the status, ABI, trace ring and boot timer as specified |
| `DeviceModel.VelocitorState.ResetWrite` | qemu-device/velocitor.c:860-897 | a write of RESET in place: asserting it logs a line, then is the reset step, and purges the queues; releasing it is the release step and leaves them alone |
| `DeviceModel.VelocitorState.BootDone` | qemu-device/velocitor.c:769-791 | the boot timer's callback in place is the boot step (next generation, fresh session, entry size published) followed by the first line of the new log |
| `DeviceModel.VelocitorState.ErrInject` | qemu-device/velocitor.c:2731-2754 | a write of ERR_INJECT in place: what is armed is what was written; with the crash bit a line is logged, the boot cancelled and the queues purged |
| `Store.RunRefines` | qemu-device/velocitor.c:1250-1339 | for every run of every kind of step, the device's answers are those of a map from live handles to private byte arrays, and its memory holds that map: a copy in puts the bus's bytes at the front of [offset, offset+len) of the named array and changes no other, a copy out returns exactly that slice |
| `Store.WrittenIsRead` | qemu-device/velocitor.c:1941-1992 | what was copied in is what is copied out: between a successful copy in and a later copy out of any part of that range, whatever happens short of a boot, a free of the array or a copy into the range, the second succeeds exactly when its generation, length, reach and bus allow it, and then returns the very bytes the host sent |
| `Store.StepRefines` | qemu-device/velocitor.c:2003-2114 | one step of the device is one step of that map with the same answer |
| `Store.LiveHandlesExact` | qemu-device/velocitor.c:1306-1337 | `live_handles` is the number of arrays in the map |
| `Store.StoredObjects` | qemu-device/velocitor.c:1983-1991 | a store inside one block changes that array accordingly and every other array not at all |
| `Store.ServeRefines` | qemu-device/velocitor.c:1895-1992 | one data-plane request is the same request on the map |
| `Sessions.LifeStepExactly` | qemu-device/velocitor.c:883-896 | the life-cycle invariant (boot pending iff VERIFIED; VERIFIED and RUNNING mean a header accepted at the last release; GENERATION counts boots) survives a step if and only if the step is not a second release, with a boot pending, on a header that is no longer good |
| `Sessions.LifeCycle` | qemu-device/velocitor.c:769-897 | with alternating RESET writes the life-cycle invariant holds in every run, crashes included |
| `Sessions.OnlyBootsCount` | qemu-device/velocitor.c:769-775 | GENERATION changes, and RUNNING is entered, exactly when a pending boot completes, and always with an empty session |
| `Sessions.DoubleReleaseRunsRejected` | qemu-device/velocitor.c:883-896 | why RESET must alternate: release, overwrite the header, release again, and rejected firmware runs |
| `Sessions.NamesRun` | qemu-device/velocitor.c:1300-1313 | over every run, the names of the current session are its handle table in order, and all others belong to earlier boots |
| `Sessions.NamesUnique` | qemu-device/velocitor.c:631-641 | over fewer than 2^32 boots {generation, handle} names at most one allocation |
| `Sessions.NoAba` | qemu-device/velocitor.c:2066-2084 | a request carrying such a pair is refused or acts inside that very allocation, never on a later one at the same index or offset |
| `Sessions.NameReuse` | qemu-device/velocitor.c:774 | the bound on boots is tight: 2^32 boots later a pair names a second allocation |
| `FreeRunning.CollisionlessExactly` | qemu-device/velocitor.c:1533 | n consecutive positions of a free-running counter of modulus m occupy n different slots if and only if n divides m |
| `SplitRing.StepRefines` | qemu-device/velocitor.c:1518-1543 | each memory access of either side is the corresponding step of a FIFO, with the same outcome |
| `SplitRing.RunRefines` | qemu-device/velocitor.c:1602-1633 | every interleaving of both sides' accesses is a run of the FIFO with the same outcomes, across any number of wraps of the 16-bit indices |
| `SplitRing.ExactlyOnce` | qemu-device/velocitor.c:1524-1541 | the device consumes exactly a prefix of what was published, the host reclaims exactly a prefix of what was returned |
| `SplitRing.EngineRuns` | qemu-device/velocitor.c:1518-1633 | the engine's program (pop, write the used element of the head in hand, announce it, or let it go) keeps the device's half of the ring protocol in every run, whatever the host publishes and reclaims in between, so such a run is a run of the FIFO |
| `SplitRing.RingIsFifo` | qemu-device/velocitor.c:1501-1633 | for a freshly activated ring whose size divides 65536, assuming only the host's limit and the engine's program: heads are consumed exactly once and in order, elements collected exactly once and in order, never more than `num` outstanding; the k-th element returned is for the k-th head announced, at increasing positions; popped heads are announced, dropped or in hand; with none dropped the k-th element is for the k-th head published |
| `SplitRing.ReturnsAllExactly` | qemu-device/velocitor.c:1602-1633 | with nothing in hand, every head taken has come back if and only if none was dropped |
| `SplitRing.QueueSizeExactly` | qemu-device/velocitor.c:2287-2293 | of the sizes 1..256 the device accepts, a queue behaves as a FIFO if and only if its size divides 65536 |
| `SplitRing.BadRun` | qemu-device/velocitor.c:2287-2293 | for any other accepted size, a run that delivers a wrong head |
| `EngineQueue.LostExactly` | qemu-device/velocitor.c:2030-2083 | serving a head ends the drain without it if and only if its chain cannot be followed: a descriptor out of range or unreadable, or, for a well-formed chain, a request that cannot be read or a response that cannot be written |
| `EngineQueue.HandledExactly` | qemu-device/velocitor.c:2030-2113 | every head is one of three: a read-then-write chain with a request of 16 to 96 bytes and at least 24 bytes of response, both reachable, is served, logged and answered with 24 bytes, its own number and the data plane's verdict on the bytes read; any other readable chain goes back empty with nothing done; any other head is lost |
| `EngineQueue.ReturnedExactly` | qemu-device/velocitor.c:2003-2114 | which heads a drain hands back, exactly: those of the turns, up to the first chain that cannot be followed, whose used-ring push goes through; in the order published; it stops early if and only if there is such a chain, and never for a failed push |
| `EngineQueue.NothingLostExactly` | qemu-device/velocitor.c:2003-2114 | a drain hands back every head it takes if and only if every chain can be followed and every push goes through |
| `EngineQueue.AnsweredInOrder` | qemu-device/velocitor.c:2003-2114 | when every chain is well made and reachable, a drain answers each head once, in order, where its response belongs, with its own number and the verdict in the state its predecessors left |
| `EngineQueue.HandleRefines` | qemu-device/velocitor.c:2030-2113 | one head against the device is one head against the map of arrays |
| `EngineQueue.ServingRefines` | qemu-device/velocitor.c:2003-2114 | a drain is the requests of the heads it takes applied to the map one after the other, answered in order with their own sequence numbers, under whatever host memory each turn finds |
| `EngineQueue.Queue.constructor` | qemu-device/velocitor.c:2273-2326 | an activated queue represents the empty FIFO, and the engine holds nothing |
| `EngineQueue.Queue.PopHead` | qemu-device/velocitor.c:1518-1543 | with the index and slot readable, popping in place is the FIFO's pop and the engine's; otherwise nothing moves |
| `EngineQueue.Queue.Push` | qemu-device/velocitor.c:1602-1633 | element first, then index, and what each of the three silent failures leaves: nothing at all, or an element nobody announced, the head still in hand |
| `EngineQueue.Queue.ServeHead` | qemu-device/velocitor.c:2030-2113 | one head, its branches in the source's order, is the specified step |
| `EngineQueue.Execute` | qemu-device/velocitor.c:2057-2110 | serving, answering and logging one request in place is the specified step |
| `EngineQueue.Queue.Drain` | qemu-device/velocitor.c:2003-2114 | the loop ends, with device, replies and used ring exactly as serving the heads taken, in order, leaves them, while the host publishes, collects and changes its memory between turns; it ends only when nothing is left, the ring cannot be read, or a chain cannot be followed; the engine's account of announced, dropped and held heads is kept across drains |
| `QueueWindow.DoorbellExactly` | qemu-device/velocitor.c:2339-2367 | a doorbell marks the first queue of that notifyid if it is enabled, and otherwise nothing |
| `QueueWindow.PurgeExactly` | qemu-device/velocitor.c:2245-2261 | a purge disables every queue, forgets every position and every mark, stops the timer and keeps the notifyids |
| `QueueWindow.EnableKeepsInv` | qemu-device/velocitor.c:2273-2326 | enabling takes effect only on a complete description, at position 0, and marks the queue |
| `QueueWindow.QueueRegs.constructor` | qemu-device/velocitor.c:2929-2940 | the register window after a device reset: nothing enabled, every register zero, no notifyid |
| `QueueWindow.QueueRegs.Ring` | qemu-device/velocitor.c:2339-2367 | the search loop routes as specified |
| `QueueWindow.QueueRegs.Purge` | qemu-device/velocitor.c:2245-2261 | the loop purges as specified |
| `QueueWindow.QueueRegs.Enable` | qemu-device/velocitor.c:2273-2326 | the checks, in order, decide as specified |
| `Transport.StepKeepsInv` | qemu-device/velocitor.c:2126-2261 | every step of host, device and driver keeps the transport invariant |
| `Transport.NoLostWakeup` | qemu-device/velocitor.c:2211-2230 | in every run: the mask is non-empty iff the timer is pending, and queue 1, 2 or 3, enabled and rung after its last publish, is marked, being swept, or has `last_avail == avail.idx`, unless a fault made a pass give it up |
| `Transport.NoFaultNoLoss` | qemu-device/velocitor.c:2211-2230 | only a fault in its own turn gives a queue up, so in every run without faults queue 1, 2 or 3, enabled and rung after its last publish, is marked, being swept or caught up |
| `Transport.NoStaleHeads` | module/src/remoteproc.c:67-138 | in every run: a disabled queue has `last_avail` 0, every activation finds all indices 0, and the next head an enabled queue delivers is the next one published since its ring was cleared |
| `Transport.ActivationIsFresh` | module/src/vring.c:57-76 | activation commits a ring representing the empty FIFO |
| `Transport.ClearWithoutStop` | module/src/vring.c:101-109 | clearing the rings under a device that was not purged is clean if and only if it had not moved; otherwise it consumes a head nobody published |
| `Transport.Restart` | module/src/vring.c:92-109 | stop, clear, publish, release and the activation loop, from any state a crash left: if the boot, ABI and table checks pass, all four queues are enabled over zeroed rings and marked, programmed with 256 descriptors, the available ring at 4096, the used ring at 8192 and vector q + 1, and a doorbell of the table's q-th name routes to queue q; if any fails, that errno comes back, the driver has stopped again and no queue is enabled |
| `Transport.CaughtUp` | qemu-device/velocitor.c:1524-1531 | the 16-bit index comparison says "empty" exactly when everything published was taken |
| `Transport.TurnProgress` | qemu-device/velocitor.c:2218-2230 | against memory that holds still each turn brings (uint16)(avail.idx - last_avail) down or moves to the next queue |
| `Transport.Pass` | qemu-device/velocitor.c:2126-2230 | a service pass over memory that holds still ends, with queues 1, 2 and 3 caught up if they were enabled and marked, and queue 0 as it was |
| `Transport.LentStays` | qemu-device/velocitor.c:2156-2166 | no turn of a pass takes a buffer the host lent on queue 0 |
| `Transport.RingAndServe` | qemu-device/velocitor.c:2211-2230 | one doorbell is enough: everything published on queue 1, 2 or 3 when it rings has been taken when the pass it causes is over |
| `CtrlTransaction.StepExactly` | module/src/ctrl-transaction.c:56-180 | of everything any thread can do, a step keeps the ownership accounting if and only if it is neither a claim landing between alloc and send's kref_get, nor an allocation with an op send does not know or a sequence number a caller still holds |
| `CtrlTransaction.TakeExactly` | module/src/ctrl-transaction.c:61-79 | taking the entry out moves the table's reference to the taker, exactly when there is one |
| `CtrlTransaction.NoTouchAfterFree` | module/src/ctrl-transaction.c:51-91 | no step touches a freed transaction |
| `CtrlTransaction.ClaimedOnce` | module/src/ctrl.c:150-163 | a transaction has at most one claimer, whichever of reply, cancel and drain got there |
| `CtrlTransaction.ExactlyOnce` | module/src/ctrl-transaction.c:182-195 | freed once, when caller and claimer are both through; notified once before that; a wait returns the reply's status, or -116 after a drain |
| `CtrlTransaction.OwnedThroughout` | module/src/ctrl-transaction.c:56-180 | in every interleaving the refcount is the caller's unreleased reference plus the table's or claimer's |
| `CtrlTransaction.WaiterTold` | module/src/ctrl.c:103-209 | in every run a waiter is told exactly the status of a reply that came for its number, or -116 when a drain took its entry, and there is no third way; a failed send's own cancel leaves -125 |
| `CtrlTransaction.NobodyStuck` | module/src/ctrl-transaction.c:56-195 | a caller can always take its next step unless it waits for a claim to be announced or its own cancel to finish, and a claimer can always go on until it has let go |
| `CtrlTransaction.DrainSettles` | module/src/ctrl.c:103-135 | when remove sees an empty table everything sent on a closed channel has been claimed |
| `CtrlTransaction.NoWaiterStranded` | module/src/ctrl.c:103-135 | once a remove has seen the table empty, everything ever sent on a channel closed by then is claimed in every continuation; a claimer that is through has woken its caller, one that is not can go on |
| `CtrlTransaction.SendAfterClose` | module/src/ctrl-transaction.c:162-180 | a send without a channel gets -ENODEV and goes on to its cancel; no send returns an error unclaimed |
| `CtrlTransaction.FailedProbeExactly` | module/src/ctrl.c:73-101 | a probe that fails after publishing the channel leaves everything sent on it claimed if and only if no listed transaction was sent on it, which the probe could check under the table's lock |
| `CtrlTransaction.EarlyClaimFrees` | module/src/ctrl-transaction.c:115-160 | why no claim may come before kref_get: from any state, a claim before kref_get frees the transaction its caller still holds |
| `CtrlTransaction.UnknownOpDangles` | module/src/ctrl-transaction.c:142-157 | an op send does not know leaves a freed transaction in the table once its caller releases it |
| `CtrlTransaction.ReusedSeqMisclaims` | module/src/ctrl-transaction.c:69-71 | a sequence number reused too early lets one caller's cancel take another's entry |
| `CtrlTransaction.FailedProbeStrands` | module/src/ctrl.c:73-101 | if one was, and its caller waits, the failed probe leaves it with no channel, no drain and no driver data through which a reply could claim it |
| `CtrlTransaction.StrandedForGood` | module/src/ctrl.c:103-163 | in every continuation without a later channel that request stays unclaimed and its caller unwoken, whatever replies, cancels or drains do |
| `CtrlTransaction.StrandingArises` | module/src/ctrl.c:73-101 | a run from the initial state reaches it: channel up, one request sent, the probe fails |
| `Ctrl.SettleSteps` | module/src/ctrl-transaction.c:65-79 | claim, status, notify, release: the claimer's whole operation is those four atomic steps |
| `Ctrl.ControlBlock.Allocate` | module/src/ctrl-transaction.c:93-130 | allocation in place is the allocation step |
| `Ctrl.ControlBlock.Callback` | module/src/ctrl.c:150-163 | a reply after the driver data is gone, or of an unknown sequence number, changes nothing; a known one is claimed and finished |
| `Ctrl.ControlBlock.CancelTx` | module/src/ctrl-transaction.c:61-79 | cancel finishes the transaction, with -125, only if it was the one to remove it |
| `Ctrl.ControlBlock.Send` | module/src/ctrl-transaction.c:132-180 | an unknown op is refused with -EINVAL before anything is taken; otherwise send leaves the transaction listed with two references, or claimed, woken with -ECANCELED and back to one |
| `Ctrl.ControlBlock.Remove` | module/src/ctrl.c:103-135 | the loop ends with an empty table; exactly what it found is finished, each with status -116 and one wake-up, everything else untouched, the channel settled |
| `Cdev.FateTold` | module/src/ctrl-transaction.c:132-195 | the fates the calls distinguish are those of the transaction machine: in every run a caller that has been told met exactly one of them, and was told the reply's status, the send's error or -116 |
| `ControlPlane.StatusExactly` | module/src/ctrl.c:174-176 | every errno survives the wire, and only the word that encodes one is taken for it |
| `ControlPlane.RequestRoundTrip` | module/src/ctrl.h:18-76 | the request the driver builds is the one the device acts on |
| `ControlPlane.RequestLayout` | module/src/ctrl.h:18-66 | the driver's request bytes, offset by offset: lengths, op numbers, 64-bit size in two words, zeroes elsewhere |
| `ControlPlane.ReplyRoundTrip` | module/src/ctrl.c:140-209 | the driver's decoder recovers exactly the status and payload the device put in, and the sequence number that finds the transaction |
| `ControlPlane.ReplyLayout` | qemu-device/velocitor.c:1727-1828 | the device's reply bytes, offset by offset, for every kind of answer |
| `ControlPlane.DecodeExactly` | module/src/ctrl.c:140-209 | what the driver makes of any message at all: dropped when shorter than a header, -121 for a foreign op or a status that is no errno, -71 for a short payload, and an answer exactly with status 0 |
| `ControlPlane.CallExactly` | qemu-device/velocitor.c:1727-1828 | end to end: a transaction ends with the device's own verdict on that very request, errno or answer |
| `ControlPlane.MalformedExactly` | qemu-device/velocitor.c:1770-1820 | -ENOSYS for exactly the ops that do not exist, -EINVAL for truncated ALLOC and FREE, state unchanged |
| `Rpmsg.AnsweredExactly` | qemu-device/velocitor.c:1644-1683 | over transmit buffers the device can read, every request is answered if and only if the receive queue is enabled and the k-th lent buffer takes the k-th answer (fetched, large enough, writable, pushed back); applied in order whether or not, and the answers then are those of the calls one by one |
| `Rpmsg.InOrderExactlyOnce` | qemu-device/velocitor.c:1831-1870 | with enough buffers of 72 bytes and no faults: every request applied and answered once, in order; every buffer back in order |
| `Rpmsg.FrameReceived` | qemu-device/velocitor.c:1666-1682 | read by the receiver's own rule, the length in a frame's header gives exactly the payload; it comes from address 1024 and goes to the requester |
| `Rpmsg.AnswersBelong` | qemu-device/velocitor.c:1744-1747 | the k-th message goes from 1024 to the k-th requester, is as long as its header says, and its payload carries that request's seq and op and decodes to the verdict in the state its predecessors left |
| `Rpmsg.NextExactly` | qemu-device/velocitor.c:1831-1870 | what the drain makes of the next buffer, by its length and its header's: stopped at if up to 512 bytes cannot be read, handed back unanswered unless at least 16 bytes of message lie in it, otherwise exactly those bytes are served |
| `Rpmsg.Answer` | qemu-device/velocitor.c:1744-1821 | serving one message on the device's own fields is the specified step |
| `Rpmsg.Recv` | qemu-device/velocitor.c:1727-1828 | serving one message in place and logging it is the specified step |
| `Rpmsg.RpmsgDrain` | qemu-device/velocitor.c:1831-1870 | the loop does exactly what the recursive specification says: unreadable rings and buffers, malformed messages and failed pushes included |
| `HandleTable.StepExactly` | module/src/handles.c:45-112 | of boot, regenerate, channel, alloc, insert, erase and free events, only sending a FREE whose number is not spent breaks the agreement invariant |
| `HandleTable.AgreementThroughout` | module/src/cdev.c:126-199 | across any number of crashes and recoveries in which every FREE sent is for a spent number: while the driver's generation is the device's every entry names a live block, same node and offset, no larger than the block; all entries carry the table's generation |
| `HandleTable.SendExactly` | module/src/cdev.c:178-191 | sending a FREE keeps the invariant if and only if its number is spent: given out in this boot already, not in the driver's table, in no reply on its way to it |
| `HandleTable.SameGenerationSuffices` | module/src/cdev.c:178-191 | a FREE whose handle was erased under the generation the table is of now is for a spent number, and one sent on the channel it was erased under is such a FREE |
| `HandleTable.InsertNeverBusy` | module/src/handles.c:62-95 | an insert answers 0 if the generations match and -ESTALE otherwise: -EBUSY is unreachable |
| `HandleTable.InsertEraseRoundTrip` | module/src/handles.c:62-112 | erase undoes insert and insert undoes erase, whatever else the table holds; each answers 0 exactly when it changes the table, and both keep its entries of one generation |
| `HandleTable.FreeExactly` | module/src/cdev.c:178-191 | a FREE served by the device keeps the agreement if and only if its number is not one the driver currently holds |
| `HandleTable.LateFreeBreaks` | module/src/cdev.c:178-191 | the missing check: a handle erased before a recovery can be freed after it, and then the driver holds a dead block |
| `HandleTable.LateFreeArises` | module/src/cdev.c:178-191 | a run of two boots that reaches a late free |
| `HandleTable.Handles.Regenerate` | module/src/handles.c:45-60 | the loop empties the table for a new generation and keeps it for the same one |
| `Cdev.Call` | module/src/ctrl-transaction.c:132-195 | send and wait: an answered waiter gets the device's verdict on the very request; an unsent transaction its error, with the device untouched; one whose channel went away -ESTALE, whether or not the device had served it |
| `Cdev.IoctlAlloc` | module/src/cdev.c:126-168 | a granted block enters both tables, a refused one neither; one whose reply is stale, abandoned or finds no memory for its entry stays with the device alone; a failing copy to the caller undoes nothing; agreement is kept through all of it and -EBUSY never returned |
| `Cdev.IoctlFree` | module/src/cdev.c:170-199 | erase first, then FREE: an unsent or abandoned FREE leaves the entry gone and at most the block behind; agreement is kept, and on agreeing tables an answered free of the current generation succeeds iff the table held the handle |
| `Cdev.IoctlStats` | module/src/cdev.c:96-124 | live handles and each node's capacity and exact free bytes, or the failure of send, wait or copy; nothing changed |
| `TraceMemory.TraceIsAppend` | qemu-device/velocitor.c:708-757 | one log line in device memory, byte for byte, is one append to the ring of 511 entries |
| `TraceMemory.LogLands` | qemu-device/velocitor.c:708-757 | where a log line lands, in bytes: entry at 16 + 128 (head mod 511), counters at 0, 4 and 8 moved as the ring requires, every other entry untouched |
| `TraceRing.AppendHolds` | qemu-device/velocitor.c:720-756 | below the wrap the ring holds the newest 511 entries, each in its slot |
| `TraceRing.AppendAccounted` | qemu-device/velocitor.c:739-744 | an append is counted as lost exactly when it takes the slot of an unread entry |
| `TraceRing.ReadIsExact` | module/src/device-trace.c:86-125 | a read returns exactly the last min(head - tail, 511) entries, in order and correctly numbered, and keeps the books |
| `TraceRing.LossConserved` | module/src/device-trace.c:86-125 | over every run of fewer than 2^32 appends with atomic reads: dropped is the sum of skipped plus what is now unread beyond 511, and no entry is delivered twice or out of order |
| `TraceRing.SharedRing.Open` | module/src/device-trace.c:71-130 | the read, with appends arriving before the loss counter is read, between any two entries and before the tail is written: each entry is what its slot held at its turn, k arrivals leave the newest min(count, 511 - k) copied entries correct, and a read nothing raced with is the exact one |
| `TraceRing.RaceTight` | module/src/device-trace.c:86-125 | that bound is tight: when k lines come before the first copy, exactly the newest 511 - k copied entries are right and every older one is wrong |
| `TraceRing.SurvivesExactly` | qemu-device/velocitor.c:739-756 | an entry survives the arrivals if and only if it is among the newest 511 |
| `TraceRing.RacedReadAccounted` | module/src/device-trace.c:86-125 | after a raced read the device has over-counted by exactly the surplus; the books balance iff nothing raced or the ring had room |
| `TraceRing.WrapLosesSilently` | qemu-device/velocitor.c:720-744 | past the 2^32 wrap an append can overwrite an unread entry without counting it |
| `TraceRing.WrapClashes` | qemu-device/velocitor.c:720 | because 511 does not divide 2^32, positions less than a ring apart share a slot |
| `Window.SeekExactly` | qemu-device/velocitor.c:400-434 | a seek reads back what was written iff the write was neither ignored nor refused, or was not needed |
| `Window.Card.SeekTo` | module/src/window.c:50-56 | seek in place is the specified step |
| `Window.Card.Read` | module/src/window.c:58-94 | -EINVAL iff the range leaves memory; 0 iff every window on the way was confirmed, and then dst is exactly mem[offset, offset+size), however often the injection is armed; nothing beyond size is written; the loop ends |
| `Window.UndisturbedExactly` | module/src/window.c:66-73 | with nothing injected a read in range succeeds iff it starts below the end: a read of nothing at the very end is -EIO |
| `Window.IgnoredOnce` | qemu-device/velocitor.c:413-422 | one injection fails a read that has to move the window, and is spent by it |
| `ResourceTable.ScanVdevs` | qemu-device/velocitor.c:1000-1062 | on any table at all the device's loop assigns the first four notifyids found before the first word it cannot read, and none to the rest |
| `ResourceTable.WalkRscTable` | module/src/remoteproc.c:45-65 | the driver's loop answers -EIO without a cached table, 0 iff the table has exactly four vrings and -EINVAL otherwise, and assigns the first four in order |
| `ResourceTable.WalksAgree` | qemu-device/velocitor.c:1000-1062 | on a table whose entries lie inside it, the checked 32-bit walk finds exactly what the driver's structures name |
| `ResourceTable.SameVector` | qemu-device/velocitor.c:1000-1062 | any such table of exactly four vrings, among whatever other entries, gives both sides the same vector |
| `FirmwareImage.Put32` | firmware/mkfw.c:88-94 | four stores, low byte first |
| `FirmwareImage.EmitVring` | firmware/mkfw.c:102-110 | the emitter writes exactly the vring's 20 bytes |
| `FirmwareImage.EmitVdev` | firmware/mkfw.c:117-133 | the emitter writes exactly the vdev entry's 68 bytes, its two rings included |
| `FirmwareImage.EmitHeap` | firmware/mkfw.c:142-153 | the emitter writes exactly the heap carveout's 56 bytes, the name over the zeroes included |
| `FirmwareImage.EmitTable` | firmware/mkfw.c:175-198 | the three entries and the header make the 220-byte table, and nothing else of the image changes |
| `FirmwareImage.TableWord` | firmware/mkfw.c:102-198 | the emitted table word for word: version, offsets, the heap carveout, two vdevs of two rings aligned to 4096 with 256 entries each |
| `FirmwareImage.EmitParseAgree` | firmware/mkfw.c:175-198 | for the emitted table with any four notifyids filled in, both walks give vdev v, ring r to queue 2v + r |
| `SlotPool.StepKeepsInv` | module/src/data-transaction.c:8-38 | begin, kick, completion and withdrawal keep the pool's invariant |
| `SlotPool.RoomForTwo` | module/src/data.c:33-40 | a transaction being kicked always finds two free descriptors of the 256 |
| `SlotPool.PoolConserved` | module/src/data.c:47-76 | in every run: each transaction is in exactly one slot or finished exactly once; at most 128 are about; a kick fails only for a reason of the virtqueue's own; beginning fails iff all 128 are in use |
| `SlotPool.DataQueue.constructor` | module/src/data.c:78-103 | the initialisation loop leaves an empty pool |
| `SlotPool.DataQueue.TransactionInit` | module/src/data-transaction.c:21-38 | allocation in place gives the lowest free slot, stamped with the next number of the wrapping 32-bit sequence counter |
| `SlotPool.DataQueue.TransactionReset` | module/src/data-transaction.c:8-19 | reset clears the slot and frees it once |
| `SlotPool.DataQueue.TransactionKick` | module/src/data.c:26-45 | a refused kick frees the slot at once and passes the virtqueue's error on; for want of descriptors it is never refused |
| `SlotPool.DataQueue.Callback` | module/src/data-virtio.c:12-21 | the loop finishes exactly the used buffers, in order, each shown to the completion hook with its own number and status |
| `SlotPool.DataQueue.Remove` | module/src/data-virtio.c:52-68 | the loop withdraws everything on the queue, each shown to the completion hook once with -116, and nothing that is still being built |
| `Submission.AcceptedExactly` | module/src/data.c:47-76 | while the tables agree, a copy the driver accepts reaches the bus on the entry's own block unless it is empty; once the generation moved on it is always -ESTALE |
| `Submission.AcceptedLands` | module/src/data.c:47-76 | an accepted copy moves the host's bytes to, or the block's bytes from, exactly `offset` of the block the entry describes, and touches nothing else |
| `Submission.SubmittedServed` | module/src/data.c:26-76 | the chain the driver lends (48 bytes of request, 24 of response) is always served, as the very request the driver built, and never taken for malformed |
| `DataWire.RequestRoundTrip` | qemu-device/velocitor_wire.h:45-59 | where the driver puts each field of a data request, and that the engine reads it back |
| `Submission.Copy` | module/src/data.c:47-76 | checks, slot and kick in the driver's order, the virtqueue's error passed on; every failure leaves no slot taken |

## Left out

- PCI and QOM plumbing, MSI-X tables, BAR registration, migration, QEMU logging: library work around the contract.
- debugfs and sysfs formatting, tracepoints, devm cleanup, the `runtime/` library and `devtools/`: I/O or thin wrappers.
- The Linux virtio, remoteproc and rpmsg cores: environment steps with a stated contract.
- Bring-up DMA and direct writes through the second half of BAR2: they bypass the allocator, so the refinement excludes them.
- The error block, interrupt status, the 64-bit byte counters and the other event counters: they record what happened and decide nothing.
- GEMM, negotiated features, notification coalescing and the remaining ERR_INJECT bits: not implemented by the device.
- The name service announcement and the ELF header of the firmware image: constant stores.
- Identity and reference counts of handle-table entries: the table is a map of values; nothing outside it holds an entry.
- Reuse of freed transaction memory: a transaction keeps its identity for ever, so a touch after free stays visible.
- The log line's text and time stamp: 128 arbitrary bytes.
- Faults while a ring's index or slot is read, in `Transport`: a fault gives the queue up there; which access failed decides only in `EngineQueue` and `Rpmsg`.
- Partial writes: a store into host memory that fails is taken to have written nothing, in a push as in a response.
- Transport.Restart: the driver's ring memory and the register file are values of the state here (the registers in place are `QueueWindow.QueueRegs`), and which of the boot, ABI and table checks failed is one `verdict`.
- Ctrl.ControlBlock.Send: runs uninterrupted; interleavings inside it are the business of `CtrlTransaction`, of whose atomic steps it is made.
- DeviceModel.VelocitorState.ResetWrite: the RSC_VALID flag, which the same write clears, is not a field here; it decides only log lines and the reading of negotiated features.
- QueueWindow.QueueRegs.Enable: the log line an enabled queue writes is a `Device.Log` step of its own.
- DeviceModel.VelocitorState.ErrInject: of the word only the crash and fail-alloc bits; the bit that ignores a window write is `Window`'s.
- EngineQueue.Queue.Drain: a host act falls between two turns, not inside one; access by access, anywhere, is `SplitRing.RingIsFifo`.
- Rpmsg.RpmsgDrain: the two queues are the lists of buffers they hold; that a ring delivers exactly those, in order, is `SplitRing.RingIsFifo`.
- Cdev.IoctlAlloc: the table's own insert running out of memory, after its generation check, is not told apart from no memory for the entry.
- ResourceTable.WalkRscTable: a table whose entries run past its bytes is excluded; the driver does not check, the remoteproc core has.
- TraceRing.SharedRing.Open: a failing allocation or `single_open`, which leave the ring alone, are not modelled.
- Window.Card.Read: device memory is taken to hold still for the length of one read.
- EngineQueue.Execute: a response is its fields (address, number, status, cycles, far accesses, engine), not its 24 bytes; the driver does not read them yet.
