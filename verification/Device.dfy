/** The device model: device-local memory, the allocator session in it, the
    firmware life cycle that starts a session, and the data-plane copies. */
module Device {
  import opened Hardware
  import opened Allocator
  import TraceRing

  datatype FwStatus = InReset | Verified | Running | Crashed

  datatype State = State(
    mem: seq<byte>, heap: Heap, generation: u32,
    inReset: bool, status: FwStatus, fwAbi: u32, traceDa: u32, traceLen: u32,
    bootPending: bool)

  /** What the bus did with one transfer: whether it succeeded, and the bytes it
      brought, all of them on success and possibly fewer on failure. */
  datatype Dma = Dma(ok: bool, bytes: seq<byte>)

  datatype CopyHdr = CopyHdr(handle: u32, offset: u64, addr: u64, len: u64)

  datatype DataReq = DataReq(seqNo: u32, generation: u32, op: u16, len: nat, copy: CopyHdr)

  datatype DataAnswer = DataAnswer(status: int, cycles: nat, far: nat, toHost: Option<seq<byte>>)

  const COPY_H2D: u16 := 1
  const COPY_D2H: u16 := 2
  const REQ_HDR_SIZE: nat := 16
  const COPY_HDR_SIZE: nat := 32

  predicate Shaped(s: State) {
    && |s.mem| == MEM_SIZE && HeapShaped(s.heap)
    && s.traceDa + TRACE_SIZE <= APERTURE_SIZE
  }

  ghost predicate Inv(s: State) {
    Shaped(s) && HeapInv(s.heap)
  }

  // ---- words in device memory ----

  /** Word accesses ignore the low two address bits. */
  function WordAddr(off: nat): nat {
    off / 4 * 4
  }

  function Read32(mem: seq<byte>, off: nat): u32
    requires off + 4 <= |mem|
  {
    Word(mem[WordAddr(off)..WordAddr(off) + 4])
  }

  function Write32(mem: seq<byte>, off: nat, v: u32): (r: seq<byte>)
    requires off + 4 <= |mem|
    ensures |r| == |mem|
  {
    Splice(mem, WordAddr(off), Bytes32(v))
  }

  function EntryAddr(da: nat, slot: nat): nat {
    da + TRACE_HDR_SIZE + slot * TRACE_ENTRY
  }

  /** One line of the firmware's log, as it lands in memory. */
  function Trace(mem: seq<byte>, da: u32, entry: seq<byte>): (r: seq<byte>)
    requires |mem| == MEM_SIZE && da + TRACE_SIZE <= APERTURE_SIZE && |entry| == TRACE_ENTRY
    ensures |r| == MEM_SIZE
  {
    if da == 0 then mem
    else
      var head, tail := Read32(mem, da), Read32(mem, da + 4);
      var m1 := Splice(mem, EntryAddr(da, head % TRACE_ENTRIES), entry);
      var m2 := if TraceRing.Sub32(head, tail) >= TRACE_ENTRIES
                then Write32(m1, da + 8, TraceRing.Next32(Read32(m1, da + 8))) else m1;
      Write32(m2, da, TraceRing.Next32(head))
  }

  // ---- life cycle ----

  /** The firmware header at device address 0 is one this device will boot. */
  predicate HeaderAccepted(mem: seq<byte>)
    requires |mem| == MEM_SIZE
  {
    && Read32(mem, 0) == FW_MAGIC && Read32(mem, 4) == FW_ABI
    && Read32(mem, 12) == TRACE_SIZE && Read32(mem, 8) + TRACE_SIZE <= APERTURE_SIZE
  }

  function FwVerify(s: State): (s': State)
    requires Shaped(s)
    ensures Shaped(s')
  {
    if !HeaderAccepted(s.mem) then s.(status := InReset, fwAbi := 0)
    else s.(status := Verified, fwAbi := FW_ABI, traceDa := Read32(s.mem, 8), traceLen := TRACE_SIZE, bootPending := true)
  }

  function ResetWrite(s: State, assertIt: bool): (s': State)
    requires Shaped(s)
    ensures Shaped(s')
  {
    if assertIt then
      s.(inReset := true, bootPending := false, status := InReset, fwAbi := 0, traceDa := 0, traceLen := 0)
    else FwVerify(s.(inReset := false))
  }

  /** The boot timer's callback: a new generation and a fresh session. */
  function BootDone(s: State): (s': State)
    requires Shaped(s)
    ensures Shaped(s')
  {
    if !s.bootPending then s
    else s.(bootPending := false, status := Running, generation := (s.generation + 1) % TWO32,
            heap := NewSession(s.heap.failArmed),
            mem := Write32(s.mem, s.traceDa + 12, TRACE_ENTRY))
  }

  function Crash(s: State): (s': State)
    requires Shaped(s)
    ensures Shaped(s')
  {
    s.(bootPending := false, status := Crashed)
  }

  // ---- data plane ----

  /** The width trap every host access goes through; the sum is 64-bit. */
  predicate WithinReach(addr: u64, len: u64) {
    (if addr + len >= TWO64 then addr + len - TWO64 else addr + len) <= TWO42
  }

  /** The width trap means what it says except for sums that wrap 64 bits and land low. */
  lemma ReachExactly(addr: u64, len: u64)
    ensures (WithinReach(addr, len) <==> addr + len <= 0x400_0000_0000)
            <==> !(0x1_0000_0000_0000_0000 <= addr + len <= 0x1_0000_0400_0000_0000)
  {
  }

  /** As much of it as there is room for. */
  function Brought(dma: Dma, len: nat): (r: seq<byte>)
    ensures |r| <= len
  {
    dma.bytes[..Min(|dma.bytes|, len)]
  }

  function Charge(engine: nat, node: nat): (nat, nat) {
    if node == engine then (CYCLES_COPY, 0) else (CYCLES_COPY * FAR_PENALTY, 1)
  }

  function DataCopy(s: State, engine: nat, op: u16, hdr: CopyHdr, dma: Dma): (r: (State, DataAnswer))
    requires Inv(s)
    ensures Shaped(r.0)
  {
    if !Live(s.heap, hdr.handle) then (s, DataAnswer(EINVAL, 0, 0, None))
    else
      var block := s.heap.blocks[hdr.handle - 1];
      if hdr.offset + hdr.len >= TWO64 || hdr.offset + hdr.len > block.size then (s, DataAnswer(EINVAL, 0, 0, None))
      else if hdr.len == 0 then (s, DataAnswer(EINVAL, 0, 0, None))
      else
        assert Placed(block, s.heap.bump);
        Transfer(s, op, block.offset + hdr.offset, hdr, Charge(engine, block.node), dma)
  }

  /** The access itself, at device address `at`, after the operation was charged. */
  function Transfer(s: State, op: u16, at: nat, hdr: CopyHdr, charge: (nat, nat), dma: Dma): (r: (State, DataAnswer))
    requires Shaped(s) && at + hdr.len <= MEM_SIZE
    ensures Shaped(r.0)
  {
    if !WithinReach(hdr.addr, hdr.len) then (s, DataAnswer(EIO, charge.0, charge.1, None))
    else if op == COPY_H2D then
      (s.(mem := Splice(s.mem, at, Brought(dma, hdr.len))),
       DataAnswer(if dma.ok then OK else EIO, charge.0, charge.1, None))
    else
      (s, if dma.ok then DataAnswer(OK, charge.0, charge.1, Some(s.mem[at..at + hdr.len]))
          else DataAnswer(EIO, charge.0, charge.1, None))
  }

  /** One request of an engine queue, whose buffer of `len` bytes starts with it. */
  function Serve(s: State, engine: nat, req: DataReq, dma: Dma): (r: (State, DataAnswer))
    requires Inv(s)
    ensures Shaped(r.0)
  {
    if req.generation != s.generation then (s, DataAnswer(ESTALE, 0, 0, None))
    else if req.op != COPY_H2D && req.op != COPY_D2H then (s, DataAnswer(ENOSYS, 0, 0, None))
    else if req.len < REQ_HDR_SIZE + COPY_HDR_SIZE then (s, DataAnswer(EINVAL, 0, 0, None))
    else DataCopy(s, engine, req.op, req.copy, dma)
  }

  /** A request changes memory and nothing else. */
  lemma ServeFrame(s: State, engine: nat, req: DataReq, dma: Dma)
    requires Inv(s)
    ensures Serve(s, engine, req, dma).0 == s.(mem := Serve(s, engine, req, dma).0.mem)
  {
  }

  /** A request that got as far as the bus was for a live handle, stayed inside its block
      and above the aperture, and touched no more than the slice it named. */
  lemma ServeActs(s: State, engine: nat, req: DataReq, dma: Dma)
    requires Inv(s) && Admitted(Serve(s, engine, req, dma).1)
    ensures var h := req.copy.handle;
            && req.generation == s.generation && Live(s.heap, h)
            && var b := s.heap.blocks[h - 1];
            var lo, hi := b.offset + req.copy.offset, b.offset + req.copy.offset + req.copy.len;
            var (s', answer) := Serve(s, engine, req, dma);
            && APERTURE_SIZE <= lo && hi <= b.offset + b.size <= MEM_SIZE
            && s'.mem[..lo] == s.mem[..lo] && s'.mem[hi..] == s.mem[hi..]
            && (answer.toHost.Some? ==> answer.toHost.value == s.mem[lo..hi])
  {
    var h := req.copy.handle;
    assert Placed(s.heap.blocks[h - 1], s.heap.bump);
    var at := s.heap.blocks[h - 1].offset + req.copy.offset;
    var data := Brought(dma, req.copy.len);
    SpliceElsewhere(s.mem, at, data, 0, at);
    SpliceElsewhere(s.mem, at, data, at + req.copy.len, MEM_SIZE);
  }

  /** Why a request is turned away before it costs anything, first reason first; 0 if it is
      not. */
  function Turned(s: State, req: DataReq): int
    requires Inv(s)
  {
    var c := req.copy;
    if req.generation != s.generation then -116
    else if req.op != 1 && req.op != 2 then -38
    else if req.len < 48 || c.len == 0 then -22
    else if c.handle == 0 || c.handle >= s.heap.nextHandle || !s.heap.blocks[c.handle - 1].live then -22
    else if c.offset + c.len > s.heap.blocks[c.handle - 1].size then -22
    else 0
  }

  /** What a request comes to, byte for byte.  Turned away, it changes nothing and costs
      nothing.  Otherwise it is charged 100 cycles, or 400 and one far access when the block
      is on the node its engine is far from, and goes to the bus unless its range ends
      beyond 2^42.  A copy in leaves what the bus brought at the front of the slice, all of
      it on success, and everything else as it was; a copy out leaves memory alone and
      returns the slice on success. */
  lemma ServeExactly(s: State, engine: nat, req: DataReq, dma: Dma)
    requires Inv(s)
    ensures var (s', answer) := Serve(s, engine, req, dma);
            && (Turned(s, req) != 0 ==> s' == s && answer == DataAnswer(Turned(s, req), 0, 0, None))
            && (Turned(s, req) == 0 ==>
                  && Live(s.heap, req.copy.handle)
                  && var b := s.heap.blocks[req.copy.handle - 1];
                  var lo, len := b.offset + req.copy.offset, req.copy.len;
                  && lo + len <= MEM_SIZE
                  && (answer.cycles, answer.far) == (if b.node == engine then (100, 0) else (400, 1))
                  && answer.status == (if !WithinReach(req.copy.addr, len) || !dma.ok then -5 else 0)
                  && answer.toHost == (if req.op == 2 && answer.status == 0 then Some(s.mem[lo..lo + len]) else None)
                  && forall i: nat :: i < MEM_SIZE ==>
                       s'.mem[i] == if req.op == 1 && WithinReach(req.copy.addr, len) && lo <= i < lo + len && i - lo < |dma.bytes|
                                    then dma.bytes[i - lo] else s.mem[i])
  {
    var h := req.copy.handle;
    if Live(s.heap, h) {
      assert Placed(s.heap.blocks[h - 1], s.heap.bump);
    }
  }

  /** A data request reached device memory, or tried to. */
  predicate Admitted(answer: DataAnswer) {
    answer.status == OK || answer.status == EIO
  }

  // ---- everything that can happen ----

  datatype Event =
    | Alloc(size: u64, want: u32)
    | Free(handle: u32)
    | Query
    | Data(engine: nat, req: DataReq, dma: Dma)
    | Log(entry: seq<byte>)                  // any line the device logs
    | Aperture(at: nat, bytes: seq<byte>)    // firmware load, trace tail: BAR2's fixed half
    | Reset(assertIt: bool)
    | BootTimer
    | Inject(crash: bool, failAlloc: bool)   // a write of ERR_INJECT: its bits 2 and 5

  datatype Answer = Quiet | Allocated(alloc: AllocAnswer) | Freed(err: int) | Stats(stat: StatAnswer) | Served(data: DataAnswer)

  /** The driver reaches device memory through the fixed aperture only. */
  predicate Possible(e: Event) {
    && (e.Log? ==> |e.entry| == TRACE_ENTRY)
    && (e.Aperture? ==> e.at + |e.bytes| <= APERTURE_SIZE)
  }

  function Step(s: State, e: Event): (r: (State, Answer))
    requires Inv(s) && Possible(e)
    ensures Shaped(r.0)
  {
    match e
    case Alloc(size, want) =>
      var (heap, answer) := AllocBlock(s.heap, s.generation, size, want);
      (s.(heap := heap), Allocated(answer))
    case Free(handle) =>
      var (heap, err) := FreeBlock(s.heap, handle);
      (s.(heap := heap), Freed(err))
    case Query => (s, Stats(Stat(s.heap)))
    case Data(engine, req, dma) =>
      var (s', answer) := Serve(s, engine, req, dma);
      (s', Served(answer))
    case Log(entry) => (s.(mem := Trace(s.mem, s.traceDa, entry)), Quiet)
    case Aperture(at, bytes) => (s.(mem := Splice(s.mem, at, bytes)), Quiet)
    case Reset(assertIt) => (ResetWrite(s, assertIt), Quiet)
    case BootTimer => (BootDone(s), Quiet)
    case Inject(crash, failAlloc) =>
      var armed := s.(heap := s.heap.(failArmed := failAlloc));
      (if crash then Crash(armed) else armed, Quiet)
  }

  lemma ArmedInv(h: Heap, armed: bool)
    requires HeapInv(h)
    ensures HeapInv(h.(failArmed := armed))
  {
    var h' := h.(failArmed := armed);
    assert Issued(h') == Issued(h);
  }

  /** Every reachable state is well-formed: the session invariant holds and the trace
      ring lies in the aperture. */
  lemma {:induction false} StepKeepsInv(s: State, e: Event)
    requires Inv(s) && Possible(e)
    ensures Inv(Step(s, e).0)
  {
    match e
    case Alloc(size, want) => AllocKeepsInv(s.heap, s.generation, size, want);
    case Free(handle) => FreeKeepsInv(s.heap, handle);
    case BootTimer => NewSessionInv(s.heap.failArmed);
    case Inject(_, failAlloc) => ArmedInv(s.heap, failAlloc);
    case _ =>
  }

  /** The header a release accepts: magic "VTFO", ABI 1, a ring of 64 KiB inside the first
      16 MiB; then VERIFIED with the boot timer running, and otherwise back to reset. */
  lemma ReleaseExactly(s: State)
    requires Inv(s)
    ensures var s' := ResetWrite(s, false);
            var good := At(s.mem, 0) == 0x4F46_5456 && At(s.mem, 4) == 1 && At(s.mem, 12) == 0x1_0000
                        && At(s.mem, 8) + 0x1_0000 <= 0x100_0000;
            && s'.mem == s.mem && s'.heap == s.heap && s'.generation == s.generation && !s'.inReset
            && (good ==> s'.status.Verified? && s'.bootPending && s'.fwAbi == 1 && s'.traceDa == At(s.mem, 8) && s'.traceLen == 0x1_0000)
            && (!good ==> s'.status.InReset? && s'.bootPending == s.bootPending && s'.fwAbi == 0 && s'.traceDa == s.traceDa)
  {
    hide Word;
  }

  /** Asserting it stops whatever was running and forgets the ring, and nothing else. */
  lemma ResetExactly(s: State)
    requires Inv(s)
    ensures ResetWrite(s, true) == s.(inReset := true, status := InReset, bootPending := false, fwAbi := 0, traceDa := 0, traceLen := 0)
  {
  }

  /** A boot: the next generation, an empty session, RUNNING, and the entry size, 128, where
      the driver looks for it. */
  lemma BootExactly(s: State)
    requires Inv(s) && s.bootPending && s.traceDa % 4 == 0
    ensures var s' := BootDone(s);
            && s'.status.Running? && !s'.bootPending && s'.heap == NewSession(s.heap.failArmed)
            && s'.generation == (if s.generation == 0xFFFF_FFFF then 0 else s.generation + 1)
            && At(s'.mem, s.traceDa + 12) == 128
            && s'.mem[..s.traceDa + 12] == s.mem[..s.traceDa + 12] && s'.mem[s.traceDa + 16..] == s.mem[s.traceDa + 16..]
  {
    WordRoundTrip(TRACE_ENTRY);
    hide Word, Bytes32;
    assert WordAddr(s.traceDa + 12) == s.traceDa + 12;
    SpliceElsewhere(s.mem, s.traceDa + 12, Bytes32(TRACE_ENTRY), 0, s.traceDa + 12);
    SpliceElsewhere(s.mem, s.traceDa + 12, Bytes32(TRACE_ENTRY), s.traceDa + 16, MEM_SIZE);
  }

  // ---- where each kind of write can land ----

  /** Logging touches nothing above the aperture. */
  lemma TraceStaysBelow(mem: seq<byte>, da: u32, entry: seq<byte>)
    requires |mem| == MEM_SIZE && da + TRACE_SIZE <= APERTURE_SIZE && |entry| == TRACE_ENTRY
    ensures Trace(mem, da, entry)[APERTURE_SIZE..] == mem[APERTURE_SIZE..]
  {
    if da != 0 {
      var head, tail := Read32(mem, da), Read32(mem, da + 4);
      var m1 := Splice(mem, EntryAddr(da, head % TRACE_ENTRIES), entry);
      SpliceElsewhere(mem, EntryAddr(da, head % TRACE_ENTRIES), entry, APERTURE_SIZE, MEM_SIZE);
      var v := TraceRing.Next32(Read32(m1, da + 8));
      SpliceElsewhere(m1, WordAddr(da + 8), Bytes32(v), APERTURE_SIZE, MEM_SIZE);
      var m2 := if TraceRing.Sub32(head, tail) >= TRACE_ENTRIES then Write32(m1, da + 8, v) else m1;
      SpliceElsewhere(m2, WordAddr(da), Bytes32(TraceRing.Next32(head)), APERTURE_SIZE, MEM_SIZE);
    }
  }

  predicate InRing(da: nat, i: nat) {
    da <= i < da + TRACE_SIZE
  }

  lemma TraceAligned(mem: seq<byte>, da: u32, entry: seq<byte>, i: nat)
    requires |mem| == MEM_SIZE && 0 < da && da % 4 == 0 && da + TRACE_SIZE <= APERTURE_SIZE && |entry| == TRACE_ENTRY
    requires i < MEM_SIZE && !InRing(da, i)
    ensures Trace(mem, da, entry)[i] == mem[i]
  {
    hide Word, Bytes32, Splice, TraceRing.Sub32, TraceRing.Next32;
    assert WordAddr(da) == da && WordAddr(da + 8) == da + 8;
  }

  lemma TraceUnaligned(mem: seq<byte>, da: u32, entry: seq<byte>)
    requires |mem| == MEM_SIZE && 0 < da && da % 4 != 0 && da + TRACE_SIZE <= APERTURE_SIZE && |entry| == TRACE_ENTRY
    ensures WordAddr(da) < da && Trace(mem, da, entry)[WordAddr(da)] != mem[WordAddr(da)]
  {
    hide Word, Bytes32, Splice, TraceRing.Sub32, TraceRing.Next32;
    var head, tail := Read32(mem, da), Read32(mem, da + 4);
    var m1 := Splice(mem, EntryAddr(da, head % TRACE_ENTRIES), entry);
    var m2 := if TraceRing.Sub32(head, tail) >= TRACE_ENTRIES
              then Write32(m1, da + 8, TraceRing.Next32(Read32(m1, da + 8))) else m1;
    var low := WordAddr(da);
    assert low < da && m2[low] == mem[low];
    LowByteMoves(mem[low..low + 4]);
    assert Trace(mem, da, entry)[low] == Bytes32(TraceRing.Next32(head))[0];
  }

  /** Logging changes only bytes of the ring exactly when the ring is word-aligned:
      otherwise the head counter is stored partly below it. */
  lemma TraceStaysInRing(mem: seq<byte>, da: u32, entry: seq<byte>)
    requires |mem| == MEM_SIZE && 0 < da && da + TRACE_SIZE <= APERTURE_SIZE && |entry| == TRACE_ENTRY
    ensures (forall i: nat :: i < MEM_SIZE && !InRing(da, i) ==> Trace(mem, da, entry)[i] == mem[i]) <==> da % 4 == 0
  {
    hide Trace;
    if da % 4 == 0 {
      forall i: nat | i < MEM_SIZE && !InRing(da, i)
        ensures Trace(mem, da, entry)[i] == mem[i]
      {
        TraceAligned(mem, da, entry, i);
      }
    } else {
      TraceUnaligned(mem, da, entry);
    }
  }

  lemma LowByteMoves(b: seq<byte>)
    requires |b| == 4
    ensures Bytes32(TraceRing.Next32(Word(b)))[0] != b[0]
  {
    assert Word(b) % 0x100 == b[0] as nat;
  }
}
