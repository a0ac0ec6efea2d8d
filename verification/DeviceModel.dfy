/** The device model as QEMU runs it: one object whose callbacks update its fields and
    device memory in place.  Each method is proved equal to its step of `Device`. */
module DeviceModel {
  import opened Hardware
  import opened Allocator
  import D = Device
  import Q = QueueWindow
  import TraceRing

  class VelocitorState {
    const mem: array<byte>
    const nodeBump: array<u64>
    const alloc: array<Block>
    var nextHandle: u32
    var liveHandles: u32
    var failArmed: bool
    var generation: u32
    var inReset: bool
    var status: D.FwStatus
    var fwAbi: u32
    var traceDa: u32
    var traceLen: u32
    var bootPending: bool

    ghost predicate Valid()
      reads this, mem, nodeBump, alloc
    {
      && mem.Length == MEM_SIZE && nodeBump.Length == NODES && alloc.Length == MAX_HANDLES
      && D.Inv(State())
    }

    function Heap(): Heap
      reads this, nodeBump, alloc
    {
      Allocator.Heap(nodeBump[..], nextHandle, liveHandles, alloc[..], failArmed)
    }

    function State(): D.State
      reads this, mem, nodeBump, alloc
    {
      D.State(mem[..], Heap(), generation, inReset, status, fwAbi, traceDa, traceLen, bootPending)
    }

    /** Power-on: held in reset, nothing loaded, no generation yet. */
    constructor (pattern: array<byte>)
      requires pattern.Length == MEM_SIZE
      ensures Valid() && mem == pattern && fresh(nodeBump) && fresh(alloc)
      ensures State() == D.State(old(pattern[..]), NewSession(false), 0, true, D.InReset, 0, 0, 0, false)
    {
      mem := pattern;
      nodeBump := new u64[NODES];
      alloc := new Block[MAX_HANDLES](_ => NoBlock);
      nextHandle, liveHandles, failArmed := 1, 0, false;
      generation, inReset, status, fwAbi, traceDa, traceLen, bootPending := 0, true, D.InReset, 0, 0, 0, false;
      new;
      AllocReset();
      NewSessionInv(false);
    }

    /** Back to a fresh session. */
    method AllocReset()
      requires nodeBump.Length == NODES && alloc.Length == MAX_HANDLES
      modifies this`nextHandle, this`liveHandles, nodeBump, alloc
      ensures Heap() == NewSession(failArmed)
    {
      var n := 0;
      while n < NODES
        invariant 0 <= n <= NODES
        invariant forall k :: 0 <= k < n ==> nodeBump[k] == NodeBase(k)
      {
        nodeBump[n] := NodeBase(n);
        n := n + 1;
      }
      nextHandle, liveHandles := 1, 0;
      forall i | 0 <= i < alloc.Length {
        alloc[i] := NoBlock;
      }
      assert nodeBump[..] == [NODE0_BASE, NODE1_BASE];
      assert alloc[..] == seq(MAX_HANDLES, _ => NoBlock);
    }

    /** The first node that can hold the block, when any will do. */
    method AllocPickNode(want: u32, size: nat) returns (node: Option<nat>)
      requires Valid() && (want < NODES || want == NODE_ANY)
      ensures node == PickNode(Heap(), want, size)
    {
      if want != NODE_ANY {
        return if NodeFree(Heap(), want) >= size then Some(want) else None;
      }
      var n := 0;
      while n < NODES
        invariant 0 <= n <= NODES
        invariant forall k :: 0 <= k < n ==> NodeFree(Heap(), k) < size
      {
        if NodeFree(Heap(), n) >= size {
          return Some(n);
        }
        n := n + 1;
      }
      return None;
    }

    method AllocBlock(size: u64, want: u32) returns (answer: AllocAnswer)
      requires Valid()
      modifies this`nextHandle, this`liveHandles, this`failArmed, nodeBump, alloc
      ensures Valid()
      ensures (State(), D.Allocated(answer)) == D.Step(old(State()), D.Alloc(size, want))
    {
      hide HeapInv, RoundUp, NodeFree;
      D.StepKeepsInv(State(), D.Alloc(size, want));
      if want != NODE_ANY && want >= NODES {
        return Refused(EINVAL);
      }
      if size == 0 || size > MEM_SIZE {
        return Refused(EINVAL);
      }
      if failArmed {
        failArmed := false;
        return Refused(ENOMEM);
      }
      var node := AllocPickNode(want, RoundUp(size));
      if nextHandle > MAX_HANDLES || node.None? {
        return Refused(ENOMEM);
      }
      RoundUpBounds(size);
      var handle := nextHandle;
      nextHandle := nextHandle + 1;
      alloc[handle - 1] := Block(nodeBump[node.value], RoundUp(size), node.value, true);
      nodeBump[node.value] := Add64(nodeBump[node.value], RoundUp(size));
      liveHandles := if liveHandles + 1 == TWO32 then 0 else liveHandles + 1;
      answer := Granted(handle, node.value, generation, alloc[handle - 1].offset);
    }

    method FreeBlock(handle: u32) returns (err: int)
      requires Valid()
      modifies this`liveHandles, alloc
      ensures Valid()
      ensures (State(), D.Freed(err)) == D.Step(old(State()), D.Free(handle))
    {
      D.StepKeepsInv(State(), D.Free(handle));
      if handle == 0 || handle >= nextHandle || !alloc[handle - 1].live {
        return EINVAL;
      }
      alloc[handle - 1] := alloc[handle - 1].(live := false);
      liveHandles := if liveHandles == 0 then TWO32 - 1 else liveHandles - 1;
      return OK;
    }

    method StatFill() returns (stat: StatAnswer)
      requires Valid()
      ensures (State(), D.Stats(stat)) == D.Step(State(), D.Query)
    {
      var capacity: seq<u64>, free: seq<u64> := [], [];
      var n := 0;
      while n < NODES
        invariant 0 <= n <= NODES && |capacity| == |free| == n
        invariant forall k :: 0 <= k < n ==> capacity[k] == NodeEnd(k) - NodeBase(k) && free[k] == NodeFree(Heap(), k)
      {
        capacity, free := capacity + [NodeEnd(n) - NodeBase(n)], free + [NodeFree(Heap(), n)];
        n := n + 1;
      }
      stat := StatAnswer(capacity, free, liveHandles);
      assert stat == Stat(Heap());
    }

    /** memcpy into device memory. */
    method Store(at: nat, data: seq<byte>)
      requires at + |data| <= mem.Length
      modifies mem
      ensures mem[..] == Splice(old(mem[..]), at, data)
    {
      forall i | 0 <= i < |data| {
        mem[at + i] := data[i];
      }
      assert forall i :: 0 <= i < mem.Length ==> mem[..][i] == Splice(old(mem[..]), at, data)[i];
    }

    method MemWrite32(off: nat, v: u32)
      requires off + 4 <= mem.Length
      modifies mem
      ensures mem[..] == D.Write32(old(mem[..]), off, v)
    {
      Store(D.WordAddr(off), Bytes32(v));
    }

    /** One copy between host memory and a block. */
    method DataCopy(engine: nat, op: u16, hdr: D.CopyHdr, dma: D.Dma) returns (answer: D.DataAnswer)
      requires Valid()
      modifies mem
      ensures (State(), answer) == D.DataCopy(old(State()), engine, op, hdr, dma)
    {
      if hdr.handle == 0 || hdr.handle >= nextHandle || !alloc[hdr.handle - 1].live {
        return D.DataAnswer(EINVAL, 0, 0, None);
      }
      var block := alloc[hdr.handle - 1];
      if hdr.offset + hdr.len >= TWO64 || hdr.offset + hdr.len > block.size {
        return D.DataAnswer(EINVAL, 0, 0, None);
      }
      if hdr.len == 0 {
        return D.DataAnswer(EINVAL, 0, 0, None);
      }
      var charge := D.Charge(engine, block.node);
      assert Placed(block, Heap().bump);
      var at := block.offset + hdr.offset;
      if !D.WithinReach(hdr.addr, hdr.len) {
        return D.DataAnswer(EIO, charge.0, charge.1, None);
      }
      if op == D.COPY_H2D {
        var n := Min(|dma.bytes|, hdr.len);
        Store(at, dma.bytes[..n]);
        return D.DataAnswer(if dma.ok then OK else EIO, charge.0, charge.1, None);
      }
      if dma.ok {
        return D.DataAnswer(OK, charge.0, charge.1, Some(mem[at..at + hdr.len]));
      }
      return D.DataAnswer(EIO, charge.0, charge.1, None);
    }

    method Serve(engine: nat, req: D.DataReq, dma: D.Dma) returns (answer: D.DataAnswer)
      requires Valid()
      modifies mem
      ensures Valid()
      ensures (State(), D.Served(answer)) == D.Step(old(State()), D.Data(engine, req, dma))
    {
      hide HeapInv, D.DataCopy;
      D.StepKeepsInv(State(), D.Data(engine, req, dma));
      if req.generation != generation {
        return D.DataAnswer(ESTALE, 0, 0, None);
      }
      if req.op != D.COPY_H2D && req.op != D.COPY_D2H {
        return D.DataAnswer(ENOSYS, 0, 0, None);
      }
      if req.len < D.REQ_HDR_SIZE + D.COPY_HDR_SIZE {
        return D.DataAnswer(EINVAL, 0, 0, None);
      }
      answer := DataCopy(engine, req.op, req.copy, dma);
    }

    /** One line of the log: the entry, the loss, then the announcement. */
    method Trace(entry: seq<byte>)
      requires Valid() && |entry| == TRACE_ENTRY
      modifies mem
      ensures Valid()
      ensures State() == D.Step(old(State()), D.Log(entry)).0
    {
      hide HeapInv, Splice, Word, Bytes32, D.Read32, D.Write32, TraceRing.Sub32, TraceRing.Next32;
      D.StepKeepsInv(State(), D.Log(entry));
      if traceDa == 0 {
        return;
      }
      var head, tail := D.Read32(mem[..], traceDa), D.Read32(mem[..], traceDa + 4);
      Store(D.EntryAddr(traceDa, head % TRACE_ENTRIES), entry);
      if TraceRing.Sub32(head, tail) >= TRACE_ENTRIES {
        MemWrite32(traceDa + 8, TraceRing.Next32(D.Read32(mem[..], traceDa + 8)));
      }
      MemWrite32(traceDa, TraceRing.Next32(head));
      assert mem[..] == D.Trace(old(mem[..]), traceDa, entry);
    }

    method FwVerify()
      requires Valid()
      modifies this`status, this`fwAbi, this`traceDa, this`traceLen, this`bootPending
      ensures Valid() && State() == D.FwVerify(old(State()))
    {
      hide HeapInv, D.Read32;
      var magic, abi := D.Read32(mem[..], 0), D.Read32(mem[..], 4);
      var da, len := D.Read32(mem[..], 8), D.Read32(mem[..], 12);
      status, fwAbi := D.InReset, 0;
      if magic != FW_MAGIC || abi != FW_ABI {
        return;
      }
      if len != TRACE_SIZE || da + len > APERTURE_SIZE {
        return;
      }
      fwAbi, traceDa, traceLen, status := abi, da, len, D.Verified;
      bootPending := true;
    }

    /** A write of RESET.  Asserting it logs a line, stops the boot and forgets the queues;
        releasing it looks at the header. */
    method ResetWrite(assertIt: bool, line: seq<byte>, regs: Q.QueueRegs)
      requires Valid() && |line| == TRACE_ENTRY && regs.Valid()
      modifies this`inReset, this`status, this`fwAbi, this`traceDa, this`traceLen, this`bootPending, mem
      modifies regs`sweep, regs`timer, regs.vq
      ensures Valid() && regs.Valid()
      ensures State() == if assertIt then D.Step(D.Step(old(State()), D.Log(line)).0, D.Reset(true)).0
                         else D.Step(old(State()), D.Reset(false)).0
      ensures regs.State() == if assertIt then Q.Purged(old(regs.State())) else old(regs.State())
    {
      hide HeapInv, D.FwVerify, D.Trace;
      if assertIt {
        Trace(line);
        inReset, bootPending := true, false;
        regs.Purge();
        status, fwAbi, traceDa, traceLen := D.InReset, 0, 0, 0;
        return;
      }
      inReset := false;
      FwVerify();
    }

    /** The boot timer's callback: the boot, then the first line of the new log. */
    method BootDone(line: seq<byte>)
      requires Valid() && bootPending && |line| == TRACE_ENTRY
      modifies this`status, this`generation, this`bootPending, this`nextHandle, this`liveHandles, nodeBump, alloc, mem
      ensures Valid() && State() == D.Step(D.Step(old(State()), D.BootTimer).0, D.Log(line)).0
    {
      hide HeapInv, NewSession, Splice, D.Write32, D.Trace;
      D.StepKeepsInv(State(), D.BootTimer);
      bootPending := false;
      status := D.Running;
      generation := (generation + 1) % TWO32;
      AllocReset();
      MemWrite32(traceDa + 12, TRACE_ENTRY);
      assert State() == D.Step(old(State()), D.BootTimer).0;
      Trace(line);
    }

    /** A write of ERR_INJECT: what is armed is what was written, and bit 2 crashes. */
    method ErrInject(crash: bool, failAlloc: bool, line: seq<byte>, regs: Q.QueueRegs)
      requires Valid() && |line| == TRACE_ENTRY && regs.Valid()
      modifies this`failArmed, this`status, this`bootPending, mem
      modifies regs`sweep, regs`timer, regs.vq
      ensures Valid() && regs.Valid()
      ensures State() == if crash then D.Step(D.Step(old(State()), D.Log(line)).0, D.Inject(true, failAlloc)).0
                         else D.Step(old(State()), D.Inject(false, failAlloc)).0
      ensures regs.State() == if crash then Q.Purged(old(regs.State())) else old(regs.State())
    {
      hide HeapInv, D.Trace;
      D.ArmedInv(Heap(), failAlloc);
      failArmed := failAlloc;
      if crash {
        Trace(line);
        bootPending := false;
        regs.Purge();
        status := D.Crashed;
      }
    }
  }
}
