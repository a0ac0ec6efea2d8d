/** From the driver's checks to the device's: what becomes of a copy submitted for an
    entry of the handle table. */
module Submission {
  import opened Hardware
  import Allocator
  import Device
  import DataWire
  import EngineQueue
  import HandleTable
  import SlotPool

  /** The driver's own checks, before it takes a slot. */
  predicate Accepts(engine: nat, op: u16, entry: HandleTable.Entry, offset: u64, len: u64) {
    && engine < 2 && (op == 1 || op == 2)
    && offset + len < TWO64 && offset + len <= entry.size
  }

  /** The request it then builds in the slot. */
  function Request(seqNo: u32, op: u16, handle: u32, entry: HandleTable.Entry, offset: u64, addr: u64, len: u64): Device.DataReq {
    Device.DataReq(seqNo, entry.generation, op, Device.REQ_HDR_SIZE + Device.COPY_HDR_SIZE,
                   Device.CopyHdr(handle, offset, addr, len))
  }

  /** While the tables agree, a copy the driver accepts reaches the bus, on the very block
      the entry describes, unless it is empty, which only the device refuses; once the
      generation has moved on, it is always stale. */
  lemma AcceptedExactly(s: Device.State, engine: nat, seqNo: u32, op: u16, handle: u32, entry: HandleTable.Entry,
                        offset: u64, addr: u64, len: u64, dma: Device.Dma)
    requires Device.Inv(s) && Accepts(engine, op, entry, offset, len)
    requires entry.generation == s.generation ==> HandleTable.Names(s.heap, handle, entry)
    ensures var answer := Device.Serve(s, engine, Request(seqNo, op, handle, entry, offset, addr, len), dma).1;
            && (answer.status == -116 <==> entry.generation != s.generation)
            && (Device.Admitted(answer) <==> entry.generation == s.generation && len > 0)
            && (answer.status == 0 <==>
                  entry.generation == s.generation && len > 0 && Device.WithinReach(addr, len) && dma.ok)
            && (entry.generation == s.generation && len == 0 ==> answer.status == -22)
  {
    hide Allocator.HeapInv;
  }

  /** The chain the driver lends for it: its transaction's 48 bytes of request, then its 24
      of response. */
  predicate Lends(h: EngineQueue.Host, num: nat, head: nat, req: Device.DataReq)
    requires EngineQueue.Shaped(h, num)
  {
    && EngineQueue.Reads(h, num, head)
    && var first := h.desc[head];
    && first.next && !first.write && first.len == 48 && EngineQueue.Reads(h, num, first.nextIdx)
    && var second := h.desc[first.nextIdx];
    && second.write && second.len == 24 && second.addr in h.writable
    && first.addr in h.requests && |h.requests[first.addr]| >= 48 && h.requests[first.addr][..48] == DataWire.Encode(req)
  }

  /** A submitted copy is always served, as the very request the driver built, whatever
      becomes of it; and it is never taken for malformed. */
  lemma SubmittedServed(s: Device.State, h: EngineQueue.Host, num: nat, engine: nat, head: nat,
                        seqNo: u32, op: u16, handle: u32, entry: HandleTable.Entry, offset: u64, addr: u64, len: u64)
    requires Device.Inv(s) && EngineQueue.Shaped(h, num)
    requires Lends(h, num, head, Request(seqNo, op, handle, entry, offset, addr, len))
    ensures var (s', v) := EngineQueue.Handle(s, h, num, engine, head);
            var (dev, answer) := Device.Serve(s, engine, Request(seqNo, op, handle, entry, offset, addr, len), h.dma);
            && s' == dev.(mem := Device.Trace(dev.mem, dev.traceDa, h.line))
            && v == EngineQueue.Done(24, Some(EngineQueue.Reply(h.desc[h.desc[head].nextIdx].addr, seqNo, answer, engine)))
  {
    hide Device.Serve, Device.Trace, DataWire.Parse, DataWire.Encode, EngineQueue.Handle;
    EngineQueue.HandledExactly(s, h, num, engine, head);
    DataWire.RequestRoundTrip(Request(seqNo, op, handle, entry, offset, addr, len));
  }

  /** Where an accepted copy lands while the tables agree: the host's bytes at `offset` of
      the block the entry describes, or the block's bytes from there back to the host, and
      nothing else of the block or beyond it touched. */
  lemma AcceptedLands(s: Device.State, engine: nat, seqNo: u32, op: u16, handle: u32, entry: HandleTable.Entry,
                      offset: u64, addr: u64, len: u64, dma: Device.Dma)
    requires Device.Inv(s) && Accepts(engine, op, entry, offset, len) && entry.generation == s.generation
    requires HandleTable.Names(s.heap, handle, entry) && |dma.bytes| == len
    ensures var (s', answer) := Device.Serve(s, engine, Request(seqNo, op, handle, entry, offset, addr, len), dma);
            var lo := entry.offset + offset;
            && lo + len <= MEM_SIZE && lo + len <= entry.offset + entry.size
            && (answer.status == 0 && op == 1 ==> s'.mem == s.mem[..lo] + dma.bytes + s.mem[lo + len..])
            && (answer.status == 0 && op == 2 ==> s'.mem == s.mem && answer.toHost == Some(s.mem[lo..lo + len]))
            && (answer.status == 0 ==> answer.cycles == if entry.node == engine then 100 else 400)
  {
    hide Allocator.HeapInv, Device.Serve;
    var req := Request(seqNo, op, handle, entry, offset, addr, len);
    Placement(s, handle);
    Device.ServeExactly(s, engine, req, dma);
    var s', lo := Device.Serve(s, engine, req, dma).0, entry.offset + offset;
    if Device.Serve(s, engine, req, dma).1.status == 0 {
      assert len > 0 && lo + len <= MEM_SIZE;
      SamePointwise(s'.mem, if op == 1 then s.mem[..lo] + dma.bytes + s.mem[lo + len..] else s.mem);
    }
  }

  lemma SamePointwise<T>(a: seq<T>, b: seq<T>)
    requires |a| == |b| && forall i :: 0 <= i < |a| ==> a[i] == b[i]
    ensures a == b
  {
  }

  lemma Placement(s: Device.State, handle: u32)
    requires Device.Inv(s) && Allocator.Live(s.heap, handle)
    ensures Allocator.Placed(s.heap.blocks[handle - 1], s.heap.bump)
    ensures s.heap.bump[s.heap.blocks[handle - 1].node] <= MEM_SIZE
  {
  }

  /** Checks, slot, kick: a submission fails for its arguments, for want of a slot, or for a
      reason of the virtqueue's own, passed on as `refusal`, and then leaves no slot taken. */
  method Copy(queue: SlotPool.DataQueue, engine: nat, op: u16, entry: HandleTable.Entry,
              offset: u64, len: u64, refusal: int)
    returns (err: int)
    requires queue.Valid()
    modifies queue, queue.slotIdx, queue.header, queue.status
    ensures queue.Valid()
    ensures !Accepts(engine, op, entry, offset, len) ==> err == -22 && queue.Pool() == old(queue.Pool())
    ensures Accepts(engine, op, entry, offset, len) ==>
              var slot := SlotPool.Lowest(old(queue.Pool()), 0);
              if slot.None? then err == -28 && queue.Pool() == old(queue.Pool())
              else
                && err == refusal
                && SlotPool.Possible(SlotPool.Step(old(queue.Pool()), SlotPool.Begin), SlotPool.Kick(slot.value, refusal != OK))
                && queue.Pool() == SlotPool.Step(SlotPool.Step(old(queue.Pool()), SlotPool.Begin), SlotPool.Kick(slot.value, refusal != OK))
  {
    hide SlotPool.Inv, SlotPool.Finish, SlotPool.Lowest;
    if engine >= ENGINES || (op != Device.COPY_H2D && op != Device.COPY_D2H) {
      return EINVAL;
    }
    if offset + len >= TWO64 || offset + len > entry.size {
      return EINVAL;
    }
    var slot := queue.TransactionInit();
    if slot.None? {
      return ENOSPC;
    }
    err := queue.TransactionKick(slot.value, refusal);
  }
}
