/** What the device's memory is for: a map from live handles to private byte arrays.

    The flat memory, bump pointers and handle table of `Device` refine this map for
    every run of allocations, frees, copies, log lines, aperture writes, resets,
    crashes and boots: same answers, and the map follows. */
module Store {
  import opened Hardware
  import opened Allocator
  import opened Device

  datatype Object = Object(node: nat, bytes: seq<byte>)

  datatype Store = Store(
    generation: u32, issued: nat, room: seq<nat>,
    objects: map<nat, Object>, failArmed: bool)

  /** What the map does not determine: the first content of a new array, and whether
      a boot was due. */
  datatype Choice = Choice(content: seq<byte>, boots: bool)

  // ---- the specification ----

  predicate Fits(a: Store, n: nat, size: nat) {
    n < |a.room| && RoundUp(size) <= a.room[n]
  }

  function Where(a: Store, size: nat, want: nat): (r: Option<nat>)
    ensures r.Some? ==> Fits(a, r.value, size)
  {
    if want != NODE_ANY then (if Fits(a, want, size) then Some(want) else None)
    else if Fits(a, 0, size) then Some(0)
    else if Fits(a, 1, size) then Some(1)
    else None
  }

  function StoreAlloc(a: Store, size: u64, want: u32, content: seq<byte>): (Store, AllocAnswer)
    requires |a.room| == NODES && a.issued <= MAX_HANDLES
    requires forall n :: 0 <= n < NODES ==> a.room[n] <= NodeEnd(n) - NodeBase(n)
  {
    if (want != NODE_ANY && want >= NODES) || size == 0 || size > MEM_SIZE then (a, Refused(EINVAL))
    else if a.failArmed then (a.(failArmed := false), Refused(ENOMEM))
    else if a.issued == MAX_HANDLES || Where(a, size, want).None? then (a, Refused(ENOMEM))
    else
      var n := Where(a, size, want).value;
      assert a.room[n] <= NodeEnd(n) - NodeBase(n);
      (Store(a.generation, a.issued + 1, a.room[n := a.room[n] - RoundUp(size)],
             a.objects[a.issued + 1 := Object(n, content)], a.failArmed),
       Granted(a.issued + 1, n, a.generation, NodeEnd(n) - a.room[n]))
  }

  function StoreFree(a: Store, handle: nat): (Store, int) {
    if handle in a.objects then (a.(objects := a.objects - {handle}), OK) else (a, EINVAL)
  }

  function StoreCopy(a: Store, engine: nat, op: u16, hdr: CopyHdr, dma: Dma): (Store, DataAnswer) {
    if hdr.handle !in a.objects then (a, DataAnswer(EINVAL, 0, 0, None))
    else
      var o := a.objects[hdr.handle];
      if hdr.len == 0 || hdr.offset + hdr.len > |o.bytes| then (a, DataAnswer(EINVAL, 0, 0, None))
      else StoreTransfer(a, op, o, hdr, Charge(engine, o.node), dma)
  }

  /** A copy in replaces the front of the named slice of the named array by what the bus
      brought; a copy out returns exactly that slice. */
  function StoreTransfer(a: Store, op: u16, o: Object, hdr: CopyHdr, charge: (nat, nat), dma: Dma): (Store, DataAnswer)
    requires hdr.offset + hdr.len <= |o.bytes|
  {
    if !WithinReach(hdr.addr, hdr.len) then (a, DataAnswer(EIO, charge.0, charge.1, None))
    else if op == COPY_H2D then
      (a.(objects := a.objects[hdr.handle := Object(o.node, Splice(o.bytes, hdr.offset, Brought(dma, hdr.len)))]),
       DataAnswer(if dma.ok then OK else EIO, charge.0, charge.1, None))
    else
      (a, if dma.ok then DataAnswer(OK, charge.0, charge.1, Some(o.bytes[hdr.offset..hdr.offset + hdr.len]))
          else DataAnswer(EIO, charge.0, charge.1, None))
  }

  function StoreServe(a: Store, engine: nat, req: DataReq, dma: Dma): (Store, DataAnswer) {
    if req.generation != a.generation then (a, DataAnswer(ESTALE, 0, 0, None))
    else if req.op != COPY_H2D && req.op != COPY_D2H then (a, DataAnswer(ENOSYS, 0, 0, None))
    else if req.len < REQ_HDR_SIZE + COPY_HDR_SIZE then (a, DataAnswer(EINVAL, 0, 0, None))
    else StoreCopy(a, engine, req.op, req.copy, dma)
  }

  predicate WellFormed(a: Store) {
    && |a.room| == NODES && a.issued <= MAX_HANDLES && |a.objects| < TWO32
    && forall n :: 0 <= n < NODES ==> a.room[n] <= NodeEnd(n) - NodeBase(n)
  }

  function StoreStep(a: Store, e: Event, c: Choice): (Store, Answer)
    requires WellFormed(a)
  {
    match e
    case Alloc(size, want) =>
      var r := StoreAlloc(a, size, want, c.content);
      (r.0, Allocated(r.1))
    case Free(handle) =>
      var r := StoreFree(a, handle);
      (r.0, Freed(r.1))
    case Query =>
      (a, Stats(StatAnswer([NodeEnd(0) - NodeBase(0), NodeEnd(1) - NodeBase(1)], [a.room[0], a.room[1]], |a.objects|)))
    case Data(engine, req, dma) =>
      var r := StoreServe(a, engine, req, dma);
      (r.0, Served(r.1))
    case BootTimer =>
      (if c.boots then
         Store((a.generation + 1) % TWO32, 0, [NODE0_END - NODE0_BASE, NODE1_END - NODE1_BASE], map[], a.failArmed)
       else a, Quiet)
    case Inject(_, failAlloc) => (a.(failArmed := failAlloc), Quiet)
    case _ => (a, Quiet)
  }

  // ---- the abstraction ----

  function Extent(s: State, h: nat): seq<byte>
    requires Inv(s) && Live(s.heap, h)
  {
    var b := s.heap.blocks[h - 1];
    assert Placed(b, s.heap.bump);
    s.mem[b.offset..b.offset + b.size]
  }

  function ObjectAt(s: State, h: nat): Object
    requires Inv(s) && Live(s.heap, h)
  {
    Object(s.heap.blocks[h - 1].node, Extent(s, h))
  }

  function Objects(s: State): (m: map<nat, Object>)
    requires Inv(s)
    ensures forall h {:trigger h in m} :: h in m <==> Live(s.heap, h)
    ensures forall h {:trigger m[h]} :: Live(s.heap, h) ==> m[h] == ObjectAt(s, h)
  {
    map h: nat | h < s.heap.nextHandle && Live(s.heap, h) :: ObjectAt(s, h)
  }

  function Abs(s: State): Store
    requires Inv(s)
  {
    Store(s.generation, s.heap.nextHandle - 1,
          [NODE0_END - s.heap.bump[0], NODE1_END - s.heap.bump[1]],
          Objects(s), s.heap.failArmed)
  }

  /** The choice a concrete step makes. */
  function Chosen(s: State, e: Event): Choice
    requires Inv(s) && Possible(e)
  {
    Choice(if e.Alloc? && AllocBlock(s.heap, s.generation, e.size, e.want).1.Granted? then
             var at := AllocBlock(s.heap, s.generation, e.size, e.want).1.offset;
             if at + RoundUp(e.size) <= MEM_SIZE then s.mem[at..at + RoundUp(e.size)] else []
           else [],
           s.bootPending)
  }

  // ---- counting ----

  function LiveSet(blocks: seq<Block>): set<nat> {
    set h: nat | h < |blocks| && blocks[h].live
  }

  lemma {:induction false} LiveSetCount(blocks: seq<Block>)
    ensures |LiveSet(blocks)| == CountLive(blocks)
  {
    if blocks != [] {
      var last := |blocks| - 1;
      LiveSetCount(blocks[..last]);
      assert LiveSet(blocks) == LiveSet(blocks[..last]) + (if blocks[last].live then {last as nat} else {});
    }
  }

  lemma {:induction false} ShiftedCard(a: set<nat>, b: set<nat>)
    requires forall h :: h in b <==> h > 0 && h - 1 in a
    ensures |a| == |b|
  {
    if a == {} {
      assert b == {};
    } else {
      var x :| x in a;
      ShiftedCard(a - {x}, b - {x + 1});
    }
  }

  /** `live_handles` is the number of live entries. */
  lemma LiveHandlesExact(s: State)
    requires Inv(s)
    ensures s.heap.liveHandles == |Objects(s)|
  {
    LiveSetCount(Issued(s.heap));
    ShiftedCard(LiveSet(Issued(s.heap)), Objects(s).Keys);
  }

  lemma AbsWellFormed(s: State)
    requires Inv(s)
    ensures WellFormed(Abs(s))
  {
    LiveHandlesExact(s);
  }

  // ---- refinement, one kind of step at a time ----

  lemma ExtentBounds(s: State, h: nat)
    requires Inv(s) && Live(s.heap, h)
    ensures var b := s.heap.blocks[h - 1];
            && APERTURE_SIZE <= b.offset && b.offset + b.size <= MEM_SIZE && 0 < b.size
            && |Extent(s, h)| == b.size
  {
    assert Placed(s.heap.blocks[h - 1], s.heap.bump);
  }

  /** Two memories that agree above the aperture hold the same objects. */
  lemma SameAbove(s: State, s': State)
    requires Inv(s) && Inv(s') && s'.heap == s.heap && s'.mem[APERTURE_SIZE..] == s.mem[APERTURE_SIZE..]
    ensures Objects(s') == Objects(s)
  {
    hide Accounted, AllDisjoint;
    forall h | Live(s.heap, h)
      ensures Extent(s', h) == Extent(s, h)
    {
      var b := s.heap.blocks[h - 1];
      ExtentBounds(s, h);
      var lo, hi := b.offset - APERTURE_SIZE, b.offset + b.size - APERTURE_SIZE;
      assert Extent(s, h) == s.mem[APERTURE_SIZE..][lo..hi];
      assert Extent(s', h) == s'.mem[APERTURE_SIZE..][lo..hi];
    }
  }

  /** One step of the device is one step of the map, with the same answer. */
  ghost predicate Refines(s: State, e: Event)
    requires Inv(s) && Possible(e)
  {
    && Inv(Step(s, e).0) && WellFormed(Abs(s))
    && StoreStep(Abs(s), e, Chosen(s, e)) == (Abs(Step(s, e).0), Step(s, e).1)
  }

  lemma WhereAgrees(s: State, size: nat, want: u32)
    requires Inv(s) && (want < NODES || want == NODE_ANY)
    ensures WellFormed(Abs(s)) && Where(Abs(s), size, want) == PickNode(s.heap, want, RoundUp(size))
  {
    AbsWellFormed(s);
    FreeIsExact(s.heap);
  }

  lemma GrantRefines(s: State, size: u64, want: u32)
    requires Inv(s) && AllocBlock(s.heap, s.generation, size, want).1.Granted?
    ensures var (heap', answer) := AllocBlock(s.heap, s.generation, size, want);
            var s' := s.(heap := heap');
            && Inv(s') && WellFormed(Abs(s)) && answer.offset + RoundUp(size) <= MEM_SIZE
            && StoreAlloc(Abs(s), size, want, s.mem[answer.offset..answer.offset + RoundUp(size)]) == (Abs(s'), answer)
  {
    hide Accounted, AllDisjoint, AllPlaced, RoundUp;
    AbsWellFormed(s);
    AllocKeepsInv(s.heap, s.generation, size, want);
    WhereAgrees(s, size, want);
    GrantGrows(s.heap, s.generation, size, want);
    var (heap', answer) := AllocBlock(s.heap, s.generation, size, want);
    var s' := s.(heap := heap');
    GrantedObjects(s, s', answer, RoundUp(size));
    GrantedStore(s, s', size, want, answer);
  }

  lemma RefusalRefines(s: State, size: u64, want: u32)
    requires Inv(s) && AllocBlock(s.heap, s.generation, size, want).1.Refused?
    ensures var (heap', answer) := AllocBlock(s.heap, s.generation, size, want);
            var s' := s.(heap := heap');
            Inv(s') && WellFormed(Abs(s)) && StoreAlloc(Abs(s), size, want, []) == (Abs(s'), answer)
  {
    hide Accounted, AllDisjoint, AllPlaced, RoundUp;
    AbsWellFormed(s);
    AllocKeepsInv(s.heap, s.generation, size, want);
    if want == NODE_ANY || want < NODES {
      WhereAgrees(s, size, want);
    }
    SameHandles(s, s.(heap := AllocBlock(s.heap, s.generation, size, want).0));
  }

  lemma AllocRefines(s: State, size: u64, want: u32)
    requires Inv(s)
    ensures Refines(s, Alloc(size, want))
  {
    hide HeapInv, AllocBlock, StoreAlloc, Objects, RoundUp, WellFormed;
    if AllocBlock(s.heap, s.generation, size, want).1.Granted? {
      GrantRefines(s, size, want);
    } else {
      RefusalRefines(s, size, want);
    }
  }

  lemma GrantedStore(s: State, s': State, size: u64, want: u32, answer: AllocAnswer)
    requires Inv(s) && Inv(s') && WellFormed(Abs(s)) && 0 < size <= MEM_SIZE && (want < NODES || want == NODE_ANY)
    requires AllocBlock(s.heap, s.generation, size, want) == (s'.heap, answer) && answer.Granted? && answer.node < NODES
    requires Where(Abs(s), size, want) == PickNode(s.heap, want, RoundUp(size))
    requires s' == s.(heap := s'.heap) && RoundUp(size) < TWO64
    requires Grown(s.heap, s'.heap, Block(answer.offset, RoundUp(size), answer.node, true))
    requires answer == Granted(s.heap.nextHandle, answer.node, s.generation, s.heap.bump[answer.node])
    requires answer.offset + RoundUp(size) <= MEM_SIZE
    requires Objects(s') == Objects(s)[answer.handle := Object(answer.node, s.mem[answer.offset..answer.offset + RoundUp(size)])]
    ensures StoreAlloc(Abs(s), size, want, s.mem[answer.offset..answer.offset + RoundUp(size)]) == (Abs(s'), answer)
  {
    hide Accounted, AllDisjoint, AllPlaced, RoundUp, Objects;
    var content := s.mem[answer.offset..answer.offset + RoundUp(size)];
    var r := StoreAlloc(Abs(s), size, want, content);
    assert r.0.room == Abs(s').room;
    assert r.0.objects == Abs(s').objects;
  }

  /** Only the injection flag differs. */
  lemma SameHandles(s: State, s': State)
    requires Inv(s) && Inv(s') && s' == s.(heap := s.heap.(failArmed := s'.heap.failArmed))
    ensures Objects(s') == Objects(s)
  {
    hide Accounted, AllDisjoint;
    assert Objects(s').Keys == Objects(s).Keys;
  }

  lemma GrantedObjects(s: State, s': State, answer: AllocAnswer, size: nat)
    requires Inv(s) && Inv(s') && answer.Granted? && answer.node < NODES && answer.handle == s.heap.nextHandle
    requires size < TWO64 && Grown(s.heap, s'.heap, Block(answer.offset, size, answer.node, true)) && s'.mem == s.mem
    ensures answer.offset + size <= MEM_SIZE
    ensures Objects(s') == Objects(s)[answer.handle := Object(answer.node, s.mem[answer.offset..answer.offset + size])]
  {
    hide Accounted, AllDisjoint;
    forall k | Live(s.heap, k)
      ensures ObjectAt(s', k) == ObjectAt(s, k)
    {
      assert s'.heap.blocks[k - 1] == s.heap.blocks[k - 1];
    }
  }

  lemma FreeRefines(s: State, handle: u32)
    requires Inv(s)
    ensures Refines(s, Free(handle))
  {
    StepKeepsInv(s, Free(handle));
    AbsWellFormed(s);
    if Live(s.heap, handle) {
      FreeRevokes(s.heap, handle);
      RevokedObjects(s, s.(heap := FreeBlock(s.heap, handle).0), handle);
    }
  }

  lemma RevokedObjects(s: State, s': State, handle: nat)
    requires Inv(s) && Inv(s') && Live(s.heap, handle) && Revoked(s.heap, s'.heap, handle - 1) && s'.mem == s.mem
    ensures Objects(s') == Objects(s) - {handle}
  {
    hide Accounted, AllDisjoint;
    forall k | Live(s.heap, k) && k != handle
      ensures Live(s'.heap, k) && ObjectAt(s', k) == ObjectAt(s, k)
    {
      assert s'.heap.blocks[k - 1] == s.heap.blocks[k - 1];
    }
  }

  lemma OtherExtent(s: State, s': State, h: nat, k: nat, offset: nat, data: seq<byte>)
    requires Inv(s) && Live(s.heap, h) && Live(s.heap, k) && h != k
    requires offset + |data| <= s.heap.blocks[h - 1].size
    requires s.heap.blocks[h - 1].offset + s.heap.blocks[h - 1].size <= MEM_SIZE
    requires s' == s.(mem := Splice(s.mem, s.heap.blocks[h - 1].offset + offset, data))
    ensures Inv(s') && ObjectAt(s', k) == ObjectAt(s, k)
  {
    hide Accounted, AllDisjoint;
    var c := s.heap.blocks[k - 1];
    ExtentBounds(s, k);
    Separate(s.heap, k - 1, h - 1);
    SpliceElsewhere(s.mem, s.heap.blocks[h - 1].offset + offset, data, c.offset, c.offset + c.size);
  }

  /** A store inside one block changes that object accordingly and no other. */
  lemma StoredObjects(s: State, h: nat, offset: nat, data: seq<byte>)
    requires Inv(s) && Live(s.heap, h) && offset + |data| <= s.heap.blocks[h - 1].size
    ensures var b := s.heap.blocks[h - 1];
            && b.offset + b.size <= MEM_SIZE
            && var s' := s.(mem := Splice(s.mem, b.offset + offset, data));
            && Inv(s') && |Extent(s, h)| == b.size
            && Objects(s') == Objects(s)[h := Object(b.node, Splice(Extent(s, h), offset, data))]
  {
    hide HeapInv, Splice;
    var b := s.heap.blocks[h - 1];
    ExtentBounds(s, h);
    var at := b.offset + offset;
    var s' := s.(mem := Splice(s.mem, at, data));
    SpliceWithin(s.mem, at, data, b.offset, b.offset + b.size);
    forall k: nat | Live(s.heap, k) && k != h
      ensures ObjectAt(s', k) == ObjectAt(s, k)
    {
      OtherExtent(s, s', h, k, offset, data);
    }
    OneChanged(s, s', h, Object(b.node, Splice(Extent(s, h), offset, data)));
  }

  lemma OneChanged(s: State, s': State, h: nat, o: Object)
    requires Inv(s) && Inv(s') && s'.heap == s.heap && Live(s.heap, h) && ObjectAt(s', h) == o
    requires forall k: nat :: Live(s.heap, k) && k != h ==> ObjectAt(s', k) == ObjectAt(s, k)
    ensures Objects(s') == Objects(s)[h := o]
  {
    hide HeapInv, Extent;
    assert Objects(s').Keys == Objects(s).Keys;
  }

  lemma Separate(h: Heap, i: nat, j: nat)
    requires HeapInv(h) && i < h.nextHandle - 1 && j < h.nextHandle - 1 && i != j
    ensures Disjoint(h.blocks[i], h.blocks[j])
  {
    if i < j {
      assert Disjoint(h.blocks[i], h.blocks[j]);
    } else {
      assert Disjoint(h.blocks[j], h.blocks[i]);
    }
  }

  lemma ReadOutRefines(s: State, h: nat, offset: nat, len: nat)
    requires Inv(s) && Live(s.heap, h) && offset + len <= s.heap.blocks[h - 1].size
    ensures var b := s.heap.blocks[h - 1];
            && b.offset + b.size <= MEM_SIZE && |Extent(s, h)| == b.size
            && Extent(s, h)[offset..offset + len] == s.mem[b.offset + offset..b.offset + offset + len]
  {
    hide HeapInv;
    ExtentBounds(s, h);
    var b := s.heap.blocks[h - 1];
    SliceOfSlice(s.mem, b.offset, b.offset + b.size, offset, offset + len);
  }

  lemma TransferRefines(s: State, op: u16, hdr: CopyHdr, charge: (nat, nat), dma: Dma)
    requires Inv(s) && Live(s.heap, hdr.handle)
    requires hdr.offset + hdr.len <= s.heap.blocks[hdr.handle - 1].size
    ensures var b := s.heap.blocks[hdr.handle - 1];
            && b.offset + b.size <= MEM_SIZE && |Extent(s, hdr.handle)| == b.size
            && var r := Transfer(s, op, b.offset + hdr.offset, hdr, charge, dma);
            && Inv(r.0)
            && StoreTransfer(Abs(s), op, ObjectAt(s, hdr.handle), hdr, charge, dma) == (Abs(r.0), r.1)
  {
    hide HeapInv, Splice, Brought, Objects, Extent, Live, WithinReach;
    StoredObjects(s, hdr.handle, hdr.offset, Brought(dma, hdr.len));
    ReadOutRefines(s, hdr.handle, hdr.offset, hdr.len);
  }

  lemma CopyRefines(s: State, engine: nat, op: u16, hdr: CopyHdr, dma: Dma)
    requires Inv(s)
    ensures Inv(DataCopy(s, engine, op, hdr, dma).0)
    ensures StoreCopy(Abs(s), engine, op, hdr, dma) == (Abs(DataCopy(s, engine, op, hdr, dma).0), DataCopy(s, engine, op, hdr, dma).1)
  {
    hide Accounted, AllDisjoint, Transfer, StoreTransfer, Objects;
    if Live(s.heap, hdr.handle) {
      assert Objects(s)[hdr.handle as nat] == ObjectAt(s, hdr.handle);
      var b := s.heap.blocks[hdr.handle - 1];
      assert Placed(b, s.heap.bump);
      ExtentBounds(s, hdr.handle);
      if hdr.offset + hdr.len <= b.size {
        TransferRefines(s, op, hdr, Charge(engine, b.node), dma);
      }
    }
  }

  lemma DataRefines(s: State, engine: nat, req: DataReq, dma: Dma)
    requires Inv(s)
    ensures Refines(s, Data(engine, req, dma))
  {
    hide Serve, StoreServe, HeapInv;
    AbsWellFormed(s);
    ServeRefines(s, engine, req, dma);
  }

  lemma ServeRefines(s: State, engine: nat, req: DataReq, dma: Dma)
    requires Inv(s)
    ensures Inv(Serve(s, engine, req, dma).0)
    ensures StoreServe(Abs(s), engine, req, dma) == (Abs(Serve(s, engine, req, dma).0), Serve(s, engine, req, dma).1)
  {
    hide DataCopy, StoreCopy, HeapInv;
    CopyRefines(s, engine, req.op, req.copy, dma);
  }

  lemma BootRefines(s: State)
    requires Inv(s)
    ensures Refines(s, BootTimer)
  {
    StepKeepsInv(s, BootTimer);
    AbsWellFormed(s);
    if s.bootPending {
      assert Objects(BootDone(s)) == map[];
    }
  }

  lemma LogRefines(s: State, entry: seq<byte>)
    requires Inv(s) && |entry| == TRACE_ENTRY
    ensures Refines(s, Log(entry))
  {
    hide Device.Trace;
    AbsWellFormed(s);
    TraceStaysBelow(s.mem, s.traceDa, entry);
    SameAbove(s, s.(mem := Trace(s.mem, s.traceDa, entry)));
  }

  lemma ApertureRefines(s: State, at: nat, bytes: seq<byte>)
    requires Inv(s) && at + |bytes| <= APERTURE_SIZE
    ensures Refines(s, Aperture(at, bytes))
  {
    hide Accounted, AllDisjoint;
    AbsWellFormed(s);
    SpliceElsewhere(s.mem, at, bytes, APERTURE_SIZE, MEM_SIZE);
    SameAbove(s, s.(mem := Splice(s.mem, at, bytes)));
  }

  lemma VerifyFrame(s: State)
    requires Inv(s)
    ensures var s' := FwVerify(s); s'.mem == s.mem && s'.heap == s.heap && s'.generation == s.generation
  {
  }

  lemma ResetRefines(s: State, assertIt: bool)
    requires Inv(s)
    ensures Refines(s, Reset(assertIt))
  {
    hide FwVerify, Accounted, AllDisjoint;
    AbsWellFormed(s);
    var s' := ResetWrite(s, assertIt);
    VerifyFrame(s.(inReset := false));
    SameAbove(s, s');
  }

  lemma ArmedAbs(s: State, failAlloc: bool)
    requires Inv(s)
    ensures var armed := s.(heap := s.heap.(failArmed := failAlloc));
            Inv(armed) && Abs(armed) == Abs(s).(failArmed := failAlloc)
  {
    ArmedInv(s.heap, failAlloc);
    hide Accounted, AllDisjoint;
    SameHandles(s, s.(heap := s.heap.(failArmed := failAlloc)));
  }

  lemma CrashAbs(s: State)
    requires Inv(s)
    ensures Inv(Crash(s)) && Abs(Crash(s)) == Abs(s)
  {
    hide Accounted, AllDisjoint;
    SameAbove(s, Crash(s));
  }

  lemma InjectRefines(s: State, crash: bool, failAlloc: bool)
    requires Inv(s)
    ensures Refines(s, Inject(crash, failAlloc))
  {
    hide HeapInv, Abs, Crash;
    AbsWellFormed(s);
    ArmedAbs(s, failAlloc);
    CrashAbs(s.(heap := s.heap.(failArmed := failAlloc)));
  }

  lemma QueryRefines(s: State)
    requires Inv(s)
    ensures Refines(s, Query)
  {
    AbsWellFormed(s);
    FreeIsExact(s.heap);
    LiveHandlesExact(s);
  }

  /** Every step of the device is a step of the map with the same answer. */
  lemma {:induction false} StepRefines(s: State, e: Event)
    requires Inv(s) && Possible(e)
    ensures Refines(s, e)
  {
    match e
    case Alloc(size, want) => AllocRefines(s, size, want);
    case Free(handle) => FreeRefines(s, handle);
    case Query => QueryRefines(s);
    case Data(engine, req, dma) => DataRefines(s, engine, req, dma);
    case Log(entry) => LogRefines(s, entry);
    case Aperture(at, bytes) => ApertureRefines(s, at, bytes);
    case Reset(assertIt) => ResetRefines(s, assertIt);
    case BootTimer => BootRefines(s);
    case Inject(crash, failAlloc) => InjectRefines(s, crash, failAlloc);
  }

  // ---- runs ----

  function Run(s: State, es: seq<Event>): (r: (State, seq<Answer>))
    requires Inv(s) && forall e :: e in es ==> Possible(e)
    ensures Inv(r.0)
    decreases |es|
  {
    if es == [] then (s, [])
    else
      StepKeepsInv(s, es[0]);
      var step := Step(s, es[0]);
      var rest := Run(step.0, es[1..]);
      (rest.0, [step.1] + rest.1)
  }

  ghost predicate StoreRun(a: Store, es: seq<Event>, os: seq<Answer>, a': Store)
    decreases |es|
  {
    if es == [] then os == [] && a' == a
    else
      && os != [] && WellFormed(a)
      && exists c :: StoreStep(a, es[0], c).1 == os[0] && StoreRun(StoreStep(a, es[0], c).0, es[1..], os[1..], a')
  }

  /** The refinement: whatever happens to the device, its answers are those of a map
      from handles to private byte arrays, and its memory holds that map. */
  lemma {:induction false} RunRefines(s: State, es: seq<Event>)
    requires Inv(s) && forall e :: e in es ==> Possible(e)
    ensures StoreRun(Abs(s), es, Run(s, es).1, Abs(Run(s, es).0))
    decreases |es|
  {
    if es != [] {
      StepRefines(s, es[0]);
      var step := Step(s, es[0]);
      RunRefines(step.0, es[1..]);
      var os := Run(s, es).1;
      assert os[1..] == Run(step.0, es[1..]).1;
      var c := Chosen(s, es[0]);
      assert StoreStep(Abs(s), es[0], c).1 == os[0];
    }
  }

  // ---- what is written is what is read ----

  /** In this session `data` sits at `offset` of array h. */
  ghost predicate Keeps(a: Store, generation: u32, h: nat, offset: nat, data: seq<byte>) {
    && a.generation == generation && 0 < h <= a.issued && h in a.objects
    && offset + |data| <= |a.objects[h].bytes| && a.objects[h].bytes[offset..offset + |data|] == data
  }

  /** A step that leaves those bytes alone: no boot completes, and array h is neither freed
      nor copied into at this range.  Anything else may happen, to any other array and to
      the rest of this one. */
  predicate Spares(e: Event, boots: bool, h: nat, offset: nat, len: nat) {
    match e
    case BootTimer => !boots
    case Free(k) => k != h
    case Data(_, req, _) =>
      req.op != 1 || req.copy.handle != h || req.copy.offset + req.copy.len <= offset || offset + len <= req.copy.offset
    case _ => true
  }

  lemma SparedCopy(a: Store, engine: nat, req: DataReq, dma: Dma, generation: u32, h: nat, offset: nat, data: seq<byte>)
    requires Keeps(a, generation, h, offset, data) && Spares(Data(engine, req, dma), false, h, offset, |data|)
    ensures Keeps(StoreServe(a, engine, req, dma).0, generation, h, offset, data)
  {
    var c := req.copy;
    if req.op == 1 && c.handle == h && c.offset + c.len <= |a.objects[h].bytes| {
      SpliceElsewhere(a.objects[h].bytes, c.offset, Brought(dma, c.len), offset, offset + |data|);
    }
  }

  lemma SparedStep(a: Store, e: Event, c: Choice, generation: u32, h: nat, offset: nat, data: seq<byte>)
    requires WellFormed(a) && Keeps(a, generation, h, offset, data) && Spares(e, c.boots, h, offset, |data|)
    ensures Keeps(StoreStep(a, e, c).0, generation, h, offset, data)
  {
    hide StoreServe;
    if e.Data? {
      SparedCopy(a, e.engine, e.req, e.dma, generation, h, offset, data);
    }
  }

  ghost predicate SparesRun(s: State, es: seq<Event>, h: nat, offset: nat, len: nat)
    requires Inv(s) && forall e :: e in es ==> Possible(e)
    decreases |es|
  {
    es == [] ||
    (StepKeepsInv(s, es[0]);
     Spares(es[0], s.bootPending, h, offset, len) && SparesRun(Step(s, es[0]).0, es[1..], h, offset, len))
  }

  lemma {:induction false} SparedRun(s: State, es: seq<Event>, generation: u32, h: nat, offset: nat, data: seq<byte>)
    requires Inv(s) && (forall e :: e in es ==> Possible(e)) && SparesRun(s, es, h, offset, |data|)
    requires Keeps(Abs(s), generation, h, offset, data)
    ensures Keeps(Abs(Run(s, es).0), generation, h, offset, data)
    decreases |es|
  {
    hide HeapInv, Abs, Keeps, StoreStep, WellFormed, Step;
    if es != [] {
      StepRefines(s, es[0]);
      SparedStep(Abs(s), es[0], Chosen(s, es[0]), generation, h, offset, data);
      SparedRun(Step(s, es[0]).0, es[1..], generation, h, offset, data);
    }
  }

  /** After a successful copy in, the named slice of the named array is what the host sent. */
  lemma Written(a: Store, engine: nat, req: DataReq, dma: Dma)
    requires req.op == 1 && StoreServe(a, engine, req, dma).1.status == 0 && |dma.bytes| == req.copy.len
    requires forall k :: k in a.objects ==> 0 < k <= a.issued
    ensures Keeps(StoreServe(a, engine, req, dma).0, req.generation, req.copy.handle, req.copy.offset, dma.bytes)
    ensures forall k :: k in a.objects && k != req.copy.handle ==> StoreServe(a, engine, req, dma).0.objects[k] == a.objects[k]
  {
  }

  /** A copy out of part of it returns that part. */
  lemma ReadBack(a: Store, engine: nat, req: DataReq, dma: Dma, generation: u32, h: nat, offset: nat, data: seq<byte>)
    requires Keeps(a, generation, h, offset, data) && req.op == 2 && req.copy.handle == h
    requires offset <= req.copy.offset && req.copy.offset + req.copy.len <= offset + |data|
    ensures var answer := StoreServe(a, engine, req, dma).1;
            && (answer.status == 0 <==>
                  && req.generation == generation && req.len >= 48 && req.copy.len > 0
                  && WithinReach(req.copy.addr, req.copy.len) && dma.ok)
            && (answer.status == 0 ==>
                  var from := req.copy.offset - offset; answer.toHost == Some(data[from..from + req.copy.len]))
  {
    var from := req.copy.offset - offset;
    SliceOfSlice(a.objects[h].bytes, offset, offset + |data|, from, from + req.copy.len);
  }

  /** What was copied in is what is copied out.  Between a successful copy into array h and
      a later copy out of any part of that range, whatever happens that spares the range, the
      later copy succeeds exactly when it names the same generation, is long enough and the
      bus can do it, and then returns those very bytes. */
  lemma WrittenIsRead(s: State, engine: nat, req: DataReq, dma: Dma, es: seq<Event>, engine': nat, req': DataReq, dma': Dma)
    requires Inv(s) && req.op == 1 && Serve(s, engine, req, dma).1.status == 0 && |dma.bytes| == req.copy.len
    requires Inv(Serve(s, engine, req, dma).0) && forall e :: e in es ==> Possible(e)
    requires SparesRun(Serve(s, engine, req, dma).0, es, req.copy.handle, req.copy.offset, req.copy.len)
    requires req'.op == 2 && req'.copy.handle == req.copy.handle
    requires req.copy.offset <= req'.copy.offset && req'.copy.offset + req'.copy.len <= req.copy.offset + req.copy.len
    ensures var answer := Serve(Run(Serve(s, engine, req, dma).0, es).0, engine', req', dma').1;
            && (answer.status == 0 <==>
                  && req'.generation == req.generation && req'.len >= 48 && req'.copy.len > 0
                  && WithinReach(req'.copy.addr, req'.copy.len) && dma'.ok)
            && (answer.status == 0 ==>
                  var from := req'.copy.offset - req.copy.offset;
                  answer.toHost == Some(dma.bytes[from..from + req'.copy.len]))
  {
    hide HeapInv, Serve, StoreServe, Keeps, Run, SparesRun;
    var h := req.copy.handle;
    ServeRefines(s, engine, req, dma);
    Numbered(s);
    Written(Abs(s), engine, req, dma);
    var s1 := Serve(s, engine, req, dma).0;
    SparedRun(s1, es, req.generation, h, req.copy.offset, dma.bytes);
    var s2 := Run(s1, es).0;
    ServeRefines(s2, engine', req', dma');
    ReadBack(Abs(s2), engine', req', dma', req.generation, h, req.copy.offset, dma.bytes);
  }

  lemma Numbered(s: State)
    requires Inv(s)
    ensures forall k :: k in Abs(s).objects ==> 0 < k <= Abs(s).issued
  {
  }
}
