/** The device's bump allocator, one pointer per memory node, and its handle table. */
module Allocator {
  import opened Hardware

  /** One entry of the handle table; entry h - 1 belongs to handle h. */
  datatype Block = Block(offset: u64, size: u64, node: nat, live: bool)

  datatype Heap = Heap(
    bump: seq<u64>, nextHandle: u32, liveHandles: u32,
    blocks: seq<Block>, failArmed: bool)

  datatype AllocAnswer =
    | Granted(handle: u32, node: nat, generation: u32, offset: u64)
    | Refused(err: int)

  datatype StatAnswer = StatAnswer(capacity: seq<u64>, free: seq<u64>, live: u32)

  const NoBlock := Block(0, 0, 0, false)

  function NodeBase(node: nat): nat {
    if node == 0 then NODE0_BASE else NODE1_BASE
  }

  function NodeEnd(node: nat): nat {
    if node == 0 then NODE0_END else NODE1_END
  }

  /** Unsigned 64-bit arithmetic, as the allocator computes it. */
  function Sub64(a: u64, b: u64): u64 {
    if a >= b then a - b else a + TWO64 - b
  }

  function Add64(a: u64, b: u64): u64 {
    if a + b >= TWO64 then a + b - TWO64 else a + b
  }

  function RoundUp(size: nat): nat {
    (size + ALLOC_ALIGN - 1) / ALLOC_ALIGN * ALLOC_ALIGN
  }

  predicate HeapShaped(h: Heap) {
    |h.bump| == NODES && |h.blocks| == MAX_HANDLES && 1 <= h.nextHandle <= MAX_HANDLES + 1
  }

  function NodeFree(h: Heap, node: nat): u64
    requires HeapShaped(h) && node < NODES
  {
    Sub64(NodeEnd(node), h.bump[node])
  }

  /** A session with nothing allocated yet; an armed injection survives into it. */
  function NewSession(failArmed: bool): Heap {
    Heap([NODE0_BASE, NODE1_BASE], 1, 0, seq(MAX_HANDLES, _ => NoBlock), failArmed)
  }

  /** Which node serves a request: the one named, or node 0 unless it is too full. */
  function PickNode(h: Heap, want: u32, size: nat): Option<nat>
    requires HeapShaped(h) && (want < NODES || want == NODE_ANY)
  {
    if want != NODE_ANY then
      if NodeFree(h, want) >= size then Some(want) else None
    else if NodeFree(h, 0) >= size then Some(0)
    else if NodeFree(h, 1) >= size then Some(1)
    else None
  }

  function AllocBlock(h: Heap, generation: u32, size: u64, want: u32): (r: (Heap, AllocAnswer))
    requires HeapShaped(h)
    ensures HeapShaped(r.0)
  {
    if want != NODE_ANY && want >= NODES then (h, Refused(EINVAL))
    else if size == 0 || size > MEM_SIZE then (h, Refused(EINVAL))
    else if h.failArmed then (h.(failArmed := false), Refused(ENOMEM))
    else if h.nextHandle > MAX_HANDLES || PickNode(h, want, RoundUp(size)).None? then (h, Refused(ENOMEM))
    else
      var node := PickNode(h, want, RoundUp(size)).value;
      var block := Block(h.bump[node], RoundUp(size), node, true);
      (h.(bump := h.bump[node := Add64(h.bump[node], RoundUp(size))],
          nextHandle := h.nextHandle + 1,
          liveHandles := if h.liveHandles + 1 == TWO32 then 0 else h.liveHandles + 1,
          blocks := h.blocks[h.nextHandle - 1 := block]),
       Granted(h.nextHandle, node, generation, block.offset))
  }

  predicate Live(h: Heap, handle: nat)
    requires HeapShaped(h)
  {
    0 < handle < h.nextHandle && h.blocks[handle - 1].live
  }

  function FreeBlock(h: Heap, handle: u32): (r: (Heap, int))
    requires HeapShaped(h)
    ensures HeapShaped(r.0)
  {
    if !Live(h, handle) then (h, EINVAL)
    else
      (h.(blocks := h.blocks[handle - 1 := h.blocks[handle - 1].(live := false)],
          liveHandles := if h.liveHandles == 0 then TWO32 - 1 else h.liveHandles - 1),
       OK)
  }

  function Stat(h: Heap): StatAnswer
    requires HeapShaped(h)
  {
    StatAnswer([NodeEnd(0) - NodeBase(0), NodeEnd(1) - NodeBase(1)], [NodeFree(h, 0), NodeFree(h, 1)], h.liveHandles)
  }

  // ---- the invariant of a session ----

  function SumSizes(blocks: seq<Block>, node: nat): nat {
    if blocks == [] then 0
    else SumSizes(blocks[..|blocks| - 1], node) +
         (if blocks[|blocks| - 1].node == node then blocks[|blocks| - 1].size else 0)
  }

  function CountLive(blocks: seq<Block>): nat {
    if blocks == [] then 0
    else CountLive(blocks[..|blocks| - 1]) + (if blocks[|blocks| - 1].live then 1 else 0)
  }

  /** Every block ever handed out in this session, freed ones included. */
  function Issued(h: Heap): seq<Block>
    requires HeapShaped(h)
  {
    h.blocks[..h.nextHandle - 1]
  }

  predicate Placed(b: Block, bump: seq<u64>)
    requires |bump| == NODES
  {
    && b.node < NODES && 0 < b.size
    && b.offset % ALLOC_ALIGN == 0 && b.size % ALLOC_ALIGN == 0
    && NodeBase(b.node) <= b.offset && b.offset + b.size <= bump[b.node]
  }

  predicate Disjoint(a: Block, b: Block) {
    a.offset + a.size <= b.offset || b.offset + b.size <= a.offset
  }

  /** The bump pointer of a node is its base plus everything handed out there. */
  ghost predicate Accounted(h: Heap)
    requires HeapShaped(h)
  {
    && h.liveHandles == CountLive(Issued(h))
    && forall n :: 0 <= n < NODES ==>
         && h.bump[n] == NodeBase(n) + SumSizes(Issued(h), n)
         && h.bump[n] <= NodeEnd(n) && h.bump[n] % ALLOC_ALIGN == 0
  }

  ghost predicate AllPlaced(h: Heap)
    requires HeapShaped(h)
  {
    forall i {:trigger Placed(h.blocks[i], h.bump)} :: 0 <= i < h.nextHandle - 1 ==> Placed(h.blocks[i], h.bump)
  }

  ghost predicate AllDisjoint(h: Heap)
    requires HeapShaped(h)
  {
    forall i, j {:trigger Disjoint(h.blocks[i], h.blocks[j])} ::
      0 <= i < j < h.nextHandle - 1 ==> Disjoint(h.blocks[i], h.blocks[j])
  }

  /** All blocks of a session, freed or not, are aligned, inside their node and
      pairwise disjoint; the counters agree with the table; handles run 1, 2, 3... */
  ghost predicate HeapInv(h: Heap) {
    && HeapShaped(h) && Accounted(h) && AllPlaced(h) && AllDisjoint(h)
    && forall i :: h.nextHandle - 1 <= i < MAX_HANDLES ==> h.blocks[i] == NoBlock
  }

  /** What that says of any two blocks handed out, in numbers. */
  lemma BlocksApart(h: Heap, i: nat, j: nat)
    requires HeapInv(h) && i < h.nextHandle - 1 && j < h.nextHandle - 1
    ensures var b := h.blocks[i];
            && b.size > 0 && b.offset % 256 == 0 && b.size % 256 == 0 && b.node < 2
            && (b.node == 0 ==> 0x100_0000 <= b.offset && b.offset + b.size <= 0x800_0000)
            && (b.node == 1 ==> 0x800_0000 <= b.offset && b.offset + b.size <= 0x1000_0000)
            && (i != j ==> h.blocks[j].offset + h.blocks[j].size <= b.offset || b.offset + b.size <= h.blocks[j].offset)
  {
    assert Placed(h.blocks[i], h.bump);
    if i < j {
      assert Disjoint(h.blocks[i], h.blocks[j]);
    } else if j < i {
      assert Disjoint(h.blocks[j], h.blocks[i]);
    }
  }

  lemma NewSessionInv(failArmed: bool)
    ensures HeapInv(NewSession(failArmed))
  {
    assert Issued(NewSession(failArmed)) == [];
  }

  lemma RoundUpBounds(size: nat)
    requires 0 < size <= MEM_SIZE
    ensures size <= RoundUp(size) < size + 256 && RoundUp(size) % 256 == 0 && RoundUp(size) <= MEM_SIZE
  {
  }

  lemma CountBound(blocks: seq<Block>)
    ensures CountLive(blocks) <= |blocks|
  {
  }

  lemma PickFits(h: Heap, want: u32, size: nat)
    requires HeapInv(h) && (want < NODES || want == NODE_ANY)
    requires PickNode(h, want, size).Some?
    ensures var n := PickNode(h, want, size).value; n < NODES && h.bump[n] + size <= NodeEnd(n)
  {
    FreeIsExact(h);
  }

  /** STAT's free figure is capacity less what was handed out; it cannot underflow. */
  lemma FreeIsExact(h: Heap)
    requires HeapInv(h)
    ensures forall n :: 0 <= n < NODES ==>
              NodeFree(h, n) == NodeEnd(n) - h.bump[n] == NodeEnd(n) - NodeBase(n) - SumSizes(Issued(h), n)
  {
  }

  /** A node is refused only when it really lacks the room, and then the answer is
      the same for every node the request allows. */
  lemma RefusedOnlyWhenFull(h: Heap, generation: u32, size: u64, want: u32)
    requires HeapInv(h) && !h.failArmed && 0 < size <= MEM_SIZE && (want < NODES || want == NODE_ANY)
    ensures AllocBlock(h, generation, size, want).1.Granted? <==>
            h.nextHandle <= MAX_HANDLES &&
            exists n :: 0 <= n < NODES && (want == n || want == NODE_ANY) && h.bump[n] + RoundUp(size) <= NodeEnd(n)
  {
    FreeIsExact(h);
    if want != NODE_ANY {
      assert AllocBlock(h, generation, size, want).1.Granted? ==> h.bump[want] + RoundUp(size) <= NodeEnd(want);
    } else {
      assert AllocBlock(h, generation, size, want).1.Granted? ==>
          h.bump[0] + RoundUp(size) <= NodeEnd(0) || h.bump[1] + RoundUp(size) <= NodeEnd(1);
    }
  }

  /** Bytes left on a node: node 0 ends at 128 MiB, node 1 at 256 MiB. */
  function Left(h: Heap, node: nat): int
    requires HeapShaped(h) && node < 2
  {
    (if node == 0 then 0x800_0000 else 0x1000_0000) as int - h.bump[node] as int
  }

  /** The nodes that may serve a request, rounded up to `size`. */
  predicate Serves(h: Heap, want: u32, size: nat, node: nat)
    requires HeapShaped(h)
  {
    node < 2 && (want == node || want == 0xFFFF_FFFF) && Left(h, node) >= size
  }

  /** What ALLOC answers, for every request.  -22: no such node, nothing asked for, or more
      than 256 MiB.  -12: a failure was injected, which that spends; or all 1024 handles are
      gone; or no node it allows has the room.  Otherwise the next handle, on the lowest node
      that serves it, at that node's bump pointer, which moves by the size rounded up to 256. */
  lemma AllocExactly(h: Heap, generation: u32, size: u64, want: u32)
    requires HeapInv(h)
    ensures var (h', answer) := AllocBlock(h, generation, size, want);
            if (want >= 2 && want != 0xFFFF_FFFF) || size == 0 || size > 0x1000_0000 then h' == h && answer == Refused(-22)
            else if h.failArmed then h' == h.(failArmed := false) && answer == Refused(-12)
            else
              && (answer.Refused? <==> h.nextHandle > 1024 || forall n :: !Serves(h, want, RoundUp(size), n))
              && (answer.Refused? ==> h' == h && answer.err == -12)
              && (answer.Granted? ==>
                    && answer.handle == h.nextHandle && answer.generation == generation
                    && Serves(h, want, RoundUp(size), answer.node)
                    && (forall n :: Serves(h, want, RoundUp(size), n) ==> answer.node <= n)
                    && answer.offset == h.bump[answer.node] && h'.bump == h.bump[answer.node := answer.offset + RoundUp(size)]
                    && h'.blocks == h.blocks[h.nextHandle - 1 := Block(answer.offset, RoundUp(size), answer.node, true)]
                    && h'.nextHandle == h.nextHandle + 1 && h'.liveHandles == h.liveHandles + 1 && !h'.failArmed)
  {
    FreeIsExact(h);
    var answer := AllocBlock(h, generation, size, want).1;
    if answer.Granted? {
      GrantGrows(h, generation, size, want);
      assert Serves(h, want, RoundUp(size), answer.node);
    }
  }

  /** What FREE answers: -22 for a number that is not a live handle, which changes nothing. */
  lemma FreeExactly(h: Heap, handle: u32)
    requires HeapInv(h)
    ensures var (h', err) := FreeBlock(h, handle);
            if 0 < handle < h.nextHandle && h.blocks[handle - 1].live
            then err == 0 && h' == h.(blocks := h.blocks[handle - 1 := h.blocks[handle - 1].(live := false)],
                                      liveHandles := h'.liveHandles) && h'.liveHandles == h.liveHandles - 1
            else err == -22 && h' == h
  {
    if Live(h, handle) {
      FreeRevokes(h, handle);
    }
  }

  /** A new session: node 0 from 16 MiB, node 1 from 128 MiB, 1024 empty entries. */
  lemma SessionStarts(failArmed: bool)
    ensures var h := NewSession(failArmed);
            && h.bump == [0x100_0000, 0x800_0000] && h.nextHandle == 1 && h.liveHandles == 0 && h.failArmed == failArmed
            && |h.blocks| == 1024 && forall i :: 0 <= i < 1024 ==> !h.blocks[i].live
  {
  }

  /** STAT: 112 MiB and 128 MiB of capacity, and what is left of each. */
  lemma StatExactly(h: Heap)
    requires HeapInv(h)
    ensures Stat(h).capacity == [0x700_0000, 0x800_0000] && Stat(h).live == h.liveHandles
    ensures |Stat(h).free| == 2 && Stat(h).free[0] as int == Left(h, 0) && Stat(h).free[1] as int == Left(h, 1)
  {
    FreeIsExact(h);
  }

  /** A fresh block lies above everything its node has handed out, and the nodes
      do not overlap, so it meets no earlier block. */
  lemma NewBlockDisjoint(h: Heap, b: Block, i: nat)
    requires HeapInv(h) && i < h.nextHandle - 1
    requires b.node < NODES && b.offset == h.bump[b.node] && b.offset + b.size <= NodeEnd(b.node)
    ensures Disjoint(h.blocks[i], b)
  {
    assert Placed(h.blocks[i], h.bump);
  }

  lemma AlignedSum(a: nat, b: nat)
    requires a % ALLOC_ALIGN == 0 && b % ALLOC_ALIGN == 0
    ensures (a + b) % ALLOC_ALIGN == 0
  {
  }

  lemma GrantAccounted(h: Heap, h': Heap, b: Block)
    requires HeapInv(h) && HeapShaped(h') && h'.nextHandle == h.nextHandle + 1
    requires b.node < NODES && b.live && b.size % ALLOC_ALIGN == 0 && h.bump[b.node] + b.size <= NodeEnd(b.node)
    requires h'.bump == h.bump[b.node := h.bump[b.node] + b.size]
    requires h'.blocks == h.blocks[h.nextHandle - 1 := b] && h'.liveHandles == h.liveHandles + 1
    ensures Accounted(h')
  {
    assert Issued(h') == Issued(h) + [b];
    assert Issued(h')[..|Issued(h')| - 1] == Issued(h);
    AlignedSum(h.bump[b.node], b.size);
  }

  lemma GrantPlaced(h: Heap, h': Heap, b: Block)
    requires HeapInv(h) && HeapShaped(h') && h'.nextHandle == h.nextHandle + 1
    requires b.node < NODES && 0 < b.size && b.size % ALLOC_ALIGN == 0
    requires b.offset == h.bump[b.node] && b.offset + b.size <= NodeEnd(b.node)
    requires h'.bump == h.bump[b.node := b.offset + b.size]
    requires h'.blocks == h.blocks[h.nextHandle - 1 := b]
    ensures AllPlaced(h') && AllDisjoint(h')
  {
    forall i | 0 <= i < h.nextHandle - 1
      ensures Placed(h'.blocks[i], h'.bump) && Disjoint(h'.blocks[i], b)
    {
      assert Placed(h.blocks[i], h.bump);
      NewBlockDisjoint(h, b, i);
    }
  }

  /** What a granted request does to the heap, free of wrap-around. */
  ghost predicate Grown(h: Heap, h': Heap, b: Block)
    requires HeapShaped(h)
  {
    && h.liveHandles < h.nextHandle <= MAX_HANDLES && b.node < NODES && b.live
    && 0 < b.size && b.size % ALLOC_ALIGN == 0 && b.offset == h.bump[b.node] && b.offset + b.size <= NodeEnd(b.node)
    && h' == Heap(h.bump[b.node := b.offset + b.size], h.nextHandle + 1, h.liveHandles + 1,
                  h.blocks[h.nextHandle - 1 := b], h.failArmed)
  }

  lemma GrantGrows(h: Heap, generation: u32, size: u64, want: u32)
    requires HeapInv(h) && AllocBlock(h, generation, size, want).1.Granted?
    ensures var (h', answer) := AllocBlock(h, generation, size, want);
            && answer.node < NODES
            && Grown(h, h', Block(answer.offset, RoundUp(size), answer.node, true))
            && answer == Granted(h.nextHandle, answer.node, generation, h.bump[answer.node])
  {
    RoundUpBounds(size);
    PickFits(h, want, RoundUp(size));
    CountBound(Issued(h));
  }

  lemma GrownInv(h: Heap, h': Heap, b: Block)
    requires HeapInv(h) && Grown(h, h', b)
    ensures HeapInv(h')
  {
    GrantAccounted(h, h', b);
    GrantPlaced(h, h', b);
  }

  lemma {:induction false} AllocKeepsInv(h: Heap, generation: u32, size: u64, want: u32)
    requires HeapInv(h)
    ensures HeapInv(AllocBlock(h, generation, size, want).0)
  {
    var (h', answer) := AllocBlock(h, generation, size, want);
    if answer.Granted? {
      GrantGrows(h, generation, size, want);
      GrownInv(h, h', Block(answer.offset, RoundUp(size), answer.node, true));
    } else {
      assert h' == h.(failArmed := h'.failArmed);
      assert Issued(h') == Issued(h);
    }
  }

  lemma {:induction false} ReviseOne(blocks: seq<Block>, i: nat)
    requires i < |blocks| && blocks[i].live
    ensures var after := blocks[i := blocks[i].(live := false)];
            && CountLive(after) == CountLive(blocks) - 1
            && forall n: nat :: SumSizes(after, n) == SumSizes(blocks, n)
  {
    var after := blocks[i := blocks[i].(live := false)];
    var last := |blocks| - 1;
    if i == last {
      assert after[..last] == blocks[..last];
    } else {
      assert after[..last] == blocks[..last][i := blocks[i].(live := false)];
      ReviseOne(blocks[..last], i);
    }
  }

  lemma RevokeAccounted(h: Heap, h': Heap, i: nat)
    requires HeapInv(h) && i < h.nextHandle - 1 && h.blocks[i].live
    requires h' == h.(blocks := h.blocks[i := h.blocks[i].(live := false)], liveHandles := h'.liveHandles)
    requires h'.liveHandles == h.liveHandles - 1
    ensures HeapShaped(h') && Accounted(h')
  {
    assert Issued(h') == Issued(h)[i := h.blocks[i].(live := false)];
    ReviseOne(Issued(h), i);
  }

  lemma RevokePlaced(h: Heap, h': Heap, i: nat)
    requires HeapInv(h) && i < h.nextHandle - 1
    requires h' == h.(blocks := h.blocks[i := h.blocks[i].(live := false)], liveHandles := h'.liveHandles)
    ensures HeapShaped(h') && AllPlaced(h') && AllDisjoint(h')
  {
    forall j | 0 <= j < h.nextHandle - 1
      ensures Placed(h'.blocks[j], h'.bump)
    {
      assert Placed(h.blocks[j], h.bump);
    }
    forall j, k | 0 <= j < k < h.nextHandle - 1
      ensures Disjoint(h'.blocks[j], h'.blocks[k])
    {
      assert Disjoint(h.blocks[j], h.blocks[k]);
    }
  }

  lemma LiveCounted(blocks: seq<Block>, i: nat)
    requires i < |blocks| && blocks[i].live
    ensures CountLive(blocks) >= 1
  {
  }

  ghost predicate Revoked(h: Heap, h': Heap, i: nat)
    requires HeapShaped(h)
  {
    && i < h.nextHandle - 1 && h.blocks[i].live && h.liveHandles >= 1
    && h' == h.(blocks := h.blocks[i := h.blocks[i].(live := false)], liveHandles := h.liveHandles - 1)
  }

  lemma FreeRevokes(h: Heap, handle: u32)
    requires HeapInv(h) && Live(h, handle)
    ensures Revoked(h, FreeBlock(h, handle).0, handle - 1)
  {
    assert Issued(h)[handle - 1].live;
    LiveCounted(Issued(h), handle - 1);
  }

  lemma RevokedInv(h: Heap, h': Heap, i: nat)
    requires HeapInv(h) && Revoked(h, h', i)
    ensures HeapInv(h')
  {
    RevokeAccounted(h, h', i);
    RevokePlaced(h, h', i);
  }

  lemma {:induction false} FreeKeepsInv(h: Heap, handle: u32)
    requires HeapInv(h)
    ensures HeapInv(FreeBlock(h, handle).0)
  {
    if Live(h, handle) {
      FreeRevokes(h, handle);
      RevokedInv(h, FreeBlock(h, handle).0, handle - 1);
    }
  }
}
