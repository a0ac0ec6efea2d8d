/** Boots, generations and the names of allocations, over whole runs of the device.

    A run may load firmware, write RESET, let the boot timer fire, crash, allocate
    and copy in any order.  `World` adds to the device what an observer of the run
    remembers: how often it entered RUNNING, whether the header was good at the last
    release, and every {generation, handle} it ever handed out. */
module Sessions {
  import opened Hardware
  import opened Allocator
  import opened Device

  datatype Name = Name(boot: nat, generation: u32, handle: u32, offset: u64, size: u64, node: nat)

  datatype World = World(dev: State, boots: nat, accepted: bool, names: seq<Name>)

  function WorldStep(w: World, e: Event): World
    requires Inv(w.dev) && Possible(e)
  {
    var (dev, answer) := Step(w.dev, e);
    World(dev,
          if e.BootTimer? && w.dev.bootPending then w.boots + 1 else w.boots,
          if e == Reset(false) then HeaderAccepted(w.dev.mem) else w.accepted,
          if e.Alloc? && answer.alloc.Granted? then
            w.names + [Name(w.boots, answer.alloc.generation, answer.alloc.handle, answer.alloc.offset, RoundUpSize(e.size), answer.alloc.node)]
          else w.names)
  }

  function RoundUpSize(size: u64): u64 {
    if size <= MEM_SIZE then RoundUp(size) else 0
  }

  ghost predicate PoweredOn(w: World) {
    && Inv(w.dev) && w.dev.heap == NewSession(false)
    && w.dev.generation == w.boots == 0 && w.dev.inReset && w.dev.status.InReset? && !w.dev.bootPending
    && !w.accepted && w.names == []
  }

  function RunWorld(w: World, es: seq<Event>): (w': World)
    requires Inv(w.dev) && forall e :: e in es ==> Possible(e)
    ensures Inv(w'.dev)
  {
    if es == [] then w
    else
      var v := RunWorld(w, es[..|es| - 1]);
      StepKeepsInv(v.dev, es[|es| - 1]);
      WorldStep(v, es[|es| - 1])
  }

  // ---- life cycle ----

  ghost predicate LifeInv(w: World) {
    && (w.dev.bootPending <==> w.dev.status.Verified?)
    && (w.dev.inReset ==> !w.dev.bootPending)
    && (w.dev.status.Verified? || w.dev.status.Running? ==> w.accepted && w.dev.fwAbi == FW_ABI && w.dev.traceLen == TRACE_SIZE)
    && w.dev.generation == w.boots % TWO32
  }

  lemma NextGeneration(boots: nat)
    ensures (boots % TWO32 + 1) % TWO32 == (boots + 1) % TWO32
  {
  }

  /** The life cycle keeps its word at every step but one: releasing RESET a second
      time, while a boot is still pending, on a header that is no longer good. */
  lemma LifeStepExactly(w: World, e: Event)
    requires Inv(w.dev) && Possible(e) && LifeInv(w)
    ensures LifeInv(WorldStep(w, e)) <==> !(e == Reset(false) && w.dev.bootPending && !HeaderAccepted(w.dev.mem))
  {
    hide Trace, HeapInv, AllocBlock, FreeBlock, Serve;
    NextGeneration(w.boots);
    if e.Data? {
      ServeFrame(w.dev, e.engine, e.req, e.dma);
    }
  }

  /** RESET is written 1, 0, 1, 0... */
  predicate Alternates(w: World, e: Event) {
    e.Reset? ==> e.assertIt != w.dev.inReset
  }

  ghost predicate AlternatingRun(w: World, es: seq<Event>)
    requires Inv(w.dev) && forall e :: e in es ==> Possible(e)
  {
    es != [] ==> AlternatingRun(w, es[..|es| - 1]) && Alternates(RunWorld(w, es[..|es| - 1]), es[|es| - 1])
  }

  /** With alternating RESET writes: a boot is pending exactly while the status is
      VERIFIED, RUNNING means the last release found a good header, and GENERATION
      counts the boots. */
  lemma {:induction false} LifeCycle(w: World, es: seq<Event>)
    requires PoweredOn(w) && (forall e :: e in es ==> Possible(e)) && AlternatingRun(w, es)
    ensures LifeInv(RunWorld(w, es))
  {
    if es != [] {
      LifeCycle(w, es[..|es| - 1]);
      LifeStepExactly(RunWorld(w, es[..|es| - 1]), es[|es| - 1]);
    }
  }

  /** Nothing but a boot changes the generation or reaches RUNNING, and a boot always
      starts an empty session. */
  lemma OnlyBootsCount(w: World, e: Event)
    requires Inv(w.dev) && Possible(e)
    ensures var w' := WorldStep(w, e);
            && (w'.dev.generation != w.dev.generation <==> w'.boots == w.boots + 1)
            && (w'.boots == w.boots + 1 <==> e.BootTimer? && w.dev.bootPending)
            && (w'.dev.status.Running? && !w.dev.status.Running? ==> w'.boots == w.boots + 1)
            && (w'.boots == w.boots + 1 ==>
                  w'.dev.status.Running? && w'.dev.heap == NewSession(w.dev.heap.failArmed) && w'.boots > w.boots)
  {
    hide Trace, HeapInv, AllocBlock, FreeBlock, Serve;
    if e.Data? {
      ServeFrame(w.dev, e.engine, e.req, e.dma);
    }
  }

  /** Two releases in a row can put a rejected firmware into RUNNING. */
  lemma DoubleReleaseRunsRejected(w: World, good: seq<byte>, bad: seq<byte>)
    requires PoweredOn(w) && |good| == |bad| == 16
    requires HeaderAccepted(Splice(w.dev.mem, 0, good)) && !HeaderAccepted(Splice(w.dev.mem, 0, bad))
    ensures var w1 := WorldStep(w, Aperture(0, good));
            Inv(w1.dev) && var w2 := WorldStep(w1, Reset(false));
            Inv(w2.dev) && var w3 := WorldStep(w2, Aperture(0, bad));
            Inv(w3.dev) && var w4 := WorldStep(w3, Reset(false));
            Inv(w4.dev) && var w5 := WorldStep(w4, BootTimer);
            w5.dev.status.Running? && !w5.accepted
  {
    hide HeaderAccepted, HeapInv, Splice, Write32, NewSession, Trace, AllocBlock, FreeBlock, Serve;
    var w1 := WorldStep(w, Aperture(0, good));
    StepKeepsInv(w.dev, Aperture(0, good));
    var w2 := WorldStep(w1, Reset(false));
    StepKeepsInv(w1.dev, Reset(false));
    var w3 := WorldStep(w2, Aperture(0, bad));
    StepKeepsInv(w2.dev, Aperture(0, bad));
    assert w3.dev.mem == Splice(w.dev.mem, 0, bad);
    StepKeepsInv(w3.dev, Reset(false));
  }

  // ---- names ----

  function Base(w: World): int
    requires HeapShaped(w.dev.heap)
  {
    |w.names| - (w.dev.heap.nextHandle - 1)
  }

  ghost predicate Current(w: World, i: nat)
    requires HeapShaped(w.dev.heap) && 0 <= Base(w) <= i < |w.names|
  {
    var h := i - Base(w) + 1;
    var b := w.dev.heap.blocks[h - 1];
    w.names[i] == Name(w.boots, w.boots % TWO32, h, b.offset, b.size, b.node)
  }

  predicate Older(n: Name, boots: nat) {
    n.boot < boots && n.generation == n.boot % TWO32
  }

  predicate Before(m: Name, n: Name) {
    m.boot < n.boot || (m.boot == n.boot && m.handle < n.handle)
  }

  /** The names of the current session are its handle table, in order; all earlier
      names belong to earlier boots. */
  ghost predicate NamesInv(w: World) {
    && Inv(w.dev) && 0 <= Base(w) && w.dev.generation == w.boots % TWO32
    && (forall i {:trigger Older(w.names[i], w.boots)} :: 0 <= i < Base(w) ==> Older(w.names[i], w.boots))
    && (forall i {:trigger Current(w, i)} :: Base(w) <= i < |w.names| ==> Current(w, i))
    && (forall i, j {:trigger Before(w.names[i], w.names[j])} :: 0 <= i < j < |w.names| ==> Before(w.names[i], w.names[j]))
  }

  lemma NamesAlloc(w: World, e: Event)
    requires NamesInv(w) && e.Alloc?
    ensures NamesInv(WorldStep(w, e))
  {
    hide HeapInv, RoundUp;
    StepKeepsInv(w.dev, e);
    var w' := WorldStep(w, e);
    var (heap', answer) := AllocBlock(w.dev.heap, w.dev.generation, e.size, e.want);
    if answer.Granted? {
      GrantGrows(w.dev.heap, w.dev.generation, e.size, e.want);
      assert Base(w') == Base(w);
      forall i | 0 <= i < Base(w')
        ensures Older(w'.names[i], w'.boots)
      {
        assert Older(w.names[i], w.boots);
      }
      forall i | Base(w') <= i < |w'.names|
        ensures Current(w', i)
      {
        if i < |w.names| {
          assert Current(w, i);
        }
      }
      var last := |w.names|;
      forall i, j | 0 <= i < j < |w'.names|
        ensures Before(w'.names[i], w'.names[j])
      {
        if j < last {
          assert Before(w.names[i], w.names[j]);
        } else if i < Base(w) {
          assert Older(w.names[i], w.boots);
        } else {
          assert Current(w, i);
        }
      }
    } else {
      NamesKept(w, w');
    }
  }

  /** Anything that leaves the table's extents and the boot count alone. */
  lemma NamesKept(w: World, w': World)
    requires NamesInv(w) && Inv(w'.dev) && w'.boots == w.boots && w'.names == w.names
    requires w'.dev.generation == w.dev.generation && w'.dev.heap.nextHandle == w.dev.heap.nextHandle
    requires forall k :: 0 <= k < w.dev.heap.nextHandle - 1 ==>
               var b, b' := w.dev.heap.blocks[k], w'.dev.heap.blocks[k];
               b'.offset == b.offset && b'.size == b.size && b'.node == b.node
    ensures NamesInv(w')
  {
    hide HeapInv;
    forall i | 0 <= i < Base(w')
      ensures Older(w'.names[i], w'.boots)
    {
      assert Older(w.names[i], w.boots);
    }
    forall i | Base(w') <= i < |w'.names|
      ensures Current(w', i)
    {
      assert Current(w, i);
    }
  }

  lemma NamesBoot(w: World)
    requires NamesInv(w) && w.dev.bootPending
    ensures NamesInv(WorldStep(w, BootTimer))
  {
    hide HeapInv;
    StepKeepsInv(w.dev, BootTimer);
    NextGeneration(w.boots);
    var w' := WorldStep(w, BootTimer);
    forall i | 0 <= i < Base(w')
      ensures Older(w'.names[i], w'.boots)
    {
      if i < Base(w) {
        assert Older(w.names[i], w.boots);
      } else {
        assert Current(w, i);
      }
    }
    forall i, j | 0 <= i < j < |w'.names|
      ensures Before(w'.names[i], w'.names[j])
    {
      assert Before(w.names[i], w.names[j]);
    }
  }

  lemma NamesOther(w: World, e: Event)
    requires NamesInv(w) && Possible(e) && !e.Alloc? && !(e.BootTimer? && w.dev.bootPending)
    ensures NamesInv(WorldStep(w, e))
  {
    hide HeapInv, Trace, HeaderAccepted, Brought, Splice;
    StepKeepsInv(w.dev, e);
    NamesKept(w, WorldStep(w, e));
  }

  lemma {:induction false} NamesRun(w: World, es: seq<Event>)
    requires PoweredOn(w) && forall e :: e in es ==> Possible(e)
    ensures NamesInv(RunWorld(w, es))
  {
    if es != [] {
      hide HeapInv, WorldStep;
      NamesRun(w, es[..|es| - 1]);
      var v, e := RunWorld(w, es[..|es| - 1]), es[|es| - 1];
      if e.Alloc? {
        NamesAlloc(v, e);
      } else if e.BootTimer? && v.dev.bootPending {
        NamesBoot(v);
      } else {
        NamesOther(v, e);
      }
    }
  }

  /** Over fewer than 2^32 boots, {generation, handle} names at most one allocation. */
  lemma NamesUnique(w: World, i: nat, j: nat)
    requires NamesInv(w) && w.boots < TWO32
    requires i < |w.names| && j < |w.names|
    requires w.names[i].generation == w.names[j].generation && w.names[i].handle == w.names[j].handle
    ensures i == j
  {
    hide HeapInv;
    NameBoot(w, i);
    NameBoot(w, j);
    if i < j {
      InOrder(w, i, j);
    } else if j < i {
      InOrder(w, j, i);
    }
  }

  lemma InOrder(w: World, i: nat, j: nat)
    requires NamesInv(w) && i < j < |w.names|
    ensures Before(w.names[i], w.names[j])
  {
  }

  lemma NameBoot(w: World, i: nat)
    requires NamesInv(w) && w.boots < TWO32 && i < |w.names|
    ensures w.names[i].generation == w.names[i].boot <= w.boots
  {
    hide HeapInv;
    if i < Base(w) {
      assert Older(w.names[i], w.boots);
    } else {
      assert Current(w, i);
    }
  }

  /** The request was for allocation i, which is live, and what it changed or read lies
      inside that allocation. */
  ghost predicate ActsOn(w: World, engine: nat, req: DataReq, dma: Dma, i: nat)
    requires Inv(w.dev) && i < |w.names|
  {
    var (dev, answer) := Serve(w.dev, engine, req, dma);
    var n, lo := w.names[i], w.names[i].offset + req.copy.offset;
    && n.generation == req.generation && n.handle == req.copy.handle && n.boot == w.boots
    && Live(w.dev.heap, n.handle)
    && req.copy.offset + req.copy.len <= n.size && n.offset + n.size <= MEM_SIZE
    && dev.mem[..lo] == w.dev.mem[..lo] && dev.mem[lo + req.copy.len..] == w.dev.mem[lo + req.copy.len..]
    && (answer.toHost.Some? ==> answer.toHost.value == w.dev.mem[lo..lo + req.copy.len])
  }

  /** No ABA: a request carrying {generation, handle} is refused or acts inside the one
      allocation those two ever named, whatever was allocated there since. */
  lemma NoAba(w: World, engine: nat, req: DataReq, dma: Dma)
    requires NamesInv(w) && w.boots < TWO32
    requires Admitted(Serve(w.dev, engine, req, dma).1)
    ensures exists i: nat :: i < |w.names| && ActsOn(w, engine, req, dma, i)
                && forall j: nat :: j < |w.names| && w.names[j].generation == req.generation && w.names[j].handle == req.copy.handle ==> j == i
  {
    hide HeapInv, Serve;
    var h := req.copy.handle;
    ServeActs(w.dev, engine, req, dma);
    var i: nat := Base(w) + h - 1;
    assert Current(w, i);
    assert ActsOn(w, engine, req, dma, i);
    forall j: nat | j < |w.names| && w.names[j].generation == req.generation && w.names[j].handle == h
      ensures j == i
    {
      NamesUnique(w, i, j);
    }
  }

  // ---- the bound on boots is needed ----

  const HeaderBytes: seq<byte> := Bytes32(FW_MAGIC) + Bytes32(FW_ABI) + Bytes32(0x1_0000) + Bytes32(TRACE_SIZE)

  ghost predicate HeaderAtRest(mem: seq<byte>) {
    |mem| == MEM_SIZE && HeaderAccepted(mem) && Read32(mem, 8) == 0x1_0000
  }

  lemma HeaderLoads(mem: seq<byte>)
    requires |mem| == MEM_SIZE
    ensures HeaderAtRest(Splice(mem, 0, HeaderBytes))
  {
    hide Word, Bytes32;
    var m := Splice(mem, 0, HeaderBytes);
    assert m[0..4] == Bytes32(FW_MAGIC) && m[4..8] == Bytes32(FW_ABI);
    assert m[8..12] == Bytes32(0x1_0000) && m[12..16] == Bytes32(TRACE_SIZE);
    WordRoundTrip(FW_MAGIC);
    WordRoundTrip(FW_ABI);
    WordRoundTrip(0x1_0000);
    WordRoundTrip(TRACE_SIZE);
  }

  lemma HeaderKept(mem: seq<byte>, v: u32)
    requires HeaderAtRest(mem)
    ensures HeaderAtRest(Write32(mem, 0x1_000C, v))
  {
    hide Word, Bytes32;
    var m := Write32(mem, 0x1_000C, v);
    assert m[0..4] == mem[0..4] && m[4..8] == mem[4..8] && m[8..12] == mem[8..12] && m[12..16] == mem[12..16];
  }

  /** Held in reset with a good firmware loaded. */
  ghost predicate Ready(w: World) {
    && Inv(w.dev) && w.dev.inReset && !w.dev.bootPending && !w.dev.heap.failArmed
    && HeaderAtRest(w.dev.mem) && w.dev.generation == w.boots % TWO32
  }

  lemma Extend(w: World, es: seq<Event>, e: Event) returns (es': seq<Event>)
    requires Inv(w.dev) && Possible(e) && forall x :: x in es ==> Possible(x)
    ensures es' == es + [e] && forall x :: x in es' ==> Possible(x)
    ensures RunWorld(w, es') == WorldStep(RunWorld(w, es), e)
  {
    es' := es + [e];
    assert es'[..|es'| - 1] == es;
  }

  lemma Release(w: World)
    requires Ready(w)
    ensures var v := WorldStep(w, Reset(false));
            && Inv(v.dev) && v.dev.bootPending && v.dev.traceDa == 0x1_0000 && HeaderAtRest(v.dev.mem)
            && v.boots == w.boots && v.names == w.names && !v.dev.heap.failArmed && v.dev.generation == w.dev.generation
  {
    hide HeapInv, Read32;
  }

  lemma Fire(w: World)
    requires Inv(w.dev) && w.dev.bootPending && w.dev.traceDa == 0x1_0000 && HeaderAtRest(w.dev.mem)
    requires !w.dev.heap.failArmed && w.dev.generation == w.boots % TWO32
    ensures var v := WorldStep(w, BootTimer);
            && Inv(v.dev) && HeaderAtRest(v.dev.mem) && v.dev.heap == NewSession(false)
            && v.boots == w.boots + 1 && v.names == w.names && v.dev.generation == v.boots % TWO32
  {
    hide HeapInv, NewSession, HeaderAtRest, Write32;
    HeaderKept(w.dev.mem, TRACE_ENTRY);
    NextGeneration(w.boots);
    StepKeepsInv(w.dev, BootTimer);
  }

  lemma Hold(w: World)
    requires Inv(w.dev) && HeaderAtRest(w.dev.mem) && w.dev.heap == NewSession(false)
    requires w.dev.generation == w.boots % TWO32
    ensures var v := WorldStep(w, Reset(true));
            Ready(v) && v.boots == w.boots && v.names == w.names && v.dev.heap == NewSession(false)
  {
    hide HeapInv, NewSession, HeaderAtRest;
    NewSessionUnarmed();
  }

  lemma NewSessionUnarmed()
    ensures !NewSession(false).failArmed
  {
  }

  lemma Reboot(w: World, es: seq<Event>) returns (es': seq<Event>)
    requires Inv(w.dev) && (forall x :: x in es ==> Possible(x)) && Ready(RunWorld(w, es))
    ensures forall x :: x in es' ==> Possible(x)
    ensures var v, v' := RunWorld(w, es), RunWorld(w, es');
            Ready(v') && v'.boots == v.boots + 1 && v'.names == v.names && v'.dev.heap == NewSession(false)
  {
    hide HeapInv, NewSession, RunWorld, WorldStep, HeaderAtRest;
    Release(RunWorld(w, es));
    es' := Extend(w, es, Reset(false));
    Fire(RunWorld(w, es'));
    es' := Extend(w, es', BootTimer);
    Hold(RunWorld(w, es'));
    es' := Extend(w, es', Reset(true));
  }

  lemma {:induction false} Reboots(w: World, es: seq<Event>, n: nat) returns (es': seq<Event>)
    requires Inv(w.dev) && (forall x :: x in es ==> Possible(x)) && Ready(RunWorld(w, es))
    ensures forall x :: x in es' ==> Possible(x)
    ensures var v, v' := RunWorld(w, es), RunWorld(w, es');
            Ready(v') && v'.boots == v.boots + n && v'.names == v.names && (n > 0 ==> v'.dev.heap == NewSession(false))
  {
    hide HeapInv, RunWorld, NewSession, Ready;
    es' := es;
    if n > 0 {
      es' := Reboots(w, es, n - 1);
      es' := Reboot(w, es');
    }
  }

  lemma FirstAlloc(generation: u32)
    ensures AllocBlock(NewSession(false), generation, 1, 0).1 == Granted(1, 0, generation, NODE0_BASE)
    ensures !AllocBlock(NewSession(false), generation, 1, 0).0.failArmed
  {
  }

  lemma Allocate(w: World, es: seq<Event>) returns (es': seq<Event>)
    requires Inv(w.dev) && (forall x :: x in es ==> Possible(x)) && Ready(RunWorld(w, es))
    requires RunWorld(w, es).dev.heap == NewSession(false)
    ensures forall x :: x in es' ==> Possible(x)
    ensures var v, v' := RunWorld(w, es), RunWorld(w, es');
            Ready(v') && v'.boots == v.boots && v'.names == v.names + [Name(v.boots, v.boots % TWO32, 1, NODE0_BASE, RoundUpSize(1), 0)]
  {
    hide HeapInv, RunWorld, NewSession, AllocBlock, HeaderAtRest, RoundUpSize;
    FirstAlloc(RunWorld(w, es).dev.generation);
    es' := Extend(w, es, Alloc(1, 0));
  }

  /** After 2^32 boots a pair comes round again: two allocations, one name. */
  lemma NameReuse() returns (w: World, es: seq<Event>)
    ensures PoweredOn(w) && forall e :: e in es ==> Possible(e)
    ensures var names := RunWorld(w, es).names;
            && |names| == 2 && names[0].boot + TWO32 == names[1].boot
            && names[0].generation == names[1].generation && names[0].handle == names[1].handle
  {
    hide HeapInv, RunWorld, NewSession, HeaderAtRest, RoundUpSize, WorldStep;
    var mem: seq<byte> := seq(MEM_SIZE, _ => 0);
    NewSessionInv(false);
    w := World(State(mem, NewSession(false), 0, true, InReset, 0, 0, 0, false), 0, false, []);
    PowerOnInv(mem);
    es := [];
    assert RunWorld(w, es) == w by { RunNothing(w); }
    es := Extend(w, es, Aperture(0, HeaderBytes));
    LoadReady(w);
    es := Reboots(w, es, 1);
    es := Allocate(w, es);
    es := Reboots(w, es, TWO32);
    es := Allocate(w, es);
  }

  lemma PowerOnInv(mem: seq<byte>)
    requires |mem| == MEM_SIZE
    ensures Inv(State(mem, NewSession(false), 0, true, InReset, 0, 0, 0, false))
    ensures !NewSession(false).failArmed
  {
    NewSessionInv(false);
  }

  lemma RunNothing(w: World)
    requires Inv(w.dev)
    ensures RunWorld(w, []) == w
  {
  }

  lemma LoadReady(w: World)
    requires PoweredOn(w) && Possible(Aperture(0, HeaderBytes))
    ensures Ready(WorldStep(w, Aperture(0, HeaderBytes)))
    ensures WorldStep(w, Aperture(0, HeaderBytes)).names == [] && WorldStep(w, Aperture(0, HeaderBytes)).boots == 0
  {
    hide HeapInv, Splice, HeaderAtRest;
    HeaderLoads(w.dev.mem);
  }
}
