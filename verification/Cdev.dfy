/** The character device's calls, end to end and undisturbed: request encoded, served by
    the device, reply decoded, handle table updated.  `copyIn` and `copyOut` are what the
    copies from and to the caller answer, `fate` what becomes of the transaction.  What may
    come in between is the business of `HandleTable` and `CtrlTransaction`. */
module Cdev {
  import opened Hardware
  import Allocator
  import D = Device
  import DeviceModel
  import C = ControlPlane
  import T = CtrlTransaction
  import H = HandleTable
  import Rpmsg

  /** While the driver's generation is the device's, every entry names a live block. */
  ghost predicate Agree(s: D.State, t: H.Table)
    requires Allocator.HeapShaped(s.heap)
  {
    t.generation == s.generation ==> forall h :: h in t.entries ==> H.Names(s.heap, h, t.entries[h])
  }

  /** What becomes of a transaction: it is answered; it cannot be allocated or sent, and the
      device never sees it; or its channel goes away, and the waiter is told -ESTALE
      whether or not the device had served it. */
  datatype Fate = Answered | Unsent(err: int) | Abandoned(served: bool)

  predicate Reaches(fate: Fate) {
    fate.Answered? || (fate.Abandoned? && fate.served)
  }

  predicate Plausible(fate: Fate) {
    fate.Unsent? ==> fate.err < 0
  }

  /** The fate of a transaction whose caller has been told. */
  ghost predicate Became(t: T.Tx, fate: Fate, status: int) {
    match fate
    case Answered => t.pc.Waited? && t.claim.Claimed? && t.claim.who == T.Reply(status)
    case Unsent(err) => t.pc == T.Returned(err) && err != 0
    case Abandoned(_) => t.pc.Waited? && t.claim.Claimed? && t.claim.who.Drained?
  }

  /** In every run of the transaction machine a caller that has been told met exactly these
      three fates, and was told the reply's status, the send's error or -116. */
  lemma FateTold(es: seq<T.Event>, id: nat, fate: Fate, status: int)
    requires T.LegalRun(T.Initial, es) && id < |T.Run(T.Initial, es).txs|
    ensures var t := T.Run(T.Initial, es).txs[id];
            && (Became(t, fate, status) ==>
                  (if t.pc.Waited? then t.pc.result else t.pc.err)
                  == match fate case Answered => status case Unsent(err) => err case Abandoned(_) => -116)
            && (t.pc.Waited? ==>
                  Became(t, Abandoned(true), 0) || exists reply :: Became(t, Answered, reply))
  {
    T.WaiterTold(es, id);
    var t := T.Run(T.Initial, es).txs[id];
    if t.pc.Waited? && t.claim.who.Reply? {
      assert Became(t, Answered, t.claim.who.status);
    }
  }

  /** A request through the control plane: an answered waiter gets the device's verdict. */
  method Call(dev: DeviceModel.VelocitorState, seqNo: u32, r: C.Request, fate: Fate) returns (d: C.Decoded)
    requires dev.Valid() && Plausible(fate)
    modifies dev, dev.nodeBump, dev.alloc
    ensures dev.Valid()
    ensures var (s, a) := C.Verdict(old(dev.State()), r);
            && dev.State() == (if Reaches(fate) then s else old(dev.State()))
            && d == match fate
                    case Answered => C.Decoded(C.StatusOf(a), if a.Failed? then None else Some(a))
                    case Unsent(err) => C.Decoded(err, None)
                    case Abandoned(_) => C.Decoded(-116, None)
  {
    hide Allocator.HeapInv, C.Serve, C.Verdict, C.Decode, C.Encode, C.Reply;
    C.CallExactly(dev.State(), seqNo, r);
    if fate.Unsent? {
      return C.Decoded(fate.err, None);
    }
    var data := C.Encode(seqNo, r);
    if fate.Abandoned? {
      if fate.served {
        var _ := Rpmsg.Answer(dev, data);
      }
      return C.Decoded(ESTALE, None);
    }
    var a := Rpmsg.Answer(dev, data);
    var reply := C.Decode(C.OpOf(r), C.Reply(data, a));
    return reply.value;
  }

  /** A granted block is entered in both tables, a refused one in neither; one whose reply
      is stale, lost or finds no memory for its entry stays with the device alone.  A
      failing copy to the caller comes too late to undo either. */
  method IoctlAlloc(dev: DeviceModel.VelocitorState, handles: H.Handles, seqNo: u32, size: u64, dtype: u32, node: u32,
                    fate: Fate, room: bool, copyIn: int, copyOut: int)
    returns (err: int, handle: u32)
    requires dev.Valid() && Plausible(fate)
    modifies dev, dev.nodeBump, dev.alloc, handles
    ensures dev.Valid()
    ensures copyIn != OK ==> err == copyIn && dev.State() == old(dev.State()) && handles.State() == old(handles.State())
    ensures copyIn == OK ==>
              dev.State() == if Reaches(fate) then D.Step(old(dev.State()), D.Alloc(size, node)).0 else old(dev.State())
    ensures copyIn == OK ==>
            var answer := D.Step(old(dev.State()), D.Alloc(size, node)).1.alloc;
            if !fate.Answered? || answer.Refused? || !room then
              && handles.State() == old(handles.State())
              && err == match fate
                        case Unsent(e) => e
                        case Abandoned(_) => -116
                        case Answered => if answer.Refused? then answer.err else ENOMEM
            else
              var entry := H.Entry(answer.generation, size, answer.node, answer.offset);
              var inserted := H.Inserted(old(handles.State()), H.Reply(answer.handle, entry));
              && handles.State() == inserted.0
              && err == (if inserted.1 != OK then inserted.1 else copyOut)
              && (inserted.1 == OK ==> handle == answer.handle)
    ensures old(Agree(dev.State(), handles.State())) ==> Agree(dev.State(), handles.State())
    ensures old(Agree(dev.State(), handles.State())) && fate.Answered? && copyIn == OK && copyOut != EBUSY ==> err != EBUSY
  {
    hide Allocator.HeapInv, Allocator.AllocBlock, H.Names;
    handle := 0;
    if copyIn != OK {
      return copyIn, 0;
    }
    AllocAgrees(dev.State(), handles.State(), size, node);
    AllocKeepsAgreement(dev.State(), handles.State(), size, node);
    var d := Call(dev, seqNo, C.AllocReq(size, dtype, node), fate);
    if d.status != OK {
      return d.status, 0;
    }
    if !room {
      return ENOMEM, 0;
    }
    var a := d.answer.value;
    err := handles.Insert(H.Reply(a.handle, H.Entry(a.session, size, a.node, a.offset)));
    if err == OK {
      handle := a.handle;
      err := copyOut;
    }
  }

  /** A block the driver never enters does not disturb the ones it has. */
  lemma AllocKeepsAgreement(s: D.State, t: H.Table, size: u64, node: u32)
    requires D.Inv(s)
    ensures Agree(s, t) ==> Agree(s.(heap := Allocator.AllocBlock(s.heap, s.generation, size, node).0), t)
  {
    hide Allocator.Accounted, Allocator.AllDisjoint, Allocator.AllPlaced;
    if Allocator.AllocBlock(s.heap, s.generation, size, node).1.Granted? {
      H.AllocEffect(s.heap, s.generation, size, node);
    } else {
      H.RefusedEffect(s.heap, s.generation, size, node);
    }
  }

  /** What a granted or refused ALLOC means for the two tables. */
  lemma AllocAgrees(s: D.State, t: H.Table, size: u64, node: u32)
    requires D.Inv(s)
    ensures var (heap, answer) := Allocator.AllocBlock(s.heap, s.generation, size, node);
            if answer.Refused? then
              (answer.err == EINVAL || answer.err == ENOMEM) && (Agree(s, t) ==> Agree(s.(heap := heap), t))
            else
              var entry := H.Entry(answer.generation, size, answer.node, answer.offset);
              var (t', err) := H.Inserted(t, H.Reply(answer.handle, entry));
              answer.node < NODES && (Agree(s, t) ==> Agree(s.(heap := heap), t') && err != EBUSY)
  {
    hide Allocator.Accounted, Allocator.AllDisjoint, Allocator.AllPlaced;
    C.AllocErrors(s.heap, s.generation, size, node);
    if Allocator.AllocBlock(s.heap, s.generation, size, node).1.Granted? {
      H.AllocEffect(s.heap, s.generation, size, node);
    } else {
      H.RefusedEffect(s.heap, s.generation, size, node);
    }
  }

  /** The entry goes first, the block after it: a FREE that is not sent leaves the block to
      the device, and nothing else behind.  While the tables agree the device never refuses
      what the driver erased. */
  method IoctlFree(dev: DeviceModel.VelocitorState, handles: H.Handles, seqNo: u32, generation: u32, handle: u32,
                   fate: Fate, copyIn: int)
    returns (err: int)
    requires dev.Valid() && Plausible(fate)
    modifies dev, dev.nodeBump, dev.alloc, handles
    ensures dev.Valid()
    ensures copyIn != OK ==> err == copyIn && dev.State() == old(dev.State()) && handles.State() == old(handles.State())
    ensures copyIn == OK ==>
            var erased := H.Removed(old(handles.State()), generation, handle);
            && handles.State() == erased.0
            && (erased.1 != OK ==> err == erased.1 && dev.State() == old(dev.State()))
            && (erased.1 == OK ==>
                  var step := D.Step(old(dev.State()), D.Free(handle));
                  && dev.State() == (if Reaches(fate) then step.0 else old(dev.State()))
                  && err == match fate
                            case Answered => step.1.err
                            case Unsent(e) => e
                            case Abandoned(_) => -116)
    ensures old(Agree(dev.State(), handles.State())) ==> Agree(dev.State(), handles.State())
    ensures old(Agree(dev.State(), handles.State())) && generation == old(dev.generation) && fate.Answered? && copyIn == OK ==>
              (err == OK <==> old(handles.generation) == generation && handle in old(handles.entries))
  {
    hide Allocator.HeapInv;
    if copyIn != OK {
      return copyIn;
    }
    FreeAgrees(dev.State(), handles.State(), generation, handle);
    err := handles.Erase(generation, handle);
    if err != OK {
      return err;
    }
    var d := Call(dev, seqNo, C.FreeReq(handle), fate);
    return d.status;
  }

  lemma FreeAgrees(s: D.State, t: H.Table, generation: u32, handle: u32)
    requires D.Inv(s)
    ensures var erased := H.Removed(t, generation, handle);
            var (heap, err) := Allocator.FreeBlock(s.heap, handle);
            && (Agree(s, t) ==> Agree(s, erased.0) && (erased.1 == OK ==> Agree(s.(heap := heap), erased.0)))
            && (Agree(s, t) && generation == s.generation && erased.1 == OK ==> err == OK)
  {
    hide Allocator.Accounted, Allocator.AllDisjoint, Allocator.AllPlaced;
    H.FreeEffect(s.heap, handle);
  }

  /** Live handles and the free bytes of each node, as the allocator has them. */
  method IoctlStats(dev: DeviceModel.VelocitorState, seqNo: u32, fate: Fate, copyOut: int)
    returns (err: int, live: u32, capacity: seq<u64>, free: seq<u64>)
    requires dev.Valid() && Plausible(fate)
    modifies dev, dev.nodeBump, dev.alloc
    ensures dev.Valid() && dev.State() == old(dev.State())
    ensures err == match fate
                   case Answered => copyOut
                   case Unsent(e) => e
                   case Abandoned(_) => -116
    ensures fate.Answered? ==> live as int == old(dev.liveHandles) as int && |capacity| == |free| == NODES
    ensures fate.Answered? ==>
              forall n :: 0 <= n < NODES ==>
                && capacity[n] == Allocator.NodeEnd(n) - Allocator.NodeBase(n)
                && free[n] == Allocator.NodeEnd(n) - old(dev.nodeBump[..])[n]
  {
    hide Allocator.HeapInv;
    Allocator.FreeIsExact(dev.Heap());
    var d := Call(dev, seqNo, C.StatReq, fate);
    if d.status != OK {
      return d.status, 0, [], [];
    }
    var a := d.answer.value;
    return copyOut, a.live, [a.capacity0, a.capacity1], [a.free0, a.free1];
  }
}
