/** Control-plane transactions: who may touch one, who frees it, and who wakes its caller.

    A transaction is shared between its caller, the in-flight table and whoever takes it
    out of the table: the reply callback, a cancel after a failed send, or the drain of
    a channel that is going away.  Every step below is one atomic action of one thread,
    so a run is an arbitrary interleaving of all of them. */
module CtrlTransaction {
  import opened Hardware

  /** What the caller has done so far.  `Holding` is send with the read side of
      rpdev_lock still held and rpmsg_send's verdict in hand. */
  datatype Pc =
    | Allocated | GotRef | Reading | Holding(err: int) | Cancelling(err: int)
    | Returned(err: int) | Waited(result: int) | Released

  datatype Claimer = Reply(status: int) | Cancelled | Drained

  /** Whoever takes the entry out of the table writes the status, notifies, drops the
      table's reference. */
  datatype Stage = Removed | StatusSet | Notified | Dropped

  datatype Claim = InTable | Claimed(who: Claimer, stage: Stage)

  datatype Tx = Tx(
    seqNo: nat, op: nat, sync: bool,
    refs: int, frees: nat, status: int, notified: nat,
    pc: Pc, claim: Claim, sentOn: Option<nat>)

  /** `rpdev` is the channel senders use, numbered by how many were opened before it;
      `bound` whether replies still find their way from the endpoint to this table; `drain`
      the remove in progress, with the transaction it is dealing with. */
  datatype State = State(
    txs: seq<Tx>, table: map<nat, nat>, rpdev: Option<nat>, bound: bool, channels: nat, drain: DrainState)

  datatype DrainState = NotDraining | Draining(current: Option<nat>)

  datatype Event =
    | Alloc(seqNo: nat, op: nat, sync: bool)
    | GetRef(id: nat)
    | Refuse(id: nat)                 // send's -EINVAL on an op it does not know
    | DownRead(id: nat)
    | RpmsgSend(id: nat, err: int)    // the transport's own verdict, if there is a channel
    | UpRead(id: nat)
    | Cancel(id: nat)
    | CancelDone(id: nat)
    | Wait(id: nat)
    | Release(id: nat)
    | TakeReply(seqNo: nat, status: int)
    | Advance(id: nat)                // the claimer's next action
    | Open                            // probe: the write side of rpdev_lock
    | OpenFails                       // probe gives the channel up again...
    | Unbind                          // ...and clears its driver data
    | Close                           // remove: endpoint destroyed, under the write side
    | TakeDrain(seqNo: nat)
    | DrainEnd

  predicate KnownOp(op: nat) {
    op == OP_INFO || op == OP_ALLOC || op == OP_FREE || op == OP_STAT
  }

  function StatusOf(who: Claimer): int {
    match who
    case Reply(status) => status
    case Cancelled => ECANCELED
    case Drained => ESTALE
  }

  // ---- the steps ----

  predicate AtPc(s: State, id: nat, pc: Pc) {
    id < |s.txs| && s.txs[id].pc == pc
  }

  predicate Locked(t: Tx) {
    t.pc.Reading? || t.pc.Holding?
  }

  /** The write side waits for every reader. */
  ghost predicate NoReaders(s: State) {
    forall i :: 0 <= i < |s.txs| ==> !Locked(s.txs[i])
  }

  predicate InRange(s: State) {
    forall k :: k in s.table ==> s.table[k] < |s.txs|
  }

  /** What each thread can do next, by its own program alone. */
  ghost predicate Possible(s: State, e: Event) {
    match e
    case Alloc(seqNo, _, _) => 0 < seqNo && seqNo !in s.table
    case GetRef(id) => AtPc(s, id, Allocated) && KnownOp(s.txs[id].op)
    case Refuse(id) => AtPc(s, id, Allocated) && !KnownOp(s.txs[id].op)
    case DownRead(id) => AtPc(s, id, GotRef)
    case RpmsgSend(id, _) => AtPc(s, id, Reading)
    case UpRead(id) => id < |s.txs| && s.txs[id].pc.Holding?
    case Cancel(id) => id < |s.txs| && s.txs[id].pc.Cancelling? && !CancelClaimed(s.txs[id])
    case CancelDone(id) => id < |s.txs| && s.txs[id].pc.Cancelling? && s.txs[id].claim == Claimed(Cancelled, Dropped)
    case Wait(id) => AtPc(s, id, Returned(0)) && s.txs[id].sync && s.txs[id].notified > 0
    case Release(id) =>
      id < |s.txs| && (s.txs[id].pc.Waited? || (s.txs[id].pc.Returned? && (s.txs[id].pc.err != 0 || !s.txs[id].sync)))
    case TakeReply(_, _) => true
    case Advance(id) => id < |s.txs| && s.txs[id].claim.Claimed? && !s.txs[id].claim.stage.Dropped?
    case Open => s.rpdev.None? && !s.bound && NoReaders(s)
    case Unbind => s.rpdev.None? && s.bound
    case OpenFails => s.rpdev.Some? && NoReaders(s)
    case Close => s.rpdev.Some? && s.drain.NotDraining? && NoReaders(s)
    case TakeDrain(seqNo) => DrainReady(s) && seqNo in s.table && forall k :: k in s.table ==> seqNo <= k
    case DrainEnd => DrainReady(s) && s.table == map[]
  }

  predicate CancelClaimed(t: Tx) {
    t.claim.Claimed? && t.claim.who.Cancelled?
  }

  /** The drain handles one transaction to the end before it looks for the next. */
  predicate DrainReady(s: State) {
    && s.drain.Draining?
    && (s.drain.current.Some? ==>
          s.drain.current.value < |s.txs| && s.txs[s.drain.current.value].claim == Claimed(Drained, Dropped))
  }

  function SetPc(s: State, id: nat, pc: Pc): State
    requires id < |s.txs|
  {
    s.(txs := s.txs[id := s.txs[id].(pc := pc)])
  }

  /** kref_put: the last reference frees. */
  function Put(t: Tx): Tx {
    t.(refs := t.refs - 1, frees := if t.refs - 1 == 0 then t.frees + 1 else t.frees)
  }

  /** idr_remove, and what its caller got. */
  function Take(s: State, seqNo: nat, who: Claimer): State
    requires InRange(s) && seqNo in s.table
  {
    var id := s.table[seqNo];
    s.(table := s.table - {seqNo}, txs := s.txs[id := s.txs[id].(claim := Claimed(who, Removed))])
  }

  function Advanced(t: Tx): Tx
    requires t.claim.Claimed?
  {
    match t.claim.stage
    case Removed => t.(status := StatusOf(t.claim.who), claim := t.claim.(stage := StatusSet))
    case StatusSet => t.(notified := t.notified + 1, claim := t.claim.(stage := Notified))
    case Notified => Put(t.(claim := t.claim.(stage := Dropped)))
    case Dropped => t
  }

  function Step(s: State, e: Event): (s': State)
    requires InRange(s) && Possible(s, e)
    ensures InRange(s')
  {
    match e
    case Alloc(seqNo, op, sync) =>
      s.(txs := s.txs + [Tx(seqNo, op, sync, 1, 0, 0, 0, Allocated, InTable, None)],
         table := s.table[seqNo := |s.txs|])
    case GetRef(id) => s.(txs := s.txs[id := s.txs[id].(refs := s.txs[id].refs + 1, pc := GotRef)])
    case Refuse(id) => SetPc(s, id, Returned(EINVAL))
    case DownRead(id) => SetPc(s, id, Reading)
    case RpmsgSend(id, err) =>
      var verdict := if s.rpdev.None? then ENODEV else err;
      s.(txs := s.txs[id := s.txs[id].(pc := Holding(verdict), sentOn := if verdict == 0 then s.rpdev else None)])
    case UpRead(id) => SetPc(s, id, if s.txs[id].pc.err == 0 then Returned(0) else Cancelling(s.txs[id].pc.err))
    case Cancel(id) =>
      if s.txs[id].seqNo in s.table then Take(s, s.txs[id].seqNo, Cancelled) else SetPc(s, id, Returned(s.txs[id].pc.err))
    case CancelDone(id) => SetPc(s, id, Returned(s.txs[id].pc.err))
    case Wait(id) => SetPc(s, id, Waited(s.txs[id].status))
    case Release(id) => s.(txs := s.txs[id := Put(s.txs[id].(pc := Released))])
    case TakeReply(seqNo, status) => if s.bound && seqNo in s.table then Take(s, seqNo, Reply(status)) else s
    case Advance(id) => s.(txs := s.txs[id := Advanced(s.txs[id])])
    case Open => s.(rpdev := Some(s.channels), bound := true, channels := s.channels + 1)
    case OpenFails => s.(rpdev := None)
    case Unbind => s.(bound := false)
    case Close => s.(rpdev := None, bound := false, drain := Draining(None))
    case TakeDrain(seqNo) => Take(s, seqNo, Drained).(drain := Draining(Some(s.table[seqNo])))
    case DrainEnd => s.(drain := NotDraining)
  }

  /** A claim that lands between a transaction's allocation and send's kref_get. */
  predicate EarlyClaim(s: State, e: Event)
    requires InRange(s)
  {
    match e
    case TakeReply(seqNo, _) => s.bound && seqNo in s.table && s.txs[s.table[seqNo]].pc.Allocated?
    case TakeDrain(seqNo) => seqNo in s.table && s.txs[s.table[seqNo]].pc.Allocated?
    case _ => false
  }

  /** What the cyclic allocator and the callers add: a sequence number does not come round
      while a caller still holds its previous owner, and the op is one of the four. */
  predicate WellAllocated(s: State, e: Event) {
    e.Alloc? ==> KnownOp(e.op) && forall i :: 0 <= i < |s.txs| && !s.txs[i].pc.Released? ==> s.txs[i].seqNo != e.seqNo
  }

  ghost predicate Legal(s: State, e: Event)
    requires InRange(s)
  {
    Possible(s, e) && WellAllocated(s, e) && !EarlyClaim(s, e)
  }

  // ---- ownership ----

  function One(b: bool): nat {
    if b then 1 else 0
  }

  /** The references somebody will still drop: the caller's, and the table's or the
      claimer's.  The table's exists from kref_get on. */
  function Owed(t: Tx): nat {
    One(!t.pc.Released?) + One(if t.claim.InTable? then !t.pc.Allocated? else !t.claim.stage.Dropped?)
  }

  predicate Accounted(t: Tx) {
    t.refs == Owed(t) && t.frees == One(t.refs == 0)
  }

  predicate Announced(t: Tx) {
    && t.notified == One(t.claim.Claimed? && (t.claim.stage.Notified? || t.claim.stage.Dropped?))
    && (t.claim.Claimed? && !t.claim.stage.Removed? ==> t.status == StatusOf(t.claim.who))
  }

  /** How far send got, and who may have claimed the transaction by then. */
  predicate Coherent(t: Tx) {
    && KnownOp(t.op)
    && (t.pc.Allocated? ==> t.claim.InTable?)
    && (t.pc.Allocated? || t.pc.GotRef? || t.pc.Reading? || t.pc.Cancelling? ==> t.sentOn.None?)
    && (t.pc.Holding? ==> (t.pc.err == 0 <==> t.sentOn.Some?))
    && (t.pc.Cancelling? ==> t.pc.err != 0)
    && (t.pc.Returned? ==> if t.pc.err == 0 then t.sentOn.Some? else t.claim.Claimed? && t.sentOn.None?)
    && (t.pc.Waited? ==> t.notified == 1 && t.pc.result == t.status)
    && (t.pc.Released? ==> t.sentOn.Some? || t.claim.Claimed?)
    && (CancelClaimed(t) ==>
          t.sentOn.None? && (t.pc.Cancelling? || (t.claim.stage.Dropped? && (t.pc.Returned? || t.pc.Released?))))
  }

  predicate Listed(s: State, id: nat)
    requires id < |s.txs|
  {
    s.txs[id].seqNo in s.table && s.table[s.txs[id].seqNo] == id
  }

  ghost predicate TxInv(s: State, id: nat)
    requires id < |s.txs|
  {
    var t := s.txs[id];
    && Accounted(t) && Announced(t) && Coherent(t)
    && (t.claim.InTable? <==> Listed(s, id))
    && (!t.pc.Released? && t.seqNo in s.table ==> s.table[t.seqNo] == id)
    && (t.sentOn.Some? ==> t.sentOn.value < s.channels)
  }

  ghost predicate Inv(s: State) {
    && InRange(s)
    && (forall k :: k in s.table ==> s.txs[s.table[k]].seqNo == k)
    && (s.rpdev.Some? ==> s.rpdev.value < s.channels)
    && forall id :: 0 <= id < |s.txs| ==> TxInv(s, id)
  }

  // ---- every step keeps the ownership ----

  /** One transaction changed, and not whether it is in the table. */
  lemma LocalStep(s: State, s': State, id: nat, t: Tx)
    requires Inv(s) && id < |s.txs| && s'.txs == s.txs[id := t] && s'.table == s.table
    requires s'.rpdev == s.rpdev && s'.channels == s.channels
    requires t.seqNo == s.txs[id].seqNo && (t.claim.InTable? <==> s.txs[id].claim.InTable?)
    requires s.txs[id].pc.Released? ==> t.pc.Released?
    requires Accounted(t) && Announced(t) && Coherent(t) && (t.sentOn.Some? ==> t.sentOn.value < s.channels)
    ensures Inv(s')
  {
    hide Accounted, Announced, Coherent;
    assert TxInv(s, id);
    forall i | 0 <= i < |s'.txs|
      ensures TxInv(s', i)
    {
      assert TxInv(s, i);
    }
  }

  lemma CallerKeepsInv(s: State, e: Event)
    requires Inv(s) && Possible(s, e)
    requires e.GetRef? || e.DownRead? || e.RpmsgSend? || e.UpRead? || e.Wait? || e.Release? || e.CancelDone?
    ensures Inv(Step(s, e))
  {
    assert TxInv(s, e.id);
    LocalStep(s, Step(s, e), e.id, Step(s, e).txs[e.id]);
  }

  lemma AdvanceKeepsInv(s: State, id: nat)
    requires Inv(s) && Possible(s, Advance(id))
    ensures Inv(Step(s, Advance(id)))
  {
    assert TxInv(s, id);
    LocalStep(s, Step(s, Advance(id)), id, Advanced(s.txs[id]));
  }

  /** Taking the entry moves the table's reference to the taker. */
  lemma TakeExactly(s: State, seqNo: nat, who: Claimer)
    requires Inv(s) && seqNo in s.table
    requires who.Cancelled? ==> s.txs[s.table[seqNo]].pc.Cancelling?
    ensures Inv(Take(s, seqNo, who)) <==> !s.txs[s.table[seqNo]].pc.Allocated?
  {
    var s', id := Take(s, seqNo, who), s.table[seqNo];
    assert TxInv(s, id);
    if s.txs[id].pc.Allocated? {
      assert !TxInv(s', id);
    } else {
      assert TxInv(s', id);
      forall i | 0 <= i < |s'.txs| && i != id
        ensures TxInv(s', i)
      {
        TakeElsewhere(s, seqNo, who, i);
      }
    }
  }

  lemma TakeElsewhere(s: State, seqNo: nat, who: Claimer, i: nat)
    requires Inv(s) && seqNo in s.table && i < |s.txs| && i != s.table[seqNo]
    ensures TxInv(Take(s, seqNo, who), i)
  {
    hide Accounted, Announced, Coherent;
    assert TxInv(s, i);
  }

  lemma AllocKeepsInv(s: State, seqNo: nat, op: nat, sync: bool)
    requires Inv(s) && Legal(s, Alloc(seqNo, op, sync))
    ensures Inv(Step(s, Alloc(seqNo, op, sync)))
  {
    var s' := Step(s, Alloc(seqNo, op, sync));
    assert TxInv(s', |s.txs|);
    forall i | 0 <= i < |s.txs|
      ensures TxInv(s', i)
    {
      hide Accounted, Announced, Coherent;
      assert TxInv(s, i);
    }
  }

  lemma ChannelKeepsInv(s: State, e: Event)
    requires Inv(s) && Possible(s, e) && (e.Open? || e.OpenFails? || e.Unbind? || e.Close? || e.DrainEnd?)
    ensures Inv(Step(s, e))
  {
    hide Accounted, Announced, Coherent;
    var s' := Step(s, e);
    forall i | 0 <= i < |s'.txs|
      ensures TxInv(s', i)
    {
      assert TxInv(s, i);
    }
  }

  lemma CancelKeepsInv(s: State, id: nat)
    requires Inv(s) && Possible(s, Cancel(id))
    ensures Inv(Step(s, Cancel(id)))
  {
    assert TxInv(s, id);
    if s.txs[id].seqNo in s.table {
      TakeExactly(s, s.txs[id].seqNo, Cancelled);
    } else {
      LocalStep(s, Step(s, Cancel(id)), id, s.txs[id].(pc := Returned(s.txs[id].pc.err)));
    }
  }

  lemma DrainFrame(s: State, d: DrainState)
    ensures Inv(s.(drain := d)) <==> Inv(s)
  {
    hide Accounted, Announced, Coherent;
    var s' := s.(drain := d);
    if InRange(s) {
      assert forall i :: 0 <= i < |s.txs| ==> (TxInv(s, i) <==> TxInv(s', i));
    }
  }

  /** An allocation that is not well made leaves the table ambiguous, or an op send will
      refuse. */
  lemma AllocExactly(s: State, seqNo: nat, op: nat, sync: bool)
    requires Inv(s) && Possible(s, Alloc(seqNo, op, sync))
    ensures Inv(Step(s, Alloc(seqNo, op, sync))) <==> WellAllocated(s, Alloc(seqNo, op, sync))
  {
    var e := Alloc(seqNo, op, sync);
    if WellAllocated(s, e) {
      AllocKeepsInv(s, seqNo, op, sync);
    } else {
      var s' := Step(s, e);
      assert !KnownOp(op) ==> !TxInv(s', |s.txs|);
      forall i | 0 <= i < |s.txs| && !s.txs[i].pc.Released? && s.txs[i].seqNo == seqNo
        ensures !TxInv(s', i)
      {
        assert s'.txs[i] == s.txs[i];
      }
    }
  }

  /** The hypotheses are exact: of everything any thread can do, only a claim that lands
      before send's kref_get, an op that send does not know and a sequence number that
      comes round too early break the accounting. */
  lemma StepExactly(s: State, e: Event)
    requires Inv(s) && Possible(s, e)
    ensures Inv(Step(s, e)) <==> !EarlyClaim(s, e) && WellAllocated(s, e)
  {
    hide TxInv;
    match e
    case Alloc(seqNo, op, sync) => AllocExactly(s, seqNo, op, sync);
    case TakeReply(seqNo, status) => if s.bound && seqNo in s.table { TakeExactly(s, seqNo, Reply(status)); }
    case TakeDrain(seqNo) =>
      TakeExactly(s, seqNo, Drained);
      DrainFrame(Take(s, seqNo, Drained), Draining(Some(s.table[seqNo])));
    case Cancel(id) => CancelKeepsInv(s, id);
    case Advance(id) => AdvanceKeepsInv(s, id);
    case Refuse(id) => OpsKnown(s, id);
    case Open => ChannelKeepsInv(s, e);
    case OpenFails => ChannelKeepsInv(s, e);
    case Unbind => ChannelKeepsInv(s, e);
    case Close => ChannelKeepsInv(s, e);
    case DrainEnd => ChannelKeepsInv(s, e);
    case _ => CallerKeepsInv(s, e);
  }

  lemma OpsKnown(s: State, id: nat)
    requires Inv(s) && id < |s.txs|
    ensures 1 <= s.txs[id].op <= 4
  {
    assert TxInv(s, id);
  }

  // ---- what the ownership gives ----

  /** The transactions whose memory a step reads or writes. */
  function Touches(s: State, e: Event): set<nat>
    requires InRange(s)
  {
    match e
    case GetRef(id) => {id}
    case Refuse(id) => {id}
    case DownRead(id) => {id}
    case RpmsgSend(id, _) => {id}
    case UpRead(id) => {id}
    case Cancel(id) => {id}
    case Wait(id) => {id}
    case Release(id) => {id}
    case Advance(id) => {id}
    case TakeReply(seqNo, _) => if s.bound && seqNo in s.table then {s.table[seqNo]} else {}
    case TakeDrain(seqNo) => if seqNo in s.table then {s.table[seqNo]} else {}
    case _ => {}
  }

  lemma NoTouchAfterFree(s: State, e: Event)
    requires Inv(s) && Possible(s, e)
    ensures forall id :: id in Touches(s, e) ==> id < |s.txs| && s.txs[id].frees == 0
  {
    forall id | id in Touches(s, e)
      ensures id < |s.txs| && s.txs[id].frees == 0
    {
      assert TxInv(s, id);
    }
  }

  /** A transaction changes hands once: whoever claimed it stays its only claimer. */
  lemma ClaimedOnce(s: State, e: Event, id: nat)
    requires Inv(s) && Legal(s, e) && id < |s.txs| && s.txs[id].claim.Claimed?
    ensures id < |Step(s, e).txs| && Step(s, e).txs[id].claim.Claimed?
    ensures Step(s, e).txs[id].claim.who == s.txs[id].claim.who
  {
    hide Accounted, Announced, Coherent, WellAllocated, NoReaders, DrainReady;
    assert TxInv(s, id);
    if (e.TakeReply? || e.TakeDrain?) && e.seqNo in s.table {
      assert TxInv(s, s.table[e.seqNo]);
    }
    if e.Cancel? {
      assert TxInv(s, e.id);
    }
  }

  /** Freed once, and only when caller and claimer are both through; notified once,
      before that; and a wait returns what the claimer decided. */
  lemma ExactlyOnce(s: State, id: nat)
    requires Inv(s) && id < |s.txs|
    ensures var t := s.txs[id];
            && t.frees <= 1 && t.notified <= 1
            && (t.frees == 1 <==> t.pc.Released? && t.claim.Claimed? && t.claim.stage.Dropped?)
            && (t.frees == 1 ==> t.notified == 1)
            && (t.pc.Waited? ==>
                  t.claim.Claimed? &&
                  t.pc.result == match t.claim.who case Reply(status) => status case Cancelled => -125 case Drained => -116)
            && (t.pc.Released? && t.claim.InTable? ==> t.sentOn.Some?)
  {
    assert TxInv(s, id);
  }

  /** Nobody is stuck for want of a step of its own: a caller can always go on unless it
      waits for its transaction to be claimed and announced, or for its own cancel to be
      through, and a claimer can always go on until it has let go. */
  lemma NobodyStuck(s: State, id: nat, err: int, status: int)
    requires Inv(s) && id < |s.txs|
    ensures var t := s.txs[id];
            && match t.pc
               case Allocated => Legal(s, GetRef(id))
               case GotRef => Legal(s, DownRead(id))
               case Reading => Legal(s, RpmsgSend(id, err))
               case Holding(_) => Legal(s, UpRead(id))
               case Cancelling(_) =>
                 || Legal(s, Cancel(id)) || Legal(s, CancelDone(id))
                 || (t.claim.Claimed? && t.claim.who.Cancelled? && Legal(s, Advance(id)))
               case Returned(e) =>
                 if e == 0 && t.sync then Legal(s, Wait(id)) <==> t.notified == 1 else Legal(s, Release(id))
               case Waited(_) => Legal(s, Release(id))
               case Released => true
    ensures s.txs[id].claim.Claimed? && s.txs[id].claim.stage != Dropped ==> Legal(s, Advance(id))
    ensures s.bound && s.txs[id].claim.InTable? && !s.txs[id].pc.Allocated? ==>
              Legal(s, TakeReply(s.txs[id].seqNo, status)) && Step(s, TakeReply(s.txs[id].seqNo, status)).txs[id].claim.Claimed?
  {
    assert TxInv(s, id);
  }

  // ---- runs ----

  ghost predicate LegalRun(s: State, es: seq<Event>)
    requires InRange(s)
    decreases |es|
  {
    es == [] || (Legal(s, es[0]) && LegalRun(Step(s, es[0]), es[1..]))
  }

  ghost function Run(s: State, es: seq<Event>): (s': State)
    requires InRange(s) && LegalRun(s, es)
    ensures InRange(s')
    decreases |es|
  {
    if es == [] then s else Run(Step(s, es[0]), es[1..])
  }

  const Initial := State([], map[], None, false, 0, NotDraining)

  lemma {:induction false} RunKeepsInv(s: State, es: seq<Event>)
    requires Inv(s) && LegalRun(s, es)
    ensures Inv(Run(s, es))
    decreases |es|
  {
    hide TxInv;
    if es != [] {
      StepExactly(s, es[0]);
      RunKeepsInv(Step(s, es[0]), es[1..]);
    }
  }

  /** Every interleaving: one claimer, one notification, one free, nothing touched
      after it, and no reference unaccounted for. */
  lemma OwnedThroughout(es: seq<Event>, id: nat)
    requires LegalRun(Initial, es) && id < |Run(Initial, es).txs|
    ensures var t := Run(Initial, es).txs[id];
            && t.refs == Owed(t) && t.frees <= 1 && t.notified <= 1
            && (t.frees == 1 <==> Owed(t) == 0)
            && (Owed(t) == 0 ==>
                  t.claim.Claimed? && t.notified == 1 &&
                  t.status == match t.claim.who case Reply(status) => status case Cancelled => -125 case Drained => -116)
  {
    RunKeepsInv(Initial, es);
    assert TxInv(Run(Initial, es), id);
  }

  /** Only these claim, and each leaves its own mark. */
  lemma ClaimStep(s: State, e: Event, id: nat)
    requires Inv(s) && Legal(s, e) && id < |Step(s, e).txs| && Step(s, e).txs[id].claim.Claimed?
    ensures id < |s.txs| && s.txs[id].seqNo == Step(s, e).txs[id].seqNo
    ensures var who := Step(s, e).txs[id].claim.who;
            || (s.txs[id].claim.Claimed? && s.txs[id].claim.who == who)
            || match who
               case Reply(status) => e == TakeReply(s.txs[id].seqNo, status)
               case Cancelled => e == Cancel(id)
               case Drained => e == TakeDrain(s.txs[id].seqNo)
  {
    hide Accounted, Announced, Coherent, WellAllocated, NoReaders, DrainReady;
    if id < |s.txs| {
      assert TxInv(s, id);
    }
    if e.Cancel? {
      assert TxInv(s, e.id);
    }
  }

  ghost predicate Claims(es: seq<Event>, id: nat, seqNo: nat, who: Claimer) {
    match who
    case Reply(status) => TakeReply(seqNo, status) in es
    case Cancelled => Cancel(id) in es
    case Drained => TakeDrain(seqNo) in es
  }

  lemma {:induction false} ClaimRun(s: State, es: seq<Event>, id: nat)
    requires Inv(s) && LegalRun(s, es) && id < |Run(s, es).txs| && Run(s, es).txs[id].claim.Claimed?
    ensures var t := Run(s, es).txs[id];
            || Claims(es, id, t.seqNo, t.claim.who)
            || (id < |s.txs| && s.txs[id].seqNo == t.seqNo && s.txs[id].claim.Claimed? && s.txs[id].claim.who == t.claim.who)
    decreases |es|
  {
    hide TxInv, Possible, WellAllocated, EarlyClaim, Step;
    if es != [] {
      StepExactly(s, es[0]);
      ClaimRun(Step(s, es[0]), es[1..], id);
      var s1, t := Step(s, es[0]), Run(s, es).txs[id];
      assert forall e :: e in es[1..] ==> e in es;
      if id < |s1.txs| && s1.txs[id].claim.Claimed? {
        ClaimStep(s, es[0], id);
      }
    }
  }

  /** What a waiter is told, in every legal run: -ESTALE, -116, when a drain of its channel
      claimed the transaction, and exactly the reply's status when a reply did; there is no
      third way.  A failed send's cancel leaves -ECANCELED, -125, which nobody waits for. */
  lemma WaiterTold(es: seq<Event>, id: nat)
    requires LegalRun(Initial, es) && id < |Run(Initial, es).txs|
    ensures var t := Run(Initial, es).txs[id];
            && (t.pc.Waited? ==>
                  && t.claim.Claimed?
                  && match t.claim.who
                     case Reply(status) => t.pc.result == status && TakeReply(t.seqNo, status) in es
                     case Drained => t.pc.result == -116 && TakeDrain(t.seqNo) in es
                     case Cancelled => false)
            && (t.claim.Claimed? && t.claim.stage.Dropped? ==>
                  match t.claim.who
                  case Reply(status) => t.status == status && TakeReply(t.seqNo, status) in es
                  case Drained => t.status == -116 && TakeDrain(t.seqNo) in es
                  case Cancelled => t.status == -125 && Cancel(id) in es)
  {
    RunKeepsInv(Initial, es);
    var t := Run(Initial, es).txs[id];
    assert TxInv(Run(Initial, es), id);
    if t.claim.Claimed? {
      ClaimRun(Initial, es, id);
    }
  }

  // ---- nobody waits for ever on a channel that is gone ----

  /** Channel `c` is closed and everything sent on it has been claimed. */
  ghost predicate Settled(s: State, c: nat) {
    && c < s.channels && s.rpdev != Some(c)
    && forall id :: 0 <= id < |s.txs| && s.txs[id].sentOn == Some(c) ==> s.txs[id].claim.Claimed?
  }

  /** The drain may stop at an empty table: the write side of rpdev_lock has excluded
      every send that could still have added to this channel. */
  lemma DrainSettles(s: State, c: nat)
    requires Inv(s) && Possible(s, DrainEnd) && c < s.channels && s.rpdev != Some(c)
    ensures Settled(s, c)
  {
    forall id | 0 <= id < |s.txs|
      ensures s.txs[id].claim.Claimed?
    {
      assert TxInv(s, id);
    }
  }

  lemma {:induction false} SettledForGood(s: State, es: seq<Event>, c: nat)
    requires Inv(s) && Settled(s, c) && LegalRun(s, es)
    ensures Settled(Run(s, es), c)
    decreases |es|
  {
    hide TxInv, Settled;
    if es != [] {
      StepExactly(s, es[0]);
      SettledStep(s, es[0], c);
      SettledForGood(Step(s, es[0]), es[1..], c);
    }
  }

  lemma SettledStep(s: State, e: Event, c: nat)
    requires Inv(s) && Settled(s, c) && Legal(s, e)
    ensures Settled(Step(s, e), c)
  {
    var s' := Step(s, e);
    forall id | 0 <= id < |s'.txs| && s'.txs[id].sentOn == Some(c)
      ensures s'.txs[id].claim.Claimed?
    {
      if id < |s.txs| {
        assert TxInv(s, id);
        if s.txs[id].claim.Claimed? {
          ClaimedOnce(s, e, id);
        }
      }
    }
  }

  /** No waiter is stranded: once a remove has seen the table empty, everything that was
      ever sent on the channels closed by then is in a claimer's hands, in every
      continuation, and a claimer that is through has woken its caller. */
  lemma NoWaiterStranded(before: seq<Event>, after: seq<Event>, c: nat, id: nat)
    requires LegalRun(Initial, before) && Possible(Run(Initial, before), DrainEnd)
    requires c < Run(Initial, before).channels && Run(Initial, before).rpdev != Some(c)
    requires LegalRun(Run(Initial, before), after)
    requires var s := Run(Run(Initial, before), after); id < |s.txs| && s.txs[id].sentOn == Some(c)
    ensures var s := Run(Run(Initial, before), after);
            && s.txs[id].claim.Claimed? && s.rpdev != Some(c)
            && (s.txs[id].claim.stage.Dropped? && s.txs[id].sync && s.txs[id].pc == Returned(0) ==> Possible(s, Wait(id)))
            && (!s.txs[id].claim.stage.Dropped? ==> Possible(s, Advance(id)))
  {
    RunKeepsInv(Initial, before);
    var s0 := Run(Initial, before);
    DrainSettles(s0, c);
    SettledForGood(s0, after, c);
    RunKeepsInv(s0, after);
    assert TxInv(Run(s0, after), id);
  }

  /** With no channel, a send fails with -ENODEV and goes on to its cancel; and no send
      returns an error without its transaction having been claimed. */
  lemma SendAfterClose(s: State, id: nat, err: int)
    requires Inv(s) && id < |s.txs|
    ensures s.rpdev.None? && s.txs[id].pc.Reading? ==>
              && Step(s, RpmsgSend(id, err)).txs[id].pc == Holding(-19)
              && Step(Step(s, RpmsgSend(id, err)), UpRead(id)).txs[id].pc == Cancelling(-19)
    ensures s.txs[id].pc.Returned? && s.txs[id].pc.err != 0 ==> s.txs[id].claim.Claimed? && s.txs[id].sentOn.None?
  {
    assert TxInv(s, id);
  }

  // ---- why each hypothesis is there ----

  /** A reply, or a drain, that claims a transaction before kref_get takes the caller's
      own reference with it: once the claimer is through, the caller's next step touches
      freed memory. */
  lemma EarlyClaimFrees(s: State, seqNo: nat, status: int)
    requires Inv(s) && s.bound && seqNo in s.table && s.txs[s.table[seqNo]].pc.Allocated?
    ensures var id, e := s.table[seqNo], TakeReply(seqNo, status);
            && Possible(s, e) && EarlyClaim(s, e)
            && var s1 := Step(s, e);
            && Possible(s1, Advance(id)) && var s2 := Step(s1, Advance(id));
            && Possible(s2, Advance(id)) && var s3 := Step(s2, Advance(id));
            && Possible(s3, Advance(id)) && var s4 := Step(s3, Advance(id));
            && id in Touches(s4, GetRef(id)) && Possible(s4, GetRef(id)) && s4.txs[id].frees == 1
  {
    assert TxInv(s, s.table[seqNo]);
  }

  /** Send returns -EINVAL for an op it does not know without having taken a reference or
      the entry out: the caller's release then frees what the table still lists. */
  lemma UnknownOpDangles(op: nat) returns (s: State)
    requires op == 0 || op > 4
    ensures var s1 := Step(Initial, Alloc(1, op, true));
            && Possible(s1, Refuse(0))
            && var s2 := Step(s1, Refuse(0));
            && Possible(s2, Release(0)) && s == Step(s2, Release(0))
    ensures 1 in s.table && s.table[1] == 0 && s.txs[0].frees == 1
  {
    var s1 := Step(Initial, Alloc(1, op, true));
    var s2 := Step(s1, Refuse(0));
    s := Step(s2, Release(0));
  }

  /** A sequence number that comes round while its previous owner is still about to cancel:
      that cancel, finding its own entry long claimed, takes the new owner's instead. */
  lemma ReusedSeqMisclaims(s: State, id: nat, op: nat, sync: bool)
    requires Inv(s) && id < |s.txs| && s.txs[id].pc.Cancelling? && !CancelClaimed(s.txs[id])
    requires 0 < s.txs[id].seqNo && s.txs[id].seqNo !in s.table
    ensures var seqNo, e := s.txs[id].seqNo, Alloc(s.txs[id].seqNo, op, sync);
            && Possible(s, e) && !WellAllocated(s, e)
            && var s1 := Step(s, e);
            && s1.table[seqNo] == |s.txs| != id && Possible(s1, Cancel(id))
            && seqNo !in Step(s1, Cancel(id)).table && Step(s1, Cancel(id)).txs[|s.txs|].pc.Allocated?
  {
    assert TxInv(s, id);
  }

  /** A probe that fails after publishing the channel drops it without a drain.  That is
      harmless exactly when nothing sent on it is still listed, which the probe could see
      under the table's lock before it lets go. */
  lemma FailedProbeExactly(s: State, c: nat)
    requires Inv(s) && Possible(s, OpenFails) && s.rpdev == Some(c)
    ensures Legal(s, OpenFails)
    ensures Settled(Step(s, OpenFails), c) <==> forall k :: k in s.table ==> s.txs[s.table[k]].sentOn != Some(c)
  {
    var s' := Step(s, OpenFails);
    forall id | 0 <= id < |s.txs| && s.txs[id].claim.InTable?
      ensures s.txs[id].seqNo in s.table && s.table[s.txs[id].seqNo] == id
    {
      assert TxInv(s, id);
    }
    forall k | k in s.table
      ensures s.txs[s.table[k]].claim.InTable?
    {
      assert TxInv(s, s.table[k]);
    }
  }

  /** Its caller is blocked, and nobody is left who could claim it. */
  ghost predicate Stranded(s: State, id: nat) {
    && s.rpdev.None? && !s.bound && s.drain.NotDraining?
    && id < |s.txs| && s.txs[id].sync && s.txs[id].pc == Returned(0) && s.txs[id].claim.InTable?
  }

  /** What the failed probe leaves behind. */
  lemma FailedProbeStrands(s: State, id: nat)
    requires Inv(s) && Possible(s, OpenFails) && s.bound && s.drain.NotDraining?
    requires id < |s.txs| && s.txs[id].sync && s.txs[id].pc == Returned(0) && s.txs[id].claim.InTable?
    ensures Legal(s, OpenFails) && Legal(Step(s, OpenFails), Unbind)
    ensures Stranded(Step(Step(s, OpenFails), Unbind), id)
  {
  }

  lemma StrandedStep(s: State, e: Event, id: nat)
    requires Inv(s) && Stranded(s, id) && Legal(s, e) && !e.Open?
    ensures Stranded(Step(s, e), id) && !Possible(s, Wait(id))
  {
    hide Accounted, Coherent, WellAllocated, NoReaders;
    assert TxInv(s, id);
    if e.Cancel? {
      assert TxInv(s, e.id);
    }
  }

  /** It stays so whatever anybody does, for as long as no later channel is opened: the
      request is never claimed and its caller never woken. */
  lemma {:induction false} StrandedForGood(s: State, es: seq<Event>, id: nat)
    requires Inv(s) && Stranded(s, id) && LegalRun(s, es) && forall e :: e in es ==> !e.Open?
    ensures Stranded(Run(s, es), id) && Run(s, es).txs[id].notified == 0
    decreases |es|
  {
    hide Stranded, TxInv;
    if es == [] {
      StrandedUnwoken(s, id);
    } else {
      StepExactly(s, es[0]);
      StrandedStep(s, es[0], id);
      StrandedForGood(Step(s, es[0]), es[1..], id);
    }
  }

  lemma StrandedUnwoken(s: State, id: nat)
    requires Inv(s) && Stranded(s, id)
    ensures id < |s.txs| && s.txs[id].notified == 0
  {
    assert TxInv(s, id);
  }

  // ---- and it does happen ----

  ghost predicate Reaches(s: State, t: State)
    requires InRange(s)
  {
    exists es :: LegalRun(s, es) && Run(s, es) == t
  }

  lemma ReachesBefore(s: State, e: Event, t: State)
    requires InRange(s) && Legal(s, e) && Reaches(Step(s, e), t)
    ensures Reaches(s, t)
  {
    hide Possible, WellAllocated, EarlyClaim, Step;
    var es :| LegalRun(Step(s, e), es) && Run(Step(s, e), es) == t;
    assert ([e] + es)[1..] == es;
    assert LegalRun(s, [e] + es) && Run(s, [e] + es) == t;
  }

  /** One request on the first channel, this far along; then the channel gone. */
  function Lone(k: nat): State {
    var tx := Tx(1, OP_STAT, true, if k < 3 then 1 else 2, 0, 0, 0,
                 if k < 3 then Allocated else if k == 3 then GotRef else if k == 4 then Reading
                 else if k == 5 then Holding(0) else Returned(0),
                 InTable, if k < 5 then None else Some(0));
    if k == 0 then Initial
    else if k == 1 then State([], map[], Some(0), true, 1, NotDraining)
    else State([tx], map[1 := 0], if k < 7 then Some(0) else None, k < 8, 1, NotDraining)
  }

  function LoneEvent(k: nat): Event {
    if k == 0 then Open else if k == 1 then Alloc(1, OP_STAT, true) else if k == 2 then GetRef(0)
    else if k == 3 then DownRead(0) else if k == 4 then RpmsgSend(0, 0) else if k == 5 then UpRead(0)
    else if k == 6 then OpenFails else Unbind
  }

  lemma LoneStep(k: nat)
    requires k < 8
    ensures InRange(Lone(k)) && Legal(Lone(k), LoneEvent(k)) && Step(Lone(k), LoneEvent(k)) == Lone(k + 1)
  {
  }

  lemma {:induction false} LoneReaches(k: nat)
    requires k <= 8
    ensures InRange(Lone(k)) && Reaches(Lone(k), Lone(8))
    decreases 8 - k
  {
    hide Lone, LoneEvent, Possible, WellAllocated, EarlyClaim, Step;
    if k == 8 {
      LoneInRange();
      assert LegalRun(Lone(8), []) && Run(Lone(8), []) == Lone(8);
    } else {
      LoneStep(k);
      LoneReaches(k + 1);
      ReachesBefore(Lone(k), LoneEvent(k), Lone(8));
    }
  }

  lemma LoneInRange()
    ensures InRange(Lone(8))
  {
  }

  /** A run that strands a caller: a channel appears, a request is sent on it, the probe
      fails after all. */
  lemma StrandingArises() returns (s: State)
    ensures Reaches(Initial, s) && Stranded(s, 0)
  {
    s := Lone(8);
    LoneReaches(0);
  }
}
