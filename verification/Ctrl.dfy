/** The control block as the driver keeps it, updated in place.  Each method is one
    thread's whole operation with nobody in between; what others may do in between is
    the business of `CtrlTransaction`, whose steps these methods are made of. */
module Ctrl {
  import opened Hardware
  import opened CtrlTransaction

  /** A claimed transaction once its claimer is through. */
  function Finished(t: Tx, who: Claimer): Tx {
    Put(t.(claim := Claimed(who, Dropped), status := StatusOf(who), notified := t.notified + 1))
  }

  /** Claiming, deciding, waking and letting go, as one. */
  function Settle(s: State, seqNo: nat, who: Claimer): State
    requires InRange(s) && seqNo in s.table
  {
    var id := s.table[seqNo];
    s.(table := s.table - {seqNo}, txs := s.txs[id := Finished(s.txs[id], who)])
  }

  /** It is the claim followed by the claimer's three actions. */
  lemma SettleSteps(s: State, seqNo: nat, who: Claimer)
    requires Inv(s) && seqNo in s.table && !s.txs[s.table[seqNo]].pc.Allocated?
    requires who.Cancelled? ==> s.txs[s.table[seqNo]].pc.Cancelling?
    ensures var id, s1 := s.table[seqNo], Take(s, seqNo, who);
            && Legal(s1, Advance(id)) && var s2 := Step(s1, Advance(id));
            && Legal(s2, Advance(id)) && var s3 := Step(s2, Advance(id));
            && Legal(s3, Advance(id)) && Step(s3, Advance(id)) == Settle(s, seqNo, who)
    ensures Inv(Settle(s, seqNo, who))
  {
    hide Accounted, Announced, Coherent;
    var id := s.table[seqNo];
    TakeExactly(s, seqNo, who);
    var s1 := Take(s, seqNo, who);
    AdvanceKeepsInv(s1, id);
    var s2 := Step(s1, Advance(id));
    AdvanceKeepsInv(s2, id);
    var s3 := Step(s2, Advance(id));
    AdvanceKeepsInv(s3, id);
  }

  lemma LeastKey(m: map<nat, nat>) returns (k: nat)
    requires m != map[]
    ensures k in m && forall j :: j in m ==> k <= j
    decreases |m|
  {
    var x :| x in m;
    var rest := m - {x};
    assert forall j :: j in m ==> j == x || j in rest;
    if rest == map[] {
      k := x;
    } else {
      var y := LeastKey(rest);
      k := if x < y then x else y;
    }
  }

  /** Everything a remove finds in the table, it finishes as stale; the rest is not its
      to touch. */
  ghost predicate DrainedFrom(s: State, s': State) {
    && |s'.txs| == |s.txs|
    && forall id :: 0 <= id < |s.txs| ==>
         s'.txs[id] == if s.txs[id].claim.InTable? && !s'.txs[id].claim.InTable? then Finished(s.txs[id], Drained) else s.txs[id]
  }

  lemma DrainedStep(s0: State, s: State, seqNo: nat)
    requires Inv(s) && Inv(s0) && DrainedFrom(s0, s) && seqNo in s.table
    ensures DrainedFrom(s0, Settle(s, seqNo, Drained))
  {
    assert TxInv(s, s.table[seqNo]);
  }

  /** Referenced twice and still listed: sent on this channel, or about to be cancelled. */
  function TransmittedBy(s: State, id: nat, err: int): State
    requires id < |s.txs|
  {
    var t := s.txs[id];
    s.(txs := s.txs[id := t.(refs := t.refs + 1, sentOn := if err == 0 then s.rpdev else None,
                             pc := if err == 0 then Returned(0) else Cancelling(err))])
  }

  /** One that could not be sent: out of the table, its waiter woken with -ECANCELED, and
      back to the caller's reference alone. */
  function UnsentBy(s: State, id: nat, err: int): State
    requires id < |s.txs|
  {
    var t := s.txs[id];
    s.(table := s.table - {t.seqNo},
       txs := s.txs[id := t.(pc := Returned(err), claim := Claimed(Cancelled, Dropped),
                             status := ECANCELED, notified := t.notified + 1)])
  }

  function ReadingBy(s: State, id: nat): State
    requires id < |s.txs|
  {
    s.(txs := s.txs[id := s.txs[id].(refs := s.txs[id].refs + 1, pc := Reading)])
  }

  /** Send up to the read lock, in two atomic actions. */
  lemma SendLocks(s: State, id: nat)
    requires Inv(s) && AtPc(s, id, Allocated)
    ensures Possible(s, GetRef(id)) && Possible(Step(s, GetRef(id)), DownRead(id))
    ensures Step(Step(s, GetRef(id)), DownRead(id)) == ReadingBy(s, id) && Inv(ReadingBy(s, id))
  {
    hide TxInv;
    Unsent(s, id);
    CallerKeepsInv(s, GetRef(id));
    CallerKeepsInv(Step(s, GetRef(id)), DownRead(id));
  }

  /** And from there to its release, in two more. */
  lemma SendTransmits(s: State, id: nat, err: int)
    requires Inv(s) && AtPc(s, id, Reading)
    ensures var verdict := if s.rpdev.None? then ENODEV else err;
            && Possible(s, RpmsgSend(id, err)) && Possible(Step(s, RpmsgSend(id, err)), UpRead(id))
            && var s' := Step(Step(s, RpmsgSend(id, err)), UpRead(id));
            && Inv(s')
            && s' == s.(txs := s.txs[id := s.txs[id].(sentOn := if verdict == 0 then s.rpdev else None,
                                                      pc := if verdict == 0 then Returned(0) else Cancelling(verdict))])
  {
    hide TxInv;
    CallerKeepsInv(s, RpmsgSend(id, err));
    CallerKeepsInv(Step(s, RpmsgSend(id, err)), UpRead(id));
  }

  lemma SendSteps(s: State, id: nat, err: int)
    requires Inv(s) && AtPc(s, id, Allocated)
    ensures Inv(TransmittedBy(s, id, if s.rpdev.None? then ENODEV else err))
  {
    hide TxInv, Possible;
    SendLocks(s, id);
    SendTransmits(ReadingBy(s, id), id, err);
    assert Step(Step(ReadingBy(s, id), RpmsgSend(id, err)), UpRead(id))
        == TransmittedBy(s, id, if s.rpdev.None? then ENODEV else err);
  }

  lemma Unsent(s: State, id: nat)
    requires Inv(s) && AtPc(s, id, Allocated)
    ensures var t := s.txs[id];
            && KnownOp(t.op) && t.refs == 1 && t.sentOn.None? && t.frees == 0 && t.claim.InTable?
            && t.seqNo in s.table && s.table[t.seqNo] == id
  {
    assert TxInv(s, id);
  }

  class ControlBlock {
    var txs: seq<Tx>
    var inflight: map<nat, nat>
    var rpdev: Option<nat>
    var bound: bool
    var channels: nat
    var drain: DrainState

    constructor ()
      ensures State() == Initial
    {
      txs, inflight, rpdev, bound, channels, drain := [], map[], None, false, 0, NotDraining;
    }

    ghost function State(): CtrlTransaction.State
      reads this
    {
      CtrlTransaction.State(txs, inflight, rpdev, bound, channels, drain)
    }

    method Allocate(seqNo: nat, op: nat, sync: bool) returns (id: nat)
      requires Inv(State()) && Legal(State(), Alloc(seqNo, op, sync))
      modifies this`txs, this`inflight
      ensures State() == Step(old(State()), Alloc(seqNo, op, sync)) && Inv(State())
      ensures id == |old(txs)| && inflight[seqNo] == id
    {
      AllocKeepsInv(State(), seqNo, op, sync);
      id := |txs|;
      txs := txs + [Tx(seqNo, op, sync, 1, 0, 0, 0, Allocated, InTable, None)];
      inflight := inflight[seqNo := id];
    }

    /** Status, wake-up, release, by whoever took the entry out. */
    method Finish(id: nat, who: Claimer)
      requires id < |txs|
      modifies this`txs
      ensures txs == old(txs)[id := Finished(old(txs)[id], who)]
    {
      txs := txs[id := txs[id].(claim := Claimed(who, StatusSet), status := StatusOf(who))];
      txs := txs[id := txs[id].(claim := Claimed(who, Notified), notified := txs[id].notified + 1)];
      var left := txs[id].refs - 1;
      txs := txs[id := txs[id].(claim := Claimed(who, Dropped), refs := left)];
      if left == 0 {
        txs := txs[id := txs[id].(frees := txs[id].frees + 1)];
      }
    }

    /** The reply callback's ownership half; what it decides is decoded elsewhere. */
    method Callback(seqNo: nat, status: int)
      requires Inv(State()) && !EarlyClaim(State(), TakeReply(seqNo, status))
      modifies this`txs, this`inflight
      ensures Inv(State())
      ensures State() == if bound && seqNo in old(inflight) then Settle(old(State()), seqNo, Reply(status)) else old(State())
      ensures bound && seqNo in old(inflight) ==> old(inflight[seqNo]) < |txs| && txs[old(inflight[seqNo])].status == status
    {
      if !bound || seqNo !in inflight {
        return;
      }
      hide TxInv, Finished;
      SettleSteps(State(), seqNo, Reply(status));
      var id := inflight[seqNo];
      inflight := inflight - {seqNo};
      Finish(id, Reply(status));
    }

    /** Only the one who removed the entry owes the rest. */
    method CancelTx(id: nat)
      requires Inv(State()) && Possible(State(), Cancel(id))
      modifies this`txs, this`inflight
      ensures Inv(State()) && id < |txs| && txs[id].pc == Returned(old(txs)[id].pc.err) && txs[id].claim.Claimed?
      ensures State() == if old(txs)[id].seqNo in old(inflight)
                         then SetPc(Settle(old(State()), old(txs)[id].seqNo, Cancelled), id, Returned(old(txs)[id].pc.err))
                         else SetPc(old(State()), id, Returned(old(txs)[id].pc.err))
      ensures old(txs)[id].seqNo in old(inflight) ==> txs[id].status == -125
    {
      hide Accounted, Announced, Coherent;
      assert TxInv(State(), id);
      hide TxInv;
      CancelKeepsInv(State(), id);
      var seqNo, err := txs[id].seqNo, txs[id].pc.err;
      if seqNo in inflight {
        SettleSteps(State(), seqNo, Cancelled);
        inflight := inflight - {seqNo};
        Finish(id, Cancelled);
        CallerKeepsInv(State(), CancelDone(id));
      }
      txs := txs[id := txs[id].(pc := Returned(err))];
    }

    /** The part of send that needs the channel: a reference for the table, then the
        transport under the read side. */
    method Transmit(id: nat, err: int) returns (verdict: int)
      requires Inv(State()) && AtPc(State(), id, Allocated)
      modifies this`txs
      ensures Inv(State()) && verdict == if rpdev.None? then ENODEV else err
      ensures State() == TransmittedBy(old(State()), id, verdict)
    {
      hide Inv, Possible;
      SendSteps(State(), id, err);
      txs := txs[id := txs[id].(refs := txs[id].refs + 1, pc := GotRef)];
      txs := txs[id := txs[id].(pc := Reading)];
      verdict := if rpdev.None? then ENODEV else err;
      txs := txs[id := txs[id].(pc := Holding(verdict), sentOn := if verdict == 0 then rpdev else None)];
      txs := txs[id := txs[id].(pc := if verdict == 0 then Returned(0) else Cancelling(verdict))];
      assert State() == TransmittedBy(old(State()), id, verdict);
    }

    /** Send, and on failure the cancel that gives both references and the entry back.  An
        op it does not know it refuses before it takes either. */
    method Send(id: nat, err: int) returns (verdict: int)
      requires InRange(State()) && AtPc(State(), id, Allocated) && (KnownOp(txs[id].op) ==> Inv(State()))
      modifies this`txs, this`inflight
      ensures !KnownOp(old(txs)[id].op) ==> verdict == -22 && State() == Step(old(State()), Refuse(id))
      ensures KnownOp(old(txs)[id].op) ==>
                && Inv(State()) && verdict == (if rpdev.None? then -19 else err)
                && State() == if verdict == 0 then TransmittedBy(old(State()), id, 0) else UnsentBy(old(State()), id, verdict)
    {
      hide TxInv;
      if !KnownOp(txs[id].op) {
        txs := txs[id := txs[id].(pc := Returned(EINVAL))];
        return EINVAL;
      }
      Unsent(State(), id);
      verdict := Transmit(id, err);
      if verdict != 0 {
        CancelTx(id);
      }
    }

    method NextEntry() returns (seqNo: nat)
      requires inflight != map[]
      ensures seqNo in inflight && forall k :: k in inflight ==> seqNo <= k
    {
      ghost var least := LeastKey(inflight);
      seqNo :| seqNo in inflight && forall k :: k in inflight ==> seqNo <= k;
    }

    /** One round of the drain: the lowest entry, out of the table and finished. */
    method DrainNext(ghost was: CtrlTransaction.State)
      requires Tearing(was, State()) && inflight != map[]
      modifies this`txs, this`inflight, this`drain
      ensures Tearing(was, State()) && |inflight| < old(|inflight|)
    {
      hide Tearing, Finished, Possible, WellAllocated, EarlyClaim;
      var seqNo := NextEntry();
      TearingRange(was, State());
      TurnOfDrain(was, State(), seqNo);
      var id := inflight[seqNo];
      drain := Draining(Some(id));
      inflight := inflight - {seqNo};
      Finish(id, Drained);
    }

    /** Tear the channel down: exclude the senders, then mark what is in flight stale and
        wake its callers, until there is nothing left. */
    method Remove()
      requires Inv(State()) && Possible(State(), Close) && NoneEarly(State())
      modifies this`txs, this`inflight, this`rpdev, this`bound, this`drain
      ensures Inv(State()) && inflight == map[] && rpdev.None? && !bound && drain.NotDraining?
      ensures DrainedFrom(old(State()), State()) && old(rpdev).Some? && Settled(State(), old(rpdev).value)
      ensures forall id :: 0 <= id < |old(txs)| && old(txs)[id].claim.InTable? ==>
                txs[id].status == -116 && txs[id].notified == old(txs)[id].notified + 1
    {
      hide TxInv, DrainedFrom, Settled;
      ghost var was := State();
      StartTearing(was);
      rpdev, bound, drain := None, false, Draining(None);
      while inflight != map[]
        invariant Tearing(was, State()) && !bound
        decreases |inflight|
      {
        DrainNext(was);
      }
      DoneTearing(was, State());
      drain := NotDraining;
      StaleExactly(was, State());
    }
  }

  /** What the drain finished was told so. */
  lemma StaleExactly(was: State, s: State)
    requires DrainedFrom(was, s) && Inv(s) && s.table == map[]
    ensures forall id :: 0 <= id < |was.txs| && was.txs[id].claim.InTable? ==>
              s.txs[id].status == -116 && s.txs[id].notified == was.txs[id].notified + 1
  {
    forall id | 0 <= id < |was.txs|
      ensures !s.txs[id].claim.InTable?
    {
      assert TxInv(s, id);
    }
  }

  /** The drain's hypothesis: no entry belongs to a caller that has yet to take the
      table's reference. */
  ghost predicate NoneEarly(s: State)
    requires InRange(s)
  {
    forall k :: k in s.table ==> !s.txs[s.table[k]].pc.Allocated?
  }

  ghost predicate Tearing(was: State, s: State) {
    && Inv(was) && Inv(s) && DrainReady(s) && DrainedFrom(was, s)
    && was.rpdev.Some? && s.rpdev.None? && s.channels == was.channels && NoneEarly(s)
  }

  lemma TearingRange(was: State, s: State)
    requires Tearing(was, s)
    ensures InRange(s)
  {
    hide TxInv;
  }

  lemma StartTearing(was: State)
    requires Inv(was) && Possible(was, Close) && NoneEarly(was)
    ensures Tearing(was, Step(was, Close))
  {
    hide TxInv;
    ChannelKeepsInv(was, Close);
  }

  lemma DoneTearing(was: State, s: State)
    requires Tearing(was, s) && s.table == map[]
    ensures Inv(s.(drain := NotDraining)) && DrainedFrom(was, s.(drain := NotDraining))
    ensures Settled(s.(drain := NotDraining), was.rpdev.value)
  {
    hide TxInv;
    DrainSettles(s, was.rpdev.value);
    ChannelKeepsInv(s, DrainEnd);
  }

  /** One round of the drain. */
  function DrainTurn(s: State, seqNo: nat): State
    requires InRange(s) && seqNo in s.table
  {
    Settle(s, seqNo, Drained).(drain := Draining(Some(s.table[seqNo])))
  }

  lemma TurnKeepsInv(s: State, seqNo: nat)
    requires Inv(s) && seqNo in s.table && NoneEarly(s)
    ensures Inv(DrainTurn(s, seqNo))
  {
    hide Accounted, Announced, Coherent, TxInv, Settle;
    SettleSteps(s, seqNo, Drained);
    DrainFrame(Settle(s, seqNo, Drained), Draining(Some(s.table[seqNo])));
  }

  lemma TurnShrinks(s: State, seqNo: nat)
    requires Inv(s) && seqNo in s.table && NoneEarly(s)
    ensures InRange(DrainTurn(s, seqNo)) && NoneEarly(DrainTurn(s, seqNo)) && DrainReady(DrainTurn(s, seqNo))
    ensures |DrainTurn(s, seqNo).table| < |s.table|
  {
    hide TxInv;
    assert (s.table - {seqNo}).Keys == s.table.Keys - {seqNo};
  }

  lemma TurnOfDrain(was: State, s: State, seqNo: nat)
    requires Tearing(was, s) && seqNo in s.table && forall k :: k in s.table ==> seqNo <= k
    ensures Legal(s, TakeDrain(seqNo))
    ensures Tearing(was, DrainTurn(s, seqNo)) && |DrainTurn(s, seqNo).table| < |s.table|
  {
    hide TxInv, DrainedFrom, Finished;
    TurnKeepsInv(s, seqNo);
    TurnShrinks(s, seqNo);
    DrainedStep(was, s, seqNo);
    SameDrained(was, Settle(s, seqNo, Drained), DrainTurn(s, seqNo));
  }

  lemma SameDrained(was: State, s: State, s': State)
    requires DrainedFrom(was, s) && s'.txs == s.txs
    ensures DrainedFrom(was, s')
  {
  }
}
