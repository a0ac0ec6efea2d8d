/** The control plane's transport on the device: requests drained from the transmit queue,
    each answered in a buffer of the receive queue, if the host has lent one. */
module Rpmsg {
  import opened Hardware
  import opened SplitRing
  import Allocator
  import Device
  import DeviceModel
  import C = ControlPlane

  const HDR: nat := 16
  const BUF_SIZE: nat := 512
  const CTRL_ADDR: nat := 1024

  /** One buffer the host put on the transmit queue: its head, whether the device can fetch
      it (index, slot and descriptor readable, head in range), read its bytes, and push it
      back; and the log line the device will write about it. */
  datatype Tx = Tx(head: nat, fetched: bool, readable: bool, bytes: seq<byte>, back: bool, line: seq<byte>)

  /** One buffer lent on the receive queue, and the same of it. */
  datatype Rx = Rx(head: nat, fetched: bool, len: nat, writable: bool, back: bool)

  /** What the drain did: the device after it, the used elements of both queues, the
      messages that reached the host, the buffers still lent and how many heads it took. */
  datatype Outcome = Outcome(
    dev: Device.State, txUsed: seq<Elem>, rxUsed: seq<Elem>,
    messages: seq<seq<byte>>, left: seq<Rx>, taken: nat)

  /** The drain gets past this buffer. */
  predicate Whole(tx: Tx) {
    tx.fetched && tx.readable
  }

  predicate Logs(tx: Tx) {
    |tx.line| == TRACE_ENTRY
  }

  function PayloadLen(b: seq<byte>): nat
    requires |b| >= HDR
  {
    At(b, 12) % TWO16
  }

  /** A buffer of a size a message can have. */
  predicate Sized(tx: Tx) {
    HDR <= |tx.bytes| <= BUF_SIZE
  }

  /** ...whose header keeps to it. */
  predicate Framed(tx: Tx) {
    Sized(tx) && HDR + PayloadLen(tx.bytes) <= |tx.bytes|
  }

  function Payload(tx: Tx): seq<byte>
    requires Framed(tx)
  {
    tx.bytes[HDR..HDR + PayloadLen(tx.bytes)]
  }

  /** A message that is a request: it gets an answer. */
  predicate IsRequest(tx: Tx) {
    Framed(tx) && PayloadLen(tx.bytes) >= C.MSG_HDR
  }

  // ---- one reply ----

  datatype Sent = Sent(used: seq<Elem>, messages: seq<seq<byte>>, left: seq<Rx>)

  function Frame(dst: u32, payload: seq<byte>): (b: seq<byte>)
    requires |payload| < TWO16
    ensures |b| == HDR + |payload|
  {
    Words([CTRL_ADDR, dst, 0, |payload|]) + payload
  }

  /** The next lent buffer, if the queue is enabled and there is one that fits.  What is
      never announced never reaches the host. */
  function Send(enabled: bool, lent: seq<Rx>, dst: u32, payload: seq<byte>): Sent
    requires |payload| < TWO16
  {
    if !enabled || lent == [] || !lent[0].fetched then Sent([], [], lent)
    else if lent[0].len < HDR + |payload| then Sent(if lent[0].back then [Elem(lent[0].head, 0)] else [], [], lent[1..])
    else if !lent[0].writable || !lent[0].back then Sent([], [], lent[1..])
    else Sent([Elem(lent[0].head, HDR + |payload|)], [Frame(dst, payload)], lent[1..])
  }

  predicate Usable(rx: Rx) {
    rx.fetched && rx.writable && rx.back && rx.len >= 72
  }

  /** The next lent buffer can take this much. */
  predicate Takes(enabled: bool, lent: seq<Rx>, len: nat) {
    enabled && lent != [] && lent[0].fetched && lent[0].writable && lent[0].back && lent[0].len >= len
  }

  lemma ReplySize(data: seq<byte>, a: C.Answer)
    requires |data| >= C.MSG_HDR && C.Wire(a)
    ensures HDR + |C.Reply(data, a)| <= 72
  {
    hide Words, At;
  }

  // ---- the drain ----

  /** Serving one request and writing the log line about it. */
  function Handle(s: Device.State, tx: Tx): (r: (Device.State, C.Answer))
    requires Device.Inv(s) && IsRequest(tx) && Logs(tx)
    ensures Device.Inv(r.0) && C.Wire(r.1)
  {
    C.ServeAnswers(s, Payload(tx));
    var served := C.Serve(s, Payload(tx));
    Device.StepKeepsInv(served.0, Device.Log(tx.line));
    (Device.Step(served.0, Device.Log(tx.line)).0, served.1)
  }

  /** What the k-th request's requester should receive. */
  function Answered(s: Device.State, tx: Tx): (b: seq<byte>)
    requires Device.Inv(s) && IsRequest(tx) && Logs(tx)
    ensures |b| <= 72
  {
    ReplySize(Payload(tx), Handle(s, tx).1);
    Frame(At(tx.bytes, 0), C.Reply(Payload(tx), Handle(s, tx).1))
  }

  /** Sending that answer. */
  function SentFor(s: Device.State, enabled: bool, tx: Tx, lent: seq<Rx>): Sent
    requires Device.Inv(s) && IsRequest(tx) && Logs(tx)
  {
    ReplySize(Payload(tx), Handle(s, tx).1);
    Send(enabled, lent, At(tx.bytes, 0), C.Reply(Payload(tx), Handle(s, tx).1))
  }

  lemma SentForTakes(s: Device.State, enabled: bool, tx: Tx, lent: seq<Rx>)
    requires Device.Inv(s) && IsRequest(tx) && Logs(tx)
    ensures var sent, answer := SentFor(s, enabled, tx, lent), Answered(s, tx);
            if Takes(enabled, lent, |answer|) then
              lent != [] && sent == Sent([Elem(lent[0].head, |answer|)], [answer], lent[1..])
            else sent.messages == []
  {
    hide Handle, Allocator.HeapInv, At, C.Reply;
    ReplySize(Payload(tx), Handle(s, tx).1);
  }

  function Drain(s: Device.State, enabled: bool, txs: seq<Tx>, lent: seq<Rx>): (o: Outcome)
    requires Device.Inv(s) && forall tx :: tx in txs ==> Logs(tx)
    ensures Device.Inv(o.dev)
    decreases |txs|
  {
    if txs == [] || !txs[0].fetched then Outcome(s, [], [], [], lent, 0)
    else
      var tx := txs[0];
      if Sized(tx) && !tx.readable then Outcome(s, [], [], [], lent, 1)
      else if !IsRequest(tx) then Returned(tx, Sent([], [], lent), Drain(s, enabled, txs[1..], lent))
      else
        var h, sent := Handle(s, tx), SentFor(s, enabled, tx, lent);
        Returned(tx, sent, Drain(h.0, enabled, txs[1..], sent.left))
  }

  function Handed(tx: Tx): seq<Elem> {
    if tx.back then [Elem(tx.head, 0)] else []
  }

  /** The request's buffer goes back first, with nothing written to it. */
  function Returned(tx: Tx, sent: Sent, rest: Outcome): Outcome {
    Outcome(rest.dev, Handed(tx) + rest.txUsed, sent.used + rest.rxUsed,
            sent.messages + rest.messages, rest.left, rest.taken + 1)
  }

  /** What the drain makes of the next buffer, by its length and its header's: up to 512
      bytes are read; 16 of rpmsg header and at least 16 of message make a request. */
  lemma NextExactly(s: Device.State, enabled: bool, txs: seq<Tx>, lent: seq<Rx>)
    requires Device.Inv(s) && (forall tx :: tx in txs ==> Logs(tx)) && txs != [] && txs[0].fetched
    ensures var tx, o := txs[0], Drain(s, enabled, txs, lent);
            var sized := 16 <= |tx.bytes| <= 512;
            var request := sized && 16 <= At(tx.bytes, 12) % 0x1_0000 <= |tx.bytes| - 16;
            var elem := if tx.back then [Elem(tx.head, 0)] else [];
            if sized && !tx.readable then o == Outcome(s, [], [], [], lent, 1)
            else if !request then
              var rest := Drain(s, enabled, txs[1..], lent);
              o == rest.(txUsed := elem + rest.txUsed, taken := rest.taken + 1)
            else
              && IsRequest(tx) && Payload(tx) == tx.bytes[16..16 + At(tx.bytes, 12) % 0x1_0000]
              && var served, sent := C.Serve(s, Payload(tx)), SentFor(s, enabled, tx, lent);
              && Device.Inv(served.0)
              && var rest := Drain(Device.Step(served.0, Device.Log(tx.line)).0, enabled, txs[1..], sent.left);
              && o.dev == rest.dev && o.txUsed == elem + rest.txUsed && o.messages == sent.messages + rest.messages
              && o.rxUsed == sent.used + rest.rxUsed && o.taken == rest.taken + 1
  {
    hide At, C.Serve, SentFor, Allocator.HeapInv;
    if IsRequest(txs[0]) {
      C.ServeAnswers(s, Payload(txs[0]));
    } else {
      assert [] + Drain(s, enabled, txs[1..], lent).rxUsed == Drain(s, enabled, txs[1..], lent).rxUsed;
      assert [] + Drain(s, enabled, txs[1..], lent).messages == Drain(s, enabled, txs[1..], lent).messages;
    }
  }

  /** What becomes of the buffer an answer is sent in, and of the ones behind it.  It is taken
      if the queue is on and it can be fetched; goes back unless it cannot be written or
      pushed, with the frame's length if it holds the answer and 0 if it is too short; and
      the answer has reached the host exactly in the first case. */
  lemma SendAccounted(enabled: bool, lent: seq<Rx>, dst: u32, payload: seq<byte>)
    requires |payload| < TWO16
    ensures var sent, len := Send(enabled, lent, dst, payload), 16 + |payload|;
            if !enabled || lent == [] || !lent[0].fetched then sent == Sent([], [], lent)
            else
              && sent.left == lent[1..]
              && (sent.used != [] <==> lent[0].back && (lent[0].len < len || lent[0].writable))
              && (sent.used != [] ==> sent.used == [Elem(lent[0].head, if lent[0].len < len then 0 else len)])
              && (sent.messages != [] <==> sent.used != [] && lent[0].len >= len)
              && (sent.messages != [] ==> sent.messages == [Frame(dst, payload)])
  {
  }

  // ---- in order, exactly once ----

  function Requests(txs: seq<Tx>): seq<Tx> {
    if txs == [] then [] else (if IsRequest(txs[0]) then [txs[0]] else []) + Requests(txs[1..])
  }

  lemma RequestsLog(txs: seq<Tx>)
    requires forall tx :: tx in txs ==> Logs(tx)
    ensures forall tx :: tx in Requests(txs) ==> Logs(tx) && IsRequest(tx)
  {
  }

  /** The calls themselves, one after the other, with nothing in between. */
  function Calls(s: Device.State, reqs: seq<Tx>): (r: (Device.State, seq<seq<byte>>))
    requires Device.Inv(s) && forall tx :: tx in reqs ==> Logs(tx) && IsRequest(tx)
    ensures |r.1| == |reqs|
    decreases |reqs|
  {
    if reqs == [] then (s, [])
    else
      var rest := Calls(Handle(s, reqs[0]).0, reqs[1..]);
      (rest.0, [Answered(s, reqs[0])] + rest.1)
  }

  predicate AllUsable(lent: seq<Rx>) {
    forall k :: 0 <= k < |lent| ==> Usable(lent[k])
  }

  /** Every transmit buffer back in order, and `n` lent buffers used in order, each
      announcing its message's length. */
  ghost predicate HandedBack(o: Outcome, txs: seq<Tx>, lent: seq<Rx>, n: nat) {
    && o.taken == |txs| == |o.txUsed| && n == |o.rxUsed| == |o.messages| && n <= |lent| && o.left == lent[n..]
    && (forall k :: 0 <= k < |txs| ==> o.txUsed[k] == Elem(txs[k].head, 0))
    && (forall k :: 0 <= k < n ==> o.rxUsed[k] == Elem(lent[k].head, |o.messages[k]|))
  }

  lemma HandedBackMore(rest: Outcome, txs: seq<Tx>, lent: seq<Rx>, n: nat, sent: Sent)
    requires txs != [] && txs[0].back && |sent.used| == |sent.messages| <= 1
    requires sent.used != [] ==> lent != [] && sent.used[0] == Elem(lent[0].head, |sent.messages[0]|)
    requires sent.left == lent[|sent.used|..] && HandedBack(rest, txs[1..], sent.left, n)
    ensures HandedBack(Returned(txs[0], sent, rest), txs, lent, n + |sent.used|)
  {
    var o := Returned(txs[0], sent, rest);
    forall k | 0 <= k < |txs|
      ensures o.txUsed[k] == Elem(txs[k].head, 0)
    {
      if k > 0 {
        assert rest.txUsed[k - 1] == Elem(txs[1..][k - 1].head, 0);
      }
    }
  }

  lemma {:induction false} MessagesBound(s: Device.State, enabled: bool, txs: seq<Tx>, lent: seq<Rx>)
    requires Device.Inv(s) && forall tx :: tx in txs ==> Logs(tx)
    ensures |Drain(s, enabled, txs, lent).messages| <= |Requests(txs)|
    decreases |txs|
  {
    hide Handle, Allocator.HeapInv, SentFor, Takes, Answered, IsRequest, Sized;
    if txs != [] && IsRequest(txs[0]) {
      SentForTakes(s, enabled, txs[0], lent);
      MessagesBound(Handle(s, txs[0]).0, enabled, txs[1..], SentFor(s, enabled, txs[0], lent).left);
    } else if txs != [] {
      MessagesBound(s, enabled, txs[1..], lent);
    }
  }

  /** The k-th answer finds the k-th lent buffer fit for it. */
  predicate Fits(s: Device.State, enabled: bool, reqs: seq<Tx>, lent: seq<Rx>)
    requires Device.Inv(s) && forall tx :: tx in reqs ==> Logs(tx) && IsRequest(tx)
    decreases |reqs|
  {
    reqs == [] ||
    (Takes(enabled, lent, |Answered(s, reqs[0])|) && Fits(Handle(s, reqs[0]).0, enabled, reqs[1..], lent[1..]))
  }

  /** Every request is answered if and only if the queue is enabled and the k-th lent buffer
      fits the k-th answer; and the requests are applied in order whether or not. */
  lemma {:induction false} AnsweredExactly(s: Device.State, enabled: bool, txs: seq<Tx>, lent: seq<Rx>)
    requires Device.Inv(s) && (forall tx :: tx in txs ==> Logs(tx) && Whole(tx))
    ensures forall tx :: tx in Requests(txs) ==> Logs(tx) && IsRequest(tx)
    ensures Drain(s, enabled, txs, lent).dev == Calls(s, Requests(txs)).0
    ensures |Drain(s, enabled, txs, lent).messages| == |Requests(txs)| <==> Fits(s, enabled, Requests(txs), lent)
    ensures Fits(s, enabled, Requests(txs), lent) ==> Drain(s, enabled, txs, lent).messages == Calls(s, Requests(txs)).1
    decreases |txs|
  {
    hide Handle, Allocator.HeapInv, SentFor, Takes, Answered, IsRequest, Sized;
    RequestsLog(txs);
    if txs != [] {
      var tx := txs[0];
      if IsRequest(tx) {
        assert Requests(txs)[1..] == Requests(txs[1..]);
        var left := SentFor(s, enabled, tx, lent).left;
        SentForTakes(s, enabled, tx, lent);
        AnsweredExactly(Handle(s, tx).0, enabled, txs[1..], left);
        MessagesBound(Handle(s, tx).0, enabled, txs[1..], left);
      } else {
        assert Requests(txs) == Requests(txs[1..]);
        AnsweredExactly(s, enabled, txs[1..], lent);
      }
    }
  }

  lemma UsableTakes(s: Device.State, tx: Tx, lent: seq<Rx>)
    requires Device.Inv(s) && IsRequest(tx) && Logs(tx) && lent != [] && AllUsable(lent)
    ensures Takes(true, lent, |Answered(s, tx)|) && AllUsable(lent[1..])
  {
    hide Answered;
  }

  lemma {:induction false} UsableFits(s: Device.State, reqs: seq<Tx>, lent: seq<Rx>)
    requires Device.Inv(s) && (forall tx :: tx in reqs ==> Logs(tx) && IsRequest(tx))
    requires AllUsable(lent) && |reqs| <= |lent|
    ensures Fits(s, true, reqs, lent)
    decreases |reqs|
  {
    hide Handle, Allocator.HeapInv, Answered, AllUsable, Takes, IsRequest;
    if reqs != [] {
      UsableTakes(s, reqs[0], lent);
      UsableFits(Handle(s, reqs[0]).0, reqs[1..], lent[1..]);
    }
  }

  lemma {:induction false} AllHandedBack(s: Device.State, txs: seq<Tx>, lent: seq<Rx>)
    requires Device.Inv(s) && (forall tx :: tx in txs ==> Logs(tx) && Whole(tx) && tx.back)
    requires AllUsable(lent) && |Requests(txs)| <= |lent|
    ensures HandedBack(Drain(s, true, txs, lent), txs, lent, |Requests(txs)|)
    decreases |txs|
  {
    hide Handle, Allocator.HeapInv, SentFor, Takes, Answered, AllUsable, HandedBack, IsRequest, Sized;
    if txs == [] {
      NothingBack(s, lent);
    } else {
      var tx := txs[0];
      if IsRequest(tx) {
        UsableTakes(s, tx, lent);
        SentForTakes(s, true, tx, lent);
        AllHandedBack(Handle(s, tx).0, txs[1..], lent[1..]);
        HandedBackMore(Drain(Handle(s, tx).0, true, txs[1..], lent[1..]), txs, lent, |Requests(txs[1..])|, SentFor(s, true, tx, lent));
      } else {
        AllHandedBack(s, txs[1..], lent);
        HandedBackMore(Drain(s, true, txs[1..], lent), txs, lent, |Requests(txs[1..])|, Sent([], [], lent));
      }
    }
  }

  /** With enough buffers of 72 bytes lent and no faults, the control plane is an in-order
      exactly-once call: every request is applied and answered once, in the order
      published, every buffer goes back in order, and each answer takes the next lent
      buffer. */
  lemma InOrderExactlyOnce(s: Device.State, txs: seq<Tx>, lent: seq<Rx>)
    requires Device.Inv(s) && (forall tx :: tx in txs ==> Logs(tx) && Whole(tx) && tx.back)
    requires AllUsable(lent) && |Requests(txs)| <= |lent|
    ensures forall tx :: tx in Requests(txs) ==> Logs(tx) && IsRequest(tx)
    ensures var o, calls := Drain(s, true, txs, lent), Calls(s, Requests(txs));
            o.dev == calls.0 && o.messages == calls.1 && HandedBack(o, txs, lent, |Requests(txs)|)
  {
    hide Drain, Requests, Calls, Fits, AllUsable, HandedBack, IsRequest, Allocator.HeapInv;
    AnsweredExactly(s, true, txs, lent);
    UsableFits(s, Requests(txs), lent);
    AllHandedBack(s, txs, lent);
  }

  lemma NothingBack(s: Device.State, lent: seq<Rx>)
    ensures HandedBack(Outcome(s, [], [], [], lent, 0), [], lent, 0)
  {
  }

  /** What the receiver makes of a frame: its own rule for the length gives exactly the
      payload, and the addresses are the control endpoint's, 1024, and the requester's. */
  lemma FrameReceived(dst: u32, payload: seq<byte>)
    requires |payload| < TWO16
    ensures var f := Frame(dst, payload);
            && At(f, 0) == 1024 && At(f, 4) == dst
            && HDR + PayloadLen(f) == |f| && f[HDR..HDR + PayloadLen(f)] == payload
  {
    hide At, Words;
    FrameWord(dst, payload, 0);
    FrameWord(dst, payload, 1);
    FrameWord(dst, payload, 3);
    var f := Frame(dst, payload);
    assert f[HDR..|f|] == payload;
  }

  lemma FrameWord(dst: u32, payload: seq<byte>, k: nat)
    requires |payload| < TWO16 && k < 4
    ensures At(Frame(dst, payload), 4 * k) == [CTRL_ADDR, dst, 0, |payload|][k]
  {
    hide At, Words;
    var ws := [CTRL_ADDR, dst, 0, |payload|];
    WordAt(ws, k);
    var f := Frame(dst, payload);
    assert f[4 * k..4 * k + 4] == Words(ws)[4 * k..4 * k + 4];
    SameWord(f, Words(ws), 4 * k);
  }

  /** What the requester receives: a message from the control endpoint to the address it
      wrote from, as long as its header says, whose payload carries the request's number and
      decodes to this verdict. */
  predicate Delivers(message: seq<byte>, tx: Tx, a: C.Answer)
    requires IsRequest(tx)
  {
    && |message| >= HDR && |message| == HDR + PayloadLen(message) >= HDR + C.MSG_HDR
    && At(message, 0) == 1024 && At(message, 4) == At(tx.bytes, 0)
    && var reply := message[HDR..HDR + PayloadLen(message)];
    && C.SeqOf(reply) == C.SeqOf(Payload(tx))
    && C.Decode(C.WireOp(Payload(tx)), reply) == Some(C.Decoded(C.StatusOf(a), if a.Failed? then None else Some(a)))
  }

  lemma SameWord(a: seq<byte>, b: seq<byte>, off: nat)
    requires off + 4 <= |a| && off + 4 <= |b| && a[off..off + 4] == b[off..off + 4]
    ensures At(a, off) == At(b, off)
  {
  }

  /** The k-th answer goes to the k-th requester, carries its sequence number and op, and
      decodes to the verdict reached in the state its predecessors left. */
  lemma {:induction false} AnswersBelong(s: Device.State, reqs: seq<Tx>, k: nat)
    requires Device.Inv(s) && (forall tx :: tx in reqs ==> Logs(tx) && IsRequest(tx)) && k < |reqs|
    ensures Device.Inv(Calls(s, reqs[..k]).0)
    ensures Delivers(Calls(s, reqs).1[k], reqs[k], Handle(Calls(s, reqs[..k]).0, reqs[k]).1)
    decreases k
  {
    hide Handle, Allocator.HeapInv, At, C.Decode, C.Reply, Frame, Delivers;
    if k == 0 {
      assert reqs[..0] == [];
      AnswerDecodes(s, reqs[0]);
    } else {
      AnswersBelong(Handle(s, reqs[0]).0, reqs[1..], k - 1);
      assert reqs[..k][1..] == reqs[1..][..k - 1];
    }
  }

  lemma AnswerDecodes(s: Device.State, tx: Tx)
    requires Device.Inv(s) && Logs(tx) && IsRequest(tx)
    ensures Delivers(Answered(s, tx), tx, Handle(s, tx).1)
  {
    hide Allocator.HeapInv, At, C.Decode, C.Reply, Frame, C.Serve;
    C.ServeAnswers(s, Payload(tx));
    var a := C.Serve(s, Payload(tx)).1;
    ReplySize(Payload(tx), a);
    C.ReplyRoundTrip(Payload(tx), a);
    FrameReceived(At(tx.bytes, 0), C.Reply(Payload(tx), a));
  }

  // ---- the loop ----

  /** Serve one control message on the device's own fields. */
  method Answer(dev: DeviceModel.VelocitorState, data: seq<byte>) returns (a: C.Answer)
    requires dev.Valid() && |data| >= C.MSG_HDR
    modifies dev, dev.nodeBump, dev.alloc
    ensures dev.Valid() && (dev.State(), a) == C.Serve(old(dev.State()), data) && C.Wire(a)
  {
    hide Allocator.HeapInv, At;
    C.ServeAnswers(dev.State(), data);
    var op := C.WireOp(data);
    if op == OP_INFO {
      a := C.Info(FW_ABI, C.CAPS, C.CTRL_CAPS, NODES, ENGINES, ALLOC_ALIGN, dev.generation);
    } else if op == OP_ALLOC {
      if |data| < C.MSG_HDR + C.ALLOC_REQ {
        a := C.Failed(EINVAL);
      } else {
        var r := dev.AllocBlock(Join(At(data, 16), At(data, 20)), At(data, 28));
        a := C.AnswerAlloc(r);
      }
    } else if op == OP_FREE {
      if |data| < C.MSG_HDR + C.FREE_REQ {
        a := C.Failed(EINVAL);
      } else {
        var err := dev.FreeBlock(At(data, 16));
        a := if err == OK then C.Freed else C.Failed(err);
      }
    } else if op == OP_STAT {
      var st := dev.StatFill();
      a := C.Stats(st.capacity[0], st.free[0], st.capacity[1], st.free[1], st.live);
    } else {
      a := C.Failed(ENOSYS);
    }
  }

  /** And log it. */
  method Recv(dev: DeviceModel.VelocitorState, tx: Tx) returns (a: C.Answer)
    requires dev.Valid() && IsRequest(tx) && Logs(tx)
    modifies dev, dev.mem, dev.nodeBump, dev.alloc
    ensures dev.Valid() && (dev.State(), a) == Handle(old(dev.State()), tx)
  {
    hide Allocator.HeapInv, At, C.Serve;
    a := Answer(dev, Payload(tx));
    dev.Trace(tx.line);
  }

  /** What was done so far, followed by what is still to come. */
  function After(done: Outcome, rest: Outcome): Outcome {
    Outcome(rest.dev, done.txUsed + rest.txUsed, done.rxUsed + rest.rxUsed,
            done.messages + rest.messages, rest.left, done.taken + rest.taken)
  }

  /** `done` with one more head handed back and what was sent for it. */
  function Extended(done: Outcome, tx: Tx, sent: Sent): Outcome {
    Outcome(done.dev, done.txUsed + Handed(tx), done.rxUsed + sent.used,
            done.messages + sent.messages, sent.left, done.taken + 1)
  }

  lemma AfterReturned(done: Outcome, tx: Tx, sent: Sent, rest: Outcome)
    ensures After(done, Returned(tx, sent, rest)) == After(Extended(done, tx, sent), rest)
  {
    ConcatAssociates(done.txUsed, Handed(tx), rest.txUsed);
    ConcatAssociates(done.rxUsed, sent.used, rest.rxUsed);
    ConcatAssociates(done.messages, sent.messages, rest.messages);
  }

  /** One head: whether the drain goes on, and what was sent. */
  method DrainOne(dev: DeviceModel.VelocitorState, enabled: bool, tx: Tx, lent: seq<Rx>, ghost txs: seq<Tx>)
    returns (on: bool, sent: Sent)
    requires dev.Valid() && txs != [] && tx == txs[0] && tx.fetched && forall t :: t in txs ==> Logs(t)
    modifies dev, dev.mem, dev.nodeBump, dev.alloc
    ensures dev.Valid()
    ensures Drain(old(dev.State()), enabled, txs, lent)
            == if on then Returned(tx, sent, Drain(dev.State(), enabled, txs[1..], sent.left))
               else Outcome(dev.State(), [], [], [], lent, 1)
  {
    hide Allocator.HeapInv, At, Handle, Send, Returned;
    sent := Sent([], [], lent);
    if Sized(tx) && !tx.readable {
      return false, sent;
    }
    on := true;
    if IsRequest(tx) {
      var a := Recv(dev, tx);
      ReplySize(Payload(tx), a);
      sent := Send(enabled, lent, At(tx.bytes, 0), C.Reply(Payload(tx), a));
    }
  }

  /** Consume everything on the transmit queue. */
  method RpmsgDrain(dev: DeviceModel.VelocitorState, enabled: bool, txs: seq<Tx>, lent: seq<Rx>)
    returns (txUsed: seq<Elem>, rxUsed: seq<Elem>, messages: seq<seq<byte>>, left: seq<Rx>, taken: nat)
    requires dev.Valid() && forall tx :: tx in txs ==> Logs(tx)
    modifies dev, dev.mem, dev.nodeBump, dev.alloc
    ensures dev.Valid()
    ensures Outcome(dev.State(), txUsed, rxUsed, messages, left, taken) == Drain(old(dev.State()), enabled, txs, lent)
  {
    hide Allocator.HeapInv, Handle, Returned, After, Extended;
    txUsed, rxUsed, messages, left, taken := [], [], [], lent, 0;
    ghost var goal := Drain(dev.State(), enabled, txs, lent);
    AfterNothing(goal, dev.State(), lent);
    assert txs[0..] == txs;
    var on := true;
    while on && taken < |txs| && txs[taken].fetched
      invariant taken <= |txs| && dev.Valid()
      invariant var done := Outcome(dev.State(), txUsed, rxUsed, messages, left, taken);
                goal == if on then After(done, Drain(dev.State(), enabled, txs[taken..], left)) else done
      decreases on, |txs| - taken
    {
      ghost var done := Outcome(dev.State(), txUsed, rxUsed, messages, left, taken);
      var tx, sent := txs[taken], Sent([], [], []);
      on, sent := DrainOne(dev, enabled, tx, left, txs[taken..]);
      assert txs[taken..][1..] == txs[taken + 1..];
      if on {
        AfterReturned(done, tx, sent, Drain(dev.State(), enabled, txs[taken + 1..], sent.left));
        AfterMoves(Extended(done, tx, sent), dev.State(), Drain(dev.State(), enabled, txs[taken + 1..], sent.left));
        ExtendedIs(done, tx, sent);
        txUsed, rxUsed, messages, left := txUsed + Handed(tx), rxUsed + sent.used, messages + sent.messages, sent.left;
      } else {
        AfterStopped(done, dev.State(), left);
      }
      taken := taken + 1;
    }
    if on {
      AfterEnd(Outcome(dev.State(), txUsed, rxUsed, messages, left, taken), left);
    }
  }

  lemma AfterNothing(o: Outcome, s: Device.State, lent: seq<Rx>)
    ensures After(Outcome(s, [], [], [], lent, 0), o) == o
  {
  }

  lemma AfterMoves(done: Outcome, s: Device.State, rest: Outcome)
    ensures After(done.(dev := s), rest) == After(done, rest)
  {
  }

  lemma ExtendedIs(done: Outcome, tx: Tx, sent: Sent)
    ensures Extended(done, tx, sent) == Outcome(done.dev, done.txUsed + Handed(tx), done.rxUsed + sent.used,
                                                  done.messages + sent.messages, sent.left, done.taken + 1)
  {
  }

  lemma AfterStopped(done: Outcome, s: Device.State, left: seq<Rx>)
    ensures After(done, Outcome(s, [], [], [], left, 1))
            == Outcome(s, done.txUsed, done.rxUsed, done.messages, left, done.taken + 1)
  {
  }

  lemma AfterEnd(done: Outcome, left: seq<Rx>)
    requires done.left == left
    ensures After(done, Outcome(done.dev, [], [], [], left, 0)) == done
  {
  }
}
