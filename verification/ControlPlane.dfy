/** The control plane as bytes: what the driver sends, how the device answers it, and what
    the driver's reply callback makes of the answer. */
module ControlPlane {
  import opened Hardware
  import Allocator
  import Device

  const MSG_HDR: nat := 16
  const ALLOC_REQ: nat := 16
  const FREE_REQ: nat := 8
  const INFO_RESP: nat := 28
  const ALLOC_RESP: nat := 24
  const STAT_RESP: nat := 40
  const CAPS: nat := 7
  const CTRL_CAPS: nat := 1

  /** What a caller asks for, and what it is told. */
  datatype Request = InfoReq | AllocReq(size: u64, dtype: u32, node: u32) | FreeReq(handle: u32) | StatReq

  datatype Answer =
    | Info(abi: u32, caps: u32, ctrlCaps: u32, nodes: u32, engines: u32, align: u32, generation: u32)
    | Granted(handle: u32, node: u32, session: u32, offset: u64)
    | Freed
    | Stats(capacity0: u64, free0: u64, capacity1: u64, free1: u64, live: u32)
    | Failed(err: int)

  // ---- words ----

  /** An errno on the wire is its two's complement. */
  function StatusWord(err: int): u32
    requires -MAX_ERRNO <= err <= 0
  {
    if err == 0 then 0 else TWO32 + err
  }

  function Signed(w: u32): int {
    if w < TWO32 / 2 then w else w - TWO32
  }

  /** What the driver accepts as a status: an errno, or else -EREMOTEIO. */
  function Accepted(w: u32): (err: int)
    ensures -MAX_ERRNO <= err <= 0
  {
    if -MAX_ERRNO <= Signed(w) <= 0 then Signed(w) else EREMOTEIO
  }

  /** Every errno survives the wire, and only words that encode one are taken as such. */
  lemma StatusExactly(w: u32, err: int)
    requires -MAX_ERRNO <= err <= 0
    ensures Accepted(StatusWord(err)) == err
    ensures err != EREMOTEIO ==> (Accepted(w) == err <==> w == StatusWord(err))
  {
  }

  // ---- the driver's request ----

  function OpOf(r: Request): u16 {
    match r
    case InfoReq => OP_INFO
    case AllocReq(_, _, _) => OP_ALLOC
    case FreeReq(_) => OP_FREE
    case StatReq => OP_STAT
  }

  function RequestWords(seqNo: u32, r: Request): (ws: seq<nat>)
    ensures forall k :: 0 <= k < |ws| ==> ws[k] < TWO32
    ensures |ws| >= 4
  {
    [seqNo, OpOf(r), 0, 0] +
    (match r
     case AllocReq(size, dtype, node) => [Lo(size), Hi(size), dtype, node]
     case FreeReq(handle) => [handle, 0]
     case _ => [])
  }

  function Encode(seqNo: u32, r: Request): (b: seq<byte>)
    ensures |b| == 4 * |RequestWords(seqNo, r)| >= MSG_HDR
  {
    Words(RequestWords(seqNo, r))
  }

  // ---- the device ----

  function SeqOf(data: seq<byte>): u32
    requires |data| >= MSG_HDR
  {
    At(data, 0)
  }

  function WireOp(data: seq<byte>): u16
    requires |data| >= MSG_HDR
  {
    At(data, 4) % TWO16
  }

  function AnswerAlloc(a: Allocator.AllocAnswer): Answer {
    match a
    case Granted(h, node, generation, offset) => Granted(h, node % TWO32, generation, offset)
    case Refused(err) => Failed(err)
  }

  /** Serving one request, whatever its bytes are. */
  function Serve(s: Device.State, data: seq<byte>): (r: (Device.State, Answer))
    requires Device.Inv(s) && |data| >= MSG_HDR
    ensures Device.Shaped(r.0)
  {
    var op := WireOp(data);
    if op == OP_INFO then
      (s, Info(FW_ABI, CAPS, CTRL_CAPS, NODES, ENGINES, ALLOC_ALIGN, s.generation))
    else if op == OP_ALLOC then
      if |data| < MSG_HDR + ALLOC_REQ then (s, Failed(EINVAL))
      else
        var r := Device.Step(s, Device.Alloc(Join(At(data, 16), At(data, 20)), At(data, 28)));
        (r.0, AnswerAlloc(r.1.alloc))
    else if op == OP_FREE then
      if |data| < MSG_HDR + FREE_REQ then (s, Failed(EINVAL))
      else
        var r := Device.Step(s, Device.Free(At(data, 16)));
        (r.0, if r.1.err == OK then Freed else Failed(r.1.err))
    else if op == OP_STAT then
      var st := Device.Step(s, Device.Query).1.stat;
      (s, Stats(st.capacity[0], st.free[0], st.capacity[1], st.free[1], st.live))
    else (s, Failed(ENOSYS))
  }

  predicate Wire(a: Answer) {
    a.Failed? ==> -MAX_ERRNO <= a.err < 0
  }

  function StatusOf(a: Answer): int {
    if a.Failed? then a.err else OK
  }

  function PayloadWords(a: Answer): (ws: seq<nat>)
    ensures forall k :: 0 <= k < |ws| ==> ws[k] < TWO32
  {
    match a
    case Info(abi, caps, ctrlCaps, nodes, engines, align, generation) => [abi, caps, ctrlCaps, nodes, engines, align, generation]
    case Granted(handle, node, session, offset) => [handle, node, session, 0, Lo(offset), Hi(offset)]
    case Stats(c0, f0, c1, f1, live) => [Lo(c0), Hi(c0), Lo(f0), Hi(f0), Lo(c1), Hi(c1), Lo(f1), Hi(f1), live, 0]
    case _ => []
  }

  function ReplyWords(seqNo: u32, op: u16, a: Answer): (ws: seq<nat>)
    requires Wire(a)
    ensures (forall k :: 0 <= k < |ws| ==> ws[k] < TWO32) && |ws| == 4 + |PayloadWords(a)|
  {
    [seqNo, op, StatusWord(StatusOf(a)), 0] + PayloadWords(a)
  }

  /** The reply carries the request's own sequence number and op. */
  function Reply(data: seq<byte>, a: Answer): (b: seq<byte>)
    requires |data| >= MSG_HDR && Wire(a)
    ensures |b| >= MSG_HDR
  {
    Words(ReplyWords(SeqOf(data), WireOp(data), a))
  }

  // ---- the driver's callback ----

  /** What the transaction ends with: its status, and its answer if that is 0. */
  datatype Decoded = Decoded(status: int, answer: Option<Answer>)

  function AnswerSize(op: nat): nat {
    if op == OP_INFO then INFO_RESP else if op == OP_ALLOC then ALLOC_RESP else if op == OP_STAT then STAT_RESP else 0
  }

  function DecodeAnswer(op: nat, msg: seq<byte>): Answer
    requires |msg| >= MSG_HDR + AnswerSize(op)
  {
    if op == OP_INFO then Info(At(msg, 16), At(msg, 20), At(msg, 24), At(msg, 28), At(msg, 32), At(msg, 36), At(msg, 40))
    else if op == OP_ALLOC then Granted(At(msg, 16), At(msg, 20), At(msg, 24), Join(At(msg, 32), At(msg, 36)))
    else if op == OP_STAT then
      Stats(Join(At(msg, 16), At(msg, 20)), Join(At(msg, 24), At(msg, 28)),
            Join(At(msg, 32), At(msg, 36)), Join(At(msg, 40), At(msg, 44)), At(msg, 48))
    else Freed
  }

  /** A message claimed by the transaction that asked `op`; too short a one is dropped
      before it claims anything. */
  function Decode(op: u16, msg: seq<byte>): Option<Decoded> {
    if |msg| < MSG_HDR then None
    else if WireOp(msg) != op then Some(Decoded(EREMOTEIO, None))
    else if Accepted(At(msg, 8)) != 0 then Some(Decoded(Accepted(At(msg, 8)), None))
    else if !(OP_INFO <= op <= OP_STAT) then Some(Decoded(EREMOTEIO, None))
    else if |msg| < MSG_HDR + AnswerSize(op) then Some(Decoded(EPROTO, None))
    else Some(Decoded(OK, Some(DecodeAnswer(op, msg))))
  }

  // ---- round trips ----

  /** Answers that belong to this op. */
  predicate Answers(op: nat, a: Answer) {
    match a
    case Info(_, _, _, _, _, _, _) => op == OP_INFO
    case Granted(_, _, _, _) => op == OP_ALLOC
    case Freed => op == OP_FREE
    case Stats(_, _, _, _, _) => op == OP_STAT
    case Failed(err) => -MAX_ERRNO <= err < 0
  }

  lemma ReplyHeader(data: seq<byte>, a: Answer)
    requires |data| >= MSG_HDR && Wire(a)
    ensures var msg := Reply(data, a);
            && SeqOf(msg) == SeqOf(data) && WireOp(msg) == WireOp(data)
            && At(msg, 8) == StatusWord(StatusOf(a)) && |msg| == MSG_HDR + 4 * |PayloadWords(a)|
  {
    hide Words, At, PayloadWords;
    var ws := ReplyWords(SeqOf(data), WireOp(data), a);
    WordAt(ws, 0);
    WordAt(ws, 1);
    WordAt(ws, 2);
  }

  lemma ReplyPayload(data: seq<byte>, a: Answer, k: nat)
    requires |data| >= MSG_HDR && Wire(a) && k < |PayloadWords(a)|
    ensures MSG_HDR + 4 * k + 4 <= |Reply(data, a)| && At(Reply(data, a), MSG_HDR + 4 * k) == PayloadWords(a)[k]
  {
    hide Words, At, PayloadWords;
    var ws := ReplyWords(SeqOf(data), WireOp(data), a);
    WordAt(ws, 4 + k);
  }

  lemma InfoDecodes(data: seq<byte>, a: Answer)
    requires |data| >= MSG_HDR && a.Info?
    ensures |Reply(data, a)| == MSG_HDR + INFO_RESP && DecodeAnswer(OP_INFO, Reply(data, a)) == a
  {
    hide Words, At, Reply;
    ReplyHeader(data, a);
    ReplyPayload(data, a, 0);
    ReplyPayload(data, a, 1);
    ReplyPayload(data, a, 2);
    ReplyPayload(data, a, 3);
    ReplyPayload(data, a, 4);
    ReplyPayload(data, a, 5);
    ReplyPayload(data, a, 6);
  }

  lemma GrantDecodes(data: seq<byte>, a: Answer)
    requires |data| >= MSG_HDR && a.Granted?
    ensures |Reply(data, a)| == MSG_HDR + ALLOC_RESP && DecodeAnswer(OP_ALLOC, Reply(data, a)) == a
  {
    hide Words, At, Reply;
    JoinRoundTrip(a.offset);
    ReplyHeader(data, a);
    ReplyPayload(data, a, 0);
    ReplyPayload(data, a, 1);
    ReplyPayload(data, a, 2);
    ReplyPayload(data, a, 4);
    ReplyPayload(data, a, 5);
  }

  lemma StatsDecode(data: seq<byte>, a: Answer)
    requires |data| >= MSG_HDR && a.Stats?
    ensures |Reply(data, a)| == MSG_HDR + STAT_RESP && DecodeAnswer(OP_STAT, Reply(data, a)) == a
  {
    hide Words, At, Reply, Lo, Hi, Join;
    JoinRoundTrip(a.capacity0);
    JoinRoundTrip(a.free0);
    JoinRoundTrip(a.capacity1);
    JoinRoundTrip(a.free1);
    ReplyHeader(data, a);
    ReplyPayload(data, a, 0);
    ReplyPayload(data, a, 1);
    ReplyPayload(data, a, 2);
    ReplyPayload(data, a, 3);
    ReplyPayload(data, a, 4);
    ReplyPayload(data, a, 5);
    ReplyPayload(data, a, 6);
    ReplyPayload(data, a, 7);
    ReplyPayload(data, a, 8);
  }

  /** The decoder recovers exactly the status and the payload the device put in, for any
      request it answers, and the sequence number that finds the transaction. */
  lemma ReplyRoundTrip(data: seq<byte>, a: Answer)
    requires |data| >= MSG_HDR && Answers(WireOp(data), a)
    ensures SeqOf(Reply(data, a)) == SeqOf(data)
    ensures Decode(WireOp(data), Reply(data, a)) == Some(Decoded(StatusOf(a), if a.Failed? then None else Some(a)))
  {
    hide Words, At, Reply, DecodeAnswer;
    ReplyHeader(data, a);
    StatusExactly(0, StatusOf(a));
    match a
    case Info(_, _, _, _, _, _, _) => InfoDecodes(data, a);
    case Granted(_, _, _, _) => GrantDecodes(data, a);
    case Stats(_, _, _, _, _) => StatsDecode(data, a);
    case Freed => FreedDecodes(Reply(data, a));
    case Failed(_) =>
  }

  lemma FreedDecodes(msg: seq<byte>)
    requires |msg| >= MSG_HDR
    ensures DecodeAnswer(OP_FREE, msg) == Freed
  {
  }

  lemma RequestWordAt(seqNo: u32, r: Request, k: nat)
    requires k < |RequestWords(seqNo, r)|
    ensures 4 * k + 4 <= |Encode(seqNo, r)| && At(Encode(seqNo, r), 4 * k) == RequestWords(seqNo, r)[k]
  {
    hide Words, At, RequestWords;
    WordAt(RequestWords(seqNo, r), k);
  }

  /** The request the driver builds is the one the device acts on. */
  lemma RequestRoundTrip(seqNo: u32, r: Request)
    ensures var data := Encode(seqNo, r);
            && SeqOf(data) == seqNo && WireOp(data) == OpOf(r)
            && (r.AllocReq? ==> |data| == MSG_HDR + ALLOC_REQ && Join(At(data, 16), At(data, 20)) == r.size && At(data, 28) == r.node)
            && (r.FreeReq? ==> |data| == MSG_HDR + FREE_REQ && At(data, 16) == r.handle)
  {
    hide Words, At, Encode;
    RequestWordAt(seqNo, r, 0);
    RequestWordAt(seqNo, r, 1);
    if r.AllocReq? {
      JoinRoundTrip(r.size);
      RequestWordAt(seqNo, r, 4);
      RequestWordAt(seqNo, r, 5);
      RequestWordAt(seqNo, r, 7);
    } else if r.FreeReq? {
      RequestWordAt(seqNo, r, 4);
    }
  }

  /** Where the driver puts each field of a request, offset by offset. */
  lemma RequestLayout(seqNo: u32, r: Request)
    ensures var b := Encode(seqNo, r);
            && |b| == (match r case AllocReq(_, _, _) => 32 case FreeReq(_) => 24 case _ => 16)
            && At(b, 0) == seqNo && At(b, 8) == 0 && At(b, 12) == 0
            && At(b, 4) == (match r case InfoReq => 1 case AllocReq(_, _, _) => 2 case FreeReq(_) => 3 case StatReq => 4)
            && (r.AllocReq? ==>
                  At(b, 16) + 0x1_0000_0000 * At(b, 20) == r.size && At(b, 24) == r.dtype && At(b, 28) == r.node)
            && (r.FreeReq? ==> At(b, 16) == r.handle && At(b, 20) == 0)
  {
    hide Words, At, Encode;
    forall k | 0 <= k < |RequestWords(seqNo, r)|
      ensures At(Encode(seqNo, r), 4 * k) == RequestWords(seqNo, r)[k]
    {
      RequestWordAt(seqNo, r, k);
    }
    var b, ws := Encode(seqNo, r), RequestWords(seqNo, r);
    assert At(b, 4 * 0) == ws[0] && At(b, 4 * 1) == ws[1] && At(b, 4 * 2) == ws[2] && At(b, 4 * 3) == ws[3];
    if r.AllocReq? {
      JoinRoundTrip(r.size);
      assert At(b, 4 * 4) == ws[4] && At(b, 4 * 5) == ws[5] && At(b, 4 * 6) == ws[6] && At(b, 4 * 7) == ws[7];
    } else if r.FreeReq? {
      assert At(b, 4 * 4) == ws[4] && At(b, 4 * 5) == ws[5];
    }
  }

  /** Where the device puts each field of a reply: the request's number and op, the status
      as two's complement, then the payload. */
  lemma ReplyLayout(data: seq<byte>, a: Answer)
    requires |data| >= 16 && Wire(a)
    ensures var b := Reply(data, a);
            && |b| == 16 + (match a case Info(_, _, _, _, _, _, _) => 28 case Granted(_, _, _, _) => 24
                            case Stats(_, _, _, _, _) => 40 case _ => 0)
            && At(b, 0) == At(data, 0) && At(b, 4) == At(data, 4) % 0x1_0000 && At(b, 12) == 0
            && At(b, 8) == (if a.Failed? then 0x1_0000_0000 + a.err else 0)
            && match a
               case Info(abi, caps, ctrlCaps, nodes, engines, align, generation) =>
                 && At(b, 16) == abi && At(b, 20) == caps && At(b, 24) == ctrlCaps && At(b, 28) == nodes
                 && At(b, 32) == engines && At(b, 36) == align && At(b, 40) == generation
               case Granted(handle, node, session, offset) =>
                 && At(b, 16) == handle && At(b, 20) == node && At(b, 24) == session && At(b, 28) == 0
                 && At(b, 32) + 0x1_0000_0000 * At(b, 36) == offset
               case Stats(c0, f0, c1, f1, live) =>
                 && At(b, 16) + 0x1_0000_0000 * At(b, 20) == c0 && At(b, 24) + 0x1_0000_0000 * At(b, 28) == f0
                 && At(b, 32) + 0x1_0000_0000 * At(b, 36) == c1 && At(b, 40) + 0x1_0000_0000 * At(b, 44) == f1
                 && At(b, 48) == live && At(b, 52) == 0
               case _ => true
  {
    hide Words, At;
    var ws := ReplyWords(SeqOf(data), WireOp(data), a);
    forall k | 0 <= k < |ws|
      ensures At(Reply(data, a), 4 * k) == ws[k]
    {
      WordAt(ws, k);
    }
    var b := Reply(data, a);
    assert At(b, 4 * 0) == ws[0] && At(b, 4 * 1) == ws[1] && At(b, 4 * 2) == ws[2] && At(b, 4 * 3) == ws[3];
    match a
    case Info(_, _, _, _, _, _, _) =>
      assert At(b, 4 * 4) == ws[4] && At(b, 4 * 5) == ws[5] && At(b, 4 * 6) == ws[6] && At(b, 4 * 7) == ws[7];
      assert At(b, 4 * 8) == ws[8] && At(b, 4 * 9) == ws[9] && At(b, 4 * 10) == ws[10];
    case Granted(_, _, _, offset) =>
      JoinRoundTrip(offset);
      assert At(b, 4 * 4) == ws[4] && At(b, 4 * 5) == ws[5] && At(b, 4 * 6) == ws[6] && At(b, 4 * 7) == ws[7];
      assert At(b, 4 * 8) == ws[8] && At(b, 4 * 9) == ws[9];
    case Stats(c0, f0, c1, f1, _) =>
      JoinRoundTrip(c0);
      JoinRoundTrip(f0);
      JoinRoundTrip(c1);
      JoinRoundTrip(f1);
      assert At(b, 4 * 4) == ws[4] && At(b, 4 * 5) == ws[5] && At(b, 4 * 6) == ws[6] && At(b, 4 * 7) == ws[7];
      assert At(b, 4 * 8) == ws[8] && At(b, 4 * 9) == ws[9] && At(b, 4 * 10) == ws[10] && At(b, 4 * 11) == ws[11];
      assert At(b, 4 * 12) == ws[12] && At(b, 4 * 13) == ws[13];
    case _ =>
  }

  /** What the driver makes of any message at all for the transaction that asked `op`:
      dropped if shorter than a header; -EREMOTEIO, -121, if it answers another op or its
      status is no errno; the errno it carries; -EPROTO, -71, if its payload is short. */
  lemma DecodeExactly(op: u16, msg: seq<byte>)
    ensures Decode(op, msg).None? <==> |msg| < 16
    ensures |msg| >= 16 ==>
              var w, need := At(msg, 8), if op == 1 then 28 else if op == 2 then 24 else if op == 4 then 40 else 0;
              Decode(op, msg).value.status ==
              if At(msg, 4) % 0x1_0000 != op then -121
              else if w != 0 then (if w >= 0x1_0000_0000 - 4095 then w - 0x1_0000_0000 else -121)
              else if op == 0 || op > 4 then -121
              else if |msg| < 16 + need then -71
              else 0
    ensures Decode(op, msg).Some? ==> (Decode(op, msg).value.answer.Some? <==> Decode(op, msg).value.status == 0)
  {
    hide At, DecodeAnswer;
  }

  lemma ServeAnswers(s: Device.State, data: seq<byte>)
    requires Device.Inv(s) && |data| >= MSG_HDR
    ensures Device.Inv(Serve(s, data).0) && Answers(WireOp(data), Serve(s, data).1) && Wire(Serve(s, data).1)
  {
    hide Allocator.HeapInv, At;
    var op := WireOp(data);
    if op == OP_ALLOC && |data| >= MSG_HDR + ALLOC_REQ {
      Device.StepKeepsInv(s, Device.Alloc(Join(At(data, 16), At(data, 20)), At(data, 28)));
      AllocErrors(s.heap, s.generation, Join(At(data, 16), At(data, 20)), At(data, 28));
    } else if op == OP_FREE && |data| >= MSG_HDR + FREE_REQ {
      Device.StepKeepsInv(s, Device.Free(At(data, 16)));
    }
  }

  lemma AllocErrors(h: Allocator.Heap, generation: u32, size: u64, want: u32)
    requires Allocator.HeapShaped(h)
    ensures var a := Allocator.AllocBlock(h, generation, size, want).1;
            if a.Refused? then a.err == EINVAL || a.err == ENOMEM else a.node < NODES
  {
  }

  /** What each request means, on the device's state and not on its bytes. */
  function Verdict(s: Device.State, r: Request): (Device.State, Answer)
    requires Device.Inv(s)
  {
    match r
    case InfoReq => (s, Info(FW_ABI, CAPS, CTRL_CAPS, NODES, ENGINES, ALLOC_ALIGN, s.generation))
    case AllocReq(size, _, node) =>
      var step := Device.Step(s, Device.Alloc(size, node));
      (step.0, AnswerAlloc(step.1.alloc))
    case FreeReq(handle) =>
      var step := Device.Step(s, Device.Free(handle));
      (step.0, if step.1.err == OK then Freed else Failed(step.1.err))
    case StatReq =>
      var st := Device.Step(s, Device.Query).1.stat;
      (s, Stats(st.capacity[0], st.free[0], st.capacity[1], st.free[1], st.live))
  }

  /** One call, end to end: for whatever the caller asked, its transaction ends with the
      device's own verdict on that very request, errno or answer. */
  lemma CallExactly(s: Device.State, seqNo: u32, r: Request)
    requires Device.Inv(s)
    ensures Serve(s, Encode(seqNo, r)) == Verdict(s, r) && Device.Inv(Verdict(s, r).0) && Wire(Verdict(s, r).1)
    ensures var a := Verdict(s, r).1;
            var reply := Reply(Encode(seqNo, r), a);
            && SeqOf(reply) == seqNo
            && Decode(OpOf(r), reply) == Some(Decoded(StatusOf(a), if a.Failed? then None else Some(a)))
  {
    hide Words, At, Encode, Reply, Decode, Allocator.HeapInv;
    var data := Encode(seqNo, r);
    RequestRoundTrip(seqNo, r);
    ServeAnswers(s, data);
    ReplyRoundTrip(data, Serve(s, data).1);
  }

  /** What the device tells a driver that asks. */
  lemma InfoTold(s: Device.State, data: seq<byte>)
    requires Device.Inv(s) && |data| >= 16 && At(data, 4) % 0x1_0000 == 1
    ensures Serve(s, data) == (s, Info(1, 7, 1, 2, 2, 256, s.generation))
  {
    hide At;
  }

  /** A truncated ALLOC or FREE and an op that does not exist are answered, and the state
      stays as it was. */
  lemma MalformedExactly(s: Device.State, data: seq<byte>)
    requires Device.Inv(s) && |data| >= MSG_HDR
    ensures Serve(s, data) == (s, Failed(-38)) <==> !(1 <= At(data, 4) % 0x1_0000 <= 4)
    ensures (At(data, 4) % 0x1_0000 == 2 && |data| < 32) || (At(data, 4) % 0x1_0000 == 3 && |data| < 24)
            ==> Serve(s, data) == (s, Failed(-22))
  {
    hide At, Allocator.HeapInv;
    if WireOp(data) == OP_ALLOC && |data| >= MSG_HDR + ALLOC_REQ {
      AllocErrors(s.heap, s.generation, Join(At(data, 16), At(data, 20)), At(data, 28));
    }
  }
}
