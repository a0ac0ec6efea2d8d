/** An engine queue being drained: heads off the available ring, requests out of host
    memory, copies into device memory, heads back onto the used ring, while the host goes
    on publishing, collecting and changing its memory. */
module EngineQueue {
  import opened Hardware
  import opened SplitRing
  import Device
  import Allocator
  import DataWire
  import DeviceModel
  import Store

  /** One descriptor of the table. */
  datatype Desc = Desc(addr: u64, len: u32, next: bool, write: bool, nextIdx: u16)

  /** How handing a head back goes: the used index cannot be read, the element cannot be
      written, the index that announces it cannot, or all is well. */
  datatype PushResult = Unread | Unwritten | Unannounced | Announced

  /** Host memory and the bus as one turn of the drain finds them: whether the available
      index and slot can be read, the descriptor table and which of its entries can be
      read, what can be read of host memory from an address on, the response buffers that
      can be written, how the data transfer and the push will go, and the line the device will
      log. */
  datatype Host = Host(
    indexed: bool, desc: seq<Desc>, readable: seq<bool>,
    requests: map<u64, seq<byte>>, writable: set<u64>, dma: Device.Dma, push: PushResult, line: Line)

  type Line = l: seq<byte> | |l| == TRACE_ENTRY witness seq(TRACE_ENTRY, _ => 0)

  predicate Shaped(h: Host, num: nat) {
    |h.desc| == |h.readable| == num
  }

  /** One host for every turn of a drain. */
  ghost predicate AllShaped(hs: nat -> Host, num: nat) {
    forall k: nat :: Shaped(hs(k), num)
  }

  /** What serving one head comes to: the drain gives up and the head is lost, or it is
      done with and to be handed back. */
  datatype Verdict = Lost | Done(len: nat, reply: Option<Reply>)

  datatype Reply = Reply(addr: u64, seqNo: u32, answer: Device.DataAnswer, engine: nat)

  const GEMM_HDR_SIZE: nat := 80
  const RESP_SIZE: nat := 24

  function ReadDesc(h: Host, num: nat, index: nat): Option<Desc>
    requires Shaped(h, num)
  {
    if index >= num || !h.readable[index] then None else Some(h.desc[index])
  }

  /** The request in a buffer, if all of it can be read. */
  function Fetch(h: Host, d: Desc): Option<Device.DataReq> {
    if d.len < Device.REQ_HDR_SIZE || d.addr !in h.requests || |h.requests[d.addr]| < d.len then None
    else Some(DataWire.Parse(h.requests[d.addr][..d.len]))
  }

  predicate WellFormedIn(d: Desc) {
    d.next && !d.write && Device.REQ_HDR_SIZE <= d.len <= Device.REQ_HDR_SIZE + GEMM_HDR_SIZE
  }

  predicate WellFormedOut(d: Desc) {
    d.write && d.len >= RESP_SIZE
  }

  /** One head, with the chain it starts: read then write, exactly two descriptors. */
  function Handle(s: Device.State, h: Host, num: nat, engine: nat, head: nat): (r: (Device.State, Verdict))
    requires Device.Inv(s) && Shaped(h, num)
  {
    var first := ReadDesc(h, num, head);
    if first.None? then (s, Lost)
    else if !WellFormedIn(first.value) then (s, Done(0, None))
    else
      var second := ReadDesc(h, num, first.value.nextIdx);
      if second.None? then (s, Lost)
      else if !WellFormedOut(second.value) then (s, Done(0, None))
      else if Fetch(h, first.value).None? then (s, Lost)
      else
        var req := Fetch(h, first.value).value;
        Executed(s, engine, req, h.dma, h.line, second.value.addr, second.value.addr in h.writable)
  }

  /** A request whose chain was followed: served, then answered and logged if its
      response can be written. */
  function Executed(s: Device.State, engine: nat, req: Device.DataReq, dma: Device.Dma, line: Line, addr: u64, writable: bool)
      : (Device.State, Verdict)
    requires Device.Inv(s)
  {
    var served := Device.Serve(s, engine, req, dma);
    if !writable then (served.0, Lost)
    else (Logged(served.0, line), Done(RESP_SIZE, Some(Reply(addr, req.seqNo, served.1, engine))))
  }

  /** An answered request leaves one line in the device's log. */
  function Logged(s: Device.State, line: Line): Device.State
    requires Device.Shaped(s)
  {
    s.(mem := Device.Trace(s.mem, s.traceDa, line))
  }

  lemma LoggedRefines(s: Device.State, line: Line)
    requires Device.Inv(s)
    ensures Device.Inv(Logged(s, line)) && Store.Abs(Logged(s, line)) == Store.Abs(s)
  {
    hide Allocator.HeapInv, Device.Trace, Store.Abs;
    Device.StepKeepsInv(s, Device.Log(line));
    Store.LogRefines(s, line);
  }

  lemma HandleKeepsInv(s: Device.State, h: Host, num: nat, engine: nat, head: nat)
    requires Device.Inv(s) && Shaped(h, num)
    ensures Device.Inv(Handle(s, h, num, engine, head).0)
  {
    hide Allocator.HeapInv, Device.Serve, Logged;
    var first := ReadDesc(h, num, head);
    if first.Some? && Fetch(h, first.value).Some? {
      var req := Fetch(h, first.value).value;
      Device.StepKeepsInv(s, Device.Data(engine, req, h.dma));
      LoggedRefines(Device.Serve(s, engine, req, h.dma).0, h.line);
    }
  }

  /** What reaches the used ring, and the response buffers, of one head. */
  function Handed(h: Host, head: nat, v: Verdict): seq<Elem> {
    if v.Done? && h.push.Announced? then [Elem(head, v.len)] else []
  }

  function Replied(v: Verdict): seq<Reply> {
    if v.Done? && v.reply.Some? then [v.reply.value] else []
  }

  /** Everything one drain does with the heads it takes, oldest first: a failed push goes
      unnoticed, a lost head stops it.  `kept` are the turns whose head reached the used
      ring. */
  datatype Outcome = Outcome(dev: Device.State, elems: seq<Elem>, replies: seq<Reply>, kept: seq<nat>, stopped: bool)

  function Turn(o: Outcome, h: Host, num: nat, engine: nat, k: nat, head: nat): (r: Outcome)
    requires Device.Inv(o.dev) && Shaped(h, num)
    ensures Device.Inv(r.dev)
  {
    HandleKeepsInv(o.dev, h, num, engine, head);
    var (dev, v) := Handle(o.dev, h, num, engine, head);
    Outcome(dev, o.elems + Handed(h, head, v), o.replies + Replied(v),
            o.kept + (if v.Done? && h.push.Announced? then [k] else []), v.Lost?)
  }

  function Serving(s: Device.State, hs: nat -> Host, num: nat, engine: nat, heads: seq<nat>): (r: Outcome)
    requires Device.Inv(s) && AllShaped(hs, num)
    ensures Device.Inv(r.dev)
    decreases |heads|
  {
    if heads == [] then Outcome(s, [], [], [], false)
    else
      var o := Serving(s, hs, num, engine, Init(heads));
      if o.stopped then o else Turn(o, hs(|heads| - 1), num, engine, |heads| - 1, Last(heads))
  }

  // ---- what a drain achieves ----

  /** Whether the device can follow the chain that starts at this head all the way to a
      response, as far as it is well formed. */
  predicate Followable(h: Host, num: nat, head: nat)
    requires Shaped(h, num)
  {
    && head < num && h.readable[head]
    && (WellFormedIn(h.desc[head]) ==>
          && h.desc[head].nextIdx < num && h.readable[h.desc[head].nextIdx]
          && (WellFormedOut(h.desc[h.desc[head].nextIdx]) ==>
                Fetch(h, h.desc[head]).Some? && h.desc[h.desc[head].nextIdx].addr in h.writable))
  }

  lemma LostExactly(s: Device.State, h: Host, num: nat, engine: nat, head: nat)
    requires Device.Inv(s) && Shaped(h, num)
    ensures Handle(s, h, num, engine, head).1.Lost? <==> !Followable(h, num, head)
  {
  }

  predicate Reads(h: Host, num: nat, i: nat)
    requires Shaped(h, num)
  {
    i < num && h.readable[i]
  }

  /** Two descriptors the device can read, the first for a request it can read, of 16 to 96
      bytes, the second for a response of at least 24 bytes that it can write. */
  predicate Served(h: Host, num: nat, head: nat)
    requires Shaped(h, num)
  {
    && Reads(h, num, head)
    && var first := h.desc[head];
    && first.next && !first.write && 16 <= first.len <= 96 && Reads(h, num, first.nextIdx)
    && var second := h.desc[first.nextIdx];
    && second.write && second.len >= 24
    && first.addr in h.requests && first.len <= |h.requests[first.addr]| && second.addr in h.writable
  }

  /** Descriptors the device can read and will not take. */
  predicate Malformed(h: Host, num: nat, head: nat)
    requires Shaped(h, num)
  {
    && Reads(h, num, head)
    && var first := h.desc[head];
    && (first.next && !first.write && 16 <= first.len <= 96 ==>
          && Reads(h, num, first.nextIdx)
          && (!h.desc[first.nextIdx].write || h.desc[first.nextIdx].len < 24))
  }

  /** Every head is one of three.  A well-made chain is served: what the data plane does of
      the bytes in the request buffer, then one line in the log, 24 bytes of response with
      the request's own number and the answer.  One not well made goes back empty and
      nothing happens.  Any other is lost, at most its request having been done. */
  lemma HandledExactly(s: Device.State, h: Host, num: nat, engine: nat, head: nat)
    requires Device.Inv(s) && Shaped(h, num)
    ensures var (s', v) := Handle(s, h, num, engine, head);
            && (Served(h, num, head) ==>
                  var first := h.desc[head];
                  var req := DataWire.Parse(h.requests[first.addr][..first.len]);
                  var (dev, answer) := Device.Serve(s, engine, req, h.dma);
                  && s' == dev.(mem := Device.Trace(dev.mem, dev.traceDa, h.line))
                  && v == Done(24, Some(Reply(h.desc[first.nextIdx].addr, req.seqNo, answer, engine))))
            && (Malformed(h, num, head) ==> s' == s && v == Done(0, None))
            && (v.Lost? <==> !Served(h, num, head) && !Malformed(h, num, head))
  {
    hide Device.Serve, Device.Trace, DataWire.Parse;
  }

  /** Turn i comes to its head and can see it through. */
  ghost predicate Reached(hs: nat -> Host, num: nat, heads: seq<nat>, i: nat)
    requires AllShaped(hs, num)
  {
    i < |heads| && forall j: nat :: j <= i ==> Followable(hs(j), num, heads[j])
  }

  /** The turns whose heads come back. */
  ghost predicate Back(hs: nat -> Host, num: nat, heads: seq<nat>, i: nat)
    requires AllShaped(hs, num)
  {
    Reached(hs, num, heads, i) && hs(i).push.Announced?
  }

  /** The elements are those of the turns kept, in order. */
  ghost predicate InOrder(o: Outcome, heads: seq<nat>) {
    && |o.kept| == |o.elems|
    && (forall k :: 0 <= k < |o.kept| ==> o.kept[k] < |heads| && o.elems[k].id == heads[o.kept[k]])
    && (forall j, k :: 0 <= j < k < |o.kept| ==> o.kept[j] < o.kept[k])
  }

  lemma TurnInOrder(o: Outcome, h: Host, num: nat, engine: nat, heads: seq<nat>)
    requires Device.Inv(o.dev) && Shaped(h, num) && heads != [] && InOrder(o, Init(heads))
    ensures InOrder(Turn(o, h, num, engine, |heads| - 1, Last(heads)), heads)
    ensures forall i: nat :: i in Turn(o, h, num, engine, |heads| - 1, Last(heads)).kept <==>
              i in o.kept || (i == |heads| - 1 && Followable(h, num, Last(heads)) && h.push.Announced?)
    ensures Turn(o, h, num, engine, |heads| - 1, Last(heads)).stopped <==> !Followable(h, num, Last(heads))
  {
    hide Handle, Allocator.HeapInv, Followable;
    LostExactly(o.dev, h, num, engine, Last(heads));
  }

  /** Which heads come back, exactly: those of the turns up to the first chain that cannot
      be followed whose push goes through, in the order published.  The drain stops early
      if and only if there is such a chain. */
  lemma {:induction false} ReturnedExactly(s: Device.State, hs: nat -> Host, num: nat, engine: nat, heads: seq<nat>)
    requires Device.Inv(s) && AllShaped(hs, num)
    ensures var o := Serving(s, hs, num, engine, heads);
            && InOrder(o, heads)
            && (forall i: nat :: i in o.kept <==> Back(hs, num, heads, i))
            && (o.stopped <==> heads != [] && !Reached(hs, num, heads, |heads| - 1))
    decreases |heads|
  {
    hide Turn, Allocator.HeapInv, Followable, Reached;
    if heads == [] {
      assert forall i: nat :: !Reached(hs, num, heads, i) by { ReachedNone(hs, num); }
    } else {
      var before, last := Init(heads), |heads| - 1;
      ReturnedExactly(s, hs, num, engine, before);
      var o := Serving(s, hs, num, engine, before);
      ReachedFrom(hs, num, heads);
      if o.stopped {
        WiderInOrder(o, heads);
      } else {
        TurnInOrder(o, hs(last), num, engine, heads);
      }
      forall i: nat
        ensures i in Serving(s, hs, num, engine, heads).kept <==> Back(hs, num, heads, i)
      {
        assert Back(hs, num, before, i) <==> i in o.kept;
        assert i < last ==> (Reached(hs, num, heads, i) <==> Reached(hs, num, before, i));
        assert Reached(hs, num, heads, i) ==> i <= last;
      }
    }
  }

  lemma WiderInOrder(o: Outcome, heads: seq<nat>)
    requires heads != [] && InOrder(o, Init(heads))
    ensures InOrder(o, heads)
  {
  }

  lemma ReachedNone(hs: nat -> Host, num: nat)
    requires AllShaped(hs, num)
    ensures forall i: nat :: !Reached(hs, num, [], i)
  {
  }

  lemma ReachedFrom(hs: nat -> Host, num: nat, heads: seq<nat>)
    requires AllShaped(hs, num) && heads != []
    ensures forall i: nat :: i < |heads| - 1 ==> (Reached(hs, num, heads, i) <==> Reached(hs, num, Init(heads), i))
    ensures Reached(hs, num, heads, |heads| - 1) <==>
            Followable(hs(|heads| - 1), num, Last(heads)) && (|heads| == 1 || Reached(hs, num, Init(heads), |heads| - 2))
    ensures forall i: nat :: Reached(hs, num, heads, i) ==> i < |heads|
    ensures forall i: nat :: Reached(hs, num, Init(heads), i) ==> i < |heads| - 1
  {
    hide Followable;
    var before := Init(heads);
    assert forall j: nat :: j < |before| ==> before[j] == heads[j];
  }

  /** Every chain can be followed and every push goes through. */
  ghost predicate Faultless(hs: nat -> Host, num: nat, heads: seq<nat>)
    requires AllShaped(hs, num)
  {
    forall k: nat :: k < |heads| ==> Followable(hs(k), num, heads[k]) && hs(k).push.Announced?
  }

  lemma FaultlessBack(hs: nat -> Host, num: nat, heads: seq<nat>)
    requires AllShaped(hs, num)
    ensures Faultless(hs, num, heads) <==> forall i: nat :: i < |heads| ==> Back(hs, num, heads, i)
  {
    hide Followable;
    if forall i: nat :: i < |heads| ==> Back(hs, num, heads, i) {
      forall k: nat | k < |heads|
        ensures Followable(hs(k), num, heads[k]) && hs(k).push.Announced?
      {
        assert Back(hs, num, heads, k);
      }
    }
  }

  /** No head is lost exactly when every chain can be followed and every push goes through. */
  lemma NothingLostExactly(s: Device.State, hs: nat -> Host, num: nat, engine: nat, heads: seq<nat>)
    requires Device.Inv(s) && AllShaped(hs, num)
    ensures |Serving(s, hs, num, engine, heads).elems| == |heads| <==> Faultless(hs, num, heads)
  {
    hide Serving, Back, Faultless, Allocator.HeapInv;
    ReturnedExactly(s, hs, num, engine, heads);
    FaultlessBack(hs, num, heads);
    var kept := Serving(s, hs, num, engine, heads).kept;
    KeptBound(kept, |heads|);
    CoversExactly(kept, |heads|);
  }

  /** What the k-th reply of a drain has to be: for the k-th request, in the state its
      predecessors left. */
  ghost predicate Answers(s: Device.State, hs: nat -> Host, num: nat, engine: nat, heads: seq<nat>, k: nat, r: Reply)
    requires Device.Inv(s) && AllShaped(hs, num) && k < |heads| && Served(hs(k), num, heads[k])
  {
    var h, first := hs(k), hs(k).desc[heads[k]];
    var req := DataWire.Parse(h.requests[first.addr][..first.len]);
    r == Reply(h.desc[first.nextIdx].addr, req.seqNo,
               Device.Serve(Serving(s, hs, num, engine, heads[..k]).dev, engine, req, h.dma).1, engine)
  }

  ghost predicate AllServed(hs: nat -> Host, num: nat, heads: seq<nat>)
    requires AllShaped(hs, num)
  {
    forall k: nat :: k < |heads| ==> Served(hs(k), num, heads[k])
  }

  /** One reply for every head, in order, and 24 bytes written for each that comes back. */
  ghost predicate Answered(s: Device.State, hs: nat -> Host, num: nat, engine: nat, heads: seq<nat>, o: Outcome)
    requires Device.Inv(s) && AllShaped(hs, num) && AllServed(hs, num, heads)
  {
    && !o.stopped && |o.replies| == |heads|
    && (forall k: nat :: k < |heads| ==> Answers(s, hs, num, engine, heads, k, o.replies[k]))
    && (forall k :: 0 <= k < |o.elems| ==> o.elems[k].len == 24)
  }

  lemma AnsweredTurn(s: Device.State, hs: nat -> Host, num: nat, engine: nat, heads: seq<nat>)
    requires Device.Inv(s) && AllShaped(hs, num) && AllServed(hs, num, heads) && heads != []
    requires AllServed(hs, num, Init(heads))
    requires Answered(s, hs, num, engine, Init(heads), Serving(s, hs, num, engine, Init(heads)))
    ensures Answered(s, hs, num, engine, heads, Serving(s, hs, num, engine, heads))
  {
    hide Device.Serve, Device.Trace, DataWire.Parse, Allocator.HeapInv, Handle, Answers, Served;
    var last: nat := |heads| - 1;
    var o := Serving(s, hs, num, engine, Init(heads));
    var v := Handle(o.dev, hs(last), num, engine, Last(heads)).1;
    HandledExactly(o.dev, hs(last), num, engine, Last(heads));
    assert v.Done? && v.len == 24 && v.reply.Some?;
    var o' := Serving(s, hs, num, engine, heads);
    assert o'.replies == o.replies + [v.reply.value];
    hide Serving, Turn;
    LastAnswer(s, hs, num, engine, heads, v.reply.value);
    forall k: nat | k < last
      ensures Answers(s, hs, num, engine, heads, k, o'.replies[k])
    {
      SameAnswer(s, hs, num, engine, heads, k, o.replies[k]);
    }
  }

  /** The data plane as calls: when every chain is well made and reachable, each head is
      answered once, in order, where its response belongs and with its own number, and comes
      back with 24 bytes written if its push goes through. */
  lemma {:induction false} AnsweredInOrder(s: Device.State, hs: nat -> Host, num: nat, engine: nat, heads: seq<nat>)
    requires Device.Inv(s) && AllShaped(hs, num) && AllServed(hs, num, heads)
    ensures Answered(s, hs, num, engine, heads, Serving(s, hs, num, engine, heads))
    decreases |heads|
  {
    hide Allocator.HeapInv, Served, Turn;
    if heads != [] {
      assert forall k: nat :: k < |heads| - 1 ==> Init(heads)[k] == heads[k];
      AnsweredInOrder(s, hs, num, engine, Init(heads));
      AnsweredTurn(s, hs, num, engine, heads);
    }
  }

  lemma SameAnswer(s: Device.State, hs: nat -> Host, num: nat, engine: nat, heads: seq<nat>, k: nat, r: Reply)
    requires Device.Inv(s) && AllShaped(hs, num) && k < |heads| - 1 && Served(hs(k), num, heads[k]) && Init(heads)[k] == heads[k]
    requires Answers(s, hs, num, engine, Init(heads), k, r)
    ensures Answers(s, hs, num, engine, heads, k, r)
  {
    hide Device.Serve, DataWire.Parse, Allocator.HeapInv, Serving;
    assert Init(heads)[..k] == heads[..k];
  }

  lemma LastAnswer(s: Device.State, hs: nat -> Host, num: nat, engine: nat, heads: seq<nat>, r: Reply)
    requires Device.Inv(s) && AllShaped(hs, num) && heads != [] && Served(hs(|heads| - 1), num, Last(heads))
    requires Handle(Serving(s, hs, num, engine, Init(heads)).dev, hs(|heads| - 1), num, engine, Last(heads)).1 == Done(24, Some(r))
    ensures Answers(s, hs, num, engine, heads, |heads| - 1, r)
  {
    hide Device.Serve, Device.Trace, DataWire.Parse, Allocator.HeapInv, Serving, Handle;
    HandledExactly(Serving(s, hs, num, engine, Init(heads)).dev, hs(|heads| - 1), num, engine, Last(heads));
    assert heads[..|heads| - 1] == Init(heads);
  }

  lemma {:induction false} KeptBound(kept: seq<nat>, n: nat)
    requires forall j, k :: 0 <= j < k < |kept| ==> kept[j] < kept[k]
    requires forall k :: 0 <= k < |kept| ==> kept[k] < n
    ensures |kept| <= n
  {
    if kept != [] {
      KeptAbove(kept, |kept| - 1);
    }
  }

  // ---- the same drain over the map of private arrays ----

  /** One head against the map from handles to private arrays. */
  function StoreHandle(a: Store.Store, h: Host, num: nat, engine: nat, head: nat): (Store.Store, Verdict)
    requires Shaped(h, num)
  {
    var first := ReadDesc(h, num, head);
    if first.None? then (a, Lost)
    else if !WellFormedIn(first.value) then (a, Done(0, None))
    else
      var second := ReadDesc(h, num, first.value.nextIdx);
      if second.None? then (a, Lost)
      else if !WellFormedOut(second.value) then (a, Done(0, None))
      else if Fetch(h, first.value).None? then (a, Lost)
      else
        var req := Fetch(h, first.value).value;
        var served := Store.StoreServe(a, engine, req, h.dma);
        if second.value.addr !in h.writable then (served.0, Lost)
        else (served.0, Done(RESP_SIZE, Some(Reply(second.value.addr, req.seqNo, served.1, engine))))
  }

  /** The requests applied to the map one after the other, each answered, until one cannot
      be. */
  function StoreServing(a: Store.Store, hs: nat -> Host, num: nat, engine: nat, heads: seq<nat>): (Store.Store, seq<Reply>, bool)
    requires AllShaped(hs, num)
    decreases |heads|
  {
    if heads == [] then (a, [], false)
    else
      var o := StoreServing(a, hs, num, engine, Init(heads));
      if o.2 then o
      else
        var one := StoreHandle(o.0, hs(|heads| - 1), num, engine, Last(heads));
        (one.0, o.1 + Replied(one.1), one.1.Lost?)
  }

  lemma HandleRefines(s: Device.State, h: Host, num: nat, engine: nat, head: nat)
    requires Device.Inv(s) && Shaped(h, num)
    ensures Device.Inv(Handle(s, h, num, engine, head).0)
    ensures StoreHandle(Store.Abs(s), h, num, engine, head)
            == (Store.Abs(Handle(s, h, num, engine, head).0), Handle(s, h, num, engine, head).1)
  {
    hide Allocator.HeapInv, Device.Serve, Store.StoreServe, Store.Abs, Logged;
    var first := ReadDesc(h, num, head);
    if first.Some? && Fetch(h, first.value).Some? {
      var req := Fetch(h, first.value).value;
      Store.ServeRefines(s, engine, req, h.dma);
      LoggedRefines(Device.Serve(s, engine, req, h.dma).0, h.line);
    }
  }

  /** A drain is the requests of the heads it takes applied to that map one after the
      other, each answered with its own sequence number and in order. */
  lemma {:induction false} ServingRefines(s: Device.State, hs: nat -> Host, num: nat, engine: nat, heads: seq<nat>)
    requires Device.Inv(s) && AllShaped(hs, num)
    ensures var o := Serving(s, hs, num, engine, heads);
            StoreServing(Store.Abs(s), hs, num, engine, heads) == (Store.Abs(o.dev), o.replies, o.stopped)
    decreases |heads|
  {
    hide Allocator.HeapInv, Handle, StoreHandle, Store.Abs;
    if heads != [] {
      ServingRefines(s, hs, num, engine, Init(heads));
      var o := Serving(s, hs, num, engine, Init(heads));
      HandleRefines(o.dev, hs(|heads| - 1), num, engine, Last(heads));
    }
  }

  // ---- the code ----

  method Execute(dev: DeviceModel.VelocitorState, engine: nat, req: Device.DataReq, dma: Device.Dma, line: Line,
                 addr: u64, writable: bool)
    returns (v: Verdict)
    requires dev.Valid()
    modifies dev.mem
    ensures dev.Valid() && (dev.State(), v) == Executed(old(dev.State()), engine, req, dma, line, addr, writable)
  {
    hide Allocator.HeapInv, Device.Serve, Device.Trace;
    var answer := dev.Serve(engine, req, dma);
    if !writable {
      return Lost;
    }
    dev.Trace(line);
    return Done(RESP_SIZE, Some(Reply(addr, req.seqNo, answer, engine)));
  }

  /** One act of the host's between two turns; one that its limit forbids, or that finds
      nothing, does not happen. */
  datatype HostAct = Publish(head: nat) | Collect

  function ActOn(f: Fifo, num: nat, a: HostAct): Fifo {
    match a
    case Publish(head) => if |f.published| < f.reclaimed + num then f.(published := f.published + [head]) else f
    case Collect => FifoStep(f, Reclaim)
  }

  function ActAll(f: Fifo, num: nat, acts: seq<HostAct>): Fifo {
    if acts == [] then f else ActOn(ActAll(f, num, Init(acts)), num, Last(acts))
  }

  function ActsAt(acts: seq<seq<HostAct>>, k: nat): seq<HostAct> {
    if k < |acts| then acts[k] else []
  }

  /** The two rings, the device that serves them, and the host's index into the used one
      and count of free entries.
      `fifo` is the queue's history and `program` the engine's account of it. */
  class Queue {
    const dev: DeviceModel.VelocitorState
    const engine: nat
    const num: nat
    const avail: array<nat>
    const used: array<Elem>
    var availIdx: nat
    var usedIdx: nat
    var lastAvail: nat
    var lastUsed: nat
    var free: nat
    ghost var fifo: Fifo
    ghost var program: Engine

    /** A queue at activation: both indices at zero, nothing published yet. */
    constructor (dev: DeviceModel.VelocitorState, engine: nat, avail: array<nat>, used: array<Elem>)
      requires dev.Valid() && 0 < avail.Length == used.Length <= VRING_NUM && TWO16 % avail.Length == 0
      requires avail as object != dev.nodeBump && avail as object != dev.mem && avail as object != dev.alloc
      requires used as object != dev.nodeBump && used as object != dev.mem && used as object != dev.alloc
      requires avail as object != used && avail as object != dev && used as object != dev
      ensures Valid() && fifo == EmptyFifo && program == FreshEngine && this.dev == dev && this.engine == engine
    {
      this.dev, this.engine, this.num, this.avail, this.used := dev, engine, avail.Length, avail, used;
      availIdx, usedIdx, lastAvail, lastUsed, free := 0, 0, 0, 0, avail.Length;
      fifo, program := EmptyFifo, FreshEngine;
    }

    /** The rings hold the history, and every head popped is announced, dropped or in
        hand: `program` says which, and that holds over the queue's whole life. */
    ghost predicate Valid()
      reads this, avail, used, dev, dev.mem, dev.nodeBump, dev.alloc
    {
      && dev.Valid()
      && avail.Length == num && used.Length == num && Represents(Ring(), fifo) && fifo.staged.None?
      && EngineInv(program, fifo) && |fifo.published| + free == fifo.reclaimed + num
      && Distinct()
    }

    /** The queue's rings are host memory, disjoint from the device's own arrays. */
    ghost predicate Distinct()
      reads this
    {
      && avail as object != dev.nodeBump && avail as object != dev.mem && avail as object != dev.alloc
      && used as object != dev.nodeBump && used as object != dev.mem && used as object != dev.alloc
      && avail as object != used && avail as object != dev && used as object != dev
      && avail as object != this && used as object != this && dev as object != this
      && dev.mem as object != this && dev.nodeBump as object != this && dev.alloc as object != this
    }

    ghost function Ring(): SplitRing.Ring
      reads this, avail, used
    {
      SplitRing.Ring(num, avail[..], availIdx, used[..], usedIdx, lastAvail, lastUsed)
    }

    /** Take the next published head, if the ring can be read and there is one. */
    method PopHead(indexed: bool) returns (head: Option<nat>)
      requires Valid()
      modifies this`lastAvail, this`fifo, this`program
      ensures Valid()
      ensures !indexed ==> head.None? && fifo == old(fifo) && program == old(program) && lastAvail == old(lastAvail)
      ensures indexed ==>
                && Ring() == Step(old(Ring()), Pop) && fifo == FifoStep(old(fifo), Pop)
                && Popped(head) == FifoObserve(old(fifo), Pop) && program == EngineStep(old(program), Pop, Popped(head))
    {
      if !indexed {
        return None;
      }
      hide Represents, EngineInv, Allocator.HeapInv;
      EngineFollows(program, fifo, num, Pop);
      StepRefines(Ring(), fifo, Pop);
      program := EngineStep(program, Pop, FifoObserve(fifo, Pop));
      fifo := FifoStep(fifo, Pop);
      if availIdx == lastAvail {
        return None;
      }
      head := Some(avail[Slot(num, lastAvail)]);
      lastAvail := Next16(lastAvail);
    }

    /** The used element of the head in hand, written but not yet announced. */
    method WriteElem(head: nat, len: nat)
      requires Valid() && program.hand == Held(head)
      modifies this`fifo, this`program, used
      ensures Valid() && Ring() == Step(old(Ring()), Fill(Elem(head, len)))
      ensures fifo == FifoStep(old(fifo), Fill(Elem(head, len))) && program == old(program).(hand := Ready(head))
    {
      hide Represents, EngineInv, Allocator.HeapInv;
      var e := Elem(head, len);
      EngineFollows(program, fifo, num, Fill(e));
      StepRefines(Ring(), fifo, Fill(e));
      used[Slot(num, usedIdx)] := e;
      fifo, program := FifoStep(fifo, Fill(e)), EngineStep(program, Fill(e), Silent);
    }

    /** The index that announces it. */
    method Announce()
      requires Valid() && program.hand.Ready?
      modifies this`usedIdx, this`fifo, this`program
      ensures Valid() && Ring() == Step(old(Ring()), Post) && fifo == FifoStep(old(fifo), Post)
      ensures program == EngineStep(old(program), Post, Silent) && old(fifo).filled.Some? && old(program).popped > 0
    {
      InHandShape(program, fifo);
      hide Represents, EngineInv, Allocator.HeapInv;
      EngineFollows(program, fifo, num, Post);
      StepRefines(Ring(), fifo, Post);
      usedIdx := Next16(usedIdx);
      fifo, program := FifoStep(fifo, Post), EngineStep(program, Post, Silent);
    }

    /** Hand the head in hand back: the element first, then the index that announces it.
        Whatever fails, the caller is not told. */
    method Push(head: nat, len: nat, how: PushResult)
      requires Valid() && program.hand == Held(head)
      modifies this`usedIdx, this`fifo, this`program, used
      ensures Valid()
      ensures how.Unread? || how.Unwritten? ==> Ring() == old(Ring()) && fifo == old(fifo) && program == old(program)
      ensures how.Unannounced? ==>
                && Ring() == Step(old(Ring()), Fill(Elem(head, len))) && fifo == FifoStep(old(fifo), Fill(Elem(head, len)))
                && program == old(program).(hand := Ready(head))
      ensures how.Announced? ==>
                && Ring() == Step(Step(old(Ring()), Fill(Elem(head, len))), Post)
                && fifo == old(fifo).(returned := old(fifo).returned + [Elem(head, len)], filled := None)
                && program.hand.Empty? && program.dropped == old(program).dropped
    {
      hide Valid;
      if how.Unread? || how.Unwritten? {
        return;
      }
      WriteElem(head, len);
      if how.Unannounced? {
        return;
      }
      Announce();
    }

    /** The host publishes one head, if it keeps its limit. */
    method PublishHead(head: nat)
      requires Valid()
      modifies this`availIdx, this`free, this`fifo, avail
      ensures Valid() && fifo == ActOn(old(fifo), num, Publish(head))
    {
      hide Represents, EngineInv, Allocator.HeapInv;
      if free > 0 {
        EngineFollows(program, fifo, num, Stage(head));
        StepRefines(Ring(), fifo, Stage(head));
        fifo := FifoStep(fifo, Stage(head));
        avail[Slot(num, availIdx)] := head;
        EngineFollows(program, fifo, num, Commit);
        StepRefines(Ring(), fifo, Commit);
        fifo := FifoStep(fifo, Commit);
        availIdx := Next16(availIdx);
        free := free - 1;
      }
    }

    /** The host collects one used element, if there is one. */
    method CollectElem() returns (elem: Option<Elem>)
      requires Valid()
      modifies this`lastUsed, this`free, this`fifo
      ensures Valid() && fifo == ActOn(old(fifo), num, Collect) && Reclaimed(elem) == FifoObserve(old(fifo), Reclaim)
    {
      hide Represents, EngineInv, Allocator.HeapInv;
      EngineFollows(program, fifo, num, Reclaim);
      StepRefines(Ring(), fifo, Reclaim);
      fifo := FifoStep(fifo, Reclaim);
      if usedIdx == lastUsed {
        return None;
      }
      elem := Some(used[Slot(num, lastUsed)]);
      lastUsed := Next16(lastUsed);
      free := free + 1;
    }

    method ServeHead(h: Host, head: nat) returns (v: Verdict)
      requires Valid() && Shaped(h, num)
      modifies dev.mem
      ensures Valid() && unchanged(this) && unchanged(used) && unchanged(avail)
      ensures (dev.State(), v) == Handle(old(dev.State()), h, num, engine, head)
    {
      hide Represents, EngineInv, Allocator.HeapInv, Executed;
      if head >= num || !h.readable[head] {
        return Lost;
      }
      var first := h.desc[head];
      if !WellFormedIn(first) {
        return Done(0, None);
      }
      if first.nextIdx >= num || !h.readable[first.nextIdx] {
        return Lost;
      }
      var second := h.desc[first.nextIdx];
      if !WellFormedOut(second) {
        return Done(0, None);
      }
      if first.addr !in h.requests || |h.requests[first.addr]| < first.len {
        return Lost;
      }
      var req := DataWire.Parse(h.requests[first.addr][..first.len]);
      v := Execute(dev, engine, req, h.dma, h.line, second.addr, second.addr in h.writable);
    }

    /** One turn of the drain: a head off the ring, served and, unless lost, pushed. */
    method DrainOne(h: Host) returns (head: Option<nat>, v: Verdict)
      requires Valid() && Shaped(h, num)
      modifies this`lastAvail, this`usedIdx, this`fifo, this`program, used, dev.mem
      ensures Valid() && fifo.published == old(fifo.published)
      ensures head.None? <==> !h.indexed || old(fifo.taken) >= |old(fifo).published|
      ensures head.None? ==> dev.State() == old(dev.State()) && fifo.taken == old(fifo.taken) && fifo.returned == old(fifo.returned)
      ensures head.Some? ==>
                && old(fifo.taken) < |fifo.published| && head.value == fifo.published[old(fifo.taken)]
                && (dev.State(), v) == Handle(old(dev.State()), h, num, engine, head.value)
                && fifo.taken == old(fifo.taken) + 1
                && fifo.returned == old(fifo).returned + Handed(h, head.value, v)
    {
      hide Handle, Represents, EngineInv, Allocator.HeapInv;
      head := PopHead(h.indexed);
      v := Lost;
      if head.Some? {
        v := ServeHead(h, head.value);
        if v.Done? {
          Push(head.value, v.len, h.push);
        }
      }
    }

    /** Whatever the host does between two turns. */
    method HostTurn(acts: seq<HostAct>)
      requires Valid()
      modifies this`availIdx, this`lastUsed, this`free, this`fifo, avail
      ensures Valid() && fifo == ActAll(old(fifo), num, acts)
    {
      hide Valid, ActOn;
      for i := 0 to |acts|
        invariant Valid() && fifo == ActAll(old(fifo), num, acts[..i])
      {
        assert acts[..i + 1][..i] == acts[..i];
        match acts[i] {
          case Publish(head) => PublishHead(head);
          case Collect => var _ := CollectElem();
        }
      }
      assert acts[..|acts|] == acts;
    }

    lemma Taken()
      requires Valid()
      ensures fifo.taken <= |fifo.published| && Device.Inv(dev.State())
    {
    }

    /** What a drain that began with the device in `was` and `from` heads taken has come
        to: `o`, which is serving the heads taken since, in order. */
    ghost predicate Since(was: Device.State, from: nat, returned: seq<Elem>, hs: nat -> Host, o: Outcome, replies: seq<Reply>)
      reads this, dev, dev.mem, dev.nodeBump, dev.alloc
      requires dev.Valid()
    {
      && Device.Inv(was) && AllShaped(hs, num) && from <= fifo.taken <= |fifo.published|
      && o == Serving(was, hs, num, engine, fifo.published[from..fifo.taken])
      && dev.State() == o.dev && replies == o.replies && fifo.returned == returned + o.elems
    }

    /** One turn after the host's. */
    method NextTurn(hs: nat -> Host, acts: seq<HostAct>, k: nat, replies: seq<Reply>,
                    ghost was: Device.State, ghost from: nat, ghost returned: seq<Elem>, ghost o: Outcome)
      returns (on: bool, more: seq<Reply>, ghost o': Outcome)
      requires Valid() && Since(was, from, returned, hs, o, replies) && fifo.taken == from + k && !o.stopped
      modifies this`lastAvail, this`usedIdx, this`availIdx, this`lastUsed, this`free, this`fifo, this`program, used, avail, dev.mem
      ensures Valid() && dev.Valid() && Since(was, from, returned, hs, o', more) && old(fifo.published) <= fifo.published
      ensures on ==> fifo.taken == from + k + 1 && !o'.stopped && old(fifo.taken) < |fifo.published|
      ensures !on ==> o'.stopped || !hs(fifo.taken - from).indexed || fifo.taken == |fifo.published|
      ensures acts == [] ==> fifo.published == old(fifo.published)
    {
      hide Valid, Turn, Handle, Serving, ActAll, Represents, EngineInv, Allocator.HeapInv;
      Taken();
      ghost var before := fifo;
      HostTurn(acts);
      ActsFrame(before, num, acts);
      ghost var heads := fifo.published[from..fifo.taken];
      assert heads == before.published[from..fifo.taken];
      var head, v := DrainOne(hs(k));
      Taken();
      more, o' := replies, o;
      on := false;
      if head.Some? {
        ServingMore(was, hs, num, engine, heads, head.value);
        assert fifo.published[from..fifo.taken] == heads + [head.value];
        o' := Serving(was, hs, num, engine, fifo.published[from..fifo.taken]);
        ConcatAssociates(returned, o.elems, Handed(hs(k), head.value, v));
        more := replies + Replied(v);
        on := !v.Lost?;
      }
    }

    /** Consume what is published, until there is nothing, the ring cannot be read, or a
        chain cannot be followed.  The device ends where serving the heads taken, in
        order, puts it, and the used ring gains exactly theirs. */
    method Drain(hs: nat -> Host, acts: seq<seq<HostAct>>) returns (replies: seq<Reply>)
      requires Valid() && AllShaped(hs, num)
      modifies this`lastAvail, this`usedIdx, this`availIdx, this`lastUsed, this`free, this`fifo, this`program, used, avail, dev.mem
      ensures Valid() && old(fifo.published) <= fifo.published && Device.Inv(old(dev.State()))
      ensures old(fifo.taken) <= fifo.taken <= |fifo.published|
      ensures var heads := fifo.published[old(fifo.taken)..fifo.taken];
              var o := Serving(old(dev.State()), hs, num, engine, heads);
              && dev.State() == o.dev && replies == o.replies && fifo.returned == old(fifo.returned) + o.elems
              && (o.stopped || !hs(|heads|).indexed || fifo.taken == |fifo.published|)
    {
      hide Valid, Serving, Since, AllShaped, Allocator.HeapInv;
      replies := [];
      var k: nat := 0;
      ghost var was, from, returned := dev.State(), fifo.taken, fifo.returned;
      ghost var o := Outcome(was, [], [], [], false);
      SinceStart(hs);
      var running := true;
      while running
        invariant Valid() && dev.Valid() && Since(was, from, returned, hs, o, replies) && old(fifo.published) <= fifo.published
        invariant from <= fifo.taken <= |fifo.published|
        invariant running ==> fifo.taken == from + k && !o.stopped
        invariant !running ==> o.stopped || !hs(fifo.taken - from).indexed || fifo.taken == |fifo.published|
        decreases running, if k < |acts| then |acts| - k else 0, |fifo.published| - fifo.taken
      {
        running, replies, o := NextTurn(hs, ActsAt(acts, k), k, replies, was, from, returned, o);
        SinceShape(was, from, returned, hs, o, replies);
        k := k + 1;
      }
      SinceShape(was, from, returned, hs, o, replies);
    }

    lemma SinceStart(hs: nat -> Host)
      requires Valid() && AllShaped(hs, num)
      ensures dev.Valid() && Device.Inv(dev.State()) && fifo.taken <= |fifo.published|
      ensures Since(dev.State(), fifo.taken, fifo.returned, hs, Outcome(dev.State(), [], [], [], false), [])
    {
      hide Represents, Allocator.HeapInv;
      ServingNone(dev.State(), hs, num, engine);
      assert fifo.published[fifo.taken..fifo.taken] == [];
    }

    lemma SinceShape(was: Device.State, from: nat, returned: seq<Elem>, hs: nat -> Host, o: Outcome, replies: seq<Reply>)
      requires Valid() && dev.Valid() && Since(was, from, returned, hs, o, replies)
      ensures Device.Inv(was) && AllShaped(hs, num) && from <= fifo.taken <= |fifo.published|
      ensures o == Serving(was, hs, num, engine, fifo.published[from..fifo.taken])
      ensures dev.State() == o.dev && replies == o.replies && fifo.returned == returned + o.elems
    {
      hide Valid, Serving, Allocator.HeapInv;
    }
  }

  lemma InHandShape(p: Engine, f: Fifo)
    requires EngineInv(p, f) && p.hand.Ready?
    ensures p.popped > 0 && f.filled.Some?
  {
  }

  lemma {:induction false} ActsFrame(f: Fifo, num: nat, acts: seq<HostAct>)
    ensures var g := ActAll(f, num, acts);
            f.published <= g.published && g.taken == f.taken && g.returned == f.returned && (acts == [] ==> g == f)
  {
    if acts != [] {
      ActsFrame(f, num, Init(acts));
    }
  }

  lemma ServingNone(s: Device.State, hs: nat -> Host, num: nat, engine: nat)
    requires Device.Inv(s) && AllShaped(hs, num)
    ensures Serving(s, hs, num, engine, []) == Outcome(s, [], [], [], false)
  {
  }

  lemma ServingMore(s: Device.State, hs: nat -> Host, num: nat, engine: nat, heads: seq<nat>, head: nat)
    requires Device.Inv(s) && AllShaped(hs, num) && !Serving(s, hs, num, engine, heads).stopped
    ensures var o := Serving(s, hs, num, engine, heads);
            var (dev, v) := Handle(o.dev, hs(|heads|), num, engine, head);
            var o' := Serving(s, hs, num, engine, heads + [head]);
            && o'.dev == dev && o'.elems == o.elems + Handed(hs(|heads|), head, v)
            && o'.replies == o.replies + Replied(v) && (o'.stopped <==> v.Lost?)
  {
    hide Handle, Allocator.HeapInv;
    assert Init(heads + [head]) == heads && Last(heads + [head]) == head;
  }
}
