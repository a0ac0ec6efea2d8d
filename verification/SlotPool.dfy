/** Submission slots of one engine queue: an ID allocator over the slots, the slots
    themselves, and the virtqueue their transactions go through, two descriptors each. */
module SlotPool {
  import opened Hardware

  const DESCRIPTORS: nat := VRING_NUM

  datatype Stage = Building | Queued

  /** How a transaction ended, each with the one reset that freed its slot. */
  datatype How = Completed | KickFailed | Withdrawn

  datatype Use = Use(ticket: nat, stage: Stage)

  /** `active` are the allocated slots, `free` the virtqueue's unused descriptors; every
      transaction ever begun has a ticket, and `finished` says how those that ended did. */
  datatype State = State(active: map<nat, Use>, free: nat, issued: nat, finished: map<nat, How>)

  datatype Event =
    | Begin
    | Kick(slot: nat, broken: bool)   // `broken`: the virtqueue refuses for another reason
    | Complete(slot: nat)
    | Withdraw(slot: nat)             // detached by a removal

  const Initial := State(map[], DESCRIPTORS, 0, map[])

  // ---- the steps ----

  predicate Possible(s: State, e: Event) {
    match e
    case Begin => true
    case Kick(slot, _) => slot in s.active && s.active[slot].stage.Building?
    case Complete(slot) => slot in s.active && s.active[slot].stage.Queued?
    case Withdraw(slot) => slot in s.active && s.active[slot].stage.Queued?
  }

  /** The lowest slot not in use, as the ID allocator gives it out. */
  function Lowest(s: State, from: nat): (r: Option<nat>)
    ensures r.Some? ==> from <= r.value < DATA_INFLIGHT && r.value !in s.active
    ensures r.Some? ==> forall k :: from <= k < r.value ==> k in s.active
    ensures r.None? ==> forall k :: from <= k < DATA_INFLIGHT ==> k in s.active
    decreases DATA_INFLIGHT - from
  {
    if from >= DATA_INFLIGHT then None else if from !in s.active then Some(from) else Lowest(s, from + 1)
  }

  /** Reset: the slot goes back to the allocator, its transaction is over. */
  function Finish(s: State, slot: nat, how: How, freed: nat): State
    requires slot in s.active
  {
    s.(active := s.active - {slot}, free := s.free + freed, finished := s.finished[s.active[slot].ticket := how])
  }

  predicate Refused(s: State, broken: bool) {
    broken || s.free < 2
  }

  function Step(s: State, e: Event): State
    requires Possible(s, e)
  {
    match e
    case Begin =>
      var slot := Lowest(s, 0);
      if slot.None? then s else s.(active := s.active[slot.value := Use(s.issued, Building)], issued := s.issued + 1)
    case Kick(slot, broken) =>
      if Refused(s, broken) then Finish(s, slot, KickFailed, 0)
      else s.(active := s.active[slot := Use(s.active[slot].ticket, Queued)], free := s.free - 2)
    case Complete(slot) => Finish(s, slot, Completed, 2)
    case Withdraw(slot) => Finish(s, slot, Withdrawn, 2)
  }

  // ---- conservation ----

  function QueuedSet(s: State): set<nat> {
    set k | k in s.active && s.active[k].stage.Queued?
  }

  predicate Holds(s: State, k: nat, t: nat) {
    k in s.active && s.active[k].ticket == t
  }

  ghost predicate Held(s: State, t: nat) {
    exists k: nat :: Holds(s, k, t)
  }

  /** Every ticket belongs to exactly one place: one slot, or the finished. */
  ghost predicate Conserved(s: State) {
    && (forall t: nat {:trigger Held(s, t)} {:trigger t in s.finished} ::
          if t < s.issued then Held(s, t) <==> t !in s.finished else !Held(s, t) && t !in s.finished)
    && (forall j: nat, k: nat, t: nat :: Holds(s, j, t) && Holds(s, k, t) ==> j == k)
  }

  ghost predicate Inv(s: State) {
    && (forall k :: k in s.active ==> k < DATA_INFLIGHT)
    && s.free + 2 * |QueuedSet(s)| == DESCRIPTORS
    && Conserved(s)
  }

  function Below(n: nat): (b: set<nat>)
    ensures |b| == n
    ensures forall k: nat :: k in b <==> k < n
  {
    if n == 0 then {}
    else
      assert n - 1 !in Below(n - 1);
      Below(n - 1) + {n - 1}
  }

  lemma SubsetCard(a: set<nat>, b: set<nat>)
    requires a <= b
    ensures |a| <= |b|
    ensures |a| == |b| ==> a == b
  {
    if a != {} {
      var x :| x in a;
      SubsetCard(a - {x}, b - {x});
    }
  }

  /** A transaction about to be kicked is not on the queue, so at most 127 others are. */
  lemma RoomForTwo(s: State, slot: nat)
    requires Inv(s) && slot in s.active && s.active[slot].stage.Building?
    ensures s.free >= 2
  {
    hide Below;
    SubsetCard(QueuedSet(s) + {slot}, Below(DATA_INFLIGHT));
  }

  /** One more ticket, one more slot. */
  lemma BeginConserves(s: State, s': State, slot: nat)
    requires Conserved(s) && slot !in s.active
    requires s' == s.(active := s.active[slot := Use(s.issued, Building)], issued := s.issued + 1)
    ensures Conserved(s')
  {
    forall k: nat, t: nat
      ensures Holds(s', k, t) <==> if k == slot then t == s.issued else Holds(s, k, t)
    {
    }
    forall t: nat
      ensures Held(s', t) <==> t == s.issued || Held(s, t)
    {
      if t == s.issued {
        assert Holds(s', slot, t);
      } else if Held(s, t) {
        var k: nat :| Holds(s, k, t);
        assert Holds(s', k, t);
      }
    }
    forall k: nat, t: nat | Holds(s, k, t)
      ensures Held(s, t)
    {
    }
  }

  /** One ticket moves from its slot to the finished. */
  lemma FinishConserves(s: State, slot: nat, how: How, freed: nat)
    requires Conserved(s) && slot in s.active
    ensures Conserved(Finish(s, slot, how, freed))
  {
    var s', u := Finish(s, slot, how, freed), s.active[slot].ticket;
    assert Holds(s, slot, u);
    assert Held(s, u);
    forall k: nat, t: nat
      ensures Holds(s', k, t) <==> k != slot && Holds(s, k, t)
    {
    }
    forall t: nat
      ensures Held(s', t) <==> t != u && Held(s, t)
    {
      if t != u && Held(s, t) {
        var k: nat :| Holds(s, k, t);
        assert Holds(s', k, t);
      }
    }
  }

  lemma BeginKeepsInv(s: State)
    requires Inv(s)
    ensures Inv(Step(s, Begin))
  {
    hide Conserved;
    var s' := Step(s, Begin);
    assert QueuedSet(s') == QueuedSet(s);
    if Lowest(s, 0).Some? {
      BeginConserves(s, s', Lowest(s, 0).value);
    }
  }

  lemma FinishKeepsInv(s: State, slot: nat, how: How)
    requires Inv(s) && slot in s.active
    ensures Inv(Finish(s, slot, how, if s.active[slot].stage.Queued? then 2 else 0))
  {
    hide Conserved;
    var freed := if s.active[slot].stage.Queued? then 2 else 0;
    FinishConserves(s, slot, how, freed);
    assert QueuedSet(Finish(s, slot, how, freed)) == QueuedSet(s) - {slot};
  }

  lemma QueueKeepsInv(s: State, slot: nat)
    requires Inv(s) && slot in s.active && s.active[slot].stage.Building? && s.free >= 2
    ensures Inv(Step(s, Kick(slot, false)))
  {
    hide Conserved;
    var s' := Step(s, Kick(slot, false));
    StageConserves(s, s', slot);
    assert QueuedSet(s') == QueuedSet(s) + {slot};
  }

  lemma {:induction false} StepKeepsInv(s: State, e: Event)
    requires Inv(s) && Possible(s, e)
    ensures Inv(Step(s, e))
  {
    hide Conserved, Inv;
    match e
    case Begin => BeginKeepsInv(s);
    case Kick(slot, broken) =>
      RoomForTwo(s, slot);
      if broken {
        FinishKeepsInv(s, slot, KickFailed);
      } else {
        QueueKeepsInv(s, slot);
      }
    case Complete(slot) => FinishKeepsInv(s, slot, Completed);
    case Withdraw(slot) => FinishKeepsInv(s, slot, Withdrawn);
  }

  // ---- runs ----

  ghost predicate LegalRun(s: State, es: seq<Event>)
    decreases |es|
  {
    es == [] || (Possible(s, es[0]) && LegalRun(Step(s, es[0]), es[1..]))
  }

  ghost function Run(s: State, es: seq<Event>): State
    requires LegalRun(s, es)
    decreases |es|
  {
    if es == [] then s else Run(Step(s, es[0]), es[1..])
  }

  lemma {:induction false} RunKeepsInv(s: State, es: seq<Event>)
    requires Inv(s) && LegalRun(s, es)
    ensures Inv(Run(s, es))
    decreases |es|
  {
    hide Conserved, Inv;
    if es != [] {
      StepKeepsInv(s, es[0]);
      RunKeepsInv(Step(s, es[0]), es[1..]);
    }
  }

  /** Slot-pool conservation, in every run: a transaction begun is in exactly one slot or
      has finished exactly once; no more than 128 are about; two descriptors each always
      fit, so a kick fails only for a reason of the virtqueue's own; and beginning one
      fails exactly when all 128 are. */
  lemma PoolConserved(es: seq<Event>)
    requires LegalRun(Initial, es)
    ensures var s := Run(Initial, es);
            && Conserved(s) && |s.active| <= 128
            && s.free + 2 * |QueuedSet(s)| == 256
            && (forall slot, broken :: Possible(s, Kick(slot, broken)) ==> (Refused(s, broken) <==> broken))
            && (Lowest(s, 0).None? <==> |s.active| == 128)
  {
    hide Below, Lowest;
    EmptyInv();
    RunKeepsInv(Initial, es);
    var s := Run(Initial, es);
    SubsetCard(s.active.Keys, Below(DATA_INFLIGHT));
    forall slot, broken | Possible(s, Kick(slot, broken))
      ensures Refused(s, broken) <==> broken
    {
      RoomForTwo(s, slot);
    }
    if Lowest(s, 0).None? {
      SubsetCard(Below(DATA_INFLIGHT), s.active.Keys);
    }
  }

  lemma EmptyInv()
    ensures Inv(Initial)
  {
    assert QueuedSet(Initial) == {};
  }

  // ---- the code ----

  /** The completions one callback finds, oldest first. */
  ghost function CompletedAll(s: State, used: seq<nat>): State
    decreases |used|
  {
    if used == [] then s
    else if !Possible(s, Complete(used[0])) then s
    else CompletedAll(Step(s, Complete(used[0])), used[1..])
  }

  /** A removal takes back what was on the queue, and leaves what is being built. */
  ghost predicate WithdrawnFrom(s: State, s': State) {
    && s'.issued == s.issued
    && (forall k :: k in s'.active ==> k in s.active && s'.active[k] == s.active[k])
    && (forall k :: k in s.active && s.active[k].stage.Building? ==> k in s'.active)
    && (forall k :: k in s.active && k !in s'.active ==>
          s.active[k].ticket in s'.finished && s'.finished[s.active[k].ticket].Withdrawn?)
  }

  lemma WithdrawOne(s0: State, s: State, slot: nat)
    requires Inv(s) && WithdrawnFrom(s0, s) && Possible(s, Withdraw(slot))
    ensures WithdrawnFrom(s0, Step(s, Withdraw(slot)))
  {
  }

  /** Off the virtqueue, not yet reset. */
  function Detached(s: State, slot: nat): State
    requires slot in s.active
  {
    s.(active := s.active[slot := s.active[slot].(stage := Building)], free := s.free + 2)
  }

  lemma DetachedFinish(s: State, slot: nat, how: How)
    requires slot in s.active
    ensures slot in Detached(s, slot).active && Finish(Detached(s, slot), slot, how, 0) == Finish(s, slot, how, 2)
  {
  }

  /** The slots in use, put together from the allocator, the tickets and the virtqueue. */
  function Uses(slots: set<nat>, tickets: map<nat, nat>, queued: set<nat>): map<nat, Use> {
    map k | k in slots && k in tickets :: Use(tickets[k], if k in queued then Queued else Building)
  }

  lemma UsesMore(slots: set<nat>, tickets: map<nat, nat>, queued: set<nat>, k: nat, t: nat)
    requires k !in slots && queued <= slots
    ensures Uses(slots + {k}, tickets[k := t], queued) == Uses(slots, tickets, queued)[k := Use(t, Building)]
  {
  }

  lemma UsesKeys(slots: set<nat>, tickets: map<nat, nat>, queued: set<nat>)
    requires tickets.Keys == slots
    ensures Uses(slots, tickets, queued).Keys == slots
  {
  }

  lemma UsesStage(slots: set<nat>, tickets: map<nat, nat>, queued: set<nat>, k: nat)
    requires k in slots && k in tickets
    ensures k in Uses(slots, tickets, queued) && (Uses(slots, tickets, queued)[k].stage.Queued? <==> k in queued)
  {
  }

  lemma UsesLess(slots: set<nat>, tickets: map<nat, nat>, queued: set<nat>, k: nat)
    requires k in slots && k in tickets
    ensures k in Uses(slots, tickets, queued) && Uses(slots, tickets, queued)[k].ticket == tickets[k]
    ensures Uses(slots - {k}, tickets - {k}, queued) == Uses(slots, tickets, queued) - {k}
  {
  }

  /** The sequence number of the t-th transaction. */
  function Wrapped(t: nat): u32 {
    t % TWO32
  }

  /** One call of the completion hook: the transaction's number and the status it sees. */
  datatype Completion = Completion(seqNo: u32, status: int)

  class DataQueue {
    var slots: set<nat>            // the ID allocator
    const slotIdx: array<int>      // in each slot: its own index, or -1
    const header: array<u32>       // in each slot: the request's sequence number
    const status: array<int>       // in each slot: the response's
    var queued: set<nat>           // buffers the virtqueue holds
    var free: nat                  // its unused descriptors
    var next: u32                  // the sequence counter, which wraps
    ghost var tickets: map<nat, nat>
    ghost var issued: nat
    ghost var finished: map<nat, How>
    ghost var shown: seq<Completion>   // what the completion hook was given, in order

    constructor ()
      ensures Valid() && Pool() == Initial && shown == [] && fresh(slotIdx) && fresh(header) && fresh(status)
    {
      slotIdx := new int[DATA_INFLIGHT];
      header := new u32[DATA_INFLIGHT];
      status := new int[DATA_INFLIGHT];
      slots, queued, free, next := {}, {}, DESCRIPTORS, 0;
      tickets, issued, finished, shown := map[], 0, map[], [];
      new;
      for j := 0 to DATA_INFLIGHT
        invariant forall k :: 0 <= k < j ==> slotIdx[k] == -1
        invariant slots == {} && queued == {} && free == DESCRIPTORS && next == 0
        invariant tickets == map[] && issued == 0 && finished == map[] && shown == []
        invariant fresh(slotIdx) && fresh(header) && fresh(status)
      {
        slotIdx[j] := -1;
      }
      EmptyInv();
      assert Pool() == Initial;
    }

    ghost function Pool(): State
      reads this
    {
      State(Uses(slots, tickets, queued), free, issued, finished)
    }

    ghost predicate Valid()
      reads this, slotIdx, header
    {
      && slotIdx.Length == DATA_INFLIGHT && header.Length == DATA_INFLIGHT && status.Length == DATA_INFLIGHT
      && slotIdx != status
      && (forall k :: k in slots ==> k < DATA_INFLIGHT) && queued <= slots
      && (forall k :: 0 <= k < DATA_INFLIGHT ==> slotIdx[k] == if k in slots then k else -1)
      && tickets.Keys == slots && next == Wrapped(issued)
      && (forall k :: k in slots ==> header[k] == Wrapped(tickets[k]))
      && Inv(Pool())
    }

    /** The ID allocator's search for the lowest free slot. */
    method LowestFree() returns (slot: Option<nat>)
      requires Valid()
      ensures slot == Lowest(Pool(), 0)
    {
      hide Inv, Wrapped;
      var index: nat := 0;
      while index < DATA_INFLIGHT && index in slots
        invariant index <= DATA_INFLIGHT && Lowest(Pool(), 0) == Lowest(Pool(), index)
      {
        index := index + 1;
      }
      return if index < DATA_INFLIGHT then Some(index) else None;
    }

    method TransactionInit() returns (slot: Option<nat>)
      requires Valid()
      modifies this`slots, this`next, this`tickets, this`issued, slotIdx, header
      ensures Valid() && Pool() == Step(old(Pool()), Begin) && slot == Lowest(old(Pool()), 0)
    {
      hide Inv, Wrapped, Lowest, Uses;
      StepKeepsInv(Pool(), Begin);
      slot := LowestFree();
      if slot.None? {
        return;
      }
      var index := slot.value;
      UsesKeys(slots, tickets, queued);
      UsesMore(slots, tickets, queued, index, issued);
      NextTicket(issued);
      slots := slots + {index};
      header[index] := next;
      next := if next + 1 == TWO32 then 0 else next + 1;
      tickets, issued := tickets[index := issued], issued + 1;
      slotIdx[index] := index;
      assert Pool() == Step(old(Pool()), Begin);
    }

    /** Clear the slot, and give it back if it was allocated at all. */
    method TransactionReset(slot: nat, ghost how: How)
      requires Valid() && slot in slots && slot !in queued
      modifies this`slots, this`tickets, this`finished, slotIdx, header, status
      ensures Valid() && Pool() == Finish(old(Pool()), slot, how, 0)
      ensures slot < header.Length == status.Length
      ensures header[..] == old(header[..])[slot := 0] && status[..] == old(status[..])[slot := 0]
    {
      hide Inv, Wrapped, Uses;
      UsesKeys(slots, tickets, queued);
      UsesLess(slots, tickets, queued, slot);
      UsesStage(slots, tickets, queued, slot);
      FinishKeepsInv(Pool(), slot, how);
      var was := slotIdx[slot];
      finished, tickets := finished[tickets[slot] := how], tickets - {slot};
      status[slot] := 0;
      header[slot] := 0;
      slotIdx[slot] := -1;
      if was != -1 {
        slots := slots - {slot};
      }
      assert Pool() == Finish(old(Pool()), slot, how, 0);
    }

    /** The virtqueue lets go of a buffer: its two descriptors are free again. */
    method Detach(slot: nat)
      requires Valid() && slot in queued
      modifies this`queued, this`free
      ensures Valid() && slot in slots && queued == old(queued) - {slot}
      ensures slot in old(Pool()).active && Pool() == Detached(old(Pool()), slot)
    {
      hide Inv, Wrapped;
      DetachKeepsInv(Pool(), slot);
      queued := queued - {slot};
      free := free + 2;
      assert Pool() == Detached(old(Pool()), slot);
    }

    /** Two descriptors for the request and its response, or the virtqueue's refusal, passed
        on, and the slot goes back at once. */
    method TransactionKick(slot: nat, refusal: int) returns (err: int)
      requires Valid() && Possible(Pool(), Kick(slot, refusal != OK))
      modifies this`slots, this`queued, this`free, this`tickets, this`finished, slotIdx, header, status
      ensures Valid() && Pool() == Step(old(Pool()), Kick(slot, refusal != OK)) && err == refusal
    {
      hide Inv, Wrapped;
      StepKeepsInv(Pool(), Kick(slot, refusal != OK));
      RoomForTwo(Pool(), slot);
      if refusal != OK || free < 2 {
        TransactionReset(slot, KickFailed);
        return refusal;
      }
      queued := queued + {slot};
      free := free - 2;
      assert Pool() == Step(old(Pool()), Kick(slot, refusal != OK));
      return OK;
    }

    /** The completion hook: it sees the transaction's number and status, the latter written
        here if the device never did. */
    method DataComplete(slot: nat, answer: Option<int>)
      requires Valid() && slot in slots
      modifies this`shown, status
      ensures Valid() && Pool() == old(Pool()) && slot < header.Length == status.Length
      ensures shown == old(shown) + [Completion(header[slot], if answer.Some? then answer.value else old(status[slot]))]
      ensures status[..] == if answer.Some? then old(status[..])[slot := answer.value] else old(status[..])
    {
      hide Inv, Wrapped, Uses;
      if answer.Some? {
        status[slot] := answer.value;
      }
      shown := shown + [Completion(header[slot], status[slot])];
    }

    /** One buffer off the queue for good: detached, answered if it never was, shown to the
        completion hook, reset. */
    method Retire(slot: nat, answer: Option<int>, ghost how: How)
      requires Valid() && slot in queued && (how.Completed? || how.Withdrawn?)
      modifies this`slots, this`queued, this`free, this`tickets, this`finished, this`shown, slotIdx, header, status
      ensures slot < header.Length == status.Length
      ensures shown == old(shown) + [Completion(old(header[slot]), if answer.Some? then answer.value else old(status[slot]))]
      ensures header[..] == old(header[..])[slot := 0] && status[..] == old(status[..])[slot := 0]
      ensures Valid() && slot in old(Pool()).active && queued == old(queued) - {slot}
      ensures Possible(old(Pool()), Complete(slot)) && Pool() == Finish(old(Pool()), slot, how, 2)
    {
      hide Inv, Wrapped, Finish, Detached, Uses;
      ghost var s := Pool();
      UsesStage(slots, tickets, queued, slot);
      Detach(slot);
      DetachedFinish(s, slot, how);
      ghost var was := status[..];
      DataComplete(slot, answer);
      assert status[..][slot := 0] == was[slot := 0];
      TransactionReset(slot, how);
    }

    lemma QueuedBound()
      requires Valid()
      ensures header.Length == status.Length && forall k :: k in queued ==> k < header.Length
    {
      hide Inv, Wrapped;
    }

    /** Having popped n of the buffers used: the pool is on its way to `goal`, and what was
        held, shown and written when the callback began tells the rest. */
    ghost predicate Popping(used: seq<nat>, n: nat, goal: State, q0: set<nat>, was: seq<Completion>, h0: seq<u32>, s0: seq<int>)
      reads this, slotIdx, header, status
    {
      && n <= |used| && Valid() && goal == CompletedAll(Pool(), used[n..]) && queued == Rest(q0, used, n)
      && Reported(was, shown, used, n, h0, s0, header[..], status[..])
    }

    lemma PoppingStarts(used: seq<nat>)
      requires Valid() && forall k :: 0 <= k < |used| ==> used[k] in queued
      ensures Popping(used, 0, CompletedAll(Pool(), used), queued, shown, header[..], status[..])
    {
      QueuedBound();
      hide Inv, Wrapped, CompletedAll, Uses;
      ReportNone(shown, used, header[..], status[..]);
      RestEnds(queued, used);
      assert used[0..] == used;
    }

    lemma PoppingEnds(used: seq<nat>, goal: State, q0: set<nat>, was: seq<Completion>, h0: seq<u32>, s0: seq<int>)
      requires Popping(used, |used|, goal, q0, was, h0, s0)
      ensures Valid() && Pool() == goal && (forall k :: k in queued <==> k in q0 && k !in used)
      ensures |shown| == |was| + |used| && was <= shown && |s0| == |h0|
      ensures forall k :: 0 <= k < |used| ==> used[k] < |h0| && shown[|was| + k] == Completion(h0[used[k]], s0[used[k]])
    {
      hide Valid, Pool, Reported, Rest;
      RestEnds(q0, used);
      ReportAll(was, shown, used, h0, s0, header[..], status[..]);
    }

    method PopOne(used: seq<nat>, n: nat, ghost goal: State, ghost q0: set<nat>,
                  ghost was: seq<Completion>, ghost h0: seq<u32>, ghost s0: seq<int>)
      requires n < |used| && Popping(used, n, goal, q0, was, h0, s0) && used[n] in q0
      requires forall j, k :: 0 <= j < k < |used| ==> used[j] != used[k]
      modifies this`slots, this`queued, this`free, this`tickets, this`finished, this`shown, slotIdx, header, status
      ensures Popping(used, n + 1, goal, q0, was, h0, s0)
    {
      hide Valid, Pool, Inv, Finish, Reported, CompletedAll, Rest;
      CompletedStep(Pool(), used, n);
      RestStep(q0, used, n);
      ReportMore(was, shown, used, n, h0, s0, header[..], status[..]);
      Retire(used[n], None, Completed);
    }

    /** The completion callback: pop used buffers until there are none. */
    method Callback(used: seq<nat>)
      requires Valid() && (forall k :: 0 <= k < |used| ==> used[k] in queued)
      requires forall j, k :: 0 <= j < k < |used| ==> used[j] != used[k]
      modifies this`slots, this`queued, this`free, this`tickets, this`finished, this`shown, slotIdx, header, status
      ensures Valid() && Pool() == CompletedAll(old(Pool()), used)
      ensures forall k :: k in queued <==> k in old(queued) && k !in used
      ensures |shown| == |old(shown)| + |used| && old(shown) <= shown
      ensures forall k :: 0 <= k < |used| ==>
                shown[|old(shown)| + k] == Completion(old(header[used[k]]), old(status[used[k]]))
    {
      hide Valid, Pool, Inv, Popping, CompletedAll;
      ghost var goal, q0, was, h0, s0 := CompletedAll(Pool(), used), queued, shown, header[..], status[..];
      PoppingStarts(used);
      var n: nat := 0;
      while n < |used|
        invariant n <= |used| && Popping(used, n, goal, q0, was, h0, s0)
      {
        PopOne(used, n, goal, q0, was, h0, s0);
        n := n + 1;
      }
      PoppingEnds(used, goal, q0, was, h0, s0);
    }

    /** Removal: whatever the queue still held is answered as stale, -116, and freed, each
        once. */
    method Remove()
      requires Valid()
      modifies this`slots, this`queued, this`free, this`tickets, this`finished, this`shown, slotIdx, header, status
      ensures old(shown) <= shown && |shown| == |old(shown)| + |old(queued)|
      ensures forall k :: |old(shown)| <= k < |shown| ==> shown[k].status == -116
      ensures Valid() && queued == {} && WithdrawnFrom(old(Pool()), Pool())
      ensures forall k :: k in Pool().active ==> Pool().active[k].stage.Building?
    {
      hide Inv, Wrapped, Finish, WithdrawnFrom;
      SameWithdrawn(Pool());
      while queued != {}
        invariant Valid() && WithdrawnFrom(old(Pool()), Pool())
        invariant old(shown) <= shown && |shown| + |queued| == |old(shown)| + |old(queued)|
        invariant forall k :: |old(shown)| <= k < |shown| ==> shown[k].status == -116
        decreases |queued|
      {
        ghost var s := Pool();
        var slot :| slot in queued;
        Retire(slot, Some(ESTALE), Withdrawn);
        WithdrawOne(old(Pool()), s, slot);
      }
    }
  }

  /** What the virtqueue holds once the first n used buffers are off it. */
  ghost function Rest(queued: set<nat>, used: seq<nat>, n: nat): set<nat>
    requires n <= |used|
  {
    set k | k in queued && k !in used[..n]
  }

  lemma RestStep(queued: set<nat>, used: seq<nat>, n: nat)
    requires n < |used| && used[n] in queued && forall j, k :: 0 <= j < k < |used| ==> used[j] != used[k]
    ensures used[n] in Rest(queued, used, n) && Rest(queued, used, n + 1) == Rest(queued, used, n) - {used[n]}
  {
    assert used[..n + 1] == used[..n] + [used[n]];
  }

  lemma RestEnds(queued: set<nat>, used: seq<nat>)
    ensures Rest(queued, used, 0) == queued
    ensures forall k :: k in Rest(queued, used, |used|) <==> k in queued && k !in used
  {
    assert used[..|used|] == used;
  }

  /** After n completions: each shown as its slot stood, and the slots to come still so. */
  ghost predicate Reported(was: seq<Completion>, now: seq<Completion>, used: seq<nat>, n: nat,
                           h0: seq<u32>, s0: seq<int>, h: seq<u32>, s: seq<int>) {
    && n <= |used| && |h| == |h0| && |s| == |s0| == |h0| && (forall k :: 0 <= k < |used| ==> used[k] < |h0|)
    && |now| == |was| + n && was <= now
    && (forall k :: 0 <= k < n ==> now[|was| + k] == Completion(h0[used[k]], s0[used[k]]))
    && (forall k :: n <= k < |used| ==> h[used[k]] == h0[used[k]] && s[used[k]] == s0[used[k]])
  }

  lemma ReportNone(was: seq<Completion>, used: seq<nat>, h0: seq<u32>, s0: seq<int>)
    requires |s0| == |h0| && forall k :: 0 <= k < |used| ==> used[k] < |h0|
    ensures Reported(was, was, used, 0, h0, s0, h0, s0)
  {
  }

  lemma ReportMore(was: seq<Completion>, now: seq<Completion>, used: seq<nat>, n: nat,
                   h0: seq<u32>, s0: seq<int>, h: seq<u32>, s: seq<int>)
    requires Reported(was, now, used, n, h0, s0, h, s) && n < |used|
    requires forall j, k :: 0 <= j < k < |used| ==> used[j] != used[k]
    ensures used[n] < |h| == |s|
    ensures Reported(was, now + [Completion(h[used[n]], s[used[n]])], used, n + 1, h0, s0, h[used[n] := 0], s[used[n] := 0])
  {
  }

  lemma ReportAll(was: seq<Completion>, now: seq<Completion>, used: seq<nat>,
                  h0: seq<u32>, s0: seq<int>, h: seq<u32>, s: seq<int>)
    requires Reported(was, now, used, |used|, h0, s0, h, s)
    ensures |now| == |was| + |used| && was <= now && |s0| == |h0|
    ensures forall k :: 0 <= k < |used| ==> used[k] < |h0| && now[|was| + k] == Completion(h0[used[k]], s0[used[k]])
  {
  }

  lemma SameWithdrawn(s: State)
    ensures WithdrawnFrom(s, s)
  {
  }

  lemma CompletedStep(s: State, used: seq<nat>, n: nat)
    requires n < |used|
    ensures Possible(s, Complete(used[n])) ==>
              CompletedAll(s, used[n..]) == CompletedAll(Finish(s, used[n], Completed, 2), used[n + 1..])
    ensures used[..n + 1] == used[..n] + [used[n]]
  {
    assert used[n..][1..] == used[n + 1..];
  }

  lemma NextTicket(t: nat)
    ensures Wrapped(t + 1) == if Wrapped(t) + 1 == TWO32 then 0 else Wrapped(t) + 1
  {
  }

  lemma DetachKeepsInv(s: State, slot: nat)
    requires Inv(s) && slot in s.active && s.active[slot].stage.Queued?
    ensures Inv(Detached(s, slot))
  {
    hide Conserved;
    var s' := Detached(s, slot);
    assert QueuedSet(s') == QueuedSet(s) - {slot};
    StageConserves(s, s', slot);
  }

  lemma StageConserves(s: State, s': State, slot: nat)
    requires Conserved(s) && slot in s.active && s'.issued == s.issued && s'.finished == s.finished
    requires slot in s'.active && s'.active == s.active[slot := s.active[slot].(stage := s'.active[slot].stage)]
    ensures Conserved(s')
  {
    forall k: nat, t: nat
      ensures Holds(s', k, t) <==> Holds(s, k, t)
    {
    }
    forall t: nat
      ensures Held(s', t) <==> Held(s, t)
    {
      if Held(s, t) {
        var k: nat :| Holds(s, k, t);
        assert Holds(s', k, t);
      }
    }
  }
}
