/** The firmware's trace ring.

    The device appends at `head` and the driver consumes at `tail`; neither writes
    the other's index.  Both sides compute loss on their own: the device counts an
    overwrite in `dropped`, the driver what it had to jump over in `skipped`. */
module TraceRing {
  import opened Hardware
  import FreeRunning

  datatype Ring<T> = Ring(slots: seq<T>, head: u32, tail: u32, dropped: u32)

  /** Unsigned 32-bit counter arithmetic. */
  function Sub32(a: u32, b: u32): u32 {
    if a >= b then a - b else a + TWO32 - b
  }

  function Next32(a: u32): u32 {
    if a + 1 == TWO32 then 0 else a + 1
  }

  /** How far a reader that is `unread` entries behind has been overtaken. */
  function Behind(unread: nat): nat {
    if unread > TRACE_ENTRIES then unread - TRACE_ENTRIES else 0
  }

  predicate Shaped<T>(r: Ring<T>) {
    |r.slots| == TRACE_ENTRIES
  }

  // ---- the device's side ----

  function Append<T>(r: Ring<T>, e: T): (r': Ring<T>)
    requires Shaped(r)
    ensures Shaped(r')
  {
    Ring(r.slots[r.head % TRACE_ENTRIES := e],
         Next32(r.head),
         r.tail,
         if Sub32(r.head, r.tail) >= TRACE_ENTRIES then Next32(r.dropped) else r.dropped)
  }

  function AppendAll<T>(r: Ring<T>, es: seq<T>): (r': Ring<T>)
    requires Shaped(r)
    ensures Shaped(r')
  {
    if es == [] then r else Append(AppendAll(r, es[..|es| - 1]), es[|es| - 1])
  }

  // ---- the ring against its history ----

  ghost predicate SlotHas<T>(r: Ring<T>, log: seq<T>, k: nat)
    requires Shaped(r) && k < |log|
  {
    r.slots[k % TRACE_ENTRIES] == log[k]
  }

  /** The ring holds the newest entries of `log`, each in its own slot. */
  ghost predicate Holds<T>(r: Ring<T>, log: seq<T>) {
    && Shaped(r) && |log| < TWO32 && r.head == |log| && r.tail <= r.head
    && forall k :: 0 <= k < |log| <= k + TRACE_ENTRIES ==> SlotHas(r, log, k)
  }

  /** Every overwritten entry is accounted for: by a past read that skipped it, by
      the next read that will, or by one that was overtaken while it copied. */
  predicate Accounted<T>(r: Ring<T>, skipped: nat, surplus: nat) {
    r.tail <= r.head && r.dropped == skipped + Behind(r.head - r.tail) + surplus
  }

  lemma {:induction false} AppendHolds<T>(r: Ring<T>, log: seq<T>, e: T)
    requires Holds(r, log) && |log| + 1 < TWO32
    ensures Holds(Append(r, e), log + [e])
  {
    var r', log' := Append(r, e), log + [e];
    forall k | 0 <= k < |log'| <= k + TRACE_ENTRIES
      ensures SlotHas(r', log', k)
    {
      if k < |log| {
        FreeRunning.Congruent(TRACE_ENTRIES, k, |log|);
        assert SlotHas(r, log, k);
      }
    }
  }

  /** An append is counted exactly when it takes the slot of an unread entry. */
  lemma AppendAccounted<T>(r: Ring<T>, skipped: nat, surplus: nat, e: T)
    requires Shaped(r) && Accounted(r, skipped, surplus) && r.head + 1 < TWO32 && r.dropped + 1 < TWO32
    ensures Accounted(Append(r, e), skipped, surplus)
  {
  }

  lemma {:induction false} AppendAllHolds<T>(r: Ring<T>, log: seq<T>, es: seq<T>)
    requires Holds(r, log) && |log| + |es| < TWO32
    ensures Holds(AppendAll(r, es), log + es) && AppendAll(r, es).tail == r.tail
  {
    if es != [] {
      var init := es[..|es| - 1];
      AppendAllHolds(r, log, init);
      AppendHolds(AppendAll(r, init), log + init, es[|es| - 1]);
      assert log + init + [es[|es| - 1]] == log + es;
    } else {
      assert log + es == log;
    }
  }

  // ---- the driver's side ----

  /** Where entry `idx` of a copy starting at position `from` lives. */
  function SlotAt(from: u32, idx: nat): (s: nat)
    requires idx <= TRACE_ENTRIES
    ensures s < TRACE_ENTRIES
    ensures from + idx < TWO32 ==> s == (from + idx) % TRACE_ENTRIES
  {
    (if from + idx >= TWO32 then from + idx - TWO32 else from + idx) % TRACE_ENTRIES
  }

  /** Entry numbers wrap at 2^32, and their slots at 511. */
  lemma SlotAtExactly(from: u32, idx: nat)
    requires idx <= 511
    ensures SlotAt(from, idx) == (if from + idx > 0xFFFF_FFFF then from + idx - 0x1_0000_0000 else from + idx) % 511
  {
  }

  datatype Snapshot<T> = Snapshot(head: u32, tail: u32, skipped: u32, dropped: u32, entries: seq<T>)

  /** The number printed beside entry `idx`. */
  function Label<T>(s: Snapshot<T>, idx: nat): u32 {
    (s.tail + s.skipped + idx) % TWO32
  }

  /** What a read that nothing races with returns and leaves behind. */
  function Read<T>(r: Ring<T>): (Snapshot<T>, Ring<T>)
    requires Shaped(r)
  {
    var unread := Sub32(r.head, r.tail);
    var from := if unread > TRACE_ENTRIES then Sub32(r.head, TRACE_ENTRIES) else r.tail;
    (Snapshot(r.head, r.tail, Behind(unread), r.dropped,
              seq(Min(unread, TRACE_ENTRIES), idx requires 0 <= idx <= TRACE_ENTRIES => r.slots[SlotAt(from, idx)])),
     r.(tail := r.head))
  }

  lemma ReadEntries<T>(r: Ring<T>, log: seq<T>)
    requires Holds(r, log)
    ensures Read(r).0.entries == log[|log| - Min(r.head - r.tail, TRACE_ENTRIES)..]
  {
    var n := Min(r.head - r.tail, TRACE_ENTRIES);
    forall idx | 0 <= idx < n
      ensures Read(r).0.entries[idx] == log[|log| - n..][idx]
    {
      assert SlotHas(r, log, |log| - n + idx);
      assert r.slots[SlotAt(|log| - n, idx)] == log[|log| - n + idx];
    }
  }

  /** A read returns the newest unread entries, in order and correctly numbered,
      and its `skipped` is what the device had counted and nobody had claimed. */
  lemma ReadIsExact<T>(r: Ring<T>, log: seq<T>, skipped: nat, surplus: nat)
    requires Holds(r, log) && Accounted(r, skipped, surplus)
    ensures var (s, r') := Read(r);
            var n := Min(r.head - r.tail, TRACE_ENTRIES);
            && s.entries == log[|log| - n..]
            && (forall idx :: 0 <= idx < n ==> Label(s, idx) == |log| - n + idx)
            && Holds(r', log) && Accounted(r', skipped + s.skipped, surplus)
  {
    ReadEntries(r, log);
    TailMoved(r, log, r.head);
  }

  lemma TailMoved<T>(r: Ring<T>, log: seq<T>, tail: u32)
    requires Holds(r, log) && tail <= r.head
    ensures Holds(r.(tail := tail), log)
  {
    var r' := r.(tail := tail);
    forall k | 0 <= k < |log| <= k + TRACE_ENTRIES
      ensures SlotHas(r', log, k)
    {
      assert SlotHas(r, log, k);
    }
  }

  // ---- runs of appends and reads ----

  datatype Event<T> = Appended(e: T) | ReadOut

  datatype Machine<T> = Machine(ring: Ring<T>, log: seq<T>, skipped: nat, snapshots: seq<Snapshot<T>>)

  function Next<T>(m: Machine<T>, e: Event<T>): Machine<T>
    requires Shaped(m.ring)
  {
    match e
    case Appended(x) => m.(ring := Append(m.ring, x), log := m.log + [x])
    case ReadOut =>
      var (s, ring) := Read(m.ring);
      m.(ring := ring, skipped := m.skipped + s.skipped, snapshots := m.snapshots + [s])
  }

  function Run<T>(m: Machine<T>, es: seq<Event<T>>): (m': Machine<T>)
    requires Shaped(m.ring)
    ensures Shaped(m'.ring)
  {
    if es == [] then m else Next(Run(m, es[..|es| - 1]), es[|es| - 1])
  }

  function SumSkipped<T>(ss: seq<Snapshot<T>>): nat {
    if ss == [] then 0 else SumSkipped(ss[..|ss| - 1]) + ss[|ss| - 1].skipped
  }

  ghost predicate SliceOf<T>(s: Snapshot<T>, log: seq<T>, tail: nat) {
    && s.tail + s.skipped + |s.entries| == s.head <= tail <= |log|
    && s.entries == log[s.tail + s.skipped..s.head]
  }

  /** Each snapshot is a slice of the history, and no slice overlaps an earlier one. */
  ghost predicate Faithful<T>(ss: seq<Snapshot<T>>, log: seq<T>, tail: nat) {
    && (forall i :: 0 <= i < |ss| ==> SliceOf(ss[i], log, tail))
    && (forall i, j :: 0 <= i < j < |ss| ==> ss[i].head <= ss[j].tail)
  }

  /** A machine just after boot: the loader zeroed the header, nothing was logged. */
  ghost predicate Booted<T>(m: Machine<T>) {
    Shaped(m.ring) && m.ring.head == m.ring.tail == m.ring.dropped == 0 && m.log == [] && m.skipped == 0 && m.snapshots == []
  }

  lemma SliceKept<T>(s: Snapshot<T>, log: seq<T>, tail: nat, log': seq<T>, tail': nat)
    requires SliceOf(s, log, tail) && log <= log' && tail <= tail' <= |log'|
    ensures SliceOf(s, log', tail')
  {
    assert log'[s.tail + s.skipped..s.head] == log[s.tail + s.skipped..s.head];
  }

  lemma FaithfulKept<T>(ss: seq<Snapshot<T>>, log: seq<T>, tail: nat, log': seq<T>, tail': nat)
    requires Faithful(ss, log, tail) && log <= log' && tail <= tail' <= |log'|
    ensures Faithful(ss, log', tail')
  {
    forall i | 0 <= i < |ss|
      ensures SliceOf(ss[i], log', tail')
    {
      SliceKept(ss[i], log, tail, log', tail');
    }
  }

  lemma ReadFaithful<T>(ss: seq<Snapshot<T>>, r: Ring<T>, log: seq<T>)
    requires Holds(r, log) && Faithful(ss, log, r.tail)
    ensures Faithful(ss + [Read(r).0], log, r.head)
  {
    ReadEntries(r, log);
    FaithfulKept(ss, log, r.tail, log, r.head);
    var s := Read(r).0;
    assert SliceOf(s, log, r.head) by {
      assert log[s.tail + s.skipped..s.head] == log[s.tail + s.skipped..];
    }
    forall i | 0 <= i < |ss|
      ensures ss[i].head <= s.tail
    {
      assert SliceOf(ss[i], log, r.tail);
    }
  }

  /** The books of one run. */
  ghost predicate Balanced<T>(m: Machine<T>, n: nat) {
    && |m.log| <= n && m.ring.dropped <= n && Holds(m.ring, m.log)
    && m.ring.dropped == SumSkipped(m.snapshots) + Behind(m.ring.head - m.ring.tail)
    && m.skipped == SumSkipped(m.snapshots)
    && Faithful(m.snapshots, m.log, m.ring.tail)
  }

  lemma NextBalanced<T>(m: Machine<T>, n: nat, e: Event<T>)
    requires Balanced(m, n) && n + 1 < TWO32
    ensures Balanced(Next(m, e), n + 1)
  {
    match e
    case Appended(x) =>
      AppendHolds(m.ring, m.log, x);
      AppendAccounted(m.ring, m.skipped, 0, x);
      FaithfulKept(m.snapshots, m.log, m.ring.tail, m.log + [x], m.ring.tail);
    case ReadOut =>
      ReadIsExact(m.ring, m.log, m.skipped, 0);
      ReadFaithful(m.snapshots, m.ring, m.log);
      assert Next(m, e).snapshots[..|m.snapshots|] == m.snapshots;
  }

  /** Loss is conserved over every run shorter than the counters' range: what the
      device counted is what the reads skipped plus what the next one will, and the
      snapshots are disjoint slices of the history. */
  lemma {:induction false} LossConserved<T>(m: Machine<T>, es: seq<Event<T>>)
    requires Booted(m) && |es| < TWO32
    ensures Balanced(Run(m, es), |es|)
  {
    if es != [] {
      LossConserved(m, es[..|es| - 1]);
      NextBalanced(Run(m, es[..|es| - 1]), |es| - 1, es[|es| - 1]);
    }
  }

  // ---- a read that the device races with ----

  /** What the device appends while the driver copies: arrivals[i] just before it
      copies entry i. */
  function ArrivalsAt<T>(arrivals: seq<seq<T>>, i: nat): seq<T> {
    if i < |arrivals| then arrivals[i] else []
  }

  function Arrived<T>(arrivals: seq<seq<T>>, n: nat): seq<T> {
    if n == 0 then [] else Arrived(arrivals, n - 1) + ArrivalsAt(arrivals, n - 1)
  }

  /** All that arrives during one read, if it copies often enough. */
  function Influx<T>(arrivals: seq<seq<T>>): nat {
    |Arrived(arrivals, |arrivals|)|
  }

  lemma {:induction false} ArrivedBound<T>(arrivals: seq<seq<T>>, n: nat)
    ensures |Arrived(arrivals, n)| <= Influx(arrivals)
  {
    if n > |arrivals| {
      ArrivedBound(arrivals, n - 1);
    } else {
      ArrivedGrows(arrivals, n, |arrivals|);
    }
  }

  lemma {:induction false} ArrivedGrows<T>(arrivals: seq<seq<T>>, i: nat, n: nat)
    requires i <= n
    ensures |Arrived(arrivals, i)| <= |Arrived(arrivals, n)|
  {
    if i < n {
      ArrivedGrows(arrivals, i, n - 1);
    }
  }

  lemma {:induction false} AppendAllConcat<T>(r: Ring<T>, a: seq<T>, b: seq<T>)
    requires Shaped(r)
    ensures AppendAll(r, a + b) == AppendAll(AppendAll(r, a), b)
  {
    if b == [] {
      assert a + b == a;
    } else {
      assert (a + b)[..|a + b| - 1] == a + b[..|b| - 1];
      AppendAllConcat(r, a, b[..|b| - 1]);
    }
  }

  /** The shared ring in device memory, with the two register reads and the copy
      loop of one debugfs open. */
  class SharedRing<T> {
    var slots: array<T>
    var head: u32
    var tail: u32
    var dropped: u32

    constructor (slots: array<T>)
      requires slots.Length == TRACE_ENTRIES
      ensures this.slots == slots && head == tail == dropped == 0
    {
      this.slots, head, tail, dropped := slots, 0, 0, 0;
    }

    ghost predicate Valid()
      reads this
    {
      slots.Length == TRACE_ENTRIES
    }

    function State(): Ring<T>
      reads this, slots
    {
      Ring(slots[..], head, tail, dropped)
    }

    /** One line of the firmware's log: the entry first, its announcement last. */
    method Trace(e: T)
      requires Valid()
      modifies this`head, this`dropped, slots
      ensures Valid() && State() == Append(old(State()), e)
    {
      slots[head % TRACE_ENTRIES] := e;
      if Sub32(head, tail) >= TRACE_ENTRIES {
        dropped := Next32(dropped);
      }
      head := Next32(head);
    }

    method TraceAll(es: seq<T>)
      requires Valid()
      modifies this`head, this`dropped, slots
      ensures Valid() && State() == AppendAll(old(State()), es)
    {
      var i := 0;
      while i < |es|
        invariant 0 <= i <= |es| && Valid()
        invariant State() == AppendAll(old(State()), es[..i])
      {
        Trace(es[i]);
        assert es[..i + 1][..i] == es[..i];
        i := i + 1;
      }
      assert es[..|es|] == es;
    }

    /** The copy loop, entry by entry out of the shared memory, while the device
        keeps logging. */
    method CopyOut(from: u32, count: nat, arrivals: seq<seq<T>>, ghost start: Ring<T>, ghost log: seq<T>, ghost early: seq<T>)
      returns (copied: seq<T>)
      requires Valid() && Shaped(start) && Holds(start, log) && State() == AppendAll(start, early)
      requires count <= TRACE_ENTRIES && from + count == |log| && |log| + |early| + Influx(arrivals) < TWO32
      modifies this`head, this`dropped, slots
      ensures Valid() && |copied| == count
      ensures State() == AppendAll(start, early + Arrived(arrivals, count))
      ensures Copied(copied, log, count, |early + Arrived(arrivals, count)|)
      ensures Seen(copied, start, from, early, arrivals)
    {
      hide Holds, Copied, CopiedAt, Arrived, AppendAll, Influx;
      copied := [];
      var idx := 0;
      CopyNone(log, count, early, arrivals);
      assert early + Arrived(arrivals, 0) == early;
      while idx < count
        invariant 0 <= idx <= count && |copied| == idx && Valid()
        invariant State() == AppendAll(start, early + Arrived(arrivals, idx))
        invariant Copied(copied, log, count, |early + Arrived(arrivals, idx)|)
        invariant Seen(copied, start, from, early, arrivals)
      {
        var entry := CopyEntry(from, idx, ArrivalsAt(arrivals, idx), arrivals, copied, start, log, early, count);
        SeenMore(copied, start, from, early, arrivals, entry);
        copied := copied + [entry];
        idx := idx + 1;
      }
    }

    method CopyEntry(from: u32, idx: nat, es: seq<T>, ghost arrivals: seq<seq<T>>, ghost copied: seq<T>,
                     ghost start: Ring<T>, ghost log: seq<T>, ghost early: seq<T>, ghost count: nat)
      returns (entry: T)
      requires Valid() && idx == |copied| < count <= TRACE_ENTRIES && from + count == |log|
      requires Shaped(start) && Holds(start, log) && |log| + |early| + Influx(arrivals) < TWO32
      requires State() == AppendAll(start, early + Arrived(arrivals, idx)) && es == ArrivalsAt(arrivals, idx)
      requires Copied(copied, log, count, |early + Arrived(arrivals, idx)|)
      modifies this`head, this`dropped, slots
      ensures Valid() && State() == AppendAll(start, early + Arrived(arrivals, idx + 1))
      ensures entry == CopiedAt(start, from, early, arrivals, idx)
      ensures Copied(copied + [entry], log, count, |early + Arrived(arrivals, idx + 1)|)
    {
      ArrivedBound(arrivals, idx + 1);
      ConcatAssociates(early, Arrived(arrivals, idx), es);
      CopyStep(start, log, early + Arrived(arrivals, idx), es, copied, from, count);
      TraceAll(es);
      entry := slots[SlotAt(from, idx)];
      assert entry == State().slots[SlotAt(from, idx)];
    }

    /** Takes a snapshot and consumes what it saw, while the device logs `early` before the
        loss counter is read, arrivals[i] before entry i is copied and `late` before the
        tail is written.  Every entry is what its slot held at its turn; entry j is the
        right one as long as no more than 511 - (count - j) lines came before the last
        copy; if none came at all, this is the unraced read. */
    method Open(early: seq<T>, arrivals: seq<seq<T>>, late: seq<T>, ghost log: seq<T>) returns (s: Snapshot<T>)
      requires Valid() && Holds(State(), log)
      requires |log| + |early| + Influx(arrivals) < TWO32
      modifies this, slots
      ensures Valid() && slots == old(slots)
      ensures s.head == old(head) && s.tail == old(tail) && s.dropped == AppendAll(old(State()), early).dropped
      ensures s.skipped == Behind(s.head - s.tail) && |s.entries| == Min(s.head - s.tail, TRACE_ENTRIES)
      ensures State() == AppendAll(AppendAll(old(State()), early + Arrived(arrivals, |s.entries|)), late).(tail := s.head)
      ensures Copied(s.entries, log, |s.entries|, |early + Arrived(arrivals, |s.entries|)|)
      ensures Seen(s.entries, old(State()), s.head - |s.entries|, early, arrivals)
      ensures early + Arrived(arrivals, |s.entries|) + late == [] ==> (s, State()) == Read(old(State()))
    {
      var myHead, myTail := head, tail;
      ghost var start := State();
      HoldsHead(start, log);
      ReadEntries(start, log);
      hide Holds, Copied, Seen, Arrived, AppendAll, Influx, Read;
      TraceAll(early);
      var myDropped := dropped;
      var count := Min(Sub32(myHead, myTail), TRACE_ENTRIES);
      var skipped: u32, from := 0, myTail;
      if Sub32(myHead, myTail) > TRACE_ENTRIES {
        skipped := Sub32(myHead, myTail) - TRACE_ENTRIES;
        from := Sub32(myHead, TRACE_ENTRIES);
      }
      var copied := CopyOut(from, count, arrivals, start, log, early);
      TraceAll(late);
      tail := myHead;
      s := Snapshot(myHead, myTail, skipped, myDropped, copied);
      if early + Arrived(arrivals, count) + late == [] {
        assert early == late == Arrived(arrivals, count) == [];
        UnracedRead(start, log, s);
      }
    }
  }

  lemma HoldsHead<T>(r: Ring<T>, log: seq<T>)
    requires Holds(r, log)
    ensures Shaped(r) && r.tail <= r.head == |log| && Sub32(r.head, r.tail) == r.head - r.tail
  {
  }

  /** A copy nothing raced with is the atomic read. */
  lemma UnracedRead<T>(r: Ring<T>, log: seq<T>, s: Snapshot<T>)
    requires Holds(r, log) && s.head == r.head && s.tail == r.tail && s.dropped == r.dropped
    requires s.skipped == Behind(r.head - r.tail) && |s.entries| == Min(r.head - r.tail, TRACE_ENTRIES)
    requires Copied(s.entries, log, |s.entries|, 0)
    ensures AppendAll(r, []) == r && (s, r.(tail := s.head)) == Read(r)
  {
    ReadEntries(r, log);
    assert s.entries == log[|log| - |s.entries|..];
  }

  /** What entry j of the copy finds in its slot. */
  function CopiedAt<T>(start: Ring<T>, from: nat, early: seq<T>, arrivals: seq<seq<T>>, j: nat): T
    requires Shaped(start) && from < TWO32 && j < TRACE_ENTRIES
  {
    AppendAll(start, early + Arrived(arrivals, j + 1)).slots[SlotAt(from, j)]
  }

  ghost predicate Seen<T>(copied: seq<T>, start: Ring<T>, from: nat, early: seq<T>, arrivals: seq<seq<T>>) {
    && Shaped(start) && from < TWO32 && |copied| <= TRACE_ENTRIES
    && forall j :: 0 <= j < |copied| ==> copied[j] == CopiedAt(start, from, early, arrivals, j)
  }

  lemma SeenMore<T>(copied: seq<T>, start: Ring<T>, from: nat, early: seq<T>, arrivals: seq<seq<T>>, entry: T)
    requires Seen(copied, start, from, early, arrivals) && |copied| < TRACE_ENTRIES
    requires entry == CopiedAt(start, from, early, arrivals, |copied|)
    ensures Seen(copied + [entry], start, from, early, arrivals)
  {
    hide CopiedAt;
  }

  ghost predicate Distinct<T>(log: seq<T>, news: seq<T>, p: nat) {
    p < |log| && p + TRACE_ENTRIES < |log + news| ==> (log + news)[p + TRACE_ENTRIES] != log[p]
  }

  lemma RaceTightAt<T>(start: Ring<T>, log: seq<T>, news: seq<T>, from: nat, j: nat)
    requires Holds(start, log) && |log| + |news| < TWO32 && |news| <= TRACE_ENTRIES
    requires j < TRACE_ENTRIES && from + j < |log| <= from + TRACE_ENTRIES && Distinct(log, news, from + j)
    ensures CopiedAt(start, from, news, [], j) == log[from + j] <==> |log| + |news| <= from + j + TRACE_ENTRIES
  {
    NoneArrived<T>(j + 1);
    assert news + [] == news;
    SurvivesExactly(start, log, news, from + j);
  }

  /** The bound is tight for every number of raced lines: when they all come before the
      first copy, exactly the newest 511 - k entries are right and every older one is
      not, entries 511 apart being told apart. */
  lemma RaceTight<T>(start: Ring<T>, log: seq<T>, news: seq<T>, copied: seq<T>)
    requires Holds(start, log) && |copied| <= |log| && |copied| <= TRACE_ENTRIES && |news| <= TRACE_ENTRIES
    requires |log| + |news| < TWO32 && Seen(copied, start, |log| - |copied|, news, [])
    requires forall p: nat :: Distinct(log, news, p)
    ensures forall j :: 0 <= j < |copied| ==>
              (copied[j] == log[|log| - |copied| + j] <==> |copied| + |news| <= j + TRACE_ENTRIES)
  {
    hide CopiedAt, Holds, Distinct;
    forall j: nat | j < |copied|
      ensures copied[j] == log[|log| - |copied| + j] <==> |copied| + |news| <= j + TRACE_ENTRIES
    {
      RaceTightAt(start, log, news, |log| - |copied|, j);
    }
  }

  lemma NoneArrived<T>(n: nat)
    ensures Arrived<T>([], n) == []
  {
  }

  /** The entries copied so far, given how many arrivals have been seen. */
  ghost predicate Copied<T>(copied: seq<T>, log: seq<T>, count: nat, arrived: nat) {
    && |copied| <= count <= |log|
    && forall j :: 0 <= j < |copied| && count + arrived <= j + TRACE_ENTRIES ==> copied[j] == log[|log| - count + j]
  }

  lemma CopyNone<T>(log: seq<T>, count: nat, early: seq<T>, arrivals: seq<seq<T>>)
    requires count <= |log|
    ensures Arrived(arrivals, 0) == [] && Copied([], log, count, |early|)
  {
  }

  lemma CopyOne<T>(r: Ring<T>, log: seq<T>, arrived: seq<T>, copied: seq<T>, from: u32, count: nat, a: nat)
    requires Holds(r, log + arrived) && Copied(copied, log, count, a) && a <= |arrived|
    requires |copied| < count <= TRACE_ENTRIES && from + count == |log|
    ensures Copied(copied + [r.slots[SlotAt(from, |copied|)]], log, count, |arrived|)
  {
    var p := from + |copied|;
    assert (log + arrived)[p] == log[p];
    if |log + arrived| <= p + TRACE_ENTRIES {
      assert SlotHas(r, log + arrived, p);
    }
  }

  lemma CopyStep<T>(start: Ring<T>, log: seq<T>, before: seq<T>, es: seq<T>, copied: seq<T>, from: u32, count: nat)
    requires Holds(start, log) && |log| + |before + es| < TWO32
    requires |copied| < count <= TRACE_ENTRIES && from + count == |log|
    requires Copied(copied, log, count, |before|)
    ensures AppendAll(AppendAll(start, before), es) == AppendAll(start, before + es)
    ensures Copied(copied + [AppendAll(start, before + es).slots[SlotAt(from, |copied|)]], log, count, |before + es|)
  {
    AppendAllConcat(start, before, es);
    AppendAllHolds(start, log, before + es);
    CopyOne(AppendAll(start, before + es), log, before + es, copied, from, count, |before|);
  }

  /** The bound is tight: after the arrivals, the slot of position p still holds
      entry p exactly when p is among the newest 511 (entries 511 apart being told
      apart). */
  lemma SurvivesExactly<T>(r: Ring<T>, log: seq<T>, news: seq<T>, p: nat)
    requires Holds(r, log) && |log| + |news| < TWO32 && |news| <= TRACE_ENTRIES
    requires p < |log| <= p + TRACE_ENTRIES
    requires p + TRACE_ENTRIES < |log + news| ==> (log + news)[p + TRACE_ENTRIES] != log[p]
    ensures AppendAll(r, news).slots[p % TRACE_ENTRIES] == log[p] <==> |log| + |news| <= p + TRACE_ENTRIES
  {
    AppendAllHolds(r, log, news);
    if |log + news| > p + TRACE_ENTRIES {
      SlotHolds(AppendAll(r, news), log + news, p + TRACE_ENTRIES);
      FullTurn(p);
    } else {
      SlotHolds(AppendAll(r, news), log + news, p);
    }
  }

  lemma SlotHolds<T>(r: Ring<T>, log: seq<T>, k: nat)
    requires Holds(r, log) && k < |log| <= k + TRACE_ENTRIES
    ensures r.slots[k % TRACE_ENTRIES] == log[k]
  {
    assert SlotHas(r, log, k);
  }

  lemma FullTurn(k: nat)
    ensures (k + TRACE_ENTRIES) % TRACE_ENTRIES == k % TRACE_ENTRIES
  {
  }

  /** What a race does to the books: `tail` moves to the head the read started from,
      while the appends in between were judged against the old one. */
  function Surplus(unread: nat, raced: nat): int {
    Behind(unread + raced) - Behind(unread) - Behind(raced)
  }

  lemma AppendCounts<T>(r: Ring<T>, skipped: nat, surplus: nat, e: T)
    requires Shaped(r) && Accounted(r, skipped, surplus) && r.head + 1 < TWO32 && r.dropped + 1 < TWO32
    ensures var r' := Append(r, e);
            Accounted(r', skipped, surplus) && r'.head == r.head + 1 && r'.tail == r.tail && r'.dropped <= r.dropped + 1
  {
    AppendAccounted(r, skipped, surplus, e);
  }

  lemma {:induction false} AppendAllAccounted<T>(r: Ring<T>, skipped: nat, surplus: nat, es: seq<T>)
    requires Shaped(r) && Accounted(r, skipped, surplus) && r.head + |es| < TWO32 && r.dropped + |es| < TWO32
    ensures var r' := AppendAll(r, es);
            Accounted(r', skipped, surplus) && r'.head == r.head + |es| && r'.tail == r.tail && r'.dropped <= r.dropped + |es|
  {
    if es != [] {
      var init := es[..|es| - 1];
      AppendAllAccounted(r, skipped, surplus, init);
      AppendCounts(AppendAll(r, init), skipped, surplus, es[|es| - 1]);
    }
  }

  /** After a raced read the device has over-counted by exactly the surplus, and the
      books balance exactly when nothing arrived or the ring still had room. */
  lemma RacedReadAccounted<T>(r: Ring<T>, skipped: nat, surplus: nat, news: seq<T>)
    requires Shaped(r) && Accounted(r, skipped, surplus)
    requires r.head + |news| < TWO32 && r.dropped + |news| < TWO32
    ensures var unread := r.head - r.tail;
            var r' := AppendAll(r, news).(tail := r.head);
            && Surplus(unread, |news|) >= 0
            && Accounted(r', skipped + Behind(unread), surplus + Surplus(unread, |news|))
            && (Surplus(unread, |news|) == 0 <==>
                |news| == 0 || unread == 0 || unread + |news| <= TRACE_ENTRIES)
  {
    AppendAllAccounted(r, skipped, surplus, news);
  }

  /** Past the 32-bit wrap the slots no longer line up, because 511 does not divide
      2^32: an append can take an unread entry's slot without counting it. */
  lemma WrapLosesSilently<T>(r: Ring<T>, e: T)
    requires Shaped(r) && r.head == 0 && r.tail == TWO32 - 100
    requires r.slots[0] != e
    ensures var unread: u32 := TWO32 - 32;
            && r.tail <= unread && Sub32(r.head, r.tail) < TRACE_ENTRIES
            && Append(r, e).dropped == r.dropped
            && Append(r, e).slots[unread % TRACE_ENTRIES] != r.slots[unread % TRACE_ENTRIES]
  {
    assert (TWO32 - 32) % TRACE_ENTRIES == 0;
  }

  lemma WrapClashes()
    ensures !FreeRunning.Collisionless(TWO32, TRACE_ENTRIES)
  {
    FreeRunning.CollisionlessExactly(TWO32, TRACE_ENTRIES);
    assert TWO32 % TRACE_ENTRIES == 32;
  }
}
