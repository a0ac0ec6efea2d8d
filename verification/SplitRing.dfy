/** One split virtqueue, section 2.6 of VIRTIO 1.1, as the two sides use it.

    The host owns the available ring, the device owns the used ring, and every
    index is a 16-bit counter that wraps.  `Ring` is what is in memory and in the
    two private indices; `Fifo` is what it is supposed to be: the whole history of
    heads published and returned, with how far each side has got.  Each step below
    is one memory access of one side, so a run is an arbitrary interleaving. */
module SplitRing {
  import opened Hardware
  import FreeRunning

  /** One vring_used_elem. */
  datatype Elem = Elem(id: nat, len: nat)

  datatype Ring = Ring(
    num: nat,
    avail: seq<nat>, availIdx: nat,   // written by the host
    used: seq<Elem>, usedIdx: nat,    // written by the device
    lastAvail: nat,                   // private to the device
    lastUsed: nat)                    // private to the host
  {
    predicate Shaped() {
      && 0 < num && |avail| == num && |used| == num
    }
  }

  datatype Fifo = Fifo(
    published: seq<nat>, staged: Option<nat>, taken: nat,
    returned: seq<Elem>, filled: Option<Elem>, reclaimed: nat)

  datatype Event =
    | Stage(head: nat)   // host writes a head into the next available slot
    | Commit             // host publishes it by moving avail->idx
    | Pop                // device takes the next head, if there is one
    | Fill(elem: Elem)   // device writes the next used element
    | Post               // device publishes it by moving used->idx
    | Reclaim            // host takes the next used element, if there is one

  datatype Output = Silent | Popped(head: Option<nat>) | Reclaimed(elem: Option<Elem>)

  function Slot(num: nat, k: nat): (s: nat)
    requires 0 < num
    ensures s < num
  {
    FreeRunning.Slot(TWO16, num, k)
  }

  function Next16(k: nat): nat {
    if k + 1 == TWO16 then 0 else k + 1
  }

  // ---- what the two implementations do ----

  function Step(r: Ring, e: Event): (r': Ring)
    requires r.Shaped()
    ensures r'.Shaped() && r'.num == r.num
  {
    match e
    case Stage(head) => r.(avail := r.avail[Slot(r.num, r.availIdx) := head])
    case Commit => r.(availIdx := Next16(r.availIdx))
    case Pop => if r.availIdx == r.lastAvail then r else r.(lastAvail := Next16(r.lastAvail))
    case Fill(elem) => r.(used := r.used[Slot(r.num, r.usedIdx) := elem])
    case Post => r.(usedIdx := Next16(r.usedIdx))
    case Reclaim => if r.usedIdx == r.lastUsed then r else r.(lastUsed := Next16(r.lastUsed))
  }

  function Observe(r: Ring, e: Event): Output
    requires r.Shaped()
  {
    match e
    case Pop => Popped(if r.availIdx == r.lastAvail then None else Some(r.avail[Slot(r.num, r.lastAvail)]))
    case Reclaim => Reclaimed(if r.usedIdx == r.lastUsed then None else Some(r.used[Slot(r.num, r.lastUsed)]))
    case _ => Silent
  }

  // ---- what a queue should do ----

  function FifoStep(f: Fifo, e: Event): Fifo {
    match e
    case Stage(head) => f.(staged := Some(head))
    case Commit => if f.staged.Some? then f.(published := f.published + [f.staged.value], staged := None) else f
    case Pop => if f.taken < |f.published| then f.(taken := f.taken + 1) else f
    case Fill(elem) => f.(filled := Some(elem))
    case Post => if f.filled.Some? then f.(returned := f.returned + [f.filled.value], filled := None) else f
    case Reclaim => if f.reclaimed < |f.returned| then f.(reclaimed := f.reclaimed + 1) else f
  }

  function FifoObserve(f: Fifo, e: Event): Output {
    match e
    case Pop => Popped(if f.taken < |f.published| then Some(f.published[f.taken]) else None)
    case Reclaim => Reclaimed(if f.reclaimed < |f.returned| then Some(f.returned[f.reclaimed]) else None)
    case _ => Silent
  }

  /** What the protocol asks of its two users: the host never has more than `num`
      heads outstanding, the device returns no more than it has taken, and each
      side completes an entry before it announces it.  An entry not yet announced may
      be written again. */
  predicate Allowed(f: Fifo, num: nat, e: Event) {
    match e
    case Stage(_) => f.staged.None? && |f.published| < f.reclaimed + num
    case Commit => f.staged.Some?
    case Fill(_) => |f.returned| < f.taken
    case Post => f.filled.Some?
    case Pop => true
    case Reclaim => true
  }

  const EmptyFifo := Fifo([], None, 0, [], None, 0)

  /** Zeroed ring memory and zeroed indices, what an activation starts from. */
  function EmptyRing(num: nat): (r: Ring)
    ensures r.num == num && |r.avail| == num && |r.used| == num
  {
    Ring(num, seq(num, _ => 0), 0, seq(num, _ => Elem(0, 0)), 0, 0, 0)
  }

  // ---- refinement ----

  ghost predicate Bounds(r: Ring, f: Fifo) {
    && r.Shaped() && TWO16 % r.num == 0 && r.num <= TWO16 / 2
    && f.reclaimed <= |f.returned|
    && |f.returned| + (if f.filled.Some? then 1 else 0) <= f.taken <= |f.published|
    && |f.published| + (if f.staged.Some? then 1 else 0) <= f.reclaimed + r.num
    && r.availIdx == |f.published| % TWO16
    && r.usedIdx == |f.returned| % TWO16
    && r.lastAvail == f.taken % TWO16
    && r.lastUsed == f.reclaimed % TWO16
  }

  /** The memory holds the live window of the history, each entry in its slot. */
  ghost predicate Represents(r: Ring, f: Fifo) {
    && Bounds(r, f)
    && (forall k {:trigger f.published[k]} :: f.reclaimed <= k < |f.published| ==> r.avail[k % r.num] == f.published[k])
    && (f.staged.Some? ==> r.avail[|f.published| % r.num] == f.staged.value)
    && (forall k {:trigger f.returned[k]} :: f.reclaimed <= k < |f.returned| ==> r.used[k % r.num] == f.returned[k])
    && (f.filled.Some? ==> r.used[|f.returned| % r.num] == f.filled.value)
  }

  /** Two counters less than a full turn apart are equal exactly when their
      16-bit images are, and moving one by one moves its image by one. */
  lemma Wrap(a: nat, b: nat)
    requires a <= b < a + TWO16
    ensures a % TWO16 == b % TWO16 <==> a == b
    ensures Next16(a % TWO16) == (a + 1) % TWO16
  {
  }

  /** The slot either side computes from its wrapped index is position k mod num. */
  lemma SlotOf(num: nat, k: nat)
    requires 0 < num && TWO16 % num == 0
    ensures Slot(num, k % TWO16) == k % num
  {
    FreeRunning.SlotUnbounded(TWO16, num, k);
    FreeRunning.SlotUnbounded(TWO16, num, k % TWO16);
    assert (k % TWO16) % TWO16 == k % TWO16;
  }

  lemma Apart(num: nat, k: nat, j: nat)
    requires 0 < num && k < j < k + num
    ensures k % num != j % num
  {
    FreeRunning.Congruent(num, k, j);
  }

  lemma {:induction false} StageRefines(r: Ring, f: Fifo, head: nat)
    requires Represents(r, f) && Allowed(f, r.num, Stage(head))
    ensures Represents(Step(r, Stage(head)), FifoStep(f, Stage(head)))
  {
    SlotOf(r.num, |f.published|);
    forall k | f.reclaimed <= k < |f.published|
      ensures k % r.num != |f.published| % r.num
    {
      Apart(r.num, k, |f.published|);
    }
  }

  lemma {:induction false} FillRefines(r: Ring, f: Fifo, elem: Elem)
    requires Represents(r, f) && Allowed(f, r.num, Fill(elem))
    ensures Represents(Step(r, Fill(elem)), FifoStep(f, Fill(elem)))
  {
    SlotOf(r.num, |f.returned|);
    forall k | f.reclaimed <= k < |f.returned|
      ensures k % r.num != |f.returned| % r.num
    {
      Apart(r.num, k, |f.returned|);
    }
  }

  lemma PopRefines(r: Ring, f: Fifo)
    requires Represents(r, f)
    ensures Represents(Step(r, Pop), FifoStep(f, Pop)) && Observe(r, Pop) == FifoObserve(f, Pop)
  {
    Wrap(f.taken, |f.published|);
    if f.taken < |f.published| {
      SlotOf(r.num, f.taken);
      assert r.avail[f.taken % r.num] == f.published[f.taken];
    }
  }

  lemma ReclaimRefines(r: Ring, f: Fifo)
    requires Represents(r, f)
    ensures Represents(Step(r, Reclaim), FifoStep(f, Reclaim)) && Observe(r, Reclaim) == FifoObserve(f, Reclaim)
  {
    Wrap(f.reclaimed, |f.returned|);
    if f.reclaimed < |f.returned| {
      SlotOf(r.num, f.reclaimed);
      assert r.used[f.reclaimed % r.num] == f.returned[f.reclaimed];
    }
  }

  lemma AnnounceRefines(r: Ring, f: Fifo, e: Event)
    requires Represents(r, f) && (e.Commit? || e.Post?) && Allowed(f, r.num, e)
    ensures Represents(Step(r, e), FifoStep(f, e))
  {
    if e.Commit? {
      Wrap(|f.published|, |f.published|);
    } else {
      Wrap(|f.returned|, |f.returned|);
    }
  }

  /** Every step of either side is a step of the queue, with the same answer. */
  lemma {:induction false} StepRefines(r: Ring, f: Fifo, e: Event)
    requires Represents(r, f) && Allowed(f, r.num, e)
    ensures Represents(Step(r, e), FifoStep(f, e))
    ensures Observe(r, e) == FifoObserve(f, e)
  {
    match e
    case Stage(head) => StageRefines(r, f, head);
    case Fill(elem) => FillRefines(r, f, elem);
    case Commit => AnnounceRefines(r, f, e);
    case Post => AnnounceRefines(r, f, e);
    case Pop => PopRefines(r, f);
    case Reclaim => ReclaimRefines(r, f);
  }

  // ---- whole runs ----

  function Init<T>(s: seq<T>): seq<T>
    requires s != []
  {
    s[..|s| - 1]
  }

  function Last<T>(s: seq<T>): T
    requires s != []
  {
    s[|s| - 1]
  }

  function Run(r: Ring, es: seq<Event>): (r': Ring)
    requires r.Shaped()
    ensures r'.Shaped() && r'.num == r.num
  {
    if es == [] then r else Step(Run(r, Init(es)), Last(es))
  }

  function Observed(r: Ring, es: seq<Event>): (os: seq<Output>)
    requires r.Shaped()
    ensures |os| == |es|
  {
    if es == [] then [] else Observed(r, Init(es)) + [Observe(Run(r, Init(es)), Last(es))]
  }

  function FifoRun(f: Fifo, es: seq<Event>): Fifo {
    if es == [] then f else FifoStep(FifoRun(f, Init(es)), Last(es))
  }

  function FifoObserved(f: Fifo, es: seq<Event>): seq<Output> {
    if es == [] then [] else FifoObserved(f, Init(es)) + [FifoObserve(FifoRun(f, Init(es)), Last(es))]
  }

  predicate AllowedRun(f: Fifo, num: nat, es: seq<Event>) {
    es == [] || (AllowedRun(f, num, Init(es)) && Allowed(FifoRun(f, Init(es)), num, Last(es)))
  }

  /** Every run of a ring, whatever the interleaving and however often the indices
      wrap, is a run of the queue it represents. */
  lemma {:induction false} RunRefines(r: Ring, f: Fifo, es: seq<Event>)
    requires Represents(r, f) && AllowedRun(f, r.num, es)
    ensures Represents(Run(r, es), FifoRun(f, es))
    ensures Observed(r, es) == FifoObserved(f, es)
  {
    if es != [] {
      RunRefines(r, f, Init(es));
      StepRefines(Run(r, Init(es)), FifoRun(f, Init(es)), Last(es));
    }
  }

  lemma EmptyRepresents(num: nat)
    requires 0 < num <= TWO16 / 2 && TWO16 % num == 0
    ensures Represents(EmptyRing(num), EmptyFifo)
  {
  }

  // ---- what the queue itself promises ----

  function PoppedHeads(os: seq<Output>): seq<nat> {
    if os == [] then []
    else PoppedHeads(Init(os)) +
         (if Last(os).Popped? && Last(os).head.Some? then [Last(os).head.value] else [])
  }

  function ReclaimedElems(os: seq<Output>): seq<Elem> {
    if os == [] then []
    else ReclaimedElems(Init(os)) +
         (if Last(os).Reclaimed? && Last(os).elem.Some? then [Last(os).elem.value] else [])
  }

  ghost predicate Progress(f: Fifo) {
    f.reclaimed <= |f.returned| && |f.returned| + (if f.filled.Some? then 1 else 0) <= f.taken <= |f.published|
  }

  lemma PrefixStep(f: Fifo, num: nat, e: Event)
    requires Progress(f) && Allowed(f, num, e)
    ensures Progress(FifoStep(f, e))
    ensures var g, o := FifoStep(f, e), FifoObserve(f, e);
            && g.published[..g.taken] == f.published[..f.taken] + (if o.Popped? && o.head.Some? then [o.head.value] else [])
            && g.returned[..g.reclaimed] == f.returned[..f.reclaimed] + (if o.Reclaimed? && o.elem.Some? then [o.elem.value] else [])
  {
  }

  /** Consumed exactly once and in order; handed back exactly once. */
  lemma {:induction false} ExactlyOnce(num: nat, es: seq<Event>)
    requires AllowedRun(EmptyFifo, num, es)
    ensures var f, os := FifoRun(EmptyFifo, es), FifoObserved(EmptyFifo, es);
            && Progress(f)
            && PoppedHeads(os) == f.published[..f.taken]
            && ReclaimedElems(os) == f.returned[..f.reclaimed]
  {
    if es != [] {
      ExactlyOnce(num, Init(es));
      var f, os := FifoRun(EmptyFifo, Init(es)), FifoObserved(EmptyFifo, Init(es));
      var os' := FifoObserved(EmptyFifo, es);
      assert Init(os') == os && Last(os') == FifoObserve(f, Last(es));
      PrefixStep(f, num, Last(es));
    }
  }

  // ---- the engine's program ----

  /** What the engine holds between two of its accesses: nothing, a head it popped, or
      that head with its used element written and not yet announced. */
  datatype Hand = Empty | Held(head: nat) | Ready(head: nat)

  /** How many heads it popped, which of them (by position) it announced, and how many
      it let go of without. */
  datatype Engine = Engine(popped: nat, hand: Hand, kept: seq<nat>, dropped: nat)

  const FreshEngine := Engine(0, Empty, [], 0)

  function InHand(p: Engine): nat {
    if p.hand.Empty? then 0 else 1
  }

  /** Its next access, and what it made of it.  Going for the next head with one still in
      hand is how a failed access loses it. */
  function EngineStep(p: Engine, e: Event, o: Output): Engine {
    match e
    case Pop =>
      var q := p.(hand := Empty, dropped := p.dropped + InHand(p));
      if o.Popped? && o.head.Some? then q.(popped := q.popped + 1, hand := Held(o.head.value)) else q
    case Fill(_) => if p.hand.Empty? then p else p.(hand := Ready(p.hand.head))
    case Post => if p.popped == 0 then p else p.(hand := Empty, kept := p.kept + [p.popped - 1])
    case _ => p
  }

  /** The program: it writes the used element of the head in hand, and announces only
      what it has written. */
  predicate Follows(p: Engine, e: Event) {
    match e
    case Fill(elem) => !p.hand.Empty? && elem.id == p.hand.head
    case Post => p.hand.Ready?
    case _ => true
  }

  function EngineRun(es: seq<Event>, os: seq<Output>): Engine
    requires |es| == |os|
  {
    if es == [] then FreshEngine else EngineStep(EngineRun(Init(es), Init(os)), Last(es), Last(os))
  }

  predicate FollowsRun(es: seq<Event>, os: seq<Output>)
    requires |es| == |os|
  {
    es == [] || (FollowsRun(Init(es), Init(os)) && Follows(EngineRun(Init(es), Init(os)), Last(es)))
  }

  /** The host's half of the protocol, which is all it has to keep. */
  predicate HostRun(f: Fifo, num: nat, es: seq<Event>) {
    es == [] ||
    (HostRun(f, num, Init(es)) &&
     (Last(es).Stage? || Last(es).Commit? ==> Allowed(FifoRun(f, Init(es)), num, Last(es))))
  }

  /** The engine's own account of the queue: every head it popped is announced, dropped or
      in hand, and the k-th element returned is for the k-th position announced. */
  ghost predicate EngineInv(p: Engine, f: Fifo) {
    && Progress(f) && p.popped == f.taken && |p.kept| == |f.returned|
    && |p.kept| + p.dropped + InHand(p) == p.popped
    && (!p.hand.Empty? ==> p.popped > 0 && p.hand.head == f.published[p.popped - 1])
    && (p.hand.Ready? ==> f.filled.Some? && f.filled.value.id == p.hand.head)
    && (forall k :: 0 <= k < |p.kept| ==> p.kept[k] < p.popped - InHand(p) && f.returned[k].id == f.published[p.kept[k]])
    && (forall j, k :: 0 <= j < k < |p.kept| ==> p.kept[j] < p.kept[k])
  }

  /** The program keeps the device's half of the protocol, and its account, whatever the
      host does in between. */
  lemma EngineFollows(p: Engine, f: Fifo, num: nat, e: Event)
    requires EngineInv(p, f) && Follows(p, e) && (e.Stage? || e.Commit? ==> Allowed(f, num, e))
    ensures Allowed(f, num, e) && EngineInv(EngineStep(p, e, FifoObserve(f, e)), FifoStep(f, e))
  {
  }

  lemma {:induction false} EngineRuns(num: nat, es: seq<Event>)
    requires 0 < num <= VRING_NUM && TWO16 % num == 0 && HostRun(EmptyFifo, num, es)
    requires FollowsRun(es, Observed(EmptyRing(num), es))
    ensures AllowedRun(EmptyFifo, num, es) && Represents(Run(EmptyRing(num), es), FifoRun(EmptyFifo, es))
    ensures Observed(EmptyRing(num), es) == FifoObserved(EmptyFifo, es)
    ensures EngineInv(EngineRun(es, Observed(EmptyRing(num), es)), FifoRun(EmptyFifo, es))
  {
    hide Represents, EngineInv, EngineStep, Step, FifoStep, Observe, FifoObserve, EmptyRing;
    if es == [] {
      EmptyRepresents(num);
      FreshInv();
    } else {
      var os := Observed(EmptyRing(num), es);
      assert Init(os) == Observed(EmptyRing(num), Init(es));
      EngineRuns(num, Init(es));
      var f := FifoRun(EmptyFifo, Init(es));
      EngineFollows(EngineRun(Init(es), Init(os)), f, num, Last(es));
      StepRefines(Run(EmptyRing(num), Init(es)), f, Last(es));
    }
  }

  lemma FreshInv()
    ensures EngineInv(FreshEngine, EmptyFifo)
  {
  }

  /** With nothing dropped the announced positions are 0, 1, 2... */
  lemma {:induction false} KeptAll(kept: seq<nat>, bound: nat, k: nat)
    requires (forall i, j :: 0 <= i < j < |kept| ==> kept[i] < kept[j]) && k < |kept| <= bound
    requires forall i :: 0 <= i < |kept| ==> kept[i] < bound
    ensures k <= kept[k] <= bound - |kept| + k
  {
    KeptAbove(kept, k);
    KeptBelow(kept, bound, k);
  }

  lemma {:induction false} KeptAbove(kept: seq<nat>, k: nat)
    requires (forall i, j :: 0 <= i < j < |kept| ==> kept[i] < kept[j]) && k < |kept|
    ensures k <= kept[k]
  {
    if k > 0 {
      KeptAbove(kept, k - 1);
    }
  }

  lemma {:induction false} KeptBelow(kept: seq<nat>, bound: nat, k: nat)
    requires (forall i, j :: 0 <= i < j < |kept| ==> kept[i] < kept[j]) && k < |kept|
    requires forall i :: 0 <= i < |kept| ==> kept[i] < bound
    ensures kept[k] <= bound - |kept| + k
    decreases |kept| - k
  {
    if k + 1 < |kept| {
      KeptBelow(kept, bound, k + 1);
    }
  }

  /** What one queue promises over any run from a freshly activated ring whose size divides
      the index range, however host publishes and reclaims fall between the engine's
      accesses.  The host keeps its limit and the engine its program; then the device sees
      exactly a prefix of what was published, the host gets exactly a prefix of what was
      returned, no more than `num` heads are outstanding, and the k-th element returned
      is for the k-th head announced, at increasing positions.  Popped heads are announced,
      dropped or in hand, so with none dropped element k is for head k. */
  lemma RingIsFifo(num: nat, es: seq<Event>)
    requires 0 < num <= VRING_NUM && TWO16 % num == 0 && HostRun(EmptyFifo, num, es)
    requires FollowsRun(es, Observed(EmptyRing(num), es))
    ensures var f, os := FifoRun(EmptyFifo, es), Observed(EmptyRing(num), es);
            var p := EngineRun(es, os);
            && Progress(f) && |f.published| - f.reclaimed <= num
            && PoppedHeads(os) == f.published[..f.taken]
            && ReclaimedElems(os) == f.returned[..f.reclaimed]
            && |f.returned| == |p.kept| && |f.returned| + p.dropped + InHand(p) == f.taken
            && (forall k :: 0 <= k < |f.returned| ==> p.kept[k] < f.taken && f.returned[k].id == f.published[p.kept[k]])
            && (forall j, k :: 0 <= j < k < |p.kept| ==> p.kept[j] < p.kept[k])
            && (p.dropped == 0 ==> forall k :: 0 <= k < |f.returned| ==> f.returned[k].id == f.published[k])
  {
    hide FollowsRun, HostRun, EngineRun, FifoRun, Observed, FifoObserved;
    EngineRuns(num, es);
    ExactlyOnce(num, es);
    var f, os := FifoRun(EmptyFifo, es), Observed(EmptyRing(num), es);
    var p := EngineRun(es, os);
    forall k | 0 <= k < |f.returned| && p.dropped == 0
      ensures p.kept[k] == k
    {
      KeptAll(p.kept, p.popped - InHand(p), k);
    }
  }

  /** Nothing in hand, every head taken has been announced exactly when none was dropped. */
  lemma ReturnsAllExactly(num: nat, es: seq<Event>)
    requires 0 < num <= VRING_NUM && TWO16 % num == 0 && HostRun(EmptyFifo, num, es)
    requires FollowsRun(es, Observed(EmptyRing(num), es))
    requires EngineRun(es, Observed(EmptyRing(num), es)).hand.Empty?
    ensures var p := EngineRun(es, Observed(EmptyRing(num), es));
            Covers(p.kept, FifoRun(EmptyFifo, es).taken) <==> p.dropped == 0
  {
    hide FollowsRun, HostRun, EngineRun, FifoRun, Observed, Covers;
    EngineRuns(num, es);
    var p := EngineRun(es, Observed(EmptyRing(num), es));
    CoversExactly(p.kept, p.popped);
  }

  ghost predicate Covers(kept: seq<nat>, n: nat) {
    forall i: nat :: i < n ==> i in kept
  }

  lemma CoversExactly(kept: seq<nat>, n: nat)
    requires forall i, j :: 0 <= i < j < |kept| ==> kept[i] < kept[j]
    requires |kept| <= n && forall i :: 0 <= i < |kept| ==> kept[i] < n
    ensures Covers(kept, n) <==> |kept| == n
  {
    if |kept| == n {
      forall i: nat | i < n
        ensures i in kept
      {
        KeptAll(kept, n, i);
      }
    }
    if Covers(kept, n) {
      CoversBound(kept, n);
    }
  }

  /** Increasing positions that cover 0..n are at least n of them. */
  lemma {:induction false} CoversBound(kept: seq<nat>, n: nat)
    requires (forall i, j :: 0 <= i < j < |kept| ==> kept[i] < kept[j]) && Covers(kept, n)
    ensures |kept| >= n
  {
    if n > 0 {
      var last: nat := n - 1;
      assert last in kept;
      var k :| 0 <= k < |kept| && kept[k] == last;
      forall i: nat | i < last
        ensures i in kept[..k]
      {
        assert i in kept;
        var j :| 0 <= j < |kept| && kept[j] == i;
        assert kept[..k][j] == i;
      }
      CoversBound(kept[..k], last);
    }
  }

  // ---- which queue sizes work ----

  /** Every allowed run from zeroed memory behaves as a queue. */
  ghost predicate BehavesAsFifo(num: nat) {
    0 < num && forall es :: AllowedRun(EmptyFifo, num, es) ==> Observed(EmptyRing(num), es) == FifoObserved(EmptyFifo, es)
  }

  /** The device accepts any VQ_NUM in 1..256; a queue it is only when the size
      divides 65536, that is, when it is the power of two VIRTIO requires. */
  lemma QueueSizeExactly(num: nat)
    requires 0 < num <= VRING_NUM
    ensures BehavesAsFifo(num) <==> TWO16 % num == 0
  {
    if TWO16 % num == 0 {
      forall es | AllowedRun(EmptyFifo, num, es)
        ensures Observed(EmptyRing(num), es) == FifoObserved(EmptyFifo, es)
      {
        EmptyRepresents(num);
        RunRefines(EmptyRing(num), EmptyFifo, es);
      }
    } else {
      var es := BadRun(num);
    }
  }

  ghost predicate Settled(r: Ring, f: Fifo, n: nat) {
    && r.Shaped()
    && r.availIdx == r.usedIdx == r.lastAvail == r.lastUsed == n % TWO16
    && |f.published| == f.taken == |f.returned| == f.reclaimed == n
    && f.staged.None? && f.filled.None?
  }

  lemma Extend(num: nat, es: seq<Event>, e: Event) returns (es': seq<Event>)
    requires 0 < num && AllowedRun(EmptyFifo, num, es)
    requires Allowed(FifoRun(EmptyFifo, es), num, e)
    ensures es' == es + [e] && AllowedRun(EmptyFifo, num, es')
    ensures Run(EmptyRing(num), es') == Step(Run(EmptyRing(num), es), e)
    ensures FifoRun(EmptyFifo, es') == FifoStep(FifoRun(EmptyFifo, es), e)
    ensures Last(Observed(EmptyRing(num), es')) == Observe(Run(EmptyRing(num), es), e)
    ensures Last(FifoObserved(EmptyFifo, es')) == FifoObserve(FifoRun(EmptyFifo, es), e)
  {
    es' := es + [e];
    assert Init(es') == es && Last(es') == e;
  }

  ghost predicate Holding(r: Ring, f: Fifo, n: nat) {
    && r.Shaped()
    && r.availIdx == r.lastAvail == (n + 1) % TWO16 && r.usedIdx == r.lastUsed == n % TWO16
    && |f.published| == f.taken == n + 1 && |f.returned| == f.reclaimed == n
    && f.staged.None? && f.filled.None?
  }

  lemma Lend(num: nat, n: nat, before: seq<Event>) returns (es: seq<Event>)
    requires 0 < num && AllowedRun(EmptyFifo, num, before)
    requires Settled(Run(EmptyRing(num), before), FifoRun(EmptyFifo, before), n)
    ensures AllowedRun(EmptyFifo, num, es)
    ensures Holding(Run(EmptyRing(num), es), FifoRun(EmptyFifo, es), n)
  {
    Wrap(n, n);
    es := Extend(num, before, Stage(0));
    es := Extend(num, es, Commit);
    es := Extend(num, es, Pop);
  }

  lemma GiveBack(num: nat, n: nat, before: seq<Event>) returns (es: seq<Event>)
    requires 0 < num && AllowedRun(EmptyFifo, num, before)
    requires Holding(Run(EmptyRing(num), before), FifoRun(EmptyFifo, before), n)
    ensures AllowedRun(EmptyFifo, num, es)
    ensures Settled(Run(EmptyRing(num), es), FifoRun(EmptyFifo, es), n + 1)
  {
    Wrap(n, n);
    es := Extend(num, before, Fill(Elem(0, 0)));
    es := Extend(num, es, Post);
    es := Extend(num, es, Reclaim);
  }

  /** Any number of heads can go round one at a time, whatever the queue size. */
  lemma {:induction false} Spin(num: nat, n: nat) returns (es: seq<Event>)
    requires 0 < num
    ensures AllowedRun(EmptyFifo, num, es)
    ensures Settled(Run(EmptyRing(num), es), FifoRun(EmptyFifo, es), n)
  {
    es := [];
    if n > 0 {
      es := Spin(num, n - 1);
      es := Lend(num, n - 1, es);
      es := GiveBack(num, n - 1, es);
    }
  }

  ghost predicate Batched(r: Ring, f: Fifo, n: nat, b: nat) {
    && r.Shaped()
    && r.availIdx == (n + b) % TWO16 && r.lastAvail == n % TWO16
    && f.taken == f.reclaimed == n && f.staged.None?
    && |f.published| == n + b && (b > 0 ==> f.published[n] == 0)
    && (b > 0 ==> r.avail[Slot(r.num, n + b - 1)] == b - 1)
  }

  lemma BatchStep(r: Ring, f: Fifo, n: nat, b: nat)
    requires Batched(r, f, n, b)
    ensures Batched(Step(Step(r, Stage(b)), Commit), FifoStep(FifoStep(f, Stage(b)), Commit), n, b + 1)
  {
    Wrap(n + b, n + b);
    assert ((n + b) % TWO16) % TWO16 == (n + b) % TWO16;
    assert Slot(r.num, r.availIdx) == Slot(r.num, n + b);
  }

  /** Then a batch of `b` heads, numbered from 0, published without a pop. */
  lemma {:induction false} Batch(num: nat, n: nat, b: nat) returns (es: seq<Event>)
    requires 0 < num && b <= num
    ensures AllowedRun(EmptyFifo, num, es)
    ensures Run(EmptyRing(num), es).num == num
    ensures Batched(Run(EmptyRing(num), es), FifoRun(EmptyFifo, es), n, b)
  {
    if b == 0 {
      es := Spin(num, n);
    } else {
      var before := Batch(num, n, b - 1);
      BatchStep(Run(EmptyRing(num), before), FifoRun(EmptyFifo, before), n, b - 1);
      es := Extend(num, before, Stage(b - 1));
      es := Extend(num, es, Commit);
    }
  }

  /** Across the 16-bit wrap, position 65536 lands in the slot of position
      65536 - (65536 mod num) while that one is still unread. */
  lemma BadRun(num: nat) returns (es: seq<Event>)
    requires 0 < num <= VRING_NUM && TWO16 % num != 0
    ensures AllowedRun(EmptyFifo, num, es)
    ensures Observed(EmptyRing(num), es) != FifoObserved(EmptyFifo, es)
  {
    var d := TWO16 % num;
    var n := TWO16 - d;
    es := Batch(num, n, d + 1);
    FreeRunning.WrapClash(TWO16, num);
    assert Slot(num, n) == Slot(num, n + d);
    assert (n % TWO16) % TWO16 == n % TWO16;
    Wrap(n, n + d + 1);
    var r := Run(EmptyRing(num), es);
    assert r.avail[Slot(num, r.lastAvail)] == d;
    es := Extend(num, es, Pop);
  }
}
