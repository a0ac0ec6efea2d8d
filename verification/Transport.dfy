/** The four queues as a system: host and device sharing ring memory, doorbells that
    only mark, a service pass that drains what was marked, and the order in which the
    driver stops, clears, releases and activates across crashes and restarts.

    Register writes are serialised with the service pass; the host's accesses to ring
    memory are not, so they may fall between any two steps of it. */
module Transport {
  import opened Hardware
  import R = SplitRing
  import Q = QueueWindow

  /** One ring as memory and the host see it, with its history since it was last
      cleared.  `rung` is how much was published when the device last marked the queue
      and `gaveUp` that a pass has since abandoned it on a fault. */
  datatype Shared = Shared(
    avail: seq<nat>, availIdx: nat, used: seq<R.Elem>, usedIdx: nat, lastUsed: nat,
    fifo: R.Fifo, rung: nat, gaveUp: bool)

  /** Where the driver is: stopped (RESET written 1), rings cleared, released with `next`
      queues activated so far, or up with the virtio devices attached. */
  datatype Driver = Stopped | Cleared | Released(next: nat) | Up

  /** The service callback: idle, or at queue `next` of the mask it took. */
  datatype Phase = Idle | Sweeping(pending: set<nat>, next: nat)

  datatype State = State(win: Q.Window, mem: seq<Shared>, driver: Driver, phase: Phase)

  datatype Event =
    | Host(q: nat, access: R.Event)     // any CPU, any time while attached
    | Doorbell(id: u32)
    | Program(q: nat, num: u32, desc: u64, avail: u64, used: u64, vector: u32)
    | Enable(q: nat, on: bool)
    | Names(ids: seq<u32>)              // notifyids read out of the resource table
    | Crash
    | Stop
    | Clear                             // the driver zeroes all ring memory
    | Release
    | Fire                              // the service timer expires
    | Turn                              // the pass takes a head, or moves on
    | Fault                             // the pass gives the current queue up
    | Device(q: nat, access: R.Event)   // used elements, and buffers to answer in

  function Initial(): State {
    State(Q.RESET_WINDOW, [Empty(), Empty(), Empty(), Empty()], Stopped, Idle)
  }

  function Empty(): Shared {
    var r := R.EmptyRing(VRING_NUM);
    Shared(r.avail, r.availIdx, r.used, r.usedIdx, r.lastUsed, R.EmptyFifo, 0, false)
  }

  predicate Wired(s: State) {
    && Q.Shaped(s.win) && |s.mem| == VQ_COUNT
    && forall q {:trigger s.mem[q]} :: 0 <= q < VQ_COUNT ==> |s.mem[q].avail| == VRING_NUM && |s.mem[q].used| == VRING_NUM
  }

  function RingOf(s: State, q: nat): (r: R.Ring)
    requires Wired(s) && q < VQ_COUNT
    ensures r.Shaped() && r.num == VRING_NUM
  {
    var m := s.mem[q];
    R.Ring(VRING_NUM, m.avail, m.availIdx, m.used, m.usedIdx, s.win.vq[q].lastAvail, m.lastUsed)
  }

  /** One memory access of either side to one ring. */
  function Access(s: State, q: nat, e: R.Event): (s': State)
    requires Wired(s) && q < VQ_COUNT
    ensures Wired(s')
  {
    var r, m := R.Step(RingOf(s, q), e), s.mem[q];
    s.(mem := s.mem[q := m.(avail := r.avail, availIdx := r.availIdx, used := r.used, usedIdx := r.usedIdx,
                            lastUsed := r.lastUsed, fifo := R.FifoStep(m.fifo, e))],
       win := if e.Pop? then s.win.(vq := s.win.vq[q := s.win.vq[q].(lastAvail := Index(r.lastAvail))]) else s.win)
  }

  function Index(k: nat): u16 {
    if k < TWO16 then k else 0
  }

  predicate Consumes(q: nat) {
    q != VQ_CTRL_RX
  }

  predicate Draining(s: State, q: nat) {
    s.phase.Sweeping? && s.phase.next == q && q in s.phase.pending && q < |s.win.vq| && s.win.vq[q].enable && Consumes(q)
  }

  function Marked(s: State, q: nat): State
    requires Wired(s) && q < VQ_COUNT
  {
    s.(mem := s.mem[q := s.mem[q].(rung := |s.mem[q].fifo.published|, gaveUp := false)])
  }

  predicate Legal(s: State, e: Event)
    requires Wired(s)
  {
    match e
    case Host(q, access) =>
      && s.driver.Up? && q < VQ_COUNT && (access.Stage? || access.Commit? || access.Reclaim?)
      && R.Allowed(s.mem[q].fifo, VRING_NUM, access)
    case Program(q, _, _, _, _, _) => s.phase.Idle? && q < VQ_COUNT
    case Enable(q, on) =>
      && s.phase.Idle? && q < VQ_COUNT
      && (on ==> s.driver == Released(q) && s.win.vq[q].num == VRING_NUM)
    case Names(ids) => s.phase.Idle? && |ids| == VQ_COUNT
    case Doorbell(_) => s.phase.Idle?
    case Crash => s.phase.Idle?
    case Stop => s.phase.Idle?
    case Clear => s.driver.Stopped?
    case Release => s.phase.Idle? && s.driver.Cleared?
    case Fire => s.phase.Idle? && s.win.timer
    case Turn => s.phase.Sweeping?
    case Fault => s.phase.Sweeping?
    case Device(q, access) =>
      && s.phase.Sweeping? && q < VQ_COUNT && s.win.vq[q].enable
      && (access.Fill? || access.Post? || (access.Pop? && q == VQ_CTRL_RX))
      && R.Allowed(s.mem[q].fifo, VRING_NUM, access)
  }

  /** The pass gives up its turn for the next queue, or ends. */
  function Advance(s: State): State
    requires s.phase.Sweeping?
  {
    s.(phase := if s.phase.next + 1 >= VQ_COUNT then Idle else Sweeping(s.phase.pending, s.phase.next + 1))
  }

  function Turned(s: State): (s': State)
    requires Wired(s) && s.phase.Sweeping?
    ensures Wired(s')
  {
    var q := s.phase.next;
    if Draining(s, q) && s.mem[q].availIdx != s.win.vq[q].lastAvail then Access(s, q, R.Pop) else Advance(s)
  }

  function Step(s: State, e: Event): (s': State)
    requires Wired(s) && Legal(s, e)
    ensures Wired(s')
  {
    match e
    case Host(q, access) => Access(s, q, access)
    case Doorbell(id) =>
      var r := Q.Route(s.win, id, 0);
      var s' := s.(win := Q.Doorbell(s.win, id));
      if r.Some? && s.win.vq[r.value].enable then Marked(s', r.value) else s'
    case Program(q, num, desc, avail, used, vector) => s.(win := Q.ProgramWrite(s.win, q, num, desc, avail, used, vector))
    case Enable(q, on) =>
      var s' := s.(win := Q.EnableWrite(s.win, q, on), driver := if on then Activated(q) else s.driver);
      if on && s'.win.vq[q].enable && !s.win.vq[q].enable then Marked(s', q) else s'
    case Names(ids) =>
      s.(win := s.win.(vq := seq(VQ_COUNT, q requires 0 <= q < VQ_COUNT => s.win.vq[q].(notifyid := ids[q]))))
    case Crash => s.(win := Q.Purged(s.win))
    case Stop => s.(win := Q.Purged(s.win), driver := Stopped)
    case Clear => s.(mem := [Empty(), Empty(), Empty(), Empty()], driver := Cleared)
    case Release => s.(driver := Released(0))
    case Fire => s.(win := Q.Fired(s.win), phase := Sweeping(s.win.sweep, 0))
    case Turn => Turned(s)
    case Fault =>
      var q := s.phase.next;
      if q < VQ_COUNT then Advance(s.(mem := s.mem[q := s.mem[q].(gaveUp := true)])) else Advance(s)
    case Device(q, access) => Access(s, q, access)
  }

  function Activated(q: nat): Driver {
    if q + 1 == VQ_COUNT then Up else Released(q + 1)
  }

  // ---- what every reachable state satisfies ----

  ghost predicate BeingSwept(s: State, q: nat) {
    s.phase.Sweeping? && q in s.phase.pending && s.phase.next <= q
  }

  /** Work announced for this queue is done, or somebody is going to look. */
  ghost predicate Noticed(s: State, q: nat)
    requires Wired(s) && q < VQ_COUNT
  {
    s.mem[q].rung <= s.mem[q].fifo.taken || q in s.win.sweep || BeingSwept(s, q) || s.mem[q].gaveUp
  }

  ghost predicate Fresh(s: State, q: nat)
    requires Wired(s) && q < VQ_COUNT
  {
    && s.mem[q].fifo == R.EmptyFifo && s.mem[q].rung == 0
    && RingOf(s, q).(lastAvail := 0) == R.EmptyRing(VRING_NUM)
  }

  /** How far the driver must have got for this queue to be enabled. */
  predicate MayBeEnabled(d: Driver, q: nat) {
    d.Up? || (d.Released? && q < d.next)
  }

  ghost predicate QueueInv(s: State, q: nat)
    requires Wired(s) && q < VQ_COUNT
  {
    && s.mem[q].rung <= |s.mem[q].fifo.published|
    && (s.driver.Cleared? || s.driver.Released? ==> Fresh(s, q))
    && (s.win.vq[q].enable ==>
          && MayBeEnabled(s.driver, q) && s.win.vq[q].num == VRING_NUM
          && R.Represents(RingOf(s, q), s.mem[q].fifo)
          && (Consumes(q) ==> Noticed(s, q)))
  }

  ghost predicate Inv(s: State) {
    && Wired(s) && Q.Inv(s.win)
    && (s.phase.Sweeping? ==> s.win.sweep == {} && s.phase.next < VQ_COUNT)
    && (s.driver.Released? ==> s.driver.next < VQ_COUNT)
    && forall q :: 0 <= q < VQ_COUNT ==> QueueInv(s, q)
  }

  /** A queue whose own part of the state did not move keeps its invariant as long as
      nobody who was going to look has been forgotten. */
  lemma QueueFrame(s: State, s': State, q: nat)
    requires Wired(s) && Wired(s') && q < VQ_COUNT && QueueInv(s, q)
    requires s'.mem[q] == s.mem[q] && s'.win.vq[q] == s.win.vq[q]
    requires s'.driver == s.driver
    requires q in s.win.sweep || BeingSwept(s, q) ==> q in s'.win.sweep || BeingSwept(s', q)
    ensures QueueInv(s', q)
  {
    hide R.Represents, R.EmptyRing;
    assert RingOf(s', q) == RingOf(s, q);
  }

  lemma HistoryGrows(f: R.Fifo, e: R.Event)
    ensures |f.published| <= |R.FifoStep(f, e).published|
    ensures f.taken <= R.FifoStep(f, e).taken
  {
  }

  /** An access keeps the enabled queue representing its history; on a disabled one,
      only the host's side moves. */
  lemma AccessQueue(s: State, q: nat, e: R.Event)
    requires Inv(s) && q < VQ_COUNT && R.Allowed(s.mem[q].fifo, VRING_NUM, e)
    requires s.driver.Up? || (s.win.vq[q].enable && !e.Stage? && !e.Commit?)
    requires e.Pop? ==> s.win.vq[q].enable
    ensures QueueInv(Access(s, q, e), q) && Q.Inv(Access(s, q, e).win)
  {
    hide R.Represents, R.EmptyRing;
    var s' := Access(s, q, e);
    HistoryGrows(s.mem[q].fifo, e);
    assert QueueInv(s, q);
    if s.win.vq[q].enable {
      R.StepRefines(RingOf(s, q), s.mem[q].fifo, e);
      IndexBound(RingOf(s, q), s.mem[q].fifo, e);
      assert RingOf(s', q) == R.Step(RingOf(s, q), e);
      if !s.driver.Up? {
        NothingHappens(s, q, e);
      }
    }
  }

  lemma IndexBound(r: R.Ring, f: R.Fifo, e: R.Event)
    requires R.Represents(r, f) && R.Represents(R.Step(r, e), R.FifoStep(f, e))
    ensures R.Step(r, e).lastAvail < TWO16
  {
  }

  /** On a ring nobody has published to, neither side has anything to do. */
  lemma NothingHappens(s: State, q: nat, e: R.Event)
    requires Inv(s) && q < VQ_COUNT && s.win.vq[q].enable && Fresh(s, q)
    requires R.Allowed(s.mem[q].fifo, VRING_NUM, e) && !e.Stage? && !e.Commit?
    ensures R.Step(RingOf(s, q), e) == RingOf(s, q) && R.FifoStep(s.mem[q].fifo, e) == s.mem[q].fifo
  {
    assert QueueInv(s, q);
    var r := RingOf(s, q);
    assert r.(lastAvail := 0).availIdx == 0 && r.(lastAvail := 0).usedIdx == 0 && r.(lastAvail := 0).lastUsed == 0;
  }

  lemma AccessKeepsInv(s: State, q: nat, e: R.Event)
    requires Inv(s) && q < VQ_COUNT && R.Allowed(s.mem[q].fifo, VRING_NUM, e)
    requires s.driver.Up? || (s.win.vq[q].enable && !e.Stage? && !e.Commit?)
    requires e.Pop? ==> s.win.vq[q].enable
    ensures Inv(Access(s, q, e))
  {
    hide QueueInv;
    var s' := Access(s, q, e);
    AccessQueue(s, q, e);
    forall p | 0 <= p < VQ_COUNT && p != q
      ensures QueueInv(s', p)
    {
      QueueFrame(s, s', p);
    }
  }

  lemma MarkedQueue(s: State, w: Q.Window, q: nat)
    requires Inv(s) && q < VQ_COUNT && Q.Inv(w) && s.phase.Idle?
    requires w.vq == s.win.vq && q in w.sweep
    ensures QueueInv(Marked(s.(win := w), q), q)
  {
    hide R.Represents, R.EmptyRing;
    assert QueueInv(s, q);
    var s' := Marked(s.(win := w), q);
    assert RingOf(s', q) == RingOf(s, q);
  }

  lemma DoorbellKeepsInv(s: State, id: u32)
    requires Inv(s) && s.phase.Idle?
    ensures Inv(Step(s, Doorbell(id)))
  {
    hide QueueInv;
    var w, r, s' := Q.Doorbell(s.win, id), Q.Route(s.win, id, 0), Step(s, Doorbell(id));
    Q.DoorbellExactly(s.win, id, 0);
    forall q | 0 <= q < VQ_COUNT
      ensures QueueInv(s', q)
    {
      if r == Some(q) && s.win.vq[q].enable {
        MarkedQueue(s, w, q);
      } else {
        QueueFrame(s, s', q);
      }
    }
  }

  lemma PurgeKeepsInv(s: State, e: Event)
    requires Inv(s) && s.phase.Idle? && (e.Stop? || e.Crash?)
    ensures Inv(Step(s, e))
  {
    hide R.Represents, R.EmptyRing;
    Q.PurgeExactly(s.win);
    var s' := Step(s, e);
    forall q | 0 <= q < VQ_COUNT
      ensures QueueInv(s', q)
    {
      assert QueueInv(s, q);
      assert RingOf(s', q).(lastAvail := 0) == RingOf(s, q).(lastAvail := 0);
    }
  }

  lemma ClearKeepsInv(s: State)
    requires Inv(s) && s.driver.Stopped?
    ensures Inv(Step(s, Clear))
  {
    hide R.Represents;
    var s' := Step(s, Clear);
    forall q | 0 <= q < VQ_COUNT
      ensures QueueInv(s', q)
    {
      assert QueueInv(s, q);
    }
  }

  lemma ReleaseKeepsInv(s: State)
    requires Inv(s) && s.phase.Idle? && s.driver.Cleared?
    ensures Inv(Step(s, Release))
  {
    hide R.Represents, R.EmptyRing;
    var s' := Step(s, Release);
    forall q | 0 <= q < VQ_COUNT
      ensures QueueInv(s', q)
    {
      assert QueueInv(s, q);
      assert RingOf(s', q) == RingOf(s, q);
    }
  }

  /** Activation commits a cleared ring: both indices and the device's own at zero. */
  lemma ActivationIsFresh(s: State, q: nat)
    requires Inv(s) && Legal(s, Enable(q, true))
    ensures var s' := Step(s, Enable(q, true));
            && RingOf(s', q) == R.EmptyRing(VRING_NUM)
            && s'.mem[q].fifo == R.EmptyFifo
            && R.Represents(RingOf(s', q), s'.mem[q].fifo)
            && (s'.win.vq[q].enable <==> Q.Described(s.win.vq[q]))
  {
    R.EmptyRepresents(VRING_NUM);
    assert QueueInv(s, q);
  }

  lemma EnableQueue(s: State, q: nat, on: bool)
    requires Inv(s) && Legal(s, Enable(q, on))
    ensures QueueInv(Step(s, Enable(q, on)), q)
  {
    hide R.Represents, R.EmptyRing;
    var s' := Step(s, Enable(q, on));
    assert QueueInv(s, q);
    if on {
      ActivationIsFresh(s, q);
    } else {
      assert RingOf(s', q).(lastAvail := 0) == RingOf(s, q).(lastAvail := 0);
    }
  }

  lemma EnableKeepsInv(s: State, q: nat, on: bool)
    requires Inv(s) && Legal(s, Enable(q, on))
    ensures Inv(Step(s, Enable(q, on)))
  {
    hide R.Represents, R.EmptyRing;
    Q.EnableKeepsInv(s.win, q, on);
    var s' := Step(s, Enable(q, on));
    EnableQueue(s, q, on);
    forall p | 0 <= p < VQ_COUNT && p != q
      ensures QueueInv(s', p)
    {
      assert QueueInv(s, p);
      assert RingOf(s', p) == RingOf(s, p);
    }
  }

  lemma RegistersKeepInv(s: State, e: Event)
    requires Inv(s) && Legal(s, e) && (e.Program? || e.Names?)
    ensures Inv(Step(s, e))
  {
    hide R.Represents, R.EmptyRing;
    var s' := Step(s, e);
    forall q | 0 <= q < VQ_COUNT
      ensures QueueInv(s', q)
    {
      assert QueueInv(s, q);
      assert RingOf(s', q) == RingOf(s, q);
    }
  }

  lemma FireKeepsInv(s: State)
    requires Inv(s) && s.phase.Idle? && s.win.timer
    ensures Inv(Step(s, Fire))
  {
    hide QueueInv;
    var s' := Step(s, Fire);
    forall q | 0 <= q < VQ_COUNT
      ensures QueueInv(s', q)
    {
      QueueFrame(s, s', q);
    }
  }

  /** Moving on is right once the queue at hand has been emptied or given up. */
  lemma AdvanceKeepsInv(s: State)
    requires Inv(s) && s.phase.Sweeping?
    requires var q := s.phase.next;
             s.win.vq[q].enable && Consumes(q) && q in s.phase.pending ==>
               s.mem[q].rung <= s.mem[q].fifo.taken || s.mem[q].gaveUp
    ensures Inv(Advance(s))
  {
    hide R.Represents, R.EmptyRing;
    var s' := Advance(s);
    forall q | 0 <= q < VQ_COUNT
      ensures QueueInv(s', q)
    {
      assert QueueInv(s, q);
      assert RingOf(s', q) == RingOf(s, q);
    }
  }

  /** The device finds its index equal to the host's exactly when it has taken
      everything published. */
  lemma CaughtUp(s: State, q: nat)
    requires Inv(s) && q < VQ_COUNT && s.win.vq[q].enable
    ensures s.mem[q].availIdx == s.win.vq[q].lastAvail <==> s.mem[q].fifo.taken == |s.mem[q].fifo.published|
    ensures s.mem[q].fifo.taken <= |s.mem[q].fifo.published| <= s.mem[q].fifo.taken + VRING_NUM
  {
    assert QueueInv(s, q);
    var f := s.mem[q].fifo;
    R.Wrap(f.taken, |f.published|);
  }

  lemma TurnKeepsInv(s: State)
    requires Inv(s) && s.phase.Sweeping?
    ensures Inv(Turned(s))
  {
    hide R.Represents, R.EmptyRing;
    var q := s.phase.next;
    assert QueueInv(s, q);
    if Draining(s, q) {
      CaughtUp(s, q);
      if s.mem[q].availIdx != s.win.vq[q].lastAvail {
        AccessKeepsInv(s, q, R.Pop);
      } else {
        AdvanceKeepsInv(s);
      }
    } else {
      AdvanceKeepsInv(s);
    }
  }

  lemma FaultKeepsInv(s: State)
    requires Inv(s) && s.phase.Sweeping?
    ensures Inv(Step(s, Fault))
  {
    hide R.Represents, R.EmptyRing;
    var q := s.phase.next;
    var t := s.(mem := s.mem[q := s.mem[q].(gaveUp := true)]);
    forall p | 0 <= p < VQ_COUNT
      ensures QueueInv(t, p)
    {
      assert QueueInv(s, p);
      assert RingOf(t, p) == RingOf(s, p);
    }
    AdvanceKeepsInv(t);
  }

  lemma {:induction false} StepKeepsInv(s: State, e: Event)
    requires Inv(s) && Legal(s, e)
    ensures Inv(Step(s, e))
  {
    hide Q.Inv, QueueInv, R.Allowed;
    match e
    case Host(q, access) => AccessKeepsInv(s, q, access);
    case Device(q, access) => AccessKeepsInv(s, q, access);
    case Doorbell(id) => DoorbellKeepsInv(s, id);
    case Program(_, _, _, _, _, _) => RegistersKeepInv(s, e);
    case Names(_) => RegistersKeepInv(s, e);
    case Enable(q, on) => EnableKeepsInv(s, q, on);
    case Crash => PurgeKeepsInv(s, e);
    case Stop => PurgeKeepsInv(s, e);
    case Clear => ClearKeepsInv(s);
    case Release => ReleaseKeepsInv(s);
    case Fire => FireKeepsInv(s);
    case Turn => TurnKeepsInv(s);
    case Fault => FaultKeepsInv(s);
  }

  // ---- whole runs ----

  ghost predicate LegalRun(s: State, es: seq<Event>)
    requires Wired(s)
    decreases |es|
  {
    es == [] || (Legal(s, es[0]) && LegalRun(Step(s, es[0]), es[1..]))
  }

  ghost function Run(s: State, es: seq<Event>): (s': State)
    requires Wired(s) && LegalRun(s, es)
    ensures Wired(s')
    decreases |es|
  {
    if es == [] then s else Run(Step(s, es[0]), es[1..])
  }

  lemma InitialInv()
    ensures Inv(Initial())
  {
  }

  lemma {:induction false} RunKeepsInv(s: State, es: seq<Event>)
    requires Inv(s) && LegalRun(s, es)
    ensures Inv(Run(s, es))
    decreases |es|
  {
    hide QueueInv, Q.Inv;
    if es != [] {
      StepKeepsInv(s, es[0]);
      RunKeepsInv(Step(s, es[0]), es[1..]);
    }
  }

  /** No lost wakeup.  Whatever was coalesced: once queue 1, 2 or 3 is enabled and has been
      rung after its last publish, either a pass is going to look at it or the device's
      index has caught up with the host's, unless a fault made a pass give it up. */
  lemma NoLostWakeup(es: seq<Event>, q: nat)
    requires LegalRun(Initial(), es) && 1 <= q < 4
    ensures var s := Run(Initial(), es);
            && (s.win.sweep != {} <==> s.win.timer)
            && (s.win.vq[q].enable && s.mem[q].rung == |s.mem[q].fifo.published| && !s.mem[q].gaveUp ==>
                  q in s.win.sweep || BeingSwept(s, q) || s.mem[q].availIdx == s.win.vq[q].lastAvail)
  {
    InitialInv();
    RunKeepsInv(Initial(), es);
    var s := Run(Initial(), es);
    assert QueueInv(s, q);
    if s.win.vq[q].enable {
      CaughtUp(s, q);
    }
  }

  /** Only a fault in its own turn gives a queue up; without faults nothing ever is. */
  lemma {:induction false} OnlyFaultsGiveUp(s: State, es: seq<Event>, q: nat)
    requires Inv(s) && LegalRun(s, es) && q < 4 && !s.mem[q].gaveUp && forall e :: e in es ==> !e.Fault?
    ensures !Run(s, es).mem[q].gaveUp
    decreases |es|
  {
    hide QueueInv, Q.Inv;
    if es != [] {
      StepKeepsInv(s, es[0]);
      OnlyFaultsGiveUp(Step(s, es[0]), es[1..], q);
    }
  }

  /** So with no faults the wakeup is certain. */
  lemma NoFaultNoLoss(es: seq<Event>, q: nat)
    requires LegalRun(Initial(), es) && 1 <= q < 4 && forall e :: e in es ==> !e.Fault?
    ensures var s := Run(Initial(), es);
            s.win.vq[q].enable && s.mem[q].rung == |s.mem[q].fifo.published| ==>
              q in s.win.sweep || BeingSwept(s, q) || s.mem[q].availIdx == s.win.vq[q].lastAvail
  {
    InitialInv();
    OnlyFaultsGiveUp(Initial(), es, q);
    NoLostWakeup(es, q);
  }

  /** No ABA across recovery.  A disabled queue remembers no position; every activation
      commits a ring with all its indices at zero; and whatever an enabled queue hands
      the device next was published since that clearing, at exactly that turn. */
  lemma NoStaleHeads(es: seq<Event>, q: nat)
    requires LegalRun(Initial(), es) && q < VQ_COUNT
    ensures var s := Run(Initial(), es);
            && (!s.win.vq[q].enable ==> s.win.vq[q].lastAvail == 0)
            && (Legal(s, Enable(q, true)) ==>
                  RingOf(Step(s, Enable(q, true)), q) == R.EmptyRing(VRING_NUM)
                  && Step(s, Enable(q, true)).mem[q].fifo == R.EmptyFifo)
            && (s.win.vq[q].enable ==>
                  R.Observe(RingOf(s, q), R.Pop) == R.FifoObserve(s.mem[q].fifo, R.Pop)
                  && s.mem[q].fifo.taken <= |s.mem[q].fifo.published|)
  {
    hide R.Represents, R.EmptyRing;
    InitialInv();
    RunKeepsInv(Initial(), es);
    var s := Run(Initial(), es);
    assert QueueInv(s, q);
    if Legal(s, Enable(q, true)) {
      ActivationIsFresh(s, q);
    }
    if s.win.vq[q].enable {
      R.StepRefines(RingOf(s, q), s.mem[q].fifo, R.Pop);
      CaughtUp(s, q);
    }
  }

  /** A crash, like a stop, leaves no queue enabled, no position remembered and nobody to
      come, and the host's memory as it was. */
  lemma PurgeLeavesNothing(s: State, e: Event)
    requires Inv(s) && s.phase.Idle? && (e.Stop? || e.Crash?)
    ensures var s' := Step(s, e);
            && s'.mem == s.mem && s'.win.sweep == {} && !s'.win.timer
            && forall q :: 0 <= q < 4 ==> !s'.win.vq[q].enable && s'.win.vq[q].lastAvail == 0
  {
    hide QueueInv;
    Q.PurgeExactly(s.win);
  }

  /** Why the stop matters: clearing the rings under a device that was not purged
      leaves it a clean queue exactly when it had not moved.  Otherwise it goes on to
      consume a head nobody published. */
  lemma ClearWithoutStop(s: State, q: nat)
    requires Inv(s) && q < VQ_COUNT && s.win.vq[q].enable
    ensures var t := s.(mem := [Empty(), Empty(), Empty(), Empty()]);
            && (R.Represents(RingOf(t, q), R.EmptyFifo) <==> s.win.vq[q].lastAvail == 0)
            && (s.win.vq[q].lastAvail != 0 ==> R.Observe(RingOf(t, q), R.Pop) == R.Popped(Some(0)))
            && (s.win.vq[q].lastAvail == 0 ==> R.Observe(RingOf(t, q), R.Pop) == R.Popped(None))
  {
    var t := s.(mem := [Empty(), Empty(), Empty(), Empty()]);
    assert s.win.vq[q].lastAvail < TWO16;
    if s.win.vq[q].lastAvail == 0 {
      R.EmptyRepresents(VRING_NUM);
      assert RingOf(t, q) == R.EmptyRing(VRING_NUM);
    }
  }

  // ---- the driver's restart ----

  const AVAIL_OFFSET: nat := 4096
  const USED_OFFSET: nat := 8192

  /** What the driver writes of a ring: 256 descriptors of 16 bytes, the available ring
      behind them, the used ring on the next page boundary, and the queue's own vector. */
  predicate Programmed(r: Q.Regs, q: nat, dma: u64) {
    r.num == 256 && r.desc == dma && r.avail == dma + 4096 && r.used == dma + 8192 && r.vector == q + 1
  }

  ghost predicate ActiveUpTo(s: State, n: nat)
    requires Wired(s)
  {
    forall q :: 0 <= q < VQ_COUNT ==>
      (s.win.vq[q].enable <==> q < n) && (q < n ==> q in s.win.sweep && Fresh(s, q) && s.win.vq[q].lastAvail == 0)
  }

  lemma ActivateOne(s: State, q: nat, dma: u64)
    requires Inv(s) && s.phase.Idle? && s.driver == Released(q) && q < VQ_COUNT && ActiveUpTo(s, q)
    requires 0 < dma && dma + 12288 <= TWO64
    ensures var s1 := Step(s, Program(q, VRING_NUM, dma, dma + AVAIL_OFFSET, dma + USED_OFFSET, q + 1));
            && Legal(s1, Enable(q, true))
            && var s2 := Step(s1, Enable(q, true));
            && Inv(s2) && s2.phase.Idle? && s2.driver == Activated(q) && ActiveUpTo(s2, q + 1)
            && Programmed(s2.win.vq[q], q, dma) && (forall p :: 0 <= p < q ==> s2.win.vq[p] == s.win.vq[p])
            && forall p :: 0 <= p < VQ_COUNT ==> s2.win.vq[p].notifyid == s.win.vq[p].notifyid
  {
    hide R.Represents, R.EmptyRing;
    var program := Program(q, VRING_NUM, dma, dma + AVAIL_OFFSET, dma + USED_OFFSET, q + 1);
    var s1 := Step(s, program);
    RegistersKeepInv(s, program);
    EnableKeepsInv(s1, q, true);
    ActivationIsFresh(s1, q);
    var s2 := Step(s1, Enable(q, true));
    forall p | 0 <= p < q
      ensures RingOf(s2, p) == RingOf(s, p)
    {
    }
  }

  /** A doorbell finds its queue by the name the table gave it, unless an earlier queue has
      the same one. */
  lemma NamesRoute(w: Q.Window, ids: seq<u32>)
    requires Q.Shaped(w) && |ids| == VQ_COUNT && forall p :: 0 <= p < VQ_COUNT ==> w.vq[p].notifyid == ids[p]
    ensures forall q :: 0 <= q < 4 && ids[q] !in ids[..q] ==> Q.Routes(w, ids[q], q)
  {
    forall q | 0 <= q < 4 && ids[q] !in ids[..q]
      ensures Q.Routes(w, ids[q], q)
    {
      assert forall p :: 0 <= p < q ==> ids[..q][p] == ids[p];
    }
  }

  lemma MarkedRuns(s: State)
    requires Inv(s) && 0 in s.win.sweep
    ensures s.win.timer
  {
  }

  /** The activation loop. */
  method ActivateAll(s: State, dma: seq<u64>) returns (s': State)
    requires Inv(s) && s.phase.Idle? && s.driver == Released(0) && ActiveUpTo(s, 0)
    requires |dma| == VQ_COUNT && forall q :: 0 <= q < VQ_COUNT ==> 0 < dma[q] && dma[q] + 12288 <= TWO64
    ensures Inv(s') && s'.phase.Idle? && s'.driver.Up? && s'.win.timer && ActiveUpTo(s', VQ_COUNT)
    ensures forall q :: 0 <= q < VQ_COUNT ==> Programmed(s'.win.vq[q], q, dma[q]) && s'.win.vq[q].notifyid == s.win.vq[q].notifyid
  {
    hide QueueInv, Fresh, Q.Inv, Programmed;
    s' := s;
    for q := 0 to VQ_COUNT
      invariant Inv(s') && s'.phase.Idle? && ActiveUpTo(s', q)
      invariant s'.driver == if q == VQ_COUNT then Up else Released(q)
      invariant forall p :: 0 <= p < q ==> Programmed(s'.win.vq[p], p, dma[p])
      invariant forall p :: 0 <= p < VQ_COUNT ==> s'.win.vq[p].notifyid == s.win.vq[p].notifyid
    {
      ActivateOne(s', q, dma[q]);
      s' := Step(s', Program(q, VRING_NUM, dma[q], dma[q] + AVAIL_OFFSET, dma[q] + USED_OFFSET, q + 1));
      s' := Step(s', Enable(q, true));
    }
    MarkedRuns(s');
  }

  /** A stop and a start, whatever state a crash left.  If the boot comes up, every queue
      ends up enabled over a zeroed ring and marked, so what the host published before the
      device looked is found as well; if it does not, or the firmware or its table are not
      what the driver expects (`verdict`), the start stops again and no queue is. */
  method Restart(s: State, dma: seq<u64>, ids: seq<u32>, verdict: int) returns (s': State, err: int)
    requires Inv(s) && s.phase.Idle? && |ids| == VQ_COUNT
    requires |dma| == VQ_COUNT && forall q :: 0 <= q < VQ_COUNT ==> 0 < dma[q] && dma[q] + 12288 <= TWO64
    ensures Inv(s') && s'.phase.Idle? && err == verdict
    ensures err == OK ==> s'.driver.Up? && s'.win.timer && ActiveUpTo(s', VQ_COUNT)
    ensures err == OK ==> forall q :: 0 <= q < 4 ==> Programmed(s'.win.vq[q], q, dma[q])
    ensures err == OK ==> forall q :: 0 <= q < 4 && ids[q] !in ids[..q] ==> Q.Routes(s'.win, ids[q], q)
    ensures err != OK ==> s'.driver.Stopped? && !s'.win.timer && forall q :: 0 <= q < VQ_COUNT ==> !s'.win.vq[q].enable
  {
    hide QueueInv, Fresh, Q.Inv, Programmed;
    PurgeKeepsInv(s, Stop);
    s' := Step(s, Stop);
    ClearKeepsInv(s');
    s' := Step(s', Clear);
    RegistersKeepInv(s', Names(ids));
    s' := Step(s', Names(ids));
    ReleaseKeepsInv(s');
    s' := Step(s', Release);
    err := verdict;
    if err != OK {
      PurgeKeepsInv(s', Stop);
      PurgeLeavesNothing(s', Stop);
      s' := Step(s', Stop);
      return;
    }
    s' := ActivateAll(s', dma);
    NamesRoute(s'.win, ids);
  }

  // ---- the pass ends ----

  function Behind(s: State, q: nat): nat
    requires Wired(s) && q < VQ_COUNT
  {
    var a, b := s.mem[q].availIdx, s.win.vq[q].lastAvail;
    if b <= a then a - b else a + TWO16 - b
  }

  lemma PopApproaches(s: State, q: nat)
    requires Inv(s) && q < VQ_COUNT && s.win.vq[q].enable && s.mem[q].availIdx != s.win.vq[q].lastAvail
    ensures Behind(Access(s, q, R.Pop), q) < Behind(s, q) && Access(s, q, R.Pop).phase == s.phase
  {
    hide R.Represents;
    assert QueueInv(s, q);
    IndexRange(RingOf(s, q), s.mem[q].fifo);
  }

  lemma IndexRange(r: R.Ring, f: R.Fifo)
    requires R.Represents(r, f)
    ensures r.lastAvail < TWO16 && r.availIdx < TWO16
  {
  }

  /** Against ring memory that holds still, every turn brings the device's index
      closer to the host's, or moves on to the next queue. */
  lemma TurnProgress(s: State)
    requires Inv(s) && s.phase.Sweeping?
    ensures s.phase.next < VQ_COUNT
    ensures var s' := Turned(s);
            && (s'.phase == s.phase ==> Behind(s', s.phase.next) < Behind(s, s.phase.next))
            && (s'.phase == s.phase || s'.phase.Idle? || s'.phase == Sweeping(s.phase.pending, s.phase.next + 1))
  {
    hide QueueInv, Access, Behind;
    var q := s.phase.next;
    if Draining(s, q) && s.mem[q].availIdx != s.win.vq[q].lastAvail {
      PopApproaches(s, q);
    }
  }

  /** A turn consumes nothing the host lent on queue 0: those buffers are to answer in. */
  lemma LentStays(s: State)
    requires Inv(s) && s.phase.Sweeping?
    ensures Turned(s).win.vq[0] == s.win.vq[0] && Turned(s).mem[0] == s.mem[0]
  {
    hide QueueInv;
  }

  /** A pass left alone ends; queues 1, 2 and 3 are then caught up if they were enabled and
      marked, and queue 0 is as it was. */
  method Pass(s: State) returns (s': State)
    requires Inv(s) && s.phase.Sweeping? && s.phase.next == 0
    ensures Inv(s') && s'.phase.Idle?
    ensures forall q :: 1 <= q < 4 && q in s.phase.pending && s.win.vq[q].enable ==>
              s'.win.vq[q].enable && s'.mem[q].availIdx == s'.win.vq[q].lastAvail
    ensures s'.win.vq[0] == s.win.vq[0] && s'.mem[0] == s.mem[0]
    ensures forall q :: 0 <= q < VQ_COUNT ==> s'.mem[q].fifo.published == s.mem[q].fifo.published
  {
    hide QueueInv, Turned, Step;
    s' := s;
    while s'.phase.Sweeping?
      invariant Inv(s')
      invariant s'.phase.Sweeping? ==> s'.phase.pending == s.phase.pending
      invariant Passed(s, s') && s'.win.vq[0] == s.win.vq[0] && s'.mem[0] == s.mem[0]
      decreases if s'.phase.Sweeping? then VQ_COUNT - s'.phase.next else 0,
                if s'.phase.Sweeping? then Behind(s', s'.phase.next) else 0
    {
      TurnKeepsInv(s');
      TurnProgress(s');
      TurnPasses(s, s');
      LentStays(s');
      s' := Turned(s');
    }
  }

  ghost predicate Passed(s: State, t: State)
    requires Wired(s) && s.phase.Sweeping? && Wired(t)
  {
    forall q :: 0 <= q < VQ_COUNT ==>
      && t.win.vq[q].enable == s.win.vq[q].enable
      && t.mem[q].fifo.published == s.mem[q].fifo.published
      && (q in s.phase.pending && Consumes(q) && s.win.vq[q].enable && (t.phase.Idle? || q < t.phase.next) ==>
            t.mem[q].availIdx == t.win.vq[q].lastAvail)
  }

  lemma TurnPasses(s: State, t: State)
    requires Wired(s) && s.phase.Sweeping? && Inv(t) && t.phase.Sweeping? && t.phase.pending == s.phase.pending
    requires Passed(s, t)
    ensures Passed(s, Turned(t))
  {
  }

  /** Ringing an enabled queue marks it, starts the timer, and the timer's pass will come to
      it. */
  lemma RungIsMarked(s: State, q: nat, id: u32)
    requires Inv(s) && s.phase.Idle? && q < 4 && s.win.vq[q].enable && Q.Routes(s.win, id, q)
    ensures Legal(s, Doorbell(id))
    ensures var s1 := Step(s, Doorbell(id));
            && s1.mem[q].rung == |s.mem[q].fifo.published| && !s1.mem[q].gaveUp && q in s1.win.sweep && s1.win.timer && Legal(s1, Fire)
            && var s2 := Step(s1, Fire);
            && s2.phase.Sweeping? && s2.phase.next == 0 && q in s2.phase.pending && !s2.win.timer
            && s2.win.vq == s.win.vq && s2.mem[q].fifo == s.mem[q].fifo
  {
    hide QueueInv;
    Q.RouteUnique(s.win, id, q);
  }

  /** One doorbell is enough: whatever the host published on queue 1, 2 or 3 until it rang is
      taken by the pass the doorbell causes. */
  method RingAndServe(s: State, q: nat, id: u32) returns (s': State)
    requires Inv(s) && s.phase.Idle? && 1 <= q < 4 && s.win.vq[q].enable && Q.Routes(s.win, id, q)
    ensures Inv(s') && s'.phase.Idle? && s'.win.vq[q].enable
    ensures s'.mem[q].fifo.published == s.mem[q].fifo.published && s'.mem[q].fifo.taken == |s.mem[q].fifo.published|
  {
    hide QueueInv;
    RungIsMarked(s, q, id);
    DoorbellKeepsInv(s, id);
    s' := Step(s, Doorbell(id));
    FireKeepsInv(s');
    s' := Step(s', Fire);
    s' := Pass(s');
    CaughtUp(s', q);
  }

  /** Outside its own turn the device takes heads from queue 0 alone, to answer in. */
  lemma DeviceMayTake(s: State, q: nat)
    requires Inv(s) && q < 4
    ensures Legal(s, Device(q, R.Pop)) <==> s.phase.Sweeping? && q == 0 && s.win.vq[0].enable
  {
  }

  /** Once the driver is up the host may publish on any queue until 256 heads are out. */
  lemma HostMayPublish(s: State, q: nat, head: nat)
    requires Inv(s) && s.driver.Up? && q < 4 && s.mem[q].fifo.staged.None?
    ensures Legal(s, Host(q, R.Stage(head))) <==> |s.mem[q].fifo.published| - s.mem[q].fifo.reclaimed < 256
    ensures Legal(s, Host(q, R.Stage(head))) ==> Legal(Step(s, Host(q, R.Stage(head))), Host(q, R.Commit))
  {
  }
}
