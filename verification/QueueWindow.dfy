/** The device's queue registers and the deferral of doorbells: a doorbell only marks its
    queue in a bit mask and arms a timer, and the timer's callback does the work. */
module QueueWindow {
  import opened Hardware

  datatype Regs = Regs(
    enable: bool, lastAvail: u16, num: u32,
    desc: u64, avail: u64, used: u64, vector: u32, notifyid: u32)

  datatype Window = Window(vq: seq<Regs>, sweep: set<nat>, timer: bool)

  const RESET_REGS := Regs(false, 0, 0, 0, 0, 0, 0, NOTIFYID_NONE)
  const RESET_WINDOW := Window([RESET_REGS, RESET_REGS, RESET_REGS, RESET_REGS], {}, false)

  predicate Shaped(w: Window) {
    |w.vq| == VQ_COUNT
  }

  /** A disabled queue has no memory of any ring, and the timer runs exactly while
      some queue is marked. */
  ghost predicate Inv(w: Window) {
    && Shaped(w)
    && (forall q {:trigger w.vq[q]} :: 0 <= q < VQ_COUNT && !w.vq[q].enable ==> w.vq[q].lastAvail == 0)
    && (forall q :: q in w.sweep ==> q < VQ_COUNT)
    && (w.timer <==> w.sweep != {})
  }

  function Armed(w: Window, q: nat): Window {
    w.(sweep := w.sweep + {q}, timer := true)
  }

  function Forgotten(r: Regs): Regs {
    r.(enable := false, lastAvail := 0)
  }

  function Purged(w: Window): (w': Window)
    ensures |w'.vq| == |w.vq|
  {
    Window(seq(|w.vq|, i requires 0 <= i < |w.vq| => Forgotten(w.vq[i])), {}, false)
  }

  /** A complete description: what VQ_ENABLE checks before it takes effect. */
  predicate Described(r: Regs) {
    0 < r.num <= VRING_NUM && r.desc != 0 && r.avail != 0 && r.used != 0 && r.vector < MSIX_VECTORS
  }

  function EnableWrite(w: Window, q: nat, on: bool): (w': Window)
    requires Shaped(w) && q < VQ_COUNT
    ensures Shaped(w')
  {
    if !on then w.(vq := w.vq[q := Forgotten(w.vq[q])])
    else if w.vq[q].enable || !Described(w.vq[q]) then w
    else Armed(w.(vq := w.vq[q := w.vq[q].(enable := true)]), q)
  }

  /** The description of a queue is frozen while it is enabled. */
  function ProgramWrite(w: Window, q: nat, num: u32, desc: u64, avail: u64, used: u64, vector: u32): (w': Window)
    requires Shaped(w) && q < VQ_COUNT
    ensures Shaped(w')
  {
    if w.vq[q].enable then w
    else w.(vq := w.vq[q := w.vq[q].(num := num, desc := desc, avail := avail, used := used, vector := vector)])
  }

  /** The first queue that answers to this notifyid. */
  ghost predicate Routes(w: Window, id: u32, q: nat) {
    && q < |w.vq| && w.vq[q].notifyid == id
    && forall p :: 0 <= p < q ==> w.vq[p].notifyid != id
  }

  ghost predicate Unrouted(w: Window, id: u32) {
    forall p :: 0 <= p < |w.vq| ==> w.vq[p].notifyid != id
  }

  function Route(w: Window, id: u32, from: nat): (r: Option<nat>)
    requires from <= |w.vq| && forall p :: 0 <= p < from ==> w.vq[p].notifyid != id
    ensures r.Some? ==> Routes(w, id, r.value)
    ensures r.None? ==> Unrouted(w, id)
    decreases |w.vq| - from
  {
    if from == |w.vq| then None else if w.vq[from].notifyid == id then Some(from) else Route(w, id, from + 1)
  }

  function Doorbell(w: Window, id: u32): (w': Window)
    ensures w'.vq == w.vq
  {
    var r := Route(w, id, 0);
    if r.Some? && w.vq[r.value].enable then Armed(w, r.value) else w
  }

  /** The timer expires and its callback takes the mask. */
  function Fired(w: Window): Window {
    w.(sweep := {}, timer := false)
  }

  lemma RouteUnique(w: Window, id: u32, q: nat)
    requires Routes(w, id, q)
    ensures Route(w, id, 0) == Some(q)
  {
  }

  /** A doorbell marks the first queue of that name, if that one is enabled, and
      otherwise does nothing: a later queue of the same name is never reached. */
  lemma DoorbellExactly(w: Window, id: u32, q: nat)
    requires Inv(w) && q < VQ_COUNT
    ensures Inv(Doorbell(w, id))
    ensures q in Doorbell(w, id).sweep <==> q in w.sweep || (w.vq[q].enable && Routes(w, id, q))
    ensures Doorbell(w, id) != w ==> Doorbell(w, id).timer
  {
    if Routes(w, id, q) {
      RouteUnique(w, id, q);
    }
  }

  /** Purging leaves every queue disabled and at the beginning of its ring, marks
      nothing, and keeps the names. */
  lemma PurgeExactly(w: Window)
    requires Shaped(w)
    ensures Inv(Purged(w)) && Purged(w).sweep == {} && !Purged(w).timer
    ensures forall q :: 0 <= q < VQ_COUNT ==>
              !Purged(w).vq[q].enable && Purged(w).vq[q].lastAvail == 0 && Purged(w).vq[q].notifyid == w.vq[q].notifyid
  {
  }

  /** VQ_ENABLE takes effect on 1 to 256 descriptors, three addresses and one of the six
      vectors, and on nothing less. */
  lemma EnableExactly(w: Window, q: nat)
    requires Shaped(w) && q < 4
    ensures var r, w' := w.vq[q], EnableWrite(w, q, true);
            && |w.vq| == 4
            && (w'.vq[q].enable <==>
                  r.enable || (1 <= r.num <= 256 && r.desc != 0 && r.avail != 0 && r.used != 0 && r.vector < 6))
            && (q in w'.sweep <==> q in w.sweep || (w'.vq[q].enable && !r.enable))
            && w'.vq == w.vq[q := r.(enable := w'.vq[q].enable)]
  {
  }

  lemma EnableKeepsInv(w: Window, q: nat, on: bool)
    requires Inv(w) && q < VQ_COUNT
    ensures Inv(EnableWrite(w, q, on))
    ensures on && !w.vq[q].enable && EnableWrite(w, q, on).vq[q].enable ==>
              Described(w.vq[q]) && EnableWrite(w, q, on).vq[q].lastAvail == 0 && q in EnableWrite(w, q, on).sweep
  {
  }

  /** The registers, updated in place. */
  class QueueRegs {
    const vq: array<Regs>
    var sweep: set<nat>
    var timer: bool

    constructor ()
      ensures Valid() && fresh(vq) && State() == RESET_WINDOW && Inv(State())
      ensures forall q :: 0 <= q < 4 ==> vq[q] == Regs(false, 0, 0, 0, 0, 0, 0, 0xFFFF_FFFF)
    {
      vq := new Regs[VQ_COUNT](_ => RESET_REGS);
      sweep, timer := {}, false;
      new;
      assert vq[..] == RESET_WINDOW.vq;
    }

    ghost predicate Valid()
      reads this
    {
      vq.Length == VQ_COUNT
    }

    ghost function State(): (w: Window)
      reads this, vq
    {
      Window(vq[..], sweep, timer)
    }

    method Arm(q: nat)
      requires q < VQ_COUNT
      modifies this`sweep, this`timer
      ensures State() == Armed(old(State()), q)
      ensures old(Inv(State())) ==> Inv(State())
    {
      sweep := sweep + {q};
      timer := true;
    }

    method Ring(id: u32)
      requires Valid()
      modifies this`sweep, this`timer
      ensures State() == Doorbell(old(State()), id)
      ensures old(Inv(State())) ==> Inv(State())
    {
      for q := 0 to VQ_COUNT
        invariant State() == old(State())
        invariant forall p :: 0 <= p < q ==> vq[p].notifyid != id
      {
        if vq[q].notifyid == id {
          RouteUnique(State(), id, q);
          if vq[q].enable {
            Arm(q);
          }
          return;
        }
      }
    }

    method Purge()
      requires Valid()
      modifies this`sweep, this`timer, vq
      ensures State() == Purged(old(State())) && Inv(State())
    {
      PurgeExactly(State());
      sweep, timer := {}, false;
      for q := 0 to VQ_COUNT
        invariant sweep == {} && !timer
        invariant forall p :: 0 <= p < VQ_COUNT ==> vq[p] == if p < q then Forgotten(old(vq[p])) else old(vq[p])
      {
        vq[q] := vq[q].(enable := false, lastAvail := 0);
      }
      assert vq[..] == Purged(old(State())).vq;
    }

    method Enable(q: nat, on: bool)
      requires Valid() && q < VQ_COUNT
      modifies this`sweep, this`timer, vq
      ensures State() == EnableWrite(old(State()), q, on)
      ensures old(Inv(State())) ==> Inv(State())
    {
      if !on {
        vq[q] := vq[q].(enable := false, lastAvail := 0);
        return;
      }
      if vq[q].enable {
        return;
      }
      if vq[q].num == 0 || vq[q].num > VRING_NUM {
        return;
      }
      if vq[q].desc == 0 || vq[q].avail == 0 || vq[q].used == 0 {
        return;
      }
      if vq[q].vector >= MSIX_VECTORS {
        return;
      }
      vq[q] := vq[q].(enable := true);
      Arm(q);
    }
  }
}
