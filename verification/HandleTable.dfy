/** The driver's handle table against the device's, across crashes and recoveries.

    Both number allocations {generation, handle}; the device starts both over at every
    boot, the driver only when its start sequence has read GENERATION again.  Replies
    still on their way, frees erased but not yet sent and frees still in the ring may
    straddle any of that. */
module HandleTable {
  import opened Hardware
  import opened Allocator

  datatype Entry = Entry(generation: u32, size: u64, node: nat, offset: u64)

  /** What the driver's table is, apart from reference counts. */
  datatype Table = Table(entries: map<u32, Entry>, generation: u32)

  /** A granted ALLOC on its way to the table, with the size its caller asked for. */
  datatype Reply = Reply(handle: u32, entry: Entry)

  /** A handle taken out of the table whose FREE has not been sent, with the generation it
      was erased under and the channel that was open then. */
  datatype Erased = Erased(handle: u32, generation: u32, channel: Option<nat>)

  // ---- the three operations ----

  function Inserted(t: Table, r: Reply): (Table, int) {
    if r.entry.generation != t.generation then (t, ESTALE)
    else if r.handle in t.entries then (t, EBUSY)
    else (t.(entries := t.entries[r.handle := r.entry]), OK)
  }

  function Removed(t: Table, generation: u32, handle: u32): (Table, int) {
    if generation != t.generation then (t, ESTALE)
    else if handle !in t.entries then (t, EINVAL)
    else (t.(entries := t.entries - {handle}), OK)
  }

  function Regenerated(t: Table, generation: u32): Table {
    if t.generation != generation then Table(map[], generation) else t
  }

  class Handles {
    var entries: map<u32, Entry>
    var generation: u32

    ghost function State(): Table
      reads this
    {
      Table(entries, generation)
    }

    method Insert(r: Reply) returns (err: int)
      modifies this`entries
      ensures (State(), err) == Inserted(old(State()), r)
      ensures old(Uniform(State())) ==> Uniform(State())
    {
      if r.entry.generation != generation {
        return ESTALE;
      }
      if r.handle in entries {
        return EBUSY;
      }
      entries := entries[r.handle := r.entry];
      return OK;
    }

    method Erase(g: u32, handle: u32) returns (err: int)
      modifies this`entries
      ensures (State(), err) == Removed(old(State()), g, handle)
      ensures old(Uniform(State())) ==> Uniform(State())
    {
      if g != generation {
        return ESTALE;
      }
      if handle !in entries {
        return EINVAL;
      }
      entries := entries - {handle};
      return OK;
    }

    /** A new generation empties the table, one entry at a time; the same one keeps it. */
    method Regenerate(current: u32)
      modifies this`entries, this`generation
      ensures State() == Regenerated(old(State()), current)
    {
      if generation != current {
        while entries != map[]
          decreases |entries|
        {
          var handle :| handle in entries;
          assert (entries - {handle}).Keys == entries.Keys - {handle};
          entries := entries - {handle};
        }
        generation := current;
      }
    }
  }

  // ---- the two sides together ----

  /** `boots` is GENERATION, which has not wrapped; `known` the copy the driver read. */
  datatype State = State(
    heap: Heap, boots: u32, known: u32, table: Table,
    channel: Option<nat>, channels: nat,
    replies: set<Reply>, erased: set<Erased>, ring: set<u32>)

  datatype Event =
    | Boot                             // the device enters running
    | ReadGeneration                   // start reads GENERATION...
    | Regenerate                       // ...and adopts it
    | Open                             // the control channel appears
    | Close                            // and disappears
    | Alloc(size: u64, want: u32)      // the device serves an ALLOC
    | Insert(reply: Reply)
    | LoseReply(reply: Reply)
    | Erase(generation: u32, handle: u32)
    | LoseFree(free: Erased)           // the FREE could not be sent
    | SendFree(free: Erased)
    | ServeFree(handle: u32)           // the device serves a FREE

  /** What each side's own program order allows. */
  predicate Possible(s: State, e: Event) {
    match e
    case Boot => s.channel.None? && s.boots + 1 < TWO32
    case Open => s.channel.None? && s.known == s.boots && s.table.generation == s.known
    case Close => s.channel.Some?
    case Insert(r) => r in s.replies
    case LoseReply(r) => r in s.replies
    case LoseFree(f) => f in s.erased
    case SendFree(f) => f in s.erased && s.channel.Some?
    case ServeFree(h) => h in s.ring
    case Alloc(_, _) => HeapShaped(s.heap)
    case _ => true
  }

  function Step(s: State, e: Event): (s': State)
    requires HeapShaped(s.heap) && Possible(s, e)
    ensures HeapShaped(s'.heap)
  {
    match e
    case Boot => s.(heap := NewSession(s.heap.failArmed), boots := s.boots + 1, ring := {})
    case ReadGeneration => s.(known := s.boots)
    case Regenerate => s.(table := Regenerated(s.table, s.known))
    case Open => s.(channel := Some(s.channels), channels := s.channels + 1)
    case Close => s.(channel := None)
    case Alloc(size, want) =>
      var (heap, answer) := AllocBlock(s.heap, s.boots, size, want);
      if answer.Refused? then s.(heap := heap)
      else s.(heap := heap,
              replies := s.replies + {Reply(answer.handle, Entry(answer.generation, size, answer.node, answer.offset))})
    case Insert(r) => s.(table := Inserted(s.table, r).0, replies := s.replies - {r})
    case LoseReply(r) => s.(replies := s.replies - {r})
    case Erase(g, h) =>
      var (table, err) := Removed(s.table, g, h);
      if err == OK then s.(table := table, erased := s.erased + {Erased(h, g, s.channel)}) else s
    case LoseFree(f) => s.(erased := s.erased - {f})
    case SendFree(f) => s.(erased := s.erased - {f}, ring := s.ring + {f.handle})
    case ServeFree(h) => s.(heap := FreeBlock(s.heap, h).0, ring := s.ring - {h})
  }

  // ---- agreement ----

  /** The device's live block of this number is the one the entry describes. */
  predicate Names(heap: Heap, h: u32, e: Entry)
    requires HeapShaped(heap)
  {
    && Live(heap, h)
    && heap.blocks[h - 1].node == e.node && heap.blocks[h - 1].offset == e.offset && e.size <= heap.blocks[h - 1].size
  }

  ghost predicate Agreement(s: State) {
    && HeapShaped(s.heap)
    && (s.table.generation == s.boots ==> forall h :: h in s.table.entries ==> Names(s.heap, h, s.table.entries[h]))
  }

  ghost predicate Uniform(t: Table) {
    forall h :: h in t.entries ==> t.entries[h].generation == t.generation
  }

  /** Nothing of the current boot still carries this number, and none will again. */
  ghost predicate Gone(s: State, h: u32) {
    && h < s.heap.nextHandle
    && (s.table.generation == s.boots ==> h !in s.table.entries)
    && forall r :: r in s.replies && r.entry.generation == s.boots ==> r.handle != h
  }

  /** What a FREE about to be sent has to meet: its number is neither held by the driver,
      nor on its way to it, nor yet to be given out. */
  ghost predicate Spent(s: State, e: Event) {
    e.SendFree? ==> Gone(s, e.free.handle)
  }

  /** A check the code could make and does not: the handle was erased under the generation
      the table is of now. */
  predicate SameGeneration(s: State, e: Event) {
    e.SendFree? ==> e.free.generation == s.table.generation
  }

  /** A stricter one: the FREE goes out on the channel its handle was erased under. */
  predicate SameChannel(s: State, e: Event) {
    e.SendFree? ==> e.free.channel == s.channel
  }

  ghost predicate ReplyInv(s: State, r: Reply)
    requires HeapShaped(s.heap)
  {
    && r.entry.generation <= s.boots
    && (r.entry.generation == s.boots ==> Names(s.heap, r.handle, r.entry))
    && (r.entry.generation == s.table.generation ==> r.handle !in s.table.entries)
  }

  ghost predicate FreeInv(s: State, f: Erased) {
    && f.generation <= s.boots
    && (f.generation == s.boots ==> Gone(s, f.handle))
    && (s.channel.Some? && f.channel == s.channel ==> f.generation == s.boots)
    && (f.channel.Some? ==> f.channel.value < s.channels)
  }

  predicate SameName(r: Reply, r': Reply) {
    r.handle == r'.handle && r.entry.generation == r'.entry.generation
  }

  ghost predicate Inv(s: State) {
    && HeapInv(s.heap) && Agreement(s) && Uniform(s.table)
    && s.table.generation <= s.known <= s.boots
    && (s.channel.Some? ==> s.table.generation == s.boots && s.channel.value < s.channels)
    && (forall r :: r in s.replies ==> ReplyInv(s, r))
    && (forall r, r' :: r in s.replies && r' in s.replies && SameName(r, r') ==> r == r')
    && (forall f :: f in s.erased ==> FreeInv(s, f))
    && (forall h :: h in s.ring ==> Gone(s, h))
  }

  // ---- every step keeps it ----

  lemma AllocEffect(heap: Heap, generation: u32, size: u64, want: u32)
    requires HeapInv(heap) && AllocBlock(heap, generation, size, want).1.Granted?
    ensures var (heap', a) := AllocBlock(heap, generation, size, want);
            && HeapInv(heap') && heap'.nextHandle == heap.nextHandle + 1 && a.handle == heap.nextHandle
            && a.generation == generation
            && Names(heap', a.handle, Entry(generation, size, a.node, a.offset))
            && forall h: u32, e :: Names(heap, h, e) ==> Names(heap', h, e)
  {
    hide Accounted, AllDisjoint, AllPlaced;
    AllocKeepsInv(heap, generation, size, want);
    RoundUpBounds(size);
  }

  lemma RefusedEffect(heap: Heap, generation: u32, size: u64, want: u32)
    requires HeapInv(heap) && AllocBlock(heap, generation, size, want).1.Refused?
    ensures var heap' := AllocBlock(heap, generation, size, want).0;
            HeapInv(heap') && heap' == heap.(failArmed := heap'.failArmed)
  {
    hide Accounted, AllDisjoint, AllPlaced;
    AllocKeepsInv(heap, generation, size, want);
  }

  lemma FreeEffect(heap: Heap, handle: u32)
    requires HeapInv(heap)
    ensures var heap' := FreeBlock(heap, handle).0;
            && HeapInv(heap') && heap'.nextHandle == heap.nextHandle && !Live(heap', handle)
            && forall h: u32, e :: h != handle ==> (Names(heap', h, e) <==> Names(heap, h, e))
  {
    hide Accounted, AllDisjoint, AllPlaced;
    FreeKeepsInv(heap, handle);
  }

  lemma GrantKeeps(s: State, heap: Heap, r: Reply)
    requires Inv(s) && HeapShaped(heap) && HeapInv(heap) && heap.nextHandle == s.heap.nextHandle + 1 && r.handle == s.heap.nextHandle
    requires r.entry.generation == s.boots && Names(heap, r.handle, r.entry)
    requires forall h: u32, e :: Names(s.heap, h, e) ==> Names(heap, h, e)
    requires forall h: u32, e :: Names(s.heap, h, e) ==> h < s.heap.nextHandle
    ensures Inv(s.(heap := heap, replies := s.replies + {r}))
  {
    hide HeapInv, Names;
  }

  lemma AllocKeeps(s: State, size: u64, want: u32)
    requires Inv(s)
    ensures Inv(Step(s, Alloc(size, want)))
  {
    hide HeapInv, AllocBlock, Gone, ReplyInv, FreeInv, Uniform;
    var (heap, a) := AllocBlock(s.heap, s.boots, size, want);
    if a.Granted? {
      AllocEffect(s.heap, s.boots, size, want);
      GrantKeeps(s, heap, Reply(a.handle, Entry(s.boots, size, a.node, a.offset)));
    } else {
      RefusedEffect(s.heap, s.boots, size, want);
      ArmingKeeps(s, heap);
    }
  }

  lemma ArmingKeeps(s: State, heap: Heap)
    requires Inv(s) && HeapInv(heap) && heap == s.heap.(failArmed := heap.failArmed)
    ensures Inv(s.(heap := heap))
  {
    hide HeapInv;
    assert forall h: u32, e :: Names(s.heap, h, e) ==> Names(heap, h, e);
  }

  lemma BootKeeps(s: State)
    requires Inv(s) && Possible(s, Boot)
    ensures Inv(Step(s, Boot))
  {
    hide HeapInv;
    NewSessionInv(s.heap.failArmed);
  }

  lemma TableKeeps(s: State, e: Event)
    requires Inv(s) && Possible(s, e) && (e.Regenerate? || e.Insert? || e.Erase?)
    ensures Inv(Step(s, e))
  {
    hide HeapInv;
  }

  lemma ChannelKeeps(s: State, e: Event)
    requires Inv(s) && Possible(s, e)
    requires e.ReadGeneration? || e.Open? || e.Close? || e.LoseReply? || e.LoseFree?
    ensures Inv(Step(s, e))
  {
    hide HeapInv, Names;
  }

  /** Sending a FREE is right exactly when its number is spent, whatever became of the
      channel since. */
  lemma SendExactly(s: State, f: Erased)
    requires Inv(s) && Possible(s, SendFree(f))
    ensures Inv(Step(s, SendFree(f))) <==> Gone(s, f.handle)
  {
    hide HeapInv, Names;
    var s' := Step(s, SendFree(f));
    assert Gone(s', f.handle) <==> Gone(s, f.handle);
    assert f.handle in s'.ring;
  }

  /** Erased under the generation the table is of now, it is; and that is so on the channel
      it was erased under. */
  lemma SameGenerationSuffices(s: State, f: Erased)
    requires Inv(s) && Possible(s, SendFree(f))
    ensures SameGeneration(s, SendFree(f)) ==> Spent(s, SendFree(f))
    ensures SameChannel(s, SendFree(f)) ==> SameGeneration(s, SendFree(f))
  {
    assert FreeInv(s, f);
  }

  lemma ServeFreeKeeps(s: State, h: u32)
    requires Inv(s) && h in s.ring
    ensures Inv(Step(s, ServeFree(h)))
  {
    FreeEffect(s.heap, h);
    hide HeapInv, FreeBlock, Names;
  }

  /** Of everything that can happen, only a FREE sent for a number that is not spent breaks
      the agreement. */
  lemma {:induction false} StepExactly(s: State, e: Event)
    requires Inv(s) && Possible(s, e)
    ensures Inv(Step(s, e)) <==> Spent(s, e)
  {
    hide HeapInv, Agreement, Uniform, ReplyInv, FreeInv, Gone;
    match e
    case SendFree(f) => SendExactly(s, f);
    case Alloc(size, want) => AllocKeeps(s, size, want);
    case Boot => BootKeeps(s);
    case ServeFree(h) => ServeFreeKeeps(s, h);
    case Regenerate => TableKeeps(s, e);
    case Insert(_) => TableKeeps(s, e);
    case Erase(_, _) => TableKeeps(s, e);
    case _ => ChannelKeeps(s, e);
  }

  // ---- whole runs ----

  ghost predicate LegalRun(s: State, es: seq<Event>)
    requires HeapShaped(s.heap)
    decreases |es|
  {
    es == [] || (Possible(s, es[0]) && Spent(s, es[0]) && LegalRun(Step(s, es[0]), es[1..]))
  }

  ghost function Run(s: State, es: seq<Event>): (s': State)
    requires HeapShaped(s.heap) && LegalRun(s, es)
    ensures HeapShaped(s'.heap)
    decreases |es|
  {
    if es == [] then s else Run(Step(s, es[0]), es[1..])
  }

  function Initial(): State {
    State(NewSession(false), 0, 0, Table(map[], 0), None, 0, {}, {}, {})
  }

  lemma {:induction false} RunKeepsInv(s: State, es: seq<Event>)
    requires Inv(s) && LegalRun(s, es)
    ensures Inv(Run(s, es))
    decreases |es|
  {
    hide HeapInv, Gone, ReplyInv, FreeInv, Uniform, SameName;
    if es != [] {
      StepExactly(s, es[0]);
      RunKeepsInv(Step(s, es[0]), es[1..]);
    }
  }

  lemma InitialInv()
    ensures Inv(Initial())
  {
    NewSessionInv(false);
  }

  /** Across any number of crashes and recoveries: while the driver's generation is the
      device's, every entry of its table names a live block of the device, same node,
      same offset, at least that size; and all entries are of the table's generation. */
  lemma AgreementThroughout(es: seq<Event>)
    requires LegalRun(Initial(), es)
    ensures var s := Run(Initial(), es);
            && (s.table.generation == s.boots ==>
                  forall h :: h in s.table.entries ==>
                    && Live(s.heap, h)
                    && s.heap.blocks[h - 1].node == s.table.entries[h].node
                    && s.heap.blocks[h - 1].offset == s.table.entries[h].offset
                    && s.table.entries[h].size <= s.heap.blocks[h - 1].size)
            && (forall h :: h in s.table.entries ==> s.table.entries[h].generation == s.table.generation)
            && (s.channel.Some? ==> s.table.generation == s.boots)
  {
    InitialInv();
    RunKeepsInv(Initial(), es);
  }

  /** An insert never meets another entry: -EBUSY is unreachable, only -ESTALE is not. */
  lemma InsertNeverBusy(s: State, r: Reply)
    requires Inv(s) && r in s.replies
    ensures Inserted(s.table, r).1 == if r.entry.generation == s.table.generation then OK else ESTALE
  {
  }

  /** Erasing undoes an insert and inserting again undoes the erase, whatever else the
      table holds; each answers 0 exactly when it changes it. */
  lemma InsertEraseRoundTrip(t: Table, r: Reply)
    requires Uniform(t)
    ensures var (t', err) := Inserted(t, r);
            && Uniform(t') && (err == OK <==> t' != t)
            && (err == OK ==> Removed(t', t.generation, r.handle) == (t, OK))
    ensures var (t', err) := Removed(t, t.generation, r.handle);
            && Uniform(t') && (err == OK <==> t' != t)
            && (err == OK ==> Inserted(t', Reply(r.handle, t.entries[r.handle])) == (t, OK))
  {
    assert r.handle !in t.entries ==> t.entries[r.handle := r.entry] - {r.handle} == t.entries;
    if r.handle in t.entries {
      assert (t.entries - {r.handle})[r.handle := t.entries[r.handle]] == t.entries;
    }
  }

  /** Nothing on its way arrives twice: a reply is inserted or lost once, a FREE sent or lost
      once and served once. */
  lemma EachOnce(s: State, e: Event)
    requires Inv(s) && Possible(s, e)
    ensures e.Insert? || e.LoseReply? ==> e.reply in s.replies && e.reply !in Step(s, e).replies
    ensures e.SendFree? || e.LoseFree? ==> e.free in s.erased && e.free !in Step(s, e).erased
    ensures e.ServeFree? ==> e.handle in s.ring && e.handle !in Step(s, e).ring
  {
  }

  /** The errnos, and what each answer does to every number: a stale generation is told
      apart, -116, from a number already there, -16, or not there, -22. */
  lemma TableAnswers(t: Table, r: Reply, generation: u32, handle: u32)
    ensures var (t', err) := Inserted(t, r);
            && err == (if r.entry.generation != t.generation then -116 else if r.handle in t.entries then -16 else 0)
            && t'.generation == t.generation
            && forall k: u32 :: (k in t'.entries <==> k in t.entries || (err == 0 && k == r.handle))
                 && (k in t'.entries ==> t'.entries[k] == if err == 0 && k == r.handle then r.entry else t.entries[k])
    ensures var (t', err) := Removed(t, generation, handle);
            && err == (if generation != t.generation then -116 else if handle !in t.entries then -22 else 0)
            && t'.generation == t.generation
            && forall k: u32 :: (k in t'.entries <==> k in t.entries && !(err == 0 && k == handle))
                 && (k in t'.entries ==> t'.entries[k] == t.entries[k])
  {
  }

  // ---- why the channel matters ----

  /** A FREE the device serves keeps the agreement exactly when its number is not one
      the driver currently holds. */
  lemma FreeExactly(s: State, h: u32)
    requires Inv(s) && s.table.generation == s.boots
    ensures Agreement(s.(heap := FreeBlock(s.heap, h).0)) <==> h !in s.table.entries
  {
    FreeEffect(s.heap, h);
    var s' := s.(heap := FreeBlock(s.heap, h).0);
    if h in s.table.entries {
      assert !Names(s'.heap, h, s'.table.entries[h]);
    }
  }

  /** The code sends it without looking: a handle erased before a recovery is freed after
      it, and if the number has been given out again the driver is left holding a dead
      block. */
  lemma LateFreeBreaks(s: State, f: Erased)
    requires Inv(s) && f in s.erased && s.channel.Some? && f.handle in s.table.entries
    ensures Possible(s, SendFree(f)) && !Spent(s, SendFree(f)) && !SameGeneration(s, SendFree(f))
    ensures var s1 := Step(s, SendFree(f));
            && Possible(s1, ServeFree(f.handle))
            && !Agreement(Step(s1, ServeFree(f.handle)))
  {
    var s1 := Step(s, SendFree(f));
    FreeEffect(s1.heap, f.handle);
    var s2 := Step(s1, ServeFree(f.handle));
    assert !Names(s2.heap, f.handle, s2.table.entries[f.handle]);
  }

  ghost predicate Reaches(s: State, t: State)
    requires HeapShaped(s.heap)
  {
    exists es :: LegalRun(s, es) && Run(s, es) == t
  }

  lemma {:induction false} RunExtends(s: State, es: seq<Event>, e: Event)
    requires HeapShaped(s.heap) && LegalRun(s, es)
    requires Possible(Run(s, es), e) && Spent(Run(s, es), e)
    ensures LegalRun(s, es + [e]) && Run(s, es + [e]) == Step(Run(s, es), e)
    decreases |es|
  {
    hide Possible, Spent, Step;
    if es == [] {
      assert [e][1..] == [];
    } else {
      RunExtends(Step(s, es[0]), es[1..], e);
      assert (es + [e])[1..] == es[1..] + [e];
    }
  }

  lemma Then(s: State, t: State, e: Event) returns (t': State)
    requires Inv(s) && Inv(t) && Reaches(s, t) && Possible(t, e) && Spent(t, e)
    ensures t' == Step(t, e) && Inv(t') && Reaches(s, t')
  {
    hide Possible, Spent, Step, HeapInv, Gone, ReplyInv, FreeInv, Uniform;
    t' := Step(t, e);
    StepExactly(t, e);
    var es :| LegalRun(s, es) && Run(s, es) == t;
    RunExtends(s, es, e);
  }

  lemma FirstGrant(failArmed: bool, generation: u32)
    ensures !failArmed ==>
              var (heap, answer) := AllocBlock(NewSession(failArmed), generation, 256, 0);
              answer == Granted(1, 0, generation, NODE0_BASE) && !heap.failArmed
  {
    assert RoundUp(256) == 256;
    assert NodeFree(NewSession(failArmed), 0) == NODE0_END - NODE0_BASE;
    assert PickNode(NewSession(failArmed), 0, RoundUp(256)) == Some(0);
  }

  /** One recovery, up to a first allocation in the driver's table: handle 1 again. */
  lemma Recovers(s0: State, s: State) returns (t: State)
    requires Inv(s0) && Inv(s) && Reaches(s0, s)
    requires s.channel.None? && s.boots + 1 < TWO32 && !s.heap.failArmed
    ensures Inv(t) && Reaches(s0, t)
    ensures t.channel == Some(s.channels) && t.channels == s.channels + 1 && t.boots == s.boots + 1
    ensures t.erased == s.erased && 1 in t.table.entries && t.table.generation == t.boots && !t.heap.failArmed
  {
    hide Inv, AllocBlock, NewSession;
    FirstGrant(s.heap.failArmed, s.boots + 1);
    OldGeneration(s);
    t := Then(s0, s, Boot);
    t := Then(s0, t, ReadGeneration);
    t := Then(s0, t, Regenerate);
    t := Then(s0, t, Open);
    Shape(t);
    t := Then(s0, t, Alloc(256, 0));
    var r := Reply(1, Entry(t.boots, 256, 0, NODE0_BASE));
    InsertNeverBusy(t, r);
    t := Then(s0, t, Insert(r));
    Shape(t);
  }

  lemma OldGeneration(s: State)
    requires Inv(s)
    ensures s.table.generation <= s.boots
  {
  }

  lemma Shape(s: State)
    requires Inv(s)
    ensures HeapShaped(s.heap)
  {
  }

  /** The situation above, two boots in. */
  lemma LateFreeArises() returns (s: State, f: Erased)
    ensures Inv(Initial()) && Reaches(Initial(), s)
    ensures Inv(s) && f in s.erased && s.channel.Some? && f.handle in s.table.entries
  {
    hide Inv;
    InitialInv();
    assert LegalRun(Initial(), []) && Run(Initial(), []) == Initial();
    s := Recovers(Initial(), Initial());
    f := Erased(1, s.boots, s.channel);
    s := Then(Initial(), s, Erase(s.boots, 1));
    s := Then(Initial(), s, Close);
    s := Recovers(Initial(), s);
  }
}
