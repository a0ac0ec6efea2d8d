/** The trace ring as bytes of device memory.

    The firmware writes words and 128-byte entries through the aperture addresses; the
    ring those bytes spell out makes exactly the step of `TraceRing.Append`. */
module TraceMemory {
  import opened Hardware
  import Device
  import TraceRing

  ghost predicate Located(mem: seq<byte>, da: u32) {
    |mem| == MEM_SIZE && 0 < da && da % 4 == 0 && da + TRACE_SIZE <= APERTURE_SIZE
  }

  function Entry(mem: seq<byte>, da: u32, slot: nat): seq<byte>
    requires |mem| == MEM_SIZE && da + TRACE_SIZE <= APERTURE_SIZE && slot < TRACE_ENTRIES
  {
    mem[Device.EntryAddr(da, slot)..Device.EntryAddr(da, slot) + TRACE_ENTRY]
  }

  /** The ring spelled out at device address `da`. */
  function View(mem: seq<byte>, da: u32): (r: TraceRing.Ring<seq<byte>>)
    requires |mem| == MEM_SIZE && da + TRACE_SIZE <= APERTURE_SIZE
    ensures TraceRing.Shaped(r)
  {
    TraceRing.Ring(seq(TRACE_ENTRIES, slot requires 0 <= slot < TRACE_ENTRIES => Entry(mem, da, slot)),
                   Device.Read32(mem, da), Device.Read32(mem, da + 4), Device.Read32(mem, da + 8))
  }

  lemma ReadBack(mem: seq<byte>, off: nat, v: u32)
    requires off % 4 == 0 && off + 4 <= |mem|
    ensures Device.Read32(Device.Write32(mem, off, v), off) == v
  {
    WordRoundTrip(v);
  }

  lemma ReadElsewhere(mem: seq<byte>, at: nat, data: seq<byte>, off: nat)
    requires off % 4 == 0 && off + 4 <= |mem| && at + |data| <= |mem|
    requires off + 4 <= at || at + |data| <= off
    ensures Device.Read32(Splice(mem, at, data), off) == Device.Read32(mem, off)
  {
    SpliceElsewhere(mem, at, data, off, off + 4);
  }

  /** Storing an entry changes that slot and none of the counters. */
  lemma StoreEntry(mem: seq<byte>, da: u32, slot: nat, entry: seq<byte>)
    requires Located(mem, da) && slot < TRACE_ENTRIES && |entry| == TRACE_ENTRY
    ensures var m := Splice(mem, Device.EntryAddr(da, slot), entry);
            View(m, da) == View(mem, da).(slots := View(mem, da).slots[slot := entry])
  {
    hide Splice, Device.Read32;
    var at := Device.EntryAddr(da, slot);
    var m := Splice(mem, at, entry);
    ReadElsewhere(mem, at, entry, da);
    ReadElsewhere(mem, at, entry, da + 4);
    ReadElsewhere(mem, at, entry, da + 8);
    forall k: nat | k < TRACE_ENTRIES && k != slot
      ensures Entry(m, da, k) == Entry(mem, da, k)
    {
      SpliceElsewhere(mem, at, entry, Device.EntryAddr(da, k), Device.EntryAddr(da, k) + TRACE_ENTRY);
    }
  }

  /** Writing a header word changes that counter and nothing else. */
  lemma StoreWord(mem: seq<byte>, da: u32, which: nat, v: u32)
    requires Located(mem, da) && (which == 0 || which == 8)
    ensures var m := Device.Write32(mem, da + which, v);
            View(m, da) == if which == 0 then View(mem, da).(head := v) else View(mem, da).(dropped := v)
  {
    hide Splice, Device.Read32, Word, Bytes32;
    var m := Device.Write32(mem, da + which, v);
    assert Device.WordAddr(da + which) == da + which;
    ReadBack(mem, da + which, v);
    ReadElsewhere(mem, da + which, Bytes32(v), da + 4);
    ReadElsewhere(mem, da + which, Bytes32(v), da + 8 - which);
    forall k: nat | k < TRACE_ENTRIES
      ensures Entry(m, da, k) == Entry(mem, da, k)
    {
      SpliceElsewhere(mem, da + which, Bytes32(v), Device.EntryAddr(da, k), Device.EntryAddr(da, k) + TRACE_ENTRY);
    }
    assert View(m, da).slots == View(mem, da).slots;
  }

  /** One line logged into device memory is one append to the ring. */
  lemma TraceIsAppend(mem: seq<byte>, da: u32, entry: seq<byte>)
    requires Located(mem, da) && |entry| == TRACE_ENTRY
    ensures View(Device.Trace(mem, da, entry), da) == TraceRing.Append(View(mem, da), entry)
  {
    hide Splice, Device.Read32, Device.Write32, TraceRing.Sub32, TraceRing.Next32;
    var head, tail := Device.Read32(mem, da), Device.Read32(mem, da + 4);
    var slot := head % TRACE_ENTRIES;
    StoreEntry(mem, da, slot, entry);
    var m1 := Splice(mem, Device.EntryAddr(da, slot), entry);
    var lost := TraceRing.Next32(Device.Read32(m1, da + 8));
    StoreWord(m1, da, 8, lost);
    var m2 := if TraceRing.Sub32(head, tail) >= TRACE_ENTRIES then Device.Write32(m1, da + 8, lost) else m1;
    StoreWord(m2, da, 0, TraceRing.Next32(head));
  }

  /** The same in bytes, as the driver reads them: counters at 0, 4 and 8, entries of 128
      bytes from 16 on, the next one in slot head mod 511, `dropped` moved when 511 were
      unread, and no other entry touched. */
  lemma LogLands(mem: seq<byte>, da: u32, entry: seq<byte>)
    requires Located(mem, da) && |entry| == 128
    ensures var m := Device.Trace(mem, da, entry);
            var head, tail, dropped := At(mem, da), At(mem, da + 4), At(mem, da + 8);
            var unread := if head >= tail then head - tail else head + 0x1_0000_0000 - tail;
            && m[da + 16 + 128 * (head % 511)..da + 16 + 128 * (head % 511) + 128] == entry
            && At(m, da) == (if head == 0xFFFF_FFFF then 0 else head + 1) && At(m, da + 4) == tail
            && At(m, da + 8) == (if unread < 511 then dropped else if dropped == 0xFFFF_FFFF then 0 else dropped + 1)
            && forall k: nat :: k < 511 && k != head % 511 ==>
                 m[da + 16 + 128 * k..da + 16 + 128 * k + 128] == mem[da + 16 + 128 * k..da + 16 + 128 * k + 128]
  {
    hide Splice, Word, Device.Trace;
    TraceIsAppend(mem, da, entry);
    var m := Device.Trace(mem, da, entry);
    ViewWords(mem, da);
    ViewWords(m, da);
    hide View;
    var slot: nat := At(mem, da) % 511;
    EntryBytes(m, da, slot);
    forall k: nat | k < 511 && k != slot
      ensures m[da + 16 + 128 * k..da + 16 + 128 * k + 128] == mem[da + 16 + 128 * k..da + 16 + 128 * k + 128]
    {
      EntryBytes(m, da, k);
      EntryBytes(mem, da, k);
    }
  }

  lemma EntryBytes(mem: seq<byte>, da: u32, k: nat)
    requires Located(mem, da) && k < 511
    ensures View(mem, da).slots[k] == mem[da + 16 + 128 * k..da + 16 + 128 * k + 128]
  {
    assert View(mem, da).slots[k] == Entry(mem, da, k);
    assert Device.EntryAddr(da, k) == da + 16 + 128 * k;
  }

  lemma ViewWords(mem: seq<byte>, da: u32)
    requires Located(mem, da)
    ensures var v := View(mem, da); v.head == At(mem, da) && v.tail == At(mem, da + 4) && v.dropped == At(mem, da + 8)
  {
  }
}
