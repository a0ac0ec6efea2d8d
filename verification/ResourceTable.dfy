/** The resource table: how the firmware generator writes it, and the two walks, the
    device's and the driver's, that must read the same notifyids out of it. */
module ResourceTable {
  import opened Hardware

  /** The table as one walk sees it: its bytes, and the words the bus refuses. */
  datatype Table = Table(bytes: seq<byte>, faults: set<nat>)

  const RSC_CARVEOUT: nat := 0
  const RSC_VDEV: nat := 3
  const OFF_ENTRIES: nat := 16
  const OFF_BODY: nat := 4
  const OFF_STATUS: nat := 20
  const OFF_VRING: nat := 24
  const VRING_STRIDE: nat := 20
  const VRING_NOTIFYID: nat := 12

  /** Queue q of the walk's result, or no name at all. */
  function Padded(ids: seq<nat>): (r: seq<nat>)
    ensures |r| == VQ_COUNT
    ensures forall q :: 0 <= q < VQ_COUNT ==> r[q] == if q < |ids| then ids[q] else NOTIFYID_NONE
  {
    seq(VQ_COUNT, q requires 0 <= q < VQ_COUNT => if q < |ids| then ids[q] else NOTIFYID_NONE)
  }

  // ---- the device's walk ----

  function Add32(a: u32, b: u32): u32 {
    if a + b >= TWO32 then a + b - TWO32 else a + b
  }

  function Read32(t: Table, off: nat): Option<u32> {
    if off + 4 > |t.bytes| || off in t.faults then None else Some(At(t.bytes, off))
  }

  /** The notifyids found up to the first word that cannot be read. */
  datatype Found = Found(ids: seq<nat>, stopped: bool)

  function RingOffset(body: u32, j: nat): u32
    requires j < 256
  {
    Add32(body, OFF_VRING + j * VRING_STRIDE + VRING_NOTIFYID)
  }

  function Rings(t: Table, body: u32, j: nat, n: nat): Found
    requires n < 256
    decreases n - j
  {
    if j >= n then Found([], false)
    else if Read32(t, RingOffset(body, j)).None? then Found([], true)
    else
      var rest := Rings(t, body, j + 1, n);
      Found([Read32(t, RingOffset(body, j)).value as nat] + rest.ids, rest.stopped)
  }

  /** status and num_of_vrings are two bytes of one word. */
  function CountOf(packed: u32): (n: nat)
    ensures n < 256
  {
    packed / 0x100 % 0x100
  }

  function Scan(t: Table, i: nat, num: nat): Found
    decreases num - i
  {
    if i >= num then Found([], false)
    else if Read32(t, OFF_ENTRIES + 4 * i).None? then Found([], true)
    else
      var entry := Read32(t, OFF_ENTRIES + 4 * i).value;
      if Read32(t, entry).None? then Found([], true)
      else if Read32(t, entry).value != RSC_VDEV then Scan(t, i + 1, num)
      else
        var body := Add32(entry, OFF_BODY);
        if Read32(t, Add32(body, OFF_STATUS)).None? then Found([], true)
        else Joined(Rings(t, body, 0, CountOf(Read32(t, Add32(body, OFF_STATUS)).value)), Scan(t, i + 1, num))
  }

  function Joined(a: Found, b: Found): Found {
    if a.stopped then a else Found(a.ids + b.ids, b.stopped)
  }

  lemma PaddedMore(got: seq<nat>, id: nat)
    requires |got| < VQ_COUNT
    ensures Padded(got + [id]) == Padded(got)[|got| := id]
  {
  }

  lemma PaddedPrefix(got: seq<nat>, goal: seq<nat>)
    requires got <= goal && (|got| == VQ_COUNT || got == goal)
    ensures Padded(got) == Padded(goal)
  {
  }

  /** The rings of one vdev, appended to what was found so far: all of them, unless a
      word cannot be read or the fourth queue is reached. */
  method ScanRings(t: Table, body: u32, n: nat, notifyid: array<nat>, from: nat, ghost before: seq<nat>)
    returns (q: nat, ok: bool, ghost got: seq<nat>)
    requires notifyid.Length == VQ_COUNT && n < 256
    requires from == |before| <= VQ_COUNT && notifyid[..] == Padded(before)
    modifies notifyid
    ensures q == |got| <= VQ_COUNT && notifyid[..] == Padded(got)
    ensures got <= before + Rings(t, body, 0, n).ids
    ensures q < VQ_COUNT || !ok ==> got == before + Rings(t, body, 0, n).ids && ok == !Rings(t, body, 0, n).stopped
  {
    hide Padded, Read32, RingOffset;
    q, got := from, before;
    ghost var goal := Rings(t, body, 0, n);
    var j: nat := 0;
    while j < n && q < VQ_COUNT
      invariant j <= n && q == |got| <= VQ_COUNT && notifyid[..] == Padded(got)
      invariant before + goal.ids == got + Rings(t, body, j, n).ids && goal.stopped == Rings(t, body, j, n).stopped
    {
      var id := Read32(t, RingOffset(body, j));
      if id.None? {
        return q, false, got;
      }
      ConcatAssociates(got, [id.value as nat], Rings(t, body, j + 1, n).ids);
      PaddedMore(got, id.value);
      notifyid[q] := id.value;
      got := got + [id.value as nat];
      j, q := j + 1, q + 1;
    }
    ok := true;
  }

  /** The loop: it gives up at the first unreadable word, and takes no more than four. */
  method ScanVdevs(t: Table, num: nat, notifyid: array<nat>)
    requires notifyid.Length == VQ_COUNT
    modifies notifyid
    ensures notifyid[..] == Padded(Scan(t, 0, num).ids)
  {
    hide Read32, Rings;
    for k := 0 to VQ_COUNT
      invariant forall q :: 0 <= q < k ==> notifyid[q] == NOTIFYID_NONE
    {
      notifyid[k] := NOTIFYID_NONE;
    }
    assert notifyid[..] == Padded([]);
    hide Padded;
    var q: nat, i: nat := 0, 0;
    ghost var goal, got: seq<nat> := Scan(t, 0, num).ids, [];
    while i < num && q < VQ_COUNT
      invariant |got| == q <= VQ_COUNT && notifyid[..] == Padded(got)
      invariant q < VQ_COUNT ==> goal == got + Scan(t, i, num).ids
      invariant got <= goal
    {
      var entry := Read32(t, OFF_ENTRIES + 4 * i);
      if entry.None? {
        return;
      }
      var kind := Read32(t, entry.value);
      if kind.None? {
        return;
      }
      if kind.value == RSC_VDEV {
        var body := Add32(entry.value, OFF_BODY);
        var packed := Read32(t, Add32(body, OFF_STATUS));
        if packed.None? {
          return;
        }
        ghost var rings, rest := Rings(t, body, 0, CountOf(packed.value)), Scan(t, i + 1, num).ids;
        ConcatAssociates(got, rings.ids, rest);
        var ok;
        q, ok, got := ScanRings(t, body, CountOf(packed.value), notifyid, q, got);
        if !ok {
          return;
        }
      }
      i := i + 1;
    }
    PaddedPrefix(got, goal);
  }

  // ---- the driver's walk ----

  function Rings64(b: seq<byte>, entry: nat): nat
    requires entry + OFF_BODY + OFF_VRING <= |b|
  {
    b[entry + OFF_BODY + OFF_STATUS + 1] as nat
  }

  function RingAt(entry: nat, j: nat): nat {
    entry + OFF_BODY + OFF_VRING + j * VRING_STRIDE + VRING_NOTIFYID
  }

  /** An entry whose every word lies in the table. */
  predicate EntryFits(b: seq<byte>, entry: nat) {
    && entry + 4 <= |b|
    && (At(b, entry) == RSC_VDEV ==>
          entry + OFF_BODY + OFF_VRING <= |b|
          && entry + OFF_BODY + OFF_VRING + Rings64(b, entry) * VRING_STRIDE <= |b|)
  }

  predicate WellFormed(b: seq<byte>) {
    && OFF_ENTRIES <= |b| < TWO32
    && OFF_ENTRIES + 4 * At(b, 4) <= |b|
    && forall i {:trigger EntryAt(b, i)} :: 0 <= i < At(b, 4) ==> EntryFits(b, EntryAt(b, i))
  }

  function EntryAt(b: seq<byte>, i: nat): u32
    requires OFF_ENTRIES + 4 * i + 4 <= |b|
  {
    At(b, OFF_ENTRIES + 4 * i)
  }

  function EntryIds(b: seq<byte>, entry: nat, j: nat): seq<nat>
    requires EntryFits(b, entry) && At(b, entry) == RSC_VDEV
    decreases Rings64(b, entry) - j
  {
    if j >= Rings64(b, entry) then []
    else
      Strided(j, Rings64(b, entry));
      [At(b, RingAt(entry, j)) as nat] + EntryIds(b, entry, j + 1)
  }

  lemma Strided(j: nat, n: nat)
    requires j < n
    ensures j * VRING_STRIDE + VRING_STRIDE <= n * VRING_STRIDE
  {
  }

  /** All vrings of the table, vdevs in table order and rings in vdev order. */
  function Ids(b: seq<byte>, i: nat): seq<nat>
    requires WellFormed(b)
    decreases At(b, 4) - i
  {
    if i >= At(b, 4) then []
    else (if At(b, EntryAt(b, i)) == RSC_VDEV then EntryIds(b, EntryAt(b, i), 0) else []) + Ids(b, i + 1)
  }

  /** What the driver's array holds when `got` has been assigned over `was`. */
  ghost predicate Assigned(now: seq<nat>, was: seq<nat>, got: seq<nat>) {
    && |now| == |was| == VQ_COUNT
    && forall q :: 0 <= q < VQ_COUNT ==> now[q] == if q < |got| then got[q] else was[q]
  }

  /** The inner loop, over one vdev. */
  method WalkVdev(b: seq<byte>, entry: nat, notifyid: array<nat>, from: nat, ghost was: seq<nat>, ghost before: seq<nat>)
    returns (index: nat, ok: bool, ghost got: seq<nat>)
    requires EntryFits(b, entry) && At(b, entry) == RSC_VDEV && notifyid.Length == VQ_COUNT
    requires from == |before| <= VQ_COUNT && Assigned(notifyid[..], was, before)
    modifies notifyid
    ensures index == |got| <= VQ_COUNT && Assigned(notifyid[..], was, got)
    ensures var all := before + EntryIds(b, entry, 0);
            if ok then got == all else |all| > VQ_COUNT && got == all[..VQ_COUNT]
  {
    hide At;
    index, got := from, before;
    ghost var goal := EntryIds(b, entry, 0);
    var n := Rings64(b, entry);
    var j: nat := 0;
    while j < n
      invariant j <= n && |got| == index <= VQ_COUNT && before + goal == got + EntryIds(b, entry, j)
      invariant Assigned(notifyid[..], was, got)
    {
      if index >= VQ_COUNT {
        return index, false, got;
      }
      Strided(j, n);
      var id := At(b, RingAt(entry, j));
      ConcatAssociates(got, [id as nat], EntryIds(b, entry, j + 1));
      notifyid[index] := id;
      got := got + [id as nat];
      index, j := index + 1, j + 1;
    }
    ok := true;
  }

  lemma IdsStep(b: seq<byte>, i: nat)
    requires WellFormed(b) && i < At(b, 4)
    ensures OFF_ENTRIES + 4 * i + 4 <= |b| && EntryFits(b, EntryAt(b, i)) && EntryAt(b, i) + 4 <= |b|
    ensures Ids(b, i) == if At(b, EntryAt(b, i)) == RSC_VDEV then EntryIds(b, EntryAt(b, i), 0) + Ids(b, i + 1) else Ids(b, i + 1)
  {
    assert [] + Ids(b, i + 1) == Ids(b, i + 1);
  }

  /** One turn of the outer loop. */
  method WalkEntry(b: seq<byte>, i: nat, notifyid: array<nat>, from: nat, ghost was: seq<nat>, ghost before: seq<nat>, ghost goal: seq<nat>)
    returns (index: nat, ok: bool, ghost got: seq<nat>)
    requires WellFormed(b) && i < At(b, 4) && notifyid.Length == VQ_COUNT
    requires from == |before| <= VQ_COUNT && Assigned(notifyid[..], was, before) && Splits(goal, before, Ids(b, i))
    modifies notifyid
    ensures index == |got| <= VQ_COUNT && Assigned(notifyid[..], was, got)
    ensures if ok then Splits(goal, got, Ids(b, i + 1)) else |goal| > VQ_COUNT && got == goal[..VQ_COUNT]
  {
    hide At, EntryIds, EntryFits, Assigned, Ids, Splits, WellFormed;
    IdsStep(b, i);
    var entry := EntryAt(b, i);
    index, ok, got := from, true, before;
    if At(b, entry) == RSC_VDEV {
      SplitsMore(goal, got, EntryIds(b, entry, 0), Ids(b, i + 1));
      index, ok, got := WalkVdev(b, entry, notifyid, index, was, got);
    }
  }

  /** It answers 0 only for exactly four vrings, and -EIO without a table. */
  method WalkRscTable(cached: Option<seq<byte>>, notifyid: array<nat>) returns (err: int)
    requires (cached.Some? ==> WellFormed(cached.value)) && notifyid.Length == VQ_COUNT
    modifies notifyid
    ensures cached.None? ==> err == EIO && notifyid[..] == old(notifyid[..])
    ensures cached.Some? ==>
              var ids := Ids(cached.value, 0);
              && err == (if |ids| == VQ_COUNT then OK else EINVAL)
              && Assigned(notifyid[..], old(notifyid[..]), ids[..Min(|ids|, VQ_COUNT)])
  {
    if cached.None? {
      return EIO;
    }
    var b := cached.value;
    ghost var goal, got: seq<nat>, was := Ids(b, 0), [], notifyid[..];
    var index: nat, i: nat := 0, 0;
    var num := At(b, 4);
    hide At, Assigned, Ids, Splits, WellFormed;
    AssignedNone(was);
    SplitsAll(goal);
    while i < num
      invariant |got| == index <= VQ_COUNT && Splits(goal, got, Ids(b, i))
      invariant i <= num && Assigned(notifyid[..], was, got)
    {
      var ok;
      index, ok, got := WalkEntry(b, i, notifyid, index, was, got, goal);
      if !ok {
        return EINVAL;
      }
      i := i + 1;
    }
    IdsEnd(b, i);
    SplitsDone(goal, got, Ids(b, i));
    return if index == VQ_COUNT then OK else EINVAL;
  }

  lemma IdsEnd(b: seq<byte>, i: nat)
    requires WellFormed(b) && i >= At(b, 4)
    ensures Ids(b, i) == []
  {
  }

  lemma AssignedNone(was: seq<nat>)
    requires |was| == VQ_COUNT
    ensures Assigned(was, was, [])
  {
  }

  ghost predicate Splits(goal: seq<nat>, got: seq<nat>, rest: seq<nat>) {
    goal == got + rest
  }

  lemma SplitsAll(goal: seq<nat>)
    ensures Splits(goal, [], goal)
  {
  }

  lemma SplitsDone(goal: seq<nat>, got: seq<nat>, rest: seq<nat>)
    requires Splits(goal, got, rest) && rest == [] && |got| <= VQ_COUNT
    ensures got == goal == goal[..Min(|goal|, VQ_COUNT)]
  {
  }

  lemma SplitsMore(goal: seq<nat>, got: seq<nat>, mid: seq<nat>, rest: seq<nat>)
    requires Splits(goal, got, mid + rest)
    ensures Splits(goal, got + mid, rest)
    ensures |got + mid| > VQ_COUNT ==>
              |goal| > VQ_COUNT && (got + mid)[..VQ_COUNT] == goal[..Min(|goal|, VQ_COUNT)]
  {
    ConcatAssociates(got, mid, rest);
  }

  // ---- the two agree ----

  lemma CountIsByte(b: seq<byte>)
    requires |b| == 4
    ensures CountOf(Word(b)) == b[1] as nat
  {
    assert Word(b) / 0x100 == b[1] as nat + 0x100 * b[2] as nat + 0x1_0000 * b[3] as nat;
  }

  lemma {:induction false} RingsAgree(b: seq<byte>, entry: u32, j: nat)
    requires |b| < TWO32 && EntryFits(b, entry) && At(b, entry) == RSC_VDEV
    requires Rings64(b, entry) < 256
    ensures Rings(Table(b, {}), Add32(entry, OFF_BODY), j, Rings64(b, entry)) == Found(EntryIds(b, entry, j), false)
    decreases Rings64(b, entry) - j
  {
    if j < Rings64(b, entry) {
      Strided(j, Rings64(b, entry));
      assert RingOffset(Add32(entry, OFF_BODY), j) == RingAt(entry, j);
      RingsAgree(b, entry, j + 1);
    }
  }

  lemma StatusAgrees(b: seq<byte>, entry: u32)
    requires |b| < TWO32 && EntryFits(b, entry) && At(b, entry) == RSC_VDEV
    ensures var packed := Read32(Table(b, {}), Add32(Add32(entry, OFF_BODY), OFF_STATUS));
            packed.Some? && CountOf(packed.value) == Rings64(b, entry)
  {
    var off := entry + OFF_BODY + OFF_STATUS;
    assert b[off..off + 4][1] == b[off + 1];
    CountIsByte(b[off..off + 4]);
  }

  lemma EntryReadable(b: seq<byte>, i: nat)
    requires WellFormed(b) && i < At(b, 4)
    ensures EntryFits(b, EntryAt(b, i))
    ensures Read32(Table(b, {}), OFF_ENTRIES + 4 * i) == Some(EntryAt(b, i))
    ensures Read32(Table(b, {}), EntryAt(b, i)) == Some(At(b, EntryAt(b, i)))
  {
  }

  /** On a table whose entries lie inside it, the device's checked 32-bit walk finds
      exactly what the driver's structures name. */
  lemma {:induction false} WalksAgree(b: seq<byte>, i: nat)
    requires WellFormed(b)
    ensures Scan(Table(b, {}), i, At(b, 4)) == Found(Ids(b, i), false)
    decreases At(b, 4) - i
  {
    hide At, Read32, EntryFits, CountOf, Rings64, EntryAt, Add32;
    if i < At(b, 4) {
      WalksAgree(b, i + 1);
      EntryReadable(b, i);
      var entry := EntryAt(b, i);
      if At(b, entry) == RSC_VDEV {
        StatusAgrees(b, entry);
        RingsAgree(b, entry, 0);
      }
    }
  }

  /** Any well-formed table of exactly four vrings, among whatever other entries, gives
      the device and the driver the same vector. */
  lemma SameVector(b: seq<byte>)
    requires WellFormed(b) && |Ids(b, 0)| == VQ_COUNT
    ensures Padded(Scan(Table(b, {}), 0, At(b, 4)).ids) == Ids(b, 0)
  {
    WalksAgree(b, 0);
  }
}
