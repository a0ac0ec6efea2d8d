/** The firmware generator's resource table, written byte by byte into the image, and
    what the two walks make of it once notifyids have been assigned. */
module FirmwareImage {
  import opened Hardware
  import opened ResourceTable

  const ADDR_ANY: nat := 0xFFFF_FFFF
  const VRING_ALIGN: nat := 4096
  const ID_RPMSG: nat := 7
  const ID_DATA: nat := 0x4000
  const F_NS: nat := 1

  const HDR_BYTES: nat := 28
  const HEAP_BYTES: nat := 56
  const VDEV_BYTES: nat := 68
  const TABLE_BYTES: nat := 220

  // ---- the layout ----

  const VRING: seq<nat> := [ADDR_ANY, VRING_ALIGN, VRING_NUM, 0, 0]

  function VringBytes(): (b: seq<byte>)
    ensures |b| == VRING_STRIDE
  {
    Words(VRING)
  }

  function VdevHead(id: nat, features: nat): seq<nat> {
    [RSC_VDEV, id, 0, features, 0, 0]
  }

  /** status, num_of_vrings and two reserved bytes. */
  function CountBytes(): (b: seq<byte>)
    ensures |b| == 4
  {
    [0, 2, 0, 0]
  }

  /** Header, then the status byte and the ring count, then two rings. */
  function VdevBytes(id: u32, features: u32): (b: seq<byte>)
    ensures |b| == VDEV_BYTES
  {
    Words(VdevHead(id, features)) + CountBytes() + VringBytes() + VringBytes()
  }

  const HEAP_NAME: seq<byte> := [0x68, 0x65, 0x61, 0x70]

  function Zeros(n: nat): (b: seq<byte>)
    ensures |b| == n
  {
    seq(n, _ => 0)
  }

  function HeapBytes(): (b: seq<byte>)
    ensures |b| == HEAP_BYTES
  {
    Words([RSC_CARVEOUT, APERTURE_SIZE, 0, MEM_SIZE - APERTURE_SIZE, 0, 0]) + HEAP_NAME + Zeros(28)
  }

  function HdrBytes(): (b: seq<byte>)
    ensures |b| == HDR_BYTES
  {
    Words([1, 3, 0, 0, HDR_BYTES, HDR_BYTES + HEAP_BYTES, HDR_BYTES + HEAP_BYTES + VDEV_BYTES])
  }

  function TableBytes(): (b: seq<byte>)
    ensures |b| == TABLE_BYTES
  {
    HdrBytes() + HeapBytes() + VdevBytes(ID_RPMSG, F_NS) + VdevBytes(ID_DATA, 0)
  }

  // ---- writing it ----

  /** One store after another, at the running offset. */
  lemma SpliceAppend<T>(m: seq<T>, off: nat, a: seq<T>, b: seq<T>)
    requires off + |a| + |b| <= |m|
    ensures Splice(Splice(m, off, a), off + |a|, b) == Splice(m, off, a + b)
  {
    var x, y := Splice(Splice(m, off, a), off + |a|, b), Splice(m, off, a + b);
    forall i | 0 <= i < |m|
      ensures x[i] == y[i]
    {
    }
  }

  /** And one in front of what is already there. */
  lemma SplicePrepend<T>(m: seq<T>, off: nat, a: seq<T>, b: seq<T>)
    requires off + |a| + |b| <= |m|
    ensures Splice(Splice(m, off + |a|, b), off, a) == Splice(m, off, a + b)
  {
    var x, y := Splice(Splice(m, off + |a|, b), off, a), Splice(m, off, a + b);
    forall i | 0 <= i < |m|
      ensures x[i] == y[i]
    {
    }
  }

  /** The low bytes first. */
  method Put32(img: array<byte>, off: nat, v: u32)
    requires off + 4 <= img.Length
    modifies img
    ensures img[..] == Splice(old(img[..]), off, Bytes32(v))
  {
    img[off] := (v % 0x100) as byte;
    img[off + 1] := (v / 0x100 % 0x100) as byte;
    img[off + 2] := (v / 0x1_0000 % 0x100) as byte;
    img[off + 3] := (v / 0x100_0000) as byte;
    assert img[..] == Splice(old(img[..]), off, Bytes32(v));
  }

  /** A run of consecutive words. */
  method PutWords(img: array<byte>, off: nat, ws: seq<nat>)
    requires forall k :: 0 <= k < |ws| ==> ws[k] < TWO32
    requires off + 4 * |ws| <= img.Length
    modifies img
    ensures img[..] == Splice(old(img[..]), off, Words(ws))
    decreases |ws|
  {
    hide Splice, Bytes32;
    if ws == [] {
      SpliceNothing(img[..], off);
    } else {
      SpliceAppend(img[..], off, Bytes32(ws[0]), Words(ws[1..]));
      Put32(img, off, ws[0]);
      PutWords(img, off + 4, ws[1..]);
    }
  }

  lemma SpliceNothing<T>(m: seq<T>, off: nat)
    requires off <= |m|
    ensures Splice(m, off, []) == m
  {
  }

  method PutBytes(img: array<byte>, off: nat, b: seq<byte>)
    requires off + |b| <= img.Length
    modifies img
    ensures img[..] == Splice(old(img[..]), off, b)
  {
    for k := 0 to |b|
      invariant forall i :: 0 <= i < img.Length ==> img[i] == if off <= i < off + k then b[i - off] else old(img[i])
    {
      img[off + k] := b[k];
    }
    assert img[..] == Splice(old(img[..]), off, b);
  }

  method EmitVring(img: array<byte>, off: nat) returns (next: nat)
    requires off + VRING_STRIDE <= img.Length
    modifies img
    ensures next == off + VRING_STRIDE && img[..] == Splice(old(img[..]), off, VringBytes())
  {
    PutWords(img, off, VRING);
    return off + VRING_STRIDE;
  }

  method EmitVdev(img: array<byte>, off: nat, id: u32, features: u32) returns (next: nat)
    requires off + VDEV_BYTES <= img.Length
    modifies img
    ensures next == off + VDEV_BYTES && img[..] == Splice(old(img[..]), off, VdevBytes(id, features))
  {
    hide Splice, Words, VringBytes, CountBytes;
    ghost var m := img[..];
    ghost var head, count := Words(VdevHead(id, features)), CountBytes();
    PutWords(img, off, VdevHead(id, features));
    SpliceAppend(m, off, head, count);
    PutBytes(img, off + 24, CountBytes());
    SpliceAppend(m, off, head + count, VringBytes());
    next := EmitVring(img, off + 28);
    SpliceAppend(m, off, head + count + VringBytes(), VringBytes());
    next := EmitVring(img, next);
  }

  method EmitHeap(img: array<byte>, off: nat) returns (next: nat)
    requires off + HEAP_BYTES <= img.Length
    modifies img
    ensures next == off + HEAP_BYTES && img[..] == Splice(old(img[..]), off, HeapBytes())
  {
    hide Splice, Words;
    ghost var m := img[..];
    var ws := [RSC_CARVEOUT, APERTURE_SIZE, 0, MEM_SIZE - APERTURE_SIZE, 0, 0];
    PutWords(img, off, ws);
    SpliceAppend(m, off, Words(ws), Zeros(32));
    PutBytes(img, off + 24, Zeros(32));
    NameOverZeros(m, off, Words(ws));
    PutBytes(img, off + 24, HEAP_NAME);
    return off + HEAP_BYTES;
  }

  lemma NameOverZeros(m: seq<byte>, off: nat, head: seq<byte>)
    requires |head| == 24 && off + HEAP_BYTES <= |m|
    ensures Splice(Splice(m, off, head + Zeros(32)), off + 24, HEAP_NAME) == Splice(m, off, head + HEAP_NAME + Zeros(28))
  {
    var x, y := Splice(Splice(m, off, head + Zeros(32)), off + 24, HEAP_NAME), Splice(m, off, head + HEAP_NAME + Zeros(28));
    forall i | 0 <= i < |m|
      ensures x[i] == y[i]
    {
    }
  }

  /** The whole table: its three entries first, then the header that points at them. */
  method EmitTable(img: array<byte>, rsc: nat) returns (end: nat)
    requires rsc + TABLE_BYTES <= img.Length
    modifies img
    ensures end == rsc + TABLE_BYTES && img[..] == Splice(old(img[..]), rsc, TableBytes())
  {
    hide Splice, Words, HeapBytes, VdevBytes, HdrBytes;
    ghost var m := img[..];
    var e1 := rsc + 16 + 3 * 4;
    var e2 := EmitHeap(img, e1);
    SpliceAppend(m, e1, HeapBytes(), VdevBytes(ID_RPMSG, F_NS));
    var e3 := EmitVdev(img, e2, ID_RPMSG, F_NS);
    SpliceAppend(m, e1, HeapBytes() + VdevBytes(ID_RPMSG, F_NS), VdevBytes(ID_DATA, 0));
    end := EmitVdev(img, e3, ID_DATA, 0);
    ghost var entries := HeapBytes() + VdevBytes(ID_RPMSG, F_NS) + VdevBytes(ID_DATA, 0);
    SplicePrepend(m, rsc, HdrBytes(), entries);
    TableParts();
    HdrIs(e1 - rsc, e2 - rsc, e3 - rsc);
    PutWords(img, rsc, [1, 3, 0, 0, e1 - rsc, e2 - rsc, e3 - rsc]);
  }

  lemma HdrIs(a: nat, b: nat, c: nat)
    requires a == HDR_BYTES && b == HDR_BYTES + HEAP_BYTES && c == HDR_BYTES + HEAP_BYTES + VDEV_BYTES
    ensures Words([1, 3, 0, 0, a, b, c]) == HdrBytes()
  {
  }

  lemma TableParts()
    ensures TableBytes() == HdrBytes() + (HeapBytes() + VdevBytes(ID_RPMSG, F_NS) + VdevBytes(ID_DATA, 0))
  {
    ConcatAssociates(HdrBytes(), HeapBytes(), VdevBytes(ID_RPMSG, F_NS));
    ConcatAssociates(HdrBytes(), HeapBytes() + VdevBytes(ID_RPMSG, F_NS), VdevBytes(ID_DATA, 0));
  }

  // ---- reading it back ----

  /** Where the core writes the notifyid of ring r of vdev v. */
  function IdOffset(v: nat, r: nat): nat {
    HDR_BYTES + HEAP_BYTES + v * VDEV_BYTES + OFF_BODY + OFF_VRING + r * VRING_STRIDE + VRING_NOTIFYID
  }

  /** The table the host publishes: the emitted one with four notifyids filled in. */
  function Patched(t: seq<byte>, ids: seq<nat>): (p: seq<byte>)
    requires |t| == TABLE_BYTES && |ids| == VQ_COUNT && forall q :: 0 <= q < VQ_COUNT ==> ids[q] < TWO32
    ensures |p| == TABLE_BYTES
  {
    Splice(Splice(Splice(Splice(t, IdOffset(0, 0), Bytes32(ids[0])), IdOffset(0, 1), Bytes32(ids[1])),
                  IdOffset(1, 0), Bytes32(ids[2])), IdOffset(1, 1), Bytes32(ids[3]))
  }

  /** The table as the remoteproc core has to find it, word for word: version 1, three
      entries and where they are; the heap, 240 MiB from 16 MiB on, by name; then twice a
      vdev of two rings, each at any address, aligned to 4096, of 256 entries, with no
      notifyid yet. */
  const TABLE_WORDS: seq<nat> :=
    [1, 3, 0, 0, 28, 84, 152] +
    [0, 0x100_0000, 0, 0xF00_0000, 0, 0, 0x7061_6568, 0, 0, 0, 0, 0, 0, 0] +
    [3, 7, 0, 1, 0, 0, 0x200, 0xFFFF_FFFF, 4096, 256, 0, 0, 0xFFFF_FFFF, 4096, 256, 0, 0] +
    [3, 0x4000, 0, 0, 0, 0, 0x200, 0xFFFF_FFFF, 4096, 256, 0, 0, 0xFFFF_FFFF, 4096, 256, 0, 0]

  /** What the walks look at. */
  predicate Layout(p: seq<byte>, ids: seq<nat>)
    requires |p| == TABLE_BYTES && |ids| == VQ_COUNT
  {
    && At(p, 4) == 3 && At(p, 16) == 28 && At(p, 20) == 84 && At(p, 24) == 152
    && At(p, 28) == RSC_CARVEOUT && At(p, 84) == RSC_VDEV && At(p, 152) == RSC_VDEV
    && p[109] == 2 && p[177] == 2
    && At(p, 124) == ids[0] && At(p, 144) == ids[1] && At(p, 192) == ids[2] && At(p, 212) == ids[3]
  }

  /** A slice of one part of a concatenation. */
  lemma Within(t: seq<byte>, lo: nat, part: seq<byte>, k: nat)
    requires lo + |part| <= |t| && t[lo..lo + |part|] == part && k + 4 <= |part|
    ensures At(t, lo + k) == At(part, k)
  {
    hide Word;
    SliceOfSlice(t, lo, lo + |part|, k, k + 4);
  }

  lemma Parts()
    ensures var t := TableBytes();
            && t[0..28] == HdrBytes() && t[28..84] == HeapBytes()
            && t[84..152] == VdevBytes(ID_RPMSG, F_NS) && t[152..220] == VdevBytes(ID_DATA, 0)
  {
    hide HdrBytes, HeapBytes, VdevBytes;
  }

  lemma VdevParts(id: u32, features: u32)
    ensures var d := VdevBytes(id, features); d[0..24] == Words(VdevHead(id, features)) && d[25] == 2
  {
    hide Words, VringBytes;
  }

  lemma VdevType(t: seq<byte>, lo: nat, id: u32, features: u32)
    requires lo + VDEV_BYTES <= |t| && t[lo..lo + VDEV_BYTES] == VdevBytes(id, features)
    ensures At(t, lo) == RSC_VDEV && t[lo + 25] == 2
  {
    hide Word, Words, VdevBytes;
    VdevParts(id, features);
    var d := VdevBytes(id, features);
    Within(t, lo, d, 0);
    Within(d, 0, Words(VdevHead(id, features)), 0);
    WordAt(VdevHead(id, features), 0);
    assert t[lo..lo + VDEV_BYTES][25] == 2;
  }

  lemma HdrWord(k: nat)
    requires k < 7
    ensures At(TableBytes(), 4 * k) == [1, 3, 0, 0, 28, 84, 152][k]
  {
    hide Word, Words, TableBytes;
    Parts();
    var ws: seq<nat> := [1, 3, 0, 0, HDR_BYTES, HDR_BYTES + HEAP_BYTES, HDR_BYTES + HEAP_BYTES + VDEV_BYTES];
    Within(TableBytes(), 0, HdrBytes(), 4 * k);
    WordAt(ws, k);
  }

  lemma HeapType()
    ensures At(TableBytes(), 28) == RSC_CARVEOUT
  {
    hide Word, Words, TableBytes;
    Parts();
    var ws: seq<nat> := [RSC_CARVEOUT, APERTURE_SIZE, 0, MEM_SIZE - APERTURE_SIZE, 0, 0];
    var b := HeapBytes();
    assert b[0..24] == Words(ws);
    Within(TableBytes(), 28, b, 0);
    Within(b, 0, Words(ws), 0);
    WordAt(ws, 0);
  }

  lemma HeapWord(k: nat)
    requires k < 14
    ensures At(HeapBytes(), 4 * k) == [0, 0x100_0000, 0, 0xF00_0000, 0, 0, 0x7061_6568, 0, 0, 0, 0, 0, 0, 0][k]
  {
    var ws: seq<nat> := [RSC_CARVEOUT, APERTURE_SIZE, 0, MEM_SIZE - APERTURE_SIZE, 0, 0];
    var b := HeapBytes();
    hide Words, HeapBytes;
    HeapParts(ws);
    if k < 6 {
      hide Word;
      Within(b, 0, Words(ws), 4 * k);
      WordAt(ws, k);
    } else if k == 6 {
      assert b[24..28] == HEAP_NAME;
    } else {
      Within(b, 28, Zeros(28), 4 * (k - 7));
      assert Zeros(28)[4 * (k - 7)..4 * (k - 7) + 4] == [0, 0, 0, 0];
    }
  }

  lemma HeapParts(ws: seq<nat>)
    requires ws == [RSC_CARVEOUT, APERTURE_SIZE, 0, MEM_SIZE - APERTURE_SIZE, 0, 0]
    ensures var b := HeapBytes(); b[0..24] == Words(ws) && b[24..28] == HEAP_NAME && b[28..56] == Zeros(28)
  {
    hide Words;
  }

  lemma VringWord(k: nat)
    requires k < 5
    ensures At(VringBytes(), 4 * k) == [0xFFFF_FFFF, 4096, 256, 0, 0][k]
  {
    hide Word, Words;
    WordAt(VRING, k);
  }

  lemma VdevRest(id: u32, features: u32)
    ensures var d := VdevBytes(id, features);
            d[24..28] == CountBytes() && d[28..48] == VringBytes() && d[48..68] == VringBytes()
  {
    hide Words, VringBytes;
  }

  lemma VdevWord(id: u32, features: u32, k: nat)
    requires k < 17
    ensures At(VdevBytes(id, features), 4 * k)
            == [3, id, 0, features, 0, 0, 0x200, 0xFFFF_FFFF, 4096, 256, 0, 0, 0xFFFF_FFFF, 4096, 256, 0, 0][k]
  {
    var d := VdevBytes(id, features);
    VdevParts(id, features);
    VdevRest(id, features);
    hide Words, VdevBytes, VringBytes;
    if k < 6 {
      hide Word;
      Within(d, 0, Words(VdevHead(id, features)), 4 * k);
      WordAt(VdevHead(id, features), k);
    } else if k == 6 {
      assert d[24..28] == [0, 2, 0, 0];
    } else if k < 12 {
      Within(d, 28, VringBytes(), 4 * (k - 7));
      VringWord(k - 7);
    } else {
      Within(d, 48, VringBytes(), 4 * (k - 12));
      VringWord(k - 12);
    }
  }

  lemma TableWord(k: nat)
    requires k < 55
    ensures 4 * k + 4 <= |TableBytes()| && At(TableBytes(), 4 * k) == TABLE_WORDS[k]
  {
    hide TableBytes, At, HdrBytes, HeapBytes, VdevBytes;
    Parts();
    var t := TableBytes();
    if k < 7 {
      HdrWord(k);
    } else if k < 21 {
      Within(t, 28, HeapBytes(), 4 * (k - 7));
      HeapWord(k - 7);
    } else if k < 38 {
      Within(t, 84, VdevBytes(ID_RPMSG, F_NS), 4 * (k - 21));
      VdevWord(ID_RPMSG, F_NS, k - 21);
    } else {
      Within(t, 152, VdevBytes(ID_DATA, 0), 4 * (k - 38));
      VdevWord(ID_DATA, 0, k - 38);
    }
  }

  lemma StoredWord(m: seq<byte>, off: nat, v: u32)
    requires off + 4 <= |m|
    ensures At(Splice(m, off, Bytes32(v)), off) == v
  {
    hide Word, Bytes32;
    WordRoundTrip(v);
  }

  lemma OtherWord(m: seq<byte>, off: nat, v: u32, at: nat)
    requires off + 4 <= |m| && at + 4 <= |m| && (at + 4 <= off || off + 4 <= at)
    ensures At(Splice(m, off, Bytes32(v)), at) == At(m, at)
  {
    hide Word, Bytes32;
    SpliceElsewhere(m, off, Bytes32(v), at, at + 4);
  }

  lemma PatchedWord(t: seq<byte>, ids: seq<nat>, at: nat)
    requires |t| == TABLE_BYTES && |ids| == VQ_COUNT && forall q :: 0 <= q < VQ_COUNT ==> ids[q] < TWO32
    requires at % 4 == 0 && at + 4 <= TABLE_BYTES
    ensures At(Patched(t, ids), at) == if at == 124 then ids[0] else if at == 144 then ids[1]
                                       else if at == 192 then ids[2] else if at == 212 then ids[3] else At(t, at)
  {
    hide Splice, Bytes32, At;
    var t1 := Splice(t, 124, Bytes32(ids[0]));
    var t2 := Splice(t1, 144, Bytes32(ids[1]));
    var t3 := Splice(t2, 192, Bytes32(ids[2]));
    assert Patched(t, ids) == Splice(t3, 212, Bytes32(ids[3]));
    if at == 212 { StoredWord(t3, 212, ids[3]); } else { OtherWord(t3, 212, ids[3], at); }
    if at == 192 { StoredWord(t2, 192, ids[2]); } else { OtherWord(t2, 192, ids[2], at); }
    if at == 144 { StoredWord(t1, 144, ids[1]); } else { OtherWord(t1, 144, ids[1], at); }
    if at == 124 { StoredWord(t, 124, ids[0]); } else { OtherWord(t, 124, ids[0], at); }
  }

  lemma PatchedCounts(t: seq<byte>, ids: seq<nat>)
    requires |t| == TABLE_BYTES && |ids| == VQ_COUNT && forall q :: 0 <= q < VQ_COUNT ==> ids[q] < TWO32
    ensures Patched(t, ids)[109] == t[109] && Patched(t, ids)[177] == t[177]
  {
    hide Bytes32;
  }

  lemma EmittedLayout(ids: seq<nat>)
    requires |ids| == VQ_COUNT && forall q :: 0 <= q < VQ_COUNT ==> ids[q] < TWO32
    ensures Layout(Patched(TableBytes(), ids), ids)
  {
    hide TableBytes, Patched, At, HdrBytes, HeapBytes, VdevBytes;
    var t := TableBytes();
    Parts();
    HdrWord(1);
    HdrWord(4);
    HdrWord(5);
    HdrWord(6);
    HeapType();
    VdevType(t, 84, ID_RPMSG, F_NS);
    VdevType(t, 152, ID_DATA, 0);
    PatchedCounts(t, ids);
    PatchedWord(t, ids, 4);
    PatchedWord(t, ids, 16);
    PatchedWord(t, ids, 20);
    PatchedWord(t, ids, 24);
    PatchedWord(t, ids, 28);
    PatchedWord(t, ids, 84);
    PatchedWord(t, ids, 152);
    PatchedWord(t, ids, 124);
    PatchedWord(t, ids, 144);
    PatchedWord(t, ids, 192);
    PatchedWord(t, ids, 212);
  }

  lemma TwoRings(p: seq<byte>, entry: nat, a: nat, b: nat)
    requires entry + VDEV_BYTES <= |p| && At(p, entry) == RSC_VDEV && p[entry + 25] == 2
    requires At(p, entry + 40) == a && At(p, entry + 60) == b
    ensures EntryFits(p, entry) && EntryIds(p, entry, 0) == [a, b]
  {
    hide At;
    assert EntryIds(p, entry, 2) == [];
    assert EntryIds(p, entry, 1) == [b];
  }

  lemma LayoutIds(p: seq<byte>, ids: seq<nat>)
    requires |p| == TABLE_BYTES && |ids| == VQ_COUNT && Layout(p, ids)
    ensures WellFormed(p) && Ids(p, 0) == ids
  {
    hide At, EntryIds;
    TwoRings(p, 84, ids[0], ids[1]);
    TwoRings(p, 152, ids[2], ids[3]);
    assert EntryAt(p, 0) == 28 && EntryAt(p, 1) == 84 && EntryAt(p, 2) == 152;
    assert Ids(p, 3) == [];
    assert Ids(p, 2) == [ids[2], ids[3]];
    assert Ids(p, 1) == ids;
  }

  /** Emit and parse agree: whatever four notifyids the host assigns, both sides give
      vdev v, ring r the queue 2v + r. */
  lemma EmitParseAgree(ids: seq<nat>)
    requires |ids| == VQ_COUNT && forall q :: 0 <= q < VQ_COUNT ==> ids[q] < TWO32
    ensures var p := Patched(TableBytes(), ids);
            && WellFormed(p) && Ids(p, 0) == ids && Padded(Scan(Table(p, {}), 0, At(p, 4)).ids) == ids
            && (forall v, r :: 0 <= v < 2 && 0 <= r < 2 ==> At(p, IdOffset(v, r)) == ids[2 * v + r])
  {
    hide TableBytes, Patched, At, Scan, Ids;
    EmittedLayout(ids);
    var p := Patched(TableBytes(), ids);
    LayoutIds(p, ids);
    SameVector(p);
    forall v, r | 0 <= v < 2 && 0 <= r < 2
      ensures At(p, IdOffset(v, r)) == ids[2 * v + r]
    {
      PatchedWord(TableBytes(), ids, IdOffset(v, r));
    }
  }
}
