/** The contract shared by the device model, the driver and the firmware
    generator: sizes, limits and status values, plus the little-endian words
    both sides put in memory. */
module Hardware {

  const MEM_SIZE: nat := 0x1000_0000
  const APERTURE_SIZE: nat := 0x100_0000
  const WINDOW_SIZE: nat := 0x100_0000
  const NODES: nat := 2
  const NODE0_BASE: nat := APERTURE_SIZE
  const NODE0_END: nat := 0x800_0000
  const NODE1_BASE: nat := 0x800_0000
  const NODE1_END: nat := MEM_SIZE
  const ALLOC_ALIGN: nat := 256
  const MAX_HANDLES: nat := 1024
  const NODE_ANY: nat := 0xFFFF_FFFF

  const VRING_NUM: nat := 256
  const VQ_CTRL_RX: nat := 0
  const VQ_COUNT: nat := 4
  const MSIX_VECTORS: nat := 6
  const DATA_INFLIGHT: nat := 128
  const ENGINES: nat := 2

  const OP_INFO: nat := 1
  const OP_ALLOC: nat := 2
  const OP_FREE: nat := 3
  const OP_STAT: nat := 4

  const NOTIFYID_NONE: nat := 0xFFFF_FFFF

  const FW_MAGIC: nat := 0x4F46_5456
  const FW_ABI: nat := 1
  const TRACE_SIZE: nat := 0x1_0000
  const TRACE_ENTRY: nat := 128
  const TRACE_ENTRIES: nat := 511
  const TRACE_HDR_SIZE: nat := 16

  const CYCLES_COPY: nat := 100
  const FAR_PENALTY: nat := 4

  const TWO16: nat := 0x1_0000
  const TWO32: nat := 0x1_0000_0000
  const TWO42: nat := 0x400_0000_0000
  const TWO64: nat := 0x1_0000_0000_0000_0000

  /** The status words both planes answer with, as negative errno values. */
  const OK: int := 0
  const EIO: int := -5
  const ENOMEM: int := -12
  const EBUSY: int := -16
  const ENODEV: int := -19
  const EINVAL: int := -22
  const ENOSPC: int := -28
  const ENOSYS: int := -38
  const EPROTO: int := -71
  const ESTALE: int := -116
  const EREMOTEIO: int := -121
  const ECANCELED: int := -125
  const MAX_ERRNO: int := 4095

  type u16 = x: nat | x < TWO16
  type u32 = x: nat | x < TWO32
  type u64 = x: nat | x < TWO64
  newtype byte = x: int | 0 <= x < 256

  datatype Option<+T> = None | Some(value: T)

  function Min(a: nat, b: nat): nat {
    if a < b then a else b
  }

  /** A store of `data` at `off`, the effect of one memcpy into a buffer. */
  function Splice<T>(m: seq<T>, off: nat, data: seq<T>): (r: seq<T>)
    requires off + |data| <= |m|
    ensures |r| == |m|
    ensures r[off..off + |data|] == data
    ensures forall i :: 0 <= i < |m| && !(off <= i < off + |data|) ==> r[i] == m[i]
    ensures forall i :: off <= i < off + |data| ==> r[i] == data[i - off]
  {
    m[..off] + data + m[off + |data|..]
  }

  lemma ConcatAssociates<T>(a: seq<T>, b: seq<T>, c: seq<T>)
    ensures a + b + c == a + (b + c)
  {
  }

  lemma SliceOfSlice<T>(m: seq<T>, lo: nat, hi: nat, a: nat, b: nat)
    requires lo <= hi <= |m| && a <= b <= hi - lo
    ensures m[lo..hi][a..b] == m[lo + a..lo + b]
  {
    var x, y := m[lo..hi][a..b], m[lo + a..lo + b];
    assert |x| == |y| && forall i :: 0 <= i < |x| ==> x[i] == y[i];
  }

  /** A slice that does not meet the stored range keeps its value. */
  lemma SpliceElsewhere<T>(m: seq<T>, off: nat, data: seq<T>, lo: nat, hi: nat)
    requires off + |data| <= |m| && lo <= hi <= |m|
    requires hi <= off || off + |data| <= lo
    ensures Splice(m, off, data)[lo..hi] == m[lo..hi]
  {
  }

  /** A slice around the stored range changes as if the store had been made in it. */
  lemma SpliceWithin<T>(m: seq<T>, off: nat, data: seq<T>, lo: nat, hi: nat)
    requires lo <= off && off + |data| <= hi <= |m|
    ensures Splice(m, off, data)[lo..hi] == Splice(m[lo..hi], off - lo, data)
  {
    var a, b := Splice(m, off, data)[lo..hi], Splice(m[lo..hi], off - lo, data);
    forall i | 0 <= i < hi - lo
      ensures a[i] == b[i]
    {
    }
  }

  /** A 32-bit word in little-endian byte order. */
  function Word(b: seq<byte>): (v: nat)
    requires |b| == 4
    ensures v < TWO32
  {
    b[0] as nat + 0x100 * b[1] as nat + 0x1_0000 * b[2] as nat + 0x100_0000 * b[3] as nat
  }

  function Bytes32(v: nat): (b: seq<byte>)
    requires v < TWO32
    ensures |b| == 4
  {
    [(v % 0x100) as byte, (v / 0x100 % 0x100) as byte, (v / 0x1_0000 % 0x100) as byte, (v / 0x100_0000) as byte]
  }

  lemma WordRoundTrip(v: nat)
    requires v < TWO32
    ensures Word(Bytes32(v)) == v
  {
    var a, b := v / 0x100, v / 0x1_0000;
    assert b == a / 0x100;
    assert v / 0x100_0000 == b / 0x100;
  }

  /** A 64-bit value as two words. */
  function Lo(v: u64): u32 {
    v % TWO32
  }

  function Hi(v: u64): u32 {
    v / TWO32
  }

  function Join(lo: u32, hi: u32): u64 {
    lo + hi * TWO32
  }

  lemma JoinRoundTrip(v: u64)
    ensures Join(Lo(v), Hi(v)) == v
  {
  }

  /** The 32-bit word at a byte offset. */
  function At(b: seq<byte>, off: nat): u32
    requires off + 4 <= |b|
  {
    Word(b[off..off + 4])
  }

  /** Consecutive words in memory. */
  function Words(ws: seq<nat>): (b: seq<byte>)
    requires forall k :: 0 <= k < |ws| ==> ws[k] < TWO32
    ensures |b| == 4 * |ws|
  {
    if ws == [] then [] else Bytes32(ws[0]) + Words(ws[1..])
  }

  lemma {:induction false} WordAt(ws: seq<nat>, k: nat)
    requires (forall i :: 0 <= i < |ws| ==> ws[i] < TWO32) && k < |ws|
    ensures At(Words(ws), 4 * k) == ws[k]
    decreases k
  {
    hide Bytes32, Word;
    WordRoundTrip(ws[k]);
    if k > 0 {
      WordAt(ws[1..], k - 1);
      assert Words(ws)[4 * k..4 * k + 4] == Words(ws[1..])[4 * (k - 1)..4 * (k - 1) + 4];
    }
  }
}
