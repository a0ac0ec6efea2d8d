/** A data-plane request as bytes: what the driver puts in its transaction, and what the
    engine reads of a request buffer. */
module DataWire {
  import opened Hardware
  import Device

  /** Header, then the copy operation; flags and reserved words stay zero. */
  function RequestWords(r: Device.DataReq): (ws: seq<nat>)
    ensures |ws| == 12 && forall k :: 0 <= k < |ws| ==> ws[k] < TWO32
  {
    [r.seqNo, r.generation, r.op, 0,
     r.copy.handle, 0, Lo(r.copy.offset), Hi(r.copy.offset), Lo(r.copy.addr), Hi(r.copy.addr), Lo(r.copy.len), Hi(r.copy.len)]
  }

  function Encode(r: Device.DataReq): (b: seq<byte>)
    ensures |b| == 48
  {
    Words(RequestWords(r))
  }

  /** The copy header is looked at only in a buffer long enough to hold one. */
  function Parse(b: seq<byte>): Device.DataReq
    requires |b| >= Device.REQ_HDR_SIZE
  {
    Device.DataReq(At(b, 0), At(b, 4), At(b, 8) % TWO16, |b|,
                   if |b| < Device.REQ_HDR_SIZE + Device.COPY_HDR_SIZE then Device.CopyHdr(0, 0, 0, 0)
                   else Device.CopyHdr(At(b, 16), Join(At(b, 24), At(b, 28)), Join(At(b, 32), At(b, 36)), Join(At(b, 40), At(b, 44))))
  }

  lemma RequestWord(r: Device.DataReq, k: nat)
    requires k < 12
    ensures At(Encode(r), 4 * k) == RequestWords(r)[k]
  {
    hide Words, At, RequestWords;
    WordAt(RequestWords(r), k);
  }

  /** Where the driver puts each field, and that the engine finds it there. */
  lemma RequestRoundTrip(r: Device.DataReq)
    requires r.len == 48
    ensures var b := Encode(r);
            && Parse(b) == r
            && At(b, 0) == r.seqNo && At(b, 4) == r.generation && At(b, 8) == r.op && At(b, 12) == 0
            && At(b, 16) == r.copy.handle && At(b, 20) == 0
            && At(b, 24) + 0x1_0000_0000 * At(b, 28) == r.copy.offset
            && At(b, 32) + 0x1_0000_0000 * At(b, 36) == r.copy.addr
            && At(b, 40) + 0x1_0000_0000 * At(b, 44) == r.copy.len
  {
    hide Words, At, Encode, Lo, Hi, Join;
    RequestWord(r, 0);
    RequestWord(r, 1);
    RequestWord(r, 2);
    RequestWord(r, 3);
    RequestWord(r, 4);
    RequestWord(r, 5);
    RequestWord(r, 6);
    RequestWord(r, 7);
    RequestWord(r, 8);
    RequestWord(r, 9);
    RequestWord(r, 10);
    RequestWord(r, 11);
    Whole(r.copy.offset);
    Whole(r.copy.addr);
    Whole(r.copy.len);
  }

  lemma Whole(v: u64)
    ensures Join(Lo(v), Hi(v)) == v == Lo(v) + 0x1_0000_0000 * Hi(v)
  {
    JoinRoundTrip(v);
  }
}
