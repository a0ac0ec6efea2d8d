/** Reading device memory through the sliding window.

    The window's base moves in two steps, a write that may silently be ignored and a read
    that commits it, so a reader that believes its own write reads the wrong part of
    memory.  `arm` says whether ERR_INJECT bit 6 is raised before the k-th seek. */
module Window {
  import opened Hardware

  /** The device's two registers and the injection, as one seek finds them. */
  datatype Regs = Regs(base: nat, pending: nat, armed: bool)

  predicate Sound(r: Regs) {
    r.base + WINDOW_SIZE <= MEM_SIZE && r.pending + WINDOW_SIZE <= MEM_SIZE
  }

  function AlignDown(x: nat): (r: nat)
    ensures r <= x < r + WINDOW_SIZE && Aligned(r)
  {
    x / WINDOW_SIZE * WINDOW_SIZE
  }

  predicate Accepted(target: nat) {
    target % WINDOW_SIZE == 0 && target <= MEM_SIZE - WINDOW_SIZE
  }

  /** A write of WIN_BASE followed by its read-back. */
  function Seek(r: Regs, target: nat, arm: bool): (r': Regs)
    requires Sound(r)
    ensures Sound(r')
  {
    var swallowed := r.armed || arm;
    var pending := if !swallowed && Accepted(target) then target else r.pending;
    Regs(pending, pending, false)
  }

  /** How many seeks a read of this size takes: the first window, and one more for each
      further window the range enters. */
  function Seeks(offset: nat, size: nat): (n: nat)
    ensures n >= 1
    decreases size
  {
    if size <= WINDOW_SIZE + AlignDown(offset) - offset then 1
    else 1 + Seeks(AlignDown(offset) + WINDOW_SIZE, size - (WINDOW_SIZE + AlignDown(offset) - offset))
  }

  /** All `n` seeks from `window` on read back what was written. */
  predicate Confirmed(r: Regs, window: nat, n: nat, arm: nat -> bool, k: nat)
    requires Sound(r)
    decreases n
  {
    n == 0 || (Seek(r, window, arm(k)).base == window
               && Confirmed(Seek(r, window, arm(k)), window + WINDOW_SIZE, n - 1, arm, k + 1))
  }

  /** A seek is confirmed when it was neither ignored nor refused, or was not needed. */
  lemma SeekExactly(r: Regs, target: nat, arm: bool)
    requires Sound(r)
    ensures Seek(r, target, arm).base == target <==> (!r.armed && !arm && Accepted(target)) || r.pending == target
  {
  }

  /** Nothing injected, in range, and not exactly at the end: every seek is confirmed. */
  lemma {:induction false} Undisturbed(r: Regs, offset: nat, size: nat, arm: nat -> bool, k: nat)
    requires Sound(r) && !r.armed && (forall j: nat :: !arm(j))
    requires offset < MEM_SIZE && offset + size <= MEM_SIZE
    ensures Confirmed(r, AlignDown(offset), Seeks(offset, size), arm, k)
    decreases size
  {
    var window := AlignDown(offset);
    var first := WINDOW_SIZE + window - offset;
    SeekExactly(r, window, arm(k));
    if size > first {
      NextWindow(window);
      Undisturbed(Seek(r, window, arm(k)), window + WINDOW_SIZE, size - first, arm, k + 1);
    }
  }

  lemma NextWindow(window: nat)
    requires window % WINDOW_SIZE == 0
    ensures AlignDown(window + WINDOW_SIZE) == window + WINDOW_SIZE
  {
  }

  predicate Aligned(window: nat) {
    window % WINDOW_SIZE == 0
  }

  lemma AlignedNext(window: nat)
    requires Aligned(window)
    ensures Aligned(window + WINDOW_SIZE)
  {
  }

  lemma SeeksFrom(window: nat, size: nat)
    requires Aligned(window)
    ensures Seeks(window, size) >= 1
    ensures Seeks(window, size) == if size <= WINDOW_SIZE then 1 else 1 + Seeks(window + WINDOW_SIZE, size - WINDOW_SIZE)
  {
    assert AlignDown(window) == window;
  }

  lemma ConfirmedStep(r: Regs, window: nat, n: nat, arm: nat -> bool, k: nat)
    requires Sound(r) && 0 < n
    ensures Confirmed(r, window, n, arm, k) <==>
            Seek(r, window, arm(k)).base == window
            && Confirmed(Seek(r, window, arm(k)), window + WINDOW_SIZE, n - 1, arm, k + 1)
  {
  }

  lemma Appended<T>(dst: seq<T>, mem: seq<T>, offset: nat, done: nat, todo: nat, size: nat)
    requires done + todo <= size <= |dst| && offset + done + todo <= |mem|
    requires dst[..done] == mem[offset..offset + done]
    ensures var dst' := Splice(dst, done, mem[offset + done..offset + done + todo]);
            dst'[..done + todo] == mem[offset..offset + done + todo] && dst'[size..] == dst[size..]
  {
    var dst' := Splice(dst, done, mem[offset + done..offset + done + todo]);
    assert dst'[..done + todo] == dst[..done] + mem[offset + done..offset + done + todo];
  }

  /** The driver's and the device's half of it, on one memory. */
  class Card {
    const mem: array<byte>
    var winBase: nat
    var winPending: nat
    var winIgnore: bool
    var base: nat          // where the driver believes the window is

    constructor (mem: array<byte>)
      requires mem.Length == MEM_SIZE
      ensures Valid() && this.mem == mem && Window() == Regs(0, 0, false)
    {
      this.mem, winBase, winPending, winIgnore, base := mem, 0, 0, false, 0;
    }

    ghost predicate Valid()
      reads this
    {
      mem.Length == MEM_SIZE && Sound(Window())
    }

    function Window(): Regs
      reads this
    {
      Regs(winBase, winPending, winIgnore)
    }

    method WriteBase(target: nat)
      requires Valid()
      modifies this`winPending, this`winIgnore
      ensures Valid()
      ensures winPending == if !old(winIgnore) && Accepted(target) then target else old(winPending)
      ensures !winIgnore
    {
      if winIgnore {
        winIgnore := false;
        return;
      }
      if target % WINDOW_SIZE != 0 || target > MEM_SIZE - WINDOW_SIZE {
        return;
      }
      winPending := target;
    }

    method ReadBase() returns (position: nat)
      requires Valid()
      modifies this`winBase
      ensures Valid() && winBase == winPending == position
    {
      if winPending != winBase {
        winBase := winPending;
      }
      return winBase;
    }

    method SeekTo(target: nat, arm: bool) returns (ok: bool)
      requires Valid()
      modifies this`winBase, this`winPending, this`winIgnore, this`base
      ensures Valid() && Window() == Seek(old(Window()), target, arm) && base == winBase
      ensures ok <==> winBase == target
    {
      winIgnore := winIgnore || arm;
      WriteBase(target);
      base := ReadBase();
      return base == target;
    }

    /** memcpy_fromio out of the window, wherever it is. */
    method CopyFromWindow(dst: array<byte>, at: nat, off: nat, len: nat)
      requires Valid() && dst != mem && at + len <= dst.Length && off + len <= WINDOW_SIZE
      modifies dst
      ensures dst[..] == Splice(old(dst[..]), at, mem[..][winBase + off..winBase + off + len])
    {
      forall i | 0 <= i < len {
        dst[at + i] := mem[winBase + off + i];
      }
      assert dst[..] == Splice(old(dst[..]), at, mem[..][winBase + off..winBase + off + len]);
    }

    /** Move the window, and copy what of the range it shows from `done` on. */
    method Chunk(dst: array<byte>, ghost was: seq<byte>, window: nat, offset: nat, done: nat, size: nat, arm: bool)
      returns (ok: bool, todo: nat)
      requires Valid() && dst != mem && done <= size <= dst.Length && offset + size <= MEM_SIZE
      requires window <= offset + done < window + WINDOW_SIZE && |was| == dst.Length
      requires Filled(dst[..], was, mem[..], offset, done, size)
      modifies this`winBase, this`winPending, this`winIgnore, this`base, dst
      ensures Valid() && Window() == Seek(old(Window()), window, arm)
      ensures ok <==> winBase == window
      ensures todo == Min(size - done, window + WINDOW_SIZE - (offset + done))
      ensures todo <= size - done
      ensures ok ==> Filled(dst[..], was, mem[..], offset, done + todo, size)
      ensures dst[..][size..] == was[size..]
    {
      hide Splice;
      todo := Min(size - done, window + WINDOW_SIZE - (offset + done));
      ok := SeekTo(window, arm);
      if ok {
        Appended(dst[..], mem[..], offset, done, todo, size);
        CopyFromWindow(dst, done, offset + done - window, todo);
      }
    }

    /** The chunked read.  It answers 0 only when every window it passed through was
        confirmed, and then has copied exactly the range. */
    method Read(dst: array<byte>, offset: u64, size: u64, arm: nat -> bool) returns (err: int)
      requires Valid() && dst != mem && size <= dst.Length
      modifies this`winBase, this`winPending, this`winIgnore, this`base, dst
      ensures Valid()
      ensures err == EINVAL <==> offset + size > MEM_SIZE
      ensures err == EINVAL ==> dst[..] == old(dst[..]) && Window() == old(Window())
      ensures err == OK || err == EIO || err == EINVAL
      ensures err == OK <==>
                offset + size <= MEM_SIZE && Confirmed(old(Window()), AlignDown(offset), Seeks(offset, size), arm, 0)
      ensures err == OK ==> dst[..][..size] == mem[..][offset..offset + size]
      ensures dst[..][size..] == old(dst[..])[size..]
    {
      if offset + size >= TWO64 || offset + size > MEM_SIZE {
        return EINVAL;
      }
      hide Seeks, Confirmed, Seek, AlignDown, Sound, Aligned, Filled;
      var window: nat := AlignDown(offset);
      SeeksUnfold(offset, size);
      ConfirmedStep(Window(), window, Seeks(offset, size), arm, 0);
      ghost var was := dst[..];
      FilledNone(was, mem[..], offset, size);
      var ok, done := Chunk(dst, was, window, offset, 0, size, arm(0));
      if ok {
        ok := Further(dst, was, window, offset, done, size, arm, Seeks(offset, size) - 1);
      }
      if !ok {
        return EIO;
      }
      FilledAll(dst[..], was, mem[..], offset, size);
      return OK;
    }

    /** The loop: one window after the other until the range is complete. */
    method Further(dst: array<byte>, ghost was: seq<byte>, first: nat, offset: nat, got: nat, size: nat,
                   arm: nat -> bool, ghost n: nat)
      returns (ok: bool)
      requires Valid() && dst != mem && got <= size <= dst.Length == |was| && offset + size <= MEM_SIZE
      requires Aligned(first) && Filled(dst[..], was, mem[..], offset, got, size)
      requires if got < size then offset + got == first + WINDOW_SIZE && n == Seeks(offset + got, size - got) else n == 0
      modifies this`winBase, this`winPending, this`winIgnore, this`base, dst
      ensures Valid()
      ensures ok <==> Confirmed(old(Window()), first + WINDOW_SIZE, n, arm, 1)
      ensures ok ==> Filled(dst[..], was, mem[..], offset, size, size)
      ensures dst[..][size..] == was[size..]
    {
      hide Seeks, Confirmed, Seek, AlignDown, Sound, Aligned, Filled;
      ghost var goal := Confirmed(Window(), first + WINDOW_SIZE, n, arm, 1);
      FilledTail(dst[..], was, mem[..], offset, got, size);
      var window: nat, done: nat, k: nat := first, got, 1;
      ghost var left: nat := n;
      while done < size
        invariant Valid() && done <= size && Aligned(window)
        invariant Filled(dst[..], was, mem[..], offset, done, size) && dst[..][size..] == was[size..]
        invariant if done < size then offset + done == window + WINDOW_SIZE && left == Seeks(offset + done, size - done)
                  else left == 0
        invariant goal <==> Confirmed(Window(), window + WINDOW_SIZE, left, arm, k)
      {
        AlignedNext(window);
        window := window + WINDOW_SIZE;
        SeeksFrom(window, size - done);
        ConfirmedStep(Window(), window, left, arm, k);
        var todo;
        ok, todo := Chunk(dst, was, window, offset, done, size, arm(k));
        if !ok {
          return false;
        }
        done := done + todo;
        k := k + 1;
        left := left - 1;
      }
      ConfirmedNone(Window(), window + WINDOW_SIZE, arm, k);
      return true;
    }
  }

  lemma FilledTail(dst: seq<byte>, was: seq<byte>, mem: seq<byte>, offset: nat, done: nat, size: nat)
    requires Filled(dst, was, mem, offset, done, size)
    ensures size <= |dst| == |was| && dst[size..] == was[size..]
  {
  }

  /** So far: the range's first `done` bytes, and nothing beyond its end. */
  ghost predicate Filled(dst: seq<byte>, was: seq<byte>, mem: seq<byte>, offset: nat, done: nat, size: nat) {
    && done <= size <= |dst| == |was| && offset + done <= |mem|
    && dst[..done] == mem[offset..offset + done] && dst[size..] == was[size..]
  }

  lemma FilledNone(was: seq<byte>, mem: seq<byte>, offset: nat, size: nat)
    requires size <= |was| && offset <= |mem|
    ensures Filled(was, was, mem, offset, 0, size)
  {
  }

  lemma FilledAll(dst: seq<byte>, was: seq<byte>, mem: seq<byte>, offset: nat, size: nat)
    requires Filled(dst, was, mem, offset, size, size)
    ensures offset + size <= |mem| && size <= |dst| == |was|
    ensures dst[..size] == mem[offset..offset + size] && dst[size..] == was[size..]
  {
  }

  lemma ConfirmedNone(r: Regs, window: nat, arm: nat -> bool, k: nat)
    requires Sound(r)
    ensures Confirmed(r, window, 0, arm, k)
  {
  }

  lemma SeeksUnfold(offset: nat, size: nat)
    ensures Seeks(offset, size) >= 1
    ensures var first := WINDOW_SIZE + AlignDown(offset) - offset;
            Seeks(offset, size) == if size <= first then 1 else 1 + Seeks(offset + first, size - first)
  {
  }

  /** With nothing injected, the reads that succeed are those that start inside memory
      and end inside it.  A read of nothing at its very end is answered -EIO: there is no
      window there to seek to. */
  lemma UndisturbedExactly(r: Regs, offset: nat, size: nat, arm: nat -> bool)
    requires Sound(r) && !r.armed && (forall j: nat :: !arm(j)) && offset + size <= MEM_SIZE
    ensures Confirmed(r, AlignDown(offset), Seeks(offset, size), arm, 0) <==> offset < MEM_SIZE
  {
    if offset < MEM_SIZE {
      Undisturbed(r, offset, size, arm, 0);
    } else {
      SeekExactly(r, AlignDown(offset), arm(0));
    }
  }

  /** One injection is enough to fail a read that has to move the window, and is spent by
      it: the retry, undisturbed, succeeds. */
  lemma IgnoredOnce(r: Regs, offset: nat, size: nat, arm: nat -> bool)
    requires Sound(r) && offset < MEM_SIZE && offset + size <= MEM_SIZE
    requires arm(0) && r.pending != AlignDown(offset)
    ensures !Confirmed(r, AlignDown(offset), Seeks(offset, size), arm, 0)
    ensures Confirmed(Seek(r, AlignDown(offset), arm(0)), AlignDown(offset), Seeks(offset, size), (j: nat) => false, 0)
  {
    SeekExactly(r, AlignDown(offset), arm(0));
    Undisturbed(Seek(r, AlignDown(offset), arm(0)), offset, size, (j: nat) => false, 0);
  }
}
