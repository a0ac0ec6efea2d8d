/** Free-running counters over a buffer of `n` slots.

    Both shared rings of this device work the same way: a counter of fixed width
    `m` is only ever incremented, and position k lives in slot (k mod m) mod n.
    The split rings use m = 2^16, the trace ring m = 2^32.  What the ring needs is
    that any n consecutive positions occupy n different slots; that is true
    exactly when n divides m. */
module FreeRunning {

  function Slot(m: nat, n: nat, k: nat): (s: nat)
    requires 0 < m && 0 < n
    ensures s < n
  {
    (k % m) % n
  }

  ghost predicate Clash(m: nat, n: nat, i: nat, j: nat)
    requires 0 < m && 0 < n
  {
    i < j < i + n && Slot(m, n, i) == Slot(m, n, j)
  }

  /** Any n consecutive positions occupy n different slots. */
  ghost predicate Collisionless(m: nat, n: nat)
    requires 0 < m && 0 < n
  {
    forall i: nat, j: nat :: !Clash(m, n, i, j)
  }

  lemma SmallMultiple(n: nat, d: int)
    requires -(n as int) < n * d < n
    ensures d == 0
  {
    if d >= 1 {
      assert n * d >= n * 1 by { MulMonotone(n, 1, d); }
    } else if d <= -1 {
      assert n * d <= n * -1 by { MulMonotone(n, d, -1); }
    }
  }

  lemma MulMonotone(n: nat, a: int, b: int)
    requires a <= b
    ensures n * a <= n * b
  {
    assert n * (b - a) >= 0;
  }

  lemma DivModUnique(x: nat, n: nat, q: int, r: nat)
    requires 0 < n && r < n && x == n * q + r
    ensures x / n == q && x % n == r
  {
    var q', r' := x / n, x % n;
    assert x == n * q' + r';
    assert n * (q' - q) == r - r';
    SmallMultiple(n, q' - q);
  }

  /** When n divides m the counter's width is invisible: slots follow k mod n. */
  lemma SlotUnbounded(m: nat, n: nat, k: nat)
    requires 0 < m && 0 < n && m % n == 0
    ensures Slot(m, n, k) == k % n
  {
    var c, q, r := m / n, k / m, k % m;
    var q', r' := r / n, r % n;
    assert k == m * q + r && m == n * c && r == n * q' + r';
    assert k == n * (c * q + q') + r' by { Regroup(n, c, q, q', r'); }
    DivModUnique(k, n, c * q + q', r');
  }

  lemma Regroup(n: nat, c: nat, q: nat, q': nat, r: nat)
    ensures n * c * q + (n * q' + r) == n * (c * q + q') + r
  {
    assert n * (c * q + q') == n * (c * q) + n * q';
    assert n * c * q == n * (c * q);
  }

  lemma Congruent(n: nat, i: nat, j: nat)
    requires 0 < n && i < j < i + n
    ensures i % n != j % n
  {
    var d := j / n - i / n;
    assert j - i == n * d + (j % n - i % n);
    if i % n == j % n {
      SmallMultiple(n, d);
    }
  }

  /** The slot discipline is sound for exactly the buffer sizes that divide the
      counter's modulus. */
  lemma CollisionlessExactly(m: nat, n: nat)
    requires 0 < n <= m
    ensures Collisionless(m, n) <==> m % n == 0
  {
    if m % n == 0 {
      forall i: nat, j: nat
        ensures !Clash(m, n, i, j)
      {
        if i < j < i + n {
          SlotUnbounded(m, n, i);
          SlotUnbounded(m, n, j);
          Congruent(n, i, j);
        }
      }
    } else {
      WrapClash(m, n);
    }
  }

  /** Where it breaks otherwise: the first position after the wrap takes slot 0
      while the position m mod n steps earlier still holds it. */
  lemma WrapClash(m: nat, n: nat)
    requires 0 < n <= m && m % n != 0
    ensures Clash(m, n, m - m % n, m)
  {
    var r := m % n;
    var q := m / n;
    assert m == n * q + r;
    assert m - r == n * q + 0;
    assert (m - r) % m == m - r;
    DivModUnique(m - r, n, q, 0);
    assert m % m == 0;
    assert (m % m) % n == 0;
  }
}
