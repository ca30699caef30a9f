/** Counters that skip zero: `x++; if x == 0 { x++ }` in a w-bit unsigned integer.
    Outbound sequence numbers, session-id sequence numbers and both reservation counters
    run this way.  `m` is 2^w. */
module Cyclic {
  import opened Bits

  const M16 := 0x1_0000
  const M32 := 0x1_0000_0000

  function Succ(x: nat, m: nat): (r: nat)
    requires x < m && 2 <= m
    ensures 0 < r < m
  {
    if x + 1 == m then 1 else x + 1
  }

  function Iter(x: nat, m: nat, k: nat): (r: nat)
    requires x < m && 2 <= m
    ensures r < m
  {
    if k == 0 then x else Succ(Iter(x, m, k - 1), m)
  }

  lemma {:induction false} IterShift(x: nat, m: nat, j: nat, k: nat)
    requires x < m && 2 <= m
    ensures Iter(Iter(x, m, j), m, k) == Iter(x, m, j + k)
    decreases k
  {
    if k > 0 {
      IterShift(x, m, j, k - 1);
    }
  }

  /** Fewer than m steps ahead: plain addition, less one lap when zero was skipped. */
  lemma {:induction false} IterNear(x: nat, m: nat, k: nat)
    requires 0 < x < m && 2 <= m && k < m
    ensures Iter(x, m, k) == if x + k < m then x + k else x + k - (m - 1)
    decreases k
  {
    if k > 0 {
      IterNear(x, m, k - 1);
    }
  }

  lemma ModuloSuccessor(a: nat, n: nat)
    requires 1 < n
    ensures (a + 1) % n == if a % n + 1 == n then 0 else a % n + 1
  {
    var q, r := a / n, a % n;
    assert a + 1 == q * n + (r + 1);
    if r + 1 == n {
      assert a + 1 == (q + 1) * n;
      ModuloIs(a + 1, n, q + 1, 0);
    } else {
      ModuloIs(a + 1, n, q, r + 1);
    }
  }

  lemma ModuloIs(a: nat, n: nat, q: nat, r: nat)
    requires a == q * n + r && r < n
    ensures a % n == r
  {
    var d := a / n - q;
    assert d * n == r - a % n;
    assert d >= 1 ==> d * n >= n;
    assert d <= -1 ==> d * n <= 0 - n as int;
  }

  /** The k-th value in closed form, for a 32-bit counter and any k. */
  lemma {:induction false} IterClosedForm(x: u32, k: nat)
    requires x != 0
    ensures Iter(x, M32, k) == (x - 1 + k) % 0xFFFF_FFFF + 1
    decreases k
  {
    if k > 0 {
      IterClosedForm(x, k - 1);
      ModuloSuccessor(x - 1 + k - 1, 0xFFFF_FFFF);
    }
  }

  /** The counter never shows zero, and two readings agree only a whole number of
      (m-1)-step laps apart: within one lap all values differ. */
  lemma {:induction false} NoRepeat(x: nat, m: nat, i: nat, j: nat)
    requires 0 < x < m && 2 <= m && i < j < i + (m - 1)
    ensures 0 < Iter(x, m, i) && Iter(x, m, i) != Iter(x, m, j)
  {
    assert 0 < Iter(x, m, i);
    IterShift(x, m, i, j - i);
    IterNear(Iter(x, m, i), m, j - i);
  }
}
