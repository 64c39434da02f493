/** Division with remainder and powers of two. */
module Arith {

  lemma MulAtLeast(k: int, m: int)
    requires k >= 1 && m > 0
    ensures k * m >= m
  {
  }

  lemma Distribute(a: int, b: int, m: int)
    ensures (a - b) * m == a * m - b * m
  {
  }

  lemma DivModUnique(n: int, q: int, r: int, m: int)
    requires m > 0 && n == q * m + r && 0 <= r < m
    ensures n / m == q && n % m == r
  {
    var p := n / m;
    var s := n % m;
    assert n == m * p + s;
    Gap(q, r, p, s, m);
  }

  lemma Gap(q: int, r: int, p: int, s: int, m: int)
    requires m > 0 && q * m + r == m * p + s && 0 <= r < m && 0 <= s < m
    ensures p == q && r == s
  {
    Distribute(q, p, m);
    if q > p {
      MulAtLeast(q - p, m);
    } else if q < p {
      Distribute(p, q, m);
      MulAtLeast(p - q, m);
    }
  }

  function Pow2(n: nat): (p: nat)
    ensures p > 0
  {
    if n == 0 then 1 else 2 * Pow2(n - 1)
  }

  lemma {:induction false} Pow2Add(m: nat, n: nat)
    ensures Pow2(m + n) == Pow2(m) * Pow2(n)
  {
    if m > 0 {
      Pow2Add(m - 1, n);
      assert Pow2(m + n) == 2 * (Pow2(m - 1) * Pow2(n));
    }
  }

  lemma {:induction false} Pow2Monotone(m: nat, n: nat)
    requires m <= n
    ensures Pow2(m) <= Pow2(n)
    decreases n
  {
    if m < n {
      Pow2Monotone(m, n - 1);
    }
  }

  /** v >> n */
  function ShiftRight(v: nat, n: nat): (r: nat) {
    DivNonNegative(v, Pow2(n));
    v / Pow2(n)
  }

  lemma DivNonNegative(v: nat, p: nat)
    requires p > 0
    ensures v / p >= 0
  {
  }

  lemma Pow2Values()
    ensures Pow2(0) == 1 && Pow2(8) == 0x100 && Pow2(56) == 0x100_0000_0000_0000
    ensures Pow2(63) == 0x8000_0000_0000_0000 && Pow2(64) == 0x1_0000_0000_0000_0000
  {
    assert Pow2(4) == 16;
    Pow2Add(4, 4);
    Pow2Add(8, 8);
    Pow2Add(16, 16);
    Pow2Add(16, 8);
    Pow2Add(32, 24);
    Pow2Add(56, 4);
    assert Pow2(63) == 2 * Pow2(62) && Pow2(62) == 2 * Pow2(61) && Pow2(61) == 2 * Pow2(60);
  }

  /** The n low bits of x in two's complement. */
  function Residue(x: int, n: nat): (r: nat)
    ensures r < Pow2(n)
  {
    ModBounds(x, Pow2(n));
    x % Pow2(n)
  }

  lemma ModBounds(x: int, m: int)
    requires m > 0
    ensures 0 <= x % m < m
  {
  }
}
