/** Machine words as bounded integers, their bits, and population counts. */
module Words {

  type byte = x: int | 0 <= x < 0x100
  type u16 = x: int | 0 <= x < 0x1_0000
  type u32 = x: int | 0 <= x < 0x1_0000_0000
  type u64 = x: int | 0 <= x < 0x1_0000_0000_0000_0000

  function Min(a: nat, b: nat): nat {
    if a < b then a else b
  }

  function Pow2(k: nat): (p: nat)
    ensures p >= 1
  {
    if k == 0 then 1 else 2 * Pow2(k - 1)
  }

  lemma {:induction false} Pow2Add(a: nat, b: nat)
    ensures Pow2(a + b) == Pow2(a) * Pow2(b)
  {
    if a != 0 {
      Pow2Add(a - 1, b);
      assert 2 * (Pow2(a - 1) * Pow2(b)) == (2 * Pow2(a - 1)) * Pow2(b);
    }
  }

  lemma {:induction false} Pow2Monotone(a: nat, b: nat)
    requires a <= b
    ensures Pow2(a) <= Pow2(b)
    decreases b
  {
    if a < b {
      Pow2Monotone(a, b - 1);
    }
  }

  lemma Pow2Words()
    ensures Pow2(8) == 0x100 && Pow2(32) == 0x1_0000_0000 && Pow2(64) == 0x1_0000_0000_0000_0000
  {
    assert Pow2(4) == 16;
    Pow2Add(4, 4);
    Pow2Add(8, 8);
    Pow2Add(16, 16);
    Pow2Add(32, 32);
  }

  lemma MulMonotone(a: int, b: int, c: int)
    requires a <= b && c >= 0
    ensures a * c <= b * c
  {
    assert (b - a) * c >= 0;
  }

  function Times(a: nat, b: nat): (p: nat)
    ensures p == a * b
  {
    MulMonotone(0, a, b);
    a * b
  }

  /** The split of a dividend into quotient and remainder, as a usable identity. */
  lemma DivModSplit(x: int, d: int)
    requires d > 0
    ensures x == (x / d) * d + x % d && 0 <= x % d < d
  {
  }

  function Quotient(x: nat, d: nat): nat
    requires d > 0
  {
    x / d
  }

  /** Quotient and remainder are unique. */
  lemma RemainderIs(x: int, d: int, q: int, r: int)
    requires d > 0 && 0 <= r < d && x == q * d + r
    ensures x / d == q && x % d == r
  {
    var p := x / d;
    DivModSplit(x, d);
    if p < q {
      MulMonotone(p + 1, q, d);
    }
    if q < p {
      MulMonotone(q + 1, p, d);
    }
  }

  /** A quotient is pinned down by the multiples of the divisor around the dividend. */
  lemma QuotientIs(x: int, d: int, q: int)
    requires d > 0 && q * d <= x < (q + 1) * d
    ensures x / d == q
  {
    RemainderIs(x, d, q, x - q * d);
  }

  lemma DivDiv(x: nat, a: nat, c: nat)
    requires a > 0 && c > 0
    ensures c * a > 0 && x / (c * a) == x / a / c
  {
    DivModSplit(x, a);
    DivModSplit(x / a, c);
    NestedSplit(x, a, c, x / a / c, x / a % c, x % a);
    RemainderIs(x, c * a, x / a / c, (x / a % c) * a + x % a);
  }

  /** Cutting off high digits first changes neither the quotient, beyond them, nor the remainder. */
  lemma DivMod(x: nat, a: nat, c: nat)
    requires a > 0 && c > 0
    ensures c * a > 0 && x % (c * a) / a == x / a % c && x % (c * a) % a == x % a
  {
    var p, s, r := x / a / c, x / a % c, x % a;
    DivModSplit(x, a);
    DivModSplit(x / a, c);
    NestedSplit(x, a, c, p, s, r);
    RemainderIs(x, c * a, p, s * a + r);
    RemainderIs(s * a + r, a, s, r);
  }

  lemma NestedSplit(x: nat, a: nat, c: nat, q: nat, s: nat, r: nat)
    requires a > 0 && x == (q * c + s) * a + r && s < c && r < a
    ensures x == q * (c * a) + (s * a + r) && 0 <= s * a + r < c * a
  {
    MulMonotone(s + 1, c, a);
  }
}
