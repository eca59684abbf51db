/** Division by an invariant divisor: the reciprocals of include/utils.h and src/cuda/shd.cu.

    The word width `width` stands for the template parameter: a word is a
    number below `Pow2(width)`, and every product, sum and shift below is
    reduced at the width the C++ type has. */
module Division {
  import opened Words

  /** `shift` is the binary logarithm of `n`, rounded down. */
  ghost predicate IsLog2(n: nat, shift: nat) {
    Pow2(shift) <= n < 2 * Pow2(shift)
  }

  /** The low word of `factor * n`, plus `n`, again reduced to one word. */
  function RoundUpError(width: nat, factor: nat, n: nat): nat {
    (factor * n % Pow2(width) + n) % Pow2(width)
  }

  // ---- Divisors of a power of two ---------------------------------------------------------------

  lemma OddTimesOdd(q: nat, n: nat, a: nat, b: nat)
    requires q == 2 * a + 1 && n == 2 * b + 1
    ensures q * n == 2 * (2 * (a * b) + a + b) + 1
  {
  }

  lemma HalfProduct(q: nat, n: nat, half: nat, k: nat)
    requires q * n == Pow2(k) && n == 2 * half
    ensures k > 0 && q * half == Pow2(k - 1)
  {
    assert q * n == 2 * (q * half);
  }

  lemma {:induction false} PowerDivisor(q: nat, n: nat, k: nat) returns (j: nat)
    requires q * n == Pow2(k)
    ensures n == Pow2(j)
    decreases k
  {
    if n == 1 {
      j := 0;
    } else if n % 2 == 0 {
      HalfProduct(q, n, n / 2, k);
      j := PowerDivisor(q, n / 2, k - 1);
      j := j + 1;
    } else if q % 2 == 0 {
      HalfProduct(n, q, q / 2, k);
      assert n * (q / 2) == (q / 2) * n;
      j := PowerDivisor(q / 2, n, k - 1);
    } else {
      OddTimesOdd(q, n, q / 2, n / 2);
      MulMonotone(2, n, q);
    }
  }

  lemma PowerNotMultiple(k: nat, shift: nat, n: nat)
    requires IsLog2(n, shift) && n != Pow2(shift)
    ensures Pow2(k) % n != 0
  {
    DivModSplit(Pow2(k), n);
    if Pow2(k) % n == 0 {
      var j := PowerDivisor(Pow2(k) / n, n, k);
      if j <= shift {
        Pow2Monotone(j, shift);
      } else {
        Pow2Monotone(shift + 1, j);
      }
    }
  }

  // ---- Multiplicative cores: no quotients, only products ----------------------------------------

  /** The factor of a number that is no power of two is a single word. */
  lemma FactorFits(p: nat, b: nat, n: nat, f: nat, rem: nat)
    requires p * b == f * n + rem && p < n && 0 < b
    ensures f < b
  {
    if f >= b {
      MulMonotone(b, f, n);
      MulMonotone(p + 1, n, b);
    }
  }

  /** `f * m` splits at `total` when `f * n` overshoots `total` by `e`. */
  lemma OvershootSplit(f: nat, n: nat, total: nat, e: nat, q: nat, s: nat, m: nat)
    requires f * n == total + e && m == q * n + s
    ensures f * m == q * total + (q * e + f * s)
    ensures n * (q * e + f * s) == e * m + s * total
  {
    assert f * (q * n) == q * (f * n) == q * total + q * e;
    assert f * m == f * (q * n) + f * s;
    assert n * (q * e) == e * (q * n);
    assert n * (f * s) == s * (f * n) == s * total + s * e;
    assert e * m == e * (q * n) + e * s;
    assert n * (q * e + f * s) == n * (q * e) + n * (f * s);
  }

  lemma LowPartBound(n: nat, s: nat, total: nat, x: nat, low: nat)
    requires s < n && x < total && n * low == x + s * total
    ensures low < total
  {
    if low >= total {
      MulMonotone(total, low, n);
      MulMonotone(s + 1, n, total);
    }
  }

  lemma ErrorBelow(e: nat, p: nat, m: nat, b: nat)
    requires e <= p && m < b && 0 < p
    ensures e * m < p * b
  {
    MulMonotone(e, p, m);
    MulMonotone(m + 1, b, p);
  }

  /** `f * (m + 1)` lands in the right block when `f * n` undershoots by `rem`. */
  lemma UndershootBlock(p: nat, b: nat, f: nat, n: nat, rem: nat, q: nat, s: nat, m: nat)
    requires p * b == f * n + rem && 0 < rem <= p && m == q * n + s && s < n && m < b
    ensures q * (p * b) <= f * (m + 1) < (q + 1) * (p * b)
  {
    var total := p * b;
    UndershootProduct(total, f, n, rem, q, s, m);
    UndershootSlack(p, b, rem, m);
    MulMonotone(1, s + 1, total);
    MulMonotone(s + 1, n, total);
    Between(n, f * (m + 1), q, total, (s + 1) * total, (m + 1) * rem);
  }

  lemma Between(n: nat, x: nat, q: nat, total: nat, up: nat, down: nat)
    requires n > 0 && n * x == n * (q * total) + up - down && total <= up <= n * total && 0 < down <= total
    ensures q * total <= x < (q + 1) * total
  {
    Cancel(n, q * total, x);
    assert n * ((q + 1) * total) == n * (q * total) + n * total;
    CancelStrict(n, x, (q + 1) * total);
  }

  lemma UndershootProduct(total: nat, f: nat, n: nat, rem: nat, q: nat, s: nat, m: nat)
    requires total == f * n + rem && m == q * n + s
    ensures n * (f * (m + 1)) == n * (q * total) + (s + 1) * total - (m + 1) * rem
  {
    assert n * (f * (m + 1)) == (m + 1) * (f * n) == (m + 1) * total - (m + 1) * rem;
    assert (m + 1) * total == (q * n) * total + (s + 1) * total;
    assert (q * n) * total == n * (q * total);
  }

  lemma UndershootSlack(p: nat, b: nat, rem: nat, m: nat)
    requires 0 < rem <= p && m < b
    ensures 0 < (m + 1) * rem <= p * b
  {
    MulMonotone(1, m + 1, rem);
    MulMonotone(m + 1, b, rem);
    MulMonotone(rem, p, b);
  }

  lemma Cancel(n: nat, a: int, b: int)
    requires n > 0 && n * a <= n * b
    ensures a <= b
  {
    if a > b {
      MulMonotone(b + 1, a, n);
    }
  }

  lemma CancelStrict(n: nat, a: int, b: int)
    requires n * a < n * b
    ensures a < b
  {
    if a >= b {
      MulMonotone(b, a, n);
    }
  }

  lemma QuotientAtMost(m: nat, n: nat)
    requires n > 0
    ensures m / n <= m
  {
    DivModSplit(m, n);
    MulMonotone(1, n, m / n);
  }

  lemma RemainderFromQuotient(m: nat, n: nat)
    requires n > 0
    ensures m % n == m - n * (m / n) == m - (m / n) * n >= 0
  {
    DivModSplit(m, n);
  }

  /** The double-width sum inside the multiply-and-shift never wraps. */
  lemma DoubleWordSumFits(b: nat, fac: nat, m: nat, t: nat)
    requires fac < b && m < b && t < b
    ensures fac * m + t < b * b
  {
    MulMonotone(fac, b - 1, m);
    MulMonotone(m, b - 1, b - 1);
  }

  // ---- The reciprocal's factor and its rounding error -------------------------------------------

  lemma WrappedError(p: nat, b: nat, n: nat, f: nat, rem: nat)
    requires p * b == f * n + rem && 0 < rem < n < b && 0 < p
    ensures (f * n % b + n) % b == n - rem
  {
    assert f * n == (p - 1) * b + (b - rem);
    RemainderIs(f * n, b, p - 1, b - rem);
    RemainderIs(b - rem + n, b, 1, n - rem);
  }

  /** The wrapped sum recovers how far rounding the factor up overshoots. */
  lemma RoundUpErrorIs(width: nat, shift: nat, n: nat)
    requires IsLog2(n, shift) && n != Pow2(shift) && n < Pow2(width)
    ensures var total := Pow2(shift) * Pow2(width);
            && 0 < total % n && total / n < Pow2(width)
            && RoundUpError(width, total / n, n) == n - total % n
  {
    Pow2Add(shift, width);
    PowerNotMultiple(shift + width, shift, n);
    FactorWord(Pow2(shift), Pow2(width), n);
  }

  lemma FactorWord(p: nat, b: nat, n: nat)
    requires 0 < p < n < b && p * b % n != 0
    ensures p * b / n < b && (p * b / n * n % b + n) % b == n - p * b % n
  {
    DivModSplit(p * b, n);
    FactorFits(p, b, n, p * b / n, p * b % n);
    WrappedError(p, b, n, p * b / n, p * b % n);
  }

  /** Rounding the factor up: `(factor + 1) * m` has the right high part. */
  lemma RoundUpQuotient(p: nat, b: nat, n: nat, m: nat)
    requires 0 < n && 0 < p && m < b && n - p * b % n <= p
    ensures p * b > 0 && (p * b / n * m + m) / (p * b) == m / n
  {
    MulMonotone(1, b, p);
    DivModSplit(p * b, n);
    DivModSplit(m, n);
    RoundUpBlock(p, b, n, m, p * b / n, p * b % n, m / n, m % n);
  }

  lemma RoundUpBlock(p: nat, b: nat, n: nat, m: nat, f: nat, rem: nat, q: nat, s: nat)
    requires 0 < p && m < b && p * b > 0 && p * b == f * n + rem && rem <= n <= p + rem
    requires m == q * n + s && s < n
    ensures (f * m + m) / (p * b) == q
  {
    var total, e := p * b, n - rem;
    assert (f + 1) * n == total + e;
    OvershootSplit(f + 1, n, total, e, q, s, m);
    var low := q * e + (f + 1) * s;
    ErrorBelow(e, p, m, b);
    LowPartBound(n, s, total, e * m, low);
    HighIs(f, m, total, q, low);
  }

  lemma HighIs(f: nat, m: nat, total: nat, q: nat, low: nat)
    requires (f + 1) * m == q * total + low && low < total
    ensures (f * m + m) / total == q
  {
    assert f * m + m == (f + 1) * m;
    RemainderIs(f * m + m, total, q, low);
  }

  /** Rounding the factor down: `factor * (m + 1)` has the right high part. */
  lemma RoundDownQuotient(p: nat, b: nat, n: nat, m: nat)
    requires 0 < n < 2 * p && 0 < p && m < b && 0 < p * b % n && n - p * b % n > p
    ensures p * b > 0 && (p * b / n * m + p * b / n) / (p * b) == m / n
  {
    var total := p * b;
    MulMonotone(1, b, p);
    DivModSplit(total, n);
    DivModSplit(m, n);
    var f := total / n;
    UndershootBlock(p, b, f, n, total % n, m / n, m % n, m);
    assert f * (m + 1) == f * m + f;
    QuotientIs(f * m + f, total, m / n);
  }

  /** A power of two: the all-ones factor only ever loses less than one unit. */
  lemma PowerOfTwoQuotient(p: nat, b: nat, m: nat)
    requires 0 < p && m < b
    ensures p * b > 0 && ((b - 1) * m + (b - 1)) / (p * b) == m / p
  {
    var x := (b - 1) * m + (b - 1);
    assert x == m * b + (b - 1 - m);
    RemainderIs(x, b, m, b - 1 - m);
    DivDiv(x, b, p);
  }

  // ---- The modified Robison reciprocal ----------------------------------------------------------

  /** What `_init` stores for a non-zero `n`. */
  /** The rounded-down factor `p * b / n`. */
  function Factor(p: nat, b: nat, n: nat): nat
    requires n > 0
  {
    MulMonotone(0, p, b);
    p * b / n
  }

  ghost predicate IsRobison(width: nat, n: nat, fac: nat, sft: nat, ab: bool) {
    && 0 < n < Pow2(width) && sft < width && IsLog2(n, sft)
    && if n == Pow2(sft) then fac == Pow2(width) - 1 && !ab
       else
         && fac == Factor(Pow2(sft), Pow2(width), n)
         && ab == (RoundUpError(width, fac, n) <= Pow2(sft))
  }

  /** A double word shifted down by `width + sft` and cut to one word. */
  function HighPart(width: nat, sft: nat, x: nat): nat {
    Pow2Positive(width);
    x % (Pow2(width) * Pow2(width)) / Pow2(width + sft) % Pow2(width)
  }

  /** The multiply-and-shift, at the width of a double word. */
  function MultiplyShift(width: nat, fac: nat, sft: nat, t: nat, m: nat): nat {
    HighPart(width, sft, fac * m + t)
  }

  lemma Pow2Positive(width: nat)
    ensures Pow2(width) * Pow2(width) > 0
  {
    MulMonotone(1, Pow2(width), Pow2(width));
  }

  /** For every non-zero divisor and every word: the quotient is exact and nothing wraps. */
  lemma RobisonExact(width: nat, n: nat, fac: nat, sft: nat, ab: bool, m: nat, t: nat)
    requires IsRobison(width, n, fac, sft, ab) && m < Pow2(width)
    requires t == if ab then m else fac
    ensures fac * m + t < Pow2(width) * Pow2(width)
    ensures MultiplyShift(width, fac, sft, t, m) == m / n
  {
    hide HighPart, Pow2, Reciprocal, IsRobison;
    var x, d := RobisonScaled(width, n, fac, sft, ab, m, t);
    NoWrap(width, sft, x, d, m, n);
  }

  /** Dividing `x` by `d` is dividing `m` by `n`. */
  ghost predicate Reciprocal(x: nat, d: nat, m: nat, n: nat) {
    d > 0 && n > 0 && x / d == m / n
  }

  lemma RobisonScaled(width: nat, n: nat, fac: nat, sft: nat, ab: bool, m: nat, t: nat) returns (x: nat, d: nat)
    requires IsRobison(width, n, fac, sft, ab) && m < Pow2(width)
    requires t == if ab then m else fac
    ensures n > 0 && x == fac * m + t && x < Pow2(width) * Pow2(width)
    ensures d == Pow2(sft) * Pow2(width) && Reciprocal(x, d, m, n)
  {
    hide Pow2, Factor, RoundUpError, IsLog2, Reciprocal;
    RobisonQuotient(width, n, fac, sft, ab, m, t);
    x, d := SumAndScale(Pow2(sft), Pow2(width), fac, m, t, n);
  }

  lemma SumAndScale(p: nat, b: nat, fac: nat, m: nat, t: nat, n: nat) returns (x: nat, d: nat)
    requires n > 0 && fac < b && m < b && t < b && p * b > 0 && (fac * m + t) / (p * b) == m / n
    ensures x == fac * m + t && x < b * b && d == p * b && Reciprocal(x, d, m, n)
  {
    MulMonotone(0, fac, m);
    DoubleWordSumFits(b, fac, m, t);
    x, d := fac * m + t, p * b;
  }

  lemma RobisonQuotient(width: nat, n: nat, fac: nat, sft: nat, ab: bool, m: nat, t: nat)
    requires IsRobison(width, n, fac, sft, ab) && m < Pow2(width)
    requires t == if ab then m else fac
    ensures var p, b := Pow2(sft), Pow2(width);
            && t < b && fac < b && p * b > 0
            && (fac * m + t) / (p * b) == m / n
  {
    var p, b := Pow2(sft), Pow2(width);
    if n == p {
      PowerOfTwoQuotient(p, b, m);
    } else {
      RoundUpErrorIs(width, sft, n);
      if ab {
        RoundUpQuotient(p, b, n, m);
      } else {
        RoundDownQuotient(p, b, n, m);
      }
    }
  }

  lemma NoWrap(width: nat, sft: nat, x: nat, d: nat, m: nat, n: nat)
    requires 0 < n && m < Pow2(width) && x < Pow2(width) * Pow2(width)
    requires d == Pow2(sft) * Pow2(width) && Reciprocal(x, d, m, n)
    ensures HighPart(width, sft, x) == m / n
  {
    var p, b := Pow2(sft), Pow2(width);
    Pow2Positive(width);
    RemainderIs(x, b * b, 0, x);
    Pow2Add(width, sft);
    assert p * b == b * p;
    QuotientIsWord(m, n, b);
  }

  lemma Pow2Half(k: nat)
    ensures Pow2(0) == 1 && (k > 0 ==> Pow2(k) == 2 * Pow2(k - 1))
  {
  }

  class DivisorMR {
    const width: nat
    var val: nat
    var fac: nat
    var sft: nat
    var ab: bool

    ghost predicate Valid()
      reads this
    {
      val != 0 ==> IsRobison(width, val, fac, sft, ab)
    }

    constructor (width: nat, n: nat)
      requires width > 0 && n < Pow2(width)
      ensures Valid() && this.width == width && val == n
    {
      this.width := width;
      val, fac, sft, ab := 0, 0, 0, false;
      new;
      Init(n);
    }

    method Init(n: nat)
      requires width > 0 && n < Pow2(width)
      modifies this
      ensures Valid() && val == n
    {
      hide Pow2, Factor, RoundUpError;
      val, fac, sft, ab := n, 0, 0, false;
      if n == 0 {
        return;
      }
      Pow2Half(width);
      Pow2Half(0);
      sft := width - 1;
      var m := Pow2(width - 1);
      while m > n
        invariant val == n && !ab && sft < width
        invariant m == Pow2(sft) && n < 2 * m
        decreases sft
      {
        Pow2Half(sft);
        m := m / 2;
        sft := sft - 1;
      }
      fac := Pow2(width) - 1;
      if m == n {
        return;
      }
      fac := Factor(m, Pow2(width), n);
      ab := RoundUpError(width, fac, n) <= m;
    }

    function Div(m: nat): (q: nat)
      requires Valid() && val != 0 && m < Pow2(width)
      reads this
      ensures q == m / val
    {
      var t := if ab then m else fac;
      RobisonExact(width, val, fac, sft, ab, m, t);
      MultiplyShift(width, fac, sft, t, m)
    }

    function Mod(m: nat): (r: nat)
      requires Valid() && val != 0 && m < Pow2(width)
      reads this
      ensures r == m % val
    {
      RemainderFromQuotient(m, val);
      m - val * Div(m)
    }
  }

  // ---- The Lemire-Kaser-Kurz reciprocal ---------------------------------------------------------

  /** The stored factor, a double word: the ceiling of `d / n`, which wraps to 0 for `n == 1`. */
  function LkkFactor(d: nat, n: nat): nat
    requires d > 0 && n > 0
  {
    ((d - 1) / n + 1) % d
  }

  lemma LkkFactorIs(b: nat, n: nat)
    requires 1 < n < b
    ensures b * b > 0
    ensures var f := LkkFactor(b * b, n); 0 < f < b * b && b * b <= f * n < b * b + n
  {
    var d := b * b;
    MulMonotone(b, b, b);
    MulMonotone(2, b, b);
    DivModSplit(d - 1, n);
    var q := (d - 1) / n;
    assert (q + 1) * n == q * n + n;
    if q + 1 >= d {
      MulMonotone(d, q + 1, n);
      MulMonotone(2, n, d);
    }
    RemainderIs(q + 1, d, 0, q + 1);
  }

  /** Quotient and remainder both come out of the one product `m * f`. */
  lemma LkkExact(b: nat, n: nat, m: nat, f: nat)
    requires 0 < n && m < b && n < b && b * b > 0 && b * b <= f * n < b * b + n
    ensures m * f / (b * b) == m / n
    ensures n * (m * f % (b * b)) / (b * b) == m % n
  {
    var d := b * b;
    DivModSplit(m, n);
    var q, s, e := m / n, m % n, f * n - d;
    OvershootSplit(f, n, d, e, q, s, m);
    var low := q * e + f * s;
    ErrorBelow(e, b, m, b);
    LowPartBound(n, s, d, e * m, low);
    RemainderIs(m * f, d, q, low);
    RemainderIs(n * low, d, s, e * m);
  }

  class DivisorLKK {
    const width: nat
    var val: nat
    var fac: nat

    ghost predicate Valid()
      reads this
    {
      Pow2Positive(width);
      && val < Pow2(width)
      && (val != 0 ==> fac == LkkFactor(Pow2(width) * Pow2(width), val))
    }

    constructor (width: nat, n: nat)
      requires n < Pow2(width)
      ensures Valid() && this.width == width && val == n
    {
      this.width := width;
      val, fac := 0, 0;
      new;
      Init(n);
    }

    method Init(n: nat)
      requires n < Pow2(width)
      modifies this
      ensures Valid() && val == n
    {
      Pow2Positive(width);
      val := n;
      if n == 0 {
        fac := 0;
      } else {
        var ones := Pow2(width) * Pow2(width) - 1;
        fac := (ones / n + 1) % (Pow2(width) * Pow2(width));
      }
    }

    function Div(m: nat): (q: nat)
      requires Valid() && val != 0 && m < Pow2(width)
      reads this
      ensures q == m / val
    {
      LkkDivExact(width, val, m);
      Pow2Positive(width);
      if fac == 0 then m else m * fac / (Pow2(width) * Pow2(width)) % Pow2(width)
    }

    function Mod(m: nat): (r: nat)
      requires Valid() && val != 0 && m < Pow2(width)
      reads this
      ensures r == m % val
    {
      LkkModExact(width, val, m);
      Pow2Positive(width);
      val * (m * fac % (Pow2(width) * Pow2(width))) / (Pow2(width) * Pow2(width))
    }
  }

  lemma LkkDivExact(width: nat, n: nat, m: nat)
    requires 0 < n < Pow2(width) && m < Pow2(width)
    ensures var b := Pow2(width);
            && b * b > 0
            && var f := LkkFactor(b * b, n);
               (if f == 0 then m else m * f / (b * b) % b) == m / n
  {
    var b := Pow2(width);
    Pow2Positive(width);
    if n == 1 {
      RemainderIs(b * b, b * b, 1, 0);
    } else {
      LkkFactorIs(b, n);
      LkkExact(b, n, m, LkkFactor(b * b, n));
      QuotientIsWord(m, n, b);
    }
  }

  lemma QuotientIsWord(m: nat, n: nat, b: nat)
    requires 0 < n && m < b
    ensures m / n % b == m / n
  {
    QuotientAtMost(m, n);
    RemainderIs(m / n, b, 0, m / n);
  }

  lemma LkkModExact(width: nat, n: nat, m: nat)
    requires 0 < n < Pow2(width) && m < Pow2(width)
    ensures var b := Pow2(width);
            && b * b > 0
            && n * (m * LkkFactor(b * b, n) % (b * b)) / (b * b) == m % n
  {
    var b := Pow2(width);
    Pow2Positive(width);
    if n == 1 {
      RemainderIs(b * b, b * b, 1, 0);
      RemainderIs(0, b * b, 0, 0);
    } else {
      LkkFactorIs(b, n);
      LkkExact(b, n, m, LkkFactor(b * b, n));
    }
  }

  // ---- The device-side reciprocal ---------------------------------------------------------------

  datatype DivideMode = PowerOfTwo | AddFactor | AddNumerator

  /** Adds `addend` to the two-word number `high`, `low` and keeps the high word. */
  function AddToLow(b: nat, high: nat, low: nat, addend: nat): nat
    requires b > 0
  {
    var sum := (low + addend) % b;
    (high + if sum < low then 1 else 0) % b
  }

  /** The high word of `fac * value + addend`, computed from single words and a carry. */
  function HighWithCarry(b: nat, fac: nat, value: nat, addend: nat): nat
    requires b > 0
  {
    AddToLow(b, Quotient(fac * value, b), fac * value % b, addend)
  }

  lemma CarryExact(b: nat, fac: nat, value: nat, addend: nat)
    requires fac < b && value < b && addend < b
    ensures HighWithCarry(b, fac, value, addend) == (fac * value + addend) / b
  {
    var product := fac * value;
    DoubleWordSumFits(b, fac, value, addend);
    CarryOfProduct(b, product, addend);
  }

  lemma CarryOfProduct(b: nat, product: nat, addend: nat)
    requires addend < b && product + addend < b * b
    ensures AddToLow(b, product / b, product % b, addend) == (product + addend) / b
  {
    DivModSplit(product, b);
    CarryIntoHigh(b, product, product / b, product % b, addend);
  }

  lemma CarryIntoHigh(b: nat, product: nat, high: nat, low: nat, addend: nat)
    requires product == high * b + low && low < b && addend < b && product + addend < b * b
    ensures AddToLow(b, high, low, addend) == (product + addend) / b
  {
    var carry := if low + addend >= b then 1 else 0;
    var rest := if low + addend >= b then low + addend - b else low + addend;
    LowSum(b, low, addend, carry, rest);
    HighSum(b, product + addend, high + carry, high, carry, low + addend, rest);
    RemainderIs(high + carry, b, 0, high + carry);
  }

  /** The wrapped low sum is below the low word exactly if there is a carry. */
  lemma LowSum(b: nat, low: nat, addend: nat, carry: nat, rest: nat)
    requires low < b && addend < b && carry == (if low + addend >= b then 1 else 0)
    requires rest == if low + addend >= b then low + addend - b else low + addend
    ensures (low + addend) % b == rest && (rest < low <==> carry == 1) && low + addend == carry * b + rest && rest < b
  {
    RemainderIs(low + addend, b, carry, rest);
  }

  lemma HighSum(b: nat, total: nat, sum: nat, high: nat, carry: nat, lows: nat, rest: nat)
    requires total == high * b + lows && lows == carry * b + rest && rest < b && sum == high + carry && total < b * b
    ensures total / b == sum < b
  {
    assert sum * b == high * b + carry * b;
    RemainderIs(total, b, sum, rest);
    if sum >= b {
      MulMonotone(b, sum, b);
    }
  }

  ghost predicate IsFastDiv(width: nat, n: nat, factor: nat, shift: nat, mode: DivideMode) {
    && 0 < n < Pow2(width) && IsLog2(n, shift)
    && match mode
       case PowerOfTwo => n == Pow2(shift)
       case _ =>
         && n != Pow2(shift) && factor == Factor(Pow2(shift), Pow2(width), n)
         && (mode == AddNumerator <==> RoundUpError(width, factor, n) <= Pow2(shift))
  }

  function FastQuotient(b: nat, p: nat, factor: nat, mode: DivideMode, value: nat): nat
    requires b > 0 && p > 0
  {
    if mode == PowerOfTwo then Quotient(value, p)
    else Quotient(HighWithCarry(b, factor, value, if mode == AddNumerator then value else factor), p)
  }

  lemma FastDivExact(width: nat, n: nat, factor: nat, shift: nat, mode: DivideMode, value: nat)
    requires IsFastDiv(width, n, factor, shift, mode) && value < Pow2(width)
    ensures FastQuotient(Pow2(width), Pow2(shift), factor, mode, value) == value / n
  {
    FastQuotientExact(width, n, factor, shift, mode, value);
  }

  lemma FastQuotientExact(width: nat, n: nat, factor: nat, shift: nat, mode: DivideMode, value: nat)
    requires IsFastDiv(width, n, factor, shift, mode) && value < Pow2(width)
    ensures FastQuotient(Pow2(width), Pow2(shift), factor, mode, value) == Quotient(value, n)
  {
    if mode != PowerOfTwo {
      RoundUpErrorIs(width, shift, n);
      RoundedQuotient(Pow2(shift), Pow2(width), n, factor, mode == AddNumerator, value);
      CarriedQuotient(Pow2(shift), Pow2(width), n, factor, if mode == AddNumerator then value else factor, value);
      hide HighWithCarry, Pow2, Quotient;
    }
  }

  lemma CarriedQuotient(p: nat, b: nat, n: nat, factor: nat, addend: nat, value: nat)
    requires 0 < n && 0 < p && value < b && factor < b && addend < b
    requires p * b > 0 && Quotient(factor * value + addend, p * b) == Quotient(value, n)
    ensures Quotient(HighWithCarry(b, factor, value, addend), p) == Quotient(value, n)
  {
    hide HighWithCarry, Quotient;
    CarryIsQuotient(b, factor, value, addend);
    HighIsQuotient(p, b, factor * value + addend);
  }

  lemma CarryIsQuotient(b: nat, factor: nat, value: nat, addend: nat)
    requires factor < b && value < b && addend < b
    ensures HighWithCarry(b, factor, value, addend) == Quotient(factor * value + addend, b)
  {
    hide HighWithCarry;
    CarryExact(b, factor, value, addend);
  }

  lemma RoundedQuotient(p: nat, b: nat, n: nat, factor: nat, up: bool, value: nat)
    requires 0 < n < 2 * p && 0 < p && value < b && factor == p * b / n && 0 < p * b % n
    requires up <==> n - p * b % n <= p
    ensures p * b > 0 && Quotient(factor * value + if up then value else factor, p * b) == Quotient(value, n)
  {
    if up {
      RoundUpQuotient(p, b, n, value);
    } else {
      RoundDownQuotient(p, b, n, value);
    }
  }

  lemma HighIsQuotient(p: nat, b: nat, x: nat)
    requires p > 0 && b > 0 && p * b > 0
    ensures Quotient(Quotient(x, b), p) == Quotient(x, p * b)
  {
    DivDiv(x, b, p);
  }

  class FastDiv {
    const width: nat
    var divisor: nat
    var factor: nat
    var shift: nat
    var mode: DivideMode

    ghost predicate Valid()
      reads this
    {
      IsFastDiv(width, divisor, factor, shift, mode)
    }

    constructor Make(width: nat, n: nat)
      requires 0 < n < Pow2(width)
      ensures Valid() && this.width == width && divisor == n
    {
      hide Factor, RoundUpError;
      var s, value := 0, n;
      while value > 1
        invariant value >= 1 && value * Pow2(s) <= n < (value + 1) * Pow2(s)
        decreases value
      {
        HalveBlock(value, Pow2(s), n);
        value := value / 2;
        s := s + 1;
      }
      this.width := width;
      divisor, factor, shift, mode := n, 0, s, PowerOfTwo;
      if Pow2(s) != n {
        var f := Factor(Pow2(s), Pow2(width), n);
        factor := f;
        mode := if RoundUpError(width, f, n) <= Pow2(s) then AddNumerator else AddFactor;
      }
    }

    function Div(value: nat): (q: nat)
      requires Valid() && value < Pow2(width)
      reads this
      ensures q == value / divisor
    {
      FastDivExact(width, divisor, factor, shift, mode, value);
      FastQuotient(Pow2(width), Pow2(shift), factor, mode, value)
    }

    function Mod(value: nat): (r: nat)
      requires Valid() && value < Pow2(width)
      reads this
      ensures r == value % divisor
    {
      RemainderFromQuotient(value, divisor);
      value - Div(value) * divisor
    }
  }

  lemma HalveBlock(value: nat, p: nat, n: nat)
    requires value * p <= n < (value + 1) * p
    ensures (value / 2) * (2 * p) <= n < (value / 2 + 1) * (2 * p)
  {
    var half, bit := value / 2, value % 2;
    MulMonotone(half * 2, value, p);
    MulMonotone(value + 1, (half + 1) * 2, p);
    assert (half * 2) * p == half * (2 * p);
    assert ((half + 1) * 2) * p == (half + 1) * (2 * p);
  }
}
