/** Sizes fixed by the pack format, and the skewed first-level map built on them. */
module PackFormat {
  import opened Words
  import opened Division

  const L1H_MAX: nat := 0x7fff_ffff
  const L1CELL: nat := 5
  const L1TIP: nat := L1H_MAX / L1CELL
  const L1SPAN: nat := L1H_MAX * (L1H_MAX + L1TIP)
  const BITMAP_SECTION_SIZE: nat := 28 * 8

  function L1Size(item: u32): (n: u32)
    ensures item > 0 ==> n > 0
  {
    (item + (L1CELL - 1)) / L1CELL
  }

  function L1Band(item: u32): (band: u64)
    requires item > 0
    ensures band > 0
  {
    var l1sz := L1Size(item);
    CeilingBounds(L1SPAN, l1sz);
    (L1SPAN + (l1sz - 1)) / l1sz
  }

  function L2Size(item: u32): u64 {
    item * 2 + 1
  }

  function SectionSize(item: u32): u32 {
    (L2Size(item) + (BITMAP_SECTION_SIZE - 1)) / BITMAP_SECTION_SIZE
  }

  function BitmapSize(item: u32): (n: u32)
    ensures 8 * n >= L2Size(item)
  {
    SectionSize(item) * (BITMAP_SECTION_SIZE / 8)
  }

  /** One cell for every five items, two places for each item and one more, and sections of 224 places, each
      rounded up as little as possible. */
  lemma SizesInFigures(item: u32)
    ensures 5 * L1Size(item) >= item && 5 * L1Size(item) < item + 5
    ensures L2Size(item) == 2 * item + 1
    ensures 224 * SectionSize(item) >= 2 * item + 1 && 224 * SectionSize(item) < 2 * item + 1 + 224
    ensures BitmapSize(item) == 28 * SectionSize(item)
  {
  }

  lemma CeilingBounds(x: nat, d: nat)
    requires d > 0 && x >= d
    ensures var c := (x + (d - 1)) / d; x <= c * d < x + d && 0 < c <= x
  {
    DivModSplit(x + (d - 1), d);
    CeilingRange(x, d, (x + (d - 1)) / d);
  }

  lemma CeilingRange(x: nat, d: nat, c: int)
    requires d > 0 && x >= d && x <= c * d < x + d
    ensures 0 < c <= x
  {
    if c <= 0 {
      MulMonotone(c, 0, d);
    }
    if x < c {
      MulMonotone(x + 1, c, d);
      MulMonotone(1, d, x);
    }
  }

  // ---- The skew map -----------------------------------------------------------------------------

  function Masked(code: u32): nat {
    code % 0x8000_0000
  }

  function Skewed(x: nat): nat {
    x * (x + L1TIP)
  }

  function SkewMap(code: u32, band: u64): u32
    requires band > 0
  {
    Quotient(Skewed(Masked(code)), band) % 0x1_0000_0000
  }

  /** No 64-bit intermediate overflows: neither the products nor the rounding sum. */
  lemma SkewNoOverflow(code: u32, item: u32)
    requires item > 0
    ensures Skewed(Masked(code)) <= L1SPAN
    ensures L1SPAN + (L1Size(item) - 1) < 0x1_0000_0000_0000_0000
  {
    SkewedMonotone(Masked(code), L1H_MAX);
  }

  lemma SkewedMonotone(x: nat, y: nat)
    requires x <= y
    ensures Skewed(x) <= Skewed(y)
  {
    MulMonotone(x, y, x + L1TIP);
    MulMonotone(x + L1TIP, y + L1TIP, y);
  }

  lemma QuotientMonotone(x: nat, y: nat, d: nat)
    requires x <= y && d > 0
    ensures Quotient(x, d) <= Quotient(y, d)
  {
    DivModSplit(x, d);
    DivModSplit(y, d);
    if Quotient(x, d) > Quotient(y, d) {
      MulMonotone(y / d + 1, x / d, d);
    }
  }

  /** The largest code maps to at most the number of cells, and to exactly that number
      if and only if the number of cells divides the span. */
  lemma TopQuotient(item: u32)
    requires item > 0
    ensures Quotient(L1SPAN, L1Band(item)) <= L1Size(item)
    ensures Quotient(L1SPAN, L1Band(item)) == L1Size(item) <==> L1SPAN % L1Size(item) == 0
  {
    CeilingBounds(L1SPAN, L1Size(item));
    CeilingQuotient(L1SPAN, L1Size(item), L1Band(item));
  }

  /** Dividing by the rounded-up share gives back the number of shares only if nothing was rounded. */
  lemma CeilingQuotient(x: nat, n: nat, c: nat)
    requires 0 < n && 0 < c && x <= c * n < x + n
    ensures Quotient(x, c) <= n
    ensures Quotient(x, c) == n <==> x % n == 0
  {
    DivModSplit(x, c);
    var q := x / c;
    if q > n {
      MulMonotone(n + 1, q, c);
    }
    if x % n == 0 {
      ExactCeiling(x, n, c);
      RemainderIs(x, c, n, 0);
    } else if q == n {
      RemainderIs(x, n, c, 0);
    }
  }

  lemma ExactCeiling(x: nat, n: nat, c: nat)
    requires n > 0 && x % n == 0 && x <= c * n < x + n
    ensures c * n == x
  {
    DivModSplit(x, n);
    if c > x / n {
      MulMonotone(x / n + 1, c, n);
    }
  }

  /** The quotient needs no truncation: it never exceeds the number of cells. */
  lemma SkewMapIs(code: u32, item: u32)
    requires item > 0
    ensures SkewMap(code, L1Band(item)) == Quotient(Skewed(Masked(code)), L1Band(item)) <= L1Size(item)
  {
    SkewedMonotone(Masked(code), L1H_MAX);
    QuotientMonotone(Skewed(Masked(code)), L1SPAN, L1Band(item));
    TopQuotient(item);
  }

  /** The map in figures, with `x` the low 31 bits of the code: `x * (x + 429496729)`, divided by the share of a cell
      of the largest such product, which is rounded up as little as possible. */
  lemma SkewMapInFigures(code: u32, item: u32)
    requires item > 0
    ensures var x, band, cell := code % 0x8000_0000, L1Band(item), SkewMap(code, L1Band(item));
            && cell * band <= x * (x + 429496729) < (cell + 1) * band
            && (band - 1) * L1Size(item) < 2147483647 * (2147483647 + 429496729) <= band * L1Size(item)
  {
    SkewMapIs(code, item);
    CeilingBounds(L1SPAN, L1Size(item));
    CeilingTight(L1SPAN, L1Size(item), L1Band(item));
    var x := Masked(code);
    assert Skewed(x) == x * (x + 429496729);
    QuotientBounds(Skewed(x), L1Band(item));
  }

  lemma CeilingTight(x: nat, n: nat, c: nat)
    requires n > 0 && c * n < x + n
    ensures (c - 1) * n < x
  {
  }

  lemma QuotientBounds(x: nat, d: nat)
    requires d > 0
    ensures Quotient(x, d) * d <= x < (Quotient(x, d) + 1) * d
  {
    DivModSplit(x, d);
  }

  /** Codes keep their order, and the map never exceeds the number of cells. */
  lemma SkewMapMonotone(a: u32, b: u32, item: u32)
    requires item > 0 && Masked(a) <= Masked(b)
    ensures SkewMap(a, L1Band(item)) <= SkewMap(b, L1Band(item)) <= L1Size(item)
  {
    SkewMapIs(a, item);
    SkewMapIs(b, item);
    SkewedMonotone(Masked(a), Masked(b));
    QuotientMonotone(Skewed(Masked(a)), Skewed(Masked(b)), L1Band(item));
  }

  lemma BelowTop(x: nat, item: u32)
    requires item > 0 && x < L1SPAN
    ensures Quotient(x, L1Band(item)) < L1Size(item)
  {
    CeilingBounds(L1SPAN, L1Size(item));
    BelowCeiling(x, L1Band(item), L1Size(item));
  }

  lemma BelowCeiling(x: nat, band: nat, n: nat)
    requires band > 0 && x < band * n
    ensures Quotient(x, band) < n
  {
    DivModSplit(x, band);
    if Quotient(x, band) >= n {
      MulMonotone(n, x / band, band);
    }
  }

  /** Exactly when a code is mapped inside the cell table. */
  lemma SkewMapInRange(code: u32, item: u32)
    requires item > 0
    ensures SkewMap(code, L1Band(item)) < L1Size(item)
            <==> (Masked(code) < L1H_MAX || L1SPAN % L1Size(item) != 0)
  {
    SkewMapIs(code, item);
    if Masked(code) < L1H_MAX {
      SkewedMonotone(Masked(code), L1H_MAX - 1);
      BelowTop(Skewed(Masked(code)), item);
    } else {
      TopQuotient(item);
    }
  }

  /** The bound fails: with at most five items there is one cell, and the all-ones code maps past it. */
  lemma SkewMapEscapes(item: u32)
    requires 0 < item <= 5
    ensures SkewMap(0xffff_ffff, L1Band(item)) == L1Size(item) == 1
  {
    SkewMapInRange(0xffff_ffff, item);
    SkewMapIs(0xffff_ffff, item);
  }

  /** The same map through the reciprocal the code divides with. */
  function SkewMapFast(code: u32, item: u32, band: DivisorMR): (cell: nat)
    requires item > 0
    requires band.Valid() && band.width == 64 && band.val == L1Band(item)
    reads band
    ensures cell == SkewMap(code, L1Band(item))
  {
    SkewFitsWord(code, item);
    band.Div(Skewed(Masked(code))) % 0x1_0000_0000
  }

  lemma SkewFitsWord(code: u32, item: u32)
    requires item > 0
    ensures Skewed(Masked(code)) < Pow2(64)
  {
    SkewNoOverflow(code, item);
    Pow2Words();
  }
}
