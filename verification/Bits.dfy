/** Bits of a number, population counts, and the bit operations on byte arrays. */
module Bits {
  import opened Words

  /** Bit `k` of `x`, counted from the least significant. */
  predicate Bit(x: nat, k: nat) {
    x / Pow2(k) % 2 == 1
  }

  /** How many of the lowest `k` bits of `x` are set: a population count. */
  function CountBits(x: nat, k: nat): (n: nat)
    ensures n <= k
  {
    if k == 0 then 0 else CountBits(x, k - 1) + if Bit(x, k - 1) then 1 else 0
  }

  lemma BitOfHalf(x: nat, i: nat)
    ensures Bit(x / 2, i) == Bit(x, i + 1)
  {
    DivDiv(x, 2, Pow2(i));
  }

  /** Joining `lo` below bit `a` and `hi` from bit `a` on keeps every bit of both. */
  lemma {:induction false} BitJoin(lo: nat, hi: nat, a: nat, i: nat)
    requires lo < Pow2(a)
    ensures Bit(lo + Pow2(a) * hi, i) == if i < a then Bit(lo, i) else Bit(hi, i - a)
    decreases a
  {
    if a != 0 {
      var rest := Pow2(a - 1) * hi;
      assert Pow2(a) * hi == 2 * rest;
      if i == 0 {
        ParityOfShifted(lo, rest);
      } else {
        BitOfHalf(lo + 2 * rest, i - 1);
        BitOfHalf(lo, i - 1);
        assert (lo + 2 * rest) / 2 == lo / 2 + rest;
        BitJoin(lo / 2, hi, a - 1, i - 1);
      }
    }
  }

  lemma ParityOfShifted(a: nat, g: nat)
    ensures Bit(a + 2 * g, 0) == Bit(a, 0)
  {
  }

  /** `x & (2^k - 1)` keeps the lowest `k` bits and clears the rest. */
  lemma BitOfMasked(x: nat, k: nat, i: nat)
    ensures Bit(x % Pow2(k), i) == (i < k && Bit(x, i))
  {
    hide Bit, Pow2;
    DivModSplit(x, Pow2(k));
    BitOfParts(x, k, i, Quotient(x, Pow2(k)), x % Pow2(k));
  }

  lemma BitOfParts(x: nat, k: nat, i: nat, hi: nat, lo: nat)
    requires lo < Pow2(k) && x == hi * Pow2(k) + lo
    ensures Bit(lo, i) == (i < k && Bit(x, i))
  {
    hide Bit;
    BitJoin(lo, hi, k, i);
    BitJoin(lo, 0, k, i);
    if i >= k {
      BitOfZero(i - k);
    }
  }

  lemma BitOfZero(i: nat)
    ensures !Bit(0, i)
  {
    RemainderIs(0, Pow2(i), 0, 0);
  }

  /** Numbers below `2^k` with the same lowest `k` bits are equal. */
  lemma {:induction false} SameBits(x: nat, y: nat, k: nat)
    requires x < Pow2(k) && y < Pow2(k)
    requires forall i :: 0 <= i < k ==> Bit(x, i) == Bit(y, i)
    ensures x == y
  {
    if k != 0 {
      forall i | 0 <= i < k - 1 ensures Bit(x / 2, i) == Bit(y / 2, i) {
        BitOfHalf(x, i);
        BitOfHalf(y, i);
        assert Bit(x, i + 1) == Bit(y, i + 1);
      }
      SameBits(x / 2, y / 2, k - 1);
      assert Bit(x, 0) == Bit(y, 0);
    }
  }

  // ---- Bytes ------------------------------------------------------------------------------------

  /** `b | (1 << k)` */
  function OrBit(b: byte, k: nat): byte
    requires k < 8
  {
    if Bit(b, k) then b else ByteRoom(b, k); b + Pow2(k)
  }

  /** `b & ~(1 << k)` */
  function AndNotBit(b: byte, k: nat): byte {
    if Bit(b, k) then SubtractPresentBit(b, k, k); b - Pow2(k) else b
  }

  /** Adding an absent power of two sets exactly that bit. */
  lemma AddAbsentBit(b: nat, k: nat, i: nat)
    requires !Bit(b, k)
    ensures Bit(b + Pow2(k), i) == (i == k || Bit(b, i))
  {
    var p := Pow2(k);
    DivModSplit(b, p);
    var lo, h := b % p, b / p;
    assert b + p == lo + p * (h + 1);
    BitJoin(lo, h, k, i);
    BitJoin(lo, h + 1, k, i);
    if i >= k {
      AddToEven(h, i - k);
    }
  }

  lemma AddToEven(h: nat, i: nat)
    requires h % 2 == 0
    ensures Bit(h + 1, i) == (i == 0 || Bit(h, i))
  {
    if i > 0 {
      BitOfHalf(h, i - 1);
      BitOfHalf(h + 1, i - 1);
    }
  }

  lemma SubtractPresentBit(b: nat, k: nat, i: nat)
    requires Bit(b, k)
    ensures b >= Pow2(k) && Bit(b - Pow2(k), i) == (i != k && Bit(b, i))
  {
    AbsentAfter(b, k);
    hide Bit, Pow2;
    AddAbsentBit(b - Pow2(k), k, i);
  }

  lemma AbsentAfter(b: nat, k: nat)
    requires Bit(b, k)
    ensures b >= Pow2(k) && !Bit(b - Pow2(k), k)
  {
    OneLess(b, Pow2(k), b / Pow2(k), b % Pow2(k));
  }

  lemma OneLess(b: nat, p: nat, q: nat, r: nat)
    requires p > 0 && q == b / p && r == b % p && q >= 1
    ensures b >= p && (b - p) / p == q - 1
  {
    DivModSplit(b, p);
    TakeOne(b, p, q, r);
    RemainderIs(b - p, p, q - 1, r);
  }

  lemma TakeOne(b: nat, p: nat, q: nat, r: nat)
    requires b == q * p + r && q >= 1
    ensures b >= p && b - p == (q - 1) * p + r
  {
    MulMonotone(1, q, p);
  }

  lemma OrBitIs(b: byte, k: nat, i: nat)
    requires k < 8
    ensures Bit(OrBit(b, k), i) == (i == k || Bit(b, i))
  {
    if !Bit(b, k) {
      AddAbsentBit(b, k, i);
    }
  }

  lemma ByteRoom(b: byte, k: nat)
    requires k < 8 && !Bit(b, k)
    ensures b + Pow2(k) < 0x100
  {
    hide Pow2;
    SmallPowers();
    assert k in {0, 1, 2, 3, 4, 5, 6, 7};
  }

  lemma SmallPowers()
    ensures Pow2(0) == 1 && Pow2(1) == 2 && Pow2(2) == 4 && Pow2(3) == 8
    ensures Pow2(4) == 16 && Pow2(5) == 32 && Pow2(6) == 64 && Pow2(7) == 128
  {
    assert Pow2(3) == 8 && Pow2(5) == 32;
  }

  lemma AndNotBitIs(b: byte, k: nat, i: nat)
    ensures Bit(AndNotBit(b, k), i) == (i != k && Bit(b, i))
  {
    if Bit(b, k) {
      SubtractPresentBit(b, k, i);
    }
  }

  // ---- Bitmaps ----------------------------------------------------------------------------------

  predicate BitAt(bytes: seq<byte>, pos: nat)
    requires pos < 8 * |bytes|
  {
    Bit(bytes[pos / 8], pos % 8)
  }

  /** The positions of the set bits of a bitmap. */
  ghost function SetBits(bytes: seq<byte>): set<nat> {
    set pos | 0 <= pos < 8 * |bytes| && BitAt(bytes, pos)
  }

  /** A bitmap is determined by its set bits, byte for byte. */
  lemma SetBitsDetermine(a: seq<byte>, b: seq<byte>)
    requires |a| == |b| && SetBits(a) == SetBits(b)
    ensures a == b
  {
    forall j | 0 <= j < |a| ensures a[j] == b[j] {
      forall i | 0 <= i < 8 ensures Bit(a[j], i) == Bit(b[j], i) {
        var pos := 8 * j + i;
        assert pos / 8 == j && pos % 8 == i;
        assert (pos in SetBits(a)) == BitAt(a, pos);
        assert (pos in SetBits(b)) == BitAt(b, pos);
      }
      Pow2Words();
      SameBits(a[j], b[j], 8);
    }
  }

  lemma UpdatedBits(bytes: seq<byte>, pos: nat, b: byte, value: bool)
    requires pos < 8 * |bytes|
    requires forall i :: 0 <= i < 8 ==> Bit(b, i) == if i == pos % 8 then value else Bit(bytes[pos / 8], i)
    ensures SetBits(bytes[pos / 8 := b]) == if value then SetBits(bytes) + {pos} else SetBits(bytes) - {pos}
  {
    var after := bytes[pos / 8 := b];
    forall q | 0 <= q < 8 * |bytes|
      ensures BitAt(after, q) == if q == pos then value else BitAt(bytes, q)
    {
      if q / 8 == pos / 8 {
        assert Bit(b, q % 8) == if q % 8 == pos % 8 then value else Bit(bytes[pos / 8], q % 8);
      }
    }
    assert forall q :: q in SetBits(after) <==> 0 <= q < 8 * |bytes| && BitAt(after, q);
    assert forall q :: q in SetBits(bytes) <==> 0 <= q < 8 * |bytes| && BitAt(bytes, q);
  }

  method TestAndSetBit(bitmap: array<byte>, pos: nat) returns (taken: bool)
    requires pos < 8 * bitmap.Length
    modifies bitmap
    ensures taken == (pos !in old(SetBits(bitmap[..])))
    ensures SetBits(bitmap[..]) == old(SetBits(bitmap[..])) + {pos}
  {
    var b := bitmap[pos / 8];
    assert (pos in SetBits(bitmap[..])) == Bit(b, pos % 8) by {
      assert BitAt(bitmap[..], pos) == Bit(b, pos % 8);
    }
    if Bit(b, pos % 8) {
      return false;
    }
    forall i ensures Bit(OrBit(b, pos % 8), i) == (i == pos % 8 || Bit(b, i)) {
      OrBitIs(b, pos % 8, i);
    }
    UpdatedBits(bitmap[..], pos, OrBit(b, pos % 8), true);
    ghost var before := bitmap[..];
    bitmap[pos / 8] := OrBit(b, pos % 8);
    assert bitmap[..] == before[pos / 8 := OrBit(b, pos % 8)];
    return true;
  }

  method ClearBit(bitmap: array<byte>, pos: nat)
    requires pos < 8 * bitmap.Length
    modifies bitmap
    ensures SetBits(bitmap[..]) == old(SetBits(bitmap[..])) - {pos}
  {
    var b := bitmap[pos / 8];
    forall i ensures Bit(AndNotBit(b, pos % 8), i) == (i != pos % 8 && Bit(b, i)) {
      AndNotBitIs(b, pos % 8, i);
    }
    UpdatedBits(bitmap[..], pos, AndNotBit(b, pos % 8), false);
    ghost var before := bitmap[..];
    bitmap[pos / 8] := AndNotBit(b, pos % 8);
    assert bitmap[..] == before[pos / 8 := AndNotBit(b, pos % 8)];
  }
}
