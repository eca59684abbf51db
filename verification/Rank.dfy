/** Ranks over the displacement bitmap: sections of 224 bits, each with the count of all bits before it. */
module Rank {
  import opened Words
  import opened Bits
  import opened PackFormat

  /** Seven 32-bit words of bitmap followed by the number of set bits in all earlier sections. */
  datatype Section = Section(b32: seq<u32>, step: u32) {
    ghost predicate Valid() {
      |b32| == 7
    }

    /** The aligned 64-bit word `k` as the search reads it; the last one overlaps `step`. */
    function Word64(k: nat): u64
      requires |b32| == 7 && k < 4
    {
      Pair32(b32[2 * k], if k < 3 then b32[2 * k + 1] else step)
    }

    function WholeWords64(n: nat): nat
      requires |b32| == 7 && n <= 3
    {
      if n == 0 then 0 else WholeWords64(n - 1) + CountBits(Word64(n - 1), 64)
    }

    /** The host search: whole 64-bit words, then the word of the position under a mask. */
    function HostCount(off: nat): nat
      requires |b32| == 7 && off < BITMAP_SECTION_SIZE
    {
      WholeWords64(off / 64) + CountBits(Word64(off / 64) % Pow2(off % 64), 64)
    }

    function WholeWords32(n: nat): nat
      requires |b32| == 7 && n <= 7
    {
      if n == 0 then 0 else WholeWords32(n - 1) + CountBits(b32[n - 1], 32)
    }

    /** The device search: the same with 32-bit words. */
    function DeviceCount(off: nat): nat
      requires |b32| == 7 && off < BITMAP_SECTION_SIZE
    {
      WholeWords32(off / 32) + CountBits(b32[off / 32] % Pow2(off % 32), 32)
    }

    /** Bit `off` of the section. */
    predicate SectionBit(off: nat)
      requires |b32| == 7 && off < BITMAP_SECTION_SIZE
    {
      Bit(b32[off / 32], off % 32)
    }

    /** How many of the first `off` bits are set. */
    ghost function CountBefore(off: nat): nat
      requires |b32| == 7 && off <= BITMAP_SECTION_SIZE
    {
      if off == 0 then 0 else CountBefore(off - 1) + if SectionBit(off - 1) then 1 else 0
    }

    lemma {:induction false} CountInWord(w: nat, j: nat)
      requires |b32| == 7 && w < 7 && j <= 32
      ensures CountBefore(32 * w + j) == CountBefore(32 * w) + CountBits(b32[w], j)
      decreases j
    {
      hide Bit;
      if j > 0 {
        CountInWord(w, j - 1);
        assert (32 * w + j - 1) / 32 == w && (32 * w + j - 1) % 32 == j - 1;
      }
    }

    lemma {:induction false} WholeWords32Exact(n: nat)
      requires |b32| == 7 && n <= 7
      ensures WholeWords32(n) == CountBefore(32 * n)
    {
      if n > 0 {
        WholeWords32Exact(n - 1);
        CountInWord(n - 1, 32);
      }
    }

    lemma {:induction false} WholeWords64Exact(n: nat)
      requires |b32| == 7 && n <= 3
      ensures WholeWords64(n) == CountBefore(64 * n)
    {
      if n > 0 {
        WholeWords64Exact(n - 1);
        WholeWord64(n - 1);
        hide CountBefore, CountBits, Word64;
      }
    }

    lemma WholeWord64(k: nat)
      requires |b32| == 7 && k < 3
      ensures CountBefore(64 * k + 64) == CountBefore(64 * k) + CountBits(Word64(k), 64)
    {
      hide CountBefore, CountBits;
      CountInWord(2 * k, 32);
      CountInWord(2 * k + 1, 32);
      CountJoin(b32[2 * k], b32[2 * k + 1], 32);
    }

    lemma DeviceExact(off: nat)
      requires |b32| == 7 && off < BITMAP_SECTION_SIZE
      ensures DeviceCount(off) == CountBefore(off)
    {
      hide CountBits, CountBefore, WholeWords32;
      var w, j := off / 32, off % 32;
      assert off == 32 * w + j;
      WholeWords32Exact(w);
      CountInWord(w, j);
      CountMasked(b32[w], j, 32);
    }

    /** `step`, which shares the last 64-bit word, never leaks into the masked count. */
    lemma HostTail(v: nat, k: nat)
      requires |b32| == 7 && v < 4 && k < 64 && 64 * v + k < BITMAP_SECTION_SIZE
      ensures CountBefore(64 * v + k) == CountBefore(64 * v) + CountBits(Word64(v), k)
    {
      hide CountBits, CountBefore;
      if k < 32 {
        CountInWord(2 * v, k);
        CountLow(b32[2 * v], if v < 3 then b32[2 * v + 1] else step, k);
      } else {
        CountInWord(2 * v, 32);
        CountInWord(2 * v + 1, k - 32);
        CountJoin(b32[2 * v], b32[2 * v + 1], k - 32);
      }
    }

    /** Both searches count exactly the set bits strictly below the position. */
    lemma CountsAgree(off: nat)
      requires |b32| == 7 && off < BITMAP_SECTION_SIZE
      ensures HostCount(off) == CountBefore(off)
      ensures DeviceCount(off) == CountBefore(off)
    {
      hide CountBits, CountBefore, WholeWords64, Word64, DeviceCount;
      DeviceExact(off);
      var v, k := off / 64, off % 64;
      assert off == 64 * v + k;
      WholeWords64Exact(v);
      HostTail(v, k);
      CountMasked(Word64(v), k, 64);
    }
  }

  function Pair32(lo: u32, hi: u32): u64 {
    lo as int + 0x1_0000_0000 * hi as int
  }

  lemma {:induction false} CountLow(lo: u32, hi: u32, j: nat)
    requires j <= 32
    ensures CountBits(Pair32(lo, hi), j) == CountBits(lo, j)
  {
    hide Bit;
    if j > 0 {
      CountLow(lo, hi, j - 1);
      PairBit(lo, hi, j - 1);
    }
  }

  lemma PairBit(lo: u32, hi: u32, i: nat)
    ensures Bit(Pair32(lo, hi), i) == if i < 32 then Bit(lo, i) else Bit(hi, i - 32)
  {
    hide Bit;
    Pow2Words();
    BitJoin(lo, hi, 32, i);
  }

  lemma {:induction false} CountJoin(lo: u32, hi: u32, j: nat)
    ensures CountBits(Pair32(lo, hi), 32 + j) == CountBits(lo, 32) + CountBits(hi, j)
  {
    hide Bit;
    if j == 0 {
      CountLow(lo, hi, 32);
    } else {
      CountJoin(lo, hi, j - 1);
      PairBit(lo, hi, 32 + j - 1);
    }
  }

  lemma {:induction false} CountMaskedPart(x: nat, j: nat, n: nat)
    ensures CountBits(x % Pow2(j), n) == CountBits(x, Min(j, n))
  {
    hide Bit;
    if n > 0 {
      CountMaskedPart(x, j, n - 1);
      BitOfMasked(x, j, n - 1);
    }
  }

  lemma CountMasked(x: nat, j: nat, n: nat)
    requires j <= n
    ensures CountBits(x % Pow2(j), n) == CountBits(x, j)
  {
    CountMaskedPart(x, j, n);
  }

  // ---- The bitmap behind the sections -----------------------------------------------------------

  function FromBytes(b0: byte, b1: byte, b2: byte, b3: byte): u32 {
    b0 as int + 0x100 * (b1 as int + 0x100 * (b2 as int + 0x100 * b3 as int))
  }

  /** The little-endian word `k` of a byte sequence. */
  function Word32(bytes: seq<byte>, k: nat): u32
    requires 4 * k + 4 <= |bytes|
  {
    FromBytes(bytes[4 * k], bytes[4 * k + 1], bytes[4 * k + 2], bytes[4 * k + 3])
  }

  lemma ByteJoin(b: byte, rest: nat, i: nat)
    ensures Bit(b as int + 0x100 * rest, i) == if i < 8 then Bit(b, i) else Bit(rest, i - 8)
  {
    hide Bit;
    Pow2Words();
    BitJoin(b, rest, 8, i);
  }

  lemma FromBytesBit(b0: byte, b1: byte, b2: byte, b3: byte, i: nat)
    requires i < 32
    ensures Bit(FromBytes(b0, b1, b2, b3), i) == Bit([b0, b1, b2, b3][i / 8], i % 8)
  {
    hide Bit;
    ByteJoin(b0, b1 as int + 0x100 * (b2 as int + 0x100 * b3 as int), i);
    if i >= 8 {
      ByteJoin(b1, b2 as int + 0x100 * b3 as int, i - 8);
      if i >= 16 {
        ByteJoin(b2, b3, i - 16);
      }
    }
  }

  lemma WordBit(bytes: seq<byte>, k: nat, i: nat)
    requires 4 * k + 4 <= |bytes| && i < 32
    ensures Bit(Word32(bytes, k), i) == BitAt(bytes, 32 * k + i)
  {
    hide Bit, FromBytes;
    FromBytesBit(bytes[4 * k], bytes[4 * k + 1], bytes[4 * k + 2], bytes[4 * k + 3], i);
    assert (32 * k + i) / 8 == 4 * k + i / 8 && (32 * k + i) % 8 == i % 8;
    assert i / 8 in {0, 1, 2, 3};
  }

  /** How many set bits a bitmap has below a position. */
  ghost function RankOf(bits: set<nat>, pos: nat): nat {
    |set q | q in bits && q < pos|
  }

  lemma RankStep(bits: set<nat>, pos: nat)
    ensures RankOf(bits, pos + 1) == RankOf(bits, pos) + if pos in bits then 1 else 0
  {
    var a := set q | q in bits && q < pos;
    var b := set q | q in bits && q < pos + 1;
    if pos in bits {
      assert b == a + {pos};
    } else {
      assert b == a;
    }
  }

  lemma RankStart(bits: set<nat>)
    ensures RankOf(bits, 0) == 0
  {
    assert (set q | q in bits && q < 0) == {};
  }

  lemma RankAll(bits: set<nat>, pos: nat)
    ensures RankOf(bits, pos) <= |bits|
    ensures (forall q :: q in bits ==> q < pos) ==> RankOf(bits, pos) == |bits|
  {
    var a := set q | q in bits && q < pos;
    var rest := set q | q in bits && q >= pos;
    assert bits == a + rest && a !! rest;
    if forall q :: q in bits ==> q < pos {
      assert a == bits;
    }
  }

  /** Ranks are strictly ascending along the set positions: a bijection onto `[0, |bits|)`. */
  lemma {:induction false} RankAscends(bits: set<nat>, p: nat, q: nat)
    requires p < q && p in bits
    ensures RankOf(bits, p) < RankOf(bits, q)
    decreases q
  {
    RankStep(bits, q - 1);
    if p < q - 1 {
      RankAscends(bits, p, q - 1);
    }
  }

  lemma RankInside(bits: set<nat>, p: nat)
    requires p in bits
    ensures RankOf(bits, p) < |bits|
  {
    RankStep(bits, p);
    RankAll(bits, p + 1);
  }

  // ---- Sections of a bitmap ---------------------------------------------------------------------

  /** The sections hold the words of the bitmap, and each `step` is the rank of the section's first bit. */
  ghost predicate Indexes(sections: seq<Section>, bytes: seq<byte>, n: nat) {
    && n <= |sections| && 28 * n <= |bytes|
    && forall s :: 0 <= s < n ==> IndexesAt(sections[s], bytes, s)
  }

  ghost predicate IndexesAt(sec: Section, bytes: seq<byte>, s: nat)
    requires 28 * s + 28 <= |bytes|
  {
    && sec.Valid()
    && (forall w :: 0 <= w < 7 ==> sec.b32[w] == Word32(bytes, 7 * s + w))
    && sec.step == RankOf(SetBits(bytes), 224 * s)
  }

  lemma {:induction false} SectionRank(sec: Section, bytes: seq<byte>, s: nat, off: nat)
    requires 28 * s + 28 <= |bytes| && off <= 224 && sec.Valid()
    requires forall w :: 0 <= w < 7 ==> sec.b32[w] == Word32(bytes, 7 * s + w)
    ensures RankOf(SetBits(bytes), 224 * s + off) == RankOf(SetBits(bytes), 224 * s) + sec.CountBefore(off)
  {
    hide Bit, RankOf, Word32, Section.SectionBit;
    if off > 0 {
      SectionRank(sec, bytes, s, off - 1);
      var q := 224 * s + off - 1;
      RankStep(SetBits(bytes), q);
      SectionBitIs(sec, bytes, s, off - 1);
      hide SetBits;
    }
  }

  lemma SectionBitIs(sec: Section, bytes: seq<byte>, s: nat, i: nat)
    requires 28 * s + 28 <= |bytes| && i < 224 && sec.Valid()
    requires forall w :: 0 <= w < 7 ==> sec.b32[w] == Word32(bytes, 7 * s + w)
    ensures sec.SectionBit(i) <==> 224 * s + i in SetBits(bytes)
  {
    hide Bit, Word32;
    var q := 224 * s + i;
    WordBit(bytes, 7 * s + i / 32, i % 32);
    assert q == 32 * (7 * s + i / 32) + i % 32;
    assert (q in SetBits(bytes)) == BitAt(bytes, q);
  }

  /** The stored step plus the count inside the section is the rank in the whole bitmap, on host and device. */
  lemma SearchRank(sections: seq<Section>, bytes: seq<byte>, pos: nat)
    requires Indexes(sections, bytes, |sections|) && pos < 224 * |sections|
    ensures var sec := sections[pos / 224];
            && sec.Valid()
            && sec.step + sec.HostCount(pos % 224) == RankOf(SetBits(bytes), pos)
            && sec.step + sec.DeviceCount(pos % 224) == RankOf(SetBits(bytes), pos)
  {
    hide RankOf, Word32;
    var s, off := pos / 224, pos % 224;
    assert IndexesAt(sections[s], bytes, s);
    SectionRank(sections[s], bytes, s, off);
    sections[s].CountsAgree(off);
  }

  /** Cuts the bitmap into sections and returns the total number of set bits. */
  method BuildSections(bitmap: array<byte>, n: nat) returns (sections: array<Section>, step: nat)
    requires bitmap.Length == 28 * n && |SetBits(bitmap[..])| < 0x1_0000_0000
    ensures fresh(sections) && sections.Length == n && Indexes(sections[..], bitmap[..], n)
    ensures step == |SetBits(bitmap[..])|
  {
    hide RankOf, SetBits, IndexesAt, Indexes, Word32, SectionPopulation;
    ghost var bytes := bitmap[..];
    ghost var bits := SetBits(bytes);
    sections := new Section[n](_ => Section([0, 0, 0, 0, 0, 0, 0], 0));
    step := 0;
    RankStart(bits);
    for i := 0 to n
      invariant bitmap[..] == bytes && step == RankOf(bits, 224 * i)
      invariant forall s :: 0 <= s < i ==> IndexesAt(sections[s], bytes, s)
    {
      RankAll(bits, 224 * i);
      var words := WordsAt(bitmap, i);
      var sec := Section(words, step);
      NextSection(sec, bytes, i);
      step := step + SectionPopulation(sec);
      sections[i] := sec;
    }
    IndexesAll(sections[..], bytes, n);
    AllBelow(bytes);
    RankAll(bits, 224 * n);
  }

  method WordsAt(bitmap: array<byte>, i: nat) returns (words: seq<u32>)
    requires 28 * i + 28 <= bitmap.Length
    ensures |words| == 7 && forall w :: 0 <= w < 7 ==> words[w] == Word32(bitmap[..], 7 * i + w)
  {
    words := [];
    for w := 0 to 7
      invariant |words| == w && forall k :: 0 <= k < w ==> words[k] == Word32(bitmap[..], 7 * i + k)
    {
      words := words + [Word32(bitmap[..], 7 * i + w)];
    }
  }

  /** One 32-bit count and three counts of 64-bit words that start at the second word. */
  function SectionPopulation(sec: Section): nat
    requires sec.Valid()
  {
    CountBits(sec.b32[0], 32)
    + CountBits(Pair32(sec.b32[1], sec.b32[2]), 64)
    + CountBits(Pair32(sec.b32[3], sec.b32[4]), 64)
    + CountBits(Pair32(sec.b32[5], sec.b32[6]), 64)
  }

  lemma PopulationExact(sec: Section)
    requires sec.Valid()
    ensures SectionPopulation(sec) == sec.CountBefore(224)
  {
    hide CountBits, Section.CountBefore;
    sec.WholeWords32Exact(7);
    WholeWordsUnfold(sec);
    CountJoin(sec.b32[1], sec.b32[2], 32);
    CountJoin(sec.b32[3], sec.b32[4], 32);
    CountJoin(sec.b32[5], sec.b32[6], 32);
  }

  lemma WholeWordsUnfold(sec: Section)
    requires sec.Valid()
    ensures sec.WholeWords32(7) == CountBits(sec.b32[0], 32) + CountBits(sec.b32[1], 32) + CountBits(sec.b32[2], 32)
                                   + CountBits(sec.b32[3], 32) + CountBits(sec.b32[4], 32) + CountBits(sec.b32[5], 32)
                                   + CountBits(sec.b32[6], 32)
  {
    hide CountBits;
    assert sec.WholeWords32(1) == CountBits(sec.b32[0], 32);
    assert sec.WholeWords32(2) == CountBits(sec.b32[0], 32) + CountBits(sec.b32[1], 32);
    assert sec.WholeWords32(4) == sec.WholeWords32(2) + CountBits(sec.b32[2], 32) + CountBits(sec.b32[3], 32);
    assert sec.WholeWords32(6) == sec.WholeWords32(4) + CountBits(sec.b32[4], 32) + CountBits(sec.b32[5], 32);
  }

  lemma SectionTotal(sec: Section, bytes: seq<byte>, i: nat)
    requires 28 * i + 28 <= |bytes| && sec.Valid()
    requires forall w :: 0 <= w < 7 ==> sec.b32[w] == Word32(bytes, 7 * i + w)
    ensures RankOf(SetBits(bytes), 224 * (i + 1)) == RankOf(SetBits(bytes), 224 * i) + SectionPopulation(sec)
  {
    hide RankOf, Word32, SectionPopulation, Section.CountBefore;
    SectionRank(sec, bytes, i, 224);
    PopulationExact(sec);
  }

  lemma NextSection(sec: Section, bytes: seq<byte>, i: nat)
    requires 28 * i + 28 <= |bytes| && sec.Valid() && sec.step == RankOf(SetBits(bytes), 224 * i)
    requires forall w :: 0 <= w < 7 ==> sec.b32[w] == Word32(bytes, 7 * i + w)
    ensures IndexesAt(sec, bytes, i)
    ensures RankOf(SetBits(bytes), 224 * (i + 1)) == sec.step + SectionPopulation(sec)
  {
    SectionTotal(sec, bytes, i);
  }

  lemma IndexesAll(sections: seq<Section>, bytes: seq<byte>, n: nat)
    requires n == |sections| && 28 * n <= |bytes|
    requires forall s :: 0 <= s < n ==> IndexesAt(sections[s], bytes, s)
    ensures Indexes(sections, bytes, n)
  {
  }

  lemma AllBelow(bytes: seq<byte>)
    ensures forall q :: q in SetBits(bytes) ==> q < 8 * |bytes|
  {
  }
}
