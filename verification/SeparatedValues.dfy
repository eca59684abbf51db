/** Values of varying length, kept outside the lines: varints, offset fields, and the value stream. */
module SeparatedValues {
  import opened Words
  import opened BucketSearch
  import opened TableBuild
  import opened Packs
  import opened Filling
  import opened Output

  const MAX_VALUE_LEN: nat := 0x8_0000_0000 - 1
  const MAX_OFFSET: nat := 0x1_0000_0000_0000 - 1
  const OFFSET_FIELD_SIZE: nat := 6
  const MAX_VARINT_BYTES: nat := 5

  // ---- Varints: unsigned LEB128 -----------------------------------------------------------------

  function VarInt(n: nat): (s: seq<byte>)
    ensures |s| >= 1
  {
    if n < 0x80 then [n] else [0x80 + n % 0x80] + VarInt(n / 0x80)
  }

  method VarIntSize(n: nat) returns (cnt: nat)
    ensures cnt == |VarInt(n)|
  {
    cnt := 1;
    var m := n;
    while m >= 0x80
      invariant cnt + |VarInt(m)| == 1 + |VarInt(n)|
      decreases m
    {
      m := m / 0x80;
      cnt := cnt + 1;
    }
  }

  function Septets(i: nat): (p: nat)
    ensures p >= 1
  {
    if i == 0 then 1 else 0x80 * Septets(i - 1)
  }

  lemma {:induction false} VarIntLength(n: nat, k: nat)
    requires k > 0 && n < Septets(k)
    ensures |VarInt(n)| <= k
    decreases k
  {
    if n >= 0x80 {
      VarIntLength(n / 0x80, k - 1);
    }
  }

  /** Byte `i` holds bits `7 * i` to `7 * i + 6`, and its top bit says that more bytes follow; the last byte is
      the first beyond which nothing is left. */
  lemma {:induction false} VarIntBytes(n: nat, i: nat)
    requires i < |VarInt(n)|
    ensures VarInt(n)[i] == n / Pow2(7 * i) % 0x80 + if i + 1 < |VarInt(n)| then 0x80 else 0
    ensures i + 1 < |VarInt(n)| <==> n / Pow2(7 * i) >= 0x80
    decreases i
  {
    if i > 0 {
      VarIntBytes(n / 0x80, i - 1);
      Pow2Add(7, 7 * (i - 1));
      assert Pow2(7) == 0x80 by {
        assert Pow2(4) == 16 && Pow2(3) == 8;
        Pow2Add(4, 3);
      }
      DivDiv(n, 0x80, Pow2(7 * (i - 1)));
      assert Pow2(7 * (i - 1)) * 0x80 == Pow2(7 * i);
    }
  }

  lemma TenBytesHoldAWord(n: u64)
    ensures |VarInt(n)| <= 10
  {
    assert Septets(5) == 0x8_0000_0000;
    assert Septets(10) >= 0x1_0000_0000_0000_0000 by {
      assert Septets(7) == 0x80 * (0x80 * Septets(5));
      assert Septets(9) == 0x80 * (0x80 * Septets(7));
    }
    VarIntLength(n, 10);
  }

  lemma VarIntStep(m: nat, head: seq<byte>)
    ensures m >= 0x80 ==> head + VarInt(m) == (head + [0x80 + m % 0x80]) + VarInt(m / 0x80)
    ensures m >= 0x80 ==> |VarInt(m)| == 1 + |VarInt(m / 0x80)|
    ensures m < 0x80 ==> VarInt(m) == [m]
  {
  }

  /** Writes the bytes of a size into the output; ten bytes of buffer are enough for any 64-bit size. */
  method WriteVarInt(n: u64, out: Writer) returns (ok: bool)
    modifies out
    ensures out.calls == old(out.calls) + 1 && ok == !out.fails(old(out.calls))
    ensures out.out == old(out.out) + if ok then VarInt(n) else []
  {
    hide VarInt;
    TenBytesHoldAWord(n);
    var buf := new byte[10](_ => 0);
    var w: nat := 0;
    var m: nat := n;
    while m >= 0x80
      invariant w + |VarInt(m)| == |VarInt(n)| <= 10 && buf.Length == 10
      invariant buf[..w] + VarInt(m) == VarInt(n)
      modifies buf
      decreases m
    {
      ghost var before := buf[..w];
      VarIntStep(m, before);
      buf[w] := 0x80 + m % 0x80;
      assert buf[..w + 1] == before + [0x80 + m % 0x80];
      m := m / 0x80;
      w := w + 1;
    }
    ghost var before := buf[..w];
    VarIntStep(m, before);
    buf[w] := m;
    w := w + 1;
    assert buf[..w] == before + [m];
    ok := out.Write(buf[..w]);
  }

  // ---- Reading a value --------------------------------------------------------------------------

  /** Where a value lies in the stream. */
  datatype Slice = Slice(start: nat, len: nat)

  /** What is read from `pt` on when `i` septets, worth `acc`, have been read already. */
  function ReadFrom(bytes: seq<byte>, pt: nat, i: nat, acc: nat): (r: Option<Slice>)
    decreases MAX_VARINT_BYTES - i
    ensures r.Some? ==> r.value.start + r.value.len <= |bytes|
  {
    if i >= MAX_VARINT_BYTES || pt >= |bytes| then None
    else if bytes[pt] >= 0x80 then ReadFrom(bytes, pt + 1, i + 1, acc + (bytes[pt] - 0x80) * Septets(i))
    else
      var len := acc + bytes[pt] * Septets(i);
      if pt + 1 + len > |bytes| then None else Some(Slice(pt + 1, len))
  }

  /** The byte `k` places from `pt` on is the first one below 128. */
  ghost predicate EndsAt(bytes: seq<byte>, pt: nat, k: nat) {
    pt + k < |bytes| && bytes[pt + k] < 0x80 && forall q :: pt <= q < pt + k ==> bytes[q] >= 0x80
  }

  /** The low seven bits of `n` bytes from `pt` on, the first ones least. */
  ghost function Septeted(bytes: seq<byte>, pt: nat, n: nat): nat
    requires pt + n <= |bytes|
  {
    if n == 0 then 0 else Septeted(bytes, pt, n - 1) + bytes[pt + n - 1] % 0x80 * Pow2(7 * (n - 1))
  }

  lemma {:induction false} SeptetsArePowers(i: nat)
    ensures Septets(i) == Pow2(7 * i)
  {
    if i > 0 {
      SeptetsArePowers(i - 1);
      Pow2Add(7, 7 * (i - 1));
      assert Pow2(7) == 0x80 by {
        assert Pow2(4) == 16 && Pow2(3) == 8;
        Pow2Add(4, 3);
      }
    }
  }

  /** One of the first five bytes is below 128, and as many bytes follow it as the septets up to it say. */
  ghost predicate HoldsValue(bytes: seq<byte>, pt: nat, k: nat) {
    k < 5 && EndsAt(bytes, pt, k) && pt + k + 1 + Septeted(bytes, pt, k + 1) <= |bytes|
  }

  /** What is read from arbitrary bytes: exactly a value that they hold. */
  lemma ReadExact(bytes: seq<byte>, pt: nat)
    ensures var r := ReadFrom(bytes, pt, 0, 0);
            && (r.None? ==> forall k: nat :: !HoldsValue(bytes, pt, k))
            && (r.Some? ==> exists k: nat :: HoldsValue(bytes, pt, k)
                                             && r.value == Slice(pt + k + 1, Septeted(bytes, pt, k + 1)))
  {
    if pt < |bytes| {
      ReadRest(bytes, pt, 0);
    }
  }

  lemma {:induction false} ReadRest(bytes: seq<byte>, pt: nat, i: nat)
    requires i <= 5 && pt + i <= |bytes| && forall q :: pt <= q < pt + i ==> bytes[q] >= 0x80
    ensures var r := ReadFrom(bytes, pt + i, i, Septeted(bytes, pt, i));
            && (r.None? ==> forall k: nat :: !HoldsValue(bytes, pt, k))
            && (r.Some? ==> exists k: nat :: HoldsValue(bytes, pt, k)
                                             && r.value == Slice(pt + k + 1, Septeted(bytes, pt, k + 1)))
    decreases 5 - i
  {
    hide Septets, Septeted, HoldsValue, EndsAt, ReadFrom;
    ReadOne(bytes, pt, i);
    if i < 5 && pt + i < |bytes| {
      if bytes[pt + i] >= 0x80 {
        ReadRest(bytes, pt, i + 1);
      } else {
        EndHere(bytes, pt, i);
      }
    } else {
      NoEnd(bytes, pt, i);
    }
  }

  lemma ReadOne(bytes: seq<byte>, pt: nat, i: nat)
    requires pt + i <= |bytes|
    ensures ReadFrom(bytes, pt + i, i, Septeted(bytes, pt, i)) ==
            if i >= 5 || pt + i == |bytes| then None
            else if bytes[pt + i] >= 0x80 then ReadFrom(bytes, pt + i + 1, i + 1, Septeted(bytes, pt, i + 1))
            else if pt + i + 1 + Septeted(bytes, pt, i + 1) > |bytes| then None
            else Some(Slice(pt + i + 1, Septeted(bytes, pt, i + 1)))
  {
    hide Septets, Septeted;
    if i < 5 && pt + i < |bytes| {
      SeptetAdds(bytes, pt, i);
    }
  }

  lemma EndHere(bytes: seq<byte>, pt: nat, i: nat)
    requires i < 5 && pt + i < |bytes| && bytes[pt + i] < 0x80 && forall q :: pt <= q < pt + i ==> bytes[q] >= 0x80
    ensures forall k: nat :: HoldsValue(bytes, pt, k) ==> k == i
    ensures HoldsValue(bytes, pt, i) <==> pt + i + 1 + Septeted(bytes, pt, i + 1) <= |bytes|
  {
    hide Septeted;
    forall k: nat | EndsAt(bytes, pt, k) ensures k == i {
      OneEnd(bytes, pt, i, k);
    }
  }

  lemma NoEnd(bytes: seq<byte>, pt: nat, i: nat)
    requires pt + i <= |bytes| && forall q :: pt <= q < pt + i ==> bytes[q] >= 0x80
    requires i >= 5 || pt + i >= |bytes|
    ensures forall k: nat :: !HoldsValue(bytes, pt, k)
  {
  }

  lemma OneEnd(bytes: seq<byte>, pt: nat, i: nat, k: nat)
    requires EndsAt(bytes, pt, i) && EndsAt(bytes, pt, k)
    ensures i == k
  {
  }

  lemma SeptetAdds(bytes: seq<byte>, pt: nat, i: nat)
    requires pt + i < |bytes|
    ensures Septeted(bytes, pt, i + 1)
            == Septeted(bytes, pt, i) + (if bytes[pt + i] >= 0x80 then bytes[pt + i] - 0x80 else bytes[pt + i]) * Septets(i)
  {
    SeptetsArePowers(i);
    hide Septets;
  }

  /** The reading loop: at most five septets, then the value must fit. */
  method SeparatedValue(bytes: seq<byte>, start: nat) returns (r: Option<Slice>)
    ensures r == ReadFrom(bytes, start, 0, 0)
  {
    hide ReadFrom, Septets;
    SeptetStart();
    var pt: nat, len: nat, i: nat, scale: nat := start, 0, 0, 1;
    while i < MAX_VARINT_BYTES
      invariant i <= MAX_VARINT_BYTES && scale == Septets(i)
      invariant ReadFrom(bytes, pt, i, len) == ReadFrom(bytes, start, 0, 0)
    {
      ReadStep(bytes, pt, i, len, scale);
      if pt >= |bytes| {
        return None;
      }
      var b := bytes[pt];
      pt := pt + 1;
      if b >= 0x80 {
        len := len + (b - 0x80) * scale;
      } else {
        len := len + b * scale;
        if pt + len > |bytes| {
          return None;
        }
        return Some(Slice(pt, len));
      }
      i, scale := i + 1, 0x80 * scale;
    }
    ReadStep(bytes, pt, i, len, scale);
    return None;
  }

  lemma SeptetStart()
    ensures Septets(0) == 1
  {
  }

  /** One turn of the loop. */
  lemma ReadStep(bytes: seq<byte>, pt: nat, i: nat, acc: nat, scale: nat)
    requires scale == Septets(i)
    ensures Septets(i + 1) == 0x80 * scale
    ensures ReadFrom(bytes, pt, i, acc) ==
            if i >= MAX_VARINT_BYTES || pt >= |bytes| then None
            else if bytes[pt] >= 0x80 then ReadFrom(bytes, pt + 1, i + 1, acc + (bytes[pt] - 0x80) * scale)
            else if pt + 1 + (acc + bytes[pt] * scale) > |bytes| then None
            else Some(Slice(pt + 1, acc + bytes[pt] * scale))
  {
    SeptetNext(i);
    hide Septets;
  }

  lemma SeptetNext(i: nat)
    ensures Septets(i + 1) == 0x80 * Septets(i)
  {
  }

  /** What has been read and what is left of the varint, at its scale, make the number. */
  ghost predicate AddsUp(total: nat, acc: nat, n: nat, i: nat) {
    total == acc + n * Septets(i)
  }

  /** A varint that starts at `pt` is read back exactly, provided the value it announces fits. */
  lemma {:induction false} ReadBack(bytes: seq<byte>, pt: nat, n: nat, i: nat, acc: nat, total: nat)
    requires i < MAX_VARINT_BYTES && n < Septets(MAX_VARINT_BYTES - i) && AddsUp(total, acc, n, i)
    requires pt + |VarInt(n)| + total <= |bytes| && bytes[pt..pt + |VarInt(n)|] == VarInt(n)
    ensures ReadFrom(bytes, pt, i, acc) == Some(Slice(pt + |VarInt(n)|, total))
    decreases n
  {
    hide Septets, AddsUp, ReadFrom;
    assert bytes[pt] == bytes[pt..pt + |VarInt(n)|][0] == VarInt(n)[0];
    if n >= 0x80 {
      var rest := VarInt(n / 0x80);
      assert bytes[pt + 1..pt + 1 + |rest|] == bytes[pt..pt + |VarInt(n)|][1..] == rest;
      SeptetBound(n, MAX_VARINT_BYTES - i);
      var more := ReadContinues(bytes, pt, i, acc, n, total);
      ReadBack(bytes, pt + 1, n / 0x80, i + 1, more, total);
    } else {
      ReadEnds(bytes, pt, i, acc, n, total);
    }
  }

  lemma ReadContinues(bytes: seq<byte>, pt: nat, i: nat, acc: nat, n: nat, total: nat) returns (more: nat)
    requires i < MAX_VARINT_BYTES && pt < |bytes| && n >= 0x80 && bytes[pt] == 0x80 + n % 0x80
    requires AddsUp(total, acc, n, i)
    ensures ReadFrom(bytes, pt, i, acc) == ReadFrom(bytes, pt + 1, i + 1, more)
    ensures AddsUp(total, more, n / 0x80, i + 1)
  {
    more := acc + (n % 0x80) * Septets(i);
    SeptetShift(n, i);
    hide Septets;
    ReadNext(bytes, pt, i, acc, n % 0x80, more);
  }

  lemma ReadNext(bytes: seq<byte>, pt: nat, i: nat, acc: nat, d: nat, more: nat)
    requires i < MAX_VARINT_BYTES && pt < |bytes| && bytes[pt] == 0x80 + d && d < 0x80
    requires more == acc + d * Septets(i)
    ensures ReadFrom(bytes, pt, i, acc) == ReadFrom(bytes, pt + 1, i + 1, more)
  {
    hide Septets;
  }

  lemma ReadEnds(bytes: seq<byte>, pt: nat, i: nat, acc: nat, d: nat, total: nat)
    requires i < MAX_VARINT_BYTES && pt < |bytes| && bytes[pt] == d < 0x80 && AddsUp(total, acc, d, i)
    requires pt + 1 + total <= |bytes|
    ensures ReadFrom(bytes, pt, i, acc) == Some(Slice(pt + 1, total))
  {
  }

  lemma SeptetBound(n: nat, k: nat)
    requires k > 0 && 0x80 <= n < Septets(k)
    ensures k > 1 && n / 0x80 < Septets(k - 1)
  {
    assert Septets(1) == 0x80;
  }

  lemma SeptetShift(n: nat, i: nat)
    ensures (n % 0x80) * Septets(i) + (n / 0x80) * Septets(i + 1) == n * Septets(i)
  {
    var q, r, p := n / 0x80, n % 0x80, Septets(i);
    assert n == q * 0x80 + r;
    assert q * (0x80 * p) == (q * 0x80) * p;
  }

  // ---- The offset field -------------------------------------------------------------------------

  /** The six little-endian bytes of an offset: a 32-bit and a 16-bit store, each truncating. */
  function OffsetField(offset: nat): (f: seq<byte>)
    ensures |f| == OFFSET_FIELD_SIZE
  {
    var lo, hi := offset % 0x1_0000_0000, offset / 0x1_0000_0000 % 0x1_0000;
    [lo % 0x100, lo / 0x100 % 0x100, lo / 0x1_0000 % 0x100, lo / 0x100_0000, hi % 0x100, hi / 0x100]
  }

  function ReadOffsetField(f: seq<byte>): nat
    requires |f| == OFFSET_FIELD_SIZE
  {
    f[0] as int + 0x100 * f[1] as int + 0x1_0000 * f[2] as int + 0x100_0000 * f[3] as int
    + 0x1_0000_0000 * (f[4] as int + 0x100 * f[5] as int)
  }

  /** Byte `k` holds bits `8 * k` to `8 * k + 7` of the offset. */
  lemma OffsetBytes(offset: nat)
    ensures var f := OffsetField(offset);
            && f[0] == offset % 0x100 && f[1] == offset / 0x100 % 0x100 && f[2] == offset / 0x1_0000 % 0x100
            && f[3] == offset / 0x100_0000 % 0x100 && f[4] == offset / 0x1_0000_0000 % 0x100
            && f[5] == offset / 0x100_0000_0000 % 0x100
  {
    var q := offset / 0x1_0000_0000;
    DivMod(offset, 0x100, 0x100_0000);
    DivMod(offset, 0x1_0000, 0x1_0000);
    DivMod(offset, 0x100_0000, 0x100);
    DivMod(offset / 0x100, 0x100, 0x1_0000);
    DivMod(offset / 0x1_0000, 0x100, 0x100);
    DivMod(q, 0x100, 0x100);
    DivDiv(offset, 0x1_0000_0000, 0x100);
  }

  lemma FourBytes(lo: nat)
    requires lo < 0x1_0000_0000
    ensures lo % 0x100 + 0x100 * (lo / 0x100 % 0x100) + 0x1_0000 * (lo / 0x1_0000 % 0x100) + 0x100_0000 * (lo / 0x100_0000) == lo
  {
    var a, b := lo / 0x100, lo / 0x1_0000;
    assert a / 0x100 == b && b / 0x100 == lo / 0x100_0000;
    assert lo == 0x100 * a + lo % 0x100 && a == 0x100 * b + a % 0x100 && b == 0x100 * (b / 0x100) + b % 0x100;
  }

  /** Offsets of up to 48 bits survive; larger ones would be cut. */
  lemma OffsetFieldRoundTrip(offset: nat)
    ensures ReadOffsetField(OffsetField(offset)) == offset % 0x1_0000_0000_0000
  {
    var q := offset / 0x1_0000_0000;
    var lo, hi := offset % 0x1_0000_0000, q % 0x1_0000;
    FourBytes(lo);
    assert hi % 0x100 + 0x100 * (hi / 0x100) == hi;
    RemainderIs(offset, 0x1_0000_0000_0000, q / 0x1_0000, lo + 0x1_0000_0000 * hi);
  }

  // ---- The value stream -------------------------------------------------------------------------

  /** The first `n` values, each behind the varint of its length. */
  function Stream(records: seq<Record>, n: nat): seq<byte>
    requires n <= |records|
  {
    if n == 0 then [] else Stream(records, n - 1) + VarInt(|records[n - 1].val|) + records[n - 1].val
  }

  lemma {:induction false} StreamPrefix(records: seq<Record>, i: nat, n: nat)
    requires i <= n <= |records|
    ensures |Stream(records, i)| <= |Stream(records, n)|
    ensures Stream(records, n)[..|Stream(records, i)|] == Stream(records, i)
    decreases n
  {
    if i < n {
      StreamPrefix(records, i, n - 1);
    }
  }

  /** Every value takes at least the byte of its length. */
  lemma {:induction false} StreamCovers(records: seq<Record>, n: nat)
    requires n <= |records|
    ensures |Stream(records, n)| >= n
  {
    if n > 0 {
      StreamCovers(records, n - 1);
    }
  }

  /** The lines of the first pass: each key with the offset its value will have in the stream. */
  function WithOffsets(records: seq<Record>): (lines: seq<Record>)
    ensures |lines| == |records|
    ensures forall i :: 0 <= i < |records| ==> lines[i] == Record(records[i].key, OffsetField(|Stream(records, i)|))
  {
    seq(|records|, i requires 0 <= i < |records| => Record(records[i].key, OffsetField(|Stream(records, i)|)))
  }

  /** The value of a line: follow the offset field into the stream. */
  function SeparatedValueAt(extend: seq<byte>, field: seq<byte>): Option<seq<byte>>
    requires |field| == OFFSET_FIELD_SIZE
  {
    var offset := ReadOffsetField(field);
    if offset >= |extend| then None else
      match ReadFrom(extend, offset, 0, 0)
      case None => None
      case Some(s) => Some(extend[s.start..s.start + s.len])
  }

  lemma SeptetLimits()
    ensures Septets(5) == 0x8_0000_0000 && Septets(0) == 1
  {
  }

  /** The offset stored in the first pass is where the second pass writes the value, which is read back exactly. */
  lemma ValueRoundTrip(records: seq<Record>, i: nat)
    requires i < |records| && |records[i].val| <= MAX_VALUE_LEN && |Stream(records, i)| <= MAX_OFFSET
    ensures SeparatedValueAt(Stream(records, |records|), OffsetField(|Stream(records, i)|)) == Some(records[i].val)
  {
    hide VarInt, ReadFrom, Stream, Septets, OffsetField, ReadOffsetField;
    var all, offset, val := Stream(records, |records|), |Stream(records, i)|, records[i].val;
    var v := VarInt(|val|);
    OffsetFieldRoundTrip(offset);
    RemainderIs(offset, 0x1_0000_0000_0000, 0, offset);
    ValueInStream(records, i);
    SeptetLimits();
    assert AddsUp(|val|, 0, |val|, 0);
    ReadBack(all, offset, |val|, 0, 0, |val|);
    assert all[offset + |v|..offset + |v| + |val|] == val;
  }

  /** Where the value of record `i` lies in the whole stream. */
  lemma ValueInStream(records: seq<Record>, i: nat)
    requires i < |records|
    ensures var all, offset, val := Stream(records, |records|), |Stream(records, i)|, records[i].val;
            var v := VarInt(|val|);
            && offset + |v| + |val| <= |all|
            && all[offset..offset + |v|] == v && all[offset + |v|..offset + |v| + |val|] == val
  {
    hide VarInt, Stream;
    var val := records[i].val;
    var v := VarInt(|val|);
    StreamPrefix(records, i + 1, |records|);
    StreamNext(records, i);
    SlicesOfPrefix(Stream(records, |records|), Stream(records, i), v, val);
  }

  lemma StreamNext(records: seq<Record>, i: nat)
    requires i < |records|
    ensures Stream(records, i + 1) == Stream(records, i) + VarInt(|records[i].val|) + records[i].val
  {
  }

  lemma SlicesOfPrefix(all: seq<byte>, head: seq<byte>, v: seq<byte>, val: seq<byte>)
    requires |head + v + val| <= |all| && all[..|head + v + val|] == head + v + val
    ensures all[|head|..|head| + |v|] == v && all[|head| + |v|..|head| + |v| + |val|] == val
  {
    var p := head + v + val;
    assert all[|head|..|head| + |v|] == p[|head|..|head| + |v|];
    assert all[|head| + |v|..|head| + |v| + |val|] == p[|head| + |v|..|head| + |v| + |val|];
  }

  // ---- The two passes ---------------------------------------------------------------------------

  /** What the first pass asks of record `i`: a key of the right length, an offset of 48 bits, a length of 35. */
  ghost predicate Acceptable(pack: PackView, records: seq<Record>, i: nat)
    requires i < |records|
  {
    |records[i].key| == pack.keyLen && |Stream(records, i)| < 0x1_0000_0000_0000 && |records[i].val| < 0x8_0000_0000
  }

  ghost predicate AcceptableUpTo(pack: PackView, records: seq<Record>, n: nat)
    requires n <= |records|
  {
    forall i :: 0 <= i < n ==> Acceptable(pack, records, i)
  }

  /** The first record that is not acceptable decides the status. */
  ghost predicate RejectedAt(pack: PackView, records: seq<Record>, i: nat, status: BuildStatus) {
    && i < |records| && AcceptableUpTo(pack, records, i) && !Acceptable(pack, records, i)
    && status == if |Stream(records, i)| >= 0x1_0000_0000_0000 then FailToOutput else BadInput
  }

  ghost predicate Rejected(pack: PackView, records: seq<Record>, status: BuildStatus) {
    exists i :: RejectedAt(pack, records, i, status)
  }

  /** First pass over one reader: offsets are handed out in reading order, going on from the reader before. */
  method AssignOffsets(pack: PackView, part: seq<Record>, from: nat, ghost all: seq<Record>, ghost start: nat)
    returns (status: BuildStatus, lines: seq<Record>, offset: nat)
    requires start + |part| <= |all| && all[start..start + |part|] == part
    requires from == |Stream(all, start)| && AcceptableUpTo(pack, all, start)
    ensures status == Ok <==> AcceptableUpTo(pack, all, start + |part|)
    ensures status != Ok ==> Rejected(pack, all, status)
    ensures status == Ok ==> lines == WithOffsets(all)[start..start + |part|] && offset == |Stream(all, start + |part|)|
  {
    hide VarInt, Stream, OffsetField, WithOffsets, AcceptableUpTo, Rejected;
    lines, offset := [], from;
    for i := 0 to |part|
      invariant offset == |Stream(all, start + i)| && |lines| == i && AcceptableUpTo(pack, all, start + i)
      invariant forall k :: 0 <= k < i ==> lines[k] == WithOffsets(all)[start + k]
    {
      var rec := part[i];
      assert rec == all[start..start + |part|][i] == all[start + i];
      AcceptableNext(pack, all, start + i, start + |part|);
      if |rec.key| != pack.keyLen || offset > MAX_OFFSET || |rec.val| > MAX_VALUE_LEN {
        status := if offset > MAX_OFFSET then FailToOutput else BadInput;
        RejectedHere(pack, all, start + i, status);
        return;
      }
      lines := lines + [Record(rec.key, OffsetField(offset))];
      var size := VarIntSize(|rec.val|);
      StreamNext(all, start + i);
      offset := offset + size + |rec.val|;
    }
    status := Ok;
  }

  lemma AcceptableNext(pack: PackView, all: seq<Record>, i: nat, n: nat)
    requires i < n <= |all| && AcceptableUpTo(pack, all, i)
    ensures AcceptableUpTo(pack, all, i + 1) <==> Acceptable(pack, all, i)
    ensures !Acceptable(pack, all, i) ==> !AcceptableUpTo(pack, all, n)
  {
    hide Acceptable;
  }

  lemma RejectedHere(pack: PackView, all: seq<Record>, i: nat, status: BuildStatus)
    requires RejectedAt(pack, all, i, status)
    ensures Rejected(pack, all, status)
  {
  }

  lemma RejectedStatus(pack: PackView, all: seq<Record>, status: BuildStatus)
    requires Rejected(pack, all, status)
    ensures status in {BadInput, FailToOutput}
  {
  }

  /** Second pass: the values follow each other in the same order. */
  method WriteValues(readers: seq<seq<Record>>, w: Writer) returns (ok: bool)
    requires forall i :: 0 <= i < |AllRecords(readers, |readers|)| ==>
               |AllRecords(readers, |readers|)[i].val| <= MAX_VALUE_LEN
    modifies w
    ensures ok ==> w.Clean(old(w.calls))
    ensures ok ==> w.out == old(w.out) + Stream(AllRecords(readers, |readers|), |AllRecords(readers, |readers|)|)
    ensures !ok ==> w.GaveUp(old(w.calls))
  {
    hide AllRecords, VarInt, Stream, Writer.Clean, Writer.GaveUp;
    ghost var all := AllRecords(readers, |readers|);
    assert Stream(all, 0) == [] && w.Clean(w.calls) by {
      NothingWritten(all, w);
    }
    ghost var begin, before := w.calls, w.out;
    NoneBefore(readers);
    for t := 0 to |readers|
      invariant |AllRecords(readers, t)| <= |all| && w.Clean(begin)
      invariant w.out == before + Stream(all, |AllRecords(readers, t)|)
    {
      ghost var start := |AllRecords(readers, t)|;
      ReaderStretch(readers, t);
      for i := 0 to |readers[t]|
        invariant w.Clean(begin) && w.out == before + Stream(all, start + i)
      {
        var val := readers[t][i].val;
        assert readers[t][i] == all[start..start + |readers[t]|][i] == all[start + i];
        StreamFurther(before, all, start + i);
        ok := WriteValue(val, w, begin);
        if !ok {
          return;
        }
      }
    }
    ok := true;
  }

  /** One value behind the varint of its length. */
  method WriteValue(val: seq<byte>, w: Writer, ghost begin: nat) returns (ok: bool)
    requires |val| <= MAX_VALUE_LEN && w.Clean(begin)
    modifies w
    ensures if ok then w.Clean(begin) && w.out == old(w.out) + (VarInt(|val|) + val) else w.GaveUp(begin)
  {
    hide VarInt;
    ok := WriteVarInt(|val|, w);
    if ok && |val| != 0 {
      ok := w.Write(val);
    }
  }

  lemma StreamFurther(before: seq<byte>, all: seq<Record>, i: nat)
    requires i < |all|
    ensures before + Stream(all, i + 1) == before + Stream(all, i) + (VarInt(|all[i].val|) + all[i].val)
  {
    StreamNext(all, i);
    hide Stream, VarInt;
  }

  lemma NothingWritten(all: seq<Record>, w: Writer)
    ensures Stream(all, 0) == [] && w.Clean(w.calls)
  {
  }

  lemma NoneBefore(readers: seq<seq<Record>>)
    ensures |AllRecords(readers, 0)| == 0
  {
  }

  /** A pack with separated values stores the records if its lines hold the offsets and its stream the values. */
  ghost predicate StoresSeparated(pack: PackView, records: seq<Record>, h: Hashing) {
    && pack.valLen == OFFSET_FIELD_SIZE && Stores(pack, WithOffsets(records), h)
    && pack.extend == Stream(records, |records|)
    && forall i :: 0 <= i < |records| ==> |records[i].val| <= MAX_VALUE_LEN && |Stream(records, i)| <= MAX_OFFSET
  }

  /** First pass over all readers: offsets, and the lines filled in. */
  method FillOffsets(pack: PackView, readers: seq<seq<Record>>, space: array<byte>, h: Hashing)
    returns (status: BuildStatus)
    requires space.Length == pack.item * pack.LineSize() && pack.valLen == OFFSET_FIELD_SIZE
    requires Placeable(pack, AllRecords(readers, |readers|), h)
    modifies space
    ensures var all := AllRecords(readers, |readers|);
            && (status == Ok <==> AcceptableUpTo(pack, all, |all|))
            && (status != Ok ==> Rejected(pack, all, status))
            && (status == Ok ==> FilledUpTo(pack, WithOffsets(all), old(space[..]), space[..], |all|, h))
  {
    hide FilledUpTo, Placeable, AcceptableUpTo, Rejected, AllRecords, Stream, WithOffsets;
    hide LinesStand;
    ghost var all, target := AllRecords(readers, |readers|), space[..];
    ghost var lines := WithOffsets(all);
    OffsetsPlaceable(pack, all, h);
    NothingFilledYet(pack, lines, target, h);
    NoneBefore(readers);
    NothingAssigned(pack, all);
    var offset: nat := 0;
    for t := 0 to |readers|
      invariant |AllRecords(readers, t)| <= |all| && AcceptableUpTo(pack, all, |AllRecords(readers, t)|)
      invariant offset == |Stream(all, |AllRecords(readers, t)|)|
      invariant FilledUpTo(pack, lines, target, space[..], |AllRecords(readers, t)|, h)
    {
      ghost var start, mid := |AllRecords(readers, t)|, space[..];
      ReaderStretch(readers, t);
      var part: seq<Record>;
      status, part, offset := AssignOffsets(pack, readers[t], offset, all, start);
      if status != Ok {
        FewerAcceptable(pack, all, start + |readers[t]|);
        return;
      }
      PartPlaceable(pack, lines, start, part, h);
      PartShaped(pack, all, start, part);
      var ok := FillKeyValue(pack, part, space, h);
      FilledMore(pack, lines, start, part, target, mid, space[..], h);
    }
    status := Ok;
  }

  lemma NothingAssigned(pack: PackView, all: seq<Record>)
    ensures AcceptableUpTo(pack, all, 0) && |Stream(all, 0)| == 0
  {
  }

  lemma FewerAcceptable(pack: PackView, all: seq<Record>, n: nat)
    requires n <= |all|
    ensures AcceptableUpTo(pack, all, |all|) ==> AcceptableUpTo(pack, all, n)
  {
  }

  lemma OffsetsPlaceable(pack: PackView, all: seq<Record>, h: Hashing)
    requires Placeable(pack, all, h)
    ensures Placeable(pack, WithOffsets(all), h)
  {
  }

  lemma PartShaped(pack: PackView, all: seq<Record>, start: nat, part: seq<Record>)
    requires start + |part| <= |all| && part == WithOffsets(all)[start..start + |part|]
    requires AcceptableUpTo(pack, all, start + |part|) && pack.valLen == OFFSET_FIELD_SIZE
    ensures WellShapedUpTo(pack, part, |part|)
  {
    hide Stream;
    forall k | 0 <= k < |part| ensures WellShaped(pack, part[k]) {
      assert Acceptable(pack, all, start + k);
    }
  }

  /** Fills in and writes out a pack with separated values. The first record that is not acceptable decides the
      status; otherwise it is the output's. On success the lines and the value stream store exactly the records. */
  method FillSeparatedKeyValue(pack: PackView, readers: seq<seq<Record>>, w: Writer, h: Hashing)
    returns (status: BuildStatus, ghost content: seq<byte>)
    requires pack.item == |AllRecords(readers, |readers|)| && pack.valLen == OFFSET_FIELD_SIZE
    requires TablePerfect(pack.table, IdsOf(AllRecords(readers, |readers|), pack.seed, h.gen), h.l2)
    modifies w
    ensures var all := AllRecords(readers, |readers|);
            && (!AcceptableUpTo(pack, all, |all|) ==> Rejected(pack, all, status) && status in {BadInput, FailToOutput})
            && (!AcceptableUpTo(pack, all, |all|) ==> w.calls == old(w.calls) && w.out == old(w.out))
            && (AcceptableUpTo(pack, all, |all|) ==>
                  if status == Ok then w.Clean(old(w.calls)) else status == FailToOutput && w.GaveUp(old(w.calls)))
            && (status == Ok ==> w.out == old(w.out) + content + Stream(all, |all|))
            && (status == Ok ==> StoresSeparated(pack.(content := content, extend := Stream(all, |all|)), all, h))
  {
    hide PackView.CalcPos, PackView.InRange, TablePerfect, Stores, Stream, AllRecords, FilledUpTo, AcceptableUpTo, Rejected;
    ghost var all := AllRecords(readers, |readers|);
    RecordsInRange(pack, all, h);
    MulMonotone(0, pack.item, pack.LineSize());
    var space := new byte[Times(pack.item, pack.LineSize())];
    ghost var before := space[..];
    content := [];
    status := FillOffsets(pack, readers, space, h);
    if status != Ok {
      RejectedStatus(pack, all, status);
      return;
    }
    content := space[..];
    OffsetsStored(pack, all, before, content, h);
    var ok := w.Write(space[..]);
    if !ok {
      return FailToOutput, content;
    }
    ok := WriteValues(readers, w);
    status := if ok then Ok else FailToOutput;
  }

  lemma OffsetsStored(pack: PackView, all: seq<Record>, before: seq<byte>, space: seq<byte>, h: Hashing)
    requires pack.item == |all| && pack.valLen == OFFSET_FIELD_SIZE && AcceptableUpTo(pack, all, |all|)
    requires TablePerfect(pack.table, IdsOf(all, pack.seed, h.gen), h.l2)
    requires FilledUpTo(pack, WithOffsets(all), before, space, |all|, h)
    ensures StoresSeparated(pack.(content := space, extend := Stream(all, |all|)), all, h)
    ensures forall i :: 0 <= i < |all| ==> |all[i].val| <= MAX_VALUE_LEN
  {
    hide PackView.CalcPos, PackView.InRange, TablePerfect, Stores, Stream, FilledUpTo;
    var lines := WithOffsets(all);
    AcceptableLines(pack, all);
    assert IdsOf(lines, pack.seed, h.gen) == IdsOf(all, pack.seed, h.gen);
    assert KeptAll(pack, lines) == lines;
    FilledStores(pack, lines, before, space, h);
    StoresIgnoresExtend(pack.(content := space), lines, h, Stream(all, |all|));
  }

  lemma AcceptableLines(pack: PackView, records: seq<Record>)
    requires AcceptableUpTo(pack, records, |records|) && pack.valLen == OFFSET_FIELD_SIZE
    ensures WellShapedUpTo(pack, WithOffsets(records), |records|)
    ensures forall i :: 0 <= i < |records| ==> |records[i].val| <= MAX_VALUE_LEN && |Stream(records, i)| <= MAX_OFFSET
  {
    forall i | 0 <= i < |records|
      ensures WellShaped(pack, WithOffsets(records)[i]) && |records[i].val| <= MAX_VALUE_LEN
              && |Stream(records, i)| <= MAX_OFFSET
    {
      assert Acceptable(pack, records, i);
    }
  }

  lemma StoresIgnoresExtend(pack: PackView, lines: seq<Record>, h: Hashing, extend: seq<byte>)
    requires Stores(pack, lines, h)
    ensures Stores(pack.(extend := extend), lines, h)
  {
    hide TablePerfect, PackView.CalcPos, PackView.Line;
    var full := pack.(extend := extend);
    forall i | 0 <= i < |lines| ensures StoresAt(full, lines[i], h) {
      assert StoresAt(pack, lines[i], h);
      SameLookup(pack, full, lines[i].key, h);
    }
  }

  lemma SameLookup(pack: PackView, full: PackView, key: seq<byte>, h: Hashing)
    requires full == pack.(extend := full.extend) && pack.InRange(key, h) && pack.Sized()
    ensures full.InRange(key, h) && full.CalcPos(key, h) == pack.CalcPos(key, h)
    ensures full.CalcPos(key, h) < full.item ==> full.Line(full.CalcPos(key, h)) == pack.Line(pack.CalcPos(key, h))
  {
  }

  /** The scalar search of a pack with separated values. */
  function SearchSeparated(pack: PackView, key: seq<byte>, h: Hashing): Option<seq<byte>>
    requires pack.Sized() && pack.InRange(key, h) && pack.valLen == OFFSET_FIELD_SIZE
  {
    match pack.Search(key, h)
    case None => None
    case Some(field) => SeparatedValueAt(pack.extend, FieldOf(field))
  }

  function FieldOf(v: seq<byte>): (f: seq<byte>)
    ensures |f| == OFFSET_FIELD_SIZE
  {
    if |v| == OFFSET_FIELD_SIZE then v else [0, 0, 0, 0, 0, 0]
  }

  /** Lookup with separated values is map lookup too. */
  lemma SeparatedLookupIsMap(pack: PackView, records: seq<Record>, h: Hashing, key: seq<byte>)
    requires StoresSeparated(pack, records, h) && pack.InRange(key, h)
    ensures SearchSeparated(pack, key, h) == if key in Contents(records) then Some(Contents(records)[key]) else None
  {
    hide PackView.CalcPos, PackView.InRange, PackView.Search, StoresAt, Stream, TablePerfect;
    var lines := WithOffsets(records);
    LookupIsMap(pack, lines, h, key);
    StoresDistinct(pack, lines, h);
    forall x, y | 0 <= x < y < |records| ensures records[x].key != records[y].key {
      assert lines[x].key != lines[y].key;
    }
    if i :| 0 <= i < |records| && records[i].key == key {
      ContentsOf(records, i);
      ContentsOf(lines, i);
      ValueRoundTrip(records, i);
    } else {
      ContentsOnly(records, key);
      ContentsOnly(lines, key);
    }
  }
}
