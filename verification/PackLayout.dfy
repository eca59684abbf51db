/** The bytes of a pack: what the builder writes, what the loader accepts, and that they fit together. */
module PackLayout {
  import opened Words
  import opened PackFormat
  import opened Rank
  import opened SegmentBuild
  import opened TableBuild
  import opened Packs
  import opened SeparatedValues
  import opened Output

  const SHD_MAGIC: u32 := 0x4448_537f
  const HEADER_SIZE: nat := 20
  const SECTION_BYTES: nat := 32

  // ---- Little-endian fields ---------------------------------------------------------------------

  function Bytes16(x: u16): (s: seq<byte>)
    ensures |s| == 2
  {
    [x % 0x100, x / 0x100]
  }

  function Bytes32(x: u32): (s: seq<byte>)
    ensures |s| == 4
  {
    [x % 0x100, x / 0x100 % 0x100, x / 0x1_0000 % 0x100, x / 0x100_0000]
  }

  function Get16(b: seq<byte>, off: nat): u16
    requires off + 2 <= |b|
  {
    b[off] as int + 0x100 * b[off + 1] as int
  }

  function Get32(b: seq<byte>, off: nat): u32
    requires off + 4 <= |b|
  {
    FromBytes(b[off], b[off + 1], b[off + 2], b[off + 3])
  }

  /** The bytes `x` stand at offset `off` of `b`. */
  ghost predicate IsAt(b: seq<byte>, off: nat, x: seq<byte>) {
    off + |x| <= |b| && b[off..off + |x|] == x
  }

  lemma IsAtConcat(b: seq<byte>, off: nat, x: seq<byte>, y: seq<byte>)
    requires IsAt(b, off, x + y)
    ensures IsAt(b, off, x) && IsAt(b, off + |x|, y)
  {
    var z := b[off..off + |x + y|];
    assert z[..|x|] == x && z[|x|..] == y;
    assert b[off..off + |x|] == z[..|x|] && b[off + |x|..off + |x| + |y|] == z[|x|..];
  }

  lemma IsAtIndex(b: seq<byte>, off: nat, x: seq<byte>, i: nat)
    requires IsAt(b, off, x) && i < |x|
    ensures b[off + i] == x[i]
  {
    assert b[off..off + |x|][i] == b[off + i];
  }

  lemma Get32Back(b: seq<byte>, off: nat, x: u32)
    requires IsAt(b, off, Bytes32(x))
    ensures Get32(b, off) == x
  {
    var s := Bytes32(x);
    IsAtIndex(b, off, s, 0);
    IsAtIndex(b, off, s, 1);
    IsAtIndex(b, off, s, 2);
    IsAtIndex(b, off, s, 3);
    FourBytes(x);
  }

  lemma Get16Back(b: seq<byte>, off: nat, x: u16)
    requires IsAt(b, off, Bytes16(x))
    ensures Get16(b, off) == x
  {
    IsAtIndex(b, off, Bytes16(x), 0);
    IsAtIndex(b, off, Bytes16(x), 1);
  }

  // ---- The header -------------------------------------------------------------------------------

  datatype Header = Header(magic: u32, kind: byte, keyLen: byte, valLen: u16, seed: u32, item: u32, itemHigh: u16, segCnt: u16)

  function HeaderBytes(h: Header): (s: seq<byte>)
    ensures |s| == HEADER_SIZE
  {
    Bytes32(h.magic) + ([h.kind] + ([h.keyLen] + (Bytes16(h.valLen) + (Bytes32(h.seed) + (Bytes32(h.item)
    + (Bytes16(h.itemHigh) + Bytes16(h.segCnt)))))))
  }

  function HeaderOf(b: seq<byte>): Header
    requires |b| >= HEADER_SIZE
  {
    Header(Get32(b, 0), b[4], b[5], Get16(b, 6), Get32(b, 8), Get32(b, 12), Get16(b, 16), Get16(b, 18))
  }

  lemma HeaderBack(b: seq<byte>, h: Header)
    requires IsAt(b, 0, HeaderBytes(h))
    ensures |b| >= HEADER_SIZE && HeaderOf(b) == h
  {
    hide Get16, Get32, Bytes16, Bytes32;
    var t7 := Bytes16(h.segCnt);
    var t6 := Bytes16(h.itemHigh) + t7;
    var t5 := Bytes32(h.item) + t6;
    var t4 := Bytes32(h.seed) + t5;
    var t3 := Bytes16(h.valLen) + t4;
    IsAtConcat(b, 0, Bytes32(h.magic), [h.kind] + ([h.keyLen] + t3));
    IsAtConcat(b, 4, [h.kind], [h.keyLen] + t3);
    IsAtConcat(b, 5, [h.keyLen], t3);
    IsAtConcat(b, 6, Bytes16(h.valLen), t4);
    IsAtConcat(b, 8, Bytes32(h.seed), t5);
    IsAtConcat(b, 12, Bytes32(h.item), t6);
    IsAtConcat(b, 16, Bytes16(h.itemHigh), t7);
    IsAtIndex(b, 4, [h.kind], 0);
    IsAtIndex(b, 5, [h.keyLen], 0);
    Get32Back(b, 0, h.magic);
    Get16Back(b, 6, h.valLen);
    Get32Back(b, 8, h.seed);
    Get32Back(b, 12, h.item);
    Get16Back(b, 16, h.itemHigh);
    Get16Back(b, 18, h.segCnt);
  }

  function KindOf(t: byte): (k: Option<PackType>) {
    if t == 0 then Some(IndexOnly)
    else if t == 1 then Some(KeySet)
    else if t == 2 then Some(KvInline)
    else if t == 3 then Some(KvSeparated)
    else None
  }

  function KindByte(k: PackType): byte {
    match k
    case IndexOnly => 0
    case KeySet => 1
    case KvInline => 2
    case KvSeparated => 3
  }

  /** The header checks of the loader. */
  predicate HeaderFits(h: Header) {
    && h.magic == SHD_MAGIC && KindOf(h.kind).Some?
    && (h.kind == 3 ==> h.valLen == OFFSET_FIELD_SIZE)
    && (h.kind in {2, 3} ==> h.valLen != 0)
    && (h.kind in {1, 2, 3} ==> h.keyLen != 0)
    && 0 < h.segCnt <= MAX_SEGMENT
  }

  // ---- Where the parts lie ----------------------------------------------------------------------

  /** `(x + 31U) & (~31U)`: the mask has 32 bits, so the result does too. */
  function AlignUp(x: nat): nat {
    (x + 31) % 0x1_0000_0000 / 32 * 32
  }

  /** The alignment moves an offset up, by less than 32, exactly below the 32-bit bound; beyond it goes back. */
  lemma AlignUpExact(x: nat)
    ensures AlignUp(x) >= x <==> x + 31 < 0x1_0000_0000
    ensures x + 31 < 0x1_0000_0000 ==> x <= AlignUp(x) < x + 32 && AlignUp(x) % 32 == 0
  {
  }

  function CellsSize(parts: seq<u32>, n: nat): nat
    requires n <= |parts|
  {
    if n == 0 then 0 else CellsSize(parts, n - 1) + L1Size(parts[n - 1])
  }

  function SectionsSize(parts: seq<u32>, n: nat): nat
    requires n <= |parts|
  {
    if n == 0 then 0 else SectionsSize(parts, n - 1) + SectionSize(parts[n - 1]) * SECTION_BYTES
  }

  function Items(parts: seq<u32>, n: nat): nat
    requires n <= |parts|
  {
    if n == 0 then 0 else Items(parts, n - 1) + parts[n - 1]
  }

  function CellsAt(parts: seq<u32>, n: nat): nat
    requires n <= |parts|
  {
    HEADER_SIZE + 4 * |parts| + CellsSize(parts, n)
  }

  function SectionsAt(parts: seq<u32>, n: nat): nat
    requires n <= |parts|
  {
    AlignUp(CellsAt(parts, |parts|)) + SectionsSize(parts, n)
  }

  function ContentAt(parts: seq<u32>): nat {
    SectionsAt(parts, |parts|)
  }

  lemma {:induction false} SizesMonotone(parts: seq<u32>, i: nat, n: nat)
    requires i <= n <= |parts|
    ensures CellsSize(parts, i) <= CellsSize(parts, n) && SectionsSize(parts, i) <= SectionsSize(parts, n)
    decreases n
  {
    if i < n {
      SizesMonotone(parts, i, n - 1);
    }
  }

  // ---- The writer -------------------------------------------------------------------------------

  function PartsOf(pieces: seq<IndexPiece>): (parts: seq<u32>)
    ensures |parts| == |pieces| && forall i :: 0 <= i < |pieces| ==> parts[i] == pieces[i].size
  {
    seq(|pieces|, i requires 0 <= i < |pieces| => pieces[i].size)
  }

  function PartsBytes(parts: seq<u32>): (s: seq<byte>)
    ensures |s| == 4 * |parts|
  {
    if parts == [] then [] else PartsBytes(parts[..|parts| - 1]) + Bytes32(parts[|parts| - 1])
  }

  function CellsBytes(pieces: seq<IndexPiece>, n: nat): seq<byte>
    requires n <= |pieces|
  {
    if n == 0 then [] else CellsBytes(pieces, n - 1) + pieces[n - 1].cells
  }

  function WordsBytes(words: seq<u32>): (s: seq<byte>)
    ensures |s| == 4 * |words|
  {
    PartsBytes(words)
  }

  function SectionBytes(sec: Section): (s: seq<byte>)
    ensures |sec.b32| == 7 ==> |s| == SECTION_BYTES
  {
    WordsBytes(sec.b32) + Bytes32(sec.step)
  }

  function PieceSections(sections: seq<Section>, n: nat): (s: seq<byte>)
    requires n <= |sections|
  {
    if n == 0 then [] else PieceSections(sections, n - 1) + SectionBytes(sections[n - 1])
  }

  function SectionsBytes(pieces: seq<IndexPiece>, n: nat): seq<byte>
    requires n <= |pieces|
  {
    if n == 0 then []
    else SectionsBytes(pieces, n - 1) + PieceSections(pieces[n - 1].sections, |pieces[n - 1].sections|)
  }

  function Zeros(n: nat): (s: seq<byte>)
    ensures |s| == n && forall i :: 0 <= i < n ==> s[i] == 0
  {
    seq(n, _ => 0)
  }

  function Padding(unaligned: nat): seq<byte> {
    if AlignUp(unaligned) > unaligned then Zeros(AlignUp(unaligned) - unaligned) else []
  }

  /** The index part of a pack. */
  function IndexBytes(h: Header, pieces: seq<IndexPiece>): seq<byte> {
    var n := |pieces|;
    HeaderBytes(h) + (PartsBytes(PartsOf(pieces)) + (CellsBytes(pieces, n)
    + (Padding(CellsAt(PartsOf(pieces), n)) + SectionsBytes(pieces, n))))
  }

  lemma CellsGrow(head: seq<byte>, pieces: seq<IndexPiece>, i: nat)
    requires i < |pieces|
    ensures head + CellsBytes(pieces, i) + pieces[i].cells == head + CellsBytes(pieces, i + 1)
    ensures CellsAt(PartsOf(pieces), i + 1) == CellsAt(PartsOf(pieces), i) + L1Size(pieces[i].size)
  {
    hide L1Size;
    assert CellsBytes(pieces, i + 1) == CellsBytes(pieces, i) + pieces[i].cells;
  }

  lemma SectionsGrow(head: seq<byte>, pieces: seq<IndexPiece>, i: nat)
    requires i < |pieces|
    ensures head + SectionsBytes(pieces, i) + PieceSections(pieces[i].sections, |pieces[i].sections|)
            == head + SectionsBytes(pieces, i + 1)
  {
    hide PieceSections;
    var more := PieceSections(pieces[i].sections, |pieces[i].sections|);
    assert SectionsBytes(pieces, i + 1) == SectionsBytes(pieces, i) + more;
  }

  /** Writes the index; the first call of the output that fails ends it. */
  method DumpIndex(h: Header, pieces: seq<IndexPiece>, w: Writer) returns (ok: bool)
    modifies w
    ensures pieces == [] ==> !ok && w.calls == old(w.calls) && w.out == old(w.out)
    ensures pieces != [] && ok ==> w.Clean(old(w.calls)) && w.out == old(w.out) + IndexBytes(h, pieces)
    ensures pieces != [] && !ok ==> w.GaveUp(old(w.calls))
  {
    hide HeaderBytes, PartsBytes, CellsBytes, SectionsBytes, PieceSections, CellsAt, L1Size, AlignUp, IndexBytes;
    if pieces == [] {
      return false;
    }
    ghost var begin, before := w.calls, w.out;
    var parts := PartsOf(pieces);
    ok := w.Write(HeaderBytes(h));
    if ok {
      ok := w.Write(PartsBytes(parts));
    }
    if !ok {
      return;
    }
    var size := HEADER_SIZE + |parts| * 4;
    ghost var head := w.out;
    NothingYet(head, pieces);
    for i := 0 to |pieces|
      invariant w.Clean(begin) && w.out == head + CellsBytes(pieces, i)
      invariant size == CellsAt(parts, i)
    {
      CellsGrow(head, pieces, i);
      ok := w.Write(pieces[i].cells);
      if !ok {
        return;
      }
      size := size + L1Size(pieces[i].size);
    }
    var unaligned := size;
    size := AlignUp(size);
    ghost var padded := w.out + Padding(unaligned);
    if size > unaligned {
      ok := w.Write(Zeros(size - unaligned));
      if !ok {
        return;
      }
    }
    assert w.out == padded;
    ok := DumpSections(pieces, w, begin);
    IndexIs(before, h, pieces);
  }

  /** The sections of all segments, one segment after the other. */
  method DumpSections(pieces: seq<IndexPiece>, w: Writer, ghost begin: nat) returns (ok: bool)
    requires w.Clean(begin)
    modifies w
    ensures ok ==> w.Clean(begin) && w.out == old(w.out) + SectionsBytes(pieces, |pieces|)
    ensures !ok ==> w.GaveUp(begin)
  {
    hide SectionsBytes, PieceSections, CellsBytes, CellsAt;
    ghost var before := w.out;
    NothingYet(before, pieces);
    for i := 0 to |pieces|
      invariant w.Clean(begin) && w.out == before + SectionsBytes(pieces, i)
    {
      SectionsGrow(before, pieces, i);
      ok := w.Write(PieceSections(pieces[i].sections, |pieces[i].sections|));
      if !ok {
        return;
      }
    }
    ok := true;
  }

  lemma IndexIs(before: seq<byte>, h: Header, pieces: seq<IndexPiece>)
    ensures var n, parts := |pieces|, PartsOf(pieces);
            before + HeaderBytes(h) + PartsBytes(parts) + CellsBytes(pieces, n) + Padding(CellsAt(parts, n))
            + SectionsBytes(pieces, n) == before + IndexBytes(h, pieces)
  {
    hide HeaderBytes, PartsBytes, CellsBytes, SectionsBytes, Padding, CellsAt;
    var n, parts := |pieces|, PartsOf(pieces);
    Associate(HeaderBytes(h), PartsBytes(parts), CellsBytes(pieces, n), Padding(CellsAt(parts, n)),
              SectionsBytes(pieces, n));
    Prefixed(before, HeaderBytes(h), PartsBytes(parts), CellsBytes(pieces, n), Padding(CellsAt(parts, n)),
             SectionsBytes(pieces, n));
  }

  lemma Prefixed(p: seq<byte>, a: seq<byte>, b: seq<byte>, c: seq<byte>, d: seq<byte>, e: seq<byte>)
    ensures p + a + b + c + d + e == p + (a + b + c + d + e)
  {
  }

  lemma NothingYet(head: seq<byte>, pieces: seq<IndexPiece>)
    ensures head + CellsBytes(pieces, 0) == head && head + SectionsBytes(pieces, 0) == head
    ensures CellsAt(PartsOf(pieces), 0) == HEADER_SIZE + 4 * |pieces|
  {
  }

  lemma Associate(a: seq<byte>, b: seq<byte>, c: seq<byte>, d: seq<byte>, e: seq<byte>)
    ensures a + b + c + d + e == a + (b + (c + (d + e)))
  {
  }

  // ---- The loader -------------------------------------------------------------------------------

  function WordsAt(b: seq<byte>, off: nat, n: nat): (words: seq<u32>)
    requires off + 4 * n <= |b|
    ensures |words| == n && forall i :: 0 <= i < n ==> words[i] == Get32(b, off + 4 * i)
  {
    seq(n, i requires 0 <= i < n => Get32(b, off + 4 * i))
  }

  function SectionAt(b: seq<byte>, off: nat): (sec: Section)
    requires off + SECTION_BYTES <= |b|
    ensures sec.Valid()
  {
    Section(WordsAt(b, off, 7), Get32(b, off + 28))
  }

  function SectionsFrom(b: seq<byte>, off: nat, n: nat): (s: seq<Section>)
    requires off + n * SECTION_BYTES <= |b|
    ensures |s| == n && forall i :: 0 <= i < n ==> s[i] == SectionAt(b, off + i * SECTION_BYTES)
  {
    seq(n, i requires 0 <= i < n => SectionAt(b, off + i * SECTION_BYTES))
  }

  function ItemOf(h: Header): nat {
    h.itemHigh * 0x1_0000_0000 + h.item
  }

  function LineOf(h: Header): nat {
    h.keyLen + h.valLen
  }

  /** Where the lines end. */
  function LinesEnd(h: Header, parts: seq<u32>): nat {
    ContentAt(parts) + Times(LineOf(h), Items(parts, |parts|))
  }

  /** The bytes hold a pack: exactly what the loader accepts. */
  ghost predicate Accepts(b: seq<byte>) {
    && |b| >= HEADER_SIZE && HeaderFits(HeaderOf(b))
    && HEADER_SIZE + 4 * HeaderOf(b).segCnt <= |b|
    && PartsFit(b, HeaderOf(b), WordsAt(b, HEADER_SIZE, HeaderOf(b).segCnt))
  }

  ghost predicate PartsFit(b: seq<byte>, h: Header, parts: seq<u32>) {
    && (forall i :: 0 <= i < |parts| ==> parts[i] != 0)
    && CellsAt(parts, |parts|) <= |b|
    && Items(parts, |parts|) == ItemOf(h)
    && ContentAt(parts) <= |b|
    && (h.kind != 0 ==> LinesEnd(h, parts) <= |b|)
    && (h.kind == 3 ==> LinesEnd(h, parts) + Items(parts, |parts|) <= |b|)
  }

  predicate PieceInside(b: seq<byte>, parts: seq<u32>, i: nat) {
    i < |parts| && CellsAt(parts, i + 1) <= |b| && SectionsAt(parts, i + 1) <= |b|
  }

  lemma PiecesInside(b: seq<byte>, parts: seq<u32>, i: nat)
    requires i < |parts| && CellsAt(parts, |parts|) <= |b| && SectionsAt(parts, |parts|) <= |b|
    ensures PieceInside(b, parts, i)
  {
    SizesMonotone(parts, i + 1, |parts|);
  }

  /** The index of segment `i`: its cells and its sections, each at the offset the sizes before it give. */
  function PieceAt(b: seq<byte>, parts: seq<u32>, i: nat): (piece: IndexPiece)
    requires PieceInside(b, parts, i)
    ensures piece.size == parts[i] && |piece.cells| == L1Size(parts[i]) && |piece.sections| == SectionSize(parts[i])
    ensures forall s :: 0 <= s < |piece.sections| ==> piece.sections[s].Valid()
  {
    var at := CellsAt(parts, i);
    IndexPiece(parts[i], b[at..at + L1Size(parts[i])], SectionsFrom(b, SectionsAt(parts, i), SectionSize(parts[i])))
  }

  ghost function PiecesAt(b: seq<byte>, parts: seq<u32>, n: nat): (pieces: seq<IndexPiece>)
    requires n <= |parts| && CellsAt(parts, |parts|) <= |b| && SectionsAt(parts, |parts|) <= |b|
    ensures |pieces| == n
    ensures forall i :: 0 <= i < n ==> PieceInside(b, parts, i) && pieces[i] == PieceAt(b, parts, i)
  {
    if n == 0 then [] else
      PiecesInside(b, parts, n - 1);
      PiecesAt(b, parts, n - 1) + [PieceAt(b, parts, n - 1)]
  }

  /** What a pack in these bytes means. */
  ghost function ViewOf(b: seq<byte>): PackView
    requires Accepts(b)
  {
    var h := HeaderOf(b);
    var parts := WordsAt(b, HEADER_SIZE, h.segCnt);
    View(b, h, parts)
  }

  ghost function View(b: seq<byte>, h: Header, parts: seq<u32>): PackView
    requires HeaderFits(h) && PartsFit(b, h, parts)
  {
    PackView(KindOf(h.kind).value, h.keyLen, h.valLen, h.seed, ItemOf(h), Table(PiecesAt(b, parts, |parts|)),
             if h.kind != 0 then b[ContentAt(parts)..LinesEnd(h, parts)] else [],
             if h.kind == 3 then b[LinesEnd(h, parts)..] else [])
  }

  lemma CellsOutside(b: seq<byte>, h: Header, parts: seq<u32>, i: nat)
    requires i <= |parts| && CellsAt(parts, i) > |b|
    ensures !PartsFit(b, h, parts)
  {
    SizesMonotone(parts, i, |parts|);
  }

  lemma SectionsOutside(b: seq<byte>, h: Header, parts: seq<u32>, i: nat)
    requires i <= |parts| && SectionsAt(parts, i) > |b|
    ensures !PartsFit(b, h, parts)
  {
    SizesMonotone(parts, i, |parts|);
  }

  lemma CellsNext(parts: seq<u32>, i: nat)
    requires i < |parts|
    ensures CellsAt(parts, i + 1) == CellsAt(parts, i) + L1Size(parts[i])
    ensures Items(parts, i + 1) == Items(parts, i) + parts[i]
  {
  }

  lemma SectionsNext(parts: seq<u32>, i: nat)
    requires i < |parts|
    ensures SectionsAt(parts, i + 1) == SectionsAt(parts, i) + SectionSize(parts[i]) * SECTION_BYTES
  {
  }

  lemma Starts(parts: seq<u32>)
    ensures CellsAt(parts, 0) == HEADER_SIZE + 4 * |parts| && Items(parts, 0) == 0
    ensures SectionsAt(parts, 0) == AlignUp(CellsAt(parts, |parts|))
  {
  }

  /** The header checks, each case falling through to the next as the types widen. */
  method CheckHeader(h: Header) returns (ok: bool)
    ensures ok == HeaderFits(h)
    ensures ok <==> h.magic == 0x4448_537f && 0 < h.segCnt <= 256
                    && (h.kind == 0 || (h.kind == 1 && h.keyLen != 0) || (h.kind == 2 && h.keyLen != 0 && h.valLen != 0)
                        || (h.kind == 3 && h.keyLen != 0 && h.valLen == 6))
  {
    if h.magic != SHD_MAGIC {
      return false;
    }
    if h.kind == 3 && h.valLen != OFFSET_FIELD_SIZE {
      return false;
    }
    if (h.kind == 3 || h.kind == 2) && h.valLen == 0 {
      return false;
    }
    if (h.kind == 3 || h.kind == 2 || h.kind == 1) && h.keyLen == 0 {
      return false;
    }
    if h.kind > 3 {
      return false;
    }
    return h.segCnt != 0 && h.segCnt <= MAX_SEGMENT;
  }

  /** First pass over the parts: the cells of every segment. */
  method LoadCells(addr: seq<byte>, h: Header, parts: seq<u32>) returns (ok: bool, off: nat, total: nat, cells: seq<seq<byte>>)
    ensures !ok ==> !PartsFit(addr, h, parts)
    ensures ok ==> off == CellsAt(parts, |parts|) <= |addr| && total == Items(parts, |parts|) && |cells| == |parts|
    ensures ok ==> forall i :: 0 <= i < |parts| ==> parts[i] != 0 && CellsHere(addr, parts, i, cells[i])
  {
    hide CellsAt, Items, L1Size, PartsFit;
    ok, off, total, cells := false, HEADER_SIZE + 4 * |parts|, 0, [];
    Starts(parts);
    if |addr| < off {
      CellsOutside(addr, h, parts, 0);
      return;
    }
    for i := 0 to |parts|
      invariant off == CellsAt(parts, i) <= |addr| && total == Items(parts, i) && |cells| == i
      invariant forall k :: 0 <= k < i ==> parts[k] != 0 && CellsHere(addr, parts, k, cells[k])
    {
      if parts[i] == 0 {
        ZeroPart(addr, h, parts, i);
        return;
      }
      CellsNext(parts, i);
      total := total + parts[i];
      var at := off;
      off := off + L1Size(parts[i]);
      if |addr| < off {
        CellsOutside(addr, h, parts, i + 1);
        return;
      }
      cells := cells + [addr[at..off]];
    }
    ok := true;
  }

  ghost predicate CellsHere(addr: seq<byte>, parts: seq<u32>, i: nat, cells: seq<byte>) {
    i < |parts| && CellsAt(parts, i + 1) <= |addr| && cells == addr[CellsAt(parts, i)..CellsAt(parts, i + 1)]
  }

  lemma ZeroPart(b: seq<byte>, h: Header, parts: seq<u32>, i: nat)
    requires i < |parts| && parts[i] == 0
    ensures !PartsFit(b, h, parts)
  {
  }

  /** Second pass: the sections of every segment, from the aligned offset on. */
  method LoadSections(addr: seq<byte>, h: Header, parts: seq<u32>, cells: seq<seq<byte>>)
    returns (ok: bool, off: nat, pieces: seq<IndexPiece>)
    requires |cells| == |parts| && forall i :: 0 <= i < |parts| ==> CellsHere(addr, parts, i, cells[i])
    ensures !ok ==> !PartsFit(addr, h, parts)
    ensures ok ==> off == ContentAt(parts) <= |addr| && |pieces| == |parts|
    ensures ok ==> forall i :: 0 <= i < |parts| ==> PieceInside(addr, parts, i) && pieces[i] == PieceAt(addr, parts, i)
  {
    hide CellsAt, SectionsAt, SectionSize, L1Size, AlignUp, PartsFit, SectionsFrom;
    Starts(parts);
    ok, off, pieces := false, AlignUp(CellsAt(parts, |parts|)), [];
    if |addr| < off {
      SectionsOutside(addr, h, parts, 0);
      return;
    }
    for i := 0 to |parts|
      invariant off == SectionsAt(parts, i) <= |addr| && |pieces| == i
      invariant forall k :: 0 <= k < i ==> PieceInside(addr, parts, k) && pieces[k] == PieceAt(addr, parts, k)
    {
      SectionsNext(parts, i);
      CellsNext(parts, i);
      var at := off;
      off := off + SectionSize(parts[i]) * SECTION_BYTES;
      if |addr| < off {
        SectionsOutside(addr, h, parts, i + 1);
        return;
      }
      pieces := pieces + [IndexPiece(parts[i], cells[i], SectionsFrom(addr, at, SectionSize(parts[i])))];
    }
    ok := true;
  }

  /** Opens a pack: nothing unless the bytes hold one, and then exactly what they mean. */
  method CreatePackView(addr: seq<byte>) returns (r: Option<PackView>)
    ensures r == if Accepts(addr) then Some(ViewOf(addr)) else None
  {
    hide CellsAt, SectionsAt, Items, PieceAt, PieceInside, CellsHere, HeaderOf, WordsAt, ItemOf, LineOf, Times;
    if |addr| < HEADER_SIZE {
      return None;
    }
    var h := HeaderOf(addr);
    var ok := CheckHeader(h);
    if !ok || |addr| < HEADER_SIZE + 4 * h.segCnt {
      return None;
    }
    var parts := WordsAt(addr, HEADER_SIZE, h.segCnt);
    var off: nat, total: nat, cells: seq<seq<byte>>, pieces: seq<IndexPiece>;
    ok, off, total, cells := LoadCells(addr, h, parts);
    if !ok || total != ItemOf(h) {
      return None;
    }
    ok, off, pieces := LoadSections(addr, h, parts, cells);
    if !ok {
      return None;
    }
    var content: seq<byte>, extend: seq<byte> := [], [];
    if h.kind != 0 {
      var lines := off + Times(LineOf(h), total);
      if |addr| < lines {
        return None;
      }
      content := addr[off..lines];
      if h.kind == 3 {
        if |addr| < lines + total {
          return None;
        }
        extend := addr[lines..];
      }
    }
    assert pieces == PiecesAt(addr, parts, |parts|);
    r := Some(PackView(KindOf(h.kind).value, h.keyLen, h.valLen, h.seed, ItemOf(h), Table(pieces), content, extend));
  }

  // ---- Within the bound, everything lies in order -----------------------------------------------

  /** Segment `i` has a stretch of cells and a stretch of sections, inside those of all segments. */
  ghost predicate Stretches(parts: seq<u32>, i: nat) {
    && i < |parts|
    && CellsAt(parts, 0) <= CellsAt(parts, i) < CellsAt(parts, i + 1) <= CellsAt(parts, |parts|)
    && SectionsAt(parts, 0) <= SectionsAt(parts, i) < SectionsAt(parts, i + 1) <= ContentAt(parts)
  }

  lemma StretchesOf(parts: seq<u32>, i: nat)
    requires i < |parts| && parts[i] != 0
    ensures Stretches(parts, i)
  {
    SizesMonotone(parts, 0, i);
    SizesMonotone(parts, i + 1, |parts|);
  }

  /** The parts of an accepted pack: header, part sizes, cells, sections, lines, values, each segment's stretch
      ending where the next begins, all of it inside the bytes. The sections follow the cells exactly within
      the 32-bit bound; beyond it they start before the cells end. */
  lemma AcceptedIsOrdered(b: seq<byte>)
    requires Accepts(b)
    ensures var h := HeaderOf(b);
            var parts := WordsAt(b, HEADER_SIZE, h.segCnt);
            && CellsAt(parts, 0) == HEADER_SIZE + 4 * |parts| && CellsAt(parts, |parts|) <= |b|
            && (forall i :: 0 <= i < |parts| ==> Stretches(parts, i))
            && (CellsAt(parts, |parts|) <= SectionsAt(parts, 0) <==> CellsAt(parts, |parts|) + 31 < 0x1_0000_0000)
            && ContentAt(parts) <= |b| && (h.kind != 0 ==> ContentAt(parts) <= LinesEnd(h, parts) <= |b|)
  {
    hide AlignUp, Stretches, HeaderFits, L1Size, SectionSize;
    var h := HeaderOf(b);
    var parts := WordsAt(b, HEADER_SIZE, h.segCnt);
    AlignUpExact(CellsAt(parts, |parts|));
    Starts(parts);
    forall i | 0 <= i < |parts| ensures Stretches(parts, i) {
      StretchesOf(parts, i);
    }
    MulMonotone(0, LineOf(h), Items(parts, |parts|));
  }

  // ---- The format in figures --------------------------------------------------------------------

  /** The 20 bytes of the header of an accepted pack, and the sizes of its segments behind them. */
  lemma HeaderInFigures(b: seq<byte>)
    requires Accepts(b)
    ensures |b| >= 20 && b[0] == 0x7f && b[1] == 0x53 && b[2] == 0x48 && b[3] == 0x44
    ensures var v := ViewOf(b);
            && b[4] as int == (match v.kind case IndexOnly => 0 case KeySet => 1 case KvInline => 2 case KvSeparated => 3)
            && b[5] == v.keyLen && b[6] as int + 0x100 * b[7] as int == v.valLen
            && b[8] as int + 0x100 * b[9] as int + 0x1_0000 * b[10] as int + 0x100_0000 * b[11] as int == v.seed
            && b[12] as int + 0x100 * b[13] as int + 0x1_0000 * b[14] as int + 0x100_0000 * b[15] as int
               + 0x1_0000_0000 * (b[16] as int + 0x100 * b[17] as int) == v.item
            && b[18] as int + 0x100 * b[19] as int == |v.table.pieces| && 1 <= |v.table.pieces| <= 256
            && 20 + 4 * |v.table.pieces| <= |b|
            && forall p :: 0 <= p < |v.table.pieces| ==>
                 v.table.pieces[p].size == b[20 + 4 * p] as int + 0x100 * b[21 + 4 * p] as int
                                           + 0x1_0000 * b[22 + 4 * p] as int + 0x100_0000 * b[23 + 4 * p] as int
  {
    hide CellsAt, SectionsAt, Items, LinesEnd, L1Size, SectionSize, SectionsFrom;
    var h := HeaderOf(b);
    var parts := WordsAt(b, HEADER_SIZE, h.segCnt);
    MagicBytes(b);
    forall p | 0 <= p < |parts| ensures PieceInside(b, parts, p) {
      PiecesInside(b, parts, p);
    }
  }

  lemma MagicBytes(b: seq<byte>)
    requires |b| >= 4 && Get32(b, 0) == 0x4448_537f
    ensures b[0] == 0x7f && b[1] == 0x53 && b[2] == 0x48 && b[3] == 0x44
  {
  }

  /** Where the cells and the sections of segment `p` lie: behind the sizes come the cells, a byte for every five
      items or part of five; the sections begin at the next multiple of 32 (of an offset cut to 32 bits), one of 32
      bytes for every 224 of the `2 * size + 1` places or part of 224. */
  lemma SegmentInFigures(b: seq<byte>, p: nat)
    requires Accepts(b) && p < |ViewOf(b).table.pieces|
    ensures var pieces := ViewOf(b).table.pieces;
            var parts := PartsOf(pieces);
            && CellsAt(parts, 0) == 20 + 4 * |pieces|
            && CellsAt(parts, p + 1) == CellsAt(parts, p) + (pieces[p].size + 4) / 5 <= |b|
            && pieces[p].cells == b[CellsAt(parts, p)..CellsAt(parts, p + 1)]
            && SectionsAt(parts, 0) == (CellsAt(parts, |pieces|) + 31) % 0x1_0000_0000 / 32 * 32
            && |pieces[p].sections| == (2 * pieces[p].size + 1 + 223) / 224
            && SectionsAt(parts, p + 1) == SectionsAt(parts, p) + 32 * |pieces[p].sections| <= |b|
  {
    hide Items, LinesEnd, SectionsFrom, HeaderOf;
    hide CellsSize, SectionsSize;
    var parts := WordsAt(b, HEADER_SIZE, HeaderOf(b).segCnt);
    LoadedParts(b);
    PiecesInside(b, parts, p);
    CellsNext(parts, p);
    SectionsNext(parts, p);
    Starts(parts);
  }

  lemma LoadedParts(b: seq<byte>)
    requires Accepts(b)
    ensures PartsOf(ViewOf(b).table.pieces) == WordsAt(b, HEADER_SIZE, HeaderOf(b).segCnt)
  {
    hide CellsAt, SectionsAt, Items, LinesEnd, L1Size, SectionSize, SectionsFrom, HeaderOf;
    var parts := WordsAt(b, HEADER_SIZE, HeaderOf(b).segCnt);
    forall p | 0 <= p < |parts| ensures PartsOf(ViewOf(b).table.pieces)[p] == parts[p] {
      PiecesInside(b, parts, p);
    }
  }

  /** Section `s` of segment `p`: seven words of the bitmap, then the number of bits set before it. */
  lemma SectionInFigures(b: seq<byte>, p: nat, s: nat, k: nat)
    requires Accepts(b) && p < |ViewOf(b).table.pieces| && s < |ViewOf(b).table.pieces[p].sections| && k < 8
    ensures var pieces := ViewOf(b).table.pieces;
            var sec, at := pieces[p].sections[s], SectionsAt(PartsOf(pieces), p) + 32 * s + 4 * k;
            && |sec.b32| == 7 && at + 4 <= |b|
            && (if k < 7 then sec.b32[k] else sec.step)
               == b[at] as int + 0x100 * b[at + 1] as int + 0x1_0000 * b[at + 2] as int + 0x100_0000 * b[at + 3] as int
  {
    hide Items, LinesEnd, HeaderOf, CellsAt, SectionsAt, L1Size, SectionSize, SectionAt, PartsOf, HeaderFits;
    var parts := WordsAt(b, HEADER_SIZE, HeaderOf(b).segCnt);
    LoadedParts(b);
    PiecesInside(b, parts, p);
    SectionsNext(parts, p);
    hide PartsFit;
    var piece := PieceAt(b, parts, p);
    SectionWord(b, SectionsAt(parts, p) + 32 * s, k);
    assert piece.sections[s] == SectionAt(b, SectionsAt(parts, p) + s * SECTION_BYTES);
  }

  lemma SectionWord(b: seq<byte>, off: nat, k: nat)
    requires off + 32 <= |b| && k < 8
    ensures var sec, at := SectionAt(b, off), off + 4 * k;
            && |sec.b32| == 7
            && (if k < 7 then sec.b32[k] else sec.step)
               == b[at] as int + 0x100 * b[at + 1] as int + 0x1_0000 * b[at + 2] as int + 0x100_0000 * b[at + 3] as int
  {
  }

  /** Behind the sections come the lines, behind them the values. */
  lemma LinesInFigures(b: seq<byte>)
    requires Accepts(b)
    ensures var v := ViewOf(b);
            var at := SectionsAt(PartsOf(v.table.pieces), |v.table.pieces|);
            && at <= |b|
            && (v.kind == IndexOnly ==> v.content == [] && v.extend == [])
            && at + |v.content| <= |b| && v.content == b[at..at + |v.content|]
            && (v.kind != IndexOnly ==> |v.content| == v.item * (v.keyLen + v.valLen))
            && (v.kind == KvSeparated ==> v.extend == b[at + |v.content|..] && |v.extend| >= v.item)
            && (v.kind != KvSeparated ==> v.extend == [])
  {
    hide CellsAt, SectionsAt, L1Size, SectionSize, HeaderOf, Items, PartsOf, Times;
    LoadedParts(b);
    var h := HeaderOf(b);
    LineBytes(h, ItemOf(h));
  }

  lemma LineBytes(h: Header, n: nat)
    ensures Times(LineOf(h), n) == n * (h.keyLen + h.valLen)
  {
  }

  /** Six segments of the largest size are beyond the bound: their sections would start before their cells end. */
  lemma BeyondTheBound()
    ensures var parts: seq<u32> := [0xffff_ffff, 0xffff_ffff, 0xffff_ffff, 0xffff_ffff, 0xffff_ffff, 0xffff_ffff];
            CellsAt(parts, 6) + 31 >= 0x1_0000_0000 && SectionsAt(parts, 0) < CellsAt(parts, 6)
  {
    var m: u32 := 0xffff_ffff;
    var parts: seq<u32> := [m, m, m, m, m, m];
    CellsNext(parts, 0);
    CellsNext(parts, 1);
    CellsNext(parts, 2);
    CellsNext(parts, 3);
    CellsNext(parts, 4);
    CellsNext(parts, 5);
    Starts(parts);
    AlignUpExact(CellsAt(parts, 6));
  }

  // ---- What was written is what is loaded -------------------------------------------------------

  /** The header a build writes for a pack. */
  function HeaderFor(pack: PackView): (h: Header)
    requires pack.item < 0x1_0000_0000_0000 && |pack.table.pieces| <= MAX_SEGMENT
    ensures ItemOf(h) == pack.item
  {
    Header(SHD_MAGIC, KindByte(pack.kind), pack.keyLen, pack.valLen, pack.seed, pack.item % 0x1_0000_0000,
           pack.item / 0x1_0000_0000, |pack.table.pieces|)
  }

  /** What the builder can produce: shaped segments that add up, lines and values as the kind asks, and an
      index below the 32-bit bound of the alignment. */
  ghost predicate Writable(pack: PackView) {
    var pieces := pack.table.pieces;
    && pack.item < 0x1_0000_0000_0000 && 0 < |pieces| <= MAX_SEGMENT
    && HeaderFits(HeaderFor(pack))
    && (forall i :: 0 <= i < |pieces| ==> pieces[i].Shaped())
    && pack.table.Offset(|pieces|) == pack.item
    && CellsAt(PartsOf(pieces), |pieces|) + 31 < 0x1_0000_0000
    && (if pack.kind.IndexOnly? then pack.content == [] else pack.Sized())
    && (if pack.kind.KvSeparated? then |pack.extend| >= pack.item else pack.extend == [])
  }

  function PackBytes(pack: PackView): seq<byte>
    requires pack.item < 0x1_0000_0000_0000 && |pack.table.pieces| <= MAX_SEGMENT
  {
    IndexBytes(HeaderFor(pack), pack.table.pieces) + (pack.content + pack.extend)
  }

  lemma {:induction false} ItemsAreOffsets(table: Table, n: nat)
    requires n <= |table.pieces|
    ensures Items(PartsOf(table.pieces), n) == table.Offset(n)
  {
    if n > 0 {
      ItemsAreOffsets(table, n - 1);
    }
  }

  lemma {:induction false} PartsBack(b: seq<byte>, off: nat, words: seq<u32>)
    requires IsAt(b, off, PartsBytes(words))
    ensures off + 4 * |words| <= |b| && WordsAt(b, off, |words|) == words
  {
    hide Get32, Bytes32;
    if words != [] {
      var m := |words| - 1;
      IsAtConcat(b, off, PartsBytes(words[..m]), Bytes32(words[m]));
      PartsBack(b, off, words[..m]);
      Get32Back(b, off + 4 * m, words[m]);
      assert WordsAt(b, off, |words|) == WordsAt(b, off, m) + [words[m]];
    }
  }

  lemma SectionBack(b: seq<byte>, off: nat, sec: Section)
    requires sec.Valid() && IsAt(b, off, SectionBytes(sec))
    ensures off + SECTION_BYTES <= |b| && SectionAt(b, off) == sec
  {
    hide Get32, Bytes32, PartsBytes;
    IsAtConcat(b, off, WordsBytes(sec.b32), Bytes32(sec.step));
    PartsBack(b, off, sec.b32);
    Get32Back(b, off + 28, sec.step);
  }

  lemma {:induction false} PieceSectionsBack(b: seq<byte>, off: nat, secs: seq<Section>, n: nat)
    requires n <= |secs| && (forall s :: 0 <= s < n ==> secs[s].Valid())
    requires IsAt(b, off, PieceSections(secs, n))
    ensures |PieceSections(secs, n)| == n * SECTION_BYTES && off + n * SECTION_BYTES <= |b|
    ensures SectionsFrom(b, off, n) == secs[..n]
  {
    hide SectionBytes, SectionAt;
    if n > 0 {
      IsAtConcat(b, off, PieceSections(secs, n - 1), SectionBytes(secs[n - 1]));
      PieceSectionsBack(b, off, secs, n - 1);
      SectionBack(b, off + (n - 1) * SECTION_BYTES, secs[n - 1]);
      assert SectionsFrom(b, off, n) == SectionsFrom(b, off, n - 1) + [secs[n - 1]];
    }
  }

  lemma {:induction false} SectionsLength(pieces: seq<IndexPiece>, n: nat)
    requires n <= |pieces| && (forall i :: 0 <= i < |pieces| ==> pieces[i].Shaped())
    ensures |SectionsBytes(pieces, n)| == SectionsSize(PartsOf(pieces), n)
  {
    hide PieceSections, SectionSize, L1Size;
    if n > 0 {
      SectionsLength(pieces, n - 1);
      PieceSectionsLength(pieces[n - 1].sections, |pieces[n - 1].sections|);
    }
  }

  lemma {:induction false} PieceSectionsLength(secs: seq<Section>, n: nat)
    requires n <= |secs| && (forall s :: 0 <= s < n ==> secs[s].Valid())
    ensures |PieceSections(secs, n)| == n * SECTION_BYTES
  {
    hide SectionBytes;
    if n > 0 {
      PieceSectionsLength(secs, n - 1);
    }
  }

  ghost predicate SectionsFound(b: seq<byte>, off: nat, piece: IndexPiece) {
    && off + SectionSize(piece.size) * SECTION_BYTES <= |b|
    && SectionsFrom(b, off, SectionSize(piece.size)) == piece.sections
  }

  /** The sections of segment `i`, written among those of the first `n` from `off` on, are found. */
  lemma {:induction false} SectionsBack(b: seq<byte>, off: nat, pieces: seq<IndexPiece>, n: nat, i: nat)
    requires i < n <= |pieces| && (forall i :: 0 <= i < |pieces| ==> pieces[i].Shaped())
    requires IsAt(b, off, SectionsBytes(pieces, n))
    ensures SectionsFound(b, off + SectionsSize(PartsOf(pieces), i), pieces[i])
    decreases n
  {
    hide SectionSize, L1Size, PieceSections, SectionsFrom, IsAt, SectionsSize;
    var secs := pieces[n - 1].sections;
    SectionsLength(pieces, n - 1);
    IsAtConcat(b, off, SectionsBytes(pieces, n - 1), PieceSections(secs, |secs|));
    if i == n - 1 {
      PieceSectionsBack(b, off + SectionsSize(PartsOf(pieces), i), secs, |secs|);
      assert secs[..|secs|] == secs;
    } else {
      SectionsBack(b, off, pieces, n - 1, i);
    }
  }

  lemma {:induction false} CellsLength(pieces: seq<IndexPiece>, n: nat)
    requires n <= |pieces| && (forall i :: 0 <= i < |pieces| ==> pieces[i].Shaped())
    ensures |CellsBytes(pieces, n)| == CellsSize(PartsOf(pieces), n)
  {
    hide SectionSize, L1Size;
    if n > 0 {
      CellsLength(pieces, n - 1);
    }
  }

  /** The cells of segment `i`, likewise. */
  lemma {:induction false} CellsBack(b: seq<byte>, off: nat, pieces: seq<IndexPiece>, n: nat, i: nat)
    requires i < n <= |pieces| && (forall i :: 0 <= i < |pieces| ==> pieces[i].Shaped())
    requires IsAt(b, off, CellsBytes(pieces, n))
    ensures IsAt(b, off + CellsSize(PartsOf(pieces), i), pieces[i].cells)
    decreases n
  {
    hide L1Size, SectionSize, IsAt, CellsSize, IndexPiece.Shaped;
    CellsLength(pieces, n - 1);
    IsAtConcat(b, off, CellsBytes(pieces, n - 1), pieces[n - 1].cells);
    if i < n - 1 {
      CellsBack(b, off, pieces, n - 1, i);
    }
  }

  /** The bytes hold the five parts of an index one after the other. */
  ghost predicate Laid(b: seq<byte>, h: Header, pieces: seq<IndexPiece>) {
    var n, parts := |pieces|, PartsOf(pieces);
    && IsAt(b, 0, HeaderBytes(h)) && IsAt(b, HEADER_SIZE, PartsBytes(parts))
    && IsAt(b, HEADER_SIZE + 4 * n, CellsBytes(pieces, n))
    && IsAt(b, SectionsAt(parts, 0), SectionsBytes(pieces, n))
    && CellsAt(parts, n) <= |b| && ContentAt(parts) <= |b|
  }

  lemma IndexLaid(b: seq<byte>, h: Header, pieces: seq<IndexPiece>)
    requires forall i :: 0 <= i < |pieces| ==> pieces[i].Shaped()
    requires IsAt(b, 0, IndexBytes(h, pieces)) && CellsAt(PartsOf(pieces), |pieces|) + 31 < 0x1_0000_0000
    ensures Laid(b, h, pieces) && |IndexBytes(h, pieces)| == ContentAt(PartsOf(pieces))
  {
    hide HeaderBytes, PartsBytes, CellsBytes, SectionsBytes, AlignUp, L1Size, SectionSize, IndexPiece.Shaped, IsAt;
    hide CellsSize, SectionsSize;
    hide Padding;
    var n, parts := |pieces|, PartsOf(pieces);
    var mid := CellsAt(parts, n);
    CellsLength(pieces, n);
    SectionsLength(pieces, n);
    Starts(parts);
    PaddingLength(mid);
    FivePartsAt(b, HeaderBytes(h), PartsBytes(parts), CellsBytes(pieces, n), Padding(mid), SectionsBytes(pieces, n));
    IsAtInside(b, SectionsAt(parts, 0), SectionsBytes(pieces, n));
    IsAtInside(b, HEADER_SIZE + 4 * n, CellsBytes(pieces, n));
  }

  lemma PaddingLength(unaligned: nat)
    requires unaligned + 31 < 0x1_0000_0000
    ensures unaligned + |Padding(unaligned)| == AlignUp(unaligned)
  {
    AlignUpExact(unaligned);
    hide AlignUp;
  }

  lemma FivePartsAt(b: seq<byte>, p: seq<byte>, q: seq<byte>, r: seq<byte>, s: seq<byte>, t: seq<byte>)
    requires IsAt(b, 0, p + (q + (r + (s + t))))
    ensures IsAt(b, 0, p) && IsAt(b, |p|, q) && IsAt(b, |p| + |q|, r) && IsAt(b, |p| + |q| + |r| + |s|, t)
  {
    hide IsAt;
    IsAtConcat(b, 0, p, q + (r + (s + t)));
    IsAtConcat(b, |p|, q, r + (s + t));
    IsAtConcat(b, |p| + |q|, r, s + t);
    IsAtConcat(b, |p| + |q| + |r|, s, t);
  }

  lemma IsAtInside(b: seq<byte>, off: nat, x: seq<byte>)
    requires IsAt(b, off, x)
    ensures off + |x| <= |b|
  {
  }

  /** Every part of the written index stands where the loader looks for it. */
  lemma IndexBack(b: seq<byte>, h: Header, pieces: seq<IndexPiece>)
    requires (forall i :: 0 <= i < |pieces| ==> pieces[i].Shaped()) && Laid(b, h, pieces)
    ensures |b| >= HEADER_SIZE && HeaderOf(b) == h
    ensures HEADER_SIZE + 4 * |pieces| <= |b| && WordsAt(b, HEADER_SIZE, |pieces|) == PartsOf(pieces)
    ensures CellsAt(PartsOf(pieces), |pieces|) <= |b| && ContentAt(PartsOf(pieces)) <= |b|
    ensures PiecesAt(b, PartsOf(pieces), |pieces|) == pieces
  {
    hide HeaderBytes, PartsBytes, CellsBytes, SectionsBytes, HeaderOf, AlignUp, WordsAt, L1Size, SectionSize;
    hide SectionsFrom, PieceAt, PieceInside, PiecesAt, IndexPiece.Shaped, CellsSize;
    hide SectionsSize, IsAt, SectionsFound;
    var n, parts := |pieces|, PartsOf(pieces);
    HeaderBack(b, h);
    PartsBack(b, HEADER_SIZE, parts);
    Starts(parts);
    forall i | 0 <= i < n ensures PiecesAt(b, parts, n)[i] == pieces[i] {
      PiecesInside(b, parts, i);
      PieceBack(b, h, pieces, i);
    }
  }

  lemma PieceBack(b: seq<byte>, h: Header, pieces: seq<IndexPiece>, i: nat)
    requires (forall i :: 0 <= i < |pieces| ==> pieces[i].Shaped()) && Laid(b, h, pieces)
    requires i < |pieces| && PieceInside(b, PartsOf(pieces), i)
    ensures PieceAt(b, PartsOf(pieces), i) == pieces[i]
  {
    hide HeaderBytes, PartsBytes, CellsBytes, SectionsBytes, AlignUp, L1Size, SectionSize, SectionsFrom;
    hide CellsSize, SectionsSize;
    var n, parts := |pieces|, PartsOf(pieces);
    CellsBack(b, HEADER_SIZE + 4 * n, pieces, n, i);
    Starts(parts);
    SectionsBack(b, SectionsAt(parts, 0), pieces, n, i);
    assert pieces[i].Shaped();
  }

  lemma HeaderForFields(pack: PackView)
    requires Writable(pack)
    ensures var h := HeaderFor(pack);
            && HeaderFits(h) && KindOf(h.kind) == Some(pack.kind) && h.segCnt == |pack.table.pieces|
            && h.keyLen == pack.keyLen && h.valLen == pack.valLen && h.seed == pack.seed
            && (h.kind == 0 <==> pack.kind.IndexOnly?) && (h.kind == 3 <==> pack.kind.KvSeparated?)
  {
    hide CellsAt, Table.Offset, IndexPiece.Shaped, HeaderFits;
  }

  lemma PartsOfAreFit(b: seq<byte>, pack: PackView)
    requires Writable(pack) && Laid(b, HeaderFor(pack), pack.table.pieces)
    requires |b| == ContentAt(PartsOf(pack.table.pieces)) + |pack.content| + |pack.extend|
    ensures PartsFit(b, HeaderFor(pack), PartsOf(pack.table.pieces))
    ensures HeaderFor(pack).kind != 0 ==>
            LinesEnd(HeaderFor(pack), PartsOf(pack.table.pieces)) == ContentAt(PartsOf(pack.table.pieces)) + |pack.content|
  {
    hide CellsAt, SectionsAt, L1Size, Table.Offset, SectionSize, IsAt, HeaderFits, HeaderFor, ItemOf, Times, Items;
    var pieces := pack.table.pieces;
    ItemsAreOffsets(pack.table, |pieces|);
    HeaderForFields(pack);
    forall i | 0 <= i < |pieces| ensures PartsOf(pieces)[i] != 0 {
      assert pieces[i].Shaped();
    }
    if !pack.kind.IndexOnly? {
      SizedContent(pack, HeaderFor(pack), pack.item);
    }
  }

  lemma SizedContent(pack: PackView, h: Header, items: nat)
    requires pack.Sized() && items == pack.item && h.keyLen == pack.keyLen && h.valLen == pack.valLen
    ensures |pack.content| == Times(LineOf(h), items)
  {
  }

  /** Saving and loading a pack gives back the pack: the kind, the lengths, the seed, every segment with its
      cells and sections, and the lines and values. */
  lemma PackRoundTrip(pack: PackView)
    requires Writable(pack)
    ensures Accepts(PackBytes(pack)) && ViewOf(PackBytes(pack)) == pack
  {
    hide IndexBytes, HeaderOf, WordsAt, CellsAt, SectionsAt, L1Size, Table.Offset;
    hide PiecesAt, HeaderBytes, PartsFit, Laid;
    hide IndexPiece.Shaped, LinesEnd, IsAt;
    var h, pieces := HeaderFor(pack), pack.table.pieces;
    var b := PackBytes(pack);
    WholeIsAt(IndexBytes(h, pieces), pack.content, pack.extend);
    IndexLaid(b, h, pieces);
    IndexBack(b, h, pieces);
    HeaderForFields(pack);
    PartsOfAreFit(b, pack);
  }

  lemma WholeIsAt(a: seq<byte>, c: seq<byte>, e: seq<byte>)
    ensures var b := a + (c + e);
            && IsAt(b, 0, a) && |b| == |a| + |c| + |e|
            && b[|a|..|a| + |c|] == c && b[|a| + |c|..] == e
  {
  }
}
