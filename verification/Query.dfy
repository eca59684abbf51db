/** Batch queries: the stages of the search, run through the pipelines, against one table or two. */
module Query {
  import opened Words
  import opened Ids
  import opened PackFormat
  import opened SegmentBuild
  import opened TableBuild
  import opened Packs
  import Rank
  import opened Pipeline

  // ---- The stages -------------------------------------------------------------------------------

  datatype Step1 = Step1(seg: nat, id: Id, cell: nat)
  datatype Step2 = Step2(seg: nat, section: nat, off: nat)
  datatype Step3 = Step3(line: Option<nat>)

  /** Key to segment and cell. */
  function Calc1(pack: PackView, key: seq<byte>, h: Hashing): Step1 {
    var id := pack.IdOf(key, h);
    if pack.table.pieces == [] then Step1(0, id, 0) else
      var seg := pack.table.SegmentOf(id);
      var size := pack.table.pieces[seg].size;
      Step1(seg, id, if size > 0 then BucketOf(size)(id) else 0)
  }

  /** Cell to section and bit. */
  function Calc2(pack: PackView, s: Step1, h: Hashing): Step2 {
    if s.seg < |pack.table.pieces| && s.cell < |pack.table.pieces[s.seg].cells| then
      var piece := pack.table.pieces[s.seg];
      var pos := h.l2(s.id, piece.cells[s.cell]) % L2Size(piece.size);
      Step2(s.seg, pos / BITMAP_SECTION_SIZE, pos % BITMAP_SECTION_SIZE)
    else Step2(0, 0, 0)
  }

  /** Bit to position. */
  function CalcRank(pack: PackView, s: Step2): nat {
    if s.seg < |pack.table.pieces| && s.section < |pack.table.pieces[s.seg].sections| && s.off < BITMAP_SECTION_SIZE
       && |pack.table.pieces[s.seg].sections[s.section].b32| == 7
    then
      var sec := pack.table.pieces[s.seg].sections[s.section];
      pack.table.Offset(s.seg) + (sec.step + sec.HostCount(s.off)) % 0x1_0000_0000
    else 0
  }

  /** Position to line, if there is one. */
  function Process3(pack: PackView, s: Step2): Step3 {
    var pos := CalcRank(pack, s);
    Step3(if pos < pack.item then Some(pos) else None)
  }

  /** The three stages together compute the scalar position. */
  lemma StagesCompose(pack: PackView, key: seq<byte>, h: Hashing)
    requires pack.InRange(key, h)
    ensures CalcRank(pack, Calc2(pack, Calc1(pack, key, h), h)) == pack.CalcPos(key, h)
  {
    hide Rank.Section.HostCount;
    var id := pack.IdOf(key, h);
    var piece := pack.table.pieces[pack.table.SegmentOf(id)];
    assert piece.Spot(id, h.l2) < 224 * |piece.sections|;
  }

  /** The position of a key, from the words of its fingerprint: the low 16 bits of the first choose the segment, the
      second the cell, and the displacement hash under the seed in the cell one of `2 * size + 1` places; the position
      counts the bits set before that place, behind the items of the earlier segments. */
  lemma PositionInFigures(pack: PackView, key: seq<byte>, h: Hashing)
    requires pack.InRange(key, h)
    ensures var id, pieces := h.gen(pack.seed, key), pack.table.pieces;
            && pieces != []
            && var p := id.w0 % 0x1_0000 % |pieces|;
               && pieces[p].Shaped()
               && var cell := SkewMap(id.w1, L1Band(pieces[p].size));
                  && cell < |pieces[p].cells| == L1Size(pieces[p].size)
                  && var place := h.l2(id, pieces[p].cells[cell]) % (2 * pieces[p].size + 1);
                     && place / 224 < |pieces[p].sections|
                     && var sec := pieces[p].sections[place / 224];
                        pack.CalcPos(key, h)
                        == pack.table.Offset(p) + (sec.step + sec.CountBefore(place % 224)) % 0x1_0000_0000
  {
    hide Rank.Section.HostCount, Rank.Section.CountBefore;
    var id := pack.IdOf(key, h);
    var piece := pack.table.pieces[pack.table.SegmentOf(id)];
    var place := piece.Spot(id, h.l2);
    assert place < 224 * |piece.sections|;
    piece.sections[place / 224].CountsAgree(place % 224);
  }

  /** The comparison of the last stage turns a line into an answer. */
  function Answer(pack: PackView, s: Step3, key: seq<byte>): Option<seq<byte>> {
    match s.line
    case None => None
    case Some(pos) =>
      if Readable(pack, pos) && pack.Line(pos)[..pack.keyLen] == key then Some(pack.Line(pos)[pack.keyLen..]) else None
  }

  predicate Readable(pack: PackView, pos: nat) {
    |pack.content| == pack.item * pack.LineSize() && pos < pack.item
  }

  lemma AnswerIsSearch(pack: PackView, key: seq<byte>, h: Hashing)
    requires pack.Sized() && pack.InRange(key, h)
    ensures Answer(pack, Process3(pack, Calc2(pack, Calc1(pack, key, h), h)), key) == pack.Search(key, h)
  {
    hide Calc1, Calc2, CalcRank, PackView.CalcPos, PackView.Line;
    StagesCompose(pack, key, h);
  }

  // ---- What a batch of answers amounts to -------------------------------------------------------

  function CountSome<T>(s: seq<Option<T>>): (n: nat)
    ensures n <= |s|
  {
    if s == [] then 0 else CountSome(s[..|s| - 1]) + if s[|s| - 1].Some? then 1 else 0
  }

  /** The indices without an answer, in ascending order. */
  function Misses<T>(s: seq<Option<T>>): (m: seq<nat>)
    ensures CountSome(s) + |m| == |s|
    ensures forall i :: 0 <= i < |m| ==> m[i] < |s|
  {
    if s == [] then []
    else Misses(s[..|s| - 1]) + if s[|s| - 1].None? then [|s| - 1] else []
  }

  lemma {:induction false} MissesExact<T>(s: seq<Option<T>>)
    ensures forall i :: i in Misses(s) <==> 0 <= i < |s| && s[i].None?
    ensures forall i, j :: 0 <= i < j < |Misses(s)| ==> Misses(s)[i] < Misses(s)[j]
  {
    if s != [] {
      MissesExact(s[..|s| - 1]);
    }
  }

  // ---- Blocks of a buffer -----------------------------------------------------------------------

  /** Block `i` of a buffer of blocks of length `len`. */
  function KeyAt(keys: seq<byte>, len: nat, i: nat): seq<byte> {
    if i * len + len <= |keys| then keys[i * len..i * len + len] else []
  }

  /** Where the batch functions look for block `i`: the product of index and length has 32 bits. */
  function Address(i: nat, len: nat): nat {
    i * len % 0x1_0000_0000
  }

  /** No product of the batch needs more than 32 bits. */
  predicate Straight(batch: nat, len: nat) {
    batch == 0 || (batch - 1) * len < 0x1_0000_0000
  }

  /** All blocks are looked for where they are exactly if the last one is. */
  lemma AddressesStraight(batch: nat, len: nat)
    ensures Straight(batch, len) <==> forall i :: 0 <= i < batch ==> Address(i, len) == i * len
  {
    if Straight(batch, len) {
      forall i | 0 <= i < batch ensures Address(i, len) == i * len {
        MulMonotone(i, batch - 1, len);
        RemainderIs(i * len, 0x1_0000_0000, 0, i * len);
      }
    } else {
      assert Address(batch - 1, len) < 0x1_0000_0000;
    }
  }

  /** A batch that goes wrong: of 2^29 + 1 keys of eight bytes the last is taken from the place of the first. */
  lemma LastKeyWraps(keys: seq<byte>)
    requires |keys| == 0x2000_0001 * 8
    ensures !Straight(0x2000_0001, 8) && Address(0x2000_0000, 8) == 0
    ensures ReadBlock(keys, 8, 0x2000_0000) == KeyAt(keys, 8, 0)
  {
  }

  /** The block found for index `i`. */
  function ReadBlock(keys: seq<byte>, len: nat, i: nat): seq<byte> {
    var a := Address(i, len);
    if a + len <= |keys| then keys[a..a + len] else []
  }

  function FlatKeys(keys: seq<byte>, len: nat, n: nat): (k: seq<seq<byte>>)
    ensures |k| == n && forall i :: 0 <= i < n ==> k[i] == ReadBlock(keys, len, i)
  {
    seq(n, i requires 0 <= i < n => ReadBlock(keys, len, i))
  }

  /** The keys meant. */
  function KeysIn(keys: seq<byte>, len: nat, n: nat): (k: seq<seq<byte>>)
    ensures |k| == n && forall i :: 0 <= i < n ==> k[i] == KeyAt(keys, len, i)
  {
    seq(n, i requires 0 <= i < n => KeyAt(keys, len, i))
  }

  lemma StraightKeys(keys: seq<byte>, len: nat, n: nat)
    requires Straight(n, len)
    ensures FlatKeys(keys, len, n) == KeysIn(keys, len, n)
  {
    AddressesStraight(n, len);
    forall i | 0 <= i < n ensures ReadBlock(keys, len, i) == KeyAt(keys, len, i) {
      assert Address(i, len) == i * len;
    }
  }

  // ---- One table --------------------------------------------------------------------------------

  datatype SearchState = SearchState(hit: nat, out: seq<Option<seq<byte>>>)

  function RecordAnswer(st: SearchState, r: Option<seq<byte>>, i: nat): SearchState {
    SearchState(st.hit + if r.Some? then 1 else 0, if i < |st.out| then st.out[i := r] else st.out)
  }

  /** Recording answers in order fills the output and counts the hits. The last stage need only be right in
      states that still show the key of its own index. */
  lemma {:induction false} RecordsAll<S(!new)>(st: SearchState, see: (SearchState, nat) -> seq<byte>,
                                               last: (SearchState, S, nat) -> SearchState, f: nat -> S,
                                               answers: seq<Option<seq<byte>>>, n: nat)
    requires st.hit == 0 && |st.out| == |answers| && n <= |answers| && Undisturbed(see, last)
    requires forall t, i :: 0 <= i < |answers| && see(t, i) == see(st, i) ==>
               last(t, f(i), i) == RecordAnswer(t, answers[i], i)
    ensures Consume(st, last, f, n) == SearchState(CountSome(answers[..n]), answers[..n] + st.out[n..])
  {
    hide Undisturbed;
    if n == 0 {
      assert answers[..0] == [];
    } else {
      RecordsAll(st, see, last, f, answers, n - 1);
      ConsumeIntact(st, see, last, f, n - 1);
      assert see(Consume(st, last, f, n - 1), n - 1) == SeenFrom(see, st)(n - 1);
      RecordOneMore(answers, st.out, n);
      hide RecordAnswer, CountSome;
    }
  }

  lemma RecordOneMore(answers: seq<Option<seq<byte>>>, before: seq<Option<seq<byte>>>, n: nat)
    requires 0 < n <= |answers| == |before|
    ensures RecordAnswer(SearchState(CountSome(answers[..n - 1]), answers[..n - 1] + before[n - 1..]), answers[n - 1], n - 1)
            == SearchState(CountSome(answers[..n]), answers[..n] + before[n..])
  {
    assert answers[..n][..n - 1] == answers[..n - 1];
  }

  function SearchAll(pack: PackView, keys: seq<seq<byte>>, h: Hashing): (a: seq<Option<seq<byte>>>)
    requires pack.Sized() && forall i :: 0 <= i < |keys| ==> pack.InRange(keys[i], h)
    ensures |a| == |keys| && forall i :: 0 <= i < |keys| ==> a[i] == pack.Search(keys[i], h)
  {
    seq(|keys|, i requires 0 <= i < |keys| => pack.Search(keys[i], h))
  }

  /** Recording the answer of one index does not change the key seen at a later one. */
  ghost predicate KeysLast(see: (SearchState, nat) -> seq<byte>) {
    forall t: SearchState, r, j: nat, i: nat :: j < i ==> see(RecordAnswer(t, r, j), i) == see(t, i)
  }

  /** Searches the keys that are seen in the state. */
  method SearchSeen(pack: PackView, ghost keys: seq<seq<byte>>, n: nat, see: (SearchState, nat) -> seq<byte>,
                    before: seq<Option<seq<byte>>>, h: Hashing)
    returns (hit: nat, out: seq<Option<seq<byte>>>)
    requires pack.Sized() && |before| == |keys| == n && KeysLast(see)
    requires forall i :: 0 <= i < n ==> see(SearchState(0, before), i) == keys[i] && pack.InRange(keys[i], h)
    ensures out == SearchAll(pack, keys, h) && hit == CountSome(out) && hit + |Misses(out)| == n
  {
    hide Calc1, Calc2, Process3, Answer, Consume, PackView.Search, RecordAnswer;
    var p1 := (key: seq<byte>, i: nat) => Calc1(pack, key, h);
    var p2 := (key: seq<byte>, s: Step1, i: nat) => Calc2(pack, s, h);
    var p3 := (key: seq<byte>, s: Step2, i: nat) => Process3(pack, s);
    var p4 := (st: SearchState, s: Step3, i: nat) => RecordAnswer(st, Answer(pack, s, see(st, i)), i);
    var start := SearchState(0, before);
    forall t: SearchState, v: Step3, j: nat, i: nat | j < i ensures see(p4(t, v, j), i) == see(t, i) {
      assert p4(t, v, j) == RecordAnswer(t, Answer(pack, v, see(t, j)), j);
    }
    var st := Pipeline4(n, 8, see, p1, p2, p3, p4, start);
    ghost var seen := SeenFrom(see, start);
    ghost var f, answers := Then(Then(Begin(p1, seen), With(p2, seen)), With(p3, seen)), SearchAll(pack, keys, h);
    forall t, i | 0 <= i < n && see(t, i) == see(start, i) ensures p4(t, f(i), i) == RecordAnswer(t, answers[i], i) {
      AnswerIsSearch(pack, keys[i], h);
    }
    RecordsAll(start, see, p4, f, answers, n);
    assert answers[..n] == answers;
    hit, out := st.hit, st.out;
  }

  /** Searches a batch of keys; a pack without inline lines leaves the output untouched. */
  method BatchSearch(pack: PackView, keys: seq<seq<byte>>, before: seq<Option<seq<byte>>>, h: Hashing)
    returns (hit: nat, out: seq<Option<seq<byte>>>)
    requires pack.Sized() && |before| == |keys|
    requires forall i :: 0 <= i < |keys| ==> pack.InRange(keys[i], h)
    ensures pack.kind in {KvInline, KeySet} ==>
              out == SearchAll(pack, keys, h) && hit == CountSome(out) && hit + |Misses(out)| == |keys|
    ensures pack.kind !in {KvInline, KeySet} ==> hit == 0 && out == before
  {
    hide SearchAll, Misses, CountSome;
    if pack.kind != KvInline && pack.kind != KeySet {
      return 0, before;
    }
    hit, out := SearchSeen(pack, keys, |keys|, (t: SearchState, i: nat) => if i < |keys| then keys[i] else [], before, h);
  }

  /** What stands in slot `i` of an array that is read for keys and written with answers. */
  function SlotKey(st: SearchState, i: nat): seq<byte> {
    if i < |st.out| && st.out[i].Some? then st.out[i].value else []
  }

  /** The array of keys as it is before the answers overwrite it. */
  function AsSlots(keys: seq<seq<byte>>): (slots: seq<Option<seq<byte>>>)
    ensures |slots| == |keys| && forall i :: 0 <= i < |keys| ==> slots[i] == Some(keys[i])
  {
    seq(|keys|, i requires 0 <= i < |keys| => Some(keys[i]))
  }

  lemma SlotsAreKeys(keys: seq<seq<byte>>)
    ensures KeysLast(SlotKey)
    ensures forall i :: 0 <= i < |keys| ==> SlotKey(SearchState(0, AsSlots(keys)), i) == keys[i]
  {
  }

  /** The same with `keys == out`: the answers overwrite the keys, and are those of the separate batch. */
  method BatchSearchInPlace(pack: PackView, keys: seq<seq<byte>>, h: Hashing)
    returns (hit: nat, out: seq<Option<seq<byte>>>)
    requires pack.Sized() && forall i :: 0 <= i < |keys| ==> pack.InRange(keys[i], h)
    ensures pack.kind in {KvInline, KeySet} ==>
              out == SearchAll(pack, keys, h) && hit == CountSome(out) && hit + |Misses(out)| == |keys|
    ensures pack.kind !in {KvInline, KeySet} ==> hit == 0 && out == AsSlots(keys)
  {
    hide SearchAll, Misses, CountSome, SlotKey, KeysLast;
    if pack.kind != KvInline && pack.kind != KeySet {
      return 0, AsSlots(keys);
    }
    SlotsAreKeys(keys);
    hit, out := SearchSeen(pack, keys, |keys|, SlotKey, AsSlots(keys), h);
  }

  /** The positions of the keys found in a buffer. If all addresses are straight they are those of the keys
      meant. */
  method BatchLocate(pack: PackView, batch: u32, keys: seq<byte>, keyLen: byte, h: Hashing) returns (out: seq<nat>)
    requires |keys| == batch * keyLen
    requires forall i :: 0 <= i < batch ==> pack.InRange(FlatKeys(keys, keyLen, batch)[i], h)
    ensures |out| == batch && forall i :: 0 <= i < batch ==> out[i] == pack.CalcPos(FlatKeys(keys, keyLen, batch)[i], h)
    ensures Straight(batch, keyLen) ==> FlatKeys(keys, keyLen, batch) == KeysIn(keys, keyLen, batch)
  {
    hide Calc1, Calc2, CalcRank, Consume, PackView.CalcPos, ReadBlock, PackView.InRange;
    ghost var flat := FlatKeys(keys, keyLen, batch);
    var see := (st: seq<nat>, i: nat) => ReadBlock(keys, keyLen, i);
    var p1 := (key: seq<byte>, i: nat) => Calc1(pack, key, h);
    var p2 := (key: seq<byte>, s: Step1, i: nat) => Calc2(pack, s, h);
    var p3 := (st: seq<nat>, s: Step2, i: nat) => st + [CalcRank(pack, s)];
    out := Pipeline3(batch, 9, see, p1, p2, p3, []);
    ghost var seen := SeenFrom(see, []);
    ghost var f := Then(Begin(p1, seen), With(p2, seen));
    forall t, i | 0 <= i < batch ensures p3(t, f(i), i) == t + [pack.CalcPos(flat[i], h)] {
      StagesCompose(pack, flat[i], h);
    }
    LocatesAll(pack, flat, h, p3, f, batch);
    if Straight(batch, keyLen) {
      StraightKeys(keys, keyLen, batch);
    }
  }

  lemma {:induction false} LocatesAll<S>(pack: PackView, keys: seq<seq<byte>>, h: Hashing,
                                         last: (seq<nat>, S, nat) -> seq<nat>, f: nat -> S, n: nat)
    requires n <= |keys| && forall i :: 0 <= i < |keys| ==> pack.InRange(keys[i], h)
    requires forall t, i :: 0 <= i < |keys| ==> last(t, f(i), i) == t + [pack.CalcPos(keys[i], h)]
    ensures var out := Consume([], last, f, n);
            |out| == n && forall i :: 0 <= i < n ==> out[i] == pack.CalcPos(keys[i], h)
  {
    hide PackView.CalcPos, PackView.InRange;
    if n > 0 {
      LocatesAll(pack, keys, h, last, f, n - 1);
      var before := Consume([], last, f, n - 1);
      assert Consume([], last, f, n) == last(before, f(n - 1), n - 1) == before + [pack.CalcPos(keys[n - 1], h)];
      hide Consume;
    }
  }

  // ---- Fetching values into a buffer ------------------------------------------------------------

  datatype FetchState = FetchState(hit: nat, data: seq<byte>, misses: seq<nat>)

  function PutBlock(data: seq<byte>, len: nat, i: nat, v: seq<byte>): (d: seq<byte>)
    ensures |d| == |data|
  {
    if i * len + len <= |data| && |v| == len then data[..i * len] + v + data[i * len + len..] else data
  }

  lemma SpliceSlice(data: seq<byte>, a: nat, v: seq<byte>, b: nat)
    requires a + |v| <= |data| && b + |v| <= |data| && (a == b || a + |v| <= b || b + |v| <= a)
    ensures (data[..a] + v + data[a + |v|..])[b..b + |v|] == if a == b then v else data[b..b + |v|]
  {
  }

  lemma BlockAfterPut(data: seq<byte>, len: nat, i: nat, v: seq<byte>, j: nat, n: nat)
    requires |data| == n * len && i < n && j < n && |v| == len
    ensures KeyAt(PutBlock(data, len, i, v), len, j) == if j == i then v else KeyAt(data, len, j)
  {
    BlockInside(i, n, len);
    BlockInside(j, n, len);
    if j < i {
      BlockInside(j, i, len);
    } else if i < j {
      BlockInside(i, j, len);
    }
    SplicePut(data, len, i * len, j * len, i, v, j);
  }

  lemma BlockInside(i: nat, n: nat, len: nat)
    requires i < n
    ensures i * len + len <= n * len
  {
    MulMonotone(i + 1, n, len);
  }

  lemma SplicePut(data: seq<byte>, len: nat, a: nat, b: nat, i: nat, v: seq<byte>, j: nat)
    requires a == i * len && b == j * len && |v| == len && a + len <= |data| && b + len <= |data|
    requires i == j || (i < j && a + len <= b) || (j < i && b + len <= a)
    ensures KeyAt(PutBlock(data, len, i, v), len, j) == if j == i then v else KeyAt(data, len, j)
  {
    SpliceSlice(data, a, v, b);
    if a == b && i != j {
      assert len == 0;
    }
  }

  /** Writes a block where the 32-bit product says. */
  function WriteBlock(data: seq<byte>, len: nat, i: nat, v: seq<byte>): (d: seq<byte>)
    ensures |d| == |data|
  {
    var a := Address(i, len);
    if a + len <= |data| && |v| == len then data[..a] + v + data[a + len..] else data
  }

  /** What one fetch does: a hit or a default fills the block, a plain miss is noted if asked for. */
  function RecordFetch(st: FetchState, r: Option<seq<byte>>, i: nat, len: nat, dft: Option<seq<byte>>,
                       wantMiss: bool): FetchState {
    if r.Some? then FetchState(st.hit + 1, WriteBlock(st.data, len, i, r.value), st.misses)
    else if dft.Some? then st.(data := WriteBlock(st.data, len, i, dft.value))
    else if wantMiss then st.(misses := st.misses + [i])
    else st
  }

  /** What the block of a key holds afterwards. */
  function BlockFor(r: Option<seq<byte>>, dft: Option<seq<byte>>, before: seq<byte>): seq<byte> {
    if r.Some? then r.value else if dft.Some? then dft.value else before
  }

  /** The buffer after the first `n` answers have been written one by one. */
  function DataAfter(before: seq<byte>, answers: seq<Option<seq<byte>>>, len: nat, dft: Option<seq<byte>>, n: nat): seq<byte>
    requires n <= |answers|
  {
    if n == 0 then before
    else
      var data := DataAfter(before, answers, len, dft, n - 1);
      if answers[n - 1].None? && dft.None? then data
      else WriteBlock(data, len, n - 1, BlockFor(answers[n - 1], dft, []))
  }

  /** Every block holds the value of its key, the default, or what was there. */
  ghost predicate Fetched(before: seq<byte>, data: seq<byte>, answers: seq<Option<seq<byte>>>, len: nat,
                          dft: Option<seq<byte>>, n: nat) {
    && |data| == |before|
    && forall j :: 0 <= j < |answers| ==>
         KeyAt(data, len, j) == if j < n then BlockFor(answers[j], dft, KeyAt(before, len, j)) else KeyAt(before, len, j)
  }

  ghost predicate AnswersFit(answers: seq<Option<seq<byte>>>, dft: Option<seq<byte>>, len: nat) {
    && (dft.Some? ==> |dft.value| == len)
    && forall i :: 0 <= i < |answers| && answers[i].Some? ==> |answers[i].value| == len
  }

  /** With straight addresses the blocks written are those of the keys. */
  lemma {:induction false} DataIsFetched(before: seq<byte>, answers: seq<Option<seq<byte>>>, len: nat,
                                         dft: Option<seq<byte>>, n: nat)
    requires n <= |answers| && Straight(|answers|, len) && |before| == |answers| * len && AnswersFit(answers, dft, len)
    ensures Fetched(before, DataAfter(before, answers, len, dft, n), answers, len, dft, n)
  {
    hide KeyAt, PutBlock, WriteBlock, Straight;
    if n > 0 {
      DataIsFetched(before, answers, len, dft, n - 1);
      var data := DataAfter(before, answers, len, dft, n - 1);
      StraightWrite(data, len, n - 1, BlockFor(answers[n - 1], dft, []), |answers|);
      forall j | 0 <= j < |answers|
        ensures KeyAt(DataAfter(before, answers, len, dft, n), len, j)
                == if j < n then BlockFor(answers[j], dft, KeyAt(before, len, j)) else KeyAt(before, len, j)
      {
        if answers[n - 1].Some? || dft.Some? {
          BlockAfterPut(data, len, n - 1, BlockFor(answers[n - 1], dft, []), j, |answers|);
        }
      }
    }
  }

  lemma StraightWrite(data: seq<byte>, len: nat, i: nat, v: seq<byte>, batch: nat)
    requires i < batch && Straight(batch, len)
    ensures WriteBlock(data, len, i, v) == PutBlock(data, len, i, v)
  {
    AddressesStraight(batch, len);
    assert Address(i, len) == i * len;
  }

  lemma {:induction false} FetchesAll<S>(st: FetchState, last: (FetchState, S, nat) -> FetchState, f: nat -> S,
                                         answers: seq<Option<seq<byte>>>, len: nat, dft: Option<seq<byte>>,
                                         wantMiss: bool, n: nat)
    requires st.hit == 0 && st.misses == [] && n <= |answers|
    requires forall t, i :: 0 <= i < |answers| ==> last(t, f(i), i) == RecordFetch(t, answers[i], i, len, dft, wantMiss)
    ensures Consume(st, last, f, n)
            == FetchState(CountSome(answers[..n]), DataAfter(st.data, answers, len, dft, n),
                          if dft.None? && wantMiss then Misses(answers[..n]) else [])
  {
    hide WriteBlock;
    if n == 0 {
      assert answers[..0] == [];
    } else {
      FetchesAll(st, last, f, answers, len, dft, wantMiss, n - 1);
      assert answers[..n][..n - 1] == answers[..n - 1];
    }
  }

  /** No later block of the batch is written over the place of block `j`. */
  ghost predicate LastAt(batch: nat, len: nat, j: nat) {
    forall i :: j < i < batch ==> Address(i, len) + len <= Address(j, len) || Address(j, len) + len <= Address(i, len)
  }

  lemma AddressInside(i: nat, batch: nat, len: nat)
    requires i < batch
    ensures Address(i, len) + len <= batch * len
  {
    BlockInside(i, batch, len);
  }

  /** A block written elsewhere leaves the place of block `j` alone. */
  lemma BlockAfterWrite(data: seq<byte>, len: nat, i: nat, v: seq<byte>, j: nat)
    requires |v| == len && Address(i, len) + len <= |data| && Address(j, len) + len <= |data|
    requires i == j || Address(i, len) + len <= Address(j, len) || Address(j, len) + len <= Address(i, len)
    ensures ReadBlock(WriteBlock(data, len, i, v), len, j) == if i == j then v else ReadBlock(data, len, j)
  {
    hide Address;
    SpliceSlice(data, Address(i, len), v, Address(j, len));
    if len == 0 {
      assert v == ReadBlock(data, len, j) == [];
    }
  }

  /** Also when addresses wrap: the last block written to a place stays there. */
  lemma {:induction false} LastWriteStays(before: seq<byte>, answers: seq<Option<seq<byte>>>, len: nat,
                                          dft: Option<seq<byte>>, n: nat, j: nat)
    requires j < n <= |answers| && |before| == |answers| * len && AnswersFit(answers, dft, len) && LastAt(n, len, j)
    requires answers[j].Some? || dft.Some?
    ensures ReadBlock(DataAfter(before, answers, len, dft, n), len, j)
            == if answers[j].Some? then answers[j].value else dft.value
  {
    hide Address, ReadBlock, WriteBlock;
    var data := DataAfter(before, answers, len, dft, n - 1);
    DataSize(before, answers, len, dft, n - 1);
    AddressInside(n - 1, |answers|, len);
    AddressInside(j, |answers|, len);
    if j < n - 1 {
      LastWriteStays(before, answers, len, dft, n - 1, j);
    }
    if answers[n - 1].Some? || dft.Some? {
      BlockAfterWrite(data, len, n - 1, BlockFor(answers[n - 1], dft, []), j);
    }
  }

  /** Every block in its place, whatever the names of the steps: the value of a key that is found, else the default,
      else what was there. */
  lemma BlocksAre(data: seq<byte>, out: seq<byte>, answers: seq<Option<seq<byte>>>, len: nat, dft: Option<seq<byte>>)
    requires Fetched(data, out, answers, len, dft, |answers|)
    ensures forall j :: 0 <= j < |answers| && answers[j].Some? ==> KeyAt(out, len, j) == answers[j].value
    ensures forall j :: 0 <= j < |answers| && answers[j].None? ==>
              KeyAt(out, len, j) == if dft.Some? then dft.value else KeyAt(data, len, j)
  {
  }

  /** What a batch of fetches comes to: the exact hits, misses and writes for every batch. If all addresses are
      straight, the intended keys are looked up and every block holds the value of its key if it is found, else the
      default, else what was there; if not, that is so for the blocks nothing is written over. */
  ghost predicate FetchDone(batch: nat, keyLen: nat, valLen: nat, keys: seq<byte>, data: seq<byte>,
                            dft: Option<seq<byte>>, wantMiss: bool, answers: seq<Option<seq<byte>>>,
                            hit: nat, out: seq<byte>, misses: seq<nat>) {
    && |answers| == batch && hit == CountSome(answers)
    && misses == (if dft.None? && wantMiss then Misses(answers) else [])
    && out == DataAfter(data, answers, valLen, dft, batch)
    && (Straight(batch, keyLen) ==> FlatKeys(keys, keyLen, batch) == KeysIn(keys, keyLen, batch))
    && |out| == |data|
    && (Straight(batch, valLen) ==>
          forall j :: 0 <= j < batch ==>
            && (answers[j].Some? ==> KeyAt(out, valLen, j) == answers[j].value)
            && (answers[j].None? && dft.Some? ==> KeyAt(out, valLen, j) == dft.value)
            && (answers[j].None? && dft.None? ==> KeyAt(out, valLen, j) == KeyAt(data, valLen, j)))
    && forall j :: 0 <= j < batch && LastAt(batch, valLen, j) ==>
         && (answers[j].Some? ==> ReadBlock(out, valLen, j) == answers[j].value)
         && (answers[j].None? && dft.Some? ==> ReadBlock(out, valLen, j) == dft.value)
  }

  lemma {:induction false} DataSize(before: seq<byte>, answers: seq<Option<seq<byte>>>, len: nat,
                                    dft: Option<seq<byte>>, n: nat)
    requires n <= |answers|
    ensures |DataAfter(before, answers, len, dft, n)| == |before|
  {
    hide WriteBlock;
    if n > 0 {
      DataSize(before, answers, len, dft, n - 1);
    }
  }

  lemma FetchIsDone(batch: nat, keyLen: nat, valLen: nat, keys: seq<byte>, data: seq<byte>, dft: Option<seq<byte>>,
                    wantMiss: bool, answers: seq<Option<seq<byte>>>)
    requires |answers| == batch && |data| == batch * valLen && AnswersFit(answers, dft, valLen)
    ensures FetchDone(batch, keyLen, valLen, keys, data, dft, wantMiss, answers, CountSome(answers),
                      DataAfter(data, answers, valLen, dft, batch),
                      if dft.None? && wantMiss then Misses(answers) else [])
  {
    hide Fetched, Straight, KeyAt, ReadBlock, DataAfter, BlockFor, LastAt;
    var out := DataAfter(data, answers, valLen, dft, batch);
    DataSize(data, answers, valLen, dft, batch);
    if Straight(batch, keyLen) {
      StraightKeys(keys, keyLen, batch);
    }
    if Straight(batch, valLen) {
      DataIsFetched(data, answers, valLen, dft, batch);
      BlocksAre(data, out, answers, valLen, dft);
    }
    forall j | 0 <= j < batch && LastAt(batch, valLen, j)
      ensures answers[j].Some? ==> ReadBlock(out, valLen, j) == answers[j].value
      ensures answers[j].None? && dft.Some? ==> ReadBlock(out, valLen, j) == dft.value
    {
      if answers[j].Some? || dft.Some? {
        LastWriteStays(data, answers, valLen, dft, batch, j);
      }
    }
  }

  /** Fetches a batch of values from one table into a buffer of blocks. */
  method BatchFetch(pack: PackView, dft: Option<seq<byte>>, batch: u32, keys: seq<byte>, data: seq<byte>,
                    wantMiss: bool, h: Hashing) returns (hit: nat, out: seq<byte>, misses: seq<nat>)
    requires pack.Sized() && |keys| == batch * pack.keyLen && |data| == batch * pack.valLen
    requires dft.Some? ==> |dft.value| == pack.valLen
    requires forall i :: 0 <= i < batch ==> pack.InRange(FlatKeys(keys, pack.keyLen, batch)[i], h)
    ensures pack.kind == KvInline ==>
              FetchDone(batch, pack.keyLen, pack.valLen, keys, data, dft, wantMiss,
                        SearchAll(pack, FlatKeys(keys, pack.keyLen, batch), h), hit, out, misses)
    ensures pack.kind != KvInline ==> hit == 0 && out == data && misses == []
  {
    hide Calc1, Calc2, Process3, Answer, Consume, PackView.Search, ReadBlock, RecordFetch, DataAfter, FetchDone;
    if pack.kind != KvInline {
      return 0, data, [];
    }
    ghost var flat := FlatKeys(keys, pack.keyLen, batch);
    var see := (st: FetchState, i: nat) => ReadBlock(keys, pack.keyLen, i);
    var p1 := (key: seq<byte>, i: nat) => Calc1(pack, key, h);
    var p2 := (key: seq<byte>, s: Step1, i: nat) => Calc2(pack, s, h);
    var p3 := (key: seq<byte>, s: Step2, i: nat) => Process3(pack, s);
    var p4 := (st: FetchState, s: Step3, i: nat) =>
      RecordFetch(st, Answer(pack, s, see(st, i)), i, pack.valLen, dft, wantMiss);
    var start := FetchState(0, data, []);
    var st := Pipeline4(batch, 7, see, p1, p2, p3, p4, start);
    ghost var seen := SeenFrom(see, start);
    ghost var f, answers := Then(Then(Begin(p1, seen), With(p2, seen)), With(p3, seen)), SearchAll(pack, flat, h);
    forall t, i | 0 <= i < batch
      ensures p4(t, f(i), i) == RecordFetch(t, answers[i], i, pack.valLen, dft, wantMiss)
    {
      AnswerIsSearch(pack, flat[i], h);
    }
    FetchesAll(start, p4, f, answers, pack.valLen, dft, wantMiss, batch);
    assert answers[..batch] == answers;
    AnswersSized(pack, flat, h);
    FetchIsDone(batch, pack.keyLen, pack.valLen, keys, data, dft, wantMiss, answers);
    hit, out, misses := st.hit, st.data, st.misses;
  }

  lemma AnswersSized(pack: PackView, keys: seq<seq<byte>>, h: Hashing)
    requires pack.Sized() && forall i :: 0 <= i < |keys| ==> pack.InRange(keys[i], h)
    ensures forall i :: 0 <= i < |keys| && SearchAll(pack, keys, h)[i].Some? ==>
              |SearchAll(pack, keys, h)[i].value| == pack.valLen
  {
    hide PackView.CalcPos, PackView.Line;
  }

  // ---- Two tables: a patch over a base ----------------------------------------------------------

  datatype Relay<S> = Relay(v: Option<seq<byte>>, s: S)

  function Overlay(base: PackView, patch: PackView, key: seq<byte>, h: Hashing): Option<seq<byte>>
    requires base.Sized() && patch.Sized() && base.InRange(key, h) && patch.InRange(key, h)
  {
    var r := patch.Search(key, h);
    if r.Some? then r else base.Search(key, h)
  }

  function OverlayAll(base: PackView, patch: PackView, keys: seq<seq<byte>>, h: Hashing): (a: seq<Option<seq<byte>>>)
    requires base.Sized() && patch.Sized()
    requires forall i :: 0 <= i < |keys| ==> base.InRange(keys[i], h) && patch.InRange(keys[i], h)
    ensures |a| == |keys| && forall i :: 0 <= i < |keys| ==> a[i] == Overlay(base, patch, keys[i], h)
  {
    seq(|keys|, i requires 0 <= i < |keys| => Overlay(base, patch, keys[i], h))
  }

  /** On well-built tables the overlay is the base map overridden by the patch map. */
  lemma OverlayIsOverride(base: PackView, patch: PackView, old1: seq<Record>, new1: seq<Record>, key: seq<byte>, h: Hashing)
    requires Stores(base, old1, h) && Stores(patch, new1, h)
    requires base.InRange(key, h) && patch.InRange(key, h)
    ensures var merged := Contents(old1) + Contents(new1);
            Overlay(base, patch, key, h) == if key in merged then Some(merged[key]) else None
  {
    hide PackView.Search, TablePerfect, StoresAt;
    LookupIsMap(base, old1, h, key);
    LookupIsMap(patch, new1, h, key);
  }

  /** Every answer is what the patch map holds for its key, else what the base map holds, else nothing. */
  ghost predicate FindsMerged(out: seq<Option<seq<byte>>>, keys: seq<seq<byte>>, olds: seq<Record>, news: seq<Record>) {
    && |out| == |keys|
    && forall i :: 0 <= i < |keys| ==>
         out[i] == if keys[i] in Contents(news) then Some(Contents(news)[keys[i]])
                   else if keys[i] in Contents(olds) then Some(Contents(olds)[keys[i]]) else None
  }

  /** On well-built tables all overlays of a batch are lookups in the two maps. */
  lemma OverlaysAre(base: PackView, patch: PackView, keys: seq<seq<byte>>, h: Hashing)
    requires base.Sized() && patch.Sized()
    requires forall i :: 0 <= i < |keys| ==> base.InRange(keys[i], h) && patch.InRange(keys[i], h)
    ensures forall olds: seq<Record>, news: seq<Record> :: Stores(base, olds, h) && Stores(patch, news, h) ==>
              FindsMerged(OverlayAll(base, patch, keys, h), keys, olds, news)
  {
    hide Overlay, Stores, PackView.InRange, PackView.Sized, Contents;
    forall olds: seq<Record>, news: seq<Record> | Stores(base, olds, h) && Stores(patch, news, h)
      ensures FindsMerged(OverlayAll(base, patch, keys, h), keys, olds, news)
    {
      forall i | 0 <= i < |keys|
        ensures OverlayAll(base, patch, keys, h)[i] ==
                if keys[i] in Contents(news) then Some(Contents(news)[keys[i]])
                else if keys[i] in Contents(olds) then Some(Contents(olds)[keys[i]]) else None
      {
        OverlayIsOverride(base, patch, olds, news, keys[i], h);
      }
    }
  }

  /** Stages four to six: a hit in the patch is passed on, a miss starts over in the base. */
  function Calc4(base: PackView, patch: PackView, s: Step3, key: seq<byte>, h: Hashing): Relay<Step1> {
    var r := Answer(patch, s, key);
    if r.Some? then Relay(r, Step1(0, Id(0, 0, 0), 0)) else Relay(None, Calc1(base, key, h))
  }

  function Calc5(base: PackView, s: Relay<Step1>, h: Hashing): Relay<Step2> {
    if s.v.Some? then Relay(s.v, Step2(0, 0, 0)) else Relay(None, Calc2(base, s.s, h))
  }

  function Calc6(base: PackView, s: Relay<Step2>): Relay<Step3> {
    if s.v.Some? then Relay(s.v, Step3(None)) else Relay(None, Process3(base, s.s))
  }

  function Answer7(base: PackView, s: Relay<Step3>, key: seq<byte>): Option<seq<byte>> {
    if s.v.Some? then s.v else Answer(base, s.s, key)
  }

  lemma SevenStagesCompose(base: PackView, patch: PackView, key: seq<byte>, h: Hashing)
    requires base.Sized() && patch.Sized() && base.InRange(key, h) && patch.InRange(key, h)
    ensures Answer7(base, Calc6(base, Calc5(base,
              Calc4(base, patch, Process3(patch, Calc2(patch, Calc1(patch, key, h), h)), key, h), h)), key)
            == Overlay(base, patch, key, h)
  {
    hide Calc1, Calc2, Process3, Answer, PackView.Search;
    AnswerIsSearch(patch, key, h);
    AnswerIsSearch(base, key, h);
  }

  /** The two-table search of the keys that are seen in the state. */
  method SearchSeenPatched(base: PackView, patch: PackView, ghost keys: seq<seq<byte>>, n: nat,
                           see: (SearchState, nat) -> seq<byte>, before: seq<Option<seq<byte>>>, h: Hashing)
    returns (hit: nat, out: seq<Option<seq<byte>>>)
    requires base.Sized() && patch.Sized() && |before| == |keys| == n && KeysLast(see)
    requires forall i :: 0 <= i < n ==> see(SearchState(0, before), i) == keys[i]
    requires forall i :: 0 <= i < n ==> base.InRange(keys[i], h) && patch.InRange(keys[i], h)
    ensures out == OverlayAll(base, patch, keys, h) && hit == CountSome(out) && hit + |Misses(out)| == n
  {
    hide Calc1, Calc2, Process3, Answer, Calc4, Calc5, Calc6, Answer7;
    hide Consume, Overlay, RecordAnswer, PackView.InRange;
    var p1 := (key: seq<byte>, i: nat) => Calc1(patch, key, h);
    var p2 := (key: seq<byte>, s: Step1, i: nat) => Calc2(patch, s, h);
    var p3 := (key: seq<byte>, s: Step2, i: nat) => Process3(patch, s);
    var p4 := (key: seq<byte>, s: Step3, i: nat) => Calc4(base, patch, s, key, h);
    var p5 := (key: seq<byte>, s: Relay<Step1>, i: nat) => Calc5(base, s, h);
    var p6 := (key: seq<byte>, s: Relay<Step2>, i: nat) => Calc6(base, s);
    var p7 := (st: SearchState, s: Relay<Step3>, i: nat) => RecordAnswer(st, Answer7(base, s, see(st, i)), i);
    var start := SearchState(0, before);
    forall t: SearchState, v: Relay<Step3>, j: nat, i: nat | j < i ensures see(p7(t, v, j), i) == see(t, i) {
      assert p7(t, v, j) == RecordAnswer(t, Answer7(base, v, see(t, j)), j);
    }
    var st := Pipeline7(n, 5, see, p1, p2, p3, p4, p5, p6, p7, start);
    ghost var answers, seen := OverlayAll(base, patch, keys, h), SeenFrom(see, start);
    ghost var f3 := Then(Then(Begin(p1, seen), With(p2, seen)), With(p3, seen));
    ghost var f := Then(Then(Then(f3, With(p4, seen)), With(p5, seen)), With(p6, seen));
    forall t, i | 0 <= i < n && see(t, i) == see(start, i) ensures p7(t, f(i), i) == RecordAnswer(t, answers[i], i) {
      SevenStagesCompose(base, patch, keys[i], h);
    }
    RecordsAll(start, see, p7, f, answers, n);
    assert answers[..n] == answers;
    hit, out := st.hit, st.out;
  }

  method BatchSearchPatched(base: PackView, patch: PackView, keys: seq<seq<byte>>, before: seq<Option<seq<byte>>>, h: Hashing)
    returns (hit: nat, out: seq<Option<seq<byte>>>)
    requires base.Sized() && patch.Sized() && |before| == |keys|
    requires forall i :: 0 <= i < |keys| ==> base.InRange(keys[i], h) && patch.InRange(keys[i], h)
    ensures base.kind in {KvInline, KeySet} && base.kind == patch.kind && base.keyLen == patch.keyLen
            && base.valLen == patch.valLen ==>
              out == OverlayAll(base, patch, keys, h) && hit == CountSome(out) && hit + |Misses(out)| == |keys|
    ensures base.kind in {KvInline, KeySet} && base.kind == patch.kind && base.keyLen == patch.keyLen
            && base.valLen == patch.valLen ==>
              forall olds: seq<Record>, news: seq<Record> :: Stores(base, olds, h) && Stores(patch, news, h) ==>
                FindsMerged(out, keys, olds, news)
    ensures base.kind !in {KvInline, KeySet} || base.kind != patch.kind ==> hit == 0 && out == before
    ensures base.keyLen != patch.keyLen || base.valLen != patch.valLen ==> hit == 0 && out == before
  {
    hide OverlayAll, Misses, CountSome, Stores, FindsMerged, PackView.InRange;
    if (base.kind != KvInline && base.kind != KeySet) || base.kind != patch.kind || base.keyLen != patch.keyLen
       || base.valLen != patch.valLen {
      return 0, before;
    }
    hit, out := SearchSeenPatched(base, patch, keys, |keys|,
                                  (t: SearchState, i: nat) => if i < |keys| then keys[i] else [], before, h);
    OverlaysAre(base, patch, keys, h);
  }

  /** The same with `keys == out`. */
  method BatchSearchPatchedInPlace(base: PackView, patch: PackView, keys: seq<seq<byte>>, h: Hashing)
    returns (hit: nat, out: seq<Option<seq<byte>>>)
    requires base.Sized() && patch.Sized()
    requires forall i :: 0 <= i < |keys| ==> base.InRange(keys[i], h) && patch.InRange(keys[i], h)
    ensures base.kind in {KvInline, KeySet} && base.kind == patch.kind && base.keyLen == patch.keyLen
            && base.valLen == patch.valLen ==>
              out == OverlayAll(base, patch, keys, h) && hit == CountSome(out) && hit + |Misses(out)| == |keys|
    ensures base.kind in {KvInline, KeySet} && base.kind == patch.kind && base.keyLen == patch.keyLen
            && base.valLen == patch.valLen ==>
              forall olds: seq<Record>, news: seq<Record> :: Stores(base, olds, h) && Stores(patch, news, h) ==>
                FindsMerged(out, keys, olds, news)
    ensures base.kind !in {KvInline, KeySet} || base.kind != patch.kind ==> hit == 0 && out == AsSlots(keys)
    ensures base.keyLen != patch.keyLen || base.valLen != patch.valLen ==> hit == 0 && out == AsSlots(keys)
  {
    hide OverlayAll, Misses, CountSome, SlotKey, KeysLast, Stores, FindsMerged, PackView.InRange;
    if (base.kind != KvInline && base.kind != KeySet) || base.kind != patch.kind || base.keyLen != patch.keyLen
       || base.valLen != patch.valLen {
      return 0, AsSlots(keys);
    }
    SlotsAreKeys(keys);
    hit, out := SearchSeenPatched(base, patch, keys, |keys|, SlotKey, AsSlots(keys), h);
    OverlaysAre(base, patch, keys, h);
  }

  method BatchFetchPatched(base: PackView, patch: PackView, dft: Option<seq<byte>>, batch: u32, keys: seq<byte>,
                           data: seq<byte>, wantMiss: bool, h: Hashing)
    returns (hit: nat, out: seq<byte>, misses: seq<nat>)
    requires base.Sized() && patch.Sized() && |keys| == batch * base.keyLen && |data| == batch * base.valLen
    requires dft.Some? ==> |dft.value| == base.valLen
    requires forall i :: 0 <= i < batch ==> base.InRange(FlatKeys(keys, base.keyLen, batch)[i], h)
                                            && patch.InRange(FlatKeys(keys, base.keyLen, batch)[i], h)
    ensures base.kind == KvInline && base.kind == patch.kind && base.keyLen == patch.keyLen
            && base.valLen == patch.valLen ==>
              FetchDone(batch, base.keyLen, base.valLen, keys, data, dft, wantMiss,
                        OverlayAll(base, patch, FlatKeys(keys, base.keyLen, batch), h), hit, out, misses)
    ensures base.kind != KvInline || base.kind != patch.kind ==> hit == 0 && out == data && misses == []
    ensures base.keyLen != patch.keyLen || base.valLen != patch.valLen ==> hit == 0 && out == data && misses == []
  {
    hide Calc1, Calc2, Process3, Answer, Calc4, Calc5, Calc6, Answer7;
    hide Consume, Overlay, ReadBlock, RecordFetch, DataAfter, FetchDone, PackView.InRange;
    if base.kind != KvInline || base.kind != patch.kind || base.keyLen != patch.keyLen || base.valLen != patch.valLen {
      return 0, data, [];
    }
    ghost var flat := FlatKeys(keys, base.keyLen, batch);
    var see := (st: FetchState, i: nat) => ReadBlock(keys, base.keyLen, i);
    var p1 := (key: seq<byte>, i: nat) => Calc1(patch, key, h);
    var p2 := (key: seq<byte>, s: Step1, i: nat) => Calc2(patch, s, h);
    var p3 := (key: seq<byte>, s: Step2, i: nat) => Process3(patch, s);
    var p4 := (key: seq<byte>, s: Step3, i: nat) => Calc4(base, patch, s, key, h);
    var p5 := (key: seq<byte>, s: Relay<Step1>, i: nat) => Calc5(base, s, h);
    var p6 := (key: seq<byte>, s: Relay<Step2>, i: nat) => Calc6(base, s);
    var p7 := (st: FetchState, s: Relay<Step3>, i: nat) =>
      RecordFetch(st, Answer7(base, s, see(st, i)), i, base.valLen, dft, wantMiss);
    var start := FetchState(0, data, []);
    var st := Pipeline7(batch, 4, see, p1, p2, p3, p4, p5, p6, p7, start);
    ghost var answers, seen := OverlayAll(base, patch, flat, h), SeenFrom(see, start);
    ghost var f3 := Then(Then(Begin(p1, seen), With(p2, seen)), With(p3, seen));
    ghost var f := Then(Then(Then(f3, With(p4, seen)), With(p5, seen)), With(p6, seen));
    forall t, i | 0 <= i < batch
      ensures p7(t, f(i), i) == RecordFetch(t, answers[i], i, base.valLen, dft, wantMiss)
    {
      SevenStagesCompose(base, patch, flat[i], h);
    }
    FetchesAll(start, p7, f, answers, base.valLen, dft, wantMiss, batch);
    assert answers[..batch] == answers;
    OverlaySized(base, patch, flat, h);
    FetchIsDone(batch, base.keyLen, base.valLen, keys, data, dft, wantMiss, answers);
    hit, out, misses := st.hit, st.data, st.misses;
  }

  lemma OverlaySized(base: PackView, patch: PackView, keys: seq<seq<byte>>, h: Hashing)
    requires base.Sized() && patch.Sized() && base.valLen == patch.valLen
    requires forall i :: 0 <= i < |keys| ==> base.InRange(keys[i], h) && patch.InRange(keys[i], h)
    ensures forall i :: 0 <= i < |keys| && OverlayAll(base, patch, keys, h)[i].Some? ==>
              |OverlayAll(base, patch, keys, h)[i].value| == base.valLen
  {
    hide PackView.CalcPos, PackView.Line;
    AnswersSized(base, keys, h);
    AnswersSized(patch, keys, h);
    forall i | 0 <= i < |keys| && OverlayAll(base, patch, keys, h)[i].Some?
      ensures |OverlayAll(base, patch, keys, h)[i].value| == base.valLen
    {
      assert SearchAll(patch, keys, h)[i] == patch.Search(keys[i], h);
      assert SearchAll(base, keys, h)[i] == base.Search(keys[i], h);
    }
  }
}
