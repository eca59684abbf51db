/** Building the index of one segment, and why a successful build is a minimal perfect hash. */
module SegmentBuild {
  import opened Words
  import opened Bits
  import opened Ids
  import opened Permutation
  import opened PackFormat
  import opened BucketSearch
  import opened Rank
  import opened Localize
  import opened SegmentSort
  import Scatter

  /** The first-level bucket of an id in a segment of `size` ids. */
  function BucketOf(size: u32): (hash: Id -> nat)
    requires size > 0
    ensures forall id :: hash(id) == SkewMap(L1Hash(id), L1Band(size))
  {
    var band := L1Band(size);
    id => SkewMap(L1Hash(id), band)
  }

  function Level2Of(l2: L2Hash, size: u32): Level2 {
    Level2(l2, L2Size(size))
  }

  /** The index of a segment: a seed per bucket, and the sections of its bitmap. */
  datatype IndexPiece = IndexPiece(size: u32, cells: seq<byte>, sections: seq<Section>) {

    ghost predicate Shaped() {
      && size > 0 && |cells| == L1Size(size) && |sections| == SectionSize(size)
      && forall s :: 0 <= s < |sections| ==> sections[s].Valid()
    }

    /** The place in the bitmap an id is displaced to. */
    function Spot(id: Id, l2: L2Hash): (p: nat)
      requires Shaped() && BucketOf(size)(id) < |cells|
      ensures p < L2Size(size) <= 224 * |sections|
    {
      SpotInSections(size);
      Level2Of(l2, size).Spot(id, cells[BucketOf(size)(id)])
    }

    /** The position of an id in the segment: the rank of its place, counted as the host does, in 32 bits. */
    function LocalPos(id: Id, l2: L2Hash): nat
      requires Shaped() && BucketOf(size)(id) < |cells|
    {
      var spot := Spot(id, l2);
      (sections[spot / 224].step + sections[spot / 224].HostCount(spot % 224)) % 0x1_0000_0000
    }

    /** The same position as the device counts it. */
    function DevicePos(id: Id, l2: L2Hash): nat
      requires Shaped() && BucketOf(size)(id) < |cells|
    {
      var spot := Spot(id, l2);
      (sections[spot / 224].step + sections[spot / 224].DeviceCount(spot % 224)) % 0x1_0000_0000
    }

    /** Host and device agree on every position, whatever the sections hold. */
    lemma DeviceAgrees(id: Id, l2: L2Hash)
      requires Shaped() && BucketOf(size)(id) < |cells|
      ensures DevicePos(id, l2) == LocalPos(id, l2)
    {
      hide Section.HostCount, Section.DeviceCount;
      var spot := Spot(id, l2);
      sections[spot / 224].CountsAgree(spot % 224);
    }
  }

  lemma SpotInSections(size: u32)
    ensures L2Size(size) <= 224 * SectionSize(size)
  {
  }

  /** The cells and sections describe exactly the given ids: every id has its own bit, and no other bit is set. */
  ghost predicate Records(piece: IndexPiece, ids: seq<Id>, l2: L2Hash, bytes: seq<byte>) {
    && piece.Shaped() && piece.size == |ids|
    && Indexes(piece.sections, bytes, |piece.sections|)
    && (forall x :: 0 <= x < |ids| ==> BucketOf(piece.size)(ids[x]) < |piece.cells|)
    && (forall x :: 0 <= x < |ids| ==> piece.Spot(ids[x], l2) in SetBits(bytes))
    && (forall x, y :: 0 <= x < y < |ids| ==> piece.Spot(ids[x], l2) != piece.Spot(ids[y], l2))
    && |SetBits(bytes)| == |ids|
  }

  /** A minimal perfect hash: the ids take the positions `[0, size)` one-to-one, and no id of a valid
      bucket, known or foreign, gets a position beyond `size`. */
  ghost predicate Perfect(piece: IndexPiece, ids: seq<Id>, l2: L2Hash) {
    && piece.Shaped() && piece.size == |ids|
    && (forall x :: 0 <= x < |ids| ==> BucketOf(piece.size)(ids[x]) < |piece.cells|)
    && (forall x :: 0 <= x < |ids| ==> piece.LocalPos(ids[x], l2) < |ids|)
    && (forall x, y :: 0 <= x < y < |ids| ==> piece.LocalPos(ids[x], l2) != piece.LocalPos(ids[y], l2))
    && (forall id :: BucketOf(piece.size)(id) < |piece.cells| ==> piece.LocalPos(id, l2) <= |ids|)
  }

  lemma LocalPosIsRank(piece: IndexPiece, l2: L2Hash, bytes: seq<byte>, id: Id)
    requires piece.Shaped() && Indexes(piece.sections, bytes, |piece.sections|)
    requires BucketOf(piece.size)(id) < |piece.cells| && |SetBits(bytes)| < 0x1_0000_0000
    ensures piece.LocalPos(id, l2) == RankOf(SetBits(bytes), piece.Spot(id, l2)) <= |SetBits(bytes)|
  {
    hide RankOf, Indexes, SetBits, Section.HostCount, Section.DeviceCount, IndexPiece.Spot;
    SearchRank(piece.sections, bytes, piece.Spot(id, l2));
    RankAll(SetBits(bytes), piece.Spot(id, l2));
  }

  lemma RecordsArePerfect(piece: IndexPiece, ids: seq<Id>, l2: L2Hash, bytes: seq<byte>)
    requires Records(piece, ids, l2, bytes)
    ensures Perfect(piece, ids, l2)
  {
    hide RankOf, Indexes, SetBits, IndexPiece.LocalPos, IndexPiece.Spot;
    var bits := SetBits(bytes);
    forall id | BucketOf(piece.size)(id) < |piece.cells| ensures piece.LocalPos(id, l2) <= |ids| {
      LocalPosIsRank(piece, l2, bytes, id);
    }
    forall x | 0 <= x < |ids| ensures piece.LocalPos(ids[x], l2) < |ids| {
      LocalPosIsRank(piece, l2, bytes, ids[x]);
      RankInside(bits, piece.Spot(ids[x], l2));
    }
    forall x, y | 0 <= x < y < |ids| ensures piece.LocalPos(ids[x], l2) != piece.LocalPos(ids[y], l2) {
      LocalPosIsRank(piece, l2, bytes, ids[x]);
      LocalPosIsRank(piece, l2, bytes, ids[y]);
      if piece.Spot(ids[x], l2) < piece.Spot(ids[y], l2) {
        RankAscends(bits, piece.Spot(ids[x], l2), piece.Spot(ids[y], l2));
      } else {
        RankAscends(bits, piece.Spot(ids[y], l2), piece.Spot(ids[x], l2));
      }
    }
  }

  function Positions(piece: IndexPiece, ids: seq<Id>, l2: L2Hash): (f: seq<nat>)
    requires piece.Shaped() && forall x :: 0 <= x < |ids| ==> BucketOf(piece.size)(ids[x]) < |piece.cells|
    ensures |f| == |ids| && forall x :: 0 <= x < |ids| ==> f[x] == piece.LocalPos(ids[x], l2)
  {
    seq(|ids|, x requires 0 <= x < |ids| => piece.LocalPos(ids[x], l2) as nat)
  }

  /** Every position is taken, and the ids are pairwise distinct. */
  lemma PerfectIsBijective(piece: IndexPiece, ids: seq<Id>, l2: L2Hash)
    requires Perfect(piece, ids, l2)
    ensures !Duplicates(ids)
    ensures Injective(Positions(piece, ids, l2)) && Bounded(Positions(piece, ids, l2), |ids|)
    ensures forall p :: 0 <= p < |ids| ==> p in Positions(piece, ids, l2)
  {
    hide IndexPiece.LocalPos;
    Onto(Positions(piece, ids, l2));
  }

  /** Perfection speaks about the set of ids, not their order in the buffer. */
  lemma RecordsPermuted(piece: IndexPiece, s: seq<Id>, t: seq<Id>, l2: L2Hash, bytes: seq<byte>)
    requires Records(piece, s, l2, bytes) && multiset(s) == multiset(t) && !Duplicates(t)
    ensures Records(piece, t, l2, bytes)
  {
    hide Indexes, SetBits, IndexPiece.Spot;
    assert |s| == |multiset(s)| == |multiset(t)| == |t|;
    forall y | 0 <= y < |t| ensures exists x :: 0 <= x < |s| && s[x] == t[y] {
      assert t[y] in multiset(s);
    }
  }

  lemma RecordsDistinct(piece: IndexPiece, s: seq<Id>, l2: L2Hash, bytes: seq<byte>)
    requires Records(piece, s, l2, bytes)
    ensures !Duplicates(s)
  {
    hide Indexes, SetBits, IndexPiece.Spot;
  }

  // ---- The bucket loop --------------------------------------------------------------------------

  /** The first `n` ids have their own bits, under the seeds in the cells, and no other bit is set. */
  ghost predicate Placed(v: seq<Id>, cells: seq<byte>, n: nat, bits: set<nat>, hash: Id -> nat, level2: Level2) {
    && n <= |v| && level2.range > 0
    && (forall x :: 0 <= x < n ==> hash(v[x]) < |cells|)
    && (forall x :: 0 <= x < n ==> level2.Spot(v[x], cells[hash(v[x])]) in bits)
    && (forall x, y :: 0 <= x < y < n ==>
          level2.Spot(v[x], cells[hash(v[x])]) != level2.Spot(v[y], cells[hash(v[y])]))
    && |bits| == n
  }

  /** A bucket that fits extends the placement. */
  lemma PlaceBucket(v: seq<Id>, w: seq<Id>, cells: seq<byte>, begin: nat, end: nat, bits: set<nat>,
                    hash: Id -> nat, level2: Level2, last: nat, sd: byte, after: set<nat>)
    requires Placed(v, cells, begin, bits, hash, level2) && begin < end <= |v| == |w| && last < |cells|
    requires forall x :: 0 <= x < begin ==> w[x] == v[x] && hash(v[x]) != last
    requires forall x :: begin <= x < end ==> hash(w[x]) == last
    requires level2.Fits(w[begin..end], sd, bits)
    requires after == bits + level2.Spots(w[begin..end], sd)
    ensures Placed(w, cells[last := sd], end, after, hash, level2)
  {
    hide Level2.Spot, Level2.Spots, Level2.Fits;
    var c := cells[last := sd];
    BucketSpots(w, begin, end, bits, level2, sd);
    forall x, y | 0 <= x < y < end
      ensures level2.Spot(w[x], c[hash(w[x])]) != level2.Spot(w[y], c[hash(w[y])])
    {
      if x < begin <= y {
        assert level2.Spot(w[x], cells[hash(w[x])]) in bits;
      }
    }
  }

  /** The spots of a bucket that fits are free, distinct, and as many as its ids. */
  lemma BucketSpots(w: seq<Id>, begin: nat, end: nat, bits: set<nat>, level2: Level2, sd: byte)
    requires level2.range > 0 && begin < end <= |w| && level2.Fits(w[begin..end], sd, bits)
    ensures var spots := level2.Spots(w[begin..end], sd);
            && (forall x :: begin <= x < end ==> level2.Spot(w[x], sd) in spots && level2.Spot(w[x], sd) !in bits)
            && (forall x, y :: begin <= x < y < end ==> level2.Spot(w[x], sd) != level2.Spot(w[y], sd))
            && |bits + spots| == |bits| + (end - begin)
  {
    hide Level2.Spot;
    var s := w[begin..end];
    level2.FitsByCount(s, sd, bits);
    forall x | begin <= x < end ensures level2.Spot(w[x], sd) in level2.Spots(s, sd) {
      assert s[x - begin] == w[x];
      assert w[x] in multiset(s);
    }
    hide Level2.Spots;
    forall x, y | begin <= x < y < end ensures level2.Spot(w[x], sd) != level2.Spot(w[y], sd) {
      assert s[y - begin] == w[y] && s[x - begin] == w[x];
    }
  }

  // ---- What a run of the bucket loop has established ------------------------------------------------

  /** The stretch is one whole bucket. */
  ghost predicate IsBucket(v: seq<Id>, begin: nat, end: nat, hash: Id -> nat) {
    && begin < end <= |v|
    && (forall x :: begin <= x < end ==> hash(v[x]) == hash(v[begin]))
    && (begin > 0 ==> hash(v[begin - 1]) != hash(v[begin]))
    && (end < |v| ==> hash(v[end]) != hash(v[begin]))
  }

  /** How many buckets begin before position `n`. */
  ghost function BucketsBefore(v: seq<Id>, n: nat, hash: Id -> nat): nat
    requires n <= |v|
  {
    if n == 0 then 0
    else BucketsBefore(v, n - 1, hash) + if n == 1 || hash(v[n - 1]) != hash(v[n - 2]) then 1 else 0
  }

  /** The seed the search of the `k`-th bucket starts from: each bucket starts one seed lower. */
  function StartSeed(k: nat): byte {
    (0x100 - k % 0x100) % 0x100
  }

  /** The bits of the first `n` ids under the seeds in the cells. */
  ghost function BitsOf(v: seq<Id>, cells: seq<byte>, n: nat, hash: Id -> nat, level2: Level2): set<nat>
    requires level2.range > 0
  {
    set x | 0 <= x < n && x < |v| && hash(v[x]) < |cells| :: level2.Spot(v[x], cells[hash(v[x])])
  }

  /** The cell of the bucket holds the first seed, from the bucket's start seed on, that fits beside the
      buckets before it. */
  ghost predicate FirstSeed(v: seq<Id>, cells: seq<byte>, begin: nat, end: nat, hash: Id -> nat, level2: Level2) {
    && begin < end <= |v| && hash(v[begin]) < |cells| && level2.range > 0
    && var start := StartSeed(BucketsBefore(v, begin, hash));
       exists j: nat :: FirstSeedAt(v, cells, begin, end, hash, level2, start, j)
  }

  ghost predicate FirstSeedAt(v: seq<Id>, cells: seq<byte>, begin: nat, end: nat, hash: Id -> nat, level2: Level2,
                              start: byte, j: nat)
    requires begin < end <= |v| && hash(v[begin]) < |cells| && level2.range > 0
  {
    && j < TOTAL_TRIES && cells[hash(v[begin])] == Seed(start, j)
    && level2.NoFit(v[begin..end], start, BitsOf(v, cells, begin, hash, level2), j)
  }

  ghost predicate Greedy(v: seq<Id>, cells: seq<byte>, n: nat, hash: Id -> nat, level2: Level2) {
    forall b, e :: 0 <= b < e <= n && IsBucket(v, b, e, hash) ==> FirstSeed(v, cells, b, e, hash, level2)
  }

  /** The loop comes to the bucket `v[begin..end]`: the ids are arranged by bucket, every bucket before it has
      its first fitting seed, and the bits used are exactly theirs. */
  ghost predicate Reached(v: seq<Id>, cells: seq<byte>, begin: nat, end: nat, hash: Id -> nat, level2: Level2) {
    && level2.range > 0 && Grouped(v, hash) && IsBucket(v, begin, end, hash)
    && Placed(v, cells, begin, BitsOf(v, cells, begin, hash, level2), hash, level2)
    && Greedy(v, cells, begin, hash, level2)
  }

  /** The bucket has no two equal ids, and no seed at all sends its ids to distinct bits free at its turn. */
  ghost predicate StuckAt(v: seq<Id>, cells: seq<byte>, begin: nat, end: nat, hash: Id -> nat, level2: Level2) {
    && Reached(v, cells, begin, end, hash, level2) && !Duplicates(v[begin..end])
    && forall sd: byte :: !level2.Fits(v[begin..end], sd, BitsOf(v, cells, begin, hash, level2))
  }

  /** The bucket has two equal ids. */
  ghost predicate ClashAt(v: seq<Id>, cells: seq<byte>, begin: nat, end: nat, hash: Id -> nat, level2: Level2) {
    Reached(v, cells, begin, end, hash, level2) && Duplicates(v[begin..end])
  }

  /** Some arrangement of the ids by bucket leads to a bucket that no seed places. */
  ghost predicate Stuck(ids: seq<Id>, hash: Id -> nat, level2: Level2) {
    exists v: seq<Id>, cells: seq<byte>, begin, end :: multiset(v) == multiset(ids) && StuckAt(v, cells, begin, end, hash, level2)
  }

  ghost predicate Clash(ids: seq<Id>, hash: Id -> nat, level2: Level2) {
    exists v: seq<Id>, cells: seq<byte>, begin, end :: multiset(v) == multiset(ids) && ClashAt(v, cells, begin, end, hash, level2)
  }

  lemma ClashIsDuplicate(ids: seq<Id>, hash: Id -> nat, level2: Level2)
    requires Clash(ids, hash, level2)
    ensures Duplicates(ids)
  {
    hide Reached, Duplicates;
    var v: seq<Id>, cells: seq<byte>, begin, end :|
      multiset(v) == multiset(ids) && ClashAt(v, cells, begin, end, hash, level2);
    ReachedInside(v, cells, begin, end, hash, level2);
    SubsequenceBag(v, begin, end);
    DuplicatesPermuted(v, ids);
  }

  lemma ReachedInside(v: seq<Id>, cells: seq<byte>, begin: nat, end: nat, hash: Id -> nat, level2: Level2)
    requires Reached(v, cells, begin, end, hash, level2)
    ensures begin < end <= |v|
  {
  }

  /** The bits used are exactly those of the ids placed. */
  lemma PlacedBits(v: seq<Id>, cells: seq<byte>, n: nat, bits: set<nat>, hash: Id -> nat, level2: Level2)
    requires Placed(v, cells, n, bits, hash, level2)
    ensures BitsOf(v, cells, n, hash, level2) == bits
  {
    hide Level2.Spot;
    PlacedPart(v, cells, n, bits, n, hash, level2);
    SubsetOfSameSize(BitsOf(v, cells, n, hash, level2), bits);
  }

  lemma {:induction false} BucketsBeforeSame(v: seq<Id>, w: seq<Id>, n: nat, hash: Id -> nat)
    requires n <= |v| == |w| && forall x :: 0 <= x < n ==> hash(w[x]) == hash(v[x])
    ensures BucketsBefore(w, n, hash) == BucketsBefore(v, n, hash)
  {
    if n > 0 {
      BucketsBeforeSame(v, w, n - 1, hash);
    }
  }

  lemma {:induction false} BucketsBeforeFlat(v: seq<Id>, begin: nat, n: nat, hash: Id -> nat)
    requires begin < n <= |v| && forall x :: begin <= x < n ==> hash(v[x]) == hash(v[begin])
    requires begin > 0 ==> hash(v[begin - 1]) != hash(v[begin])
    ensures BucketsBefore(v, n, hash) == BucketsBefore(v, begin, hash) + 1
    decreases n
  {
    if begin + 1 < n {
      BucketsBeforeFlat(v, begin, n - 1, hash);
    }
  }

  /** The search of bucket `[begin, end)` has rearranged it and set its cell; what was before is as it was. */
  ghost predicate OnlyBucketChanged(v: seq<Id>, w: seq<Id>, cells: seq<byte>, after: seq<byte>, begin: nat, end: nat,
                                    hash: Id -> nat) {
    && begin < end <= |v| == |w| && |cells| == |after|
    && (forall x :: 0 <= x < |v| && !(begin <= x < end) ==> w[x] == v[x])
    && (forall x :: 0 <= x < |v| ==> hash(w[x]) == hash(v[x]))
    && (forall x :: 0 <= x < begin ==> hash(v[x]) != hash(v[begin]))
    && (forall p :: 0 <= p < |cells| && p != hash(v[begin]) ==> after[p] == cells[p])
  }

  lemma BitsKept(v: seq<Id>, w: seq<Id>, cells: seq<byte>, after: seq<byte>, begin: nat, end: nat, n: nat,
                 hash: Id -> nat, level2: Level2)
    requires OnlyBucketChanged(v, w, cells, after, begin, end, hash) && n <= begin && level2.range > 0
    ensures BitsOf(w, after, n, hash, level2) == BitsOf(v, cells, n, hash, level2)
  {
    hide Level2.Spot;
    forall x | 0 <= x < n && hash(v[x]) < |cells|
      ensures level2.Spot(w[x], after[hash(w[x])]) == level2.Spot(v[x], cells[hash(v[x])])
    {
      assert w[x] == v[x];
    }
  }

  lemma FirstSeedKept(v: seq<Id>, w: seq<Id>, cells: seq<byte>, after: seq<byte>, begin: nat, end: nat, b: nat, e: nat,
                      hash: Id -> nat, level2: Level2)
    requires OnlyBucketChanged(v, w, cells, after, begin, end, hash)
    requires b < e <= begin && FirstSeed(v, cells, b, e, hash, level2)
    ensures FirstSeed(w, after, b, e, hash, level2)
  {
    hide Level2.Spot, BitsOf, Level2.NoFit, Seed, StartSeed;
    BitsKept(v, w, cells, after, begin, end, b, hash, level2);
    BucketsBeforeSame(v, w, b, hash);
    assert w[b..e] == v[b..e];
    var start := StartSeed(BucketsBefore(v, b, hash));
    var j: nat :| FirstSeedAt(v, cells, b, e, hash, level2, start, j);
    assert FirstSeedAt(w, after, b, e, hash, level2, start, j);
  }

  lemma GreedyKept(v: seq<Id>, w: seq<Id>, cells: seq<byte>, after: seq<byte>, begin: nat, end: nat,
                   hash: Id -> nat, level2: Level2)
    requires OnlyBucketChanged(v, w, cells, after, begin, end, hash)
    requires Greedy(v, cells, begin, hash, level2)
    ensures Greedy(w, after, begin, hash, level2)
  {
    hide FirstSeed;
    forall b, e | 0 <= b < e <= begin && IsBucket(w, b, e, hash) ensures FirstSeed(w, after, b, e, hash, level2) {
      assert IsBucket(v, b, e, hash);
      FirstSeedKept(v, w, cells, after, begin, end, b, e, hash, level2);
    }
  }

  /** The bucket just placed is the only new one. */
  lemma GreedyGrows(w: seq<Id>, after: seq<byte>, begin: nat, end: nat, hash: Id -> nat, level2: Level2)
    requires Greedy(w, after, begin, hash, level2) && begin < end <= |w|
    requires forall x :: 0 <= x < begin ==> hash(w[x]) != hash(w[begin])
    requires forall x :: begin <= x < end ==> hash(w[x]) == hash(w[begin])
    requires FirstSeed(w, after, begin, end, hash, level2)
    ensures Greedy(w, after, end, hash, level2)
  {
    hide FirstSeed;
    forall b, e | 0 <= b < e <= end && IsBucket(w, b, e, hash) ensures FirstSeed(w, after, b, e, hash, level2) {
      if e > begin {
        assert hash(w[e - 1]) == hash(w[b]);
        assert b == begin && e == end;
      }
    }
  }

  lemma SubsequenceBag(v: seq<Id>, begin: nat, end: nat)
    requires begin <= end <= |v|
    ensures multiset(v[begin..end]) <= multiset(v)
    ensures Duplicates(v[begin..end]) ==> Duplicates(v)
  {
    assert v == v[..begin] + v[begin..end] + v[end..];
    if Duplicates(v[begin..end]) {
      var i, j :| 0 <= i < j < end - begin && v[begin..end][i] == v[begin..end][j];
      assert v[begin + i] == v[begin + j];
    }
  }

  /** The 256 seeds tried are all seeds. */
  lemma NoSeedAtAll(s: seq<Id>, level2: Level2, used: set<nat>, start: byte)
    requires level2.range > 0 && !exists k: nat :: k < TOTAL_TRIES && level2.Fits(s, Seed(start, k), used)
    ensures forall sd: byte :: !level2.Fits(s, sd, used)
  {
    hide Level2.Fits;
    forall sd: byte ensures !level2.Fits(s, sd, used) {
      var k: nat := (sd + 0x100 - start) % 0x100;
      assert Seed(start, k) == sd;
    }
  }

  lemma SameBucketAfter(v: seq<Id>, w: seq<Id>, begin: nat, end: nat, hash: Id -> nat, last: nat)
    requires begin <= end <= |v| == |w| && multiset(v[begin..end]) == multiset(w[begin..end])
    requires forall x :: begin <= x < end ==> hash(v[x]) == last
    ensures forall x :: begin <= x < end ==> hash(w[x]) == last
  {
    forall x | begin <= x < end ensures hash(w[x]) == last {
      assert w[begin..end][x - begin] == w[x];
      assert w[x] in multiset(v[begin..end]);
      var i :| 0 <= i < end - begin && v[begin..end][i] == w[x];
    }
  }

  lemma SameBagAfter(v: seq<Id>, w: seq<Id>, begin: nat, end: nat)
    requires begin <= end <= |v| == |w| && multiset(v[begin..end]) == multiset(w[begin..end])
    requires forall x :: 0 <= x < |v| && !(begin <= x < end) ==> w[x] == v[x]
    ensures multiset(v) == multiset(w)
  {
    assert v == v[..begin] + v[begin..end] + v[end..];
    assert w == w[..begin] + w[begin..end] + w[end..];
    assert v[..begin] == w[..begin] && v[end..] == w[end..];
  }

  /** No earlier id belongs to the bucket that starts at `begin`. */
  lemma BucketIsNew(v: seq<Id>, begin: nat, hash: Id -> nat)
    requires Grouped(v, hash) && begin < |v| && (begin > 0 ==> hash(v[begin - 1]) != hash(v[begin]))
    ensures forall x :: 0 <= x < begin ==> hash(v[x]) != hash(v[begin])
  {
  }

  lemma GroupedAfter(v: seq<Id>, w: seq<Id>, hash: Id -> nat)
    requires Grouped(v, hash) && |v| == |w| && forall x :: 0 <= x < |v| ==> hash(w[x]) == hash(v[x])
    ensures Grouped(w, hash)
  {
  }

  /** The search left the bucket rearranged; everything known about the buckets before it still holds. */
  lemma ReachedAfter(v: seq<Id>, w: seq<Id>, cells: seq<byte>, begin: nat, end: nat, bits: set<nat>,
                     hash: Id -> nat, level2: Level2)
    requires OnlyBucketChanged(v, w, cells, cells, begin, end, hash)
    requires Grouped(v, hash) && IsBucket(v, begin, end, hash)
    requires Placed(v, cells, begin, bits, hash, level2) && Greedy(v, cells, begin, hash, level2)
    ensures Reached(w, cells, begin, end, hash, level2) && BitsOf(w, cells, begin, hash, level2) == bits
  {
    hide BitsOf, Greedy, Level2.Spot;
    GreedyKept(v, w, cells, cells, begin, end, hash, level2);
    assert Placed(w, cells, begin, bits, hash, level2);
    PlacedBits(w, cells, begin, bits, hash, level2);
  }

  /** The cell just set is the first fitting one. */
  lemma FirstSeedFound(w: seq<Id>, after: seq<byte>, begin: nat, end: nat, hash: Id -> nat, level2: Level2, start: byte,
                       used: set<nat>, j: nat)
    requires begin < end <= |w| && hash(w[begin]) < |after| && level2.range > 0
    requires start == StartSeed(BucketsBefore(w, begin, hash)) && used == BitsOf(w, after, begin, hash, level2)
    requires j < TOTAL_TRIES && after[hash(w[begin])] == Seed(start, j)
    requires level2.NoFit(w[begin..end], start, used, j)
    ensures FirstSeed(w, after, begin, end, hash, level2)
  {
    hide Level2.NoFit, BitsOf, Seed, StartSeed;
    assert FirstSeedAt(w, after, begin, end, hash, level2, start, j);
  }

  lemma NoFitPermuted(s: seq<Id>, t: seq<Id>, level2: Level2, sd: byte, used: set<nat>, k: nat)
    requires level2.range > 0 && multiset(s) == multiset(t) && level2.NoFit(s, sd, used, k)
    ensures level2.NoFit(t, sd, used, k)
  {
    hide Level2.Fits;
    level2.SearchPermuted(s, t, used);
  }

  /** A bucket that was mapped: the buckets up to it are placed. */
  lemma BucketMapped(v: seq<Id>, w: seq<Id>, cells: seq<byte>, begin: nat, end: nat, used: set<nat>, hash: Id -> nat,
                     level2: Level2, sd: byte, after: set<nat>)
    requires IsBucket(v, begin, end, hash) && |w| == |v| && hash(v[begin]) < |cells|
    requires OnlyBucketChanged(v, w, cells, cells[hash(v[begin]) := sd], begin, end, hash)
    requires multiset(v[begin..end]) == multiset(w[begin..end])
    requires Placed(v, cells, begin, used, hash, level2) && level2.Fits(v[begin..end], sd, used)
    requires after == used + level2.Spots(v[begin..end], sd)
    ensures Placed(w, cells[hash(v[begin]) := sd], end, after, hash, level2)
  {
    hide Level2.Fits, Level2.Spots;
    assert level2.range > 0;
    hide Placed;
    level2.FitsPermuted(v[begin..end], w[begin..end], sd, used);
    PlaceBucket(v, w, cells, begin, end, used, hash, level2, hash(v[begin]), sd, after);
  }

  /** Its cell holds the first fitting seed. */
  lemma BucketGreedy(v: seq<Id>, w: seq<Id>, cells: seq<byte>, begin: nat, end: nat, used: set<nat>, hash: Id -> nat,
                     level2: Level2, seed: byte, sd: byte, j: nat)
    requires IsBucket(v, begin, end, hash) && |w| == |v| && hash(v[begin]) < |cells| && level2.range > 0
    requires OnlyBucketChanged(v, w, cells, cells[hash(v[begin]) := sd], begin, end, hash)
    requires multiset(v[begin..end]) == multiset(w[begin..end])
    requires used == BitsOf(v, cells, begin, hash, level2) && Greedy(v, cells, begin, hash, level2)
    requires seed == StartSeed(BucketsBefore(v, begin, hash))
    requires j < TOTAL_TRIES && sd == Seed(seed, j) && level2.NoFit(v[begin..end], seed, used, j)
    ensures Greedy(w, cells[hash(v[begin]) := sd], end, hash, level2)
  {
    hide Greedy, Level2.NoFit, Seed, StartSeed, BitsOf, FirstSeed, BucketsBefore;
    var c := cells[hash(v[begin]) := sd];
    GreedyKept(v, w, cells, c, begin, end, hash, level2);
    BucketsBeforeSame(v, w, begin, hash);
    BitsKept(v, w, cells, c, begin, end, begin, hash, level2);
    NoFitPermuted(v[begin..end], w[begin..end], level2, seed, used, j);
    FirstSeedFound(w, c, begin, end, hash, level2, seed, used, j);
    GreedyGrows(w, c, begin, end, hash, level2);
  }

  /** A bucket that was not mapped: it has equal ids, or no seed places it. */
  lemma BucketFailed(v: seq<Id>, w: seq<Id>, cells: seq<byte>, begin: nat, end: nat, used: set<nat>, hash: Id -> nat,
                     level2: Level2, seed: byte)
    requires OnlyBucketChanged(v, w, cells, cells, begin, end, hash)
    requires Grouped(v, hash) && IsBucket(v, begin, end, hash) && multiset(v[begin..end]) == multiset(w[begin..end])
    requires Placed(v, cells, begin, used, hash, level2) && Greedy(v, cells, begin, hash, level2) && level2.range > 0
    requires !exists k: nat :: k < TOTAL_TRIES && level2.Fits(v[begin..end], Seed(seed, k), used)
    ensures if Duplicates(v[begin..end]) then ClashAt(w, cells, begin, end, hash, level2)
            else StuckAt(w, cells, begin, end, hash, level2)
  {
    hide Grouped, Placed, Greedy, Duplicates, Level2.Fits, Level2.Spots, Seed, BitsOf, Reached;
    ReachedAfter(v, w, cells, begin, end, used, hash, level2);
    DuplicatesPermuted(v[begin..end], w[begin..end]);
    NoSeedAtAll(v[begin..end], level2, used, seed);
    level2.SearchPermuted(v[begin..end], w[begin..end], used);
  }

  /** Searches a seed for the bucket `ids[begin..end]` and stores it in the bucket's cell. On failure the bucket
      is exactly one that has equal ids, or that no seed places. */
  method MapBucket(ids: array<Id>, begin: nat, end: nat, seed: byte, bitmap: array<byte>, cells: array<byte>,
                   hash: Id -> nat, level2: Level2) returns (status: BuildStatus)
    requires cells != bitmap && 0 < level2.range <= 8 * bitmap.Length
    requires Grouped(ids[..], hash) && IsBucket(ids[..], begin, end, hash) && hash(ids[begin]) < cells.Length
    requires Placed(ids[..], cells[..], begin, SetBits(bitmap[..]), hash, level2)
    requires Greedy(ids[..], cells[..], begin, hash, level2)
    requires seed == StartSeed(BucketsBefore(ids[..], begin, hash))
    modifies ids, bitmap, cells
    ensures multiset(ids[..]) == multiset(old(ids[..])) && Grouped(ids[..], hash)
    ensures forall x :: 0 <= x < ids.Length ==> hash(ids[x]) == hash(old(ids[x]))
    ensures status in {Ok, Conflict, OutOfChance}
    ensures status == Ok ==> Placed(ids[..], cells[..], end, SetBits(bitmap[..]), hash, level2)
    ensures status == Ok ==> Greedy(ids[..], cells[..], end, hash, level2)
    ensures status == Conflict ==> ClashAt(ids[..], cells[..], begin, end, hash, level2)
    ensures status == OutOfChance ==> StuckAt(ids[..], cells[..], begin, end, hash, level2)
  {
    hide Grouped, Placed, Greedy, SetBits, Duplicates, Level2.Fits, Level2.Spots, Level2.NoFit, Seed, StartSeed, BitsOf;
    hide ClashAt, StuckAt, BucketsBefore;
    ghost var v, used, c := ids[..], SetBits(bitmap[..]), cells[..];
    var last := hash(ids[begin]);
    BucketIsNew(v, begin, hash);
    var sd: byte;
    sd, status := Mapping(ids, begin, end, seed, bitmap, level2);
    ghost var w := ids[..];
    SameBucketAfter(v, w, begin, end, hash, last);
    SameBagAfter(v, w, begin, end);
    GroupedAfter(v, w, hash);
    if status == Ok {
      cells[last] := sd;
      assert cells[..] == c[last := sd];
      ghost var j: nat :| j < TOTAL_TRIES && sd == Seed(seed, j) && level2.NoFit(v[begin..end], seed, used, j);
      BucketMapped(v, w, c, begin, end, used, hash, level2, sd, SetBits(bitmap[..]));
      PlacedBits(v, c, begin, used, hash, level2);
      BucketGreedy(v, w, c, begin, end, used, hash, level2, seed, sd, j);
    } else {
      BucketFailed(v, w, c, begin, end, used, hash, level2, seed);
    }
  }

  lemma NothingPlaced(v: seq<Id>, cells: seq<byte>, bytes: seq<byte>, hash: Id -> nat, level2: Level2)
    requires level2.range > 0 && forall i :: 0 <= i < |bytes| ==> bytes[i] == 0
    ensures Placed(v, cells, 0, SetBits(bytes), hash, level2)
  {
    forall p | 0 <= p < 8 * |bytes| ensures !BitAt(bytes, p) {
      BitOfZero(p % 8);
    }
    assert SetBits(bytes) == {};
  }

  lemma NextStartSeed(v: seq<Id>, begin: nat, n: nat, hash: Id -> nat)
    requires begin < n <= |v| && forall x :: begin <= x < n ==> hash(v[x]) == hash(v[begin])
    requires begin > 0 ==> hash(v[begin - 1]) != hash(v[begin])
    ensures StartSeed(BucketsBefore(v, n, hash)) == (StartSeed(BucketsBefore(v, begin, hash)) as int + 0xff) % 0x100
  {
    BucketsBeforeFlat(v, begin, n, hash);
    hide BucketsBefore;
    OneSeedLower(BucketsBefore(v, begin, hash));
  }

  lemma StartSeedIs(k: nat)
    ensures StartSeed(k) == if k % 0x100 == 0 then 0 else 0x100 - k % 0x100
  {
  }

  lemma OneSeedLower(k: nat)
    ensures StartSeed(k + 1) == (StartSeed(k) as int + 0xff) % 0x100
  {
    var q, r := k / 0x100, k % 0x100;
    hide StartSeed;
    RemainderIs(k + 1, 0x100, if r == 0xff then q + 1 else q, if r == 0xff then 0 else r + 1);
    StartSeedIs(k);
    StartSeedIs(k + 1);
  }

  lemma NoBucketYet(v: seq<Id>, cells: seq<byte>, hash: Id -> nat, level2: Level2)
    ensures Greedy(v, cells, 0, hash, level2) && StartSeed(BucketsBefore(v, 0, hash)) == 0
  {
  }

  /** Walks over the sorted ids and maps one bucket after the other, each search starting one seed lower. On
      failure the ids and cells show the bucket it stopped at. */
  method MapBuckets(ids: array<Id>, bitmap: array<byte>, cells: array<byte>, hash: Id -> nat, level2: Level2)
    returns (status: BuildStatus)
    requires ids.Length > 0 && cells != bitmap && 0 < level2.range <= 8 * bitmap.Length
    requires Grouped(ids[..], hash) && forall x :: 0 <= x < ids.Length ==> hash(ids[x]) < cells.Length
    requires forall i :: 0 <= i < bitmap.Length ==> bitmap[i] == 0
    modifies ids, bitmap, cells
    ensures multiset(ids[..]) == multiset(old(ids[..])) && status in {Ok, Conflict, OutOfChance}
    ensures status == Ok ==> Placed(ids[..], cells[..], ids.Length, SetBits(bitmap[..]), hash, level2)
    ensures status == Ok ==> Greedy(ids[..], cells[..], ids.Length, hash, level2)
    ensures status == Conflict ==> exists begin, end :: ClashAt(ids[..], cells[..], begin, end, hash, level2)
    ensures status == OutOfChance ==> exists begin, end :: StuckAt(ids[..], cells[..], begin, end, hash, level2)
  {
    hide Grouped, Placed, Greedy, SetBits, ClashAt, StuckAt, StartSeed, BucketsBefore;
    NothingPlaced(ids[..], cells[..], bitmap[..], hash, level2);
    NoBucketYet(ids[..], cells[..], hash, level2);
    var magic: byte := 0;
    var last := hash(ids[0]);
    var begin := 0;
    for i := 1 to ids.Length
      invariant begin < i && multiset(ids[..]) == multiset(old(ids[..])) && Grouped(ids[..], hash)
      invariant forall x :: 0 <= x < ids.Length ==> hash(ids[x]) < cells.Length
      invariant forall x :: begin <= x < i ==> hash(ids[x]) == last
      invariant begin > 0 ==> hash(ids[begin - 1]) != last
      invariant Placed(ids[..], cells[..], begin, SetBits(bitmap[..]), hash, level2)
      invariant Greedy(ids[..], cells[..], begin, hash, level2)
      invariant magic == StartSeed(BucketsBefore(ids[..], begin, hash))
    {
      var curr := hash(ids[i]);
      if curr != last {
        ghost var before := ids[..];
        status := MapBucket(ids, begin, i, magic, bitmap, cells, hash, level2);
        if status != Ok {
          return;
        }
        BucketsBeforeSame(before, ids[..], begin, hash);
        NextStartSeed(ids[..], begin, i, hash);
        magic := (magic as int + 0xff) % 0x100;
        last := curr;
        begin := i;
      }
    }
    status := MapBucket(ids, begin, ids.Length, magic, bitmap, cells, hash, level2);
  }

  // ---- The outcome is determined by the arrangement ---------------------------------------------

  /** In a placement every bucket fits beside the buckets before it. */
  lemma PlacedFits(v: seq<Id>, cells: seq<byte>, n: nat, bits: set<nat>, begin: nat, end: nat, hash: Id -> nat,
                   level2: Level2)
    requires Placed(v, cells, n, bits, hash, level2) && IsBucket(v, begin, end, hash) && end <= n
    ensures hash(v[begin]) < |cells|
    ensures level2.Fits(v[begin..end], cells[hash(v[begin])], BitsOf(v, cells, begin, hash, level2))
  {
    hide Level2.Spot;
    var s, sd := v[begin..end], cells[hash(v[begin])];
    forall i | 0 <= i < |s|
      ensures level2.Spot(s[i], sd) == level2.Spot(v[begin + i], cells[hash(v[begin + i])])
      ensures level2.Spot(s[i], sd) !in BitsOf(v, cells, begin, hash, level2)
    {
    }
  }

  lemma BitsAgree(v: seq<Id>, cells: seq<byte>, other: seq<byte>, n: nat, hash: Id -> nat, level2: Level2)
    requires level2.range > 0 && n <= |v|
    requires forall x :: 0 <= x < n ==> hash(v[x]) < |cells| && hash(v[x]) < |other|
                                        && cells[hash(v[x])] == other[hash(v[x])]
    ensures BitsOf(v, cells, n, hash, level2) == BitsOf(v, other, n, hash, level2)
  {
  }

  /** The first fitting seed is unique. */
  lemma FirstIsFirst(s: seq<Id>, level2: Level2, start: byte, used: set<nat>, i: nat, j: nat)
    requires level2.range > 0 && level2.NoFit(s, start, used, i) && level2.NoFit(s, start, used, j)
    requires level2.Fits(s, Seed(start, i), used) && level2.Fits(s, Seed(start, j), used)
    ensures i == j
  {
    hide Level2.Fits, Seed;
  }

  /** Two greedy placements of the same arrangement agree on every bucket both have placed. */
  lemma {:induction false} CellsAgree(v: seq<Id>, cells: seq<byte>, bits: set<nat>, other: seq<byte>, others: set<nat>,
                                      n: nat, hash: Id -> nat, level2: Level2)
    requires n <= |v| && Grouped(v, hash) && (0 < n < |v| ==> hash(v[n - 1]) != hash(v[n]))
    requires Placed(v, cells, n, bits, hash, level2) && Greedy(v, cells, n, hash, level2)
    requires Placed(v, other, n, others, hash, level2) && Greedy(v, other, n, hash, level2)
    ensures forall x :: 0 <= x < n ==> hash(v[x]) < |cells| && hash(v[x]) < |other|
                                       && cells[hash(v[x])] == other[hash(v[x])]
    decreases n
  {
    hide Grouped, Level2.Spot, Level2.Fits, BitsOf, StartSeed, Seed, Level2.NoFit, FirstSeed;
    if n > 0 {
      var b := BucketBegin(v, n, hash);
      PlacedPart(v, cells, n, bits, b, hash, level2);
      PlacedPart(v, other, n, others, b, hash, level2);
      CellsAgree(v, cells, BitsOf(v, cells, b, hash, level2), other, BitsOf(v, other, b, hash, level2), b, hash, level2);
      BitsAgree(v, cells, other, b, hash, level2);
      PlacedFits(v, cells, n, bits, b, n, hash, level2);
      PlacedFits(v, other, n, others, b, n, hash, level2);
      SameFirst(v, cells, other, b, n, hash, level2);
    }
  }

  /** Where the bucket that ends at `n` begins. */
  lemma BucketBegin(v: seq<Id>, n: nat, hash: Id -> nat) returns (b: nat)
    requires 0 < n <= |v| && (n < |v| ==> hash(v[n - 1]) != hash(v[n]))
    ensures b < n && IsBucket(v, b, n, hash)
  {
    b := n - 1;
    while b > 0 && hash(v[b - 1]) == hash(v[n - 1])
      invariant b < n && forall x :: b <= x < n ==> hash(v[x]) == hash(v[n - 1])
    {
      b := b - 1;
    }
  }

  lemma PlacedPart(v: seq<Id>, cells: seq<byte>, n: nat, bits: set<nat>, b: nat, hash: Id -> nat, level2: Level2)
    requires Placed(v, cells, n, bits, hash, level2) && b <= n
    ensures Placed(v, cells, b, BitsOf(v, cells, b, hash, level2), hash, level2)
  {
    hide Level2.Spot;
    var f := seq(b, x requires 0 <= x < b => level2.Spot(v[x], cells[hash(v[x])]));
    assert Injective(f);
    ImageSize(f);
    forall p ensures p in Image(f) <==> p in BitsOf(v, cells, b, hash, level2) {
      if p in Image(f) {
        var x :| 0 <= x < |f| && f[x] == p;
        assert hash(v[x]) < |cells|;
      }
      if p in BitsOf(v, cells, b, hash, level2) {
        var x :| 0 <= x < b && hash(v[x]) < |cells| && level2.Spot(v[x], cells[hash(v[x])]) == p;
        assert f[x] == p;
      }
    }
    assert Image(f) == BitsOf(v, cells, b, hash, level2);
  }

  lemma SameFirst(v: seq<Id>, cells: seq<byte>, other: seq<byte>, b: nat, e: nat, hash: Id -> nat, level2: Level2)
    requires FirstSeed(v, cells, b, e, hash, level2) && FirstSeed(v, other, b, e, hash, level2)
    requires BitsOf(v, cells, b, hash, level2) == BitsOf(v, other, b, hash, level2)
    requires level2.Fits(v[b..e], cells[hash(v[b])], BitsOf(v, cells, b, hash, level2))
    requires level2.Fits(v[b..e], other[hash(v[b])], BitsOf(v, other, b, hash, level2))
    ensures cells[hash(v[b])] == other[hash(v[b])]
  {
    hide BitsOf, Level2.Fits, Level2.NoFit, Seed, StartSeed, BucketsBefore;
    var start := StartSeed(BucketsBefore(v, b, hash));
    var i: nat :| FirstSeedAt(v, cells, b, e, hash, level2, start, i);
    var j: nat :| FirstSeedAt(v, other, b, e, hash, level2, start, j);
    FirstIsFirst(v[b..e], level2, start, BitsOf(v, cells, b, hash, level2), i, j);
  }

  /** For one arrangement the three outcomes exclude each other: if all its buckets can be placed greedily, the
      loop comes to no bucket that is stuck or holds equal ids. */
  lemma OutcomesExclusive(v: seq<Id>, cells: seq<byte>, bits: set<nat>, other: seq<byte>, begin: nat, end: nat,
                          hash: Id -> nat, level2: Level2)
    requires Grouped(v, hash) && Placed(v, cells, |v|, bits, hash, level2) && Greedy(v, cells, |v|, hash, level2)
    ensures !StuckAt(v, other, begin, end, hash, level2) && !ClashAt(v, other, begin, end, hash, level2)
  {
    hide Grouped, Level2.Spot, BitsOf, Level2.Fits, Placed, Greedy, Duplicates;
    if Reached(v, other, begin, end, hash, level2) {
      var others := BitsOf(v, other, begin, hash, level2);
      PlacedPart(v, cells, |v|, bits, begin, hash, level2);
      GreedyPart(v, cells, |v|, begin, hash, level2);
      CellsAgree(v, cells, BitsOf(v, cells, begin, hash, level2), other, others, begin, hash, level2);
      BitsAgree(v, cells, other, begin, hash, level2);
      PlacedFits(v, cells, |v|, bits, begin, end, hash, level2);
      if Duplicates(v[begin..end]) {
        level2.DuplicatesNeverFit(v[begin..end], cells[hash(v[begin])], others);
      }
    }
  }

  lemma GreedyPart(v: seq<Id>, cells: seq<byte>, n: nat, b: nat, hash: Id -> nat, level2: Level2)
    requires Greedy(v, cells, n, hash, level2) && b <= n
    ensures Greedy(v, cells, b, hash, level2)
  {
  }

  // ---- The segment ------------------------------------------------------------------------------

  lemma PlacedIsRecorded(piece: IndexPiece, v: seq<Id>, l2: L2Hash, bytes: seq<byte>)
    requires piece.Shaped() && piece.size == |v| && Indexes(piece.sections, bytes, |piece.sections|)
    requires Placed(v, piece.cells, |v|, SetBits(bytes), BucketOf(piece.size), Level2Of(l2, piece.size))
    ensures Records(piece, v, l2, bytes)
  {
    hide Indexes, SetBits, Level2.Spot;
  }

  /** Why a segment build ends as it does: a conflict means an over-full bucket, which always causes one, or a
      bucket reached with equal ids; out of chance means a bucket reached that no seed places. */
  ghost predicate Explained(status: BuildStatus, ids: seq<Id>, l2: L2Hash) {
    && 0 < |ids| < 0x1_0000_0000 && status in {Ok, Conflict, OutOfChance}
    && var hash, level2 := BucketOf(|ids|), Level2Of(l2, |ids|);
       var full := Crowded(ids, hash, L1Size(|ids|));
       && (full ==> status == Conflict)
       && (status == Conflict ==> full || Clash(ids, hash, level2))
       && (status == OutOfChance ==> Stuck(ids, hash, level2))
  }

  /** The explanation speaks about the bag of ids only. */
  lemma ExplainedPermuted(status: BuildStatus, v: seq<Id>, w: seq<Id>, l2: L2Hash)
    requires Explained(status, v, l2) && multiset(v) == multiset(w)
    ensures Explained(status, w, l2)
  {
    hide Crowded, Reached, StuckAt, ClashAt;
    SameLength(v, w);
    CrowdedPermuted(v, w, BucketOf(|v|), L1Size(|v|));
    CrowdedPermuted(w, v, BucketOf(|v|), L1Size(|v|));
    hide BucketOf, Level2Of, L1Size;
  }

  lemma CrowdedPermuted(v: seq<Id>, w: seq<Id>, hash: Id -> nat, cells: nat)
    requires multiset(v) == multiset(w)
    ensures Crowded(v, hash, cells) ==> Crowded(w, hash, cells)
  {
    if Crowded(v, hash, cells) {
      SlotsPermuted(v, w, hash);
      var x :| 0 <= x < |v| && (BucketLoad(v, hash, x) > 65535 || BucketLoad(v, hash, x) > cells + 16);
      assert v[x] in multiset(w);
      var y :| 0 <= y < |w| && w[y] == v[x];
      assert BucketLoad(w, hash, y) == BucketLoad(v, hash, x);
    }
  }

  /** A segment of at most 21 pairwise different ids never ends in a conflict, wherever they fall. */
  lemma FewNeverConflict(status: BuildStatus, ids: seq<Id>, l2: L2Hash)
    requires Explained(status, ids, l2) && |ids| <= 21 && !Duplicates(ids)
    ensures status != Conflict
  {
    hide Duplicates, Clash, Stuck;
    if status == Conflict {
      var hash, level2 := BucketOf(|ids|), Level2Of(l2, |ids|);
      if Clash(ids, hash, level2) {
        ClashIsDuplicate(ids, hash, level2);
      }
      forall x | 0 <= x < |ids| ensures BucketLoad(ids, hash, x) <= |ids| {
        LoadBounded(Scatter.SlotsOf(ids, hash), hash(ids[x]));
      }
    }
  }

  lemma LoadBounded(slots: seq<nat>, b: nat)
    ensures multiset(slots)[b] <= |slots|
  {
    assert |multiset(slots)| == |slots|;
  }

  lemma {:induction false} SlotsPermuted(v: seq<Id>, w: seq<Id>, hash: Id -> nat)
    requires multiset(v) == multiset(w)
    ensures multiset(Scatter.SlotsOf(v, hash)) == multiset(Scatter.SlotsOf(w, hash))
    decreases |v|
  {
    SameLength(v, w);
    if v != [] {
      var x := v[0];
      assert x in multiset(w);
      var k :| 0 <= k < |w| && w[k] == x;
      SlotsWithout(v, 0, hash);
      SlotsWithout(w, k, hash);
      hide Scatter.SlotsOf;
      var a, b := v[..0] + v[1..], w[..k] + w[k + 1..];
      BagCancel(multiset(a), multiset(b), x);
      SlotsPermuted(a, b, hash);
    }
  }

  lemma BagCancel<T>(a: multiset<T>, b: multiset<T>, x: T)
    requires a + multiset{x} == b + multiset{x}
    ensures a == b
  {
    assert a == (a + multiset{x}) - multiset{x} && b == (b + multiset{x}) - multiset{x};
  }

  /** Taking one id out takes one slot out. */
  lemma SlotsWithout(w: seq<Id>, k: nat, hash: Id -> nat)
    requires k < |w|
    ensures multiset(w) == multiset(w[..k] + w[k + 1..]) + multiset{w[k]}
    ensures multiset(Scatter.SlotsOf(w, hash))
            == multiset(Scatter.SlotsOf(w[..k] + w[k + 1..], hash)) + multiset{hash(w[k])}
  {
    assert w == w[..k] + ([w[k]] + w[k + 1..]);
    SlotsJoin(w[..k], [w[k]] + w[k + 1..], hash);
    SlotsJoin([w[k]], w[k + 1..], hash);
    SlotsJoin(w[..k], w[k + 1..], hash);
  }

  lemma SlotsJoin(a: seq<Id>, b: seq<Id>, hash: Id -> nat)
    ensures Scatter.SlotsOf(a + b, hash) == Scatter.SlotsOf(a, hash) + Scatter.SlotsOf(b, hash)
  {
  }

  /** Builds the index of one segment. The ids must all map inside the cell table, which the skew map
      guarantees for all but the all-ones code (`PackFormat.SkewMapInRange`). */
  method BuildSegment(ids: array<Id>, shadow: array?<Id>, l2: L2Hash) returns (status: BuildStatus, piece: IndexPiece)
    requires 0 < ids.Length < 0x1_0000_0000
    requires shadow != null ==> shadow != ids && shadow.Length == ids.Length
    requires forall x :: 0 <= x < ids.Length ==> BucketOf(ids.Length)(ids[x]) < L1Size(ids.Length)
    modifies ids
    modifies if shadow == null then {} else {shadow}
    ensures status in {Ok, Conflict, OutOfChance}
    ensures status == Ok ==> Perfect(piece, old(ids[..]), l2)
    ensures Explained(status, old(ids[..]), l2)
  {
    hide Grouped, Placed, Greedy, SetBits, Duplicates, ClashAt, StuckAt, Crowded, Perfect, Records, Indexes;
    ghost var all := ids[..];
    var size: u32 := ids.Length;
    var l1sz := L1Size(size);
    var hash := BucketOf(size);
    var level2 := Level2Of(l2, size);
    piece := IndexPiece(size, [], []);
    var sorted := L1Sort(ids, shadow, l1sz, hash);
    if sorted == null {
      return Conflict, piece;
    }
    StillInRange(all, sorted[..], hash, l1sz);
    var bitmap := new byte[BitmapSize(size)](_ => 0);
    var cells := new byte[l1sz](_ => 0);
    status := MapBuckets(sorted, bitmap, cells, hash, level2);
    if status != Ok {
      return;
    }
    SameLength(sorted[..], all);
    PlacedSize(sorted[..], cells[..], size, SetBits(bitmap[..]), hash, level2);
    var sections, step := BuildSections(bitmap, SectionSize(size));
    // The final self-check of the build never fires.
    assert step == size;
    piece := IndexPiece(size, cells[..], sections[..]);
    IndexesShaped(piece, bitmap[..]);
    PlacedIsRecorded(piece, sorted[..], l2, bitmap[..]);
    RecordsDistinct(piece, sorted[..], l2, bitmap[..]);
    DuplicatesPermuted(sorted[..], all);
    RecordsPermuted(piece, sorted[..], all, l2, bitmap[..]);
    RecordsArePerfect(piece, all, l2, bitmap[..]);
  }

  lemma SameLength(v: seq<Id>, w: seq<Id>)
    requires multiset(v) == multiset(w)
    ensures |v| == |w|
  {
    assert |v| == |multiset(v)| && |w| == |multiset(w)|;
  }

  lemma PlacedSize(v: seq<Id>, cells: seq<byte>, n: nat, bits: set<nat>, hash: Id -> nat, level2: Level2)
    requires Placed(v, cells, n, bits, hash, level2)
    ensures |bits| == n
  {
  }

  lemma IndexesShaped(piece: IndexPiece, bytes: seq<byte>)
    requires piece.size > 0 && |piece.cells| == L1Size(piece.size) && |piece.sections| == SectionSize(piece.size)
    requires Indexes(piece.sections, bytes, |piece.sections|)
    ensures piece.Shaped()
  {
    forall s | 0 <= s < |piece.sections| ensures piece.sections[s].Valid() {
      assert IndexesAt(piece.sections[s], bytes, s);
    }
  }

  lemma StillInRange(v: seq<Id>, w: seq<Id>, hash: Id -> nat, bound: nat)
    requires multiset(v) == multiset(w) && forall x :: 0 <= x < |v| ==> hash(v[x]) < bound
    ensures forall x :: 0 <= x < |w| ==> hash(w[x]) < bound
  {
    forall x | 0 <= x < |w| ensures hash(w[x]) < bound {
      assert w[x] in multiset(v);
      var i :| 0 <= i < |v| && v[i] == w[x];
    }
  }

  // ---- A conflict does not mean equal ids -------------------------------------------------------

  /** Twenty-two different ids that share one bucket. */
  function SameBucketIds(): (ids: seq<Id>)
    ensures |ids| == 22 && forall i :: 0 <= i < 22 ==> ids[i] == Id(i, 0, 0)
  {
    seq(22, i requires 0 <= i < 22 => Id(i, 0, 0))
  }

  /** One id more can be too many: these ids are pairwise distinct and all in one bucket, so every build of them
      reports a conflict. */
  lemma ConflictWithoutDuplicates(status: BuildStatus, l2: L2Hash)
    requires Explained(status, SameBucketIds(), l2)
    ensures !Duplicates(SameBucketIds()) && status == Conflict
  {
    hide Clash, Stuck;
    var ids, hash := SameBucketIds(), BucketOf(22);
    var slots := Scatter.SlotsOf(ids, hash);
    AllInOne(slots, hash(ids[0]), 22);
    assert BucketLoad(ids, hash, 0) == 22;
  }

  lemma {:induction false} AllInOne(slots: seq<nat>, b: nat, n: nat)
    requires n <= |slots| && forall i :: 0 <= i < |slots| ==> slots[i] == b
    ensures multiset(slots[..n])[b] == n
    ensures n == |slots| ==> multiset(slots)[b] == n
  {
    if n > 0 {
      AllInOne(slots, b, n - 1);
      assert slots[..n] == slots[..n - 1] + [b];
    }
    assert slots[..|slots|] == slots;
  }
}
