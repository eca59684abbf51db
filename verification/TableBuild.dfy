/** Splitting the ids into segments, building every segment, and the positions of the whole table. */
module TableBuild {
  import opened Words
  import opened Ids
  import opened Permutation
  import opened PackFormat
  import opened BucketSearch
  import opened Scatter
  import Reorder
  import opened CyclicShuffle
  import opened SegmentSort
  import opened SegmentBuild
  import opened MultiHead

  const MAX_SEGMENT: nat := 256

  // ---- The table --------------------------------------------------------------------------------

  datatype Table = Table(pieces: seq<IndexPiece>) {

    /** The number of items in the first `p` segments. */
    function Offset(p: nat): nat
      requires p <= |pieces|
    {
      if p == 0 then 0 else Offset(p - 1) + pieces[p - 1].size
    }

    function SegmentOf(id: Id): (p: nat)
      requires pieces != []
      ensures p < |pieces|
    {
      L0Hash(id) % |pieces|
    }

    /** Every cell lookup of the id stays inside the cells of its segment. */
    ghost predicate InRange(id: Id) {
      && pieces != [] && pieces[SegmentOf(id)].Shaped()
      && BucketOf(pieces[SegmentOf(id)].size)(id) < |pieces[SegmentOf(id)].cells|
    }

    /** The position of an id: the offset of its segment plus its rank there. */
    function Pos(id: Id, l2: L2Hash): nat
      requires InRange(id)
    {
      Offset(SegmentOf(id)) + pieces[SegmentOf(id)].LocalPos(id, l2)
    }

    lemma {:induction false} OffsetMonotone(p: nat, q: nat)
      requires p <= q <= |pieces|
      ensures Offset(p) <= Offset(q)
      decreases q
    {
      if p < q {
        OffsetMonotone(p, q - 1);
      }
    }
  }

  function SegmentHash(n: nat): (h: Id -> nat)
    requires n > 0
    ensures forall id :: h(id) == L0Hash(id) % n < n
  {
    id => L0Hash(id) % n
  }

  /** The ids of segment `p` when the buffer is grouped by segment. */
  function SliceOf(c: Config, v: seq<Id>, p: nat): seq<Id>
    requires p < c.n && |c.base| == c.n + 1 && c.base[p] <= c.base[p + 1] <= |v|
  {
    v[c.base[p]..c.base[p + 1]]
  }

  /** All segments of the grouped buffer are perfectly hashed. */
  ghost predicate AllPerfect(table: Table, c: Config, v: seq<Id>, l2: L2Hash, upTo: nat) {
    && c.Valid() && |v| == |c.ids| && upTo <= |table.pieces| <= c.n
    && forall p :: 0 <= p < upTo ==> SegmentPerfect(table, c, v, l2, p)
  }

  ghost predicate SegmentPerfect(table: Table, c: Config, v: seq<Id>, l2: L2Hash, p: nat) {
    && p < |table.pieces| <= c.n && |c.base| == c.n + 1 && c.base[p] <= c.base[p + 1] <= |v|
    && Perfect(table.pieces[p], SliceOf(c, v, p), l2)
  }

  lemma {:induction false} OffsetsAreBases(table: Table, c: Config, v: seq<Id>, l2: L2Hash, p: nat)
    requires AllPerfect(table, c, v, l2, |table.pieces|) && p <= |table.pieces|
    ensures table.Offset(p) == c.base[p]
  {
    hide Perfect;
    if p > 0 {
      OffsetsAreBases(table, c, v, l2, p - 1);
      assert SegmentPerfect(table, c, v, l2, p - 1);
      PerfectSize(table.pieces[p - 1], SliceOf(c, v, p - 1), l2);
    }
  }

  lemma PerfectSize(piece: IndexPiece, ids: seq<Id>, l2: L2Hash)
    requires Perfect(piece, ids, l2)
    ensures piece.size == |ids|
  {
  }

  /** A minimal perfect hash over all segments: distinct positions in `[0, total)` for the built ids, and
      at most `total` for any id whose cell lookup is in range. */
  ghost predicate TablePerfect(table: Table, ids: seq<Id>, l2: L2Hash) {
    && (forall x :: 0 <= x < |ids| ==> table.InRange(ids[x]) && table.Pos(ids[x], l2) < |ids|)
    && (forall x, y :: 0 <= x < y < |ids| ==> table.InRange(ids[x]) && table.InRange(ids[y])
                                              && table.Pos(ids[x], l2) != table.Pos(ids[y], l2))
    && (forall id :: table.InRange(id) ==> table.Pos(id, l2) <= |ids|)
  }

  /** Where the id at position `o` of the grouped buffer lives, and the position it gets. */
  lemma PosInStretch(table: Table, c: Config, v: seq<Id>, l2: L2Hash, o: nat)
    requires AllPerfect(table, c, v, l2, c.n) && GroupedBySegment(c, v) && o < |v|
    requires c.n > 0 && c.seg == SegmentHash(c.n)
    ensures |table.pieces| == c.n && table.InRange(v[o])
    ensures var p := table.SegmentOf(v[o]);
            && c.base[p] <= o < c.base[p + 1] <= |v|
            && SliceOf(c, v, p)[o - c.base[p]] == v[o]
            && table.Pos(v[o], l2) == c.base[p] + table.pieces[p].LocalPos(v[o], l2) < c.base[p + 1]
  {
    hide IndexPiece.LocalPos, Config.Members;
    assert InOwnStretch(c, v[o], o);
    var p := table.SegmentOf(v[o]);
    assert SegmentPerfect(table, c, v, l2, p);
    OffsetsAreBases(table, c, v, l2, p);
    var s := SliceOf(c, v, p);
    assert s[o - c.base[p]] == v[o];
  }

  lemma TableIsPerfect(table: Table, c: Config, v: seq<Id>, l2: L2Hash)
    requires AllPerfect(table, c, v, l2, c.n) && GroupedBySegment(c, v) && c.n > 0 && c.seg == SegmentHash(c.n)
    ensures TablePerfect(table, v, l2)
  {
    hide Perfect, IndexPiece.LocalPos, Table.Pos, AllPerfect, GroupedBySegment, Config.Members;
    forall x | 0 <= x < |v| ensures table.InRange(v[x]) && table.Pos(v[x], l2) < |v| {
      PosInStretch(table, c, v, l2, x);
    }
    forall x, y | 0 <= x < y < |v|
      ensures table.InRange(v[x]) && table.InRange(v[y]) && table.Pos(v[x], l2) != table.Pos(v[y], l2)
    {
      PosInStretch(table, c, v, l2, x);
      PosInStretch(table, c, v, l2, y);
      PositionsDiffer(table, c, v, l2, x, y);
    }
    forall id | table.InRange(id) ensures table.Pos(id, l2) <= |v| {
      ForeignPos(table, c, v, l2, id);
    }
  }

  lemma LocalPositionsDiffer(table: Table, c: Config, v: seq<Id>, l2: L2Hash, p: nat, x: nat, y: nat)
    requires SegmentPerfect(table, c, v, l2, p) && c.base[p] <= x < y < c.base[p + 1]
    requires table.pieces[p].Shaped() && BucketOf(table.pieces[p].size)(v[x]) < |table.pieces[p].cells|
    requires BucketOf(table.pieces[p].size)(v[y]) < |table.pieces[p].cells|
    ensures table.pieces[p].LocalPos(v[x], l2) != table.pieces[p].LocalPos(v[y], l2)
  {
    hide IndexPiece.LocalPos;
    var s := SliceOf(c, v, p);
    assert s[x - c.base[p]] == v[x] && s[y - c.base[p]] == v[y];
  }

  lemma PositionsDiffer(table: Table, c: Config, v: seq<Id>, l2: L2Hash, x: nat, y: nat)
    requires AllPerfect(table, c, v, l2, c.n) && GroupedBySegment(c, v) && x < y < |v|
    requires c.n > 0 && c.seg == SegmentHash(c.n)
    requires table.InRange(v[x]) && table.InRange(v[y])
    ensures table.Pos(v[x], l2) != table.Pos(v[y], l2)
  {
    hide IndexPiece.LocalPos, Table.Pos, Config.Members, SegmentPerfect, GroupedBySegment;
    PosInStretch(table, c, v, l2, x);
    PosInStretch(table, c, v, l2, y);
    var p, q := table.SegmentOf(v[x]), table.SegmentOf(v[y]);
    if p == q {
      assert SegmentPerfect(table, c, v, l2, p);
      LocalPositionsDiffer(table, c, v, l2, p, x, y);
    } else if p < q {
      BaseMonotone(c, p + 1, q);
    } else {
      BaseMonotone(c, q + 1, p);
    }
  }

  lemma ForeignPos(table: Table, c: Config, v: seq<Id>, l2: L2Hash, id: Id)
    requires AllPerfect(table, c, v, l2, c.n) && table.InRange(id)
    ensures table.Pos(id, l2) <= |v|
  {
    hide IndexPiece.LocalPos, Config.Members;
    var p := table.SegmentOf(id);
    assert SegmentPerfect(table, c, v, l2, p);
    OffsetsAreBases(table, c, v, l2, p);
    BaseMonotone(c, p + 1, c.n);
  }

  function TablePositions(table: Table, ids: seq<Id>, l2: L2Hash): (f: seq<nat>)
    requires forall x :: 0 <= x < |ids| ==> table.InRange(ids[x])
    ensures |f| == |ids| && forall x :: 0 <= x < |ids| ==> f[x] == table.Pos(ids[x], l2)
  {
    seq(|ids|, x requires 0 <= x < |ids| => table.Pos(ids[x], l2) as nat)
  }

  /** The headline property: a built table maps its ids one-to-one onto `[0, total)`. */
  lemma TableIsBijective(table: Table, ids: seq<Id>, l2: L2Hash)
    requires TablePerfect(table, ids, l2)
    ensures !Duplicates(ids)
    ensures Injective(TablePositions(table, ids, l2)) && Bounded(TablePositions(table, ids, l2), |ids|)
    ensures forall p :: 0 <= p < |ids| ==> p in TablePositions(table, ids, l2)
  {
    hide Table.Pos, Table.InRange;
    Onto(TablePositions(table, ids, l2));
  }

  /** Perfection does not depend on the order in which the ids are listed. */
  lemma TablePerfectPermuted(table: Table, v: seq<Id>, w: seq<Id>, l2: L2Hash)
    requires TablePerfect(table, v, l2) && multiset(v) == multiset(w)
    ensures TablePerfect(table, w, l2)
  {
    hide Table.Pos, Table.InRange;
    assert |v| == |multiset(v)| == |multiset(w)| == |w|;
    TableIsBijective(table, v, l2);
    DuplicatesPermuted(v, w);
    forall y | 0 <= y < |w| ensures exists x :: 0 <= x < |v| && v[x] == w[y] {
      assert w[y] in multiset(v);
    }
  }

  // ---- Grouping the ids by segment --------------------------------------------------------------

  lemma {:induction false} LoadIsCount(v: seq<Id>, hash: Id -> nat, p: nat)
    ensures |set g | 0 <= g < |v| && hash(v[g]) == p| == multiset(SlotsOf(v, hash))[p]
  {
    var all := set g | 0 <= g < |v| && hash(v[g]) == p;
    if v == [] {
      assert all == {} && SlotsOf(v, hash) == [];
    } else {
      var u, x := v[..|v| - 1], v[|v| - 1];
      LoadIsCount(u, hash, p);
      assert SlotsOf(v, hash) == SlotsOf(u, hash) + [hash(x)];
      assert all == (set g | 0 <= g < |u| && hash(u[g]) == p) + (if hash(x) == p then {|v| - 1} else {});
    }
  }

  lemma MembersAreLoad(c: Config, p: nat)
    ensures |c.Members(p)| == multiset(SlotsOf(c.ids, c.seg))[p]
  {
    LoadIsCount(c.ids, c.seg, p);
    assert c.Members(p) == set g | 0 <= g < |c.ids| && c.seg(c.ids[g]) == p;
  }

  lemma BasesTile(c: Config)
    requires c.Valid()
    ensures Tiled(c.base[..c.n], SlotsOf(c.ids, c.seg), |c.ids|)
  {
    hide Config.Members;
    var start, slots := c.base[..c.n], SlotsOf(c.ids, c.seg);
    forall p | 0 <= p < c.n ensures start[p] + multiset(SlotsOf(c.ids, c.seg))[p] == c.base[p + 1] <= |c.ids| {
      MembersAreLoad(c, p);
      BaseMonotone(c, p + 1, c.n);
      assert c.base[p] + |c.Members(p)| == c.base[p + 1];
    }
    forall s, r | 0 <= s < c.n && 0 <= r < c.n && s != r
      ensures start[s] + multiset(SlotsOf(c.ids, c.seg))[s] <= start[r]
              || start[r] + multiset(SlotsOf(c.ids, c.seg))[r] <= start[s]
    {
      if s < r {
        BaseMonotone(c, s + 1, r);
      } else {
        BaseMonotone(c, r + 1, s);
      }
    }
  }

  lemma ScatteredIsGrouped(c: Config, w: seq<Id>)
    requires c.Valid() && |w| == |c.ids| && Tiled(c.base[..c.n], SlotsOf(c.ids, c.seg), |c.ids|)
    requires forall i :: 0 <= i < |c.ids| ==>
               Dest(c.base[..c.n], SlotsOf(c.ids, c.seg), i) < |w|
               && w[Dest(c.base[..c.n], SlotsOf(c.ids, c.seg), i)] == c.ids[i]
    ensures GroupedBySegment(c, w)
  {
    hide Config.Members, Dest, Tiled;
    var start, slots := c.base[..c.n], SlotsOf(c.ids, c.seg);
    var f := DestSeqOf(start, slots, |w|);
    forall o | 0 <= o < |w| ensures InOwnStretch(c, w[o], o) {
      assert o in f;
      var i :| 0 <= i < |f| && f[i] == o;
      TiledBounded(start, slots, |w|);
      DestExact(start, slots, i);
      MembersAreLoad(c, slots[i]);
      assert c.base[slots[i]] + |c.Members(slots[i])| == c.base[slots[i] + 1];
    }
  }

  /** The scatter with one head: the ring-buffered stable scatter into the shadow. */
  method PartitionShadow(c: Config, shadow: array<Id>)
    requires c.Valid() && shadow.Length == |c.ids|
    modifies shadow
    ensures multiset(shadow[..]) == multiset(c.ids) && GroupedBySegment(c, shadow[..])
  {
    hide Config.Members, Dest, Tiled, DestsInside, GroupedBySegment;
    var offset := new nat[c.n](i requires 0 <= i < c.n && |c.base| == c.n + 1 => c.base[i]);
    assert offset[..] == c.base[..c.n];
    BasesTile(c);
    TiledBounded(c.base[..c.n], SlotsOf(c.ids, c.seg), |c.ids|);
    ScatterRearranges(shadow[..], c.ids, c.base[..c.n], SlotsOf(c.ids, c.seg));
    ShuffleInto(c.ids, shadow, c.seg, offset);
    Reorder.DestInsideAll(c.base[..c.n], SlotsOf(c.ids, c.seg), |c.ids|);
    ScatteredIsGrouped(c, shadow[..]);
  }

  ghost function SegmentAt(c: Config, o: nat, upTo: nat): (p: nat)
    requires c.Valid() && upTo <= c.n && o < c.base[upTo]
    ensures p < upTo && c.base[p] <= o < c.base[p + 1]
    decreases upTo
  {
    if o >= c.base[upTo - 1] then upTo - 1 else SegmentAt(c, o, upTo - 1)
  }

  ghost function SegmentRegions(c: Config): Regions
    requires c.Valid()
  {
    Regions(map o | 0 <= o < |c.ids| :: SegmentAt(c, o, c.n), c.base[1..], Interval(0, c.n), c.seg)
  }

  lemma SegmentSpan(c: Config, p: nat)
    requires c.Valid() && p < c.n
    ensures c.base[p] <= c.base[p + 1] <= |c.ids|
  {
    BaseMonotone(c, p, p + 1);
    BaseMonotone(c, p + 1, c.n);
  }

  lemma SegmentOwns(c: Config, p: nat, x: nat)
    requires c.Valid() && p < c.n && c.base[p] <= x < c.base[p + 1]
    ensures x < |c.ids| && x in SegmentRegions(c).owner && SegmentRegions(c).owner[x] == p
  {
    hide Config.Members;
    SegmentSpan(c, p);
    StretchUnique(c, p, SegmentAt(c, x, c.n), x);
  }

  lemma SegmentRegionsAre(c: Config)
    requires c.Valid()
    ensures var g := SegmentRegions(c);
            && |c.base| == c.n + 1 && g.border == c.base[1..] && g.buckets == Interval(0, c.n) && g.hash == c.seg
            && (forall x :: 0 <= x < |c.ids| ==> x in g.owner)
            && forall x :: x in g.owner ==> x < |c.ids| && g.owner[x] < c.n
                                            && c.base[g.owner[x]] <= x < c.base[g.owner[x] + 1]
  {
    hide Config.Members;
  }

  lemma SegmentRegionsDescribe(c: Config)
    requires c.Valid()
    ensures SegmentRegions(c).Describes(c.base[..c.n], |c.ids|) && SegmentRegions(c).InBounds(|c.ids|)
  {
    hide Config.Members, SegmentRegions, Interval, Config.Valid, Regions.Describes;
    SegmentRegionsAre(c);
    SegmentRegionsCover(c);
  }

  lemma SegmentRegionsCover(c: Config)
    requires c.Valid()
    ensures SegmentRegions(c).Describes(c.base[..c.n], |c.ids|)
  {
    hide Config.Members, SegmentRegions, Interval, Config.Valid;
    SegmentRegionsAre(c);
    var g, start := SegmentRegions(c), c.base[..c.n];
    forall p | 0 <= p < c.n ensures start[p] <= g.border[p] <= |c.ids| {
      SegmentSpan(c, p);
    }
    forall p, x | 0 <= p < c.n && start[p] <= x < g.border[p] ensures x in g.owner && g.owner[x] == p {
      SegmentOwns(c, p, x);
    }
  }

  lemma SegmentRegionsBalance(c: Config)
    requires c.Valid()
    ensures SegmentRegions(c).Balanced(c.ids, c.base[..c.n])
  {
    hide Regions.Describes;
    var g, off := SegmentRegions(c), c.base[..c.n];
    SegmentRegionsDescribe(c);
    forall q | 0 <= q < c.n ensures off[q] <= g.border[q] && g.Count(c.ids, g.Open(off), q) == g.border[q] - off[q] {
      SegmentCount(c, q);
    }
  }

  lemma SegmentCount(c: Config, q: nat)
    requires c.Valid() && q < c.n
    ensures var g, off := SegmentRegions(c), c.base[..c.n];
            g.Count(c.ids, g.Open(off), q) == |c.Members(q)|
  {
    var g, off := SegmentRegions(c), c.base[..c.n];
    assert (set x | x in g.Open(off) && x < |c.ids| && c.seg(c.ids[x]) == q) == c.Members(q);
  }

  /** The partition without extra memory: the in-place cyclic shuffle over the segments. */
  method PartitionInPlace(ids: array<Id>, c: Config)
    requires c.Valid() && c.ids == ids[..]
    modifies ids
    ensures multiset(ids[..]) == multiset(c.ids) && GroupedBySegment(c, ids[..])
  {
    hide Config.Members, Regions.Balanced, Regions.Describes, SegmentRegions, Interval, GroupedBySegment;
    var offset := new nat[c.n](i requires 0 <= i < c.n && |c.base| == c.n + 1 => c.base[i]);
    assert offset[..] == c.base[..c.n];
    var order := Identity(c.n);
    ghost var g := SegmentRegions(c);
    SegmentRegionsAre(c);
    SegmentRegionsDescribe(c);
    SegmentRegionsBalance(c);
    IdentitySet(c.n);
    ShuffleInOrder(ids, c.seg, offset, c.base[1..], order, g);
    OwnedIsGrouped(c, ids[..]);
  }

  lemma OwnedIsGrouped(c: Config, v: seq<Id>)
    requires c.Valid() && |v| == |c.ids|
    requires forall o :: o in SegmentRegions(c).owner ==> o < |v| && c.seg(v[o]) == SegmentRegions(c).owner[o]
    ensures GroupedBySegment(c, v)
  {
    hide Config.Members, SegmentRegions;
    SegmentRegionsAre(c);
    forall o | 0 <= o < |v| ensures InOwnStretch(c, v[o], o) {
      assert o in SegmentRegions(c).owner;
    }
  }

  lemma IdentitySet(n: nat)
    ensures (set p | p in Identity(n)) == Interval(0, n)
  {
    forall p | 0 <= p < n ensures p in Identity(n) {
      assert Identity(n)[p] == p;
    }
  }

  // ---- Building all segments --------------------------------------------------------------------

  /** How the statuses of the segments combine: a conflict anywhere wins over running out of seeds. */
  function Combine(sofar: BuildStatus, part: BuildStatus): BuildStatus {
    if part == Conflict then Conflict
    else if part == OutOfChance && sofar != Conflict then OutOfChance
    else sofar
  }

  /** Every id is in range of the cells of its segment. */
  ghost predicate CellsInRange(c: Config, v: seq<Id>) {
    forall g :: 0 <= g < |v| ==> CellInRange(c, v[g])
  }

  ghost predicate CellInRange(c: Config, id: Id) {
    && c.seg(id) < c.n && |c.base| == c.n + 1
    && var size := c.base[c.seg(id) + 1] as int - c.base[c.seg(id)];
       0 < size < 0x1_0000_0000 ==> BucketOf(size)(id) < L1Size(size)
  }

  lemma InRangePermuted(c: Config, v: seq<Id>)
    requires CellsInRange(c, c.ids) && multiset(v) == multiset(c.ids)
    ensures CellsInRange(c, v)
  {
    hide CellInRange;
    forall g | 0 <= g < |v| ensures CellInRange(c, v[g]) {
      assert v[g] in multiset(v);
      assert v[g] in c.ids;
    }
  }

  /** The segments have the recorded sizes, and there is an item for every id. */
  ghost predicate Complete(table: Table, total: nat) {
    && 0 < |table.pieces| <= MAX_SEGMENT && table.Offset(|table.pieces|) == total
    && forall p :: 0 <= p < |table.pieces| ==> table.pieces[p].Shaped()
  }

  lemma AllPerfectComplete(table: Table, c: Config, v: seq<Id>, l2: L2Hash)
    requires AllPerfect(table, c, v, l2, c.n) && 0 < c.n <= MAX_SEGMENT
    ensures Complete(table, |c.ids|)
  {
    OffsetsAreBases(table, c, v, l2, c.n);
    forall p | 0 <= p < c.n ensures table.pieces[p].Shaped() {
      assert SegmentPerfect(table, c, v, l2, p);
    }
  }

  // ---- How the outcomes of the segments combine -------------------------------------------------

  /** The ids of segment `p`, in their order. */
  ghost function IdsOfSegment(ids: seq<Id>, seg: Id -> nat, p: nat): (s: seq<Id>) {
    if ids == [] then []
    else IdsOfSegment(ids[..|ids| - 1], seg, p) + if seg(ids[|ids| - 1]) == p then [ids[|ids| - 1]] else []
  }

  lemma {:induction false} IdsOfSegmentJoin(a: seq<Id>, b: seq<Id>, seg: Id -> nat, p: nat)
    ensures IdsOfSegment(a + b, seg, p) == IdsOfSegment(a, seg, p) + IdsOfSegment(b, seg, p)
  {
    if b == [] {
      assert a + b == a;
    } else {
      IdsOfSegmentJoin(a, b[..|b| - 1], seg, p);
      assert (a + b)[..|a + b| - 1] == a + b[..|b| - 1];
    }
  }

  lemma {:induction false} IdsOfSegmentBag(ids: seq<Id>, seg: Id -> nat, p: nat, x: Id)
    ensures multiset(IdsOfSegment(ids, seg, p))[x] == if seg(x) == p then multiset(ids)[x] else 0
  {
    if ids != [] {
      IdsOfSegmentBag(ids[..|ids| - 1], seg, p, x);
      assert ids == ids[..|ids| - 1] + [ids[|ids| - 1]];
    }
  }

  lemma {:induction false} AllOfSegment(ids: seq<Id>, seg: Id -> nat, p: nat, all: bool)
    requires forall x :: 0 <= x < |ids| ==> ((seg(ids[x]) == p) == all)
    ensures IdsOfSegment(ids, seg, p) == if all then ids else []
  {
    if ids != [] {
      AllOfSegment(ids[..|ids| - 1], seg, p, all);
    }
  }

  /** The stretch of a segment holds exactly its ids. */
  lemma SliceIsSegment(c: Config, v: seq<Id>, p: nat)
    requires c.Valid() && GroupedBySegment(c, v) && multiset(v) == multiset(c.ids) && p < c.n
    requires |c.base| == c.n + 1 && c.base[p] <= c.base[p + 1] <= |v|
    ensures multiset(SliceOf(c, v, p)) == multiset(IdsOfSegment(c.ids, c.seg, p))
  {
    hide Config.Members, Config.Valid, GroupedBySegment, IdsOfSegment;
    var lo, hi := c.base[p], c.base[p + 1];
    var a, s, b := v[..lo], v[lo..hi], v[hi..];
    forall x | 0 <= x < |v| ensures c.seg(v[x]) == p <==> lo <= x < hi {
      SegmentAtSlot(c, v, p, x);
    }
    assert v == a + (s + b);
    IdsOfSegmentJoin(a, s + b, c.seg, p);
    IdsOfSegmentJoin(s, b, c.seg, p);
    AllOfSegment(a, c.seg, p, false);
    AllOfSegment(s, c.seg, p, true);
    AllOfSegment(b, c.seg, p, false);
    SameSegmentBag(v, c.ids, c.seg, p);
  }

  lemma SegmentAtSlot(c: Config, v: seq<Id>, p: nat, x: nat)
    requires c.Valid() && GroupedBySegment(c, v) && p < c.n && x < |v|
    ensures c.seg(v[x]) == p <==> c.base[p] <= x < c.base[p + 1]
  {
    hide Config.Members;
    assert InOwnStretch(c, v[x], x);
    if c.base[p] <= x < c.base[p + 1] {
      StretchUnique(c, c.seg(v[x]), p, x);
    }
  }

  lemma SameSegmentBag(v: seq<Id>, w: seq<Id>, seg: Id -> nat, p: nat)
    requires multiset(v) == multiset(w)
    ensures multiset(IdsOfSegment(v, seg, p)) == multiset(IdsOfSegment(w, seg, p))
  {
    forall x ensures multiset(IdsOfSegment(v, seg, p))[x] == multiset(IdsOfSegment(w, seg, p))[x] {
      IdsOfSegmentBag(v, seg, p, x);
      IdsOfSegmentBag(w, seg, p, x);
    }
  }

  /** The status of the whole: a conflict in any segment wins over running out of seeds, which wins over OK. */
  function Combined(parts: seq<BuildStatus>): BuildStatus {
    if parts == [] then Ok else Combine(Combined(parts[..|parts| - 1]), parts[|parts| - 1])
  }

  lemma {:induction false} CombinedExact(parts: seq<BuildStatus>)
    requires forall p :: 0 <= p < |parts| ==> parts[p] in {Ok, Conflict, OutOfChance}
    ensures Combined(parts) == Conflict <==> Conflict in parts
    ensures Combined(parts) == OutOfChance <==> OutOfChance in parts && Conflict !in parts
    ensures Combined(parts) == Ok <==> forall p :: 0 <= p < |parts| ==> parts[p] == Ok
  {
    if parts != [] {
      CombinedExact(parts[..|parts| - 1]);
    }
  }

  /** Every segment ends for its own reason, and the status of the whole is the combination. */
  ghost predicate Outcome(c: Config, l2: L2Hash, status: BuildStatus) {
    exists parts: seq<BuildStatus> :: OutcomeOf(c, l2, status, parts)
  }

  ghost predicate OutcomeOf(c: Config, l2: L2Hash, status: BuildStatus, parts: seq<BuildStatus>) {
    && |parts| == c.n && status == Combined(parts)
    && forall p :: 0 <= p < c.n ==> Explained(parts[p], IdsOfSegment(c.ids, c.seg, p), l2)
  }

  /** Builds every segment of the grouped buffer. The segments share no memory, so the order of their
      threads does not matter. */
  method BuildPieces(c: Config, v: seq<Id>, extra: bool, l2: L2Hash) returns (status: BuildStatus, table: Table)
    requires 0 < c.n && c.Valid() && |v| == |c.ids| && GroupedBySegment(c, v) && CellsInRange(c, v)
    requires multiset(v) == multiset(c.ids)
    requires forall p :: 0 <= p < c.n ==> 0 < c.base[p + 1] - c.base[p] < 0x1_0000_0000
    ensures status in {Ok, Conflict, OutOfChance} && Outcome(c, l2, status)
    ensures status == Ok ==> AllPerfect(table, c, v, l2, c.n) && |table.pieces| == c.n
  {
    hide Config.Members, Perfect, GroupedBySegment, CellsInRange, SegmentPerfect, Explained, IdsOfSegment;
    status := Ok;
    table := Table([]);
    ghost var parts: seq<BuildStatus> := [];
    for p := 0 to c.n
      invariant |table.pieces| == p == |parts| && status in {Ok, Conflict, OutOfChance}
      invariant status == Ok ==> AllPerfect(table, c, v, l2, p)
      invariant status == Combined(parts)
      invariant forall q :: 0 <= q < p ==> Explained(parts[q], IdsOfSegment(c.ids, c.seg, q), l2)
    {
      BaseMonotone(c, p + 1, c.n);
      var slice := v[c.base[p]..c.base[p + 1]];
      var ids := new Id[|slice|](i requires 0 <= i < |slice| => slice[i]);
      assert ids[..] == slice;
      var shadow: array?<Id> := null;
      if extra {
        shadow := new Id[|slice|](_ => Id(0, 0, 0));
      }
      SliceInRange(c, v, p, ids);
      var part, piece := BuildSegment(ids, shadow, l2);
      ghost var before := table;
      table := Table(table.pieces + [piece]);
      if status == Ok && part == Ok {
        AllPerfectStep(before, c, v, l2, p, piece);
      }
      status := Combine(status, part);
      SliceIsSegment(c, v, p);
      ExplainedPermuted(part, slice, IdsOfSegment(c.ids, c.seg, p), l2);
      CombinedMore(parts, part);
      parts := parts + [part];
    }
    assert OutcomeOf(c, l2, status, parts);
  }

  lemma CombinedMore(parts: seq<BuildStatus>, part: BuildStatus)
    ensures Combined(parts + [part]) == Combine(Combined(parts), part)
  {
  }

  lemma SliceInRange(c: Config, v: seq<Id>, p: nat, ids: array<Id>)
    requires GroupedBySegment(c, v) && CellsInRange(c, v)
    requires p < c.n && c.base[p] <= c.base[p + 1] <= |v| && ids[..] == SliceOf(c, v, p)
    requires 0 < c.base[p + 1] - c.base[p] < 0x1_0000_0000
    ensures 0 < ids.Length < 0x1_0000_0000
    ensures forall x :: 0 <= x < ids.Length ==> BucketOf(ids.Length)(ids[x]) < L1Size(ids.Length)
  {
    hide Config.Members;
    assert ids.Length == c.base[p + 1] - c.base[p];
    forall x | 0 <= x < ids.Length ensures BucketOf(ids.Length)(ids[x]) < L1Size(ids.Length) {
      assert ids[x] == ids[..][x] == v[c.base[p] + x];
      assert InOwnStretch(c, v[c.base[p] + x], c.base[p] + x) && CellInRange(c, v[c.base[p] + x]);
      StretchUnique(c, c.seg(ids[x]), p, c.base[p] + x);
    }
  }

  lemma AllPerfectStep(table: Table, c: Config, v: seq<Id>, l2: L2Hash, p: nat, piece: IndexPiece)
    requires AllPerfect(table, c, v, l2, p) && |table.pieces| == p < c.n && c.base[p] <= c.base[p + 1] <= |v|
    requires Perfect(piece, SliceOf(c, v, p), l2)
    ensures AllPerfect(Table(table.pieces + [piece]), c, v, l2, p + 1)
  {
    hide Perfect, Config.Members;
    var after := Table(table.pieces + [piece]);
    forall q | 0 <= q < p + 1 ensures SegmentPerfect(after, c, v, l2, q) {
      if q < p {
        assert SegmentPerfect(table, c, v, l2, q);
      }
    }
  }

  /** Whatever grouped arrangement the partition produced, the build of its segments is perfect for the ids. */
  method BuildPartitioned(c: Config, v: seq<Id>, extra: bool, l2: L2Hash) returns (status: BuildStatus, table: Table)
    requires 0 < c.n <= MAX_SEGMENT && c.seg == SegmentHash(c.n)
    requires GroupedBySegment(c, v) && multiset(v) == multiset(c.ids)
    requires CellsInRange(c, c.ids) && forall p :: 0 <= p < c.n ==> 0 < c.base[p + 1] - c.base[p] < 0x1_0000_0000
    ensures status in {Ok, Conflict, OutOfChance} && Outcome(c, l2, status)
    ensures status == Ok ==> TablePerfect(table, c.ids, l2) && Complete(table, |c.ids|) && |table.pieces| == c.n
  {
    hide Config.Members, CellsInRange, AllPerfect, TablePerfect, Complete, InOwnStretch, Outcome;
    InRangePermuted(c, v);
    status, table := BuildPieces(c, v, extra, l2);
    if status == Ok {
      TableIsPerfect(table, c, v, l2);
      TablePerfectPermuted(table, v, c.ids, l2);
      AllPerfectComplete(table, c, v, l2);
    }
  }

  /** How many threads scatter when there is a shadow: one per million items of the smallest segment. */
  function Heads(smallest: nat, n: nat): (h: nat)
    requires n > 0
    ensures h > 0
  {
    var heads := smallest / 0x10_0000;
    if heads <= 1 then 1 else Min(heads, n)
  }

  function Smallest(base: seq<nat>, n: nat): nat
    requires 0 < n && n + 1 <= |base|
  {
    var size := if base[n] >= base[n - 1] then base[n] - base[n - 1] else 0;
    if n == 1 then size else Min(size, Smallest(base, n - 1))
  }

  /** The shadow as the joined threads of a run leave it. */
  ghost predicate LeftByRun(c: Config, run: seq<State>, joined: seq<Id>) {
    && Run(c, run) && Joined(c, run[|run| - 1]) && |joined| == |c.ids|
    && forall o :: 0 <= o < |joined| && o in run[|run| - 1].shadow ==> joined[o] == run[|run| - 1].shadow[o]
  }

  lemma RunLeavesGrouped(c: Config, run: seq<State>, joined: seq<Id>)
    requires LeftByRun(c, run, joined)
    ensures multiset(joined) == multiset(c.ids) && GroupedBySegment(c, joined)
  {
    hide Joined, GroupedBySegment;
    EveryRunScatters(c, run);
    assert joined == ShadowSeq(run[|run| - 1], |c.ids|);
  }

  /** The build with several segments: sizes are checked, the ids are partitioned in one of three ways, and
      every segment is built. With several heads the partition is concurrent: `joined` is what the threads
      left in the shadow, in any interleaving `run`. */
  method BuildTable(ids: array<Id>, shadow: array?<Id>, c: Config, l2: L2Hash, joined: seq<Id>, ghost run: seq<State>)
    returns (status: BuildStatus, table: Table)
    requires c.Valid() && c.ids == ids[..] && 1 < c.n <= MAX_SEGMENT && c.seg == SegmentHash(c.n)
    requires c.heads == Heads(Smallest(c.base, c.n), c.n)
    requires shadow != null ==> shadow != ids && shadow.Length == ids.Length
    requires shadow != null && c.heads > 1 ==> LeftByRun(c, run, joined)
    requires CellsInRange(c, c.ids)
    modifies ids
    modifies if shadow == null then {} else {shadow}
    ensures status in {Ok, BadInput, Conflict, OutOfChance}
    ensures status == BadInput <==>
            exists p :: 0 <= p < c.n && (c.base[p + 1] == c.base[p] || c.base[p + 1] - c.base[p] >= 0x1_0000_0000)
    ensures status != BadInput ==> Outcome(c, l2, status)
    ensures status == Ok ==>
              TablePerfect(table, old(ids[..]), l2) && Complete(table, ids.Length) && |table.pieces| == c.n
  {
    hide Config.Members, GroupedBySegment, CellsInRange, TablePerfect, LeftByRun, Complete, Outcome;
    table := Table([]);
    for p := 0 to c.n
      invariant ids[..] == c.ids
      invariant forall q :: 0 <= q < p ==> 0 < c.base[q + 1] - c.base[q] < 0x1_0000_0000
    {
      BaseMonotone(c, p, p + 1);
      if c.base[p + 1] == c.base[p] || c.base[p + 1] - c.base[p] >= 0x1_0000_0000 {
        return BadInput, table;
      }
    }
    var v: seq<Id>;
    if shadow == null {
      PartitionInPlace(ids, c);
      v := ids[..];
    } else if c.heads <= 1 {
      PartitionShadow(c, shadow);
      v := shadow[..];
    } else {
      RunLeavesGrouped(c, run, joined);
      v := joined;
    }
    status, table := BuildPartitioned(c, v, shadow != null, l2);
  }

  /** A table of one segment inherits the perfection of that segment. */
  lemma SingleIsPerfect(piece: IndexPiece, ids: seq<Id>, l2: L2Hash)
    requires Perfect(piece, ids, l2)
    ensures TablePerfect(Table([piece]), ids, l2) && Complete(Table([piece]), |ids|)
  {
    hide IndexPiece.LocalPos;
    var table := Table([piece]);
    assert table.Offset(0) == 0 && table.Offset(1) == table.Offset(0) + piece.size;
    assert forall id :: table.SegmentOf(id) == 0;
  }
}
