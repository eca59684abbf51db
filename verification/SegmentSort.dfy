/** The bucket sort of a segment: marking, reordering, and one of three shuffles. */
module SegmentSort {
  import opened Words
  import opened Ids
  import opened Permutation
  import opened Scatter
  import opened Reorder
  import opened Localize

  /** The bound on bucket sizes that the recursion relies on. */
  function BucketLimit(l1sz: nat): nat {
    Min(l1sz + 16, 0xffff)
  }

  /** How many of the ids share the bucket of the id at `x`. */
  ghost function BucketLoad(v: seq<Id>, hash: Id -> nat, x: nat): nat
    requires x < |v|
  {
    multiset(SlotsOf(v, hash))[hash(v[x])]
  }

  /** Some bucket holds more than 65535 ids, or more than 16 beyond the number of cells. */
  ghost predicate Crowded(v: seq<Id>, hash: Id -> nat, cells: nat) {
    exists x :: 0 <= x < |v| && (BucketLoad(v, hash, x) > 65535 || BucketLoad(v, hash, x) > cells + 16)
  }

  lemma CrowdedIs(v: seq<Id>, hash: Id -> nat, cells: nat)
    ensures Crowded(v, hash, cells) <==> exists x :: 0 <= x < |v| && BucketLoad(v, hash, x) > BucketLimit(cells)
  {
    hide BucketLoad;
    if Crowded(v, hash, cells) {
      var x :| 0 <= x < |v| && (BucketLoad(v, hash, x) > 65535 || BucketLoad(v, hash, x) > cells + 16);
      assert BucketLoad(v, hash, x) > BucketLimit(cells);
    }
  }

  lemma MaxIsLargestLoad(v: seq<Id>, hash: Id -> nat, zeros: seq<nat>, cnt: seq<nat>, max: nat, cells: nat)
    requires v != [] && Bounded(SlotsOf(v, hash), |zeros|) && forall s :: 0 <= s < |zeros| ==> zeros[s] == 0
    requires cnt == CountsAfter(zeros, SlotsOf(v, hash), |v|) && max == MaxAfter(zeros, SlotsOf(v, hash), |v|)
    ensures max > BucketLimit(cells) <==> Crowded(v, hash, cells)
    ensures forall s :: 0 <= s < |cnt| ==> cnt[s] == multiset(SlotsOf(v, hash))[s] && cnt[s] <= max
  {
    hide CountsAfter, MaxAfter, Crowded, BucketLimit;
    CrowdedIs(v, hash, cells);
    var slots := SlotsOf(v, hash);
    CountsExact(zeros, slots, |slots|);
    MaxExact(zeros, slots, |slots|);
    assert slots[..|slots|] == slots;
    forall x | 0 <= x < |v| ensures BucketLoad(v, hash, x) <= max {
      assert slots[x] == hash(v[x]);
    }
    var i :| 0 <= i < |v| && cnt[slots[i]] == max;
    assert BucketLoad(v, hash, i) == max;
    forall s | 0 <= s < |cnt| ensures cnt[s] <= max {
      if s in multiset(slots) {
        var x :| 0 <= x < |slots| && slots[x] == s;
      }
    }
  }

  // ---- From ranges to an arrangement ------------------------------------------------------------

  /** Where the stretch of each rank starts, and where the last one ends. */
  ghost function EdgeAt(range: seq<L1Mark>, sorted: seq<L1Mark>, r: nat): nat
    requires r <= |range| == |sorted| && range != []
    requires forall k :: 0 <= k < |sorted| ==> sorted[k].idx < |range|
  {
    if r < |range| then range[BucketAt(sorted, r)].idx else range[BucketAt(sorted, |range| - 1)].val
  }

  ghost function EdgesOf(range: seq<L1Mark>, sorted: seq<L1Mark>): (edge: seq<nat>)
    requires |range| == |sorted| && range != [] && forall k :: 0 <= k < |sorted| ==> sorted[k].idx < |range|
    ensures |edge| == |range| + 1 && forall r :: 0 <= r <= |range| ==> edge[r] == EdgeAt(range, sorted, r)
  {
    seq(|range| + 1, r requires 0 <= r <= |range| => EdgeAt(range, sorted, r) as nat)
  }

  lemma EdgesMatch(range: seq<L1Mark>, sorted: seq<L1Mark>, t: seq<L1Mark>)
    requires t != [] && RangesTile(range, sorted, t)
    ensures var edge := EdgesOf(range, sorted);
            && edge[0] == 0
            && forall r :: 0 <= r < |t| ==> edge[r + 1] == range[BucketAt(sorted, r)].val
                                            == edge[r] + t[BucketAt(sorted, r)].val
  {
    var edge := EdgesOf(range, sorted);
    forall r | 0 <= r < |t|
      ensures edge[r + 1] == range[BucketAt(sorted, r)].val == edge[r] + t[BucketAt(sorted, r)].val
    {
      if r + 1 < |t| {
        assert range[BucketAt(sorted, r + 1)].idx == range[BucketAt(sorted, r)].val;
      }
    }
  }

  lemma ArrangementValid(hash: Id -> nat, range: seq<L1Mark>, sorted: seq<L1Mark>, t: seq<L1Mark>)
    requires t != [] && RangesTile(range, sorted, t) && Ordered(sorted)
    ensures Arrangement(hash, sorted, EdgesOf(range, sorted)).Valid()
  {
    var a := Arrangement(hash, sorted, EdgesOf(range, sorted));
    EdgesMatch(range, sorted, t);
    forall r | 0 <= r && r + 1 < |sorted| ensures a.Size(r) >= a.Size(r + 1) {
      assert a.edge[(r + 1) + 1] == a.edge[r + 1] + t[BucketAt(sorted, r + 1)].val;
      var k := |sorted| - 1 - r;
      assert sorted[k - 1].val <= sorted[k].val;
    }
  }

  lemma {:induction false} RankLoad(a: Arrangement, v: seq<Id>, r: nat)
    requires a.Valid() && r < |a.sorted|
    ensures multiset(a.Ranks(v))[r] == multiset(SlotsOf(v, a.hash))[BucketAt(a.sorted, r)]
  {
    hide Arrangement.Valid, Arrangement.Rank;
    if v == [] {
      assert a.Ranks(v) == [] && SlotsOf(v, a.hash) == [];
    } else {
      var u, x := v[..|v| - 1], v[|v| - 1];
      RankLoad(a, u, r);
      a.RankIs(x, r);
      assert a.Ranks(v) == a.Ranks(u) + [a.Rank(x)];
      assert SlotsOf(v, a.hash) == SlotsOf(u, a.hash) + [a.hash(x)];
    }
  }

  /** The ids of the segment form one block over all ranks. */
  lemma ArrangementBlock(a: Arrangement, v: seq<Id>, range: seq<L1Mark>, t: seq<L1Mark>)
    requires t != [] && RangesTile(range, a.sorted, t) && a.Valid() && a.edge == EdgesOf(range, a.sorted)
    requires forall b :: 0 <= b < |t| ==> t[b].val == multiset(SlotsOf(v, a.hash))[b]
    requires forall x :: 0 <= x < |v| ==> a.hash(v[x]) < |t|
    ensures a.Block(v, 0, |t|) && a.edge[0] == 0 && a.edge[|t|] == |v|
    ensures forall r :: 0 <= r < |t| ==> a.Size(r) == t[BucketAt(a.sorted, r)].val
  {
    EdgesMatch(range, a.sorted, t);
    EveryBucketRanked(a.sorted, t);
    forall r | 0 <= r < |t| ensures multiset(a.Ranks(v))[r] == a.Size(r) {
      RankLoad(a, v, r);
    }
    forall x | 0 <= x < |v| ensures a.Rank(v[x]) < |t| {
      assert a.hash(v[x]) in Buckets(a.sorted);
    }
    a.BlockLength(v, 0, |t|);
  }

  lemma ArrangementUnused(a: Arrangement, range: seq<L1Mark>, t: seq<L1Mark>, offset: seq<nat>, border: seq<nat>)
    requires t != [] && RangesTile(range, a.sorted, t) && a.edge == EdgesOf(range, a.sorted)
    requires |offset| == |border| == |t|
    requires forall b :: 0 <= b < |t| ==> offset[b] == range[b].idx && border[b] == range[b].val
    ensures a.Unused(offset, border, 0, |t|)
  {
    EdgesMatch(range, a.sorted, t);
  }

  lemma AllBuckets(a: Arrangement, t: seq<L1Mark>, order: seq<nat>)
    requires OrdersBuckets(a.sorted, t) && |order| == |t| && forall i :: 0 <= i < |t| ==> order[i] == i
    ensures a.BucketSet(0, |t|) == set p | p in order
  {
    EveryBucketRanked(a.sorted, t);
    forall p | 0 <= p < |t| ensures p in a.BucketSet(0, |t|) {
      assert p in Buckets(a.sorted);
      var k :| 0 <= k < |t| && Buckets(a.sorted)[k] == p;
      assert BucketAt(a.sorted, |t| - 1 - k) == p;
    }
    forall p | p in a.BucketSet(0, |t|) ensures p in order {
      var r :| 0 <= r < |t| && BucketAt(a.sorted, r) == p;
      assert order[p] == p;
    }
  }

  // ---- The shadow scatter -----------------------------------------------------------------------

  /** The stretch of a rank, seen from the scatter: its start, its load, its end. */
  lemma StretchOf(a: Arrangement, v: seq<Id>, n: nat, start: seq<nat>, border: seq<nat>, r: nat)
    requires a.Valid() && r < n == |a.sorted| && a.Unused(start, border, 0, n)
    requires a.Block(v, 0, n) && a.edge[n] == |v|
    ensures var b := BucketAt(a.sorted, r);
            && b < n && start[b] == a.edge[r]
            && start[b] + multiset(SlotsOf(v, a.hash))[b] == a.edge[r + 1] <= |v|
  {
    hide Arrangement.Rank;
    RankLoad(a, v, r);
    assert multiset(a.Ranks(v))[r] == a.Size(r);
    a.EdgesAscend(r + 1, n);
  }

  /** The offsets, read as a layout for the scatter: each bucket has exactly its stretch. */
  lemma OffsetsTile(a: Arrangement, v: seq<Id>, t: seq<L1Mark>, start: seq<nat>, border: seq<nat>)
    requires a.Valid() && OrdersBuckets(a.sorted, t) && a.Unused(start, border, 0, |t|)
    requires a.Block(v, 0, |t|) && a.edge[|t|] == |v|
    requires forall x :: 0 <= x < |v| ==> a.hash(v[x]) < |t|
    ensures Tiled(start, SlotsOf(v, a.hash), |v|)
  {
    hide Arrangement.Rank, Arrangement.Block, Arrangement.Valid;
    forall b | 0 <= b < |t| ensures start[b] + multiset(SlotsOf(v, a.hash))[b] <= |v| {
      var r := RankOfBucket(a, t, b);
      StretchOf(a, v, |t|, start, border, r);
    }
    forall b, c | 0 <= b < |t| && 0 <= c < |t| && b != c
      ensures start[b] + multiset(SlotsOf(v, a.hash))[b] <= start[c]
              || start[c] + multiset(SlotsOf(v, a.hash))[c] <= start[b]
    {
      var r := RankOfBucket(a, t, b);
      var q := RankOfBucket(a, t, c);
      StretchOf(a, v, |t|, start, border, r);
      StretchOf(a, v, |t|, start, border, q);
      if r < q {
        a.EdgesAscend(r + 1, q);
      } else {
        a.EdgesAscend(q + 1, r);
      }
    }
  }

  lemma RankOfBucket(a: Arrangement, t: seq<L1Mark>, b: nat) returns (r: nat)
    requires OrdersBuckets(a.sorted, t) && b < |t|
    ensures r < |t| && BucketAt(a.sorted, r) == b
  {
    EveryBucketRanked(a.sorted, t);
    assert b in Buckets(a.sorted);
    var k :| 0 <= k < |t| && Buckets(a.sorted)[k] == b;
    r := |t| - 1 - k;
  }

  /** After the scatter every id lies in the stretch of its rank. */
  lemma ScatteredIsSettled(a: Arrangement, w: seq<Id>, v: seq<Id>, t: seq<L1Mark>, start: seq<nat>, border: seq<nat>)
    requires a.Valid() && OrdersBuckets(a.sorted, t) && a.Unused(start, border, 0, |t|)
    requires a.Block(v, 0, |t|) && a.edge[|t|] == |v| == |w|
    requires forall x :: 0 <= x < |v| ==> a.hash(v[x]) < |t|
    requires Tiled(start, SlotsOf(v, a.hash), |v|)
    requires forall i :: 0 <= i < |v| ==> Dest(start, SlotsOf(v, a.hash), i) < |w|
                                          && w[Dest(start, SlotsOf(v, a.hash), i)] == v[i]
    ensures a.Settled(w, 0, |t|)
  {
    hide Dest, Tiled, Arrangement.Rank;
    var slots := SlotsOf(v, a.hash);
    var f := DestSeqOf(start, slots, |v|);
    forall x | a.edge[0] <= x < a.edge[|t|]
      ensures a.SettledAt(w, x)
    {
      assert x in f;
      var i :| 0 <= i < |f| && f[i] == x;
      TiledBounded(start, slots, |v|);
      DestExact(start, slots, i);
      var r := a.Rank(v[i]);
      a.RankIs(v[i], r);
      StretchOf(a, v, |t|, start, border, r);
    }
  }

  lemma TiledBounded(start: seq<nat>, slots: seq<nat>, size: nat)
    requires Tiled(start, slots, size)
    ensures Bounded(slots, |start|)
  {
  }

  lemma DestSeqOf(start: seq<nat>, slots: seq<nat>, size: nat) returns (f: seq<nat>)
    requires Tiled(start, slots, size) && |slots| == size
    ensures |f| == size && forall i :: 0 <= i < size ==> Bounded(slots, |start|) && f[i] == Dest(start, slots, i)
    ensures forall x :: 0 <= x < size ==> x in f
  {
    f := DestSeq(start, slots);
    DestsInjective(start, slots, size);
    Onto(f);
  }

  // ---- The sort ---------------------------------------------------------------------------------

  /** Sorts the ids of a segment by bucket, in place or into the shadow, or refuses an over-full bucket. */
  method L1Sort(ids: array<Id>, shadow: array?<Id>, l1sz: nat, hash: Id -> nat) returns (out: array?<Id>)
    requires 0 < ids.Length < 0x1_0000_0000 && l1sz > 0
    requires forall x :: 0 <= x < ids.Length ==> hash(ids[x]) < l1sz
    requires shadow != null ==> shadow != ids && shadow.Length == ids.Length
    modifies ids
    modifies if shadow == null then {} else {shadow}
    ensures out == null <==> Crowded(old(ids[..]), hash, l1sz)
    ensures out != null ==> out == (if shadow == null then ids else shadow)
    ensures out != null ==> multiset(out[..]) == multiset(old(ids[..])) && Grouped(out[..], hash)
  {
    hide CountsAfter, MaxAfter, Crowded, BucketLoad, Ordered, RangesTile, Marked, Arrangement.Valid, Arrangement.Block,
         Arrangement.Unused, Grouped;
    ghost var v := ids[..];
    var cnt := new nat[l1sz](_ => 0);
    ghost var zeros := cnt[..];
    var max := Counting(ids[..], hash, cnt, true);
    MaxIsLargestLoad(v, hash, zeros, cnt[..], max, l1sz);
    if max > BucketLimit(l1sz) {
      return null;
    }
    var first := new L1Mark[l1sz](i requires 0 <= i < l1sz reads cnt => L1Mark(cnt[i], i));
    ghost var t := first[..];
    MarksAre(t, cnt[..]);
    var second := new L1Mark[l1sz](_ => L1Mark(0, 0));
    var range, sorted := L1SortReorder(max, first, second);
    out := PlaceIds(ids, shadow, max, range, sorted[..], hash, t);
  }

  lemma MarksAre(t: seq<L1Mark>, cnt: seq<nat>)
    requires |t| == |cnt| && forall i :: 0 <= i < |t| ==> t[i] == L1Mark(cnt[i], i)
    ensures Marked(t)
  {
  }

  /** The ranges, read as an arrangement of the ids by rank. */
  lemma LaidOut(v: seq<Id>, range: seq<L1Mark>, sorted: seq<L1Mark>, hash: Id -> nat, t: seq<L1Mark>, start: seq<nat>,
                border: seq<nat>, max: nat) returns (a: Arrangement)
    requires t != [] && |range| == |t| && max <= 0xffff
    requires multiset(sorted) == multiset(t) && Ordered(sorted) && RangesTile(range, sorted, t)
    requires forall x :: 0 <= x < |v| ==> hash(v[x]) < |t|
    requires forall b :: 0 <= b < |t| ==> t[b].val == multiset(SlotsOf(v, hash))[b] && t[b].val <= max
    requires |start| == |border| == |t|
    requires forall b :: 0 <= b < |t| ==> start[b] == range[b].idx && border[b] == range[b].val
    ensures a.hash == hash && a.sorted == sorted && |sorted| == |t| && a.Valid() && OrdersBuckets(sorted, t)
    ensures a.Block(v, 0, |t|) && a.Unused(start, border, 0, |t|)
    ensures |a.edge| == |t| + 1 && a.edge[0] == 0 && a.edge[|t|] == |v|
    ensures forall r :: 0 <= r < |t| ==> a.Size(r) < TILE_ITEMS
  {
    assert OrdersBuckets(sorted, t);
    hide Arrangement.Valid, Arrangement.Block, Arrangement.Unused, Ordered, RangesTile, OrdersBuckets;
    a := Arrangement(hash, sorted, EdgesOf(range, sorted));
    ArrangementValid(hash, range, sorted, t);
    ArrangementBlock(a, v, range, t);
    ArrangementUnused(a, range, t, start, border);
    a.EdgeCount();
  }

  /** Moves the ids into the ranges laid out for their buckets. */
  method PlaceIds(ids: array<Id>, shadow: array?<Id>, max: nat, range: array<L1Mark>, sorted: seq<L1Mark>,
                  hash: Id -> nat, ghost t: seq<L1Mark>) returns (out: array<Id>)
    requires t != [] && range.Length == |t| && max <= 0xffff
    requires shadow != null ==> shadow != ids && shadow.Length == ids.Length
    requires multiset(sorted) == multiset(t) && Ordered(sorted) && RangesTile(range[..], sorted, t)
    requires forall x :: 0 <= x < ids.Length ==> hash(ids[x]) < |t|
    requires forall b :: 0 <= b < |t| ==> t[b].val == multiset(SlotsOf(ids[..], hash))[b] && t[b].val <= max
    modifies ids
    modifies if shadow == null then {} else {shadow}
    ensures out == (if shadow == null then ids else shadow)
    ensures multiset(out[..]) == multiset(old(ids[..])) && Grouped(out[..], hash)
  {
    hide Arrangement.Valid, Arrangement.Block, Arrangement.Unused, Arrangement.Settled, Arrangement.BucketSet,
         Ordered, Grouped, Dest, Tiled, RangesTile, OrdersBuckets, EdgesOf, Arrangement.Size;
    var n := range.Length;
    var offset := new nat[n](i requires 0 <= i < n reads range => range[i].idx);
    var border := Borders(range[..]);
    ghost var v, start, a := ids[..], offset[..], Arrangement(hash, sorted, []);
    a := LaidOut(v, range[..], sorted, hash, t, start, border, max);
    assert v[0..|v|] == v;
    if shadow == null {
      PlaceInPlace(ids, offset, border, sorted, hash, t, a);
      out := ids;
    } else {
      OffsetsTile(a, v, t, start, border);
      PlaceInShadow(ids[..], shadow, offset, hash);
      ScatteredIsSettled(a, shadow[..], v, t, start, border);
      out := shadow;
    }
    a.SettledIsGrouped(out[..]);
  }

  /** In place: small segments are shuffled at once, large ones localised first. */
  method PlaceInPlace(ids: array<Id>, offset: array<nat>, border: seq<nat>, sorted: seq<L1Mark>, hash: Id -> nat,
                      ghost t: seq<L1Mark>, ghost a: Arrangement)
    requires a.Valid() && a.hash == hash && a.sorted == sorted && |sorted| == |t| == offset.Length > 0
    requires OrdersBuckets(sorted, t) && forall r :: 0 <= r < |sorted| ==> a.Size(r) < TILE_ITEMS
    requires |a.edge| == |sorted| + 1 && a.edge[0] == 0 && a.edge[|sorted|] == ids.Length
    requires a.Unused(offset[..], border, 0, |sorted|) && a.Block(ids[0..ids.Length], 0, |sorted|)
    modifies ids, offset
    ensures multiset(ids[..]) == multiset(old(ids[..])) && a.Settled(ids[..], 0, |sorted|)
  {
    hide Arrangement.Valid, Arrangement.Block, Arrangement.Unused, Arrangement.Settled, Arrangement.BucketSet,
         OrdersBuckets;
    if ids.Length < LOCALIZE_MIN_ITEMS {
      var order := Identity(offset.Length);
      AllBuckets(a, t, order);
      L1SortShuffleRange(ids, offset, border, order, hash, a, 0, offset.Length);
    } else {
      L1SortLocalize(ids, offset, border, sorted, hash, 0, offset.Length, 0, ids.Length, a);
    }
  }

  /** Into the shadow: the stable scatter onto exactly fitting ranges. */
  method PlaceInShadow(v: seq<Id>, shadow: array<Id>, offset: array<nat>, hash: Id -> nat)
    requires shadow.Length == |v| && Tiled(offset[..], SlotsOf(v, hash), |v|)
    modifies shadow, offset
    ensures multiset(shadow[..]) == multiset(v)
    ensures forall i :: 0 <= i < |v| ==>
              Dest(old(offset[..]), SlotsOf(v, hash), i) < |shadow[..]|
              && shadow[..][Dest(old(offset[..]), SlotsOf(v, hash), i)] == v[i]
  {
    hide Dest, Tiled;
    ghost var start := offset[..];
    ScatterRearranges(shadow[..], v, start, SlotsOf(v, hash));
    TiledBounded(start, SlotsOf(v, hash), |v|);
    ShuffleInto(v, shadow, hash, offset);
    DestInsideAll(start, SlotsOf(v, hash), |v|);
  }

  function Borders(range: seq<L1Mark>): (b: seq<nat>)
    ensures |b| == |range| && forall i :: 0 <= i < |range| ==> b[i] == range[i].val
  {
    seq(|range|, i requires 0 <= i < |range| => range[i].val)
  }

  function Identity(n: nat): (s: seq<nat>)
    ensures |s| == n && forall i :: 0 <= i < n ==> s[i] == i
  {
    seq(n, i => i)
  }
}
