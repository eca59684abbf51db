/** Sorting the ids of a segment by bucket: in place and cache-localised, or by scattering into a shadow. */
module Localize {
  import opened Words
  import opened Ids
  import opened Permutation
  import opened Reorder
  import opened CyclicShuffle

  const TILE_ITEMS: nat := 0x1_0000
  const LOCALIZE_MIN_ITEMS: nat := 0x4_0000

  /** The intended arrangement: the bucket of rank `r` takes the positions from `edge[r]` up to `edge[r + 1]`. */
  datatype Arrangement = Arrangement(hash: Id -> nat, sorted: seq<L1Mark>, edge: seq<nat>) {

    ghost predicate Valid() {
      && |edge| == |sorted| + 1
      && (forall k :: 0 <= k < |sorted| ==> sorted[k].idx < |sorted|)
      && (forall i, j :: 0 <= i < j < |sorted| ==> sorted[i].idx != sorted[j].idx)
      && (forall r :: 0 <= r < |sorted| ==> Size(r) >= 0)
      && (forall r :: 0 <= r && r + 1 < |sorted| ==> Size(r) >= Size(r + 1))
    }

    ghost function Size(r: nat): int
      requires r < |sorted| && |edge| == |sorted| + 1
    {
      edge[r + 1] as int - edge[r] as int
    }

    /** The rank of an id's bucket; out of range if the id belongs to no bucket. */
    ghost function Rank(id: Id): nat {
      if hash(id) in Buckets(sorted) then
        var k :| 0 <= k < |sorted| && Buckets(sorted)[k] == hash(id);
        |sorted| - 1 - k
      else |sorted|
    }

    ghost function Ranks(s: seq<Id>): (t: seq<nat>)
      ensures |t| == |s|
    {
      seq(|s|, i requires 0 <= i < |s| => Rank(s[i]))
    }

    lemma RankIs(id: Id, r: nat)
      requires Valid() && r < |sorted|
      ensures BucketAt(sorted, r) == hash(id) <==> Rank(id) == r
    {
      if BucketAt(sorted, r) == hash(id) {
        assert Buckets(sorted)[|sorted| - 1 - r] == hash(id);
      }
    }

    /** A stretch holding exactly the ids of the ranks from `rb` to `re`, as many as each rank's size. */
    ghost predicate Block(s: seq<Id>, rb: nat, re: nat)
      requires re <= |sorted| && |edge| == |sorted| + 1
    {
      && (forall i :: 0 <= i < |s| ==> rb <= Rank(s[i]) < re)
      && (forall r :: rb <= r < re ==> multiset(Ranks(s))[r] == Size(r))
    }

    /** The offsets and borders of the ranks from `rb` to `re` are untouched. */
    ghost predicate Unused(off: seq<nat>, border: seq<nat>, rb: nat, re: nat)
      requires re <= |sorted| && |edge| == |sorted| + 1
    {
      && |off| == |border| == |sorted|
      && (forall r :: rb <= r < re ==> BucketAt(sorted, r) < |sorted|)
      && (forall r :: rb <= r < re ==> off[BucketAt(sorted, r)] == edge[r] && border[BucketAt(sorted, r)] == edge[r + 1])
    }

    /** Every id lies in the stretch of its own rank. */
    ghost predicate Settled(v: seq<Id>, rb: nat, re: nat)
      requires rb <= re <= |sorted| && |edge| == |sorted| + 1
    {
      forall x :: edge[rb] <= x < edge[re] ==> SettledAt(v, x)
    }

    ghost predicate SettledAt(v: seq<Id>, x: nat)
      requires |edge| == |sorted| + 1
    {
      x < |v| && Rank(v[x]) < |sorted| && edge[Rank(v[x])] <= x < edge[Rank(v[x]) + 1]
    }

    lemma {:induction false} EdgesAscend(a: nat, b: nat)
      requires Valid() && a <= b <= |sorted|
      ensures edge[a] <= edge[b]
      decreases b
    {
      if a < b {
        EdgesAscend(a, b - 1);
        assert Size(b - 1) >= 0;
      }
    }

    lemma {:induction false} SizesDescend(a: nat, b: nat)
      requires Valid() && a <= b < |sorted|
      ensures Size(a) >= Size(b)
      decreases b
    {
      if a < b {
        SizesDescend(a, b - 1);
        assert Size((b - 1)) >= Size((b - 1) + 1);
      }
    }

    lemma {:induction false} ZeroFirst(a: nat, b: nat)
      requires Valid() && a < b <= |sorted| && Size(a) == 0
      ensures edge[b] == edge[a]
      decreases b
    {
      if a + 1 < b {
        ZeroFirst(a, b - 1);
        SizesDescend(a, b - 1);
        assert Size(b - 1) >= 0;
      }
    }

    /** The rank whose stretch contains position `x`. */
    ghost function RegionOf(rb: nat, re: nat, x: nat): (r: nat)
      requires Valid() && rb <= re <= |sorted| && edge[rb] <= x < edge[re]
      ensures rb <= r < re && edge[r] <= x < edge[r + 1]
      decreases re
    {
      if x >= edge[re - 1] then re - 1 else RegionOf(rb, re - 1, x)
    }

    lemma RegionUnique(r: nat, q: nat, x: nat)
      requires Valid() && r < |sorted| && q < |sorted|
      requires edge[r] <= x < edge[r + 1] && edge[q] <= x < edge[q + 1]
      ensures r == q
    {
      if r < q {
        EdgesAscend(r + 1, q);
      } else if q < r {
        EdgesAscend(q + 1, r);
      }
    }

    // ---- Splitting a block ----------------------------------------------------------------------

    /** Both assertions about the split position hold: it is strictly inside. */
    lemma SplitInside(rb: nat, re: nat, low: nat, midpoint: nat, rankMid: nat)
      requires Valid() && rb + 1 < re <= |sorted| && edge[re] - edge[rb] > TILE_ITEMS
      requires forall r :: rb <= r < re ==> Size(r) < TILE_ITEMS
      requires midpoint == edge[rb] + (edge[re] - edge[rb]) / 2
      requires rb + 1 <= low <= re && rankMid == if low < re - 1 then low else re - 1
      requires forall r :: rb + 1 <= r < low ==> edge[r] < midpoint
      requires low < re ==> edge[low] >= midpoint
      ensures rb < rankMid < re && edge[rb] < edge[rankMid] < edge[re]
    {
      if Size(rb) == 0 {
        ZeroFirst(rb, re);
      }
      EdgesAscend(rb + 1, rankMid);
      EdgesAscend(rankMid, re);
      SizesDescend(rb, rankMid - 1);
      if rankMid - 1 != rb {
        EdgesAscend(rb + 1, rankMid - 1);
      }
      assert Size(rankMid - 1) + edge[rankMid - 1] == edge[rankMid];
    }

    /** A block is as long as its ranks together. */
    lemma BlockLength(s: seq<Id>, rb: nat, re: nat)
      requires Valid() && rb <= re <= |sorted| && Block(s, rb, re)
      ensures edge[re] == edge[rb] + |s|
    {
      hide Ranks, Rank;
      var slots := Ranks(s);
      var c: seq<nat> := CountsBelow(slots, re);
      RanksBounded(s, rb, re);
      assert Bounded(slots, re);
      SumOfCounts(slots, c);
      assert c[..re] == c;
      SumOfSizes(slots, c, rb, re);
    }

    lemma RanksBounded(s: seq<Id>, rb: nat, re: nat)
      requires forall i :: 0 <= i < |s| ==> rb <= Rank(s[i]) < re
      ensures forall i :: 0 <= i < |s| ==> rb <= Ranks(s)[i] < re
    {
    }

    ghost function CountsBelow(slots: seq<nat>, n: nat): (c: seq<nat>)
      ensures |c| == n && forall r :: 0 <= r < n ==> c[r] == multiset(slots)[r]
    {
      if n == 0 then [] else CountsBelow(slots, n - 1) + [multiset(slots)[n - 1]]
    }

    lemma {:induction false} SumOfSizes(slots: seq<nat>, c: seq<nat>, rb: nat, k: nat)
      requires Valid() && rb <= k <= |c| <= |sorted|
      requires forall r :: 0 <= r < |c| ==> c[r] == multiset(slots)[r]
      requires forall i :: 0 <= i < |slots| ==> slots[i] >= rb
      requires forall r :: rb <= r < |c| ==> multiset(slots)[r] == Size(r)
      ensures edge[k] == edge[rb] + Sum(c[..k])
      decreases k
    {
      if k == rb {
        forall r | 0 <= r < rb ensures c[..rb][r] == 0 {
          assert r !in multiset(slots);
        }
        SumOfZeros(c[..rb]);
      } else {
        SumOfSizes(slots, c, rb, k - 1);
        SumStep(c, k - 1);
        assert c[k - 1] == Size(k - 1);
      }
    }

    lemma RanksAppend(s: seq<Id>, t: seq<Id>)
      ensures multiset(Ranks(s + t)) == multiset(Ranks(s)) + multiset(Ranks(t))
    {
      assert Ranks(s + t) == Ranks(s) + Ranks(t);
    }

    lemma RanksWithout(a: seq<Id>, x: Id, b: seq<Id>)
      ensures multiset(Ranks(a + ([x] + b))) == multiset(Ranks([x])) + multiset(Ranks(a + b))
    {
      hide Ranks;
      RanksAppend(a, [x] + b);
      RanksAppend([x], b);
      RanksAppend(a, b);
    }

    lemma {:induction false} RanksPermuted(s: seq<Id>, t: seq<Id>)
      requires multiset(s) == multiset(t)
      ensures multiset(Ranks(s)) == multiset(Ranks(t))
      decreases |s|
    {
      if s == [] {
        assert |t| == |multiset(t)| == 0;
      } else {
        var x := s[0];
        assert x in multiset(t);
        var k :| 0 <= k < |t| && t[k] == x;
        assert s == [x] + s[1..];
        assert t == t[..k] + ([x] + t[k + 1..]);
        var u := t[..k] + t[k + 1..];
        assert multiset(s[1..]) == multiset(s) - multiset{x};
        assert multiset(u) == multiset(t) - multiset{x};
        RanksPermuted(s[1..], u);
        RanksAppend([x], s[1..]);
        RanksWithout(t[..k], x, t[k + 1..]);
      }
    }

    lemma BlockPermuted(s: seq<Id>, t: seq<Id>, rb: nat, re: nat)
      requires re <= |sorted| && |edge| == |sorted| + 1 && Block(s, rb, re) && multiset(s) == multiset(t)
      ensures Block(t, rb, re)
    {
      RanksPermuted(s, t);
      forall i | 0 <= i < |t| ensures rb <= Rank(t[i]) < re {
        assert t[i] in multiset(s);
      }
    }

    /** Partitioning a block by rank gives two blocks. */
    lemma BlockSplit(s: seq<Id>, t: seq<Id>, rb: nat, mid: nat, re: nat)
      requires Valid() && rb <= mid <= re <= |sorted| && Block(s + t, rb, re)
      requires forall i :: 0 <= i < |s| ==> Rank(s[i]) < mid
      requires forall i :: 0 <= i < |t| ==> Rank(t[i]) >= mid
      ensures Block(s, rb, mid) && Block(t, mid, re)
    {
      RanksAppend(s, t);
      forall i | 0 <= i < |s| ensures rb <= Rank(s[i]) {
        assert (s + t)[i] == s[i];
      }
      forall i | 0 <= i < |t| ensures Rank(t[i]) < re {
        assert (s + t)[|s| + i] == t[i];
      }
      forall r | rb <= r < mid ensures multiset(Ranks(s))[r] == Size(r) {
        assert r !in Ranks(t);
      }
      forall r | mid <= r < re ensures multiset(Ranks(t))[r] == Size(r) {
        assert r !in Ranks(s);
      }
    }

    /** The partition predicate compares offsets; for ids that occur it compares ranks. */
    lemma OffsetBelowSplit(s: seq<Id>, off: seq<nat>, border: seq<nat>, rb: nat, mid: nat, re: nat, i: nat)
      requires Valid() && rb <= mid < re <= |sorted| && Block(s, rb, re) && Unused(off, border, rb, re) && i < |s|
      ensures hash(s[i]) < |off|
      ensures off[hash(s[i])] < edge[mid] <==> Rank(s[i]) < mid
    {
      var r := Rank(s[i]);
      RankIs(s[i], r);
      assert Ranks(s)[i] == r;
      assert r in Ranks(s);
      assert Size(r) >= 1;
      if r < mid {
        EdgesAscend(r + 1, mid);
      } else {
        EdgesAscend(mid, r);
      }
    }
  
    // ---- Steps of the recursion -----------------------------------------------------------------

    lemma SplitOffset(off: seq<nat>, border: seq<nat>, rb: nat, r: nat, re: nat)
      requires re <= |sorted| && |edge| == |sorted| + 1 && Unused(off, border, rb, re) && rb <= r < re
      ensures BucketAt(sorted, r) < |off| && off[BucketAt(sorted, r)] == edge[r]
    {
    }

    /** The partition ends exactly at the split position and leaves two blocks. */
    lemma CutIsSplit(before: seq<Id>, after: seq<Id>, off: seq<nat>, border: seq<nat>,
                     rb: nat, mid: nat, re: nat, cut: nat)
      requires Valid() && rb < mid < re <= |sorted| && Block(before, rb, re) && Unused(off, border, rb, re)
      requires multiset(after) == multiset(before) && cut <= |after|
      requires forall i :: 0 <= i < cut ==> hash(after[i]) < |off| && off[hash(after[i])] < edge[mid]
      requires forall i :: cut <= i < |after| ==> !(hash(after[i]) < |off| && off[hash(after[i])] < edge[mid])
      ensures edge[mid] == edge[rb] + cut
      ensures Block(after[..cut], rb, mid) && Block(after[cut..], mid, re)
    {
      hide Unused, Rank, Block;
      BlockPermuted(before, after, rb, re);
      forall i | 0 <= i < |after|
        ensures hash(after[i]) < |off| && (off[hash(after[i])] < edge[mid] <==> Rank(after[i]) < mid)
      {
        OffsetBelowSplit(after, off, border, rb, mid, re, i);
      }
      assert after == after[..cut] + after[cut..];
      BlockSplit(after[..cut], after[cut..], rb, mid, re);
      BlockLength(after[..cut], rb, mid);
    }

    lemma UnusedParts(off: seq<nat>, border: seq<nat>, rb: nat, mid: nat, re: nat)
      requires rb <= mid <= re <= |sorted| && |edge| == |sorted| + 1 && Unused(off, border, rb, re)
      ensures Unused(off, border, rb, mid) && Unused(off, border, mid, re)
    {
    }

    /** The left call only advances offsets of its own buckets, so the right call finds its ranges untouched. */
    lemma UnusedFrame(off: seq<nat>, later: seq<nat>, border: seq<nat>, rb: nat, mid: nat, re: nat)
      requires Valid() && rb <= mid <= re <= |sorted| && Unused(off, border, mid, re) && |later| == |off|
      requires forall p :: 0 <= p < |off| && p !in BucketSet(rb, mid) ==> later[p] == off[p]
      ensures Unused(later, border, mid, re)
    {
      forall r, q | mid <= r < re && rb <= q < mid ensures BucketAt(sorted, r) != BucketAt(sorted, q) {
        assert |sorted| - 1 - r < |sorted| - 1 - q;
      }
    }

    lemma SettledJoin(left: seq<Id>, v: seq<Id>, rb: nat, mid: nat, re: nat)
      requires Valid() && rb <= mid <= re <= |sorted| && |left| == |v|
      requires Settled(left, rb, mid) && Settled(v, mid, re)
      requires forall x :: 0 <= x < |v| && !(edge[mid] <= x < edge[re]) ==> v[x] == left[x]
      ensures Settled(v, rb, re)
    {
      hide Rank;
      forall x | edge[rb] <= x < edge[re]
        ensures SettledAt(v, x)
      {
        if x < edge[mid] {
          assert SettledAt(left, x) && v[x] == left[x];
        }
      }
    }

    lemma EdgeCount()
      requires Valid()
      ensures |edge| == |sorted| + 1
    {
    }

    lemma BucketSetParts(rb: nat, mid: nat, re: nat)
      requires rb <= mid <= re <= |sorted|
      ensures forall p :: p in BucketSet(rb, re) <==> p in BucketSet(rb, mid) || p in BucketSet(mid, re)
    {
    }

    // ---- What a settled arrangement means -------------------------------------------------------

    lemma SettledIsGrouped(v: seq<Id>)
      requires Valid() && edge[0] == 0 && |v| == edge[|sorted|] && Settled(v, 0, |sorted|)
      ensures Grouped(v, hash)
    {
      hide Rank;
      forall x, y, z | 0 <= x <= y <= z < |v| && hash(v[x]) == hash(v[z]) ensures hash(v[y]) == hash(v[x]) {
        assert SettledAt(v, x) && SettledAt(v, y) && SettledAt(v, z);
        var rx, ry, rz := Rank(v[x]), Rank(v[y]), Rank(v[z]);
        RankIs(v[x], rx);
        RankIs(v[y], ry);
        RankIs(v[z], rx);
        if ry < rx {
          EdgesAscend(ry + 1, rx);
        } else if rx < ry {
          EdgesAscend(rx + 1, ry);
        }
      }
    }

    // ---- The cyclic shuffle on a block ----------------------------------------------------------

    ghost function BucketSet(rb: nat, re: nat): set<nat>
      requires re <= |sorted|
    {
      set r | rb <= r < re :: BucketAt(sorted, r)
    }

    ghost function Owners(rb: nat, re: nat): map<nat, nat>
      requires Valid() && rb <= re <= |sorted|
    {
      map x | edge[rb] <= x < edge[re] :: BucketAt(sorted, RegionOf(rb, re, x))
    }

    ghost function RegionsOf(border: seq<nat>, rb: nat, re: nat): Regions
      requires Valid() && rb <= re <= |sorted|
    {
      Regions(Owners(rb, re), border, BucketSet(rb, re), hash)
    }

    ghost function RankSpots(v: seq<Id>, lo: nat, hi: nat, r: nat): set<nat>
      requires lo <= hi <= |v|
    {
      set x | lo <= x < hi && Rank(v[x]) == r
    }

    lemma {:induction false} RankCount(v: seq<Id>, lo: nat, hi: nat, r: nat)
      requires lo <= hi <= |v|
      ensures |RankSpots(v, lo, hi, r)| == multiset(Ranks(v[lo..hi]))[r]
      decreases hi
    {
      hide Rank;
      if lo < hi {
        RankCount(v, lo, hi - 1, r);
        assert v[lo..hi] == v[lo..hi - 1] + [v[hi - 1]];
        RanksOneMore(v[lo..hi - 1], v[hi - 1], r);
        RankSpotsOneMore(v, lo, hi, r);
        hide RankSpots, Ranks;
      }
    }

    lemma RanksOneMore(s: seq<Id>, id: Id, r: nat)
      ensures multiset(Ranks(s + [id]))[r] == multiset(Ranks(s))[r] + if Rank(id) == r then 1 else 0
    {
      hide Rank;
      RanksAppend(s, [id]);
      assert Ranks([id]) == [Rank(id)];
    }

    lemma RankSpotsOneMore(v: seq<Id>, lo: nat, hi: nat, r: nat)
      requires lo < hi <= |v|
      ensures |RankSpots(v, lo, hi, r)| == |RankSpots(v, lo, hi - 1, r)| + if Rank(v[hi - 1]) == r then 1 else 0
    {
      hide Rank;
      assert RankSpots(v, lo, hi, r) == RankSpots(v, lo, hi - 1, r) + (if Rank(v[hi - 1]) == r then {hi - 1} else {});
    }

    lemma EdgeChain(rb: nat, r: nat, re: nat)
      requires Valid() && rb <= r < re <= |sorted|
      ensures edge[rb] <= edge[r] <= edge[r + 1] <= edge[re]
    {
      EdgesAscend(rb, r);
      EdgesAscend(r, r + 1);
      EdgesAscend(r + 1, re);
    }

    /** In the stretch of rank `r` every position is owned by the bucket of rank `r`. */
    lemma OwnerInStretch(rb: nat, r: nat, re: nat, x: nat)
      requires Valid() && rb <= r < re <= |sorted| && edge[r] <= x < edge[r + 1]
      ensures x in Owners(rb, re) && Owners(rb, re)[x] == BucketAt(sorted, r)
    {
      EdgeChain(rb, r, re);
      RegionUnique(r, RegionOf(rb, re, x), x);
    }

    lemma OwnedStretches(off: seq<nat>, border: seq<nat>, rb: nat, re: nat)
      requires Valid() && rb <= re <= |sorted| && Unused(off, border, rb, re)
      ensures forall x :: x in Owners(rb, re) ==>
                var p := Owners(rb, re)[x]; p in BucketSet(rb, re) && p < |off| && off[p] <= x < border[p]
    {
      hide Valid;
      forall x | x in Owners(rb, re)
        ensures var p := Owners(rb, re)[x]; p in BucketSet(rb, re) && p < |off| && off[p] <= x < border[p]
      {
        var r := RegionOf(rb, re, x);
        assert BucketAt(sorted, r) in BucketSet(rb, re);
      }
    }

    lemma StretchesOwned(off: seq<nat>, border: seq<nat>, rb: nat, re: nat, n: nat)
      requires Valid() && rb <= re <= |sorted| && Unused(off, border, rb, re) && edge[re] <= n
      ensures forall p :: p in BucketSet(rb, re) ==> p < |border| && off[p] <= border[p] <= n
      ensures forall p, x :: p in BucketSet(rb, re) && off[p] <= x < border[p] ==>
                x in Owners(rb, re) && Owners(rb, re)[x] == p
    {
      hide Valid, Owners;
      forall p | p in BucketSet(rb, re) ensures p < |border| && off[p] <= border[p] <= n {
        var r :| rb <= r < re && BucketAt(sorted, r) == p;
        EdgeChain(rb, r, re);
      }
      forall p, x | p in BucketSet(rb, re) && off[p] <= x < border[p] ensures x in Owners(rb, re) && Owners(rb, re)[x] == p {
        var r :| rb <= r < re && BucketAt(sorted, r) == p;
        OwnerInStretch(rb, r, re, x);
      }
    }

    lemma RegionsDescribe(off: seq<nat>, border: seq<nat>, rb: nat, re: nat, n: nat)
      requires Valid() && rb <= re <= |sorted| && Unused(off, border, rb, re) && edge[re] <= n
      ensures RegionsOf(border, rb, re).Describes(off, n) && RegionsOf(border, rb, re).InBounds(n)
    {
      hide Owners, BucketSet;
      OwnedStretches(off, border, rb, re);
      StretchesOwned(off, border, rb, re, n);
    }

    lemma RegionsBalance(v: seq<Id>, off: seq<nat>, border: seq<nat>, rb: nat, re: nat)
      requires Valid() && rb <= re <= |sorted| && Unused(off, border, rb, re) && edge[rb] <= edge[re] <= |v|
      requires Block(v[edge[rb]..edge[re]], rb, re)
      ensures RegionsOf(border, rb, re).Balanced(v, off)
    {
      hide Regions.Describes, Arrangement.Ranks;
      var g, lo, hi := RegionsOf(border, rb, re), edge[rb], edge[re];
      var s := v[lo..hi];
      RegionsDescribe(off, border, rb, re, |v|);
      forall x | lo <= x < hi ensures rb <= Rank(v[x]) < re && BucketAt(sorted, Rank(v[x])) == hash(v[x]) {
        assert s[x - lo] == v[x];
        RankIs(v[x], Rank(v[x]));
      }
      forall q | q in g.buckets ensures off[q] <= border[q] && g.Count(v, g.Open(off), q) == border[q] - off[q] {
        var r :| rb <= r < re && BucketAt(sorted, r) == q;
        RankCount(v, lo, hi, r);
        BlockCount(v, off, border, rb, re, r);
        assert Size(r) >= 0;
      }
    }

    lemma BlockCount(v: seq<Id>, off: seq<nat>, border: seq<nat>, rb: nat, re: nat, r: nat)
      requires Valid() && rb <= r < re <= |sorted| && Unused(off, border, rb, re) && edge[rb] <= edge[re] <= |v|
      ensures var g := RegionsOf(border, rb, re);
              g.Count(v, g.Open(off), BucketAt(sorted, r)) == |RankSpots(v, edge[rb], edge[re], r)|
    {
      hide Rank;
      var g := RegionsOf(border, rb, re);
      AllOpen(off, border, rb, re, |v|);
      var spots := set x | x in g.Open(off) && x < |v| && hash(v[x]) == BucketAt(sorted, r);
      forall x | edge[rb] <= x < edge[re] ensures hash(v[x]) == BucketAt(sorted, r) <==> Rank(v[x]) == r {
        RankIs(v[x], r);
      }
      assert spots == RankSpots(v, edge[rb], edge[re], r);
    }

    lemma AllOpen(off: seq<nat>, border: seq<nat>, rb: nat, re: nat, n: nat)
      requires Valid() && rb <= re <= |sorted| && Unused(off, border, rb, re) && edge[re] <= n
      ensures forall x :: x in RegionsOf(border, rb, re).Open(off) <==> edge[rb] <= x < edge[re]
    {
      OwnedStretches(off, border, rb, re);
    }

    lemma ShuffledIsSettled(v: seq<Id>, border: seq<nat>, rb: nat, re: nat)
      requires Valid() && rb <= re <= |sorted|
      requires forall x :: x in Owners(rb, re) ==> x < |v| && hash(v[x]) == Owners(rb, re)[x]
      ensures Settled(v, rb, re)
    {
      hide Rank;
      forall x | edge[rb] <= x < edge[re]
        ensures SettledAt(v, x)
      {
        assert x in Owners(rb, re);
        RankIs(v[x], RegionOf(rb, re, x));
      }
    }
  }

  /** The exact cyclic shuffle on one block, in any order of its buckets. */
  method L1SortShuffleRange(ids: array<Id>, offset: array<nat>, border: seq<nat>, order: seq<nat>, hash: Id -> nat,
                            ghost a: Arrangement, ghost rb: nat, ghost re: nat)
    requires a.Valid() && a.hash == hash && rb <= re <= |a.sorted|
    requires a.BucketSet(rb, re) == set p | p in order
    requires a.Unused(offset[..], border, rb, re) && a.edge[rb] <= a.edge[re] <= ids.Length
    requires a.Block(ids[a.edge[rb]..a.edge[re]], rb, re)
    modifies ids, offset
    ensures multiset(ids[..]) == multiset(old(ids[..])) && a.Settled(ids[..], rb, re)
    ensures forall x :: 0 <= x < ids.Length && !(a.edge[rb] <= x < a.edge[re]) ==> ids[x] == old(ids[x])
    ensures forall p :: 0 <= p < offset.Length && p !in a.BucketSet(rb, re) ==> offset[p] == old(offset[p])
  {
    hide Regions.Balanced, Regions.Describes, Arrangement.Block, Arrangement.Settled;
    hide Arrangement.Unused, Arrangement.BucketSet;
    ghost var g := a.RegionsOf(border, rb, re);
    a.RegionsDescribe(offset[..], border, rb, re, ids.Length);
    a.RegionsBalance(ids[..], offset[..], border, rb, re);
    ShuffleInOrder(ids, hash, offset, border, order, g);
    a.ShuffledIsSettled(ids[..], border, rb, re);
  }

  // ---- The recursive localisation ---------------------------------------------------------------

  /** Moves the ids satisfying `p` to the front of a stretch, standing for the library partition. */
  method Partition(ids: array<Id>, begin: nat, end: nat, p: Id -> bool) returns (cut: nat)
    requires begin <= end <= ids.Length
    modifies ids
    ensures begin <= cut <= end
    ensures multiset(ids[begin..end]) == multiset(old(ids[begin..end]))
    ensures multiset(ids[..]) == multiset(old(ids[..]))
    ensures forall x :: 0 <= x < ids.Length && !(begin <= x < end) ==> ids[x] == old(ids[x])
    ensures forall x :: begin <= x < cut ==> p(ids[x])
    ensures forall x :: cut <= x < end ==> !p(ids[x])
  {
    cut := begin;
    for i := begin to end
      invariant begin <= cut <= i
      invariant multiset(ids[begin..end]) == multiset(old(ids[begin..end]))
      invariant multiset(ids[..]) == multiset(old(ids[..]))
      invariant forall x :: 0 <= x < ids.Length && !(begin <= x < end) ==> ids[x] == old(ids[x])
      invariant forall x :: begin <= x < cut ==> p(ids[x])
      invariant forall x :: cut <= x < i ==> !p(ids[x])
    {
      if p(ids[i]) {
        Swap(ids, begin, end, cut, i);
        cut := cut + 1;
      }
    }
  }

  method Swap(ids: array<Id>, ghost begin: nat, ghost end: nat, i: nat, j: nat)
    requires begin <= i <= j < end <= ids.Length
    modifies ids
    ensures ids[i] == old(ids[j]) && ids[j] == old(ids[i])
    ensures forall x :: 0 <= x < ids.Length && x != i && x != j ==> ids[x] == old(ids[x])
    ensures multiset(ids[begin..end]) == multiset(old(ids[begin..end]))
    ensures multiset(ids[..]) == multiset(old(ids[..]))
  {
    ghost var v := ids[..];
    ids[i], ids[j] := ids[j], ids[i];
    SwapBag(v, ids[..], begin, end, i, j);
  }

  /** Exchanging two places changes no bag that contains both. */
  lemma SwapBag(v: seq<Id>, w: seq<Id>, begin: nat, end: nat, i: nat, j: nat)
    requires begin <= i <= j < end <= |v| && w == v[i := v[j]][j := v[i]]
    ensures multiset(w) == multiset(v) && multiset(w[begin..end]) == multiset(v[begin..end])
  {
    SwappedBag(v, i, j);
    SwappedBag(v[begin..end], i - begin, j - begin);
    SwappedSlice(v, begin, end, i, j);
  }

  lemma SwappedSlice(v: seq<Id>, begin: nat, end: nat, i: nat, j: nat)
    requires begin <= i <= j < end <= |v|
    ensures v[i := v[j]][j := v[i]][begin..end]
            == v[begin..end][i - begin := v[begin..end][j - begin]][j - begin := v[begin..end][i - begin]]
  {
  }

  lemma SwappedBag(s: seq<Id>, i: nat, j: nat)
    requires i < |s| && j < |s|
    ensures multiset(s[i := s[j]][j := s[i]]) == multiset(s)
  {
    assert multiset(s[i := s[j]]) == multiset(s) - multiset{s[i]} + multiset{s[j]};
    var t := s[i := s[j]];
    assert multiset(t[j := s[i]]) == multiset(t) - multiset{t[j]} + multiset{s[i]};
  }

  /** Partitions by final destination until a tile fits the cache, then shuffles the tile exactly. */
  method L1SortLocalize(ids: array<Id>, offset: array<nat>, border: seq<nat>, sorted: seq<L1Mark>, hash: Id -> nat,
                        rb: nat, re: nat, begin: nat, end: nat, ghost a: Arrangement)
    requires a.Valid() && a.hash == hash && a.sorted == sorted && rb < re <= |sorted|
    requires forall r :: 0 <= r < |sorted| ==> a.Size(r) < TILE_ITEMS
    requires begin == a.edge[rb] && end == a.edge[re] && begin <= end <= ids.Length
    requires a.Unused(offset[..], border, rb, re) && a.Block(ids[begin..end], rb, re)
    modifies ids, offset
    ensures multiset(ids[..]) == multiset(old(ids[..])) && a.Settled(ids[..], rb, re)
    ensures forall x :: 0 <= x < ids.Length && !(begin <= x < end) ==> ids[x] == old(ids[x])
    ensures forall p :: 0 <= p < offset.Length && p !in a.BucketSet(rb, re) ==> offset[p] == old(offset[p])
    decreases re - rb
  {
    hide Arrangement.Valid, Arrangement.Block, Arrangement.Settled, Arrangement.Unused, Arrangement.BucketSet;
    a.EdgeCount();
    if end - begin <= TILE_ITEMS || re - rb <= 1 {
      RankOrderSet(a, rb, re);
      L1SortShuffleRange(ids, offset, border, RankOrder(sorted, rb, re), hash, a, rb, re);
      return;
    }
    var rankMid := FindSplit(offset, border, sorted, rb, re, begin, end, a);
    var split := PartitionAt(ids, offset, border, sorted, hash, rb, rankMid, re, begin, end, a);
    a.UnusedParts(offset[..], border, rb, rankMid, re);
    ghost var off, right := offset[..], ids[split..end];
    L1SortLocalize(ids, offset, border, sorted, hash, rb, rankMid, begin, split, a);
    assert ids[split..end] == right;
    a.UnusedFrame(off, offset[..], border, rb, rankMid, re);
    ghost var left := ids[..];
    L1SortLocalize(ids, offset, border, sorted, hash, rankMid, re, split, end, a);
    a.SettledJoin(left, ids[..], rb, rankMid, re);
    a.BucketSetParts(rb, rankMid, re);
  }

  /** Partitions a block at the start of a rank; the cut is exactly the split position. */
  method PartitionAt(ids: array<Id>, offset: array<nat>, ghost border: seq<nat>, sorted: seq<L1Mark>, hash: Id -> nat,
                     ghost rb: nat, rankMid: nat, ghost re: nat, begin: nat, end: nat, ghost a: Arrangement)
    returns (split: nat)
    requires a.Valid() && a.hash == hash && a.sorted == sorted && rb < rankMid < re <= |sorted| == |a.edge| - 1
    requires begin == a.edge[rb] && end == a.edge[re] && begin <= end <= ids.Length
    requires a.Unused(offset[..], border, rb, re) && a.Block(ids[begin..end], rb, re)
    modifies ids
    ensures split == a.edge[rankMid] && begin <= split <= end
    ensures a.Block(ids[begin..split], rb, rankMid) && a.Block(ids[split..end], rankMid, re)
    ensures multiset(ids[..]) == multiset(old(ids[..]))
    ensures forall x :: 0 <= x < ids.Length && !(begin <= x < end) ==> ids[x] == old(ids[x])
  {
    hide Arrangement.Valid, Arrangement.Block, Arrangement.Unused;
    a.SplitOffset(offset[..], border, rb, rankMid, re);
    split := offset[BucketAt(sorted, rankMid)];
    var off := offset[..];
    ghost var before := ids[begin..end];
    var cut, after := PartitionBelow(ids, begin, end, off, hash, split);
    a.CutIsSplit(before, after, off, border, rb, rankMid, re, cut - begin);
  }

  /** The partition of a stretch by offset, and the stretch it leaves. */
  method PartitionBelow(ids: array<Id>, begin: nat, end: nat, off: seq<nat>, hash: Id -> nat, split: nat)
    returns (cut: nat, ghost after: seq<Id>)
    requires begin <= end <= ids.Length
    modifies ids
    ensures begin <= cut <= end && |after| == end - begin
    ensures ids[begin..cut] == after[..cut - begin] && ids[cut..end] == after[cut - begin..]
    ensures multiset(after) == multiset(old(ids[begin..end])) && multiset(ids[..]) == multiset(old(ids[..]))
    ensures forall x :: 0 <= x < ids.Length && !(begin <= x < end) ==> ids[x] == old(ids[x])
    ensures forall i :: 0 <= i < cut - begin ==> hash(after[i]) < |off| && off[hash(after[i])] < split
    ensures forall i :: cut - begin <= i < |after| ==> !(hash(after[i]) < |off| && off[hash(after[i])] < split)
  {
    cut := Partition(ids, begin, end, id => hash(id) < |off| && off[hash(id)] < split);
    after := ids[begin..end];
    PartsOfStretch(ids[..], begin, cut, end);
  }

  lemma PartsOfStretch(v: seq<Id>, begin: nat, cut: nat, end: nat)
    requires begin <= cut <= end <= |v|
    ensures v[begin..end][..cut - begin] == v[begin..cut] && v[begin..end][cut - begin..] == v[cut..end]
    ensures forall i :: 0 <= i < end - begin ==> v[begin..end][i] == v[begin + i]
  {
  }

  /** The binary search for the rank whose stretch starts nearest after the midpoint. */
  method FindSplit(offset: array<nat>, ghost border: seq<nat>, sorted: seq<L1Mark>, rb: nat, re: nat,
                   begin: nat, end: nat, ghost a: Arrangement) returns (rankMid: nat)
    requires a.Valid() && a.sorted == sorted && rb + 1 < re <= |sorted|
    requires forall r :: 0 <= r < |sorted| ==> a.Size(r) < TILE_ITEMS
    requires begin == a.edge[rb] && end == a.edge[re] && end > begin + TILE_ITEMS
    requires a.Unused(offset[..], border, rb, re)
    ensures rb < rankMid < re && begin < a.edge[rankMid] < end
  {
    hide Arrangement.Valid, Arrangement.Unused;
    a.EdgeCount();
    var midpoint := begin + (end - begin) / 2;
    var low, high := rb + 1, re;
    while low < high
      invariant rb + 1 <= low <= high <= re
      invariant forall r :: rb + 1 <= r < low ==> a.edge[r] < midpoint
      invariant high < re ==> a.edge[high] >= midpoint
    {
      var mid := low + (high - low) / 2;
      a.SplitOffset(offset[..], border, rb, mid, re);
      var bucket := BucketAt(sorted, mid);
      if offset[bucket] < midpoint {
        forall r | rb + 1 <= r < mid + 1 ensures a.edge[r] < midpoint {
          a.EdgesAscend(r, mid);
        }
        low := mid + 1;
      } else {
        high := mid;
      }
    }
    rankMid := Min(low, re - 1);
    a.SplitInside(rb, re, low, midpoint, rankMid);
  }

  /** The buckets from rank `rb` to rank `re`. */
  function RankOrder(sorted: seq<L1Mark>, rb: nat, re: nat): (order: seq<nat>)
    requires rb <= re <= |sorted|
    ensures |order| == re - rb && forall i :: 0 <= i < re - rb ==> order[i] == BucketAt(sorted, rb + i)
  {
    seq(re - rb, i requires 0 <= i < re - rb => sorted[|sorted| - 1 - (rb + i)].idx)
  }

  lemma RankOrderSet(a: Arrangement, rb: nat, re: nat)
    requires rb <= re <= |a.sorted|
    ensures a.BucketSet(rb, re) == set p | p in RankOrder(a.sorted, rb, re)
  {
    var order := RankOrder(a.sorted, rb, re);
    forall p | p in a.BucketSet(rb, re) ensures p in order {
      var r :| rb <= r < re && BucketAt(a.sorted, r) == p;
      assert order[r - rb] == p;
    }
  }

  /** Ids of one bucket are contiguous. */
  ghost predicate Grouped(v: seq<Id>, hash: Id -> nat) {
    forall x, y, z :: 0 <= x <= y <= z < |v| && hash(v[x]) == hash(v[z]) ==> hash(v[y]) == hash(v[x])
  }
}
