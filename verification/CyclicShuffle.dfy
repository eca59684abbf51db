/** The in-place cyclic shuffle: every id is swapped straight into the region of its bucket. */
module CyclicShuffle {
  import opened Ids

  /** Which bucket owns which position. Bucket `p` owns the positions from its first offset up to
      `border[p]`; positions outside the map are not touched. */
  datatype Regions = Regions(owner: map<nat, nat>, border: seq<nat>, buckets: set<nat>, hash: Id -> nat) {

    /** The map describes the regions `[start[p], border[p])`, which are thereby disjoint. */
    ghost predicate Describes(start: seq<nat>, n: nat) {
      && |start| == |border|
      && (forall p :: p in buckets ==> p < |border| && start[p] <= border[p] <= n)
      && (forall p, x :: p in buckets && start[p] <= x < border[p] ==> x in owner && owner[x] == p)
      && (forall x :: x in owner ==> owner[x] in buckets && start[owner[x]] <= x < border[owner[x]])
    }

    ghost predicate InBounds(n: nat) {
      && (forall p :: p in buckets ==> p < |border|)
      && (forall x :: x in owner ==> x < n && owner[x] in buckets && x < border[owner[x]])
    }

    /** The positions not yet reached by the offset of their bucket. */
    ghost function Open(off: seq<nat>): set<nat> {
      set x | x in owner && owner[x] < |off| && off[owner[x]] <= x
    }

    /** How many of the positions in `u` hold an id of bucket `q`. */
    ghost function Count(v: seq<Id>, u: set<nat>, q: nat): nat {
      |set x | x in u && x < |v| && hash(v[x]) == q|
    }

    /** Each bucket has exactly as many ids on the positions of all regions as its own region is long. */
    ghost predicate Balanced(v: seq<Id>, off: seq<nat>) {
      && |off| == |border| && InBounds(|v|)
      && (forall x :: x in owner ==> hash(v[x]) in buckets)
      && (forall q :: q in buckets ==> off[q] <= border[q] && Count(v, Open(off), q) == border[q] - off[q])
    }

    /** The loop invariant: passed positions hold ids of their owner, and what is left is balanced. */
    ghost predicate Partial(v: seq<Id>, off: seq<nat>, start: seq<nat>) {
      && Describes(start, |v|) && Balanced(v, off)
      && (forall q :: q in buckets ==> start[q] <= off[q])
      && (forall x :: x in owner && x < off[owner[x]] ==> hash(v[x]) == owner[x])
    }

    lemma CountWithout(v: seq<Id>, u: set<nat>, x: nat, q: nat)
      requires x in u && x < |v|
      ensures Count(v, u - {x}, q) == Count(v, u, q) - if hash(v[x]) == q then 1 else 0
    {
      var a := set y | y in u && y < |v| && hash(v[y]) == q;
      var b := set y | y in u - {x} && y < |v| && hash(v[y]) == q;
      if hash(v[x]) == q {
        assert a == b + {x};
      } else {
        assert a == b;
      }
    }

    lemma CountAgree(v: seq<Id>, w: seq<Id>, u: set<nat>, q: nat)
      requires |v| == |w| && forall x :: x in u && x < |v| ==> v[x] == w[x]
      ensures Count(v, u, q) == Count(w, u, q)
    {
      assert (set x | x in u && x < |v| && hash(v[x]) == q) == (set x | x in u && x < |w| && hash(w[x]) == q);
    }

    /** Exchanging two open positions changes no count. */
    lemma CountSwap(v: seq<Id>, u: set<nat>, i: nat, j: nat, q: nat)
      requires i in u && j in u && i < |v| && j < |v| && i != j
      ensures Count(v[i := v[j]][j := v[i]], u, q) == Count(v, u, q)
    {
      var w := v[i := v[j]][j := v[i]];
      CountWithout(v, u, i, q);
      CountWithout(v, u - {i}, j, q);
      CountWithout(w, u, i, q);
      CountWithout(w, u - {i}, j, q);
      CountAgree(v, w, u - {i} - {j}, q);
    }

    /** The bucket of an id on an open position still has room: this bounds the inner scan. */
    lemma HasRoom(v: seq<Id>, off: seq<nat>, start: seq<nat>, i: nat)
      requires Partial(v, off, start) && i in Open(off)
      ensures i < |v| && hash(v[i]) in buckets && off[hash(v[i])] < border[hash(v[i])]
    {
      CountWithout(v, Open(off), i, hash(v[i]));
    }

    lemma PassOpens(v: seq<Id>, off: seq<nat>, start: seq<nat>, q: nat)
      requires Describes(start, |v|) && |off| == |border| && q in buckets && start[q] <= off[q] < border[q]
      ensures off[q] in owner && owner[off[q]] == q && off[q] in Open(off)
      ensures Open(off[q := off[q] + 1]) == Open(off) - {off[q]}
    {
      assert off[q] in owner && owner[off[q]] == q;
    }

    /** Passing a position that holds an id of its owner. */
    lemma Pass(v: seq<Id>, off: seq<nat>, start: seq<nat>, q: nat)
      requires Partial(v, off, start) && q in buckets && off[q] < border[q] && hash(v[off[q]]) == q
      ensures off[q] in Open(off) && Open(off[q := off[q] + 1]) == Open(off) - {off[q]}
      ensures Partial(v, off[q := off[q] + 1], start)
    {
      hide Open, Count;
      var x, after := off[q], off[q := off[q] + 1];
      PassOpens(v, off, start, q);
      forall p | p in buckets
        ensures after[p] <= border[p] && Count(v, Open(after), p) == border[p] - after[p]
      {
        CountWithout(v, Open(off), x, p);
      }
    }

    /** Exchanging the open positions `i` and `j` keeps everything in balance. */
    lemma Exchange(v: seq<Id>, off: seq<nat>, start: seq<nat>, i: nat, j: nat)
      requires Partial(v, off, start) && i in Open(off) && j in Open(off) && i != j
      ensures i < |v| && j < |v|
      ensures Partial(v[i := v[j]][j := v[i]], off, start)
      ensures multiset(v[i := v[j]][j := v[i]]) == multiset(v)
    {
      hide Count, Describes;
      OpenInBounds(v, off, i);
      OpenInBounds(v, off, j);
      ExchangeCounts(v, off, i, j);
      ExchangePlaced(v, off, i, j);
      DescribesSize(start, v, v[i := v[j]][j := v[i]]);
    }

    lemma DescribesSize(start: seq<nat>, v: seq<Id>, w: seq<Id>)
      requires Describes(start, |v|) && |v| == |w|
      ensures Describes(start, |w|)
    {
    }

    lemma ExchangePlaced(v: seq<Id>, off: seq<nat>, i: nat, j: nat)
      requires Balanced(v, off) && i in Open(off) && j in Open(off) && i < |v| && j < |v|
      ensures var w := v[i := v[j]][j := v[i]];
              && (forall x :: x in owner ==> hash(w[x]) in buckets)
              && (forall x :: x in owner && x < off[owner[x]] ==> w[x] == v[x])
    {
      hide Count;
      var w := v[i := v[j]][j := v[i]];
      assert forall x :: x in owner ==> w[x] in {v[x], v[i], v[j]};
    }

    lemma OpenInBounds(v: seq<Id>, off: seq<nat>, i: nat)
      requires Balanced(v, off) && i in Open(off)
      ensures i < |v| && i in owner && owner[i] < |off| && off[owner[i]] <= i
    {
    }

    lemma ExchangeCounts(v: seq<Id>, off: seq<nat>, i: nat, j: nat)
      requires Balanced(v, off) && i in Open(off) && j in Open(off) && i != j && i < |v| && j < |v|
      ensures forall p :: p in buckets ==> Count(v[i := v[j]][j := v[i]], Open(off), p) == border[p] - off[p]
    {
      hide Open, Count;
      forall p | p in buckets ensures Count(v[i := v[j]][j := v[i]], Open(off), p) == border[p] - off[p] {
        CountSwap(v, Open(off), i, j, p);
      }
    }

    /** The carried id at `i` goes to `j`, in its own region, and the id found there is carried on. */
    lemma ExchangeAndPass(v: seq<Id>, off: seq<nat>, start: seq<nat>, p: nat, q: nat, i: nat, j: nat)
      requires Partial(v, off, start) && p in buckets && q in buckets && p != q
      requires off[p] == i < border[p] && off[q] == j < border[q] && i < |v| && j < |v| && hash(v[i]) == q
      ensures Partial(v[i := v[j]][j := v[i]], off[q := j + 1], start)
      ensures multiset(v[i := v[j]][j := v[i]]) == multiset(v)
      ensures |Open(off[q := j + 1])| < |Open(off)|
      ensures i in owner && j in owner
    {
      hide Open, Balanced;
      OpenAt(v, off, start, p);
      OpenAt(v, off, start, q);
      Exchange(v, off, start, i, j);
      Pass(v[i := v[j]][j := v[i]], off, start, q);
    }

    lemma OpenAt(v: seq<Id>, off: seq<nat>, start: seq<nat>, p: nat)
      requires Partial(v, off, start) && p in buckets && off[p] < border[p]
      ensures off[p] in Open(off) && off[p] < |v| && off[p] in owner && owner[off[p]] == p
    {
    }

    /** When every bucket has reached its border, each position holds an id of its owner. */
    lemma AllPlaced(v: seq<Id>, off: seq<nat>, start: seq<nat>)
      requires Partial(v, off, start) && forall p :: p in buckets ==> off[p] == border[p]
      ensures forall x :: x in owner ==> x < |v| && hash(v[x]) == owner[x]
    {
    }
  }

  /** What stays put around the regions. */
  ghost predicate SameOutside(g: Regions, v: seq<Id>, w: seq<Id>) {
    |v| == |w| && forall x :: 0 <= x < |v| && x !in g.owner ==> v[x] == w[x]
  }

  lemma SameOutsideItself(g: Regions, v: seq<Id>)
    ensures SameOutside(g, v, v)
  {
  }

  lemma SameOutsideStep(g: Regions, v: seq<Id>, w: seq<Id>, i: nat, j: nat)
    requires SameOutside(g, v, w) && i in g.owner && j in g.owner && i < |v| && j < |v|
    ensures SameOutside(g, v[i := v[j]][j := v[i]], w)
  {
  }

  method ShuffleInOrder(ids: array<Id>, hash: Id -> nat, offset: array<nat>, border: seq<nat>, order: seq<nat>,
                        ghost g: Regions)
    requires g.hash == hash && g.border == border && g.buckets == set p | p in order
    requires g.Describes(offset[..], ids.Length) && g.Balanced(ids[..], offset[..])
    modifies ids, offset
    ensures multiset(ids[..]) == multiset(old(ids[..])) && SameOutside(g, ids[..], old(ids[..]))
    ensures forall x :: x in g.owner ==> x < ids.Length && hash(ids[x]) == g.owner[x]
    ensures forall p :: 0 <= p < offset.Length ==> offset[p] == if p in g.buckets then border[p] else old(offset[p])
  {
    hide Regions.Partial, Regions.Open, Regions.Balanced, Regions.Describes;
    ghost var start, before := offset[..], ids[..];
    PartialAtStart(g, before, start);
    for rank := 0 to |order|
      invariant g.Partial(ids[..], offset[..], start)
      invariant multiset(ids[..]) == multiset(before) && SameOutside(g, ids[..], before)
      invariant forall r :: 0 <= r < rank ==> order[r] < |border| == offset.Length && offset[order[r]] == border[order[r]]
      invariant forall p :: 0 <= p < offset.Length && p !in g.buckets ==> offset[p] == start[p]
    {
      FillRegion(ids, hash, offset, border, order[rank], g, start);
    }
    FinishShuffle(g, ids[..], offset[..], start, order);
  }

  lemma PartialAtStart(g: Regions, v: seq<Id>, start: seq<nat>)
    requires g.Describes(start, |v|) && g.Balanced(v, start)
    ensures g.Partial(v, start, start)
  {
  }

  lemma FinishShuffle(g: Regions, v: seq<Id>, off: seq<nat>, start: seq<nat>, order: seq<nat>)
    requires g.Partial(v, off, start) && g.buckets == set p | p in order
    requires forall r :: 0 <= r < |order| ==> order[r] < |off| == |g.border| && off[order[r]] == g.border[order[r]]
    ensures |off| == |start| == |g.border|
    ensures forall x :: x in g.owner ==> x < |v| && g.hash(v[x]) == g.owner[x]
    ensures forall p :: p in g.buckets ==> p < |off| && off[p] == g.border[p]
  {
    g.AllPlaced(v, off, start);
  }

  /** Fills the region of bucket `p` completely, chasing displaced ids through the other regions. */
  method FillRegion(ids: array<Id>, hash: Id -> nat, offset: array<nat>, border: seq<nat>, p: nat,
                    ghost g: Regions, ghost start: seq<nat>)
    requires g.hash == hash && g.border == border && p in g.buckets
    requires g.Partial(ids[..], offset[..], start)
    modifies ids, offset
    ensures g.Partial(ids[..], offset[..], start)
    ensures multiset(ids[..]) == multiset(old(ids[..])) && SameOutside(g, ids[..], old(ids[..]))
    ensures p < |border| == offset.Length && offset[p] == border[p]
    ensures forall q :: 0 <= q < offset.Length && q !in g.buckets ==> offset[q] == old(offset[q])
    ensures forall q :: 0 <= q < offset.Length && old(offset[q]) == border[q] ==> offset[q] == border[q]
  {
    hide Regions.Partial, Regions.Open, Regions.Balanced, Regions.Describes;
    SizesAgree(g, ids[..], offset[..], start);
    while offset[p] < border[p]
      invariant g.Partial(ids[..], offset[..], start) && offset[p] <= border[p]
      invariant multiset(ids[..]) == multiset(old(ids[..])) && SameOutside(g, ids[..], old(ids[..]))
      invariant forall q :: 0 <= q < offset.Length && q !in g.buckets ==> offset[q] == old(offset[q])
      invariant forall q :: 0 <= q < offset.Length && old(offset[q]) == border[q] ==> offset[q] == border[q]
      decreases |g.Open(offset[..])|
    {
      var i := offset[p];
      g.OpenAt(ids[..], offset[..], start, p);
      if hash(ids[i]) != p {
        ChaseCycle(ids, hash, offset, border, p, g, start);
      }
      g.Pass(ids[..], offset[..], start, p);
      ghost var passed := offset[..][p := i + 1];
      offset[p] := i + 1;
      assert offset[..] == passed;
      SizesAgree(g, ids[..], offset[..], start);
    }
  }

  lemma SizesAgree(g: Regions, v: seq<Id>, off: seq<nat>, start: seq<nat>)
    requires g.Partial(v, off, start)
    ensures |off| == |start| == |g.border|
    ensures forall q :: q in g.buckets ==> q < |off| && off[q] <= g.border[q]
  {
  }

  /** From the open position `i` of bucket `p`: carries ids along until one of bucket `p` comes back. */
  method ChaseCycle(ids: array<Id>, hash: Id -> nat, offset: array<nat>, border: seq<nat>, p: nat,
                    ghost g: Regions, ghost start: seq<nat>)
    requires g.hash == hash && g.border == border && p in g.buckets && offset.Length == |border|
    requires g.Partial(ids[..], offset[..], start)
    requires p < |border| && offset[p] < border[p] && offset[p] < ids.Length && hash(ids[offset[p]]) != p
    modifies ids, offset
    ensures g.Partial(ids[..], offset[..], start)
    ensures multiset(ids[..]) == multiset(old(ids[..])) && SameOutside(g, ids[..], old(ids[..]))
    ensures offset[p] == old(offset[p]) && hash(ids[offset[p]]) == p
    ensures forall q :: 0 <= q < offset.Length && q !in g.buckets ==> offset[q] == old(offset[q])
    ensures forall q :: 0 <= q < offset.Length && old(offset[q]) == border[q] ==> offset[q] == border[q]
    ensures |g.Open(offset[..])| <= |g.Open(old(offset[..]))|
  {
    hide Regions.Partial, Regions.Open, Regions.Balanced, Regions.Describes, SameOutside;
    SameOutsideItself(g, ids[..]);
    var i := offset[p];
    var tmp := ids[i];
    var q := hash(tmp);
    ghost var v := ids[..];
    while q != p
      invariant offset[p] == i && hash(tmp) == q && v == ids[..][i := tmp]
      invariant g.Partial(v, offset[..], start)
      invariant multiset(v) == multiset(old(ids[..])) && SameOutside(g, v, old(ids[..]))
      invariant forall k :: 0 <= k < offset.Length && k !in g.buckets ==> offset[k] == old(offset[k])
      invariant forall k :: 0 <= k < offset.Length && old(offset[k]) == border[k] ==> offset[k] == border[k]
      invariant |g.Open(offset[..])| <= |g.Open(old(offset[..]))|
      decreases |g.Open(offset[..])|
    {
      var j, qx := ScanOwn(ids, hash, offset, border, p, i, q, tmp, v, g, start);
      ghost var held := offset[..][q := j];
      assert held[q := j + 1] == offset[..];
      g.ExchangeAndPass(v, held, start, p, q, i, j);
      SameOutsideStep(g, v, old(ids[..]), i, j);
      v := v[i := v[j]][j := tmp];
      tmp, ids[j] := ids[j], tmp;
      q := qx;
      assert v == ids[..][i := tmp];
    }
    ids[i] := tmp;
    assert ids[..] == v;
  }

  /** Advances the offset of bucket `q` over the ids that are already in place, up to and including
      the first foreign one. The scan cannot leave the region. */
  method ScanOwn(ids: array<Id>, hash: Id -> nat, offset: array<nat>, border: seq<nat>, p: nat, i: nat, q: nat,
                 ghost tmp: Id, ghost v: seq<Id>, ghost g: Regions, ghost start: seq<nat>) returns (j: nat, qx: nat)
    requires g.hash == hash && g.border == border && offset.Length == |border| && p != q
    requires i < ids.Length && v == ids[..][i := tmp] && hash(tmp) == q
    requires p in g.buckets && p < |border| && offset[p] == i < border[p]
    requires g.Partial(v, offset[..], start)
    modifies offset
    ensures q in g.buckets && q < offset.Length && offset[q] == j + 1 && i != j < ids.Length && j < border[q]
    ensures qx == hash(ids[j]) && qx != q
    ensures g.Partial(v, offset[..][q := j], start)
    ensures forall k :: 0 <= k < offset.Length && k != q ==> offset[k] == old(offset[k])
    ensures old(offset[q]) < border[q]
    ensures |g.Open(offset[..][q := j])| <= |g.Open(old(offset[..]))|
  {
    hide Regions.Partial, Regions.Open, Regions.Balanced, Regions.Describes;
    Room(v, offset[..], start, p, q, i, g);
    j := offset[q];
    offset[q] := j + 1;
    qx := hash(ids[j]);
    ghost var held := old(offset[..]);
    assert held == offset[..][q := j];
    while qx == q
      invariant q in g.buckets && q < offset.Length && offset[q] == j + 1 && i != j < ids.Length && j < border[q]
      invariant qx == hash(ids[j])
      invariant held == offset[..][q := j] && g.Partial(v, held, start)
      invariant forall k :: 0 <= k < offset.Length && k != q ==> offset[k] == old(offset[k])
      invariant |g.Open(held)| <= |g.Open(old(offset[..]))|
      decreases border[q] - j
    {
      assert v[j] == ids[j];
      g.Pass(v, held, start, q);
      held := held[q := j + 1];
      Room(v, held, start, p, q, i, g);
      j := offset[q];
      offset[q] := j + 1;
      qx := hash(ids[j]);
      assert held == offset[..][q := j];
    }
  }

  lemma Room(v: seq<Id>, off: seq<nat>, start: seq<nat>, p: nat, q: nat, i: nat, g: Regions)
    requires g.Partial(v, off, start) && p != q
    requires p in g.buckets && p < |off| == |g.border| && off[p] == i < g.border[p] && i < |v| && g.hash(v[i]) == q
    ensures q in g.buckets && q < |off| && off[q] < g.border[q] && off[q] < |v| && off[q] != i
  {
    g.OpenAt(v, off, start, p);
    g.HasRoom(v, off, start, i);
    g.OpenAt(v, off, start, q);
  }
}
