/** Counting ids per slot and scattering them stably, with a ring of pending slots in between. */
module Scatter {
  import opened Ids
  import opened Permutation

  const BATCH: nat := 32

  // ---- The simple forms -------------------------------------------------------------------------

  /** The counters after the first `n` slots have been bumped one by one. */
  function CountsAfter(start: seq<nat>, slots: seq<nat>, n: nat): (c: seq<nat>)
    requires n <= |slots| && Bounded(slots, |start|)
    ensures |c| == |start|
  {
    if n == 0 then start else
      var c := CountsAfter(start, slots, n - 1);
      c[slots[n - 1] := c[slots[n - 1]] + 1]
  }

  /** The largest counter value seen right after a bump. */
  function MaxAfter(start: seq<nat>, slots: seq<nat>, n: nat): nat
    requires n <= |slots| && Bounded(slots, |start|)
  {
    if n == 0 then 0 else
      var m, bumped := MaxAfter(start, slots, n - 1), CountsAfter(start, slots, n)[slots[n - 1]];
      if bumped > m then bumped else m
  }

  /** Where item `i` goes: the offset of its slot when its turn comes. */
  function Dest(start: seq<nat>, slots: seq<nat>, i: nat): nat
    requires i < |slots| && Bounded(slots, |start|)
  {
    CountsAfter(start, slots, i)[slots[i]]
  }

  ghost predicate DestsInside(start: seq<nat>, slots: seq<nat>, size: nat)
    requires Bounded(slots, |start|)
  {
    forall i :: 0 <= i < |slots| ==> Dest(start, slots, i) < size
  }

  /** The target after the first `n` items have been written one by one. */
  function TargetAfter<T>(target: seq<T>, items: seq<T>, start: seq<nat>, slots: seq<nat>, n: nat): (t: seq<T>)
    requires n <= |slots| == |items| && Bounded(slots, |start|) && DestsInside(start, slots, |target|)
    ensures |t| == |target|
  {
    if n == 0 then target
    else TargetAfter(target, items, start, slots, n - 1)[Dest(start, slots, n - 1) := items[n - 1]]
  }

  // ---- What the simple forms compute ------------------------------------------------------------

  lemma {:induction false} CountsExact(start: seq<nat>, slots: seq<nat>, n: nat)
    requires n <= |slots| && Bounded(slots, |start|)
    ensures forall s :: 0 <= s < |start| ==> CountsAfter(start, slots, n)[s] == start[s] + multiset(slots[..n])[s]
  {
    if n == 0 {
      assert slots[..0] == [];
    } else {
      CountsExact(start, slots, n - 1);
      assert slots[..n] == slots[..n - 1] + [slots[n - 1]];
    }
  }

  /** Every slot gets its exact count, and the maximum is the largest final count of a used slot. */
  lemma {:induction false} MaxExact(start: seq<nat>, slots: seq<nat>, n: nat)
    requires n <= |slots| && Bounded(slots, |start|)
    ensures forall i :: 0 <= i < n ==> CountsAfter(start, slots, n)[slots[i]] <= MaxAfter(start, slots, n)
    ensures n > 0 ==> exists i :: 0 <= i < n && CountsAfter(start, slots, n)[slots[i]] == MaxAfter(start, slots, n)
  {
    if n > 0 {
      MaxExact(start, slots, n - 1);
      var c, d := CountsAfter(start, slots, n - 1), CountsAfter(start, slots, n);
      var s := slots[n - 1];
      if MaxAfter(start, slots, n) == d[s] {
        assert d[slots[n - 1]] == MaxAfter(start, slots, n);
      } else {
        assert n > 1;
        var i :| 0 <= i < n - 1 && c[slots[i]] == MaxAfter(start, slots, n - 1);
        assert d[slots[i]] == MaxAfter(start, slots, n);
      }
    }
  }

  lemma DestExact(start: seq<nat>, slots: seq<nat>, i: nat)
    requires i < |slots| && Bounded(slots, |start|)
    ensures Dest(start, slots, i) == start[slots[i]] + multiset(slots[..i])[slots[i]]
    ensures multiset(slots[..i])[slots[i]] < multiset(slots)[slots[i]]
  {
    CountsExact(start, slots, i);
    assert slots == slots[..i] + [slots[i]] + slots[i + 1..];
  }

  /** Each slot owns a stretch of the target just long enough for its items. */
  ghost predicate Tiled(start: seq<nat>, slots: seq<nat>, size: nat) {
    && Bounded(slots, |start|)
    && (forall s :: 0 <= s < |start| && multiset(slots)[s] > 0 ==> start[s] + multiset(slots)[s] <= size)
    && (forall s, r :: 0 <= s < |start| && 0 <= r < |start| && s != r && multiset(slots)[s] > 0 && multiset(slots)[r] > 0
          ==> start[s] + multiset(slots)[s] <= start[r] || start[r] + multiset(slots)[r] <= start[s])
  }

  /** Stability and separation: items of one slot keep their order, items of different slots never meet. */
  lemma DestOrdered(start: seq<nat>, slots: seq<nat>, size: nat, i: nat, j: nat)
    requires Tiled(start, slots, size) && i < j < |slots|
    ensures Dest(start, slots, i) < size && Dest(start, slots, i) != Dest(start, slots, j)
    ensures slots[i] == slots[j] ==> Dest(start, slots, i) < Dest(start, slots, j)
    ensures slots[i] != slots[j] && start[slots[i]] <= start[slots[j]] ==> Dest(start, slots, i) < Dest(start, slots, j)
    ensures slots[i] != slots[j] && start[slots[j]] <= start[slots[i]] ==> Dest(start, slots, j) < Dest(start, slots, i)
  {
    DestExact(start, slots, i);
    DestExact(start, slots, j);
    if slots[i] == slots[j] {
      assert slots[..j] == slots[..i] + [slots[i]] + slots[i + 1..j];
    }
  }

  function DestSeq(start: seq<nat>, slots: seq<nat>): seq<nat>
    requires Bounded(slots, |start|)
  {
    seq(|slots|, i requires 0 <= i < |slots| => Dest(start, slots, i))
  }

  lemma DestsInjective(start: seq<nat>, slots: seq<nat>, size: nat)
    requires Tiled(start, slots, size)
    ensures Injective(DestSeq(start, slots)) && Bounded(DestSeq(start, slots), size) && DestsInside(start, slots, size)
  {
    var f := DestSeq(start, slots);
    forall i | 0 <= i < |slots| ensures Dest(start, slots, i) < size {
      DestExact(start, slots, i);
    }
    forall i, j | 0 <= i < j < |f| ensures f[i] != f[j] {
      DestOrdered(start, slots, size, i, j);
    }
  }

  lemma {:induction false} TargetHolds<T>(target: seq<T>, items: seq<T>, start: seq<nat>, slots: seq<nat>, n: nat)
    requires n <= |slots| == |items| && Tiled(start, slots, |target|) && DestsInside(start, slots, |target|)
    ensures forall i :: 0 <= i < n ==> TargetAfter(target, items, start, slots, n)[Dest(start, slots, i)] == items[i]
  {
    if n > 0 {
      TargetHolds(target, items, start, slots, n - 1);
      forall i | 0 <= i < n - 1 ensures Dest(start, slots, i) != Dest(start, slots, n - 1) {
        DestOrdered(start, slots, |target|, i, n - 1);
      }
    }
  }

  /** A scatter onto exactly tiled stretches is a rearrangement in which item `i` sits at its own place. */
  lemma ScatterRearranges<T>(target: seq<T>, items: seq<T>, start: seq<nat>, slots: seq<nat>)
    requires |slots| == |items| == |target| && Tiled(start, slots, |target|)
    ensures DestsInside(start, slots, |target|)
    ensures var t := TargetAfter(target, items, start, slots, |slots|);
            && multiset(t) == multiset(items)
            && forall i :: 0 <= i < |items| ==> t[Dest(start, slots, i)] == items[i]
  {
    DestsInjective(start, slots, |target|);
    TargetHolds(target, items, start, slots, |slots|);
    Rearranged(items, TargetAfter(target, items, start, slots, |slots|), DestSeq(start, slots));
  }

  // ---- The ring-buffered forms ------------------------------------------------------------------

  function SlotsOf(items: seq<Id>, slot: Id -> nat): (s: seq<nat>)
    ensures |s| == |items|
  {
    seq(|items|, i requires 0 <= i < |items| => slot(items[i]))
  }

  /** The ring holds the pending entries `lo, .., hi - 1` of `f`, entry `x` in cell `x % BATCH`. */
  ghost predicate Pending(ring: seq<nat>, f: nat -> nat, lo: int, hi: int) {
    |ring| == BATCH && forall x: nat :: lo <= x < hi ==> ring[x % BATCH] == f(x)
  }

  lemma PendingReplace(ring: seq<nat>, f: nat -> nat, i: nat, value: nat)
    requires i >= BATCH && Pending(ring, f, i - BATCH, i) && value == f(i)
    ensures Pending(ring[i % BATCH := value], f, i + 1 - BATCH, i + 1)
  {
  }

  ghost function SlotAt(slots: seq<nat>): nat -> nat {
    (x: nat) => if x < |slots| then slots[x] else 0
  }

  method Counting(ids: seq<Id>, slot: Id -> nat, cnt: array<nat>, prefetch: bool) returns (max: nat)
    requires Bounded(SlotsOf(ids, slot), cnt.Length)
    modifies cnt
    ensures cnt[..] == CountsAfter(old(cnt[..]), SlotsOf(ids, slot), |ids|)
    ensures max == MaxAfter(old(cnt[..]), SlotsOf(ids, slot), |ids|)
  {
    hide CountsAfter, MaxAfter, Pending;
    ghost var start, slots := cnt[..], SlotsOf(ids, slot);
    var total := |ids|;
    max := 0;
    CountStart(start, slots);
    if !prefetch || total < BATCH {
      for i := 0 to total
        invariant cnt[..] == CountsAfter(start, slots, i) && max == MaxAfter(start, slots, i)
      {
        max := Bump(cnt, slot(ids[i]), max, start, slots, i);
      }
    } else {
      var ring := FillRing(ids, slot);
      for i := BATCH to total
        invariant ring.Length == BATCH && Pending(ring[..], SlotAt(slots), i - BATCH, i)
        invariant cnt[..] == CountsAfter(start, slots, i - BATCH) && max == MaxAfter(start, slots, i - BATCH)
      {
        TakePending(ring[..], slots, i - BATCH, i);
        max := Bump(cnt, ring[i % BATCH], max, start, slots, i - BATCH);
        PendingReplace(ring[..], SlotAt(slots), i, slot(ids[i]));
        ring[i % BATCH] := slot(ids[i]);
      }
      for i := total to total + BATCH
        invariant ring.Length == BATCH && Pending(ring[..], SlotAt(slots), total - BATCH, total)
        invariant cnt[..] == CountsAfter(start, slots, i - BATCH) && max == MaxAfter(start, slots, i - BATCH)
      {
        TakeLate(ring[..], slots, i - BATCH, total);
        max := Bump(cnt, ring[i % BATCH], max, start, slots, i - BATCH);
      }
    }
  }

  lemma CountStart(start: seq<nat>, slots: seq<nat>)
    requires Bounded(slots, |start|)
    ensures CountsAfter(start, slots, 0) == start && MaxAfter(start, slots, 0) == 0
  {
  }

  lemma TakePending(ring: seq<nat>, slots: seq<nat>, x: nat, hi: nat)
    requires Pending(ring, SlotAt(slots), x, hi) && x < hi && x < |slots|
    ensures |ring| == BATCH && ring[(x + BATCH) % BATCH] == slots[x]
  {
    assert (x + BATCH) % BATCH == x % BATCH;
  }

  lemma TakeLate(ring: seq<nat>, slots: seq<nat>, x: nat, total: nat)
    requires Pending(ring, SlotAt(slots), total - BATCH, total) && total - BATCH <= x < total == |slots|
    ensures |ring| == BATCH && ring[(x + BATCH) % BATCH] == slots[x]
  {
    assert (x + BATCH) % BATCH == x % BATCH;
  }

  method Bump(cnt: array<nat>, s: nat, max: nat, ghost start: seq<nat>, ghost slots: seq<nat>, ghost n: nat)
    returns (m: nat)
    requires n < |slots| && Bounded(slots, |start|) && s == slots[n]
    requires cnt[..] == CountsAfter(start, slots, n) && max == MaxAfter(start, slots, n)
    modifies cnt
    ensures cnt[..] == CountsAfter(start, slots, n + 1) && m == MaxAfter(start, slots, n + 1)
  {
    assert cnt.Length == |start|;
    var tmp := cnt[s] + 1;
    cnt[s] := tmp;
    assert cnt[..] == old(cnt[..])[s := tmp];
    m := if tmp > max then tmp else max;
  }

  method FillRing(ids: seq<Id>, slot: Id -> nat) returns (ring: array<nat>)
    requires |ids| >= BATCH
    ensures fresh(ring) && ring.Length == BATCH && Pending(ring[..], SlotAt(SlotsOf(ids, slot)), 0, BATCH)
  {
    ring := new nat[BATCH];
    for i := 0 to BATCH
      invariant forall x :: 0 <= x < i ==> ring[x] == slot(ids[x])
    {
      ring[i] := slot(ids[i]);
    }
  }

  ghost function DestAt(start: seq<nat>, slots: seq<nat>): nat -> nat
    requires Bounded(slots, |start|)
  {
    (x: nat) => if x < |slots| then Dest(start, slots, x) else 0
  }

  /** The scatter into `shadow`: a place is reserved one ring later than its slot is read, and written
      one ring later still, with the same outcome as the plain loop. */
  method ShuffleInto(ids: seq<Id>, shadow: array<Id>, slot: Id -> nat, offset: array<nat>)
    requires Bounded(SlotsOf(ids, slot), offset.Length)
    requires DestsInside(offset[..], SlotsOf(ids, slot), shadow.Length)
    modifies shadow, offset
    ensures offset[..] == CountsAfter(old(offset[..]), SlotsOf(ids, slot), |ids|)
    ensures shadow[..] == TargetAfter(old(shadow[..]), ids, old(offset[..]), SlotsOf(ids, slot), |ids|)
  {
    hide CountsAfter, TargetAfter, Dest, Pending, DestsInside;
    ghost var start, slots, target := offset[..], SlotsOf(ids, slot), shadow[..];
    var total := |ids|;
    ScatterStart(target, ids, start, slots);
    if total < BATCH * 2 {
      for i := 0 to total
        invariant offset[..] == CountsAfter(start, slots, i)
        invariant shadow[..] == TargetAfter(target, ids, start, slots, i)
      {
        DestInside(start, slots, shadow.Length, i);
        var place := Reserve(offset, slot(ids[i]), start, slots, i);
        Put(shadow, place, ids[i], target, ids, start, slots, i);
      }
    } else {
      var poff := FillRing(ids, slot);
      var pout := new nat[BATCH];
      RingStart(pout[..], start, slots);
      for i := BATCH to BATCH * 2
        invariant poff.Length == BATCH && Pending(poff[..], SlotAt(slots), i - BATCH, i)
        invariant pout.Length == BATCH && Pending(pout[..], DestAt(start, slots), i - BATCH * 2, i - BATCH)
        invariant offset[..] == CountsAfter(start, slots, i - BATCH) && shadow[..] == target
      {
        Advance(poff, pout, ids, slot, offset, start, slots, shadow.Length, i);
        poff[i % BATCH] := slot(ids[i]);
      }
      for i := BATCH * 2 to total
        invariant poff.Length == BATCH && Pending(poff[..], SlotAt(slots), i - BATCH, i)
        invariant pout.Length == BATCH && Pending(pout[..], DestAt(start, slots), i - BATCH * 2, i - BATCH)
        invariant offset[..] == CountsAfter(start, slots, i - BATCH)
        invariant shadow[..] == TargetAfter(target, ids, start, slots, i - BATCH * 2)
      {
        PutPending(pout, shadow, target, ids, start, slots, i, i - BATCH);
        Advance(poff, pout, ids, slot, offset, start, slots, shadow.Length, i);
        poff[i % BATCH] := slot(ids[i]);
      }
      for i := total to total + BATCH
        invariant poff.Length == BATCH && Pending(poff[..], SlotAt(slots), total - BATCH, total)
        invariant pout.Length == BATCH && Pending(pout[..], DestAt(start, slots), i - BATCH * 2, i - BATCH)
        invariant offset[..] == CountsAfter(start, slots, i - BATCH)
        invariant shadow[..] == TargetAfter(target, ids, start, slots, i - BATCH * 2)
      {
        PutPending(pout, shadow, target, ids, start, slots, i, i - BATCH);
        AdvanceLate(poff, pout, offset, start, slots, total, i);
      }
      for i := total + BATCH to total + BATCH * 2
        invariant pout.Length == BATCH && Pending(pout[..], DestAt(start, slots), total - BATCH, total)
        invariant offset[..] == CountsAfter(start, slots, total)
        invariant shadow[..] == TargetAfter(target, ids, start, slots, i - BATCH * 2)
      {
        PutPending(pout, shadow, target, ids, start, slots, i, total);
      }
    }
  }

  lemma ScatterStart<T>(target: seq<T>, items: seq<T>, start: seq<nat>, slots: seq<nat>)
    requires |slots| == |items| && Bounded(slots, |start|) && DestsInside(start, slots, |target|)
    ensures CountsAfter(start, slots, 0) == start && TargetAfter(target, items, start, slots, 0) == target
  {
  }

  lemma RingStart(ring: seq<nat>, start: seq<nat>, slots: seq<nat>)
    requires |ring| == BATCH && Bounded(slots, |start|)
    ensures Pending(ring, DestAt(start, slots), BATCH - BATCH * 2, 0)
  {
  }

  lemma DestInside(start: seq<nat>, slots: seq<nat>, size: nat, i: nat)
    requires Bounded(slots, |start|) && DestsInside(start, slots, size) && i < |slots|
    ensures Dest(start, slots, i) < size
  {
  }

  /** Takes the next place of a slot. */
  method Reserve(offset: array<nat>, s: nat, ghost start: seq<nat>, ghost slots: seq<nat>, ghost n: nat)
    returns (place: nat)
    requires n < |slots| && Bounded(slots, |start|) && s == slots[n]
    requires offset[..] == CountsAfter(start, slots, n)
    modifies offset
    ensures offset[..] == CountsAfter(start, slots, n + 1) && place == Dest(start, slots, n)
  {
    assert offset.Length == |start|;
    place := offset[s];
    offset[s] := place + 1;
    assert offset[..] == old(offset[..])[s := place + 1];
  }

  method Put<T>(shadow: array<T>, place: nat, id: T, ghost target: seq<T>, ghost ids: seq<T>,
             ghost start: seq<nat>, ghost slots: seq<nat>, ghost n: nat)
    requires n < |slots| == |ids| && Bounded(slots, |start|) && DestsInside(start, slots, |target|)
    requires place == Dest(start, slots, n) && id == ids[n]
    requires shadow[..] == TargetAfter(target, ids, start, slots, n)
    modifies shadow
    ensures shadow[..] == TargetAfter(target, ids, start, slots, n + 1)
  {
    hide Dest;
    assert shadow.Length == |target|;
    DestInside(start, slots, |target|, n);
    shadow[place] := id;
    assert shadow[..] == old(shadow[..])[place := id];
  }

  /** Writes the item whose place has been waiting in the ring the longest. */
  method PutPending(pout: array<nat>, shadow: array<Id>, ghost target: seq<Id>, ids: seq<Id>,
                    ghost start: seq<nat>, ghost slots: seq<nat>, i: nat, ghost hi: nat)
    requires BATCH * 2 <= i && i - BATCH * 2 < |ids| == |slots| && Bounded(slots, |start|)
    requires DestsInside(start, slots, |target|)
    requires i - BATCH * 2 < hi && pout.Length == BATCH
    requires exists lo :: lo <= i - BATCH * 2 && Pending(pout[..], DestAt(start, slots), lo, hi)
    requires shadow[..] == TargetAfter(target, ids, start, slots, i - BATCH * 2)
    modifies shadow
    ensures shadow[..] == TargetAfter(target, ids, start, slots, i - BATCH * 2 + 1)
  {
    assert pout[i % BATCH] == Dest(start, slots, i - BATCH * 2) by {
      var lo :| lo <= i - BATCH * 2 && Pending(pout[..], DestAt(start, slots), lo, hi);
      assert (i - BATCH * 2) % BATCH == i % BATCH;
      assert pout[i % BATCH] == pout[..][(i - BATCH * 2) % BATCH];
    }
    Put(shadow, pout[i % BATCH], ids[i - BATCH * 2], target, ids, start, slots, i - BATCH * 2);
  }

  /** Reserves the place of the slot read one ring ago; the caller then reads the next slot into the ring. */
  method Advance(poff: array<nat>, pout: array<nat>, ids: seq<Id>, slot: Id -> nat, offset: array<nat>,
                 ghost start: seq<nat>, ghost slots: seq<nat>, ghost size: nat, i: nat)
    requires slots == SlotsOf(ids, slot) && Bounded(slots, |start|)
    requires BATCH <= i < |ids| && poff != pout && poff != offset && pout != offset
    requires poff.Length == BATCH && Pending(poff[..], SlotAt(slots), i - BATCH, i)
    requires pout.Length == BATCH && Pending(pout[..], DestAt(start, slots), i - BATCH * 2, i - BATCH)
    requires offset[..] == CountsAfter(start, slots, i - BATCH)
    modifies offset, pout
    ensures Pending(poff[..][i % BATCH := slots[i]], SlotAt(slots), i + 1 - BATCH, i + 1)
    ensures Pending(pout[..], DestAt(start, slots), i + 1 - BATCH * 2, i + 1 - BATCH)
    ensures offset[..] == CountsAfter(start, slots, i + 1 - BATCH)
  {
    hide CountsAfter, Dest, Pending;
    TakePending(poff[..], slots, i - BATCH, i);
    PendingReplace(poff[..], SlotAt(slots), i, slots[i]);
    var place := Reserve(offset, poff[i % BATCH], start, slots, i - BATCH);
    ReplaceDest(pout[..], start, slots, i, place);
    ghost var ring := pout[..][i % BATCH := place];
    pout[i % BATCH] := place;
    assert pout[..] == ring;
  }

  method AdvanceLate(poff: array<nat>, pout: array<nat>, offset: array<nat>,
                     ghost start: seq<nat>, ghost slots: seq<nat>, ghost total: nat, i: nat)
    requires Bounded(slots, |start|) && total == |slots| && BATCH * 2 <= total <= i < total + BATCH
    requires poff != pout && poff != offset && pout != offset
    requires poff.Length == BATCH && Pending(poff[..], SlotAt(slots), total - BATCH, total)
    requires pout.Length == BATCH && Pending(pout[..], DestAt(start, slots), i - BATCH * 2, i - BATCH)
    requires offset[..] == CountsAfter(start, slots, i - BATCH)
    modifies offset, pout
    ensures Pending(pout[..], DestAt(start, slots), i + 1 - BATCH * 2, i + 1 - BATCH)
    ensures offset[..] == CountsAfter(start, slots, i + 1 - BATCH)
  {
    hide CountsAfter, Dest, Pending;
    TakeLate(poff[..], slots, i - BATCH, total);
    var place := Reserve(offset, poff[i % BATCH], start, slots, i - BATCH);
    ReplaceDest(pout[..], start, slots, i, place);
    ghost var ring := pout[..][i % BATCH := place];
    pout[i % BATCH] := place;
    assert pout[..] == ring;
  }

  lemma ReplaceDest(ring: seq<nat>, start: seq<nat>, slots: seq<nat>, i: nat, place: nat)
    requires Bounded(slots, |start|) && BATCH <= i && i - BATCH < |slots|
    requires place == Dest(start, slots, i - BATCH)
    requires Pending(ring, DestAt(start, slots), i - BATCH * 2, i - BATCH)
    ensures Pending(ring[i % BATCH := place], DestAt(start, slots), i + 1 - BATCH * 2, i + 1 - BATCH)
  {
    assert (i - BATCH) % BATCH == i % BATCH;
  }
}
