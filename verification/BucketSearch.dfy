/** The displacement search of one bucket: find a seed that sends all of its ids to distinct free bits. */
module BucketSearch {
  import opened Words
  import opened Bits
  import opened Ids

  datatype BuildStatus = Ok | BadInput | FailToOutput | OutOfChance | Conflict

  const MINI_BATCH: nat := 32
  const TOTAL_TRIES: nat := 256

  /** Where an id goes under a seed: the displacement hash, modulo the number of places. */
  datatype Level2 = Level2(hash: L2Hash, range: nat) {
    function Spot(id: Id, sd: byte): nat
      requires range > 0
    {
      hash(id, sd) % range
    }

    /** All ids have their own free spot. */
    ghost predicate Fits(ids: seq<Id>, sd: byte, used: set<nat>)
      requires range > 0
    {
      && (forall i :: 0 <= i < |ids| ==> Spot(ids[i], sd) !in used)
      && (forall i, j :: 0 <= i < j < |ids| ==> Spot(ids[i], sd) != Spot(ids[j], sd))
    }

    ghost function Spots(ids: seq<Id>, sd: byte): set<nat>
      requires range > 0
    {
      set id | id in multiset(ids) :: Spot(id, sd)
    }

    lemma SpotsAppend(s: seq<Id>, t: seq<Id>, sd: byte)
      requires range > 0
      ensures Spots(s + t, sd) == Spots(s, sd) + Spots(t, sd)
    {
      assert forall id :: id in multiset(s + t) <==> id in multiset(s) || id in multiset(t);
    }

    lemma FitsAppend(s: seq<Id>, t: seq<Id>, sd: byte, used: set<nat>)
      requires range > 0
      ensures Fits(s + t, sd, used) <==> Fits(s, sd, used) && Fits(t, sd, used + Spots(s, sd))
    {
      var u := s + t;
      if Fits(u, sd, used) {
        assert forall i :: 0 <= i < |s| ==> s[i] == u[i];
        forall j | 0 <= j < |t| ensures Spot(t[j], sd) !in used + Spots(s, sd) {
          assert t[j] == u[|s| + j];
        }
        forall i, j | 0 <= i < j < |t| ensures Spot(t[i], sd) != Spot(t[j], sd) {
          assert t[i] == u[|s| + i] && t[j] == u[|s| + j];
        }
      }
      if Fits(s, sd, used) && Fits(t, sd, used + Spots(s, sd)) {
        forall i | 0 <= i < |s| ensures Spot(s[i], sd) in Spots(s, sd) {
          assert s[i] in multiset(s);
        }
      }
    }

    lemma FitsNone(sd: byte, used: set<nat>)
      requires range > 0
      ensures Fits([], sd, used) && Spots([], sd) == {}
    {
    }

    lemma FitsOne(id: Id, sd: byte, used: set<nat>)
      requires range > 0
      ensures Fits([id], sd, used) <==> Spot(id, sd) !in used
      ensures Spots([id], sd) == {Spot(id, sd)}
    {
    }

    lemma FitsApart(ids: seq<Id>, sd: byte, used: set<nat>)
      requires range > 0 && Fits(ids, sd, used)
      ensures Spots(ids, sd) !! used
    {
      forall id | id in multiset(ids) ensures Spot(id, sd) !in used {
        var i :| 0 <= i < |ids| && ids[i] == id;
      }
    }

    lemma SpotBounded(id: Id, sd: byte)
      requires range > 0
      ensures Spot(id, sd) < range
    {
    }

    /** Distinct spots are as many as the ids: a count that no reordering changes. */
    lemma {:induction false} FitsByCount(ids: seq<Id>, sd: byte, used: set<nat>)
      requires range > 0
      ensures |Spots(ids, sd)| <= |ids|
      ensures Fits(ids, sd, used) <==> Spots(ids, sd) !! used && |Spots(ids, sd)| == |ids|
    {
      if |ids| == 0 {
        assert Spots(ids, sd) == {};
      } else {
        var s, x := ids[..|ids| - 1], ids[|ids| - 1];
        assert ids == s + [x];
        FitsByCount(s, sd, used);
        SpotsAppend(s, [x], sd);
        FitsAppend(s, [x], sd, used);
        FitsOne(x, sd, used + Spots(s, sd));
      }
    }

    lemma FitsPermuted(s: seq<Id>, t: seq<Id>, sd: byte, used: set<nat>)
      requires range > 0 && multiset(s) == multiset(t)
      ensures Fits(s, sd, used) == Fits(t, sd, used) && Spots(s, sd) == Spots(t, sd)
    {
      FitsByCount(s, sd, used);
      FitsByCount(t, sd, used);
      assert |s| == |multiset(s)| == |multiset(t)| == |t|;
    }

    lemma DuplicatesNeverFit(ids: seq<Id>, sd: byte, used: set<nat>)
      requires range > 0 && Duplicates(ids)
      ensures !Fits(ids, sd, used)
    {
    }

    /** None of the first `k` seeds from `sd` on, in cyclic order, works. */
    ghost predicate NoFit(ids: seq<Id>, sd: byte, used: set<nat>, k: nat)
      requires range > 0
    {
      forall i :: 0 <= i < k ==> !Fits(ids, Seed(sd, i), used)
    }

    lemma NoFitJoin(ids: seq<Id>, sd: byte, used: set<nat>, a: nat, b: nat)
      requires range > 0 && NoFit(ids, sd, used, a) && NoFit(ids, Seed(sd, a), used, b)
      ensures NoFit(ids, sd, used, a + b) && Seed(Seed(sd, a), b) == Seed(sd, a + b)
    {
      hide Level2.Fits, Seed;
      SeedAdd(sd, a, b);
      forall i | a <= i < a + b ensures !Fits(ids, Seed(sd, i), used) {
        SeedAdd(sd, a, i - a);
        assert !Fits(ids, Seed(Seed(sd, a), i - a), used);
      }
    }

    lemma SearchPermuted(s: seq<Id>, t: seq<Id>, used: set<nat>)
      requires range > 0 && multiset(s) == multiset(t)
      ensures forall sd :: Fits(s, sd, used) == Fits(t, sd, used) && Spots(s, sd) == Spots(t, sd)
    {
      forall sd ensures Fits(s, sd, used) == Fits(t, sd, used) && Spots(s, sd) == Spots(t, sd) {
        FitsPermuted(s, t, sd, used);
      }
    }

    lemma SearchJoin(s: seq<Id>, t: seq<Id>, sd: byte, used: set<nat>, a: nat, b: nat)
      requires range > 0 && NoFit(s, sd, used, a) && NoFit(t, Seed(sd, a), used, b)
      requires forall x :: Fits(s, x, used) == Fits(t, x, used)
      ensures NoFit(s, sd, used, a + b) && Seed(Seed(sd, a), b) == Seed(sd, a + b)
    {
      assert NoFit(s, Seed(sd, a), used, b);
      NoFitJoin(s, sd, used, a, b);
    }

    lemma FoundSeed(ids: seq<Id>, sd: byte, used: set<nat>, k: nat)
      requires range > 0 && k < TOTAL_TRIES && Fits(ids, Seed(sd, k), used)
      ensures !Duplicates(ids)
      ensures exists k: nat :: k < TOTAL_TRIES && Fits(ids, Seed(sd, k), used)
    {
    }

    lemma NoneFits(ids: seq<Id>, sd: byte, used: set<nat>, k: nat)
      requires range > 0 && k == TOTAL_TRIES && NoFit(ids, sd, used, k)
      ensures !exists k: nat :: k < TOTAL_TRIES && Fits(ids, Seed(sd, k), used)
    {
    }

    lemma ConflictNeverFits(ids: seq<Id>, sd: byte, used: set<nat>)
      requires range > 0 && Duplicates(ids)
      ensures !exists k: nat :: k < TOTAL_TRIES && Fits(ids, Seed(sd, k), used)
    {
      hide Fits;
      forall k: nat | k < TOTAL_TRIES ensures !Fits(ids, Seed(sd, k), used) {
        DuplicatesNeverFit(ids, Seed(sd, k), used);
      }
    }

    lemma NoFitStart(ids: seq<Id>, sd: byte, used: set<nat>)
      requires range > 0
      ensures NoFit(ids, sd, used, 0) && Seed(sd, 0) == sd
    {
    }

    lemma NoFitStep(ids: seq<Id>, sd: byte, used: set<nat>, k: nat)
      requires range > 0 && NoFit(ids, sd, used, k) && !Fits(ids, Seed(sd, k), used)
      ensures NoFit(ids, sd, used, k + 1) && Seed(sd, k + 1) == (Seed(sd, k) + 1) % 0x100
    {
    }
  }

  function Seed(sd: byte, k: nat): byte {
    (sd + k) % 0x100
  }

  /** Claims the spots of a batch one by one, undoing its own bits when a spot is taken.
      `pos[off..]` holds the precomputed spots. */
  method ClaimAll(pos: array<nat>, off: nat, sd: byte, ids: seq<Id>, bitmap: array<byte>, level2: Level2) returns (ok: bool)
    requires 0 < level2.range <= 8 * bitmap.Length && off + |ids| <= pos.Length
    requires forall k :: 0 <= k < |ids| ==> pos[off + k] == level2.Spot(ids[k], sd)
    modifies bitmap
    ensures ok == level2.Fits(ids, sd, old(SetBits(bitmap[..])))
    ensures SetBits(bitmap[..]) == old(SetBits(bitmap[..])) + if ok then level2.Spots(ids, sd) else {}
  {
    hide SetBits, Level2.Fits, Level2.Spots;
    ghost var used := SetBits(bitmap[..]);
    level2.FitsNone(sd, used);
    assert ids[..0] == [];
    for i := 0 to |ids|
      invariant level2.Fits(ids[..i], sd, used)
      invariant SetBits(bitmap[..]) == used + level2.Spots(ids[..i], sd)
    {
      ghost var s := ids[..i];
      assert ids[..i + 1] == s + [ids[i]];
      level2.FitsOne(ids[i], sd, used + level2.Spots(s, sd));
      level2.FitsAppend(s, [ids[i]], sd, used);
      level2.SpotsAppend(s, [ids[i]], sd);
      assert pos[off + i] == level2.Spot(ids[i], sd);
      var taken := TestAndSetBit(bitmap, pos[off + i]);
      if !taken {
        Unclaim(pos, off, i, sd, ids, bitmap, level2, used);
        assert ids == ids[..i + 1] + ids[i + 1..];
        level2.FitsAppend(ids[..i + 1], ids[i + 1..], sd, used);
        return false;
      }
    }
    assert ids[..|ids|] == ids;
    return true;
  }

  /** Clears the bits of the first `n` ids of a batch again. */
  method Unclaim(pos: array<nat>, off: nat, n: nat, sd: byte, ids: seq<Id>, bitmap: array<byte>, level2: Level2,
                 ghost used: set<nat>)
    requires 0 < level2.range <= 8 * bitmap.Length && n <= |ids| && off + |ids| <= pos.Length
    requires forall k :: 0 <= k < |ids| ==> pos[off + k] == level2.Spot(ids[k], sd)
    requires level2.Fits(ids[..n], sd, used)
    requires SetBits(bitmap[..]) == used + level2.Spots(ids[..n], sd)
    modifies bitmap
    ensures SetBits(bitmap[..]) == used
  {
    hide SetBits, Level2.Fits, Level2.Spots;
    level2.FitsApart(ids[..n], sd, used);
    level2.FitsNone(sd, used);
    assert ids[..0] == [];
    for j := 0 to n
      invariant SetBits(bitmap[..]) == used + level2.Spots(ids[..n], sd) - level2.Spots(ids[..j], sd)
    {
      assert ids[..j + 1] == ids[..j] + [ids[j]];
      level2.SpotsAppend(ids[..j], [ids[j]], sd);
      level2.FitsOne(ids[j], sd, used);
      assert pos[off + j] == level2.Spot(ids[j], sd);
      ClearBit(bitmap, pos[off + j]);
    }
  }

  // ---- Buckets above the batch size -------------------------------------------------------------

  /** Tries one seed on at most one batch. */
  method MiniBatchMapping(sd: byte, ids: seq<Id>, bitmap: array<byte>, level2: Level2) returns (ok: bool)
    requires 0 < level2.range <= 8 * bitmap.Length && |ids| <= MINI_BATCH
    modifies bitmap
    ensures ok == level2.Fits(ids, sd, old(SetBits(bitmap[..])))
    ensures SetBits(bitmap[..]) == old(SetBits(bitmap[..])) + if ok then level2.Spots(ids, sd) else {}
  {
    hide SetBits, Level2.Fits, Level2.Spots;
    var pos := new nat[MINI_BATCH];
    for i := 0 to |ids|
      invariant forall k :: 0 <= k < i ==> pos[k] == level2.Spot(ids[k], sd)
      invariant bitmap[..] == old(bitmap[..])
    {
      pos[i] := level2.Spot(ids[i], sd);
    }
    ok := ClaimAll(pos, 0, sd, ids, bitmap, level2);
  }

  /** The search for a big bucket: every seed is tried batch by batch, and a failed try is rolled back. */
  method TryToMapLarge(ids: seq<Id>, sd: byte, bitmap: array<byte>, level2: Level2, n: nat)
    returns (ok: bool, last: byte, ghost tries: nat)
    requires 0 < level2.range <= 8 * bitmap.Length && |ids| > MINI_BATCH
    modifies bitmap
    ensures tries <= n && last == Seed(sd, tries) && level2.NoFit(ids, sd, old(SetBits(bitmap[..])), tries)
    ensures ok == (tries < n) && (ok ==> level2.Fits(ids, last, old(SetBits(bitmap[..]))))
    ensures SetBits(bitmap[..]) == old(SetBits(bitmap[..])) + if ok then level2.Spots(ids, last) else {}
  {
    hide SetBits, Seed, Level2.Fits, Level2.Spots, Level2.NoFit;
    ghost var used := SetBits(bitmap[..]);
    level2.NoFitStart(ids, sd, used);
    last, tries := sd, 0;
    var left := n;
    while left != 0
      invariant tries + left == n && last == Seed(sd, tries) && level2.NoFit(ids, sd, used, tries)
      invariant SetBits(bitmap[..]) == used
    {
      left := left - 1;
      ok := TryLargeOnce(ids, last, bitmap, level2);
      if ok {
        return;
      }
      level2.NoFitStep(ids, sd, used, tries);
      last := (last + 1) % 0x100;
      tries := tries + 1;
    }
    ok := false;
  }

  /** One seed on a big bucket. */
  method TryLargeOnce(ids: seq<Id>, sd: byte, bitmap: array<byte>, level2: Level2) returns (ok: bool)
    requires 0 < level2.range <= 8 * bitmap.Length && |ids| > MINI_BATCH
    modifies bitmap
    ensures ok == level2.Fits(ids, sd, old(SetBits(bitmap[..])))
    ensures SetBits(bitmap[..]) == old(SetBits(bitmap[..])) + if ok then level2.Spots(ids, sd) else {}
  {
    hide SetBits, Level2.Fits, Level2.Spots;
    ghost var used := SetBits(bitmap[..]);
    level2.FitsNone(sd, used);
    assert ids[..0] == [];
    var tail, remain := 0, |ids|;
    ok := true;
    while ok && remain > MINI_BATCH
      invariant tail + remain == |ids| && remain > 0
      invariant level2.Fits(ids[..tail], sd, used)
      invariant SetBits(bitmap[..]) == used + level2.Spots(ids[..tail], sd)
      invariant !ok ==> !level2.Fits(ids, sd, used)
      decreases remain, ok
    {
      ghost var head, batch := ids[..tail], ids[tail..tail + MINI_BATCH];
      SplitBatch(ids, tail, tail + MINI_BATCH, sd, level2, used);
      ok := MiniBatchMapping(sd, ids[tail..tail + MINI_BATCH], bitmap, level2);
      if ok {
        tail := tail + MINI_BATCH;
        remain := remain - MINI_BATCH;
      }
    }
    if ok {
      SplitBatch(ids, tail, |ids|, sd, level2, used);
      assert ids[..|ids|] == ids && ids[tail..|ids|] == ids[tail..];
      ok := MiniBatchMapping(sd, ids[tail..], bitmap, level2);
      if ok {
        return;
      }
    }
    UndoHead(ids, tail, sd, bitmap, level2, used);
  }

  method UndoHead(ids: seq<Id>, n: nat, sd: byte, bitmap: array<byte>, level2: Level2, ghost used: set<nat>)
    requires 0 < level2.range <= 8 * bitmap.Length && n <= |ids|
    requires level2.Fits(ids[..n], sd, used)
    requires SetBits(bitmap[..]) == used + level2.Spots(ids[..n], sd)
    modifies bitmap
    ensures SetBits(bitmap[..]) == used
  {
    hide SetBits, Level2.Fits, Level2.Spots;
    level2.FitsApart(ids[..n], sd, used);
    level2.FitsNone(sd, used);
    assert ids[..0] == [];
    for j := 0 to n
      invariant SetBits(bitmap[..]) == used + level2.Spots(ids[..n], sd) - level2.Spots(ids[..j], sd)
    {
      assert ids[..j + 1] == ids[..j] + [ids[j]];
      level2.SpotsAppend(ids[..j], [ids[j]], sd);
      level2.FitsOne(ids[j], sd, used);
      ClearBit(bitmap, level2.Spot(ids[j], sd));
    }
  }

  lemma SplitBatch(ids: seq<Id>, a: nat, b: nat, sd: byte, level2: Level2, used: set<nat>)
    requires level2.range > 0 && a <= b <= |ids| && level2.Fits(ids[..a], sd, used)
    ensures level2.Fits(ids[..b], sd, used) <==> level2.Fits(ids[a..b], sd, used + level2.Spots(ids[..a], sd))
    ensures level2.Spots(ids[..b], sd) == level2.Spots(ids[..a], sd) + level2.Spots(ids[a..b], sd)
    ensures !level2.Fits(ids[a..b], sd, used + level2.Spots(ids[..a], sd)) ==> !level2.Fits(ids, sd, used)
  {
    assert ids[..b] == ids[..a] + ids[a..b] && ids == ids[..b] + ids[b..];
    level2.FitsAppend(ids[..a], ids[a..b], sd, used);
    level2.SpotsAppend(ids[..a], ids[a..b], sd);
    level2.FitsAppend(ids[..b], ids[b..], sd, used);
  }

  // ---- Buckets of two up to a batch -------------------------------------------------------------

  /** The spots of as many whole seeds as fit one batch: row `r` of `pos` belongs to `Seed(sd, r)`. */
  ghost predicate IsWindow(pos: seq<nat>, off: nat, ids: seq<Id>, sd: byte, level2: Level2)
    requires level2.range > 0 && ids != [] && off <= |pos|
  {
    forall x :: 0 <= x < off ==> pos[x] == level2.Spot(ids[x % |ids|], Seed(sd, x / |ids|))
  }

  method FillWindow(ids: seq<Id>, sd: byte, level2: Level2, left: nat) returns (pos: array<nat>, ghost rows: nat)
    requires level2.range > 0 && 0 < |ids| <= MINI_BATCH
    ensures fresh(pos) && pos.Length == MINI_BATCH
    ensures rows * |ids| <= MINI_BATCH && IsWindow(pos[..], rows * |ids|, ids, sd, level2)
    ensures rows <= left && (rows == left || rows * |ids| + |ids| > MINI_BATCH)
  {
    pos := new nat[MINI_BATCH];
    hide Seed, Level2.Spot;
    SeedStart(sd);
    var cnt, off, i := |ids|, 0, 0;
    var sdx: byte := sd;
    while i < left && off + cnt <= MINI_BATCH
      invariant off == i * cnt <= MINI_BATCH && i <= left && sdx == Seed(sd, i)
      invariant IsWindow(pos[..], off, ids, sd, level2)
      decreases left - i
    {
      FillRow(pos, off, i, ids, sd, sdx, level2);
      off := off + cnt;
      SeedNext(sd, i);
      sdx := (sdx + 1) % 0x100;
      i := i + 1;
    }
    rows := i;
  }

  method FillRow(pos: array<nat>, off: nat, ghost row: nat, ids: seq<Id>, ghost sd: byte, sdx: byte, level2: Level2)
    requires level2.range > 0 && ids != [] && off == row * |ids| && off + |ids| <= pos.Length
    requires sdx == Seed(sd, row) && IsWindow(pos[..], off, ids, sd, level2)
    modifies pos
    ensures IsWindow(pos[..], off + |ids|, ids, sd, level2)
  {
    hide Seed, Level2.Spot;
    for j := 0 to |ids|
      invariant forall x :: 0 <= x < off + j ==> pos[x] == level2.Spot(ids[x % |ids|], Seed(sd, x / |ids|))
    {
      RemainderIs(off + j, |ids|, row, j);
      pos[off + j] := level2.Spot(ids[j], sdx);
    }
  }

  lemma SeedStart(sd: byte)
    ensures Seed(sd, 0) == sd
  {
  }

  lemma WindowRow(pos: seq<nat>, rows: nat, r: nat, ids: seq<Id>, sd: byte, level2: Level2)
    requires level2.range > 0 && ids != [] && r < rows && rows * |ids| <= |pos|
    requires IsWindow(pos, rows * |ids|, ids, sd, level2)
    ensures r * |ids| + |ids| <= rows * |ids|
    ensures forall k :: 0 <= k < |ids| ==> pos[r * |ids| + k] == level2.Spot(ids[k], Seed(sd, r))
  {
    hide IsWindow;
    MulMonotone(r + 1, rows, |ids|);
    forall k | 0 <= k < |ids| ensures pos[r * |ids| + k] == level2.Spot(ids[k], Seed(sd, r)) {
      WindowCell(pos, rows * |ids|, r, k, r * |ids| + k, ids, sd, level2);
    }
  }

  lemma WindowCell(pos: seq<nat>, off: nat, r: nat, k: nat, x: nat, ids: seq<Id>, sd: byte, level2: Level2)
    requires level2.range > 0 && k < |ids| && x < off <= |pos| && x == r * |ids| + k
    requires IsWindow(pos, off, ids, sd, level2)
    ensures pos[x] == level2.Spot(ids[k], Seed(sd, r))
  {
    hide Level2.Spot, Seed;
    RemainderIs(x, |ids|, r, k);
  }

  lemma WindowInArray(pos: array<nat>, off: nat, ids: seq<Id>, sd: byte, level2: Level2)
    requires level2.range > 0 && off + |ids| <= pos.Length
    requires forall k :: 0 <= k < |ids| ==> pos[..][off + k] == level2.Spot(ids[k], sd)
    ensures forall k :: 0 <= k < |ids| ==> pos[off + k] == level2.Spot(ids[k], sd)
  {
    forall k | 0 <= k < |ids| ensures pos[off + k] == level2.Spot(ids[k], sd) {
      assert pos[off + k] == pos[..][off + k];
    }
  }

  lemma RowsLeft(r: nat, rows: nat, left: nat, cnt: nat)
    requires rows == left || rows * cnt + cnt > MINI_BATCH
    requires r < left && r * cnt + cnt <= MINI_BATCH
    ensures r < rows
  {
    if rows <= r {
      MulMonotone(rows, r, cnt);
    }
  }

  /** The search for a small bucket: the spots of several seeds are computed ahead, then tried in turn. */
  method TryToMapSmall(ids: seq<Id>, sd: byte, bitmap: array<byte>, level2: Level2, n: nat)
    returns (ok: bool, last: byte, ghost tries: nat)
    requires 0 < level2.range <= 8 * bitmap.Length && 0 < |ids| <= MINI_BATCH
    modifies bitmap
    ensures tries <= n && last == Seed(sd, tries) && level2.NoFit(ids, sd, old(SetBits(bitmap[..])), tries)
    ensures ok == (tries < n) && (ok ==> level2.Fits(ids, last, old(SetBits(bitmap[..]))))
    ensures SetBits(bitmap[..]) == old(SetBits(bitmap[..])) + if ok then level2.Spots(ids, last) else {}
  {
    hide SetBits, Seed, Level2.Fits, Level2.Spots, Level2.NoFit;
    ghost var used := SetBits(bitmap[..]);
    level2.NoFitStart(ids, sd, used);
    last := sd;
    var m := 0;
    while m < n
      invariant m <= n && last == Seed(sd, m) && level2.NoFit(ids, sd, used, m)
      invariant SetBits(bitmap[..]) == used
    {
      ghost var done := m;
      ok, last, m := TryWindow(ids, last, bitmap, level2, m, n);
      level2.NoFitJoin(ids, sd, used, done, m - done);
      if ok {
        tries := m;
        return;
      }
    }
    ok, tries := false, n;
  }

  /** One window of seeds, the `m`-th seed being `sd`; returns how far the search got. */
  method TryWindow(ids: seq<Id>, sd: byte, bitmap: array<byte>, level2: Level2, m: nat, n: nat)
    returns (ok: bool, last: byte, next: nat)
    requires 0 < level2.range <= 8 * bitmap.Length && 0 < |ids| <= MINI_BATCH && m < n
    modifies bitmap
    ensures m <= next <= n && last == Seed(sd, next - m)
    ensures level2.NoFit(ids, sd, old(SetBits(bitmap[..])), next - m)
    ensures if ok then next < n && level2.Fits(ids, last, old(SetBits(bitmap[..]))) else m < next
    ensures SetBits(bitmap[..]) == old(SetBits(bitmap[..])) + if ok then level2.Spots(ids, last) else {}
  {
    hide SetBits, Seed, Level2.Fits, Level2.Spots, Level2.NoFit, IsWindow, WindowFor, RowStarts;
    ghost var used := SetBits(bitmap[..]);
    level2.NoFitStart(ids, sd, used);
    FirstRow(|ids|);
    var pos, rows := FillWindow(ids, sd, level2, n - m);
    assert WindowFor(pos[..], rows, n - m, ids, sd, level2) by {
      WindowIsFilled(pos[..], rows, n - m, ids, sd, level2);
    }
    assert bitmap[..] == old(bitmap[..]);
    last, next, ok := sd, m, false;
    var off: nat := 0;
    while next < n && off + |ids| <= MINI_BATCH
      invariant m <= next <= n && RowStarts(off, next - m, |ids|) && (next == m ==> off == 0)
      invariant last == Seed(sd, next - m) && level2.NoFit(ids, sd, used, next - m)
      invariant WindowFor(pos[..], rows, n - m, ids, sd, level2)
      invariant SetBits(bitmap[..]) == used
      decreases n - next
    {
      ok := TryRow(pos, off, rows, next - m, n - m, ids, sd, last, bitmap, level2);
      if ok {
        return;
      }
      level2.NoFitStep(ids, sd, used, next - m);
      NextRow(off, next - m, |ids|);
      off := off + |ids|;
      last := (last + 1) % 0x100;
      next := next + 1;
    }
  }

  /** The window holds all seeds that are left, or as many as it has room for. */
  ghost predicate WindowFor(pos: seq<nat>, rows: nat, left: nat, ids: seq<Id>, sd: byte, level2: Level2) {
    && level2.range > 0 && 0 < |ids| <= MINI_BATCH == |pos|
    && (rows == left || rows * |ids| + |ids| > MINI_BATCH)
    && rows * |ids| <= MINI_BATCH && IsWindow(pos, rows * |ids|, ids, sd, level2)
  }

  lemma WindowIsFilled(pos: seq<nat>, rows: nat, left: nat, ids: seq<Id>, sd: byte, level2: Level2)
    requires level2.range > 0 && 0 < |ids| <= MINI_BATCH == |pos|
    requires rows * |ids| <= MINI_BATCH && IsWindow(pos, rows * |ids|, ids, sd, level2)
    requires rows == left || rows * |ids| + |ids| > MINI_BATCH
    ensures WindowFor(pos, rows, left, ids, sd, level2)
  {
    hide IsWindow;
  }

  ghost predicate RowStarts(off: nat, r: nat, cnt: nat) {
    off == r * cnt
  }

  lemma FirstRow(cnt: nat)
    ensures RowStarts(0, 0, cnt)
  {
  }

  lemma NextRow(off: nat, r: nat, cnt: nat)
    requires RowStarts(off, r, cnt)
    ensures RowStarts(off + cnt, r + 1, cnt)
  {
  }

  /** The row of the window that belongs to the seed `last`. */
  method TryRow(pos: array<nat>, off: nat, ghost rows: nat, ghost r: nat, ghost left: nat,
                ids: seq<Id>, ghost sd: byte, last: byte, bitmap: array<byte>, level2: Level2) returns (ok: bool)
    requires 0 < level2.range <= 8 * bitmap.Length && 0 < |ids| <= MINI_BATCH == pos.Length
    requires r < left && RowStarts(off, r, |ids|) && off + |ids| <= MINI_BATCH && last == Seed(sd, r)
    requires WindowFor(pos[..], rows, left, ids, sd, level2)
    modifies bitmap
    ensures ok == level2.Fits(ids, last, old(SetBits(bitmap[..])))
    ensures SetBits(bitmap[..]) == old(SetBits(bitmap[..])) + if ok then level2.Spots(ids, last) else {}
  {
    hide SetBits, Seed, Level2.Fits, Level2.Spots, Level2.NoFit, IsWindow;
    RowsLeft(r, rows, left, |ids|);
    WindowRow(pos[..], rows, r, ids, sd, level2);
    WindowInArray(pos, off, ids, last, level2);
    ok := ClaimAll(pos, off, last, ids, bitmap, level2);
  }

  lemma SeedAdd(sd: byte, a: nat, b: nat)
    ensures Seed(Seed(sd, a), b) == Seed(sd, a + b)
  {
  }

  // ---- Buckets of one ---------------------------------------------------------------------------

  /** A single id only needs a free spot; `n` seeds are looked at ahead. */
  method MiniBatchTry(id: Id, sd: byte, bitmap: array<byte>, level2: Level2, n: nat)
    returns (ok: bool, last: byte, ghost tries: nat)
    requires 0 < level2.range <= 8 * bitmap.Length && n <= MINI_BATCH
    modifies bitmap
    ensures tries <= n && last == Seed(sd, tries) && level2.NoFit([id], sd, old(SetBits(bitmap[..])), tries)
    ensures ok == (tries < n) && (ok ==> level2.Fits([id], last, old(SetBits(bitmap[..]))))
    ensures SetBits(bitmap[..]) == old(SetBits(bitmap[..])) + if ok then level2.Spots([id], last) else {}
  {
    hide SetBits, Seed, Level2.Fits, Level2.Spots, Level2.NoFit, Level2.Spot;
    ghost var used := SetBits(bitmap[..]);
    level2.NoFitStart([id], sd, used);
    var pos := SpotsAhead(id, sd, level2, n);
    last, tries := sd, 0;
    for i := 0 to n
      invariant tries == i && last == Seed(sd, i) && level2.NoFit([id], sd, used, i)
      invariant forall k :: 0 <= k < n ==> pos[k] == level2.Spot(id, Seed(sd, k))
      invariant SetBits(bitmap[..]) == used
    {
      level2.SpotBounded(id, last);
      level2.FitsOne(id, last, used);
      ok := TestAndSetBit(bitmap, pos[i]);
      if ok {
        return;
      }
      assert used + {pos[i]} == used;
      level2.NoFitStep([id], sd, used, i);
      last := (last + 1) % 0x100;
      tries := tries + 1;
    }
    ok := false;
  }

  /** The spots of one id under the next `n` seeds. */
  method SpotsAhead(id: Id, sd: byte, level2: Level2, n: nat) returns (pos: array<nat>)
    requires level2.range > 0 && n <= MINI_BATCH
    ensures fresh(pos) && pos.Length == MINI_BATCH
    ensures forall k :: 0 <= k < n ==> pos[k] == level2.Spot(id, Seed(sd, k))
  {
    hide Seed, Level2.Spot;
    SeedStart(sd);
    pos := new nat[MINI_BATCH];
    var sdx: byte := sd;
    for i := 0 to n
      invariant sdx == Seed(sd, i)
      invariant forall k :: 0 <= k < i ==> pos[k] == level2.Spot(id, Seed(sd, k))
    {
      pos[i] := level2.Spot(id, sdx);
      SeedNext(sd, i);
      sdx := (sdx + 1) % 0x100;
    }
  }

  lemma SeedNext(sd: byte, k: nat)
    ensures Seed(sd, k + 1) == (Seed(sd, k) + 1) % 0x100
  {
  }

  method TrySingle(id: Id, sd: byte, bitmap: array<byte>, level2: Level2)
    returns (ok: bool, last: byte, ghost tries: nat)
    requires 0 < level2.range <= 8 * bitmap.Length
    modifies bitmap
    ensures tries <= TOTAL_TRIES && last == Seed(sd, tries)
    ensures level2.NoFit([id], sd, old(SetBits(bitmap[..])), tries)
    ensures ok == (tries < TOTAL_TRIES) && (ok ==> level2.Fits([id], last, old(SetBits(bitmap[..]))))
    ensures SetBits(bitmap[..]) == old(SetBits(bitmap[..])) + if ok then level2.Spots([id], last) else {}
  {
    hide SetBits, Seed, Level2.Fits, Level2.Spots, Level2.NoFit;
    ghost var used := SetBits(bitmap[..]);
    level2.NoFitStart([id], sd, used);
    var remain: nat := TOTAL_TRIES;
    ghost var more: nat;
    last, tries := sd, 0;
    while remain > MINI_BATCH
      invariant tries + remain == TOTAL_TRIES && last == Seed(sd, tries) && level2.NoFit([id], sd, used, tries)
      invariant SetBits(bitmap[..]) == used
    {
      ok, last, more := MiniBatchTry(id, last, bitmap, level2, MINI_BATCH);
      level2.NoFitJoin([id], sd, used, tries, more);
      tries := tries + more;
      if ok {
        return;
      }
      remain := remain - MINI_BATCH;
    }
    ok, last, more := MiniBatchTry(id, last, bitmap, level2, remain);
    level2.NoFitJoin([id], sd, used, tries, more);
    tries := tries + more;
  }

  // ---- The bucket search ------------------------------------------------------------------------

  /** Exact outcome: a conflict is reported if and only if two ids are equal; otherwise the first
      working seed in cyclic order is found if and only if one of the 256 seeds works. On success the
      bitmap gains exactly the bucket's bits, on failure it is restored byte for byte. */
  method Mapping(ids: array<Id>, begin: nat, end: nat, sd: byte, bitmap: array<byte>, level2: Level2)
    returns (last: byte, status: BuildStatus)
    requires begin < end <= ids.Length
    requires 0 < level2.range <= 8 * bitmap.Length
    modifies ids, bitmap
    ensures multiset(ids[begin..end]) == multiset(old(ids[begin..end]))
    ensures forall k :: 0 <= k < ids.Length && !(begin <= k < end) ==> ids[k] == old(ids[k])
    ensures status in {Ok, Conflict, OutOfChance}
    ensures status == Conflict <==> Duplicates(old(ids[begin..end]))
    ensures status == Ok <==>
            exists k: nat :: k < TOTAL_TRIES && level2.Fits(old(ids[begin..end]), Seed(sd, k), old(SetBits(bitmap[..])))
    ensures status == Ok ==>
            && level2.Fits(old(ids[begin..end]), last, old(SetBits(bitmap[..])))
            && SetBits(bitmap[..]) == old(SetBits(bitmap[..])) + level2.Spots(old(ids[begin..end]), last)
            && exists k: nat :: k < TOTAL_TRIES && last == Seed(sd, k)
                                && level2.NoFit(old(ids[begin..end]), sd, old(SetBits(bitmap[..])), k)
    ensures status != Ok ==> bitmap[..] == old(bitmap[..])
  {
    hide SetBits, Seed, Level2.Fits, Level2.Spots, Level2.NoFit;
    ghost var s, used := ids[begin..end], SetBits(bitmap[..]);
    var cnt := end - begin;
    var ok: bool;
    ghost var tries: nat;
    ghost var more: nat;
    status := OutOfChance;
    if cnt > MINI_BATCH {
      ok, last, tries := TryToMapLarge(ids[begin..end], sd, bitmap, level2, 56);
      if !ok {
        var conflict := HasConflict(ids, begin, end);
        if conflict {
          status := Conflict;
        } else {
          assert SetBits(bitmap[..]) == used;
          level2.SearchPermuted(s, ids[begin..end], used);
          ok, last, more := TryToMapLarge(ids[begin..end], last, bitmap, level2, TOTAL_TRIES - 56);
          level2.SearchJoin(s, ids[begin..end], sd, used, tries, more);
          tries := tries + more;
        }
      }
    } else if cnt != 1 {
      ok, last, tries := TryToMapSmall(ids[begin..end], sd, bitmap, level2, 96);
      if !ok {
        var conflict := HasConflict(ids, begin, end);
        if conflict {
          status := Conflict;
        } else {
          assert SetBits(bitmap[..]) == used;
          level2.SearchPermuted(s, ids[begin..end], used);
          ok, last, more := TryToMapSmall(ids[begin..end], last, bitmap, level2, TOTAL_TRIES - 96);
          level2.SearchJoin(s, ids[begin..end], sd, used, tries, more);
          tries := tries + more;
        }
      }
    } else {
      assert s == [ids[begin]];
      ok, last, tries := TrySingle(ids[begin], sd, bitmap, level2);
      SingleDistinct(s);
    }
    if ok {
      status := Ok;
      level2.FoundSeed(s, sd, used, tries);
    } else {
      if status == Conflict {
        level2.ConflictNeverFits(s, sd, used);
      } else {
        level2.NoneFits(s, sd, used, tries);
      }
      SetBitsDetermine(old(bitmap[..]), bitmap[..]);
    }
  }

  lemma SingleDistinct(s: seq<Id>)
    requires |s| == 1
    ensures !Duplicates(s)
  {
  }
}
