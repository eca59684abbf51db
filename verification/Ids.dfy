/** Key fingerprints and the three hashes read off them. */
module Ids {
  import opened Words

  datatype Id = Id(w0: u32, w1: u32, w2: u32)

  /** The displacement hash. Its mixing is irrelevant here: every theorem holds for every such function. */
  type L2Hash = (Id, byte) -> u64

  /** The fingerprint of a key under a seed, likewise arbitrary. */
  type GenId = (u32, seq<byte>) -> Id

  function L0Hash(id: Id): u16 {
    id.w0 % 0x1_0000
  }

  function L1Hash(id: Id): u32 {
    id.w1
  }

  /** The order used to sort a bucket: first the low 64 bits, then the high 32. */
  predicate Before(a: Id, b: Id) {
    var al, bl := a.w0 + 0x1_0000_0000 * a.w1, b.w0 + 0x1_0000_0000 * b.w1;
    if al < bl then true
    else if al > bl then false
    else a.w2 < b.w2
  }

  ghost predicate Ascending(s: seq<Id>) {
    forall i, j :: 0 <= i < j < |s| ==> !Before(s[j], s[i])
  }

  ghost predicate Duplicates(s: seq<Id>) {
    exists i, j :: 0 <= i < j < |s| && s[i] == s[j]
  }

  ghost function IdSet(s: seq<Id>): set<Id> {
    set id | id in multiset(s)
  }

  lemma DuplicatesSnoc(t: seq<Id>, x: Id)
    ensures Duplicates(t + [x]) <==> Duplicates(t) || x in t
  {
    var s := t + [x];
    if Duplicates(t) {
      var i, j :| 0 <= i < j < |t| && t[i] == t[j];
      assert s[i] == s[j];
    }
    if x in t {
      var i :| 0 <= i < |t| && t[i] == x;
      assert s[i] == s[|t|];
    }
    if Duplicates(s) {
      var i, j :| 0 <= i < j < |s| && s[i] == s[j];
      assert t[i] == s[i] && (j < |t| ==> t[j] == s[j]);
    }
  }

  /** Ids are pairwise distinct if and only if there are as many different ones as there are ids. */
  lemma {:induction false} DistinctByCount(s: seq<Id>)
    ensures |IdSet(s)| <= |s|
    ensures !Duplicates(s) <==> |IdSet(s)| == |s|
  {
    if |s| != 0 {
      hide Duplicates;
      var t, x := s[..|s| - 1], s[|s| - 1];
      assert s == t + [x];
      DistinctByCount(t);
      DuplicatesSnoc(t, x);
      assert IdSet(s) == IdSet(t) + {x};
      assert x in IdSet(t) <==> x in t;
    } else {
      assert IdSet(s) == {};
    }
  }

  lemma DuplicatesPermuted(s: seq<Id>, t: seq<Id>)
    requires multiset(s) == multiset(t)
    ensures Duplicates(s) == Duplicates(t)
  {
    hide Duplicates;
    DistinctByCount(s);
    DistinctByCount(t);
    assert |s| == |multiset(s)| == |multiset(t)| == |t|;
  }

  // ---- Sorting ----------------------------------------------------------------------------------

  function Insert(x: Id, s: seq<Id>): (r: seq<Id>)
    ensures |r| == |s| + 1 && multiset(r) == multiset(s) + multiset{x}
    ensures Ascending(s) ==> Ascending(r)
  {
    if s == [] || Before(x, s[0]) then
      [x] + s
    else
      assert s == [s[0]] + s[1..];
      var rest := Insert(x, s[1..]);
      InsertedAfter(s, rest, x);
      [s[0]] + rest
  }

  lemma InsertedAfter(s: seq<Id>, rest: seq<Id>, x: Id)
    requires s != [] && !Before(x, s[0])
    requires multiset(rest) == multiset(s[1..]) + multiset{x}
    requires Ascending(s[1..]) ==> Ascending(rest)
    ensures Ascending(s) ==> Ascending([s[0]] + rest)
  {
    if Ascending(s) {
      forall k | 0 <= k < |rest| ensures !Before(rest[k], s[0]) {
        assert rest[k] in multiset(rest);
        if rest[k] != x {
          assert rest[k] in s[1..];
        }
      }
    }
  }

  /** The sorted arrangement, standing for the library sort. */
  function Sorted(s: seq<Id>): (r: seq<Id>)
    ensures |r| == |s| && multiset(r) == multiset(s) && Ascending(r)
  {
    if s == [] then [] else
      assert s == [s[0]] + s[1..];
      Insert(s[0], Sorted(s[1..]))
  }

  /** In sorted order equal ids are neighbours. */
  lemma {:induction false} NeighboursShowDuplicates(s: seq<Id>)
    requires Ascending(s) && Duplicates(s)
    ensures exists i :: 1 <= i < |s| && s[i] == s[i - 1]
  {
    var i, j :| 0 <= i < j < |s| && s[i] == s[j];
    assert !Before(s[i + 1], s[i]) && (i + 1 < j ==> !Before(s[j], s[i + 1]));
    assert s[i + 1] == s[i];
    assert s[i + 1] == s[(i + 1) - 1];
  }

  /** Sorts a stretch of the array in place and reports whether two ids in it are equal. */
  method HasConflict(ids: array<Id>, begin: nat, end: nat) returns (conflict: bool)
    requires begin <= end <= ids.Length
    modifies ids
    ensures multiset(ids[begin..end]) == multiset(old(ids[begin..end]))
    ensures forall k :: 0 <= k < ids.Length && !(begin <= k < end) ==> ids[k] == old(ids[k])
    ensures conflict == Duplicates(old(ids[begin..end]))
  {
    SortRange(ids, begin, end);
    conflict := NeighboursEqual(ids[begin..end]);
    DuplicatesPermuted(old(ids[begin..end]), ids[begin..end]);
  }

  method NeighboursEqual(ids: seq<Id>) returns (conflict: bool)
    requires Ascending(ids)
    ensures conflict == Duplicates(ids)
  {
    var i := 1;
    while i < |ids|
      invariant 1 <= i
      invariant forall k :: 1 <= k < i && k < |ids| ==> ids[k] != ids[k - 1]
    {
      if ids[i] == ids[i - 1] {
        return true;
      }
      i := i + 1;
    }
    if Duplicates(ids) {
      NeighboursShowDuplicates(ids);
    }
    return false;
  }

  method SortRange(ids: array<Id>, begin: nat, end: nat)
    requires begin <= end <= ids.Length
    modifies ids
    ensures ids[begin..end] == Sorted(old(ids[begin..end]))
    ensures forall k :: 0 <= k < ids.Length && !(begin <= k < end) ==> ids[k] == old(ids[k])
  {
    hide Sorted;
    CopyInto(ids, begin, Sorted(ids[begin..end]));
  }

  method CopyInto<T>(a: array<T>, begin: nat, t: seq<T>)
    requires begin + |t| <= a.Length
    modifies a
    ensures a[begin..begin + |t|] == t
    ensures forall k :: 0 <= k < a.Length && !(begin <= k < begin + |t|) ==> a[k] == old(a[k])
  {
    for i := 0 to |t|
      invariant forall k :: begin <= k < begin + i ==> a[k] == t[k - begin]
      invariant forall k :: 0 <= k < a.Length && !(begin <= k < begin + |t|) ==> a[k] == old(a[k])
    {
      a[begin + i] := t[i];
    }
  }
}
