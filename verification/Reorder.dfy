/** Ordering the buckets of a segment by size: a byte-wise radix sort, then the bucket ranges. */
module Reorder {
  import opened Words
  import opened Permutation
  import opened Scatter

  datatype L1Mark = L1Mark(val: nat, idx: nat)

  /** `1 << sft` for the byte-wise passes. */
  function Scale(pass: nat): (m: nat)
    ensures m >= 1
  {
    if pass == 0 then 1 else 0x100 * Scale(pass - 1)
  }

  function Digit(v: nat, m: nat): (d: nat)
    requires m > 0
    ensures d < 0x100
  {
    v / m % 0x100
  }

  function Digits(t: seq<L1Mark>, m: nat): (s: seq<nat>)
    requires m > 0
    ensures |s| == |t|
  {
    seq(|t|, i requires 0 <= i < |t| => Digit(t[i].val, m))
  }

  /** Strictly ascending by the value modulo `m`, ties broken by the bucket number. */
  ghost predicate SortedModulo(t: seq<L1Mark>, m: nat)
    requires m > 0
  {
    forall i, j :: 0 <= i < j < |t| ==> Precedes(t[i], t[j], m)
  }

  ghost predicate Precedes(a: L1Mark, b: L1Mark, m: nat)
    requires m > 0
  {
    a.val % m < b.val % m || (a.val % m == b.val % m && a.idx < b.idx)
  }

  /** Strictly ascending by value, ties broken by the bucket number. */
  ghost predicate Ordered(t: seq<L1Mark>) {
    forall i, j :: 0 <= i < j < |t| ==> t[i].val < t[j].val || (t[i].val == t[j].val && t[i].idx < t[j].idx)
  }

  lemma DigitSplit(v: nat, m: nat)
    requires m > 0
    ensures v % (0x100 * m) == Digit(v, m) * m + v % m
  {
    DivModSplit(v, m);
    DivModSplit(v / m, 0x100);
    var q, d, r := v / m / 0x100, v / m % 0x100, v % m;
    MulMonotone(d + 1, 0x100, m);
    assert v == (q * 0x100 + d) * m + r == q * (0x100 * m) + (d * m + r);
    RemainderIs(v, 0x100 * m, q, d * m + r);
  }

  /** A stable pass on the next digit refines the order. */
  lemma NextDigitPrecedes(a: L1Mark, b: L1Mark, m: nat)
    requires m > 0
    requires Digit(a.val, m) < Digit(b.val, m) || (Digit(a.val, m) == Digit(b.val, m) && Precedes(a, b, m))
    ensures Precedes(a, b, 0x100 * m)
  {
    DigitSplit(a.val, m);
    DigitSplit(b.val, m);
    if Digit(a.val, m) < Digit(b.val, m) {
      MulMonotone(Digit(a.val, m) + 1, Digit(b.val, m), m);
    }
  }

  /** The scatter of one pass sorts by one digit more. */
  lemma PassSorts(t: seq<L1Mark>, u: seq<L1Mark>, start: seq<nat>, m: nat)
    requires m > 0 && SortedModulo(t, m) && |u| == |t|
    requires Tiled(start, Digits(t, m), |t|) && forall a, b :: 0 <= a < b < |start| ==> start[a] <= start[b]
    requires forall i :: 0 <= i < |t| ==> Dest(start, Digits(t, m), i) < |u| && u[Dest(start, Digits(t, m), i)] == t[i]
    ensures SortedModulo(u, 0x100 * m)
  {
    hide Dest, Digit, Precedes;
    var digits := Digits(t, m);
    DestsInjective(start, digits, |t|);
    Onto(DestSeq(start, digits));
    forall x, y | 0 <= x < y < |u| ensures Precedes(u[x], u[y], 0x100 * m) {
      assert x in DestSeq(start, digits) && y in DestSeq(start, digits);
      var i :| 0 <= i < |t| && DestSeq(start, digits)[i] == x;
      var j :| 0 <= j < |t| && DestSeq(start, digits)[j] == y;
      PlacedInOrder(start, digits, |t|, i, j);
      NextDigitPrecedes(t[i], t[j], m);
    }
  }

  lemma PlacedInOrder(start: seq<nat>, digits: seq<nat>, size: nat, i: nat, j: nat)
    requires Tiled(start, digits, size) && forall a, b :: 0 <= a < b < |start| ==> start[a] <= start[b]
    requires i < |digits| && j < |digits| && Dest(start, digits, i) < Dest(start, digits, j)
    ensures digits[i] < digits[j] || (digits[i] == digits[j] && i < j)
  {
    hide Dest;
    if i < j {
      DestOrdered(start, digits, size, i, j);
    } else if j < i {
      DestOrdered(start, digits, size, j, i);
    }
  }

  // ---- One pass ---------------------------------------------------------------------------------

  ghost function Sum(c: seq<nat>): nat {
    if c == [] then 0 else Sum(c[..|c| - 1]) + c[|c| - 1]
  }

  lemma {:induction false} SumOfCounts(slots: seq<nat>, c: seq<nat>)
    requires Bounded(slots, |c|) && forall s :: 0 <= s < |c| ==> c[s] == multiset(slots)[s]
    ensures Sum(c) == |slots|
  {
    if slots == [] {
      SumOfZeros(c);
    } else {
      var rest, s := slots[..|slots| - 1], slots[|slots| - 1];
      assert slots == rest + [s];
      var d := c[s := c[s] - 1];
      SumOfCounts(rest, d);
      SumUpdate(c, s, c[s] - 1);
    }
  }

  lemma {:induction false} SumOfZeros(c: seq<nat>)
    requires forall s :: 0 <= s < |c| ==> c[s] == 0
    ensures Sum(c) == 0
  {
    if c != [] {
      SumOfZeros(c[..|c| - 1]);
    }
  }

  lemma {:induction false} SumUpdate(c: seq<nat>, s: nat, v: nat)
    requires s < |c|
    ensures Sum(c[s := v]) == Sum(c) - c[s] + v
  {
    var d := c[s := v];
    if s == |c| - 1 {
      assert d[..|c| - 1] == c[..|c| - 1];
    } else {
      SumUpdate(c[..|c| - 1], s, v);
      assert d[..|c| - 1] == c[..|c| - 1][s := v];
    }
  }

  lemma {:induction false} SumPrefixMonotone(c: seq<nat>, a: nat, b: nat)
    requires a <= b <= |c|
    ensures Sum(c[..a]) <= Sum(c[..b])
    decreases b
  {
    if a < b {
      SumPrefixMonotone(c, a, b - 1);
      assert c[..b][..b - 1] == c[..b - 1];
    }
  }

  lemma SumStep(c: seq<nat>, k: nat)
    requires k < |c|
    ensures Sum(c[..k + 1]) == Sum(c[..k]) + c[k]
  {
    assert c[..k + 1][..k] == c[..k];
  }

  /** Prefix sums of the counts lay the slots out back to back. */
  lemma PrefixTiles(slots: seq<nat>, c: seq<nat>, start: seq<nat>)
    requires Bounded(slots, |c|) && |start| == |c|
    requires forall s :: 0 <= s < |c| ==> c[s] == multiset(slots)[s] && start[s] == Sum(c[..s])
    ensures Tiled(start, slots, |slots|) && forall a, b :: 0 <= a < b < |start| ==> start[a] + c[a] <= start[b]
  {
    SumOfCounts(slots, c);
    assert c[..|c|] == c;
    forall s | 0 <= s < |c| ensures start[s] + c[s] <= |slots| {
      SumStep(c, s);
      SumPrefixMonotone(c, s + 1, |c|);
    }
    forall a, b | 0 <= a < b < |start| ensures start[a] + c[a] <= start[b] {
      SumStep(c, a);
      SumPrefixMonotone(c, a + 1, b);
    }
  }

  /** One pass of the radix sort: a histogram of the digit, its prefix sums, and a stable scatter. */
  method RadixPass(table: array<L1Mark>, temp: array<L1Mark>, m: nat)
    requires m > 0 && table.Length == temp.Length && table != temp
    requires SortedModulo(table[..], m)
    modifies temp
    ensures multiset(temp[..]) == multiset(table[..]) && SortedModulo(temp[..], 0x100 * m)
  {
    hide SortedModulo, CountsAfter, TargetAfter, Dest, Digit;
    ghost var t, digits, target := table[..], Digits(table[..], m), temp[..];
    var memo := Histogram(table, m);
    ghost var c := memo[..];
    PrefixSums(memo);
    ghost var start := memo[..];
    PrefixTiles(digits, c, start);
    ScatterRearranges(target, t, start, digits);
    ScatterDigits(table, temp, memo, m);
    DestInsideAll(start, digits, |t|);
    PassSorts(t, temp[..], start, m);
  }

  method Histogram(table: array<L1Mark>, m: nat) returns (memo: array<nat>)
    requires m > 0
    ensures fresh(memo) && memo.Length == 0x100
    ensures forall s :: 0 <= s < 0x100 ==> memo[s] == multiset(Digits(table[..], m))[s]
  {
    hide CountsAfter, Digit;
    ghost var digits := Digits(table[..], m);
    memo := new nat[0x100](_ => 0);
    ghost var zeros := memo[..];
    ScatterStartCounts(zeros, digits);
    for i := 0 to table.Length
      invariant table[..] == old(table[..]) && memo[..] == CountsAfter(zeros, digits, i)
    {
      CountDigit(memo, table[i].val, m, zeros, digits, i);
    }
    CountsExact(zeros, digits, |digits|);
    assert digits[..|digits|] == digits;
  }

  method ScatterDigits(table: array<L1Mark>, temp: array<L1Mark>, memo: array<nat>, m: nat)
    requires m > 0 && table.Length == temp.Length && table != temp && memo.Length == 0x100
    requires DestsInside(memo[..], Digits(table[..], m), temp.Length)
    modifies temp, memo
    ensures temp[..] == TargetAfter(old(temp[..]), table[..], old(memo[..]), Digits(table[..], m), table.Length)
  {
    hide CountsAfter, TargetAfter, Dest, Digit, DestsInside;
    ghost var t, digits, start, target := table[..], Digits(table[..], m), memo[..], temp[..];
    ScatterStart(target, t, start, digits);
    for i := 0 to table.Length
      invariant table[..] == t && memo[..] == CountsAfter(start, digits, i)
      invariant temp[..] == TargetAfter(target, t, start, digits, i)
    {
      assert digits[i] == Digit(table[i].val, m);
      DestInside(start, digits, temp.Length, i);
      var j := Reserve(memo, Digit(table[i].val, m), start, digits, i);
      Put(temp, j, table[i], target, t, start, digits, i);
    }
  }

  lemma DestInsideAll(start: seq<nat>, slots: seq<nat>, size: nat)
    requires Bounded(slots, |start|) && DestsInside(start, slots, size)
    ensures forall i :: 0 <= i < |slots| ==> Dest(start, slots, i) < size
  {
  }

  lemma ScatterStartCounts(start: seq<nat>, slots: seq<nat>)
    requires Bounded(slots, |start|)
    ensures CountsAfter(start, slots, 0) == start
  {
  }

  method CountDigit(memo: array<nat>, v: nat, m: nat, ghost zeros: seq<nat>, ghost digits: seq<nat>, ghost i: nat)
    requires m > 0 && memo.Length == 0x100 && i < |digits| && digits[i] == Digit(v, m)
    requires Bounded(digits, |zeros|) && memo[..] == CountsAfter(zeros, digits, i)
    modifies memo
    ensures memo[..] == CountsAfter(zeros, digits, i + 1)
  {
    var d := Digit(v, m);
    memo[d] := memo[d] + 1;
    assert memo[..] == old(memo[..])[d := old(memo[..])[d] + 1];
  }

  method PrefixSums(memo: array<nat>)
    modifies memo
    ensures forall k :: 0 <= k < memo.Length ==> memo[k] == Sum(old(memo[..])[..k])
  {
    var off := 0;
    ghost var c := memo[..];
    for k := 0 to memo.Length
      invariant off == Sum(c[..k])
      invariant forall i :: 0 <= i < k ==> memo[i] == Sum(c[..i])
      invariant forall i :: k <= i < memo.Length ==> memo[i] == c[i]
    {
      SumStep(c, k);
      var next := off + memo[k];
      memo[k] := off;
      off := next;
    }
  }

  // ---- The whole reordering ---------------------------------------------------------------------

  /** Entry `i` of the table belongs to bucket `i`. */
  ghost predicate Marked(t: seq<L1Mark>) {
    forall i :: 0 <= i < |t| ==> t[i].idx == i
  }

  /** The bucket holding a given rank, biggest bucket first. */
  function BucketAt(sorted: seq<L1Mark>, rank: nat): nat
    requires rank < |sorted|
  {
    sorted[|sorted| - 1 - rank].idx
  }

  /** Every bucket occurs once in the order, with its own size. */
  ghost predicate OrdersBuckets(sorted: seq<L1Mark>, t: seq<L1Mark>) {
    && |sorted| == |t|
    && (forall k :: 0 <= k < |sorted| ==> sorted[k].idx < |t| && sorted[k].val == t[sorted[k].idx].val)
    && (forall i, j :: 0 <= i < j < |sorted| ==> sorted[i].idx != sorted[j].idx)
  }

  lemma OrderIsComplete(sorted: seq<L1Mark>, t: seq<L1Mark>)
    requires multiset(sorted) == multiset(t) && Marked(t) && Ordered(sorted)
    ensures OrdersBuckets(sorted, t)
  {
    assert |sorted| == |multiset(sorted)| == |t|;
    forall k | 0 <= k < |sorted|
      ensures sorted[k].idx < |t| && sorted[k] == t[sorted[k].idx]
    {
      assert sorted[k] in multiset(t);
      var i :| 0 <= i < |t| && t[i] == sorted[k];
    }
  }

  /** The ranges of the buckets lie back to back, in order of rank, each as long as its bucket. */
  ghost predicate RangesTile(range: seq<L1Mark>, sorted: seq<L1Mark>, t: seq<L1Mark>) {
    && |range| == |t| && OrdersBuckets(sorted, t)
    && (forall b :: 0 <= b < |t| ==> range[b].val == range[b].idx + t[b].val)
    && (|t| > 0 ==> range[BucketAt(sorted, 0)].idx == 0)
    && (forall r :: 0 <= r && r + 1 < |t| ==> range[BucketAt(sorted, r + 1)].idx == range[BucketAt(sorted, r)].val)
  }

  /** Orders the buckets by size, looking only at the bytes that `max` needs, and lays out their ranges. */
  method L1SortReorder(max: u32, first: array<L1Mark>, second: array<L1Mark>)
    returns (range: array<L1Mark>, sorted: array<L1Mark>)
    requires first.Length == second.Length > 0 && first != second
    requires Marked(first[..]) && forall i :: 0 <= i < first.Length ==> first[i].val <= max
    modifies first, second
    ensures range in {first, second} && sorted in {first, second} && range != sorted
    ensures multiset(sorted[..]) == multiset(old(first[..])) && Ordered(sorted[..])
    ensures RangesTile(range[..], sorted[..], old(first[..]))
  {
    hide SortedModulo;
    ghost var t := first[..];
    var table, temp := first, second;
    var sft, m := 0, 1;
    MarkedIsSorted(t);
    while sft < 32 && m <= max
      invariant sft % 8 == 0 && sft <= 32 && m == Scale(sft / 8)
      invariant table in {first, second} && temp in {first, second} && table != temp
      invariant multiset(table[..]) == multiset(t) && SortedModulo(table[..], m)
      decreases 32 - sft
    {
      RadixPass(table, temp, m);
      table, temp := temp, table;
      sft, m := sft + 8, 0x100 * m;
    }
    if sft == 32 {
      ScaleOfWord();
    }
    FullySorted(table[..], t, m);
    OrderIsComplete(table[..], t);
    FillRanges(table, temp, t);
    range, sorted := temp, table;
  }

  lemma ScaleOfWord()
    ensures Scale(4) == 0x1_0000_0000
  {
    assert Scale(1) == 0x100 && Scale(2) == 0x1_0000 && Scale(3) == 0x100_0000;
  }

  lemma MarkedIsSorted(t: seq<L1Mark>)
    requires Marked(t)
    ensures SortedModulo(t, 1)
  {
    forall i, j | 0 <= i < j < |t| ensures Precedes(t[i], t[j], 1) {
    }
  }

  lemma FullySorted(s: seq<L1Mark>, t: seq<L1Mark>, m: nat)
    requires m > 0 && SortedModulo(s, m) && multiset(s) == multiset(t)
    requires forall i :: 0 <= i < |t| ==> t[i].val < m
    ensures Ordered(s)
  {
    forall k | 0 <= k < |s| ensures s[k].val % m == s[k].val {
      assert s[k] in multiset(t);
      RemainderIs(s[k].val, m, 0, s[k].val);
    }
    forall i, j | 0 <= i < j < |s|
      ensures s[i].val < s[j].val || (s[i].val == s[j].val && s[i].idx < s[j].idx)
    {
      assert Precedes(s[i], s[j], m);
    }
  }

  method FillRanges(table: array<L1Mark>, temp: array<L1Mark>, ghost t: seq<L1Mark>)
    requires table != temp && table.Length == temp.Length && OrdersBuckets(table[..], t)
    modifies temp
    ensures RangesTile(temp[..], table[..], t)
  {
    hide Chained, OrdersBuckets, RangesTile;
    var n := table.Length;
    var off := 0;
    ghost var sorted := table[..];
    ChainStart(temp[..], sorted);
    for i := n downto 0
      invariant table[..] == sorted && Chained(temp[..], sorted, i, off)
    {
      var cnt := table[i].val;
      ChainLink(temp[..], sorted, t, i, off);
      ghost var after := temp[..][sorted[i].idx := L1Mark(off + cnt, off)];
      temp[table[i].idx] := L1Mark(off + cnt, off);
      assert temp[..] == after;
      off := off + cnt;
    }
    ChainTiles(temp[..], sorted, t, off);
  }

  /** The ranges of the entries from `i` on are filled, back to back from 0, and end at `off`. */
  ghost predicate Chained(range: seq<L1Mark>, sorted: seq<L1Mark>, i: nat, off: nat) {
    && i <= |sorted| == |range|
    && (forall k :: i <= k < |sorted| ==> sorted[k].idx < |range|)
    && (forall k :: i <= k < |sorted| ==> range[sorted[k].idx].val == range[sorted[k].idx].idx + sorted[k].val)
    && (if i == |sorted| then off == 0
        else off == range[sorted[i].idx].val && range[sorted[|sorted| - 1].idx].idx == 0)
    && (forall k :: i < k < |sorted| && sorted[k - 1].idx < |range| ==>
                      range[sorted[k - 1].idx].idx == range[sorted[k].idx].val)
  }

  lemma ChainStart(range: seq<L1Mark>, sorted: seq<L1Mark>)
    requires |range| == |sorted|
    ensures Chained(range, sorted, |sorted|, 0)
  {
  }

  lemma ChainLink(range: seq<L1Mark>, sorted: seq<L1Mark>, t: seq<L1Mark>, i: nat, off: nat)
    requires OrdersBuckets(sorted, t) && Chained(range, sorted, i + 1, off) && i < |sorted|
    ensures sorted[i].idx < |range|
    ensures Chained(range[sorted[i].idx := L1Mark(off + sorted[i].val, off)], sorted, i, off + sorted[i].val)
  {
    var after := range[sorted[i].idx := L1Mark(off + sorted[i].val, off)];
    assert forall k :: i < k < |sorted| ==> sorted[k].idx != sorted[i].idx && after[sorted[k].idx] == range[sorted[k].idx];
  }

  lemma ChainTiles(range: seq<L1Mark>, sorted: seq<L1Mark>, t: seq<L1Mark>, off: nat)
    requires OrdersBuckets(sorted, t) && Chained(range, sorted, 0, off)
    ensures RangesTile(range, sorted, t)
  {
    var n := |sorted|;
    EveryBucketRanked(sorted, t);
    forall b | 0 <= b < n ensures range[b].val == range[b].idx + t[b].val {
      assert b in Buckets(sorted);
      var k :| 0 <= k < |Buckets(sorted)| && Buckets(sorted)[k] == b;
      assert sorted[k].idx == b;
    }
    forall r | 0 <= r && r + 1 < n
      ensures range[BucketAt(sorted, r + 1)].idx == range[BucketAt(sorted, r)].val
    {
      var k := n - 1 - r;
      assert range[sorted[k - 1].idx].idx == range[sorted[k].idx].val;
    }
  }

  function Buckets(sorted: seq<L1Mark>): (f: seq<nat>)
    ensures |f| == |sorted|
  {
    seq(|sorted|, k requires 0 <= k < |sorted| => sorted[k].idx)
  }

  lemma EveryBucketRanked(sorted: seq<L1Mark>, t: seq<L1Mark>)
    requires OrdersBuckets(sorted, t)
    ensures forall b :: 0 <= b < |t| ==> b in Buckets(sorted)
  {
    Onto(Buckets(sorted));
  }
}
