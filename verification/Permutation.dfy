/** Finite counting facts: injections of equal size are onto, and rearrangements keep the bag. */
module Permutation {

  function Below(n: nat): (s: set<nat>)
    ensures |s| == n && forall x :: x in s <==> 0 <= x < n
  {
    if n == 0 then {} else Below(n - 1) + {n - 1}
  }

  ghost predicate Injective(f: seq<nat>) {
    forall i, j :: 0 <= i < j < |f| ==> f[i] != f[j]
  }

  ghost predicate Bounded(f: seq<nat>, n: nat) {
    forall i :: 0 <= i < |f| ==> f[i] < n
  }

  ghost function Image(f: seq<nat>): set<nat> {
    set x | x in f
  }

  lemma {:induction false} ImageSize(f: seq<nat>)
    requires Injective(f)
    ensures |Image(f)| == |f|
  {
    if f != [] {
      var g, last := f[..|f| - 1], f[|f| - 1];
      ImageSize(g);
      assert f == g + [last];
      assert last !in g;
      assert Image(f) == Image(g) + {last};
    } else {
      assert Image(f) == {};
    }
  }

  lemma SubsetOfSameSize<T>(a: set<T>, b: set<T>)
    requires a <= b && |a| == |b|
    ensures a == b
  {
    if a != b {
      var x :| x in b && x !in a;
      SubsetSize(a, b - {x});
    }
  }

  lemma {:induction false} SubsetSize<T>(a: set<T>, b: set<T>)
    requires a <= b
    ensures |a| <= |b|
  {
    if a != {} {
      var x :| x in a;
      SubsetSize(a - {x}, b - {x});
    }
  }

  /** An injection of `[0, n)` into itself reaches every number. */
  lemma Onto(f: seq<nat>)
    requires Injective(f) && Bounded(f, |f|)
    ensures forall y :: 0 <= y < |f| ==> y in f
  {
    ImageSize(f);
    SubsetOfSameSize(Image(f), Below(|f|));
    forall y | 0 <= y < |f| ensures y in f {
      assert y in Below(|f|);
    }
  }

  /** `b` is `a` rearranged by the injection `f`. */
  lemma {:induction false} Rearranged<T>(a: seq<T>, b: seq<T>, f: seq<nat>)
    requires |a| == |b| == |f| && Injective(f) && Bounded(f, |b|)
    requires forall i :: 0 <= i < |a| ==> b[f[i]] == a[i]
    ensures multiset(a) == multiset(b)
    decreases |a|
  {
    if a == [] {
    } else {
      var n := |a| - 1;
      var k := f[n];
      var c := b[..k] + b[k + 1..];
      var g := seq(n, i requires 0 <= i < n => if f[i] > k then f[i] - 1 else f[i]);
      forall i | 0 <= i < n ensures f[i] != k && c[g[i]] == a[..n][i] && g[i] < n {
        assert f[i] != f[n];
      }
      Rearranged(a[..n], c, g);
      assert a == a[..n] + [a[n]];
      assert b == b[..k] + [b[k]] + b[k + 1..];
      assert multiset(b) == multiset(c) + multiset{b[k]};
    }
  }
}
