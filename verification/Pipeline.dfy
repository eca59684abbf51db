/** Software pipelines of 2, 3, 4 and 7 stages, and why each equals the plain loop.

    Stage `p1` makes a value from an index, every later stage refines it, and the last stage consumes it
    and may change a state. Every stage may also look at the state: `see` is what it sees of it at its index,
    as long as the last stage at one index leaves alone what is seen at later ones. The rings `s1`, `s2`, .. hold
    the values of the last `m` indices, oldest first from cell `k` on. */
module Pipeline {

  /** Runs one more stage after `f`. */
  function Then<A, B>(f: nat -> A, p: (A, nat) -> B): (g: nat -> B)
    ensures forall i :: g(i) == p(f(i), i)
  {
    (i: nat) => p(f(i), i)
  }

  /** The first stage, given what it sees at every index. */
  function Begin<V, A>(p: (V, nat) -> A, seen: nat -> V): (f: nat -> A)
    ensures forall i :: f(i) == p(seen(i), i)
  {
    (i: nat) => p(seen(i), i)
  }

  /** A later stage, given what it sees at every index. */
  function With<V, A, B>(p: (V, A, nat) -> B, seen: nat -> V): (A, nat) -> B
  {
    (a: A, i: nat) => p(seen(i), a, i)
  }

  /** What the stages would see at every index in the state `st`. */
  function SeenFrom<T, V>(see: (T, nat) -> V, st: T): (seen: nat -> V)
    ensures forall i :: seen(i) == see(st, i)
  {
    (i: nat) => see(st, i)
  }

  /** The last stage at one index does not change what is seen at later indices. */
  ghost predicate Undisturbed<T(!new), V, S(!new)>(see: (T, nat) -> V, last: (T, S, nat) -> T) {
    forall t: T, v: S, j: nat, i: nat :: j < i ==> see(last(t, v, j), i) == see(t, i)
  }

  /** From index `d` on, the state shows what was there at the start. */
  ghost predicate Intact<T, V>(see: (T, nat) -> V, seen: nat -> V, st: T, d: int) {
    forall i: nat :: d <= i ==> see(st, i) == seen(i)
  }

  /** The plain loop: the last stage is called once per index, in order, on the fully refined value. */
  function Consume<T, S>(st: T, last: (T, S, nat) -> T, f: nat -> S, n: nat): T {
    if n == 0 then st else last(Consume(st, last, f, n - 1), f(n - 1), n - 1)
  }

  /** Seen as a log, the loop's calls are exactly one per index, in order, each on its own value. */
  lemma {:induction false} CallLog<S>(f: nat -> S, n: nat)
    ensures Consume([], (log: seq<(S, nat)>, v: S, i: nat) => log + [(v, i)], f, n)
            == seq(n, i requires 0 <= i < n => (f(i), i))
  {
    if n > 0 {
      CallLog(f, n - 1);
    }
  }

  /** The loop as it stands in a program: every stage runs in the current state. */
  function Loop<T, V, S>(st: T, see: (T, nat) -> V, g: (V, nat) -> S, last: (T, S, nat) -> T, n: nat): T {
    if n == 0 then st
    else
      var t := Loop(st, see, g, last, n - 1);
      last(t, g(see(t, n - 1), n - 1), n - 1)
  }

  /** It comes to the same whether the stages see the state at the start or at their turn. */
  lemma {:induction false} LoopIsConsume<T(!new), V, S(!new)>(st: T, see: (T, nat) -> V, g: (V, nat) -> S,
                                                              last: (T, S, nat) -> T, n: nat)
    requires Undisturbed(see, last)
    ensures Loop(st, see, g, last, n) == Consume(st, last, Begin(g, SeenFrom(see, st)), n)
    ensures Intact(see, SeenFrom(see, st), Loop(st, see, g, last, n), n)
  {
    if n > 0 {
      LoopIsConsume(st, see, g, last, n - 1);
      var t := Loop(st, see, g, last, n - 1);
      forall x: nat | x >= n ensures see(Loop(st, see, g, last, n), x) == see(st, x) {
        assert see(t, x) == SeenFrom(see, st)(x);
      }
    }
  }

  /** What the last stage sees at its own index is what was there at the start. */
  lemma {:induction false} ConsumeIntact<T(!new), V, S(!new)>(st: T, see: (T, nat) -> V, last: (T, S, nat) -> T,
                                                              f: nat -> S, n: nat)
    requires Undisturbed(see, last)
    ensures Intact(see, SeenFrom(see, st), Consume(st, last, f, n), n)
  {
    if n > 0 {
      ConsumeIntact(st, see, last, f, n - 1);
      var t := Consume(st, last, f, n - 1);
      forall x: nat | x >= n ensures see(Consume(st, last, f, n), x) == see(st, x) {
        assert see(t, x) == SeenFrom(see, st)(x);
      }
    }
  }

  // ---- Rings -----------------------------------------------------------------------------

  function Advance(k: nat, m: nat): nat {
    if k + 1 >= m then 0 else k + 1
  }

  /** The cell of the `y`-th oldest value. */
  function Cell(k: nat, y: nat, m: nat): nat {
    if k + y < m then k + y else k + y - m
  }

  /** The ring holds the values of the indices `base, .., base + m - 1`, as far as they lie in `[0, n)`. */
  ghost predicate Holds<S>(ring: array<S>, f: nat -> S, k: nat, base: int, n: nat)
    reads ring
  {
    && k < ring.Length
    && forall y :: 0 <= y < ring.Length && 0 <= base + y < n ==> ring[Cell(k, y, ring.Length)] == f(base + y)
  }

  lemma HoldsNothing<S>(ring: array<S>, f: nat -> S, base: int, n: nat)
    requires ring.Length > 0 && base <= -ring.Length
    ensures Holds(ring, f, 0, base, n)
  {
  }

  /** A ring whose newest value would lie outside the batch just turns. */
  lemma HoldsTurn<S>(ring: array<S>, f: nat -> S, k: nat, base: int, n: nat)
    requires Holds(ring, f, k, base, n) && !(0 <= base + ring.Length < n)
    ensures Holds(ring, f, Advance(k, ring.Length), base + 1, n)
  {
    var m, l := ring.Length, Advance(k, ring.Length);
    forall y | 0 <= y < m && 0 <= base + 1 + y < n ensures ring[Cell(l, y, m)] == f(base + 1 + y) {
      assert y != m - 1;
      assert Cell(l, y, m) == Cell(k, y + 1, m);
    }
  }

  method Store<S>(ring: array<S>, k: nat, v: S, ghost f: nat -> S, ghost base: int, ghost n: nat)
    requires Holds(ring, f, k, base, n) && (0 <= base + ring.Length < n ==> v == f(base + ring.Length))
    modifies ring
    ensures Holds(ring, f, Advance(k, ring.Length), base + 1, n)
  {
    ghost var m, l := ring.Length, Advance(k, ring.Length);
    ring[k] := v;
    forall y | 0 <= y < m && 0 <= base + 1 + y < n ensures ring[Cell(l, y, m)] == f(base + 1 + y) {
      if y + 1 < m {
        assert Cell(l, y, m) == Cell(k, y + 1, m) != k;
        assert old(ring[Cell(k, y + 1, m)]) == f(base + (y + 1));
      }
    }
  }

  /** `s1[k] = p1(i)`, if there is such an index. */
  method First<T, V, S>(ring: array<S>, p: (V, nat) -> S, k: nat, i: nat, n: nat, see: (T, nat) -> V, st: T,
                        ghost seen: nat -> V, ghost d: int)
    requires Holds(ring, Begin(p, seen), k, i - ring.Length, n) && Intact(see, seen, st, d) && d <= i
    modifies ring
    ensures Holds(ring, Begin(p, seen), Advance(k, ring.Length), i + 1 - ring.Length, n)
  {
    if i < n {
      Store(ring, k, p(see(st, i), i), Begin(p, seen), i - ring.Length, n);
    } else {
      HoldsTurn(ring, Begin(p, seen), k, i - ring.Length, n);
    }
  }

  /** `t[k] = p(s[k], i)`, if there is such an index. */
  method Stage<T, V, A, B>(s: array<A>, t: array<B>, ghost f: nat -> A, p: (V, A, nat) -> B, k: nat, i: int, n: nat,
                           see: (T, nat) -> V, st: T, ghost seen: nat -> V, ghost d: int)
    requires s.Length == t.Length && Intact(see, seen, st, d) && d <= i
    requires Holds(s, f, k, i, n) && Holds(t, Then(f, With(p, seen)), k, i - t.Length, n)
    modifies t
    ensures Holds(t, Then(f, With(p, seen)), Advance(k, t.Length), i + 1 - t.Length, n)
  {
    if 0 <= i < n {
      assert s[Cell(k, 0, s.Length)] == f(i + 0);
      Store(t, k, p(see(st, i), s[k], i), Then(f, With(p, seen)), i - t.Length, n);
    } else {
      HoldsTurn(t, Then(f, With(p, seen)), k, i - t.Length, n);
    }
  }

  /** `p(s[k], i)` for the last stage, if there is such an index; it may change the state at `i`. */
  method Emit<T(!new), V, S(!new)>(s: array<S>, ghost f: nat -> S, last: (T, S, nat) -> T, k: nat, i: int, n: nat,
                                   before: T, ghost start: T, ghost see: (T, nat) -> V, ghost seen: nat -> V)
    returns (after: T)
    requires i < n && Holds(s, f, k, i, n) && before == Consume(start, last, f, Floor(i))
    requires Undisturbed(see, last) && Intact(see, seen, before, i)
    ensures after == Consume(start, last, f, Floor(i + 1)) && Intact(see, seen, after, i + 1)
  {
    after := before;
    if 0 <= i {
      assert s[Cell(k, 0, s.Length)] == f(i + 0);
      after := last(before, s[k], i);
      forall x: nat | x >= i + 1 ensures see(after, x) == seen(x) {
        assert see(before, x) == seen(x);
      }
    }
  }

  function Floor(x: int): nat {
    if x < 0 then 0 else x
  }

  // ---- Short batches ---------------------------------------------------------------------------

  /** The first `n` cells hold the values of the first `n` indices. */
  ghost predicate Filled<S>(ctx: array<S>, f: nat -> S, n: nat)
    reads ctx
  {
    n <= ctx.Length && forall i :: 0 <= i < n ==> ctx[i] == f(i)
  }

  method FirstAll<T, V, S(0)>(p: (V, nat) -> S, n: nat, see: (T, nat) -> V, st: T) returns (ctx: array<S>)
    ensures fresh(ctx) && Filled(ctx, Begin(p, SeenFrom(see, st)), n)
  {
    ctx := new S[n];
    for i := 0 to n
      invariant forall j :: 0 <= j < i ==> ctx[j] == Begin(p, SeenFrom(see, st))(j)
    {
      ctx[i] := p(see(st, i), i);
    }
  }

  method StageAll<T, V, A, B(0)>(s: array<A>, ghost f: nat -> A, p: (V, A, nat) -> B, n: nat, see: (T, nat) -> V, st: T)
    returns (t: array<B>)
    requires Filled(s, f, n)
    ensures fresh(t) && Filled(t, Then(f, With(p, SeenFrom(see, st))), n)
  {
    t := new B[n];
    for i := 0 to n
      invariant Filled(s, f, n)
      invariant forall j :: 0 <= j < i ==> t[j] == Then(f, With(p, SeenFrom(see, st)))(j)
    {
      t[i] := p(see(st, i), s[i], i);
    }
  }

  method EmitAll<T, S>(s: array<S>, ghost f: nat -> S, last: (T, S, nat) -> T, n: nat, st: T) returns (out: T)
    requires Filled(s, f, n)
    ensures out == Consume(st, last, f, n)
  {
    out := st;
    for i := 0 to n
      invariant out == Consume(st, last, f, i)
    {
      out := last(out, s[i], i);
    }
  }

  // ---- The pipelines ----------------------------------------------------------------------------

  /** The loop counter of a filling loop, read as a ring position. */
  function Wrap(j: nat, m: nat): nat {
    if j == m then 0 else j
  }

  /** The stages, what they see of the state, and the state to start from. */
  datatype Stages2<!T(!new), !V, !S1(!new)> = Stages2(see: (T, nat) -> V, p1: (V, nat) -> S1, p2: (T, S1, nat) -> T,
                                      start: T) {
    function Seen(): nat -> V {
      SeenFrom(see, start)
    }

    /** The value stage `r` makes for every index. */
    function C1(): nat -> S1 {
      Begin(p1, Seen())
    }

    function Plain(n: nat): T {
      Consume(start, p2, C1(), n)
    }
  }

  /** The rings, separate buffers of `m` cells. */
  datatype Rings2<S1> = Rings2(s1: array<S1>) {
    predicate Separate(m: nat) {
      && s1.Length == m > 0
    }
  }

  /** When index `x` is due to enter, ring `r` holds the values of the `m` indices from `x - m * r` on, and
      everything before them has been consumed. */
  ghost predicate Due2<T(!new), V, S1(!new)>(a: Stages2<T, V, S1>, b: Rings2<S1>, m: nat, n: nat, k: nat, x: nat,
      out: T)
    reads b.s1
  {
    && b.Separate(m) && k < m && x <= n + m && Undisturbed(a.see, a.p2)
    && Holds(b.s1, a.C1(), k, x - m, n)
    && out == a.Plain(Floor(x - m)) && Intact(a.see, a.Seen(), out, x - m)
  }

  /** One turn: the oldest value is consumed, every stage moves one value on, and `x` enters. */
  method Turn2<T(!new), V, S1(!new)>(a: Stages2<T, V, S1>, b: Rings2<S1>, m: nat, n: nat, k: nat, x: nat,
      before: T) returns (out: T)
    requires Due2(a, b, m, n, k, x, before) && x < n + m
    modifies b.s1
    ensures Due2(a, b, m, n, Advance(k, m), x + 1, out)
  {
    hide Holds, Consume, Then, Begin, With, Undisturbed, Intact, Advance;
    var last := x - m;
    out := Emit(b.s1, a.C1(), a.p2, k, last, n, before, a.start, a.see, a.Seen());
    First(b.s1, a.p1, k, x, n, a.see, out, a.Seen(), last + 1);
  }

  /** Before the first turn the rings hold nothing yet. */
  lemma Start2<T(!new), V, S1(!new)>(a: Stages2<T, V, S1>, b: Rings2<S1>, m: nat, n: nat)
    requires b.Separate(m) && Undisturbed(a.see, a.p2)
    ensures Due2(a, b, m, n, 0, 0, a.start)
  {
    hide Holds, Undisturbed;
    HoldsNothing(b.s1, a.C1(), 0 - m, n);
  }

  lemma Finish2<T(!new), V, S1(!new)>(a: Stages2<T, V, S1>, b: Rings2<S1>, m: nat, n: nat, k: nat, x: nat, out: T)
    requires Due2(a, b, m, n, k, x, out)
    ensures m > 0 && (x == n + m ==> out == a.Plain(n))
  {
    hide Holds, Undisturbed, Intact, Stages2.Plain;
  }

  /** The long batches: fill, steady state, drain. */
  method Long2<T(!new), V, S1(!new)>(a: Stages2<T, V, S1>, b: Rings2<S1>, m: nat, n: nat) returns (out: T)
    requires b.Separate(m) && n >= m && Undisturbed(a.see, a.p2)
    modifies b.s1
    ensures out == a.Plain(n)
  {
    hide Due2, Undisturbed, Stages2.Plain;
    Start2(a, b, m, n);
    out := a.start;
    for j := 0 to m
      invariant Due2(a, b, m, n, Wrap(j, m), j, out)
    {
      out := Turn2(a, b, m, n, j, j, out);
    }
    var k: nat := 0;
    for i := m to n
      invariant Due2(a, b, m, n, k, i, out)
    {
      out := Turn2(a, b, m, n, k, i, out);
      k := Advance(k, m);
    }
    for j := 0 to m
      invariant Due2(a, b, m, n, k, n + j, out)
    {
      out := Turn2(a, b, m, n, k, n + j, out);
      k := Advance(k, m);
    }
    Finish2(a, b, m, n, k, n + m, out);
  }

  method Pipeline2<T(!new), V, S1(0,!new)>(n: nat, m: nat, see: (T, nat) -> V, p1: (V, nat) -> S1,
      p2: (T, S1, nat) -> T, st: T)
    returns (out: T)
    requires m > 0 && Undisturbed(see, p2)
    ensures var seen := SeenFrom(see, st);
            out == Consume(st, p2, Begin(p1, seen), n)
  {
    hide Consume, Filled, Then, Begin, With, Undisturbed;
    var a := Stages2(see, p1, p2, st);
    if n < m {
      var x1 := FirstAll(p1, n, see, st);
      out := EmitAll(x1, a.C1(), p2, n, st);
      return;
    }
    var s1 := new S1[m];
    out := Long2(a, Rings2(s1), m, n);
  }

  datatype Stages3<!T(!new), !V, !S1(!new), !S2(!new)> = Stages3(see: (T, nat) -> V, p1: (V, nat) -> S1,
                                      p2: (V, S1, nat) -> S2, p3: (T, S2, nat) -> T, start: T) {
    function Seen(): nat -> V {
      SeenFrom(see, start)
    }

    function C1(): nat -> S1 {
      Begin(p1, Seen())
    }

    function C2(): nat -> S2 {
      Then(C1(), With(p2, Seen()))
    }

    function Plain(n: nat): T {
      Consume(start, p3, C2(), n)
    }
  }

  datatype Rings3<S1, S2> = Rings3(s1: array<S1>, s2: array<S2>) {
    predicate Separate(m: nat) {
      && s1.Length == s2.Length == m > 0
      && s1 as object != s2
    }
  }

  ghost predicate Due3<T(!new), V, S1(!new), S2(!new)>(a: Stages3<T, V, S1, S2>, b: Rings3<S1, S2>, m: nat, n: nat,
      k: nat, x: nat, out: T)
    reads b.s1, b.s2
  {
    && b.Separate(m) && k < m && x <= n + m * 2 && Undisturbed(a.see, a.p3)
    && Holds(b.s1, a.C1(), k, x - m, n)
    && Holds(b.s2, a.C2(), k, x - m * 2, n)
    && out == a.Plain(Floor(x - m * 2)) && Intact(a.see, a.Seen(), out, x - m * 2)
  }

  /** One turn: the oldest value is consumed, every stage moves one value on, and `x` enters. */
  method Turn3<T(!new), V, S1(!new), S2(!new)>(a: Stages3<T, V, S1, S2>, b: Rings3<S1, S2>, m: nat, n: nat, k: nat,
      x: nat, before: T) returns (out: T)
    requires Due3(a, b, m, n, k, x, before) && x < n + m * 2
    modifies b.s1, b.s2
    ensures Due3(a, b, m, n, Advance(k, m), x + 1, out)
  {
    hide Holds, Consume, Then, Begin, With, Undisturbed, Intact, Advance;
    var last := x - m * 2;
    out := Emit(b.s2, a.C2(), a.p3, k, last, n, before, a.start, a.see, a.Seen());
    Stage(b.s1, b.s2, a.C1(), a.p2, k, x - m, n, a.see, out, a.Seen(), last + 1);
    First(b.s1, a.p1, k, x, n, a.see, out, a.Seen(), last + 1);
  }

  /** Before the first turn the rings hold nothing yet. */
  lemma Start3<T(!new), V, S1(!new), S2(!new)>(a: Stages3<T, V, S1, S2>, b: Rings3<S1, S2>, m: nat, n: nat)
    requires b.Separate(m) && Undisturbed(a.see, a.p3)
    ensures Due3(a, b, m, n, 0, 0, a.start)
  {
    hide Holds, Undisturbed;
    HoldsNothing(b.s1, a.C1(), 0 - m, n);
    HoldsNothing(b.s2, a.C2(), -(m * 2), n);
  }

  lemma Finish3<T(!new), V, S1(!new), S2(!new)>(a: Stages3<T, V, S1, S2>, b: Rings3<S1, S2>, m: nat, n: nat, k: nat,
      x: nat, out: T)
    requires Due3(a, b, m, n, k, x, out)
    ensures m > 0 && (x == n + m * 2 ==> out == a.Plain(n))
  {
    hide Holds, Undisturbed, Intact, Stages3.Plain;
  }

  /** The long batches: fill, steady state, drain. */
  method Long3<T(!new), V, S1(!new), S2(!new)>(a: Stages3<T, V, S1, S2>, b: Rings3<S1, S2>, m: nat,
      n: nat) returns (out: T)
    requires b.Separate(m) && n >= m * 2 && Undisturbed(a.see, a.p3)
    modifies b.s1, b.s2
    ensures out == a.Plain(n)
  {
    hide Due3, Undisturbed, Stages3.Plain;
    Start3(a, b, m, n);
    out := a.start;
    for j := 0 to m
      invariant Due3(a, b, m, n, Wrap(j, m), j, out)
    {
      out := Turn3(a, b, m, n, j, j, out);
    }
    for j := 0 to m
      invariant Due3(a, b, m, n, Wrap(j, m), m + j, out)
    {
      out := Turn3(a, b, m, n, j, m + j, out);
    }
    var k: nat := 0;
    for i := m * 2 to n
      invariant Due3(a, b, m, n, k, i, out)
    {
      out := Turn3(a, b, m, n, k, i, out);
      k := Advance(k, m);
    }
    for j := 0 to m
      invariant Due3(a, b, m, n, k, n + j, out)
    {
      out := Turn3(a, b, m, n, k, n + j, out);
      k := Advance(k, m);
    }
    for j := 0 to m
      invariant Due3(a, b, m, n, k, n + m + j, out)
    {
      out := Turn3(a, b, m, n, k, n + m + j, out);
      k := Advance(k, m);
    }
    Finish3(a, b, m, n, k, n + m * 2, out);
  }

  method Pipeline3<T(!new), V, S1(0,!new), S2(0,!new)>(n: nat, m: nat, see: (T, nat) -> V, p1: (V, nat) -> S1,
      p2: (V, S1, nat) -> S2, p3: (T, S2, nat) -> T, st: T)
    returns (out: T)
    requires m > 0 && Undisturbed(see, p3)
    ensures var seen := SeenFrom(see, st);
            out == Consume(st, p3, Then(Begin(p1, seen), With(p2, seen)), n)
  {
    hide Consume, Filled, Then, Begin, With, Undisturbed;
    var a := Stages3(see, p1, p2, p3, st);
    if n < m * 2 {
      var x1 := FirstAll(p1, n, see, st);
      var x2 := StageAll(x1, a.C1(), p2, n, see, st);
      out := EmitAll(x2, a.C2(), p3, n, st);
      return;
    }
    var s1 := new S1[m];
    var s2 := new S2[m];
    out := Long3(a, Rings3(s1, s2), m, n);
  }

  datatype Stages4<!T(!new), !V, !S1(!new), !S2(!new), !S3(!new)> = Stages4(see: (T, nat) -> V, p1: (V, nat) -> S1,
                                      p2: (V, S1, nat) -> S2, p3: (V, S2, nat) -> S3, p4: (T, S3, nat) -> T,
                                      start: T) {
    function Seen(): nat -> V {
      SeenFrom(see, start)
    }

    function C1(): nat -> S1 {
      Begin(p1, Seen())
    }

    function C2(): nat -> S2 {
      Then(C1(), With(p2, Seen()))
    }

    function C3(): nat -> S3 {
      Then(C2(), With(p3, Seen()))
    }

    function Plain(n: nat): T {
      Consume(start, p4, C3(), n)
    }
  }

  datatype Rings4<S1, S2, S3> = Rings4(s1: array<S1>, s2: array<S2>, s3: array<S3>) {
    predicate Separate(m: nat) {
      && s1.Length == s2.Length == s3.Length == m > 0
      && s1 as object != s2 && s1 as object != s3
      && s2 as object != s3
    }
  }

  ghost predicate Due4<T(!new), V, S1(!new), S2(!new), S3(!new)>(a: Stages4<T, V, S1, S2, S3>, b: Rings4<S1, S2, S3>,
      m: nat, n: nat, k: nat, x: nat, out: T)
    reads b.s1, b.s2, b.s3
  {
    && b.Separate(m) && k < m && x <= n + m * 3 && Undisturbed(a.see, a.p4)
    && Holds(b.s1, a.C1(), k, x - m, n)
    && Holds(b.s2, a.C2(), k, x - m * 2, n)
    && Holds(b.s3, a.C3(), k, x - m * 3, n)
    && out == a.Plain(Floor(x - m * 3)) && Intact(a.see, a.Seen(), out, x - m * 3)
  }

  /** One turn: the oldest value is consumed, every stage moves one value on, and `x` enters. */
  method Turn4<T(!new), V, S1(!new), S2(!new), S3(!new)>(a: Stages4<T, V, S1, S2, S3>, b: Rings4<S1, S2, S3>, m: nat,
      n: nat, k: nat, x: nat, before: T) returns (out: T)
    requires Due4(a, b, m, n, k, x, before) && x < n + m * 3
    modifies b.s1, b.s2, b.s3
    ensures Due4(a, b, m, n, Advance(k, m), x + 1, out)
  {
    hide Holds, Consume, Then, Begin, With, Undisturbed, Intact, Advance;
    var last := x - m * 3;
    out := Emit(b.s3, a.C3(), a.p4, k, last, n, before, a.start, a.see, a.Seen());
    Stage(b.s2, b.s3, a.C2(), a.p3, k, x - m * 2, n, a.see, out, a.Seen(), last + 1);
    Stage(b.s1, b.s2, a.C1(), a.p2, k, x - m, n, a.see, out, a.Seen(), last + 1);
    First(b.s1, a.p1, k, x, n, a.see, out, a.Seen(), last + 1);
  }

  /** Before the first turn the rings hold nothing yet. */
  lemma Start4<T(!new), V, S1(!new), S2(!new), S3(!new)>(a: Stages4<T, V, S1, S2, S3>, b: Rings4<S1, S2, S3>, m: nat,
      n: nat)
    requires b.Separate(m) && Undisturbed(a.see, a.p4)
    ensures Due4(a, b, m, n, 0, 0, a.start)
  {
    hide Holds, Undisturbed;
    HoldsNothing(b.s1, a.C1(), 0 - m, n);
    HoldsNothing(b.s2, a.C2(), -(m * 2), n);
    HoldsNothing(b.s3, a.C3(), -(m * 3), n);
  }

  lemma Finish4<T(!new), V, S1(!new), S2(!new), S3(!new)>(a: Stages4<T, V, S1, S2, S3>, b: Rings4<S1, S2, S3>,
      m: nat, n: nat, k: nat, x: nat, out: T)
    requires Due4(a, b, m, n, k, x, out)
    ensures m > 0 && (x == n + m * 3 ==> out == a.Plain(n))
  {
    hide Holds, Undisturbed, Intact, Stages4.Plain;
  }

  /** Fills the rings stage by stage. */
  method Fill4<T(!new), V, S1(!new), S2(!new), S3(!new)>(a: Stages4<T, V, S1, S2, S3>, b: Rings4<S1, S2, S3>, m: nat,
      n: nat, before: T)
    returns (out: T)
    requires n >= m * 3 && Due4(a, b, m, n, 0, 0, before)
    modifies b.s1, b.s2, b.s3
    ensures Due4(a, b, m, n, 0, m * 3, out)
  {
    hide Due4;
    out := before;
    Finish4(a, b, m, n, 0, 0, before);
    for j := 0 to m
      invariant Due4(a, b, m, n, Wrap(j, m), j, out)
    {
      out := Turn4(a, b, m, n, j, j, out);
    }
    for j := 0 to m
      invariant Due4(a, b, m, n, Wrap(j, m), m + j, out)
    {
      out := Turn4(a, b, m, n, j, m + j, out);
    }
    for j := 0 to m
      invariant Due4(a, b, m, n, Wrap(j, m), m * 2 + j, out)
    {
      out := Turn4(a, b, m, n, j, m * 2 + j, out);
    }
  }

  /** The steady state: one value enters and one leaves per turn. */
  method Steady4<T(!new), V, S1(!new), S2(!new), S3(!new)>(a: Stages4<T, V, S1, S2, S3>, b: Rings4<S1, S2, S3>,
      m: nat, n: nat, from: nat, before: T)
    returns (out: T, k: nat)
    requires n >= m * 3 && Due4(a, b, m, n, from, m * 3, before)
    modifies b.s1, b.s2, b.s3
    ensures Due4(a, b, m, n, k, n, out)
  {
    hide Due4;
    k, out := from, before;
    Finish4(a, b, m, n, from, m * 3, before);
    for i := m * 3 to n
      invariant Due4(a, b, m, n, k, i, out)
    {
      out := Turn4(a, b, m, n, k, i, out);
      k := Advance(k, m);
    }
  }

  /** Empties the rings: one stage less takes part in every round. */
  method Drain4<T(!new), V, S1(!new), S2(!new), S3(!new)>(a: Stages4<T, V, S1, S2, S3>, b: Rings4<S1, S2, S3>,
      m: nat, n: nat, from: nat, before: T)
    returns (out: T, k: nat)
    requires n >= m * 3 && Due4(a, b, m, n, from, n, before)
    modifies b.s1, b.s2, b.s3
    ensures Due4(a, b, m, n, k, n + m * 3, out)
  {
    hide Due4;
    k, out := from, before;
    Finish4(a, b, m, n, from, n, before);
    for j := 0 to m
      invariant Due4(a, b, m, n, k, n + j, out)
    {
      out := Turn4(a, b, m, n, k, n + j, out);
      k := Advance(k, m);
    }
    for j := 0 to m
      invariant Due4(a, b, m, n, k, n + m + j, out)
    {
      out := Turn4(a, b, m, n, k, n + m + j, out);
      k := Advance(k, m);
    }
    for j := 0 to m
      invariant Due4(a, b, m, n, k, n + m * 2 + j, out)
    {
      out := Turn4(a, b, m, n, k, n + m * 2 + j, out);
      k := Advance(k, m);
    }
  }

  /** The long batches: fill, steady state, drain. */
  method Long4<T(!new), V, S1(!new), S2(!new), S3(!new)>(a: Stages4<T, V, S1, S2, S3>, b: Rings4<S1, S2, S3>, m: nat,
      n: nat) returns (out: T)
    requires b.Separate(m) && n >= m * 3 && Undisturbed(a.see, a.p4)
    modifies b.s1, b.s2, b.s3
    ensures out == a.Plain(n)
  {
    hide Due4, Undisturbed, Stages4.Plain;
    Start4(a, b, m, n);
    var k: nat;
    out := Fill4(a, b, m, n, a.start);
    out, k := Steady4(a, b, m, n, 0, out);
    out, k := Drain4(a, b, m, n, k, out);
    Finish4(a, b, m, n, k, n + m * 3, out);
  }

  method Pipeline4<T(!new), V, S1(0,!new), S2(0,!new), S3(0,!new)>(n: nat, m: nat, see: (T, nat) -> V,
      p1: (V, nat) -> S1, p2: (V, S1, nat) -> S2, p3: (V, S2, nat) -> S3, p4: (T, S3, nat) -> T, st: T)
    returns (out: T)
    requires m > 0 && Undisturbed(see, p4)
    ensures var seen := SeenFrom(see, st);
            out == Consume(st, p4, Then(Then(Begin(p1, seen), With(p2, seen)), With(p3, seen)), n)
  {
    hide Consume, Filled, Then, Begin, With, Undisturbed;
    var a := Stages4(see, p1, p2, p3, p4, st);
    if n < m * 3 {
      var x1 := FirstAll(p1, n, see, st);
      var x2 := StageAll(x1, a.C1(), p2, n, see, st);
      var x3 := StageAll(x2, a.C2(), p3, n, see, st);
      out := EmitAll(x3, a.C3(), p4, n, st);
      return;
    }
    var s1 := new S1[m];
    var s2 := new S2[m];
    var s3 := new S3[m];
    out := Long4(a, Rings4(s1, s2, s3), m, n);
  }

  datatype Stages7<!T(!new), !V, !S1(!new), !S2(!new), !S3(!new), !S4(!new), !S5(!new),
                                      !S6(!new)> = Stages7(see: (T, nat) -> V, p1: (V, nat) -> S1,
                                      p2: (V, S1, nat) -> S2, p3: (V, S2, nat) -> S3, p4: (V, S3, nat) -> S4, p5: (V,
                                      S4, nat) -> S5, p6: (V, S5, nat) -> S6, p7: (T, S6, nat) -> T, start: T) {
    function Seen(): nat -> V {
      SeenFrom(see, start)
    }

    function C1(): nat -> S1 {
      Begin(p1, Seen())
    }

    function C2(): nat -> S2 {
      Then(C1(), With(p2, Seen()))
    }

    function C3(): nat -> S3 {
      Then(C2(), With(p3, Seen()))
    }

    function C4(): nat -> S4 {
      Then(C3(), With(p4, Seen()))
    }

    function C5(): nat -> S5 {
      Then(C4(), With(p5, Seen()))
    }

    function C6(): nat -> S6 {
      Then(C5(), With(p6, Seen()))
    }

    function Plain(n: nat): T {
      Consume(start, p7, C6(), n)
    }
  }

  datatype Rings7<S1, S2, S3, S4, S5, S6> = Rings7(s1: array<S1>, s2: array<S2>, s3: array<S3>, s4: array<S4>,
                                                     s5: array<S5>, s6: array<S6>) {
    predicate Separate(m: nat) {
      && s1.Length == s2.Length == s3.Length == s4.Length == s5.Length == s6.Length == m > 0
      && s1 as object != s2 && s1 as object != s3 && s1 as object != s4 && s1 as object != s5 && s1 as object != s6
      && s2 as object != s3 && s2 as object != s4 && s2 as object != s5 && s2 as object != s6
      && s3 as object != s4 && s3 as object != s5 && s3 as object != s6
      && s4 as object != s5 && s4 as object != s6
      && s5 as object != s6
    }
  }

  ghost predicate Due7<T(!new), V, S1(!new), S2(!new), S3(!new), S4(!new), S5(!new), S6(!new)>(a: Stages7<T, V, S1,
      S2, S3, S4, S5, S6>, b: Rings7<S1, S2, S3, S4, S5, S6>, m: nat, n: nat, k: nat, x: nat, out: T)
    reads b.s1, b.s2, b.s3, b.s4, b.s5, b.s6
  {
    && b.Separate(m) && k < m && x <= n + m * 6 && Undisturbed(a.see, a.p7)
    && Holds(b.s1, a.C1(), k, x - m, n)
    && Holds(b.s2, a.C2(), k, x - m * 2, n)
    && Holds(b.s3, a.C3(), k, x - m * 3, n)
    && Holds(b.s4, a.C4(), k, x - m * 4, n)
    && Holds(b.s5, a.C5(), k, x - m * 5, n)
    && Holds(b.s6, a.C6(), k, x - m * 6, n)
    && out == a.Plain(Floor(x - m * 6)) && Intact(a.see, a.Seen(), out, x - m * 6)
  }

  /** One turn: the oldest value is consumed, every stage moves one value on, and `x` enters. */
  method Turn7<T(!new), V, S1(!new), S2(!new), S3(!new), S4(!new), S5(!new), S6(!new)>(a: Stages7<T, V, S1, S2, S3,
      S4, S5, S6>, b: Rings7<S1, S2, S3, S4, S5, S6>, m: nat, n: nat, k: nat, x: nat, before: T) returns (out: T)
    requires Due7(a, b, m, n, k, x, before) && x < n + m * 6
    modifies b.s1, b.s2, b.s3, b.s4, b.s5, b.s6
    ensures Due7(a, b, m, n, Advance(k, m), x + 1, out)
  {
    hide Holds, Consume, Then, Begin, With, Undisturbed, Intact, Advance;
    var last := x - m * 6;
    out := Emit(b.s6, a.C6(), a.p7, k, last, n, before, a.start, a.see, a.Seen());
    Stage(b.s5, b.s6, a.C5(), a.p6, k, x - m * 5, n, a.see, out, a.Seen(), last + 1);
    Stage(b.s4, b.s5, a.C4(), a.p5, k, x - m * 4, n, a.see, out, a.Seen(), last + 1);
    Stage(b.s3, b.s4, a.C3(), a.p4, k, x - m * 3, n, a.see, out, a.Seen(), last + 1);
    Stage(b.s2, b.s3, a.C2(), a.p3, k, x - m * 2, n, a.see, out, a.Seen(), last + 1);
    Stage(b.s1, b.s2, a.C1(), a.p2, k, x - m, n, a.see, out, a.Seen(), last + 1);
    First(b.s1, a.p1, k, x, n, a.see, out, a.Seen(), last + 1);
  }

  /** Before the first turn the rings hold nothing yet. */
  lemma Start7<T(!new), V, S1(!new), S2(!new), S3(!new), S4(!new), S5(!new), S6(!new)>(a: Stages7<T, V, S1, S2, S3,
      S4, S5, S6>, b: Rings7<S1, S2, S3, S4, S5, S6>, m: nat, n: nat)
    requires b.Separate(m) && Undisturbed(a.see, a.p7)
    ensures Due7(a, b, m, n, 0, 0, a.start)
  {
    hide Holds, Undisturbed;
    HoldsNothing(b.s1, a.C1(), 0 - m, n);
    HoldsNothing(b.s2, a.C2(), -(m * 2), n);
    HoldsNothing(b.s3, a.C3(), -(m * 3), n);
    HoldsNothing(b.s4, a.C4(), -(m * 4), n);
    HoldsNothing(b.s5, a.C5(), -(m * 5), n);
    HoldsNothing(b.s6, a.C6(), -(m * 6), n);
  }

  lemma Finish7<T(!new), V, S1(!new), S2(!new), S3(!new), S4(!new), S5(!new), S6(!new)>(a: Stages7<T, V, S1, S2, S3,
      S4, S5, S6>, b: Rings7<S1, S2, S3, S4, S5, S6>, m: nat, n: nat, k: nat, x: nat, out: T)
    requires Due7(a, b, m, n, k, x, out)
    ensures m > 0 && (x == n + m * 6 ==> out == a.Plain(n))
  {
    hide Holds, Undisturbed, Intact, Stages7.Plain;
  }

  /** Fills the rings stage by stage. */
  method Fill7<T(!new), V, S1(!new), S2(!new), S3(!new), S4(!new), S5(!new), S6(!new)>(a: Stages7<T, V, S1, S2, S3,
      S4, S5, S6>, b: Rings7<S1, S2, S3, S4, S5, S6>, m: nat, n: nat, before: T)
    returns (out: T)
    requires n >= m * 6 && Due7(a, b, m, n, 0, 0, before)
    modifies b.s1, b.s2, b.s3, b.s4, b.s5, b.s6
    ensures Due7(a, b, m, n, 0, m * 6, out)
  {
    hide Due7;
    out := before;
    Finish7(a, b, m, n, 0, 0, before);
    for j := 0 to m
      invariant Due7(a, b, m, n, Wrap(j, m), j, out)
    {
      out := Turn7(a, b, m, n, j, j, out);
    }
    for j := 0 to m
      invariant Due7(a, b, m, n, Wrap(j, m), m + j, out)
    {
      out := Turn7(a, b, m, n, j, m + j, out);
    }
    for j := 0 to m
      invariant Due7(a, b, m, n, Wrap(j, m), m * 2 + j, out)
    {
      out := Turn7(a, b, m, n, j, m * 2 + j, out);
    }
    for j := 0 to m
      invariant Due7(a, b, m, n, Wrap(j, m), m * 3 + j, out)
    {
      out := Turn7(a, b, m, n, j, m * 3 + j, out);
    }
    for j := 0 to m
      invariant Due7(a, b, m, n, Wrap(j, m), m * 4 + j, out)
    {
      out := Turn7(a, b, m, n, j, m * 4 + j, out);
    }
    for j := 0 to m
      invariant Due7(a, b, m, n, Wrap(j, m), m * 5 + j, out)
    {
      out := Turn7(a, b, m, n, j, m * 5 + j, out);
    }
  }

  /** The steady state: one value enters and one leaves per turn. */
  method Steady7<T(!new), V, S1(!new), S2(!new), S3(!new), S4(!new), S5(!new), S6(!new)>(a: Stages7<T, V, S1, S2, S3,
      S4, S5, S6>, b: Rings7<S1, S2, S3, S4, S5, S6>, m: nat, n: nat, from: nat, before: T)
    returns (out: T, k: nat)
    requires n >= m * 6 && Due7(a, b, m, n, from, m * 6, before)
    modifies b.s1, b.s2, b.s3, b.s4, b.s5, b.s6
    ensures Due7(a, b, m, n, k, n, out)
  {
    hide Due7;
    k, out := from, before;
    Finish7(a, b, m, n, from, m * 6, before);
    for i := m * 6 to n
      invariant Due7(a, b, m, n, k, i, out)
    {
      out := Turn7(a, b, m, n, k, i, out);
      k := Advance(k, m);
    }
  }

  /** Empties the rings: one stage less takes part in every round. */
  method Drain7<T(!new), V, S1(!new), S2(!new), S3(!new), S4(!new), S5(!new), S6(!new)>(a: Stages7<T, V, S1, S2, S3,
      S4, S5, S6>, b: Rings7<S1, S2, S3, S4, S5, S6>, m: nat, n: nat, from: nat, before: T)
    returns (out: T, k: nat)
    requires n >= m * 6 && Due7(a, b, m, n, from, n, before)
    modifies b.s1, b.s2, b.s3, b.s4, b.s5, b.s6
    ensures Due7(a, b, m, n, k, n + m * 6, out)
  {
    hide Due7;
    k, out := from, before;
    Finish7(a, b, m, n, from, n, before);
    for j := 0 to m
      invariant Due7(a, b, m, n, k, n + j, out)
    {
      out := Turn7(a, b, m, n, k, n + j, out);
      k := Advance(k, m);
    }
    for j := 0 to m
      invariant Due7(a, b, m, n, k, n + m + j, out)
    {
      out := Turn7(a, b, m, n, k, n + m + j, out);
      k := Advance(k, m);
    }
    for j := 0 to m
      invariant Due7(a, b, m, n, k, n + m * 2 + j, out)
    {
      out := Turn7(a, b, m, n, k, n + m * 2 + j, out);
      k := Advance(k, m);
    }
    for j := 0 to m
      invariant Due7(a, b, m, n, k, n + m * 3 + j, out)
    {
      out := Turn7(a, b, m, n, k, n + m * 3 + j, out);
      k := Advance(k, m);
    }
    for j := 0 to m
      invariant Due7(a, b, m, n, k, n + m * 4 + j, out)
    {
      out := Turn7(a, b, m, n, k, n + m * 4 + j, out);
      k := Advance(k, m);
    }
    for j := 0 to m
      invariant Due7(a, b, m, n, k, n + m * 5 + j, out)
    {
      out := Turn7(a, b, m, n, k, n + m * 5 + j, out);
      k := Advance(k, m);
    }
  }

  /** The long batches: fill, steady state, drain. */
  method Long7<T(!new), V, S1(!new), S2(!new), S3(!new), S4(!new), S5(!new), S6(!new)>(a: Stages7<T, V, S1, S2, S3,
      S4, S5, S6>, b: Rings7<S1, S2, S3, S4, S5, S6>, m: nat, n: nat) returns (out: T)
    requires b.Separate(m) && n >= m * 6 && Undisturbed(a.see, a.p7)
    modifies b.s1, b.s2, b.s3, b.s4, b.s5, b.s6
    ensures out == a.Plain(n)
  {
    hide Due7, Undisturbed, Stages7.Plain;
    Start7(a, b, m, n);
    var k: nat;
    out := Fill7(a, b, m, n, a.start);
    out, k := Steady7(a, b, m, n, 0, out);
    out, k := Drain7(a, b, m, n, k, out);
    Finish7(a, b, m, n, k, n + m * 6, out);
  }

  method Pipeline7<T(!new), V, S1(0,!new), S2(0,!new), S3(0,!new), S4(0,!new), S5(0,!new), S6(0,!new)>(n: nat,
      m: nat, see: (T, nat) -> V, p1: (V, nat) -> S1, p2: (V, S1, nat) -> S2, p3: (V, S2, nat) -> S3, p4: (V, S3,
      nat) -> S4, p5: (V, S4, nat) -> S5, p6: (V, S5, nat) -> S6, p7: (T, S6, nat) -> T, st: T)
    returns (out: T)
    requires m > 0 && Undisturbed(see, p7)
    ensures var seen := SeenFrom(see, st);
            var f3 := Then(Then(Begin(p1, seen), With(p2, seen)), With(p3, seen));
            out == Consume(st, p7, Then(Then(Then(f3, With(p4, seen)), With(p5, seen)), With(p6, seen)), n)
  {
    hide Consume, Filled, Then, Begin, With, Undisturbed;
    var a := Stages7(see, p1, p2, p3, p4, p5, p6, p7, st);
    if n < m * 6 {
      var x1 := FirstAll(p1, n, see, st);
      var x2 := StageAll(x1, a.C1(), p2, n, see, st);
      var x3 := StageAll(x2, a.C2(), p3, n, see, st);
      var x4 := StageAll(x3, a.C3(), p4, n, see, st);
      var x5 := StageAll(x4, a.C4(), p5, n, see, st);
      var x6 := StageAll(x5, a.C5(), p6, n, see, st);
      out := EmitAll(x6, a.C6(), p7, n, st);
      return;
    }
    var s1 := new S1[m];
    var s2 := new S2[m];
    var s3 := new S3[m];
    var s4 := new S4[m];
    var s5 := new S5[m];
    var s6 := new S6[m];
    out := Long7(a, Rings7(s1, s2, s3, s4, s5, s6), m, n);
  }
}
