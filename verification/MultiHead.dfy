/** The concurrent scatter of ids to their segments: several threads, several write heads per segment.

    Threads run as interleaved atomic steps. A claim is one relaxed fetch-and-add on a head's cursor;
    the write that follows a successful claim is a step of its own. */
module MultiHead {
  import opened Words
  import opened Ids
  import opened Permutation

  // ---- Cutting a range into nearly equal parts --------------------------------------------------

  /** Where part `i` starts when `size` is cut into `parts` parts, the first ones taking the remainder. */
  function Cut(size: nat, parts: nat, i: nat): nat
    requires parts > 0
  {
    i * (size / parts) + Min(i, size % parts)
  }

  lemma CutStep(size: nat, parts: nat, i: nat)
    requires parts > 0
    ensures Cut(size, parts, i + 1) == Cut(size, parts, i) + size / parts + if i < size % parts then 1 else 0
  {
    assert (i + 1) * (size / parts) == i * (size / parts) + size / parts;
  }

  lemma CutEnds(size: nat, parts: nat)
    requires parts > 0
    ensures Cut(size, parts, 0) == 0 && Cut(size, parts, parts) == size
  {
    DivModSplit(size, parts);
  }

  lemma {:induction false} CutMonotone(size: nat, parts: nat, i: nat, j: nat)
    requires parts > 0 && i <= j
    ensures Cut(size, parts, i) <= Cut(size, parts, j)
    decreases j
  {
    if i < j {
      CutMonotone(size, parts, i, j - 1);
      CutStep(size, parts, j - 1);
    }
  }

  /** The part that contains `x`. */
  function PartOf(size: nat, parts: nat, x: nat, upTo: nat): (i: nat)
    requires 0 < upTo <= parts && x < Cut(size, parts, upTo)
    ensures i < upTo && Cut(size, parts, i) <= x < Cut(size, parts, i + 1)
    decreases upTo
  {
    if upTo == 1 then CutEnds(size, parts); 0
    else if x >= Cut(size, parts, upTo - 1) then upTo - 1
    else PartOf(size, parts, x, upTo - 1)
  }

  lemma PartUnique(size: nat, parts: nat, x: nat, i: nat, j: nat)
    requires parts > 0
    requires Cut(size, parts, i) <= x < Cut(size, parts, i + 1) && Cut(size, parts, j) <= x < Cut(size, parts, j + 1)
    ensures i == j
  {
    if i < j {
      CutMonotone(size, parts, i + 1, j);
    } else if j < i {
      CutMonotone(size, parts, j + 1, i);
    }
  }

  // ---- Configuration and state ------------------------------------------------------------------

  /** The ids, their segments, and where each segment's stretch of the shadow begins. */
  datatype Config = Config(ids: seq<Id>, seg: Id -> nat, n: nat, base: seq<nat>, heads: nat) {

    ghost function Members(p: nat): set<nat> {
      set g | 0 <= g < |ids| && seg(ids[g]) == p
    }

    ghost predicate Valid() {
      && heads > 0 && |base| == n + 1 && base[0] == 0 && base[n] == |ids|
      && (forall g :: 0 <= g < |ids| ==> seg(ids[g]) < n)
      && (forall p :: 0 <= p < n ==> base[p] + |Members(p)| == base[p + 1])
    }

    /** The range of head `k` in the stretch of segment `p`. */
    function Start(k: nat, p: nat): nat
      requires heads > 0 && |base| == n + 1 && p < n
    {
      base[p] + Cut(if base[p + 1] >= base[p] then base[p + 1] - base[p] else 0, heads, k)
    }

    function End(k: nat, p: nat): nat
      requires heads > 0 && |base| == n + 1 && p < n
    {
      Start(k + 1, p)
    }

    /** The ids handed to thread `t`. */
    function Lo(t: nat): nat
      requires heads > 0
    {
      Cut(|ids|, heads, t)
    }

    /** The thread that id number `g` was handed to. */
    function ThreadOf(g: nat): (t: nat)
      requires heads > 0 && g < |ids|
      ensures t < heads && Lo(t) <= g < Lo(t + 1)
    {
      CutEnds(|ids|, heads);
      PartOf(|ids|, heads, g, heads)
    }
  }

  datatype Slot = Free | Claimed(at: nat)

  /** A thread is about to place id number `next`; `idx` holds its current head for every segment. */
  datatype Thread = Thread(next: nat, idx: seq<nat>, tries: nat, slot: Slot)

  /** `place` and `claims` are history: which slot an id has claimed, and which id has claimed a slot. */
  datatype State = State(cursor: map<(nat, nat), nat>, shadow: map<nat, Id>, threads: seq<Thread>,
                         place: map<nat, nat>, claims: map<nat, nat>)

  // ---- The steps --------------------------------------------------------------------------------

  ghost predicate Shaped(c: Config, s: State) {
    && c.Valid() && |s.threads| == c.heads
    && (forall k, p :: 0 <= k < c.heads && 0 <= p < c.n ==> (k, p) in s.cursor)
    && (forall t :: 0 <= t < c.heads ==> ThreadShaped(c, s.threads[t], t))
  }

  ghost predicate ThreadShaped(c: Config, th: Thread, t: nat)
    requires c.heads > 0
  {
    && c.Lo(t) <= th.next <= c.Lo(t + 1) <= |c.ids|
    && |th.idx| == c.n && (forall p :: 0 <= p < c.n ==> th.idx[p] < c.heads)
    && th.tries <= c.heads
    && (th.slot.Claimed? ==> th.next < c.Lo(t + 1))
  }

  ghost predicate CanClaim(c: Config, s: State, t: nat) {
    && Shaped(c, s) && t < c.heads && s.threads[t].slot.Free?
    && s.threads[t].next < c.Lo(t + 1) && s.threads[t].tries < c.heads
  }

  /** One fetch-and-add: the slot is the id's if it lies below the head's end, else the next head is due. */
  ghost function Claim(c: Config, s: State, t: nat): State
    requires CanClaim(c, s, t)
  {
    var th := s.threads[t];
    var p := c.seg(c.ids[th.next]);
    var k := th.idx[p];
    var off := s.cursor[(k, p)];
    var cursor := s.cursor[(k, p) := off + 1];
    if off < c.End(k, p) then
      State(cursor, s.shadow, s.threads[t := th.(slot := Claimed(off))],
            s.place[th.next := off], s.claims[off := th.next])
    else
      State(cursor, s.shadow, s.threads[t := th.(idx := th.idx[p := (k + 1) % c.heads], tries := th.tries + 1)],
            s.place, s.claims)
  }

  ghost predicate CanWrite(c: Config, s: State, t: nat) {
    Shaped(c, s) && t < c.heads && s.threads[t].slot.Claimed?
  }

  /** Stores the id in its slot and moves on to the next id. */
  ghost function Write(c: Config, s: State, t: nat): State
    requires CanWrite(c, s, t)
  {
    var th := s.threads[t];
    s.(shadow := s.shadow[th.slot.at := c.ids[th.next]],
       threads := s.threads[t := Thread(th.next + 1, th.idx, 0, Free)])
  }

  /** The loop over the heads has ended without a slot: the id would be dropped. */
  ghost predicate CanDrop(c: Config, s: State, t: nat) {
    && Shaped(c, s) && t < c.heads && s.threads[t].slot.Free?
    && s.threads[t].next < c.Lo(t + 1) && s.threads[t].tries == c.heads
  }

  ghost function Drop(c: Config, s: State, t: nat): State
    requires CanDrop(c, s, t)
  {
    var th := s.threads[t];
    s.(threads := s.threads[t := Thread(th.next + 1, th.idx, 0, Free)])
  }

  ghost predicate Next(c: Config, s: State, u: State) {
    exists t: nat :: StepOf(c, s, u, t)
  }

  ghost predicate StepOf(c: Config, s: State, u: State, t: nat) {
    || (CanClaim(c, s, t) && u == Claim(c, s, t))
    || (CanWrite(c, s, t) && u == Write(c, s, t))
    || (CanDrop(c, s, t) && u == Drop(c, s, t))
  }

  ghost predicate Initial(c: Config, s: State) {
    && c.Valid() && s.shadow == map[] && s.place == map[] && s.claims == map[] && |s.threads| == c.heads
    && (forall k, p :: 0 <= k < c.heads && 0 <= p < c.n ==> (k, p) in s.cursor && s.cursor[(k, p)] == c.Start(k, p))
    && (forall t :: 0 <= t < c.heads ==>
          s.threads[t] == Thread(c.Lo(t), seq(c.n, _ => t), 0, Free))
  }

  ghost predicate Run(c: Config, run: seq<State>) {
    && run != [] && Initial(c, run[0])
    && forall i :: 0 <= i && i + 1 < |run| ==> Next(c, run[i], run[i + 1])
  }

  ghost predicate Joined(c: Config, s: State) {
    Shaped(c, s) && forall t :: 0 <= t < c.heads ==> s.threads[t].next == c.Lo(t + 1)
  }

  // ---- The invariant ----------------------------------------------------------------------------

  /** Claims and places are inverse to each other, and a claimed slot belongs to the id's segment. */
  ghost predicate ClaimsMatch(c: Config, s: State)
    requires c.Valid()
  {
    && (forall o :: o in s.claims ==> s.claims[o] in s.place && s.place[s.claims[o]] == o)
    && (forall g :: g in s.place ==>
          && g < |c.ids| && s.place[g] in s.claims && s.claims[s.place[g]] == g
          && c.base[c.seg(c.ids[g])] <= s.place[g] < c.base[c.seg(c.ids[g]) + 1])
  }

  /** Below its cursor a head's range is claimed, from the cursor on it is free; the cursor may overshoot. */
  ghost predicate CursorsMatch(c: Config, s: State)
    requires Shaped(c, s)
  {
    forall k, p :: 0 <= k < c.heads && 0 <= p < c.n ==> CursorMatch(c, s, k, p)
  }

  ghost predicate CursorMatch(c: Config, s: State, k: nat, p: nat)
    requires Shaped(c, s) && k < c.heads && p < c.n
  {
    && c.Start(k, p) <= s.cursor[(k, p)]
    && forall o :: c.Start(k, p) <= o < c.End(k, p) ==> (o in s.claims <==> o < s.cursor[(k, p)])
  }

  /** Which ids have a slot, and which slots are written, follows from how far the threads are. */
  ghost predicate ProgressMatch(c: Config, s: State)
    requires Shaped(c, s)
  {
    forall g :: 0 <= g < |c.ids| ==> IdMatch(c, s, g)
  }

  ghost predicate IdMatch(c: Config, s: State, g: nat)
    requires Shaped(c, s) && g < |c.ids|
  {
    var th := s.threads[c.ThreadOf(g)];
    if g < th.next then g in s.place && s.place[g] in s.shadow && s.shadow[s.place[g]] == c.ids[g]
    else if g == th.next && th.slot.Claimed? then g in s.place && s.place[g] == th.slot.at && th.slot.at !in s.shadow
    else g !in s.place
  }

  ghost predicate OnlyClaimsWritten(s: State) {
    forall o :: o in s.shadow ==> o in s.claims
  }

  /** Every head the thread has tried for its current id is full. */
  ghost predicate TriedAreFull(c: Config, s: State)
    requires Shaped(c, s)
  {
    forall t :: 0 <= t < c.heads ==> TriedFull(c, s, t)
  }

  ghost predicate TriedFull(c: Config, s: State, t: nat)
    requires Shaped(c, s) && t < c.heads
  {
    var th := s.threads[t];
    th.slot.Free? && th.next < c.Lo(t + 1) ==>
      var p := c.seg(c.ids[th.next]);
      forall j :: 1 <= j <= th.tries ==> Full(c, s, Back(th.idx[p], j, c.heads), p)
  }

  /** The head `j` steps before head `k` in cyclic order. */
  function Back(k: nat, j: nat, heads: nat): (b: nat)
    requires heads > 0 && j <= heads
    ensures b < heads
  {
    (k + heads - j) % heads
  }

  ghost predicate Full(c: Config, s: State, k: nat, p: nat)
    requires Shaped(c, s) && p < c.n && k < c.heads
  {
    s.cursor[(k, p)] >= c.End(k, p)
  }

  ghost predicate Inv(c: Config, s: State) {
    && Shaped(c, s) && ClaimsMatch(c, s) && CursorsMatch(c, s) && ProgressMatch(c, s)
    && OnlyClaimsWritten(s) && TriedAreFull(c, s)
  }

  // ---- Geometry of the ranges -------------------------------------------------------------------

  lemma {:induction false} BaseMonotone(c: Config, p: nat, q: nat)
    requires c.Valid() && p <= q <= c.n
    ensures c.base[p] <= c.base[q] <= |c.ids|
    decreases c.n - p
  {
    if p < q {
      assert c.base[p] + |c.Members(p)| == c.base[p + 1];
      BaseMonotone(c, p + 1, q);
    } else if q < c.n {
      assert c.base[p] + |c.Members(p)| == c.base[p + 1];
      BaseMonotone(c, p + 1, c.n);
    }
  }

  lemma RangeInside(c: Config, k: nat, p: nat)
    requires c.Valid() && k < c.heads && p < c.n
    ensures c.base[p] <= c.Start(k, p) <= c.End(k, p) <= c.base[p + 1] <= |c.ids|
  {
    BaseMonotone(c, p, p + 1);
    var size := c.base[p + 1] - c.base[p];
    CutMonotone(size, c.heads, 0, k);
    CutMonotone(size, c.heads, k, k + 1);
    CutMonotone(size, c.heads, k + 1, c.heads);
    CutEnds(size, c.heads);
  }

  lemma RangesDisjoint(c: Config, k: nat, p: nat, i: nat, q: nat, o: nat)
    requires c.Valid() && k < c.heads && p < c.n && i < c.heads && q < c.n
    requires c.Start(k, p) <= o < c.End(k, p) && c.Start(i, q) <= o < c.End(i, q)
    ensures k == i && p == q
  {
    RangeInside(c, k, p);
    RangeInside(c, i, q);
    if p < q {
      BaseMonotone(c, p + 1, q);
    } else if q < p {
      BaseMonotone(c, q + 1, p);
    } else {
      BaseMonotone(c, p, p + 1);
      PartUnique(c.base[p + 1] - c.base[p], c.heads, o - c.base[p], k, i);
    }
  }

  lemma HeadOf(c: Config, p: nat, o: nat) returns (k: nat)
    requires c.Valid() && p < c.n && c.base[p] <= o < c.base[p + 1]
    ensures k < c.heads && c.Start(k, p) <= o < c.End(k, p)
  {
    var size := c.base[p + 1] - c.base[p];
    CutEnds(size, c.heads);
    k := PartOf(size, c.heads, o - c.base[p], c.heads);
  }

  lemma ThreadIs(c: Config, g: nat, t: nat)
    requires c.heads > 0 && g < |c.ids| && c.Lo(t) <= g < c.Lo(t + 1)
    ensures c.ThreadOf(g) == t
  {
    PartUnique(|c.ids|, c.heads, g, c.ThreadOf(g), t);
  }

  lemma BackStep(k: nat, j: nat, heads: nat)
    requires heads > 0 && k < heads && 1 <= j <= heads
    ensures Back((k + 1) % heads, j, heads) == Back(k, j - 1, heads)
  {
    if k + 1 == heads {
      RemainderIs(k + 1, heads, 1, 0);
      RemainderIs(heads - j, heads, 0, heads - j);
      RemainderIs(k + heads - (j - 1), heads, 1, heads - j);
    } else {
      RemainderIs(k + 1, heads, 0, k + 1);
    }
  }

  /** Going back up to `heads` steps meets every head. */
  lemma BackMeets(k: nat, i: nat, heads: nat) returns (j: nat)
    requires k < heads && i < heads
    ensures 1 <= j <= heads && Back(k, j, heads) == i
  {
    if i < k {
      j := k - i;
      RemainderIs(i + heads, heads, 1, i);
    } else {
      j := heads + k - i;
      RemainderIs(i, heads, 0, i);
    }
  }

  // ---- The steps keep the invariant -------------------------------------------------------------

  lemma InitialInv(c: Config, s: State)
    requires Initial(c, s)
    ensures Inv(c, s)
  {
    forall t | 0 <= t < c.heads ensures ThreadShaped(c, s.threads[t], t) {
      CutMonotone(|c.ids|, c.heads, t, t + 1);
      CutMonotone(|c.ids|, c.heads, t + 1, c.heads);
      CutEnds(|c.ids|, c.heads);
    }
    forall k, p | 0 <= k < c.heads && 0 <= p < c.n ensures CursorMatch(c, s, k, p) {
      RangeInside(c, k, p);
    }
  }

  /** The facts a claim starts from. */
  lemma ClaimFacts(c: Config, s: State, t: nat)
    requires Inv(c, s) && CanClaim(c, s, t)
    ensures var th := s.threads[t];
            && th.next < |c.ids| && c.ThreadOf(th.next) == t && th.next !in s.place
            && var p := c.seg(c.ids[th.next]);
               && p < c.n && th.idx[p] < c.heads && (th.idx[p], p) in s.cursor
               && CursorMatch(c, s, th.idx[p], p)
  {
    hide ClaimsMatch, OnlyClaimsWritten, TriedAreFull, CursorMatch;
    var th := s.threads[t];
    assert ThreadShaped(c, th, t);
    ThreadIs(c, th.next, t);
    assert IdMatch(c, s, th.next);
  }

  /** What a winning claim changes. */
  ghost predicate Won(c: Config, s: State, t: nat, u: State, p: nat, k: nat, off: nat)
    requires Shaped(c, s)
  {
    && t < c.heads && k < c.heads && p < c.n
    && s.threads[t].next < |c.ids| && p == c.seg(c.ids[s.threads[t].next]) && s.threads[t].slot.Free?
    && s.threads[t].next < c.Lo(t + 1) && s.threads[t].next !in s.place && c.ThreadOf(s.threads[t].next) == t
    && off == s.cursor[(k, p)] && c.Start(k, p) <= off < c.End(k, p) && off !in s.claims
    && u == State(s.cursor[(k, p) := off + 1], s.shadow, s.threads[t := s.threads[t].(slot := Claimed(off))],
                  s.place[s.threads[t].next := off], s.claims[off := s.threads[t].next])
  }

  lemma ClaimIsWon(c: Config, s: State, t: nat)
    requires Inv(c, s) && CanClaim(c, s, t)
    requires var th := s.threads[t]; var p := c.seg(c.ids[th.next]);
             th.next < |c.ids| && p < c.n && th.idx[p] < c.heads && s.cursor[(th.idx[p], p)] < c.End(th.idx[p], p)
    ensures var th := s.threads[t]; var p := c.seg(c.ids[th.next]);
            Won(c, s, t, Claim(c, s, t), p, th.idx[p], s.cursor[(th.idx[p], p)])
  {
    hide Config.Valid, ClaimsMatch, ProgressMatch, TriedAreFull;
    ClaimFacts(c, s, t);
  }

  lemma WonShaped(c: Config, s: State, t: nat, u: State, p: nat, k: nat, off: nat)
    requires Shaped(c, s) && Won(c, s, t, u, p, k, off)
    ensures Shaped(c, u)
  {
    hide Config.Valid;
    forall i | 0 <= i < c.heads ensures ThreadShaped(c, u.threads[i], i) {
      assert ThreadShaped(c, s.threads[i], i);
    }
  }

  lemma WonClaims(c: Config, s: State, t: nat, u: State, p: nat, k: nat, off: nat)
    requires Shaped(c, s) && ClaimsMatch(c, s) && Won(c, s, t, u, p, k, off)
    ensures ClaimsMatch(c, u)
  {
    hide Config.Valid, ThreadShaped, Config.Start, Config.End, Config.Lo;
    RangeInside(c, k, p);
    ConfigShape(c);
    var g := s.threads[t].next;
    forall o | o in u.claims ensures u.claims[o] in u.place && u.place[u.claims[o]] == o {
      if o != off {
        assert o in s.claims && s.claims[o] != g;
      }
    }
    forall x | x in u.place
      ensures x < |c.ids| && u.place[x] in u.claims && u.claims[u.place[x]] == x
              && c.seg(c.ids[x]) < c.n && c.base[c.seg(c.ids[x])] <= u.place[x] < c.base[c.seg(c.ids[x]) + 1]
    {
      if x != g {
        assert x in s.place && s.place[x] != off;
        ValidSegment(c, x);
      }
    }
  }

  lemma ConfigShape(c: Config)
    requires c.Valid()
    ensures c.heads > 0 && |c.base| == c.n + 1
  {
  }

  lemma WonCursors(c: Config, s: State, t: nat, u: State, p: nat, k: nat, off: nat)
    requires Shaped(c, s) && Shaped(c, u) && CursorsMatch(c, s) && Won(c, s, t, u, p, k, off)
    ensures CursorsMatch(c, u)
  {
    hide Config.Valid, ThreadShaped, Config.Start, Config.End;
    ConfigShape(c);
    forall i, q | 0 <= i < c.heads && 0 <= q < c.n ensures CursorMatch(c, u, i, q) {
      assert CursorMatch(c, s, i, q);
      if c.Start(i, q) <= off < c.End(i, q) {
        RangesDisjoint(c, k, p, i, q, off);
      }
    }
  }

  lemma WonProgress(c: Config, s: State, t: nat, u: State, p: nat, k: nat, off: nat)
    requires Shaped(c, s) && Shaped(c, u) && ProgressMatch(c, s) && OnlyClaimsWritten(s) && Won(c, s, t, u, p, k, off)
    ensures ProgressMatch(c, u)
  {
    hide Config.Valid, ThreadShaped, Config.Start, Config.End, Config.ThreadOf, Config.Lo;
    forall x | 0 <= x < |c.ids| ensures IdMatch(c, u, x) {
      assert IdMatch(c, s, x);
    }
  }

  lemma ClaimWins(c: Config, s: State, t: nat, p: nat, k: nat, off: nat)
    requires Inv(c, s) && CanClaim(c, s, t) && Won(c, s, t, Claim(c, s, t), p, k, off)
    ensures Inv(c, Claim(c, s, t))
  {
    hide Config.Valid, ThreadShaped, ClaimsMatch, CursorMatch, IdMatch, Config.Start, Config.End, TriedFull;
    var u := Claim(c, s, t);
    WonShaped(c, s, t, u, p, k, off);
    WonClaims(c, s, t, u, p, k, off);
    WonCursors(c, s, t, u, p, k, off);
    WonProgress(c, s, t, u, p, k, off);
    forall i | 0 <= i < c.heads ensures TriedFull(c, u, i) {
      StillFull(c, s, u, i);
    }
  }

  /** Full heads stay full, because cursors only grow. */
  lemma StillFull(c: Config, s: State, u: State, i: nat)
    requires Shaped(c, s) && Shaped(c, u) && i < c.heads && TriedFull(c, s, i)
    requires forall k, p :: 0 <= k < c.heads && 0 <= p < c.n ==> s.cursor[(k, p)] <= u.cursor[(k, p)]
    requires u.threads[i] == s.threads[i] || u.threads[i].slot.Claimed? || u.threads[i].tries == 0
    ensures TriedFull(c, u, i)
  {
    hide Config.Valid;
    var th := u.threads[i];
    if th == s.threads[i] && th.slot.Free? && th.next < c.Lo(i + 1) {
      assert ThreadShaped(c, th, i);
      var p := c.seg(c.ids[th.next]);
      assert p < c.n by { ValidSegment(c, th.next); }
      forall j | 1 <= j <= th.tries ensures Full(c, u, Back(th.idx[p], j, c.heads), p) {
        assert Full(c, s, Back(th.idx[p], j, c.heads), p);
      }
    }
  }

  lemma ValidSegment(c: Config, g: nat)
    requires c.Valid() && g < |c.ids|
    ensures c.seg(c.ids[g]) < c.n
  {
  }

  /** What a losing claim changes. */
  ghost predicate Lost(c: Config, s: State, t: nat, u: State, p: nat, k: nat)
    requires Shaped(c, s)
  {
    && t < c.heads && k < c.heads && p < c.n && p < |s.threads[t].idx| && k == s.threads[t].idx[p]
    && s.threads[t].next < |c.ids| && p == c.seg(c.ids[s.threads[t].next])
    && s.threads[t].tries < c.heads && s.cursor[(k, p)] >= c.End(k, p)
    && u == State(s.cursor[(k, p) := s.cursor[(k, p)] + 1], s.shadow,
                  s.threads[t := s.threads[t].(idx := s.threads[t].idx[p := (k + 1) % c.heads],
                                               tries := s.threads[t].tries + 1)],
                  s.place, s.claims)
  }

  lemma LostShaped(c: Config, s: State, t: nat, u: State, p: nat, k: nat)
    requires Shaped(c, s) && Lost(c, s, t, u, p, k)
    ensures Shaped(c, u)
  {
    hide Config.Valid;
    forall i | 0 <= i < c.heads ensures ThreadShaped(c, u.threads[i], i) {
      assert ThreadShaped(c, s.threads[i], i);
    }
  }

  lemma LostMatches(c: Config, s: State, t: nat, u: State, p: nat, k: nat)
    requires Shaped(c, s) && Shaped(c, u) && CursorsMatch(c, s) && ProgressMatch(c, s) && Lost(c, s, t, u, p, k)
    ensures CursorsMatch(c, u) && ProgressMatch(c, u)
  {
    hide Config.Valid, ThreadShaped, Config.Start;
    forall i, q | 0 <= i < c.heads && 0 <= q < c.n ensures CursorMatch(c, u, i, q) {
      assert CursorMatch(c, s, i, q);
    }
    forall x | 0 <= x < |c.ids| ensures IdMatch(c, u, x) {
      assert IdMatch(c, s, x);
    }
  }

  lemma ClaimLoses(c: Config, s: State, t: nat, p: nat, k: nat)
    requires Inv(c, s) && CanClaim(c, s, t) && Lost(c, s, t, Claim(c, s, t), p, k)
    ensures Inv(c, Claim(c, s, t))
  {
    hide Config.Valid, ThreadShaped, CursorMatch, IdMatch, Config.Start, Config.End, TriedFull;
    var u := Claim(c, s, t);
    LostShaped(c, s, t, u, p, k);
    LostMatches(c, s, t, u, p, k);
    forall i | 0 <= i < c.heads ensures TriedFull(c, u, i) {
      if i == t {
        LoseTried(c, s, u, t, p);
      } else {
        StillFull(c, s, u, i);
      }
    }
  }

  /** The head just tried joins the full ones, which are all one step further back now. */
  lemma LoseTried(c: Config, s: State, u: State, t: nat, p: nat)
    requires Shaped(c, s) && Shaped(c, u) && t < c.heads && TriedFull(c, s, t) && CanClaim(c, s, t)
    requires s.threads[t].next < |c.ids| && p == c.seg(c.ids[s.threads[t].next]) && p < c.n
    requires u.threads[t].next == s.threads[t].next && u.threads[t].slot == s.threads[t].slot
    requires u.threads[t].idx[p] == (s.threads[t].idx[p] + 1) % c.heads && u.threads[t].tries == s.threads[t].tries + 1
    requires u.cursor[(s.threads[t].idx[p], p)] >= c.End(s.threads[t].idx[p], p)
    requires forall k, q :: 0 <= k < c.heads && 0 <= q < c.n ==> s.cursor[(k, q)] <= u.cursor[(k, q)]
    ensures TriedFull(c, u, t)
  {
    hide Config.Valid, Back;
    var th, after := s.threads[t], u.threads[t];
    assert ThreadShaped(c, th, t);
    assert ThreadShaped(c, after, t);
    forall j | 1 <= j <= after.tries ensures Full(c, u, Back(after.idx[p], j, c.heads), p) {
      BackStep(th.idx[p], j, c.heads);
      if j == 1 {
        BackNone(th.idx[p], c.heads);
      } else {
        assert Full(c, s, Back(th.idx[p], j - 1, c.heads), p);
      }
    }
  }

  lemma BackNone(k: nat, heads: nat)
    requires k < heads
    ensures Back(k, 0, heads) == k
  {
    RemainderIs(k + heads, heads, 1, k);
  }

  /** No shadow slot is written twice. */
  lemma WriteIsFresh(c: Config, s: State, t: nat)
    requires Inv(c, s) && CanWrite(c, s, t)
    ensures s.threads[t].slot.at !in s.shadow
    ensures s.threads[t].next < |c.ids| && s.place.Keys >= {s.threads[t].next}
    ensures s.place[s.threads[t].next] == s.threads[t].slot.at && c.ThreadOf(s.threads[t].next) == t
  {
    hide ClaimsMatch, CursorsMatch, TriedAreFull;
    var th := s.threads[t];
    assert ThreadShaped(c, th, t);
    ThreadIs(c, th.next, t);
    assert IdMatch(c, s, th.next);
  }

  lemma WriteInv(c: Config, s: State, t: nat)
    requires Inv(c, s) && CanWrite(c, s, t)
    ensures Inv(c, Write(c, s, t))
  {
    hide Config.Valid;
    WriteIsFresh(c, s, t);
    var th, u := s.threads[t], Write(c, s, t);
    WriteShaped(c, s, t, u);
    forall i, q | 0 <= i < c.heads && 0 <= q < c.n ensures CursorMatch(c, u, i, q) {
      assert CursorMatch(c, s, i, q);
    }
    WriteProgress(c, s, t);
    forall i | 0 <= i < c.heads ensures TriedFull(c, u, i) {
      assert TriedFull(c, s, i);
      StillFull(c, s, u, i);
    }
  }

  lemma WriteProgress(c: Config, s: State, t: nat)
    requires Inv(c, s) && CanWrite(c, s, t) && Shaped(c, Write(c, s, t))
    ensures ProgressMatch(c, Write(c, s, t))
  {
    hide Config.Valid, ThreadShaped, CursorsMatch, TriedAreFull, Config.ThreadOf;
    var th, u := s.threads[t], Write(c, s, t);
    WriteIsFresh(c, s, t);
    forall x | 0 <= x < |c.ids| ensures IdMatch(c, u, x) {
      assert IdMatch(c, s, x);
      if x in s.place && x != th.next {
        assert s.claims[s.place[x]] == x;
        assert s.claims[s.place[th.next]] == th.next;
      }
    }
  }

  lemma WriteShaped(c: Config, s: State, t: nat, u: State)
    requires Shaped(c, s) && t < c.heads && |u.threads| == c.heads && s.threads[t].slot.Claimed?
    requires u.threads == s.threads[t := Thread(s.threads[t].next + 1, s.threads[t].idx, 0, Free)]
    requires u.cursor == s.cursor
    ensures Shaped(c, u)
  {
    forall i | 0 <= i < c.heads ensures ThreadShaped(c, u.threads[i], i) {
      assert ThreadShaped(c, s.threads[i], i);
    }
  }

  // ---- No id is dropped -------------------------------------------------------------------------

  ghost function ImageOf(f: map<nat, nat>, a: set<nat>): set<nat>
    requires a <= f.Keys
  {
    set x | x in a :: f[x]
  }

  lemma {:induction false} ImageCount(f: map<nat, nat>, a: set<nat>)
    requires a <= f.Keys && forall x, y :: x in a && y in a && x != y ==> f[x] != f[y]
    ensures |ImageOf(f, a)| == |a|
  {
    if a != {} {
      var z :| z in a;
      var b := a - {z};
      ImageCount(f, b);
      assert ImageOf(f, a) == ImageOf(f, b) + {f[z]};
    }
  }

  function Interval(lo: nat, hi: nat): (s: set<nat>)
    requires lo <= hi
    ensures |s| == hi - lo && forall o :: o in s <==> lo <= o < hi
    decreases hi
  {
    if lo == hi then {} else Interval(lo, hi - 1) + {hi - 1}
  }

  /** The segment whose stretch contains a slot is unique. */
  lemma StretchUnique(c: Config, p: nat, q: nat, o: nat)
    requires c.Valid() && p < c.n && q < c.n
    requires c.base[p] <= o < c.base[p + 1] && c.base[q] <= o < c.base[q + 1]
    ensures p == q
  {
    if q < p {
      BaseMonotone(c, q + 1, p);
    } else if p < q {
      BaseMonotone(c, p + 1, q);
    }
  }

  lemma ClaimsDiffer(c: Config, s: State)
    requires c.Valid() && ClaimsMatch(c, s)
    ensures forall x, y :: x in s.claims && y in s.claims && x != y ==> s.claims[x] != s.claims[y]
  {
  }

  lemma ClaimerIsMember(c: Config, s: State, p: nat, o: nat)
    requires c.Valid() && ClaimsMatch(c, s) && p < c.n
    requires c.base[p] <= o < c.base[p + 1] && o in s.claims
    ensures s.claims[o] in s.place && s.claims[o] < |c.ids| && c.seg(c.ids[s.claims[o]]) == p
  {
    hide Config.Members;
    StretchUnique(c, p, c.seg(c.ids[s.claims[o]]), o);
  }

  lemma ClaimersAreMembers(c: Config, s: State, p: nat, slots: set<nat>)
    requires c.Valid() && ClaimsMatch(c, s) && p < c.n && slots <= s.claims.Keys
    requires forall o :: o in slots ==> c.base[p] <= o < c.base[p + 1]
    ensures ImageOf(s.claims, slots) <= c.Members(p)
    ensures ImageOf(s.claims, slots) <= s.place.Keys
  {
    hide ClaimsMatch;
    forall g | g in ImageOf(s.claims, slots) ensures g in c.Members(p) && g in s.place {
      var o :| o in slots && s.claims[o] == g;
      ClaimerIsMember(c, s, p, o);
    }
  }

  /** When all slots of a segment are claimed, all its ids have one. */
  lemma AllClaimedMeansAllPlaced(c: Config, s: State, p: nat)
    requires c.Valid() && ClaimsMatch(c, s) && p < c.n
    requires forall o :: c.base[p] <= o < c.base[p + 1] ==> o in s.claims
    ensures forall g :: g in c.Members(p) ==> g in s.place
  {
    hide Config.Members, ClaimsMatch;
    assert c.base[p] + |c.Members(p)| == c.base[p + 1];
    ClaimsDiffer(c, s);
    var slots := Interval(c.base[p], c.base[p + 1]);
    ImageCount(s.claims, slots);
    ClaimersAreMembers(c, s, p, slots);
    SubsetOfSameSize(ImageOf(s.claims, slots), c.Members(p));
  }

  /** After trying all heads an id always has its slot: the heads cannot all be full before. */
  lemma NeverDropped(c: Config, s: State, t: nat)
    requires Inv(c, s)
    ensures !CanDrop(c, s, t)
  {
    hide IdMatch, CursorMatch, Full, Back, ClaimsMatch;
    if CanDrop(c, s, t) {
      var th := s.threads[t];
      assert ThreadShaped(c, th, t);
      ThreadIs(c, th.next, t);
      var p := c.seg(c.ids[th.next]);
      assert TriedFull(c, s, t);
      forall o | c.base[p] <= o < c.base[p + 1] ensures o in s.claims {
        var k := HeadOf(c, p, o);
        var j := BackMeets(th.idx[p], k, c.heads);
        assert Full(c, s, Back(th.idx[p], j, c.heads), p);
        FullClaimed(c, s, k, p, o);
      }
      AllClaimedMeansAllPlaced(c, s, p);
      assert th.next in c.Members(p);
      Unplaced(c, s, t);
    }
  }

  lemma FullClaimed(c: Config, s: State, k: nat, p: nat, o: nat)
    requires Shaped(c, s) && CursorsMatch(c, s) && k < c.heads && p < c.n && Full(c, s, k, p)
    requires c.Start(k, p) <= o < c.End(k, p)
    ensures o in s.claims
  {
    assert CursorMatch(c, s, k, p);
  }

  lemma Unplaced(c: Config, s: State, t: nat)
    requires Shaped(c, s) && ProgressMatch(c, s) && t < c.heads
    requires s.threads[t].slot.Free? && s.threads[t].next < |c.ids| && c.ThreadOf(s.threads[t].next) == t
    ensures s.threads[t].next !in s.place
  {
    assert IdMatch(c, s, s.threads[t].next);
  }

  lemma StepKeepsInv(c: Config, s: State, u: State)
    requires Inv(c, s) && Next(c, s, u)
    ensures Inv(c, u)
  {
    hide ClaimsMatch, CursorsMatch, ProgressMatch, OnlyClaimsWritten, TriedAreFull;
    var t: nat :| StepOf(c, s, u, t);
    if CanClaim(c, s, t) && u == Claim(c, s, t) {
      ClaimFacts(c, s, t);
      var th := s.threads[t];
      var p := c.seg(c.ids[th.next]);
      var k := th.idx[p];
      if s.cursor[(k, p)] < c.End(k, p) {
        ClaimIsWon(c, s, t);
        ClaimWins(c, s, t, p, k, s.cursor[(k, p)]);
      } else {
        ClaimLoses(c, s, t, p, k);
      }
    } else if CanWrite(c, s, t) && u == Write(c, s, t) {
      WriteInv(c, s, t);
    } else {
      NeverDropped(c, s, t);
    }
  }

  // ---- Every interleaving -----------------------------------------------------------------------

  /** The invariant holds in every state of every run. */
  lemma {:induction false} RunInv(c: Config, run: seq<State>, i: nat)
    requires Run(c, run) && i < |run|
    ensures Inv(c, run[i])
  {
    if i == 0 {
      InitialInv(c, run[0]);
    } else {
      RunInv(c, run, i - 1);
      StepKeepsInv(c, run[i - 1], run[(i - 1) + 1]);
    }
  }

  /** In no run is an id dropped or a slot overwritten, and until the join some step is always possible. */
  lemma RunIsSafe(c: Config, run: seq<State>, i: nat, t: nat)
    requires Run(c, run) && i < |run| && t < c.heads
    ensures Shaped(c, run[i]) && !CanDrop(c, run[i], t)
    ensures CanWrite(c, run[i], t) ==> run[i].threads[t].slot.at !in run[i].shadow
    ensures run[i].threads[t].next < c.Lo(t + 1) ==> CanClaim(c, run[i], t) || CanWrite(c, run[i], t)
  {
    RunInv(c, run, i);
    NeverDropped(c, run[i], t);
    if CanWrite(c, run[i], t) {
      WriteIsFresh(c, run[i], t);
    }
    assert ThreadShaped(c, run[i].threads[t], t);
  }

  ghost function ShadowSeq(s: State, n: nat): (v: seq<Id>)
    requires forall o :: 0 <= o < n ==> o in s.shadow
    ensures |v| == n && forall o :: 0 <= o < n ==> v[o] == s.shadow[o]
  {
    seq(n, o requires 0 <= o < n => s.shadow[o])
  }

  lemma JoinedPlaces(c: Config, s: State)
    requires Inv(c, s) && Joined(c, s)
    ensures forall g :: 0 <= g < |c.ids| ==>
              g in s.place && s.place[g] < |c.ids| && s.place[g] in s.shadow && s.shadow[s.place[g]] == c.ids[g]
    ensures forall g, h :: 0 <= g < |c.ids| && 0 <= h < |c.ids| && g != h ==> s.place[g] != s.place[h]
  {
    hide CursorsMatch, TriedAreFull;
    forall g | 0 <= g < |c.ids|
      ensures g in s.place && s.place[g] < |c.ids| && s.place[g] in s.shadow && s.shadow[s.place[g]] == c.ids[g]
      ensures s.claims.Keys >= {s.place[g]} && s.claims[s.place[g]] == g
    {
      assert IdMatch(c, s, g);
      BaseMonotone(c, c.seg(c.ids[g]) + 1, c.n);
    }
  }

  /** Every slot holds an id of the segment whose stretch it lies in. */
  ghost predicate GroupedBySegment(c: Config, v: seq<Id>) {
    c.Valid() && |v| == |c.ids| && forall o :: 0 <= o < |v| ==> InOwnStretch(c, v[o], o)
  }

  ghost predicate InOwnStretch(c: Config, id: Id, o: nat) {
    c.seg(id) < c.n && |c.base| == c.n + 1 && c.base[c.seg(id)] <= o < c.base[c.seg(id) + 1]
  }

  /** At the join the shadow is a permutation of the ids, grouped by segment. */
  lemma JoinedShadow(c: Config, s: State)
    requires Inv(c, s) && Joined(c, s)
    ensures forall o :: 0 <= o < |c.ids| ==> o in s.shadow
    ensures multiset(ShadowSeq(s, |c.ids|)) == multiset(c.ids) && GroupedBySegment(c, ShadowSeq(s, |c.ids|))
  {
    hide CursorsMatch, TriedAreFull, ProgressMatch, OnlyClaimsWritten, ThreadShaped, ClaimsMatch, InOwnStretch;
    JoinedPlaces(c, s);
    var f := PlaceSeq(s, |c.ids|);
    Onto(f);
    forall o | 0 <= o < |c.ids| ensures o in s.shadow {
      assert o in f;
    }
    var v := ShadowSeq(s, |c.ids|);
    Rearranged(c.ids, v, f);
    forall o | 0 <= o < |v| ensures InOwnStretch(c, v[o], o) {
      assert o in f;
      var g :| 0 <= g < |f| && f[g] == o;
      PlacedInStretch(c, s, g);
    }
  }

  lemma PlacedInStretch(c: Config, s: State, g: nat)
    requires c.Valid() && ClaimsMatch(c, s) && g in s.place
    ensures g < |c.ids| && InOwnStretch(c, c.ids[g], s.place[g])
  {
    hide Config.Members;
  }

  ghost function PlaceSeq(s: State, n: nat): (f: seq<nat>)
    requires forall g :: 0 <= g < n ==> g in s.place
    ensures |f| == n && forall g :: 0 <= g < n ==> f[g] == s.place[g]
  {
    seq(n, g requires 0 <= g < n => s.place[g])
  }

  /** The outcome of every interleaving that runs to the join. */
  lemma EveryRunScatters(c: Config, run: seq<State>)
    requires Run(c, run) && Joined(c, run[|run| - 1])
    ensures var s := run[|run| - 1];
            && (forall o :: 0 <= o < |c.ids| ==> o in s.shadow)
            && multiset(ShadowSeq(s, |c.ids|)) == multiset(c.ids)
            && GroupedBySegment(c, ShadowSeq(s, |c.ids|))
  {
    hide Inv, Joined;
    RunInv(c, run, |run| - 1);
    JoinedShadow(c, run[|run| - 1]);
  }

  // ---- Every run ends -----------------------------------------------------------------------------

  /** What a thread has yet to do: for every id at most one try per head, the write, and one more. */
  ghost function ThreadWork(c: Config, th: Thread, t: nat): nat
    requires c.heads > 0 && th.tries <= c.heads
  {
    if th.next >= c.Lo(t + 1) then 0
    else IdWork(c.heads, c.Lo(t + 1) - th.next, if th.slot.Claimed? then c.heads + 1 else th.tries)
  }

  function IdWork(heads: nat, ids: nat, done: nat): (w: nat)
    requires ids > 0 && done <= heads + 1
    ensures w > 0 && w == ids * (heads + 2) - done
  {
    MulMonotone(1, ids, heads + 2);
    ids * (heads + 2) - done
  }

  ghost function Work(c: Config, s: State, n: nat): nat
    requires Shaped(c, s) && n <= c.heads
  {
    if n == 0 then 0 else Work(c, s, n - 1) + (assert ThreadShaped(c, s.threads[n - 1], n - 1);
                                               ThreadWork(c, s.threads[n - 1], n - 1))
  }

  /** Changing one thread changes the sum by what that thread did. */
  lemma {:induction false} WorkOfOthers(c: Config, s: State, u: State, t: nat, n: nat)
    requires Shaped(c, s) && Shaped(c, u) && t < c.heads && n <= c.heads
    requires forall v :: 0 <= v < c.heads && v != t ==> u.threads[v] == s.threads[v]
    requires s.threads[t].tries <= c.heads && u.threads[t].tries <= c.heads
    ensures Work(c, s, n) - Work(c, u, n)
            == if t < n then ThreadWork(c, s.threads[t], t) - ThreadWork(c, u.threads[t], t) else 0
  {
    hide ThreadWork;
    if n > 0 {
      WorkOfOthers(c, s, u, t, n - 1);
    }
  }

  ghost function WorkLeft(c: Config, s: State): nat {
    if Shaped(c, s) then Work(c, s, c.heads) else 0
  }

  /** Every step leaves less to do. */
  lemma StepWorks(c: Config, s: State, u: State)
    requires Inv(c, s) && Next(c, s, u)
    ensures Inv(c, u) && WorkLeft(c, u) < WorkLeft(c, s)
  {
    hide Inv, StepOf, Shaped;
    StepKeepsInv(c, s, u);
    InvShaped(c, s);
    InvShaped(c, u);
    var t: nat :| StepOf(c, s, u, t);
    StepOfThread(c, s, u, t);
    WorkOfOthers(c, s, u, t, c.heads);
  }

  lemma InvShaped(c: Config, s: State)
    requires Inv(c, s)
    ensures Shaped(c, s) && c.heads > 0 && |s.threads| == c.heads
  {
  }

  lemma StepOfThread(c: Config, s: State, u: State, t: nat)
    requires Shaped(c, s) && Shaped(c, u) && StepOf(c, s, u, t)
    ensures t < c.heads == |s.threads| == |u.threads|
    ensures s.threads[t].tries <= c.heads && u.threads[t].tries <= c.heads
    ensures ThreadWork(c, u.threads[t], t) < ThreadWork(c, s.threads[t], t)
    ensures forall v :: 0 <= v < c.heads && v != t ==> u.threads[v] == s.threads[v]
  {
    hide Config.Valid, Config.Lo, Config.Start, Config.End;
    assert ThreadShaped(c, s.threads[t], t) && ThreadShaped(c, u.threads[t], t);
    var left := c.Lo(t + 1) - s.threads[t].next;
    if u.threads[t].next != s.threads[t].next {
      assert (left - 1) * (c.heads + 2) == left * (c.heads + 2) - (c.heads + 2);
    }
  }

  lemma StartWork(c: Config, s: State, t: nat)
    requires Shaped(c, s) && Initial(c, s) && t < c.heads
    ensures s.threads[t].tries <= c.heads && c.Lo(t) <= c.Lo(t + 1)
    ensures ThreadWork(c, s.threads[t], t) <= (c.Lo(t + 1) - c.Lo(t)) * (c.heads + 2)
  {
    hide Config.Valid, Config.Lo, Config.Start, Config.End, ThreadShaped;
    LoAscends(c, t);
  }

  lemma {:induction false} WorkAtStart(c: Config, s: State, n: nat)
    requires Shaped(c, s) && Initial(c, s) && n <= c.heads
    ensures Work(c, s, n) <= c.Lo(n) * (c.heads + 2)
  {
    hide Config.Lo, Shaped, Initial, ThreadWork;
    if n > 0 {
      WorkAtStart(c, s, n - 1);
      StartWork(c, s, n - 1);
      SumOfParts(c.Lo(n - 1), c.Lo(n), c.heads + 2);
    }
  }

  lemma SumOfParts(a: nat, b: nat, f: nat)
    requires a <= b
    ensures b * f == a * f + (b - a) * f
  {
  }

  lemma LoAscends(c: Config, t: nat)
    requires c.heads > 0
    ensures c.Lo(t) <= c.Lo(t + 1)
  {
    CutMonotone(|c.ids|, c.heads, t, t + 1);
  }

  lemma {:induction false} RunWorks(c: Config, run: seq<State>, i: nat)
    requires Run(c, run) && i < |run|
    ensures WorkLeft(c, run[i]) + i <= WorkLeft(c, run[0])
  {
    hide Inv, Next, WorkLeft, Initial;
    if i > 0 {
      RunWorks(c, run, i - 1);
      RunInv(c, run, i - 1);
      assert Next(c, run[i - 1], run[(i - 1) + 1]);
      StepWorks(c, run[i - 1], run[i]);
    }
  }

  /** No run takes more than `heads + 2` steps per id. */
  lemma RunIsBounded(c: Config, run: seq<State>)
    requires Run(c, run)
    ensures |run| <= |c.ids| * (c.heads + 2) + 1
  {
    hide Inv, Next, Work, Config.Lo, Shaped;
    RunWorks(c, run, |run| - 1);
    RunInv(c, run, 0);
    InvShaped(c, run[0]);
    hide Initial;
    WorkAtStart(c, run[0], c.heads);
    LastLo(c);
  }

  lemma LastLo(c: Config)
    requires c.heads > 0
    ensures c.Lo(c.heads) == |c.ids|
  {
    CutEnds(|c.ids|, c.heads);
  }

  /** Before the join there is a next state. */
  lemma NotJoinedMoves(c: Config, s: State) returns (u: State)
    requires Inv(c, s) && !Joined(c, s)
    ensures Next(c, s, u)
  {
    hide ClaimsMatch, CursorsMatch, ProgressMatch, OnlyClaimsWritten, TriedAreFull, Config.Valid, Claim, Write, Drop;
    var t: nat :| t < c.heads && s.threads[t].next != c.Lo(t + 1);
    assert ThreadShaped(c, s.threads[t], t);
    if s.threads[t].slot.Claimed? {
      u := Write(c, s, t);
    } else if s.threads[t].tries < c.heads {
      u := Claim(c, s, t);
    } else {
      u := Drop(c, s, t);
    }
    assert StepOf(c, s, u, t);
  }

  /** However a run has begun, it can be continued to the join, and it gets there whatever the order of steps. */
  lemma {:induction false} RunReachesJoin(c: Config, run: seq<State>) returns (whole: seq<State>)
    requires Run(c, run)
    ensures Run(c, whole) && run <= whole && Joined(c, whole[|whole| - 1])
    decreases WorkLeft(c, run[|run| - 1])
  {
    hide Inv, Next, WorkLeft, Initial, Joined;
    var s := run[|run| - 1];
    RunInv(c, run, |run| - 1);
    if Joined(c, s) {
      whole := run;
    } else {
      var u := NotJoinedMoves(c, s);
      StepWorks(c, s, u);
      whole := RunReachesJoin(c, run + [u]);
    }
  }
}
