/** Preparing a rebuild: the threads of all patch readers mark the base lines they override in one shared
    bitmap and count the unmarked lines of every shard.

    Threads run as interleaved atomic steps. Marking a bit is a load and a compare-and-swap on its byte,
    which may fail for another bit of the byte or for no reason, and is then tried again. */
module RebuildClaims {
  import opened Words
  import opened Bits
  import opened Permutation
  import opened MultiHead
  import opened Packs

  /** A patch reader seen through the line search: the line found for each key, if any, until the keys end
      or a bad key stops the reader. */
  datatype Source = Source(found: seq<Option<nat>>, bad: bool)

  /** The base has `item` lines, and there are as many shards as readers. */
  datatype Job = Job(item: nat, sources: seq<Source>) {
    ghost predicate Valid() {
      sources != [] && forall t, i :: 0 <= t < |sources| && 0 <= i < |sources[t].found| ==> HitInside(t, i)
    }

    ghost predicate HitInside(t: nat, i: nat)
      requires t < |sources| && i < |sources[t].found|
    {
      sources[t].found[i].Some? ==> sources[t].found[i].value < item
    }

    function ShardBegin(j: nat): nat
      requires sources != []
    {
      Cut(item, |sources|, j)
    }

    predicate InShard(pos: nat, j: nat)
      requires sources != []
    {
      ShardBegin(j) <= pos < ShardBegin(j + 1)
    }

    function ShardOf(pos: nat): (j: nat)
      requires sources != [] && pos < item
      ensures j < |sources| && InShard(pos, j)
    {
      CutEnds(item, |sources|);
      PartOf(item, |sources|, pos, |sources|)
    }

    lemma ShardUnique(pos: nat, i: nat, j: nat)
      requires sources != [] && InShard(pos, i) && InShard(pos, j)
      ensures i == j
    {
      PartUnique(item, |sources|, pos, i, j);
    }

    /** Two keys, of one reader or of two, that hit the same line. */
    ghost predicate SameLine(t: nat, i: nat, v: nat, k: nat) {
      && t < |sources| && v < |sources| && i < |sources[t].found| && k < |sources[v].found|
      && sources[t].found[i].Some? && sources[t].found[i] == sources[v].found[k]
    }

    ghost predicate Collides() {
      exists t, i, v, k :: SameLine(t, i, v, k) && (t != v || i != k)
    }

    ghost predicate SomeBad() {
      exists t :: 0 <= t < |sources| && sources[t].bad
    }

    /** The lines hit by any reader. */
    ghost function Hits(): set<nat> {
      set t, i | 0 <= t < |sources| && 0 <= i < |sources[t].found| && sources[t].found[i].Some? ::
        sources[t].found[i].value
    }
  }

  /** The binary search for the shard of a line over the ends of the shards. */
  method FindShard(job: Job, ends: seq<nat>, pos: nat) returns (a: nat)
    requires job.sources != [] && pos < job.item && |ends| == |job.sources|
    requires forall j :: 0 <= j < |ends| ==> ends[j] == job.ShardBegin(j + 1)
    ensures a == job.ShardOf(pos)
  {
    a := 0;
    var b := |ends|;
    while a < b
      invariant a <= job.ShardOf(pos) <= b <= |ends|
    {
      var m := (a + b) / 2;
      if pos < ends[m] {
        if m < job.ShardOf(pos) {
          CutMonotone(job.item, |job.sources|, m + 1, job.ShardOf(pos));
        }
        b := m;
      } else {
        if job.ShardOf(pos) <= m {
          CutMonotone(job.item, |job.sources|, job.ShardOf(pos) + 1, m + 1);
        }
        a := m + 1;
      }
    }
  }

  // ---- State and steps --------------------------------------------------------------------------

  /** Where a thread is: between keys, before the load, between load and swap, taking shard `j` next, or gone. */
  datatype Phase = Ready | Trying | Loaded(seen: byte) | Subtracting(j: nat) | Failed

  datatype Worker = Worker(next: nat, phase: Phase, temp: seq<nat>)

  /** `owner` is history: which thread marked a line. */
  datatype State = State(dirty: seq<byte>, valid: seq<int>, workers: seq<Worker>, fail: bool, owner: map<nat, nat>)

  ghost predicate Shaped(job: Job, s: State) {
    && job.Valid() && |s.workers| == |job.sources| && |s.valid| == |job.sources|
    && |s.dirty| == (job.item + 7) / 8
    && forall t :: 0 <= t < |job.sources| ==> WorkerShaped(job, s.workers[t], t)
  }

  ghost predicate WorkerShaped(job: Job, w: Worker, t: nat)
    requires t < |job.sources|
  {
    && w.next <= |job.sources[t].found| && |w.temp| == |job.sources|
    && (w.phase.Trying? || w.phase.Loaded? ==> w.next < |job.sources[t].found| && job.sources[t].found[w.next].Some?)
    && (w.phase.Subtracting? ==> w.next == |job.sources[t].found| && !job.sources[t].bad && w.phase.j <= |job.sources|)
  }

  /** The thread is between keys and its next key hit a line, or not. */
  ghost predicate AtKey(job: Job, s: State, t: nat, hit: bool) {
    && Shaped(job, s) && t < |s.workers| && s.workers[t].phase.Ready?
    && s.workers[t].next < |job.sources[t].found| && job.sources[t].found[s.workers[t].next].Some? == hit
  }

  ghost function Skip(job: Job, s: State, t: nat): State
    requires AtKey(job, s, t, false)
  {
    s.(workers := s.workers[t := s.workers[t].(next := s.workers[t].next + 1)])
  }

  /** The line the thread is marking. */
  ghost function Target(job: Job, s: State, t: nat): (pos: nat)
    requires Shaped(job, s) && t < |s.workers| && s.workers[t].next < |job.sources[t].found|
    requires job.sources[t].found[s.workers[t].next].Some?
    ensures pos < job.item
  {
    assert job.HitInside(t, s.workers[t].next);
    job.sources[t].found[s.workers[t].next].value
  }

  /** Counts the hit, before it is known whether the line is still free. */
  ghost function Attempt(job: Job, s: State, t: nat): State
    requires AtKey(job, s, t, true)
  {
    var j := job.ShardOf(Target(job, s, t));
    var temp := s.workers[t].temp;
    s.(workers := s.workers[t := Worker(s.workers[t].next, Trying, temp[j := temp[j] + 1])])
  }

  ghost predicate CanLoad(job: Job, s: State, t: nat) {
    Shaped(job, s) && t < |s.workers| && s.workers[t].phase.Trying?
  }

  ghost function Fail(s: State, t: nat): State
    requires t < |s.workers|
  {
    s.(workers := s.workers[t := s.workers[t].(phase := Failed)], fail := true)
  }

  /** Loads the byte; a line that is marked already ends the thread. */
  ghost function Load(job: Job, s: State, t: nat): State
    requires CanLoad(job, s, t)
  {
    var pos := Target(job, s, t);
    var seen := s.dirty[pos / 8];
    if Bit(seen, pos % 8) then Fail(s, t)
    else s.(workers := s.workers[t := s.workers[t].(phase := Loaded(seen))])
  }

  ghost predicate CanSwap(job: Job, s: State, t: nat) {
    Shaped(job, s) && t < |s.workers| && s.workers[t].phase.Loaded?
  }

  /** The swap stores the byte with the bit if the byte is unchanged; a weak swap may fail even then. */
  ghost function Swap(job: Job, s: State, t: nat, lucky: bool): State
    requires CanSwap(job, s, t)
  {
    var pos, w := Target(job, s, t), s.workers[t];
    if lucky && s.dirty[pos / 8] == w.phase.seen then
      s.(dirty := s.dirty[pos / 8 := OrBit(w.phase.seen, pos % 8)],
         workers := s.workers[t := Worker(w.next + 1, Ready, w.temp)],
         owner := s.owner[pos := t])
    else s.(workers := s.workers[t := w.(phase := Trying)])
  }

  ghost predicate CanEnd(job: Job, s: State, t: nat) {
    && Shaped(job, s) && t < |s.workers| && s.workers[t].phase.Ready?
    && s.workers[t].next == |job.sources[t].found|
  }

  /** The reader is exhausted, or has come to a bad key. */
  ghost function End(job: Job, s: State, t: nat): State
    requires CanEnd(job, s, t)
  {
    if job.sources[t].bad then Fail(s, t)
    else s.(workers := s.workers[t := s.workers[t].(phase := Subtracting(0))])
  }

  ghost predicate CanSubtract(job: Job, s: State, t: nat) {
    && Shaped(job, s) && t < |s.workers| && s.workers[t].phase.Subtracting? && s.workers[t].phase.j < |job.sources|
  }

  /** Takes the thread's hits in one shard off the shard's count. */
  ghost function Subtract(job: Job, s: State, t: nat): State
    requires CanSubtract(job, s, t)
  {
    var w := s.workers[t];
    var j := w.phase.j;
    s.(valid := s.valid[j := s.valid[j] - w.temp[j]], workers := s.workers[t := w.(phase := Subtracting(j + 1))])
  }

  ghost predicate StepOf(job: Job, s: State, u: State, t: nat) {
    || (AtKey(job, s, t, false) && u == Skip(job, s, t))
    || (AtKey(job, s, t, true) && u == Attempt(job, s, t))
    || (CanLoad(job, s, t) && u == Load(job, s, t))
    || (CanSwap(job, s, t) && (u == Swap(job, s, t, true) || u == Swap(job, s, t, false)))
    || (CanEnd(job, s, t) && u == End(job, s, t))
    || (CanSubtract(job, s, t) && u == Subtract(job, s, t))
  }

  ghost predicate Next(job: Job, s: State, u: State) {
    exists t: nat :: StepOf(job, s, u, t)
  }

  ghost predicate Initial(job: Job, s: State) {
    && job.Valid() && s.owner == map[] && !s.fail
    && s.dirty == seq((job.item + 7) / 8, _ => 0)
    && s.workers == seq(|job.sources|, _ => Worker(0, Ready, seq(|job.sources|, _ => 0)))
    && |s.valid| == |job.sources|
    && forall j :: 0 <= j < |s.valid| ==> s.valid[j] == job.ShardBegin(j + 1) - job.ShardBegin(j)
  }

  ghost predicate Run(job: Job, run: seq<State>) {
    && run != [] && Initial(job, run[0])
    && forall i :: 0 <= i && i + 1 < |run| ==> Next(job, run[i], run[i + 1])
  }

  /** All threads have returned. */
  ghost predicate Joined(job: Job, s: State) {
    Shaped(job, s) && forall t :: 0 <= t < |s.workers| ==> Returned(job, s.workers[t])
  }

  ghost predicate Returned(job: Job, w: Worker) {
    w.phase.Failed? || w.phase == Subtracting(|job.sources|)
  }

  // ---- The invariant ----------------------------------------------------------------------------

  /** The lines of shard `j` that thread `t` has marked. */
  ghost function Owned(job: Job, owner: map<nat, nat>, t: nat, j: nat): set<nat>
    requires job.sources != []
  {
    set p | p in owner && owner[p] == t && job.InShard(p, j)
  }

  /** A hit that is counted before it is marked. */
  ghost function Pending(job: Job, w: Worker, t: nat, j: nat): nat
    requires job.sources != [] && t < |job.sources| && WorkerShaped(job, w, t)
  {
    if (w.phase.Trying? || w.phase.Loaded?) && job.InShard(job.sources[t].found[w.next].value, j) then 1 else 0
  }

  ghost predicate TempMatch(job: Job, owner: map<nat, nat>, w: Worker, t: nat, j: nat)
    requires job.sources != [] && t < |job.sources| && WorkerShaped(job, w, t) && j < |w.temp|
  {
    w.temp[j] == |Owned(job, owner, t, j)| + Pending(job, w, t, j)
  }

  ghost predicate HasMarked(job: Job, owner: map<nat, nat>, t: nat, i: nat)
    requires t < |job.sources| && i < |job.sources[t].found|
  {
    var f := job.sources[t].found[i];
    f.Some? ==> f.value in owner && owner[f.value] == t
  }

  /** What holds of one thread. */
  ghost predicate WorkerInv(job: Job, owner: map<nat, nat>, fail: bool, w: Worker, t: nat) {
    && job.sources != [] && t < |job.sources| && WorkerShaped(job, w, t)
    && (forall i :: 0 <= i < w.next ==> HasMarked(job, owner, t, i))
    && (forall i, k :: 0 <= i < k < w.next ==> !job.SameLine(t, i, t, k))
    && (!w.phase.Failed? ==> forall j :: 0 <= j < |w.temp| ==> TempMatch(job, owner, w, t, j))
    && (w.phase.Failed? ==> fail && (job.SomeBad() || job.Collides()))
    && (w.phase.Loaded? ==> !Bit(w.phase.seen, job.sources[t].found[w.next].value % 8))
  }

  /** Every marked line was marked for a key that its thread has finished. */
  ghost predicate Accounted(job: Job, s: State, p: nat, t: nat) {
    && p < job.item && t < |s.workers| && t < |job.sources|
    && exists i :: 0 <= i < s.workers[t].next && i < |job.sources[t].found| && job.sources[t].found[i] == Some(p)
  }

  /** The lines of shard `j` whose threads have taken them off the shard's count. */
  ghost function Taken(job: Job, s: State, j: nat): set<nat>
    requires job.sources != []
  {
    set p | p in s.owner && job.InShard(p, j) && s.owner[p] < |s.workers| && PastShard(s.workers[s.owner[p]], j)
  }

  ghost predicate PastShard(w: Worker, j: nat) {
    w.phase.Subtracting? && j < w.phase.j
  }

  ghost predicate ValidMatch(job: Job, s: State, j: nat)
    requires job.sources != [] && j < |s.valid|
  {
    s.valid[j] == job.ShardBegin(j + 1) - job.ShardBegin(j) - |Taken(job, s, j)|
  }

  ghost predicate AllWorkers(job: Job, s: State)
    requires Shaped(job, s)
  {
    forall t :: 0 <= t < |s.workers| ==> WorkerInv(job, s.owner, s.fail, s.workers[t], t)
  }

  ghost predicate AllAccounted(job: Job, s: State) {
    forall p :: p in s.owner ==> Accounted(job, s, p, s.owner[p])
  }

  ghost predicate AllValid(job: Job, s: State)
    requires Shaped(job, s)
  {
    forall j :: 0 <= j < |s.valid| ==> ValidMatch(job, s, j)
  }

  ghost predicate Inv(job: Job, s: State) {
    && Shaped(job, s) && SetBits(s.dirty) == s.owner.Keys
    && AllWorkers(job, s) && AllAccounted(job, s) && AllValid(job, s)
    && (s.fail ==> exists t :: 0 <= t < |s.workers| && s.workers[t].phase.Failed?)
  }

  lemma EmptyBitmap(n: nat)
    ensures SetBits(seq(n, _ => 0)) == {}
  {
    var z: seq<byte> := seq(n, _ => 0);
    forall p | 0 <= p < 8 * n ensures !BitAt(z, p) {
      BitOfZero(p % 8);
    }
  }

  lemma InitialInv(job: Job, s: State)
    requires Initial(job, s)
    ensures Inv(job, s)
  {
    hide Bit, SetBits, Job.InShard, Job.ShardBegin;
    EmptyBitmap((job.item + 7) / 8);
    forall j | 0 <= j < |s.valid| ensures ValidMatch(job, s, j) {
      assert Taken(job, s, j) == {};
    }
    forall t | 0 <= t < |s.workers| ensures WorkerInv(job, s.owner, s.fail, s.workers[t], t) {
      var w := s.workers[t];
      forall j | 0 <= j < |w.temp| ensures TempMatch(job, s.owner, w, t, j) {
        assert Owned(job, s.owner, t, j) == {};
      }
    }
  }

  /** A step that marks nothing and takes nothing off a count is right if it is right for its own thread. */
  lemma QuietStep(job: Job, s: State, u: State, t: nat)
    requires Inv(job, s) && t < |s.workers| && Shaped(job, u)
    requires u.owner == s.owner && u.dirty == s.dirty && u.valid == s.valid && |u.workers| == |s.workers|
    requires forall v :: 0 <= v < |s.workers| && v != t ==> u.workers[v] == s.workers[v]
    requires s.workers[t].next <= u.workers[t].next && !s.workers[t].phase.Failed?
    requires s.fail ==> u.fail
    requires u.fail && !s.fail ==> u.workers[t].phase.Failed?
    requires WorkerInv(job, u.owner, u.fail, u.workers[t], t)
    requires forall j :: PastShard(u.workers[t], j) == PastShard(s.workers[t], j)
    ensures Inv(job, u)
  {
    hide SetBits, Owned, TempMatch, Job.InShard, Job.ShardBegin, WorkerShaped, HasMarked, Job.SameLine, PastShard;
    hide Job.Collides, Job.SomeBad, Bit;
    forall p | p in u.owner ensures Accounted(job, u, p, u.owner[p]) {
      assert Accounted(job, s, p, s.owner[p]);
    }
    forall j | 0 <= j < |u.valid| ensures ValidMatch(job, u, j) {
      assert ValidMatch(job, s, j);
      assert Taken(job, u, j) == Taken(job, s, j);
    }
    forall v | 0 <= v < |u.workers| ensures WorkerInv(job, u.owner, u.fail, u.workers[v], v) {
      assert WorkerInv(job, s.owner, s.fail, s.workers[v], v);
    }
    if u.fail {
      if s.fail {
        var v :| 0 <= v < |s.workers| && s.workers[v].phase.Failed?;
        assert u.workers[v].phase.Failed?;
      } else {
        assert u.workers[t].phase.Failed?;
      }
    }
  }

  lemma SkipInv(job: Job, s: State, t: nat)
    requires Inv(job, s) && AtKey(job, s, t, false)
    ensures Inv(job, Skip(job, s, t))
  {
    hide SetBits, Owned, Job.InShard, Job.ShardBegin, Job.Collides, Job.SomeBad, Bit, AllAccounted, AllValid;
    var u := Skip(job, s, t);
    var w := s.workers[t];
    assert WorkerInv(job, s.owner, s.fail, w, t);
    forall j | 0 <= j < |w.temp| ensures TempMatch(job, u.owner, u.workers[t], t, j) {
      assert TempMatch(job, s.owner, w, t, j);
    }
    QuietStep(job, s, u, t);
  }

  lemma AttemptInv(job: Job, s: State, t: nat)
    requires Inv(job, s) && AtKey(job, s, t, true)
    ensures Inv(job, Attempt(job, s, t))
  {
    hide SetBits, Owned, Job.InShard, Job.ShardBegin, Job.Collides, Job.SomeBad;
    hide Job.SameLine, Bit, AllAccounted, AllValid;
    var u := Attempt(job, s, t);
    var w, pos := s.workers[t], Target(job, s, t);
    assert WorkerInv(job, s.owner, s.fail, w, t);
    forall j | 0 <= j < |w.temp| ensures TempMatch(job, u.owner, u.workers[t], t, j) {
      assert TempMatch(job, s.owner, w, t, j);
      if job.InShard(pos, j) {
        job.ShardUnique(pos, j, job.ShardOf(pos));
      }
    }
    QuietStep(job, s, u, t);
  }

  /** A marked line belongs to an earlier key, so coming to it again is a collision. */
  lemma MarkedCollides(job: Job, s: State, t: nat)
    requires Inv(job, s) && CanLoad(job, s, t) && Target(job, s, t) in s.owner
    ensures job.Collides()
  {
    hide SetBits, WorkerInv, AllValid;
    var pos := Target(job, s, t);
    assert Accounted(job, s, pos, s.owner[pos]);
    var v := s.owner[pos];
    var k :| 0 <= k < s.workers[v].next && k < |job.sources[v].found| && job.sources[v].found[k] == Some(pos);
    assert job.SameLine(t, s.workers[t].next, v, k);
  }

  lemma BitIsOwned(job: Job, s: State, pos: nat)
    requires Inv(job, s) && pos < job.item
    ensures pos / 8 < |s.dirty| && (Bit(s.dirty[pos / 8], pos % 8) <==> pos in s.owner)
  {
    hide Bit, AllWorkers, AllAccounted, AllValid;
    assert (pos in SetBits(s.dirty)) == BitAt(s.dirty, pos);
  }

  lemma LoadInv(job: Job, s: State, t: nat)
    requires Inv(job, s) && CanLoad(job, s, t)
    ensures Inv(job, Load(job, s, t))
  {
    hide SetBits, Owned, Job.InShard, Job.ShardBegin, Job.Collides, Job.SomeBad;
    hide Job.SameLine, Bit, AllAccounted, AllValid;
    hide HasMarked;
    var u := Load(job, s, t);
    var w, pos := s.workers[t], Target(job, s, t);
    assert WorkerInv(job, s.owner, s.fail, w, t);
    BitIsOwned(job, s, pos);
    if pos in s.owner {
      MarkedCollides(job, s, t);
    } else {
      forall j | 0 <= j < |w.temp| ensures TempMatch(job, u.owner, u.workers[t], t, j) {
        assert TempMatch(job, s.owner, w, t, j);
      }
    }
    QuietStep(job, s, u, t);
  }

  lemma EndInv(job: Job, s: State, t: nat)
    requires Inv(job, s) && CanEnd(job, s, t)
    ensures Inv(job, End(job, s, t))
  {
    hide SetBits, Owned, Job.InShard, Job.ShardBegin, Job.Collides, Job.SameLine;
    hide Bit, AllAccounted, AllValid, HasMarked;
    var u := End(job, s, t);
    var w := s.workers[t];
    assert WorkerInv(job, s.owner, s.fail, w, t);
    if !job.sources[t].bad {
      forall j | 0 <= j < |w.temp| ensures TempMatch(job, u.owner, u.workers[t], t, j) {
        assert TempMatch(job, s.owner, w, t, j);
      }
    }
    QuietStep(job, s, u, t);
  }

  lemma UnluckyInv(job: Job, s: State, t: nat, lucky: bool)
    requires Inv(job, s) && CanSwap(job, s, t)
    requires !lucky || s.dirty[Target(job, s, t) / 8] != s.workers[t].phase.seen
    ensures Inv(job, Swap(job, s, t, lucky))
  {
    hide SetBits, Owned, Job.InShard, Job.ShardBegin, Job.Collides, Job.SomeBad;
    hide Job.SameLine, Bit, AllAccounted, AllValid;
    hide HasMarked;
    var u := Swap(job, s, t, lucky);
    var w := s.workers[t];
    assert WorkerInv(job, s.owner, s.fail, w, t);
    forall j | 0 <= j < |w.temp| ensures TempMatch(job, u.owner, u.workers[t], t, j) {
      assert TempMatch(job, s.owner, w, t, j);
    }
    QuietStep(job, s, u, t);
  }

  // ---- Marking a line ---------------------------------------------------------------------------

  ghost predicate Wins(job: Job, s: State, t: nat) {
    CanSwap(job, s, t) && s.dirty[Target(job, s, t) / 8] == s.workers[t].phase.seen
  }

  /** A swap that succeeds marks a line nobody had marked: every line is claimed at most once. */
  lemma WinIsFresh(job: Job, s: State, t: nat)
    requires Inv(job, s) && Wins(job, s, t)
    ensures Target(job, s, t) !in s.owner
    ensures SetBits(Swap(job, s, t, true).dirty) == SetBits(s.dirty) + {Target(job, s, t)}
  {
    hide Bit, AllAccounted, AllValid, SetBits, HasMarked, Job.SameLine, TempMatch;
    var pos, w := Target(job, s, t), s.workers[t];
    assert WorkerInv(job, s.owner, s.fail, w, t);
    BitIsOwned(job, s, pos);
    var b := w.phase.seen;
    forall i ensures Bit(OrBit(b, pos % 8), i) == (i == pos % 8 || Bit(b, i)) {
      OrBitIs(b, pos % 8, i);
    }
    UpdatedBits(s.dirty, pos, OrBit(b, pos % 8), true);
  }

  lemma WinnerInv(job: Job, s: State, t: nat)
    requires Inv(job, s) && Wins(job, s, t)
    ensures var u := Swap(job, s, t, true); WorkerInv(job, u.owner, u.fail, u.workers[t], t)
  {
    hide Bit, AllAccounted, AllValid, SetBits, OrBit, Job.InShard, Job.SomeBad, Job.Collides;
    WinIsFresh(job, s, t);
    var u := Swap(job, s, t, true);
    var pos, w := Target(job, s, t), s.workers[t];
    assert WorkerInv(job, s.owner, s.fail, w, t);
    forall j | 0 <= j < |w.temp| ensures TempMatch(job, u.owner, u.workers[t], t, j) {
      assert TempMatch(job, s.owner, w, t, j);
      OwnedMore(job, s.owner, t, j, pos);
    }
    forall i | 0 <= i < w.next ensures HasMarked(job, u.owner, t, i) && !job.SameLine(t, i, t, w.next) {
      assert HasMarked(job, s.owner, t, i);
    }
  }

  lemma OwnedMore(job: Job, owner: map<nat, nat>, t: nat, j: nat, pos: nat)
    requires job.sources != [] && pos !in owner
    ensures |Owned(job, owner[pos := t], t, j)| == |Owned(job, owner, t, j)| + if job.InShard(pos, j) then 1 else 0
    ensures forall v :: v != t ==> Owned(job, owner[pos := t], v, j) == Owned(job, owner, v, j)
  {
    hide Job.InShard;
    if job.InShard(pos, j) {
      assert Owned(job, owner[pos := t], t, j) == Owned(job, owner, t, j) + {pos};
    } else {
      assert Owned(job, owner[pos := t], t, j) == Owned(job, owner, t, j);
    }
  }

  lemma BystanderInv(job: Job, owner: map<nat, nat>, fail: bool, w: Worker, v: nat, t: nat, pos: nat)
    requires WorkerInv(job, owner, fail, w, v) && pos !in owner && v != t
    ensures WorkerInv(job, owner[pos := t], fail, w, v)
  {
    hide Job.InShard, Job.SomeBad, Job.Collides, Bit, Job.SameLine, Owned, WorkerShaped;
    var after := owner[pos := t];
    forall i | 0 <= i < w.next ensures WorkerShaped(job, w, v) && i < |job.sources[v].found| && HasMarked(job, after, v, i) {
      ShapedNext(job, w, v);
      assert HasMarked(job, owner, v, i);
    }
    if !w.phase.Failed? {
      forall j | 0 <= j < |w.temp| ensures TempMatch(job, after, w, v, j) {
        assert TempMatch(job, owner, w, v, j);
        OwnedMore(job, owner, t, j, pos);
      }
    }
  }

  lemma ShapedNext(job: Job, w: Worker, t: nat)
    requires t < |job.sources| && WorkerShaped(job, w, t)
    ensures w.next <= |job.sources[t].found|
  {
  }

  lemma WinInv(job: Job, s: State, t: nat)
    requires Inv(job, s) && Wins(job, s, t)
    ensures Inv(job, Swap(job, s, t, true))
  {
    hide Bit, SetBits, OrBit, Owned, Job.InShard, WorkerInv, Job.ShardBegin;
    WinIsFresh(job, s, t);
    WinnerInv(job, s, t);
    var u := Swap(job, s, t, true);
    var pos := Target(job, s, t);
    forall v | 0 <= v < |u.workers| ensures WorkerInv(job, u.owner, u.fail, u.workers[v], v) {
      if v != t {
        BystanderInv(job, s.owner, s.fail, s.workers[v], v, t, pos);
      }
    }
    forall p | p in u.owner ensures Accounted(job, u, p, u.owner[p]) {
      if p != pos {
        assert Accounted(job, s, p, s.owner[p]);
      }
    }
    forall j | 0 <= j < |u.valid| ensures ValidMatch(job, u, j) {
      assert ValidMatch(job, s, j);
      assert Taken(job, u, j) == Taken(job, s, j);
    }
    assert SetBits(u.dirty) == u.owner.Keys;
    if u.fail {
      var v :| 0 <= v < |s.workers| && s.workers[v].phase.Failed?;
      assert u.workers[v].phase.Failed?;
    }
  }

  // ---- Taking the hits off the counts -----------------------------------------------------------

  lemma PastOneMore(w: Worker, j: nat)
    requires w.phase.Subtracting?
    ensures PastShard(w.(phase := Subtracting(w.phase.j + 1)), j) <==> PastShard(w, j) || j == w.phase.j
    ensures !PastShard(w, w.phase.j)
  {
  }

  lemma TakenMore(job: Job, s: State, t: nat, j: nat)
    requires Shaped(job, s) && AllAccounted(job, s) && CanSubtract(job, s, t)
    ensures var u := Subtract(job, s, t);
            if j == s.workers[t].phase.j
            then |Taken(job, u, j)| == |Taken(job, s, j)| + |Owned(job, s.owner, t, j)|
            else Taken(job, u, j) == Taken(job, s, j)
  {
    hide Job.InShard, WorkerShaped, PastShard, Job.Valid;
    var u := Subtract(job, s, t);
    forall p | p in s.owner ensures s.owner[p] < |s.workers| {
      assert Accounted(job, s, p, s.owner[p]);
    }
    hide AllAccounted, Accounted;
    PastOneMore(s.workers[t], j);
    if j == s.workers[t].phase.j {
      assert Taken(job, u, j) == Taken(job, s, j) + Owned(job, s.owner, t, j);
      assert Taken(job, s, j) !! Owned(job, s.owner, t, j);
    } else {
      assert Taken(job, u, j) == Taken(job, s, j);
    }
  }

  lemma SubtractInv(job: Job, s: State, t: nat)
    requires Inv(job, s) && CanSubtract(job, s, t)
    ensures Inv(job, Subtract(job, s, t))
  {
    hide Bit, SetBits, Owned, Job.InShard, Job.ShardBegin, Taken, HasMarked, Job.SameLine, Job.Collides, Job.SomeBad;
    var u := Subtract(job, s, t);
    var w := s.workers[t];
    forall v | 0 <= v < |u.workers| ensures WorkerInv(job, u.owner, u.fail, u.workers[v], v) {
      assert WorkerInv(job, s.owner, s.fail, s.workers[v], v);
      if v == t {
        forall j | 0 <= j < |w.temp| ensures TempMatch(job, u.owner, u.workers[t], t, j) {
          assert TempMatch(job, s.owner, w, t, j);
        }
      }
    }
    forall p | p in u.owner ensures Accounted(job, u, p, u.owner[p]) {
      assert Accounted(job, s, p, s.owner[p]);
    }
    forall j | 0 <= j < |u.valid| ensures ValidMatch(job, u, j) {
      assert ValidMatch(job, s, j);
      assert WorkerInv(job, s.owner, s.fail, w, t) && TempMatch(job, s.owner, w, t, j);
      TakenMore(job, s, t, j);
    }
    if u.fail {
      var v :| 0 <= v < |s.workers| && s.workers[v].phase.Failed?;
      assert u.workers[v].phase.Failed?;
    }
  }

  // ---- Every run --------------------------------------------------------------------------------

  lemma StepKeepsInv(job: Job, s: State, u: State)
    requires Inv(job, s) && Next(job, s, u)
    ensures Inv(job, u)
  {
    hide Inv, AtKey, Skip, Attempt, Load, Swap, End, Subtract, CanLoad, CanEnd, CanSubtract;
    var t: nat :| StepOf(job, s, u, t);
    if AtKey(job, s, t, false) && u == Skip(job, s, t) {
      SkipInv(job, s, t);
    } else if AtKey(job, s, t, true) && u == Attempt(job, s, t) {
      AttemptInv(job, s, t);
    } else if CanLoad(job, s, t) && u == Load(job, s, t) {
      LoadInv(job, s, t);
    } else if CanSwap(job, s, t) && (u == Swap(job, s, t, true) || u == Swap(job, s, t, false)) {
      if Wins(job, s, t) {
        WinInv(job, s, t);
      } else {
        UnluckyInv(job, s, t, true);
      }
      UnluckyInv(job, s, t, false);
    } else if CanEnd(job, s, t) && u == End(job, s, t) {
      EndInv(job, s, t);
    } else {
      SubtractInv(job, s, t);
    }
  }

  /** Until all threads have returned some step is possible, in any well-shaped state. */
  lemma NeverStuck(job: Job, s: State) returns (u: State)
    requires Shaped(job, s) && !Joined(job, s)
    ensures Next(job, s, u)
  {
    hide Skip, Attempt, Load, Swap, End, Subtract;
    var t: nat :| t < |s.workers| && !Returned(job, s.workers[t]);
    assert WorkerShaped(job, s.workers[t], t);
    if CanEnd(job, s, t) {
      u := End(job, s, t);
    } else if AtKey(job, s, t, true) {
      u := Attempt(job, s, t);
    } else if AtKey(job, s, t, false) {
      u := Skip(job, s, t);
    } else if CanLoad(job, s, t) {
      u := Load(job, s, t);
    } else if CanSwap(job, s, t) {
      u := Swap(job, s, t, true);
    } else {
      u := Subtract(job, s, t);
    }
    assert StepOf(job, s, u, t);
  }

  lemma {:induction false} RunInv(job: Job, run: seq<State>, i: nat)
    requires Run(job, run) && i < |run|
    ensures Inv(job, run[i])
  {
    hide Inv, Next, Initial;
    if i == 0 {
      InitialInv(job, run[0]);
    } else {
      RunInv(job, run, i - 1);
      assert Next(job, run[i - 1], run[i - 1 + 1]);
      StepKeepsInv(job, run[i - 1], run[i]);
    }
  }

  // ---- Every run can come to its join -----------------------------------------------------------

  /** What a thread has left to do, if its swaps are lucky. */
  ghost function ThreadWork(job: Job, w: Worker, t: nat): int
    requires t < |job.sources|
  {
    var keys := 4 * (|job.sources[t].found| - w.next) + |job.sources| + 1;
    match w.phase
    case Ready => keys
    case Loaded(_) => keys - 1
    case Trying => keys - 2
    case Subtracting(j) => |job.sources| - j
    case Failed => 0
  }

  ghost function Work(job: Job, s: State, n: nat): int
    requires n <= |s.workers| == |job.sources|
  {
    if n == 0 then 0 else Work(job, s, n - 1) + ThreadWork(job, s.workers[n - 1], n - 1)
  }

  lemma {:induction false} WorkOfOthers(job: Job, s: State, u: State, t: nat, n: nat)
    requires n <= |s.workers| == |u.workers| == |job.sources| && t < |s.workers|
    requires forall v :: 0 <= v < |s.workers| && v != t ==> u.workers[v] == s.workers[v]
    ensures Work(job, s, n) - Work(job, u, n)
            == if t < n then ThreadWork(job, s.workers[t], t) - ThreadWork(job, u.workers[t], t) else 0
  {
    hide ThreadWork;
    if n > 0 {
      WorkOfOthers(job, s, u, t, n - 1);
    }
  }

  lemma {:induction false} WorkIsLeft(job: Job, s: State, n: nat)
    requires Shaped(job, s) && n <= |s.workers|
    ensures 0 <= Work(job, s, n)
  {
    if n > 0 {
      WorkIsLeft(job, s, n - 1);
      assert WorkerShaped(job, s.workers[n - 1], n - 1);
    }
  }

  ghost function WorkLeft(job: Job, s: State): nat {
    if |s.workers| == |job.sources| && Work(job, s, |job.sources|) >= 0 then Work(job, s, |job.sources|) else 0
  }

  /** Before the join some thread can do a piece of its work: one step, or a load and the lucky swap after it. */
  lemma SomeWorkDone(job: Job, s: State) returns (mid: State, u: State)
    requires Inv(job, s) && !Joined(job, s)
    ensures Next(job, s, mid) && (u == mid || Next(job, mid, u))
    ensures |s.workers| == |u.workers| == |job.sources| && Shaped(job, u)
    ensures Work(job, u, |job.sources|) < Work(job, s, |job.sources|)
  {
    hide AllWorkers, AllAccounted, AllValid, SetBits, Work, Shaped, OrBit, Job.ShardOf;
    assert Shaped(job, s) && |s.workers| == |job.sources| by {
      InvIsShaped(job, s);
    }
    var t := SomeThread(job, s);
    if CanLoad(job, s, t) {
      mid := Load(job, s, t);
      assert StepOf(job, s, mid, t);
      StepKeepsInv(job, s, mid);
      InvIsShaped(job, mid);
      u := mid;
      if mid.workers[t].phase.Loaded? {
        u := Swap(job, mid, t, true);
        assert StepOf(job, mid, u, t);
      }
    } else {
      mid := OtherStep(job, s, t);
      u := mid;
    }
    assert Inv(job, u) by {
      if u != mid {
        StepKeepsInv(job, mid, u);
      } else {
        StepKeepsInv(job, s, u);
      }
    }
    InvIsShaped(job, u);
    WorkOfOthers(job, s, u, t, |job.sources|);
  }

  lemma InvIsShaped(job: Job, s: State)
    requires Inv(job, s)
    ensures Shaped(job, s) && |s.workers| == |job.sources|
  {
  }

  lemma SomeThread(job: Job, s: State) returns (t: nat)
    requires Shaped(job, s) && !Joined(job, s)
    ensures t < |s.workers| && !Returned(job, s.workers[t]) && WorkerShaped(job, s.workers[t], t)
  {
    t :| t < |s.workers| && !Returned(job, s.workers[t]);
  }

  /** Any step but a load is a piece of work done, the swap if it is lucky or comes too late. */
  lemma OtherStep(job: Job, s: State, t: nat) returns (u: State)
    requires Shaped(job, s) && t < |s.workers| == |job.sources| && !Returned(job, s.workers[t]) && !CanLoad(job, s, t)
    ensures StepOf(job, s, u, t) && |u.workers| == |s.workers|
    ensures forall v :: 0 <= v < |s.workers| && v != t ==> u.workers[v] == s.workers[v]
    ensures ThreadWork(job, u.workers[t], t) < ThreadWork(job, s.workers[t], t)
  {
    hide OrBit, Job.ShardOf;
    assert WorkerShaped(job, s.workers[t], t);
    if CanEnd(job, s, t) {
      u := End(job, s, t);
    } else if AtKey(job, s, t, true) {
      u := Attempt(job, s, t);
    } else if AtKey(job, s, t, false) {
      u := Skip(job, s, t);
    } else if CanSwap(job, s, t) {
      u := Swap(job, s, t, true);
    } else {
      u := Subtract(job, s, t);
    }
  }

  /** However a run has begun it can be continued to the join. */
  lemma {:induction false} RunReachesJoin(job: Job, run: seq<State>) returns (whole: seq<State>)
    requires Run(job, run)
    ensures Run(job, whole) && run <= whole && Joined(job, whole[|whole| - 1])
    decreases WorkLeft(job, run[|run| - 1])
  {
    hide Inv, Next, Work, Initial, Joined, Shaped;
    var s := run[|run| - 1];
    RunInv(job, run, |run| - 1);
    InvIsShaped(job, s);
    WorkIsLeft(job, s, |job.sources|);
    if Joined(job, s) {
      whole := run;
    } else {
      var mid, u := SomeWorkDone(job, s);
      WorkIsLeft(job, u, |job.sources|);
      whole := RunReachesJoin(job, if u == mid then run + [u] else run + [mid, u]);
    }
  }

  lemma ShardSize(job: Job, j: nat)
    requires job.sources != []
    ensures job.ShardBegin(j) <= job.ShardBegin(j + 1)
  {
    CutMonotone(job.item, |job.sources|, j, j + 1);
  }

  /** In every state of every run the unsigned count of a shard has not wrapped below zero. */
  lemma CountsNeverWrap(job: Job, run: seq<State>, i: nat, j: nat)
    requires Run(job, run) && i < |run| && j < |job.sources|
    ensures |run[i].valid| == |job.sources|
    ensures 0 <= run[i].valid[j] <= job.ShardBegin(j + 1) - job.ShardBegin(j)
  {
    hide Job.ShardBegin;
    RunInv(job, run, i);
    var s := run[i];
    assert ValidMatch(job, s, j);
    ShardSize(job, j);
    SubsetSize(Taken(job, s, j), Interval(job.ShardBegin(j), job.ShardBegin(j + 1)));
  }

  /** The lines of shard `j` that no reader overrides. */
  ghost function Unmarked(job: Job, dirty: seq<byte>, j: nat): set<nat>
    requires job.sources != []
  {
    ShardSize(job, j);
    Interval(job.ShardBegin(j), job.ShardBegin(j + 1)) - SetBits(dirty)
  }

  lemma FailedHasCause(job: Job, s: State)
    requires Inv(job, s) && s.fail
    ensures job.SomeBad() || job.Collides()
  {
    hide AllAccounted, AllValid, Job.SomeBad, Job.Collides, HasMarked, TempMatch, Job.SameLine;
    var t :| 0 <= t < |s.workers| && s.workers[t].phase.Failed?;
    assert WorkerInv(job, s.owner, s.fail, s.workers[t], t);
  }

  lemma AllFinished(job: Job, s: State, t: nat)
    requires Inv(job, s) && Joined(job, s) && !s.fail && t < |job.sources|
    ensures s.workers[t].phase == Subtracting(|job.sources|)
    ensures s.workers[t].next == |job.sources[t].found| && !job.sources[t].bad
  {
    hide AllAccounted, AllValid, Job.SomeBad, Job.Collides, HasMarked, TempMatch, Job.SameLine;
    assert WorkerInv(job, s.owner, s.fail, s.workers[t], t) && Returned(job, s.workers[t]);
  }

  lemma NoCollision(job: Job, s: State, t: nat, i: nat, v: nat, k: nat)
    requires Inv(job, s) && Joined(job, s) && !s.fail && job.SameLine(t, i, v, k)
    ensures t == v && i == k
  {
    hide AllAccounted, AllValid, Job.SomeBad, Job.Collides, TempMatch;
    AllFinished(job, s, t);
    AllFinished(job, s, v);
    assert WorkerInv(job, s.owner, s.fail, s.workers[t], t) && WorkerInv(job, s.owner, s.fail, s.workers[v], v);
    assert HasMarked(job, s.owner, t, i) && HasMarked(job, s.owner, v, k);
    assert job.SameLine(v, k, t, i);
  }

  lemma MarkedAreHits(job: Job, s: State)
    requires Inv(job, s) && Joined(job, s) && !s.fail
    ensures SetBits(s.dirty) == job.Hits()
  {
    hide AllValid, SetBits, Job.SomeBad, Job.Collides, TempMatch, Job.SameLine;
    forall p | p in s.owner ensures p in job.Hits() {
      assert Accounted(job, s, p, s.owner[p]);
    }
    forall p | p in job.Hits() ensures p in s.owner {
      var t, i :| 0 <= t < |job.sources| && 0 <= i < |job.sources[t].found| && job.sources[t].found[i].Some?
                  && job.sources[t].found[i].value == p;
      AllFinished(job, s, t);
      assert WorkerInv(job, s.owner, s.fail, s.workers[t], t);
      assert HasMarked(job, s.owner, t, i);
    }
  }

  lemma CountsAreUnmarked(job: Job, s: State, j: nat)
    requires Inv(job, s) && Joined(job, s) && !s.fail && j < |job.sources|
    ensures s.valid[j] == |Unmarked(job, s.dirty, j)|
  {
    hide AllWorkers, SetBits, Job.SomeBad, Job.Collides, Job.ShardBegin;
    ShardSize(job, j);
    var whole := Interval(job.ShardBegin(j), job.ShardBegin(j + 1));
    assert ValidMatch(job, s, j);
    forall p | p in whole ensures p in Taken(job, s, j) <==> p in SetBits(s.dirty) {
      if p in s.owner {
        assert Accounted(job, s, p, s.owner[p]);
        AllFinished(job, s, s.owner[p]);
      }
    }
    assert Taken(job, s, j) == whole - Unmarked(job, s.dirty, j);
  }

  /** In every interleaving: the preparation fails exactly if some reader has a bad key or some line is hit
      twice; if not, the marked lines are exactly the lines hit, and every shard counts its unmarked lines. */
  lemma EveryRunClaims(job: Job, run: seq<State>)
    requires Run(job, run) && Joined(job, run[|run| - 1])
    ensures var s := run[|run| - 1];
            && (s.fail <==> job.SomeBad() || job.Collides())
            && (!s.fail ==> SetBits(s.dirty) == job.Hits())
            && (!s.fail ==> |s.valid| == |job.sources|
                            && forall j :: 0 <= j < |s.valid| ==> s.valid[j] == |Unmarked(job, s.dirty, j)|)
  {
    hide Inv, Joined, SetBits, Job.SameLine, Job.Hits, Unmarked;
    RunInv(job, run, |run| - 1);
    var s := run[|run| - 1];
    if s.fail {
      FailedHasCause(job, s);
    } else {
      MarkedAreHits(job, s);
      forall t | 0 <= t < |job.sources| ensures !job.sources[t].bad {
        AllFinished(job, s, t);
      }
      forall t, i, v, k | job.SameLine(t, i, v, k) ensures t == v && i == k {
        NoCollision(job, s, t, i, v, k);
      }
      assert |s.valid| == |job.sources| by {
        InvShaped(job, s);
      }
      forall j | 0 <= j < |job.sources| ensures s.valid[j] == |Unmarked(job, s.dirty, j)| {
        CountsAreUnmarked(job, s, j);
      }
    }
  }

  lemma InvShaped(job: Job, s: State)
    requires Inv(job, s)
    ensures |s.valid| == |job.sources|
  {
  }

  // ---- One reader -------------------------------------------------------------------------------

  /** With one reader there are no threads: the same marks and count, or the same failure. */
  method ClaimAlone(job: Job, dirty: array<byte>) returns (ok: bool, valid: nat)
    requires job.Valid() && |job.sources| == 1
    requires dirty.Length == (job.item + 7) / 8 && forall k :: 0 <= k < dirty.Length ==> dirty[k] == 0
    modifies dirty
    ensures ok <==> !job.SomeBad() && !job.Collides()
    ensures ok ==> SetBits(dirty[..]) == job.Hits() && valid == |Unmarked(job, dirty[..], 0)|
  {
    hide SetBits, Job.SomeBad, Job.Collides, Job.Hits, Unmarked, FirstHits, FirstApart, Job.HitInside;
    var source := job.sources[0];
    EmptyBitmap(dirty.Length);
    assert dirty[..] == seq(dirty.Length, _ => 0);
    ok, valid := false, job.item;
    NoneYet(source);
    for i := 0 to |source.found|
      invariant dirty.Length == (job.item + 7) / 8
      invariant SetBits(dirty[..]) == FirstHits(source, i)
      invariant |FirstHits(source, i)| <= job.item && valid == job.item - |FirstHits(source, i)|
      invariant FirstApart(source, i)
    {
      FirstHitsNext(job, i);
      if source.found[i].Some? {
        var pos := source.found[i].value;
        var taken := TestAndSetBit(dirty, pos);
        if !taken {
          TwiceCollides(job, i, pos);
          return;
        }
        valid := valid - 1;
      }
    }
    AloneOutcome(job, dirty[..]);
    ok := !source.bad;
  }

  lemma NoneYet(source: Source)
    ensures FirstHits(source, 0) == {} && FirstApart(source, 0)
  {
  }

  ghost function FirstHits(source: Source, n: nat): set<nat>
    requires n <= |source.found|
  {
    set i | 0 <= i < n && source.found[i].Some? :: source.found[i].value
  }

  ghost predicate FirstApart(source: Source, n: nat)
    requires n <= |source.found|
  {
    forall i, k :: 0 <= i < k < n && source.found[i].Some? ==> source.found[i] != source.found[k]
  }

  lemma FirstHitsNext(job: Job, i: nat)
    requires job.Valid() && |job.sources| == 1 && i < |job.sources[0].found|
    ensures var source := job.sources[0];
            && (source.found[i].Some? ==> source.found[i].value < job.item)
            && FirstHits(source, i + 1)
               == FirstHits(source, i) + (if source.found[i].Some? then {source.found[i].value} else {})
            && |FirstHits(source, i + 1)| <= job.item
            && (FirstApart(source, i) && (source.found[i].Some? ==> source.found[i].value !in FirstHits(source, i))
                ==> FirstApart(source, i + 1))
  {
    hide FirstApart, FirstHits, Job.HitInside, Job.Valid;
    var source := job.sources[0];
    FirstHitsGrow(source, i);
    if FirstApart(source, i) && (source.found[i].Some? ==> source.found[i].value !in FirstHits(source, i)) {
      FirstApartGrow(source, i);
    }
    FirstHitsInside(job, i + 1);
    SubsetSize(FirstHits(source, i + 1), Interval(0, job.item));
  }

  lemma FirstHitsInside(job: Job, n: nat)
    requires job.Valid() && |job.sources| == 1 && n <= |job.sources[0].found|
    ensures FirstHits(job.sources[0], n) <= Interval(0, job.item)
    ensures forall i :: 0 <= i < n && job.sources[0].found[i].Some? ==> job.sources[0].found[i].value < job.item
  {
    forall i | 0 <= i < n ensures job.sources[0].found[i].Some? ==> job.sources[0].found[i].value < job.item {
      assert job.HitInside(0, i);
    }
  }

  lemma FirstHitsGrow(source: Source, i: nat)
    requires i < |source.found|
    ensures FirstHits(source, i + 1)
            == FirstHits(source, i) + (if source.found[i].Some? then {source.found[i].value} else {})
  {
  }

  lemma FirstApartGrow(source: Source, i: nat)
    requires i < |source.found| && FirstApart(source, i)
    requires source.found[i].Some? ==> source.found[i].value !in FirstHits(source, i)
    ensures FirstApart(source, i + 1)
  {
    forall k | 0 <= k < i && source.found[k].Some? ensures source.found[k] != source.found[i] {
      assert source.found[k].value in FirstHits(source, i);
    }
  }

  lemma TwiceCollides(job: Job, i: nat, pos: nat)
    requires job.Valid() && |job.sources| == 1 && i < |job.sources[0].found| && job.sources[0].found[i] == Some(pos)
    requires pos in FirstHits(job.sources[0], i)
    ensures job.Collides()
  {
    var k :| 0 <= k < i && job.sources[0].found[k].Some? && job.sources[0].found[k].value == pos;
    assert job.SameLine(0, i, 0, k);
  }

  lemma AloneOutcome(job: Job, dirty: seq<byte>)
    requires job.Valid() && |job.sources| == 1 && FirstApart(job.sources[0], |job.sources[0].found|)
    requires SetBits(dirty) == FirstHits(job.sources[0], |job.sources[0].found|)
    requires |SetBits(dirty)| <= job.item
    ensures !job.Collides() && (job.SomeBad() <==> job.sources[0].bad)
    ensures SetBits(dirty) == job.Hits()
    ensures |Unmarked(job, dirty, 0)| == job.item - |SetBits(dirty)|
  {
    hide SetBits, Job.SomeBad;
    AloneApart(job);
    assert job.SomeBad() <==> job.sources[0].bad by {
      OneSource(job);
    }
    assert SetBits(dirty) == job.Hits();
    AloneUnmarked(job, dirty);
  }

  lemma OneSource(job: Job)
    requires |job.sources| == 1
    ensures job.SomeBad() <==> job.sources[0].bad
  {
  }

  lemma AloneApart(job: Job)
    requires |job.sources| == 1 && FirstApart(job.sources[0], |job.sources[0].found|)
    ensures !job.Collides()
  {
    forall t, i, v, k | job.SameLine(t, i, v, k) ensures t == v && i == k {
      assert job.SameLine(v, k, t, i);
    }
  }

  lemma AloneUnmarked(job: Job, dirty: seq<byte>)
    requires job.Valid() && |job.sources| == 1 && SetBits(dirty) == job.Hits()
    requires |SetBits(dirty)| <= job.item
    ensures |Unmarked(job, dirty, 0)| == job.item - |SetBits(dirty)|
  {
    hide SetBits, Job.ShardBegin;
    OneShard(job);
    HitsInside(job);
    var whole := Interval(0, job.item);
    assert SetBits(dirty) <= whole;
    assert Unmarked(job, dirty, 0) == whole - SetBits(dirty);
  }

  lemma OneShard(job: Job)
    requires |job.sources| == 1
    ensures job.ShardBegin(0) == 0 && job.ShardBegin(1) == job.item
  {
    CutEnds(job.item, 1);
  }

  lemma HitsInside(job: Job)
    requires job.Valid()
    ensures forall p :: p in job.Hits() ==> p < job.item
  {
    forall p | p in job.Hits() ensures p < job.item {
      var t, i :| 0 <= t < |job.sources| && 0 <= i < |job.sources[t].found| && job.sources[t].found[i].Some?
                  && job.sources[t].found[i].value == p;
      assert job.HitInside(t, i);
    }
  }
}
