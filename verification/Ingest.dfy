/** From the keys of the readers to a built table: fingerprints, the count of every segment, and the build.

    With many keys every reader has its own thread, which writes its stretch of the ids and adds its counts to
    the shared ones. Threads run as interleaved atomic steps; adding one count is one atomic step. */
module Ingest {
  import opened Words
  import opened Ids
  import opened PackFormat
  import opened BucketSearch
  import opened SegmentBuild
  import opened TableBuild
  import MultiHead
  import Scatter

  const MAX_KEY_LEN: nat := 0xff

  predicate GoodKey(key: seq<byte>) {
    0 < |key| <= MAX_KEY_LEN
  }

  function IdsFor(keys: seq<seq<byte>>, seed: u32, gen: GenId): (ids: seq<Id>)
    ensures |ids| == |keys| && forall i :: 0 <= i < |keys| ==> ids[i] == gen(seed, keys[i])
  {
    seq(|keys|, i requires 0 <= i < |keys| => gen(seed, keys[i]))
  }

  /** The keys of the first `n` readers, one reader after the other. */
  function AllKeys(readers: seq<seq<seq<byte>>>, n: nat): seq<seq<byte>>
    requires n <= |readers|
  {
    if n == 0 then [] else AllKeys(readers, n - 1) + readers[n - 1]
  }

  /** One segment per reader. */
  datatype Job = Job(readers: seq<seq<seq<byte>>>, seed: u32, gen: GenId) {
    function Start(t: nat): nat
      requires t <= |readers|
    {
      |AllKeys(readers, t)|
    }

    function Total(): nat {
      Start(|readers|)
    }

    function Own(t: nat): (ids: seq<Id>)
      requires t < |readers|
      ensures |ids| == |readers[t]|
    {
      IdsFor(readers[t], seed, gen)
    }

    function All(): (ids: seq<Id>) {
      IdsFor(AllKeys(readers, |readers|), seed, gen)
    }

    function Seg(): (seg: Id -> nat)
      requires readers != []
    {
      SegmentHash(|readers|)
    }

    ghost predicate SomeBad() {
      exists t :: 0 <= t < |readers| && HasBad(t)
    }

    /** A key has between 1 and 255 bytes. */
    ghost predicate HasBad(t: nat)
      requires t < |readers|
    {
      exists i :: 0 <= i < |readers[t]| && (readers[t][i] == [] || |readers[t][i]| > 255)
    }
  }

  ghost function Count(ids: seq<Id>, seg: Id -> nat, p: nat): nat {
    |IdsOfSegment(ids, seg, p)|
  }

  // ---- State and steps --------------------------------------------------------------------------

  datatype Phase = Reading | Adding(j: nat) | Failed

  datatype Worker = Worker(next: nat, phase: Phase, temp: seq<nat>)

  datatype State = State(ids: seq<Id>, shuffle: seq<nat>, workers: seq<Worker>, fail: bool)

  ghost predicate Shaped(job: Job, s: State) {
    && job.readers != [] && |s.workers| == |s.shuffle| == |job.readers| && |s.ids| == job.Total()
    && forall t :: 0 <= t < |s.workers| ==> WorkerShaped(job, s.workers[t], t)
  }

  ghost predicate WorkerShaped(job: Job, w: Worker, t: nat)
    requires t < |job.readers|
  {
    && w.next <= |job.readers[t]| && |w.temp| == |job.readers|
    && (w.phase.Adding? ==> w.next == |job.readers[t]| && w.phase.j <= |job.readers|)
  }

  ghost predicate CanRead(job: Job, s: State, t: nat) {
    Shaped(job, s) && t < |s.workers| && s.workers[t].phase.Reading? && s.workers[t].next < |job.readers[t]|
  }

  /** Reads one key: a bad one ends the thread, a good one gives an id and is counted for its segment. */
  ghost function Read(job: Job, s: State, t: nat): State
    requires CanRead(job, s, t)
  {
    var w := s.workers[t];
    var key := job.readers[t][w.next];
    if !GoodKey(key) then s.(workers := s.workers[t := w.(phase := Failed)], fail := true)
    else
      var id := job.gen(job.seed, key);
      var j := job.Seg()(id);
      StartsInside(job, t);
      s.(ids := s.ids[job.Start(t) + w.next := id],
         workers := s.workers[t := Worker(w.next + 1, Reading, w.temp[j := w.temp[j] + 1])])
  }

  ghost predicate CanTurn(job: Job, s: State, t: nat) {
    Shaped(job, s) && t < |s.workers| && s.workers[t].phase.Reading? && s.workers[t].next == |job.readers[t]|
  }

  /** The reader is exhausted. */
  ghost function Turn(job: Job, s: State, t: nat): State
    requires CanTurn(job, s, t)
  {
    s.(workers := s.workers[t := s.workers[t].(phase := Adding(0))])
  }

  ghost predicate CanAdd(job: Job, s: State, t: nat) {
    Shaped(job, s) && t < |s.workers| && s.workers[t].phase.Adding? && s.workers[t].phase.j < |job.readers|
  }

  /** Adds the thread's count of one segment to the shared one. */
  ghost function Add(job: Job, s: State, t: nat): State
    requires CanAdd(job, s, t)
  {
    var w := s.workers[t];
    var j := w.phase.j;
    s.(shuffle := s.shuffle[j := s.shuffle[j] + w.temp[j]], workers := s.workers[t := w.(phase := Adding(j + 1))])
  }

  ghost predicate StepOf(job: Job, s: State, u: State, t: nat) {
    || (CanRead(job, s, t) && u == Read(job, s, t))
    || (CanTurn(job, s, t) && u == Turn(job, s, t))
    || (CanAdd(job, s, t) && u == Add(job, s, t))
  }

  ghost predicate Next(job: Job, s: State, u: State) {
    exists t: nat :: StepOf(job, s, u, t)
  }

  ghost predicate Initial(job: Job, s: State) {
    && job.readers != [] && |s.ids| == job.Total() && !s.fail
    && s.shuffle == seq(|job.readers|, _ => 0)
    && s.workers == seq(|job.readers|, _ => Worker(0, Reading, seq(|job.readers|, _ => 0)))
  }

  ghost predicate Run(job: Job, run: seq<State>) {
    && run != [] && Initial(job, run[0])
    && forall i :: 0 <= i && i + 1 < |run| ==> Next(job, run[i], run[i + 1])
  }

  ghost predicate Returned(job: Job, w: Worker) {
    w.phase.Failed? || w.phase == Adding(|job.readers|)
  }

  ghost predicate Joined(job: Job, s: State) {
    Shaped(job, s) && forall t :: 0 <= t < |s.workers| ==> Returned(job, s.workers[t])
  }

  lemma {:induction false} StartsAscend(job: Job, t: nat, n: nat)
    requires t < n <= |job.readers|
    ensures job.Start(t) + |job.readers[t]| <= job.Start(n)
    decreases n
  {
    if t + 1 < n {
      StartsAscend(job, t, n - 1);
    }
  }

  lemma StartsInside(job: Job, t: nat)
    requires t < |job.readers|
    ensures job.Start(t) + |job.readers[t]| <= job.Total()
  {
    StartsAscend(job, t, |job.readers|);
  }

  // ---- The invariant ----------------------------------------------------------------------------

  ghost predicate TempMatch(job: Job, w: Worker, t: nat, j: nat)
    requires job.readers != [] && t < |job.readers| && WorkerShaped(job, w, t) && j < |w.temp|
  {
    w.temp[j] == Count(job.Own(t)[..w.next], job.Seg(), j)
  }

  ghost predicate IdsMatch(job: Job, ids: seq<Id>, t: nat, n: nat)
    requires t < |job.readers| && n <= |job.readers[t]|
  {
    job.Start(t) + n <= |ids| && forall i :: 0 <= i < n ==> ids[job.Start(t) + i] == job.Own(t)[i]
  }

  ghost predicate WorkerInv(job: Job, s: State, t: nat) {
    && Shaped(job, s) && t < |s.workers|
    && (forall i :: 0 <= i < s.workers[t].next ==> GoodKey(job.readers[t][i]))
    && IdsMatch(job, s.ids, t, s.workers[t].next)
    && (forall j :: 0 <= j < |job.readers| ==> TempMatch(job, s.workers[t], t, j))
    && (s.workers[t].phase.Failed? ==> s.fail && job.HasBad(t))
  }

  /** What the first `n` threads have added to the count of segment `j`. */
  ghost function Added(job: Job, s: State, j: nat, n: nat): nat
    requires job.readers != [] && n <= |s.workers| == |job.readers|
  {
    if n == 0 then 0
    else Added(job, s, j, n - 1) + (if Past(s.workers[n - 1], j) then Count(job.Own(n - 1), job.Seg(), j) else 0)
  }

  ghost predicate Past(w: Worker, j: nat) {
    w.phase.Adding? && j < w.phase.j
  }

  ghost predicate Inv(job: Job, s: State) {
    && Shaped(job, s)
    && (forall t :: 0 <= t < |s.workers| ==> WorkerInv(job, s, t))
    && (forall j :: 0 <= j < |s.shuffle| ==> s.shuffle[j] == Added(job, s, j, |s.workers|))
    && (s.fail ==> exists t :: 0 <= t < |s.workers| && s.workers[t].phase.Failed?)
  }

  lemma {:induction false} NothingAdded(job: Job, s: State, j: nat, n: nat)
    requires job.readers != [] && n <= |s.workers| == |job.readers|
    requires forall t :: 0 <= t < |s.workers| ==> s.workers[t].phase.Reading?
    ensures Added(job, s, j, n) == 0
  {
    if n > 0 {
      NothingAdded(job, s, j, n - 1);
    }
  }

  lemma InitialInv(job: Job, s: State)
    requires Initial(job, s)
    ensures Inv(job, s)
  {
    hide Job.Total, Job.Start;
    forall t | 0 <= t < |s.workers| ensures WorkerInv(job, s, t) {
      StartsInside(job, t);
      assert job.Own(t)[..0] == [];
    }
    forall j | 0 <= j < |s.shuffle| ensures s.shuffle[j] == Added(job, s, j, |s.workers|) {
      NothingAdded(job, s, j, |s.workers|);
    }
  }

  /** If one thread changes, the sum changes by what that thread has added. */
  lemma {:induction false} AddedChange(job: Job, s: State, u: State, t: nat, j: nat, n: nat)
    requires job.readers != [] && n <= |s.workers| == |u.workers| == |job.readers| && t < |s.workers|
    requires forall v :: 0 <= v < |s.workers| && v != t ==> u.workers[v] == s.workers[v]
    ensures Added(job, u, j, n)
            == Added(job, s, j, n)
               + (if t < n && Past(u.workers[t], j) then Count(job.Own(t), job.Seg(), j) else 0)
               - (if t < n && Past(s.workers[t], j) then Count(job.Own(t), job.Seg(), j) else 0)
  {
    hide Count, Past, Job.Own;
    if n > 0 {
      AddedChange(job, s, u, t, j, n - 1);
    }
  }

  /** The stretches of different readers do not overlap. */
  lemma StretchApart(job: Job, t: nat, i: nat, v: nat, k: nat)
    requires t < |job.readers| && v < |job.readers| && t != v && i < |job.readers[t]| && k < |job.readers[v]|
    ensures job.Start(t) + i != job.Start(v) + k
  {
    if t < v {
      StartsAscend(job, t, v);
    } else {
      StartsAscend(job, v, t);
    }
  }

  lemma CountOneMore(ids: seq<Id>, seg: Id -> nat, p: nat, n: nat)
    requires n < |ids|
    ensures Count(ids[..n + 1], seg, p) == Count(ids[..n], seg, p) + if seg(ids[n]) == p then 1 else 0
  {
    assert ids[..n + 1][..n] == ids[..n];
  }

  lemma ReadGood(job: Job, s: State, t: nat)
    requires Inv(job, s) && CanRead(job, s, t) && GoodKey(job.readers[t][s.workers[t].next])
    ensures Inv(job, Read(job, s, t))
  {
    hide Job.Start, Job.Total, Count, GoodKey, Job.HasBad;
    var u, w := Read(job, s, t), s.workers[t];
    StartsInside(job, t);
    assert Shaped(job, u);
    forall v | 0 <= v < |u.workers| ensures WorkerInv(job, u, v) {
      assert WorkerInv(job, s, v);
      if v == t {
        ReadOwn(job, s, t);
      } else {
        forall i | 0 <= i < s.workers[v].next ensures u.ids[job.Start(v) + i] == job.Own(v)[i] {
          StretchApart(job, v, i, t, w.next);
        }
      }
    }
    forall j | 0 <= j < |u.shuffle| ensures u.shuffle[j] == Added(job, u, j, |u.workers|) {
      AddedChange(job, s, u, t, j, |s.workers|);
    }
    if u.fail {
      var v :| 0 <= v < |s.workers| && s.workers[v].phase.Failed?;
      assert u.workers[v].phase.Failed?;
    }
  }

  lemma ReadOwn(job: Job, s: State, t: nat)
    requires CanRead(job, s, t) && WorkerInv(job, s, t) && GoodKey(job.readers[t][s.workers[t].next])
    requires Shaped(job, Read(job, s, t))
    ensures WorkerInv(job, Read(job, s, t), t)
  {
    hide Job.Start, Job.Total, Count, GoodKey, Job.HasBad;
    var u, w := Read(job, s, t), s.workers[t];
    StartsInside(job, t);
    forall j | 0 <= j < |job.readers| ensures TempMatch(job, u.workers[t], t, j) {
      assert TempMatch(job, w, t, j);
      CountOneMore(job.Own(t), job.Seg(), j, w.next);
    }
  }

  /** A step that leaves ids and counts alone. */
  lemma QuietStep(job: Job, s: State, u: State, t: nat)
    requires Inv(job, s) && Shaped(job, u) && t < |s.workers| == |u.workers|
    requires u.ids == s.ids && u.shuffle == s.shuffle && u.workers[t].next == s.workers[t].next
    requires u.workers[t].temp == s.workers[t].temp && s.workers[t].phase.Reading?
    requires forall v :: 0 <= v < |s.workers| && v != t ==> u.workers[v] == s.workers[v]
    requires || (u.workers[t].phase == Adding(0) && u.fail == s.fail)
             || (u.workers[t].phase.Failed? && u.fail && job.HasBad(t))
    ensures Inv(job, u)
  {
    hide Job.Start, Job.Total, Count, GoodKey, Job.HasBad, Job.Own, IdsMatch;
    forall v | 0 <= v < |u.workers| ensures WorkerInv(job, u, v) {
      assert WorkerInv(job, s, v);
      forall j | 0 <= j < |job.readers| ensures TempMatch(job, u.workers[v], v, j) {
        assert TempMatch(job, s.workers[v], v, j);
      }
    }
    forall j | 0 <= j < |u.shuffle| ensures u.shuffle[j] == Added(job, u, j, |u.workers|) {
      AddedChange(job, s, u, t, j, |s.workers|);
    }
    if u.fail {
      if u.workers[t].phase.Failed? {
        assert u.workers[t].phase.Failed?;
      } else {
        var v :| 0 <= v < |s.workers| && s.workers[v].phase.Failed?;
        assert u.workers[v].phase.Failed?;
      }
    }
  }

  lemma AddInv(job: Job, s: State, t: nat)
    requires Inv(job, s) && CanAdd(job, s, t)
    ensures Inv(job, Add(job, s, t))
  {
    hide Job.Start, Job.Total, Count, GoodKey, Job.HasBad, IdsMatch;
    var u, w := Add(job, s, t), s.workers[t];
    forall v | 0 <= v < |u.workers| ensures WorkerShaped(job, u.workers[v], v) {
      assert WorkerShaped(job, s.workers[v], v);
    }
    forall v | 0 <= v < |u.workers| ensures WorkerInv(job, u, v) {
      assert WorkerInv(job, s, v);
      forall j | 0 <= j < |job.readers| ensures TempMatch(job, u.workers[v], v, j) {
        assert TempMatch(job, s.workers[v], v, j);
      }
    }
    assert WorkerInv(job, s, t) && TempMatch(job, w, t, w.phase.j);
    assert job.Own(t)[..w.next] == job.Own(t);
    forall j | 0 <= j < |u.shuffle| ensures u.shuffle[j] == Added(job, u, j, |u.workers|) {
      AddedChange(job, s, u, t, j, |s.workers|);
    }
    if u.fail {
      var v :| 0 <= v < |s.workers| && s.workers[v].phase.Failed?;
      assert u.workers[v].phase.Failed?;
    }
  }

  lemma StepKeepsInv(job: Job, s: State, u: State)
    requires Inv(job, s) && Next(job, s, u)
    ensures Inv(job, u)
  {
    hide Inv;
    var t: nat :| StepOf(job, s, u, t);
    if CanRead(job, s, t) && u == Read(job, s, t) {
      if GoodKey(job.readers[t][s.workers[t].next]) {
        ReadGood(job, s, t);
      } else {
        QuietStep(job, s, u, t);
      }
    } else if CanTurn(job, s, t) && u == Turn(job, s, t) {
      QuietStep(job, s, u, t);
    } else {
      AddInv(job, s, t);
    }
  }

  lemma {:induction false} RunInv(job: Job, run: seq<State>, i: nat)
    requires Run(job, run) && i < |run|
    ensures Inv(job, run[i])
  {
    hide Inv, Next, Initial;
    if i == 0 {
      InitialInv(job, run[0]);
    } else {
      RunInv(job, run, i - 1);
      assert Next(job, run[i - 1], run[(i - 1) + 1]);
      StepKeepsInv(job, run[i - 1], run[i]);
    }
  }

  // ---- The join ---------------------------------------------------------------------------------

  lemma {:induction false} OwnInAll(job: Job, n: nat, t: nat, i: nat)
    requires t < n <= |job.readers| && i < |job.readers[t]|
    ensures job.Start(t) + i < |AllKeys(job.readers, n)|
    ensures AllKeys(job.readers, n)[job.Start(t) + i] == job.readers[t][i]
    decreases n
  {
    if t < n - 1 {
      OwnInAll(job, n - 1, t, i);
    }
  }

  /** Which reader a key comes from. */
  lemma {:induction false} ReaderOf(job: Job, n: nat, x: nat) returns (t: nat, i: nat)
    requires n <= |job.readers| && x < |AllKeys(job.readers, n)|
    ensures t < n && i < |job.readers[t]| && x == job.Start(t) + i
    ensures AllKeys(job.readers, n)[x] == job.readers[t][i]
  {
    if x < |AllKeys(job.readers, n - 1)| {
      t, i := ReaderOf(job, n - 1, x);
    } else {
      t, i := n - 1, x - |AllKeys(job.readers, n - 1)|;
    }
  }

  /** When all threads have added their counts, the sum counts the ids of all readers. */
  lemma {:induction false} AllAdded(job: Job, s: State, j: nat, n: nat)
    requires job.readers != [] && n <= |s.workers| == |job.readers|
    requires forall t :: 0 <= t < n ==> Past(s.workers[t], j)
    ensures Added(job, s, j, n) == Count(IdsFor(AllKeys(job.readers, n), job.seed, job.gen), job.Seg(), j)
  {
    if n > 0 {
      AllAdded(job, s, j, n - 1);
      var a, b := IdsFor(AllKeys(job.readers, n - 1), job.seed, job.gen), job.Own(n - 1);
      assert IdsFor(AllKeys(job.readers, n), job.seed, job.gen) == a + b;
      IdsOfSegmentJoin(a, b, job.Seg(), j);
    }
  }

  lemma JoinedWithoutFail(job: Job, s: State, t: nat)
    requires Inv(job, s) && Joined(job, s) && !s.fail && t < |job.readers|
    ensures s.workers[t].phase == Adding(|job.readers|) && s.workers[t].next == |job.readers[t]| && !job.HasBad(t)
    ensures IdsMatch(job, s.ids, t, |job.readers[t]|)
  {
    hide Job.Start, Job.Total, Count, IdsMatch, TempMatch;
    assert WorkerInv(job, s, t) && Returned(job, s.workers[t]);
  }

  lemma FailHasCause(job: Job, s: State)
    requires Inv(job, s) && s.fail
    ensures job.SomeBad()
  {
    hide Job.Start, Job.Total, Count, GoodKey, IdsMatch, TempMatch, Job.HasBad;
    var t :| 0 <= t < |s.workers| && s.workers[t].phase.Failed?;
    assert WorkerInv(job, s, t);
  }

  /** In every interleaving: the count fails exactly if some key is bad; if not, the buffer holds the ids of
      all keys in reading order, and the shared counts are exactly those of the segments. */
  lemma EveryRunCounts(job: Job, run: seq<State>)
    requires Run(job, run) && Joined(job, run[|run| - 1])
    ensures var s := run[|run| - 1];
            && (s.fail <==> job.SomeBad())
            && (!s.fail ==> s.ids == job.All() && |s.shuffle| == |job.readers|)
            && (!s.fail ==> forall j :: 0 <= j < |s.shuffle| ==> s.shuffle[j] == Count(job.All(), job.Seg(), j))
  {
    hide Inv, Job.HasBad, Job.Start, Count;
    RunInv(job, run, |run| - 1);
    var s := run[|run| - 1];
    if s.fail {
      FailHasCause(job, s);
    } else {
      forall t | 0 <= t < |job.readers| ensures !job.HasBad(t) && Returned(job, s.workers[t]) && s.workers[t].phase.Adding? {
        JoinedWithoutFail(job, s, t);
      }
      JoinedIds(job, s);
      JoinedCounts(job, s);
    }
  }

  lemma JoinedCounts(job: Job, s: State)
    requires Inv(job, s) && Joined(job, s) && !s.fail
    ensures forall j :: 0 <= j < |s.shuffle| ==> s.shuffle[j] == Count(job.All(), job.Seg(), j)
  {
    hide WorkerInv, Count;
    forall j | 0 <= j < |s.shuffle| ensures s.shuffle[j] == Count(job.All(), job.Seg(), j) {
      forall t | 0 <= t < |job.readers| ensures Past(s.workers[t], j) {
        JoinedWithoutFail(job, s, t);
      }
      AllAdded(job, s, j, |job.readers|);
    }
  }

  lemma JoinedIds(job: Job, s: State)
    requires Inv(job, s) && Joined(job, s) && !s.fail
    ensures s.ids == job.All()
  {
    hide WorkerInv, Job.Start;
    assert |s.ids| == |job.All()| by {
      TotalIs(job);
    }
    forall x | 0 <= x < |s.ids| ensures s.ids[x] == job.All()[x] {
      var t, i := ReaderOf(job, |job.readers|, x);
      JoinedWithoutFail(job, s, t);
      assert s.ids[job.Start(t) + i] == job.Own(t)[i] == job.gen(job.seed, job.readers[t][i]);
    }
  }

  lemma TotalIs(job: Job)
    ensures job.Total() == |job.All()|
  {
  }

  // ---- Every run ends ---------------------------------------------------------------------------

  ghost function ThreadWork(job: Job, w: Worker, t: nat): int
    requires t < |job.readers|
  {
    match w.phase
    case Reading => |job.readers[t]| - w.next + |job.readers| + 1
    case Adding(j) => |job.readers| - j
    case Failed => 0
  }

  ghost function Work(job: Job, s: State, n: nat): int
    requires n <= |s.workers| == |job.readers|
  {
    if n == 0 then 0 else Work(job, s, n - 1) + ThreadWork(job, s.workers[n - 1], n - 1)
  }

  lemma {:induction false} WorkOfOthers(job: Job, s: State, u: State, t: nat, n: nat)
    requires n <= |s.workers| == |u.workers| == |job.readers| && t < |s.workers|
    requires forall v :: 0 <= v < |s.workers| && v != t ==> u.workers[v] == s.workers[v]
    ensures Work(job, s, n) - Work(job, u, n)
            == if t < n then ThreadWork(job, s.workers[t], t) - ThreadWork(job, u.workers[t], t) else 0
  {
    hide ThreadWork;
    if n > 0 {
      WorkOfOthers(job, s, u, t, n - 1);
    }
  }

  lemma {:induction false} WorkIsLeft(job: Job, s: State, n: nat)
    requires Shaped(job, s) && n <= |s.workers|
    ensures 0 <= Work(job, s, n) <= job.Start(n) + n * (|job.readers| + 1)
  {
    hide Job.Total;
    if n > 0 {
      WorkIsLeft(job, s, n - 1);
      assert WorkerShaped(job, s.workers[n - 1], n - 1);
      assert n * (|job.readers| + 1) == (n - 1) * (|job.readers| + 1) + (|job.readers| + 1);
    }
  }

  lemma StepWorks(job: Job, s: State, u: State)
    requires Inv(job, s) && Next(job, s, u)
    ensures Inv(job, u) && |u.workers| == |s.workers| == |job.readers|
    ensures Work(job, u, |job.readers|) < Work(job, s, |job.readers|)
  {
    StepKeepsInv(job, s, u);
    hide Inv, GoodKey, Job.Start, Job.Total;
    var t: nat :| StepOf(job, s, u, t);
    WorkOfOthers(job, s, u, t, |job.readers|);
  }

  lemma InvShaped(job: Job, s: State)
    requires Inv(job, s)
    ensures Shaped(job, s) && |s.workers| == |job.readers|
  {
  }

  /** Before the join there is a next state. */
  lemma NotJoinedMoves(job: Job, s: State) returns (u: State)
    requires Shaped(job, s) && !Joined(job, s)
    ensures Next(job, s, u)
  {
    hide Read, Turn, Add;
    var t: nat :| t < |s.workers| && !Returned(job, s.workers[t]);
    assert WorkerShaped(job, s.workers[t], t);
    if CanRead(job, s, t) {
      u := Read(job, s, t);
    } else if CanTurn(job, s, t) {
      u := Turn(job, s, t);
    } else {
      u := Add(job, s, t);
    }
    assert StepOf(job, s, u, t);
  }

  /** However a run has begun, it can be continued to the join, in a number of steps known beforehand. */
  lemma {:induction false} RunReachesJoin(job: Job, run: seq<State>) returns (whole: seq<State>)
    requires Run(job, run)
    ensures Run(job, whole) && run <= whole && Joined(job, whole[|whole| - 1])
    ensures |run[|run| - 1].workers| == |job.readers|
    ensures |whole| <= |run| + Work(job, run[|run| - 1], |job.readers|)
    decreases WorkLeft(job, run[|run| - 1])
  {
    hide Inv, Next, Work, Initial, Joined;
    var s := run[|run| - 1];
    RunInv(job, run, |run| - 1);
    InvShaped(job, s);
    WorkIsLeft(job, s, |job.readers|);
    if Joined(job, s) {
      whole := run;
    } else {
      var u := NotJoinedMoves(job, s);
      StepWorks(job, s, u);
      InvShaped(job, u);
      WorkIsLeft(job, u, |job.readers|);
      whole := RunReachesJoin(job, run + [u]);
    }
  }

  lemma {:induction false} RunWorks(job: Job, run: seq<State>, i: nat)
    requires Run(job, run) && i < |run|
    ensures WorkLeft(job, run[i]) + i <= WorkLeft(job, run[0])
  {
    hide Inv, Next, Work, Initial;
    if i > 0 {
      RunWorks(job, run, i - 1);
      RunInv(job, run, i - 1);
      assert Next(job, run[i - 1], run[(i - 1) + 1]);
      StepWorks(job, run[i - 1], run[i]);
      InvShaped(job, run[i - 1]);
      RunInv(job, run, i);
      InvShaped(job, run[i]);
      WorkIsLeft(job, run[i - 1], |job.readers|);
      WorkIsLeft(job, run[i], |job.readers|);
    }
  }

  /** No run takes more steps than there are keys, and counts to add. */
  lemma RunIsBounded(job: Job, run: seq<State>)
    requires Run(job, run)
    ensures |run| <= job.Total() + |job.readers| * (|job.readers| + 1) + 1
  {
    hide Inv, Next, Work, Initial;
    RunWorks(job, run, |run| - 1);
    RunInv(job, run, 0);
    InvShaped(job, run[0]);
    WorkIsLeft(job, run[0], |job.readers|);
  }

  ghost function WorkLeft(job: Job, s: State): nat {
    if |s.workers| == |job.readers| && Work(job, s, |job.readers|) >= 0 then Work(job, s, |job.readers|) else 0
  }

  // ---- The build of a set of readers ------------------------------------------------------------

  /** Several segments are worth their while from 8192 keys per reader on. */
  ghost predicate Several(job: Job) {
    |job.readers| > 1 && |job.All()| >= 8192 * |job.readers|
  }

  /** Where the segments begin when the counts are exact. */
  function Bases(shuffle: seq<nat>): (base: seq<nat>)
    ensures |base| == |shuffle| + 1 && base[0] == 0
    ensures forall p :: 0 <= p < |shuffle| ==> base[p + 1] == base[p] + shuffle[p]
  {
    if shuffle == [] then [0]
    else
      var b := Bases(shuffle[..|shuffle| - 1]);
      b + [b[|shuffle| - 1] + shuffle[|shuffle| - 1]]
  }

  ghost function Counts(ids: seq<Id>, seg: Id -> nat, n: nat): (counts: seq<nat>)
    ensures |counts| == n && forall p :: 0 <= p < n ==> counts[p] == Count(ids, seg, p)
  {
    seq(n, p requires 0 <= p < n => Count(ids, seg, p))
  }

  /** The configuration of the partition: the segments and where they begin. */
  ghost function ConfigFor(ids: seq<Id>, n: nat): MultiHead.Config
    requires n > 0
  {
    var base := Bases(Counts(ids, SegmentHash(n), n));
    MultiHead.Config(ids, SegmentHash(n), n, base, Heads(Smallest(base, n), n))
  }

  lemma {:induction false} CountIsLoad(ids: seq<Id>, seg: Id -> nat, p: nat)
    ensures Count(ids, seg, p) == multiset(Scatter.SlotsOf(ids, seg))[p]
  {
    if ids != [] {
      var u, x := ids[..|ids| - 1], ids[|ids| - 1];
      CountIsLoad(u, seg, p);
      assert Scatter.SlotsOf(ids, seg) == Scatter.SlotsOf(u, seg) + [seg(x)];
    } else {
      assert Scatter.SlotsOf(ids, seg) == [];
    }
  }

  /** The counts of the first `p` segments are the ids with smaller segments. */
  lemma {:induction false} CountsBelow(ids: seq<Id>, seg: Id -> nat, n: nat, p: nat)
    requires p <= n
    ensures Bases(Counts(ids, seg, n))[p] == |set g | 0 <= g < |ids| && seg(ids[g]) < p|
  {
    hide Count;
    if p == 0 {
      assert (set g | 0 <= g < |ids| && seg(ids[g]) < 0) == {};
    } else {
      CountsBelow(ids, seg, n, p - 1);
      CountIsLoad(ids, seg, p - 1);
      LoadIsCount(ids, seg, p - 1);
      BelowNext(ids, seg, p - 1);
    }
  }

  lemma BelowNext(ids: seq<Id>, seg: Id -> nat, p: nat)
    ensures |set g | 0 <= g < |ids| && seg(ids[g]) < p + 1|
            == |set g | 0 <= g < |ids| && seg(ids[g]) < p| + |set g | 0 <= g < |ids| && seg(ids[g]) == p|
  {
    var below := set g | 0 <= g < |ids| && seg(ids[g]) < p;
    var own := set g | 0 <= g < |ids| && seg(ids[g]) == p;
    assert (set g | 0 <= g < |ids| && seg(ids[g]) < p + 1) == below + own && below !! own;
  }

  lemma ConfigIsValid(ids: seq<Id>, n: nat)
    requires n > 0
    ensures ConfigFor(ids, n).Valid()
  {
    hide Count, Smallest, Heads;
    var c := ConfigFor(ids, n);
    forall p | 0 <= p < n ensures c.base[p] + |c.Members(p)| == c.base[p + 1] {
      CountIsLoad(ids, c.seg, p);
      MembersAreLoad(c, p);
    }
    CountsBelow(ids, c.seg, n, n);
    assert (set g | 0 <= g < |ids| && c.seg(ids[g]) < n) == MultiHead.Interval(0, |ids|);
  }

  /** The ids as the threads of a run leave them, with their counts. */
  ghost predicate CountedBy(job: Job, run: seq<State>, counted: State) {
    Run(job, run) && counted == run[|run| - 1] && Joined(job, counted)
  }

  /** The shadow as the scattering threads of a run leave it, if they are used. */
  ghost predicate ScatteredBy(job: Job, extra: bool, run: seq<MultiHead.State>, scattered: seq<Id>) {
    job.readers != [] &&
    (Several(job) && extra && ConfigFor(job.All(), |job.readers|).heads > 1 ==>
       TableBuild.LeftByRun(ConfigFor(job.All(), |job.readers|), run, scattered))
  }

  /** All cell lookups of the ids are in range. */
  ghost predicate IdsInRange(job: Job) {
    && job.readers != [] && 0 < |job.All()|
    && if Several(job) then CellsInRange(ConfigFor(job.All(), |job.readers|), job.All())
       else |job.All()| < 0x1_0000_0000 ==>
              forall x :: 0 <= x < |job.All()| ==> BucketOf(|job.All()|)(job.All()[x]) < L1Size(|job.All()|)
  }

  /** Reads the ids of all readers one after the other. */
  method ReadIds(job: Job) returns (ok: bool, ids: seq<Id>)
    ensures ok <==> !job.SomeBad()
    ensures ok ==> ids == job.All()
  {
    ids := [];
    for t := 0 to |job.readers|
      invariant ids == IdsFor(AllKeys(job.readers, t), job.seed, job.gen)
      invariant forall v :: 0 <= v < t ==> !job.HasBad(v)
    {
      ghost var before := ids;
      for i := 0 to |job.readers[t]|
        invariant ids == before + job.Own(t)[..i]
        invariant forall k :: 0 <= k < i ==> GoodKey(job.readers[t][k])
      {
        var key := job.readers[t][i];
        if !GoodKey(key) {
          assert job.HasBad(t);
          return false, ids;
        }
        ids := ids + [job.gen(job.seed, key)];
        assert job.Own(t)[..i + 1] == job.Own(t)[..i] + [job.Own(t)[i]];
      }
      assert job.Own(t)[..|job.readers[t]|] == job.Own(t);
      assert AllKeys(job.readers, t + 1) == AllKeys(job.readers, t) + job.readers[t];
      assert IdsFor(AllKeys(job.readers, t + 1), job.seed, job.gen) == before + job.Own(t);
    }
    ok := true;
  }

  /** The build with one segment. */
  method BuildSingle(job: Job, extra: bool, l2: L2Hash) returns (status: BuildStatus, table: Table)
    requires job.readers != [] && 0 < |job.All()| && !Several(job) && IdsInRange(job)
    ensures status in {Ok, BadInput, Conflict, OutOfChance}
    ensures status == BadInput <==> |job.All()| >= 0x1_0000_0000 || job.SomeBad()
    ensures status != BadInput ==> Explained(status, job.All(), l2)
    ensures status == Ok ==> TablePerfect(table, job.All(), l2) && Complete(table, |job.All()|)
    ensures status == Ok ==> |table.pieces| == 1
  {
    hide Job.SomeBad, Explained, Perfect, TablePerfect, Complete;
    table := Table([]);
    if job.Total() >= 0x1_0000_0000 {
      return BadInput, table;
    }
    var ok, all := ReadIds(job);
    if !ok {
      return BadInput, table;
    }
    var ids := new Id[|all|](i requires 0 <= i < |all| => all[i]);
    assert ids[..] == all;
    var shadow: array?<Id> := null;
    if extra {
      shadow := new Id[|all|](_ => Id(0, 0, 0));
    }
    var piece;
    status, piece := BuildSegment(ids, shadow, l2);
    ExplainedStatus(status, all, l2);
    if status == Ok {
      SingleIsPerfect(piece, all, l2);
      table := Table([piece]);
    }
  }

  lemma ExplainedStatus(status: BuildStatus, ids: seq<Id>, l2: L2Hash)
    requires Explained(status, ids, l2)
    ensures status in {Ok, Conflict, OutOfChance}
  {
  }

  /** Builds the table of all readers. With many keys the counting and, given a shadow, the scatter are
      concurrent: `counted` and `scattered` are what the threads left, in any interleavings. */
  method BuildAll(job: Job, extra: bool, l2: L2Hash, counted: State, ghost run: seq<State>,
                  scattered: seq<Id>, ghost scatter: seq<MultiHead.State>)
    returns (status: BuildStatus, table: Table)
    requires 0 < |job.readers| <= MAX_SEGMENT && IdsInRange(job)
    requires Several(job) ==> CountedBy(job, run, counted)
    requires ScatteredBy(job, extra, scatter, scattered)
    ensures status in {Ok, BadInput, Conflict, OutOfChance}
    ensures job.SomeBad() ==> status == BadInput
    ensures !Several(job) && !job.SomeBad() ==> (status == BadInput <==> |job.All()| >= 0x1_0000_0000)
    ensures Several(job) && !job.SomeBad() ==>
              (status == BadInput <==> exists p :: 0 <= p < |job.readers| && BadSegment(job, p))
    ensures status != BadInput ==>
              if Several(job) then Outcome(ConfigFor(job.All(), |job.readers|), l2, status)
              else Explained(status, job.All(), l2)
    ensures status == Ok ==> TablePerfect(table, job.All(), l2) && Complete(table, |job.All()|)
    ensures status == Ok ==> |table.pieces| == if Several(job) then |job.readers| else 1
  {
    hide Job.SomeBad, Explained, Outcome, TablePerfect, Complete, CellsInRange, Run, Joined, TableBuild.LeftByRun;
    table := Table([]);
    if |job.readers| == 1 || job.Total() < 8192 * |job.readers| {
      status, table := BuildSingle(job, extra, l2);
      return;
    }
    EveryRunCounts(job, run);
    if counted.fail {
      return BadInput, table;
    }
    status, table := BuildSegments(job, extra, l2, counted.ids, counted.shuffle, scattered, scatter);
  }

  /** A segment without ids, or with too many. */
  ghost predicate BadSegment(job: Job, p: nat)
    requires job.readers != []
  {
    var n := Count(job.All(), job.Seg(), p);
    n == 0 || n >= 0x1_0000_0000
  }

  /** The build with several segments, from exact counts. */
  method BuildSegments(job: Job, extra: bool, l2: L2Hash, all: seq<Id>, shuffle: seq<nat>, scattered: seq<Id>,
                       ghost scatter: seq<MultiHead.State>)
    returns (status: BuildStatus, table: Table)
    requires 0 < |job.readers| <= MAX_SEGMENT && IdsInRange(job) && Several(job)
    requires ScatteredBy(job, extra, scatter, scattered)
    requires all == job.All() && shuffle == Counts(all, job.Seg(), |job.readers|)
    ensures status in {Ok, BadInput, Conflict, OutOfChance}
    ensures status == BadInput <==> exists p :: 0 <= p < |job.readers| && BadSegment(job, p)
    ensures status != BadInput ==> Outcome(ConfigFor(job.All(), |job.readers|), l2, status)
    ensures status == Ok ==> TablePerfect(table, job.All(), l2) && Complete(table, |job.All()|)
    ensures status == Ok ==> |table.pieces| == |job.readers|
  {
    hide Outcome, TablePerfect, Complete, CellsInRange, TableBuild.LeftByRun, Count, Smallest, Heads, Job.All;
    var n := |job.readers|;
    var base := Bases(shuffle);
    var c := MultiHead.Config(all, SegmentHash(n), n, base, Heads(Smallest(base, n), n));
    ConfigIsValid(all, n);
    var ids := new Id[|all|](i requires 0 <= i < |all| => all[i]);
    assert ids[..] == all;
    var shadow: array?<Id> := null;
    if extra {
      shadow := new Id[|all|](_ => Id(0, 0, 0));
    }
    assert c == ConfigFor(job.All(), n);
    status, table := BuildTable(ids, shadow, c, l2, scattered, scatter);
    BadSegments(job, c);
  }

  lemma BadSegments(job: Job, c: MultiHead.Config)
    requires job.readers != [] && c == ConfigFor(job.All(), |job.readers|)
    ensures (exists p :: 0 <= p < |job.readers| && BadSegment(job, p))
            <==> exists p :: 0 <= p < c.n && (c.base[p + 1] == c.base[p] || c.base[p + 1] - c.base[p] >= 0x1_0000_0000)
  {
    hide Count, Smallest, Heads, Job.All;
    forall p | 0 <= p < c.n ensures c.base[p + 1] - c.base[p] == Count(job.All(), job.Seg(), p) {
    }
    if p :| 0 <= p < c.n && (c.base[p + 1] == c.base[p] || c.base[p + 1] - c.base[p] >= 0x1_0000_0000) {
      assert BadSegment(job, p);
    }
    if p :| 0 <= p < |job.readers| && BadSegment(job, p) {
      assert c.base[p + 1] == c.base[p] || c.base[p + 1] - c.base[p] >= 0x1_0000_0000;
    }
  }
}
