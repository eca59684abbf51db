/** The threads of a build can always come to their joins: what the builds ask of the states that threads leave can be
    met, so the theorems about builds are not empty. */
module Feasible {
  import opened Words
  import opened Ids
  import opened PackFormat
  import opened SegmentBuild
  import opened Packs
  import opened Filling
  import opened Building
  import Ingest
  import MultiHead
  import Rebuild
  import RebuildClaims
  import opened TableBuild

  /** An id is in range of the cells of every segment, however large, unless the low 31 bits of its second word are all
      ones. */
  lemma OrdinaryInRange(id: Id, size: u32)
    requires size > 0 && id.w1 % 0x8000_0000 != 0x7fff_ffff
    ensures BucketOf(size)(id) < L1Size(size)
  {
    SkewMapInRange(id.w1, size);
  }

  /** What the builds ask of the ids of an attempt holds for all such ids. */
  lemma OrdinaryIds(job: Ingest.Job)
    requires job.readers != [] && job.All() != []
    requires forall x :: 0 <= x < |job.All()| ==> job.All()[x].w1 % 0x8000_0000 != 0x7fff_ffff
    ensures Ingest.IdsInRange(job)
  {
    hide Ingest.Count, Smallest, Heads, BucketOf, L1Size, Ingest.Job.All;
    var all := job.All();
    if Ingest.Several(job) {
      var c := Ingest.ConfigFor(all, |job.readers|);
      forall g | 0 <= g < |all| ensures CellInRange(c, all[g]) {
        var size := c.base[c.seg(all[g]) + 1] as int - c.base[c.seg(all[g])];
        if 0 < size < 0x1_0000_0000 {
          OrdinaryInRange(all[g], size);
        }
      }
    } else if |all| < 0x1_0000_0000 {
      forall x | 0 <= x < |all| ensures BucketOf(|all|)(all[x]) < L1Size(|all|) {
        OrdinaryInRange(all[x], |all|);
      }
    }
  }

  /** The counting threads of any readers have a run that joins. */
  lemma CountingRuns(job: Ingest.Job) returns (run: seq<Ingest.State>)
    requires job.readers != []
    ensures run != [] && Ingest.Run(job, run) && Ingest.Joined(job, run[|run| - 1])
  {
    hide Ingest.Next, Ingest.Joined;
    var n := |job.readers|;
    var zeros: seq<nat> := seq(n, _ => 0);
    var start := Ingest.State(seq(job.Total(), _ => Id(0, 0, 0)), zeros,
                              seq(n, _ => Ingest.Worker(0, Ingest.Reading, zeros)), false);
    assert Ingest.Initial(job, start);
    assert Ingest.Run(job, [start]);
    run := Ingest.RunReachesJoin(job, [start]);
  }

  /** So have the scattering threads of any valid configuration. */
  lemma ScatteringRuns(c: MultiHead.Config) returns (run: seq<MultiHead.State>, joined: seq<Id>)
    requires c.Valid()
    ensures LeftByRun(c, run, joined)
  {
    hide MultiHead.Next, MultiHead.Joined, MultiHead.Config.Start, MultiHead.Config.Lo, MultiHead.Config.Members;
    var cursor := map k: nat, p: nat | 0 <= k < c.heads && 0 <= p < c.n :: (k, p) := c.Start(k, p);
    var start := MultiHead.State(cursor, map[],
                                 seq(c.heads, t requires 0 <= t < c.heads =>
                                   MultiHead.Thread(c.Lo(t), seq(c.n, _ => t), 0, MultiHead.Free)),
                                 map[], map[]);
    assert MultiHead.Initial(c, start);
    assert MultiHead.Run(c, [start]);
    run := MultiHead.RunReachesJoin(c, [start]);
    var shadow := run[|run| - 1].shadow;
    joined := seq(|c.ids|, o requires 0 <= o < |c.ids| => if o in shadow then shadow[o] else Id(0, 0, 0));
  }

  /** An attempt whose ids are in range has threads that come to their joins. */
  lemma AttemptCanRun(job: Ingest.Job, extra: bool)
    returns (left: Threads, run: seq<Ingest.State>, scatter: seq<MultiHead.State>)
    requires Ingest.IdsInRange(job)
    ensures AttemptRuns(job, extra, left, run, scatter)
  {
    hide Ingest.Run, Ingest.Joined, LeftByRun, Ingest.ConfigFor;
    run := CountingRuns(job);
    Ingest.ConfigIsValid(job.All(), |job.readers|);
    var joined: seq<Id>;
    scatter, joined := ScatteringRuns(Ingest.ConfigFor(job.All(), |job.readers|));
    left := Threads(run[|run| - 1], joined);
  }

  /** Whatever the readers, the seeds and the retries: if the ids of every attempt are in range, there are runs for all
      of them. */
  lemma AttemptsCanRun(readers: seq<seq<Record>>, h: Hashing, extra: bool, retry: Retry, seeds: nat -> u32)
    returns (left: nat -> Threads, runs: nat -> seq<Ingest.State>, scatters: nat -> seq<MultiHead.State>)
    requires readers != [] && forall a :: 0 <= a <= retry.total ==> Ingest.IdsInRange(JobFor(readers, seeds(a), h))
    ensures ThreadsRan(readers, h, extra, retry, seeds, left, runs, scatters)
  {
    hide AttemptRuns, Ingest.IdsInRange;
    var all: nat -> (Threads, seq<Ingest.State>, seq<MultiHead.State>) := Choices(readers, h, extra, retry.total, seeds);
    left := (a: nat) => all(a).0;
    runs := (a: nat) => all(a).1;
    scatters := (a: nat) => all(a).2;
  }

  lemma {:induction false} Choices(readers: seq<seq<Record>>, h: Hashing, extra: bool, n: nat, seeds: nat -> u32)
    returns (all: nat -> (Threads, seq<Ingest.State>, seq<MultiHead.State>))
    requires readers != [] && forall a :: 0 <= a <= n ==> Ingest.IdsInRange(JobFor(readers, seeds(a), h))
    ensures forall a :: 0 <= a <= n ==> AttemptRuns(JobFor(readers, seeds(a), h), extra, all(a).0, all(a).1, all(a).2)
  {
    hide AttemptRuns, Ingest.IdsInRange;
    var left, run, scatter := AttemptCanRun(JobFor(readers, seeds(n), h), extra);
    if n == 0 {
      all := (a: nat) => (left, run, scatter);
    } else {
      var before := Choices(readers, h, extra, n - 1, seeds);
      all := (a: nat) => if a == n then (left, run, scatter) else before(a);
    }
  }

  /** The lines of a pack may be stored in the order of the readers, byte after byte. */
  lemma LinesCanBeStored(pack: PackView, readers: seq<seq<Record>>, h: Hashing) returns (written: seq<byte>)
    requires FillNeeded(pack, readers, h)
    ensures var all := AllRecords(readers, |readers|);
            StoredBy(pack, all, h, InOrderOf(Times(|all|, pack.LineSize())), written)
  {
    hide PackView.CalcPos, PackView.InRange, TablePerfect, Carried, WritesOf, AllRecords;
    var all := AllRecords(readers, |readers|);
    RecordsInRange(pack, all, h);
    var pos, lines, len := PosOf(pack, all, h), LinesOf(pack, all), pack.LineSize();
    var order := InOrderOf(Times(|all|, len));
    var before: seq<byte> := seq(Times(pack.item, len), _ => 0);
    AnyOrderFills(before, len, pos, lines, pack.item, order);
    written := Carried(before, WritesOf(len, pos, lines), order, |order|);
    assert StoredOver(pack, all, h, order, before, written);
  }

  /** The threads that fill lines can always finish. */
  lemma FillsCanRun(readers: seq<seq<Record>>, h: Hashing)
    returns (written: PackView -> seq<byte>, order: PackView -> seq<nat>)
    ensures FillRuns(readers, h, written, order)
  {
    hide FillNeeded, StoredBy, AllRecords;
    var all := AllRecords(readers, |readers|);
    order := (pack: PackView) => InOrderOf(Times(|all|, pack.LineSize()));
    forall pack: PackView | FillNeeded(pack, readers, h)
      ensures exists w: seq<byte> :: StoredBy(pack, all, h, order(pack), w)
    {
      var w := LinesCanBeStored(pack, readers, h);
      assert StoredBy(pack, all, h, order(pack), w);
    }
    written := (pack: PackView) =>
      if FillNeeded(pack, readers, h) then
        var w: seq<byte> :| StoredBy(pack, all, h, order(pack), w);
        w
      else [];
  }

  ghost function InOrderOf(n: nat): (order: seq<nat>)
    ensures |order| == n && forall k :: 0 <= k < n ==> order[k] == k
  {
    seq(n, k => k)
  }

  /** The threads that mark the lines of patches have a run that joins, whatever they hit. */
  lemma MarkingRuns(job: RebuildClaims.Job) returns (run: seq<RebuildClaims.State>, joined: RebuildClaims.State)
    requires job.Valid()
    ensures Rebuild.LeftByRun(job, run, joined)
  {
    hide RebuildClaims.Next, RebuildClaims.Joined, RebuildClaims.Job.Valid;
    var n := |job.sources|;
    var zeros: seq<nat> := seq(n, _ => 0);
    var dirty: seq<byte> := seq((job.item + 7) / 8, _ => 0);
    var valid: seq<int> := seq(n, j requires 0 <= j < n => SizeOfShard(job, j));
    var start := RebuildClaims.State(dirty, valid, seq(n, _ => RebuildClaims.Worker(0, RebuildClaims.Ready, zeros)), false,
                                     map[]);
    assert RebuildClaims.Initial(job, start);
    assert RebuildClaims.Run(job, [start]);
    run := RebuildClaims.RunReachesJoin(job, [start]);
    joined := run[|run| - 1];
  }

  ghost function SizeOfShard(job: RebuildClaims.Job, j: nat): int
    requires job.sources != []
  {
    job.ShardBegin(j + 1) - job.ShardBegin(j)
  }

  /** So what a rebuild asks of its threads can be met for every patchable base. */
  lemma RebuildCanRun(base: PackView, olds: seq<Record>, readers: seq<Rebuild.ListReader>, h: Hashing)
    returns (joined: RebuildClaims.State, run: seq<RebuildClaims.State>)
    requires Rebuild.Patchable(base, olds, readers, h)
    ensures Rebuild.JoinedAfter(base, readers, h, joined, run)
  {
    hide Rebuild.LeftByRun, Rebuild.WellBuilt, Rebuild.KeysInRange, Rebuild.SourceOf, Rebuild.AllPatches;
    hide Rebuild.AllKeysFit;
    var patches := Rebuild.PatchesOf(readers);
    Rebuild.AllInRange(base, patches, h);
    run, joined := MarkingRuns(Rebuild.JobOf(base, patches, h));
  }
}
