/** Rebuilding a pack from a base and patches: readers that deliver the lines no patch overrides and then the
    patch, and why together they deliver the base map overridden by the patch map. */
module Rebuild {
  import opened Words
  import opened Bits
  import opened TableBuild
  import MultiHead
  import opened Packs
  import opened Query
  import opened Filling
  import opened SeparatedValues
  import opened RebuildClaims

  // ---- The lines of the base --------------------------------------------------------------------

  /** The record on line `pos` of the base. A value that cannot be followed into the stream reads as empty. */
  function BaseRecord(base: PackView, pos: nat): (rec: Record)
    requires base.Sized() && pos < base.item
  {
    var line := base.Line(pos);
    var field := line[base.keyLen..];
    Record(line[..base.keyLen],
           if base.kind != KvSeparated then field
           else match SeparatedValueAt(base.extend, FieldOf(field)) case Some(v) => v case None => [])
  }

  /** The records on the unmarked lines of `[lo, hi)`, in order. */
  function Unpatched(base: PackView, dirty: seq<byte>, lo: nat, hi: nat): (records: seq<Record>)
    requires base.Sized() && hi <= base.item <= 8 * |dirty|
    decreases hi - lo
  {
    if lo >= hi then []
    else (if BitAt(dirty, lo) then [] else [BaseRecord(base, lo)]) + Unpatched(base, dirty, lo + 1, hi)
  }

  lemma UnpatchedStep(base: PackView, dirty: seq<byte>, lo: nat, hi: nat)
    requires base.Sized() && hi <= base.item <= 8 * |dirty|
    ensures lo >= hi ==> Unpatched(base, dirty, lo, hi) == []
    ensures lo < hi ==> Unpatched(base, dirty, lo, hi) == (if BitAt(dirty, lo) then [] else [BaseRecord(base, lo)])
                                                          + Unpatched(base, dirty, lo + 1, hi)
  {
  }

  lemma {:induction false} UnpatchedCount(base: PackView, dirty: seq<byte>, lo: nat, hi: nat)
    requires base.Sized() && lo <= hi <= base.item <= 8 * |dirty|
    ensures |Unpatched(base, dirty, lo, hi)| == |MultiHead.Interval(lo, hi) - SetBits(dirty)|
    decreases hi - lo
  {
    hide BaseRecord, MultiHead.Interval, SetBits, BitAt;
    if lo < hi {
      UnpatchedCount(base, dirty, lo + 1, hi);
      ClearFrom(dirty, lo, hi);
    }
  }

  lemma ClearFrom(dirty: seq<byte>, lo: nat, hi: nat)
    requires lo < hi <= 8 * |dirty|
    ensures |MultiHead.Interval(lo, hi) - SetBits(dirty)|
            == |MultiHead.Interval(lo + 1, hi) - SetBits(dirty)| + if BitAt(dirty, lo) then 0 else 1
  {
    hide MultiHead.Interval, BitAt;
    var open, rest := MultiHead.Interval(lo, hi) - SetBits(dirty), MultiHead.Interval(lo + 1, hi) - SetBits(dirty);
    if BitAt(dirty, lo) {
      assert open == rest;
    } else {
      assert open == rest + {lo};
    }
  }

  lemma {:induction false} UnpatchedJoin(base: PackView, dirty: seq<byte>, lo: nat, mid: nat, hi: nat)
    requires base.Sized() && lo <= mid <= hi <= base.item <= 8 * |dirty|
    ensures Unpatched(base, dirty, lo, hi) == Unpatched(base, dirty, lo, mid) + Unpatched(base, dirty, mid, hi)
    decreases mid - lo
  {
    hide BaseRecord;
    if lo < mid {
      UnpatchedJoin(base, dirty, lo + 1, mid, hi);
    }
  }

  /** Which records the unmarked lines hold. */
  lemma {:induction false} UnpatchedHas(base: PackView, dirty: seq<byte>, lo: nat, hi: nat, i: nat) returns (pos: nat)
    requires base.Sized() && hi <= base.item <= 8 * |dirty| && i < |Unpatched(base, dirty, lo, hi)|
    ensures lo <= pos < hi && !BitAt(dirty, pos) && Unpatched(base, dirty, lo, hi)[i] == BaseRecord(base, pos)
    ensures i == |Unpatched(base, dirty, lo, pos)|
    decreases hi - lo
  {
    hide BaseRecord;
    if BitAt(dirty, lo) {
      pos := UnpatchedHas(base, dirty, lo + 1, hi, i);
    } else if i == 0 {
      pos := lo;
    } else {
      pos := UnpatchedHas(base, dirty, lo + 1, hi, i - 1);
    }
  }

  lemma {:induction false} UnpatchedHolds(base: PackView, dirty: seq<byte>, lo: nat, hi: nat, pos: nat)
    requires base.Sized() && hi <= base.item <= 8 * |dirty| && lo <= pos < hi && !BitAt(dirty, pos)
    ensures BaseRecord(base, pos) in Unpatched(base, dirty, lo, hi)
    decreases hi - lo
  {
    hide BaseRecord, BitAt;
    UnpatchedStep(base, dirty, lo, hi);
    hide Unpatched, PackView.Sized;
    if lo < pos {
      UnpatchedHolds(base, dirty, lo + 1, hi, pos);
    }
  }

  // ---- Readers ----------------------------------------------------------------------------------

  /** A replayable source of records. */
  class ListReader {
    const records: seq<Record>
    var at: nat

    constructor (records: seq<Record>)
      ensures this.records == records && at == 0
    {
      this.records := records;
      at := 0;
    }

    method Reset()
      modifies this
      ensures at == 0
    {
      at := 0;
    }

    method Total() returns (n: nat)
      ensures n == |records|
    {
      n := |records|;
    }

    /** Delivers the next record, or only its key. */
    method Read(keyOnly: bool) returns (rec: Record)
      requires at < |records|
      modifies this
      ensures at == old(at) + 1 && rec.key == records[old(at)].key
      ensures !keyOnly ==> rec == records[old(at)]
    {
      rec := records[at];
      if keyOnly {
        rec := rec.(val := []);
      }
      at := at + 1;
    }
  }

  /** The unmarked lines of one shard of the base, followed by one patch. */
  class RebuildReader {
    const dirty: seq<byte>
    const begin: nat
    const end: nat
    const valid: nat
    const base: PackView
    const patch: ListReader
    var pos: nat

    ghost predicate Fits() {
      && base.Sized() && begin <= end <= base.item <= 8 * |dirty|
      && valid == |Unpatched(base, dirty, begin, end)|
    }

    ghost predicate Valid()
      reads this, patch
    {
      Fits() && begin <= pos <= end && patch.at <= |patch.records| && (pos < end ==> patch.at == 0)
    }

    /** Everything the reader delivers. */
    ghost function All(): seq<Record>
      requires Fits()
    {
      Unpatched(base, dirty, begin, end) + patch.records
    }

    /** What it has yet to deliver. */
    ghost function Rest(): seq<Record>
      requires Valid()
      reads this, patch
    {
      Unpatched(base, dirty, pos, end) + patch.records[patch.at..]
    }

    constructor (dirty: seq<byte>, begin: nat, end: nat, valid: nat, base: PackView, patch: ListReader)
      requires base.Sized() && begin <= end <= base.item <= 8 * |dirty|
      requires valid == |MultiHead.Interval(begin, end) - SetBits(dirty)|
      modifies patch
      ensures this.dirty == dirty && this.begin == begin && this.end == end && this.base == base && this.patch == patch
      ensures Valid() && Rest() == All()
    {
      this.dirty := dirty;
      this.begin := begin;
      this.end := end;
      this.valid := valid;
      this.base := base;
      this.patch := patch;
      this.pos := begin;
      new;
      UnpatchedCount(base, dirty, begin, end);
      patch.Reset();
    }

    method Reset()
      requires Valid()
      modifies this, patch
      ensures Valid() && Rest() == All()
    {
      pos := begin;
      patch.Reset();
    }

    method Total() returns (n: nat)
      requires Valid()
      ensures n == |All()|
    {
      var more := patch.Total();
      n := valid + more;
    }

    /** Delivers the next record: the remaining unmarked lines first, then the patch. */
    method Read(keyOnly: bool) returns (rec: Record)
      requires Valid() && Rest() != []
      modifies this, patch
      ensures Valid() && Rest() == old(Rest())[1..]
      ensures rec.key == old(Rest())[0].key && (!keyOnly ==> rec == old(Rest())[0])
    {
      hide BaseRecord, Unpatched, BitAt;
      ghost var rest := Rest();
      while pos < end
        invariant Valid() && Rest() == rest
        invariant pos < end || patch.at == old(patch.at)
        decreases end - pos
      {
        UnpatchedStep(base, dirty, pos, end);
        if BitAt(dirty, pos) {
          pos := pos + 1;
        } else {
          rec := BaseRecord(base, pos);
          if keyOnly {
            rec := rec.(val := []);
          }
          pos := pos + 1;
          assert Rest() == rest[1..];
          return;
        }
      }
      UnpatchedStep(base, dirty, pos, end);
      rec := patch.Read(keyOnly);
    }
  }

  /** A consumer that reads a reader `Total()` times gets everything, once and in order. */
  method ReadAll(reader: RebuildReader, keyOnly: bool) returns (records: seq<Record>)
    requires reader.Valid()
    modifies reader, reader.patch
    ensures reader.Valid() && |records| == |reader.All()|
    ensures forall i :: 0 <= i < |records| ==> records[i].key == reader.All()[i].key
    ensures !keyOnly ==> records == reader.All()
  {
    hide Unpatched;
    reader.Reset();
    var n := reader.Total();
    records := [];
    while |records| < n
      invariant reader.Valid() && |records| <= n == |reader.All()|
      invariant reader.Rest() == reader.All()[|records|..]
      invariant forall i :: 0 <= i < |records| ==> records[i].key == reader.All()[i].key
      invariant !keyOnly ==> forall i :: 0 <= i < |records| ==> records[i] == reader.All()[i]
    {
      var rec := reader.Read(keyOnly);
      records := records + [rec];
    }
  }

  // ---- Preparing the readers --------------------------------------------------------------------

  /** The first record whose key has the wrong length. */
  function FirstBad(base: PackView, records: seq<Record>, from: nat): (i: nat)
    requires from <= |records|
    ensures from <= i <= |records| && (i < |records| ==> |records[i].key| != base.keyLen)
    ensures forall k :: from <= k < i ==> |records[k].key| == base.keyLen
    decreases |records| - from
  {
    if from == |records| || |records[from].key| != base.keyLen then from else FirstBad(base, records, from + 1)
  }

  /** How many keys are looked up: windows are read whole, so one with a bad key is not looked up at all. */
  function LookedUp(base: PackView, records: seq<Record>): (n: nat)
    ensures n <= FirstBad(base, records, 0)
  {
    var bad := FirstBad(base, records, 0);
    if bad == |records| then bad else bad / WINDOW_SIZE * WINDOW_SIZE
  }

  ghost predicate KeysInRange(base: PackView, records: seq<Record>, h: Hashing) {
    forall i :: 0 <= i < |records| ==> base.InRange(records[i].key, h)
  }

  function SourceOf(base: PackView, records: seq<Record>, h: Hashing): (source: Source)
    requires base.Sized() && KeysInRange(base, records, h)
    ensures |source.found| == LookedUp(base, records) && (source.bad <==> FirstBad(base, records, 0) < |records|)
    ensures forall i :: 0 <= i < |source.found| ==> source.found[i] == base.FindLine(records[i].key, h)
  {
    Source(seq(LookedUp(base, records), i requires 0 <= i < LookedUp(base, records) => base.FindLine(records[i].key, h)),
           FirstBad(base, records, 0) < |records|)
  }

  function JobOf(base: PackView, patches: seq<seq<Record>>, h: Hashing): (job: Job)
    requires base.Sized() && forall t :: 0 <= t < |patches| ==> KeysInRange(base, patches[t], h)
    ensures job.item == base.item && |job.sources| == |patches|
    ensures forall t :: 0 <= t < |patches| ==> job.sources[t] == SourceOf(base, patches[t], h)
    ensures patches != [] ==> job.Valid()
  {
    Job(base.item, seq(|patches|, t requires 0 <= t < |patches| => SourceOf(base, patches[t], h)))
  }

  function PatchesOf(readers: seq<ListReader>): (patches: seq<seq<Record>>)
    ensures |patches| == |readers| && forall t :: 0 <= t < |readers| ==> patches[t] == readers[t].records
  {
    seq(|readers|, t requires 0 <= t < |readers| => readers[t].records)
  }

  /** The bitmap and counts as the joined threads of a run leave them. */
  ghost predicate LeftByRun(job: Job, run: seq<State>, joined: State) {
    Run(job, run) && joined == run[|run| - 1] && Joined(job, joined)
  }

  /** Marks the lines of all patches: in one pass, or by the threads that left `joined`. */
  method MarkLines(job: Job, joined: State, ghost run: seq<State>)
    returns (ok: bool, dirty: seq<byte>, valid: seq<nat>)
    requires job.Valid() && (|job.sources| > 1 ==> LeftByRun(job, run, joined))
    ensures ok <==> !job.SomeBad() && !job.Collides()
    ensures ok ==> |dirty| == (job.item + 7) / 8 && SetBits(dirty) == job.Hits() && |valid| == |job.sources|
    ensures ok ==> forall j :: 0 <= j < |valid| ==> valid[j] == |Unmarked(job, dirty, j)|
  {
    hide Job.SomeBad, Job.Collides, SetBits, Unmarked, Job.Hits;
    if |job.sources| == 1 {
      var bitmap := new byte[(job.item + 7) / 8](_ => 0);
      var left: nat;
      ok, left := ClaimAlone(job, bitmap);
      dirty, valid := bitmap[..], [left];
    } else {
      EveryRunClaims(job, run);
      JoinedShape(job, joined);
      ok, dirty, valid := !joined.fail, joined.dirty, [];
      if ok {
        valid := seq(|joined.valid|, j requires 0 <= j < |joined.valid| => joined.valid[j] as nat);
      }
    }
  }

  /** Opens a reader for every shard. */
  method OpenReaders(base: PackView, readers: seq<ListReader>, job: Job, dirty: seq<byte>, valid: seq<nat>)
    returns (out: seq<RebuildReader>)
    requires base.Sized() && job.item == base.item && |job.sources| == |readers| > 0
    requires forall t, v :: 0 <= t < v < |readers| ==> readers[t] != readers[v]
    requires |dirty| == (job.item + 7) / 8 && |valid| == |readers|
    requires forall j :: 0 <= j < |readers| ==> valid[j] == |Unmarked(job, dirty, j)|
    modifies readers
    ensures |out| == |readers|
    ensures forall t :: 0 <= t < |out| ==> Opened(base, readers, job, dirty, out[t], t) && out[t].patch == readers[t]
    ensures forall t :: 0 <= t < |out| ==> out[t].Valid() && out[t].Rest() == out[t].All()
    ensures forall t, v :: 0 <= t < v < |out| ==> out[t] != out[v]
  {
    hide SetBits, Unmarked, Job.Hits, MultiHead.Interval, Unpatched, Job.ShardBegin;
    out := [];
    for i := 0 to |readers|
      invariant |out| == i
      invariant forall t :: 0 <= t < i ==> Opened(base, readers, job, dirty, out[t], t) && fresh(out[t])
      invariant forall t :: 0 <= t < i ==> out[t].Valid() && out[t].Rest() == out[t].All()
      invariant forall t, v :: 0 <= t < v < i ==> out[t] != out[v]
    {
      ShardInside(job, i);
      UnmarkedIs(job, dirty, i);
      var reader := new RebuildReader(dirty, job.ShardBegin(i), job.ShardBegin(i + 1), valid[i], base, readers[i]);
      out := out + [reader];
    }
  }

  /** Reader `t` delivers the unmarked lines of shard `t` and then patch `t`. */
  ghost predicate Opened(base: PackView, readers: seq<ListReader>, job: Job, dirty: seq<byte>, out: RebuildReader, t: nat) {
    && t < |readers| && job.sources != [] && out.base == base && out.patch == readers[t] && out.dirty == dirty
    && out.begin == job.ShardBegin(t) && out.end == job.ShardBegin(t + 1)
  }

  /** The readers of a rebuild: nothing if a key is bad or two keys hit the same line; otherwise one per shard,
      each with its patch, under marks that are exactly the lines hit. With several patches the marking is
      concurrent: `joined` is the state the threads left, in any interleaving `run`. */
  method PrepareForRebuild(base: PackView, readers: seq<ListReader>, h: Hashing, joined: State, ghost run: seq<State>)
    returns (out: seq<RebuildReader>, ghost dirty: seq<byte>)
    requires base.Sized() && forall t :: 0 <= t < |readers| ==> KeysInRange(base, readers[t].records, h)
    requires forall t, v :: 0 <= t < v < |readers| ==> readers[t] != readers[v]
    requires |readers| > 1 ==> LeftByRun(JobOf(base, PatchesOf(readers), h), run, joined)
    modifies readers
    ensures var job := JobOf(base, PatchesOf(readers), h);
            && (out != [] <==> base.kind != IndexOnly && 0 < |readers| <= 256 && |readers| <= base.item
                               && !job.SomeBad() && !job.Collides())
            && (forall t, v :: 0 <= t < v < |out| ==> out[t] != out[v])
            && (out != [] ==> |out| == |readers| && |dirty| == (base.item + 7) / 8 && SetBits(dirty) == job.Hits())
            && forall t :: 0 <= t < |out| ==> Opened(base, readers, job, dirty, out[t], t) && out[t].patch == readers[t]
    ensures forall t :: 0 <= t < |out| ==> out[t].Valid() && out[t].Rest() == out[t].All()
  {
    hide Job.SomeBad, Job.Collides, SetBits, Unmarked, Job.Hits, SourceOf, Unpatched, LeftByRun, Job.Valid, Opened;
    hide KeysInRange, PackView.Sized;
    out, dirty := [], [];
    if base.kind == IndexOnly || readers == [] || |readers| > MAX_SEGMENT || base.item < |readers| {
      return;
    }
    var job := JobOf(base, PatchesOf(readers), h);
    var ok, marks, valid := MarkLines(job, joined, run);
    if ok {
      dirty := marks;
      out := OpenReaders(base, readers, job, marks, valid);
    }
  }

  lemma UnmarkedIs(job: Job, dirty: seq<byte>, j: nat)
    requires job.sources != []
    ensures job.ShardBegin(j) <= job.ShardBegin(j + 1)
    ensures Unmarked(job, dirty, j) == MultiHead.Interval(job.ShardBegin(j), job.ShardBegin(j + 1)) - SetBits(dirty)
  {
    ShardSize(job, j);
  }

  lemma JoinedShape(job: Job, s: State)
    requires Joined(job, s)
    ensures |s.dirty| == (job.item + 7) / 8
  {
  }

  lemma ShardInside(job: Job, i: nat)
    requires i < |job.sources|
    ensures job.ShardBegin(i) <= job.ShardBegin(i + 1) <= job.item
  {
    MultiHead.CutMonotone(job.item, |job.sources|, i, i + 1);
    MultiHead.CutMonotone(job.item, |job.sources|, i + 1, |job.sources|);
    MultiHead.CutEnds(job.item, |job.sources|);
  }

  // ---- What the readers deliver together --------------------------------------------------------

  function AllPatches(patches: seq<seq<Record>>, n: nat): seq<Record>
    requires n <= |patches|
  {
    if n == 0 then [] else AllPatches(patches, n - 1) + patches[n - 1]
  }

  /** The records of the first `n` readers, one reader after the other. */
  ghost function Delivered(base: PackView, dirty: seq<byte>, patches: seq<seq<Record>>, n: nat): seq<Record>
    requires base.Sized() && base.item <= 8 * |dirty| && n <= |patches|
  {
    if n == 0 then [] else Delivered(base, dirty, patches, n - 1) + OneReader(base, dirty, patches, n - 1)
  }

  ghost function OneReader(base: PackView, dirty: seq<byte>, patches: seq<seq<Record>>, t: nat): seq<Record>
    requires base.Sized() && base.item <= 8 * |dirty| && t < |patches|
  {
    var lo, hi := MultiHead.Cut(base.item, |patches|, t), MultiHead.Cut(base.item, |patches|, t + 1);
    (if hi <= base.item then Unpatched(base, dirty, lo, hi) else []) + patches[t]
  }

  lemma CutInside(item: nat, n: nat, t: nat)
    requires t < n
    ensures MultiHead.Cut(item, n, t) <= MultiHead.Cut(item, n, t + 1) <= item
  {
    MultiHead.CutMonotone(item, n, t, t + 1);
    MultiHead.CutMonotone(item, n, t + 1, n);
    MultiHead.CutEnds(item, n);
  }

  /** Each unmarked line is delivered once, and each patch record once. */
  lemma {:induction false} DeliveredOnce(base: PackView, dirty: seq<byte>, patches: seq<seq<Record>>, n: nat)
    requires base.Sized() && base.item <= 8 * |dirty| && n <= |patches| && patches != []
    ensures MultiHead.Cut(base.item, |patches|, n) <= base.item
    ensures multiset(Delivered(base, dirty, patches, n)) ==
            multiset(Unpatched(base, dirty, 0, MultiHead.Cut(base.item, |patches|, n)) + AllPatches(patches, n))
  {
    hide Unpatched, MultiHead.Cut, PackView.Sized;
    MultiHead.CutEnds(base.item, |patches|);
    if n == 0 {
      assert Unpatched(base, dirty, 0, 0) == [] by {
        NothingUnpatched(base, dirty);
      }
    } else {
      CutInside(base.item, |patches|, n - 1);
      var mid, hi := MultiHead.Cut(base.item, |patches|, n - 1), MultiHead.Cut(base.item, |patches|, n);
      DeliveredOnce(base, dirty, patches, n - 1);
      UnpatchedJoin(base, dirty, 0, mid, hi);
      Shuffled(Delivered(base, dirty, patches, n - 1), Unpatched(base, dirty, 0, mid), AllPatches(patches, n - 1),
               Unpatched(base, dirty, mid, hi), patches[n - 1]);
    }
  }

  lemma NothingUnpatched(base: PackView, dirty: seq<byte>)
    requires base.Sized() && base.item <= 8 * |dirty|
    ensures Unpatched(base, dirty, 0, 0) == []
  {
  }

  lemma Shuffled<T>(all: seq<T>, u: seq<T>, p: seq<T>, v: seq<T>, q: seq<T>)
    requires multiset(all) == multiset(u + p)
    ensures multiset(all + (v + q)) == multiset((u + v) + (p + q))
  {
  }

  // ---- Base overridden by patch -----------------------------------------------------------------

  ghost predicate KeysDistinct(records: seq<Record>) {
    forall x, y :: 0 <= x < y < |records| ==> records[x].key != records[y].key
  }

  /** A well-built base of any kind with lines. */
  ghost predicate WellBuilt(base: PackView, olds: seq<Record>, h: Hashing) {
    && base.kind != IndexOnly
    && if base.kind == KvSeparated then StoresSeparated(base, olds, h) else Stores(base, olds, h)
  }

  /** The lines of a well-built base. */
  ghost function LinesFor(base: PackView, olds: seq<Record>): (lines: seq<Record>)
    ensures |lines| == |olds| && forall i :: 0 <= i < |olds| ==> lines[i].key == olds[i].key
  {
    if base.kind == KvSeparated then WithOffsets(olds) else olds
  }

  lemma LinesStored(base: PackView, olds: seq<Record>, h: Hashing)
    requires WellBuilt(base, olds, h)
    ensures Stores(base, LinesFor(base, olds), h) && base.Sized() && base.item == |olds|
  {
    hide Stream, TablePerfect, StoresAt, PackView.Sized;
    StoresSize(base, LinesFor(base, olds), h);
  }

  lemma StoresSize(base: PackView, lines: seq<Record>, h: Hashing)
    requires Stores(base, lines, h)
    ensures base.Sized() && base.item == |lines|
  {
  }

  lemma OldsDistinct(base: PackView, olds: seq<Record>, h: Hashing)
    requires WellBuilt(base, olds, h)
    ensures KeysDistinct(olds)
  {
    hide WellBuilt, Stores;
    LinesStored(base, olds, h);
    StoresDistinct(base, LinesFor(base, olds), h);
    var lines := LinesFor(base, olds);
    forall x, y | 0 <= x < y < |olds| ensures olds[x].key != olds[y].key {
      assert lines[x].key != lines[y].key;
    }
  }

  /** The record of line `pos` is the one stored there, value included. */
  lemma BaseRecordIs(base: PackView, olds: seq<Record>, h: Hashing, pos: nat) returns (i: nat)
    requires WellBuilt(base, olds, h) && base.Sized() && pos < base.item
    ensures i < |olds| && BaseRecord(base, pos) == olds[i]
    ensures base.InRange(olds[i].key, h) && base.FindLine(olds[i].key, h) == Some(pos)
  {
    hide PackView.CalcPos, PackView.InRange, PackView.Line, Stream, StoresAt;
    hide TablePerfect, SeparatedValueAt, PackView.Sized;
    LinesStored(base, olds, h);
    var lines := LinesFor(base, olds);
    i := EveryLineIsARecord(base, lines, h, pos);
    LineParts(base, lines[i], pos);
    if base.kind == KvSeparated {
      ValueRoundTrip(olds, i);
    }
  }

  /** Looking a stored key up finds a line with that key. */
  lemma FoundIsKey(base: PackView, olds: seq<Record>, h: Hashing, key: seq<byte>, pos: nat)
    requires WellBuilt(base, olds, h) && base.Sized() && base.InRange(key, h) && base.FindLine(key, h) == Some(pos)
    ensures pos < base.item && BaseRecord(base, pos).key == key
  {
    hide PackView.CalcPos, PackView.InRange, PackView.Line;
  }

  /** A stored key is found. */
  lemma StoredIsFound(base: PackView, olds: seq<Record>, h: Hashing, i: nat) returns (pos: nat)
    requires WellBuilt(base, olds, h) && base.Sized() && i < |olds|
    ensures base.InRange(olds[i].key, h) && base.FindLine(olds[i].key, h) == Some(pos) && pos < base.item
    ensures BaseRecord(base, pos) == olds[i]
  {
    hide PackView.CalcPos, PackView.InRange, PackView.Line, Stream, TablePerfect, BaseRecord;
    hide PackView.Sized, WellBuilt;
    LinesStored(base, olds, h);
    var lines := LinesFor(base, olds);
    assert StoresAt(base, lines[i], h);
    pos := base.CalcPos(lines[i].key, h);
    LineParts(base, lines[i], pos);
    var k := BaseRecordIs(base, olds, h, pos);
    OldsDistinct(base, olds, h);
    FoundIsKey(base, olds, h, olds[i].key, pos);
  }

  /** The marks of a rebuild: exactly the lines found for the keys of the patches. */
  ghost predicate Marks(base: PackView, dirty: seq<byte>, news: seq<Record>, h: Hashing)
    requires base.Sized() && KeysInRange(base, news, h)
  {
    && base.item <= 8 * |dirty|
    && forall pos :: 0 <= pos < base.item ==> (BitAt(dirty, pos) <==> FoundFor(base, news, h, pos))
  }

  ghost predicate FoundFor(base: PackView, news: seq<Record>, h: Hashing, pos: nat)
    requires base.Sized() && KeysInRange(base, news, h)
  {
    exists k :: 0 <= k < |news| && base.FindLine(news[k].key, h) == Some(pos)
  }

  /** An unmarked line holds an old record that no patch overrides. */
  lemma UnmarkedIsKept(base: PackView, olds: seq<Record>, news: seq<Record>, dirty: seq<byte>, h: Hashing, pos: nat)
    requires WellBuilt(base, olds, h) && base.Sized() && KeysInRange(base, news, h) && Marks(base, dirty, news, h)
    requires pos < base.item && !BitAt(dirty, pos)
    ensures BaseRecord(base, pos) in olds
    ensures forall k :: 0 <= k < |news| ==> news[k].key != BaseRecord(base, pos).key
  {
    hide PackView.FindLine, BaseRecord, WellBuilt, PackView.Sized, PackView.InRange, Stores;
    var i := BaseRecordIs(base, olds, h, pos);
    forall k | 0 <= k < |news| ensures news[k].key != olds[i].key {
      assert !FoundFor(base, news, h, pos);
    }
  }

  /** An old record that no patch overrides is on an unmarked line. */
  lemma KeptIsUnmarked(base: PackView, olds: seq<Record>, news: seq<Record>, dirty: seq<byte>, h: Hashing, i: nat)
    requires WellBuilt(base, olds, h) && base.Sized() && KeysInRange(base, news, h) && Marks(base, dirty, news, h)
    requires i < |olds| && forall k :: 0 <= k < |news| ==> news[k].key != olds[i].key
    ensures olds[i] in Unpatched(base, dirty, 0, base.item)
  {
    hide PackView.FindLine, BaseRecord, WellBuilt, PackView.Sized, PackView.InRange, Stores, Unpatched;
    var pos := StoredIsFound(base, olds, h, i);
    forall k | 0 <= k < |news| ensures base.FindLine(news[k].key, h) != Some(pos) {
      if base.FindLine(news[k].key, h) == Some(pos) {
        FoundIsKey(base, olds, h, news[k].key, pos);
      }
    }
    UnpatchedHolds(base, dirty, 0, base.item, pos);
  }

  /** The unmarked lines followed by the patch records: distinct keys, and the overridden map. */
  lemma OverrideDistinct(base: PackView, olds: seq<Record>, news: seq<Record>, dirty: seq<byte>, h: Hashing)
    requires WellBuilt(base, olds, h) && base.Sized() && KeysInRange(base, news, h) && Marks(base, dirty, news, h)
    requires KeysDistinct(news) && base.item <= 8 * |dirty|
    ensures KeysDistinct(Unpatched(base, dirty, 0, base.item) + news)
  {
    hide PackView.FindLine, BaseRecord, WellBuilt, PackView.Sized, PackView.InRange, Stores;
    hide Unpatched, Marks, KeysInRange;
    var kept := Unpatched(base, dirty, 0, base.item);
    var all := kept + news;
    forall x, y | 0 <= x < y < |all| ensures all[x].key != all[y].key {
      if x < |kept| {
        var p := UnpatchedHas(base, dirty, 0, base.item, x);
        if y < |kept| {
          var q := UnpatchedHas(base, dirty, 0, base.item, y);
          var i := BaseRecordIs(base, olds, h, p);
          var j := BaseRecordIs(base, olds, h, q);
        } else {
          UnmarkedIsKept(base, olds, news, dirty, h, p);
        }
      }
    }
  }

  lemma KeyOfContents(records: seq<Record>, key: seq<byte>) returns (i: nat)
    requires key in Contents(records)
    ensures i < |records| && records[i].key == key
  {
    if forall i :: 0 <= i < |records| ==> records[i].key != key {
      ContentsOnly(records, key);
    }
    i :| 0 <= i < |records| && records[i].key == key;
  }

  /** A list of records with distinct keys that agrees with a map and covers it has that map as contents. */
  lemma ContentsAre(records: seq<Record>, m: map<seq<byte>, seq<byte>>)
    requires KeysDistinct(records)
    requires forall i :: 0 <= i < |records| ==> records[i].key in m && m[records[i].key] == records[i].val
    requires forall key :: key in m ==> exists i :: 0 <= i < |records| && records[i].key == key
    ensures Contents(records) == m
  {
    forall key ensures key in m <==> key in Contents(records)
               ensures key in m ==> Contents(records)[key] == m[key] {
      if key in m {
        var i :| 0 <= i < |records| && records[i].key == key;
        ContentsOf(records, i);
      }
      if key in Contents(records) {
        var i := KeyOfContents(records, key);
      }
    }
  }

  lemma OverrideContents(base: PackView, olds: seq<Record>, news: seq<Record>, dirty: seq<byte>, h: Hashing)
    requires WellBuilt(base, olds, h) && base.Sized() && KeysInRange(base, news, h) && Marks(base, dirty, news, h)
    requires KeysDistinct(news) && base.item <= 8 * |dirty|
    ensures Contents(Unpatched(base, dirty, 0, base.item) + news) == Contents(olds) + Contents(news)
  {
    hide PackView.FindLine, BaseRecord, WellBuilt, PackView.Sized, PackView.InRange, Stores;
    hide Unpatched, Marks, KeysInRange;
    hide Contents;
    var kept := Unpatched(base, dirty, 0, base.item);
    var all, m := kept + news, Contents(olds) + Contents(news);
    OverrideDistinct(base, olds, news, dirty, h);
    OldsDistinct(base, olds, h);
    forall x | 0 <= x < |all| ensures all[x].key in m && m[all[x].key] == all[x].val {
      if x < |kept| {
        var p := UnpatchedHas(base, dirty, 0, base.item, x);
        UnmarkedIsKept(base, olds, news, dirty, h, p);
        var i :| 0 <= i < |olds| && olds[i] == BaseRecord(base, p);
        ContentsOf(olds, i);
        ContentsOnly(news, all[x].key);
      } else {
        ContentsOf(news, x - |kept|);
      }
    }
    forall key | key in m ensures exists i :: 0 <= i < |all| && all[i].key == key {
      if key in Contents(news) {
        var k := KeyOfContents(news, key);
        assert all[|kept| + k].key == key;
      } else {
        var i := KeyOfContents(olds, key);
        forall k | 0 <= k < |news| ensures news[k].key != key {
          ContentsOf(news, k);
        }
        KeptIsUnmarked(base, olds, news, dirty, h, i);
        var x :| 0 <= x < |kept| && kept[x] == olds[i];
        assert all[x].key == key;
      }
    }
    ContentsAre(all, m);
  }

  // ---- The order of delivery does not matter ----------------------------------------------------

  lemma TwoPlaces(records: seq<Record>, x: nat, y: nat)
    requires x < y < |records| && records[x] == records[y]
    ensures multiset(records)[records[x]] >= 2
  {
    var rest := records[..y] + records[y + 1..];
    assert records == records[..y] + [records[y]] + records[y + 1..];
    assert multiset(records) == multiset(rest) + multiset{records[y]};
    assert rest[x] == records[x];
  }

  lemma {:induction false} OncePlace(records: seq<Record>, rec: Record)
    requires KeysDistinct(records)
    ensures multiset(records)[rec] <= 1
  {
    if records != [] {
      var m := |records| - 1;
      assert records == records[..m] + [records[m]];
      OncePlace(records[..m], rec);
      if rec == records[m] {
        assert rec !in records[..m];
      }
    }
  }

  lemma DistinctPermuted(a: seq<Record>, b: seq<Record>)
    requires multiset(a) == multiset(b) && KeysDistinct(a)
    ensures KeysDistinct(b)
  {
    forall x, y | 0 <= x < y < |b| ensures b[x].key != b[y].key {
      OncePlace(a, b[x]);
      if b[x] == b[y] {
        TwoPlaces(b, x, y);
      } else {
        assert b[x] in multiset(b) && b[y] in multiset(b);
        assert b[x] in a && b[y] in a;
      }
    }
  }

  lemma ContentsPermuted(a: seq<Record>, b: seq<Record>)
    requires multiset(a) == multiset(b) && KeysDistinct(a)
    ensures KeysDistinct(b) && Contents(b) == Contents(a)
  {
    hide Contents;
    DistinctPermuted(a, b);
    forall x | 0 <= x < |b| ensures b[x].key in Contents(a) && Contents(a)[b[x].key] == b[x].val {
      assert b[x] in multiset(b);
      assert b[x] in a;
      var i :| 0 <= i < |a| && a[i] == b[x];
      ContentsOf(a, i);
    }
    forall key | key in Contents(a) ensures exists i :: 0 <= i < |b| && b[i].key == key {
      var k := KeyOfContents(a, key);
      assert a[k] in multiset(a);
      assert a[k] in b;
    }
    ContentsAre(b, Contents(a));
  }

  /** A rebuild is map override: with distinct patch keys, the readers together deliver records with distinct
      keys whose map is the base map overridden by the patch map. */
  lemma RebuildIsOverride(base: PackView, olds: seq<Record>, patches: seq<seq<Record>>, dirty: seq<byte>, h: Hashing)
    requires WellBuilt(base, olds, h) && base.Sized() && patches != []
    requires KeysInRange(base, AllPatches(patches, |patches|), h) && KeysDistinct(AllPatches(patches, |patches|))
    requires Marks(base, dirty, AllPatches(patches, |patches|), h) && base.item <= 8 * |dirty|
    ensures KeysDistinct(Delivered(base, dirty, patches, |patches|))
    ensures Contents(Delivered(base, dirty, patches, |patches|))
            == Contents(olds) + Contents(AllPatches(patches, |patches|))
  {
    hide WellBuilt, PackView.Sized, KeysInRange, Marks, Delivered, Unpatched, Contents, KeysDistinct;
    var news := AllPatches(patches, |patches|);
    DeliveredOnce(base, dirty, patches, |patches|);
    MultiHead.CutEnds(base.item, |patches|);
    OverrideDistinct(base, olds, news, dirty, h);
    OverrideContents(base, olds, news, dirty, h);
    ContentsPermuted(Unpatched(base, dirty, 0, base.item) + news, Delivered(base, dirty, patches, |patches|));
  }

  // ---- From the keys of the patches to the marks ------------------------------------------------

  lemma {:induction false} AllPatchesAt(patches: seq<seq<Record>>, n: nat, t: nat, i: nat)
    requires t < n <= |patches| && i < |patches[t]|
    ensures |AllPatches(patches, t)| + i < |AllPatches(patches, n)|
    ensures AllPatches(patches, n)[|AllPatches(patches, t)| + i] == patches[t][i]
    decreases n
  {
    if t < n - 1 {
      AllPatchesAt(patches, n - 1, t, i);
    }
  }

  lemma {:induction false} AllPatchesHas(patches: seq<seq<Record>>, n: nat, x: nat) returns (t: nat, i: nat)
    requires n <= |patches| && x < |AllPatches(patches, n)|
    ensures t < n && i < |patches[t]| && patches[t][i] == AllPatches(patches, n)[x]
  {
    if x < |AllPatches(patches, n - 1)| {
      t, i := AllPatchesHas(patches, n - 1, x);
    } else {
      t, i := n - 1, x - |AllPatches(patches, n - 1)|;
    }
  }

  /** The stretches of different patches do not overlap. */
  lemma {:induction false} AllPatchesLength(patches: seq<seq<Record>>, t: nat, v: nat)
    requires t < v <= |patches|
    ensures |AllPatches(patches, t)| + |patches[t]| <= |AllPatches(patches, v)|
    decreases v
  {
    if t + 1 < v {
      AllPatchesLength(patches, t, v - 1);
    }
  }

  lemma DistinctAcross(patches: seq<seq<Record>>, t: nat, i: nat, v: nat, k: nat)
    requires KeysDistinct(AllPatches(patches, |patches|))
    requires t < |patches| && v < |patches| && i < |patches[t]| && k < |patches[v]|
    requires patches[t][i].key == patches[v][k].key
    ensures t == v && i == k
  {
    hide AllPatches;
    AllPatchesAt(patches, |patches|, t, i);
    AllPatchesAt(patches, |patches|, v, k);
    if t < v {
      AllPatchesLength(patches, t, v);
    } else if v < t {
      AllPatchesLength(patches, v, t);
    }
  }

  ghost predicate AllKeysFit(base: PackView, patches: seq<seq<Record>>, h: Hashing) {
    forall t :: 0 <= t < |patches| ==> KeysFit(base, patches[t], h)
  }

  /** Every key has the right length and is in range of the cells. */
  ghost predicate KeysFit(base: PackView, records: seq<Record>, h: Hashing) {
    KeysInRange(base, records, h) && forall i :: 0 <= i < |records| ==> |records[i].key| == base.keyLen
  }

  lemma SourceOfFit(base: PackView, records: seq<Record>, h: Hashing)
    requires base.Sized() && KeysFit(base, records, h)
    ensures !SourceOf(base, records, h).bad && |SourceOf(base, records, h).found| == |records|
  {
  }

  /** Different keys are found on different lines. */
  lemma SameLineSameKey(base: PackView, olds: seq<Record>, patches: seq<seq<Record>>, h: Hashing,
                        t: nat, i: nat, v: nat, k: nat)
    requires WellBuilt(base, olds, h) && base.Sized() && AllKeysFit(base, patches, h)
    requires forall t :: 0 <= t < |patches| ==> KeysInRange(base, patches[t], h)
    requires JobOf(base, patches, h).SameLine(t, i, v, k)
    ensures t < |patches| && v < |patches| && i < |patches[t]| && k < |patches[v]|
    ensures patches[t][i].key == patches[v][k].key
  {
    hide WellBuilt, PackView.Sized, PackView.InRange, PackView.FindLine, SourceOf, BaseRecord;
    SourceOfFit(base, patches[t], h);
    SourceOfFit(base, patches[v], h);
    var pos := JobOf(base, patches, h).sources[t].found[i].value;
    FoundIsKey(base, olds, h, patches[t][i].key, pos);
    FoundIsKey(base, olds, h, patches[v][k].key, pos);
  }

  /** On a well-built base the preparation succeeds for distinct keys of the right length. */
  lemma DistinctKeysNeverFail(base: PackView, olds: seq<Record>, patches: seq<seq<Record>>, h: Hashing)
    requires WellBuilt(base, olds, h) && base.Sized() && AllKeysFit(base, patches, h)
    requires forall t :: 0 <= t < |patches| ==> KeysInRange(base, patches[t], h)
    requires KeysDistinct(AllPatches(patches, |patches|))
    ensures !JobOf(base, patches, h).SomeBad() && !JobOf(base, patches, h).Collides()
  {
    hide WellBuilt, PackView.Sized, KeysInRange, KeysDistinct, AllPatches, SourceOf, Job.SameLine;
    var job := JobOf(base, patches, h);
    forall t | 0 <= t < |job.sources| ensures !job.sources[t].bad {
      SourceOfFit(base, patches[t], h);
    }
    forall t, i, v, k | job.SameLine(t, i, v, k) ensures t == v && i == k {
      SameLineSameKey(base, olds, patches, h, t, i, v, k);
      DistinctAcross(patches, t, i, v, k);
    }
  }

  /** The lines the readers hit are the lines found for the keys of all patches. */
  lemma HitsAreMarks(base: PackView, patches: seq<seq<Record>>, dirty: seq<byte>, h: Hashing)
    requires base.Sized() && patches != [] && AllKeysFit(base, patches, h) && base.item <= 8 * |dirty|
    requires forall t :: 0 <= t < |patches| ==> KeysInRange(base, patches[t], h)
    requires KeysInRange(base, AllPatches(patches, |patches|), h)
    requires SetBits(dirty) == JobOf(base, patches, h).Hits()
    ensures Marks(base, dirty, AllPatches(patches, |patches|), h)
  {
    hide PackView.Sized, PackView.InRange, PackView.FindLine, SourceOf, AllPatches;
    var job, news := JobOf(base, patches, h), AllPatches(patches, |patches|);
    forall pos | 0 <= pos < base.item ensures BitAt(dirty, pos) <==> FoundFor(base, news, h, pos) {
      assert BitAt(dirty, pos) <==> pos in job.Hits() by {
        assert pos in SetBits(dirty) <==> BitAt(dirty, pos);
      }
      if pos in job.Hits() {
        var t, i :| 0 <= t < |job.sources| && 0 <= i < |job.sources[t].found| && job.sources[t].found[i].Some?
                    && job.sources[t].found[i].value == pos;
        SourceOfFit(base, patches[t], h);
        AllPatchesAt(patches, |patches|, t, i);
      }
      if FoundFor(base, news, h, pos) {
        var x :| 0 <= x < |news| && base.FindLine(news[x].key, h) == Some(pos);
        var t, i := AllPatchesHas(patches, |patches|, x);
        SourceOfFit(base, patches[t], h);
        assert job.sources[t].found[i] == Some(pos);
      }
    }
  }

  lemma AllInRange(base: PackView, patches: seq<seq<Record>>, h: Hashing)
    requires AllKeysFit(base, patches, h)
    ensures forall t :: 0 <= t < |patches| ==> KeysInRange(base, patches[t], h)
    ensures KeysInRange(base, AllPatches(patches, |patches|), h)
  {
    hide PackView.InRange, AllPatches;
    var news := AllPatches(patches, |patches|);
    forall x | 0 <= x < |news| ensures base.InRange(news[x].key, h) {
      var t, i := AllPatchesHas(patches, |patches|, x);
      assert KeysFit(base, patches[t], h);
    }
  }

  /** What the opened readers deliver one after the other. */
  ghost function Together(out: seq<RebuildReader>, n: nat): seq<Record>
    requires n <= |out| && forall t :: 0 <= t < |out| ==> out[t].Fits()
  {
    if n == 0 then [] else Together(out, n - 1) + out[n - 1].All()
  }

  lemma {:induction false} TogetherIsDelivered(base: PackView, readers: seq<ListReader>, job: Job, dirty: seq<byte>,
                                               out: seq<RebuildReader>, n: nat)
    requires base.Sized() && base.item <= 8 * |dirty| && job.item == base.item && |job.sources| == |readers| == |out|
    requires n <= |out| && forall t :: 0 <= t < |out| ==> Opened(base, readers, job, dirty, out[t], t) && out[t].Fits()
    ensures Together(out, n) == Delivered(base, dirty, PatchesOf(readers), n)
  {
    hide MultiHead.Cut, Unpatched;
    if n > 0 {
      TogetherIsDelivered(base, readers, job, dirty, out, n - 1);
      CutInside(base.item, |readers|, n - 1);
      assert Opened(base, readers, job, dirty, out[n - 1], n - 1);
    }
  }

  /** Patches for a well-built base: separate readers, keys of the right length, no key twice. */
  ghost predicate Patchable(base: PackView, olds: seq<Record>, readers: seq<ListReader>, h: Hashing) {
    && base.Sized() && WellBuilt(base, olds, h) && base.kind != IndexOnly && 0 < |readers| <= 256 && |readers| <= base.item
    && AllKeysFit(base, PatchesOf(readers), h) && KeysDistinct(AllPatches(PatchesOf(readers), |readers|))
    && forall t, v :: 0 <= t < v < |readers| ==> readers[t] != readers[v]
  }

  ghost predicate JoinedAfter(base: PackView, readers: seq<ListReader>, h: Hashing, joined: State, run: seq<State>)
    requires base.Sized() && AllKeysFit(base, PatchesOf(readers), h)
  {
    AllInRange(base, PatchesOf(readers), h);
    |readers| > 1 ==> LeftByRun(JobOf(base, PatchesOf(readers), h), run, joined)
  }

  /** Together the readers deliver distinct keys, and the old map overridden by the patches. */
  ghost predicate Overridden(out: seq<RebuildReader>, olds: seq<Record>, readers: seq<ListReader>) {
    && (forall t :: 0 <= t < |out| ==> out[t].Fits())
    && KeysDistinct(Together(out, |out|))
    && Contents(Together(out, |out|)) == Contents(olds) + Contents(AllPatches(PatchesOf(readers), |readers|))
  }

  /** From patches with distinct keys to the overridden map: the readers exist, and together deliver it. */
  method RebuildReaders(base: PackView, readers: seq<ListReader>, h: Hashing, joined: State, ghost run: seq<State>,
                        ghost olds: seq<Record>)
    returns (out: seq<RebuildReader>)
    requires Patchable(base, olds, readers, h) && JoinedAfter(base, readers, h, joined, run)
    modifies readers
    ensures |out| == |readers| && Overridden(out, olds, readers)
    ensures forall t :: 0 <= t < |out| ==> out[t].Valid() && out[t].Rest() == out[t].All() && out[t].patch == readers[t]
    ensures forall t, v :: 0 <= t < v < |out| ==> out[t] != out[v]
  {
    hide WellBuilt, PackView.Sized, KeysInRange, KeysDistinct, AllPatches, SourceOf;
    hide LeftByRun, Job.SomeBad, Job.Collides;
    hide SetBits, Job.Hits, Opened, AllKeysFit, Contents, Together, Delivered, Unpatched, Marks;
    ghost var dirty;
    ghost var patches := PatchesOf(readers);
    AllInRange(base, patches, h);
    DistinctKeysNeverFail(base, olds, patches, h);
    out, dirty := PrepareForRebuild(base, readers, h, joined, run);
    HitsAreMarks(base, patches, dirty, h);
    RebuildIsOverride(base, olds, patches, dirty, h);
    TogetherIsDelivered(base, readers, JobOf(base, patches, h), dirty, out, |out|);
  }

  lemma {:induction false} TogetherUpTo(out: seq<RebuildReader>, parts: seq<seq<Record>>, n: nat)
    requires n <= |out| && n <= |parts| && forall t :: 0 <= t < |out| ==> out[t].Fits()
    requires forall t :: 0 <= t < n ==> parts[t] == out[t].All()
    ensures Together(out, n) == AllRecords(parts, n)
  {
    hide Unpatched, RebuildReader.All;
    if n > 0 {
      TogetherUpTo(out, parts, n - 1);
    }
  }

  /** Reads all readers of a rebuild. What is read is the old map overridden by the patches. */
  method ReadOverridden(out: seq<RebuildReader>, ghost olds: seq<Record>, ghost readers: seq<ListReader>)
    returns (parts: seq<seq<Record>>)
    requires Overridden(out, olds, readers) && |out| == |readers|
    requires forall t :: 0 <= t < |out| ==> out[t].Valid() && out[t].patch == readers[t]
    requires forall t, v :: 0 <= t < v < |out| ==> out[t] != out[v] && readers[t] != readers[v]
    modifies out, readers
    ensures |parts| == |out| && KeysDistinct(AllRecords(parts, |parts|))
    ensures Contents(AllRecords(parts, |parts|)) == Contents(olds) + Contents(AllPatches(PatchesOf(readers), |readers|))
  {
    hide Contents, AllPatches, AllRecords, Together, KeysDistinct, Unpatched, RebuildReader.All;
    parts := [];
    for i := 0 to |out|
      invariant |parts| == i && forall t :: 0 <= t < i ==> parts[t] == out[t].All()
      invariant forall t :: 0 <= t < |out| ==> out[t].Valid()
    {
      var records := ReadAll(out[i], false);
      parts := parts + [records];
    }
    TogetherUpTo(out, parts, |out|);
  }

  /** A pack built from what the readers deliver answers every key as the two-table lookup over base and
      patch does. */
  lemma RebuiltIsOverlay(base: PackView, patch: PackView, rebuilt: PackView, olds: seq<Record>, news: seq<Record>,
                         delivered: seq<Record>, key: seq<byte>, h: Hashing)
    requires Stores(base, olds, h) && Stores(patch, news, h) && Stores(rebuilt, delivered, h)
    requires Contents(delivered) == Contents(olds) + Contents(news)
    requires base.InRange(key, h) && patch.InRange(key, h) && rebuilt.InRange(key, h)
    ensures base.Sized() && patch.Sized() && rebuilt.Sized()
    ensures rebuilt.Search(key, h) == Overlay(base, patch, key, h)
  {
    hide PackView.Search, TablePerfect, StoresAt, Contents, Overlay, PackView.InRange;
    OverlayIsOverride(base, patch, olds, news, key, h);
    LookupIsMap(rebuilt, delivered, h, key);
  }
}
