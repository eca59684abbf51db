/** The whole way of a pack: from the records of the readers through the build, the index and the lines to the
    output, and back through the loader to the lookup. */
module Building {
  import opened Words
  import opened Ids
  import opened PackFormat
  import opened BucketSearch
  import opened SegmentBuild
  import opened TableBuild
  import opened Packs
  import opened Filling
  import opened SeparatedValues
  import opened PackLayout
  import opened Output
  import opened Rebuild
  import Ingest
  import MultiHead

  datatype BasicInfo = BasicInfo(kind: PackType, keyLen: byte, valLen: u16) {
    /** What the public builds pass for each kind of pack. */
    predicate Fits() {
      match kind
      case IndexOnly => keyLen == 0 && valLen == 0
      case KeySet => keyLen != 0 && valLen == 0
      case KvInline => keyLen != 0 && valLen != 0
      case KvSeparated => keyLen != 0 && valLen == OFFSET_FIELD_SIZE
    }
  }

  /** How many further tries a conflict, and any failure, is given. */
  datatype Retry = Retry(conflict: nat, total: nat)

  /** Lines longer than two ids and four bytes make extra memory for the ids cheap. */
  const EXTRA_LINE: nat := 12 * 2 + 4

  function KeysOfAll(readers: seq<seq<Record>>): (keys: seq<seq<seq<byte>>>)
    ensures |keys| == |readers| && forall t :: 0 <= t < |readers| ==> keys[t] == KeysOf(readers[t])
  {
    seq(|readers|, t requires 0 <= t < |readers| => KeysOf(readers[t]))
  }

  function JobFor(readers: seq<seq<Record>>, seed: u32, h: Hashing): Ingest.Job {
    Ingest.Job(KeysOfAll(readers), seed, h.gen)
  }

  lemma {:induction false} KeysOfRecords(readers: seq<seq<Record>>, n: nat)
    requires n <= |readers|
    ensures Ingest.AllKeys(KeysOfAll(readers), n) == KeysOf(AllRecords(readers, n))
  {
    if n > 0 {
      KeysOfRecords(readers, n - 1);
    }
  }

  lemma IdsOfRecords(readers: seq<seq<Record>>, seed: u32, h: Hashing)
    ensures JobFor(readers, seed, h).All() == IdsOf(AllRecords(readers, |readers|), seed, h.gen)
    ensures |JobFor(readers, seed, h).All()| == |AllRecords(readers, |readers|)|
  {
    KeysOfRecords(readers, |readers|);
  }

  /** What the threads of each attempt have left, in any interleavings. */
  datatype Threads = Threads(counted: Ingest.State, scattered: seq<Id>)

  ghost predicate AttemptRuns(job: Ingest.Job, extra: bool, left: Threads, run: seq<Ingest.State>,
                              scatter: seq<MultiHead.State>) {
    && Ingest.IdsInRange(job)
    && (Ingest.Several(job) ==> Ingest.CountedBy(job, run, left.counted))
    && Ingest.ScatteredBy(job, extra, scatter, left.scattered)
  }

  /** The ids cannot be cut into segments of a size the format knows. */
  ghost predicate TooBig(job: Ingest.Job) {
    job.readers != [] &&
    if Ingest.Several(job) then exists p :: 0 <= p < |job.readers| && Ingest.BadSegment(job, p)
    else |job.All()| >= 0x1_0000_0000
  }

  /** Why an attempt ended as it did. */
  ghost predicate AttemptExplained(job: Ingest.Job, l2: L2Hash, status: BuildStatus) {
    job.readers != [] &&
    if Ingest.Several(job) then Outcome(Ingest.ConfigFor(job.All(), |job.readers|), l2, status)
    else Explained(status, job.All(), l2)
  }

  /** Exactly how an attempt ends in bad input, and otherwise why it ends as it does. */
  ghost predicate AttemptEnds(job: Ingest.Job, l2: L2Hash, status: BuildStatus) {
    && (status == BadInput <==> job.SomeBad() || TooBig(job))
    && (status != BadInput ==> AttemptExplained(job, l2, status))
  }

  /** How many of the first `n` attempts ended in a conflict. */
  ghost function Conflicts(history: seq<BuildStatus>, n: nat): nat
    requires n <= |history|
  {
    multiset(history[..n])[Conflict]
  }

  lemma ConflictsNext(history: seq<BuildStatus>, status: BuildStatus)
    ensures Conflicts(history + [status], |history| + 1)
            == Conflicts(history, |history|) + if status == Conflict then 1 else 0
    ensures forall n :: 0 <= n <= |history| ==> Conflicts(history + [status], n) == Conflicts(history, n)
  {
    var more := history + [status];
    assert more[..|history| + 1] == more && history[..|history|] == history;
    forall n | 0 <= n <= |history| ensures Conflicts(more, n) == Conflicts(history, n) {
      assert more[..n] == history[..n];
    }
  }

  /** The attempts made: each under its own seed, each but the last a failure with a retry of both kinds left. */
  ghost predicate Tried(readers: seq<seq<Record>>, h: Hashing, retry: Retry, seeds: nat -> u32, history: seq<BuildStatus>) {
    && |history| <= retry.total + 1
    && (forall i :: 0 <= i < |history| ==> AttemptEnds(JobFor(readers, seeds(i), h), h.l2, history[i]))
    && forall i :: 0 <= i < |history| - 1 ==>
         history[i] == OutOfChance || (history[i] == Conflict && Conflicts(history, i + 1) <= retry.conflict)
  }

  /** The attempts, one per seed, until one succeeds or the retries are used up: conflicts count for both limits, a
      lack of chances only for the total. */
  method BuildAttempts(readers: seq<seq<Record>>, h: Hashing, extra: bool, retry: Retry, seeds: nat -> u32,
                       left: nat -> Threads, ghost runs: nat -> seq<Ingest.State>,
                       ghost scatters: nat -> seq<MultiHead.State>)
    returns (status: BuildStatus, seed: u32, table: Table, ghost history: seq<BuildStatus>)
    requires 0 < |readers| <= MAX_SEGMENT
    requires forall a :: 0 <= a <= retry.total ==>
               AttemptRuns(JobFor(readers, seeds(a), h), extra, left(a), runs(a), scatters(a))
    ensures history != [] && Tried(readers, h, retry, seeds, history)
    ensures status == history[|history| - 1] && seed == seeds(|history| - 1)
    ensures status in {Ok, BadInput, Conflict, OutOfChance}
    ensures status == OutOfChance ==> |history| == retry.total + 1
    ensures status == Conflict ==> |history| == retry.total + 1 || Conflicts(history, |history|) == retry.conflict + 1
    ensures status == Ok ==>
              var all := AllRecords(readers, |readers|);
              TablePerfect(table, IdsOf(all, seed, h.gen), h.l2) && Complete(table, |all|)
  {
    hide Ingest.IdsInRange, Ingest.CountedBy, Ingest.ScatteredBy, TablePerfect, Complete, Outcome, Explained;
    hide Ingest.Job.SomeBad, Ingest.BadSegment, Ingest.ConfigFor, AttemptEnds, Conflicts;
    var conflict, total: nat := retry.conflict, retry.total;
    history := [];
    assert Conflicts(history, 0) == 0 by {
      NoConflicts();
    }
    while true
      invariant |history| + total == retry.total && Tried(readers, h, retry, seeds, history)
      invariant Conflicts(history, |history|) + conflict == retry.conflict
      invariant forall i :: 0 <= i < |history| ==>
                  history[i] == OutOfChance || (history[i] == Conflict && Conflicts(history, i + 1) <= retry.conflict)
      decreases total
    {
      seed := seeds(retry.total - total);
      var job := JobFor(readers, seed, h);
      assert AttemptRuns(job, extra, left(|history|), runs(|history|), scatters(|history|));
      IdsOfRecords(readers, seed, h);
      status, table := Ingest.BuildAll(job, extra, h.l2, left(retry.total - total).counted, runs(|history|),
                                       left(retry.total - total).scattered, scatters(|history|));
      assert AttemptEnds(job, h.l2, status) by {
        EndsAs(job, h.l2, status);
      }
      ConflictsNext(history, status);
      history := history + [status];
      if status == Ok || status == BadInput {
        return;
      }
      if status == Conflict {
        if conflict == 0 {
          return;
        }
        conflict := conflict - 1;
      }
      if total == 0 {
        return;
      }
      total := total - 1;
    }
  }

  lemma NoConflicts()
    ensures Conflicts([], 0) == 0
  {
  }

  lemma EndsAs(job: Ingest.Job, l2: L2Hash, status: BuildStatus)
    requires status == BadInput <==> job.SomeBad() || TooBig(job)
    requires status != BadInput ==> AttemptExplained(job, l2, status)
    ensures AttemptEnds(job, l2, status)
  {
  }

  // ---- Writing the pack -------------------------------------------------------------------------

  /** A pack that was built from the records: a set stores the keys, the other kinds with lines whole records. */
  ghost predicate Built(pack: PackView, all: seq<Record>, h: Hashing) {
    && pack.item == |all| && Complete(pack.table, |all|)
    && TablePerfect(pack.table, IdsOf(all, pack.seed, h.gen), h.l2)
    && match pack.kind
       case IndexOnly => pack.keyLen == 0 && pack.valLen == 0 && pack.content == [] && pack.extend == []
       case KeySet => pack.keyLen > 0 && pack.valLen == 0 && pack.extend == [] && Stores(pack, BareKeys(all), h)
       case KvInline => pack.keyLen > 0 && pack.valLen > 0 && pack.extend == [] && Stores(pack, all, h)
       case KvSeparated => pack.keyLen > 0 && pack.valLen == 6 && StoresSeparated(pack, all, h)
  }

  /** What the threads that fill inline lines have left, whatever table they worked with. */
  ghost predicate FillRuns(readers: seq<seq<Record>>, h: Hashing, written: PackView -> seq<byte>,
                           order: PackView -> seq<nat>) {
    forall pack: PackView :: FillNeeded(pack, readers, h) ==>
      StoredBy(pack, AllRecords(readers, |readers|), h, order(pack), written(pack))
  }

  ghost predicate FillNeeded(pack: PackView, readers: seq<seq<Record>>, h: Hashing) {
    var all := AllRecords(readers, |readers|);
    && Parallel(readers) && pack.keyLen > 0 && pack.item == |all| && WellShapedUpTo(pack, all, |all|)
    && TablePerfect(pack.table, IdsOf(all, pack.seed, h.gen), h.l2)
  }

  /** The index of a pack, before lines and values. */
  function IndexView(info: BasicInfo, seed: u32, item: nat, table: Table): PackView {
    PackView(info.kind, info.keyLen, info.valLen, seed, item, table, [], [])
  }

  /** The records are such that the pack can hold them: keys of its length, values of its length or, separated, of up
      to 35 bits of length at offsets of up to 48 bits. */
  ghost predicate Fillable(pack: PackView, all: seq<Record>) {
    match pack.kind
    case IndexOnly => true
    case KeySet => forall i :: 0 <= i < |all| ==> |all[i].key| == pack.keyLen
    case KvInline => forall i :: 0 <= i < |all| ==> |all[i].key| == pack.keyLen && |all[i].val| == pack.valLen
    case KvSeparated =>
      forall i :: 0 <= i < |all| ==>
        && |all[i].key| == pack.keyLen && |all[i].val| < 0x8_0000_0000
        && |Stream(all, i)| < 0x1_0000_0000_0000
  }

  lemma FillableIs(pack: PackView, all: seq<Record>)
    ensures pack.kind.KvSeparated? ==> (Fillable(pack, all) <==> AcceptableUpTo(pack, all, |all|))
    ensures pack.kind in {KeySet, KvInline} && (pack.kind.KeySet? <==> pack.valLen == 0) ==>
              (Fillable(pack, all) <==> forall i :: 0 <= i < |all| ==>
                 |all[i].key| == pack.keyLen && (pack.valLen == 0 || |all[i].val| == pack.valLen))
  {
    hide Stream;
    if pack.kind.KvSeparated? {
      assert forall i :: 0 <= i < |all| ==>
        (Acceptable(pack, all, i) <==> |all[i].key| == pack.keyLen && |all[i].val| < 0x8_0000_0000
                                       && |Stream(all, i)| < 0x1_0000_0000_0000);
    }
  }

  /** Writes the lines and the values of a pack, whatever its kind. If the records fit, only the output can fail;
      if they do not, the first that does not decides. */
  method Fill(pack: PackView, readers: seq<seq<Record>>, w: Writer, h: Hashing, written: PackView -> seq<byte>,
              ghost order: PackView -> seq<nat>, ghost info: BasicInfo)
    returns (status: BuildStatus, ghost full: PackView)
    requires var all := AllRecords(readers, |readers|);
             && pack == IndexView(info, pack.seed, |all|, pack.table) && info.Fits()
             && Complete(pack.table, |all|) && TablePerfect(pack.table, IdsOf(all, pack.seed, h.gen), h.l2)
    requires FillRuns(readers, h, written, order)
    modifies w
    ensures status == Ok ==>
              && Built(full, AllRecords(readers, |readers|), h)
              && w.out == old(w.out) + (full.content + full.extend)
    ensures full == pack.(content := full.content, extend := full.extend)
    ensures status in {Ok, BadInput, FailToOutput} && w.calls >= old(w.calls)
    ensures var all := AllRecords(readers, |readers|);
            if Fillable(pack, all) then
              if status == Ok then w.Clean(old(w.calls)) else status == FailToOutput && w.GaveUp(old(w.calls))
            else if pack.kind.KvSeparated? then status != Ok && Rejected(pack, all, status) else status == BadInput
  {
    hide TablePerfect, Complete, StoresSeparated, Stores, StoredBy, AllRecords, WellShapedUpTo, Rejected, AcceptableUpTo;
    hide Stream, Fillable;
    ghost var all := AllRecords(readers, |readers|);
    FillableIs(pack, all);
    full := pack;
    match pack.kind
    case IndexOnly =>
      status := Ok;
      assert Fillable(pack, all) by {
        IndexFillable(pack, all);
      }
      assert w.out + ([] + []) == w.out;
    case KvSeparated =>
      ghost var content;
      status, content := FillSeparatedKeyValue(pack, readers, w, h);
      full := pack.(content := content, extend := Stream(all, |all|));
      assert status == Ok ==> w.out == old(w.out) + (content + Stream(all, |all|));
    case _ =>
      ghost var content;
      assert FillNeeded(pack, readers, h) ==> StoredBy(pack, all, h, order(pack), written(pack));
      status, content := FillInlineKeyValue(pack, readers, w, h, written(pack), order(pack));
      full := pack.(content := content);
      assert content + [] == content;
  }

  lemma IndexFillable(pack: PackView, all: seq<Record>)
    requires pack.kind.IndexOnly?
    ensures Fillable(pack, all)
  {
  }

  lemma FillableSame(view: PackView, full: PackView, all: seq<Record>)
    requires full == view.(content := full.content, extend := full.extend)
    ensures Fillable(full, all) <==> Fillable(view, all)
  {
    hide Stream;
  }

  /** Builds and writes a pack. On success the output holds exactly the bytes of a pack built from all records. */
  method BuildAndDump(readers: seq<seq<Record>>, info: BasicInfo, h: Hashing, force: bool, retry: Retry, w: Writer,
                      seeds: nat -> u32, left: nat -> Threads, ghost runs: nat -> seq<Ingest.State>,
                      ghost scatters: nat -> seq<MultiHead.State>, written: PackView -> seq<byte>,
                      ghost order: PackView -> seq<nat>)
    returns (status: BuildStatus, ghost pack: PackView)
    requires info.Fits()
    requires 0 < |readers| <= 256 && AllRecords(readers, |readers|) != [] ==>
               forall a :: 0 <= a <= retry.total ==>
                 AttemptRuns(JobFor(readers, seeds(a), h), ExtraMemory(info, force), left(a), runs(a), scatters(a))
    requires FillRuns(readers, h, written, order)
    modifies w
    ensures
      if readers == [] || |readers| > 256 || AllRecords(readers, |readers|) == [] then status == BadInput
      else
        var job, all := JobFor(readers, pack.seed, h), AllRecords(readers, |readers|);
        && (job.SomeBad() || TooBig(job) ==> status == BadInput)
        && (status == BadInput ==> job.SomeBad() || TooBig(job) || !Fillable(pack, all))
        && (status in {Conflict, OutOfChance} ==> AttemptExplained(job, h.l2, status))
        && (status == Ok ==> Fillable(pack, all) && w.Clean(old(w.calls)))
        && (status == FailToOutput ==> w.GaveUp(old(w.calls)) || !Fillable(pack, all))
    ensures pack.kind == info.kind && pack.keyLen == info.keyLen && pack.valLen == info.valLen
    ensures status == Ok ==>
              && Built(pack, AllRecords(readers, |readers|), h)
              && pack.item < 0x1_0000_0000_0000 && |pack.table.pieces| <= MAX_SEGMENT
              && w.out == old(w.out) + PackBytes(pack)
  {
    hide AttemptRuns, AttemptExplained, FillRuns, TablePerfect, Built, IndexBytes, Ingest.Job.SomeBad, TooBig;
    hide Fillable, Rejected;
    if readers == [] || |readers| > MAX_SEGMENT || AllRecords(readers, |readers|) == [] {
      pack := IndexView(info, 0, 0, Table([]));
      return BadInput, pack;
    }
    hide Tried;
    var seed: u32, table: Table;
    ghost var history;
    status, seed, table, history := BuildAttempts(readers, h, ExtraMemory(info, force), retry, seeds, left, runs, scatters);
    assert AttemptEnds(JobFor(readers, seed, h), h.l2, status) by {
      LastEnds(readers, h, retry, seeds, history);
    }
    var view := IndexView(info, seed, |AllRecords(readers, |readers|)|, table);
    pack := view;
    if status != Ok {
      return;
    }
    CompleteBounded(table, view.item);
    ghost var before := w.out;
    var ok := DumpIndex(HeaderFor(view), table.pieces, w);
    if !ok {
      return FailToOutput, pack;
    }
    status, pack := Fill(view, readers, w, h, written, order, info);
    BytesOf(view, pack, before, w.out, status == Ok);
    FillableSame(view, pack, AllRecords(readers, |readers|));
  }

  lemma LastEnds(readers: seq<seq<Record>>, h: Hashing, retry: Retry, seeds: nat -> u32, history: seq<BuildStatus>)
    requires history != [] && Tried(readers, h, retry, seeds, history)
    ensures AttemptEnds(JobFor(readers, seeds(|history| - 1), h), h.l2, history[|history| - 1])
  {
  }

  lemma {:induction false} OffsetBounded(table: Table, n: nat)
    requires n <= |table.pieces|
    ensures table.Offset(n) <= n * 0xffff_ffff
  {
    if n > 0 {
      OffsetBounded(table, n - 1);
    }
  }

  /** The segments of a complete table are few enough for the 48 bits of the item count. */
  lemma CompleteBounded(table: Table, total: nat)
    requires Complete(table, total)
    ensures total < 0x1_0000_0000_0000 && |table.pieces| <= MAX_SEGMENT
  {
    OffsetBounded(table, |table.pieces|);
  }

  predicate ExtraMemory(info: BasicInfo, force: bool) {
    force || info.keyLen + info.valLen > EXTRA_LINE
  }

  lemma BytesOf(view: PackView, full: PackView, before: seq<byte>, out: seq<byte>, ok: bool)
    requires view.item < 0x1_0000_0000_0000 && |view.table.pieces| <= MAX_SEGMENT
    requires full == view.(content := full.content, extend := full.extend)
    requires ok ==> out == before + IndexBytes(HeaderFor(view), view.table.pieces) + (full.content + full.extend)
    ensures ok ==> out == before + PackBytes(full)
  {
    hide IndexBytes;
  }

  // ---- Reading it back --------------------------------------------------------------------------

  /** Every segment rounds its cells up by less than one cell. */
  lemma {:induction false} CellsBounded(parts: seq<u32>, n: nat)
    requires n <= |parts|
    ensures 5 * CellsSize(parts, n) <= Items(parts, n) + 4 * n
  {
    if n > 0 {
      CellsBounded(parts, n - 1);
    }
  }

  /** The index stays below the 32-bit bound of the alignment. */
  ghost predicate IndexInBound(pack: PackView) {
    CellsAt(PartsOf(pack.table.pieces), |pack.table.pieces|) + 31 < 0x1_0000_0000
  }

  /** With fewer than about 21 billion records the index is in bound, however they fall into segments. */
  lemma SafeTotal(pack: PackView, all: seq<Record>, h: Hashing)
    requires Built(pack, all, h) && |all| < 5 * (0x1_0000_0000 - 1331)
    ensures IndexInBound(pack)
  {
    hide TablePerfect, Stores, StoresSeparated, IndexPiece.Shaped, L1Size;
    var pieces := pack.table.pieces;
    CellsBounded(PartsOf(pieces), |pieces|);
    ItemsAreOffsets(pack.table, |pieces|);
  }

  /** Whatever was built with its index in bound has the shape that survives writing and loading. */
  lemma BuiltWritable(pack: PackView, all: seq<Record>, h: Hashing)
    requires Built(pack, all, h) && IndexInBound(pack)
    ensures Writable(pack) && pack.item == |all| && |pack.table.pieces| <= MAX_SEGMENT
  {
    hide TablePerfect, Stores, StoresSeparated, IndexPiece.Shaped, CellsAt;
    CompleteBounded(pack.table, pack.item);
    if !pack.kind.IndexOnly? {
      BuiltSized(pack, all, h);
    }
  }

  lemma BuiltSized(pack: PackView, all: seq<Record>, h: Hashing)
    requires Built(pack, all, h) && !pack.kind.IndexOnly?
    ensures pack.Sized() && (pack.kind.KvSeparated? ==> |pack.extend| >= pack.item && pack.valLen == OFFSET_FIELD_SIZE)
  {
    hide TablePerfect, Complete, StoresAt, Stream;
    StreamCovers(all, |all|);
  }

  lemma {:induction false} KeyStored(records: seq<Record>, key: seq<byte>)
    ensures key in Contents(records) <==> exists i :: 0 <= i < |records| && records[i].key == key
  {
    if records != [] {
      KeyStored(records[..|records| - 1], key);
    }
  }

  /** What looking a key up in a pack that stands for a map gives: nothing is looked up in an index alone, a set has
      an empty value for each of its keys. */
  ghost predicate Answers(pack: PackView, m: map<seq<byte>, seq<byte>>, h: Hashing, key: seq<byte>)
    requires pack.InRange(key, h)
  {
    match pack.kind
    case IndexOnly => true
    case KeySet => pack.Sized() && pack.Search(key, h) == if key in m then Some([]) else None
    case KvInline => pack.Sized() && pack.Search(key, h) == if key in m then Some(m[key]) else None
    case KvSeparated =>
      && pack.Sized() && pack.valLen == OFFSET_FIELD_SIZE
      && SearchSeparated(pack, key, h) == if key in m then Some(m[key]) else None
  }

  lemma BuiltLookup(pack: PackView, all: seq<Record>, h: Hashing, key: seq<byte>)
    requires Built(pack, all, h) && pack.InRange(key, h)
    ensures Answers(pack, Contents(all), h, key)
  {
    hide TablePerfect, Complete, Stores, StoresSeparated, PackView.InRange, PackView.Search, SearchSeparated, Contents;
    if !pack.kind.IndexOnly? {
      BuiltSized(pack, all, h);
    }
    match pack.kind
    case IndexOnly =>
    case KeySet =>
      var bare := BareKeys(all);
      LookupIsMap(pack, bare, h, key);
      KeyStored(bare, key);
      KeyStored(all, key);
      if key in Contents(all) {
        var i :| 0 <= i < |all| && all[i].key == key;
        assert bare[i].key == key;
        StoresDistinct(pack, bare, h);
        ContentsOf(bare, i);
      }
    case KvInline => LookupIsMap(pack, all, h, key);
    case KvSeparated => SeparatedLookupIsMap(pack, all, h, key);
  }

  /** What was built is a well-built base for patches and rebuilds. */
  lemma BuiltIsWellBuilt(pack: PackView, all: seq<Record>, h: Hashing)
    requires Built(pack, all, h) && pack.kind != IndexOnly
    ensures WellBuilt(pack, if pack.kind == KeySet then BareKeys(all) else all, h)
  {
    hide TablePerfect, Complete, Stores, StoresSeparated;
  }

  /** Building again from what the readers of a rebuild deliver gives a pack for the overridden map. */
  lemma RebuiltAnswers(pack: PackView, parts: seq<seq<Record>>, olds: seq<Record>, news: seq<Record>, h: Hashing,
                       key: seq<byte>)
    requires Built(pack, AllRecords(parts, |parts|), h) && pack.InRange(key, h)
    requires Contents(AllRecords(parts, |parts|)) == Contents(olds) + Contents(news)
    ensures Answers(pack, Contents(olds) + Contents(news), h, key)
  {
    hide Built, Answers;
    BuiltLookup(pack, AllRecords(parts, |parts|), h, key);
  }

  // ---- The public builds ------------------------------------------------------------------------

  const MAX_INLINE_VALUE_LEN: nat := 0xffff

  /** The lengths of the first key and value, if they are allowed. */
  method DetectKeyValueLen(readers: seq<seq<Record>>, wantVal: bool) returns (ok: bool, keyLen: byte, valLen: u16)
    ensures var all := AllRecords(readers, |readers|);
            && (ok <==> all != [] && 1 <= |all[0].key| <= 255 && (wantVal ==> 1 <= |all[0].val| <= 65535))
            && (ok ==> keyLen == |all[0].key| && valLen == if wantVal then |all[0].val| else 0)
  {
    hide AllRecords;
    keyLen, valLen := 0, 0;
    assert AllRecords(readers, 0) == [] by {
      NoRecords(readers);
    }
    for t := 0 to |readers|
      invariant AllRecords(readers, t) == []
    {
      ReaderStretch(readers, t);
      if readers[t] != [] {
        var rec := readers[t][0];
        assert AllRecords(readers, |readers|)[0] == rec;
        if rec.key == [] || |rec.key| > Ingest.MAX_KEY_LEN {
          return false, keyLen, valLen;
        }
        keyLen := |rec.key|;
        if wantVal {
          if rec.val == [] || |rec.val| > MAX_INLINE_VALUE_LEN {
            return false, keyLen, valLen;
          }
          valLen := |rec.val|;
        }
        return true, keyLen, valLen;
      }
    }
    ok := false;
  }

  lemma NoRecords(readers: seq<seq<Record>>)
    ensures AllRecords(readers, 0) == []
  {
  }

  /** The first record does not have the lengths the kind of pack asks for. */
  ghost predicate Undetected(kind: PackType, all: seq<Record>) {
    || all == []
    || (kind != IndexOnly && (all[0].key == [] || |all[0].key| > 255))
    || (kind == KvInline && (all[0].val == [] || |all[0].val| > 65535))
  }

  /** What the public build of a kind passes on. */
  method LengthsFor(kind: PackType, readers: seq<seq<Record>>) returns (ok: bool, info: BasicInfo)
    ensures var all := AllRecords(readers, |readers|);
            && (all != [] ==> (ok <==> !Undetected(kind, all)))
            && (ok ==> info.kind == kind && info.Fits())
            && (ok && kind != IndexOnly ==> all != [] && info.keyLen == |all[0].key|)
            && (ok && kind == KvInline ==> all != [] && info.valLen == |all[0].val|)
  {
    hide AllRecords;
    var keyLen: byte, valLen: u16 := 0, 0;
    ok := true;
    if kind != IndexOnly {
      ok, keyLen, valLen := DetectKeyValueLen(readers, kind == KvInline);
      if kind == KvSeparated {
        valLen := OFFSET_FIELD_SIZE;
      }
    }
    info := BasicInfo(kind, keyLen, valLen);
  }

  /** Whether the build takes memory for a second copy of the ids: if asked to, or for lines of more than 28 bytes. */
  ghost predicate TakesExtra(kind: PackType, all: seq<Record>, force: bool) {
    || force
    || (all != [] && kind == KeySet && |all[0].key| > 28)
    || (all != [] && kind == KvInline && |all[0].key| + |all[0].val| > 28)
    || (all != [] && kind == KvSeparated && |all[0].key| + 6 > 28)
  }

  /** What is asked of the state that the threads leave: it comes from some run, for each attempt that may be made. */
  ghost predicate ThreadsRan(readers: seq<seq<Record>>, h: Hashing, extra: bool, retry: Retry, seeds: nat -> u32,
                             left: nat -> Threads, runs: nat -> seq<Ingest.State>,
                             scatters: nat -> seq<MultiHead.State>) {
    0 < |readers| <= 256 && AllRecords(readers, |readers|) != [] ==>
      forall a :: 0 <= a <= retry.total ==>
        AttemptRuns(JobFor(readers, seeds(a), h), extra, left(a), runs(a), scatters(a))
  }

  /** Builds a pack of any kind, from its records alone. */
  method BuildPack(kind: PackType, readers: seq<seq<Record>>, h: Hashing, force: bool, retry: Retry, w: Writer,
                   seeds: nat -> u32, left: nat -> Threads, ghost runs: nat -> seq<Ingest.State>,
                   ghost scatters: nat -> seq<MultiHead.State>, written: PackView -> seq<byte>,
                   ghost order: PackView -> seq<nat>)
    returns (status: BuildStatus, ghost pack: PackView)
    requires ThreadsRan(readers, h, TakesExtra(kind, AllRecords(readers, |readers|), force), retry, seeds, left, runs,
                        scatters)
    requires FillRuns(readers, h, written, order)
    modifies w
    ensures
      if readers == [] || |readers| > 256 || Undetected(kind, AllRecords(readers, |readers|)) then status == BadInput
      else
        var job, all := JobFor(readers, pack.seed, h), AllRecords(readers, |readers|);
        && (job.SomeBad() || TooBig(job) ==> status == BadInput)
        && (status == BadInput ==> job.SomeBad() || TooBig(job) || !Fillable(pack, all))
        && (status in {Conflict, OutOfChance} ==> AttemptExplained(job, h.l2, status))
        && (status == Ok ==> Fillable(pack, all) && w.Clean(old(w.calls)))
        && (status == FailToOutput ==> w.GaveUp(old(w.calls)) || !Fillable(pack, all))
        && pack.kind == kind
        && (kind != IndexOnly ==> pack.keyLen == |all[0].key|) && (kind == KvInline ==> pack.valLen == |all[0].val|)
    ensures status == Ok ==>
              && Built(pack, AllRecords(readers, |readers|), h)
              && pack.item < 0x1_0000_0000_0000 && |pack.table.pieces| <= MAX_SEGMENT
              && w.out == old(w.out) + PackBytes(pack)
  {
    hide AttemptRuns, AttemptExplained, FillRuns, Built, PackBytes, Ingest.Job.SomeBad, TooBig, Fillable, AllRecords;
    var ok, info := LengthsFor(kind, readers);
    if !ok {
      pack := IndexView(info, 0, 0, Table([]));
      return BadInput, pack;
    }
    status, pack := BuildAndDump(readers, info, h, force, retry, w, seeds, left, runs, scatters, written, order);
  }

  /** From the records to the lookup: a pack is built, written and loaded again. When building and writing report
      success, every lookup in what was built is map lookup in the records, and what is loaded is what was built
      whenever the index is in bound, so always below the safe total. */
  method BuildAndLoad(kind: PackType, readers: seq<seq<Record>>, h: Hashing, force: bool, retry: Retry,
                      fails: nat -> bool, seeds: nat -> u32, left: nat -> Threads,
                      ghost runs: nat -> seq<Ingest.State>, ghost scatters: nat -> seq<MultiHead.State>,
                      written: PackView -> seq<byte>, ghost order: PackView -> seq<nat>)
    returns (status: BuildStatus, loaded: Option<PackView>, ghost pack: PackView)
    requires ThreadsRan(readers, h, TakesExtra(kind, AllRecords(readers, |readers|), force), retry, seeds, left, runs,
                        scatters)
    requires FillRuns(readers, h, written, order)
    ensures status != Ok ==> loaded == None
    ensures status == Ok ==>
              var all := AllRecords(readers, |readers|);
              && pack.kind == kind && Built(pack, all, h)
              && (forall key :: pack.InRange(key, h) ==> Answers(pack, Contents(all), h, key))
              && (IndexInBound(pack) ==> loaded == Some(pack))
              && (|all| < 5 * (0x1_0000_0000 - 1331) ==> IndexInBound(pack))
  {
    hide AttemptExplained, FillRuns, Built, Answers, PackBytes, PackView.InRange, ViewOf, Accepts, Writable, Fillable;
    hide IndexInBound, ThreadsRan, TakesExtra, AllRecords, Contents;
    var w := new Writer(fails);
    status, pack := BuildPack(kind, readers, h, force, retry, w, seeds, left, runs, scatters, written, order);
    loaded := None;
    if status == Ok {
      ghost var all := AllRecords(readers, |readers|);
      if |all| < 5 * (0x1_0000_0000 - 1331) {
        SafeTotal(pack, all, h);
      }
      loaded := CreatePackView(w.out);
      if IndexInBound(pack) {
        BuiltWritable(pack, all, h);
        PackRoundTrip(pack);
        assert w.out == PackBytes(pack);
      }
      forall key | pack.InRange(key, h) ensures Answers(pack, Contents(all), h, key) {
        BuiltLookup(pack, all, h, key);
      }
    }
  }
}
