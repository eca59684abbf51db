/** The host side of device batches: chunks in flight on one or two lanes, collected in input order. */
module StagingRing {
  import opened Words
  import opened Packs
  import opened Query

  datatype Operation = Locate | Check | Fetch | TryFetch

  const PIPELINE_CHUNK: nat := 32768
  const PIPELINE_BYTES: nat := 0x40_0000

  // ---- Sizes ------------------------------------------------------------------------------------

  /** `(value + alignment - 1U) & ~(alignment - 1U)` for the alignments in use, which divide the word. */
  function AlignUp(value: nat, alignment: nat): (v: nat)
    requires alignment > 0
    ensures value <= v < value + alignment && v % alignment == 0
  {
    DivModSplit(value + alignment - 1, alignment);
    RemainderIs((value + alignment - 1) / alignment * alignment, alignment, (value + alignment - 1) / alignment, 0);
    (value + alignment - 1) / alignment * alignment
  }

  datatype Layout = Layout(inputBytes: nat, outputOffset: nat, outputBytes: nat, missOffset: nat, countOffset: nat,
                           totalBytes: nat)

  function OutputWidth(op: Operation, valLen: nat): nat {
    match op
    case Locate => 8
    case Check => 1
    case _ => valLen
  }

  function BatchLayout(op: Operation, batch: nat, keyLen: nat, valLen: nat): Layout {
    var keys := Times(batch, keyLen);
    var input := keys + if op == Fetch then valLen else 0;
    var output := AlignUp(input, 8);
    var bytes := Times(batch, OutputWidth(op, valLen));
    var misses := AlignUp(output + bytes, 4);
    var count := misses + if op == TryFetch then batch * 4 else 0;
    Layout(input, output, bytes, misses, count, if op == Locate then output + bytes else count + 4)
  }

  /** Keys, outputs, misses and the counter lie in this order without overlap, each aligned for its type. There is
      room for all keys, for an output of 8 bytes, of one byte or of a value for each, and for the default behind the
      keys of a fetch; and no more than the alignment asks for is left between. */
  lemma LayoutFits(op: Operation, batch: nat, keyLen: nat, valLen: nat)
    ensures var l := BatchLayout(op, batch, keyLen, valLen);
            && l.inputBytes == batch * keyLen + (if op == Fetch then valLen else 0)
            && l.inputBytes <= l.outputOffset < l.inputBytes + 8 && l.outputOffset % 8 == 0
            && (op == Locate ==> l.outputBytes == 8 * batch && l.totalBytes == l.outputOffset + l.outputBytes)
            && (op == Check ==> l.outputBytes == batch)
            && (op in {Fetch, TryFetch} ==> l.outputBytes == batch * valLen)
            && (op != Locate ==> l.missOffset < l.outputOffset + l.outputBytes + 4 && l.totalBytes == l.countOffset + 4)
            && (op in {Check, Fetch} ==> l.countOffset == l.missOffset)
            && l.outputOffset + l.outputBytes <= l.totalBytes
            && (op == TryFetch ==> l.missOffset + 4 * batch <= l.countOffset && l.missOffset % 4 == 0)
            && (op != Locate ==> l.outputOffset + l.outputBytes <= l.missOffset <= l.countOffset
                                 && l.countOffset + 4 <= l.totalBytes && l.countOffset % 4 == 0)
  {
    hide AlignUp, Times;
    RemainderIs(4 * batch, 4, batch, 0);
  }

  function GrowCapacity(requested: nat, current: nat, limit: nat): (grown: nat)
    requires requested <= limit && current <= limit
    ensures requested <= grown <= limit && (grown == requested || 2 * grown <= 3 * current)
    ensures grown >= Min(current + current / 2, limit)
  {
    var extra := Min(current / 2, limit - current);
    if requested > current + extra then requested else current + extra
  }

  function ChunkOf(op: Operation, keyLen: nat, valLen: nat): (chunk: nat)
    requires keyLen > 0
    ensures 256 <= chunk <= PIPELINE_CHUNK
  {
    var width := keyLen + match op case Locate => 8 case Check => 1 case _ => valLen + 4;
    var fit := PIPELINE_BYTES / width;
    Min(PIPELINE_CHUNK, if fit > 256 then fit else 256)
  }

  /** The chunk is the largest of at most 32768 keys that takes no more than 4 MiB of keys and results, but at least
      256 keys; from two chunks on the batch is cut into chunks, a shorter one stays whole. */
  lemma ChunkInFigures(op: Operation, keyLen: nat, valLen: nat, batch: nat)
    requires keyLen > 0
    ensures var chunk := ChunkOf(op, keyLen, valLen);
            var width := keyLen + (if op == Locate then 8 else if op == Check then 1 else valLen + 4);
            && 256 <= chunk <= 32768 && (chunk > 256 ==> chunk * width <= 4194304)
            && (chunk < 32768 ==> (chunk + 1) * width > 4194304)
            && CapacityFor(op, keyLen, valLen, batch) == (if batch >= 2 * chunk then chunk else batch)
            && LanesFor(op, keyLen, valLen, batch) == (if batch >= 2 * chunk then 2 else 1)
  {
    var chunk := ChunkOf(op, keyLen, valLen);
    var width := keyLen + (if op == Locate then 8 else if op == Check then 1 else valLen + 4);
    DivModSplit(PIPELINE_BYTES, width);
    ChunkBounds(chunk, PIPELINE_BYTES / width, width, PIPELINE_BYTES % width);
  }

  lemma ChunkBounds(chunk: nat, fit: nat, width: nat, rest: nat)
    requires fit * width + rest == 4194304 && rest < width
    requires chunk == Min(32768, if fit > 256 then fit else 256)
    ensures chunk > 256 ==> chunk * width <= 4194304
    ensures chunk < 32768 ==> (chunk + 1) * width > 4194304
  {
    if chunk <= fit {
      MulMonotone(chunk, fit, width);
    }
    if chunk >= fit {
      MulMonotone(fit + 1, chunk + 1, width);
    }
  }

  /** Two lanes are worth their while from two full chunks on. */
  function LanesFor(op: Operation, keyLen: nat, valLen: nat, batch: nat): (lanes: nat)
    requires keyLen > 0
    ensures 1 <= lanes <= 2
  {
    if batch >= 2 * ChunkOf(op, keyLen, valLen) then 2 else 1
  }

  /** One lane takes the whole batch at once. */
  function CapacityFor(op: Operation, keyLen: nat, valLen: nat, batch: nat): (capacity: nat)
    requires keyLen > 0
    ensures batch > 0 ==> 0 < capacity <= batch && (capacity < batch ==> 256 <= capacity <= PIPELINE_CHUNK)
  {
    if LanesFor(op, keyLen, valLen, batch) == 1 then batch else ChunkOf(op, keyLen, valLen)
  }

  /** Where the chunks from `from` on begin. */
  function Starts(capacity: nat, batch: nat, from: nat): seq<nat>
    requires capacity > 0
    decreases batch - from
  {
    if from >= batch then [] else [from] + Starts(capacity, batch, from + Min(capacity, batch - from))
  }

  /** They are the multiples of the capacity below the batch: the chunks tile it in ascending order. */
  lemma {:induction false} StartsExact(capacity: nat, batch: nat, k: nat)
    requires capacity > 0
    ensures var s := Starts(capacity, batch, k * capacity);
            && (forall i :: 0 <= i < |s| ==> s[i] == (k + i) * capacity < batch)
            && (k + |s|) * capacity >= batch
    decreases batch - k * capacity
  {
    if k * capacity < batch {
      var from := k * capacity;
      assert (k + 1) * capacity == from + capacity;
      if capacity <= batch - from {
        StartsExact(capacity, batch, k + 1);
        var t := Starts(capacity, batch, (k + 1) * capacity);
        var s := [from] + t;
        assert Starts(capacity, batch, from) == s;
        forall i | 0 <= i < |s| ensures s[i] == (k + i) * capacity < batch {
          if i > 0 {
            assert s[i] == t[i - 1];
          }
        }
      } else {
        assert Starts(capacity, batch, from) == [from];
      }
    }
  }

  // ---- Chunks and what the device makes of them -------------------------------------------------

  /** A batch: the right answer for every key, and what is put out for a key without one. */
  datatype Work<O> = Work(op: Operation, answers: seq<Option<O>>, blank: O) {
    function Expected(i: nat): O
      requires i < |answers|
    {
      match answers[i] case Some(v) => v case None => blank
    }

    /** The output for key `i` is right; for a key without an answer it may be anything when misses are listed. */
    ghost predicate Right(i: nat, o: O)
      requires i < |answers|
    {
      (op == TryFetch && answers[i].None?) || o == Expected(i)
    }
  }

  /** The fate of one chunk: whether it could be queued, whether the transfers went through, and the result. */
  datatype Reply<O> = Reply(submitted: bool, synced: bool, count: nat, misses: seq<nat>, output: seq<O>)

  ghost predicate Good<O>(work: Work<O>, count: nat, r: Reply<O>) {
    r.submitted && r.synced && (work.op == Locate || r.count <= count)
  }

  /** What a chunk that went through holds: the right outputs, and the misses compacted in input order or the
      number of hits. */
  ghost predicate Honest<O>(work: Work<O>, begin: nat, count: nat, r: Reply<O>) {
    && begin + count <= |work.answers| && |r.output| == count
    && (forall i :: 0 <= i < count ==> work.Right(begin + i, r.output[i]))
    && var chunk := work.answers[begin..begin + count];
       match work.op
       case Locate => true
       case TryFetch => r.count == |r.misses| && r.misses == Misses(chunk)
       case _ => r.count == CountSome(chunk)
  }

  type Device<!O> = (nat, nat) -> Reply<O>

  ghost predicate Trusted<O>(work: Work<O>, device: Device<O>) {
    forall begin: nat, count: nat :: begin + count <= |work.answers| && Good(work, count, device(begin, count))
                                     ==> Honest(work, begin, count, device(begin, count))
  }

  /** Every chunk from `begin` on goes through. */
  ghost predicate AllGood<O>(work: Work<O>, device: Device<O>, capacity: nat, begin: nat)
    requires capacity > 0
    decreases |work.answers| - begin
  {
    begin >= |work.answers| ||
    (var count := Min(capacity, |work.answers| - begin);
     Good(work, count, device(begin, count)) && AllGood(work, device, capacity, begin + count))
  }

  lemma {:induction false} CountSomeJoin<T>(a: seq<Option<T>>, b: seq<Option<T>>)
    ensures CountSome(a + b) == CountSome(a) + CountSome(b)
  {
    if b == [] {
      assert a + b == a;
    } else {
      CountSomeJoin(a, b[..|b| - 1]);
      assert (a + b)[..|a + b| - 1] == a + b[..|b| - 1];
    }
  }

  function Shifted(m: seq<nat>, shift: nat): (s: seq<nat>)
    ensures |s| == |m| && forall i :: 0 <= i < |m| ==> s[i] == shift + m[i]
  {
    seq(|m|, i requires 0 <= i < |m| => shift + m[i])
  }

  /** The misses of two stretches: those of the first, then those of the second moved up. */
  lemma {:induction false} MissesJoin<T>(a: seq<Option<T>>, b: seq<Option<T>>)
    ensures Misses(a + b) == Misses(a) + Shifted(Misses(b), |a|)
  {
    if b == [] {
      assert a + b == a;
    } else {
      var c := b[..|b| - 1];
      MissesJoin(a, c);
      assert (a + b)[..|a + b| - 1] == a + c;
      if b[|b| - 1].None? {
        assert Shifted(Misses(b), |a|) == Shifted(Misses(c), |a|) + [|a| + |b| - 1];
      }
    }
  }

  // ---- The lanes --------------------------------------------------------------------------------

  datatype Staging<O> = Staging(begin: nat, count: nat, pending: bool, reply: Reply<O>)

  /** Everything up to `done` has been collected: outputs in place, misses listed so far, hits counted. */
  ghost predicate Collected<O>(work: Work<O>, output: seq<O>, misses: seq<nat>, hits: nat, done: nat) {
    && done <= |work.answers| == |output|
    && (forall i :: 0 <= i < done ==> work.Right(i, output[i]))
    && hits == (if work.op == Locate then 0 else CountSome(work.answers[..done]))
    && (work.op == TryFetch ==> MissesListed(work, misses, done))
  }

  ghost predicate MissesListed<O>(work: Work<O>, misses: seq<nat>, done: nat)
    requires done <= |work.answers|
  {
    var m := Misses(work.answers[..done]);
    |m| <= |misses| && forall i :: 0 <= i < |m| ==> misses[i] == m[i]
  }

  /** A collected batch: hits and misses add up, and the list holds exactly the indices without an answer,
      in ascending order. */
  lemma CollectedMeans<O>(work: Work<O>, output: seq<O>, misses: seq<nat>, hits: nat)
    requires work.op == TryFetch && Collected(work, output, misses, hits, |work.answers|)
    ensures hits <= |work.answers| && |work.answers| - hits <= |misses|
    ensures var m := misses[..|work.answers| - hits];
            && (forall i, j :: 0 <= i < j < |m| ==> m[i] < m[j])
            && forall i :: 0 <= i < |work.answers| ==> (i in m <==> work.answers[i].None?)
    ensures forall i :: 0 <= i < |work.answers| && work.answers[i].Some? ==> output[i] == work.answers[i].value
  {
    assert work.answers[..|work.answers|] == work.answers;
    MissesExact(work.answers);
    assert misses[..|work.answers| - hits] == Misses(work.answers);
    forall i | 0 <= i < |work.answers| && work.answers[i].Some? ensures output[i] == work.answers[i].value {
      assert work.Right(i, output[i]);
    }
  }

  /** A chunk in flight. */
  ghost predicate InFlight<O>(work: Work<O>, device: Device<O>, capacity: nat, slot: Staging<O>) {
    && slot.begin < |work.answers| && slot.count == Min(capacity, |work.answers| - slot.begin)
    && slot.reply == device(slot.begin, slot.count) && slot.reply.submitted
  }

  /** Where the input stands after the chunk of a slot. */
  function After<O>(slot: Staging<O>, from: nat): nat {
    if slot.pending then slot.begin + slot.count else from
  }

  /** The chunks in flight continue what is collected: the due lane first, then the other one. */
  ghost predicate Queued<O>(work: Work<O>, device: Device<O>, capacity: nat, slots: seq<Staging<O>>, lanes: nat,
                            lane: nat, done: nat, begin: nat) {
    && |slots| == 2 && lane < lanes <= 2
    && Continues(work, device, capacity, slots[lane], done)
    && (lanes == 2 ==> Continues(work, device, capacity, slots[1 - lane], After(slots[lane], done))
                       && begin == After(slots[1 - lane], After(slots[lane], done)))
    && (lanes == 1 ==> !slots[1].pending && begin == After(slots[0], done))
  }

  ghost predicate Continues<O>(work: Work<O>, device: Device<O>, capacity: nat, slot: Staging<O>, at: nat) {
    slot.pending ==> slot.begin == at && InFlight(work, device, capacity, slot)
  }

  /** Queues one chunk. */
  method Submit<O>(slots: array<Staging<O>>, lane: nat, begin: nat, count: nat, device: Device<O>) returns (ok: bool)
    requires lane < slots.Length
    modifies slots
    ensures slots[..] == old(slots[..])[lane := Staging(begin, count, true, device(begin, count))]
    ensures ok == device(begin, count).submitted
  {
    slots[lane] := Staging(begin, count, true, device(begin, count));
    ok := slots[lane].reply.submitted;
  }

  /** One more chunk collected. */
  lemma CollectedMore<O>(work: Work<O>, before: seq<O>, output: seq<O>, listed: seq<nat>, misses: seq<nat>,
                         hits: nat, begin: nat, count: nat, r: Reply<O>)
    requires Collected(work, before, listed, hits, begin) && Honest(work, begin, count, r)
    requires |output| == |before| && |misses| == |listed|
    requires forall i :: 0 <= i < begin ==> output[i] == before[i]
    requires forall i :: 0 <= i < count ==> output[begin + i] == r.output[i]
    requires hits <= begin && (work.op == TryFetch ==> begin - hits + |r.misses| <= |misses|)
    requires work.op == TryFetch ==> forall i :: 0 <= i < begin - hits ==> misses[i] == listed[i]
    requires work.op == TryFetch ==>
               forall i :: 0 <= i < |r.misses| ==> misses[begin - hits + i] == begin + r.misses[i]
    ensures Collected(work, output, misses,
                      hits + (match work.op case Locate => 0 case TryFetch => count - r.count case _ => r.count),
                      begin + count)
  {
    hide Misses, CountSome;
    var a, b := work.answers[..begin], work.answers[begin..begin + count];
    assert work.answers[..begin + count] == a + b;
    CountSomeJoin(a, b);
    MissesJoin(a, b);
    forall i | 0 <= i < begin + count ensures work.Right(i, output[i]) {
      if i >= begin {
        assert work.Right(begin + (i - begin), r.output[i - begin]);
        assert output[begin + (i - begin)] == r.output[i - begin];
      }
    }
    if work.op == TryFetch {
      var m := Misses(a + b);
      forall i | 0 <= i < |m| ensures i < |misses| && misses[i] == m[i] {
        if i >= begin - hits {
          assert misses[begin - hits + (i - (begin - hits))] == begin + r.misses[i - (begin - hits)];
        }
      }
    }
  }

  /** The arrays are different objects. */
  predicate Apart(a: object, b: object) {
    a != b
  }

  /** Appends the misses of a chunk, moved up to their place in the batch. */
  method ListMisses<O>(slot: Staging<O>, at: nat, misses: array<nat>)
    requires slot.reply.count <= |slot.reply.misses| && at + slot.reply.count <= misses.Length
    modifies misses
    ensures forall i :: 0 <= i < slot.reply.count ==> misses[at + i] == slot.begin + slot.reply.misses[i]
    ensures forall i :: 0 <= i < misses.Length && !(at <= i < at + slot.reply.count) ==> misses[i] == old(misses[i])
  {
    for i := 0 to slot.reply.count
      invariant forall k :: 0 <= k < i ==> misses[at + k] == slot.begin + slot.reply.misses[k]
      invariant forall k :: 0 <= k < misses.Length && !(at <= k < at + i) ==> misses[k] == old(misses[k])
    {
      misses[at + i] := slot.begin + slot.reply.misses[i];
    }
  }

  method CopyOutput<O>(slot: Staging<O>, output: array<O>)
    requires slot.begin + slot.count <= output.Length && |slot.reply.output| == slot.count
    modifies output
    ensures forall i :: 0 <= i < slot.count ==> output[slot.begin + i] == slot.reply.output[i]
    ensures forall i :: 0 <= i < output.Length && !(slot.begin <= i < slot.begin + slot.count) ==>
                          output[i] == old(output[i])
  {
    for i := 0 to slot.count
      invariant forall k :: 0 <= k < i ==> output[slot.begin + k] == slot.reply.output[k]
      invariant forall k :: 0 <= k < output.Length && !(slot.begin <= k < slot.begin + i) ==> output[k] == old(output[k])
    {
      output[slot.begin + i] := slot.reply.output[i];
    }
  }

  /** The misses so far and those of the next chunk fit, and both counts stay below the indices they run with. */
  lemma ChunkFits<O>(work: Work<O>, output: seq<O>, misses: seq<nat>, hits: nat, begin: nat, count: nat, r: Reply<O>)
    requires Collected(work, output, misses, hits, begin) && Honest(work, begin, count, r)
    ensures hits <= begin
    ensures work.op == TryFetch ==> |r.misses| == r.count <= count && begin - hits + r.count <= |work.answers|
    ensures work.op == TryFetch ==> begin - hits == |Misses(work.answers[..begin])|
  {
  }

  /** Waits for the chunk of a lane, if it has one, and puts its results where they belong. `slot.begin - hits`
      is the number of misses so far, so the misses of the chunk are appended to those before. */
  method Collect<O>(work: Work<O>, slots: array<Staging<O>>, lane: nat, output: array<O>, misses: array<nat>,
                    hits: nat, ghost device: Device<O>, ghost capacity: nat, ghost done: nat, ghost log: seq<nat>)
    returns (ok: bool, total: nat, ghost longer: seq<nat>)
    requires Trusted(work, device) && lane < slots.Length == 2
    requires Apart(output, misses) && Apart(output, slots) && Apart(misses, slots)
    requires work.op == TryFetch ==> misses.Length >= |work.answers|
    requires Collected(work, output[..], misses[..], hits, done)
    requires Continues(work, device, capacity, slots[lane], done)
    modifies slots, output, misses
    ensures forall i :: 0 <= i < 2 && i != lane ==> slots[i] == old(slots[i])
    ensures ok <==> (old(slots[lane]).pending ==> Good(work, old(slots[lane]).count, old(slots[lane]).reply))
    ensures ok ==> slots[lane] == old(slots[lane]).(pending := false)
    ensures !ok ==> longer == log
    ensures ok ==> longer == log + if old(slots[lane]).pending then [old(slots[lane]).begin] else []
    ensures ok ==> Collected(work, output[..], misses[..], total, After(old(slots[lane]), done))
    ensures ok ==> forall i :: After(old(slots[lane]), done) <= i < output.Length ==> output[i] == old(output[i])
    ensures ok ==> forall i :: 0 <= i < misses.Length && (work.op == TryFetch ==> After(old(slots[lane]), done) - total <= i)
                               ==> misses[i] == old(misses[i])
  {
    hide Honest, Collected;
    total, longer := hits, log;
    var slot := slots[lane];
    if !slot.pending {
      return true, hits, log;
    }
    if !slot.reply.synced {
      return false, hits, log;
    }
    slots[lane] := slot.(pending := false);
    if work.op != Locate && slot.reply.count > slot.count {
      return false, hits, log;
    }
    ghost var before, listed := output[..], misses[..];
    assert Honest(work, slot.begin, slot.count, device(slot.begin, slot.count));
    HonestSize(work, slot.begin, slot.count, slot.reply);
    CollectedSize(work, output[..], misses[..], hits, done);
    ChunkFits(work, output[..], misses[..], hits, done, slot.count, slot.reply);
    if work.op == TryFetch {
      ListMisses(slot, slot.begin - hits, misses);
      total := hits + (slot.count - slot.reply.count);
    } else if work.op != Locate {
      total := hits + slot.reply.count;
    }
    CopyOutput(slot, output);
    longer := log + [slot.begin];
    CollectedMore(work, before, output[..], listed, misses[..], hits, done, slot.count, slot.reply);
    ok := true;
  }

  lemma HonestSize<O>(work: Work<O>, begin: nat, count: nat, r: Reply<O>)
    requires Honest(work, begin, count, r)
    ensures begin + count <= |work.answers| && |r.output| == count
  {
  }

  lemma CollectedSize<O>(work: Work<O>, output: seq<O>, misses: seq<nat>, hits: nat, done: nat)
    requires Collected(work, output, misses, hits, done)
    ensures done <= |work.answers| == |output|
  {
  }

  // ---- The ring ---------------------------------------------------------------------------------

  /** Collects from the due lane, which makes the other lane due. */
  lemma QueuedAfterCollect<O>(work: Work<O>, device: Device<O>, capacity: nat, slots: seq<Staging<O>>, lanes: nat,
                              lane: nat, done: nat, begin: nat)
    requires Queued(work, device, capacity, slots, lanes, lane, done, begin)
    ensures Queued(work, device, capacity, slots[lane := slots[lane].(pending := false)], lanes, (lane + 1) % lanes,
                   After(slots[lane], done), begin)
  {
  }

  /** Putting the next chunk on the lane just freed keeps the order. */
  lemma QueuedAfterSubmit<O>(work: Work<O>, device: Device<O>, capacity: nat, slots: seq<Staging<O>>, lanes: nat,
                             lane: nat, done: nat, begin: nat, slot: Staging<O>)
    requires lane < lanes && Queued(work, device, capacity, slots, lanes, (lane + 1) % lanes, done, begin)
    requires !slots[lane].pending && slot.pending && slot.begin == begin && InFlight(work, device, capacity, slot)
    ensures Queued(work, device, capacity, slots[lane := slot], lanes, (lane + 1) % lanes, done, begin + slot.count)
  {
  }

  /** Collecting a chunk settles whether it was good. */
  lemma GoodNext<O>(work: Work<O>, device: Device<O>, capacity: nat, slot: Staging<O>, done: nat)
    requires capacity > 0 && slot.pending && slot.begin == done && InFlight(work, device, capacity, slot)
    ensures AllGood(work, device, capacity, done) <==>
            Good(work, slot.count, slot.reply) && AllGood(work, device, capacity, After(slot, done))
  {
  }

  /** If everything after `done` goes through, then so does everything after the chunks in flight. */
  lemma GoodAfterQueue<O>(work: Work<O>, device: Device<O>, capacity: nat, slots: seq<Staging<O>>, lanes: nat,
                          lane: nat, done: nat, begin: nat)
    requires capacity > 0 && Queued(work, device, capacity, slots, lanes, lane, done, begin)
    requires AllGood(work, device, capacity, done)
    ensures AllGood(work, device, capacity, begin)
  {
    hide InFlight, Good, AllGood;
    if slots[lane].pending {
      GoodNext(work, device, capacity, slots[lane], done);
    }
    if lanes == 2 && slots[1 - lane].pending {
      GoodNext(work, device, capacity, slots[1 - lane], After(slots[lane], done));
    }
  }

  lemma GoodIsQueued<O>(work: Work<O>, device: Device<O>, capacity: nat, begin: nat)
    requires capacity > 0 && begin < |work.answers| && AllGood(work, device, capacity, begin)
    ensures device(begin, Min(capacity, |work.answers| - begin)).submitted
  {
  }

  /** The chunks logged as collected are all chunks before `done`, in input order. */
  ghost predicate InOrder(log: seq<nat>, capacity: nat, batch: nat, done: nat) {
    capacity > 0 && log + Starts(capacity, batch, done) == Starts(capacity, batch, 0)
  }

  /** Whatever happens next, what is logged so far is the beginning of the input order. */
  lemma InOrderSoFar(log: seq<nat>, capacity: nat, batch: nat, done: nat)
    requires InOrder(log, capacity, batch, done)
    ensures log <= Starts(capacity, batch, 0) && (done >= batch ==> log == Starts(capacity, batch, 0))
  {
  }

  lemma InOrderNext(log: seq<nat>, capacity: nat, batch: nat, done: nat)
    requires InOrder(log, capacity, batch, done) && done < batch
    ensures InOrder(log + [done], capacity, batch, done + Min(capacity, batch - done))
  {
    assert log + ([done] + Starts(capacity, batch, done + Min(capacity, batch - done)))
        == (log + [done]) + Starts(capacity, batch, done + Min(capacity, batch - done));
  }

  /** What holds while no step has failed. */
  ghost predicate Running<O>(work: Work<O>, device: Device<O>, capacity: nat, slots: seq<Staging<O>>, lanes: nat,
                             lane: nat, done: nat, begin: nat, output: seq<O>, misses: seq<nat>, hits: nat) {
    && capacity > 0 && begin <= |work.answers|
    && Queued(work, device, capacity, slots, lanes, lane, done, begin)
    && Collected(work, output, misses, hits, done)
    && (AllGood(work, device, capacity, 0) <==> AllGood(work, device, capacity, done))
  }

  /** Entries of the miss list beyond the misses so far are as they were. */
  ghost predicate MissesBeyond<O>(work: Work<O>, was: seq<nat>, misses: seq<nat>, listed: int) {
    |misses| == |was|
    && forall i :: 0 <= i < |misses| && (work.op == TryFetch ==> listed <= i) ==> misses[i] == was[i]
  }

  /** Collects from the due lane during a run. */
  method CollectDue<O>(work: Work<O>, slots: array<Staging<O>>, lanes: nat, lane: nat, output: array<O>,
                       misses: array<nat>, hits: nat, ghost device: Device<O>, ghost capacity: nat, ghost done: nat,
                       ghost begin: nat, ghost order: seq<nat>, ghost was: seq<nat>)
    returns (ok: bool, total: nat, ghost upTo: nat, ghost longer: seq<nat>)
    requires Trusted(work, device) && slots.Length == 2
    requires Apart(output, misses) && Apart(output, slots) && Apart(misses, slots)
    requires work.op == TryFetch ==> misses.Length >= |work.answers|
    requires Running(work, device, capacity, slots[..], lanes, lane, done, begin, output[..], misses[..], hits)
    requires InOrder(order, capacity, |work.answers|, done) && MissesBeyond(work, was, misses[..], done - hits)
    modifies slots, output, misses
    ensures ok ==> Running(work, device, capacity, slots[..], lanes, (lane + 1) % lanes, upTo, begin,
                           output[..], misses[..], total)
    ensures ok ==> slots[..] == old(slots[..])[lane := old(slots[lane]).(pending := false)]
    ensures ok ==> InOrder(longer, capacity, |work.answers|, upTo) && MissesBeyond(work, was, misses[..], upTo - total)
    ensures !ok ==> !AllGood(work, device, capacity, 0) && longer <= Starts(capacity, |work.answers|, 0)
    ensures forall i :: 0 <= i < 2 && i != lane ==> slots[i] == old(slots[i])
  {
    hide AllGood, Good, InFlight, Collected, Trusted, Starts;
    InOrderSoFar(order, capacity, |work.answers|, done);
    ghost var slot := slots[lane];
    QueuedAfterCollect(work, device, capacity, slots[..], lanes, lane, done, begin);
    upTo := After(slot, done);
    if slot.pending {
      GoodNext(work, device, capacity, slot, done);
      CountUpTo(work, output[..], misses[..], hits, done);
      SlotMoves(work, device, capacity, slot);
      InOrderNext(order, capacity, |work.answers|, done);
    }
    ok, total, longer := Collect(work, slots, lane, output, misses, hits, device, capacity, done, order);
    assert ok ==> slots[..] == old(slots[..])[lane := slot.(pending := false)];
    if ok {
      CountUpTo(work, output[..], misses[..], total, upTo);
      MissesGrow(work, old(output[..]), old(misses[..]), hits, done, output[..], misses[..], total, upTo);
    }
  }

  lemma SlotMoves<O>(work: Work<O>, device: Device<O>, capacity: nat, slot: Staging<O>)
    requires capacity > 0 && InFlight(work, device, capacity, slot) && slot.pending
    ensures slot.begin < After(slot, slot.begin) && slot.count == Min(capacity, |work.answers| - slot.begin)
    ensures slot.begin < |work.answers|
  {
  }

  lemma CountUpTo<O>(work: Work<O>, output: seq<O>, misses: seq<nat>, hits: nat, done: nat)
    requires Collected(work, output, misses, hits, done)
    ensures hits <= done
  {
  }

  /** The number of misses so far never shrinks. */
  lemma MissesGrow<O>(work: Work<O>, output: seq<O>, misses: seq<nat>, hits: nat, done: nat,
                      output2: seq<O>, misses2: seq<nat>, total: nat, upTo: nat)
    requires Collected(work, output, misses, hits, done) && Collected(work, output2, misses2, total, upTo)
    requires done <= upTo
    ensures work.op == TryFetch ==> done - hits <= upTo - total
  {
    var a, b := work.answers[..done], work.answers[done..upTo];
    assert work.answers[..upTo] == a + b;
    CountSomeJoin(a, b);
  }

  /** Frees the due lane by collecting from it, and queues the next chunk there. */
  method SendNext<O>(work: Work<O>, slots: array<Staging<O>>, lanes: nat, lane: nat, output: array<O>,
                     misses: array<nat>, hits: nat, device: Device<O>, capacity: nat, ghost done: nat,
                     begin: nat, ghost order: seq<nat>, ghost was: seq<nat>)
    returns (ok: bool, total: nat, next: nat, ghost upTo: nat, ghost longer: seq<nat>)
    requires Trusted(work, device) && slots.Length == 2
    requires Apart(output, misses) && Apart(output, slots) && Apart(misses, slots)
    requires work.op == TryFetch ==> misses.Length >= |work.answers|
    requires begin < |work.answers|
    requires Running(work, device, capacity, slots[..], lanes, lane, done, begin, output[..], misses[..], hits)
    requires InOrder(order, capacity, |work.answers|, done) && MissesBeyond(work, was, misses[..], done - hits)
    modifies slots, output, misses
    ensures ok ==> Running(work, device, capacity, slots[..], lanes, (lane + 1) % lanes, upTo, next,
                           output[..], misses[..], total)
    ensures ok ==> InOrder(longer, capacity, |work.answers|, upTo) && MissesBeyond(work, was, misses[..], upTo - total)
    ensures ok ==> begin < next <= |work.answers|
    ensures !ok ==> !AllGood(work, device, capacity, 0) && longer <= Starts(capacity, |work.answers|, 0)
    ensures lanes == 1 ==> slots[1] == old(slots[1])
  {
    hide AllGood, Good, Collected, Trusted, MissesBeyond, InOrder, InFlight, Starts;
    ok, total, upTo, longer := CollectDue(work, slots, lanes, lane, output, misses, hits, device, capacity, done,
                                          begin, order, was);
    next := begin;
    if ok {
      var count := Min(capacity, |work.answers| - begin);
      ghost var before := slots[..];
      ok := Submit(slots, lane, begin, count, device);
      InOrderSoFar(longer, capacity, |work.answers|, upTo);
      next := begin + count;
      if ok {
        NowInFlight(work, device, capacity, slots[lane]);
        QueuedAfterSubmit(work, device, capacity, before, lanes, lane, upTo, begin, slots[lane]);
      } else if AllGood(work, device, capacity, 0) {
        GoodAfterQueue(work, device, capacity, before, lanes, (lane + 1) % lanes, upTo, begin);
        GoodIsQueued(work, device, capacity, begin);
      }
    }
  }

  lemma NowInFlight<O>(work: Work<O>, device: Device<O>, capacity: nat, slot: Staging<O>)
    requires slot.begin < |work.answers| && slot.count == Min(capacity, |work.answers| - slot.begin)
    requires slot.reply == device(slot.begin, slot.count) && slot.reply.submitted
    ensures InFlight(work, device, capacity, slot)
  {
  }

  lemma DrainedLanes<O>(work: Work<O>, device: Device<O>, capacity: nat, slots: seq<Staging<O>>, lanes: nat,
                        lane: nat, done: nat, begin: nat)
    requires Queued(work, device, capacity, slots, lanes, lane, done, begin)
    requires !slots[0].pending && !slots[1].pending
    ensures done == begin
  {
  }

  /** The lane `i` places on, and the one after it. */
  lemma NextLane(lane: nat, lanes: nat, i: nat)
    requires lane < lanes <= 2 && i < lanes
    ensures ((lane + i) % lanes + 1) % lanes == (lane + (i + 1)) % lanes
    ensures (lane + i) % lanes == if i == 0 then lane else 1 - lane
  {
  }

  /** Collects from all lanes, the due one first. */
  method Drain<O>(work: Work<O>, slots: array<Staging<O>>, lanes: nat, lane: nat, output: array<O>,
                  misses: array<nat>, before: nat, ghost device: Device<O>, ghost capacity: nat, ghost from: nat,
                  ghost sofar: seq<nat>, ghost was: seq<nat>)
    returns (ok: bool, hits: nat, ghost order: seq<nat>)
    requires Trusted(work, device) && slots.Length == 2 && lane < lanes <= 2
    requires Apart(output, misses) && Apart(output, slots) && Apart(misses, slots)
    requires work.op == TryFetch ==> misses.Length >= |work.answers|
    requires Running(work, device, capacity, slots[..], lanes, lane, from, |work.answers|, output[..], misses[..], before)
    requires InOrder(sofar, capacity, |work.answers|, from) && MissesBeyond(work, was, misses[..], from - before)
    requires lanes == 1 ==> !slots[1].pending
    modifies slots, output, misses
    ensures ok ==> !slots[0].pending && !slots[1].pending && order == Starts(capacity, |work.answers|, 0)
    ensures ok ==> Collected(work, output[..], misses[..], hits, |work.answers|)
    ensures ok ==> MissesBeyond(work, was, misses[..], |work.answers| - hits)
    ensures capacity > 0 && (ok <==> AllGood(work, device, capacity, 0))
    ensures order <= Starts(capacity, |work.answers|, 0)
    ensures lanes == 1 ==> !slots[1].pending
  {
    hide AllGood, Good, Collected, Trusted, MissesBeyond, InOrder, InFlight, Queued, Starts;
    ok, hits, order := true, before, sofar;
    ghost var done: nat := from;
    for i := 0 to lanes
      invariant ok && Running(work, device, capacity, slots[..], lanes, (lane + i) % lanes, done, |work.answers|,
                              output[..], misses[..], hits)
      invariant InOrder(order, capacity, |work.answers|, done) && MissesBeyond(work, was, misses[..], done - hits)
      invariant i >= 1 ==> !slots[lane].pending
      invariant i == 2 ==> !slots[1 - lane].pending
      invariant lanes == 1 ==> !slots[1].pending
    {
      NextLane(lane, lanes, i);
      ok, hits, done, order := CollectDue(work, slots, lanes, (lane + i) % lanes, output, misses, hits, device,
                                          capacity, done, |work.answers|, order, was);
      if !ok {
        return;
      }
    }
    DrainedLanes(work, device, capacity, slots[..], lanes, (lane + lanes) % lanes, done, |work.answers|);
    GoodEnd(work, device, capacity, |work.answers|);
    InOrderSoFar(order, capacity, |work.answers|, done);
  }

  lemma NothingRunning<O>(work: Work<O>, device: Device<O>, capacity: nat, slots: seq<Staging<O>>, lanes: nat,
                          output: seq<O>, misses: seq<nat>)
    requires capacity > 0 && |slots| == 2 && 1 <= lanes <= 2 && !slots[0].pending && !slots[1].pending
    requires |output| == |work.answers|
    ensures Running(work, device, capacity, slots, lanes, 0, 0, 0, output, misses, 0)
    ensures InOrder([], capacity, |work.answers|, 0) && MissesBeyond(work, misses, misses, 0)
  {
  }

  /** After a failure no lane keeps a chunk. */
  method Abandon<O>(slots: array<Staging<O>>, lanes: nat)
    requires slots.Length == 2 && lanes <= 2 && (forall k :: lanes <= k < 2 ==> !slots[k].pending)
    modifies slots
    ensures !slots[0].pending && !slots[1].pending
  {
    for k := 0 to lanes
      invariant forall j :: lanes <= j < 2 ==> !slots[j].pending
      invariant forall j :: 0 <= j < k ==> !slots[j].pending
    {
      slots[k] := slots[k].(pending := false);
    }
  }

  /** The whole batch: chunks go out on the lanes in turn, each lane is collected before it is used again, and
      at the end the lanes are drained in order. After a failure every lane is emptied. */
  method RunBatch<O>(work: Work<O>, slots: array<Staging<O>>, keyLen: nat, valLen: nat, output: array<O>,
                     misses: array<nat>, device: Device<O>, setup: bool)
    returns (ok: bool, hits: nat, capacity: nat, ghost order: seq<nat>)
    requires Trusted(work, device) && keyLen > 0 && work.answers != []
    requires slots.Length == 2 && !slots[0].pending && !slots[1].pending
    requires output.Length == |work.answers| && (work.op == TryFetch ==> misses.Length >= |work.answers|)
    requires Apart(output, misses) && Apart(output, slots) && Apart(misses, slots)
    modifies slots, output, misses
    ensures !slots[0].pending && !slots[1].pending
    ensures capacity == CapacityFor(work.op, keyLen, valLen, |work.answers|)
    ensures ok <==> setup && AllGood(work, device, capacity, 0)
    ensures ok ==> Collected(work, output[..], misses[..], hits, |work.answers|)
    ensures ok ==> MissesBeyond(work, old(misses[..]), misses[..], |work.answers| - hits)
    ensures order <= Starts(capacity, |work.answers|, 0) && (ok ==> order == Starts(capacity, |work.answers|, 0))
    ensures !ok ==> hits == 0
  {
    hide AllGood, Good, Collected, Trusted, MissesBeyond, InOrder, Running, Starts, LanesFor;
    var batch := |work.answers|;
    var lanes := LanesFor(work.op, keyLen, valLen, batch);
    capacity := CapacityFor(work.op, keyLen, valLen, batch);
    ok, hits, order := setup, 0, [];
    var begin: nat, lane: nat := 0, 0;
    ghost var done: nat, was := 0, misses[..];
    NothingRunning(work, device, capacity, slots[..], lanes, output[..], misses[..]);
    while ok && begin < batch
      invariant lane < lanes <= 2 && begin <= batch
      invariant ok ==> Running(work, device, capacity, slots[..], lanes, lane, done, begin, output[..], misses[..], hits)
      invariant ok ==> setup && InOrder(order, capacity, batch, done) && MissesBeyond(work, was, misses[..], done - hits)
      invariant !ok ==> order <= Starts(capacity, batch, 0)
      invariant !ok ==> !(setup && AllGood(work, device, capacity, 0))
      invariant lanes == 1 ==> !slots[1].pending
      decreases batch - begin, ok
    {
      ok, hits, begin, done, order := SendNext(work, slots, lanes, lane, output, misses, hits, device, capacity, done,
                                               begin, order, was);
      if !ok {
        break;
      }
      lane := (lane + 1) % lanes;
    }
    if ok {
      ok, hits, order := Drain(work, slots, lanes, lane, output, misses, hits, device, capacity, done, order, was);
    }
    if !ok {
      hits := 0;
      Abandon(slots, lanes);
    }
  }

  lemma GoodEnd<O>(work: Work<O>, device: Device<O>, capacity: nat, begin: nat)
    requires capacity > 0 && begin >= |work.answers|
    ensures AllGood(work, device, capacity, begin)
  {
  }
}
