/** Windowed batch work on lines: filling the content of a pack, and finding the lines of keys. */
module Filling {
  import opened Words
  import opened Ids
  import opened Permutation
  import opened TableBuild
  import opened Packs
  import opened Query
  import opened Pipeline
  import opened BucketSearch
  import opened Output

  const WINDOW_SIZE: nat := 32
  const DOUBLE_COPY_LINE_SIZE_LIMIT: nat := 160

  /** The space after the first `n` lines have been copied to their positions one by one. */
  function PlacedLines(space: seq<byte>, len: nat, pos: seq<nat>, lines: seq<seq<byte>>, n: nat): (s: seq<byte>)
    requires n <= |lines| == |pos|
    ensures |s| == |space|
  {
    if n == 0 then space else PutBlock(PlacedLines(space, len, pos, lines, n - 1), len, pos[n - 1], lines[n - 1])
  }

  /** Lines at distinct positions do not disturb each other. */
  lemma {:induction false} PlacedLinesHold(space: seq<byte>, len: nat, pos: seq<nat>, lines: seq<seq<byte>>,
                                           n: nat, item: nat)
    requires n <= |lines| == |pos| && |space| == item * len && Injective(pos) && Bounded(pos, item)
    requires forall i :: 0 <= i < |lines| ==> |lines[i]| == len
    ensures forall i :: 0 <= i < n ==> KeyAt(PlacedLines(space, len, pos, lines, n), len, pos[i]) == lines[i]
  {
    hide KeyAt, PutBlock;
    if n > 0 {
      PlacedLinesHold(space, len, pos, lines, n - 1, item);
      var before := PlacedLines(space, len, pos, lines, n - 1);
      forall i | 0 <= i < n ensures KeyAt(PlacedLines(space, len, pos, lines, n), len, pos[i]) == lines[i] {
        BlockAfterPut(before, len, pos[n - 1], lines[n - 1], pos[i], item);
      }
    }
  }

  /** Lines at other positions stay as they were. */
  lemma {:induction false} PlacedLinesFrame(space: seq<byte>, len: nat, pos: seq<nat>, lines: seq<seq<byte>>,
                                            n: nat, item: nat, p: nat)
    requires n <= |lines| == |pos| && |space| == item * len && Bounded(pos, item) && p < item && p !in pos
    requires forall i :: 0 <= i < |lines| ==> |lines[i]| == len
    ensures KeyAt(PlacedLines(space, len, pos, lines, n), len, p) == KeyAt(space, len, p)
  {
    hide KeyAt, PutBlock;
    if n > 0 {
      PlacedLinesFrame(space, len, pos, lines, n - 1, item, p);
      BlockAfterPut(PlacedLines(space, len, pos, lines, n - 1), len, pos[n - 1], lines[n - 1], p, item);
    }
  }

  /** A record as the pack wants it: a key of the right length and, if values are kept, such a value. */
  predicate WellShaped(pack: PackView, rec: Record) {
    |rec.key| == pack.keyLen && (pack.valLen == 0 || |rec.val| == pack.valLen)
  }

  /** The keys alone. */
  function BareKeys(records: seq<Record>): (k: seq<Record>)
    ensures |k| == |records| && forall i :: 0 <= i < |records| ==> k[i] == Record(records[i].key, [])
  {
    seq(|records|, i requires 0 <= i < |records| => Record(records[i].key, []))
  }

  /** The records as they are kept: without values the values are not even read. */
  function KeptAll(pack: PackView, records: seq<Record>): (k: seq<Record>)
    ensures pack.valLen != 0 ==> k == records
    ensures pack.valLen == 0 ==> k == BareKeys(records)
  {
    if pack.valLen == 0 then BareKeys(records) else records
  }

  /** The bytes of a line: the key and, if values are kept, the value. */
  function LineFor(pack: PackView, rec: Record): (line: seq<byte>)
    ensures line == rec.key + if pack.valLen == 0 then [] else rec.val
  {
    if pack.valLen == 0 then rec.key else rec.key + rec.val
  }

  function LinesOf(pack: PackView, records: seq<Record>): (lines: seq<seq<byte>>)
    ensures |lines| == |records| && forall i :: 0 <= i < |records| ==> lines[i] == LineFor(pack, records[i])
  {
    seq(|records|, i requires 0 <= i < |records| => LineFor(pack, records[i]))
  }

  function PosOf(pack: PackView, records: seq<Record>, h: Hashing): (pos: seq<nat>)
    requires forall i :: 0 <= i < |records| ==> pack.InRange(records[i].key, h)
    ensures |pos| == |records| && forall i :: 0 <= i < |records| ==> pos[i] == pack.CalcPos(records[i].key, h)
  {
    seq(|records|, i requires 0 <= i < |records| => pack.CalcPos(records[i].key, h) as nat)
  }

  /** `memcpy` of one line to its place. */
  method CopyLine(space: array<byte>, len: nat, pos: nat, line: seq<byte>)
    requires |line| == len && pos * len + len <= space.Length
    modifies space
    ensures space[..] == PutBlock(old(space[..]), len, pos, line)
  {
    ghost var before := space[..];
    CopyInto(space, pos * len, line);
    assert space[..] == before[..pos * len] + line + before[pos * len + len..];
  }

  /** One window: the positions of all its lines are computed stage by stage, then the lines are copied. */
  method MapWindow(pack: PackView, records: seq<Record>, begin: nat, m: nat, lines: seq<seq<byte>>,
                   space: array<byte>, h: Hashing, ghost target: seq<byte>)
    requires begin + m <= |records| && |lines| == m && FilledUpTo(pack, records, target, space[..], begin, h)
    requires forall j :: 0 <= j < m ==> lines[j] == LinesOf(pack, records)[begin + j] && |lines[j]| == pack.LineSize()
    modifies space
    ensures FilledUpTo(pack, records, target, space[..], begin + m, h)
  {
    hide PackView.CalcPos, PutBlock, PackView.InRange, FilledUpTo, Placeable;
    PlacesFor(pack, records, target, space[..], begin, h);
    var keys := KeysOf(records[begin..begin + m]);
    var s3 := WindowPositions(pack, keys, h);
    for j := 0 to m
      invariant forall i :: 0 <= i < m ==> s3[i] == pack.CalcPos(records[begin + i].key, h)
      invariant FilledUpTo(pack, records, target, space[..], begin + j, h)
    {
      ghost var before := space[..];
      PlacesFor(pack, records, target, before, begin + j, h);
      CopyLine(space, pack.LineSize(), s3[j], lines[j]);
      LinePlaced(pack, records, target, before, space[..], begin + j, h);
    }
  }

  /** Every record has its place inside the space. */
  lemma PlacesFor(pack: PackView, records: seq<Record>, target: seq<byte>, space: seq<byte>, n: nat, h: Hashing)
    requires FilledUpTo(pack, records, target, space, n, h)
    ensures Placeable(pack, records, h) && forall i :: 0 <= i < |records| ==> pack.InRange(records[i].key, h)
    ensures forall i :: 0 <= i < |records| ==>
              pack.CalcPos(records[i].key, h) * pack.LineSize() + pack.LineSize() <= |space|
  {
    hide PackView.CalcPos, PlacedLines, PackView.InRange;
    forall i | 0 <= i < |records|
      ensures pack.CalcPos(records[i].key, h) * pack.LineSize() + pack.LineSize() <= |space|
    {
      BlockInside(pack.CalcPos(records[i].key, h), pack.item, pack.LineSize());
    }
  }

  lemma LinePlaced(pack: PackView, records: seq<Record>, target: seq<byte>, before: seq<byte>, after: seq<byte>, i: nat,
                   h: Hashing)
    requires i < |records| && FilledUpTo(pack, records, target, before, i, h) && pack.InRange(records[i].key, h)
    requires after == PutBlock(before, pack.LineSize(), pack.CalcPos(records[i].key, h), LinesOf(pack, records)[i])
    ensures FilledUpTo(pack, records, target, after, i + 1, h)
  {
    hide PackView.CalcPos, PlacedLines, PutBlock, PackView.InRange;
    PlacedOneMore(target, pack.LineSize(), PosOf(pack, records, h), LinesOf(pack, records), i);
  }

  /** The positions of the keys of one window, computed stage by stage. */
  method WindowPositions(pack: PackView, keys: seq<seq<byte>>, h: Hashing) returns (s3: array<nat>)
    requires forall j :: 0 <= j < |keys| ==> pack.InRange(keys[j], h)
    ensures fresh(s3) && s3.Length >= |keys|
    ensures forall j :: 0 <= j < |keys| ==> s3[j] == pack.CalcPos(keys[j], h)
  {
    hide Calc1, Calc2, CalcRank, PackView.CalcPos, Filled;
    var see := (st: (), j: nat) => if j < |keys| then keys[j] else [];
    var p1 := (key: seq<byte>, j: nat) => Calc1(pack, key, h);
    var p2 := (key: seq<byte>, s: Step1, j: nat) => Calc2(pack, s, h);
    var p3 := (key: seq<byte>, s: Step2, j: nat) => CalcRank(pack, s);
    ghost var seen := SeenFrom(see, ());
    ghost var f1 := Begin(p1, seen);
    ghost var f2 := Then(f1, With(p2, seen));
    var s1 := FirstAll(p1, |keys|, see, ());
    var s2 := StageAll(s1, f1, p2, |keys|, see, ());
    s3 := StageAll(s2, f2, p3, |keys|, see, ());
    ghost var f := Then(f2, With(p3, seen));
    FilledSize(s3, f, |keys|);
    forall j | 0 <= j < |keys| ensures s3[j] == pack.CalcPos(keys[j], h) {
      FilledAt(s3, f, |keys|, j);
      StagesCompose(pack, keys[j], h);
    }
  }

  lemma FilledSize<S>(ctx: array<S>, f: nat -> S, n: nat)
    requires Filled(ctx, f, n)
    ensures ctx.Length >= n
  {
  }

  lemma FilledAt<S>(ctx: array<S>, f: nat -> S, n: nat, j: nat)
    requires Filled(ctx, f, n) && j < n
    ensures j < ctx.Length && ctx[j] == f(j)
  {
  }

  lemma PlacedOneMore(space: seq<byte>, len: nat, pos: seq<nat>, lines: seq<seq<byte>>, n: nat)
    requires n < |lines| == |pos|
    ensures PlacedLines(space, len, pos, lines, n + 1)
            == PutBlock(PlacedLines(space, len, pos, lines, n), len, pos[n], lines[n])
  {
  }

  /** Every record has a line in the pack; the reader need not hold all records of the pack. */
  ghost predicate Placeable(pack: PackView, records: seq<Record>, h: Hashing) {
    forall i :: 0 <= i < |records| ==>
      pack.InRange(records[i].key, h) && pack.CalcPos(records[i].key, h) < pack.item
  }

  /** The first `n` lines are in place, and nothing else has changed. */
  ghost predicate FilledUpTo(pack: PackView, records: seq<Record>, target: seq<byte>, space: seq<byte>, n: nat, h: Hashing) {
    && |target| == |space| == pack.item * pack.LineSize() && n <= |records| && Placeable(pack, records, h)
    && space == PlacedLines(target, pack.LineSize(), PosOf(pack, records, h), LinesOf(pack, records), n)
  }

  ghost predicate WellShapedUpTo(pack: PackView, records: seq<Record>, n: nat)
    requires n <= |records|
  {
    forall k :: 0 <= k < n ==> WellShaped(pack, records[k])
  }

  /** Reads the records of one window into the buffer. */
  method ReadWindow(pack: PackView, records: seq<Record>, begin: nat, m: nat) returns (ok: bool, lines: seq<seq<byte>>)
    requires begin + m <= |records| && WellShapedUpTo(pack, records, begin)
    ensures ok <==> WellShapedUpTo(pack, records, begin + m)
    ensures ok ==> |lines| == m
    ensures ok ==> forall k :: 0 <= k < m ==>
                     lines[k] == LinesOf(pack, records)[begin + k] && |lines[k]| == pack.LineSize()
  {
    lines := [];
    for j := 0 to m
      invariant |lines| == j && WellShapedUpTo(pack, records, begin + j)
      invariant forall k :: 0 <= k < j ==> lines[k] == LinesOf(pack, records)[begin + k] && |lines[k]| == pack.LineSize()
    {
      var rec := records[begin + j];
      if !WellShaped(pack, rec) {
        return false, lines;
      }
      lines := lines + [LineFor(pack, rec)];
    }
    ok := true;
  }

  /** Copies one line straight to its position. */
  method FillLine(pack: PackView, records: seq<Record>, i: nat, space: array<byte>, h: Hashing, ghost target: seq<byte>)
    requires i < |records| && FilledUpTo(pack, records, target, space[..], i, h) && WellShaped(pack, records[i])
    modifies space
    ensures FilledUpTo(pack, records, target, space[..], i + 1, h)
  {
    hide PackView.CalcPos, PutBlock, PackView.InRange, FilledUpTo, Placeable;
    ghost var before := space[..];
    PlacesFor(pack, records, target, before, i, h);
    CopyLine(space, pack.LineSize(), pack.CalcPos(records[i].key, h), LineFor(pack, records[i]));
    LinePlaced(pack, records, target, before, space[..], i, h);
  }

  /** Every record has its key, and its value if values are kept, on the line at its position; if the positions
      are different ones, as they are in a perfect table. */
  ghost predicate LinesStand(pack: PackView, records: seq<Record>, space: seq<byte>, h: Hashing)
    requires Placeable(pack, records, h)
  {
    Injective(PosOf(pack, records, h)) ==> forall i :: 0 <= i < |records| ==>
      KeyAt(space, pack.LineSize(), pack.CalcPos(records[i].key, h))
      == records[i].key + if pack.valLen == 0 then [] else records[i].val
  }

  /** Fills in the lines of one reader, window by window or line by line: it succeeds if and only if every record
      is well shaped, and then exactly the lines of its records have been written. */
  method FillKeyValue(pack: PackView, records: seq<Record>, space: array<byte>, h: Hashing) returns (ok: bool)
    requires space.Length == pack.item * pack.LineSize() && Placeable(pack, records, h)
    modifies space
    ensures ok <==> WellShapedUpTo(pack, records, |records|)
    ensures ok ==> FilledUpTo(pack, records, old(space[..]), space[..], |records|, h)
    ensures ok ==> LinesStand(pack, records, space[..], h)
  {
    hide PackView.CalcPos, PackView.InRange, FilledUpTo, WellShaped, Placeable, LinesStand;
    ghost var target := space[..];
    NothingFilledYet(pack, records, target, h);
    if pack.LineSize() <= DOUBLE_COPY_LINE_SIZE_LIMIT {
      var i: nat := 0;
      while i < |records|
        invariant i <= |records| && WellShapedUpTo(pack, records, i)
        invariant FilledUpTo(pack, records, target, space[..], i, h)
      {
        var m := Min(WINDOW_SIZE, |records| - i);
        var read, lines := ReadWindow(pack, records, i, m);
        if !read {
          return false;
        }
        MapWindow(pack, records, i, m, lines, space, h, target);
        i := i + m;
      }
    } else {
      for i := 0 to |records|
        invariant WellShapedUpTo(pack, records, i)
        invariant FilledUpTo(pack, records, target, space[..], i, h)
      {
        if !WellShaped(pack, records[i]) {
          return false;
        }
        FillLine(pack, records, i, space, h, target);
      }
    }
    LinesInPlace(pack, records, target, space[..], h);
    return true;
  }

  lemma NothingFilledYet(pack: PackView, records: seq<Record>, target: seq<byte>, h: Hashing)
    requires |target| == pack.item * pack.LineSize() && Placeable(pack, records, h)
    ensures FilledUpTo(pack, records, target, target, 0, h)
  {
  }

  /** What a reader leaves: its lines at their positions, every other line as it was. */
  lemma FilledStretch(pack: PackView, records: seq<Record>, target: seq<byte>, space: seq<byte>, h: Hashing, p: nat)
    requires FilledUpTo(pack, records, target, space, |records|, h) && p < pack.item
    requires WellShapedUpTo(pack, records, |records|) && Injective(PosOf(pack, records, h))
    ensures forall i :: 0 <= i < |records| ==>
              KeyAt(space, pack.LineSize(), pack.CalcPos(records[i].key, h))
              == records[i].key + if pack.valLen == 0 then [] else records[i].val
    ensures p !in PosOf(pack, records, h) ==> KeyAt(space, pack.LineSize(), p) == KeyAt(target, pack.LineSize(), p)
  {
    hide PackView.CalcPos, PlacedLines, KeyAt, PackView.InRange;
    var pos, lines := PosOf(pack, records, h), LinesOf(pack, records);
    PlacedLinesHold(target, pack.LineSize(), pos, lines, |records|, pack.item);
    if p !in pos {
      PlacedLinesFrame(target, pack.LineSize(), pos, lines, |records|, pack.item, p);
    }
  }

  lemma LinesInPlace(pack: PackView, records: seq<Record>, target: seq<byte>, space: seq<byte>, h: Hashing)
    requires FilledUpTo(pack, records, target, space, |records|, h) && WellShapedUpTo(pack, records, |records|)
    ensures Placeable(pack, records, h) && LinesStand(pack, records, space, h)
  {
    hide PackView.CalcPos, PlacedLines, KeyAt, PackView.InRange;
    if Injective(PosOf(pack, records, h)) {
      forall i | 0 <= i < |records|
        ensures KeyAt(space, pack.LineSize(), pack.CalcPos(records[i].key, h))
                == records[i].key + if pack.valLen == 0 then [] else records[i].val
      {
        FilledStretch(pack, records, target, space, h, pack.CalcPos(records[i].key, h));
      }
    }
  }

  // ---- All readers ------------------------------------------------------------------------------

  /** The records of the first `n` readers, one reader after the other. */
  function AllRecords(readers: seq<seq<Record>>, n: nat): seq<Record>
    requires n <= |readers|
  {
    if n == 0 then [] else AllRecords(readers, n - 1) + readers[n - 1]
  }

  lemma {:induction false} AllRecordsPrefix(readers: seq<seq<Record>>, t: nat, n: nat)
    requires t <= n <= |readers|
    ensures |AllRecords(readers, t)| <= |AllRecords(readers, n)|
    ensures AllRecords(readers, n)[..|AllRecords(readers, t)|] == AllRecords(readers, t)
    decreases n
  {
    if t < n {
      AllRecordsPrefix(readers, t, n - 1);
    }
  }

  /** Where the records of reader `t` stand among all. */
  lemma ReaderStretch(readers: seq<seq<Record>>, t: nat)
    requires t < |readers|
    ensures var all, start := AllRecords(readers, |readers|), |AllRecords(readers, t)|;
            && start + |readers[t]| <= |all| && all[start..start + |readers[t]|] == readers[t]
            && |AllRecords(readers, t + 1)| == start + |readers[t]|
  {
    AllRecordsPrefix(readers, t + 1, |readers|);
    var all, upTo := AllRecords(readers, |readers|), AllRecords(readers, t + 1);
    assert all[..|upTo|] == upTo;
    assert all[|AllRecords(readers, t)|..|upTo|] == upTo[|AllRecords(readers, t)|..];
  }

  /** Filling stretch after stretch is filling the whole. */
  lemma {:induction false} PlacedFurther(pack: PackView, all: seq<Record>, start: nat, part: seq<Record>,
                                         target: seq<byte>, mid: seq<byte>, k: nat, h: Hashing)
    requires start + |part| <= |all| && all[start..start + |part|] == part && k <= |part| && Placeable(pack, all, h)
    requires Placeable(pack, part, h)
    requires mid == PlacedLines(target, pack.LineSize(), PosOf(pack, all, h), LinesOf(pack, all), start)
    ensures PlacedLines(mid, pack.LineSize(), PosOf(pack, part, h), LinesOf(pack, part), k)
            == PlacedLines(target, pack.LineSize(), PosOf(pack, all, h), LinesOf(pack, all), start + k)
  {
    hide PackView.CalcPos, PutBlock, PackView.InRange, LineFor;
    if k > 0 {
      PlacedFurther(pack, all, start, part, target, mid, k - 1, h);
      assert all[start..start + |part|][k - 1] == all[start + (k - 1)];
    }
  }

  lemma FilledMore(pack: PackView, all: seq<Record>, start: nat, part: seq<Record>, target: seq<byte>, mid: seq<byte>,
                   space: seq<byte>, h: Hashing)
    requires start + |part| <= |all| && all[start..start + |part|] == part && Placeable(pack, part, h)
    requires FilledUpTo(pack, all, target, mid, start, h) && FilledUpTo(pack, part, mid, space, |part|, h)
    ensures FilledUpTo(pack, all, target, space, start + |part|, h)
  {
    hide PlacedLines, PackView.CalcPos, PackView.InRange, Placeable;
    PlacedFurther(pack, all, start, part, target, mid, |part|, h);
  }

  lemma PartPlaceable(pack: PackView, all: seq<Record>, start: nat, part: seq<Record>, h: Hashing)
    requires start + |part| <= |all| && all[start..start + |part|] == part && Placeable(pack, all, h)
    ensures Placeable(pack, part, h)
  {
    forall i | 0 <= i < |part| ensures pack.InRange(part[i].key, h) && pack.CalcPos(part[i].key, h) < pack.item {
      assert part[i] == all[start..start + |part|][i] == all[start + i];
    }
  }

  lemma ShapedMore(pack: PackView, all: seq<Record>, start: nat, part: seq<Record>)
    requires start + |part| <= |all| && all[start..start + |part|] == part && WellShapedUpTo(pack, all, start)
    ensures WellShapedUpTo(pack, all, start + |part|) <==> WellShapedUpTo(pack, part, |part|)
  {
    hide WellShaped;
    assert forall i :: 0 <= i < |part| ==> part[i] == all[start + i];
    if WellShapedUpTo(pack, part, |part|) {
      forall k | 0 <= k < start + |part| ensures WellShaped(pack, all[k]) {
        if k >= start {
          assert all[k] == part[k - start];
        }
      }
    }
  }

  /** The readers one after the other. */
  method FillInTurn(pack: PackView, readers: seq<seq<Record>>, space: array<byte>, h: Hashing) returns (ok: bool)
    requires space.Length == pack.item * pack.LineSize() && Placeable(pack, AllRecords(readers, |readers|), h)
    modifies space
    ensures var all := AllRecords(readers, |readers|);
            && (ok <==> WellShapedUpTo(pack, all, |all|))
            && (ok ==> FilledUpTo(pack, all, old(space[..]), space[..], |all|, h))
  {
    hide FilledUpTo, Placeable, WellShapedUpTo, AllRecords, LinesStand;
    ghost var all, target := AllRecords(readers, |readers|), space[..];
    NothingFilledYet(pack, all, target, h);
    NoRecordsYet(pack, readers);
    for t := 0 to |readers|
      invariant |AllRecords(readers, t)| <= |all| && WellShapedUpTo(pack, all, |AllRecords(readers, t)|)
      invariant FilledUpTo(pack, all, target, space[..], |AllRecords(readers, t)|, h)
    {
      ghost var start, mid := |AllRecords(readers, t)|, space[..];
      ReaderStretch(readers, t);
      PartPlaceable(pack, all, start, readers[t], h);
      ok := FillKeyValue(pack, readers[t], space, h);
      ShapedMore(pack, all, start, readers[t]);
      if !ok {
        FewerShaped(pack, all, start + |readers[t]|);
        return;
      }
      FilledMore(pack, all, start, readers[t], target, mid, space[..], h);
    }
    ok := true;
  }

  lemma NoRecordsYet(pack: PackView, readers: seq<seq<Record>>)
    ensures AllRecords(readers, 0) == [] && WellShapedUpTo(pack, AllRecords(readers, |readers|), 0)
  {
  }

  lemma FewerShaped(pack: PackView, all: seq<Record>, n: nat)
    requires n <= |all|
    ensures WellShapedUpTo(pack, all, |all|) ==> WellShapedUpTo(pack, all, n)
  {
  }

  // ---- Any order of the writes ------------------------------------------------------------------

  /** One byte stored by a `memcpy` of a line. */
  datatype ByteWrite = ByteWrite(at: nat, value: byte)

  /** The bytes of all lines, line by line. */
  function WritesOf(len: nat, pos: seq<nat>, lines: seq<seq<byte>>): (w: seq<ByteWrite>)
    requires |pos| == |lines| && len > 0 && forall i :: 0 <= i < |lines| ==> |lines[i]| == len
    ensures |w| == |lines| * len
  {
    seq(|lines| * len, x requires 0 <= x < |lines| * len => WriteAt(len, pos, lines, x))
  }

  function WriteAt(len: nat, pos: seq<nat>, lines: seq<seq<byte>>, x: nat): ByteWrite
    requires |pos| == |lines| && len > 0 && x < |lines| * len && forall i :: 0 <= i < |lines| ==> |lines[i]| == len
  {
    LineOfByte(x, len, |lines|);
    ByteWrite(pos[x / len] * len + x % len, lines[x / len][x % len])
  }

  /** Byte `b` of line `i`. */
  lemma WriteOfByte(len: nat, pos: seq<nat>, lines: seq<seq<byte>>, x: nat, i: nat, b: nat)
    requires |pos| == |lines| && len > 0 && forall i :: 0 <= i < |lines| ==> |lines[i]| == len
    requires i < |lines| && b < len && x == i * len + b
    ensures x < |lines| * len && WritesOf(len, pos, lines)[x] == ByteWrite(pos[i] * len + b, lines[i][b])
  {
    BlockInside(i, |lines|, len);
    RemainderIs(x, len, i, b);
  }

  lemma LineOfByte(x: nat, len: nat, n: nat)
    requires len > 0 && x < n * len
    ensures x / len < n && x == (x / len) * len + x % len
  {
    DivModSplit(x, len);
    if x / len >= n {
      MulMonotone(n, x / len, len);
    }
  }

  /** The space after the first `n` of the writes have been carried out in the given order. */
  function Carried(space: seq<byte>, writes: seq<ByteWrite>, order: seq<nat>, n: nat): (s: seq<byte>)
    requires n <= |order| && forall k :: 0 <= k < |order| ==> order[k] < |writes| && writes[order[k]].at < |space|
    ensures |s| == |space|
  {
    if n == 0 then space
    else Carried(space, writes, order, n - 1)[writes[order[n - 1]].at := writes[order[n - 1]].value]
  }

  /** Every write is carried out once, in any order; the orders of threads that each copy their lines one after
      the other are among them. */
  ghost predicate AnyOrder(order: seq<nat>, n: nat) {
    |order| == n && Injective(order) && Bounded(order, n)
  }

  lemma {:induction false} CarriedHolds(space: seq<byte>, writes: seq<ByteWrite>, order: seq<nat>, n: nat, k: nat)
    requires n <= |order| && Injective(order) && k < n
    requires forall k :: 0 <= k < |order| ==> order[k] < |writes| && writes[order[k]].at < |space|
    requires forall x, y :: 0 <= x < y < |writes| ==> writes[x].at != writes[y].at
    ensures Carried(space, writes, order, n)[writes[order[k]].at] == writes[order[k]].value
  {
    if k < n - 1 {
      CarriedHolds(space, writes, order, n - 1, k);
    }
  }

  lemma {:induction false} CarriedFrame(space: seq<byte>, writes: seq<ByteWrite>, order: seq<nat>, n: nat, a: nat)
    requires n <= |order| && a < |space|
    requires forall k :: 0 <= k < |order| ==> order[k] < |writes| && writes[order[k]].at < |space|
    requires forall x :: 0 <= x < |writes| ==> writes[x].at != a
    ensures Carried(space, writes, order, n)[a] == space[a]
  {
    if n > 0 {
      CarriedFrame(space, writes, order, n - 1, a);
    }
  }

  lemma BlockByte(space: seq<byte>, len: nat, p: nat, b: nat, item: nat)
    requires |space| == item * len && p < item && b < len
    ensures p * len + b < |space| && |KeyAt(space, len, p)| == len && KeyAt(space, len, p)[b] == space[p * len + b]
  {
    BlockInside(p, item, len);
  }

  /** The bytes of different lines are different bytes. */
  lemma WritesApart(len: nat, pos: seq<nat>, lines: seq<seq<byte>>, item: nat, w: seq<ByteWrite>, size: nat)
    requires |pos| == |lines| && len > 0 && forall i :: 0 <= i < |lines| ==> |lines[i]| == len
    requires Injective(pos) && Bounded(pos, item) && w == WritesOf(len, pos, lines) && size == item * len
    ensures forall x :: 0 <= x < |w| ==> w[x].at < size
    ensures forall x, y :: 0 <= x < y < |w| ==> w[x].at != w[y].at
  {
    hide WritesOf;
    forall x | 0 <= x < |w| ensures w[x].at < size {
      WriteInside(len, pos, lines, item, w, x);
    }
    forall x, y | 0 <= x < y < |w| ensures w[x].at != w[y].at {
      WritesDiffer(len, pos, lines, w, x, y);
    }
  }

  lemma WriteInside(len: nat, pos: seq<nat>, lines: seq<seq<byte>>, item: nat, w: seq<ByteWrite>, x: nat)
    requires |pos| == |lines| && len > 0 && forall i :: 0 <= i < |lines| ==> |lines[i]| == len
    requires Bounded(pos, item) && w == WritesOf(len, pos, lines) && x < |w|
    ensures w[x].at < item * len
  {
    hide WritesOf;
    LineOfByte(x, len, |lines|);
    WriteOfByte(len, pos, lines, x, x / len, x % len);
    BlockInside(pos[x / len], item, len);
  }

  lemma WritesDiffer(len: nat, pos: seq<nat>, lines: seq<seq<byte>>, w: seq<ByteWrite>, x: nat, y: nat)
    requires |pos| == |lines| && len > 0 && forall i :: 0 <= i < |lines| ==> |lines[i]| == len
    requires Injective(pos) && w == WritesOf(len, pos, lines) && x < y < |w|
    ensures w[x].at != w[y].at
  {
    hide WritesOf;
    LineOfByte(x, len, |lines|);
    LineOfByte(y, len, |lines|);
    WriteOfByte(len, pos, lines, x, x / len, x % len);
    WriteOfByte(len, pos, lines, y, y / len, y % len);
    PlacesApart(len, pos, x / len, x % len, y / len, y % len);
  }

  lemma PlacesApart(len: nat, pos: seq<nat>, i: nat, b: nat, j: nat, c: nat)
    requires i < |pos| && j < |pos| && b < len && c < len && (i != j || b != c) && Injective(pos)
    ensures pos[i] * len + b != pos[j] * len + c
  {
    RemainderIs(pos[i] * len + b, len, pos[i], b);
    RemainderIs(pos[j] * len + c, len, pos[j], c);
    if i != j {
      assert pos[i] != pos[j];
    }
  }

  /** Whatever the order of the writes, the lines end up as if filled in one after the other. */
  lemma AnyOrderFills(target: seq<byte>, len: nat, pos: seq<nat>, lines: seq<seq<byte>>, item: nat, order: seq<nat>)
    requires |pos| == |lines| && len > 0 && (forall i :: 0 <= i < |lines| ==> |lines[i]| == len)
    requires Injective(pos) && Bounded(pos, item) && |target| == item * len
    requires AnyOrder(order, |lines| * len)
    ensures forall k :: 0 <= k < |order| ==> WritesOf(len, pos, lines)[order[k]].at < |target|
    ensures Carried(target, WritesOf(len, pos, lines), order, |order|) == PlacedLines(target, len, pos, lines, |lines|)
  {
    hide KeyAt, PlacedLines;
    hide WritesOf;
    var w := WritesOf(len, pos, lines);
    WritesApart(len, pos, lines, item, w, |target|);
    OrderInside(order, |w|);
    var got, want := Carried(target, w, order, |order|), PlacedLines(target, len, pos, lines, |lines|);
    forall a | 0 <= a < item * len ensures got[a] == want[a] {
      ByteFilled(target, len, pos, lines, item, w, order, a);
    }
  }

  lemma ByteFilled(target: seq<byte>, len: nat, pos: seq<nat>, lines: seq<seq<byte>>, item: nat, w: seq<ByteWrite>,
                   order: seq<nat>, a: nat)
    requires |pos| == |lines| && len > 0 && (forall i :: 0 <= i < |lines| ==> |lines[i]| == len)
    requires Injective(pos) && Bounded(pos, item) && |target| == item * len && a < |target|
    requires w == WritesOf(len, pos, lines) && AnyOrder(order, |w|) && forall x :: 0 <= x < |w| ==> w[x].at < |target|
    requires forall x, y :: 0 <= x < y < |w| ==> w[x].at != w[y].at
    ensures forall k :: 0 <= k < |order| ==> order[k] < |w| && w[order[k]].at < |target|
    ensures Carried(target, w, order, |order|)[a] == PlacedLines(target, len, pos, lines, |lines|)[a]
  {
    hide KeyAt, PlacedLines, Carried, AnyOrder, WritesOf;
    LineOfByte(a, len, item);
    var p, b := a / len, a % len;
    BlockByte(target, len, p, b, item);
    BlockByte(PlacedLines(target, len, pos, lines, |lines|), len, p, b, item);
    OrderInside(order, |w|);
    if i :| 0 <= i < |pos| && pos[i] == p {
      PlacedLinesHold(target, len, pos, lines, |lines|, item);
      var x := WriteFor(len, pos, lines, w, i, b, a);
      Written(target, w, order, x);
    } else {
      PlacedLinesFrame(target, len, pos, lines, |lines|, item, p);
      NoWriteFor(len, pos, lines, w, p, b, a);
      Unwritten(target, w, order, a);
    }
  }

  lemma Written(target: seq<byte>, w: seq<ByteWrite>, order: seq<nat>, x: nat)
    requires AnyOrder(order, |w|) && x < |w| && forall x :: 0 <= x < |w| ==> w[x].at < |target|
    requires forall x, y :: 0 <= x < y < |w| ==> w[x].at != w[y].at
    ensures forall k :: 0 <= k < |order| ==> order[k] < |w|
    ensures Carried(target, w, order, |order|)[w[x].at] == w[x].value
  {
    hide Carried, AnyOrder;
    var k := WhenCarried(order, |w|, x);
    CarriedHolds(target, w, order, |order|, k);
  }

  lemma Unwritten(target: seq<byte>, w: seq<ByteWrite>, order: seq<nat>, a: nat)
    requires AnyOrder(order, |w|) && a < |target| && forall x :: 0 <= x < |w| ==> w[x].at < |target| && w[x].at != a
    ensures forall k :: 0 <= k < |order| ==> order[k] < |w|
    ensures Carried(target, w, order, |order|)[a] == target[a]
  {
    hide Carried, AnyOrder;
    OrderInside(order, |w|);
    CarriedFrame(target, w, order, |order|, a);
  }

  /** Which write stores byte `b` of line `i`. */
  lemma WriteFor(len: nat, pos: seq<nat>, lines: seq<seq<byte>>, w: seq<ByteWrite>, i: nat, b: nat, a: nat) returns (x: nat)
    requires |pos| == |lines| && len > 0 && forall i :: 0 <= i < |lines| ==> |lines[i]| == len
    requires w == WritesOf(len, pos, lines) && i < |lines| && b < len && a == pos[i] * len + b
    ensures x < |w| && w[x] == ByteWrite(a, lines[i][b])
  {
    x := i * len + b;
    WriteOfByte(len, pos, lines, x, i, b);
    hide WritesOf;
  }

  /** No write goes to a line of no record. */
  lemma NoWriteFor(len: nat, pos: seq<nat>, lines: seq<seq<byte>>, w: seq<ByteWrite>, p: nat, b: nat, a: nat)
    requires |pos| == |lines| && len > 0 && forall i :: 0 <= i < |lines| ==> |lines[i]| == len
    requires w == WritesOf(len, pos, lines) && p !in pos && b < len && a == p * len + b
    ensures forall x :: 0 <= x < |w| ==> w[x].at != a
  {
    hide WritesOf;
    forall x | 0 <= x < |w| ensures w[x].at != a {
      LineOfByte(x, len, |lines|);
      WriteOfByte(len, pos, lines, x, x / len, x % len);
      ByteElsewhere(len, pos[x / len], x % len, p, b);
    }
  }

  lemma ByteElsewhere(len: nat, q: nat, c: nat, p: nat, b: nat)
    requires q != p && c < len && b < len
    ensures q * len + c != p * len + b
  {
    RemainderIs(q * len + c, len, q, c);
    RemainderIs(p * len + b, len, p, b);
  }

  lemma OrderInside(order: seq<nat>, n: nat)
    requires AnyOrder(order, n)
    ensures |order| == n && Injective(order) && forall k :: 0 <= k < |order| ==> order[k] < n
  {
  }

  lemma WhenCarried(order: seq<nat>, n: nat, x: nat) returns (k: nat)
    requires AnyOrder(order, n) && x < n
    ensures k < |order| == n && order[k] == x && Injective(order) && forall j :: 0 <= j < |order| ==> order[j] < n
  {
    Onto(order);
    assert x in order;
    k :| 0 <= k < |order| && order[k] == x;
  }

  lemma RecordsInRange(pack: PackView, records: seq<Record>, h: Hashing)
    requires pack.item == |records| && TablePerfect(pack.table, IdsOf(records, pack.seed, h.gen), h.l2)
    ensures Placeable(pack, records, h)
    ensures Injective(PosOf(pack, records, h)) && Bounded(PosOf(pack, records, h), pack.item)
  {
    hide Table.Pos, Table.InRange;
    var ids := IdsOf(records, pack.seed, h.gen);
    forall i | 0 <= i < |records|
      ensures pack.InRange(records[i].key, h) && pack.CalcPos(records[i].key, h) == pack.table.Pos(ids[i], h.l2) < pack.item
    {
      assert ids[i] == pack.IdOf(records[i].key, h);
    }
  }

  lemma FilledStores(pack: PackView, records: seq<Record>, target: seq<byte>, space: seq<byte>, h: Hashing)
    requires pack.item == |records| && FilledUpTo(pack, records, target, space, |records|, h)
    requires TablePerfect(pack.table, IdsOf(records, pack.seed, h.gen), h.l2)
    requires WellShapedUpTo(pack, records, |records|)
    ensures Stores(pack.(content := space), KeptAll(pack, records), h)
  {
    hide PackView.CalcPos, PlacedLines, KeyAt, PackView.InRange, TablePerfect, PackView.Line;
    var full, kept := pack.(content := space), KeptAll(pack, records);
    RecordsInRange(pack, records, h);
    PlacedLinesHold(target, pack.LineSize(), PosOf(pack, records, h), LinesOf(pack, records), |records|, pack.item);
    assert IdsOf(kept, full.seed, h.gen) == IdsOf(records, pack.seed, h.gen);
    forall i | 0 <= i < |records| ensures StoresAt(full, kept[i], h) {
      SamePos(pack, full, records[i].key, h);
      LineIsBlock(full, full.CalcPos(records[i].key, h));
    }
  }

  lemma SamePos(pack: PackView, full: PackView, key: seq<byte>, h: Hashing)
    requires full == pack.(content := full.content) && pack.InRange(key, h)
    ensures full.InRange(key, h) && full.CalcPos(key, h) == pack.CalcPos(key, h)
  {
  }

  lemma LineIsBlock(pack: PackView, pos: nat)
    requires pack.Sized() && pos < pack.item
    ensures pack.Line(pos) == KeyAt(pack.content, pack.LineSize(), pos)
  {
    pack.LineInside(pos);
  }

  // ---- The content of a pack with inline values -------------------------------------------------

  /** Each reader has its own thread from 4096 records per reader on. */
  predicate Parallel(readers: seq<seq<Record>>) {
    !(|readers| == 1 || |AllRecords(readers, |readers|)| < 4096 * |readers|)
  }

  /** The space as the threads leave it: all bytes of all lines stored, in any order. */
  ghost predicate StoredBy(pack: PackView, all: seq<Record>, h: Hashing, order: seq<nat>, written: seq<byte>) {
    exists before: seq<byte> :: StoredOver(pack, all, h, order, before, written)
  }

  ghost predicate StoredOver(pack: PackView, all: seq<Record>, h: Hashing, order: seq<nat>, before: seq<byte>,
                             written: seq<byte>) {
    && Placeable(pack, all, h) && LinesFit(pack, all) && pack.LineSize() > 0
    && |before| == pack.item * pack.LineSize()
    && var w := WritesOf(pack.LineSize(), PosOf(pack, all, h), LinesOf(pack, all));
       && AnyOrder(order, |w|) && (forall k :: 0 <= k < |order| ==> order[k] < |w| && w[order[k]].at < |before|)
       && written == Carried(before, w, order, |order|)
  }

  ghost predicate LinesFit(pack: PackView, all: seq<Record>) {
    forall i :: 0 <= i < |all| ==> |LinesOf(pack, all)[i]| == pack.LineSize()
  }

  lemma StoredIsFilled(pack: PackView, all: seq<Record>, h: Hashing, order: seq<nat>, written: seq<byte>)
    requires StoredBy(pack, all, h, order, written) && Injective(PosOf(pack, all, h))
    ensures exists before: seq<byte> :: FilledUpTo(pack, all, before, written, |all|, h)
  {
    hide PackView.CalcPos, PlacedLines, PackView.InRange, WritesOf, Carried, AnyOrder;
    var before: seq<byte> :| StoredOver(pack, all, h, order, before, written);
    AnyOrderFills(before, pack.LineSize(), PosOf(pack, all, h), LinesOf(pack, all), pack.item, order);
    assert FilledUpTo(pack, all, before, written, |all|, h);
  }

  lemma ShapesAre(pack: PackView, all: seq<Record>)
    ensures WellShapedUpTo(pack, all, |all|) <==> forall i :: 0 <= i < |all| ==>
              |all[i].key| == pack.keyLen && (pack.valLen == 0 || |all[i].val| == pack.valLen)
  {
    assert forall i :: 0 <= i < |all| ==>
      (WellShaped(pack, all[i]) <==> |all[i].key| == pack.keyLen && (pack.valLen == 0 || |all[i].val| == pack.valLen));
  }

  /** Every thread checks the records of its reader. */
  method CheckShapes(pack: PackView, readers: seq<seq<Record>>) returns (ok: bool)
    ensures ok <==> WellShapedUpTo(pack, AllRecords(readers, |readers|), |AllRecords(readers, |readers|)|)
  {
    hide AllRecords, WellShaped;
    ghost var all := AllRecords(readers, |readers|);
    NoRecordsYet(pack, readers);
    for t := 0 to |readers|
      invariant |AllRecords(readers, t)| <= |all| && WellShapedUpTo(pack, all, |AllRecords(readers, t)|)
    {
      ReaderStretch(readers, t);
      ShapedMore(pack, all, |AllRecords(readers, t)|, readers[t]);
      FewerShaped(pack, all, |AllRecords(readers, t)| + |readers[t]|);
      for i := 0 to |readers[t]|
        invariant WellShapedUpTo(pack, readers[t], i)
      {
        if !WellShaped(pack, readers[t][i]) {
          return false;
        }
      }
    }
    ok := true;
  }

  /** Fills in and writes out the content for all readers, one after the other or all at once: bad input exactly
      if some record is ill shaped; on success the content written stores exactly the records. */
  method FillInlineKeyValue(pack: PackView, readers: seq<seq<Record>>, w: Writer, h: Hashing, written: seq<byte>,
                            ghost order: seq<nat>)
    returns (status: BuildStatus, ghost content: seq<byte>)
    requires pack.keyLen > 0 && pack.item == |AllRecords(readers, |readers|)|
    requires TablePerfect(pack.table, IdsOf(AllRecords(readers, |readers|), pack.seed, h.gen), h.l2)
    requires Parallel(readers) && WellShapedUpTo(pack, AllRecords(readers, |readers|), pack.item) ==>
               StoredBy(pack, AllRecords(readers, |readers|), h, order, written)
    modifies w
    ensures var all := AllRecords(readers, |readers|);
            && (status != BadInput <==> forall i :: 0 <= i < |all| ==>
                  |all[i].key| == pack.keyLen && (pack.valLen == 0 || |all[i].val| == pack.valLen))
            && (status == FailToOutput ==> w.fails(old(w.calls)))
            && (status == Ok ==> !w.fails(old(w.calls)))
            && status in {Ok, BadInput, FailToOutput}
            && w.calls == old(w.calls) + (if status == BadInput then 0 else 1)
            && (status == Ok ==> w.out == old(w.out) + content)
            && (status == Ok && pack.valLen != 0 ==> Stores(pack.(content := content), all, h))
            && (status == Ok && pack.valLen == 0 ==> Stores(pack.(content := content), BareKeys(all), h))
  {
    hide FilledUpTo, TablePerfect, Stores, WellShapedUpTo, StoredBy, AllRecords;
    ghost var all := AllRecords(readers, |readers|);
    RecordsInRange(pack, all, h);
    ShapesAre(pack, all);
    var ok: bool, space: seq<byte>;
    ghost var before: seq<byte>;
    if !Parallel(readers) {
      MulMonotone(0, pack.item, pack.LineSize());
      var area := new byte[Times(pack.item, pack.LineSize())];
      before := area[..];
      ok := FillInTurn(pack, readers, area, h);
      space := area[..];
    } else {
      ok := CheckShapes(pack, readers);
      space := written;
      if ok {
        StoredIsFilled(pack, all, h, order, written);
        before :| FilledUpTo(pack, all, before, written, |all|, h);
      }
    }
    content := space;
    if !ok {
      return BadInput, content;
    }
    FilledStores(pack, all, before, space, h);
    var done := w.Write(space);
    status := if done then Ok else FailToOutput;
  }

  // ---- Finding the lines of keys ----------------------------------------------------------------

  /** Finds the line of every key, window by window; `None` stands for the all-ones position. */
  method BatchFindPos(pack: PackView, keys: seq<seq<byte>>, h: Hashing) returns (out: seq<Option<nat>>)
    requires pack.Sized() && forall i :: 0 <= i < |keys| ==> pack.InRange(keys[i], h)
    ensures |out| == |keys| && forall i :: 0 <= i < |keys| ==> out[i] == pack.FindLine(keys[i], h)
  {
    hide PackView.FindLine;
    out := [];
    while |out| < |keys|
      invariant |out| <= |keys| && forall i :: 0 <= i < |out| ==> out[i] == pack.FindLine(keys[i], h)
    {
      var m := Min(WINDOW_SIZE, |keys| - |out|);
      var found := FindWindow(pack, keys[|out|..|out| + m], h);
      out := out + found;
    }
  }

  method FindWindow(pack: PackView, keys: seq<seq<byte>>, h: Hashing) returns (out: seq<Option<nat>>)
    requires pack.Sized() && forall i :: 0 <= i < |keys| ==> pack.InRange(keys[i], h)
    ensures |out| == |keys| && forall i :: 0 <= i < |keys| ==> out[i] == pack.FindLine(keys[i], h)
  {
    hide PackView.CalcPos, PackView.Line, PackView.InRange;
    var pos := WindowPositions(pack, keys, h);
    out := [];
    for j := 0 to |keys|
      invariant |out| == j && forall i :: 0 <= i < j ==> out[i] == pack.FindLine(keys[i], h)
    {
      var hit := pos[j] < pack.item && pack.Line(pos[j])[..pack.keyLen] == keys[j];
      out := out + [if hit then Some(pos[j]) else None];
    }
  }
}
