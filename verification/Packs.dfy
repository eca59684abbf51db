/** A loaded pack, the scalar lookup in it, and what it means for a pack to store a map. */
module Packs {
  import opened Words
  import opened Ids
  import opened TableBuild

  datatype Option<+T> = None | Some(value: T)

  datatype PackType = IndexOnly | KeySet | KvInline | KvSeparated

  datatype Record = Record(key: seq<byte>, val: seq<byte>)

  /** The hash functions a pack is built and searched with; every theorem holds for all of them. */
  datatype Hashing = Hashing(gen: GenId, l2: L2Hash)

  datatype PackView = PackView(kind: PackType, keyLen: byte, valLen: u16, seed: u32, item: nat, table: Table,
                               content: seq<byte>, extend: seq<byte>) {

    function LineSize(): nat {
      keyLen + valLen
    }

    /** The content is a whole number of lines, one per item. */
    ghost predicate Sized() {
      |content| == item * LineSize()
    }

    /** The line at position `pos`. */
    function Line(pos: nat): (line: seq<byte>)
      requires Sized() && pos < item
      ensures |line| == LineSize()
    {
      LineInside(pos);
      content[pos * LineSize()..pos * LineSize() + LineSize()]
    }

    lemma LineInside(pos: nat)
      requires Sized() && pos < item
      ensures pos * LineSize() + LineSize() <= |content|
    {
      MulMonotone(pos + 1, item, LineSize());
    }

    function IdOf(key: seq<byte>, h: Hashing): Id {
      h.gen(seed, key)
    }

    /** The cell lookup of the key stays inside its segment, which only the all-ones code can violate. */
    ghost predicate InRange(key: seq<byte>, h: Hashing) {
      table.InRange(IdOf(key, h))
    }

    function CalcPos(key: seq<byte>, h: Hashing): nat
      requires InRange(key, h)
    {
      table.Pos(IdOf(key, h), h.l2)
    }

    /** The position of the line whose key is `key`. */
    function FindLine(key: seq<byte>, h: Hashing): (r: Option<nat>)
      requires Sized() && InRange(key, h)
      ensures r.Some? ==> r.value < item
    {
      var pos := CalcPos(key, h);
      if pos < item && Line(pos)[..keyLen] == key then Some(pos) else None
    }

    /** The scalar search of a pack with inline values. */
    function Search(key: seq<byte>, h: Hashing): Option<seq<byte>>
      requires Sized() && InRange(key, h)
    {
      match FindLine(key, h)
      case None => None
      case Some(pos) => Some(Line(pos)[keyLen..])
    }
  }

  // ---- Packs that store a map -------------------------------------------------------------------

  function KeysOf(records: seq<Record>): (keys: seq<seq<byte>>)
    ensures |keys| == |records| && forall i :: 0 <= i < |records| ==> keys[i] == records[i].key
  {
    seq(|records|, i requires 0 <= i < |records| => records[i].key)
  }

  function IdsOf(records: seq<Record>, seed: u32, gen: GenId): (ids: seq<Id>)
    ensures |ids| == |records| && forall i :: 0 <= i < |records| ==> ids[i] == gen(seed, records[i].key)
  {
    seq(|records|, i requires 0 <= i < |records| => gen(seed, records[i].key))
  }

  /** A well-built pack: a perfect table for the ids of its records, and each record on its own line. */
  ghost predicate Stores(pack: PackView, records: seq<Record>, h: Hashing) {
    && pack.Sized() && pack.item == |records|
    && (forall i :: 0 <= i < |records| ==> |records[i].key| == pack.keyLen && |records[i].val| == pack.valLen)
    && TablePerfect(pack.table, IdsOf(records, pack.seed, h.gen), h.l2)
    && (forall i :: 0 <= i < |records| ==> StoresAt(pack, records[i], h))
  }

  ghost predicate StoresAt(pack: PackView, rec: Record, h: Hashing) {
    && pack.Sized() && pack.InRange(rec.key, h) && pack.CalcPos(rec.key, h) < pack.item
    && pack.Line(pack.CalcPos(rec.key, h)) == rec.key + rec.val
  }

  /** The records as a map; in a well-built pack the keys are distinct. */
  ghost function Contents(records: seq<Record>): map<seq<byte>, seq<byte>> {
    if records == [] then map[]
    else Contents(records[..|records| - 1])[records[|records| - 1].key := records[|records| - 1].val]
  }

  lemma {:induction false} ContentsOf(records: seq<Record>, i: nat)
    requires i < |records| && forall x, y :: 0 <= x < y < |records| ==> records[x].key != records[y].key
    ensures records[i].key in Contents(records) && Contents(records)[records[i].key] == records[i].val
  {
    var rest := records[..|records| - 1];
    if i < |records| - 1 {
      ContentsOf(rest, i);
      assert records[i].key != records[|records| - 1].key;
    }
  }

  lemma {:induction false} ContentsOnly(records: seq<Record>, key: seq<byte>)
    requires forall i :: 0 <= i < |records| ==> records[i].key != key
    ensures key !in Contents(records)
  {
    if records != [] {
      ContentsOnly(records[..|records| - 1], key);
    }
  }

  /** The records of a well-built pack have distinct keys. */
  lemma StoresDistinct(pack: PackView, records: seq<Record>, h: Hashing)
    requires Stores(pack, records, h)
    ensures forall x, y :: 0 <= x < y < |records| ==> records[x].key != records[y].key
  {
    hide Table.Pos, Table.InRange, StoresAt;
    var ids := IdsOf(records, pack.seed, h.gen);
    TableIsBijective(pack.table, ids, h.l2);
    forall x, y | 0 <= x < y < |records| ensures records[x].key != records[y].key {
      assert ids[x] != ids[y];
    }
  }

  /** Whatever position a foreign key lands on, the line there is some record's line. */
  lemma EveryLineIsARecord(pack: PackView, records: seq<Record>, h: Hashing, pos: nat) returns (i: nat)
    requires Stores(pack, records, h) && pos < pack.item
    ensures i < |records| && pack.Line(pos) == records[i].key + records[i].val
    ensures pack.InRange(records[i].key, h) && pack.CalcPos(records[i].key, h) == pos
  {
    hide Table.Pos, Table.InRange, PackView.Line;
    var ids := IdsOf(records, pack.seed, h.gen);
    TableIsBijective(pack.table, ids, h.l2);
    var f := TablePositions(pack.table, ids, h.l2);
    assert pos in f;
    i :| 0 <= i < |f| && f[i] == pos;
    assert StoresAt(pack, records[i], h);
  }

  /** The lookup is map lookup: the stored value for a stored key, nothing for any other key. */
  lemma LookupIsMap(pack: PackView, records: seq<Record>, h: Hashing, key: seq<byte>)
    requires Stores(pack, records, h) && pack.InRange(key, h)
    ensures pack.Search(key, h) == if key in Contents(records) then Some(Contents(records)[key]) else None
    ensures pack.FindLine(key, h).Some? <==> key in Contents(records)
  {
    hide Table.Pos, Table.InRange, TablePerfect, PackView.Line;
    StoresDistinct(pack, records, h);
    if i :| 0 <= i < |records| && records[i].key == key {
      assert StoresAt(pack, records[i], h);
      ContentsOf(records, i);
      LineParts(pack, records[i], pack.CalcPos(key, h));
    } else {
      ContentsOnly(records, key);
      var pos := pack.CalcPos(key, h);
      if pos < pack.item {
        var i := EveryLineIsARecord(pack, records, h, pos);
        LineParts(pack, records[i], pos);
      }
    }
  }

  lemma LineParts(pack: PackView, rec: Record, pos: nat)
    requires pack.Sized() && pos < pack.item && pack.Line(pos) == rec.key + rec.val && |rec.key| == pack.keyLen
    ensures pack.Line(pos)[..pack.keyLen] == rec.key && pack.Line(pos)[pack.keyLen..] == rec.val
  {
    hide PackView.Line;
  }
}
