/**
  What a query returns, said of the bytes a server sends: row descriptions and data rows laid
  out as the PostgreSQL 3.0 protocol has them, and the value each column stands for.
 */
module PgReplies {
  import opened Bytes
  import opened Wrappers
  import opened HyperCodec
  import opened PgRows
  import opened ByteStreams
  import opened WireFraming
  import opened PgQueries

  // ----- row descriptions -----

  /** What a row description says of one column. */
  datatype ColumnInfo = ColumnInfo(
    name: Text, tableOid: int, attribute: int, typeOid: Int32, size: int, modifier: int, format: nat)

  function MetadataBytes(c: ColumnInfo): (r: Data)
    ensures |r| == 18
  {
    BE32(c.tableOid) + BE16(c.attribute) + BE32(c.typeOid) + BE16(c.size) + BE32(c.modifier) + BE16(c.format)
  }

  function InfoBytes(c: ColumnInfo): Data {
    c.name + [0] + MetadataBytes(c)
  }

  function InfosBytes(cs: seq<ColumnInfo>): Data {
    if cs == [] then [] else InfoBytes(cs[0]) + InfosBytes(cs[1..])
  }

  function DescriptionBytes(cs: seq<ColumnInfo>): Data {
    BE16(|cs|) + InfosBytes(cs)
  }

  /** Names without zero bytes, and counts and formats of 16 bits. */
  predicate Describable(cs: seq<ColumnInfo>) {
    |cs| < TWO_TO_16 && forall i :: 0 <= i < |cs| ==> 0 !in cs[i].name && cs[i].format < TWO_TO_16
  }

  /** The columns as the query knows them. */
  function FieldsOf(cs: seq<ColumnInfo>): (r: seq<FieldDescription>)
    ensures |r| == |cs|
  {
    if cs == [] then []
    else [FieldDescription(DecodeUtf8(cs[0].name), cs[0].typeOid, cs[0].format)] + FieldsOf(cs[1..])
  }

  lemma {:induction false} NulFound(data: Data, pos: nat, name: Data)
    requires At(data, pos, name + [0]) && 0 !in name
    ensures NulAt(data, pos) == pos + |name|
    decreases |name|
  {
    AtBytes(data, pos, name + [0]);
    assert data[pos + 0] == (name + [0])[0];
    if name != [] {
      assert name + [0] == [name[0]] + (name[1..] + [0]);
      AtConcat(data, pos, [name[0]], name[1..] + [0]);
      NulFound(data, pos + 1, name[1..]);
    }
  }

  /** Where the type and the format stand in a column's metadata. */
  lemma MetadataAt(data: Data, at: nat, c: ColumnInfo)
    requires At(data, at, MetadataBytes(c)) && c.format < TWO_TO_16
    ensures at + 18 <= |data|
    ensures Signed32(ReadBE32(data, at + 6)) == c.typeOid && ReadBE16(data, at + 16) == c.format
  {
    hide At, BE16, BE32, ReadBE16, ReadBE32;
    var a, b, d, e, f, g := BE32(c.tableOid), BE16(c.attribute), BE32(c.typeOid), BE16(c.size), BE32(c.modifier),
      BE16(c.format);
    AtConcat(data, at, a + b + d + e + f, g);
    AtConcat(data, at, a + b + d + e, f);
    AtConcat(data, at, a + b + d, e);
    AtConcat(data, at, a + b, d);
    ShortRoundTrip(data, at + 16, c.format);
    SignedAt(data, at + 6, c.typeOid);
  }

  lemma SignedAt(data: Data, at: nat, v: Int32)
    requires At(data, at, BE32(v))
    ensures at + 4 <= |data| && Signed32(ReadBE32(data, at)) == v
  {
    hide LE16, LE24, LE32, BE16, BE32, ReadLE16, ReadLE24, ReadLE32, ReadBE16, ReadBE32;
    WordRoundTrip(data, at, v);
    if v >= 0 {
      SmallRemainder(v);
    }
  }

  lemma InfoAt(data: Data, pos: nat, c: ColumnInfo, more: Data)
    requires At(data, pos, InfoBytes(c) + more) && 0 !in c.name && c.format < TWO_TO_16
    ensures var nul := NulAt(data, pos);
      && nul + 19 <= |data| && At(data, nul + 19, more)
      && DescribedAt(data, pos, nul) == FieldDescription(DecodeUtf8(c.name), c.typeOid, c.format)
  {
    hide MetadataBytes, NulAt, FastDecode, ReadBE16, ReadBE32, DecodeUtf8;
    AtConcat(data, pos, InfoBytes(c), more);
    AtConcat(data, pos, c.name + [0], MetadataBytes(c));
    AtConcat(data, pos, c.name, [0]);
    NulFound(data, pos, c.name);
    MetadataAt(data, pos + |c.name| + 1, c);
    FastDecodeIsDecode(c.name);
  }

  lemma {:induction false} InfosAt(data: Data, pos: nat, cs: seq<ColumnInfo>, done: seq<FieldDescription>)
    requires Describable(cs) && At(data, pos, InfosBytes(cs))
    ensures Described(data, pos, |cs|, done) == Some(done + FieldsOf(cs))
    decreases |cs|
  {
    hide InfoBytes, NulAt, DescribedAt, DecodeUtf8;
    if cs == [] {
      assert done + [] == done;
    } else {
      InfoAt(data, pos, cs[0], InfosBytes(cs[1..]));
      var first := FieldDescription(DecodeUtf8(cs[0].name), cs[0].typeOid, cs[0].format);
      InfosAt(data, NulAt(data, pos) + 19, cs[1..], done + [first]);
      assert done + [first] + FieldsOf(cs[1..]) == done + ([first] + FieldsOf(cs[1..]));
    }
  }

  /** Reading a description, whatever follows it, gives every column's name, type and format. */
  lemma DescriptionRead(cs: seq<ColumnInfo>, tail: Data)
    requires Describable(cs)
    ensures Description(DescriptionBytes(cs) + tail) == Some(FieldsOf(cs))
  {
    hide Described, InfosBytes, BE16, ReadBE16, FieldsOf;
    var data := DescriptionBytes(cs) + tail;
    assert data[..|DescriptionBytes(cs)|] == DescriptionBytes(cs);
    assert At(data, 0, DescriptionBytes(cs));
    AtConcat(data, 0, BE16(|cs|), InfosBytes(cs));
    ShortRoundTrip(data, 0, |cs|);
    InfosAt(data, 2, cs, []);
    assert [] + FieldsOf(cs) == FieldsOf(cs);
  }

  // ----- data rows -----

  function CellBytes(cell: Option<Data>): Data {
    match cell
    case None => BE32(-1)
    case Some(d) => BE32(|d|) + d
  }

  function CellsBytes(cells: seq<Option<Data>>): Data {
    if cells == [] then [] else CellBytes(cells[0]) + CellsBytes(cells[1..])
  }

  function RowBytes(cells: seq<Option<Data>>): Data {
    BE16(|cells|) + CellsBytes(cells)
  }

  /** Four bytes, the highest first, as a signed number. */
  function SignedOf(d: Data): Int32
    requires |d| >= 4
  {
    var word := BigEndian(d[..4]);
    FourBytes(d[0], d[1], d[2], d[3]);
    assert d[..4] == [d[0], d[1], d[2], d[3]];
    if word < TWO_TO_31 then word else word - TWO_TO_32
  }

  /** The types whose binary form has a conversion of its own: bytes, numbers, times, JSON, UUIDs and arrays. */
  const CONVERTED := {17, 20, 21, 114, 700, 701, 1114, 1184, 2950, 3802}
    + {1000, 1005, 1007, 1016, 1009, 1015, 1021, 1022}

  /** What a column of this type and format stands for; None when decoding it throws. */
  function ValueOf(p: Protocol, f: FieldDescription, cell: Option<Data>): Option<Value>
    requires FullCell(f, cell)
  {
    if cell.None? then Some(Null)
    else
      var d := cell.value;
      if f.oid in {25, 1043} then Some(Str(DecodeUtf8(d)))
      else if f.format == 0 then
        if f.oid == 16 then Some(Bool(DecodeUtf8(d) == ['t' as int]))
        else if f.oid in {20, 21, 23} then Some(p.parseInt(DecodeUtf8(d)))
        else if f.oid in {114, 700, 701, 1082, 1114, 1184, 1700, 3802} then p.textual(f.oid, DecodeUtf8(d))
        else Some(Str(DecodeUtf8(d)))
      else if f.oid == 23 then Some(Int(SignedOf(d)))
      else if f.oid in p.custom then p.custom[f.oid](d)
      else if f.oid == 16 then Some(Bool(d == [] || d[0] != 0))
      else if f.oid in CONVERTED then p.binary(f.oid, d)
      else Some(Str(DecodeUtf8(d)))
  }

  /** A binary INT4 has its four bytes. */
  predicate FullCell(f: FieldDescription, cell: Option<Data>) {
    cell.Some? && f.format != 0 && f.oid == 23 ==> |cell.value| >= 4
  }

  predicate Sendable(cells: seq<Option<Data>>) {
    |cells| < TWO_TO_16 && forall i :: 0 <= i < |cells| && cells[i].Some? ==> |cells[i].value| < TWO_TO_31
  }

  predicate FullCells(fields: seq<FieldDescription>, cells: seq<Option<Data>>) {
    forall i :: 0 <= i < |fields| && i < |cells| ==> FullCell(fields[i], cells[i])
  }

  /** The described columns by name, from the i-th on; None if decoding one throws. */
  function PairsOf(p: Protocol, fields: seq<FieldDescription>, cells: seq<Option<Data>>, i: nat): Option<seq<Field>>
    requires FullCells(fields, cells)
    decreases |cells| - i
  {
    if i >= |cells| || i >= |fields| then Some([])
    else
      var value := ValueOf(p, fields[i], cells[i]);
      var rest := PairsOf(p, fields, cells, i + 1);
      if value.None? || rest.None? then None else Some([Field(fields[i].name, value.value)] + rest.value)
  }

  lemma CellAt(data: Data, pos: nat, cell: Option<Data>, more: Data)
    requires At(data, pos, CellBytes(cell) + more) && (cell.Some? ==> |cell.value| < TWO_TO_31)
    ensures SlotFits(data, pos) && At(data, NextSlot(data, pos), more)
    ensures SlotLength(data, pos) == if cell.None? then -1 else |cell.value|
    ensures cell.Some? ==> At(data, pos + 4, cell.value)
  {
    hide BE32, ReadBE32;
    AtConcat(data, pos, CellBytes(cell), more);
    match cell
    case None => LengthRoundTrip(data, pos, -1);
    case Some(d) =>
      AtConcat(data, pos, BE32(|d|), d);
      LengthRoundTrip(data, pos, |d|);
  }

  lemma IntCell(data: Data, at: nat, d: Data)
    requires |d| >= 4 && At(data, at, d)
    ensures ReadInt32(data, at) == SignedOf(d)
  {
    AtBytes(data, at, d);
    assert data[at + 0] == d[0] && data[at + 1] == d[1] && data[at + 2] == d[2] && data[at + 3] == d[3];
    assert d[..4] == [d[0], d[1], d[2], d[3]];
    FourBytes(d[0], d[1], d[2], d[3]);
  }

  lemma CellRead(p: Protocol, data: Data, pos: nat, f: FieldDescription, cell: Option<Data>)
    requires SlotFits(data, pos) && FullCell(f, cell)
    requires SlotLength(data, pos) == if cell.None? then -1 else |cell.value|
    requires cell.Some? ==> At(data, pos + 4, cell.value)
    ensures EagerCell(p, data, pos, f) == ValueOf(p, f, cell)
  {
    hide DecodeUtf8, FastDecode, SlotLength, SignedOf, ReadInt32;
    if cell.Some? {
      FastDecodeIsDecode(cell.value);
      if |cell.value| >= 4 { IntCell(data, pos + 4, cell.value); }
      if f.format != 0 { BinaryRead(p, f.oid, cell.value); }
    }
  }

  lemma BinaryRead(p: Protocol, oid: int, d: Data)
    ensures oid != 23 && oid !in {25, 1043} && oid !in p.custom ==>
      DecodeBinaryValue(p, d, oid) ==
        if oid == 16 then Some(Bool(d == [] || d[0] != 0))
        else if oid in CONVERTED then p.binary(oid, d)
        else Some(Str(DecodeUtf8(d)))
  {
    hide DecodeUtf8;
  }

  lemma {:induction false} CellsRead(p: Protocol, data: Data, pos: nat, fields: seq<FieldDescription>,
      cells: seq<Option<Data>>, i: nat, done: seq<Field>)
    requires i <= |cells| && Sendable(cells) && FullCells(fields, cells) && At(data, pos, CellsBytes(cells[i..]))
    ensures var pairs := PairsOf(p, fields, cells, i);
      EagerPairs(p, data, pos, fields, i, |cells|, done) ==
        if pairs.None? then Failure(DecoderThrew) else Success(done + pairs.value)
    decreases |cells| - i
  {
    hide CellBytes, EagerCell, ValueOf, SlotLength, SlotFits, FullCell;
    if i == |cells| {
      assert done + [] == done;
    } else {
      assert cells[i..] == [cells[i]] + cells[i + 1..];
      CellAt(data, pos, cells[i], CellsBytes(cells[i + 1..]));
      PairStep(p, data, pos, fields, i, |cells|, done);
      if i < |fields| {
        CellRead(p, data, pos, fields[i], cells[i]);
        var value := ValueOf(p, fields[i], cells[i]);
        if value.Some? {
          var field := Field(fields[i].name, value.value);
          CellsRead(p, data, NextSlot(data, pos), fields, cells, i + 1, done + [field]);
          var rest := PairsOf(p, fields, cells, i + 1);
          if rest.Some? {
            assert done + [field] + rest.value == done + ([field] + rest.value);
          }
        }
      } else {
        CellsRead(p, data, NextSlot(data, pos), fields, cells, i + 1, done);
      }
    }
  }

  /** One column of the row parser's loop. */
  lemma PairStep(p: Protocol, data: Data, pos: nat, fields: seq<FieldDescription>, i: nat, count: nat, done: seq<Field>)
    requires i < count && SlotFits(data, pos)
    ensures EagerPairs(p, data, pos, fields, i, count, done) ==
      if i >= |fields| then EagerPairs(p, data, NextSlot(data, pos), fields, i + 1, count, done)
      else
        var cell := EagerCell(p, data, pos, fields[i]);
        if cell.None? then Failure(DecoderThrew)
        else EagerPairs(p, data, NextSlot(data, pos), fields, i + 1, count, done + [Field(fields[i].name, cell.value)])
  {
    hide EagerCell;
  }

  /** Parsing the bytes of a row gives each described column under its name, or fails where decoding one throws. */
  lemma RowRead(p: Protocol, fields: seq<FieldDescription>, cells: seq<Option<Data>>)
    requires Sendable(cells) && FullCells(fields, cells)
    ensures var pairs := PairsOf(p, fields, cells, 0);
      ParsedPairs(p, RowBytes(cells), fields) ==
        if pairs.None? then Failure(DecoderThrew) else Success(pairs.value)
  {
    hide EagerPairs, CellsBytes, BE16, ReadBE16, PairsOf, FullCells;
    var data := RowBytes(cells);
    assert At(data, 0, data);
    AtConcat(data, 0, BE16(|cells|), CellsBytes(cells));
    ShortRoundTrip(data, 0, |cells|);
    assert cells[0..] == cells;
    CellsRead(p, data, 2, fields, cells, 0, []);
    var pairs := PairsOf(p, fields, cells, 0);
    if pairs.Some? {
      assert [] + pairs.value == pairs.value;
    }
  }

  // ----- whole replies -----

  function DataRows(rows: seq<seq<Option<Data>>>): seq<PgMessage> {
    if rows == [] then [] else [PgMessage(DATA_ROW, RowBytes(rows[0]))] + DataRows(rows[1..])
  }

  /** The rows as objects; None if decoding a column throws. */
  function Objects(p: Protocol, fields: seq<FieldDescription>, rows: seq<seq<Option<Data>>>): Option<seq<seq<Field>>>
    requires forall i :: 0 <= i < |rows| ==> FullCells(fields, rows[i])
    decreases |rows|
  {
    if rows == [] then Some([])
    else
      var pairs := PairsOf(p, fields, rows[0], 0);
      var rest := Objects(p, fields, rows[1..]);
      if pairs.None? || rest.None? then None else Some([AssignAll(pairs.value)] + rest.value)
  }

  /** A message that says nothing of rows, such as the completion of the command. */
  predicate Silent(m: PgMessage) {
    m.kind !in {DATA_ROW, ERROR_RESPONSE, ROW_DESCRIPTION, READY}
  }

  /** A data row adds its object, or ends the query. */
  lemma RowAdds(p: Protocol, fields: seq<FieldDescription>, done: seq<seq<Field>>, row: Data, rest: seq<PgMessage>)
    ensures var parsed := ParsedPairs(p, row, fields);
      ResultOf(p, fields, done, [PgMessage(DATA_ROW, row)] + rest) ==
        if parsed.Failure? then Thrown
        else ResultOf(p, fields, done + [AssignAll(parsed.value)], rest)
  {
    hide ParsedPairs, AssignAll;
    assert ([PgMessage(DATA_ROW, row)] + rest)[1..] == rest;
  }

  lemma RowsEnd(p: Protocol, fields: seq<FieldDescription>, done: seq<seq<Field>>, last: seq<PgMessage>)
    requires |last| == 2 && Silent(last[0]) && last[1].kind == READY
    ensures ResultOf(p, fields, done, last) == Rows(done)
  {
    hide ParsedPairs, Description;
    assert last[1..][0] == last[1];
  }

  lemma {:induction false} RowsResult(p: Protocol, fields: seq<FieldDescription>, done: seq<seq<Field>>,
      rows: seq<seq<Option<Data>>>, last: seq<PgMessage>)
    requires forall i :: 0 <= i < |rows| ==> Sendable(rows[i]) && FullCells(fields, rows[i])
    requires |last| == 2 && Silent(last[0]) && last[1].kind == READY
    ensures var objects := Objects(p, fields, rows);
      ResultOf(p, fields, done, DataRows(rows) + last) == if objects.None? then Thrown else Rows(done + objects.value)
    decreases |rows|
  {
    hide RowBytes, ParsedPairs, PairsOf, AssignAll, FullCells, Sendable, ResultOf, Silent;
    var ms := DataRows(rows) + last;
    if rows == [] {
      assert ms == last && done + [] == done;
      RowsEnd(p, fields, done, last);
    } else {
      RowRead(p, fields, rows[0]);
      RowAdds(p, fields, done, RowBytes(rows[0]), DataRows(rows[1..]) + last);
      assert ms == [PgMessage(DATA_ROW, RowBytes(rows[0]))] + (DataRows(rows[1..]) + last);
      var pairs := PairsOf(p, fields, rows[0], 0);
      if pairs.Some? {
        RowsResult(p, fields, done + [AssignAll(pairs.value)], rows[1..], last);
        var rest := Objects(p, fields, rows[1..]);
        if rest.Some? {
          assert done + [AssignAll(pairs.value)] + rest.value == done + ([AssignAll(pairs.value)] + rest.value);
        }
      }
    }
  }

  /** A description, the rows and the end of a query. */
  function ReplyOf(cs: seq<ColumnInfo>, rows: seq<seq<Option<Data>>>, complete: PgMessage, ready: PgMessage)
    : seq<PgMessage>
  {
    [PgMessage(ROW_DESCRIPTION, DescriptionBytes(cs))] + (DataRows(rows) + [complete, ready])
  }

  /**
    A query that is sent a description and rows returns, for each row, the object of its columns by name; or
    throws if decoding a column does.
   */
  lemma RowsReturned(p: Protocol, cs: seq<ColumnInfo>, rows: seq<seq<Option<Data>>>, complete: PgMessage,
      ready: PgMessage)
    requires Describable(cs) && Silent(complete) && ready.kind == READY
    requires forall i :: 0 <= i < |rows| ==> Sendable(rows[i]) && FullCells(FieldsOf(cs), rows[i])
    ensures var objects := Objects(p, FieldsOf(cs), rows);
      PgQueries.Result(p, ReplyOf(cs, rows, complete, ready)) ==
        if objects.None? then Thrown else Rows(objects.value)
  {
    hide DescriptionBytes, DataRows, Objects, FieldsOf, Description, FullCells, Sendable;
    var rest := DataRows(rows) + [complete, ready];
    var ms := ReplyOf(cs, rows, complete, ready);
    assert ms[0] == PgMessage(ROW_DESCRIPTION, DescriptionBytes(cs)) && ms[1..] == rest;
    DescriptionRead(cs, []);
    assert DescriptionBytes(cs) + [] == DescriptionBytes(cs);
    RowsResult(p, FieldsOf(cs), [], rows, [complete, ready]);
    var objects := Objects(p, FieldsOf(cs), rows);
    if objects.Some? {
      assert [] + objects.value == objects.value;
    }
  }

  /** The query reading such a reply off any chunks returns those objects. */
  method ReadRows(p: Protocol, cs: seq<ColumnInfo>, rows: seq<seq<Option<Data>>>, complete: PgMessage, ready: PgMessage,
      ghost tail: Data, chunks: seq<Data>) returns (r: QueryResult)
    requires Describable(cs) && Silent(complete) && ready.kind == READY
    requires forall i :: 0 <= i < |rows| ==> Sendable(rows[i]) && FullCells(FieldsOf(cs), rows[i])
    requires AllFrameable(ReplyOf(cs, rows, complete, ready))
    requires Concat(chunks) == PgFrames(ReplyOf(cs, rows, complete, ready)) + tail
    ensures Objects(p, FieldsOf(cs), rows).Some? ==> r == Rows(Objects(p, FieldsOf(cs), rows).value)
    ensures Objects(p, FieldsOf(cs), rows).None? ==> r == Thrown
  {
    RowsReturned(p, cs, rows, complete, ready);
    ghost var ms := ReplyOf(cs, rows, complete, ready);
    EndsWithReady(p, [], ms);
    r := ReadChunkedReply(p, ReplyOf(cs, rows, complete, ready), tail, chunks);
  }

  lemma {:induction false} EndsWithReady(p: Protocol, fields: seq<FieldDescription>, ms: seq<PgMessage>)
    requires ms != [] && ms[|ms| - 1].kind == READY
    ensures Ending(p, fields, ms)
    decreases |ms|
  {
    hide Fails, FieldsAfter;
    if |ms| > 1 {
      assert ms[1..][|ms| - 2] == ms[|ms| - 1];
      EndsWithReady(p, FieldsAfter(fields, ms[0]), ms[1..]);
    }
  }
}
