/**
  PostgreSQL data rows read two ways: the eager parser that decodes every column
  at once, and the lazy reader that finds column offsets on first use and
  remembers each decoded value.
 */
module PgRows {
  import opened Bytes
  import opened Wrappers
  import opened HyperCodec

  const OID_BOOL := 16
  const OID_BYTEA := 17
  const OID_INT8 := 20
  const OID_INT2 := 21
  const OID_INT4 := 23
  const OID_TEXT := 25
  const OID_JSON := 114
  const OID_FLOAT4 := 700
  const OID_FLOAT8 := 701
  const OID_VARCHAR := 1043
  const OID_DATE := 1082
  const OID_TIMESTAMP := 1114
  const OID_TIMESTAMPTZ := 1184
  const OID_NUMERIC := 1700
  const OID_UUID := 2950
  const OID_JSONB := 3802
  const ARRAY_OIDS := {1000, 1005, 1007, 1016, 1009, 1015, 1021, 1022}

  datatype FieldDescription = FieldDescription(name: Text, oid: int, format: int)

  /**
    The conversions this model does not look into: `parseInt`, the remaining
    text and binary conversions (None when they throw), and registered decoders.
   */
  datatype Protocol = Protocol(
    parseInt: Text -> Value,
    textual: (int, Text) -> Option<Value>,
    binary: (int, Data) -> Option<Value>,
    custom: map<int, Data -> Option<Value>>)

  datatype RowError = RowTooShort | LengthTruncated | NegativeLength | DataTruncated | DecoderThrew

  // ----- decoding one column -----

  predicate Ascii(d: Data) {
    forall k :: 0 <= k < |d| ==> d[k] <= 127
  }

  /** The string reader with a fast path for short ASCII. */
  function FastDecode(d: Data): Text {
    if d == [] then []
    else if |d| < 64 && Ascii(d) then d
    else DecodeUtf8(d)
  }

  lemma FastDecodeIsDecode(d: Data)
    ensures FastDecode(d) == DecodeUtf8(d)
  {
    if |d| >= 3 && Ascii(d) {
      assert d[..3][0] == d[0] <= 127;
    }
  }

  /** `buf[i]` in an int32 expression: past the end it is undefined, which counts as 0. */
  function ByteOr0(d: Data, i: nat): Byte {
    if i < |d| then d[i] else 0
  }

  /** `readInt32`, which does not look at the column's length. */
  function ReadInt32(d: Data, at: nat): Int32 {
    Signed32(Word(ByteOr0(d, at + 3), ByteOr0(d, at + 2), ByteOr0(d, at + 1), ByteOr0(d, at)))
  }

  function DecodeTextValue(p: Protocol, text: Text, oid: int): Option<Value> {
    if oid == OID_BOOL then Some(Bool(text == [116]))
    else if oid in {OID_INT2, OID_INT4, OID_INT8} then Some(p.parseInt(text))
    else if oid in {OID_FLOAT4, OID_FLOAT8, OID_NUMERIC, OID_JSON, OID_JSONB, OID_DATE, OID_TIMESTAMP,
      OID_TIMESTAMPTZ} then
      p.textual(oid, text)
    else Some(Str(text))
  }

  /** The types whose binary form is read as a plain string. */
  predicate DecodesAsString(oid: int) {
    && oid !in {OID_BOOL, OID_BYTEA, OID_INT2, OID_INT4, OID_INT8, OID_FLOAT4, OID_FLOAT8, OID_TIMESTAMP,
      OID_TIMESTAMPTZ}
    && oid !in {OID_JSON, OID_JSONB, OID_UUID}
    && oid !in ARRAY_OIDS
  }

  function DecodeBinaryValue(p: Protocol, buf: Data, oid: int): Option<Value> {
    if oid in p.custom then p.custom[oid](buf)
    else if oid == OID_BOOL then Some(Bool(|buf| == 0 || buf[0] != 0))
    else if oid == OID_INT4 then
      if |buf| < 4 then None else Some(Int(Signed32(ReadBE32(buf, 0))))
    else if DecodesAsString(oid) then Some(Str(DecodeUtf8(buf)))
    else p.binary(oid, buf)
  }

  // ----- where the columns are -----

  /** The length word at `pos`; -1 marks a null. */
  function SlotLength(data: Data, pos: nat): Int32
    requires pos + 4 <= |data|
  {
    Signed32(ReadBE32(data, pos))
  }

  /** A whole column stands at `pos`. */
  predicate SlotFits(data: Data, pos: nat) {
    && pos + 4 <= |data|
    && SlotLength(data, pos) >= -1
    && (SlotLength(data, pos) >= 0 ==> pos + 4 + SlotLength(data, pos) <= |data|)
  }

  function NextSlot(data: Data, pos: nat): (r: nat)
    requires SlotFits(data, pos)
    ensures pos < r <= |data|
  {
    if SlotLength(data, pos) == -1 then pos + 4 else pos + 4 + SlotLength(data, pos)
  }

  /** `k` whole columns stand one after the other from `pos`. */
  predicate SlotsFit(data: Data, pos: nat, k: nat)
    decreases k
  {
    k == 0 || (SlotFits(data, pos) && SlotsFit(data, NextSlot(data, pos), k - 1))
  }

  /** Where the column after the first `k` starts. */
  function SlotPos(data: Data, pos: nat, k: nat): (r: nat)
    requires SlotsFit(data, pos, k)
    decreases k
  {
    if k == 0 then pos else SlotPos(data, NextSlot(data, pos), k - 1)
  }

  lemma {:induction false} SlotSnoc(data: Data, pos: nat, k: nat, n: nat)
    requires k < n && SlotsFit(data, pos, n)
    ensures SlotsFit(data, pos, k) && SlotsFit(data, pos, k + 1)
    ensures SlotFits(data, SlotPos(data, pos, k))
    ensures SlotPos(data, pos, k + 1) == NextSlot(data, SlotPos(data, pos, k))
    decreases k
  {
    if k > 0 {
      SlotSnoc(data, NextSlot(data, pos), k - 1, n - 1);
    }
  }

  lemma ReadInt32IsSlotLength(data: Data, pos: nat)
    requires pos + 4 <= |data|
    ensures ReadInt32(data, pos) == SlotLength(data, pos)
  {
  }

  // ----- the eager parser -----

  /** What the eager parser makes of the column at `pos`. */
  function EagerCell(p: Protocol, data: Data, pos: nat, f: FieldDescription): Option<Value>
    requires SlotFits(data, pos)
  {
    var len := SlotLength(data, pos);
    var at := pos + 4;
    if len == -1 then Some(Null)
    else if f.format == 0 then
      var text := FastDecode(data[at..at + len]);
      if f.oid == OID_INT4 then Some(p.parseInt(text))
      else if f.oid == OID_VARCHAR || f.oid == OID_TEXT then Some(Str(text))
      else if f.oid == OID_BOOL then Some(Bool(text == [116]))
      else DecodeTextValue(p, text, f.oid)
    else if f.oid == OID_INT4 then Some(Int(ReadInt32(data, at)))
    else if f.oid == OID_VARCHAR || f.oid == OID_TEXT then Some(Str(FastDecode(data[at..at + len])))
    else DecodeBinaryValue(p, data[at..at + len], f.oid)
  }

  /** The columns from index `i` on, appended to those in `done`; extra columns are skipped. */
  function EagerPairs(p: Protocol, data: Data, pos: nat, fields: seq<FieldDescription>, i: nat, count: nat,
      done: seq<Field>)
    : (r: Result<seq<Field>, RowError>)
    requires i <= count
    ensures r.Success? ==> done <= r.value && SlotsFit(data, pos, count - i)
    decreases count - i
  {
    if i == count then Success(done)
    else if pos + 4 > |data| then Failure(LengthTruncated)
    else if SlotLength(data, pos) < -1 then Failure(NegativeLength)
    else if !SlotFits(data, pos) then Failure(DataTruncated)
    else if i >= |fields| then EagerPairs(p, data, NextSlot(data, pos), fields, i + 1, count, done)
    else
      match EagerCell(p, data, pos, fields[i])
      case None => Failure(DecoderThrew)
      case Some(v) =>
        EagerPairs(p, data, NextSlot(data, pos), fields, i + 1, count, done + [Field(fields[i].name, v)])
  }

  /** Of columns that fit the first ones do. */
  lemma {:induction false} FewerFit(data: Data, pos: nat, k: nat, n: nat)
    requires SlotsFit(data, pos, n)
    ensures k <= n ==> SlotsFit(data, pos, k)
    decreases n
  {
    hide SlotFits, NextSlot;
    if 0 < k <= n {
      FewerFit(data, NextSlot(data, pos), k - 1, n - 1);
    }
  }

  function ParsedPairs(p: Protocol, data: Data, fields: seq<FieldDescription>): (r: Result<seq<Field>, RowError>)
    ensures r.Success? ==> |data| >= 2
    ensures r.Success? && |fields| <= ReadBE16(data, 0) ==> SlotsFit(data, 2, |fields|)
  {
    if |data| < 2 then Failure(RowTooShort)
    else
      var r := EagerPairs(p, data, 2, fields, 0, ReadBE16(data, 0), []);
      if r.Success? then
        FewerFit(data, 2, |fields|, ReadBE16(data, 0));
        r
      else r
  }

  /** One turn of the row parser's loop. */
  lemma {:induction false} RowStep(p: Protocol, data: Data, pos: nat, fields: seq<FieldDescription>, i: nat,
      count: nat, done: seq<Field>)
    requires i < count
    ensures pos + 4 > |data| ==> EagerPairs(p, data, pos, fields, i, count, done) == Failure(LengthTruncated)
    ensures pos + 4 <= |data| ==>
      var length := ReadInt32(data, pos);
      if length < -1 then EagerPairs(p, data, pos, fields, i, count, done) == Failure(NegativeLength)
      else if length >= 0 && pos + 4 + length > |data| then
        EagerPairs(p, data, pos, fields, i, count, done) == Failure(DataTruncated)
      else
        var next := if length == -1 then pos + 4 else pos + 4 + length;
        && SlotFits(data, pos)
        && EagerPairs(p, data, pos, fields, i, count, done) ==
           if i >= |fields| then EagerPairs(p, data, next, fields, i + 1, count, done)
           else
             var cell := EagerCell(p, data, pos, fields[i]);
             if cell.None? then Failure(DecoderThrew)
             else EagerPairs(p, data, next, fields, i + 1, count, done + [Field(fields[i].name, cell.value)])
  {
    hide EagerCell, SlotsFit, ReadInt32, SlotLength;
    if pos + 4 <= |data| {
      ReadInt32IsSlotLength(data, pos);
    }
  }

  lemma RowEnd(p: Protocol, data: Data, pos: nat, fields: seq<FieldDescription>, count: nat, done: seq<Field>)
    ensures EagerPairs(p, data, pos, fields, count, count, done) == Success(done)
  {
  }

  lemma NoPairs()
    ensures AssignAll([]) == []
  {
  }

  lemma AssignSnoc(pairs: seq<Field>, last: Field)
    ensures AssignAll(pairs + [last]) == SetProperty(AssignAll(pairs), last.key, last.value)
  {
    assert (pairs + [last])[..|pairs|] == pairs;
  }

  /** `parseDataRow`: one pass over the row, assigning into the result object as it goes. */
  method ParseDataRow(p: Protocol, data: Data, fields: seq<FieldDescription>) returns (r: Result<seq<Field>, RowError>)
    ensures r == match ParsedPairs(p, data, fields)
                 case Success(pairs) => Success(AssignAll(pairs))
                 case Failure(e) => Failure(e)
  {
    hide EagerCell, EagerPairs, SlotsFit, SlotFits, NextSlot, SlotLength, ReadInt32, ReadBE16, AssignAll, SetProperty;
    NoPairs();
    if |data| < 2 {
      return Failure(RowTooShort);
    }
    var count := ReadBE16(data, 0);
    var row := [];
    ghost var pairs := [];
    var offset := 2;
    var i := 0;
    while i < count
      invariant 0 <= i <= count
      invariant row == AssignAll(pairs)
      invariant EagerPairs(p, data, offset, fields, i, count, pairs) == ParsedPairs(p, data, fields)
    {
      RowStep(p, data, offset, fields, i, count, pairs);
      if offset + 4 > |data| {
        return Failure(LengthTruncated);
      }
      var length := ReadInt32(data, offset);
      if length < -1 {
        return Failure(NegativeLength);
      }
      if length >= 0 && offset + 4 + length > |data| {
        return Failure(DataTruncated);
      }
      if i < |fields| {
        var cell := EagerCell(p, data, offset, fields[i]);
        if cell.None? {
          return Failure(DecoderThrew);
        }
        row := SetProperty(row, fields[i].name, cell.value);
        AssignSnoc(pairs, Field(fields[i].name, cell.value));
        pairs := pairs + [Field(fields[i].name, cell.value)];
      }
      offset := if length == -1 then offset + 4 else offset + 4 + length;
      i := i + 1;
    }
    RowEnd(p, data, offset, fields, count, pairs);
    return Success(row);
  }

  lemma {:induction false} AcceptedLength(p: Protocol, data: Data, pos: nat, fields: seq<FieldDescription>, i: nat,
      count: nat, done: seq<Field>)
    requires i <= |fields| <= count && EagerPairs(p, data, pos, fields, i, count, done).Success?
    ensures |EagerPairs(p, data, pos, fields, i, count, done).value| == |done| + |fields| - i
    decreases count - i
  {
    hide EagerCell;
    if i < |fields| {
      var extended := done + [Field(fields[i].name, EagerCell(p, data, pos, fields[i]).value)];
      AcceptedLength(p, data, NextSlot(data, pos), fields, i + 1, count, extended);
    } else {
      NothingAfterLastField(p, data, pos, fields, i, count, done);
    }
  }

  lemma {:induction false} NothingAfterLastField(p: Protocol, data: Data, pos: nat, fields: seq<FieldDescription>,
      i: nat, count: nat, done: seq<Field>)
    requires |fields| <= i <= count && EagerPairs(p, data, pos, fields, i, count, done).Success?
    ensures EagerPairs(p, data, pos, fields, i, count, done).value == done
    decreases count - i
  {
    if i < count {
      NothingAfterLastField(p, data, NextSlot(data, pos), fields, i + 1, count, done);
    }
  }

  /** An accepted row holds, for each described column, exactly what that column decodes to. */
  lemma {:induction false} AcceptedColumn(p: Protocol, data: Data, pos: nat, fields: seq<FieldDescription>, i: nat,
      count: nat, done: seq<Field>, j: nat)
    requires i <= j < |fields| <= count && EagerPairs(p, data, pos, fields, i, count, done).Success?
    ensures SlotsFit(data, pos, j - i) && SlotFits(data, SlotPos(data, pos, j - i))
    ensures var cell := EagerCell(p, data, SlotPos(data, pos, j - i), fields[j]);
            var all := EagerPairs(p, data, pos, fields, i, count, done).value;
            cell.Some? && |done| + j - i < |all| && all[|done| + j - i] == Field(fields[j].name, cell.value)
    decreases count - i
  {
    hide EagerCell;
    var next := NextSlot(data, pos);
    var head := Field(fields[i].name, EagerCell(p, data, pos, fields[i]).value);
    if j == i {
      assert done + [head] <= EagerPairs(p, data, pos, fields, i, count, done).value;
      assert (done + [head])[|done|] == head;
    } else {
      AcceptedColumn(p, data, next, fields, i + 1, count, done + [head], j);
      assert SlotPos(data, pos, j - i) == SlotPos(data, next, j - (i + 1));
    }
  }
}
