/**
  MySQL binary rows read two ways: the eager parser, and the lazy reader that
  finds offsets on the first property read and remembers decoded values.
 */
module MysqlLazyRow {
  import opened Bytes
  import opened Wrappers
  import opened HyperCodec
  import opened MysqlValues

  const TINY := 0x01
  const SHORT := 0x02
  const LONG := 0x03
  const FLOAT := 0x04
  const DOUBLE := 0x05
  const LONGLONG := 0x08
  const INT24 := 0x09
  const YEAR := 0x0d
  const JSON := 0xf5

  /** The length-encoded types the eager parser reads as text. */
  const TEXT_TYPES := {0x00, 0x0f, JSON, 0xf6, 0xf9, 0xfa, 0xfb, 0xfc, 0xfd, 0xfe}

  datatype MysqlField = MysqlField(name: Text, kind: int)

  /** Number conversions of fixed-width bytes by type, and `JSON.parse` (None when it throws), both left opaque. */
  datatype Conversions = Conversions(fixed: (int, Data) -> Value, json: Text -> Option<Value>)

  /** The width of a fixed-width type; 0 for the length-encoded ones. */
  function Width(kind: int): nat {
    if kind == TINY then 1
    else if kind in {SHORT, YEAR} then 2
    else if kind in {INT24, LONG, FLOAT} then 4
    else if kind in {LONGLONG, DOUBLE} then 8
    else 0
  }

  /** The eager parser has a case of its own for the type; dates and the rest share a placeholder. */
  predicate HasOwnCase(kind: int) {
    Width(kind) > 0 || kind in TEXT_TYPES
  }

  /** The placeholder, "Unsupported_Date_Time_Binary_Format". */
  const UNSUPPORTED: Text := [
    85, 110, 115, 117, 112, 112, 111, 114, 116, 101, 100, 95, 68, 97, 116, 101, 95,
    84, 105, 109, 101, 95, 66, 105, 110, 97, 114, 121, 95, 70, 111, 114, 109, 97, 116]

  // ----- where the columns are -----

  function BitmapLength(n: nat): nat {
    (n + 7 + 2) / 8
  }

  predicate IsNull(payload: Data, i: nat, n: nat)
    requires i < n && 1 + BitmapLength(n) <= |payload|
  {
    Bit(payload[1 + (i + 2) / 8], (i + 2) % 8)
  }

  /** The end of a non-null column at `pos`; None when it does not fit or its length cannot be read. */
  function ColumnEnd(payload: Data, pos: nat, kind: int): (r: Option<nat>)
    ensures r.Some? ==> pos <= r.value <= |payload|
  {
    if Width(kind) > 0 then
      if pos + Width(kind) > |payload| then None else Some(pos + Width(kind))
    else
      match ReadLenEnc(payload, pos)
      case None => None
      case Some(len) =>
        if pos + len.bytes + len.value > |payload| then None else Some(pos + len.bytes + len.value)
  }

  /** The length the lazy reader computes for a non-null column. */
  function ColumnLength(payload: Data, pos: nat, kind: int): nat
    requires Width(kind) == 0 ==> ReadLenEnc(payload, pos).Some?
  {
    if Width(kind) > 0 then Width(kind)
    else var len := ReadLenEnc(payload, pos).value; len.bytes + len.value
  }

  lemma LengthEndsColumn(payload: Data, pos: nat, kind: int)
    requires ColumnEnd(payload, pos, kind).Some?
    ensures Width(kind) == 0 ==> ReadLenEnc(payload, pos).Some?
    ensures ColumnEnd(payload, pos, kind) == Some(pos + ColumnLength(payload, pos, kind))
  {
  }

  /** Where column `i` starts, if every column before it fits. */
  function ColumnStart(payload: Data, fields: seq<MysqlField>, i: nat): Option<nat>
    requires i <= |fields| && 1 + BitmapLength(|fields|) <= |payload|
    decreases i
  {
    if i == 0 then Some(1 + BitmapLength(|fields|))
    else
      match ColumnStart(payload, fields, i - 1)
      case None => None
      case Some(pos) =>
        if IsNull(payload, i - 1, |fields|) then Some(pos)
        else ColumnEnd(payload, pos, fields[i - 1].kind)
  }

  lemma FirstStart(payload: Data, fields: seq<MysqlField>)
    requires 1 + BitmapLength(|fields|) <= |payload|
    ensures ColumnStart(payload, fields, 0) == Some(1 + BitmapLength(|fields|))
  {
  }

  lemma NextStart(payload: Data, fields: seq<MysqlField>, i: nat)
    requires i < |fields| && 1 + BitmapLength(|fields|) <= |payload|
    requires ColumnStart(payload, fields, i).Some?
    ensures ColumnStart(payload, fields, i + 1) ==
            if IsNull(payload, i, |fields|) then ColumnStart(payload, fields, i)
            else ColumnEnd(payload, ColumnStart(payload, fields, i).value, fields[i].kind)
  {
  }

  // ----- one column -----

  /** `decodeString`: a fast path for short ASCII, otherwise the decoder. */
  function DecodeString(d: Data): Text {
    if |d| < 64 && (forall k :: 0 <= k < |d| ==> d[k] <= 127) then d else DecodeUtf8(d)
  }

  lemma DecodeStringIsDecode(d: Data)
    ensures DecodeString(d) == DecodeUtf8(d)
  {
    if |d| >= 3 && d[..3] == [0xEF, 0xBB, 0xBF] {
      assert d[0] == d[..3][0] > 127;
    }
  }

  function TextAt(payload: Data, pos: nat): Data
    requires ReadLenEnc(payload, pos).Some?
    requires var len := ReadLenEnc(payload, pos).value; pos + len.bytes + len.value <= |payload|
  {
    var len := ReadLenEnc(payload, pos).value;
    payload[pos + len.bytes..pos + len.bytes + len.value]
  }

  /** The eager parser's value of a non-null column that fits. */
  function EagerValue(c: Conversions, payload: Data, pos: nat, kind: int): Option<Value>
    requires ColumnEnd(payload, pos, kind).Some?
  {
    if Width(kind) > 0 then Some(c.fixed(kind, payload[pos..pos + Width(kind)]))
    else if kind == JSON then c.json(DecodeString(TextAt(payload, pos)))
    else if kind in TEXT_TYPES then Some(Str(DecodeString(TextAt(payload, pos))))
    else Some(Str(UNSUPPORTED))
  }

  /** The lazy reader's value of the same column. */
  function LazyValue(c: Conversions, payload: Data, pos: nat, kind: int): Option<Value>
    requires ColumnEnd(payload, pos, kind).Some?
  {
    if Width(kind) > 0 then Some(c.fixed(kind, payload[pos..pos + Width(kind)]))
    else
      var str := DecodeUtf8(TextAt(payload, pos));
      if kind == JSON then c.json(str) else Some(Str(str))
  }

  lemma ValuesAgree(c: Conversions, payload: Data, pos: nat, kind: int)
    requires ColumnEnd(payload, pos, kind).Some? && HasOwnCase(kind)
    ensures LazyValue(c, payload, pos, kind) == EagerValue(c, payload, pos, kind)
  {
    if Width(kind) == 0 {
      DecodeStringIsDecode(TextAt(payload, pos));
    }
  }

  // ----- the eager parser -----

  /** The value of column `i` of a row whose columns up to it fit. */
  function EagerCell(c: Conversions, payload: Data, fields: seq<MysqlField>, i: nat): Option<Value>
    requires i < |fields| && 1 + BitmapLength(|fields|) <= |payload|
    requires ColumnStart(payload, fields, i + 1).Some?
  {
    if IsNull(payload, i, |fields|) then Some(Null)
    else EagerValue(c, payload, ColumnStart(payload, fields, i).value, fields[i].kind)
  }

  /** The first `i` values of the row, if all of them can be read. */
  function EagerPrefix(c: Conversions, payload: Data, fields: seq<MysqlField>, i: nat): (r: Option<seq<Value>>)
    requires i <= |fields| && 1 + BitmapLength(|fields|) <= |payload|
    ensures r.Some? ==> |r.value| == i && ColumnStart(payload, fields, i).Some?
    decreases i
  {
    if i == 0 then Some([])
    else
      match EagerPrefix(c, payload, fields, i - 1)
      case None => None
      case Some(row) =>
        if ColumnStart(payload, fields, i).None? then None
        else
          match EagerCell(c, payload, fields, i - 1)
          case None => None
          case Some(v) => Some(row + [v])
  }

  function EagerRow(c: Conversions, payload: Data, fields: seq<MysqlField>): (r: Option<seq<Value>>)
    ensures r.Some? ==> |r.value| == |fields| && 1 + BitmapLength(|fields|) <= |payload|
  {
    if 1 + BitmapLength(|fields|) > |payload| then None else EagerPrefix(c, payload, fields, |fields|)
  }

  /** `parseBinaryRow`: one pass with a running offset; None stands for any of its exceptions. */
  method ParseBinaryRow(c: Conversions, payload: Data, fields: seq<MysqlField>) returns (r: Option<seq<Value>>)
    ensures r == EagerRow(c, payload, fields)
  {
    hide ColumnEnd, EagerValue, IsNull;
    var nullBitmapLength := BitmapLength(|fields|);
    if 1 + nullBitmapLength > |payload| {
      return None;
    }
    var nullBitmap := payload[1..1 + nullBitmapLength];
    var offset := 1 + nullBitmapLength;
    var row := [];
    var i := 0;
    while i < |fields|
      invariant 0 <= i <= |fields|
      invariant EagerPrefix(c, payload, fields, i) == Some(row)
      invariant ColumnStart(payload, fields, i) == Some(offset)
    {
      var isNull := Bit(nullBitmap[(i + 2) / 8], (i + 2) % 8);
      assert isNull == IsNull(payload, i, |fields|) by { BitmapCopy(payload, i, |fields|); }
      if isNull {
        row := row + [Null];
      } else {
        var end := ColumnEnd(payload, offset, fields[i].kind);
        if end.None? {
          PrefixFails(c, payload, fields, i + 1);
          return None;
        }
        var value := EagerValue(c, payload, offset, fields[i].kind);
        if value.None? {
          PrefixFails(c, payload, fields, i + 1);
          return None;
        }
        row := row + [value.value];
        offset := end.value;
      }
      i := i + 1;
    }
    return Some(row);
  }

  lemma BitmapCopy(payload: Data, i: nat, n: nat)
    requires i < n && 1 + BitmapLength(n) <= |payload|
    ensures (i + 2) / 8 < BitmapLength(n)
    ensures Bit(payload[1..1 + BitmapLength(n)][(i + 2) / 8], (i + 2) % 8) == IsNull(payload, i, n)
  {
  }

  lemma {:induction false} PrefixFails(c: Conversions, payload: Data, fields: seq<MysqlField>, i: nat)
    requires i <= |fields| && 1 + BitmapLength(|fields|) <= |payload|
    requires EagerPrefix(c, payload, fields, i).None?
    ensures EagerPrefix(c, payload, fields, |fields|).None?
    decreases |fields| - i
  {
    if i < |fields| {
      PrefixFails(c, payload, fields, i + 1);
    }
  }

  /** An accepted row holds every column's value, and every column fits. */
  lemma {:induction false} AcceptedColumn(c: Conversions, payload: Data, fields: seq<MysqlField>, n: nat, i: nat)
    requires i < n <= |fields| && 1 + BitmapLength(|fields|) <= |payload|
    requires EagerPrefix(c, payload, fields, n).Some?
    ensures ColumnStart(payload, fields, i).Some? && ColumnStart(payload, fields, i + 1).Some?
    ensures EagerCell(c, payload, fields, i) == Some(EagerPrefix(c, payload, fields, n).value[i])
    decreases n
  {
    hide EagerCell, ColumnEnd;
    if i < n - 1 {
      AcceptedColumn(c, payload, fields, n - 1, i);
    }
  }

  // ----- the lazy row -----

  /** `fields.findIndex(f => f.name === name)`, from index `i` on. */
  function FindField(fields: seq<MysqlField>, name: Text, i: nat): (r: Option<nat>)
    requires i <= |fields|
    ensures r.Some? ==> i <= r.value < |fields| && fields[r.value].name == name
    ensures r.None? ==> forall k :: i <= k < |fields| ==> fields[k].name != name
    decreases |fields| - i
  {
    if i == |fields| then None
    else if fields[i].name == name then Some(i)
    else FindField(fields, name, i + 1)
  }

  /** Every column of the row fits. */
  predicate Laid(payload: Data, fields: seq<MysqlField>) {
    && 1 + BitmapLength(|fields|) <= |payload|
    && forall k :: 0 <= k <= |fields| ==> ColumnStart(payload, fields, k).Some?
  }

  lemma AllFit(c: Conversions, payload: Data, fields: seq<MysqlField>)
    requires EagerRow(c, payload, fields).Some?
    ensures Laid(payload, fields)
  {
    hide ColumnEnd, EagerCell;
    forall k | 0 <= k <= |fields|
      ensures ColumnStart(payload, fields, k).Some?
    {
      if k < |fields| {
        AcceptedColumn(c, payload, fields, |fields|, k);
      }
    }
  }

  /** The starts of the first `upTo` columns, -1 for a null, at the even places of `table`. */
  predicate HoldsOffsets(payload: Data, fields: seq<MysqlField>, table: seq<int>, upTo: nat)
    requires 1 + BitmapLength(|fields|) <= |payload| && upTo <= |fields| && |table| == 2 * |fields|
  {
    forall k :: 0 <= k < upTo ==>
      && ColumnStart(payload, fields, k).Some?
      && table[2 * k] == if IsNull(payload, k, |fields|) then -1 else ColumnStart(payload, fields, k).value
  }

  /** `ensureOffsets`: one pass with a running offset. */
  method FillOffsets(payload: Data, fields: seq<MysqlField>, table: array<int>)
    requires Laid(payload, fields) && table.Length == 2 * |fields|
    modifies table
    ensures HoldsOffsets(payload, fields, table[..], |fields|)
  {
    hide IsNull, ColumnStart, ColumnEnd, ColumnLength, ReadLenEnc, Width, Bit, BitmapLength;
    FirstStart(payload, fields);
    var nullBitmapLength := BitmapLength(|fields|);
    var nullBitmap := payload[1..1 + nullBitmapLength];
    var current: int := 1 + nullBitmapLength;
    var i := 0;
    while i < |fields|
      invariant 0 <= i <= |fields| && ColumnStart(payload, fields, i) == Some(current)
      invariant HoldsOffsets(payload, fields, table[..], i)
    {
      BitmapCopy(payload, i, |fields|);
      var isNull := Bit(nullBitmap[(i + 2) / 8], (i + 2) % 8);
      NextStart(payload, fields, i);
      if isNull {
        table[2 * i], table[2 * i + 1] := -1, -1;
      } else {
        LengthEndsColumn(payload, current, fields[i].kind);
        var length := ColumnLength(payload, current, fields[i].kind);
        table[2 * i], table[2 * i + 1] := current, length;
        current := current + length;
      }
      i := i + 1;
    }
  }

  class LazyRow {
    const data: Data
    const fields: seq<MysqlField>
    const c: Conversions
    var cache: map<Text, Value>
    /** Start and length of each column, side by side, -1 and -1 for a null; null until first needed. */
    var offsets: array?<int>

    ghost predicate Readable() {
      EagerRow(c, data, fields).Some?
    }

    /** The answer to reading the first column called `name`. */
    ghost function Answer(name: Text): Option<Value>
      requires Readable()
    {
      match FindField(fields, name, 0)
      case None => None
      case Some(i) =>
        AcceptedColumn(c, data, fields, |fields|, i);
        if IsNull(data, i, |fields|) then Some(Null)
        else LazyValue(c, data, ColumnStart(data, fields, i).value, fields[i].kind)
    }

    ghost predicate Valid()
      reads this, offsets
    {
      && Readable()
      && (offsets != null ==> offsets.Length == 2 * |fields| && HoldsOffsets(data, fields, offsets[..], |fields|))
      && forall name :: name in cache ==> Answer(name) == Some(cache[name])
    }

    constructor (c: Conversions, data: Data, fields: seq<MysqlField>)
      ensures this.c == c && this.data == data && this.fields == fields
      ensures Readable() ==> Valid()
    {
      this.c, this.data, this.fields := c, data, fields;
      cache, offsets := map[], null;
    }

    method EnsureOffsets()
      requires Valid()
      modifies this`offsets
      ensures Valid() && offsets != null
    {
      if offsets == null {
        AllFit(c, data, fields);
        offsets := new int[2 * |fields|];
        FillOffsets(data, fields, offsets);
      }
    }

    /**
      The proxy's `get`: whatever was read before, the first column of that name
      reads as the eager row has it, for every type the eager parser has a case for.
     */
    method Get(prop: Text) returns (r: Option<Value>)
      requires Valid()
      modifies this
      ensures Valid() && r == Answer(prop)
      ensures match FindField(fields, prop, 0)
              case None => r.None?
              case Some(i) =>
                r.Some? && (HasOwnCase(fields[i].kind) ==> r.value == EagerRow(c, data, fields).value[i])
    {
      AnswerIsEager(prop);
      hide IsNull, EagerPrefix, LazyValue, EagerCell, ColumnStart, HasOwnCase, ColumnEnd;
      if prop in cache {
        return Some(cache[prop]);
      }
      var index := FindField(fields, prop, 0);
      if index.None? {
        return None;
      }
      EnsureOffsets();
      var i := index.value;
      AcceptedColumn(c, data, fields, |fields|, i);
      NextStart(data, fields, i);
      var offset := offsets[2 * i];
      if offset == -1 {
        cache := cache[prop := Null];
        return Some(Null);
      }
      var value := LazyValue(c, data, offset, fields[i].kind);
      cache := cache[prop := value.value];
      return Some(value.value);
    }

    lemma AnswerIsEager(name: Text)
      requires Readable()
      ensures match FindField(fields, name, 0)
              case None => Answer(name).None?
              case Some(i) =>
                && ColumnStart(data, fields, i).Some?
                && Answer(name).Some?
                && (HasOwnCase(fields[i].kind) ==> Answer(name).value == EagerRow(c, data, fields).value[i])
    {
      var index := FindField(fields, name, 0);
      if index.Some? {
        var i := index.value;
        AcceptedColumn(c, data, fields, |fields|, i);
        if !IsNull(data, i, |fields|) && HasOwnCase(fields[i].kind) {
          ValuesAgree(c, data, ColumnStart(data, fields, i).value, fields[i].kind);
        }
      }
    }
  }
}
