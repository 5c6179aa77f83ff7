/**
  The lazy PostgreSQL row: offsets found on the first property read, values
  decoded on demand and remembered. On every row it is meant for, any sequence
  of reads answers as the eagerly parsed row would.
 */
module PgLazyRow {
  import opened Bytes
  import opened Wrappers
  import opened HyperCodec
  import opened PgRows

  /** `row[key]` of an object's own property. */
  function Lookup(row: seq<Field>, key: Text): Option<Value> {
    if row == [] then None
    else if row[0].key == key then Some(row[0].value)
    else Lookup(row[1..], key)
  }

  /** `fields.findIndex(f => f.name === name)` */
  function FindField(fields: seq<FieldDescription>, name: Text): (r: Option<nat>)
    ensures r.Some? ==> r.value < |fields| && fields[r.value].name == name
    ensures r.None? ==> forall k :: 0 <= k < |fields| ==> fields[k].name != name
  {
    FindFieldFrom(fields, name, 0)
  }

  function FindFieldFrom(fields: seq<FieldDescription>, name: Text, i: nat): (r: Option<nat>)
    requires i <= |fields|
    ensures r.Some? ==> r.value < |fields| && fields[r.value].name == name
    ensures r.None? ==> forall k :: i <= k < |fields| ==> fields[k].name != name
    decreases |fields| - i
  {
    if i == |fields| then None
    else if fields[i].name == name then Some(i)
    else FindFieldFrom(fields, name, i + 1)
  }

  predicate DistinctNames(fields: seq<FieldDescription>) {
    forall i, j :: 0 <= i < j < |fields| ==> fields[i].name != fields[j].name
  }

  // ----- one column -----

  /** What the lazy reader makes of the column at `pos`; None when its decoder throws. */
  function LazyCell(p: Protocol, data: Data, pos: nat, f: FieldDescription): Option<Value>
    requires SlotFits(data, pos)
  {
    var len := SlotLength(data, pos);
    if len == -1 then Some(Null)
    else
      var slice := data[pos + 4..pos + 4 + len];
      if f.format == 1 then DecodeBinaryValue(p, slice, f.oid)
      else DecodeTextValue(p, DecodeUtf8(slice), f.oid)
  }

  /**
    The columns on which the two readers agree: a known format and, in binary, no
    registered decoder for the types the eager parser reads on its own, and no
    INT4 shorter than the four bytes the eager parser takes regardless.
   */
  predicate ReadersAgree(p: Protocol, data: Data, pos: nat, f: FieldDescription)
    requires SlotFits(data, pos)
  {
    || SlotLength(data, pos) == -1
    || (&& (f.format == 0 || f.format == 1)
        && (f.format == 1 && f.oid in {OID_INT4, OID_TEXT, OID_VARCHAR} ==> f.oid !in p.custom)
        && (f.format == 1 && f.oid == OID_INT4 ==> SlotLength(data, pos) >= 4))
  }

  lemma CellsAgree(p: Protocol, data: Data, pos: nat, f: FieldDescription)
    requires SlotFits(data, pos)
    ensures ReadersAgree(p, data, pos, f) ==> LazyCell(p, data, pos, f) == EagerCell(p, data, pos, f)
    ensures f.format == 1 && f.oid == OID_INT4 && f.oid !in p.custom && !ReadersAgree(p, data, pos, f) ==>
              LazyCell(p, data, pos, f).None? && EagerCell(p, data, pos, f).Some?
  {
    var len := SlotLength(data, pos);
    if len != -1 {
      var slice := data[pos + 4..pos + 4 + len];
      FastDecodeIsDecode(slice);
      if len >= 4 {
        assert forall k :: 0 <= k < 4 ==> slice[k] == ByteOr0(data, pos + 4 + k);
      }
    }
  }

  // ----- one row -----

  class LazyRow {
    const data: Data
    const fields: seq<FieldDescription>
    const p: Protocol
    var cache: map<Text, Value>
    /** Offset and length of each column, side by side; null until first needed. */
    var offsets: array?<int>

    /**
      The rows the reader is for: accepted by the eager parser, with at least as
      many columns as described fields but few enough for a signed count, distinct
      names, and columns on which the two readers agree.
     */
    ghost predicate Readable() {
      && |data| >= 2
      && |fields| <= ReadBE16(data, 0) < 0x8000
      && ParsedPairs(p, data, fields).Success?
      && DistinctNames(fields)
      && forall k :: 0 <= k < |fields| && SlotsFit(data, 2, k) && SlotFits(data, SlotPos(data, 2, k)) ==>
           ReadersAgree(p, data, SlotPos(data, 2, k), fields[k])
    }

    /** The object the eager parser returns for this row. */
    ghost function EagerRow(): seq<Field>
      requires Readable()
    {
      AssignAll(ParsedPairs(p, data, fields).value)
    }

    ghost predicate OffsetsFilled(upTo: nat)
      requires Readable() && upTo <= ReadBE16(data, 0)
      requires offsets != null && offsets.Length == 2 * ReadBE16(data, 0)
      reads this, offsets
    {
      forall k :: 0 <= k < upTo ==>
        && SlotsFit(data, 2, k)
        && SlotFits(data, SlotPos(data, 2, k))
        && offsets[2 * k] == SlotPos(data, 2, k) + 4
        && offsets[2 * k + 1] == SlotLength(data, SlotPos(data, 2, k))
    }

    ghost predicate Valid()
      reads this, offsets
    {
      && Readable()
      && (offsets != null ==> offsets.Length == 2 * ReadBE16(data, 0) && OffsetsFilled(ReadBE16(data, 0)))
      && forall name :: name in cache ==> Lookup(EagerRow(), name) == Some(cache[name])
    }

    constructor (p: Protocol, data: Data, fields: seq<FieldDescription>)
      ensures this.p == p && this.data == data && this.fields == fields
      ensures Readable() ==> Valid()
    {
      this.p, this.data, this.fields := p, data, fields;
      cache, offsets := map[], null;
    }

    method EnsureOffsets()
      requires Valid()
      modifies this`offsets
      ensures Valid() && offsets != null
    {
      hide SlotLength, SlotPos, SlotFits, NextSlot, ReadersAgree, ParsedPairs, ReadBE16;
      if offsets != null {
        return;
      }
      var count := ReadBE16(data, 0);
      assert SlotsFit(data, 2, count) by { AcceptedRowFits(p, data, fields); }
      offsets := new int[2 * count];
      var current: int := 2;
      var i := 0;
      assert SlotPos(data, 2, 0) == 2 by { FirstSlot(data); }
      while i < count
        invariant 0 <= i <= count && offsets != null && fresh(offsets) && offsets.Length == 2 * count
        invariant SlotsFit(data, 2, i) && current == SlotPos(data, 2, i)
        invariant OffsetsFilled(i)
      {
        SlotSnoc(data, 2, i, count);
        SlotBounds(data, current);
        var len: int := SlotLength(data, current);
        offsets[2 * i] := current + 4;
        offsets[2 * i + 1] := len;
        current := current + 4 + (if len == -1 then 0 else len);
        i := i + 1;
      }
    }

    /** On a readable row the lazy decoding of a described column is the eager one, and does not throw. */
    lemma LazyIsEager(i: nat)
      requires Readable() && i < |fields|
      ensures SlotsFit(data, 2, i) && SlotFits(data, SlotPos(data, 2, i))
      ensures LazyCell(p, data, SlotPos(data, 2, i), fields[i]).Some?
      ensures LazyCell(p, data, SlotPos(data, 2, i), fields[i]) == EagerCell(p, data, SlotPos(data, 2, i), fields[i])
    {
      hide EagerCell, LazyCell, ReadersAgree;
      AcceptedColumn(p, data, 2, fields, 0, ReadBE16(data, 0), [], i);
      CellsAgree(p, data, SlotPos(data, 2, i), fields[i]);
    }

    /** The proxy's `get`: whatever was read before, the answer is the eager row's. */
    method Get(prop: Text) returns (r: Option<Value>)
      requires Valid()
      modifies this
      ensures Valid() && r == Lookup(EagerRow(), prop)
    {
      hide EagerCell, AssignAll, ParsedPairs, ReadersAgree, SlotsFit, SlotPos, SlotLength, DecodeBinaryValue,
        DecodeTextValue, Lookup;
      if prop in cache {
        return Some(cache[prop]);
      }
      var index := FindField(fields, prop);
      EagerLookup(p, data, fields, prop);
      if index.None? {
        return None;
      }
      EnsureOffsets();
      var i := index.value;
      LazyIsEager(i);
      var offset, length := offsets[2 * i], offsets[2 * i + 1];
      if length == -1 {
        cache := cache[prop := Null];
        return Some(Null);
      }
      var slice := data[offset..offset + length];
      var value := if fields[i].format == 1 then DecodeBinaryValue(p, slice, fields[i].oid)
                   else DecodeTextValue(p, DecodeUtf8(slice), fields[i].oid);
      assert value == LazyCell(p, data, SlotPos(data, 2, i), fields[i]);
      cache := cache[prop := value.value];
      return Some(value.value);
    }
  }

  lemma FirstSlot(data: Data)
    ensures SlotsFit(data, 2, 0) && SlotPos(data, 2, 0) == 2
  {
  }

  lemma SlotBounds(data: Data, pos: nat)
    requires SlotFits(data, pos)
    ensures pos + 4 <= |data| && SlotLength(data, pos) >= -1
    ensures NextSlot(data, pos) ==
      pos + 4 + (if SlotLength(data, pos) == -1 then 0 else SlotLength(data, pos)) <= |data|
  {
  }

  lemma AcceptedRowFits(p: Protocol, data: Data, fields: seq<FieldDescription>)
    requires |data| >= 2 && ParsedPairs(p, data, fields).Success?
    ensures SlotsFit(data, 2, ReadBE16(data, 0))
  {
  }

  lemma ParsedLength(p: Protocol, data: Data, fields: seq<FieldDescription>)
    requires |data| >= 2 && |fields| <= ReadBE16(data, 0) && ParsedPairs(p, data, fields).Success?
    ensures |ParsedPairs(p, data, fields).value| == |fields|
  {
    hide EagerPairs, ReadBE16;
    AcceptedLength(p, data, 2, fields, 0, ReadBE16(data, 0), []);
  }

  lemma ParsedColumn(p: Protocol, data: Data, fields: seq<FieldDescription>, j: nat)
    requires |data| >= 2 && j < |fields| <= ReadBE16(data, 0) && ParsedPairs(p, data, fields).Success?
    ensures SlotsFit(data, 2, j) && SlotFits(data, SlotPos(data, 2, j))
    ensures var cell := EagerCell(p, data, SlotPos(data, 2, j), fields[j]);
            var pairs := ParsedPairs(p, data, fields).value;
            |pairs| == |fields| && cell.Some? && pairs[j] == Field(fields[j].name, cell.value)
  {
    hide EagerCell, EagerPairs, SlotPos, SlotFits, SlotsFit, ReadBE16;
    ParsedLength(p, data, fields);
    AcceptedColumn(p, data, 2, fields, 0, ReadBE16(data, 0), [], j);
  }

  lemma ParsedKeys(p: Protocol, data: Data, fields: seq<FieldDescription>)
    requires |data| >= 2 && |fields| <= ReadBE16(data, 0) && ParsedPairs(p, data, fields).Success?
    requires DistinctNames(fields)
    ensures var pairs := ParsedPairs(p, data, fields).value;
      && |pairs| == |fields| && DistinctKeys(pairs)
      && forall j :: 0 <= j < |fields| ==> pairs[j].key == fields[j].name
  {
    hide EagerCell, ParsedPairs, SlotPos, SlotFits, SlotsFit, ReadBE16;
    var pairs := ParsedPairs(p, data, fields).value;
    ParsedLength(p, data, fields);
    forall j | 0 <= j < |fields|
      ensures pairs[j].key == fields[j].name
    {
      ParsedColumn(p, data, fields, j);
    }
  }

  /** Reading a name from the eager row of distinct columns decodes that name's column. */
  lemma EagerLookup(p: Protocol, data: Data, fields: seq<FieldDescription>, prop: Text)
    requires |data| >= 2 && |fields| <= ReadBE16(data, 0) && DistinctNames(fields)
    requires ParsedPairs(p, data, fields).Success?
    ensures var row := AssignAll(ParsedPairs(p, data, fields).value);
            match FindField(fields, prop)
            case None => Lookup(row, prop).None?
            case Some(i) =>
              && SlotsFit(data, 2, i)
              && SlotFits(data, SlotPos(data, 2, i))
              && EagerCell(p, data, SlotPos(data, 2, i), fields[i]).Some?
              && Lookup(row, prop) == EagerCell(p, data, SlotPos(data, 2, i), fields[i])
  {
    hide EagerCell, SlotPos, SlotFits, SlotsFit, ParsedPairs, ReadBE16, FindField, Lookup, AssignAll;
    var pairs := ParsedPairs(p, data, fields).value;
    ParsedKeys(p, data, fields);
    AssignDistinct(pairs);
    var found := FindField(fields, prop);
    if found.Some? {
      ParsedColumn(p, data, fields, found.value);
      LookupAt(pairs, found.value);
    } else {
      LookupAbsent(pairs, prop);
    }
  }

  lemma {:induction false} LookupAt(row: seq<Field>, i: nat)
    requires i < |row| && DistinctKeys(row)
    ensures Lookup(row, row[i].key) == Some(row[i].value)
  {
    if i > 0 {
      assert row[0].key != row[i].key;
      LookupAt(row[1..], i - 1);
    }
  }

  lemma {:induction false} LookupAbsent(row: seq<Field>, key: Text)
    requires forall i :: 0 <= i < |row| ==> row[i].key != key
    ensures Lookup(row, key).None?
  {
    if row != [] {
      LookupAbsent(row[1..], key);
    }
  }
}
