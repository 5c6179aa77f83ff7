/**
  The codec's format in numbers and bytes: what is written for each kind of value, what reading makes of
  any bytes, written by the encoder or not, and what assigning properties one by one leaves of repeated keys.
 */
module HyperFormat {
  import opened Bytes
  import opened Wrappers
  import opened HyperCodec

  // ----- what is written -----

  /** A tag, a length of four bytes, the lowest first, and the bytes themselves. */
  predicate Counted(d: Data, tag: Byte, count: nat, rest: Data) {
    |d| >= 5 && d[0] == tag && LittleEndian(d[1..5]) == count && d[5..] == rest
  }

  lemma CountWritten(tag: Byte, count: nat, rest: Data)
    requires count < TWO_TO_32
    ensures Counted([tag] + LE32(count) + rest, tag, count, rest)
  {
    hide LE32, LittleEndian;
    WordsWritten(count);
    SmallRemainder(count);
    var d := [tag] + LE32(count) + rest;
    assert d[1..5] == LE32(count) && d[5..] == rest;
  }

  /** Values without parts. */
  lemma LeafWritten(v: Value)
    ensures v.Null? ==> Enc(v) == [0]
    ensures v.Bool? ==> Enc(v) == [1, if v.b then 1 else 0]
    ensures v.Int? ==>
      && |Enc(v)| == 5 && Enc(v)[0] == 2
      && LittleEndian(Enc(v)[1..]) == if v.i >= 0 then v.i else v.i + TWO_TO_32
    ensures v.Float? ==> Enc(v) == [3] + v.bits
    ensures v.Date? ==> Enc(v) == [5] + v.time
  {
    hide LE32, LittleEndian;
    if v.Int? {
      WordsWritten(v.i);
      assert Enc(v)[1..] == LE32(v.i);
    }
  }

  lemma TextWritten(v: Value)
    ensures v.Str? && |v.text| < TWO_TO_32 ==> Counted(Enc(v), 4, |v.text|, v.text)
    ensures v.Buffer? && |v.data| < TWO_TO_32 ==> Counted(Enc(v), 8, |v.data|, v.data)
    ensures v.Error? ==> Enc(v) == [9] + Enc(Str(v.message))
  {
    hide Counted, LE32;
    if v.Str? && |v.text| < TWO_TO_32 { CountWritten(4, |v.text|, v.text); }
    if v.Buffer? && |v.data| < TWO_TO_32 { CountWritten(8, |v.data|, v.data); }
  }

  /** The encodings one after the other. */
  function AllWritten(parts: seq<Data>): Data
    decreases |parts|
  {
    if parts == [] then [] else parts[0] + AllWritten(parts[1..])
  }

  function ItemsWritten(items: seq<Value>): seq<Data> {
    seq(|items|, i requires 0 <= i < |items| => Enc(items[i]))
  }

  /** A property is its key, as a string, and its value. */
  function FieldsWritten(fields: seq<Field>): seq<Data> {
    seq(|fields|, i requires 0 <= i < |fields| => Enc(Str(fields[i].key)) + Enc(fields[i].value))
  }

  lemma {:induction false} ItemsAreWritten(items: seq<Value>)
    ensures EncItems(items) == AllWritten(ItemsWritten(items))
    decreases |items|
  {
    hide Enc;
    if items != [] {
      ItemsAreWritten(items[1..]);
      assert ItemsWritten(items)[1..] == ItemsWritten(items[1..]);
    }
  }

  lemma {:induction false} FieldsAreWritten(fields: seq<Field>)
    ensures EncFields(fields) == AllWritten(FieldsWritten(fields))
    decreases |fields|
  {
    hide Enc, EncText;
    if fields != [] {
      KeyWritten(fields[0].key);
      FieldsAreWritten(fields[1..]);
      assert FieldsWritten(fields)[1..] == FieldsWritten(fields[1..]);
    }
  }

  lemma KeyWritten(key: Text)
    ensures EncText(key) == Enc(Str(key))
  {
  }

  /** Arrays and objects: how many, then every item or property in order. */
  lemma ListWritten(v: Value)
    ensures v.Arr? && |v.items| < TWO_TO_32 ==> Counted(Enc(v), 7, |v.items|, AllWritten(ItemsWritten(v.items)))
    ensures v.Obj? && |v.fields| < TWO_TO_32 ==> Counted(Enc(v), 6, |v.fields|, AllWritten(FieldsWritten(v.fields)))
  {
    hide Counted, LE32, AllWritten, ItemsWritten, FieldsWritten, EncItems, EncFields;
    if v.Arr? && |v.items| < TWO_TO_32 {
      ItemsAreWritten(v.items);
      CountWritten(7, |v.items|, EncItems(v.items));
    }
    if v.Obj? && |v.fields| < TWO_TO_32 {
      FieldsAreWritten(v.fields);
      CountWritten(6, |v.fields|, EncFields(v.fields));
    }
  }

  // ----- what reading makes of any bytes -----

  /** How a value starts that reading refuses, whatever follows, and what it is refused for. */
  predicate Refused(buf: Data, pos: nat, error: DecodeError)
    requires pos <= |buf|
  {
    if pos == |buf| then error == OutOfBounds
    else
      var tag, left := buf[pos], |buf| - pos - 1;
      if tag > 9 then error == UnknownTag(tag)
      else if tag == 0 || tag == 9 then false
      else if tag == 1 then left < 1 && error == OutOfBounds
      else if tag == 3 || tag == 5 then left < 8 && error == OutOfBounds
      else if left < 4 then error == OutOfBounds
      else
        var count := LittleEndian(buf[pos + 1..pos + 5]);
        if tag == 4 && count > 16777216 then error == StringTooLong
        else if tag == 7 then count > 1000000 && error == ArrayTooLarge
        else if tag == 6 then count > 1000000 && error == ObjectTooLarge
        else tag in {4, 8} && left - 4 < count && error == OutOfBounds
  }

  lemma CountRead(buf: Data, at: nat)
    requires at + 4 <= |buf|
    ensures LittleEndian(buf[at..at + 4]) == ReadLE32(buf, at)
  {
    FourBytes(buf[at + 3], buf[at + 2], buf[at + 1], buf[at]);
    assert buf[at..at + 4] == [buf[at], buf[at + 1], buf[at + 2], buf[at + 3]];
  }

  lemma RefusedRead(buf: Data, pos: nat, coerce: Value -> Option<Text>, error: DecodeError)
    requires pos <= |buf| && Refused(buf, pos, error)
    ensures Dec(buf, pos, coerce) == Err(error)
  {
    hide LittleEndian, ReadLE32, DecItems, DecPairs, DecodeUtf8;
    if pos + 5 <= |buf| {
      CountRead(buf, pos + 1);
    }
  }

  /** A value without parts is read, a boolean being true exactly for the byte 1. */
  lemma LeafRead(buf: Data, pos: nat, coerce: Value -> Option<Text>)
    requires pos < |buf|
    ensures var r := Dec(buf, pos, coerce);
      && (buf[pos] == 0 ==> r == Ok(Null, pos + 1))
      && (buf[pos] == 1 && pos + 2 <= |buf| ==> r == Ok(Bool(buf[pos + 1] == 1), pos + 2))
      && (buf[pos] == 3 && pos + 9 <= |buf| ==> r == Ok(Float(buf[pos + 1..pos + 9]), pos + 9))
      && (buf[pos] == 5 && pos + 9 <= |buf| ==> r == Ok(Date(buf[pos + 1..pos + 9]), pos + 9))
  {
    hide LittleEndian, ReadLE32, DecItems, DecPairs, DecodeUtf8;
  }

  /** A number is signed; text and bytes are as long as their count says. */
  lemma WordRead(buf: Data, pos: nat, coerce: Value -> Option<Text>)
    requires pos + 5 <= |buf|
    ensures var r, n := Dec(buf, pos, coerce), LittleEndian(buf[pos + 1..pos + 5]);
      && (buf[pos] == 2 ==>
            r.Ok? && r.value.Int? && r.value.i == (if n < TWO_TO_31 then n else n - TWO_TO_32) && r.next == pos + 5)
      && (buf[pos] == 4 && n <= 16777216 && pos + 5 + n <= |buf| ==>
            r == Ok(Str(DecodeUtf8(buf[pos + 5..pos + 5 + n])), pos + 5 + n))
      && (buf[pos] == 8 && pos + 5 + n <= |buf| ==> r == Ok(Buffer(buf[pos + 5..pos + 5 + n]), pos + 5 + n))
  {
    hide LittleEndian, ReadLE32, DecItems, DecPairs, DecodeUtf8;
    CountRead(buf, pos + 1);
    var word := buf[pos + 1..pos + 5];
    CountRead(word, 0);
    assert word[0..4] == word;
  }

  // ----- repeated keys -----

  /** The value of a property, the first of that name. */
  function ValueOf(fields: seq<Field>, key: Text): Option<Value>
    decreases |fields|
  {
    if fields == [] then None
    else if fields[0].key == key then Some(fields[0].value)
    else ValueOf(fields[1..], key)
  }

  function KeysOf(fields: seq<Field>): seq<Text>
    decreases |fields|
  {
    if fields == [] then [] else [fields[0].key] + KeysOf(fields[1..])
  }

  /** The value a key is assigned last. */
  function LastValue(pairs: seq<Field>, key: Text): Option<Value>
    decreases |pairs|
  {
    if pairs == [] then None
    else
      var last := pairs[|pairs| - 1];
      if last.key == key then Some(last.value) else LastValue(pairs[..|pairs| - 1], key)
  }

  /** The keys in the order of their first assignments. */
  function FirstKeys(pairs: seq<Field>): (r: seq<Text>)
    ensures forall i, j :: 0 <= i < j < |r| ==> r[i] != r[j]
    decreases |pairs|
  {
    if pairs == [] then []
    else
      var before, key := FirstKeys(pairs[..|pairs| - 1]), pairs[|pairs| - 1].key;
      if key in before then before else before + [key]
  }

  lemma {:induction false} PropertySet(fields: seq<Field>, key: Text, value: Value, other: Text)
    ensures ValueOf(SetProperty(fields, key, value), other) ==
      if other == key then Some(value) else ValueOf(fields, other)
    decreases |fields|
  {
    if fields != [] && fields[0].key != key {
      PropertySet(fields[1..], key, value, other);
      assert ([fields[0]] + SetProperty(fields[1..], key, value))[1..] == SetProperty(fields[1..], key, value);
    } else if fields != [] {
      assert ([Field(key, value)] + fields[1..])[1..] == fields[1..];
    }
  }

  lemma {:induction false} KeySet(fields: seq<Field>, key: Text, value: Value)
    ensures KeysOf(SetProperty(fields, key, value)) ==
      if key in KeysOf(fields) then KeysOf(fields) else KeysOf(fields) + [key]
    decreases |fields|
  {
    if fields != [] {
      var first, rest := fields[0], fields[1..];
      if first.key == key {
        assert ([Field(key, value)] + rest)[1..] == rest;
      } else {
        KeySet(rest, key, value);
        assert ([first] + SetProperty(rest, key, value))[1..] == SetProperty(rest, key, value);
        assert [first.key] + (KeysOf(rest) + [key]) == [first.key] + KeysOf(rest) + [key];
      }
    }
  }

  /** Assigned one by one, every key has the value it was given last and the place it was given first. */
  lemma {:induction false} AssignedLast(pairs: seq<Field>, key: Text)
    ensures ValueOf(AssignAll(pairs), key) == LastValue(pairs, key)
    ensures KeysOf(AssignAll(pairs)) == FirstKeys(pairs)
    decreases |pairs|
  {
    if pairs != [] {
      var before, last := pairs[..|pairs| - 1], pairs[|pairs| - 1];
      AssignedLast(before, key);
      PropertySet(AssignAll(before), last.key, last.value, key);
      KeySet(AssignAll(before), last.key, last.value);
    }
  }
}
