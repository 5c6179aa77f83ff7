/**
  The tagged binary format of the RPC layer: what the encoder writes, what the
  decoder makes of any byte string, and the laws that tie the two.
 */
module HyperCodec {
  import opened Bytes
  import opened Wrappers

  /** A string, identified with its UTF-8 bytes. */
  type Text = Data

  /** The eight bytes of a float64. */
  type Float64 = d: Data | |d| == 8 witness [0, 0, 0, 0, 0, 0, 0, 0]

  /**
    The JavaScript values the codec writes. A number that is an int32 integer is
    an `Int`; `Float` is every other number. An object is the list of its own
    properties in enumeration order.
   */
  datatype Value =
    | Null
    | Bool(b: bool)
    | Int(i: Int32)
    | Float(bits: Float64)
    | Str(text: Text)
    | Date(time: Float64)
    | Buffer(data: Data)
    | Error(message: Text)
    | Arr(items: seq<Value>)
    | Obj(fields: seq<Field>)

  datatype Field = Field(key: Text, value: Value)

  datatype DecodeError =
    | OutOfBounds | StringTooLong | ArrayTooLarge | ObjectTooLarge | UnknownTag(tag: Byte) | CoercionThrew

  /** A decoded value with the offset after it, or the exception thrown. */
  datatype Read<+T> = Ok(value: T, next: nat) | Err(error: DecodeError)

  const TAG_NULL: Byte := 0
  const TAG_BOOL: Byte := 1
  const TAG_INT: Byte := 2
  const TAG_FLOAT: Byte := 3
  const TAG_STRING: Byte := 4
  const TAG_DATE: Byte := 5
  const TAG_OBJECT: Byte := 6
  const TAG_ARRAY: Byte := 7
  const TAG_BUFFER: Byte := 8
  const TAG_ERROR: Byte := 9

  const MAX_STRING := 16 * 1024 * 1024
  const MAX_COUNT := 1000000
  const MAX_SLAB := 128 * 1024 * 1024

  // ----- the bytes of a value -----

  function EncText(text: Text): (r: Data)
    ensures |r| == 5 + |text|
  {
    [TAG_STRING] + LE32(|text|) + text
  }

  /** What `write` stores before it recurses. */
  function Head(v: Value): (r: Data)
    ensures |r| > 0
  {
    match v
    case Null => [TAG_NULL]
    case Bool(b) => [TAG_BOOL, if b then 1 else 0]
    case Int(i) => [TAG_INT] + LE32(i)
    case Float(bits) => [TAG_FLOAT] + bits
    case Str(text) => EncText(text)
    case Date(time) => [TAG_DATE] + time
    case Buffer(data) => [TAG_BUFFER] + LE32(|data|) + data
    case Error(message) => [TAG_ERROR]
    case Arr(items) => [TAG_ARRAY] + LE32(|items|)
    case Obj(fields) => [TAG_OBJECT] + LE32(|fields|)
  }

  /** What the recursive calls add. */
  function Body(v: Value): Data
    decreases v, 0
  {
    match v
    case Error(message) => EncText(message)
    case Arr(items) => EncItems(items)
    case Obj(fields) => EncFields(fields)
    case _ => []
  }

  function Enc(v: Value): (r: Data)
    ensures |r| > 0
    decreases v, 1
  {
    match v
    case Error(message) => Head(v) + EncText(message)
    case Arr(items) => Head(v) + EncItems(items)
    case Obj(fields) => Head(v) + EncFields(fields)
    case _ => Head(v)
  }

  lemma HeadThenBody(v: Value)
    ensures Enc(v) == Head(v) + Body(v)
  {
  }

  function EncItems(items: seq<Value>): Data
    decreases items
  {
    if items == [] then [] else Enc(items[0]) + EncItems(items[1..])
  }

  function EncFields(fields: seq<Field>): Data
    decreases fields
  {
    if fields == [] then [] else EncField(fields[0]) + EncFields(fields[1..])
  }

  function EncField(field: Field): Data
    decreases field
  {
    EncText(field.key) + Enc(field.value)
  }

  // ----- reading any byte string -----

  /** `obj[key] = value`: overwrite in place, or append. */
  function SetProperty(fields: seq<Field>, key: Text, value: Value): seq<Field> {
    if fields == [] then [Field(key, value)]
    else if fields[0].key == key then [Field(key, value)] + fields[1..]
    else [fields[0]] + SetProperty(fields[1..], key, value)
  }

  /** The object that assigning `pairs` in order to a new one leaves. */
  function AssignAll(pairs: seq<Field>): seq<Field> {
    if pairs == [] then []
    else
      var last := pairs[|pairs| - 1];
      SetProperty(AssignAll(pairs[..|pairs| - 1]), last.key, last.value)
  }

  /** The string JavaScript makes of a value used as a property key or an error message; None when that throws. */
  function AsText(v: Value, coerce: Value -> Option<Text>): Option<Text> {
    if v.Str? then Some(v.text) else coerce(v)
  }

  /** The next `n` bytes, if they are there. */
  function Fixed(buf: Data, at: nat, n: nat): (r: Read<Data>)
    ensures r.Ok? <==> at + n <= |buf|
    ensures r.Ok? ==> |r.value| == n && At(buf, at, r.value) && r.next == at + n
  {
    if at + n > |buf| then Err(OutOfBounds) else Ok(buf[at..at + n], at + n)
  }

  /** A uint32 that may not exceed `limit`. */
  function Count(buf: Data, at: nat, limit: nat, tooLarge: DecodeError): (r: Read<nat>)
    ensures r.Ok? ==> r.next == at + 4 <= |buf|
  {
    if at + 4 > |buf| then Err(OutOfBounds)
    else if ReadLE32(buf, at) > limit then Err(tooLarge)
    else Ok(ReadLE32(buf, at), at + 4)
  }

  /** A length-prefixed run of bytes. */
  function Sized(buf: Data, at: nat, limit: nat, tooLong: DecodeError): (r: Read<Data>)
    ensures r.Ok? ==> at + 4 <= r.next <= |buf|
  {
    match Count(buf, at, limit, tooLong)
    case Err(e) => Err(e)
    case Ok(len, next) => Fixed(buf, next, len)
  }

  function Dec(buf: Data, pos: nat, coerce: Value -> Option<Text>): (r: Read<Value>)
    requires pos <= |buf|
    ensures r.Ok? ==> pos < r.next <= |buf|
    decreases |buf| - pos, 0
  {
    if pos + 1 > |buf| then Err(OutOfBounds)
    else if buf[pos] == TAG_ARRAY then
      match Count(buf, pos + 1, MAX_COUNT, ArrayTooLarge) {
        case Err(e) => Err(e)
        case Ok(len, at) =>
          match DecItems(buf, at, len, [], coerce)
          case Ok(items, next) => Ok(Arr(items), next)
          case Err(e) => Err(e)
      }
    else if buf[pos] == TAG_OBJECT then
      match Count(buf, pos + 1, MAX_COUNT, ObjectTooLarge) {
        case Err(e) => Err(e)
        case Ok(len, at) =>
          match DecPairs(buf, at, len, [], coerce)
          case Ok(pairs, next) => Ok(Obj(AssignAll(pairs)), next)
          case Err(e) => Err(e)
      }
    else if buf[pos] == TAG_ERROR then
      match Dec(buf, pos + 1, coerce) {
        case Err(e) => Err(e)
        case Ok(v, next) =>
          match AsText(v, coerce)
          case None => Err(CoercionThrew)
          case Some(message) => Ok(Error(message), next)
      }
    else DecLeaf(buf, pos)
  }

  /** The tags that hold no further value. */
  function DecLeaf(buf: Data, pos: nat): (r: Read<Value>)
    requires pos < |buf|
    ensures r.Ok? ==> pos < r.next <= |buf|
  {
    var at := pos + 1;
    if buf[pos] == TAG_NULL then Ok(Null, at)
    else if buf[pos] == TAG_BOOL then
      match Fixed(buf, at, 1) {
        case Ok(b, next) => Ok(Bool(b[0] == 1), next)
        case Err(e) => Err(e)
      }
    else if buf[pos] == TAG_INT then
      match Fixed(buf, at, 4) {
        case Ok(word, next) => Ok(Int(Signed32(ReadLE32(word, 0))), next)
        case Err(e) => Err(e)
      }
    else if buf[pos] == TAG_FLOAT then
      match Fixed(buf, at, 8) {
        case Ok(bits, next) => Ok(Float(bits), next)
        case Err(e) => Err(e)
      }
    else if buf[pos] == TAG_DATE then
      match Fixed(buf, at, 8) {
        case Ok(bits, next) => Ok(Date(bits), next)
        case Err(e) => Err(e)
      }
    else if buf[pos] == TAG_STRING then
      match Sized(buf, at, MAX_STRING, StringTooLong) {
        case Ok(bytes, next) => Ok(Str(DecodeUtf8(bytes)), next)
        case Err(e) => Err(e)
      }
    else if buf[pos] == TAG_BUFFER then
      match Sized(buf, at, TWO_TO_32, OutOfBounds) {
        case Ok(data, next) => Ok(Buffer(data), next)
        case Err(e) => Err(e)
      }
    else Err(UnknownTag(buf[pos]))
  }

  /** Reads `count` more elements after those in `done`. */
  function DecItems(buf: Data, pos: nat, count: nat, done: seq<Value>,
      coerce: Value -> Option<Text>): (r: Read<seq<Value>>)
    requires pos <= |buf|
    ensures r.Ok? ==> pos <= r.next <= |buf|
    decreases |buf| - pos, 1
  {
    if count == 0 then Ok(done, pos)
    else
      match Dec(buf, pos, coerce)
      case Err(e) => Err(e)
      case Ok(v, next) => DecItems(buf, next, count - 1, done + [v], coerce)
  }

  /** Reads `count` more key and value pairs after those in `done`. */
  function DecPairs(buf: Data, pos: nat, count: nat, done: seq<Field>,
      coerce: Value -> Option<Text>): (r: Read<seq<Field>>)
    requires pos <= |buf|
    ensures r.Ok? ==> pos <= r.next <= |buf|
    decreases |buf| - pos, 2
  {
    if count == 0 then Ok(done, pos)
    else
      match DecField(buf, pos, coerce)
      case Err(e) => Err(e)
      case Ok(f, next) => DecPairs(buf, next, count - 1, done + [f], coerce)
  }

  function DecField(buf: Data, pos: nat, coerce: Value -> Option<Text>): (r: Read<Field>)
    requires pos <= |buf|
    ensures r.Ok? ==> pos < r.next <= |buf|
    decreases |buf| - pos, 1
  {
    match Dec(buf, pos, coerce)
    case Err(e) => Err(e)
    case Ok(k, mid) =>
      match Dec(buf, mid, coerce)
      case Err(e) => Err(e)
      case Ok(v, next) =>
        match AsText(k, coerce)
        case None => Err(CoercionThrew)
        case Some(key) => Ok(Field(key, v), next)
  }

  // ----- which values come back -----

  /** What JavaScript itself guarantees of a value: lengths fit in 32 bits and property names are distinct. */
  predicate WellFormed(v: Value)
    decreases v
  {
    match v
    case Str(text) => |text| < TWO_TO_32
    case Error(message) => |message| < TWO_TO_32
    case Buffer(data) => |data| < TWO_TO_32
    case Arr(items) => |items| < TWO_TO_32 && WellFormedItems(items)
    case Obj(fields) => |fields| < TWO_TO_32 && DistinctKeys(fields) && WellFormedFields(fields)
    case _ => true
  }

  predicate WellFormedItems(items: seq<Value>)
    decreases items
  {
    items == [] || (WellFormed(items[0]) && WellFormedItems(items[1..]))
  }

  predicate WellFormedFields(fields: seq<Field>)
    decreases fields
  {
    fields == [] || (WellFormedField(fields[0]) && WellFormedFields(fields[1..]))
  }

  predicate WellFormedField(f: Field)
    decreases f
  {
    |f.key| < TWO_TO_32 && WellFormed(f.value)
  }

  predicate DistinctKeys(fields: seq<Field>) {
    forall i, j :: 0 <= i < j < |fields| ==> fields[i].key != fields[j].key
  }

  /** A string the decoder accepts and returns whole: not too long, and no leading byte order mark. */
  predicate TextSurvives(text: Text) {
    |text| <= MAX_STRING && DecodeUtf8(text) == text
  }

  /** Every string and every count in the value, at every depth, is one the decoder preserves. */
  predicate Survives(v: Value)
    decreases v
  {
    match v
    case Str(text) => TextSurvives(text)
    case Error(message) => TextSurvives(message)
    case Arr(items) => |items| <= MAX_COUNT && ItemsSurvive(items)
    case Obj(fields) => |fields| <= MAX_COUNT && FieldsSurvive(fields)
    case _ => true
  }

  predicate ItemsSurvive(items: seq<Value>)
    decreases items
  {
    items == [] || (Survives(items[0]) && ItemsSurvive(items[1..]))
  }

  predicate FieldsSurvive(fields: seq<Field>)
    decreases fields
  {
    fields == [] || (FieldSurvives(fields[0]) && FieldsSurvive(fields[1..]))
  }

  predicate FieldSurvives(f: Field)
    decreases f
  {
    TextSurvives(f.key) && Survives(f.value)
  }

  /** Every string and every count is within the decoder's limits. */
  predicate Fits(v: Value)
    decreases v
  {
    match v
    case Str(text) => |text| <= MAX_STRING
    case Error(message) => |message| <= MAX_STRING
    case Arr(items) => |items| <= MAX_COUNT && ItemsFit(items)
    case Obj(fields) => |fields| <= MAX_COUNT && FieldsFit(fields)
    case _ => true
  }

  predicate ItemsFit(items: seq<Value>)
    decreases items
  {
    items == [] || (Fits(items[0]) && ItemsFit(items[1..]))
  }

  predicate FieldsFit(fields: seq<Field>)
    decreases fields
  {
    fields == [] || (FieldFits(fields[0]) && FieldsFit(fields[1..]))
  }

  predicate FieldFits(f: Field)
    decreases f
  {
    |f.key| <= MAX_STRING && Fits(f.value)
  }

  /** The value as it comes back: every string has lost a leading byte order mark. */
  function Received(v: Value): Value
    decreases v
  {
    match v
    case Str(text) => Str(DecodeUtf8(text))
    case Error(message) => Error(DecodeUtf8(message))
    case Arr(items) => Arr(ReceivedItems(items))
    case Obj(fields) => Obj(AssignAll(ReceivedPairs(fields)))
    case _ => v
  }

  function ReceivedItems(items: seq<Value>): (r: seq<Value>)
    ensures |r| == |items|
    decreases items
  {
    if items == [] then [] else [Received(items[0])] + ReceivedItems(items[1..])
  }

  function ReceivedPairs(fields: seq<Field>): (r: seq<Field>)
    ensures |r| == |fields|
    decreases fields
  {
    if fields == [] then [] else [ReceivedField(fields[0])] + ReceivedPairs(fields[1..])
  }

  function ReceivedField(f: Field): Field
    decreases f
  {
    Field(DecodeUtf8(f.key), Received(f.value))
  }

  lemma {:induction false} SetNewProperty(fields: seq<Field>, key: Text, value: Value)
    requires forall f :: f in fields ==> f.key != key
    ensures SetProperty(fields, key, value) == fields + [Field(key, value)]
  {
    if fields != [] {
      SetNewProperty(fields[1..], key, value);
      assert fields == [fields[0]] + fields[1..];
    }
  }

  lemma TagAt(buf: Data, pos: nat, tag: Byte, rest: Data)
    requires At(buf, pos, [tag] + rest)
    ensures pos < |buf| && buf[pos] == tag && At(buf, pos + 1, rest)
  {
    AtConcat(buf, pos, [tag], rest);
    AtBytes(buf, pos, [tag]);
    assert buf[pos + 0] == [tag][0];
  }

  lemma SizedAt(buf: Data, at: nat, data: Data, limit: nat, tooLong: DecodeError)
    requires At(buf, at, LE32(|data|) + data) && |data| < TWO_TO_32
    ensures Sized(buf, at, limit, tooLong) == if |data| <= limit then Ok(data, at + 4 + |data|) else Err(tooLong)
  {
    hide LE32, ReadLE32;
    AtConcat(buf, at, LE32(|data|), data);
    WordRoundTrip(buf, at, |data|);
  }

  lemma DecodeText(buf: Data, pos: nat, text: Text, coerce: Value -> Option<Text>)
    requires At(buf, pos, EncText(text)) && |text| < TWO_TO_32
    ensures Dec(buf, pos, coerce) ==
            if |text| <= MAX_STRING then Ok(Str(DecodeUtf8(text)), pos + |EncText(text)|) else Err(StringTooLong)
  {
    assert EncText(text) == [TAG_STRING] + (LE32(|text|) + text);
    TagAt(buf, pos, TAG_STRING, LE32(|text|) + text);
    SizedAt(buf, pos + 1, text, MAX_STRING, StringTooLong);
  }

  /** A signed word reads back as itself. */
  lemma IntRoundTrip(i: Int32)
    ensures Signed32(ReadLE32(LE32(i), 0)) == i
  {
    hide LE16, LE24, LE32, BE16, BE32, ReadLE16, ReadLE24, ReadLE32, ReadBE16, ReadBE32;
    assert At(LE32(i), 0, LE32(i));
    WordRoundTrip(LE32(i), 0, i);
    if i >= 0 {
      SmallRemainder(i);
    }
  }

  lemma DecodeInt(buf: Data, pos: nat, i: Int32)
    requires At(buf, pos, [TAG_INT] + LE32(i))
    ensures DecLeaf(buf, pos) == Ok(Int(i), pos + 5)
  {
    hide LE32, ReadLE32;
    TagAt(buf, pos, TAG_INT, LE32(i));
    IntRoundTrip(i);
    assert Fixed(buf, pos + 1, 4).value == LE32(i);
  }

  lemma DecodeLeaf(buf: Data, pos: nat, v: Value, coerce: Value -> Option<Text>)
    requires v.Null? || v.Bool? || v.Int? || v.Float? || v.Date? || v.Buffer?
    requires WellFormed(v) && At(buf, pos, Enc(v))
    ensures Dec(buf, pos, coerce) == Ok(v, pos + |Enc(v)|)
  {
    hide LE32, ReadLE32;
    TagAt(buf, pos, Enc(v)[0], Enc(v)[1..]);
    assert Enc(v) == [Enc(v)[0]] + Enc(v)[1..];
    match v
    case Null =>
    case Bool(b) =>
    case Int(i) => DecodeInt(buf, pos, i);
    case Float(bits) => assert Enc(v)[1..] == bits;
    case Date(time) => assert Enc(v)[1..] == time;
    case Buffer(data) =>
      assert Enc(v)[1..] == LE32(|data|) + data;
      SizedAt(buf, pos + 1, data, TWO_TO_32, OutOfBounds);
  }

  lemma CountAt(buf: Data, pos: nat, tag: Byte, n: nat, rest: Data, limit: nat, tooLarge: DecodeError)
    requires At(buf, pos, [tag] + LE32(n) + rest) && n < TWO_TO_32
    ensures pos < |buf| && buf[pos] == tag && At(buf, pos + 5, rest)
    ensures Count(buf, pos + 1, limit, tooLarge) == if n <= limit then Ok(n, pos + 5) else Err(tooLarge)
  {
    hide LE32, ReadLE32;
    assert [tag] + LE32(n) + rest == [tag] + (LE32(n) + rest);
    TagAt(buf, pos, tag, LE32(n) + rest);
    AtConcat(buf, pos + 1, LE32(n), rest);
    WordRoundTrip(buf, pos + 1, n);
  }

  /**
    Wherever the encoding of a value stands in a buffer, whatever surrounds it,
    decoding there stops exactly at its end with the received value, unless some
    string or count exceeds the decoder's limits, and then it throws.
   */
  lemma {:induction false} DecodeEncoded(buf: Data, pos: nat, v: Value, coerce: Value -> Option<Text>)
    requires WellFormed(v) && At(buf, pos, Enc(v))
    ensures if Fits(v) then Dec(buf, pos, coerce) == Ok(Received(v), pos + |Enc(v)|) else Dec(buf, pos, coerce).Err?
    decreases v
  {
    hide LE32, ReadLE32, DecLeaf, DecItems, DecPairs, EncItems, EncFields, DecodeUtf8, AssignAll;
    match v
    case Str(text) => DecodeText(buf, pos, text, coerce);
    case Error(message) =>
      TagAt(buf, pos, TAG_ERROR, EncText(message));
      DecodeText(buf, pos + 1, message, coerce);
    case Arr(items) =>
      CountAt(buf, pos, TAG_ARRAY, |items|, EncItems(items), MAX_COUNT, ArrayTooLarge);
      assert [] + ReceivedItems(items) == ReceivedItems(items);
      DecodeEncodedItems(buf, pos + 5, items, [], ReceivedItems(items), coerce);
    case Obj(fields) =>
      CountAt(buf, pos, TAG_OBJECT, |fields|, EncFields(fields), MAX_COUNT, ObjectTooLarge);
      assert [] + ReceivedPairs(fields) == ReceivedPairs(fields);
      DecodeEncodedPairs(buf, pos + 5, fields, [], ReceivedPairs(fields), coerce);
    case _ => DecodeLeaf(buf, pos, v, coerce);
  }

  lemma {:induction false} DecodeEncodedItems(buf: Data, pos: nat, items: seq<Value>, done: seq<Value>,
      all: seq<Value>, coerce: Value -> Option<Text>)
    requires WellFormedItems(items) && At(buf, pos, EncItems(items)) && all == done + ReceivedItems(items)
    ensures if ItemsFit(items) then DecItems(buf, pos, |items|, done, coerce) == Ok(all, pos + |EncItems(items)|)
            else DecItems(buf, pos, |items|, done, coerce).Err?
    decreases items
  {
    hide Dec, Enc, Fits, WellFormed, Received;
    if items == [] {
      assert all == done;
    } else {
      var head, rest := items[0], items[1..];
      AtConcat(buf, pos, Enc(head), EncItems(rest));
      DecodeEncoded(buf, pos, head, coerce);
      DecodeEncodedItems(buf, pos + |Enc(head)|, rest, done + [Received(head)], all, coerce);
    }
  }

  lemma {:induction false} DecodeEncodedPairs(buf: Data, pos: nat, fields: seq<Field>, done: seq<Field>,
      all: seq<Field>, coerce: Value -> Option<Text>)
    requires WellFormedFields(fields) && At(buf, pos, EncFields(fields)) && all == done + ReceivedPairs(fields)
    ensures if FieldsFit(fields) then DecPairs(buf, pos, |fields|, done, coerce) == Ok(all, pos + |EncFields(fields)|)
            else DecPairs(buf, pos, |fields|, done, coerce).Err?
    decreases fields
  {
    hide DecField, EncField, FieldFits, WellFormedField, ReceivedField;
    if fields == [] {
      assert all == done;
    } else {
      var head, rest := fields[0], fields[1..];
      AtConcat(buf, pos, EncField(head), EncFields(rest));
      DecodeEncodedField(buf, pos, head, coerce);
      DecodeEncodedPairs(buf, pos + |EncField(head)|, rest, done + [ReceivedField(head)], all, coerce);
    }
  }

  lemma {:induction false} DecodeEncodedField(buf: Data, pos: nat, f: Field, coerce: Value -> Option<Text>)
    requires WellFormedField(f) && At(buf, pos, EncField(f))
    ensures if FieldFits(f) then DecField(buf, pos, coerce) == Ok(ReceivedField(f), pos + |EncField(f)|)
            else DecField(buf, pos, coerce).Err?
    decreases f
  {
    hide Dec, Enc, Received, Fits, WellFormed, DecodeUtf8, LE32;
    AtConcat(buf, pos, EncText(f.key), Enc(f.value));
    DecodeText(buf, pos, f.key, coerce);
    DecodeEncoded(buf, pos + |EncText(f.key)|, f.value, coerce);
  }

  /** Assigning distinct keys overwrites nothing. */
  lemma {:induction false} AssignDistinct(pairs: seq<Field>)
    requires DistinctKeys(pairs)
    ensures AssignAll(pairs) == pairs
  {
    if pairs != [] {
      var before, last := pairs[..|pairs| - 1], pairs[|pairs| - 1];
      AssignDistinct(before);
      SetNewProperty(before, last.key, last.value);
      assert pairs == before + [last];
    }
  }

  lemma {:induction false} SetPropertyLength(fields: seq<Field>, key: Text, value: Value)
    ensures |fields| <= |SetProperty(fields, key, value)| <= |fields| + 1
    ensures |SetProperty(fields, key, value)| == |fields| + 1 ==>
              SetProperty(fields, key, value) == fields + [Field(key, value)]
  {
    if fields != [] {
      SetPropertyLength(fields[1..], key, value);
      assert fields == [fields[0]] + fields[1..];
    }
  }

  /** An object as large as the list of assignments that built it is that list. */
  lemma {:induction false} AssignKeepsAll(pairs: seq<Field>)
    ensures |AssignAll(pairs)| <= |pairs|
    ensures |AssignAll(pairs)| == |pairs| ==> AssignAll(pairs) == pairs
  {
    if pairs != [] {
      var before, last := pairs[..|pairs| - 1], pairs[|pairs| - 1];
      AssignKeepsAll(before);
      SetPropertyLength(AssignAll(before), last.key, last.value);
      assert pairs == before + [last];
    }
  }

  lemma {:induction false} ReceivedUnchanged(v: Value)
    requires WellFormed(v) && Fits(v)
    ensures Received(v) == v <==> Survives(v)
    decreases v
  {
    match v
    case Arr(items) => ReceivedItemsUnchanged(items);
    case Obj(fields) =>
      ReceivedPairsUnchanged(fields);
      AssignDistinct(fields);
      AssignKeepsAll(ReceivedPairs(fields));
    case _ =>
  }

  lemma {:induction false} ReceivedItemsUnchanged(items: seq<Value>)
    requires WellFormedItems(items) && ItemsFit(items)
    ensures ReceivedItems(items) == items <==> ItemsSurvive(items)
    decreases items
  {
    hide WellFormed, Fits, Survives, Received;
    if items != [] {
      ReceivedUnchanged(items[0]);
      ReceivedItemsUnchanged(items[1..]);
      SameHeadAndTail(ReceivedItems(items), items);
    }
  }

  lemma {:induction false} ReceivedPairsUnchanged(fields: seq<Field>)
    requires WellFormedFields(fields) && FieldsFit(fields)
    ensures ReceivedPairs(fields) == fields <==> FieldsSurvive(fields)
    decreases fields
  {
    if fields != [] {
      ReceivedUnchanged(fields[0].value);
      ReceivedPairsUnchanged(fields[1..]);
      SameHeadAndTail(ReceivedPairs(fields), fields);
    }
  }

  lemma SameHeadAndTail<T>(a: seq<T>, b: seq<T>)
    requires a != [] && b != []
    ensures a == b <==> a[0] == b[0] && a[1..] == b[1..]
  {
    assert a == [a[0]] + a[1..] && b == [b[0]] + b[1..];
  }

  lemma {:induction false} SurvivorFits(v: Value)
    requires Survives(v)
    ensures Fits(v)
    decreases v
  {
    match v
    case Arr(items) => SurvivingItemsFit(items);
    case Obj(fields) => SurvivingFieldsFit(fields);
    case _ =>
  }

  lemma {:induction false} SurvivingItemsFit(items: seq<Value>)
    requires ItemsSurvive(items)
    ensures ItemsFit(items)
    decreases items
  {
    if items != [] {
      SurvivorFits(items[0]);
      SurvivingItemsFit(items[1..]);
    }
  }

  lemma {:induction false} SurvivingFieldsFit(fields: seq<Field>)
    requires FieldsSurvive(fields)
    ensures FieldsFit(fields)
    decreases fields
  {
    if fields != [] {
      SurvivorFits(fields[0].value);
      SurvivingFieldsFit(fields[1..]);
    }
  }

  /**
    Round trip with any bytes following: decoding an encoding gives the value back
    and consumes exactly its bytes if and only if the decoder preserves every
    string and count in it.
   */
  lemma RoundTrip(v: Value, tail: Data, coerce: Value -> Option<Text>)
    requires WellFormed(v)
    ensures Dec(Enc(v) + tail, 0, coerce) == Ok(v, |Enc(v)|) <==> Survives(v)
  {
    hide Dec, Enc, Survives, Received, Fits, WellFormed;
    assert At(Enc(v) + tail, 0, Enc(v));
    DecodeEncoded(Enc(v) + tail, 0, v, coerce);
    if Fits(v) {
      ReceivedUnchanged(v);
    } else if Survives(v) {
      SurvivorFits(v);
    }
  }

  // ----- what does not survive -----

  /** The text starts with a byte order mark. */
  predicate Marked(text: Text) {
    |text| >= 3 && text[..3] == [0xEF, 0xBB, 0xBF]
  }

  lemma SurvivesUnmarked(text: Text)
    ensures TextSurvives(text) <==> |text| <= MAX_STRING && !Marked(text)
  {
    assert Marked(text) ==> |DecodeUtf8(text)| < |text|;
  }

  /** A string, error message or property name of the value, at any depth. */
  predicate Contains(v: Value, text: Text)
    decreases v
  {
    match v
    case Str(t) => t == text
    case Error(t) => t == text
    case Arr(items) => ItemsContain(items, text)
    case Obj(fields) => FieldsContain(fields, text)
    case _ => false
  }

  predicate ItemsContain(items: seq<Value>, text: Text)
    decreases items
  {
    items != [] && (Contains(items[0], text) || ItemsContain(items[1..], text))
  }

  predicate FieldsContain(fields: seq<Field>, text: Text)
    decreases fields
  {
    fields != [] && (fields[0].key == text || Contains(fields[0].value, text) || FieldsContain(fields[1..], text))
  }

  /** Of a value that survives every string does. */
  lemma {:induction false} SurvivingText(v: Value, text: Text)
    requires Survives(v) && Contains(v, text)
    ensures TextSurvives(text)
    decreases v
  {
    hide TextSurvives;
    match v
    case Arr(items) => SurvivingItemText(items, text);
    case Obj(fields) => SurvivingFieldText(fields, text);
    case _ =>
  }

  lemma {:induction false} SurvivingItemText(items: seq<Value>, text: Text)
    requires ItemsSurvive(items) && ItemsContain(items, text)
    ensures TextSurvives(text)
    decreases items
  {
    hide TextSurvives;
    if Contains(items[0], text) { SurvivingText(items[0], text); } else { SurvivingItemText(items[1..], text); }
  }

  lemma {:induction false} SurvivingFieldText(fields: seq<Field>, text: Text)
    requires FieldsSurvive(fields) && FieldsContain(fields, text)
    ensures TextSurvives(text)
    decreases fields
  {
    hide TextSurvives;
    if fields[0].key == text {
    } else if Contains(fields[0].value, text) {
      SurvivingText(fields[0].value, text);
    } else {
      SurvivingFieldText(fields[1..], text);
    }
  }

  // ----- what is received is never longer -----

  lemma TextNotLonger(text: Text)
    ensures |EncText(DecodeUtf8(text))| <= |EncText(text)|
    ensures |EncText(DecodeUtf8(text))| == |EncText(text)| <==> DecodeUtf8(text) == text
  {
  }

  /** Overwriting a property saves the bytes of the old one. */
  lemma {:induction false} SetPropertySize(fields: seq<Field>, key: Text, value: Value)
    ensures |EncFields(SetProperty(fields, key, value))| <= |EncFields(fields)| + |EncField(Field(key, value))|
    decreases |fields|
  {
    hide EncField;
    if fields == [] {
      assert [Field(key, value)][1..] == [];
    } else if fields[0].key == key {
      assert ([Field(key, value)] + fields[1..])[1..] == fields[1..];
    } else {
      SetPropertySize(fields[1..], key, value);
      assert ([fields[0]] + SetProperty(fields[1..], key, value))[1..] == SetProperty(fields[1..], key, value);
    }
  }

  lemma {:induction false} AssignAllSize(pairs: seq<Field>)
    ensures |EncFields(AssignAll(pairs))| <= |EncFields(pairs)|
    decreases |pairs|
  {
    hide EncField, SetProperty;
    if pairs != [] {
      var before, last := pairs[..|pairs| - 1], pairs[|pairs| - 1];
      AssignAllSize(before);
      SetPropertySize(AssignAll(before), last.key, last.value);
      EncFieldsSnoc(pairs, |pairs| - 1);
      assert pairs[..|pairs|] == pairs;
    }
  }

  /** What is received encodes in no more bytes than what was sent, and in as many exactly when it is the same. */
  lemma {:induction false} ReceivedNotLonger(v: Value)
    requires WellFormed(v) && Fits(v)
    ensures |Enc(Received(v))| <= |Enc(v)|
    ensures |Enc(Received(v))| == |Enc(v)| <==> Survives(v)
    decreases v
  {
    hide LE32, EncText, EncItems, EncFields, AssignAll, DecodeUtf8;
    match v
    case Str(text) => TextNotLonger(text);
    case Error(message) => TextNotLonger(message);
    case Arr(items) => ReceivedItemsNotLonger(items);
    case Obj(fields) =>
      ReceivedPairsNotLonger(fields);
      AssignAllSize(ReceivedPairs(fields));
      if Survives(v) { ReceivedUnchanged(v); }
    case _ =>
  }

  lemma {:induction false} ReceivedItemsNotLonger(items: seq<Value>)
    requires WellFormedItems(items) && ItemsFit(items)
    ensures |EncItems(ReceivedItems(items))| <= |EncItems(items)|
    ensures |EncItems(ReceivedItems(items))| == |EncItems(items)| <==> ItemsSurvive(items)
    decreases items
  {
    hide Enc, WellFormed, Fits, Survives, Received;
    if items != [] {
      ReceivedNotLonger(items[0]);
      ReceivedItemsNotLonger(items[1..]);
      assert ReceivedItems(items)[1..] == ReceivedItems(items[1..]);
    }
  }

  lemma {:induction false} ReceivedPairsNotLonger(fields: seq<Field>)
    requires WellFormedFields(fields) && FieldsFit(fields)
    ensures |EncFields(ReceivedPairs(fields))| <= |EncFields(fields)|
    ensures |EncFields(ReceivedPairs(fields))| == |EncFields(fields)| <==> FieldsSurvive(fields)
    decreases fields
  {
    hide Enc, EncText, WellFormed, Fits, Survives, Received, DecodeUtf8;
    if fields != [] {
      TextNotLonger(fields[0].key);
      ReceivedNotLonger(fields[0].value);
      ReceivedPairsNotLonger(fields[1..]);
      assert ReceivedPairs(fields)[1..] == ReceivedPairs(fields[1..]);
    }
  }

  // ----- encodings are prefix-free, decodable or not -----

  /** Equal beginnings of equal length leave equal rests. */
  lemma SameStart(a: Data, b: Data, s: Data, t: Data)
    requires a + s == b + t && |a| == |b|
    ensures a == b && s == t
  {
    assert a == (a + s)[..|a|] == (b + t)[..|b|] == b;
    assert s == (a + s)[|a|..] == (b + t)[|b|..] == t;
  }

  lemma SameWord(m: int, n: int)
    requires LE32(m) == LE32(n)
    ensures m % TWO_TO_32 == n % TWO_TO_32
  {
    hide LE32, ReadLE32;
    assert At(LE32(m), 0, LE32(m));
    WordRoundTrip(LE32(m), 0, m);
    WordRoundTrip(LE32(n), 0, n);
  }

  lemma SameCount(m: nat, n: nat, s: Data, t: Data)
    requires LE32(m) + s == LE32(n) + t && m < TWO_TO_32 && n < TWO_TO_32
    ensures m == n && s == t
  {
    hide LE32;
    SameStart(LE32(m), LE32(n), s, t);
    SameWord(m, n);
    SmallRemainder(m);
    SmallRemainder(n);
  }

  lemma SameInt(i: Int32, j: Int32)
    requires LE32(i) == LE32(j)
    ensures i == j
  {
    hide LE32;
    SameWord(i, j);
  }

  /** A tag and a count, and what follows them. */
  lemma SameHeader(tag: Byte, m: nat, n: nat, a: Data, b: Data, s: Data, t: Data)
    requires [tag] + LE32(m) + a + s == [tag] + LE32(n) + b + t && m < TWO_TO_32 && n < TWO_TO_32
    ensures m == n && a + s == b + t
  {
    hide LE32;
    assert [tag] + LE32(m) + a + s == ([tag] + LE32(m)) + (a + s);
    assert [tag] + LE32(n) + b + t == ([tag] + LE32(n)) + (b + t);
    SameStart([tag] + LE32(m), [tag] + LE32(n), a + s, b + t);
    SameStart([tag], [tag], LE32(m), LE32(n));
    assert LE32(m) + [] == LE32(m) && LE32(n) + [] == LE32(n);
    SameCount(m, n, [], []);
  }

  lemma SameText(a: Text, b: Text, s: Data, t: Data)
    requires EncText(a) + s == EncText(b) + t && |a| < TWO_TO_32 && |b| < TWO_TO_32
    ensures a == b && s == t
  {
    hide LE32;
    SameHeader(TAG_STRING, |a|, |b|, a, b, s, t);
    SameStart(a, b, s, t);
  }

  /** The tags that tell constructors apart. */
  function Tag(v: Value): Byte {
    match v
    case Null => TAG_NULL
    case Bool(_) => TAG_BOOL
    case Int(_) => TAG_INT
    case Float(_) => TAG_FLOAT
    case Str(_) => TAG_STRING
    case Date(_) => TAG_DATE
    case Buffer(_) => TAG_BUFFER
    case Error(_) => TAG_ERROR
    case Arr(_) => TAG_ARRAY
    case Obj(_) => TAG_OBJECT
  }

  lemma StartsWithTag(v: Value)
    ensures Enc(v)[0] == Tag(v) <= TAG_ERROR
  {
    hide LE32;
  }

  /** Values without further values in them. */
  lemma SameLeaf(v: Value, w: Value, s: Data, t: Data)
    requires Tag(v) == Tag(w) && !v.Error? && !v.Arr? && !v.Obj?
    requires WellFormed(v) && WellFormed(w) && Enc(v) + s == Enc(w) + t
    ensures v == w && s == t
  {
    hide LE32, EncText;
    match v
    case Str(text) => SameText(text, w.text, s, t);
    case Buffer(data) =>
      SameHeader(TAG_BUFFER, |data|, |w.data|, data, w.data, s, t);
      SameStart(data, w.data, s, t);
    case Int(i) =>
      SameStart(Enc(v), Enc(w), s, t);
      SameStart([TAG_INT], [TAG_INT], LE32(i), LE32(w.i));
      SameInt(i, w.i);
    case Float(bits) =>
      SameStart(Enc(v), Enc(w), s, t);
      SameStart([TAG_FLOAT], [TAG_FLOAT], bits, w.bits);
    case Date(time) =>
      SameStart(Enc(v), Enc(w), s, t);
      SameStart([TAG_DATE], [TAG_DATE], time, w.time);
    case Bool(b) =>
      SameStart(Enc(v), Enc(w), s, t);
      assert Enc(v)[1] == Enc(w)[1];
    case Null => SameStart(Enc(v), Enc(w), s, t);
  }

  /**
    No encoding is a prefix of another, and equal encodings mean equal values: for every value that can be
    written, those the decoder alters or rejects included.
   */
  lemma {:induction false} UniquelyDecodable(v: Value, w: Value, s: Data, t: Data)
    requires WellFormed(v) && WellFormed(w) && Enc(v) + s == Enc(w) + t
    ensures v == w && s == t
    decreases v
  {
    hide LE32, EncText;
    StartsWithTag(v);
    StartsWithTag(w);
    assert (Enc(v) + s)[0] == Enc(v)[0] && (Enc(w) + t)[0] == Enc(w)[0];
    match v
    case Error(message) =>
      assert Enc(v) + s == [TAG_ERROR] + (EncText(message) + s);
      assert Enc(w) + t == [TAG_ERROR] + (EncText(w.message) + t);
      SameStart([TAG_ERROR], [TAG_ERROR], EncText(message) + s, EncText(w.message) + t);
      SameText(message, w.message, s, t);
    case Arr(items) =>
      SameHeader(TAG_ARRAY, |items|, |w.items|, EncItems(items), EncItems(w.items), s, t);
      SameItems(items, w.items, s, t);
    case Obj(fields) =>
      SameHeader(TAG_OBJECT, |fields|, |w.fields|, EncFields(fields), EncFields(w.fields), s, t);
      SameFields(fields, w.fields, s, t);
    case _ => SameLeaf(v, w, s, t);
  }

  lemma {:induction false} SameItems(a: seq<Value>, b: seq<Value>, s: Data, t: Data)
    requires |a| == |b| && WellFormedItems(a) && WellFormedItems(b) && EncItems(a) + s == EncItems(b) + t
    ensures a == b && s == t
    decreases a
  {
    hide Enc, WellFormed;
    if a != [] {
      assert EncItems(a) + s == Enc(a[0]) + (EncItems(a[1..]) + s);
      assert EncItems(b) + t == Enc(b[0]) + (EncItems(b[1..]) + t);
      UniquelyDecodable(a[0], b[0], EncItems(a[1..]) + s, EncItems(b[1..]) + t);
      SameItems(a[1..], b[1..], s, t);
      assert a == [a[0]] + a[1..] && b == [b[0]] + b[1..];
    } else {
      assert EncItems(a) + s == s && EncItems(b) + t == t;
    }
  }

  lemma {:induction false} SameFields(a: seq<Field>, b: seq<Field>, s: Data, t: Data)
    requires |a| == |b| && WellFormedFields(a) && WellFormedFields(b) && EncFields(a) + s == EncFields(b) + t
    ensures a == b && s == t
    decreases a
  {
    hide Enc, EncText, WellFormed;
    if a != [] {
      var f, g := a[0], b[0];
      assert EncFields(a) + s == EncText(f.key) + (Enc(f.value) + (EncFields(a[1..]) + s));
      assert EncFields(b) + t == EncText(g.key) + (Enc(g.value) + (EncFields(b[1..]) + t));
      SameText(f.key, g.key, Enc(f.value) + (EncFields(a[1..]) + s), Enc(g.value) + (EncFields(b[1..]) + t));
      UniquelyDecodable(f.value, g.value, EncFields(a[1..]) + s, EncFields(b[1..]) + t);
      SameFields(a[1..], b[1..], s, t);
      assert a == [f] + a[1..] && b == [g] + b[1..];
    } else {
      assert EncFields(a) + s == s && EncFields(b) + t == t;
    }
  }

  // ----- the encoder: one growing slab, one running offset -----

  function Max(a: int, b: int): int {
    if a < b then b else a
  }

  class Encoder {
    var slab: array<Byte>
    var offset: nat

    constructor (initial: array<Byte>)
      ensures slab == initial && offset == 0
    {
      slab, offset := initial, 0;
    }

    ghost predicate Valid()
      reads this, slab
    {
      offset <= slab.Length
    }

    /** What has been written so far. */
    ghost function Written(): Data
      reads this, slab
      requires Valid()
    {
      slab[..offset]
    }

    /**
      Makes room for `size` more bytes, at least doubling when it must grow; false stands for the size-limit
      exception.
     */
    method Ensure(size: nat) returns (ok: bool)
      requires Valid()
      modifies this
      ensures Valid() && offset == old(offset) && Written() == old(Written())
      ensures slab == old(slab) || fresh(slab)
      ensures ok <==> offset + size <= old(slab.Length) || Max(old(slab.Length) * 2, offset + size) <= MAX_SLAB
      ensures ok ==> offset + size <= slab.Length <= Max(old(slab.Length), MAX_SLAB)
      ensures slab.Length >= old(slab.Length)
    {
      ok := true;
      if offset + size > slab.Length {
        var newSize := Max(slab.Length * 2, offset + size);
        if newSize > MAX_SLAB {
          ok := false;
          return;
        }
        var next := new Byte[newSize](_ => 0);
        forall i | 0 <= i < slab.Length {
          next[i] := slab[i];
        }
        slab := next;
      }
    }

    /** Consecutive stores at the running offset. */
    method Put(bytes: Data)
      requires Valid() && offset + |bytes| <= slab.Length
      modifies this`offset, slab
      ensures Valid() && offset == old(offset) + |bytes| && Written() == old(Written()) + bytes
    {
      var start := offset;
      forall i | 0 <= i < |bytes| {
        slab[start + i] := bytes[i];
      }
      offset := offset + |bytes|;
      assert slab[..start] == old(slab[..offset]);
      assert slab[start..offset] == bytes;
      assert slab[..offset] == slab[..start] + slab[start..offset];
    }

    /** Room for `bytes` made in one step, then the bytes. */
    method Emit(bytes: Data) returns (ok: bool)
      requires Valid()
      modifies this, slab
      ensures Valid() && (slab == old(slab) || fresh(slab))
      ensures Grown(ok, old(slab.Length), old(offset) + |bytes|)
      ensures ok ==> Written() == old(Written()) + bytes
    {
      ok := Ensure(|bytes|);
      if ok {
        Put(bytes);
      }
    }

    /**
      How a slab of `before` bytes may have changed once `needed` bytes were asked
      for: it never shrinks or outgrows the limit, and the exception needs a
      demand above both the first slab and half the limit.
     */
    predicate Grown(ok: bool, before: nat, needed: nat)
      reads this
    {
      && before <= slab.Length
      && (ok ==> offset == needed && needed <= slab.Length <= Max(before, MAX_SLAB))
      && (!ok ==> needed > before && needed > MAX_SLAB / 2)
    }

    /** `write(v)`: either the encoding has been appended, or the size limit was hit. */
    method Write(v: Value) returns (ok: bool)
      requires Valid()
      modifies this, slab
      ensures Valid() && (slab == old(slab) || fresh(slab))
      ensures Grown(ok, old(slab.Length), old(offset) + |Enc(v)|)
      ensures ok ==> Written() == old(Written()) + Enc(v)
      decreases v, 1
    {
      HeadThenBody(v);
      ok := Emit(Head(v));
      if ok {
        ConcatAssoc(old(Written()), Head(v), Body(v));
        ok := WriteBody(v);
      }
    }

    /** The recursive calls of `write`. */
    method WriteBody(v: Value) returns (ok: bool)
      requires Valid()
      modifies this, slab
      ensures Valid() && (slab == old(slab) || fresh(slab))
      ensures Grown(ok, old(slab.Length), old(offset) + |Body(v)|)
      ensures ok ==> Written() == old(Written()) + Body(v)
      decreases v, 0
    {
      match v
      case Error(message) => ok := Emit(EncText(message));
      case Arr(items) => ok := WriteItems(items);
      case Obj(fields) => ok := WriteFields(fields);
      case _ => ok := true;
    }

    /** `for (const item of v) write(item)` */
    method WriteItems(items: seq<Value>) returns (ok: bool)
      requires Valid()
      modifies this, slab
      ensures Valid() && (slab == old(slab) || fresh(slab))
      ensures Grown(ok, old(slab.Length), old(offset) + |EncItems(items)|)
      ensures ok ==> Written() == old(Written()) + EncItems(items)
      decreases items
    {
      ok := true;
      var i := 0;
      while ok && i < |items|
        invariant 0 <= i <= |items| && Valid() && (slab == old(slab) || fresh(slab))
        invariant Grown(ok, old(slab.Length), old(offset) + |EncItems(items[..i])|)
        invariant ok ==> Written() == old(Written()) + EncItems(items[..i])
      {
        EncItemsSnoc(items, i);
        ConcatAssoc(old(Written()), EncItems(items[..i]), Enc(items[i]));
        ok := Write(items[i]);
        i := i + 1;
      }
      EncItemsPrefix(items, i);
      assert items[..|items|] == items;
    }

    /** `for (const key of keys) { write(key); write(v[key]) }` */
    method WriteFields(fields: seq<Field>) returns (ok: bool)
      requires Valid()
      modifies this, slab
      ensures Valid() && (slab == old(slab) || fresh(slab))
      ensures Grown(ok, old(slab.Length), old(offset) + |EncFields(fields)|)
      ensures ok ==> Written() == old(Written()) + EncFields(fields)
      decreases fields
    {
      ok := true;
      var i := 0;
      while ok && i < |fields|
        invariant 0 <= i <= |fields| && Valid() && (slab == old(slab) || fresh(slab))
        invariant Grown(ok, old(slab.Length), old(offset) + |EncFields(fields[..i])|)
        invariant ok ==> Written() == old(Written()) + EncFields(fields[..i])
      {
        EncFieldsSnoc(fields, i);
        ConcatAssoc(old(Written()), EncFields(fields[..i]), EncField(fields[i]));
        ok := WriteField(fields[i]);
        i := i + 1;
      }
      EncFieldsPrefix(fields, i);
      assert fields[..|fields|] == fields;
    }

    method WriteField(field: Field) returns (ok: bool)
      requires Valid()
      modifies this, slab
      ensures Valid() && (slab == old(slab) || fresh(slab))
      ensures Grown(ok, old(slab.Length), old(offset) + |EncField(field)|)
      ensures ok ==> Written() == old(Written()) + EncField(field)
      decreases field
    {
      ok := Emit(EncText(field.key));
      if ok {
        ok := Write(field.value);
      }
    }
  }

  lemma {:induction false} EncItemsSnoc(items: seq<Value>, i: nat)
    requires i < |items|
    ensures EncItems(items[..i + 1]) == EncItems(items[..i]) + Enc(items[i])
    decreases i
  {
    hide Enc;
    if i > 0 {
      EncItemsSnoc(items[1..], i - 1);
      assert items[..i + 1][1..] == items[1..][..i] && items[..i][1..] == items[1..][..i - 1];
    }
  }

  lemma {:induction false} EncItemsPrefix(items: seq<Value>, i: nat)
    requires i <= |items|
    ensures |EncItems(items[..i])| <= |EncItems(items)|
    decreases |items| - i
  {
    if i < |items| {
      EncItemsSnoc(items, i);
      EncItemsPrefix(items, i + 1);
    } else {
      assert items[..i] == items;
    }
  }

  lemma {:induction false} EncFieldsSnoc(fields: seq<Field>, i: nat)
    requires i < |fields|
    ensures EncFields(fields[..i + 1]) == EncFields(fields[..i]) + EncField(fields[i])
    decreases i
  {
    hide EncField;
    if i > 0 {
      EncFieldsSnoc(fields[1..], i - 1);
      assert fields[..i + 1][1..] == fields[1..][..i] && fields[..i][1..] == fields[1..][..i - 1];
    }
  }

  lemma {:induction false} EncFieldsPrefix(fields: seq<Field>, i: nat)
    requires i <= |fields|
    ensures |EncFields(fields[..i])| <= |EncFields(fields)|
    decreases |fields| - i
  {
    if i < |fields| {
      EncFieldsSnoc(fields, i);
      EncFieldsPrefix(fields, i + 1);
    } else {
      assert fields[..i] == fields;
    }
  }

  /**
    `PureqHyperCodec.encode`: when it does not throw, the bytes depend on the
    value alone, neither on the slab's size nor on what it held. It cannot throw
    for a value that fits in the slab or in half the limit, and must throw for
    one that fits in neither the slab nor the limit.
   */
  method Encode(v: Value, slab: array<Byte>) returns (r: Option<Data>)
    modifies slab
    ensures r.Some? ==> r.value == Enc(v)
    ensures |Enc(v)| <= Max(slab.Length, 0x400_0000) ==> r.Some?
    ensures |Enc(v)| > Max(slab.Length, 0x800_0000) ==> r.None?
  {
    var encoder := new Encoder(slab);
    var ok := encoder.Write(v);
    r := if ok then Some(encoder.slab[..encoder.offset]) else None;
  }

  // ----- the decoder: a shared running offset -----

  class Decoder {
    const buf: Data
    const coerce: Value -> Option<Text>
    var offset: nat

    constructor (buf: Data, coerce: Value -> Option<Text>)
      ensures this.buf == buf && this.coerce == coerce && offset == 0
    {
      this.buf, this.coerce, offset := buf, coerce, 0;
    }

    /** `checkBound(size)` followed by the slice it guards. */
    method Take(size: nat) returns (r: Option<Data>)
      modifies this
      ensures r.Some? <==> old(offset) + size <= |buf|
      ensures r.Some? ==> r.value == buf[old(offset)..old(offset) + size] && offset == old(offset) + size
    {
      if offset + size > |buf| {
        return None;
      }
      r := Some(buf[offset..offset + size]);
      offset := offset + size;
    }

    /** The uint32 count after an array or object tag. */
    method ReadCount(limit: nat, tooLarge: DecodeError) returns (r: Result<nat, DecodeError>)
      modifies this
      ensures match Count(buf, old(offset), limit, tooLarge)
              case Ok(n, next) => r == Success(n) && offset == next
              case Err(e) => r == Failure(e)
    {
      var start := offset;
      var word := Take(4);
      if word.None? {
        return Failure(OutOfBounds);
      }
      var n := ReadLE32(word.value, 0);
      assert n == ReadLE32(buf, start);
      return if n > limit then Failure(tooLarge) else Success(n);
    }

    /** `read()`: from any offset it does exactly what `Dec` says, exceptions included. */
    method ReadValue() returns (r: Result<Value, DecodeError>)
      requires offset <= |buf|
      modifies this
      ensures match Dec(buf, old(offset), coerce)
              case Ok(v, next) => r == Success(v) && offset == next
              case Err(e) => r == Failure(e)
      decreases |buf| - offset, 0
    {
      var tag := Take(1);
      if tag.None? {
        return Failure(OutOfBounds);
      }
      if tag.value[0] == TAG_ARRAY {
        var len :- ReadCount(MAX_COUNT, ArrayTooLarge);
        var items :- ReadItems(len);
        return Success(Arr(items));
      }
      if tag.value[0] == TAG_OBJECT {
        var len :- ReadCount(MAX_COUNT, ObjectTooLarge);
        var fields :- ReadFields(len);
        return Success(Obj(fields));
      }
      if tag.value[0] == TAG_ERROR {
        var v :- ReadValue();
        var message := AsText(v, coerce);
        return if message.None? then Failure(CoercionThrew) else Success(Error(message.value));
      }
      r := ReadLeaf(tag.value[0]);
    }

    /** `for (i < len) arr[i] = read()` */
    method ReadItems(len: nat) returns (r: Result<seq<Value>, DecodeError>)
      requires offset <= |buf|
      modifies this
      ensures match DecItems(buf, old(offset), len, [], coerce)
              case Ok(items, next) => r == Success(items) && offset == next
              case Err(e) => r == Failure(e)
      decreases |buf| - offset, 1
    {
      hide Dec;
      var items := [];
      var i := 0;
      while i < len
        invariant 0 <= i <= len && old(offset) <= offset <= |buf|
        invariant DecItems(buf, offset, len - i, items, coerce) == DecItems(buf, old(offset), len, [], coerce)
      {
        var item :- ReadValue();
        items := items + [item];
        i := i + 1;
      }
      return Success(items);
    }

    /** `for (i < len) { const key = read(); obj[key] = read() }` */
    method ReadFields(len: nat) returns (r: Result<seq<Field>, DecodeError>)
      requires offset <= |buf|
      modifies this
      ensures match DecPairs(buf, old(offset), len, [], coerce)
              case Ok(pairs, next) => r == Success(AssignAll(pairs)) && offset == next
              case Err(e) => r == Failure(e)
      decreases |buf| - offset, 2
    {
      hide DecField;
      var fields := [];
      ghost var pairs := [];
      var i := 0;
      while i < len
        invariant 0 <= i <= len && old(offset) <= offset <= |buf|
        invariant fields == AssignAll(pairs)
        invariant DecPairs(buf, offset, len - i, pairs, coerce) == DecPairs(buf, old(offset), len, [], coerce)
      {
        var f :- ReadField();
        fields := SetProperty(fields, f.key, f.value);
        assert (pairs + [f])[..|pairs|] == pairs;
        pairs := pairs + [f];
        i := i + 1;
      }
      return Success(fields);
    }

    method ReadField() returns (r: Result<Field, DecodeError>)
      requires offset <= |buf|
      modifies this
      ensures match DecField(buf, old(offset), coerce)
              case Ok(f, next) => r == Success(f) && offset == next
              case Err(e) => r == Failure(e)
      decreases |buf| - offset, 1
    {
      var key :- ReadValue();
      var value :- ReadValue();
      var name := AsText(key, coerce);
      return if name.None? then Failure(CoercionThrew) else Success(Field(name.value, value));
    }

    method ReadLeaf(tag: Byte) returns (r: Result<Value, DecodeError>)
      requires 0 < offset <= |buf| && buf[offset - 1] == tag
      modifies this
      ensures match DecLeaf(buf, old(offset) - 1)
              case Ok(v, next) => r == Success(v) && offset == next
              case Err(e) => r == Failure(e)
    {
      var start := offset;
      if tag == TAG_NULL {
        return Success(Null);
      }
      if tag == TAG_BOOL {
        var b := Take(1);
        return if b.None? then Failure(OutOfBounds) else Success(Bool(b.value[0] == 1));
      }
      if tag == TAG_INT {
        var word := Take(4);
        return if word.None? then Failure(OutOfBounds) else Success(Int(Signed32(ReadLE32(word.value, 0))));
      }
      if tag == TAG_FLOAT || tag == TAG_DATE {
        var bits := Take(8);
        return if bits.None? then Failure(OutOfBounds)
               else Success(if tag == TAG_FLOAT then Float(bits.value) else Date(bits.value));
      }
      if tag == TAG_STRING || tag == TAG_BUFFER {
        var word := Take(4);
        if word.None? {
          return Failure(OutOfBounds);
        }
        var len := ReadLE32(word.value, 0);
        assert len == ReadLE32(buf, start);
        if tag == TAG_STRING && len > MAX_STRING {
          return Failure(StringTooLong);
        }
        var data := Take(len);
        return if data.None? then Failure(OutOfBounds)
               else Success(if tag == TAG_STRING then Str(DecodeUtf8(data.value)) else Buffer(data.value));
      }
      return Failure(UnknownTag(tag));
    }
  }

  /** `PureqHyperCodec.decode`: bytes after the first value are ignored. */
  method Decode(buf: Data, coerce: Value -> Option<Text>) returns (r: Result<Value, DecodeError>)
    ensures r == match Dec(buf, 0, coerce) case Ok(v, next) => Success(v) case Err(e) => Failure(e)
  {
    var decoder := new Decoder(buf, coerce);
    r := decoder.ReadValue();
  }
}
