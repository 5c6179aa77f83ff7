/**
  The transcoder that copies the whitelisted columns of a PostgreSQL row straight
  into the RPC format, in place in a slab.
 */
module Transcoder {
  import opened Bytes
  import opened Wrappers
  import opened HyperCodec
  import opened PgRows

  // ----- the bytes it writes -----

  /** The raw bytes of the column at `pos`; None for a null. */
  function Column(data: Data, pos: nat): Option<Data>
    requires SlotFits(data, pos)
  {
    var len := SlotLength(data, pos);
    if len == -1 then None else Some(data[pos + 4..pos + 4 + len])
  }

  function ValueBytes(column: Option<Data>, oid: int): Data {
    match column
    case None => [TAG_NULL]
    case Some(raw) =>
      if oid == OID_INT4 then [TAG_INT, ByteOr0(raw, 3), ByteOr0(raw, 2), ByteOr0(raw, 1), ByteOr0(raw, 0)]
      else if oid == OID_BOOL then [TAG_BOOL, if |raw| == 0 || raw[0] != 0 then 1 else 0]
      else EncText(raw)
  }

  /** The pairs written for the columns from index `i` on. */
  function PairBytes(data: Data, pos: nat, fields: seq<FieldDescription>, i: nat, whitelist: set<Text>): Data
    requires i <= |fields| && SlotsFit(data, pos, |fields| - i)
    decreases |fields| - i
  {
    if i == |fields| then []
    else
      var rest := PairBytes(data, NextSlot(data, pos), fields, i + 1, whitelist);
      if fields[i].name in whitelist then
        EncText(fields[i].name) + ValueBytes(Column(data, pos), fields[i].oid) + rest
      else rest
  }

  /** `fields.filter(f => whitelist.has(f.name)).length` over the fields from index `i` on. */
  function Allowed(fields: seq<FieldDescription>, i: nat, whitelist: set<Text>): nat
    requires i <= |fields|
    decreases |fields| - i
  {
    if i == |fields| then 0
    else (if fields[i].name in whitelist then 1 else 0) + Allowed(fields, i + 1, whitelist)
  }

  function Transcoded(data: Data, fields: seq<FieldDescription>, whitelist: set<Text>): Data
    requires SlotsFit(data, 2, |fields|)
  {
    [TAG_OBJECT] + LE32(Allowed(fields, 0, whitelist)) + PairBytes(data, 2, fields, 0, whitelist)
  }

  // ----- writing them in place -----

  /** Consecutive stores into the slab; returns the offset after them. */
  method Store(slab: array<Byte>, out: nat, bytes: Data) returns (next: nat)
    requires out + |bytes| <= slab.Length
    modifies slab
    ensures next == out + |bytes|
    ensures slab[..] == old(slab[..out]) + bytes + old(slab[next..])
  {
    forall i | 0 <= i < |bytes| {
      slab[out + i] := bytes[i];
    }
    next := out + |bytes|;
    assert slab[..out] == old(slab[..out]) && slab[out..next] == bytes && slab[next..] == old(slab[next..]);
    assert slab[..] == slab[..out] + slab[out..next] + slab[next..];
  }

  lemma StoreTwice(before: Data, a: Data, b: Data, slab: Data, out: nat)
    requires out + |a| + |b| <= |before| && slab == before[..out] + a + before[out + |a|..]
    ensures slab[..out + |a|] + b + slab[out + |a| + |b|..] == before[..out] + (a + b) + before[out + |a| + |b|..]
  {
    assert slab[..out + |a|] == before[..out] + a;
    assert slab[out + |a| + |b|..] == before[out + |a| + |b|..];
  }

  function OnePair(data: Data, pos: nat, field: FieldDescription, whitelist: set<Text>): Data
    requires SlotFits(data, pos)
  {
    if field.name in whitelist then EncText(field.name) + ValueBytes(Column(data, pos), field.oid) else []
  }

  /** The pairs from index `i` on, one column at a time. */
  lemma {:induction false} PairStep(data: Data, pos: nat, fields: seq<FieldDescription>, i: nat, whitelist: set<Text>)
    requires i < |fields| && SlotsFit(data, pos, |fields| - i)
    ensures SlotFits(data, pos) && SlotsFit(data, NextSlot(data, pos), |fields| - (i + 1))
    ensures PairBytes(data, pos, fields, i, whitelist) ==
      OnePair(data, pos, fields[i], whitelist) + PairBytes(data, NextSlot(data, pos), fields, i + 1, whitelist)
  {
    hide EncText, ValueBytes, Column, SlotLength;
    var rest := PairBytes(data, NextSlot(data, pos), fields, i + 1, whitelist);
    assert [] + rest == rest;
  }

  /** The slab with these bytes put in at `at`. */
  ghost predicate Holds(slab: seq<Byte>, before: seq<Byte>, at: nat, bytes: Data) {
    && at + |bytes| <= |slab| == |before|
    && slab == before[..at] + bytes + before[at + |bytes|..]
  }

  /** Writes one whitelisted column after what is already written. */
  method StorePair(data: Data, pos: nat, field: FieldDescription, slab: array<Byte>, out: nat, offset: nat,
      ghost before: Data, ghost written: Data) returns (next: nat)
    requires SlotFits(data, pos)
    requires Holds(slab[..], before, offset, written) && out == offset + |written|
    requires out + |EncText(field.name) + ValueBytes(Column(data, pos), field.oid)| <= slab.Length
    modifies slab
    ensures var more := EncText(field.name) + ValueBytes(Column(data, pos), field.oid);
      Holds(slab[..], before, offset, written + more) && next == offset + |written + more|
  {
    hide SlotFits, SlotLength, NextSlot, Column, ValueBytes, EncText;
    var column := Column(data, pos);
    ghost var key, value := EncText(field.name), ValueBytes(column, field.oid);
    ConcatAssoc(written, key, value);
    StoreTwice(before, written, key, slab[..], offset);
    next := Store(slab, out, EncText(field.name));
    StoreTwice(before, written + key, value, slab[..], offset);
    next := Store(slab, next, ValueBytes(column, field.oid));
  }

  /**
    `transcodePgRow`: the slab ends up with exactly the transcoded bytes from the
    given offset on, and every byte outside that range as it was.
   */
  method TranscodePgRow(data: Data, fields: seq<FieldDescription>, whitelist: set<Text>, slab: array<Byte>, offset: nat)
    returns (out: nat)
    requires SlotsFit(data, 2, |fields|)
    requires offset + |Transcoded(data, fields, whitelist)| <= slab.Length
    modifies slab
    ensures out == offset + |Transcoded(data, fields, whitelist)|
    ensures slab[..] == old(slab[..offset]) + Transcoded(data, fields, whitelist) + old(slab[out..])
  {
    hide SlotsFit, SlotFits, SlotLength, NextSlot, Column, ValueBytes, EncText, Allowed, LE32, PairBytes;
    ghost var before := slab[..];
    ghost var written := [TAG_OBJECT] + LE32(Allowed(fields, 0, whitelist));
    out := Store(slab, offset, [TAG_OBJECT] + LE32(Allowed(fields, 0, whitelist)));
    var inputOffset := 2;
    var i := 0;
    assert SlotsFit(data, 2, |fields| - 0);
    while i < |fields|
      invariant 0 <= i <= |fields| && SlotsFit(data, inputOffset, |fields| - i)
      invariant written + PairBytes(data, inputOffset, fields, i, whitelist) == Transcoded(data, fields, whitelist)
      invariant out == offset + |written| && Holds(slab[..], before, offset, written)
    {
      PairStep(data, inputOffset, fields, i, whitelist);
      ghost var pair := OnePair(data, inputOffset, fields[i], whitelist);
      ConcatAssoc(written, pair, PairBytes(data, NextSlot(data, inputOffset), fields, i + 1, whitelist));
      if fields[i].name in whitelist {
        out := StorePair(data, inputOffset, fields[i], slab, out, offset, before, written);
      } else {
        assert written + pair == written;
      }
      written := written + pair;
      inputOffset := NextSlot(data, inputOffset);
      i := i + 1;
    }
    NoPairs(data, inputOffset, fields, whitelist);
    assert written + [] == written;
  }

  lemma NoPairs(data: Data, pos: nat, fields: seq<FieldDescription>, whitelist: set<Text>)
    requires SlotsFit(data, pos, 0)
    ensures PairBytes(data, pos, fields, |fields|, whitelist) == []
  {
  }

  // ----- what a client decodes -----

  /** The properties of `row` with a key in `keys`. */
  function Restrict(row: seq<Field>, keys: set<Text>): seq<Field> {
    if row == [] then []
    else if row[0].key in keys then [row[0]] + Restrict(row[1..], keys)
    else Restrict(row[1..], keys)
  }

  lemma {:induction false} RestrictSnoc(row: seq<Field>, last: Field, keys: set<Text>)
    ensures Restrict(row + [last], keys) == Restrict(row, keys) + (if last.key in keys then [last] else [])
  {
    if row != [] {
      assert (row + [last])[1..] == row[1..] + [last];
      RestrictSnoc(row[1..], last, keys);
    }
  }

  /** A column whose transcoded value a client reads exactly as the eager parser would. */
  predicate Transcodable(p: Protocol, data: Data, pos: nat, f: FieldDescription)
    requires SlotFits(data, pos)
  {
    && TextSurvives(f.name)
    && (SlotLength(data, pos) != -1 ==>
          && f.format == 1
          && SlotLength(data, pos) <= MAX_STRING
          && (|| f.oid in {OID_TEXT, OID_VARCHAR}
              || (f.oid == OID_INT4 && SlotLength(data, pos) >= 4)
              || ((f.oid == OID_BOOL || DecodesAsString(f.oid)) && f.oid !in p.custom && f.oid != OID_INT4)))
  }

  lemma DecodeTranscodedValue(buf: Data, out: nat, p: Protocol, data: Data, pos: nat, f: FieldDescription,
      coerce: Value -> Option<Text>)
    requires SlotFits(data, pos) && Transcodable(p, data, pos, f)
    requires EagerCell(p, data, pos, f).Some?
    requires At(buf, out, ValueBytes(Column(data, pos), f.oid))
    ensures Dec(buf, out, coerce) ==
            Ok(EagerCell(p, data, pos, f).value, out + |ValueBytes(Column(data, pos), f.oid)|)
  {
    hide DecItems, DecPairs, LE32;
    var bytes := ValueBytes(Column(data, pos), f.oid);
    match Column(data, pos)
    case None => TagAt(buf, out, TAG_NULL, []);
    case Some(raw) =>
      FastDecodeIsDecode(raw);
      if f.oid == OID_INT4 {
        assert bytes == [TAG_INT] + [raw[3], raw[2], raw[1], raw[0]];
        TagAt(buf, out, TAG_INT, [raw[3], raw[2], raw[1], raw[0]]);
        assert Fixed(buf, out + 1, 4).value == [raw[3], raw[2], raw[1], raw[0]];
        assert forall k :: 0 <= k < 4 ==> raw[k] == ByteOr0(data, pos + 4 + k);
      } else if f.oid == OID_BOOL {
        assert bytes == [TAG_BOOL] + bytes[1..];
        TagAt(buf, out, TAG_BOOL, bytes[1..]);
      } else {
        DecodeText(buf, out, raw, coerce);
      }
  }

  /** Every whitelisted column from index `i` on is transcodable. */
  predicate AllTranscodable(p: Protocol, data: Data, pos: nat, fields: seq<FieldDescription>, i: nat,
      whitelist: set<Text>)
    requires i <= |fields| && SlotsFit(data, pos, |fields| - i)
    decreases |fields| - i
  {
    i == |fields|
    || (&& (fields[i].name in whitelist ==> Transcodable(p, data, pos, fields[i]))
        && AllTranscodable(p, data, NextSlot(data, pos), fields, i + 1, whitelist))
  }

  lemma DecodeTranscodedPair(buf: Data, out: nat, p: Protocol, data: Data, pos: nat, f: FieldDescription,
      coerce: Value -> Option<Text>)
    requires SlotFits(data, pos) && Transcodable(p, data, pos, f)
    requires EagerCell(p, data, pos, f).Some?
    requires At(buf, out, EncText(f.name) + ValueBytes(Column(data, pos), f.oid))
    ensures DecField(buf, out, coerce) ==
            Ok(Field(f.name, EagerCell(p, data, pos, f).value),
              out + |EncText(f.name) + ValueBytes(Column(data, pos), f.oid)|)
  {
    hide EagerCell, ValueBytes, Dec, EncText, Transcodable, Column, SlotFits, DecodeUtf8;
    AtConcat(buf, out, EncText(f.name), ValueBytes(Column(data, pos), f.oid));
    NameSurvives(p, data, pos, f);
    DecodeText(buf, out, f.name, coerce);
    DecodeTranscodedValue(buf, out + |EncText(f.name)|, p, data, pos, f, coerce);
  }

  lemma NameSurvives(p: Protocol, data: Data, pos: nat, f: FieldDescription)
    requires SlotFits(data, pos) && Transcodable(p, data, pos, f)
    ensures |f.name| <= MAX_STRING && DecodeUtf8(f.name) == f.name
  {
  }

  lemma {:induction false} EagerStep(p: Protocol, data: Data, pos: nat, fields: seq<FieldDescription>, i: nat,
      count: nat, done: seq<Field>)
    requires i < |fields| <= count && EagerPairs(p, data, pos, fields, i, count, done).Success?
    ensures SlotFits(data, pos) && EagerCell(p, data, pos, fields[i]).Some?
    ensures EagerPairs(p, data, pos, fields, i, count, done) ==
      EagerPairs(p, data, NextSlot(data, pos), fields, i + 1, count,
        done + [Field(fields[i].name, EagerCell(p, data, pos, fields[i]).value)])
  {
    hide EagerCell, SlotLength;
  }

  lemma {:induction false} DecPairsStep(buf: Data, pos: nat, count: nat, done: seq<Field>,
      coerce: Value -> Option<Text>,
      f: Field, next: nat)
    requires pos <= |buf| && count > 0 && DecField(buf, pos, coerce) == Ok(f, next)
    ensures next <= |buf|
    ensures DecPairs(buf, pos, count, done, coerce) == DecPairs(buf, next, count - 1, done + [f], coerce)
  {
    hide DecField;
  }

  lemma {:induction false} NoPairsLeft(buf: Data, out: nat, data: Data, pos: nat, fields: seq<FieldDescription>,
      whitelist: set<Text>, sent: seq<Field>, coerce: Value -> Option<Text>)
    requires SlotsFit(data, pos, 0) && At(buf, out, PairBytes(data, pos, fields, |fields|, whitelist))
    ensures out <= |buf| && PairBytes(data, pos, fields, |fields|, whitelist) == []
    ensures DecPairs(buf, out, Allowed(fields, |fields|, whitelist), sent, coerce) == Ok(sent, out)
  {
  }

  /** `done` is what the eager parser has so far, `sent` what the client has decoded so far. */
  lemma {:induction false} DecodeTranscodedPairs(
    buf: Data, out: nat, p: Protocol, data: Data, pos: nat, fields: seq<FieldDescription>, i: nat, count: nat,
    whitelist: set<Text>, done: seq<Field>, sent: seq<Field>, coerce: Value -> Option<Text>)
    requires i <= |fields| <= count && SlotsFit(data, pos, |fields| - i)
    requires EagerPairs(p, data, pos, fields, i, count, done).Success?
    requires AllTranscodable(p, data, pos, fields, i, whitelist)
    requires At(buf, out, PairBytes(data, pos, fields, i, whitelist))
    requires sent == Restrict(done, whitelist)
    ensures DecPairs(buf, out, Allowed(fields, i, whitelist), sent, coerce) ==
            Ok(Restrict(EagerPairs(p, data, pos, fields, i, count, done).value, whitelist),
               out + |PairBytes(data, pos, fields, i, whitelist)|)
    decreases |fields| - i
  {
    hide EagerCell, EagerPairs, PairBytes, ValueBytes, DecField, DecPairs, EncText, Transcodable, Restrict, NextSlot,
      SlotFits;
    if i == |fields| {
      NothingAfterLastField(p, data, pos, fields, i, count, done);
      NoPairsLeft(buf, out, data, pos, fields, whitelist, sent, coerce);
    } else {
      EagerStep(p, data, pos, fields, i, count, done);
      PairStep(data, pos, fields, i, whitelist);
      var f, next := fields[i], NextSlot(data, pos);
      var head := Field(f.name, EagerCell(p, data, pos, f).value);
      RestrictSnoc(done, head, whitelist);
      if f.name in whitelist {
        var pair := EncText(f.name) + ValueBytes(Column(data, pos), f.oid);
        AtConcat(buf, out, pair, PairBytes(data, next, fields, i + 1, whitelist));
        DecodeTranscodedPair(buf, out, p, data, pos, f, coerce);
        DecPairsStep(buf, out, Allowed(fields, i, whitelist), sent, coerce, head, out + |pair|);
        DecodeTranscodedPairs(buf, out + |pair|, p, data, next, fields, i + 1, count, whitelist, done + [head],
                              sent + [head], coerce);
      } else {
        assert [] + PairBytes(data, next, fields, i + 1, whitelist) == PairBytes(data, next, fields, i + 1, whitelist);
        assert sent + [] == sent;
        DecodeTranscodedPairs(buf, out, p, data, next, fields, i + 1, count, whitelist, done + [head], sent, coerce);
      }
    }
  }

  /** The pairs written are those of the whitelisted columns, which the header counts. */
  lemma {:induction false} PairsCounted(
    p: Protocol, data: Data, pos: nat, fields: seq<FieldDescription>, i: nat, count: nat, done: seq<Field>,
      whitelist: set<Text>)
    requires i <= |fields| <= count && EagerPairs(p, data, pos, fields, i, count, done).Success?
    ensures |Restrict(EagerPairs(p, data, pos, fields, i, count, done).value, whitelist)| ==
            |Restrict(done, whitelist)| + Allowed(fields, i, whitelist)
    decreases |fields| - i
  {
    hide EagerCell;
    if i == |fields| {
      NothingAfterLastField(p, data, pos, fields, i, count, done);
    } else {
      var head := Field(fields[i].name, EagerCell(p, data, pos, fields[i]).value);
      RestrictSnoc(done, head, whitelist);
      PairsCounted(p, data, NextSlot(data, pos), fields, i + 1, count, done + [head], whitelist);
    }
  }

  /** Restricting an object commutes with the assignments that build it. */
  lemma {:induction false} RestrictAssigned(pairs: seq<Field>, keys: set<Text>)
    ensures Restrict(AssignAll(pairs), keys) == AssignAll(Restrict(pairs, keys))
  {
    if pairs != [] {
      var before, last := pairs[..|pairs| - 1], pairs[|pairs| - 1];
      RestrictAssigned(before, keys);
      RestrictSet(AssignAll(before), last.key, last.value, keys);
      RestrictSnoc(before, last, keys);
      assert pairs == before + [last];
      var kept := Restrict(before, keys);
      if last.key in keys {
        assert (kept + [last])[..|kept|] == kept && (kept + [last])[|kept|] == last;
      } else {
        assert kept + [] == kept;
      }
    }
  }

  lemma {:induction false} RestrictSet(row: seq<Field>, key: Text, value: Value, keys: set<Text>)
    ensures Restrict(SetProperty(row, key, value), keys) ==
            if key in keys then SetProperty(Restrict(row, keys), key, value) else Restrict(row, keys)
  {
    if row != [] {
      RestrictSet(row[1..], key, value, keys);
    }
  }

  lemma {:induction false} FewAllowed(fields: seq<FieldDescription>, i: nat, whitelist: set<Text>)
    requires i <= |fields|
    ensures Allowed(fields, i, whitelist) <= |fields| - i
    decreases |fields| - i
  {
    if i < |fields| {
      FewAllowed(fields, i + 1, whitelist);
    }
  }

  /**
    Decoding a transcoded row, wherever it stands, gives exactly the eagerly
    parsed row restricted to the whitelist, and the header counts the pairs.
   */
  lemma {:induction false} TranscodedDecodes(buf: Data, out: nat, p: Protocol, data: Data,
      fields: seq<FieldDescription>, whitelist: set<Text>, coerce: Value -> Option<Text>)
    requires ParsedPairs(p, data, fields).Success? && |fields| <= ReadBE16(data, 0)
    requires AllTranscodable(p, data, 2, fields, 0, whitelist)
    requires At(buf, out, Transcoded(data, fields, whitelist))
    ensures Dec(buf, out, coerce) ==
            Ok(Obj(Restrict(AssignAll(ParsedPairs(p, data, fields).value), whitelist)),
               out + |Transcoded(data, fields, whitelist)|)
    ensures |Restrict(ParsedPairs(p, data, fields).value, whitelist)| == Allowed(fields, 0, whitelist)
  {
    hide LE32, DecLeaf, EagerCell, PairBytes, DecPairs;
    var n := Allowed(fields, 0, whitelist);
    FewAllowed(fields, 0, whitelist);
    CountAt(buf, out, TAG_OBJECT, n, PairBytes(data, 2, fields, 0, whitelist), MAX_COUNT, ObjectTooLarge);
    assert Restrict([], whitelist) == [];
    DecodeTranscodedPairs(buf, out + 5, p, data, 2, fields, 0, ReadBE16(data, 0), whitelist, [], [], coerce);
    RestrictAssigned(ParsedPairs(p, data, fields).value, whitelist);
    PairsCounted(p, data, 2, fields, 0, ReadBE16(data, 0), [], whitelist);
  }

  // ----- non-interference -----

  /** The two rows agree on every whitelisted column from index `i` on. */
  predicate SameAllowed(a: Data, posA: nat, b: Data, posB: nat, fields: seq<FieldDescription>, i: nat,
      whitelist: set<Text>)
    requires i <= |fields| && SlotsFit(a, posA, |fields| - i) && SlotsFit(b, posB, |fields| - i)
    decreases |fields| - i
  {
    i == |fields|
    || (&& (fields[i].name in whitelist ==> Column(a, posA) == Column(b, posB))
        && SameAllowed(a, NextSlot(a, posA), b, NextSlot(b, posB), fields, i + 1, whitelist))
  }

  lemma {:induction false} SamePairs(a: Data, posA: nat, b: Data, posB: nat, fields: seq<FieldDescription>, i: nat,
      whitelist: set<Text>)
    requires i <= |fields| && SlotsFit(a, posA, |fields| - i) && SlotsFit(b, posB, |fields| - i)
    requires SameAllowed(a, posA, b, posB, fields, i, whitelist)
    ensures PairBytes(a, posA, fields, i, whitelist) == PairBytes(b, posB, fields, i, whitelist)
    decreases |fields| - i
  {
    hide ValueBytes, EncText, Column;
    if i < |fields| {
      SamePairs(a, NextSlot(a, posA), b, NextSlot(b, posB), fields, i + 1, whitelist);
    }
  }

  /**
    Rows that agree on the whitelisted columns transcode to the same bytes,
    whatever the lengths and contents of the others.
   */
  lemma NonInterference(a: Data, b: Data, fields: seq<FieldDescription>, whitelist: set<Text>)
    requires SlotsFit(a, 2, |fields|) && SlotsFit(b, 2, |fields|)
    requires SameAllowed(a, 2, b, 2, fields, 0, whitelist)
    ensures Transcoded(a, fields, whitelist) == Transcoded(b, fields, whitelist)
  {
    SamePairs(a, 2, b, 2, fields, 0, whitelist);
  }
}
