/**
  The MySQL COM_STMT_EXECUTE packet: the encoder that builds the null bitmap and
  sizes the payload in one pass and fills it in another, and the reading of the
  packet by its published layout.
 */
module MysqlExecute {
  import opened Bytes
  import opened Wrappers
  import opened Buffers
  import opened MysqlValues

  /** A parameter's string form in UTF-8; None for a null. */
  type Param = Option<Data>

  // ----- the bytes -----

  /** Which of the eight parameters from `base` on are null, looking only below `limit`. */
  function NullFlags(params: seq<Param>, base: nat, limit: nat): (r: seq<bool>)
    ensures |r| == 8
  {
    seq(8, k requires 0 <= k => base + k < limit && base + k < |params| && params[base + k].None?)
  }

  function BitmapByte(params: seq<Param>, j: nat, limit: nat): Byte {
    PackBelow(NullFlags(params, 8 * j, limit));
    Pack(NullFlags(params, 8 * j, limit))
  }

  function BitmapLength(n: nat): nat {
    (n + 7) / 8
  }

  function Bitmap(params: seq<Param>): (r: Data)
    ensures |r| == BitmapLength(|params|)
  {
    seq(BitmapLength(|params|), j requires 0 <= j => BitmapByte(params, j, |params|))
  }

  /** The string type, unsigned flag clear, for every parameter. */
  function TypesBytes(n: nat): (r: Data)
    ensures |r| == 2 * n
  {
    if n == 0 then [] else TypesBytes(n - 1) + [0xfe, 0]
  }

  function ValueBytes(p: Param): Data {
    match p
    case None => []
    case Some(d) => LenEnc(|d|) + d
  }

  function ValuesBytes(ps: seq<Param>): Data {
    if ps == [] then [] else ValueBytes(ps[0]) + ValuesBytes(ps[1..])
  }

  function Header(stmtId: nat): (r: Data)
    ensures |r| == 10
  {
    [0x17] + LE32(stmtId) + [0] + LE32(1)
  }

  function ExecuteBytes(stmtId: nat, params: seq<Param>): Data {
    Header(stmtId) + Bitmap(params) + [1] + TypesBytes(|params|) + ValuesBytes(params)
  }

  lemma {:induction false} ValuesSnoc(ps: seq<Param>, i: nat)
    requires i < |ps|
    ensures ValuesBytes(ps[..i + 1]) == ValuesBytes(ps[..i]) + ValueBytes(ps[i])
    decreases i
  {
    hide ValueBytes;
    if i == 0 {
      assert ps[..1][1..] == [] && ps[..0] == [];
    } else {
      ValuesSnoc(ps[1..], i - 1);
      assert ps[..i + 1][1..] == ps[1..][..i] && ps[..i][1..] == ps[1..][..i - 1];
    }
  }

  lemma {:induction false} ValuesPrefix(ps: seq<Param>, i: nat)
    requires i <= |ps|
    ensures |ValuesBytes(ps[..i])| <= |ValuesBytes(ps)|
    decreases |ps| - i
  {
    if i < |ps| {
      ValuesSnoc(ps, i);
      ValuesPrefix(ps, i + 1);
    } else {
      assert ps[..i] == ps;
    }
  }

  // ----- the encoder -----

  /** Looking one parameter further changes only that parameter's bit. */
  lemma FlagsStep(params: seq<Param>, j: nat, i: nat)
    requires i < |params|
    ensures j != i / 8 ==> NullFlags(params, 8 * j, i + 1) == NullFlags(params, 8 * j, i)
    ensures j == i / 8 ==> NullFlags(params, 8 * j, i + 1) == NullFlags(params, 8 * j, i)[i % 8 := params[i].None?]
  {
  }

  /** The first pass: null bits and the total size of the values. */
  method Measure(params: seq<Param>, nullBitmap: array<Byte>) returns (valuesSize: nat)
    requires nullBitmap.Length == BitmapLength(|params|)
    requires forall j :: 0 <= j < nullBitmap.Length ==> nullBitmap[j] == 0
    modifies nullBitmap
    ensures nullBitmap[..] == Bitmap(params) && valuesSize == |ValuesBytes(params)|
  {
    hide Pack, SetBit, NullFlags, ValuesBytes;
    valuesSize := 0;
    NoValues();
    assert params[..0] == [];
    forall j | 0 <= j < nullBitmap.Length
      ensures nullBitmap[j] == BitmapByte(params, j, 0)
    {
      NoFlags(params, j);
    }
    var i := 0;
    while i < |params|
      invariant 0 <= i <= |params| && valuesSize == |ValuesBytes(params[..i])|
      invariant forall j :: 0 <= j < nullBitmap.Length ==> nullBitmap[j] == BitmapByte(params, j, i)
    {
      ValuesSnoc(params, i);
      forall j: nat | j < nullBitmap.Length
        ensures j != i / 8 ==> BitmapByte(params, j, i + 1) == BitmapByte(params, j, i)
      {
        FlagsStep(params, j, i);
      }
      var idx := i / 8;
      FlagsStep(params, idx, i);
      FlagUnset(params, i);
      if params[i].None? {
        PackSet(NullFlags(params, 8 * idx, i), i % 8);
        assert SetBit(nullBitmap[idx], i % 8) == BitmapByte(params, idx, i + 1);
        nullBitmap[idx] := SetBit(nullBitmap[idx], i % 8);
      } else {
        valuesSize := valuesSize + LenEncLength(|params[i].value|) + |params[i].value|;
      }
      i := i + 1;
    }
    assert params[..|params|] == params;
    assert nullBitmap[..] == Bitmap(params);
  }

  lemma NoValues()
    ensures ValuesBytes([]) == []
  {
  }

  lemma NoFlags(params: seq<Param>, j: nat)
    ensures BitmapByte(params, j, 0) == 0
  {
    var flags := NullFlags(params, 8 * j, 0);
    AllClear(flags);
  }

  lemma {:induction false} AllClear(flags: seq<bool>)
    requires forall k :: 0 <= k < |flags| ==> !flags[k]
    ensures Pack(flags) == 0
  {
    if flags != [] {
      AllClear(flags[1..]);
    }
  }

  /** Before parameter `i` is looked at its bit is clear, so setting it to false changes nothing. */
  lemma FlagUnset(params: seq<Param>, i: nat)
    requires i < |params|
    ensures var flags := NullFlags(params, 8 * (i / 8), i);
            flags[i % 8 := false] == flags
  {
  }

  /** Bit `i % 8` of byte `i / 8` is set exactly for a null parameter `i`. */
  lemma NullBit(params: seq<Param>, i: nat)
    requires i < |params|
    ensures i / 8 < |Bitmap(params)|
    ensures Bit(Bitmap(params)[i / 8], i % 8) <==> params[i].None?
  {
    hide Bit, Pack;
    PackBit(NullFlags(params, 8 * (i / 8), |params|), i % 8);
  }

  /** `encodeStmtExecute`: writes exactly the payload it sized. */
  method EncodeStmtExecute(stmtId: nat, params: seq<Param>) returns (payload: array<Byte>)
    ensures fresh(payload) && payload[..] == ExecuteBytes(stmtId, params)
  {
    hide Header, Bitmap, TypesBytes, ValuesBytes;
    var nullBitmapLength := BitmapLength(|params|);
    var nullBitmap := new Byte[nullBitmapLength](_ => 0);
    var valuesSize := Measure(params, nullBitmap);
    var typesSize := |params| * 2;
    var payloadLength := 1 + 4 + 1 + 4 + nullBitmapLength + 1 + typesSize + valuesSize;
    payload := new Byte[payloadLength](_ => 0);
    FillExecute(payload, stmtId, params, nullBitmap[..], ExecuteBytes(stmtId, params));
    assert payload[..] == payload[..payloadLength];
  }

  /** The second pass. */
  method FillExecute(payload: array<Byte>, stmtId: nat, params: seq<Param>, nullBitmap: Data, ghost all: Data)
    requires Filled(payload, 0, []) && payload.Length == |all| && nullBitmap == Bitmap(params)
    requires all == ExecuteBytes(stmtId, params)
    modifies payload
    ensures Filled(payload, |all|, all)
  {
    hide Filled, Header, Bitmap, TypesBytes, ValuesBytes;
    assert [] + Header(stmtId) == Header(stmtId);
    var offset := Put(payload, 0, Header(stmtId), []);
    ghost var w := Header(stmtId);
    offset := Put(payload, offset, nullBitmap, w);
    w := w + nullBitmap;
    offset := Put(payload, offset, [1], w);
    w := w + [1];
    offset := PutTypes(payload, offset, |params|, w);
    w := w + TypesBytes(|params|);
    offset := PutValues(payload, offset, params, nullBitmap, w);
  }

  method PutTypes(payload: array<Byte>, start: nat, n: nat, ghost written: Data) returns (offset: nat)
    requires Filled(payload, start, written) && start + 2 * n <= payload.Length
    modifies payload
    ensures offset == start + 2 * n && Filled(payload, offset, written + TypesBytes(n))
  {
    hide Filled;
    offset := start;
    var i := 0;
    assert written + [] == written;
    while i < n
      invariant 0 <= i <= n && offset == start + 2 * i && Filled(payload, offset, written + TypesBytes(i))
    {
      ConcatAssoc(written, TypesBytes(i), [0xfe, 0]);
      offset := Put(payload, offset, [0xfe, 0], written + TypesBytes(i));
      i := i + 1;
    }
  }

  method PutValues(payload: array<Byte>, start: nat, params: seq<Param>, nullBitmap: Data,
      ghost written: Data) returns (offset: nat)
    requires Filled(payload, start, written) && start + |ValuesBytes(params)| <= payload.Length
    requires nullBitmap == Bitmap(params)
    modifies payload
    ensures offset == start + |ValuesBytes(params)| && Filled(payload, offset, written + ValuesBytes(params))
  {
    hide Filled, ValuesBytes, LenEnc, Bitmap, Bit;
    offset := start;
    var i := 0;
    NoValues();
    assert params[..0] == [] && written + [] == written;
    while i < |params|
      invariant 0 <= i <= |params| && offset == start + |ValuesBytes(params[..i])|
      invariant Filled(payload, offset, written + ValuesBytes(params[..i]))
    {
      ValuesSnoc(params, i);
      ValuesPrefix(params, i + 1);
      NullBit(params, i);
      ghost var sofar := written + ValuesBytes(params[..i]);
      ConcatAssoc(written, ValuesBytes(params[..i]), ValueBytes(params[i]));
      if params[i].Some? && !Bit(nullBitmap[i / 8], i % 8) {
        var bytes := params[i].value;
        ConcatAssoc(sofar, LenEnc(|bytes|), bytes);
        offset := Put(payload, offset, LenEnc(|bytes|), sofar);
        offset := Put(payload, offset, bytes, sofar + LenEnc(|bytes|));
      } else {
        assert sofar + [] == sofar;
      }
      i := i + 1;
    }
    assert params[..|params|] == params;
  }

  // ----- reading the packet by its layout -----

  /** The statement, its parameters, and whatever bytes are left over. */
  datatype Execute = Execute(stmtId: nat, params: seq<Param>, rest: Data)

  /** The values of parameters `i` to `n`, nulls taken from the bitmap. */
  function ReadValues(b: Data, pos: nat, bitmap: Data, i: nat, n: nat): Option<(seq<Param>, nat)>
    requires i <= n && BitmapLength(n) <= |bitmap|
    decreases n - i
  {
    if i == n then Some(([], pos))
    else
      match ReadValue(b, pos, Bit(bitmap[i / 8], i % 8))
      case None => None
      case Some((p, next)) =>
        match ReadValues(b, next, bitmap, i + 1, n)
        case None => None
        case Some((ps, end)) => Some(([p] + ps, end))
  }

  function ReadValue(b: Data, pos: nat, isNull: bool): Option<(Param, nat)> {
    if isNull then Some((None, pos))
    else
      match ReadLenEnc(b, pos)
      case None => None
      case Some(len) =>
        var at := pos + len.bytes;
        if len.bytes == 0 || at + len.value > |b| then None
        else Some((Some(b[at..at + len.value]), at + len.value))
  }

  /** A packet for a statement of `n` parameters; without parameters it ends after the iteration count. */
  /** Every one of `n` parameters is a string, 0xfe, with its unsigned flag clear. */
  predicate AllStrings(b: Data, at: nat, n: nat)
    requires at + 2 * n <= |b|
  {
    forall k :: 0 <= k < n ==> b[at + 2 * k] == 0xfe && b[at + 2 * k + 1] == 0
  }

  lemma {:induction false} TypesAt(b: Data, at: nat, n: nat)
    requires At(b, at, TypesBytes(n))
    ensures AllStrings(b, at, n)
    decreases n
  {
    if n > 0 {
      AtConcat(b, at, TypesBytes(n - 1), [0xfe, 0]);
      TypesAt(b, at, n - 1);
      AtBytes(b, at + 2 * (n - 1), [0xfe, 0]);
      assert b[at + 2 * (n - 1) + 0] == 0xfe && b[at + 2 * (n - 1) + 1] == 0;
    }
  }

  function ParseExecute(b: Data, n: nat): Option<Execute> {
    if |b| < 10 || b[0] != 0x17 || b[5] != 0 || ReadLE32(b, 6) != 1 then None
    else
      var stmtId := ReadLE32(b, 1);
      if n == 0 then Some(Execute(stmtId, [], b[10..]))
      else
        var types := 10 + BitmapLength(n) + 1;
        if types + 2 * n > |b| || b[types - 1] != 1 || !AllStrings(b, types, n) then None
        else
          match ReadValues(b, types + 2 * n, b[10..types - 1], 0, n)
          case None => None
          case Some((params, end)) => if end > |b| then None else Some(Execute(stmtId, params, b[end..]))
  }

  // ----- the round trip -----

  predicate AllShort(ps: seq<Param>) {
    forall k :: 0 <= k < |ps| && ps[k].Some? ==> |ps[k].value| < TWO_TO_32
  }

  /** Reading a value that is not null, once its length is read. */
  lemma ReadPresent(b: Data, pos: nat)
    ensures ReadValue(b, pos, false) ==
      var len := ReadLenEnc(b, pos);
      if len.None? then None
      else
        var at := pos + len.value.bytes;
        if len.value.bytes == 0 || at + len.value.value > |b| then None
        else Some((Some(b[at..at + len.value.value]), at + len.value.value))
  {
    hide ReadLenEnc;
  }

  lemma LenEncNotEmpty(n: nat)
    ensures |LenEnc(n)| > 0
  {
  }

  /** A length of 2^32 or more is read as a smaller one. */
  lemma LengthLost(b: Data, pos: nat, n: nat)
    requires At(b, pos, LenEnc(n)) && n >= TWO_TO_32
    ensures ReadLenEnc(b, pos).Some? && ReadLenEnc(b, pos).value.value < TWO_TO_32
  {
    hide At, LE32, ReadLenEnc;
    LongLength(b, pos, n);
  }

  /** A value reads back whole exactly when its length fits the length word. */
  lemma PresentRoundTrip(b: Data, pos: nat, v: Data)
    requires At(b, pos, LenEnc(|v|) + v)
    ensures |v| < TWO_TO_32 ==> ReadValue(b, pos, false) == Some((Some(v), pos + |LenEnc(|v|) + v|))
    ensures ReadValue(b, pos, false).Some? && ReadValue(b, pos, false).value.0 == Some(v) ==> |v| < TWO_TO_32
  {
    hide LenEnc, ReadLenEnc, ReadValue;
    AtConcat(b, pos, LenEnc(|v|), v);
    LenEncRoundTrip(b, pos, |v|);
    LenEncNotEmpty(|v|);
    if |v| >= TWO_TO_32 {
      LengthLost(b, pos, |v|);
    }
    ReadPresent(b, pos);
  }

  lemma ValueAt(b: Data, pos: nat, p: Param)
    requires At(b, pos, ValueBytes(p)) && (p.Some? ==> |p.value| < TWO_TO_32)
    ensures ReadValue(b, pos, p.None?) == Some((p, pos + |ValueBytes(p)|))
  {
    hide At, LenEnc, ReadLenEnc;
    if p.Some? {
      PresentRoundTrip(b, pos, p.value);
    }
  }

  lemma {:induction false} ValuesAt(b: Data, pos: nat, params: seq<Param>, i: nat)
    requires i <= |params| && AllShort(params) && At(b, pos, ValuesBytes(params[i..]))
    ensures ReadValues(b, pos, Bitmap(params), i, |params|) == Some((params[i..], pos + |ValuesBytes(params[i..])|))
    decreases |params| - i
  {
    hide ValueBytes, ReadValue, Bitmap;
    if i < |params| {
      assert params[i..] == [params[i]] + params[i + 1..];
      AtConcat(b, pos, ValueBytes(params[i]), ValuesBytes(params[i + 1..]));
      NullBit(params, i);
      ValueAt(b, pos, params[i]);
      ValuesAt(b, pos + |ValueBytes(params[i])|, params, i + 1);
    }
  }

  lemma HeaderAt(b: Data, stmtId: nat)
    requires At(b, 0, Header(stmtId))
    ensures |b| >= 10 && b[0] == 0x17 && b[5] == 0
    ensures ReadLE32(b, 1) == stmtId % TWO_TO_32 && ReadLE32(b, 6) == 1
  {
    hide LE32, ReadLE32;
    AtConcat(b, 0, [0x17] + LE32(stmtId) + [0], LE32(1));
    AtConcat(b, 0, [0x17] + LE32(stmtId), [0]);
    AtConcat(b, 0, [0x17], LE32(stmtId));
    assert b[0..1] == [0x17] && b[5..6] == [0];
    WordRoundTrip(b, 1, stmtId);
    WordRoundTrip(b, 6, 1);
  }

  /** Where the parts of an encoded packet lie. */
  lemma ExecuteLayout(stmtId: nat, params: seq<Param>)
    ensures var b, n := ExecuteBytes(stmtId, params), |params|;
      var types := 10 + BitmapLength(n) + 1;
      && At(b, 0, Header(stmtId)) && types + 2 * n + |ValuesBytes(params)| == |b|
      && b[10..types - 1] == Bitmap(params) && b[types - 1] == 1 && AllStrings(b, types, n)
      && At(b, types + 2 * n, ValuesBytes(params))
  {
    hide Header, Bitmap, TypesBytes, ValuesBytes, BitmapLength;
    var b, n := ExecuteBytes(stmtId, params), |params|;
    var types := 10 + BitmapLength(n) + 1;
    assert At(b, 0, b);
    AtConcat(b, 0, Header(stmtId) + Bitmap(params) + [1] + TypesBytes(n), ValuesBytes(params));
    AtConcat(b, 0, Header(stmtId) + Bitmap(params) + [1], TypesBytes(n));
    TypesAt(b, 10 + BitmapLength(n) + 1, n);
    AtConcat(b, 0, Header(stmtId) + Bitmap(params), [1]);
    AtConcat(b, 0, Header(stmtId), Bitmap(params));
    assert b[types - 1..types] == [1];
  }

  /** A value too long for its length word does not come back. */
  lemma ValueBack(b: Data, pos: nat, p: Param)
    requires At(b, pos, ValueBytes(p)) && ReadValue(b, pos, p.None?).Some?
    requires ReadValue(b, pos, p.None?).value.0 == p
    ensures p.Some? ==> |p.value| < TWO_TO_32
  {
    hide At, LenEnc, ReadLenEnc, ReadValue;
    if p.Some? {
      PresentRoundTrip(b, pos, p.value);
    }
  }

  /** Values that come back whole were short. */
  lemma {:induction false} ValuesBack(b: Data, pos: nat, params: seq<Param>, i: nat)
    requires i <= |params| && At(b, pos, ValuesBytes(params[i..]))
    requires ReadValues(b, pos, Bitmap(params), i, |params|).Some?
    requires ReadValues(b, pos, Bitmap(params), i, |params|).value.0 == params[i..]
    ensures AllShort(params[i..])
    decreases |params| - i
  {
    hide ValueBytes, ReadValue, Bitmap;
    if i < |params| {
      var p := params[i];
      assert params[i..] == [p] + params[i + 1..];
      AtConcat(b, pos, ValueBytes(p), ValuesBytes(params[i + 1..]));
      NullBit(params, i);
      ReadStep(b, pos, params, i);
      ValueBack(b, pos, p);
      ValueAt(b, pos, p);
      ValuesBack(b, pos + |ValueBytes(p)|, params, i + 1);
    }
  }

  lemma {:induction false} ReadStep(b: Data, pos: nat, params: seq<Param>, i: nat)
    requires i < |params| && ReadValues(b, pos, Bitmap(params), i, |params|).Some?
    requires ReadValues(b, pos, Bitmap(params), i, |params|).value.0 == params[i..]
    ensures var first := ReadValue(b, pos, Bit(Bitmap(params)[i / 8], i % 8));
      && first.Some? && first.value.0 == params[i]
      && ReadValues(b, first.value.1, Bitmap(params), i + 1, |params|).Some?
      && ReadValues(b, first.value.1, Bitmap(params), i + 1, |params|).value.0 == params[i + 1..]
  {
    hide ReadValue, Bitmap;
    var first := ReadValue(b, pos, Bit(Bitmap(params)[i / 8], i % 8)).value;
    var rest := ReadValues(b, first.1, Bitmap(params), i + 1, |params|).value.0;
    assert params[i..] == [first.0] + rest;
    assert params[i..][1..] == params[i + 1..] && ([first.0] + rest)[1..] == rest;
  }

  /** The packet read back, for parameters short enough. */
  lemma {:induction false} ShortReadsBack(stmtId: nat, params: seq<Param>)
    requires stmtId < TWO_TO_32 && AllShort(params)
    ensures ParseExecute(ExecuteBytes(stmtId, params), |params|) ==
            Some(Execute(stmtId, params, if params == [] then [1] else []))
  {
    hide Header, Bitmap, TypesBytes, ValuesBytes, ReadValues, AllShort, ReadLE32, ExecuteBytes, BitmapLength;
    var b, n := ExecuteBytes(stmtId, params), |params|;
    ExecuteLayout(stmtId, params);
    HeaderAt(b, stmtId);
    if params == [] {
      NoParams();
      assert b[10..] == [1];
    } else {
      var types := 10 + BitmapLength(n) + 1;
      assert params[0..] == params;
      ValuesAt(b, types + 2 * n, params, 0);
      assert b[|b|..] == [];
    }
  }

  /** A packet that reads back as what was encoded had a 32-bit id and short parameters. */
  lemma {:induction false} ReadBackWasShort(stmtId: nat, params: seq<Param>, rest: Data)
    requires ParseExecute(ExecuteBytes(stmtId, params), |params|) == Some(Execute(stmtId, params, rest))
    ensures stmtId < TWO_TO_32 && AllShort(params)
  {
    hide Header, Bitmap, TypesBytes, ValuesBytes, ReadValues, AllShort, ReadLE32, ExecuteBytes, BitmapLength;
    var b, n := ExecuteBytes(stmtId, params), |params|;
    ExecuteLayout(stmtId, params);
    HeaderAt(b, stmtId);
    if params == [] {
      NoneLong();
    } else {
      var types := 10 + BitmapLength(n) + 1;
      assert params[0..] == params;
      ValuesBack(b, types + 2 * n, params, 0);
    }
  }

  lemma NoneLong()
    ensures AllShort([])
  {
  }

  /**
    Reading the encoded packet by its layout returns the statement and every parameter,
    nulls included, if and only if the id and every length fit 32 bits. Nothing is left
    over when there are parameters; with none, the flag byte the encoder still writes is.
   */
  lemma ExecuteRoundTrip(stmtId: nat, params: seq<Param>)
    ensures ParseExecute(ExecuteBytes(stmtId, params), |params|) ==
              Some(Execute(stmtId, params, if params == [] then [1] else []))
            <==> stmtId < TWO_TO_32 && AllShort(params)
  {
    hide ParseExecute, ExecuteBytes, AllShort;
    if stmtId < TWO_TO_32 && AllShort(params) {
      ShortReadsBack(stmtId, params);
    } else if ParseExecute(ExecuteBytes(stmtId, params), |params|) ==
      Some(Execute(stmtId, params, if params == [] then [1] else [])) {
      ReadBackWasShort(stmtId, params, if params == [] then [1] else []);
    }
  }

  lemma NoParams()
    ensures ValuesBytes([]) == [] && BitmapLength(0) == 0 && Bitmap([]) == []
  {
  }
}
