/**
  The PostgreSQL Bind message: the encoder that sizes its buffer first and then
  fills it, and the reading of that message by its published layout.
 */
module PgBind {
  import opened Bytes
  import opened Wrappers
  import opened Buffers

  /** A parameter's bytes; None for a null. */
  type Param = Option<Data>

  const KIND: Byte := 66  // 'B'

  // ----- the bytes -----

  function ParamBytes(p: Param): Data {
    match p
    case None => BE32(-1)
    case Some(d) => BE32(|d|) + d
  }

  function ParamsBytes(ps: seq<Param>): Data {
    if ps == [] then [] else ParamBytes(ps[0]) + ParamsBytes(ps[1..])
  }

  function FormatsBytes(fs: seq<int>): (r: Data)
    ensures |r| == 2 * |fs|
  {
    if fs == [] then [] else BE16(fs[0]) + FormatsBytes(fs[1..])
  }

  /** No result formats means one, binary. */
  function Formats(resultFormats: seq<int>): seq<int> {
    if resultFormats == [] then [1] else resultFormats
  }

  /** The number of bytes after the length word. */
  function BodyLength(portal: Data, statement: Data, params: seq<Param>, formats: seq<int>): nat {
    |portal| + 1 + |statement| + 1 + 6 + |ParamsBytes(params)| + 2 + 2 * |formats|
  }

  /** One parameter format, text, for all parameters; then the number of parameters. */
  function Counts(n: nat): (r: Data)
    ensures |r| == 6
  {
    BE16(1) + BE16(0) + BE16(n)
  }

  function Header(length: nat): (r: Data)
    ensures |r| == 5
  {
    [KIND] + BE32(length)
  }

  function BindBytes(portal: Data, statement: Data, params: seq<Param>, resultFormats: seq<int>): (r: Data)
    ensures |r| == 5 + BodyLength(portal, statement, params, Formats(resultFormats))
  {
    var formats := Formats(resultFormats);
    Header(4 + BodyLength(portal, statement, params, formats))
    + portal + [0] + statement + [0]
    + Counts(|params|) + ParamsBytes(params)
    + BE16(|formats|) + FormatsBytes(formats)
  }

  lemma {:induction false} ParamsSnoc(ps: seq<Param>, i: nat)
    requires i < |ps|
    ensures ParamsBytes(ps[..i + 1]) == ParamsBytes(ps[..i]) + ParamBytes(ps[i])
    decreases i
  {
    hide ParamBytes;
    if i == 0 {
      assert ps[..1][1..] == [] && ps[..0] == [];
    } else {
      ParamsSnoc(ps[1..], i - 1);
      assert ps[..i + 1][1..] == ps[1..][..i] && ps[..i][1..] == ps[1..][..i - 1];
    }
  }

  lemma {:induction false} FormatsSnoc(fs: seq<int>, i: nat)
    requires i < |fs|
    ensures FormatsBytes(fs[..i + 1]) == FormatsBytes(fs[..i]) + BE16(fs[i])
    decreases i
  {
    hide BE16;
    if i == 0 {
      assert fs[..1][1..] == [] && fs[..0] == [];
    } else {
      FormatsSnoc(fs[1..], i - 1);
      assert fs[..i + 1][1..] == fs[1..][..i] && fs[..i][1..] == fs[1..][..i - 1];
    }
  }

  lemma {:induction false} ParamsPrefix(ps: seq<Param>, i: nat)
    requires i <= |ps|
    ensures |ParamsBytes(ps[..i])| <= |ParamsBytes(ps)|
    decreases |ps| - i
  {
    hide ParamBytes, ParamsBytes;
    if i < |ps| {
      ParamsSnoc(ps, i);
      ParamsPrefix(ps, i + 1);
    } else {
      assert ps[..i] == ps;
    }
  }

  // ----- the encoder -----

  /** The first pass of the encoder: four bytes a parameter, plus its data. */
  method ParamsSize(params: seq<Param>) returns (size: nat)
    ensures size == |ParamsBytes(params)|
  {
    hide ParamBytes, ParamsBytes;
    size := 0;
    var i := 0;
    NoBytes();
    assert params[..0] == [];
    while i < |params|
      invariant 0 <= i <= |params| && size == |ParamsBytes(params[..i])|
    {
      ParamsSnoc(params, i);
      ParamLength(params[i]);
      size := size + 4 + (if params[i].Some? then |params[i].value| else 0);
      i := i + 1;
    }
    assert params[..|params|] == params;
  }

  /** `encodeBind`: writes exactly the bytes it sized the buffer for. */
  method EncodeBind(portal: Data, statement: Data, params: seq<Param>,
      resultFormats: seq<int>) returns (buffer: array<Byte>)
    ensures fresh(buffer) && buffer[..] == BindBytes(portal, statement, params, resultFormats)
  {
    hide BE16, ParamsBytes, FormatsBytes, Counts, Header, BodyLength;
    var paramsSize := ParamsSize(params);
    var formats := Formats(resultFormats);
    var rfCount := |formats|;
    var size := 4 + |portal| + 1 + |statement| + 1 + 2 + 2 + 2 + paramsSize + 2 + rfCount * 2;
    SizeOfBody(portal, statement, params, formats);
    buffer := new Byte[size + 1](_ => 0);
    FillBind(buffer, size, portal, statement, params, formats, BindBytes(portal, statement, params, resultFormats));
    assert buffer[..] == buffer[..size + 1];
  }

  /** The second pass: the parts in order, each at the offset the last one left. */
  method FillBind(buffer: array<Byte>, size: nat, portal: Data, statement: Data, params: seq<Param>,
      formats: seq<int>, ghost all: Data)
    requires Filled(buffer, 0, []) && size + 1 == buffer.Length == |all|
    requires all ==
      Header(size) + portal + [0] + statement + [0] + Counts(|params|) + ParamsBytes(params) + BE16(|formats|)
      + FormatsBytes(formats)
    modifies buffer
    ensures Filled(buffer, size + 1, all)
  {
    hide Filled, BE16, ParamsBytes, FormatsBytes, Counts, Header;
    assert [] + Header(size) == Header(size);
    var offset := Put(buffer, 0, Header(size), []);
    ghost var w := Header(size);
    offset := PutCString(buffer, offset, portal, w);
    w := w + portal + [0];
    offset := PutCString(buffer, offset, statement, w);
    w := w + statement + [0];
    offset := Put(buffer, offset, Counts(|params|), w);
    w := w + Counts(|params|);
    offset := PutParams(buffer, offset, params, w);
    w := w + ParamsBytes(params);
    offset := Put(buffer, offset, BE16(|formats|), w);
    offset := PutFormats(buffer, offset, formats, w + BE16(|formats|));
  }

  lemma SizeOfBody(portal: Data, statement: Data, params: seq<Param>, formats: seq<int>)
    ensures BodyLength(portal, statement, params, formats) ==
            |portal| + |statement| + |ParamsBytes(params)| + 2 * |formats| + 10
  {
  }

  lemma NoBytes()
    ensures ParamsBytes([]) == [] && FormatsBytes([]) == []
  {
  }

  lemma ParamLength(p: Param)
    ensures |ParamBytes(p)| == 4 + (if p.Some? then |p.value| else 0)
  {
  }

  method PutParams(buffer: array<Byte>, start: nat, params: seq<Param>, ghost written: Data) returns (offset: nat)
    requires Filled(buffer, start, written) && start + |ParamsBytes(params)| <= buffer.Length
    modifies buffer
    ensures offset == start + |ParamsBytes(params)| && Filled(buffer, offset, written + ParamsBytes(params))
  {
    hide BE32, ParamsBytes;
    offset := start;
    var i := 0;
    NoBytes();
    assert params[..0] == [] && written + [] == written;
    while i < |params|
      invariant 0 <= i <= |params| && offset == start + |ParamsBytes(params[..i])|
      invariant Filled(buffer, offset, written + ParamsBytes(params[..i]))
    {
      ParamsSnoc(params, i);
      ParamsPrefix(params, i + 1);
      ghost var sofar := written + ParamsBytes(params[..i]);
      ConcatAssoc(written, ParamsBytes(params[..i]), ParamBytes(params[i]));
      match params[i] {
        case None => offset := Put(buffer, offset, BE32(-1), sofar);
        case Some(d) =>
          ConcatAssoc(sofar, BE32(|d|), d);
          offset := Put(buffer, offset, BE32(|d|), sofar);
          offset := Put(buffer, offset, d, sofar + BE32(|d|));
      }
      i := i + 1;
    }
    assert params[..|params|] == params;
  }

  method PutFormats(buffer: array<Byte>, start: nat, formats: seq<int>, ghost written: Data) returns (offset: nat)
    requires Filled(buffer, start, written) && start + |FormatsBytes(formats)| <= buffer.Length
    modifies buffer
    ensures offset == start + |FormatsBytes(formats)| && Filled(buffer, offset, written + FormatsBytes(formats))
  {
    hide BE16, FormatsBytes;
    offset := start;
    var i := 0;
    NoBytes();
    assert formats[..0] == [] && written + [] == written;
    while i < |formats|
      invariant 0 <= i <= |formats| && offset == start + |FormatsBytes(formats[..i])|
      invariant Filled(buffer, offset, written + FormatsBytes(formats[..i]))
    {
      FormatsSnoc(formats, i);
      ConcatAssoc(written, FormatsBytes(formats[..i]), BE16(formats[i]));
      offset := Put(buffer, offset, BE16(formats[i]), written + FormatsBytes(formats[..i]));
      i := i + 1;
    }
    assert formats[..|formats|] == formats;
  }

  // ----- reading a Bind message by its layout -----

  datatype Bind = Bind(portal: Data, statement: Data, paramFormats: seq<int>, params: seq<Param>,
      resultFormats: seq<int>)

  /** A part of the message and the position after it. */
  datatype Part<+T> = Part(value: T, next: nat)

  /** The bytes up to the first zero byte at or after `pos`, which is stepped over. */
  function ReadCString(b: Data, pos: nat): (r: Option<Part<Data>>)
    ensures r.Some? ==> pos < r.value.next <= |b| && 0 !in r.value.value
    decreases |b| - pos
  {
    if pos >= |b| then None
    else if b[pos] == 0 then Some(Part([], pos + 1))
    else
      match ReadCString(b, pos + 1)
      case None => None
      case Some(rest) => Some(Part([b[pos]] + rest.value, rest.next))
  }

  function ReadCount(b: Data, pos: nat): (r: Option<Part<nat>>)
    ensures r.Some? ==> r.value.next == pos + 2 <= |b| && r.value.value < TWO_TO_16
  {
    if pos + 2 > |b| then None else Some(Part(ReadBE16(b, pos), pos + 2))
  }

  function ReadFormats(b: Data, pos: nat, n: nat): (r: Option<Part<seq<int>>>)
    ensures r.Some? ==> r.value.next <= Max(pos, |b|) && |r.value.value| == n
    ensures r.Some? ==> forall k :: 0 <= k < n ==> 0 <= r.value.value[k] < TWO_TO_16
    decreases n
  {
    if n == 0 then Some(Part([], pos))
    else
      match ReadCount(b, pos)
      case None => None
      case Some(f) =>
        match ReadFormats(b, f.next, n - 1)
        case None => None
        case Some(rest) => Some(Part([f.value as int] + rest.value, rest.next))
  }

  function Max(a: int, b: int): int {
    if a < b then b else a
  }

  function ReadParam(b: Data, pos: nat): (r: Option<Part<Param>>)
    ensures r.Some? ==> pos < r.value.next <= |b|
    ensures r.Some? && r.value.value.Some? ==> |r.value.value.value| < TWO_TO_31
  {
    if pos + 4 > |b| then None
    else
      var len := Signed32(ReadBE32(b, pos)) as int;
      if len == -1 then Some(Part(None, pos + 4))
      else if len < 0 || pos + 4 + len > |b| then None
      else Some(Part(Some(b[pos + 4..pos + 4 + len]), pos + 4 + len))
  }

  function ReadParams(b: Data, pos: nat, n: nat): (r: Option<Part<seq<Param>>>)
    ensures r.Some? ==> |r.value.value| == n && AllShort(r.value.value)
    decreases n
  {
    if n == 0 then Some(Part([], pos))
    else
      match ReadParam(b, pos)
      case None => None
      case Some(p) =>
        match ReadParams(b, p.next, n - 1)
        case None => None
        case Some(rest) => Some(Part([p.value] + rest.value, rest.next))
  }

  predicate AllShort(ps: seq<Param>) {
    forall k :: 0 <= k < |ps| && ps[k].Some? ==> |ps[k].value| < TWO_TO_31
  }

  /** The message, if all of `b` is one well-formed Bind message. */
  function ParseBind(b: Data): Option<Bind> {
    if |b| < 5 || b[0] != 66 || Signed32(ReadBE32(b, 1)) != |b| - 1 then None
    else ParseBody(b, 5)
  }

  function ParseBody(b: Data, pos: nat): Option<Bind> {
    match ReadCString(b, pos)
    case None => None
    case Some(portal) =>
      match ReadCString(b, portal.next)
      case None => None
      case Some(statement) => ParseLists(b, statement.next, portal.value, statement.value)
  }

  function ParseLists(b: Data, pos: nat, portal: Data, statement: Data): Option<Bind> {
    match ReadCount(b, pos)
    case None => None
    case Some(nFormats) =>
      match ReadFormats(b, nFormats.next, nFormats.value)
      case None => None
      case Some(paramFormats) =>
        match ReadCount(b, paramFormats.next)
        case None => None
        case Some(nParams) =>
          match ReadParams(b, nParams.next, nParams.value)
          case None => None
          case Some(params) =>
            match ReadCount(b, params.next)
            case None => None
            case Some(nResults) =>
              match ReadFormats(b, nResults.next, nResults.value)
              case None => None
              case Some(results) =>
                if results.next != |b| then None
                else Some(Bind(portal, statement, paramFormats.value, params.value, results.value))
  }

  // ----- the round trip -----

  lemma {:induction false} CStringAt(b: Data, pos: nat, s: Data)
    requires At(b, pos, s + [0]) && 0 !in s
    ensures ReadCString(b, pos) == Some(Part(s, pos + |s| + 1))
    decreases |s|
  {
    if s == [] {
      assert b[pos..pos + 1] == [0];
    } else {
      assert s + [0] == [s[0]] + (s[1..] + [0]);
      AtConcat(b, pos, [s[0]], s[1..] + [0]);
      assert b[pos..pos + 1] == [s[0]];
      CStringAt(b, pos + 1, s[1..]);
      assert s == [s[0]] + s[1..];
    }
  }

  lemma CountAt(b: Data, pos: nat, n: nat)
    requires At(b, pos, BE16(n)) && n < TWO_TO_16
    ensures ReadCount(b, pos) == Some(Part(n, pos + 2))
  {
    hide BE16, ReadBE16;
    ShortRoundTrip(b, pos, n);
  }

  predicate AllWords(fs: seq<int>) {
    forall k :: 0 <= k < |fs| ==> 0 <= fs[k] < TWO_TO_16
  }

  lemma {:induction false} FormatsAt(b: Data, pos: nat, fs: seq<int>)
    requires At(b, pos, FormatsBytes(fs)) && AllWords(fs)
    ensures ReadFormats(b, pos, |fs|) == Some(Part(fs, pos + 2 * |fs|))
    decreases |fs|
  {
    hide BE16, ReadCount;
    if fs != [] {
      AtConcat(b, pos, BE16(fs[0]), FormatsBytes(fs[1..]));
      CountAt(b, pos, fs[0]);
      FormatsAt(b, pos + 2, fs[1..]);
      assert fs == [fs[0]] + fs[1..];
    }
  }

  lemma ParamAt(b: Data, pos: nat, p: Param)
    requires At(b, pos, ParamBytes(p)) && (p.Some? ==> |p.value| < TWO_TO_31)
    ensures ReadParam(b, pos) == Some(Part(p, pos + |ParamBytes(p)|))
  {
    hide BE32, ReadBE32;
    match p
    case None => LengthRoundTrip(b, pos, -1);
    case Some(d) =>
      AtConcat(b, pos, BE32(|d|), d);
      LengthRoundTrip(b, pos, |d|);
  }

  lemma {:induction false} ParamsAt(b: Data, pos: nat, ps: seq<Param>)
    requires At(b, pos, ParamsBytes(ps)) && AllShort(ps)
    ensures ReadParams(b, pos, |ps|) == Some(Part(ps, pos + |ParamsBytes(ps)|))
    decreases |ps|
  {
    hide ParamBytes, ReadParam;
    if ps != [] {
      AtConcat(b, pos, ParamBytes(ps[0]), ParamsBytes(ps[1..]));
      ParamAt(b, pos, ps[0]);
      ParamsAt(b, pos + |ParamBytes(ps[0])|, ps[1..]);
      assert ps == [ps[0]] + ps[1..];
    }
  }

  /** What a Bind message can carry: names without zero bytes, counts and lengths that fit their fields. */
  predicate Carriable(portal: Data, statement: Data, params: seq<Param>, formats: seq<int>) {
    && 0 !in portal && 0 !in statement
    && |params| < TWO_TO_16 && AllShort(params)
    && |formats| < TWO_TO_16 && AllWords(formats)
  }

  lemma ListsAt(b: Data, pos: nat, portal: Data, statement: Data, params: seq<Param>, formats: seq<int>)
    requires Carriable(portal, statement, params, formats)
    requires At(b, pos, Counts(|params|)) && At(b, pos + 6, ParamsBytes(params))
    requires At(b, pos + 6 + |ParamsBytes(params)|, BE16(|formats|))
    requires At(b, pos + 8 + |ParamsBytes(params)|, FormatsBytes(formats))
    requires pos + 8 + |ParamsBytes(params)| + 2 * |formats| == |b|
    ensures ParseLists(b, pos, portal, statement) == Some(Bind(portal, statement, [0], params, formats))
  {
    hide At, BE16, ReadCount, ReadFormats, ReadParams, ParamsBytes, FormatsBytes, AllShort, AllWords;
    AtConcat(b, pos, BE16(1) + BE16(0), BE16(|params|));
    AtConcat(b, pos, BE16(1), BE16(0));
    CountAt(b, pos, 1);
    OneFormat(b, pos + 2);
    CountAt(b, pos + 4, |params|);
    ParamsAt(b, pos + 6, params);
    CountAt(b, pos + 6 + |ParamsBytes(params)|, |formats|);
    FormatsAt(b, pos + 8 + |ParamsBytes(params)|, formats);
  }

  lemma OneFormat(b: Data, pos: nat)
    requires At(b, pos, BE16(0))
    ensures ReadFormats(b, pos, 1) == Some(Part([0], pos + 2))
  {
    assert [0][1..] == [];
    assert FormatsBytes([0]) == BE16(0) + FormatsBytes([]);
    FormatsAt(b, pos, [0]);
  }

  /** Where the parts of the message lie. */
  lemma BindLayout(portal: Data, statement: Data, params: seq<Param>, resultFormats: seq<int>)
    ensures
      var b, formats := BindBytes(portal, statement, params, resultFormats), Formats(resultFormats);
      var lists := 5 + |portal| + 1 + |statement| + 1;
      && At(b, 0, Header(4 + BodyLength(portal, statement, params, formats)))
      && At(b, 5, portal + [0]) && At(b, 5 + |portal| + 1, statement + [0])
      && At(b, lists, Counts(|params|)) && At(b, lists + 6, ParamsBytes(params))
      && At(b, lists + 6 + |ParamsBytes(params)|, BE16(|formats|))
      && At(b, lists + 8 + |ParamsBytes(params)|, FormatsBytes(formats))
      && lists + 8 + |ParamsBytes(params)| + 2 * |formats| == |b|
  {
    hide At, ParamsBytes, FormatsBytes, Counts, BE16, Header, BodyLength, Formats;
    var formats := Formats(resultFormats);
    var b := BindBytes(portal, statement, params, resultFormats);
    var h := Header(4 + BodyLength(portal, statement, params, formats));
    SizeOfBody(portal, statement, params, formats);
    AtWhole(b);
    var names := h + portal + [0] + statement + [0];
    AtConcat(b, 0, names + Counts(|params|) + ParamsBytes(params) + BE16(|formats|), FormatsBytes(formats));
    AtConcat(b, 0, names + Counts(|params|) + ParamsBytes(params), BE16(|formats|));
    AtConcat(b, 0, names + Counts(|params|), ParamsBytes(params));
    AtConcat(b, 0, names, Counts(|params|));
    NamesAt(b, h, portal, statement);
  }

  lemma AtWhole(b: Data)
    ensures At(b, 0, b)
  {
  }

  lemma CarriableReads(portal: Data, statement: Data, params: seq<Param>, resultFormats: seq<int>)
    requires |BindBytes(portal, statement, params, resultFormats)| <= TWO_TO_31
    requires Carriable(portal, statement, params, Formats(resultFormats))
    ensures ParseBind(BindBytes(portal, statement, params, resultFormats)) ==
            Some(Bind(portal, statement, [0], params, Formats(resultFormats)))
  {
    hide At, BindBytes, ParseLists, ReadCString, ParamsBytes, FormatsBytes, AllShort, AllWords, Counts, BE16, Header,
      BodyLength, ReadBE32, Formats;
    var b, formats := BindBytes(portal, statement, params, resultFormats), Formats(resultFormats);
    BindLayout(portal, statement, params, resultFormats);
    SizeOfBody(portal, statement, params, formats);
    HeaderAt(b, 4 + BodyLength(portal, statement, params, formats));
    CStringAt(b, 5, portal);
    CStringAt(b, 5 + |portal| + 1, statement);
    ListsAt(b, 5 + |portal| + 1 + |statement| + 1, portal, statement, params, formats);
  }

  /**
    Reading the encoded message by its layout returns what was encoded, with every
    parameter in text format, if and only if a Bind message can carry it and its
    length fits the length word.
   */
  lemma BindRoundTrip(portal: Data, statement: Data, params: seq<Param>, resultFormats: seq<int>)
    ensures var formats := if resultFormats == [] then [1] else resultFormats;
      ParseBind(BindBytes(portal, statement, params, resultFormats)) ==
        Some(Bind(portal, statement, [0], params, formats))
      <==> Carriable(portal, statement, params, formats) &&
           |BindBytes(portal, statement, params, resultFormats)| <= TWO_TO_31
  {
    hide BindBytes, ParseBind, Carriable;
    var b := BindBytes(portal, statement, params, resultFormats);
    if |b| > TWO_TO_31 {
      LongerThanLength(b);
    } else if Carriable(portal, statement, params, Formats(resultFormats)) {
      CarriableReads(portal, statement, params, resultFormats);
    }
    if ParseBind(b).Some? {
      ParsedIsCarriable(b);
    }
  }

  lemma LongerThanLength(b: Data)
    requires |b| > TWO_TO_31
    ensures ParseBind(b).None?
  {
    hide ReadBE32;
    assert |b| >= 5 ==> Signed32(ReadBE32(b, 1)) < TWO_TO_31;
  }

  lemma NamesAt(b: Data, h: Data, portal: Data, statement: Data)
    requires |h| == 5 && At(b, 0, h + portal + [0] + statement + [0])
    ensures At(b, 0, h) && At(b, 5, portal + [0]) && At(b, 5 + |portal| + 1, statement + [0])
  {
    assert h + portal + [0] + statement + [0] == h + ((portal + [0]) + (statement + [0]));
    AtConcat(b, 0, h, (portal + [0]) + (statement + [0]));
    AtConcat(b, 5, portal + [0], statement + [0]);
  }

  lemma HeaderAt(b: Data, length: nat)
    requires At(b, 0, Header(length)) && length < TWO_TO_31
    ensures |b| >= 5 && b[0] == KIND && ReadBE32(b, 1) == length
  {
    hide BE32, ReadBE32;
    AtConcat(b, 0, [KIND], BE32(length));
    assert b[0..1] == [KIND];
    LengthRoundTrip(b, 1, length);
  }

  /** Whatever parses is something a Bind message can carry. */
  lemma ParsedIsCarriable(b: Data)
    requires ParseBind(b).Some?
    ensures var m := ParseBind(b).value; Carriable(m.portal, m.statement, m.params, m.resultFormats)
  {
    var portal := ReadCString(b, 5).value;
    var statement := ReadCString(b, portal.next).value;
    ListsCarriable(b, statement.next, portal.value, statement.value);
  }

  lemma ListsCarriable(b: Data, pos: nat, portal: Data, statement: Data)
    requires ParseLists(b, pos, portal, statement).Some? && 0 !in portal && 0 !in statement
    ensures var m := ParseLists(b, pos, portal, statement).value;
            m.portal == portal && m.statement == statement
              && Carriable(m.portal, m.statement, m.params, m.resultFormats)
  {
  }
}
