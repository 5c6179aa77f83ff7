/**
  What a MySQL query returns, said of the packets a server sends: binary rows laid out as the protocol has
  them, and the value each column stands for.
 */
module MysqlReplies {
  import opened Bytes
  import opened Wrappers
  import opened HyperCodec
  import opened MysqlValues
  import opened MysqlLazyRow
  import opened ByteStreams
  import opened WireFraming
  import opened MysqlQueries

  // ----- null bits -----

  function TwoTo(k: nat): (r: nat)
    ensures r > 0
  {
    if k == 0 then 1 else 2 * TwoTo(k - 1)
  }

  /** Bit k of a byte is its digit worth 2^k. */
  lemma {:induction false} BitSays(b: nat, k: nat)
    ensures Bit(b, k) <==> b / TwoTo(k) % 2 == 1
    decreases k
  {
    if k > 0 {
      BitSays(b / 2, k - 1);
      HalfFirst(b, TwoTo(k - 1));
    }
  }

  lemma HalfFirst(b: nat, n: nat)
    requires n > 0
    ensures b / 2 / n == b / (2 * n)
  {
    var p, rest := b / 2 / n, b / 2 % n;
    assert b / 2 == n * p + rest;
    assert b == 2 * (n * p) + 2 * rest + b % 2;
    assert 2 * (n * p) == 2 * n * p;
    Quotient(b, 2 * n, p, 2 * rest + b % 2);
  }

  lemma Quotient(b: nat, d: nat, p: nat, r: nat)
    requires d > 0 && b == d * p + r && r < d
    ensures b / d == p
  {
    var q := b / d;
    assert b == d * q + b % d;
    if p > q {
      Apart(d, p, q);
    } else if q > p {
      Apart(d, q, p);
    }
  }

  lemma Apart(d: nat, p: nat, q: nat)
    requires p > q
    ensures d * p >= d * q + d
  {
    var x := p - q - 1;
    assert d * p == d * q + d * x + d && d * x >= 0;
  }

  // ----- the layout of a row -----

  /** The size of a type's values; 0 for those that have a length in front. */
  function SizeOf(kind: int): nat {
    if kind == 1 then 1
    else if kind == 2 || kind == 13 then 2
    else if kind == 3 || kind == 4 || kind == 9 then 4
    else if kind == 5 || kind == 8 then 8
    else 0
  }

  function CellBytes(kind: int, cell: Option<Data>): Data {
    if cell.None? then []
    else if SizeOf(kind) > 0 then cell.value
    else LenEnc(|cell.value|) + cell.value
  }

  function CellsBytes(fields: seq<MysqlField>, cells: seq<Option<Data>>, i: nat): Data
    requires |cells| == |fields|
    decreases |cells| - i
  {
    if i >= |cells| then [] else CellBytes(fields[i].kind, cells[i]) + CellsBytes(fields, cells, i + 1)
  }

  predicate Sendable(kind: int, cell: Option<Data>) {
    cell.Some? ==> if SizeOf(kind) > 0 then |cell.value| == SizeOf(kind) else |cell.value| < TWO_TO_32
  }

  predicate AllSendable(fields: seq<MysqlField>, cells: seq<Option<Data>>) {
    |cells| == |fields| && forall i :: 0 <= i < |cells| ==> Sendable(fields[i].kind, cells[i])
  }

  /**
    A zero byte, a bitmap whose bits from the third on are set for the nulls, and the other columns one after
    the other.
   */
  predicate HoldsRow(payload: Data, fields: seq<MysqlField>, cells: seq<Option<Data>>) {
    var start := 1 + (|fields| + 9) / 8;
    && |cells| == |fields| && start <= |payload| && payload[0] == 0
    && (forall i :: 0 <= i < |fields| ==>
          (cells[i].None? <==> payload[1 + (i + 2) / 8] / TwoTo((i + 2) % 8) % 2 == 1))
    && payload[start..] == CellsBytes(fields, cells, 0)
  }

  /** What a column stands for; None when its JSON does not parse. */
  function ValueOf(c: Conversions, kind: int, cell: Option<Data>): Option<Value> {
    if cell.None? then Some(Null)
    else if SizeOf(kind) > 0 then Some(c.fixed(kind, cell.value))
    else if kind == 0xf5 then c.json(DecodeUtf8(cell.value))
    else if kind in {0x00, 0x0f, 0xf6, 0xf9, 0xfa, 0xfb, 0xfc, 0xfd, 0xfe} then Some(Str(DecodeUtf8(cell.value)))
    else Some(Str(UNSUPPORTED))
  }

  /** The first n columns' values, unless one of them has none. */
  function ValuesOf(c: Conversions, fields: seq<MysqlField>, cells: seq<Option<Data>>, n: nat): (r: Option<seq<Value>>)
    requires |cells| == |fields| && n <= |fields|
    decreases n
  {
    if n == 0 then Some([])
    else
      var before, value := ValuesOf(c, fields, cells, n - 1), ValueOf(c, fields[n - 1].kind, cells[n - 1]);
      if before.None? || value.None? then None else Some(before.value + [value.value])
  }

  lemma NullsAgree(payload: Data, fields: seq<MysqlField>, cells: seq<Option<Data>>, i: nat)
    requires HoldsRow(payload, fields, cells) && i < |fields|
    ensures 1 + BitmapLength(|fields|) <= |payload| && (IsNull(payload, i, |fields|) <==> cells[i].None?)
  {
    hide Bit, TwoTo, CellsBytes;
    BitSays(payload[1 + (i + 2) / 8], (i + 2) % 8);
  }

  /** A column that is not null is found where it starts, ends where the next starts and is read as it was sent. */
  lemma CellRead(c: Conversions, payload: Data, pos: nat, kind: int, cell: Option<Data>, more: Data)
    requires cell.Some? && Sendable(kind, cell) && At(payload, pos, CellBytes(kind, cell) + more)
    ensures ColumnEnd(payload, pos, kind) == Some(pos + |CellBytes(kind, cell)|)
    ensures EagerValue(c, payload, pos, kind) == ValueOf(c, kind, cell)
    ensures At(payload, pos + |CellBytes(kind, cell)|, more)
  {
    hide At, LenEnc, ReadLenEnc, DecodeString, DecodeUtf8;
    var d := cell.value;
    AtConcat(payload, pos, CellBytes(kind, cell), more);
    if SizeOf(kind) > 0 {
      AtSlice(payload, pos, d);
    } else {
      AtConcat(payload, pos, LenEnc(|d|), d);
      AtSlice(payload, pos + |LenEnc(|d|)|, d);
      LenEncRoundTrip(payload, pos, |d|);
      DecodeStringIsDecode(d);
    }
  }

  lemma AtSlice(buf: Data, pos: nat, d: Data)
    requires At(buf, pos, d)
    ensures pos + |d| <= |buf| && buf[pos..pos + |d|] == d
  {
  }

  lemma StartOfCells(payload: Data, fields: seq<MysqlField>, cells: seq<Option<Data>>)
    requires HoldsRow(payload, fields, cells)
    ensures 1 + BitmapLength(|fields|) <= |payload|
    ensures ColumnStart(payload, fields, 0) == Some(1 + BitmapLength(|fields|))
    ensures At(payload, 1 + BitmapLength(|fields|), CellsBytes(fields, cells, 0))
  {
    hide CellsBytes;
  }

  lemma {:induction false} StartOf(c: Conversions, payload: Data, fields: seq<MysqlField>, cells: seq<Option<Data>>,
      i: nat)
    requires HoldsRow(payload, fields, cells) && AllSendable(fields, cells) && i <= |fields|
    ensures 1 + BitmapLength(|fields|) <= |payload| && ColumnStart(payload, fields, i).Some?
    ensures At(payload, ColumnStart(payload, fields, i).value, CellsBytes(fields, cells, i))
    decreases i
  {
    hide HoldsRow, Sendable, At, CellBytes, IsNull, ColumnEnd, EagerValue, ValueOf;
    StartOfCells(payload, fields, cells);
    if i > 0 {
      StartOf(c, payload, fields, cells, i - 1);
      NullsAgree(payload, fields, cells, i - 1);
      var pos, kind, cell := ColumnStart(payload, fields, i - 1).value, fields[i - 1].kind, cells[i - 1];
      if cell.Some? {
        CellRead(c, payload, pos, kind, cell, CellsBytes(fields, cells, i));
      } else {
        NullCell(kind, CellsBytes(fields, cells, i));
      }
    }
  }

  lemma NullCell(kind: int, more: Data)
    ensures CellBytes(kind, None) + more == more
  {
  }

  /** Parsing the bytes of a row gives every column's value, or fails where one has none. */
  lemma {:induction false} PrefixRead(c: Conversions, payload: Data, fields: seq<MysqlField>,
      cells: seq<Option<Data>>, n: nat)
    requires HoldsRow(payload, fields, cells) && AllSendable(fields, cells) && n <= |fields|
    ensures 1 + BitmapLength(|fields|) <= |payload|
    ensures EagerPrefix(c, payload, fields, n) == ValuesOf(c, fields, cells, n)
    decreases n
  {
    hide HoldsRow, Sendable, At, CellBytes, IsNull, ColumnStart, ColumnEnd, EagerValue, ValueOf, CellsBytes;
    StartOfCells(payload, fields, cells);
    if n > 0 {
      PrefixRead(c, payload, fields, cells, n - 1);
      StartOf(c, payload, fields, cells, n - 1);
      StartOf(c, payload, fields, cells, n);
      NullsAgree(payload, fields, cells, n - 1);
      var pos, kind, cell := ColumnStart(payload, fields, n - 1).value, fields[n - 1].kind, cells[n - 1];
      CellsStep(fields, cells, n - 1);
      if cell.Some? {
        CellRead(c, payload, pos, kind, cell, CellsBytes(fields, cells, n));
      } else {
        NullValue(c, kind);
      }
    }
  }

  lemma CellsStep(fields: seq<MysqlField>, cells: seq<Option<Data>>, i: nat)
    requires |cells| == |fields| && i < |cells|
    ensures CellsBytes(fields, cells, i) == CellBytes(fields[i].kind, cells[i]) + CellsBytes(fields, cells, i + 1)
  {
  }

  lemma NullValue(c: Conversions, kind: int)
    ensures ValueOf(c, kind, None) == Some(Null)
  {
  }

  lemma RowRead(c: Conversions, payload: Data, fields: seq<MysqlField>, cells: seq<Option<Data>>)
    requires HoldsRow(payload, fields, cells) && AllSendable(fields, cells)
    ensures EagerRow(c, payload, fields) == ValuesOf(c, fields, cells, |fields|)
  {
    hide HoldsRow, AllSendable, EagerPrefix, ValuesOf;
    PrefixRead(c, payload, fields, cells, |fields|);
  }

  // ----- whole replies -----

  /** The packets hold these rows, one each, and fit one packet each. */
  predicate HoldRows(ps: seq<Packet>, fields: seq<MysqlField>, rows: seq<seq<Option<Data>>>) {
    |ps| == |rows| && forall i :: 0 <= i < |ps| ==>
      && HoldsRow(ps[i].payload, fields, rows[i]) && AllSendable(fields, rows[i])
      && |ps[i].payload| < TWO_TO_24
  }

  /** All rows' values, unless a column of one has none. */
  function Table(c: Conversions, fields: seq<MysqlField>, rows: seq<seq<Option<Data>>>): Option<seq<seq<Value>>>
    requires forall i :: 0 <= i < |rows| ==> |rows[i]| == |fields|
    decreases |rows|
  {
    if rows == [] then Some([])
    else
      var first, rest := ValuesOf(c, fields, rows[0], |fields|), Table(c, fields, rows[1..]);
      if first.None? || rest.None? then None else Some([first.value] + rest.value)
  }

  /** The end of the rows: 0xfe and the four bytes of the counts of warnings and the status. */
  predicate Ends(p: Packet) {
    |p.payload| == 5 && p.payload[0] == 0xfe
  }

  predicate Complains(p: Packet) {
    0 < |p.payload| < TWO_TO_24 && p.payload[0] == 0xff
  }

  lemma RowGoesOn(c: Conversions, fields: seq<MysqlField>, done: seq<seq<Value>>, p: Packet, cells: seq<Option<Data>>,
      rest: seq<Packet>)
    requires HoldsRow(p.payload, fields, cells) && AllSendable(fields, cells)
    ensures !IsEnd(p) && !IsError(p)
    ensures var row := ValuesOf(c, fields, cells, |fields|);
      ResultOf(c, fields, done, [p] + rest) ==
        if row.None? then Thrown else ResultOf(c, fields, done + [row.value], rest)
  {
    hide AllSendable, EagerRow, ValuesOf, CellsBytes, TwoTo;
    RowRead(c, p.payload, fields, cells);
    assert ([p] + rest)[1..] == rest;
  }

  /**
    A query that is sent rows and their end returns every column's value; sent an error after them, or a
    column whose JSON does not parse, it throws.
   */
  lemma {:induction false} RowsReturned(c: Conversions, fields: seq<MysqlField>, done: seq<seq<Value>>,
      ps: seq<Packet>, rows: seq<seq<Option<Data>>>, last: Packet)
    requires HoldRows(ps, fields, rows) && (Ends(last) || Complains(last))
    ensures forall i :: 0 <= i < |rows| ==> |rows[i]| == |fields|
    ensures var table := Table(c, fields, rows);
      ResultOf(c, fields, done, ps + [last]) ==
        if table.None? || Complains(last) then Thrown else Rows(done + table.value)
    decreases |rows|
  {
    hide HoldsRow, ResultOf, AllSendable, Ends, Complains, ValuesOf;
    RowsFit(ps, fields, rows);
    if ps == [] {
      assert ps + [last] == [last] && done + [] == done;
      LastRead(c, fields, done, last);
    } else {
      var more := ps[1..];
      assert ps + [last] == [ps[0]] + (more + [last]);
      assert forall i :: 0 <= i < |more| ==> more[i] == ps[i + 1] && rows[1..][i] == rows[i + 1];
      RowGoesOn(c, fields, done, ps[0], rows[0], more + [last]);
      var row := ValuesOf(c, fields, rows[0], |fields|);
      if row.Some? {
        RowsReturned(c, fields, done + [row.value], more, rows[1..], last);
        var rest := Table(c, fields, rows[1..]);
        if rest.Some? {
          assert done + [row.value] + rest.value == done + ([row.value] + rest.value);
        }
      }
    }
  }

  lemma RowsFit(ps: seq<Packet>, fields: seq<MysqlField>, rows: seq<seq<Option<Data>>>)
    requires HoldRows(ps, fields, rows)
    ensures forall i :: 0 <= i < |rows| ==> |rows[i]| == |fields|
  {
    hide HoldsRow, Sendable;
    assert forall i :: 0 <= i < |rows| ==> AllSendable(fields, rows[i]);
  }

  lemma LastRead(c: Conversions, fields: seq<MysqlField>, done: seq<seq<Value>>, last: Packet)
    requires Ends(last) || Complains(last)
    ensures ResultOf(c, fields, done, [last]) == if Complains(last) then Thrown else Rows(done)
  {
    hide EagerRow;
  }

  lemma RowsThenEnd(fields: seq<MysqlField>, ps: seq<Packet>, rows: seq<seq<Option<Data>>>, last: Packet)
    requires HoldRows(ps, fields, rows) && (Ends(last) || Complains(last))
    ensures ServerReply(ps + [last])
  {
    hide AllSendable, CellsBytes, TwoTo;
    var all := ps + [last];
    forall i | 0 <= i < |all| - 1
      ensures !IsEnd(all[i]) && !IsError(all[i])
    {
      assert HoldsRow(ps[i].payload, fields, rows[i]);
    }
  }

  /** The query reading such a reply off any chunks returns those values. */
  method ReadRows(c: Conversions, fields: seq<MysqlField>, ps: seq<Packet>, ghost rows: seq<seq<Option<Data>>>,
      last: Packet, ghost tail: Data, chunks: seq<Data>) returns (r: QueryResult)
    requires HoldRows(ps, fields, rows) && (Ends(last) || Complains(last))
    requires Concat(chunks) == PacketFrames(ps + [last]) + tail
    ensures forall i :: 0 <= i < |rows| ==> |rows[i]| == |fields|
    ensures Ends(last) && Table(c, fields, rows).Some? ==> r == Rows(Table(c, fields, rows).value)
    ensures Complains(last) || Table(c, fields, rows).None? ==> r == Thrown
  {
    hide HoldRows, ResultOf, ServerReply, Table;
    RowsReturned(c, fields, [], ps, rows, last);
    RowsThenEnd(fields, ps, rows, last);
    r := ReadChunkedRows(c, fields, ps + [last], tail, chunks);
    if Table(c, fields, rows).Some? {
      assert [] + Table(c, fields, rows).value == Table(c, fields, rows).value;
    }
  }
}
