/**
  The row loop of a MySQL query: when it reads its whole reply.
 */
module MysqlQueries {
  import opened Bytes
  import opened Wrappers
  import opened HyperCodec
  import opened MysqlLazyRow
  import opened ByteStreams
  import opened WireFraming

  /** What a query comes to: its rows, an exception, or the stream's failure. */
  datatype QueryResult = Rows(rows: seq<seq<Value>>) | Thrown | Broken(error: StreamError)

  predicate IsEnd(p: Packet) {
    p.payload != [] && p.payload[0] == 0xfe && |p.payload| < 9
  }

  predicate IsError(p: Packet) {
    p.payload != [] && p.payload[0] == 0xff
  }

  /** A packet that makes the query throw: an error, or a row its parser rejects. */
  predicate Fails(c: Conversions, fields: seq<MysqlField>, p: Packet) {
    !IsEnd(p) && (IsError(p) || EagerRow(c, p.payload, fields).None?)
  }

  /** What the row loop makes of a stream, and what it leaves of it. */
  function Answered(c: Conversions, fields: seq<MysqlField>, flat: Data, rows: seq<seq<Value>>): (QueryResult, Data)
    decreases |flat|
  {
    match NextPacket(flat)
    case Failure(e) => (Broken(e), flat)
    case Success((p, rest)) =>
      if IsEnd(p) then (Rows(rows), rest)
      else if Fails(c, fields, p) then (Thrown, rest)
      else Answered(c, fields, rest, rows + [EagerRow(c, p.payload, fields).value])
  }

  lemma AnsweredStep(c: Conversions, fields: seq<MysqlField>, flat: Data, rows: seq<seq<Value>>)
    ensures var next := NextPacket(flat);
      Answered(c, fields, flat, rows) ==
        if next.Failure? then (Broken(next.error), flat)
        else
          var p, rest := next.value.0, next.value.1;
          if IsEnd(p) then (Rows(rows), rest)
          else if Fails(c, fields, p) then (Thrown, rest)
          else Answered(c, fields, rest, rows + [EagerRow(c, p.payload, fields).value])
  {
    hide NextPacket, IsEnd, IsError, EagerRow;
  }

  /** The row loop of `executeExtendedQuery`, for a statement with columns. */
  method ReadAnswer(c: Conversions, fields: seq<MysqlField>, reader: StreamReader) returns (r: QueryResult)
    requires reader.Valid()
    modifies reader
    ensures reader.Valid()
    ensures r == Answered(c, fields, old(reader.Flat()), []).0
    ensures !r.Broken? ==> reader.Flat() == Answered(c, fields, old(reader.Flat()), []).1
  {
    hide NextPacket, EagerRow, Answered;
    var rows: seq<seq<Value>> := [];
    while true
      invariant reader.Valid()
      invariant Answered(c, fields, reader.Flat(), rows) == Answered(c, fields, old(reader.Flat()), [])
      decreases |reader.Flat()|
    {
      AnsweredStep(c, fields, reader.Flat(), rows);
      var next := ReadPacket(reader);
      if next.Failure? {
        return Broken(next.error);
      }
      var pkt := next.value;
      if |pkt.payload| > 0 && pkt.payload[0] == 0xfe && |pkt.payload| < 9 {
        return Rows(rows);
      }
      if |pkt.payload| > 0 && pkt.payload[0] == 0xff {
        return Thrown;
      }
      var row := ParseBinaryRow(c, pkt.payload, fields);
      if row.None? {
        return Thrown;
      }
      rows := rows + [row.value];
    }
  }

  // ----- what a query reads of its reply -----

  /** What a server sends: row packets, then an end or error packet, all short enough for one packet. */
  predicate ServerReply(ps: seq<Packet>) {
    && ps != []
    && (forall i :: 0 <= i < |ps| ==> |ps[i].payload| < TWO_TO_24)
    && (forall i :: 0 <= i < |ps| - 1 ==> !IsEnd(ps[i]) && !IsError(ps[i]))
    && (IsEnd(ps[|ps| - 1]) || IsError(ps[|ps| - 1]))
  }

  /** How many of the packets a query reads: those up to the first that ends it. */
  function OwnPart(c: Conversions, fields: seq<MysqlField>, ps: seq<Packet>): (n: nat)
    ensures n <= |ps| && (ps != [] ==> n > 0)
    decreases |ps|
  {
    if ps == [] then 0
    else if IsEnd(ps[0]) || Fails(c, fields, ps[0]) then 1
    else 1 + OwnPart(c, fields, ps[1..])
  }

  /** What a query returns that is sent these packets. */
  function ResultOf(c: Conversions, fields: seq<MysqlField>, rows: seq<seq<Value>>, ps: seq<Packet>): QueryResult
    decreases |ps|
  {
    if ps == [] then Broken(StreamClosed)
    else if IsEnd(ps[0]) then Rows(rows)
    else if Fails(c, fields, ps[0]) then Thrown
    else ResultOf(c, fields, rows + [EagerRow(c, ps[0].payload, fields).value], ps[1..])
  }

  /** Off the frames of a reply a query reads its part, returns what it says and leaves the rest of the stream. */
  lemma {:induction false} RowsRoundTrip(c: Conversions, fields: seq<MysqlField>, rows: seq<seq<Value>>,
      ps: seq<Packet>, tail: Data)
    requires ServerReply(ps)
    ensures Answered(c, fields, PacketFrames(ps) + tail, rows) ==
      (ResultOf(c, fields, rows, ps), PacketFrames(ps[OwnPart(c, fields, ps)..]) + tail)
    decreases |ps|
  {
    hide PacketBytes, ParsePacket, EagerRow, IsEnd, IsError;
    var p, rest := ps[0], ps[1..];
    var frame := PacketBytes(p.payload, p.sequenceId);
    ConcatAssoc(frame, PacketFrames(rest), tail);
    NextFramed(p, PacketFrames(rest) + tail);
    AnsweredStep(c, fields, PacketFrames(ps) + tail, rows);
    if !IsEnd(p) && !Fails(c, fields, p) {
      assert rest != [] && rest[|rest| - 1] == ps[|ps| - 1];
      RowsRoundTrip(c, fields, rows + [EagerRow(c, p.payload, fields).value], rest, tail);
      assert rest[OwnPart(c, fields, rest)..] == ps[OwnPart(c, fields, ps)..];
    }
  }

  /** Any cut of a reply into chunks gives the same result. */
  method ReadChunkedRows(c: Conversions, fields: seq<MysqlField>, ps: seq<Packet>, ghost tail: Data, chunks: seq<Data>)
    returns (r: QueryResult)
    requires ServerReply(ps) && Concat(chunks) == PacketFrames(ps) + tail
    ensures r == ResultOf(c, fields, [], ps)
  {
    var reader := new StreamReader(chunks);
    assert reader.Flat() == Concat(chunks);
    RowsRoundTrip(c, fields, [], ps, tail);
    r := ReadAnswer(c, fields, reader);
  }

  /** The rows of the reply, as its parser reads them. */
  predicate AllRowsRead(c: Conversions, fields: seq<MysqlField>, ps: seq<Packet>) {
    forall i :: 0 <= i < |ps| - 1 ==> EagerRow(c, ps[i].payload, fields).Some?
  }

  /** The query leaves the stream at the next reply exactly when its parser accepts every row. */
  lemma {:induction false} ReplyUsedUp(c: Conversions, fields: seq<MysqlField>, ps: seq<Packet>)
    requires ServerReply(ps)
    ensures OwnPart(c, fields, ps) == |ps| <==> AllRowsRead(c, fields, ps)
    decreases |ps|
  {
    hide EagerRow, IsEnd, IsError;
    if |ps| > 1 {
      var rest := ps[1..];
      assert rest[|rest| - 1] == ps[|ps| - 1];
      assert forall i :: 0 <= i < |rest| ==> rest[i] == ps[i + 1];
      assert !IsEnd(ps[0]) && !IsError(ps[0]);
      ReplyUsedUp(c, fields, rest);
      assert forall i :: 0 < i < |ps| - 1 ==> ps[i] == rest[i - 1];
      assert AllRowsRead(c, fields, ps) <==>
        EagerRow(c, ps[0].payload, fields).Some? && AllRowsRead(c, fields, rest);
    }
  }

  lemma {:induction false} StreamLeft(c: Conversions, fields: seq<MysqlField>, ps: seq<Packet>, tail: Data)
    requires ServerReply(ps)
    ensures Answered(c, fields, PacketFrames(ps) + tail, []).1 == tail <==> AllRowsRead(c, fields, ps)
  {
    hide Answered, OwnPart, ServerReply, AllRowsRead, PacketBytes;
    RowsRoundTrip(c, fields, [], ps, tail);
    ReplyUsedUp(c, fields, ps);
    var left := ps[OwnPart(c, fields, ps)..];
    if left != [] {
      assert |PacketFrames(left) + tail| > |tail|;
    } else {
      assert PacketFrames(left) + tail == tail;
    }
  }

  lemma NextFramed(p: Packet, tail: Data)
    requires |p.payload| < TWO_TO_24
    ensures NextPacket(PacketBytes(p.payload, p.sequenceId) + tail) == Success((p, tail))
  {
    hide PacketBytes, ParsePacket;
    PacketRoundTrip(p.payload, p.sequenceId, tail);
    PacketHeader(p.payload, p.sequenceId, tail);
  }
}
