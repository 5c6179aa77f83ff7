/**
  Message framing for both databases: the frames, and reading one off a stream
  reader, whatever the chunks it arrives in.
 */
module WireFraming {
  import opened Bytes
  import opened Wrappers
  import opened Buffers
  import opened ByteStreams

  // ----- PostgreSQL: type byte, length word that counts itself, data -----

  datatype PgMessage = PgMessage(kind: Byte, data: Data)

  function PgFrame(m: PgMessage): (r: Data)
    ensures |r| == 5 + |m.data|
  {
    [m.kind] + BE32(|m.data| + 4) + m.data
  }

  /** The type, then how many bytes follow it, these four included, the highest first. */
  lemma FrameLayout(m: PgMessage)
    requires Frameable(m)
    ensures var r := PgFrame(m); r[0] == m.kind && BigEndian(r[1..5]) == |r| - 1 && r[5..] == m.data
  {
    hide BE32, BigEndian;
    WordsWritten(|m.data| + 4);
    SmallRemainder(|m.data| + 4);
    assert PgFrame(m)[1..5] == BE32(|m.data| + 4);
  }

  function PgFrames(ms: seq<PgMessage>): Data {
    if ms == [] then [] else PgFrame(ms[0]) + PgFrames(ms[1..])
  }

  /** The data fits a signed 32-bit length. */
  predicate Frameable(m: PgMessage) {
    |m.data| + 4 < TWO_TO_31
  }

  /** The first message of a flat stream and what follows it. */
  function NextMessage(flat: Data): (r: Result<(PgMessage, Data), StreamError>)
    ensures r.Success? ==> |r.value.1| < |flat|
  {
    if |flat| < 5 then Failure(StreamClosed)
    else
      var length := Signed32(ReadBE32(flat, 1)) as int - 4;
      if length < 0 then Failure(InvalidLength)
      else if 5 + length > |flat| then Failure(StreamClosed)
      else Success((PgMessage(flat[0], flat[5..5 + length]), flat[5 + length..]))
  }

  /** `readMessage`: three reads from the stream, whatever chunks it arrives in. */
  method ReadMessage(reader: StreamReader) returns (r: Result<PgMessage, StreamError>)
    requires reader.Valid()
    modifies reader
    ensures reader.Valid()
    ensures match NextMessage(old(reader.Flat()))
            case Success((m, rest)) => r == Success(m) && reader.Flat() == rest
            case Failure(e) => r == Failure(e)
  {
    ghost var flat := reader.Flat();
    var typeBuf := reader.Read(1);
    if typeBuf.Failure? {
      return Failure(typeBuf.error);
    }
    var lengthBuf := reader.Read(4);
    if lengthBuf.Failure? {
      return Failure(lengthBuf.error);
    }
    var length := Signed32(ReadBE32(lengthBuf.value, 0)) as int - 4;
    assert flat[1..][..4] == lengthBuf.value && ReadBE32(lengthBuf.value, 0) == ReadBE32(flat, 1);
    assert flat[1..][4..] == flat[5..];
    var data := reader.Read(length);
    if data.Failure? {
      return Failure(data.error);
    }
    assert flat[5..][..length] == flat[5..5 + length] && flat[5..][length..] == flat[5 + length..];
    return Success(PgMessage(typeBuf.value[0], data.value));
  }

  lemma NextFrame(m: PgMessage, tail: Data)
    requires Frameable(m)
    ensures NextMessage(PgFrame(m) + tail) == Success((m, tail))
  {
    hide BE32, ReadBE32;
    var flat := PgFrame(m) + tail;
    assert At(flat, 0, PgFrame(m));
    AtConcat(flat, 0, [m.kind] + BE32(|m.data| + 4), m.data);
    AtConcat(flat, 0, [m.kind], BE32(|m.data| + 4));
    LengthRoundTrip(flat, 1, |m.data| + 4);
    assert flat[5 + |m.data|..] == tail;
  }

  lemma {:induction false} FramesConcat(a: seq<PgMessage>, b: seq<PgMessage>)
    ensures PgFrames(a + b) == PgFrames(a) + PgFrames(b)
    decreases |a|
  {
    hide PgFrame;
    if a == [] {
      assert a + b == b;
    } else {
      assert (a + b)[1..] == a[1..] + b;
      FramesConcat(a[1..], b);
    }
  }

  // ----- one message from a whole buffer -----

  /** `Array.prototype.slice` on bytes. */
  function Slice(d: Data, start: int, end: int): Data {
    var from := Clamp(start, |d|);
    var to := Clamp(end, |d|);
    if from < to then d[from..to] else []
  }

  function Clamp(i: int, n: nat): (r: nat)
    ensures r <= n
  {
    if i < 0 then (if n + i < 0 then 0 else n + i) else if i > n then n else i
  }

  /** `decodeMessage`: None while the buffer holds only part of a message. */
  function DecodeMessage(buffer: Data): Option<(PgMessage, int)> {
    if |buffer| < 5 then None
    else
      var length := Signed32(ReadBE32(buffer, 1)) as int;
      if |buffer| < length + 1 then None
      else Some((PgMessage(buffer[0], Slice(buffer, 5, length + 1)), length + 1))
  }

  /** On a buffer that starts with a whole frame the two readers agree. */
  lemma DecodeMessageAgrees(m: PgMessage, tail: Data)
    requires Frameable(m)
    ensures DecodeMessage(PgFrame(m) + tail) == Some((m, |PgFrame(m)|))
  {
    NextFrame(m, tail);
    var flat := PgFrame(m) + tail;
    assert flat[5..5 + |m.data|] == m.data;
  }

  // ----- MySQL: three length bytes, sequence id, payload -----

  datatype Packet = Packet(sequenceId: Byte, payload: Data)

  function PacketBytes(payload: Data, sequenceId: int): (r: Data)
    ensures |r| == 4 + |payload|
  {
    LE24(|payload|) + [sequenceId % 256] + payload
  }

  /** `createPacket`: fills a buffer of the payload's length plus four. */
  method CreatePacket(payload: Data, sequenceId: int) returns (buffer: array<Byte>)
    ensures fresh(buffer) && buffer[..] == PacketBytes(payload, sequenceId)
  {
    buffer := new Byte[|payload| + 4](_ => 0);
    buffer[0] := |payload| % 256;
    buffer[1] := Shr8(|payload|) % 256;
    buffer[2] := Shr8(Shr8(|payload|)) % 256;
    buffer[3] := sequenceId % 256;
    SetBytes(buffer, 4, payload);
    assert buffer[..4] == LE24(|payload|) + [sequenceId % 256];
    assert buffer[..] == buffer[..4 + |payload|];
  }

  /** `parsePacket`: None while the buffer holds only part of a packet. */
  /** Three bytes of length, the lowest first, the sequence number, then the payload. */
  lemma PacketLayout(payload: Data, sequenceId: int)
    ensures var r := PacketBytes(payload, sequenceId);
      LittleEndian(r[..3]) == |payload| % 0x100_0000 && r[3] == sequenceId % 256 && r[4..] == payload
  {
    hide LE24, LittleEndian;
    WordsWritten(|payload|);
    assert PacketBytes(payload, sequenceId)[..3] == LE24(|payload|);
  }

  function ParsePacket(data: Data): Option<(Packet, nat)> {
    if |data| < 4 then None
    else
      var length := ReadLE24(data, 0);
      if |data| < length + 4 then None
      else Some((Packet(data[3], data[4..4 + length]), length + 4))
  }

  lemma PacketHeader(payload: Data, sequenceId: int, tail: Data)
    ensures var flat := PacketBytes(payload, sequenceId) + tail;
            && ReadLE24(flat, 0) == |payload| % TWO_TO_24
            && flat[3] == sequenceId % 256
            && flat[4..4 + |payload|] == payload
            && flat[4 + |payload|..] == tail
  {
    var flat := PacketBytes(payload, sequenceId) + tail;
    assert At(flat, 0, PacketBytes(payload, sequenceId));
    AtConcat(flat, 0, LE24(|payload|) + [sequenceId % 256], payload);
    AtConcat(flat, 0, LE24(|payload|), [sequenceId % 256]);
    WordRoundTrip(flat, 0, |payload|);
  }

  /** A packet comes back whole exactly when its length fits three bytes and its sequence id one. */
  lemma PacketRoundTrip(payload: Data, sequenceId: int, tail: Data)
    ensures var parsed := ParsePacket(PacketBytes(payload, sequenceId) + tail);
            parsed == Some((Packet(sequenceId % 256, payload), |payload| + 4)) <==> |payload| < TWO_TO_24
    ensures sequenceId % 256 == sequenceId <==> 0 <= sequenceId < 256
  {
    PacketHeader(payload, sequenceId, tail);
    if |payload| >= TWO_TO_24 {
      assert |payload| % TWO_TO_24 != |payload|;
    }
  }

  function NextPacket(flat: Data): (r: Result<(Packet, Data), StreamError>)
    ensures r.Success? ==> |r.value.1| < |flat|
  {
    match ParsePacket(flat)
    case None => Failure(StreamClosed)
    case Some((p, consumed)) => Success((p, flat[consumed..]))
  }

  /** `readPacket` off the stream is `parsePacket` of everything the stream will deliver. */
  method ReadPacket(reader: StreamReader) returns (r: Result<Packet, StreamError>)
    requires reader.Valid()
    modifies reader
    ensures reader.Valid()
    ensures match NextPacket(old(reader.Flat()))
            case Success((p, rest)) => r == Success(p) && reader.Flat() == rest
            case Failure(e) => r == Failure(e)
  {
    ghost var flat := reader.Flat();
    var header := reader.Read(4);
    if header.Failure? {
      return Failure(header.error);
    }
    var length := ReadLE24(header.value, 0);
    assert flat[..4] == header.value && ReadLE24(header.value, 0) == ReadLE24(flat, 0);
    var payload := reader.Read(length);
    if payload.Failure? {
      return Failure(payload.error);
    }
    assert flat[4..][..length] == flat[4..4 + length] && flat[4..][length..] == flat[4 + length..];
    return Success(Packet(header.value[3], payload.value));
  }

  function PacketFrames(ps: seq<Packet>): Data {
    if ps == [] then [] else PacketBytes(ps[0].payload, ps[0].sequenceId) + PacketFrames(ps[1..])
  }
}
