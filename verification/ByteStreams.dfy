/**
  The two chunk queues under the database drivers. Each is a list of byte chunks
  with a cursor; each behaves as the flat byte string its chunks spell.
 */
module ByteStreams {
  import opened Bytes
  import opened Wrappers
  import opened Buffers

  datatype StreamError = StreamClosed | InvalidLength | Underflow

  function Concat(chunks: seq<Data>): Data {
    if chunks == [] then [] else chunks[0] + Concat(chunks[1..])
  }

  lemma {:induction false} ConcatSnoc(chunks: seq<Data>, last: Data)
    ensures Concat(chunks + [last]) == Concat(chunks) + last
  {
    if chunks == [] {
      assert [] + [last] == [last] && [last][1..] == [];
      assert Concat([last]) == last + Concat([]);
    } else {
      assert (chunks + [last])[1..] == chunks[1..] + [last];
      ConcatSnoc(chunks[1..], last);
      ConcatAssoc(chunks[0], Concat(chunks[1..]), last);
    }
  }

  lemma ConcatEmpty()
    ensures Concat([]) == []
  {
  }

  function Min(a: int, b: int): int {
    if a < b then a else b
  }

  /** The reader over a network stream; `incoming` is what the stream has yet to deliver before it closes. */
  class StreamReader {
    var chunks: seq<Data>
    var totalLength: nat
    var offset: nat
    var incoming: seq<Data>

    constructor (incoming: seq<Data>)
      ensures Valid() && Flat() == Concat(incoming) && Buffered() == []
    {
      chunks, totalLength, offset := [], 0, 0;
      this.incoming := incoming;
    }

    ghost predicate Valid()
      reads this
    {
      && (chunks == [] ==> offset == 0)
      && (chunks != [] ==> offset <= |chunks[0]|)
      && offset <= |Concat(chunks)|
      && totalLength == |Concat(chunks)| - offset
    }

    ghost function Buffered(): Data
      requires Valid()
      reads this
    {
      Concat(chunks)[offset..]
    }

    /** Every byte still to be read, however it is or will be chunked. */
    ghost function Flat(): Data
      requires Valid()
      reads this
    {
      Buffered() + Concat(incoming)
    }

    /** `read(len)`: the next bytes of the flat stream, or an exception that loses none of them. */
    method Read(len: int) returns (r: Result<Data, StreamError>)
      requires Valid()
      modifies this
      ensures Valid()
      ensures len < 0 ==> r == Failure(InvalidLength) && Flat() == old(Flat())
      ensures 0 <= len <= |old(Flat())| ==> r == Success(old(Flat())[..len]) && Flat() == old(Flat())[len..]
      ensures len > |old(Flat())| ==> r == Failure(StreamClosed) && Flat() == old(Flat())
    {
      while totalLength < len
        invariant Valid() && Flat() == old(Flat())
        decreases |incoming|
      {
        if incoming == [] {
          return Failure(StreamClosed);
        }
        var value := incoming[0];
        ConcatSnoc(chunks, value);
        ConcatAssoc(Buffered(), value, Concat(incoming[1..]));
        assert (Concat(chunks) + value)[offset..] == Buffered() + value;
        assert chunks != [] ==> (chunks + [value])[0] == chunks[0];
        chunks := chunks + [value];
        totalLength := totalLength + |value|;
        incoming := incoming[1..];
      }
      if len < 0 {
        return Failure(InvalidLength);
      }
      ghost var flat := Flat();
      var result := Consume(len);
      assert flat[..len] == result && flat[len..] == Flat();
      return Success(result);
    }

    lemma Opened()
      requires Valid()
      ensures Cursor(chunks, offset, Buffered(), 0) && |Buffered()| == totalLength
    {
    }

    lemma Stopped(flat: Data, copied: nat)
      requires Cursor(chunks, offset, flat, copied) && totalLength == |flat| - copied
      ensures Valid() && Buffered() == flat[copied..]
    {
    }

    /** `consume(bytes)`: copies chunk by chunk, dropping each chunk it exhausts. */
    method Consume(bytes: nat) returns (r: Data)
      requires Valid() && bytes <= totalLength
      modifies this`chunks, this`totalLength, this`offset
      ensures Valid() && r == old(Buffered())[..bytes] && Buffered() == old(Buffered())[bytes..]
    {
      hide Concat, Cursor;
      ghost var flat := Buffered();
      Opened();
      var result := new Byte[bytes](_ => 0);
      var copied := 0;
      while copied < bytes
        invariant 0 <= copied <= bytes <= |flat| && totalLength == old(totalLength)
        invariant Cursor(chunks, offset, flat, copied)
        invariant result[..copied] == flat[..copied]
        decreases bytes - copied, |chunks|
      {
        MoreThere(chunks, offset, flat, copied);
        var chunk := chunks[0];
        var available := |chunk| - offset;
        var toCopy := Min(available, bytes - copied);
        MoveOn(chunks, offset, toCopy, flat, copied);
        SetBytes(result, copied, chunk[offset..offset + toCopy]);
        copied := copied + toCopy;
        offset := offset + toCopy;
        if offset == |chunk| {
          chunks := chunks[1..];
          offset := 0;
        }
      }
      totalLength := totalLength - bytes;
      Stopped(flat, bytes);
      assert result[..] == result[..bytes];
      return result[..];
    }

    /** `peek(len)`: the buffered bytes a following read would return; null while too few are buffered. */
    method Peek(len: nat) returns (r: Option<Data>)
      requires Valid()
      ensures r == if len <= |Buffered()| then Some(Flat()[..len]) else None
    {
      hide Concat;
      ConcatEmpty();
      if totalLength < len {
        return None;
      }
      ghost var flat := Buffered();
      var res := new Byte[len](_ => 0);
      var copied := 0;
      var chunkIdx := 0;
      var currentOffset := offset;
      assert chunks[0..] == chunks && chunks[|chunks|..] == [];
      while copied < len
        invariant 0 <= copied <= len <= |flat| && 0 <= chunkIdx <= |chunks| && 0 <= currentOffset
        invariant copied < len ==>
            && currentOffset <= |Concat(chunks[chunkIdx..])|
            && (chunkIdx < |chunks| ==> currentOffset <= |chunks[chunkIdx]|)
            && (chunkIdx == |chunks| ==> currentOffset == 0)
            && Concat(chunks[chunkIdx..])[currentOffset..] == flat[copied..]
        invariant res[..copied] == flat[..copied]
        decreases |chunks| - chunkIdx
      {
        var chunk := chunks[chunkIdx];
        var available := |chunk| - currentOffset;
        var toCopy := Min(available, len - copied);
        assert chunks[chunkIdx..][1..] == chunks[chunkIdx + 1..];
        FirstPart(chunks[chunkIdx..], currentOffset, toCopy, flat, copied);
        SetBytes(res, copied, chunk[currentOffset..currentOffset + toCopy]);
        copied := copied + toCopy;
        chunkIdx := chunkIdx + 1;
        currentOffset := 0;
      }
      assert Flat()[..len] == flat[..len];
      assert res[..] == res[..len];
      return Some(res[..]);
    }
  }

  /**
    With the cursor at `offset` of the first chunk and the rest spelling
    `flat[copied..]`: the next `n` bytes of the chunk are the next `n` of `flat`,
    and the cursor may move past them, or to the next chunk once this one is used up.
   */
  lemma FirstPart(chunks: seq<Data>, offset: nat, n: nat, flat: Data, copied: nat)
    requires chunks != [] && offset + n <= |chunks[0]| && offset <= |Concat(chunks)|
    requires copied <= |flat| && Concat(chunks)[offset..] == flat[copied..]
    ensures copied + n <= |flat| && offset + n <= |Concat(chunks)|
    ensures flat[..copied] + chunks[0][offset..offset + n] == flat[..copied + n]
    ensures Concat(chunks)[offset + n..] == flat[copied + n..]
    ensures offset + n == |chunks[0]| ==> Concat(chunks[1..])[0..] == flat[copied + n..]
  {
    var rest := Concat(chunks[1..]);
    assert Concat(chunks) == chunks[0] + rest;
    var tail := flat[copied..];
    assert tail[..n] == chunks[0][offset..offset + n];
    assert flat[..copied + n] == flat[..copied] + tail[..n];
    assert tail[n..] == flat[copied + n..];
    assert Concat(chunks)[offset + n..] == Concat(chunks)[offset..][n..];
    if offset + n == |chunks[0]| {
      assert (chunks[0] + rest)[|chunks[0]|..] == rest;
    }
  }

  /** The cursor is at `offset` of the first chunk, and what follows it is `flat` from `copied` on. */
  ghost predicate Cursor(chunks: seq<Data>, offset: nat, flat: Data, copied: nat) {
    && (chunks == [] ==> offset == 0)
    && (chunks != [] ==> offset <= |chunks[0]|)
    && offset <= |Concat(chunks)| && copied <= |flat|
    && Concat(chunks)[offset..] == flat[copied..]
  }

  lemma MoreThere(chunks: seq<Data>, offset: nat, flat: Data, copied: nat)
    requires Cursor(chunks, offset, flat, copied) && copied < |flat|
    ensures chunks != [] && offset <= |chunks[0]|
  {
    hide Concat;
    ConcatEmpty();
  }

  /** Taking n bytes moves the cursor within the chunk, or to the next one if that was all of it. */
  lemma MoveOn(chunks: seq<Data>, offset: nat, n: nat, flat: Data, copied: nat)
    requires Cursor(chunks, offset, flat, copied) && chunks != [] && offset + n <= |chunks[0]|
    ensures copied + n <= |flat| && flat[..copied] + chunks[0][offset..offset + n] == flat[..copied + n]
    ensures if offset + n == |chunks[0]| then Cursor(chunks[1..], 0, flat, copied + n)
            else Cursor(chunks, offset + n, flat, copied + n)
  {
    hide Concat;
    FirstPart(chunks, offset, n, flat, copied);
  }

  /** The in-memory buffer queue, which replaces a chunk by its unread tail. */
  class IOBuffer {
    var chunks: seq<Data>
    var totalLength: nat

    constructor ()
      ensures Valid() && Contents() == []
    {
      chunks, totalLength := [], 0;
    }

    ghost predicate Valid()
      reads this
    {
      totalLength == |Concat(chunks)|
    }

    ghost function Contents(): Data
      reads this
    {
      Concat(chunks)
    }

    method Append(chunk: Data)
      requires Valid()
      modifies this
      ensures Valid() && Contents() == old(Contents()) + chunk
    {
      ConcatSnoc(chunks, chunk);
      chunks := chunks + [chunk];
      totalLength := totalLength + |chunk|;
    }

    /** `consume(bytes)`: the next bytes of the flat contents, or an exception that changes nothing. */
    method Consume(bytes: nat) returns (r: Result<Data, StreamError>)
      requires Valid()
      modifies this
      ensures Valid()
      ensures bytes <= |old(Contents())| ==>
        r == Success(old(Contents())[..bytes]) && Contents() == old(Contents())[bytes..]
      ensures bytes > |old(Contents())| ==> r == Failure(Underflow) && Contents() == old(Contents())
    {
      if totalLength < bytes {
        return Failure(Underflow);
      }
      hide Concat, Cursor;
      var result := new Byte[bytes](_ => 0);
      var offset := 0;
      ghost var flat := Contents();
      Whole(chunks, flat, 0);
      while offset < bytes
        invariant 0 <= offset <= bytes <= |flat| && totalLength == old(totalLength)
        invariant Cursor(chunks, 0, flat, offset)
        invariant result[..offset] == flat[..offset]
        decreases |chunks|, bytes - offset
      {
        MoreThere(chunks, 0, flat, offset);
        var first := chunks[0];
        var remainingNeeded := bytes - offset;
        if |first| <= remainingNeeded {
          MoveOn(chunks, 0, |first|, flat, offset);
          assert first[0..0 + |first|] == first;
          SetBytes(result, offset, first);
          offset := offset + |first|;
          chunks := chunks[1..];
        } else {
          MoveOn(chunks, 0, remainingNeeded, flat, offset);
          ReplaceFirst(chunks, remainingNeeded, flat, offset + remainingNeeded);
          SetBytes(result, offset, first[0..remainingNeeded]);
          chunks := chunks[0 := first[remainingNeeded..]];
          offset := offset + remainingNeeded;
        }
      }
      totalLength := totalLength - bytes;
      Whole(chunks, flat, bytes);
      assert result[..] == result[..bytes];
      return Success(result[..]);
    }
  }

  lemma Whole(chunks: seq<Data>, flat: Data, copied: nat)
    ensures Cursor(chunks, 0, flat, copied) <==> copied <= |flat| && Concat(chunks) == flat[copied..]
  {
    hide Concat;
    assert Concat(chunks)[0..] == Concat(chunks);
  }

  /** Cutting off the used part of the first chunk instead of moving the cursor. */
  lemma ReplaceFirst(chunks: seq<Data>, n: nat, flat: Data, copied: nat)
    requires chunks != [] && n < |chunks[0]| && Cursor(chunks, n, flat, copied)
    ensures Cursor(chunks[0 := chunks[0][n..]], 0, flat, copied)
  {
    var shorter := chunks[0 := chunks[0][n..]];
    assert shorter[1..] == chunks[1..];
    assert Concat(chunks) == chunks[0] + Concat(chunks[1..]);
    assert Concat(shorter) == chunks[0][n..] + Concat(chunks[1..]);
  }
}
