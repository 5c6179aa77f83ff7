/** Filling a fixed-size, zero-initialised byte buffer at a running offset. */
module Buffers {
  import opened Bytes

  /** `result.set(part, at)` */
  method SetBytes(result: array<Byte>, at: nat, part: Data)
    requires at + |part| <= result.Length
    modifies result
    ensures result[..at + |part|] == old(result[..at]) + part
    ensures result[at + |part|..] == old(result[at + |part|..])
  {
    forall k | 0 <= k < |part| {
      result[at + k] := part[k];
    }
    assert result[..at] == old(result[..at]) && result[at..at + |part|] == part;
    assert result[..at + |part|] == result[..at] + result[at..at + |part|];
  }

  /** The buffer is filled up to `offset` with `written` and still zero beyond. */
  ghost predicate Filled(buffer: array<Byte>, offset: nat, written: Data)
    reads buffer
  {
    && offset <= buffer.Length
    && buffer[..offset] == written
    && forall k :: offset <= k < buffer.Length ==> buffer[k] == 0
  }

  /** Stores `part` at the running offset. */
  method Put(buffer: array<Byte>, offset: nat, part: Data, ghost written: Data) returns (next: nat)
    requires Filled(buffer, offset, written) && offset + |part| <= buffer.Length
    modifies buffer
    ensures next == offset + |part| && Filled(buffer, next, written + part)
  {
    SetBytes(buffer, offset, part);
    next := offset + |part|;
    forall k | next <= k < buffer.Length
      ensures buffer[k] == 0
    {
      assert buffer[next..][k - next] == old(buffer[next..])[k - next];
    }
  }

  /** Stores `part` and steps over the byte after it, which is still zero: a C string. */
  method PutCString(buffer: array<Byte>, offset: nat, part: Data, ghost written: Data) returns (next: nat)
    requires Filled(buffer, offset, written) && offset + |part| + 1 <= buffer.Length
    modifies buffer
    ensures next == offset + |part| + 1 && Filled(buffer, next, written + part + [0])
  {
    next := Put(buffer, offset, part, written);
    assert buffer[..next + 1] == buffer[..next] + [buffer[next]];
    next := next + 1;
  }
}
