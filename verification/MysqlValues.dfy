/** MySQL's length-encoded integers and null bitmaps. */
module MysqlValues {
  import opened Bytes
  import opened Wrappers

  // ----- length-encoded integers -----

  /** `writeLenEnc`; lengths past 32 bits lose their high part. */
  function LenEnc(n: nat): (r: Data)
    ensures |r| == LenEncLength(n)
  {
    if n < 251 then [n]
    else if n < 65536 then [0xfc] + LE16(n)
    else if n < 16777216 then [0xfd] + LE24(n)
    else [0xfe] + LE32(n) + LE32(0)
  }

  /** `lenEncLength` */
  function LenEncLength(n: nat): nat {
    if n < 251 then 1 else if n < 65536 then 3 else if n < 16777216 then 4 else 9
  }

  /** The length in bytes: itself below 251, or a prefix and two, three or eight bytes, the lowest first. */
  lemma LenEncLayout(n: nat)
    ensures n < 251 ==> LenEnc(n) == [n]
    ensures 251 <= n < 0x1_0000 ==> LenEnc(n)[0] == 0xfc && |LenEnc(n)| == 3 && LittleEndian(LenEnc(n)[1..]) == n
    ensures 0x1_0000 <= n < 0x100_0000 ==>
      LenEnc(n)[0] == 0xfd && |LenEnc(n)| == 4 && LittleEndian(LenEnc(n)[1..]) == n
    ensures n >= 0x100_0000 ==>
      && LenEnc(n)[0] == 0xfe && |LenEnc(n)| == 9
      && LittleEndian(LenEnc(n)[1..5]) == n % 0x1_0000_0000 && LenEnc(n)[5..] == [0, 0, 0, 0]
  {
    hide LE16, LE24, LittleEndian;
    WordsWritten(n);
    SmallRemainder(n);
    var r := LenEnc(n);
    if 251 <= n < 65536 {
      assert r[1..] == LE16(n);
    } else if 65536 <= n < 16777216 {
      assert r[1..] == LE24(n);
    } else if n >= 16777216 {
      assert r[1..5] == LE32(n) && r[5..] == LE32(0);
    }
  }

  datatype Length = Length(value: nat, bytes: nat)

  /**
    `readLenEnc`: None stands for the exception of reading past the buffer. Past
    the end it answers an empty length of no bytes; a three-byte length is read as
    four bytes and masked.
   */
  function ReadLenEnc(buf: Data, at: nat): (r: Option<Length>) {
    if at >= |buf| then Some(Length(0, 0))
    else if buf[at] < 251 then Some(Length(buf[at], 1))
    else if buf[at] == 0xfc then
      if at + 3 > |buf| then None else Some(Length(ReadLE16(buf, at + 1), 3))
    else if buf[at] == 0xfd then
      if at + 5 > |buf| then None else Some(Length(ReadLE32(buf, at + 1) % TWO_TO_24, 4))
    else if buf[at] == 0xfe then
      if at + 9 > |buf| then None
      else Some(Length(ReadLE32(buf, at + 1) + TWO_TO_32 * ReadLE32(buf, at + 5), 9))
    else Some(Length(0, 1))
  }

  lemma Masked(buf: Data, at: nat)
    requires at + 4 <= |buf|
    ensures ReadLE32(buf, at) % TWO_TO_24 == ReadLE24(buf, at)
  {
    Remainder(ReadLE32(buf, at), TWO_TO_24, buf[at + 3], ReadLE24(buf, at));
  }

  lemma TagThenWord(buf: Data, at: nat, tag: Byte, word: Data)
    requires At(buf, at, [tag] + word)
    ensures at < |buf| && buf[at] == tag && At(buf, at + 1, word)
  {
    AtConcat(buf, at, [tag], word);
    assert buf[at..at + 1] == [tag];
  }

  lemma LongLength(buf: Data, at: nat, n: nat)
    requires At(buf, at, [0xfe] + LE32(n) + LE32(0))
    ensures ReadLenEnc(buf, at) == Some(Length(n % TWO_TO_32, 9))
  {
    hide LE32, ReadLE32;
    AtConcat(buf, at, [0xfe] + LE32(n), LE32(0));
    TagThenWord(buf, at, 0xfe, LE32(n));
    WordRoundTrip(buf, at + 1, n);
    WordRoundTrip(buf, at + 5, 0);
  }

  lemma OneByteLength(buf: Data, at: nat, n: nat)
    requires n < 251 && At(buf, at, [n])
    ensures ReadLenEnc(buf, at) == Some(Length(n, 1))
  {
    assert buf[at..at + 1] == [n];
  }

  lemma TwoByteLength(buf: Data, at: nat, n: nat)
    requires n < 65536 && At(buf, at, [0xfc] + LE16(n))
    ensures ReadLenEnc(buf, at) == Some(Length(n, 3))
  {
    hide LE16, ReadLE16, LE24, LE32, BE16, BE32;
    TagThenWord(buf, at, 0xfc, LE16(n));
    WordRoundTrip(buf, at + 1, n);
    SmallRemainder(n);
  }

  lemma ThreeByteLength(buf: Data, at: nat, n: nat)
    requires n < 16777216 && At(buf, at, [0xfd] + LE24(n)) && at + 5 <= |buf|
    ensures ReadLenEnc(buf, at) == Some(Length(n, 4))
  {
    hide LE16, LE24, LE32, BE16, BE32, ReadLE24, ReadLE32;
    TagThenWord(buf, at, 0xfd, LE24(n));
    WordRoundTrip(buf, at + 1, n);
    Masked(buf, at + 1);
    SmallRemainder(n);
  }

  /**
    A length followed by that much data is read back exactly, if and only if it is
    below 2^32.
   */
  lemma LenEncRoundTrip(buf: Data, at: nat, n: nat)
    requires At(buf, at, LenEnc(n)) && at + |LenEnc(n)| + n <= |buf|
    ensures ReadLenEnc(buf, at) == Some(Length(n, |LenEnc(n)|)) <==> n < TWO_TO_32
  {
    hide At, LE16, LE24, LE32, ReadLenEnc;
    if n < 251 {
      OneByteLength(buf, at, n);
    } else if n < 65536 {
      TwoByteLength(buf, at, n);
    } else if n < 16777216 {
      ThreeByteLength(buf, at, n);
    } else {
      LongLength(buf, at, n);
      SmallRemainder(n);
    }
  }

  // ----- bits of a byte -----

  /** `(b & (1 << k)) !== 0` */
  predicate Bit(b: nat, k: nat) {
    if k == 0 then b % 2 == 1 else Bit(b / 2, k - 1)
  }

  /** `b | (1 << k)` */
  function SetBit(b: nat, k: nat): nat {
    if k == 0 then (if b % 2 == 1 then b else b + 1)
    else 2 * SetBit(b / 2, k - 1) + b % 2
  }

  /** The number whose bit `j` is set exactly when `flags[j]` is. */
  function Pack(flags: seq<bool>): nat {
    if flags == [] then 0 else (if flags[0] then 1 else 0) + 2 * Pack(flags[1..])
  }

  lemma {:induction false} PackBit(flags: seq<bool>, k: nat)
    ensures Bit(Pack(flags), k) <==> k < |flags| && flags[k]
    decreases k
  {
    if flags == [] {
      ZeroBit(k);
    } else if k > 0 {
      assert Pack(flags) / 2 == Pack(flags[1..]);
      PackBit(flags[1..], k - 1);
    }
  }

  lemma {:induction false} ZeroBit(k: nat)
    ensures !Bit(0, k)
  {
    if k > 0 {
      ZeroBit(k - 1);
    }
  }

  lemma {:induction false} PackSet(flags: seq<bool>, k: nat)
    requires k < |flags|
    ensures SetBit(Pack(flags), k) == Pack(flags[k := true])
    decreases k
  {
    if k == 0 {
      assert flags[0 := true][1..] == flags[1..];
    } else {
      assert Pack(flags) / 2 == Pack(flags[1..]) && Pack(flags) % 2 == (if flags[0] then 1 else 0);
      PackSet(flags[1..], k - 1);
      assert flags[k := true][1..] == flags[1..][k - 1 := true];
    }
  }

  lemma {:induction false} PackBelow(flags: seq<bool>)
    ensures |flags| <= 8 ==> Pack(flags) < 256
    ensures |flags| <= 7 ==> Pack(flags) < 128
    ensures |flags| <= 6 ==> Pack(flags) < 64
    ensures |flags| <= 5 ==> Pack(flags) < 32
    ensures |flags| <= 4 ==> Pack(flags) < 16
    ensures |flags| <= 3 ==> Pack(flags) < 8
    ensures |flags| <= 2 ==> Pack(flags) < 4
    ensures |flags| <= 1 ==> Pack(flags) < 2
    ensures |flags| <= 0 ==> Pack(flags) < 1
  {
    if flags != [] {
      PackBelow(flags[1..]);
    }
  }
}
