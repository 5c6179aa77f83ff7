/**
  Bytes, fixed-width integers and flat byte strings.

  JavaScript's `(v >> 8k) & 0xff` on an int32 is floor division followed by a
  non-negative remainder, which is what Dafny's `/` and `%` compute for a
  positive divisor; an `|` of bytes shifted to disjoint places is their sum.
 */
module Bytes {
  type Byte = x: int | 0 <= x < 256
  type Data = seq<Byte>

  const TWO_TO_16 := 0x1_0000
  const TWO_TO_24 := 0x100_0000
  const TWO_TO_31 := 0x8000_0000
  const TWO_TO_32 := 0x1_0000_0000

  type Int32 = v: int | -TWO_TO_31 <= v < TWO_TO_31

  /** `bytes` occurs in `buf` at `pos`. */
  predicate At(buf: Data, pos: nat, bytes: Data) {
    pos + |bytes| <= |buf| && buf[pos..pos + |bytes|] == bytes
  }

  lemma AtConcat(buf: Data, pos: nat, a: Data, b: Data)
    ensures At(buf, pos, a + b) <==> At(buf, pos, a) && At(buf, pos + |a|, b)
  {
    if pos + |a + b| <= |buf| {
      var window := buf[pos..pos + |a + b|];
      assert window[..|a|] == buf[pos..pos + |a|];
      assert window[|a|..] == buf[pos + |a|..pos + |a| + |b|];
      assert window == window[..|a|] + window[|a|..];
      assert (a + b)[..|a|] == a && (a + b)[|a|..] == b;
    }
  }

  lemma ConcatAssoc(a: Data, b: Data, c: Data)
    ensures a + b + c == a + (b + c)
  {
  }

  /**
    `TextDecoder.decode` of well-formed UTF-8, strings being identified with their
    UTF-8 bytes: a leading byte order mark is dropped, everything else is kept.
   */
  function DecodeUtf8(d: Data): (r: Data)
    ensures |r| <= |d|
  {
    if |d| >= 3 && d[..3] == [0xEF, 0xBB, 0xBF] then d[3..] else d
  }

  // ----- little and big endian words -----

  /** `v >> 8`; shifting by 16 or 24 is shifting by 8 twice or three times. */
  function Shr8(v: int): int {
    v / 256
  }

  function LE16(v: int): (r: Data)
    ensures |r| == 2
  {
    [v % 256, Shr8(v) % 256]
  }

  function LE24(v: int): (r: Data)
    ensures |r| == 3
  {
    [v % 256, Shr8(v) % 256, Shr8(Shr8(v)) % 256]
  }

  function LE32(v: int): (r: Data)
    ensures |r| == 4
  {
    [v % 256, Shr8(v) % 256, Shr8(Shr8(v)) % 256, Shr8(Shr8(Shr8(v))) % 256]
  }

  function BE16(v: int): (r: Data)
    ensures |r| == 2
  {
    [Shr8(v) % 256, v % 256]
  }

  function BE32(v: int): (r: Data)
    ensures |r| == 4
  {
    [Shr8(Shr8(Shr8(v))) % 256, Shr8(Shr8(v)) % 256, Shr8(v) % 256, v % 256]
  }

  /** Little-endian combination of four byte values. */
  function Word(b0: int, b1: int, b2: int, b3: int): int {
    b0 + 256 * b1 + 65536 * b2 + 16777216 * b3
  }

  function ReadLE16(b: Data, i: nat): (r: int)
    requires i + 2 <= |b|
    ensures 0 <= r < TWO_TO_16
  {
    Word(b[i], b[i + 1], 0, 0)
  }

  function ReadLE24(b: Data, i: nat): (r: int)
    requires i + 3 <= |b|
    ensures 0 <= r < TWO_TO_24
  {
    Word(b[i], b[i + 1], b[i + 2], 0)
  }

  function ReadLE32(b: Data, i: nat): (r: int)
    requires i + 4 <= |b|
    ensures 0 <= r < TWO_TO_32
  {
    Word(b[i], b[i + 1], b[i + 2], b[i + 3])
  }

  function ReadBE16(b: Data, i: nat): (r: int)
    requires i + 2 <= |b|
    ensures 0 <= r < TWO_TO_16
  {
    Word(b[i + 1], b[i], 0, 0)
  }

  function ReadBE32(b: Data, i: nat): (r: int)
    requires i + 4 <= |b|
    ensures 0 <= r < TWO_TO_32
  {
    Word(b[i + 3], b[i + 2], b[i + 1], b[i])
  }

  /** The signed reading of a 32-bit word, as `|` and `<<` give it without `>>> 0`. */
  function Signed32(word: int): (r: Int32)
    requires 0 <= word < TWO_TO_32
  {
    if word < TWO_TO_31 then word else word - TWO_TO_32
  }

  lemma WordOfShifts(v: int)
    ensures Word(v % 256, Shr8(v) % 256, 0, 0) == v % TWO_TO_16
    ensures Word(v % 256, Shr8(v) % 256, Shr8(Shr8(v)) % 256, 0) == v % TWO_TO_24
    ensures Word(v % 256, Shr8(v) % 256, Shr8(Shr8(v)) % 256, Shr8(Shr8(Shr8(v))) % 256) == v % TWO_TO_32
  {
    var q0, r0 := v / 256, v % 256;
    var q1, r1 := q0 / 256, q0 % 256;
    var q2, r2 := q1 / 256, q1 % 256;
    var q3, r3 := q2 / 256, q2 % 256;
    Remainder(v, TWO_TO_16, q1, Word(r0, r1, 0, 0));
    Remainder(v, TWO_TO_24, q2, Word(r0, r1, r2, 0));
    Remainder(v, TWO_TO_32, q3, Word(r0, r1, r2, r3));
  }

  lemma Remainder(v: int, m: int, q: int, r: int)
    requires 0 <= r < m && v == m * q + r
    ensures v % m == r
  {
    var d := q - v / m;
    assert m * d == v % m - r;
  }

  lemma WordRoundTrip(buf: Data, pos: nat, v: int)
    ensures At(buf, pos, LE16(v)) ==> ReadLE16(buf, pos) == v % TWO_TO_16
    ensures At(buf, pos, LE24(v)) ==> ReadLE24(buf, pos) == v % TWO_TO_24
    ensures At(buf, pos, LE32(v)) ==> ReadLE32(buf, pos) == v % TWO_TO_32
    ensures At(buf, pos, BE16(v)) ==> ReadBE16(buf, pos) == v % TWO_TO_16
    ensures At(buf, pos, BE32(v)) ==> ReadBE32(buf, pos) == v % TWO_TO_32
  {
    WordOfShifts(v);
    AtBytes(buf, pos, LE16(v));
    AtBytes(buf, pos, LE24(v));
    AtBytes(buf, pos, LE32(v));
    AtBytes(buf, pos, BE16(v));
    AtBytes(buf, pos, BE32(v));
    if At(buf, pos, LE16(v)) {
      assert buf[pos + 0] == LE16(v)[0] && buf[pos + 1] == LE16(v)[1];
    }
    if At(buf, pos, LE24(v)) {
      assert buf[pos + 0] == LE24(v)[0] && buf[pos + 1] == LE24(v)[1] && buf[pos + 2] == LE24(v)[2];
    }
    if At(buf, pos, LE32(v)) {
      assert buf[pos + 0] == LE32(v)[0] && buf[pos + 1] == LE32(v)[1];
      assert buf[pos + 2] == LE32(v)[2] && buf[pos + 3] == LE32(v)[3];
    }
    if At(buf, pos, BE16(v)) {
      assert buf[pos + 0] == BE16(v)[0] && buf[pos + 1] == BE16(v)[1];
    }
    if At(buf, pos, BE32(v)) {
      assert buf[pos + 0] == BE32(v)[0] && buf[pos + 1] == BE32(v)[1];
      assert buf[pos + 2] == BE32(v)[2] && buf[pos + 3] == BE32(v)[3];
    }
  }

  lemma AtBytes(buf: Data, pos: nat, bytes: Data)
    ensures At(buf, pos, bytes) ==> forall k :: 0 <= k < |bytes| ==> buf[pos + k] == bytes[k]
  {
    if At(buf, pos, bytes) {
      forall k | 0 <= k < |bytes|
        ensures buf[pos + k] == bytes[k]
      {
        assert buf[pos..pos + |bytes|][k] == bytes[k];
      }
    }
  }

  lemma ShortRoundTrip(buf: Data, pos: nat, v: nat)
    requires At(buf, pos, BE16(v)) && v < TWO_TO_16
    ensures pos + 2 <= |buf| && ReadBE16(buf, pos) == v
  {
    hide LE16, LE24, LE32, BE16, BE32, ReadLE16, ReadLE24, ReadLE32, ReadBE16, ReadBE32;
    WordRoundTrip(buf, pos, v);
    SmallRemainder(v);
  }

  lemma LengthRoundTrip(buf: Data, pos: nat, v: int)
    requires At(buf, pos, BE32(v))
    ensures pos + 4 <= |buf|
    ensures 0 <= v < TWO_TO_32 ==> ReadBE32(buf, pos) == v
    ensures v == -1 ==> ReadBE32(buf, pos) == TWO_TO_32 - 1
  {
    hide LE16, LE24, LE32, BE16, BE32, ReadLE16, ReadLE24, ReadLE32, ReadBE16, ReadBE32;
    WordRoundTrip(buf, pos, v);
    if v >= 0 {
      SmallRemainder(v);
    }
  }

  lemma SmallRemainder(v: nat)
    ensures v < TWO_TO_16 ==> v % TWO_TO_16 == v
    ensures v < TWO_TO_24 ==> v % TWO_TO_24 == v
    ensures v < TWO_TO_32 ==> v % TWO_TO_32 == v
  {
  }

  // ----- the numbers that byte strings stand for -----

  /** The number these bytes are, the highest first. */
  function BigEndian(d: Data): (r: nat)
    decreases |d|
  {
    if d == [] then 0 else 256 * BigEndian(d[..|d| - 1]) + d[|d| - 1]
  }

  /** The number these bytes are, the lowest first. */
  function LittleEndian(d: Data): (r: nat)
    decreases |d|
  {
    if d == [] then 0 else d[0] + 256 * LittleEndian(d[1..])
  }

  lemma FourBytes(a: Byte, b: Byte, c: Byte, d: Byte)
    ensures BigEndian([a, b]) == LittleEndian([b, a]) == Word(b, a, 0, 0)
    ensures LittleEndian([a, b, c]) == Word(a, b, c, 0)
    ensures BigEndian([a, b, c, d]) == LittleEndian([d, c, b, a]) == Word(d, c, b, a)
  {
    assert [a, b, c, d][..3] == [a, b, c] && [a, b, c][..2] == [a, b] && [a, b][..1] == [a] && [a][..0] == [];
    assert [d, c, b, a][1..] == [c, b, a] && [c, b, a][1..] == [b, a] && [b, a][1..] == [a] && [a][1..] == [];
    assert [a, b, c][1..] == [b, c] && [b, c][1..] == [c] && [c][1..] == [];
    assert BigEndian([a]) == a && LittleEndian([a]) == a && LittleEndian([c]) == c;
    assert BigEndian([a, b]) == 256 * a + b && BigEndian([a, b, c]) == 256 * (256 * a + b) + c;
    assert LittleEndian([b, a]) == b + 256 * a && LittleEndian([b, c]) == b + 256 * c;
  }

  /** The words written are the numbers they are meant to be, in two's complement where they are negative. */
  lemma WordsWritten(v: int)
    ensures BigEndian(BE16(v)) == LittleEndian(LE16(v)) == v % 0x1_0000
    ensures LittleEndian(LE24(v)) == v % 0x100_0000
    ensures BigEndian(BE32(v)) == LittleEndian(LE32(v)) == v % 0x1_0000_0000
  {
    hide BigEndian, LittleEndian;
    WordOfShifts(v);
    FourBytes(Shr8(v) % 256, v % 256, 0, 0);
    FourBytes(v % 256, Shr8(v) % 256, Shr8(Shr8(v)) % 256, 0);
    FourBytes(Shr8(Shr8(Shr8(v))) % 256, Shr8(Shr8(v)) % 256, Shr8(v) % 256, v % 256);
  }
}
