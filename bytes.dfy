/** Bytes and the unsigned 32-bit little-endian field, the one place the byte order is fixed. */
module Bytes {

  type Byte = b: int | 0 <= b < 0x100
  type Word32 = w: int | 0 <= w < 0x1_0000_0000

  const TwoTo32: int := 0x1_0000_0000

  /** Decodes four bytes as an unsigned little-endian 32-bit integer (struct format "<I"). */
  function UnpackU32(s: seq<Byte>): (w: Word32)
    requires |s| == 4
    ensures w >= 0x100_0000 * (s[3] as int)
    ensures w % 0x100 == s[0]
  {
    s[0] as int + 0x100 * (s[1] as int) + 0x1_0000 * (s[2] as int) + 0x100_0000 * (s[3] as int)
  }

  /** Encodes an unsigned 32-bit integer as four little-endian bytes; decoding gives it back. */
  function PackU32(w: Word32): (s: seq<Byte>)
    ensures |s| == 4
    ensures UnpackU32(s) == w
  {
    DigitsBase256(w);
    [w % 0x100, (w / 0x100) % 0x100, (w / 0x1_0000) % 0x100, w / 0x100_0000]
  }

  /** The four base-256 digits of a 32-bit word, low digit first, add back up to the word. */
  lemma DigitsBase256(w: Word32)
    ensures w / 0x100_0000 < 0x100
    ensures w == w % 0x100 + 0x100 * ((w / 0x100) % 0x100) + 0x1_0000 * ((w / 0x1_0000) % 0x100) +
                 0x100_0000 * (w / 0x100_0000)
  {
    var q1, q2, q3 := w / 0x100, w / 0x1_0000, w / 0x100_0000;
    assert q2 == q1 / 0x100;
    assert q3 == q2 / 0x100;
    assert w == w % 0x100 + 0x100 * q1;
    assert q1 == q1 % 0x100 + 0x100 * q2;
    assert q2 == q2 % 0x100 + 0x100 * q3;
  }

  /** Every four-byte string is the encoding of the integer it decodes to. */
  lemma PackUnpack(s: seq<Byte>)
    requires |s| == 4
    ensures PackU32(UnpackU32(s)) == s
  {
    var w := UnpackU32(s);
    assert w / 0x100 == s[1] as int + 0x100 * (s[2] as int) + 0x1_0000 * (s[3] as int);
    assert w / 0x1_0000 == s[2] as int + 0x100 * (s[3] as int);
    assert w / 0x100_0000 == s[3];
  }

  /** Reads the 32-bit field at byte offset `off`. */
  function U32At(s: seq<Byte>, off: nat): Word32
    requires off + 4 <= |s|
  {
    UnpackU32(s[off..off + 4])
  }
}
