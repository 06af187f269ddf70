/**
 * Text to bytes and back: String.getBytes() and new String(byte[]).
 * The platform's default charset is replaced by a fixed charset that
 * writes every character as three bytes (its scalar value, big-endian)
 * and decodes a malformed group as U+FFFD, as Java does.
 */
module Charset {

  type byte = x: int | 0 <= x < 256

  const Replacement: char := '�'

  predicate IsScalar(v: int) {
    0 <= v < 0xD800 || 0xE000 <= v < 0x11_0000
  }

  function ByteAt(v: int, j: int): byte
    requires 0 <= v < 0x11_0000
  {
    if j == 0 then v / 0x1_0000 else if j == 1 then v % 0x1_0000 / 0x100 else v % 0x100
  }

  /** String.getBytes(). */
  function Bytes(s: string): (b: seq<byte>)
    ensures |b| == 3 * |s|
  {
    seq(3 * |s|, i requires 0 <= i < 3 * |s| => ByteAt(s[i / 3] as int, i % 3))
  }

  /** new String(byte[]): never fails, a malformed group reads as U+FFFD. */
  function Text(b: seq<byte>): string {
    if |b| == 0 then ""
    else if |b| < 3 then [Replacement]
    else
      var v := b[0] as int * 0x1_0000 + b[1] as int * 0x100 + b[2] as int;
      (if IsScalar(v) then [v as char] else [Replacement]) + Text(b[3..])
  }

  /** The three bytes of a character's group read back as its scalar value. */
  lemma ByteGroup(v: int)
    requires 0 <= v < 0x11_0000
    ensures ByteAt(v, 0) * 0x1_0000 + ByteAt(v, 1) * 0x100 + ByteAt(v, 2) == v
  {
  }

  lemma BytesTail(s: string)
    requires |s| > 0
    ensures Bytes(s)[3..] == Bytes(s[1..])
  {
    var b, t := Bytes(s), Bytes(s[1..]);
    forall i | 0 <= i < |t|
      ensures b[3 + i] == t[i]
    {
      assert (3 + i) / 3 == i / 3 + 1 && (3 + i) % 3 == i % 3;
    }
  }

  lemma {:induction false} TextOfBytes(s: string)
    ensures Text(Bytes(s)) == s
  {
    if |s| > 0 {
      var v := s[0] as int;
      var b := Bytes(s);
      BytesTail(s);
      assert b[0] == ByteAt(v, 0) && b[1] == ByteAt(v, 1) && b[2] == ByteAt(v, 2);
      ByteGroup(v);
      TextOfBytes(s[1..]);
      assert s == [s[0]] + s[1..];
    }
  }
}
