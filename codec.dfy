/**
 * The field codec: bytes to printable text and back. Decoding may fail.
 * The board's Base64 coder is replaced by a lower-case hexadecimal coder;
 * the board relies only on the round trip and on decoding being partial.
 */
module Codec {
  import opened Wrappers
  import opened Charset

  function HexDigit(v: nat): (c: char)
    requires v < 16
  {
    if v < 10 then ('0' as int + v) as char else ('a' as int + v - 10) as char
  }

  function HexValue(c: char): (v: Option<nat>)
    ensures v.Some? ==> v.value < 16 && HexDigit(v.value) == c
  {
    if '0' <= c <= '9' then Some(c as int - '0' as int)
    else if 'a' <= c <= 'f' then Some(c as int - 'a' as int + 10)
    else None
  }

  function Encode(b: seq<byte>): (s: string)
    ensures |s| == 2 * |b|
  {
    seq(2 * |b|, i requires 0 <= i < 2 * |b| => HexDigit(if i % 2 == 0 then b[i / 2] / 16 else b[i / 2] % 16))
  }

  /** None when the text has odd length or a character outside the alphabet. */
  function Decode(s: string): (r: Option<seq<byte>>)
    ensures r.Some? ==> 2 * |r.value| == |s|
  {
    if |s| == 0 then Some([])
    else if |s| == 1 then None
    else match (HexValue(s[0]), HexValue(s[1]), Decode(s[2..]))
      case (Some(h), Some(l), Some(rest)) => Some([(h * 16 + l) as byte] + rest)
      case _ => None
  }

  lemma EncodeTail(b: seq<byte>)
    requires |b| > 0
    ensures Encode(b)[2..] == Encode(b[1..])
    ensures Encode(b)[0] == HexDigit(b[0] / 16) && Encode(b)[1] == HexDigit(b[0] % 16)
  {
    var s, t := Encode(b), Encode(b[1..]);
    forall i | 0 <= i < |t|
      ensures s[2 + i] == t[i]
    {
      assert (2 + i) / 2 == i / 2 + 1 && (2 + i) % 2 == i % 2;
    }
  }

  lemma {:induction false} DecodeEncode(b: seq<byte>)
    ensures Decode(Encode(b)) == Some(b)
  {
    if |b| > 0 {
      var s := Encode(b);
      EncodeTail(b);
      assert HexValue(HexDigit(b[0] / 16)) == Some(b[0] / 16);
      assert HexValue(HexDigit(b[0] % 16)) == Some(b[0] % 16);
      DecodeEncode(b[1..]);
      assert b == [b[0]] + b[1..];
    }
  }

  /** Every text that decodes is the encoding of what it decodes to. */
  lemma {:induction false} EncodeDecode(s: string)
    requires Decode(s).Some?
    ensures Encode(Decode(s).value) == s
  {
    if |s| > 0 {
      var h, l, rest := HexValue(s[0]).value, HexValue(s[1]).value, Decode(s[2..]).value;
      var b := Decode(s).value;
      assert b[0] == h * 16 + l && b[1..] == rest;
      assert b[0] / 16 == h && b[0] % 16 == l;
      EncodeDecode(s[2..]);
      EncodeTail(b);
      var e := Encode(b);
      assert e == e[..2] + e[2..] && e[..2] == [s[0], s[1]];
      assert s == [s[0], s[1]] + s[2..];
    }
  }
}
