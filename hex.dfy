/**
 * Lower-case hexadecimal encoding of a byte string, as crypto-js's
 * `enc.Hex.stringify` writes it (high nibble first), and `enc.Hex.parse` on
 * well-formed input.
 */
module Hex {
  import opened Common

  newtype byte = x: int | 0 <= x < 256

  predicate IsHexDigit(c: char) {
    '0' <= c <= '9' || 'a' <= c <= 'f'
  }

  /** The lower-case digit for a nibble. */
  function HexChar(v: nat): (c: char)
    requires v < 16
    ensures IsHexDigit(c)
  {
    if v < 10 then ('0' as int + v) as char else ('a' as int + v - 10) as char
  }

  function NibbleValue(c: char): (v: nat)
    requires IsHexDigit(c)
    ensures v < 16 && HexChar(v) == c
  {
    if '0' <= c <= '9' then (c as int - '0' as int) as nat else (c as int - 'a' as int + 10) as nat
  }

  function Encode(bytes: seq<byte>): (r: string)
    ensures |r| == 2 * |bytes|
    ensures forall i :: 0 <= i < |r| ==> IsHexDigit(r[i])
  {
    if |bytes| == 0 then ""
    else [HexChar(bytes[0] as int / 16), HexChar(bytes[0] as int % 16)] + Encode(bytes[1..])
  }

  /** Parses pairs of hexadecimal digits; `None` for odd length or a non-digit. */
  function Parse(s: string): (r: Option<seq<byte>>)
    ensures r.Some? ==> 2 * |r.value| == |s|
    decreases |s|
  {
    if |s| == 0 then Some([])
    else if |s| == 1 || !IsHexDigit(s[0]) || !IsHexDigit(s[1]) then None
    else match Parse(s[2..]) {
      case None => None
      case Some(rest) => Some([(NibbleValue(s[0]) * 16 + NibbleValue(s[1])) as byte] + rest)
    }
  }

  lemma NibbleRoundTrip(v: nat)
    requires v < 16
    ensures NibbleValue(HexChar(v)) == v
  {
  }

  /** Parsing an encoding gives the bytes back. */
  lemma {:induction false} ParseEncode(bytes: seq<byte>)
    ensures Parse(Encode(bytes)) == Some(bytes)
  {
    if |bytes| > 0 {
      var s := Encode(bytes);
      var b := bytes[0] as int;
      assert s[2..] == Encode(bytes[1..]);
      ParseEncode(bytes[1..]);
      NibbleRoundTrip(b / 16);
      NibbleRoundTrip(b % 16);
      assert (b / 16) * 16 + b % 16 == b;
      assert bytes == [bytes[0]] + bytes[1..];
    }
  }

  /** Different byte strings never share an encoding. */
  lemma EncodeInjective(a: seq<byte>, b: seq<byte>)
    requires Encode(a) == Encode(b)
    ensures a == b
  {
    ParseEncode(a);
    ParseEncode(b);
  }
}
