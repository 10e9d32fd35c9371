/**
 * Lower-case hexadecimal text for byte strings, the `toString('hex')`
 * encoding the CSRF token generator applies to its random bytes.
 */
module Hex {

  newtype Byte = b: int | 0 <= b < 256

  predicate IsHexDigit(c: char)
  {
    ('0' <= c <= '9') || ('a' <= c <= 'f')
  }

  predicate IsHexText(s: string)
  {
    forall i :: 0 <= i < |s| ==> IsHexDigit(s[i])
  }

  /** The digit for a nibble value. */
  function Digit(d: int): (c: char)
    requires 0 <= d < 16
    ensures IsHexDigit(c)
  {
    if d < 10 then ('0' as int + d) as char else ('a' as int + d - 10) as char
  }

  /** The nibble value of a digit. */
  function DigitValue(c: char): (d: int)
    requires IsHexDigit(c)
    ensures 0 <= d < 16
    ensures Digit(d) == c
  {
    if c <= '9' then c as int - '0' as int else c as int - 'a' as int + 10
  }

  /** Two digits per byte, the high nibble first. */
  function Encode(bytes: seq<Byte>): (s: string)
    ensures |s| == 2 * |bytes|
    ensures IsHexText(s)
  {
    if |bytes| == 0 then ""
    else [Digit(bytes[0] as int / 16), Digit(bytes[0] as int % 16)] + Encode(bytes[1..])
  }

  function Decode(s: string): (bytes: seq<Byte>)
    requires |s| % 2 == 0 && IsHexText(s)
    ensures |bytes| == |s| / 2
  {
    if |s| == 0 then []
    else [(DigitValue(s[0]) * 16 + DigitValue(s[1])) as Byte] + Decode(s[2..])
  }

  /** Digit recovers the nibble DigitValue reads. */
  lemma DigitRoundTrip(d: int)
    requires 0 <= d < 16
    ensures DigitValue(Digit(d)) == d
  {
  }

  /** Decoding an encoding gives back the bytes. */
  lemma {:induction false} DecodeEncode(bytes: seq<Byte>)
    ensures Decode(Encode(bytes)) == bytes
  {
    if |bytes| > 0 {
      var s := Encode(bytes);
      var b := bytes[0] as int;
      DigitRoundTrip(b / 16);
      DigitRoundTrip(b % 16);
      assert s[2..] == Encode(bytes[1..]);
      DecodeEncode(bytes[1..]);
    }
  }
}
