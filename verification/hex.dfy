/**
 * Lower-case hexadecimal text of a byte sequence, as Node's `buf.toString("hex")` writes it:
 * the admission codes (4 random bytes) and the password-reset tokens (32 random bytes).
 */
module Hex {
  import opened Wrappers

  /** A byte, as the values `crypto.randomBytes` yields. */
  type Byte = b: nat | b < 256

  predicate IsHexDigit(c: char) {
    '0' <= c <= '9' || 'a' <= c <= 'f'
  }

  predicate IsHexString(s: string) {
    forall i :: 0 <= i < |s| ==> IsHexDigit(s[i])
  }

  function DigitOf(n: nat): (c: char)
    requires n < 16
    ensures IsHexDigit(c)
  {
    if n < 10 then ('0' as int + n) as char else ('a' as int + n - 10) as char
  }

  function ValueOf(c: char): (n: nat)
    requires IsHexDigit(c)
    ensures n < 16 && DigitOf(n) == c
  {
    if c <= '9' then c as int - '0' as int else c as int - 'a' as int + 10
  }

  lemma DigitRoundTrip(n: nat)
    requires n < 16
    ensures ValueOf(DigitOf(n)) == n
  {
  }

  /** Two digits per byte, high nibble first. */
  function Encode(bytes: seq<Byte>): (s: string)
    ensures |s| == 2 * |bytes|
    ensures IsHexString(s)
  {
    if |bytes| == 0 then ""
    else [DigitOf(bytes[0] / 16), DigitOf(bytes[0] % 16)] + Encode(bytes[1..])
  }

  /** The inverse of Encode; None for odd length or a character outside 0-9a-f. */
  function Decode(s: string): (r: Option<seq<Byte>>)
    ensures r.Some? ==> 2 * |r.value| == |s|
  {
    if |s| == 0 then Some([])
    else if |s| == 1 || !IsHexDigit(s[0]) || !IsHexDigit(s[1]) then None
    else match Decode(s[2..])
      case None => None
      case Some(rest) => Some([ValueOf(s[0]) * 16 + ValueOf(s[1])] + rest)
  }

  lemma {:induction false} DecodeEncode(bytes: seq<Byte>)
    ensures Decode(Encode(bytes)) == Some(bytes)
  {
    if |bytes| > 0 {
      var s := Encode(bytes);
      assert s[2..] == Encode(bytes[1..]);
      DecodeEncode(bytes[1..]);
      DigitRoundTrip(bytes[0] / 16);
      DigitRoundTrip(bytes[0] % 16);
      assert [bytes[0]] + bytes[1..] == bytes;
    }
  }
}
