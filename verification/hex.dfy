/** Lower-case hexadecimal rendering of a digest, `format!("{:02x}", byte)`
    applied to every byte and collected into one string. */
module Hex {

  import opened Wrappers

  type Byte = b: int | 0 <= b < 256

  const Digits: string := "0123456789abcdef"

  function HexDigit(n: int): (c: char)
    requires 0 <= n < 16
  {
    Digits[n]
  }

  /** Inverse of HexDigit on the lower-case alphabet; upper case is not produced and not accepted. */
  function DigitValue(c: char): (v: Option<int>)
    ensures v.Some? <==> c in Digits
    ensures v.Some? ==> 0 <= v.value < 16 && HexDigit(v.value) == c
  {
    if '0' <= c <= '9' then Some(c as int - '0' as int)
    else if 'a' <= c <= 'f' then Some(c as int - 'a' as int + 10)
    else None
  }

  /** `{:02x}`: exactly two digits, the high nibble first, zero-padded. */
  function ByteToHex(b: Byte): string
  {
    [HexDigit(b / 16), HexDigit(b % 16)]
  }

  /** The hex string of a byte sequence: two characters per byte, in byte order. */
  function ToHex(bytes: seq<Byte>): (s: string)
    ensures |s| == 2 * |bytes|
  {
    if bytes == [] then "" else ByteToHex(bytes[0]) + ToHex(bytes[1..])
  }

  /** Characters 2i and 2i+1 are the high and low nibble of byte i. */
  lemma {:induction false} ToHexNibbles(bytes: seq<Byte>, i: int)
    requires 0 <= i < |bytes|
    ensures ToHex(bytes)[2 * i] == HexDigit(bytes[i] / 16)
    ensures ToHex(bytes)[2 * i + 1] == HexDigit(bytes[i] % 16)
  {
    if i > 0 {
      ToHexNibbles(bytes[1..], i - 1);
    }
  }

  /** Every character of the rendering is one of `0-9a-f`. */
  lemma {:induction false} ToHexAlphabet(bytes: seq<Byte>)
    ensures forall c | c in ToHex(bytes) :: c in Digits
  {
    forall c | c in ToHex(bytes)
      ensures c in Digits
    {
      var k :| 0 <= k < |ToHex(bytes)| && ToHex(bytes)[k] == c;
      ToHexNibbles(bytes, k / 2);
      assert k == 2 * (k / 2) || k == 2 * (k / 2) + 1;
    }
  }

  /** Parses a lower-case hex string back into bytes. */
  function FromHex(s: string): Option<seq<Byte>>
    decreases |s|
  {
    if s == [] then Some([])
    else if |s| == 1 then None
    else
      match (DigitValue(s[0]), DigitValue(s[1]), FromHex(s[2..]))
      case (Some(hi), Some(lo), Some(rest)) => Some([hi * 16 + lo] + rest)
      case _ => None
  }

  lemma DigitRoundTrip(n: int)
    requires 0 <= n < 16
    ensures DigitValue(HexDigit(n)) == Some(n)
  {
    assert Digits[n] as int == if n < 10 then '0' as int + n else 'a' as int + n - 10;
  }

  lemma SplitByte(b: Byte)
    ensures DigitValue(HexDigit(b / 16)) == Some(b / 16)
    ensures DigitValue(HexDigit(b % 16)) == Some(b % 16)
    ensures (b / 16) * 16 + b % 16 == b
  {
    DigitRoundTrip(b / 16);
    DigitRoundTrip(b % 16);
  }

  /** Round trip: the rendering loses nothing. */
  lemma {:induction false} FromHexToHex(bytes: seq<Byte>)
    ensures FromHex(ToHex(bytes)) == Some(bytes)
  {
    if bytes != [] {
      var b, tail := bytes[0], bytes[1..];
      var s, t := ToHex(bytes), ToHex(tail);
      assert s == ByteToHex(b) + t;
      assert s[0] == HexDigit(b / 16) && s[1] == HexDigit(b % 16) && s[2..] == t;
      FromHexToHex(tail);
      SplitByte(b);
      assert FromHex(s) == Some([b] + tail);
      assert [b] + tail == bytes;
    }
  }

  /** Distinct byte sequences have distinct renderings. */
  lemma ToHexInjective(a: seq<Byte>, b: seq<Byte>)
    requires ToHex(a) == ToHex(b)
    ensures a == b
  {
    FromHexToHex(a);
    FromHexToHex(b);
  }

}
