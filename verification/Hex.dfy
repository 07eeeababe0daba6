/** Bytes and base16 digits (section 8 of RFC 4648). */
module Hex {
  import opened Messages

  type byte = b: int | 0 <= b < 256

  function UpperDigit(n: nat): char
    requires n < 16
  {
    "0123456789ABCDEF"[n]
  }

  function LowerDigit(n: nat): char
    requires n < 16
  {
    "0123456789abcdef"[n]
  }

  /** The value of a digit in either case. */
  function Value(c: char): Option<nat> {
    if '0' <= c <= '9' then Some(c as int - '0' as int)
    else if 'a' <= c <= 'f' then Some(c as int - 'a' as int + 10)
    else if 'A' <= c <= 'F' then Some(c as int - 'A' as int + 10)
    else None
  }

  lemma DigitValue(n: nat)
    requires n < 16
    ensures Value(UpperDigit(n)) == Some(n) && Value(LowerDigit(n)) == Some(n)
  {}

  /** `hex.EncodeToString` */
  function Encode(data: seq<byte>): (s: string) {
    if data == [] then ""
    else [LowerDigit(data[0] / 16), LowerDigit(data[0] % 16)] + Encode(data[1..])
  }

  /** `hex.DecodeString`: pairs of digits in either case, nothing else. */
  function Decode(s: string): Option<seq<byte>> {
    if s == "" then Some([])
    else if |s| == 1 then None
    else
      var hi, lo, rest := Value(s[0]), Value(s[1]), Decode(s[2..]);
      if hi.Some? && lo.Some? && rest.Some? && 16 * hi.value + lo.value < 256
      then Some([16 * hi.value + lo.value] + rest.value)
      else None
  }

  /** Encoding is inverted by decoding, and doubles the length. */
  lemma {:induction false} RoundTrip(data: seq<byte>)
    ensures Decode(Encode(data)) == Some(data) && |Encode(data)| == 2 * |data|
  {
    if data != [] {
      RoundTrip(data[1..]);
      DigitValue(data[0] / 16);
      DigitValue(data[0] % 16);
      var s := Encode(data);
      assert s[0] == LowerDigit(data[0] / 16) && s[1] == LowerDigit(data[0] % 16);
      assert s[2..] == Encode(data[1..]);
      assert 16 * (data[0] / 16) + data[0] % 16 == data[0];
      assert data == [data[0]] + data[1..];
    }
  }

  /** A text that decodes has two digits for each byte. */
  lemma {:induction false} DecodeLength(s: string)
    ensures Decode(s).Some? ==> |s| == 2 * |Decode(s).value|
  {
    if |s| > 1 {
      DecodeLength(s[2..]);
    }
  }

  /** Each byte is written as two digits, the high one first. */
  lemma {:induction false} EncodeAt(data: seq<byte>, i: nat)
    requires i < |data|
    ensures |Encode(data)| == 2 * |data|
    ensures Encode(data)[2 * i] == "0123456789abcdef"[data[i] / 16]
    ensures Encode(data)[2 * i + 1] == "0123456789abcdef"[data[i] % 16]
  {
    RoundTrip(data);
    var s := Encode(data);
    assert s == [LowerDigit(data[0] / 16), LowerDigit(data[0] % 16)] + Encode(data[1..]);
    if i > 0 {
      EncodeAt(data[1..], i - 1);
      assert s[2..] == Encode(data[1..]);
      assert s[2 * i] == s[2..][2 * (i - 1)] && s[2 * i + 1] == s[2..][2 * (i - 1) + 1];
    }
  }
}
