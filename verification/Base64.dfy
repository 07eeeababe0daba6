/** Base64 with padding (section 4 of RFC 4648), as Go's `base64.StdEncoding` reads
    and writes it: a reader skips line breaks and ignores unused trailing bits. */
module Base64 {
  import opened Messages
  import opened Hex

  function Digit(n: nat): char
    requires n < 64
  {
    if n < 26 then ('A' as int + n) as char
    else if n < 52 then ('a' as int + n - 26) as char
    else if n < 62 then ('0' as int + n - 52) as char
    else if n == 62 then '+' else '/'
  }

  function ValueOf(c: char): Option<nat> {
    if 'A' <= c <= 'Z' then Some(c as int - 'A' as int)
    else if 'a' <= c <= 'z' then Some(c as int - 'a' as int + 26)
    else if '0' <= c <= '9' then Some(c as int - '0' as int + 52)
    else if c == '+' then Some(62)
    else if c == '/' then Some(63)
    else None
  }

  lemma DigitValue(n: nat)
    requires n < 64
    ensures ValueOf(Digit(n)) == Some(n) && Digit(n) !in "\r\n="
  {}

  /** The digits of a group of three bytes. */
  function Group(x: byte, y: byte, z: byte): string {
    [Digit(x / 4), Digit(x % 4 * 16 + y / 16), Digit(y % 16 * 4 + z / 64), Digit(z % 64)]
  }

  function Encode(data: seq<byte>): string {
    if data == [] then ""
    else if |data| == 1 then [Digit(data[0] / 4), Digit(data[0] % 4 * 16), '=', '=']
    else if |data| == 2 then
      [Digit(data[0] / 4), Digit(data[0] % 4 * 16 + data[1] / 16), Digit(data[1] % 16 * 4), '=']
    else
      Group(data[0], data[1], data[2]) + Encode(data[3..])
  }

  function WithoutLineBreaks(s: string): string {
    if s == "" then ""
    else if s[0] == '\r' || s[0] == '\n' then WithoutLineBreaks(s[1..])
    else [s[0]] + WithoutLineBreaks(s[1..])
  }

  function ByteOf(hi: nat, lo: nat): byte {
    (hi + lo) % 256
  }

  /** Groups of four digits; only the last may end in one or two pad characters. */
  function DecodeGroups(s: string): Option<seq<byte>> {
    if s == "" then Some([])
    else if |s| < 4 || ValueOf(s[0]).None? || ValueOf(s[1]).None? then None
    else
      var a, b := ValueOf(s[0]).value, ValueOf(s[1]).value;
      var first := ByteOf(a * 4, b / 16);
      if s[2] == '=' then
        if s[3] == '=' && |s| == 4 then Some([first]) else None
      else if ValueOf(s[2]).None? then None
      else
        var c := ValueOf(s[2]).value;
        var second := ByteOf(b % 16 * 16, c / 4);
        if s[3] == '=' then
          if |s| == 4 then Some([first, second]) else None
        else if ValueOf(s[3]).None? then None
        else
          var rest := DecodeGroups(s[4..]);
          if rest.None? then None
          else Some([first, second, ByteOf(c % 4 * 64, ValueOf(s[3]).value)] + rest.value)
  }

  function Decode(s: string): Option<seq<byte>> {
    DecodeGroups(WithoutLineBreaks(s))
  }

  lemma {:induction false} NoLineBreaks(s: string)
    requires forall c <- s :: c !in "\r\n"
    ensures WithoutLineBreaks(s) == s
  {
    if s != "" {
      assert s[0] in s;
      NoLineBreaks(s[1..]);
    }
  }

  lemma {:induction false} EncodedHasNoLineBreaks(data: seq<byte>)
    ensures forall c <- Encode(data) :: c !in "\r\n"
  {
    if |data| >= 3 {
      EncodedHasNoLineBreaks(data[3..]);
    }
  }

  lemma FirstByte(b: byte, r: nat)
    requires r < 16
    ensures b / 4 < 64 && b % 4 * 16 + r < 64
    ensures ByteOf(b / 4 * 4, (b % 4 * 16 + r) / 16) == b
  {}

  lemma SecondByte(q: nat, b: byte, r: nat)
    requires q < 4 && r < 4
    ensures b % 16 * 4 + r < 64
    ensures ByteOf((q * 16 + b / 16) % 16 * 16, (b % 16 * 4 + r) / 4) == b
  {
    var high, low := b / 16, b % 16;
    assert b == 16 * high + low && high < 16;
    assert (q * 16 + high) % 16 == high;
    assert (low * 4 + r) / 4 == low;
  }

  lemma ThirdByte(q: nat, b: byte)
    requires q < 16
    ensures ByteOf((q * 4 + b / 64) % 4 * 64, b % 64) == b
  {}

  /** One byte left over, padded to a group. */
  lemma OneByteRoundTrip(x: byte)
    ensures x / 4 < 64 && x % 4 * 16 < 64
    ensures DecodeGroups([Digit(x / 4), Digit(x % 4 * 16), '=', '=']) == Some([x])
  {
    FirstByte(x, 0);
    DigitValue(x / 4);
    DigitValue(x % 4 * 16);
  }

  /** Two bytes left over, padded to a group. */
  lemma TwoBytesRoundTrip(x: byte, y: byte)
    ensures x / 4 < 64 && x % 4 * 16 + y / 16 < 64 && y % 16 * 4 < 64
    ensures DecodeGroups([Digit(x / 4), Digit(x % 4 * 16 + y / 16), Digit(y % 16 * 4), '=']) == Some([x, y])
  {
    FirstByte(x, y / 16);
    SecondByte(x % 4, y, 0);
    DigitValue(x / 4);
    DigitValue(x % 4 * 16 + y / 16);
    DigitValue(y % 16 * 4);
  }

  /** A full group, followed by digits that decode. */
  lemma GroupRoundTrip(x: byte, y: byte, z: byte, rest: string)
    requires DecodeGroups(rest).Some?
    ensures x / 4 < 64 && x % 4 * 16 + y / 16 < 64 && y % 16 * 4 + z / 64 < 64
    ensures DecodeGroups(Group(x, y, z) + rest) == Some([x, y, z] + DecodeGroups(rest).value)
  {
    FirstByte(x, y / 16);
    SecondByte(x % 4, y, z / 64);
    ThirdByte(y % 16, z);
    DigitValue(x / 4);
    DigitValue(x % 4 * 16 + y / 16);
    DigitValue(y % 16 * 4 + z / 64);
    DigitValue(z % 64);
    assert (Group(x, y, z) + rest)[4..] == rest;
  }

  lemma {:induction false} GroupsRoundTrip(data: seq<byte>)
    ensures DecodeGroups(Encode(data)) == Some(data)
  {
    if |data| == 1 {
      OneByteRoundTrip(data[0]);
      assert data == [data[0]];
    } else if |data| == 2 {
      TwoBytesRoundTrip(data[0], data[1]);
      assert data == [data[0], data[1]];
    } else if data != [] {
      GroupsRoundTrip(data[3..]);
      GroupRoundTrip(data[0], data[1], data[2], Encode(data[3..]));
      assert data == [data[0], data[1], data[2]] + data[3..];
    }
  }

  /** Decoding inverts encoding on all byte strings. */
  lemma RoundTrip(data: seq<byte>)
    ensures Decode(Encode(data)) == Some(data)
  {
    EncodedHasNoLineBreaks(data);
    NoLineBreaks(Encode(data));
    GroupsRoundTrip(data);
  }

  /** The alphabet of section 4 of RFC 4648: capitals, small letters, numerals, each in
      order, and two signs. */
  lemma Alphabet(n: nat)
    ensures Digit(0) == 'A' && Digit(25) == 'Z' && Digit(26) == 'a' && Digit(51) == 'z'
    ensures Digit(52) == '0' && Digit(61) == '9' && Digit(62) == '+' && Digit(63) == '/'
    ensures n < 61 && n != 25 && n != 51 ==> Digit(n + 1) as int == Digit(n) as int + 1
  {
    assert 'A' as int == 65 && 'Z' as int == 90 && 'a' as int == 97 && 'z' as int == 122;
    assert '0' as int == 48 && '9' as int == 57;
  }

  /** The number that digits stand for, the first one most significant. */
  function Number(s: string): nat {
    if s == "" then 0
    else 64 * Number(s[..|s| - 1]) + if ValueOf(s[|s| - 1]).Some? then ValueOf(s[|s| - 1]).value else 0
  }

  lemma NumberOf(a: nat, b: nat, c: nat, d: nat)
    requires a < 64 && b < 64 && c < 64 && d < 64
    ensures Number([Digit(a), Digit(b)]) == 64 * a + b
    ensures Number([Digit(a), Digit(b), Digit(c)]) == 4096 * a + 64 * b + c
    ensures Number([Digit(a), Digit(b), Digit(c), Digit(d)]) == 262144 * a + 4096 * b + 64 * c + d
  {
    DigitValue(a);
    DigitValue(b);
    DigitValue(c);
    DigitValue(d);
    var s := [Digit(a), Digit(b), Digit(c), Digit(d)];
    assert s[..3] == [Digit(a), Digit(b), Digit(c)] && s[..3][..2] == [Digit(a), Digit(b)];
    assert s[..3][..2][..1] == [Digit(a)] && [Digit(a)][..0] == "";
    assert Number([Digit(a)]) == a;
  }

  /** Four digits are the three bytes of a group as one number of 24 bits. */
  lemma GroupNumber(x: byte, y: byte, z: byte, rest: seq<byte>)
    ensures |Encode([x, y, z] + rest)| >= 4
    ensures Number(Encode([x, y, z] + rest)[..4]) == 65536 * x + 256 * y + z
  {
    var data := [x, y, z] + rest;
    assert data[3..] == rest;
    assert Encode(data)[..4] == Group(x, y, z);
    NumberOf(x / 4, x % 4 * 16 + y / 16, y % 16 * 4 + z / 64, z % 64);
  }

  /** One or two bytes left over are padded with zero bits and one or two signs. */
  lemma LastGroups(x: byte, y: byte)
    ensures Encode([x])[2..] == "==" && Number(Encode([x])[..2]) == 16 * x
    ensures Encode([x, y])[3..] == "=" && Number(Encode([x, y])[..3]) == 4 * (256 * x + y)
  {
    NumberOf(x / 4, x % 4 * 16, 0, 0);
    NumberOf(x / 4, x % 4 * 16 + y / 16, y % 16 * 4, 0);
    assert Encode([x])[..2] == [Digit(x / 4), Digit(x % 4 * 16)];
    assert Encode([x, y])[..3] == [Digit(x / 4), Digit(x % 4 * 16 + y / 16), Digit(y % 16 * 4)];
  }

  predicate Expected(s: string) {
    forall i :: 0 <= i < |s| ==> ValueOf(s[i]).Some? || s[i] == '='
  }

  /** Only whole groups of digits and signs decode. */
  lemma {:induction false} GroupsOnly(s: string)
    ensures DecodeGroups(s).Some? ==> |s| % 4 == 0 && Expected(s)
    decreases |s|
  {
    if |s| >= 4 && DecodeGroups(s).Some? {
      if s[2] != '=' && s[3] != '=' {
        GroupsOnly(s[4..]);
        assert forall i :: 4 <= i < |s| ==> s[i] == s[4..][i - 4];
      }
    }
  }
}
