/** The file names of the cursor store (`storage.go`, `pathForAccount`): an
    encoding of arbitrary account IDs that no case folding makes collide. */
module CursorNames {
  import opened Messages
  import opened Hex

  predicate Safe(b: byte) {
    var c := b as char;
    'a' <= c <= 'z' || '0' <= c <= '9' || c == '@' || c == '.' || c == '-' || c == '_'
  }

  function EscapeByte(b: byte): string {
    ['%', UpperDigit(b / 16), UpperDigit(b % 16)]
  }

  function EncodeByte(b: byte): string {
    if Safe(b) then [b as char] else EscapeByte(b)
  }

  function EncodeId(id: seq<byte>): string {
    if id == [] then "" else EncodeByte(id[0]) + EncodeId(id[1..])
  }

  // ----- reserved names

  function UpperChar(c: char): char {
    if 'a' <= c <= 'z' then (c as int - 32) as char else c
  }

  function Upper(s: string): string {
    if s == "" then "" else [UpperChar(s[0])] + Upper(s[1..])
  }

  function LowerChar(c: char): char {
    if 'A' <= c <= 'Z' then (c as int + 32) as char else c
  }

  /** ASCII case folding. */
  function Fold(s: string): string {
    if s == "" then "" else [LowerChar(s[0])] + Fold(s[1..])
  }

  /** The part of a file name before its first dot. */
  function Stem(s: string): string {
    if s == "" || s[0] == '.' then "" else [s[0]] + Stem(s[1..])
  }

  /** The upper-cased stem is the name of a Windows device. */
  predicate IsDevice(stem: string) {
    || stem == "CON" || stem == "PRN" || stem == "AUX" || stem == "NUL"
    || (|stem| == 4 && (stem[..3] == "COM" || stem[..3] == "LPT") && '1' <= stem[3] <= '9')
  }

  predicate Reserved(name: string) {
    IsDevice(Upper(Stem(name)))
  }

  function EscapeFirst(name: string): string
    requires name != "" && name[0] as int < 256
  {
    EscapeByte(name[0] as int) + name[1..]
  }

  /** The name of an account, without its extension. */
  function Name(id: seq<byte>): string {
    var name := if id == [] then "%" else EncodeId(id);
    if Reserved(name) && name != "" && name[0] as int < 256 then EscapeFirst(name) else name
  }

  function FileName(id: seq<byte>): string {
    Name(id) + ".json"
  }

  // ----- the loop that builds the name

  lemma {:induction false} EncodeAppend(a: seq<byte>, b: byte)
    ensures EncodeId(a + [b]) == EncodeId(a) + EncodeByte(b)
  {
    if a == [] {
      assert [b][1..] == [];
    } else {
      EncodeAppend(a[1..], b);
      assert (a + [b])[1..] == a[1..] + [b];
    }
  }

  method PathForAccount(accountID: seq<byte>) returns (name: string)
    ensures name == FileName(accountID)
  {
    var safe := "";
    for i := 0 to |accountID|
      invariant safe == EncodeId(accountID[..i])
    {
      var b := accountID[i];
      var c := b as char;
      assert accountID[..i + 1] == accountID[..i] + [b];
      EncodeAppend(accountID[..i], b);
      if 'a' <= c <= 'z' || '0' <= c <= '9' || c == '@' || c == '.' || c == '-' || c == '_' {
        safe := safe + [c];
      } else {
        safe := safe + ['%', UpperDigit(b / 16), UpperDigit(b % 16)];
      }
    }
    assert accountID[..|accountID|] == accountID;
    name := safe;
    if name == "" {
      EncodedNonEmpty(accountID);
      name := "%";
    }
    EncodedNonEmpty(accountID);
    var stem := Upper(Stem(name));
    var reserved := stem == "CON" || stem == "PRN" || stem == "AUX" || stem == "NUL";
    if |stem| == 4 && (stem[..3] == "COM" || stem[..3] == "LPT") && '1' <= stem[3] <= '9' {
      reserved := true;
    }
    if reserved {
      name := EscapeByte(name[0] as int) + name[1..];
    }
    name := name + ".json";
  }

  /** An encoded ID starts with an escape or with its own first byte. */
  lemma EncodedNonEmpty(id: seq<byte>)
    ensures id != [] ==> EncodeId(id) != "" && EncodeId(id)[0] as int < 256
    ensures id != [] && EncodeId(id)[0] != '%' ==>
              EncodeId(id)[0] == id[0] as char && EncodeId(id)[1..] == EncodeId(id[1..])
  {}

  // ----- the left inverse

  /** Reads escapes with digits in either case, and everything else literally. */
  function DecodeName(s: string): Option<seq<byte>> {
    if s == "" then Some([])
    else if s[0] == '%' then
      if |s| < 3 then None
      else
        var hi, lo, rest := Value(s[1]), Value(s[2]), DecodeName(s[3..]);
        if hi.Some? && lo.Some? && rest.Some? && 16 * hi.value + lo.value < 256
        then Some([16 * hi.value + lo.value] + rest.value) else None
    else
      var rest := DecodeName(s[1..]);
      if rest.Some? && s[0] as int < 256 then Some([s[0] as int] + rest.value) else None
  }

  lemma {:induction false} FoldConcat(a: string, b: string)
    ensures Fold(a + b) == Fold(a) + Fold(b)
  {
    if a == "" {
      assert a + b == b;
    } else {
      FoldConcat(a[1..], b);
      assert (a + b)[0] == a[0] && (a + b)[1..] == a[1..] + b;
      assert [LowerChar(a[0])] + (Fold(a[1..]) + Fold(b)) == ([LowerChar(a[0])] + Fold(a[1..])) + Fold(b);
    }
  }

  lemma FoldDigits(b: byte)
    ensures Fold(EscapeByte(b)) == ['%', LowerChar(UpperDigit(b / 16)), LowerChar(UpperDigit(b % 16))]
    ensures Value(LowerChar(UpperDigit(b / 16))) == Some(b / 16) && Value(LowerChar(UpperDigit(b % 16))) == Some(b % 16)
  {
    var e := EscapeByte(b);
    assert e[1..] == [e[1], e[2]] && e[1..][1..] == [e[2]] && [e[2]][1..] == "";
    assert Fold([e[2]]) == [LowerChar(e[2])];
    assert Fold(e[1..]) == [LowerChar(e[1])] + [LowerChar(e[2])];
  }

  lemma FoldedEscape(b: byte, rest: string)
    ensures DecodeName(Fold(EscapeByte(b) + rest)) ==
            if DecodeName(Fold(rest)).Some? then Some([b] + DecodeName(Fold(rest)).value) else None
  {
    FoldConcat(EscapeByte(b), rest);
    FoldDigits(b);
    var s := Fold(EscapeByte(b) + rest);
    assert s[3..] == Fold(rest);
    assert 16 * (b / 16) + b % 16 == b;
  }

  lemma {:induction false} FoldedIdDecodes(id: seq<byte>)
    ensures DecodeName(Fold(EncodeId(id))) == Some(id)
  {
    if id != [] {
      FoldedIdDecodes(id[1..]);
      assert id == [id[0]] + id[1..];
      if Safe(id[0]) {
        var s := Fold(EncodeId(id));
        assert EncodeId(id)[1..] == EncodeId(id[1..]);
        assert s[1..] == Fold(EncodeId(id[1..])) && s[0] == id[0] as char;
      } else {
        FoldedEscape(id[0], EncodeId(id[1..]));
      }
    }
  }

  /** A device name has a letter first. */
  lemma DeviceStartsWithLetter(name: string)
    requires Reserved(name)
    ensures name != "" && 'A' <= UpperChar(name[0]) <= 'Z' && name[0] as int < 256 && name[0] != '%'
  {
    if name != "" && name[0] != '.' {
      var stem := Upper(Stem(name));
      assert stem[0] == UpperChar(name[0]);
      assert |stem| == 4 ==> stem[0] == stem[..3][0];
    }
  }

  /** The left inverse: the folded name of a non-empty ID decodes to the ID, and
      the name of the empty ID decodes to nothing. */
  lemma NameDecodes(id: seq<byte>)
    ensures DecodeName(Fold(Name(id))) == if id == [] then None else Some(id)
  {
    if id == [] {
      assert Stem("%") == "%" && Upper("%") == "%";
      assert Fold("%") == "%";
    } else {
      var name := EncodeId(id);
      FoldedIdDecodes(id);
      if Reserved(name) {
        DeviceStartsWithLetter(name);
        EncodedNonEmpty(id);
        FoldedIdDecodes(id[1..]);
        FoldedEscape(id[0], EncodeId(id[1..]));
      }
    }
  }

  /** Distinct accounts have distinct files, even where case is folded. */
  lemma FileNamesDistinct(a: seq<byte>, b: seq<byte>)
    ensures Fold(FileName(a)) == Fold(FileName(b)) ==> a == b
  {
    NameDecodes(a);
    NameDecodes(b);
    FoldConcat(Name(a), ".json");
    FoldConcat(Name(b), ".json");
    if Fold(FileName(a)) == Fold(FileName(b)) {
      var n := |Fold(FileName(a))| - |Fold(".json")|;
      assert Fold(Name(a)) == Fold(FileName(a))[..n];
      assert Fold(Name(b)) == Fold(FileName(b))[..n];
    }
  }

  // ----- what no name is

  lemma {:induction false} StemOfFile(name: string)
    ensures Stem(name + ".json") == Stem(name)
  {
    if name == "" {
      assert name + ".json" == ".json";
    } else if name[0] != '.' {
      StemOfFile(name[1..]);
      assert (name + ".json")[0] == name[0] && (name + ".json")[1..] == name[1..] + ".json";
    }
  }

  /** No file name is that of a Windows device, with whatever extension. */
  lemma NeverReserved(id: seq<byte>)
    ensures !Reserved(FileName(id))
  {
    var name := if id == [] then "%" else EncodeId(id);
    StemOfFile(Name(id));
    if Reserved(name) {
      DeviceStartsWithLetter(name);
      assert Name(id)[0] == '%';
      if Reserved(Name(id)) {
        DeviceStartsWithLetter(Name(id));
        assert false;
      }
    }
  }

  predicate NameChar(c: char) {
    'a' <= c <= 'z' || '0' <= c <= '9' || 'A' <= c <= 'F' || c in "@.-_%"
  }

  predicate Plain(s: string) {
    forall i :: 0 <= i < |s| ==> NameChar(s[i])
  }

  lemma EscapeIsPlain(b: byte)
    ensures Plain(EscapeByte(b))
  {
    assert NameChar(UpperDigit(b / 16)) && NameChar(UpperDigit(b % 16));
  }

  lemma {:induction false} EncodedIsPlain(id: seq<byte>)
    ensures Plain(EncodeId(id))
  {
    if id != [] {
      EncodedIsPlain(id[1..]);
      EscapeIsPlain(id[0]);
    }
  }

  /** No file name has a path separator, a drive colon or any other character
      than letters, digits and the five marks of `NameChar`. */
  lemma PlainName(id: seq<byte>)
    ensures Plain(FileName(id)) && '/' !in FileName(id) && '\\' !in FileName(id) && ':' !in FileName(id)
  {
    EncodedIsPlain(id);
    var name := if id == [] then "%" else EncodeId(id);
    if Reserved(name) {
      DeviceStartsWithLetter(name);
      EscapeIsPlain(name[0] as int);
    }
    assert Plain(Name(id)) && Plain(".json");
    NoSeparators(FileName(id));
  }

  lemma NoSeparators(s: string)
    requires Plain(s)
    ensures '/' !in s && '\\' !in s && ':' !in s
  {}

  // ----- the names, spelt out

  /** The names of the Windows devices, in lower case. */
  predicate DeviceName(s: string) {
    || s == "con" || s == "prn" || s == "aux" || s == "nul"
    || (|s| == 4 && (s[..3] == "com" || s[..3] == "lpt") && s[3] in "123456789")
  }

  /** The name of a device, alone or with an extension. */
  predicate NamesDevice(s: string) {
    exists n :: 0 <= n <= |s| && DeviceName(s[..n]) && (n == |s| || s[n] == '.')
  }

  predicate NoCapitals(s: string) {
    forall i :: 0 <= i < |s| ==> !('A' <= s[i] <= 'Z')
  }

  lemma {:induction false} StemFacts(s: string)
    ensures var n := |Stem(s)|;
            n <= |s| && s[..n] == Stem(s) && (n == |s| || s[n] == '.')
    ensures '.' !in Stem(s)
  {
    if s != "" && s[0] != '.' {
      StemFacts(s[1..]);
      var n := |Stem(s[1..])|;
      assert s[..n + 1] == [s[0]] + s[1..][..n];
    }
  }

  lemma {:induction false} StemIs(s: string, n: nat)
    requires n <= |s| && '.' !in s[..n] && (n == |s| || s[n] == '.')
    ensures Stem(s) == s[..n]
  {
    if n > 0 {
      assert s[..n][0] == s[0] && s[..n] == [s[0]] + s[1..][..n - 1];
      assert forall c <- s[1..][..n - 1] :: c in s[..n];
      StemIs(s[1..], n - 1);
    }
  }

  lemma {:induction false} UpperAt(s: string)
    ensures |Upper(s)| == |s| && forall i :: 0 <= i < |s| ==> Upper(s)[i] == UpperChar(s[i])
  {
    if s != "" { UpperAt(s[1..]); }
  }

  lemma {:induction false} FoldAt(s: string)
    ensures |Fold(s)| == |s| && forall i :: 0 <= i < |s| ==> Fold(s)[i] == LowerChar(s[i])
  {
    if s != "" { FoldAt(s[1..]); }
  }

  /** Without capitals, the names that are refused are the ones listed. */
  lemma ListedDevices(s: string)
    requires NoCapitals(s)
    ensures IsDevice(Upper(s)) <==> DeviceName(s)
  {
    UpperAt(s);
    if |s| == 3 {
      ThreeLetters(s);
    } else if |s| == 4 {
      var u := Upper(s);
      assert u[..3] == [u[0], u[1], u[2]] && s[..3] == [s[0], s[1], s[2]];
      assert UpperChar(s[3]) == u[3] && s[3] in "123456789" <==> '1' <= u[3] <= '9';
    }
  }

  lemma ThreeLetters(s: string)
    requires NoCapitals(s) && |s| == 3
    ensures IsDevice(Upper(s)) <==> DeviceName(s)
  {
    UpperAt(s);
    OneDevice(s, 'c', 'o', 'n');
    OneDevice(s, 'p', 'r', 'n');
    OneDevice(s, 'a', 'u', 'x');
    OneDevice(s, 'n', 'u', 'l');
    assert "con" == ['c', 'o', 'n'] && "CON" == ['C', 'O', 'N'];
    assert "prn" == ['p', 'r', 'n'] && "PRN" == ['P', 'R', 'N'];
    assert "aux" == ['a', 'u', 'x'] && "AUX" == ['A', 'U', 'X'];
    assert "nul" == ['n', 'u', 'l'] && "NUL" == ['N', 'U', 'L'];
  }

  lemma OneDevice(s: string, a: char, b: char, c: char)
    requires NoCapitals(s) && |s| == 3 && 'a' <= a <= 'z' && 'a' <= b <= 'z' && 'a' <= c <= 'z'
    ensures s == [a, b, c] <==> Upper(s) == [UpperChar(a), UpperChar(b), UpperChar(c)]
  {
    UpperAt(s);
    UpperOnce(s[0], a);
    UpperOnce(s[1], b);
    UpperOnce(s[2], c);
    assert s == [s[0], s[1], s[2]];
    assert Upper(s) == [Upper(s)[0], Upper(s)[1], Upper(s)[2]];
  }

  lemma UpperOnce(x: char, small: char)
    requires !('A' <= x <= 'Z') && 'a' <= small <= 'z'
    ensures UpperChar(x) == UpperChar(small) <==> x == small
  {
    if 'a' <= x <= 'z' {
      assert UpperChar(x) as int == x as int - 32 && UpperChar(small) as int == small as int - 32;
    } else {
      assert 'A' <= UpperChar(small) <= 'Z' && UpperChar(x) == x;
    }
  }

  /** The names that get an escape for their first byte are those of devices. */
  lemma ReservedIff(s: string)
    requires NoCapitals(s)
    ensures Reserved(s) <==> NamesDevice(s)
  {
    StemFacts(s);
    assert NoCapitals(Stem(s));
    ListedDevices(Stem(s));
    if Reserved(s) {
      assert DeviceName(s[..|Stem(s)|]);
    }
    if n :| 0 <= n <= |s| && DeviceName(s[..n]) && (n == |s| || s[n] == '.') {
      NoDots(s[..n]);
      StemIs(s, n);
    }
  }

  lemma NoDots(s: string)
    requires DeviceName(s)
    ensures '.' !in s
  {
    if |s| == 4 {
      assert s == s[..3] + [s[3]];
    }
  }

  /** No file is named like a device, whatever the case and the extension. */
  lemma NeverADevice(id: seq<byte>)
    ensures !NamesDevice(Fold(FileName(id)))
  {
    var f := FileName(id);
    NeverReserved(id);
    FoldAt(f);
    ReservedIff(Fold(f));
    StemFolds(f);
    FoldUpper(Stem(f));
  }

  lemma {:induction false} StemFolds(s: string)
    ensures Stem(Fold(s)) == Fold(Stem(s))
  {
    if s != "" && s[0] != '.' {
      StemFolds(s[1..]);
      assert Fold(s)[1..] == Fold(s[1..]) && Stem(s)[1..] == Stem(s[1..]);
    }
  }

  lemma {:induction false} FoldUpper(s: string)
    ensures Upper(Fold(s)) == Upper(s)
  {
    if s != "" {
      FoldUpper(s[1..]);
      assert Fold(s)[1..] == Fold(s[1..]);
    }
  }

  /** A small letter, a digit or one of the four marks. */
  predicate Ordinary(b: byte) {
    97 <= b <= 122 || 48 <= b <= 57 || b == 64 || b == 46 || b == 45 || b == 95
  }

  function TextOfId(id: seq<byte>): string {
    seq(|id|, i requires 0 <= i < |id| => id[i] as char)
  }

  lemma OrdinaryIsSafe(b: byte)
    ensures Safe(b) <==> Ordinary(b)
  {
    assert '_' as int == 95 && '@' as int == 64 && '.' as int == 46 && '-' as int == 45;
  }

  lemma {:induction false} OrdinaryEncoding(id: seq<byte>)
    requires forall b <- id :: Ordinary(b)
    ensures EncodeId(id) == TextOfId(id)
  {
    if id != [] {
      OrdinaryEncoding(id[1..]);
      assert id[0] in id && (forall b <- id[1..] :: b in id);
      OrdinaryIsSafe(id[0]);
    }
  }

  /** Ordinary bot IDs name their files themselves, unless they are named like a device. */
  lemma OrdinaryIds(id: seq<byte>)
    requires id != [] && forall b <- id :: Ordinary(b)
    ensures !NamesDevice(TextOfId(id)) ==> FileName(id) == TextOfId(id) + ".json"
    ensures NamesDevice(TextOfId(id)) ==> FileName(id) == EscapeByte(id[0]) + TextOfId(id)[1..] + ".json"
  {
    OrdinaryEncoding(id);
    forall i | 0 <= i < |id| ensures !('A' <= TextOfId(id)[i] <= 'Z') {
      assert id[i] in id && Ordinary(id[i]);
    }
    ReservedIff(TextOfId(id));
  }

  /** Any other byte is written as a percent sign and two digits, letters in upper case. */
  lemma OtherBytes(b: byte)
    requires !Ordinary(b)
    ensures FileName([b]) == "%" + ["0123456789ABCDEF"[b / 16]] + ["0123456789ABCDEF"[b % 16]] + ".json"
  {
    assert [b][1..] == [];
    assert EncodeId([b]) == EscapeByte(b);
    StemFacts(EscapeByte(b));
    if Reserved(EscapeByte(b)) {
      DeviceStartsWithLetter(EscapeByte(b));
      assert false;
    }
  }

  /** The empty ID has a name of its own. */
  lemma EmptyId()
    ensures FileName([]) == "%.json"
  {
    if Reserved("%") {
      DeviceStartsWithLetter("%");
      assert false;
    }
  }

  // ----- temporary files

  const TEMP_PREFIX := ".wechat-"

  /** The names `os.CreateTemp` makes from the pattern ".wechat-*". */
  predicate IsTemp(name: string) {
    && |name| > |TEMP_PREFIX|
    && name[..|TEMP_PREFIX|] == TEMP_PREFIX
    && forall i :: |TEMP_PREFIX| <= i < |name| ==> '0' <= name[i] <= '9'
  }

  /** A temporary file is never taken for a cursor, whatever the account is called. */
  lemma NeverTemp(id: seq<byte>)
    ensures !IsTemp(FileName(id)) && !IsTemp(Fold(FileName(id)))
  {
    FoldConcat(Name(id), ".json");
    var f := FileName(id);
    assert f[|f| - 1] == 'n';
    FoldLast(f);
  }

  lemma {:induction false} FoldLast(s: string)
    requires s != ""
    ensures |Fold(s)| == |s| && Fold(s)[|s| - 1] == LowerChar(s[|s| - 1])
  {
    if |s| > 1 {
      FoldLast(s[1..]);
    } else {
      assert s[1..] == "";
    }
  }
}
