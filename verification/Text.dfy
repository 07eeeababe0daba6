/** White space as Go's `strings.TrimSpace` sees it. */
module Text {

  predicate IsSpace(c: char) {
    c in "\t\n\r \U{000B}\U{000C}\U{0085}\U{00A0}\U{1680}\U{2028}\U{2029}\U{202F}\U{205F}\U{3000}"
    || '\U{2000}' <= c <= '\U{200A}'
  }

  /** The white space of Unicode, by code point. */
  lemma Spaces(c: char)
    ensures IsSpace(c) <==>
            var n := c as int;
            || 9 <= n <= 13 || n == 32 || n == 0x85 || n == 0xA0 || n == 0x1680
            || 0x2000 <= n <= 0x200A || n == 0x2028 || n == 0x2029 || n == 0x202F || n == 0x205F || n == 0x3000
  {
    assert '\t' as int == 9 && '\n' as int == 10 && '\r' as int == 13 && ' ' as int == 32;
  }

  function TrimLeft(s: string): string {
    if s != "" && IsSpace(s[0]) then TrimLeft(s[1..]) else s
  }

  function TrimRight(s: string): string {
    if s != "" && IsSpace(s[|s| - 1]) then TrimRight(s[..|s| - 1]) else s
  }

  /** `strings.TrimSpace` */
  function Trim(s: string): string {
    TrimRight(TrimLeft(s))
  }

  lemma {:induction false} TrimLeftCuts(s: string)
    ensures var n := |s| - |TrimLeft(s)|;
            n >= 0 && TrimLeft(s) == s[n..] && forall i :: 0 <= i < n ==> IsSpace(s[i])
    ensures TrimLeft(s) != "" ==> !IsSpace(TrimLeft(s)[0])
  {
    if s != "" && IsSpace(s[0]) {
      TrimLeftCuts(s[1..]);
      var n := |s| - 1 - |TrimLeft(s[1..])|;
      assert s[1..][n..] == s[n + 1..];
      assert forall i :: 0 <= i < n ==> s[i + 1] == s[1..][i];
      assert forall i :: 1 <= i < n + 1 ==> s[i] == s[1..][i - 1];
    }
  }

  lemma {:induction false} TrimRightCuts(s: string)
    ensures var n := |TrimRight(s)|;
            n <= |s| && TrimRight(s) == s[..n] && forall i :: n <= i < |s| ==> IsSpace(s[i])
    ensures TrimRight(s) != "" ==> !IsSpace(TrimRight(s)[|TrimRight(s)| - 1])
    decreases |s|
  {
    if s != "" && IsSpace(s[|s| - 1]) {
      TrimRightCuts(s[..|s| - 1]);
    }
  }

  /** Trimming cuts white space off both ends, and all of it. */
  lemma TrimCuts(s: string)
    ensures exists a: nat, b: nat ::
              && a <= b <= |s| && Trim(s) == s[a..b]
              && (forall i :: 0 <= i < a || b <= i < |s| ==> IsSpace(s[i]))
    ensures Trim(s) != "" ==> !IsSpace(Trim(s)[0]) && !IsSpace(Trim(s)[|Trim(s)| - 1])
  {
    TrimLeftCuts(s);
    TrimRightCuts(TrimLeft(s));
    var a := |s| - |TrimLeft(s)|;
    var b := a + |Trim(s)|;
    assert Trim(s) == s[a..b];
    assert forall i :: b <= i < |s| ==> s[i] == TrimLeft(s)[i - a];
  }
}
