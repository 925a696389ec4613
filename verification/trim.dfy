/** String trimming as String.prototype.trim does it (ECMA-262, 2024 edition,
    section 22.1.3.32): drop the white space at both ends of a string, where
    white space is the WhiteSpace and LineTerminator productions of section 12.2
    and section 12.3. */
module Trimming {

  /** WhiteSpace (TAB, VT, FF, ZWNBSP and every Space_Separator code point of
      Unicode 15) or LineTerminator (LF, CR, LS, PS). */
  predicate IsWhite(c: char) {
    c == '\t' || c == '\U{000B}' || c == '\U{000C}' || c == '\U{FEFF}'
    || c == ' ' || c == '\U{00A0}' || c == '\U{1680}' || ('\U{2000}' <= c <= '\U{200A}')
    || c == '\U{202F}' || c == '\U{205F}' || c == '\U{3000}'
    || c == '\n' || c == '\r' || c == '\U{2028}' || c == '\U{2029}'
  }

  /** A string made of white space only (the empty string included). */
  predicate Blank(s: string) {
    forall i :: 0 <= i < |s| ==> IsWhite(s[i])
  }

  /** The string without its leading white space. */
  function TrimStart(s: string): string
    decreases |s|
  {
    if |s| > 0 && IsWhite(s[0]) then TrimStart(s[1..]) else s
  }

  /** TrimStart keeps a suffix, cuts off white space only, and leaves a
      string that is empty or starts with a character that is not white. */
  lemma {:induction false} TrimStartCuts(s: string)
    ensures var r := TrimStart(s);
            |r| <= |s| && r == s[|s| - |r|..] && Blank(s[..|s| - |r|])
            && (r == [] || !IsWhite(r[0]))
    decreases |s|
  {
    if |s| > 0 && IsWhite(s[0]) {
      TrimStartCuts(s[1..]);
      var r := TrimStart(s[1..]);
      var k := |s| - |r|;
      assert s[1..][..k - 1] == s[1..k];
      forall i | 0 <= i < k ensures IsWhite(s[..k][i]) {
        if i > 0 {
          assert s[..k][i] == s[1..][..k - 1][i - 1];
        }
      }
    }
  }

  /** The string without its trailing white space. */
  function TrimEnd(s: string): string
    decreases |s|
  {
    if |s| > 0 && IsWhite(s[|s| - 1]) then TrimEnd(s[..|s| - 1]) else s
  }

  /** TrimEnd keeps a prefix, cuts off white space only, and leaves a string
      that is empty or ends with a character that is not white. */
  lemma {:induction false} TrimEndCuts(s: string)
    ensures var r := TrimEnd(s);
            |r| <= |s| && r == s[..|r|] && Blank(s[|r|..])
            && (r == [] || !IsWhite(r[|r| - 1]))
    decreases |s|
  {
    if |s| > 0 && IsWhite(s[|s| - 1]) {
      var p := s[..|s| - 1];
      TrimEndCuts(p);
      var r := TrimEnd(p);
      assert p[..|r|] == s[..|r|];
      forall i | 0 <= i < |s| - |r| ensures IsWhite(s[|r|..][i]) {
        if i < |p| - |r| {
          assert s[|r|..][i] == p[|r|..][i];
        }
      }
    }
  }

  /** String.prototype.trim: the core of `s` between its leading and its
      trailing white space. It is empty exactly when `s` is blank, and
      otherwise it starts and ends with a character that is not white. */
  function Trim(s: string): (r: string)
    ensures |r| <= |s|
    ensures r == [] <==> Blank(s)
    ensures r != [] ==> !IsWhite(r[0]) && !IsWhite(r[|r| - 1])
  {
    var t := TrimStart(s);
    var r := TrimEnd(t);
    assert |r| <= |s| && (r == [] <==> Blank(s))
           && (r != [] ==> !IsWhite(r[0]) && !IsWhite(r[|r| - 1])) by {
      TrimStartCuts(s);
      TrimEndCuts(t);
      assert r == [] ==> t == [];
      assert r == [] ==> Blank(s) by {
        assert s[..|s|] == s;
      }
      assert r != [] ==> !Blank(s) by {
        if r != [] {
          assert t[0] == s[|s| - |t|];
        }
      }
    }
    r
  }

  /** Trim keeps a contiguous piece of its argument, and what it cuts off on
      either side is white space only. */
  lemma TrimIsInfix(s: string)
    ensures var k := |s| - |TrimStart(s)|;
            0 <= k && k + |Trim(s)| <= |s| && Trim(s) == s[k..k + |Trim(s)|]
            && Blank(s[..k]) && Blank(s[k + |Trim(s)|..])
  {
    var t := TrimStart(s);
    var k := |s| - |t|;
    var r := TrimEnd(t);
    TrimStartCuts(s);
    TrimEndCuts(t);
    assert r == Trim(s);
    assert t == s[k..];
    assert r == t[..|r|] == s[k..k + |r|];
    assert t[|r|..] == s[k + |r|..];
  }

  /** Trimming twice is trimming once. */
  lemma TrimIdempotent(s: string)
    ensures Trim(Trim(s)) == Trim(s)
  {
    var r := Trim(s);
    if r != [] {
      assert TrimStart(r) == r;
      assert TrimEnd(r) == r;
    }
  }
}
