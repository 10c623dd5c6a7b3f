/**
 The string operations the post editor relies on: JavaScript's
 `String.prototype.trim` and the notion of a blank (whitespace-only) string.
 */
module Text {

  /** The code points ECMAScript's `trim` removes: WhiteSpace (TAB, VT, FF,
      ZWNBSP and every space separator of category Zs) and LineTerminator
      (LF, CR, LS, PS). */
  predicate IsWhitespace(c: char) {
    var n := c as int;
    n == 0x09 || n == 0x0A || n == 0x0B || n == 0x0C || n == 0x0D ||
    n == 0x20 || n == 0xA0 || n == 0x1680 ||
    (0x2000 <= n <= 0x200A) ||
    n == 0x2028 || n == 0x2029 || n == 0x202F || n == 0x205F ||
    n == 0x3000 || n == 0xFEFF
  }

  /** A string is blank when every character in it is whitespace (the empty
      string included). */
  predicate IsBlank(s: string) {
    forall i :: 0 <= i < |s| ==> IsWhitespace(s[i])
  }

  /** Drops the leading whitespace: the result is the longest suffix of `s`
      that does not start with whitespace, and everything dropped is blank. */
  function TrimStart(s: string): (r: string)
    ensures |r| <= |s| && r == s[|s| - |r|..]
    ensures IsBlank(s[..|s| - |r|])
    ensures r == [] || !IsWhitespace(r[0])
  {
    if |s| > 0 && IsWhitespace(s[0]) then
      var r := TrimStart(s[1..]);
      BlankHeadDropped(s, r);
      r
    else s
  }

  /** Drops the trailing whitespace: the result is the longest prefix of `s`
      that does not end with whitespace, and everything dropped is blank. */
  function TrimEnd(s: string): (r: string)
    ensures |r| <= |s| && r == s[..|r|]
    ensures IsBlank(s[|r|..])
    ensures r == [] || !IsWhitespace(r[|r| - 1])
  {
    if |s| > 0 && IsWhitespace(s[|s| - 1]) then
      var r := TrimEnd(s[..|s| - 1]);
      BlankTailDropped(s, r);
      r
    else s
  }

  /** One step of `TrimStart`: a suffix of `s[1..]` behind a blank prefix is
      also a suffix of `s` behind a blank prefix when `s[0]` is whitespace. */
  lemma BlankHeadDropped(s: string, r: string)
    requires |s| > 0 && IsWhitespace(s[0])
    requires |r| <= |s| - 1 && r == s[1..][|s| - 1 - |r|..]
    requires IsBlank(s[1..][..|s| - 1 - |r|])
    ensures r == s[|s| - |r|..] && IsBlank(s[..|s| - |r|])
  {
    assert forall i :: 1 <= i < |s| - |r| ==> s[i] == s[1..][..|s| - 1 - |r|][i - 1];
  }

  /** One step of `TrimEnd`: a prefix of `s[..|s| - 1]` before a blank suffix
      is also a prefix of `s` before a blank suffix when the last character
      of `s` is whitespace. */
  lemma BlankTailDropped(s: string, r: string)
    requires |s| > 0 && IsWhitespace(s[|s| - 1])
    requires |r| <= |s| - 1 && r == s[..|s| - 1][..|r|]
    requires IsBlank(s[..|s| - 1][|r|..])
    ensures r == s[..|r|] && IsBlank(s[|r|..])
  {
    assert forall i :: |r| <= i < |s| - 1 ==> s[i] == s[..|s| - 1][|r|..][i - |r|];
  }

  /** `s.trim()`: `s` with its leading and trailing whitespace removed. Its
      result is empty exactly when `s` is blank, which is what the editor's
      `!s.trim()` tests. */
  function Trim(s: string): (r: string)
    ensures |r| <= |s|
    ensures r == [] <==> IsBlank(s)
    ensures r == [] || (!IsWhitespace(r[0]) && !IsWhitespace(r[|r| - 1]))
    ensures exists k: nat :: k <= |s| - |r| && IsTrimmedSlice(s, k, r)
  {
    var t := TrimStart(s);
    var r := TrimEnd(t);
    BlankEndsRemoved(s, t, r);
    r
  }

  /** `r` is the part of `s` from `k` on, after a blank prefix `s[..k]` and
      before a blank suffix. */
  predicate IsTrimmedSlice(s: string, k: nat, r: string)
    requires k + |r| <= |s|
  {
    r == s[k..k + |r|] && IsBlank(s[..k]) && IsBlank(s[k + |r|..])
  }

  /** Removing the whitespace prefix of `s` (leaving `t`) and then the
      whitespace suffix of `t` (leaving `r`) keeps a slice of `s` between a
      blank prefix and a blank suffix; nothing is left exactly when `s` is
      blank, and anything left starts and ends with non-whitespace. */
  lemma BlankEndsRemoved(s: string, t: string, r: string)
    requires |t| <= |s| && t == s[|s| - |t|..] && IsBlank(s[..|s| - |t|])
    requires t == [] || !IsWhitespace(t[0])
    requires |r| <= |t| && r == t[..|r|] && IsBlank(t[|r|..])
    requires r == [] || !IsWhitespace(r[|r| - 1])
    ensures |s| - |t| + |r| <= |s|
    ensures IsTrimmedSlice(s, |s| - |t|, r)
    ensures r == [] <==> IsBlank(s)
    ensures r == [] || (!IsWhitespace(r[0]) && !IsWhitespace(r[|r| - 1]))
  {
    var k := |s| - |t|;
    assert s[k + |r|..] == t[|r|..];
    if |t| > 0 {
      // the first character left by TrimStart is not whitespace, so it
      // survives TrimEnd and makes s non-blank
      assert t[0] == s[k];
      assert !IsBlank(s);
      assert t[|r|..] == [] || t[|r|..][0] == t[|r|];
      assert |r| > 0;
      assert r[0] == t[0];
    } else {
      assert s == s[..k];
    }
  }
}
