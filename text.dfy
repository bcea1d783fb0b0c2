/** The few JavaScript string operations the core relies on: `trim`, `toLowerCase` and `includes`. */
module Text {

  /** Code points of ECMAScript's WhiteSpace and LineTerminator productions: what `trim` removes. */
  predicate IsJsWhitespace(c: char)
  {
    var n := c as int;
    n == 0x09 || n == 0x0A || n == 0x0B || n == 0x0C || n == 0x0D || n == 0x20 ||
    n == 0xA0 || n == 0x1680 || (0x2000 <= n <= 0x200A) || n == 0x2028 || n == 0x2029 ||
    n == 0x202F || n == 0x205F || n == 0x3000 || n == 0xFEFF
  }

  /** `s.trimStart()`: the longest suffix of `s` that does not start with whitespace. */
  function TrimStart(s: string): (r: string)
    ensures |r| <= |s| && r == s[|s| - |r|..]
    ensures r == [] || !IsJsWhitespace(r[0])
    ensures forall i :: 0 <= i < |s| - |r| ==> IsJsWhitespace(s[i])
  {
    if s != [] && IsJsWhitespace(s[0]) then TrimStart(s[1..]) else s
  }

  /** `s.trimEnd()`: the longest prefix of `s` that does not end with whitespace. */
  function TrimEnd(s: string): (r: string)
    ensures |r| <= |s| && r == s[..|r|]
    ensures r == [] || !IsJsWhitespace(r[|r| - 1])
    ensures forall i :: |r| <= i < |s| ==> IsJsWhitespace(s[i])
  {
    if s != [] && IsJsWhitespace(s[|s| - 1]) then TrimEnd(s[..|s| - 1]) else s
  }

  /**
   * `s.trim()`: the slice of `s` that starts where `trimStart` stops dropping whitespace;
   * it neither starts nor ends with whitespace, every character after it is whitespace,
   * and it is empty exactly for a blank `s`.
   */
  function Trim(s: string): (r: string)
    ensures r == [] || (!IsJsWhitespace(r[0]) && !IsJsWhitespace(r[|r| - 1]))
    ensures |r| <= |TrimStart(s)| && OccursAt(s, r, |s| - |TrimStart(s)|)
    ensures forall i :: |s| - |TrimStart(s)| + |r| <= i < |s| ==> IsJsWhitespace(s[i])
    ensures r == [] <==> IsBlank(s)
  {
    TrimSlice(s);
    TrimEnd(TrimStart(s))
  }

  /** Trimming the end keeps the first character of what remains. */
  lemma TrimEndKeepsFirst(t: string)
    ensures TrimEnd(t) == [] || TrimEnd(t)[0] == t[0]
  {
  }

  /**
   * What `trimEnd` keeps of `trimStart(s)`: a slice of `s` followed only by whitespace,
   * with no whitespace at either edge, and empty exactly for a blank `s`.
   */
  lemma TrimSlice(s: string)
    ensures var r := TrimEnd(TrimStart(s));
      r == [] || (!IsJsWhitespace(r[0]) && !IsJsWhitespace(r[|r| - 1]))
    ensures var t := TrimStart(s); var r := TrimEnd(t);
      |r| <= |t| && OccursAt(s, r, |s| - |t|)
    ensures var t := TrimStart(s); var r := TrimEnd(t);
      forall i :: |s| - |t| + |r| <= i < |s| ==> IsJsWhitespace(s[i])
    ensures TrimEnd(TrimStart(s)) == [] <==> IsBlank(s)
  {
    var t := TrimStart(s);
    TrimEndKeepsFirst(t);
    TrimEmptyIffBlank(s);
    PrefixOfSuffix(s, |s| - |t|, t, |TrimEnd(t)|);
    WhitespaceAfterPrefix(s, |s| - |t|, t, |TrimEnd(t)|);
  }

  /** A prefix of the suffix of `s` from `k` is the slice of `s` at `k`. */
  lemma PrefixOfSuffix(s: string, k: nat, t: string, n: nat)
    requires k <= |s| && t == s[k..] && n <= |t|
    ensures OccursAt(s, t[..n], k)
  {
    assert s[k..k + n] == t[..n];
  }

  /** Whitespace after the first `n` characters of the suffix of `s` from `k` is whitespace in `s`. */
  lemma WhitespaceAfterPrefix(s: string, k: nat, t: string, n: nat)
    requires k <= |s| && t == s[k..] && n <= |t|
    requires forall j :: n <= j < |t| ==> IsJsWhitespace(t[j])
    ensures forall i :: k + n <= i < |s| ==> IsJsWhitespace(s[i])
  {
    forall i | k + n <= i < |s|
      ensures IsJsWhitespace(s[i])
    {
      assert s[i] == t[i - k];
    }
  }

  /** A string made of whitespace only, the strings whose `trim()` is `''` (the one falsy string). */
  predicate IsBlank(s: string)
  {
    forall i :: 0 <= i < |s| ==> IsJsWhitespace(s[i])
  }

  /** `!s.trim()` holds exactly for the blank strings. */
  lemma {:induction false} TrimEmptyIffBlank(s: string)
    ensures TrimEnd(TrimStart(s)) == "" <==> IsBlank(s)
  {
    var t := TrimStart(s);
    if t != [] {
      assert !IsJsWhitespace(t[0]);
    }
  }

  /** JavaScript's `toLowerCase` on one character, for the ASCII letters. */
  function LowerChar(c: char): char
  {
    if 'A' <= c <= 'Z' then (c as int - 'A' as int + 'a' as int) as char else c
  }

  /** `s.toLowerCase()`, character by character. */
  function ToLowerCase(s: string): (r: string)
    ensures |r| == |s| && forall i :: 0 <= i < |s| ==> r[i] == LowerChar(s[i])
  {
    seq(|s|, i requires 0 <= i < |s| => LowerChar(s[i]))
  }

  /** `s.includes(part)`: `part` occurs in `s` at some position. */
  function Includes(s: string, part: string): (r: bool)
    ensures part == [] ==> r
    ensures r ==> |part| <= |s|
    ensures |part| <= |s| && s[..|part|] == part ==> r
    ensures |part| <= |s| && s[|s| - |part|..] == part ==> r
  {
    assert |part| <= |s| ==> OccursAt(s, part, 0) == (s[..|part|] == part);
    assert |part| <= |s| ==> OccursAt(s, part, |s| - |part|) == (s[|s| - |part|..] == part);
    exists i :: 0 <= i <= |s| - |part| && OccursAt(s, part, i)
  }

  /** `part` is the slice of `s` that starts at `i`. */
  predicate OccursAt(s: string, part: string, i: int)
    requires 0 <= i <= |s| - |part|
  {
    s[i..i + |part|] == part
  }
}
