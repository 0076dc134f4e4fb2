/**
 * The two pieces of ECMAScript string semantics the inline extensions rely on:
 * the white-space class shared by the RegExp escape `\s` and by
 * `String.prototype.trim`, and `trim` itself.
 */
module EcmaString {

  /**
   * WhiteSpace and LineTerminator code points of ECMA-262 (sections 12.2 and
   * 12.3). The RegExp class `\s` (section 22.2.2.9) and TrimString
   * (section 22.1.3.32.1) are both defined as exactly this set; the
   * Space_Separator (Zs) members are those of the current Unicode standard.
   */
  predicate IsWhitespace(c: char) {
    || c == '\t' || c == '\n' || c == '\U{000B}' || c == '\U{000C}' || c == '\r'
    || c == ' ' || c == '\U{00A0}' || c == '\U{1680}'
    || ('\U{2000}' <= c <= '\U{200A}')
    || c == '\U{2028}' || c == '\U{2029}' || c == '\U{202F}' || c == '\U{205F}'
    || c == '\U{3000}' || c == '\U{FEFF}'
  }

  /** Drops the leading white space of `s`. */
  function TrimStart(s: string): string {
    if s != [] && IsWhitespace(s[0]) then TrimStart(s[1..]) else s
  }

  /** Drops the trailing white space of `s`. */
  function TrimEnd(s: string): string {
    if s != [] && IsWhitespace(s[|s| - 1]) then TrimEnd(s[..|s| - 1]) else s
  }

  /** `String.prototype.trim` (TrimString with `start+end`). */
  function Trim(s: string): string {
    TrimEnd(TrimStart(s))
  }

  /** TrimStart removes a prefix made only of white space and stops at the first other character. */
  lemma {:induction false} TrimStartSpec(s: string)
    ensures var r := TrimStart(s);
      && |r| <= |s| && r == s[|s| - |r|..]
      && (forall i :: 0 <= i < |s| - |r| ==> IsWhitespace(s[i]))
      && (r != [] ==> !IsWhitespace(r[0]))
  {
    if s != [] && IsWhitespace(s[0]) {
      TrimStartSpec(s[1..]);
    }
  }

  /** TrimEnd removes a suffix made only of white space and stops at the last other character. */
  lemma {:induction false} TrimEndSpec(s: string)
    ensures var r := TrimEnd(s);
      && |r| <= |s| && r == s[..|r|]
      && (forall i :: |r| <= i < |s| ==> IsWhitespace(s[i]))
      && (r != [] ==> !IsWhitespace(r[|r| - 1]))
  {
    if s != [] && IsWhitespace(s[|s| - 1]) {
      TrimEndSpec(s[..|s| - 1]);
    }
  }

  /** `r` is the slice of `s` starting at `k` and everything around it is white space. */
  ghost predicate TrimmedAt(s: string, r: string, k: int) {
    && 0 <= k && k + |r| <= |s|
    && r == s[k..k + |r|]
    && (forall i :: 0 <= i < k ==> IsWhitespace(s[i]))
    && (forall i :: k + |r| <= i < |s| ==> IsWhitespace(s[i]))
  }

  /**
   * `trim` returns the slice of `s` left after removing white space at both
   * ends: everything cut off is white space, and what is left is empty or
   * starts and ends with a character that is not.
   */
  lemma TrimSpec(s: string)
    ensures exists k :: TrimmedAt(s, Trim(s), k)
    ensures Trim(s) != [] ==> !IsWhitespace(Trim(s)[0]) && !IsWhitespace(Trim(s)[|Trim(s)| - 1])
  {
    var t := TrimStart(s);
    TrimStartSpec(s);
    TrimEndSpec(t);
    assert TrimmedAt(s, Trim(s), |s| - |t|);
  }

  /** Trimming a single character keeps it exactly when it is not white space. */
  lemma TrimSingleton(c: char)
    ensures Trim([c]) == if IsWhitespace(c) then [] else [c]
  {
    var s := [c];
    assert s[1..] == [] && s[..0] == [];
    if IsWhitespace(c) {
      assert TrimStart(s) == TrimStart([]) == [];
    } else {
      assert TrimStart(s) == s;
      assert s[|s| - 1] == c;
      assert TrimEnd(s) == s;
    }
  }
}
