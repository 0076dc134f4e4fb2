/**
 * Properties of the inline extensions that relate several of their
 * operations: the shape of a token's raw text, how the tokenizer's match
 * differs from what `start` reports, and worked examples of each.
 */
module InlineExtensionFacts {
  import opened Wrappers
  import opened EcmaString
  import opened InlineExtensions

  /** `s` occurs in `src` at index `i`. */
  ghost predicate InfixAt(s: string, src: string, i: int) {
    0 <= i && i + |s| <= |src| && src[i..i + |s|] == s
  }

  /**
   * The raw text of a token is a slice of the input at least five characters
   * long that starts and ends with the delimiter and has no delimiter
   * starting inside its body.
   */
  lemma RawTokenShape(x: Extension, src: string, t: Token)
    requires Tokenize(x, src) == Matched(t)
    ensures t.kind == x && |t.raw| >= 5 && exists i :: InfixAt(t.raw, src, i)
    ensures t.raw[..2] == Delimiter(x) && t.raw[|t.raw| - 2..] == Delimiter(x)
    ensures forall k :: 2 <= k < |t.raw| - 2 ==> !DelimiterAt(x, t.raw, k)
  {
    var i, j :| NonEmptySpan(x, src, i, j) && t == Token(x, src[i..j + 2], Trim([src[j - 1]]));
    SpanShape(x, src, i, j);
  }

  /** The shape of the slice spanning a first delimiter and its first non-adjacent closing delimiter. */
  lemma SpanShape(x: Extension, src: string, i: int, j: int)
    requires NonEmptySpan(x, src, i, j)
    ensures var raw := src[i..j + 2];
      && |raw| >= 5 && InfixAt(raw, src, i)
      && raw[..2] == Delimiter(x) && raw[|raw| - 2..] == Delimiter(x)
      && forall k :: 2 <= k < |raw| - 2 ==> !DelimiterAt(x, raw, k)
  {
    var raw := src[i..j + 2];
    forall k | 2 <= k < |raw| - 2
      ensures !DelimiterAt(x, raw, k)
    {
      assert raw[k] == src[i + k] && raw[k + 1] == src[i + k + 1];
      assert !DelimiterAt(x, src, i + k);
    }
    assert DelimiterAt(x, src, i) && DelimiterAt(x, src, j);
  }

  /**
   * The text handed to `inlineTokens` is the trimmed LAST body character of
   * the raw text, never the whole body: it is at most one character long.
   */
  lemma InnerSourceIsLastBodyChar(x: Extension, src: string, t: Token)
    requires Tokenize(x, src) == Matched(t)
    ensures |t.raw| >= 5 && t.innerSrc == Trim([t.raw[|t.raw| - 3]])
    ensures |t.innerSrc| <= 1
  {
    var i, j :| NonEmptySpan(x, src, i, j) && t == Token(x, src[i..j + 2], Trim([src[j - 1]]));
    assert t.raw[|t.raw| - 3] == src[j - 1];
    TrimSingleton(src[j - 1]);
  }

  /**
   * The converse of the tokenizer's contract: whenever the first delimiter of
   * `src` is at `i` and the first delimiter that leaves a non-empty body is at
   * `j`, the tokenizer returns exactly the token spanning them.
   */
  lemma TokenizeSpan(x: Extension, src: string, i: int, j: int)
    requires NonEmptySpan(x, src, i, j)
    ensures Tokenize(x, src) == Matched(Token(x, src[i..j + 2], Trim([src[j - 1]])))
  {
    var r := Tokenize(x, src);
    assert DelimiterAt(x, src, i) && DelimiterAt(x, src, j);
    var i', j' :| NonEmptySpan(x, src, i', j') && r.token == Token(x, src[i'..j' + 2], Trim([src[j' - 1]]));
    assert i' == i;
    assert j' == j;
  }

  /**
   * The token starts at the least index `i` for which some delimiter occurs
   * at an index `j >= i + 2`.
   */
  lemma SpanStartIsLeastPairStart(x: Extension, src: string, i: int, j: int)
    requires NonEmptySpan(x, src, i, j)
    ensures forall i', j' :: 0 <= i' < i && i' + 2 <= j' ==> !(DelimiterAt(x, src, i') && DelimiterAt(x, src, j'))
  {
  }

  /**
   * The tokenizer's match begins at or before the index `start` reports: it is
   * not anchored at that index and does not apply the no-white-space rule.
   */
  lemma MatchNotAfterStart(x: Extension, src: string)
    requires Exec(x, src).Some? && Start(x, src).Some?
    ensures Exec(x, src).value.index <= Start(x, src).value
  {
  }

  // ---------------------------------------------------------------------------
  // Worked examples
  // ---------------------------------------------------------------------------

  /** `||secret||` is matched whole, but only its last body character reaches `inlineTokens`. */
  lemma SecretKeepsOnlyLastChar()
    ensures Tokenize(Spoiler, "||secret||") == Matched(Token(Spoiler, "||secret||", "t"))
  {
    var src := "||secret||";
    assert NonEmptySpan(Spoiler, src, 0, 8);
    TokenizeSpan(Spoiler, src, 0, 8);
    TrimSingleton('t');
  }

  /** When the last body character is white space the inner source is empty. */
  lemma TrailingSpaceEmptiesInner()
    ensures Tokenize(Spoiler, "||ab ||") == Matched(Token(Spoiler, "||ab ||", ""))
  {
    var src := "||ab ||";
    assert NonEmptySpan(Spoiler, src, 0, 5);
    TokenizeSpan(Spoiler, src, 0, 5);
    TrimSingleton(' ');
  }

  /**
   * An empty body (`||||`, `----`): `start` reports an opener at 0, the
   * pattern matches, and `match[1].trim()` then throws.
   */
  lemma EmptyBodyThrows(x: Extension)
    ensures Start(x, Delimiter(x) + Delimiter(x)) == Some(0)
    ensures Tokenize(x, Delimiter(x) + Delimiter(x)) == TypeError
  {
    var src := Delimiter(x) + Delimiter(x);
    DoubledDelimiterOpens(x, src, 0);
    assert FirstDelimiterFrom(x, src, 0, 0) && DelimiterAt(x, src, 2);
  }

  /**
   * A delimiter directly followed by the delimiter character passes the
   * `(?!\s)` lookahead, so `start` counts it as an opener.
   */
  lemma DoubledDelimiterOpens(x: Extension, src: string, k: int)
    requires DelimiterAt(x, src, k) && k + 2 < |src| && src[k + 2] == DelimiterChar(x)
    ensures OpenerAt(x, src, k)
  {
  }

  /** The tokenizer is not anchored: the match may begin after index 0. */
  lemma MatchNotAnchored()
    ensures Tokenize(Underline, "a --b-- c") == Matched(Token(Underline, "--b--", "b"))
  {
    var src := "a --b-- c";
    assert NonEmptySpan(Underline, src, 2, 5);
    TokenizeSpan(Underline, src, 2, 5);
    TrimSingleton('b');
  }

  /**
   * `start` rejects the first `||` of `|| foo||` because a space follows it,
   * yet the tokenizer matches the whole string from that very delimiter.
   */
  lemma TokenizerIgnoresWhitespaceRule()
    ensures Start(Spoiler, "|| foo||") == Some(6)
    ensures Tokenize(Spoiler, "|| foo||") == Matched(Token(Spoiler, "|| foo||", "o"))
  {
    var src := "|| foo||";
    assert OpenerAt(Spoiler, src, 6);
    assert NonEmptySpan(Spoiler, src, 0, 6);
    TokenizeSpan(Spoiler, src, 0, 6);
    TrimSingleton('o');
  }

  /** `start` can find nothing where the tokenizer still produces a token. */
  lemma TokenWithoutStart()
    ensures Start(Spoiler, "|| a|| b") == None
    ensures Tokenize(Spoiler, "|| a|| b") == Matched(Token(Spoiler, "|| a||", "a"))
  {
    var src := "|| a|| b";
    assert NonEmptySpan(Spoiler, src, 0, 4);
    TokenizeSpan(Spoiler, src, 0, 4);
    TrimSingleton('a');
  }

  /**
   * Text need not start with the delimiter to make the tokenizer throw: in
   * `a ---- b` the first `--` is directly followed by another.
   */
  lemma DashRunThrows()
    ensures Tokenize(Underline, "a ---- b") == TypeError
  {
    var src := "a ---- b";
    assert FirstDelimiterFrom(Underline, src, 0, 2) && DelimiterAt(Underline, src, 4);
  }

  // ---------------------------------------------------------------------------
  // The corrected tokenizer
  // ---------------------------------------------------------------------------

  /**
   * With the corrected pattern the raw text is delimiter, non-empty body,
   * delimiter, and the inner source is that whole body, trimmed.
   */
  lemma IntendedBodyRoundTrip(x: Extension, src: string, t: Token)
    requires IntendedTokenize(x, src) == Matched(t)
    ensures |t.raw| >= 5 && exists i :: InfixAt(t.raw, src, i)
    ensures t.raw == Delimiter(x) + t.raw[2..|t.raw| - 2] + Delimiter(x)
    ensures t.innerSrc == Trim(t.raw[2..|t.raw| - 2])
  {
    var i, j := IntendedWitness(x, src, t);
    BodyBetweenDelimiters(x, src, t, i, j);
  }

  /** A token spanning delimiters at `i` and `j` has the body between them as its trimmed inner source. */
  lemma BodyBetweenDelimiters(x: Extension, src: string, t: Token, i: int, j: int)
    requires 0 <= i && i + 2 < j && DelimiterAt(x, src, i) && DelimiterAt(x, src, j)
    requires t == Token(x, src[i..j + 2], Trim(src[i + 2..j]))
    ensures |t.raw| >= 5 && exists i :: InfixAt(t.raw, src, i)
    ensures t.raw == Delimiter(x) + t.raw[2..|t.raw| - 2] + Delimiter(x)
    ensures t.innerSrc == Trim(t.raw[2..|t.raw| - 2])
  {
    SliceAround(src, i, j);
    assert src[i..j + 2][..2] == Delimiter(x) && src[i..j + 2][j - i..] == Delimiter(x);
  }

  /** The delimiters a corrected token spans. */
  lemma IntendedWitness(x: Extension, src: string, t: Token) returns (i: int, j: int)
    requires IntendedTokenize(x, src) == Matched(t)
    ensures 0 <= i && i + 2 < j && DelimiterAt(x, src, i) && DelimiterAt(x, src, j)
    ensures IntendedSpan(x, src, i, j)
    ensures t == Token(x, src[i..j + 2], Trim(src[i + 2..j]))
  {
    i, j :| IntendedSpan(x, src, i, j) && t == Token(x, src[i..j + 2], Trim(src[i + 2..j]));
  }

  /** The slice from `i` to `j + 2` is its first two characters, `src[i + 2..j]`, and its last two. */
  lemma SliceAround(src: string, i: int, j: int)
    requires 0 <= i && i + 2 <= j && j + 2 <= |src|
    ensures var raw := src[i..j + 2];
      && InfixAt(raw, src, i) && |raw| == j + 2 - i
      && raw[2..|raw| - 2] == src[i + 2..j]
      && raw == raw[..2] + src[i + 2..j] + raw[|raw| - 2..]
  {
    var raw, body := src[i..j + 2], src[i + 2..j];
    assert forall k :: 0 <= k < |body| ==> raw[2..|raw| - 2][k] == src[i + 2 + k] == body[k];
    assert raw[2..|raw| - 2] == body;
    assert raw == raw[..2] + raw[2..|raw| - 2] + raw[|raw| - 2..];
  }

  /**
   * The converse of the corrected tokenizer's contract: the least opener of a
   * non-empty span and its first closing delimiter always yield that token.
   */
  lemma IntendedTokenizeSpan(x: Extension, src: string, i: int, j: int)
    requires IntendedSpan(x, src, i, j)
    ensures IntendedTokenize(x, src) == Matched(Token(x, src[i..j + 2], Trim(src[i + 2..j])))
  {
    var r := IntendedTokenize(x, src);
    var i', j' := IntendedWitness(x, src, r.token);
    SameSpan(x, src, i, j, i', j');
  }

  /** A text has at most one corrected span. */
  lemma SameSpan(x: Extension, src: string, i: int, j: int, i': int, j': int)
    requires IntendedSpan(x, src, i, j) && IntendedSpan(x, src, i', j')
    ensures i == i' && j == j'
  {
  }

  /** `||secret||` spans the delimiters at 0 and 8. */
  lemma SecretSpan()
    ensures IntendedSpan(Spoiler, "||secret||", 0, 8)
  {
    var src := "||secret||";
    assert DelimiterAt(Spoiler, src, 8);
  }

  /** The corrected tokenizer hands all of `secret` to `inlineTokens`. */
  lemma IntendedSecretKeepsBody()
    ensures IntendedTokenize(Spoiler, "||secret||") == Matched(Token(Spoiler, "||secret||", "secret"))
  {
    var src := "||secret||";
    SecretSpan();
    IntendedTokenizeSpan(Spoiler, src, 0, 8);
    assert src[0..10] == src;
    assert src[2..8] == "secret";
    assert TrimStart("secret") == "secret";
    assert TrimEnd("secret") == "secret";
  }

  /** The corrected tokenizer does not match an empty body. */
  lemma IntendedEmptyBodyNoMatch(x: Extension)
    ensures IntendedTokenize(x, Delimiter(x) + Delimiter(x)) == NoMatch
  {
    var src := Delimiter(x) + Delimiter(x);
    assert |src| == 4;
  }
}
