/**
 * The spoiler (`||…||`) and underline (`--…--`) inline extensions. Both are
 * the same rule over a two-character delimiter: a `start` scanner built on
 * the regex `dd(?!\s)`, a tokenizer built on `dd(?:(?!dd)([\s\S]))*dd`, and a
 * renderer that wraps already-rendered inner HTML in fixed markup.
 *
 * The regexes are modelled by the pattern semantics of ECMA-262 section 22.2
 * evaluated by RegExpBuiltinExec without the global flag: every start index
 * from 0 to the input length is tried in turn and the first one whose
 * backtracking match succeeds wins.
 */
module InlineExtensions {
  import opened Wrappers
  import opened EcmaString

  datatype Extension = Spoiler | Underline

  /** The character that, doubled, opens and closes a span of this extension. */
  function DelimiterChar(x: Extension): (c: char)
    ensures !IsWhitespace(c)
  {
    match x
    case Spoiler => '|'
    case Underline => '-'
  }

  /** The delimiter, `||` or `--`. */
  function Delimiter(x: Extension): string {
    [DelimiterChar(x), DelimiterChar(x)]
  }

  /** The delimiter occurs in `src` at index `k`. */
  predicate DelimiterAt(x: Extension, src: string, k: int) {
    0 <= k && k + 2 <= |src| && src[k] == DelimiterChar(x) && src[k + 1] == DelimiterChar(x)
  }

  /** `k` is the first index at or after `p` where the delimiter occurs. */
  ghost predicate FirstDelimiterFrom(x: Extension, src: string, p: int, k: int) {
    p <= k && DelimiterAt(x, src, k) && forall m :: p <= m < k ==> !DelimiterAt(x, src, m)
  }

  // ---------------------------------------------------------------------------
  // start(src): src.match(/dd(?!\s)/)?.index
  // ---------------------------------------------------------------------------

  /** The pattern `dd(?!\s)` matches at `k`; the lookahead succeeds at end of input. */
  predicate OpenerAt(x: Extension, src: string, k: int) {
    DelimiterAt(x, src, k) && !(k + 2 < |src| && IsWhitespace(src[k + 2]))
  }

  /** The exec loop of `dd(?!\s)` from index `k` on. */
  function StartFrom(x: Extension, src: string, k: nat): (r: Option<nat>)
    decreases |src| + 1 - k
    ensures r.Some? ==> k <= r.value && OpenerAt(x, src, r.value)
    ensures forall i :: k <= i && (r.None? || i < r.value) ==> !OpenerAt(x, src, i)
  {
    if k > |src| then None
    else if OpenerAt(x, src, k) then Some(k)
    else StartFrom(x, src, k + 1)
  }

  /**
   * `start`: the least index where the delimiter occurs and is not followed by
   * white space, or None (`undefined`) when there is none.
   */
  function Start(x: Extension, src: string): (r: Option<nat>)
    ensures r.Some? ==> OpenerAt(x, src, r.value)
    ensures r.Some? ==> forall i :: 0 <= i < r.value ==> !OpenerAt(x, src, i)
    ensures r.None? <==> forall i :: !OpenerAt(x, src, i)
  {
    StartFrom(x, src, 0)
  }

  // ---------------------------------------------------------------------------
  // tokenizer(src): rule.exec(src) with rule = /dd(?:(?!dd)([\s\S]))*dd/
  // ---------------------------------------------------------------------------

  /** What `exec` reports: `index`, `match[0] == src[index..end]` and `match[1]`. */
  datatype RegExpMatch = RegExpMatch(index: nat, end: nat, group1: Option<char>)

  /**
   * Matches `(?:(?!dd)([\s\S]))*` from `p` followed by the closing `dd`, with
   * `group1` the capture so far. As in ECMAScript's RepeatMatcher, the greedy
   * repetition first tries one more iteration (the lookahead `(?!dd)`, then any
   * one character, which resets and then sets group 1) and falls back to the
   * continuation only when that fails. Returns the end index and group 1.
   */
  function RepeatThenClose(x: Extension, src: string, p: nat, group1: Option<char>): (r: Option<(nat, Option<char>)>)
    requires p <= |src|
    decreases |src| - p
    ensures r.Some? ==> p + 2 <= r.value.0 <= |src| && FirstDelimiterFrom(x, src, p, r.value.0 - 2)
    ensures r.Some? ==> r.value.1 == if r.value.0 == p + 2 then group1 else Some(src[r.value.0 - 3])
    ensures r.None? ==> forall k :: p <= k ==> !DelimiterAt(x, src, k)
  {
    var again := if p < |src| && !DelimiterAt(x, src, p) then RepeatThenClose(x, src, p + 1, Some(src[p])) else None;
    if again.Some? then again
    else if DelimiterAt(x, src, p) then Some((p + 2, group1))
    else None
  }

  /** The whole pattern tried at index `i`. */
  function MatchAt(x: Extension, src: string, i: nat): (r: Option<RegExpMatch>)
    ensures r.Some? ==> r.value.index == i && DelimiterAt(x, src, i) && i + 4 <= r.value.end <= |src|
    ensures r.Some? ==> FirstDelimiterFrom(x, src, i + 2, r.value.end - 2)
    ensures r.Some? ==> r.value.group1 == if r.value.end == i + 4 then None else Some(src[r.value.end - 3])
    ensures r.None? ==> !DelimiterAt(x, src, i) || forall k :: i + 2 <= k ==> !DelimiterAt(x, src, k)
  {
    if DelimiterAt(x, src, i) then
      match RepeatThenClose(x, src, i + 2, None)
      case None => None
      case Some((end, group1)) => Some(RegExpMatch(i, end, group1))
    else None
  }

  /** The exec loop of the tokenizer's pattern from index `k` on. */
  function ExecFrom(x: Extension, src: string, k: nat): (r: Option<RegExpMatch>)
    decreases |src| + 1 - k
    ensures r.Some? ==> r.value.index + 4 <= r.value.end <= |src|
    ensures r.Some? ==> FirstDelimiterFrom(x, src, k, r.value.index)
    ensures r.Some? ==> FirstDelimiterFrom(x, src, r.value.index + 2, r.value.end - 2)
    ensures r.Some? ==> r.value.group1 == if r.value.end == r.value.index + 4 then None else Some(src[r.value.end - 3])
    ensures r.None? ==> forall i, j :: k <= i && i + 2 <= j ==> !(DelimiterAt(x, src, i) && DelimiterAt(x, src, j))
  {
    if k > |src| then None
    else
      var m := MatchAt(x, src, k);
      if m.Some? then m
      else
        var r := ExecFrom(x, src, k + 1);
        assert r.Some? ==> k + 2 <= r.value.end - 2 && DelimiterAt(x, src, r.value.end - 2);
        assert r.None? ==> forall i, j :: k <= i && i + 2 <= j ==> !(DelimiterAt(x, src, i) && DelimiterAt(x, src, j)) by {
          if r.None? {
            forall i, j | k <= i && i + 2 <= j && DelimiterAt(x, src, i)
              ensures !DelimiterAt(x, src, j)
            {
              if i == k {
                assert forall k' :: k + 2 <= k' ==> !DelimiterAt(x, src, k');
              }
            }
          }
        }
        r
  }

  /**
   * `rule.exec(src)`: the pattern matches exactly when the delimiter occurs
   * twice without overlapping. The match starts at the FIRST occurrence of the
   * delimiter (so it is not anchored at 0), ends after the first occurrence at
   * least two characters later, and group 1 is the last character between
   * them, or undefined when nothing lies between them.
   */
  function Exec(x: Extension, src: string): (r: Option<RegExpMatch>)
    ensures r.Some? <==> exists i, j :: 0 <= i && i + 2 <= j && DelimiterAt(x, src, i) && DelimiterAt(x, src, j)
    ensures r.Some? ==> r.value.index + 4 <= r.value.end <= |src|
    ensures r.Some? ==> FirstDelimiterFrom(x, src, 0, r.value.index)
    ensures r.Some? ==> FirstDelimiterFrom(x, src, r.value.index + 2, r.value.end - 2)
    ensures r.Some? ==> r.value.group1 == if r.value.end == r.value.index + 4 then None else Some(src[r.value.end - 3])
  {
    var r := ExecFrom(x, src, 0);
    assert r.Some? ==> DelimiterAt(x, src, r.value.index) && DelimiterAt(x, src, r.value.end - 2);
    r
  }

  /** `i` is the first delimiter of `src` and `j` the first one after it that leaves a non-empty body. */
  ghost predicate NonEmptySpan(x: Extension, src: string, i: int, j: int) {
    FirstDelimiterFrom(x, src, 0, i) && i + 2 < j && FirstDelimiterFrom(x, src, i + 2, j)
  }

  /** The token object the tokenizer returns; `innerSrc` is the text handed to `inlineTokens`. */
  datatype Token = Token(kind: Extension, raw: string, innerSrc: string)

  /** No match (`undefined`), a token, or the TypeError thrown by `match[1].trim()` on undefined. */
  datatype Tokenized = NoMatch | Matched(token: Token) | TypeError

  /**
   * `tokenizer`: no match when the delimiter does not occur twice; a TypeError
   * when the first occurrence is immediately followed by another (empty body);
   * otherwise a token whose raw text runs from the first occurrence to the
   * first closing one and whose inner source is the trimmed LAST body character.
   */
  function Tokenize(x: Extension, src: string): (r: Tokenized)
    ensures r.NoMatch? <==> !exists i, j :: 0 <= i && i + 2 <= j && DelimiterAt(x, src, i) && DelimiterAt(x, src, j)
    ensures r.TypeError? <==> exists i :: FirstDelimiterFrom(x, src, 0, i) && DelimiterAt(x, src, i + 2)
    ensures r.Matched? ==> exists i, j :: NonEmptySpan(x, src, i, j) && r.token == Token(x, src[i..j + 2], Trim([src[j - 1]]))
  {
    match Exec(x, src)
    case None => NoMatch
    case Some(m) =>
      assert FirstDelimiterFrom(x, src, 0, m.index);
      match m.group1
      case None => TypeError
      case Some(c) =>
        assert NonEmptySpan(x, src, m.index, m.end - 2);
        Matched(Token(x, src[m.index..m.end], Trim([c])))
  }

  // ---------------------------------------------------------------------------
  // The tokenizer as evidently intended: dd((?:(?!dd)[\s\S])+)dd
  // ---------------------------------------------------------------------------

  /** A delimiter at `i` opens a non-empty span: some delimiter occurs after a body of at least one character. */
  ghost predicate OpensNonEmpty(x: Extension, src: string, i: int) {
    DelimiterAt(x, src, i) && !DelimiterAt(x, src, i + 2) && exists j :: i + 2 < j && DelimiterAt(x, src, j)
  }

  /**
   * The corrected pattern tried at index `i`: the group now captures the whole
   * body, and `+` demands at least one body character. Returns the end index.
   */
  function IntendedMatchAt(x: Extension, src: string, i: nat): (r: Option<nat>)
    ensures r.Some? ==> OpensNonEmpty(x, src, i) && i + 5 <= r.value <= |src|
    ensures r.Some? ==> FirstDelimiterFrom(x, src, i + 2, r.value - 2)
    ensures r.None? ==> !OpensNonEmpty(x, src, i)
  {
    if DelimiterAt(x, src, i) && i + 2 < |src| && !DelimiterAt(x, src, i + 2) then
      match RepeatThenClose(x, src, i + 3, None)
      case None => None
      case Some((end, _)) => Some(end)
    else None
  }

  /** The exec loop of the corrected pattern from index `k` on; returns the index and the end. */
  function IntendedExecFrom(x: Extension, src: string, k: nat): (r: Option<(nat, nat)>)
    decreases |src| + 1 - k
    ensures r.Some? ==> k <= r.value.0 && OpensNonEmpty(x, src, r.value.0) && r.value.0 + 5 <= r.value.1 <= |src|
    ensures r.Some? ==> FirstDelimiterFrom(x, src, r.value.0 + 2, r.value.1 - 2)
    ensures forall i :: k <= i && (r.None? || i < r.value.0) ==> !OpensNonEmpty(x, src, i)
  {
    if k > |src| then None
    else
      match IntendedMatchAt(x, src, k)
      case Some(end) => Some((k, end))
      case None => IntendedExecFrom(x, src, k + 1)
  }

  /** `i` is the least index opening a non-empty span, and `j` the delimiter that closes it. */
  ghost predicate IntendedSpan(x: Extension, src: string, i: int, j: int) {
    && OpensNonEmpty(x, src, i) && (forall k :: 0 <= k < i ==> !OpensNonEmpty(x, src, k))
    && i + 2 < j && FirstDelimiterFrom(x, src, i + 2, j)
  }

  /**
   * The tokenizer with the capture group moved outside the repetition and
   * `*` made `+`: it never throws, it matches exactly when some delimiter
   * opens a non-empty span, and the inner source is the whole trimmed body
   * between the delimiters. Like the original it is unanchored and accepts
   * white space after the opening delimiter.
   */
  function IntendedTokenize(x: Extension, src: string): (r: Tokenized)
    ensures !r.TypeError?
    ensures r.NoMatch? <==> forall i :: !OpensNonEmpty(x, src, i)
    ensures r.Matched? ==> exists i, j :: IntendedSpan(x, src, i, j) && r.token == Token(x, src[i..j + 2], Trim(src[i + 2..j]))
  {
    match IntendedExecFrom(x, src, 0)
    case None => NoMatch
    case Some((i, end)) =>
      assert IntendedSpan(x, src, i, end - 2);
      Matched(Token(x, src[i..end], Trim(src[i + 2..end - 2])))
  }

  // ---------------------------------------------------------------------------
  // renderer(token)
  // ---------------------------------------------------------------------------

  /** The markup written before the rendered inner HTML. */
  function Prefix(x: Extension): string {
    match x
    case Spoiler => "<span class=\"spoiler\"><span>"
    case Underline => "<u><span>"
  }

  /** The markup written after the rendered inner HTML. */
  function Suffix(x: Extension): string {
    match x
    case Spoiler => "</span></span>"
    case Underline => "</span></u>"
  }

  /** `renderer`, given `inner`, the result of `parser.parseInline(token.inner)`. */
  function Render(x: Extension, inner: string): (h: string)
    ensures |h| == |Prefix(x)| + |inner| + |Suffix(x)|
    ensures h[..|Prefix(x)|] == Prefix(x) && h[|h| - |Suffix(x)|..] == Suffix(x)
    ensures h[|Prefix(x)|..|h| - |Suffix(x)|] == inner
  {
    Prefix(x) + inner + Suffix(x)
  }

  /** Strips the renderer's wrapping, if `h` has it. */
  function Unwrap(x: Extension, h: string): (r: Option<string>)
    ensures r.Some? ==> Render(x, r.value) == h
  {
    var p, s := Prefix(x), Suffix(x);
    if |p| + |s| <= |h| && h[..|p|] == p && h[|h| - |s|..] == s then
      var inner := h[|p|..|h| - |s|];
      assert h == h[..|p|] + inner + h[|h| - |s|..];
      Some(inner)
    else None
  }

  /** Unwrapping a rendered span gives back the inner HTML it was given. */
  lemma UnwrapRender(x: Extension, inner: string)
    ensures Unwrap(x, Render(x, inner)) == Some(inner)
  {
  }

  // ---------------------------------------------------------------------------
  // The markup the renderers emit, as elements
  // ---------------------------------------------------------------------------

  /** An element the renderers open: a tag name and its class tokens, no other attributes. */
  datatype Element = Element(tag: string, classes: seq<string>)

  /** The two elements each renderer wraps around the inner HTML. */
  datatype Wrapping = Wrapping(outer: Element, inner: Element)

  function Markup(x: Extension): Wrapping {
    match x
    case Spoiler => Wrapping(Element("span", ["spoiler"]), Element("span", []))
    case Underline => Wrapping(Element("u", []), Element("span", []))
  }

  function JoinClasses(classes: seq<string>): string {
    if |classes| <= 1 then (if classes == [] then "" else classes[0])
    else classes[0] + " " + JoinClasses(classes[1..])
  }

  function OpenTag(e: Element): string {
    "<" + e.tag + (if e.classes == [] then "" else " class=\"" + JoinClasses(e.classes) + "\"") + ">"
  }

  function CloseTag(e: Element): string {
    "</" + e.tag + ">"
  }

  /** The renderers' fixed strings are exactly the opening and closing tags of `Markup`, properly nested. */
  lemma RenderIsMarkup(x: Extension)
    ensures Prefix(x) == OpenTag(Markup(x).outer) + OpenTag(Markup(x).inner)
    ensures Suffix(x) == CloseTag(Markup(x).inner) + CloseTag(Markup(x).outer)
  {
    var w := Markup(x);
    assert OpenTag(w.inner) == "<span>";
    assert CloseTag(w.inner) == "</span>";
    match x
    case Spoiler =>
      assert JoinClasses(["spoiler"]) == "spoiler";
      assert OpenTag(w.outer) == "<span class=\"spoiler\">";
      assert CloseTag(w.outer) == "</span>";
    case Underline =>
      assert OpenTag(w.outer) == "<u>";
      assert CloseTag(w.outer) == "</u>";
  }
}
