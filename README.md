# Markdown spoiler/underline extensions and sanitisation policy, in Dafny

This project models `src/logic/markdown.ts` of a Telegram-channel blog front end. That file turns
user text into HTML in two steps: the `marked` library parses the text, with two custom inline
rules registered, and the HTML then goes through `sanitize-html` under a fixed allow-list.

The model has five modules:

- `EcmaString` (`ecma_string.dfy`): the white-space set that the RegExp escape `\s` and
  `String.prototype.trim` share, as ECMA-262 defines it (WhiteSpace plus LineTerminator), and
  `trim` itself.
- `InlineExtensions` (`inline_extensions.dfy`): the spoiler rule (`||…||`) and the underline rule
  (`--…--`). They are written once, as one rule over the delimiter of an `Extension`. The rule has:
  - `Start`, the `start` scanner built on `/dd(?!\s)/`;
  - `Exec`, the tokenizer's regex `/dd(?:(?!dd)([\s\S]))*dd/`. It is evaluated as ECMAScript does:
    each start index is tried in turn, and the greedy loop tries one more iteration before the
    continuation. Each iteration resets the capture group, so group 1 ends up holding the last
    iteration's character;
  - `Tokenize`, whose outcome is no match, a token (raw text plus the text handed to
    `inlineTokens`), or the TypeError that `match[1].trim()` throws when group 1 is `undefined`;
  - `Render`, which is the renderers' fixed wrapping. It also has a partner, `Unwrap`, and a
    description of the markup as elements.

  The module also holds `IntendedTokenize`, a corrected tokenizer (see Findings).
- `InlineExtensionFacts` (`inline_extension_facts.dfy`): properties that relate several
  operations, and worked examples.
- `SanitizePolicy` (`sanitize_policy.dfy`): the `sanitizeOptions` object as a record, with
  queries that read it the way sanitize-html does, including its implicit allowance of the `class`
  attribute on every tag with an `allowedClasses` entry. Also facts about the table: it is fail-closed,
  and it keeps the extensions' markup.
- `Markdown` (`markdown.dfy`): `sanitize`, `mdParseInline` and `mdParse`. The code of `marked` and
  `sanitize-html` is not part of this model, so they come in as function-valued parameters
  (`Libraries`).

The tokenizer does not agree with `start`, or with what its renderer evidently expects. The model
follows the code in each case:

- `start` reports an opener wherever it occurs, but the tokenizer's regex is not anchored to it. Its
  match starts at the first delimiter in the text, wherever that is.
- `start` rejects an opening delimiter followed by white space; the tokenizer does not.
- An empty body (`||||`) is not rejected. It matches and then throws, and marked passes the throw on
  to the exports.
- The renderer parses `token.inner` as the span's content, but only the last body character
  reaches `inlineTokens`.

## Model

The `sanitizeOptions` literal (lines 54-82) is the constant `SanitizePolicy.Options`, with its tag
list in `SanitizePolicy.AllowedTagList`. Constants carry no contract, so the `SanitizePolicy` rows
below stand for them: together they state the table's contents.

| member | source | states |
|---|---|---|
| `EcmaString.TrimStartSpec` | src/logic/markdown.ts:19 | the leading half of `trim` removes only white space, and stops at the first character that is not white space |
| `EcmaString.TrimEndSpec` | src/logic/markdown.ts:19 | the trailing half of `trim` removes only white space, and stops at the last character that is not white space |
| `EcmaString.TrimSpec` | src/logic/markdown.ts:19 | `trim` returns a slice of its input. Everything cut off is white space. The result is empty, or starts and ends with a character that is not white space |
| `EcmaString.TrimSingleton` | src/logic/markdown.ts:19 | trimming a one-character string keeps the character exactly when it is not white space |
| `InlineExtensions.DelimiterChar` | src/logic/markdown.ts:11 | neither `\|` nor `-` is white space, so a doubled delimiter passes the `(?!\s)` lookahead (used by `DoubledDelimiterOpens`) |
| `InlineExtensions.StartFrom` | src/logic/markdown.ts:11 | the exec loop of `dd(?!\s)` from `k` returns the least index `>= k` where the pattern matches, or nothing when there is none |
| `InlineExtensions.Start` | src/logic/markdown.ts:10-12 | `start` returns the least `i` such that the delimiter is at `i` and `i + 2` is the end of the text or not white space; it returns None when no `i` qualifies. The same holds for `--` (lines 30-32) |
| `InlineExtensions.RepeatThenClose` | src/logic/markdown.ts:14 | the greedy loop followed by the closing delimiter ends right after the first delimiter at or after `p`. Group 1 is the character just before that delimiter, or is unchanged when the loop made no iteration. It fails only when no delimiter follows |
| `InlineExtensions.MatchAt` | src/logic/markdown.ts:14-15 | at index `i` the pattern matches exactly when the delimiter is at `i` and occurs again at some index `>= i + 2`. The match closes at the first such occurrence |
| `InlineExtensions.ExecFrom` | src/logic/markdown.ts:14-15 | the exec loop from `k` fails exactly when no two delimiters at least 2 apart both start at or after `k`. Otherwise its match starts at the first delimiter at or after `k` |
| `InlineExtensions.Exec` | src/logic/markdown.ts:14-15 | `rule.exec(src)` succeeds iff the delimiter occurs at some `i` and again at some `j >= i + 2`. The match runs from the first delimiter to the first delimiter at least two characters later. Group 1 is the last character between them, or undefined when nothing lies between them. The same holds for `--` (lines 34-35) |
| `InlineExtensions.Tokenize` | src/logic/markdown.ts:13-21 | `tokenizer` finds no match iff no two delimiters are 2 or more apart. It throws iff the first delimiter is followed directly by another. Otherwise its token's raw text is `src[i..j+2]`, where `i` is the first delimiter and `j` the first delimiter after a non-empty body. The inner source is `trim` of `src[j-1]` only. The same holds for underline (lines 33-43) |
| `InlineExtensions.IntendedMatchAt` | src/logic/markdown.ts:14 | the corrected pattern matches at `i` exactly when a delimiter at `i` opens a non-empty body that another delimiter closes |
| `InlineExtensions.IntendedExecFrom` | src/logic/markdown.ts:14-15 | the corrected exec loop returns the least index `>= k` that opens a non-empty span. It also returns the first closing delimiter of that span |
| `InlineExtensions.IntendedTokenize` | src/logic/markdown.ts:13-21 | the corrected tokenizer never throws. It matches iff some delimiter opens a non-empty span. The inner source is the whole body, trimmed |
| `InlineExtensions.Render` | src/logic/markdown.ts:22-24 | the rendered HTML is the fixed prefix, then the inner HTML unchanged, then the fixed suffix |
| `InlineExtensions.Unwrap` | src/logic/markdown.ts:23 | whatever `Unwrap` extracts, wrapped again by `Render`, gives back the input |
| `InlineExtensions.UnwrapRender` | src/logic/markdown.ts:23 | stripping the renderer's prefix and suffix gives back the inner HTML |
| `InlineExtensions.RenderIsMarkup` | src/logic/markdown.ts:23 | the prefix and suffix are exactly the open and close tags of two nested elements. For the spoiler they are `span` with class `spoiler` around a bare `span`; for underline (line 45) they are `u` around a bare `span` |
| `InlineExtensionFacts.RawTokenShape` | src/logic/markdown.ts:14-19 | raw text is a slice of the input of length at least 5. It starts and ends with the delimiter, and no delimiter starts inside its body |
| `InlineExtensionFacts.SpanShape` | src/logic/markdown.ts:14-15 | the slice from the first delimiter to its first non-adjacent closing delimiter is at least 5 long. It starts and ends with the delimiter, and no delimiter starts inside its body |
| `InlineExtensionFacts.InnerSourceIsLastBodyChar` | src/logic/markdown.ts:19 | the text handed to `inlineTokens` is `trim` of the raw text's last body character, so it is at most one character long |
| `InlineExtensionFacts.TokenizeSpan` | src/logic/markdown.ts:13-20 | converse of `Tokenize`: the first delimiter together with its first non-adjacent closing delimiter always yields exactly that token |
| `InlineExtensionFacts.SpanStartIsLeastPairStart` | src/logic/markdown.ts:14-15 | the token starts at the least `i` for which the delimiter occurs again at some `j >= i + 2` |
| `InlineExtensionFacts.MatchNotAfterStart` | src/logic/markdown.ts:10-15 | the tokenizer's match never starts after the index `start` reports |
| `InlineExtensionFacts.SecretKeepsOnlyLastChar` | src/logic/markdown.ts:19 | `\|\|secret\|\|` is matched whole, with inner source `t` |
| `InlineExtensionFacts.TrailingSpaceEmptiesInner` | src/logic/markdown.ts:19 | `\|\|ab \|\|` is matched whole, with inner source `""` |
| `InlineExtensionFacts.EmptyBodyThrows` | src/logic/markdown.ts:10-19 | `start` reports `\|\|\|\|` and `----` at index 0, and they match with group 1 undefined, so the tokenizer throws (also lines 30-40) |
| `InlineExtensionFacts.DoubledDelimiterOpens` | src/logic/markdown.ts:11 | a delimiter directly followed by the delimiter character is an opener for `start` |
| `InlineExtensionFacts.DashRunThrows` | src/logic/markdown.ts:34-40 | the underline tokenizer throws on `a ---- b`: its first `--` is directly followed by another, so the body is empty |
| `InlineExtensionFacts.MatchNotAnchored` | src/logic/markdown.ts:34-35 | in `a --b-- c` the underline token is `--b--`, found at offset 2 |
| `InlineExtensionFacts.TokenizerIgnoresWhitespaceRule` | src/logic/markdown.ts:10-15 | `start` of `\|\| foo\|\|` is 6, yet the tokenizer matches the whole string from index 0 |
| `InlineExtensionFacts.TokenWithoutStart` | src/logic/markdown.ts:10-15 | `start` of `\|\| a\|\| b` finds nothing, yet the tokenizer returns the token `\|\| a\|\|` |
| `InlineExtensionFacts.IntendedBodyRoundTrip` | src/logic/markdown.ts:14-19 | with the corrected pattern, raw text is delimiter + body + delimiter and the inner source is `trim` of that whole body |
| `InlineExtensionFacts.BodyBetweenDelimiters` | src/logic/markdown.ts:19 | a token spanning delimiters at `i` and `j` carries the trimmed text between them as inner source |
| `InlineExtensionFacts.IntendedTokenizeSpan` | src/logic/markdown.ts:13-21 | converse of `IntendedTokenize`: the least opener of a non-empty span, with its first closing delimiter, always yields the token of the whole trimmed body |
| `InlineExtensionFacts.SameSpan` | src/logic/markdown.ts:14-15 | a text has at most one corrected span, so the corrected token is determined by the input |
| `InlineExtensionFacts.IntendedSecretKeepsBody` | src/logic/markdown.ts:19 | the corrected tokenizer hands `secret` to `inlineTokens` for `\|\|secret\|\|` |
| `InlineExtensionFacts.IntendedEmptyBodyNoMatch` | src/logic/markdown.ts:17-19 | the corrected tokenizer does not match `\|\|\|\|` or `----` |
| `SanitizePolicy.ExtensionTagsAllowed` | src/logic/markdown.ts:55-65 | `span` and `u` are allowed tags. The list has 73 entries, and `main` and `u` each appear twice |
| `SanitizePolicy.TagListLayout` | src/logic/markdown.ts:55-65 | the list has 73 entries, with `main` at 12 and 24, `span` at 52, and `u` at 57 and 70 |
| `SanitizePolicy.DiscardModeNoBoundary` | src/logic/markdown.ts:66-81 | disallowed tags are discarded, and no HTML boundary is enforced |
| `SanitizePolicy.DangerousTagsRejected` | src/logic/markdown.ts:55-65 | `script`, `style`, `iframe`, `object` and `form` are not allowed tags |
| `SanitizePolicy.ListedAttributes` | src/logic/markdown.ts:67-71 | a tag has an `allowedAttributes` entry iff it is `a`, `img` or `i`. No entry lists `class` or a name starting with `on` |
| `SanitizePolicy.AttributesFailClosed` | src/logic/markdown.ts:67-75 | a tag keeps an attribute other than `class` iff it is `a`, `img` or `i`. sanitize-html keeps `class` implicitly on tags with an `allowedClasses` entry, so it is kept iff the tag is `span` or `i`. No kept attribute name starts with `on` |
| `SanitizePolicy.ClassesFailClosed` | src/logic/markdown.ts:72-75 | `span` keeps exactly the class `spoiler` and `i` keeps exactly `custom-emoji`. A tag keeps some class iff it is `span` or `i` |
| `SanitizePolicy.SchemesFailClosed` | src/logic/markdown.ts:77-80 | every tag's URL schemes are exactly http, https, ftp, mailto and tel, so `javascript` and `data` are rejected. The check covers `href`, `src` and `cite`, and protocol-relative URLs are allowed |
| `SanitizePolicy.VoidElementsSelfClosing` | src/logic/markdown.ts:76 | `img`, `br` and `hr` are allowed and self-closing |
| `Markdown.Sanitize` | src/logic/markdown.ts:84 | the result is an output of sanitize-html under this policy |
| `Markdown.MdParseInline` | src/logic/markdown.ts:85 | throws exactly when marked throws (e.g. when an extension's tokenizer throws); otherwise the result is an output of sanitize-html under this policy |
| `Markdown.MdParse` | src/logic/markdown.ts:86 | throws exactly when marked throws (e.g. when an extension's tokenizer throws); otherwise the result is an output of sanitize-html under this policy |
| `Markdown.ExportsInheritSanitizerGuarantee` | src/logic/markdown.ts:84-86 | any property that sanitize-html guarantees for its output under this policy holds for every result an export returns |
| `Markdown.ExtensionMarkupSurvivesPolicy` | src/logic/markdown.ts:72-75 | every element a renderer opens is an allowed tag. An element with classes keeps its `class` attribute, and each of its classes is allowed on that tag |

## Left out

- `marked` internals are not modelled: the block and inline grammars, `lexer.inlineTokens`, `parser.parseInline`, the way the outer scan uses `start` and `raw`, and rule ordering. Their code is not part of this model. `Render` takes the already-rendered inner HTML as input, and a token carries the text it would hand to `inlineTokens`.
- `sanitize-html` internals are not modelled: HTML parsing, filtering and serialisation. Its code is not part of this model, so idempotence and "the output contains no unsafe markup" cannot be proved here. Only the policy table is checked, together with the fact that every export goes through it.
- The `marked.use(...)` registration (line 49) is left out. It mutates the library's global state and has no logic of its own.
- The `this` binding of the extension objects and the commented-out logging are left out.
- Strings are sequences of Unicode scalar values, whereas JavaScript indexes UTF-16 code units. For text with characters outside the Basic Multilingual Plane, the source's indices differ, and its group 1 can be a lone surrogate.
- `IsWhitespace` uses the Space_Separator set of the current Unicode standard. An engine built on an older Unicode version may differ.
- `Markdown.MdParse`, `Markdown.MdParseInline`: the model does not show that `mdParse("")` returns an empty string. That depends on `marked`, whose code is not part of this model.
- `Markdown.MdParse`, `Markdown.MdParseInline`: the model does not derive when marked throws. marked's entry points are parameters returning `None` for a throw. The model proves the exports throw exactly when marked does, and proves the tokenizer's TypeError (`Tokenize`, `DashRunThrows`). The step in between is not modelled: that marked reaches the tokenizer on such text and re-throws. That step lives in marked's lexer.

## Findings

| source | as written | input that shows it | evidently intended | confidence | as-written member | corrected member |
|---|---|---|---|---|---|---|
| src/logic/markdown.ts:14 | the group `([\s\S])` sits inside the `*` repetition, so `match[1]` holds only the last body character. `inlineTokens` therefore gets at most one character (the same applies to line 34) | `\|\|secret\|\|` gives inner source `t` | the whole body, trimmed (`secret`), is parsed as the span's content: `dd((?:(?!dd)[\s\S])+)dd` | high; not executed | `InlineExtensionFacts.SecretKeepsOnlyLastChar` | `InlineExtensionFacts.IntendedSecretKeepsBody` |
| src/logic/markdown.ts:19 | an empty body still matches, with group 1 undefined, so `match[1].trim()` throws a TypeError (the same applies to line 40) | `\|\|\|\|`, `----` | an empty span is not a match, and the text stays literal | high; not executed | `InlineExtensionFacts.EmptyBodyThrows` | `InlineExtensionFacts.IntendedEmptyBodyNoMatch` |
