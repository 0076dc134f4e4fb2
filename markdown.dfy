/**
 * The module's exported entry points: markdown is converted to HTML by the
 * `marked` library (with the two inline extensions registered) and the
 * result always goes through sanitize-html with `sanitizeOptions`. Neither
 * library's code is part of this model, so both are parameters.
 */
module Markdown {
  import opened Wrappers
  import opened SanitizePolicy
  import opened InlineExtensions

  /**
   * The foreign functions the module calls. marked runs the registered
   * tokenizers while it lexes and re-throws what they throw (it is not put
   * in silent mode here), so each of its entry points either returns HTML
   * (`Some`) or throws (`None`).
   */
  datatype Libraries = Libraries(
    markedParse: string -> Option<string>,
    markedParseInline: string -> Option<string>,
    sanitizeHtml: (string, SanitizeOptions) -> string)

  /** `html` is something sanitize-html returned when given this module's policy. */
  ghost predicate SanitizedWithPolicy(lib: Libraries, html: string) {
    exists h :: lib.sanitizeHtml(h, Options) == html
  }

  /** `sanitize`: sanitize-html with the policy of `SanitizePolicy.Options`. */
  function Sanitize(lib: Libraries, html: string): (r: string)
    ensures SanitizedWithPolicy(lib, r)
  {
    lib.sanitizeHtml(html, Options)
  }

  /**
   * `mdParseInline`: inline-only markdown, then `sanitize`. It throws
   * (`None`) exactly when marked does, and otherwise returns sanitised HTML.
   */
  function MdParseInline(lib: Libraries, s: string): (r: Option<string>)
    ensures r.None? <==> lib.markedParseInline(s).None?
    ensures r.Some? ==> SanitizedWithPolicy(lib, r.value)
  {
    match lib.markedParseInline(s)
    case None => None
    case Some(html) => Some(Sanitize(lib, html))
  }

  /**
   * `mdParse`: block and inline markdown, then `sanitize`. It throws
   * (`None`) exactly when marked does, and otherwise returns sanitised HTML.
   */
  function MdParse(lib: Libraries, s: string): (r: Option<string>)
    ensures r.None? <==> lib.markedParse(s).None?
    ensures r.Some? ==> SanitizedWithPolicy(lib, r.value)
  {
    match lib.markedParse(s)
    case None => None
    case Some(html) => Some(Sanitize(lib, html))
  }

  /**
   * There is no unsanitised way out: whatever sanitize-html guarantees of its
   * output under this policy holds of everything the exports return, when
   * they return rather than throw.
   */
  lemma ExportsInheritSanitizerGuarantee(lib: Libraries, P: string -> bool, s: string, html: string)
    requires forall h :: P(lib.sanitizeHtml(h, Options))
    ensures P(Sanitize(lib, html))
    ensures MdParseInline(lib, s).Some? ==> P(MdParseInline(lib, s).value)
    ensures MdParse(lib, s).Some? ==> P(MdParse(lib, s).value)
  {
  }

  /**
   * The policy keeps the extensions' markup intact: every element a renderer
   * opens is an allowed tag, an element with classes keeps its `class`
   * attribute, and each of those classes is allowed on it.
   */
  lemma ExtensionMarkupSurvivesPolicy(x: Extension)
    ensures var w := Markup(x);
      && Options.TagAllowed(w.outer.tag) && Options.TagAllowed(w.inner.tag)
      && (w.outer.classes != [] ==> "class" in Options.KeptAttrs(w.outer.tag))
      && (w.inner.classes != [] ==> "class" in Options.KeptAttrs(w.inner.tag))
      && (forall c :: c in w.outer.classes ==> c in Options.ClassesFor(w.outer.tag))
      && (forall c :: c in w.inner.classes ==> c in Options.ClassesFor(w.inner.tag))
  {
    ExtensionTagsAllowed();
    ClassesFailClosed("span");
    AttributesFailClosed("span");
  }
}
