/**
 * The options object handed to sanitize-html: which tags, attributes per
 * tag, classes per tag and URL schemes survive sanitisation. The arrays of
 * the options object are kept as sequences (duplicates included); the
 * queries read them with set semantics, as sanitize-html does.
 */
module SanitizePolicy {

  /** sanitize-html's `disallowedTagsMode` values. */
  datatype DisallowedTagsMode = Discard | Escape | RecursiveEscape | CompletelyDiscard

  datatype SanitizeOptions = SanitizeOptions(
    allowedTags: seq<string>,
    disallowedTagsMode: DisallowedTagsMode,
    allowedAttributes: map<string, seq<string>>,
    allowedClasses: map<string, seq<string>>,
    selfClosing: seq<string>,
    allowedSchemes: seq<string>,
    allowedSchemesByTag: map<string, seq<string>>,
    allowedSchemesAppliedToAttributes: seq<string>,
    allowProtocolRelative: bool,
    enforceHtmlBoundary: bool)
  {
    // How sanitize-html reads each option.

    predicate TagAllowed(tag: string) {
      tag in allowedTags
    }

    /** The attribute names listed for `tag` in `allowedAttributes`; a tag without an entry lists none. */
    function AttrsFor(tag: string): set<string> {
      if tag in allowedAttributes then set a | a in allowedAttributes[tag] else {}
    }

    /**
     * The attribute names sanitize-html keeps on `tag`: those listed for it,
     * plus `class` when the tag has an `allowedClasses` entry (sanitize-html
     * allows the class attribute implicitly there and then filters its tokens).
     */
    function KeptAttrs(tag: string): set<string> {
      AttrsFor(tag) + (if tag in allowedClasses then {"class"} else {})
    }

    /** The class tokens kept on `tag`; a tag without an entry keeps none. */
    function ClassesFor(tag: string): set<string> {
      if tag in allowedClasses then set c | c in allowedClasses[tag] else {}
    }

    /** The schemes a URL attribute of `tag` may use: the per-tag list if any, else the global one. */
    function SchemesFor(tag: string): set<string> {
      if tag in allowedSchemesByTag then set s | s in allowedSchemesByTag[tag]
      else set s | s in allowedSchemes
    }

    predicate SchemeAllowed(tag: string, scheme: string) {
      scheme in SchemesFor(tag)
    }

    /** The attribute's value is subject to the scheme check. */
    predicate SchemeChecked(attr: string) {
      attr in allowedSchemesAppliedToAttributes
    }

    predicate SelfClosing(tag: string) {
      tag in selfClosing
    }

    predicate ProtocolRelativeAllowed() {
      allowProtocolRelative
    }
  }

  /**
   * The tag list, one row per line of the source literal: 73 entries, of
   * which "main" (entries 12 and 24) and "u" (entries 57 and 70) are repeats.
   */
  const AllowedTagList: seq<string> :=
    ["address", "article", "aside", "footer", "header", "h1", "h2", "h3", "h4"] +
    ["h5", "h6", "hgroup", "main", "nav", "section", "blockquote", "dd", "div"] +
    ["dl", "dt", "figcaption", "figure", "hr", "li", "main", "ol", "p", "pre"] +
    ["ul", "a", "abbr", "b", "bdi", "bdo", "br", "cite", "code", "data", "dfn"] +
    ["em", "i", "kbd", "mark", "q", "rb", "rp", "rt", "rtc", "ruby", "s", "samp"] +
    ["small", "span", "strong", "sub", "sup", "time", "u", "var", "wbr", "caption"] +
    ["col", "colgroup", "table", "tbody", "td", "tfoot", "th", "thead", "tr", "u"] +
    ["img", "del"]

  /** `sanitizeOptions`. */
  const Options: SanitizeOptions := SanitizeOptions(
    allowedTags := AllowedTagList,
    disallowedTagsMode := Discard,
    allowedAttributes := map[
      "a" := ["href", "name", "target"],
      "img" := ["src", "srcset", "alt", "title", "width", "height", "loading"],
      "i" := ["emoji-src", "emoji-orig"]
    ],
    allowedClasses := map[
      "span" := ["spoiler"],
      "i" := ["custom-emoji"]
    ],
    selfClosing := ["img", "br", "hr", "area", "base", "basefont", "input", "link", "meta"],
    allowedSchemes := ["http", "https", "ftp", "mailto", "tel"],
    allowedSchemesByTag := map[],
    allowedSchemesAppliedToAttributes := ["href", "src", "cite"],
    allowProtocolRelative := true,
    enforceHtmlBoundary := false)

  /** The name starts with `on`, as every inline event-handler attribute does. */
  predicate IsEventHandlerName(attr: string) {
    |attr| >= 2 && attr[0] == 'o' && attr[1] == 'n'
  }

  // ---------------------------------------------------------------------------
  // Facts about the table
  // ---------------------------------------------------------------------------

  /** The tags the extensions emit are allowed; "main" and "u" are listed twice, which set semantics absorb. */
  lemma ExtensionTagsAllowed()
    ensures Options.TagAllowed("span") && Options.TagAllowed("u")
    ensures |AllowedTagList| == 73
    ensures AllowedTagList[12] == AllowedTagList[24] == "main"
    ensures AllowedTagList[57] == AllowedTagList[70] == "u"
  {
    TagListLayout();
    assert AllowedTagList[52] == "span";
  }

  /** Where the extensions' tags and the repeated entries sit in the list. */
  lemma TagListLayout()
    ensures |AllowedTagList| == 73
    ensures AllowedTagList[12] == AllowedTagList[24] == "main"
    ensures AllowedTagList[52] == "span"
    ensures AllowedTagList[57] == AllowedTagList[70] == "u"
  {
  }

  /** Disallowed tags are discarded with their contents kept, and no document boundary is enforced. */
  lemma DiscardModeNoBoundary()
    ensures Options.disallowedTagsMode == Discard && !Options.enforceHtmlBoundary
  {
  }

  // One tag per lemma: each keeps the comparison against the 73 entries small.
  lemma ScriptNotListed() ensures "script" !in AllowedTagList {}
  lemma StyleNotListed() ensures "style" !in AllowedTagList {}
  lemma IframeNotListed() ensures "iframe" !in AllowedTagList {}
  lemma ObjectNotListed() ensures "object" !in AllowedTagList {}
  lemma FormNotListed() ensures "form" !in AllowedTagList {}

  /** Script-capable, style and embedding tags are not on the allow-list, so they are discarded. */
  lemma DangerousTagsRejected()
    ensures !Options.TagAllowed("script") && !Options.TagAllowed("style") && !Options.TagAllowed("iframe")
    ensures !Options.TagAllowed("object") && !Options.TagAllowed("form")
  {
    ScriptNotListed();
    StyleNotListed();
    IframeNotListed();
    ObjectNotListed();
    FormNotListed();
  }

  /** Only `a`, `img` and `i` list attributes; none lists `class` or an event handler. */
  lemma ListedAttributes(tag: string)
    ensures Options.AttrsFor(tag) != {} <==> tag in {"a", "img", "i"}
    ensures "class" !in Options.AttrsFor(tag)
    ensures forall a :: a in Options.AttrsFor(tag) ==> !IsEventHandlerName(a)
  {
    assert "href" in Options.AttrsFor("a");
    assert "src" in Options.AttrsFor("img");
    assert "emoji-src" in Options.AttrsFor("i");
  }

  /**
   * Only `a`, `img` and `i` keep an attribute other than `class`; `class` is
   * kept exactly on `span` and `i`; and no kept attribute is an event handler.
   */
  lemma AttributesFailClosed(tag: string)
    ensures Options.KeptAttrs(tag) - {"class"} != {} <==> tag in {"a", "img", "i"}
    ensures "class" in Options.KeptAttrs(tag) <==> tag in {"span", "i"}
    ensures forall a :: a in Options.KeptAttrs(tag) ==> !IsEventHandlerName(a)
  {
    ListedAttributes(tag);
    var listed := Options.AttrsFor(tag);
    assert Options.KeptAttrs(tag) - {"class"} == listed;
    assert tag in Options.allowedClasses <==> tag in {"span", "i"};
  }

  /** `spoiler` is the only class kept on `span`, `custom-emoji` the only one on `i`, and no other tag keeps a class. */
  lemma ClassesFailClosed(tag: string)
    ensures Options.ClassesFor("span") == {"spoiler"} && Options.ClassesFor("i") == {"custom-emoji"}
    ensures Options.ClassesFor(tag) != {} <==> tag in {"span", "i"}
  {
    assert "spoiler" in Options.ClassesFor("span");
    assert "custom-emoji" in Options.ClassesFor("i");
  }

  /**
   * Every tag uses the same five schemes, the check applies to `href`, `src`
   * and `cite`, and protocol-relative URLs are accepted; `javascript` and
   * `data` are not schemes any tag may use.
   */
  lemma SchemesFailClosed(tag: string)
    ensures Options.SchemesFor(tag) == {"http", "https", "ftp", "mailto", "tel"}
    ensures !Options.SchemeAllowed(tag, "javascript") && !Options.SchemeAllowed(tag, "data")
    ensures Options.SchemeChecked("href") && Options.SchemeChecked("src") && Options.SchemeChecked("cite")
    ensures Options.ProtocolRelativeAllowed()
  {
  }

  /** The void elements markdown produces, `img`, `br` and `hr`, are allowed and written without a closing tag. */
  lemma VoidElementsSelfClosing()
    ensures forall t :: t in ["img", "br", "hr"] ==> Options.SelfClosing(t) && Options.TagAllowed(t)
  {
  }
}
