/**
 * The regular expressions of the comment stripper as prefix recognisers:
 * the tokenizer's own constants (lib/parse.ts) and the per-language comment
 * syntax table (lib/languages.ts). Every expression is anchored with `^`, so
 * each one is a function from the remaining input to a match of a prefix.
 */
module StripLanguages {
  import opened Wrappers
  import opened JsStrings
  import opened StripNode

  datatype Recogniser =
    | EscapedChar                 // /^\\./
    | QuotedString                // /^([`'"])((?:\\\1|(?!\1).)*)\1/s
    | NewlineRun                  // /^\r*\n/
    | PlainText                   // /^[a-zABD-Z0-9\t ]+/
    | Lit(lit: string)            // /^lit/, no capture group
    | LitRestOfLine(lit: string)  // /^lit.*/, no capture group
    | SlashStarOpen               // /^\/\*\*?(!?)/
    | StarSlashClose              // /^\*\/(\n?)/
    | SlashSlashLine              // /^\/\/(!?).*/
    | PhpLine                     // /^(#|\/\/).*?(?=\?>|\n)/

  /** A literal recogniser must not match the empty string, or the tokenizer could not advance. */
  predicate WellFormed(r: Recogniser) {
    (r.Lit? ==> r.lit != "") && (r.LitRestOfLine? ==> r.lit != "")
  }

  predicate IsQuote(c: char) {
    c == '`' || c == '\'' || c == '"'
  }

  /** The characters of `[a-zABD-Z0-9\t ]`: the upper-case `C` is left out on purpose. */
  predicate IsPlainChar(c: char) {
    ('a' <= c <= 'z') || c == 'A' || c == 'B' || ('D' <= c <= 'Z') || ('0' <= c <= '9') || c == '\t' || c == ' '
  }

  /** Where a greedy run of `[a-zABD-Z0-9\t ]` starting at `from` stops. */
  function PlainEnd(s: string, from: nat): (e: nat)
    requires from <= |s|
    ensures from <= e <= |s|
    ensures forall i :: from <= i < e ==> IsPlainChar(s[i])
    ensures e < |s| ==> !IsPlainChar(s[e])
    decreases |s| - from
  {
    if from == |s| || !IsPlainChar(s[from]) then from else PlainEnd(s, from + 1)
  }

  /** Where a greedy run of `\r` starting at `from` stops. */
  function CrEnd(s: string, from: nat): (e: nat)
    requires from <= |s|
    ensures from <= e <= |s|
    ensures forall i :: from <= i < e ==> s[i] == '\r'
    ensures e < |s| ==> s[e] != '\r'
    decreases |s| - from
  {
    if from == |s| || s[from] != '\r' then from else CrEnd(s, from + 1)
  }

  /**
   * The end of a match of `((?:\\\1|(?!\1).)*)\1` from index `p`, where `q` is
   * the opening quote, in the order the backtracking engine tries it: one more
   * escaped quote first, then one more character other than `q`, and only then
   * the closing quote.
   */
  function QuoteEnd(s: string, q: char, p: nat): (e: Option<nat>)
    requires p <= |s|
    ensures e.Some? ==> p < e.value <= |s| && s[e.value - 1] == q
    decreases |s| - p
  {
    var viaEscape := if p + 1 < |s| && s[p] == '\\' && s[p + 1] == q then QuoteEnd(s, q, p + 2) else None;
    if viaEscape.Some? then viaEscape
    else
      var viaOther := if p < |s| && s[p] != q then QuoteEnd(s, q, p + 1) else None;
      if viaOther.Some? then viaOther
      else if p < |s| && s[p] == q then Some(p + 1)
      else None
  }

  /** The lazy `.*?(?=\?>|\n)`: the first index from `p` followed by `?>` or a line feed, without crossing a line terminator. */
  function PhpLineEnd(s: string, p: nat): (e: Option<nat>)
    requires p <= |s|
    ensures e.Some? ==> p <= e.value <= |s|
    ensures e.Some? ==> forall i :: p <= i < e.value ==> !IsLineTerminator(s[i])
    decreases |s| - p
  {
    if StartsWith(s[p..], "?>") || (p < |s| && s[p] == '\n') then Some(p)
    else if p < |s| && !IsLineTerminator(s[p]) then PhpLineEnd(s, p + 1)
    else None
  }

  /** `regex.exec(s)` for an anchored recogniser: the match is always a prefix of `s`, and never empty. */
  function Exec(r: Recogniser, s: string): (m: Match)
    ensures m.Matched? ==> m.whole <= s
    ensures m.Matched? && WellFormed(r) ==> |m.whole| > 0
  {
    match r
    case EscapedChar =>
      if |s| >= 2 && s[0] == '\\' && !IsLineTerminator(s[1]) then Matched(s[..2], None) else NoMatch
    case QuotedString =>
      if |s| >= 1 && IsQuote(s[0]) && QuoteEnd(s, s[0], 1).Some? then
        Matched(s[..QuoteEnd(s, s[0], 1).value], Some([s[0]]))
      else NoMatch
    case NewlineRun =>
      var k := CrEnd(s, 0);
      if k < |s| && s[k] == '\n' then Matched(s[..k + 1], None) else NoMatch
    case PlainText =>
      var k := PlainEnd(s, 0);
      if k > 0 then Matched(s[..k], None) else NoMatch
    case Lit(l) =>
      if StartsWith(s, l) then Matched(l, None) else NoMatch
    case LitRestOfLine(l) =>
      if StartsWith(s, l) then Matched(s[..LineEnd(s, |l|)], None) else NoMatch
    case SlashStarOpen =>
      if StartsWith(s, "/*") then
        var i := if 2 < |s| && s[2] == '*' then 3 else 2;
        if i < |s| && s[i] == '!' then Matched(s[..i + 1], Some("!")) else Matched(s[..i], Some(""))
      else NoMatch
    case StarSlashClose =>
      if StartsWith(s, "*/") then
        if 2 < |s| && s[2] == '\n' then Matched(s[..3], Some("\n")) else Matched(s[..2], Some(""))
      else NoMatch
    case SlashSlashLine =>
      if StartsWith(s, "//") then
        var g := if 2 < |s| && s[2] == '!' then "!" else "";
        Matched(s[..LineEnd(s, 2 + |g|)], Some(g))
      else NoMatch
    case PhpLine =>
      var g := if StartsWith(s, "#") then "#" else if StartsWith(s, "//") then "//" else "";
      if g != "" && PhpLineEnd(s, |g|).Some? then Matched(s[..PhpLineEnd(s, |g|).value], Some(g)) else NoMatch
  }

  /** One entry of the language table; a missing regular expression is `None`. */
  datatype Language = Language(line: Option<Recogniser>, open: Option<Recogniser>, close: Option<Recogniser>)

  const CStyle := Language(Some(SlashSlashLine), Some(SlashStarOpen), Some(StarSlashClose))
  const TripleQuote := "\"\"\""
  const PythonStyle := Language(Some(LitRestOfLine("#")), Some(Lit(TripleQuote)), Some(Lit(TripleQuote)))
  const MlStyle := Language(None, Some(Lit("(*")), Some(Lit("*)")))
  /** What the lookup yields for an inherited `Object.prototype` member: no comment syntax at all. */
  const NoComments := Language(None, None, None)

  const Table: map<string, Language> := map[
    "ada" := Language(Some(LitRestOfLine("--")), None, None),
    "apl" := Language(Some(LitRestOfLine("\U{00E2}")), None, None),
    "applescript" := MlStyle,
    "csharp" := Language(Some(LitRestOfLine("//")), None, None),
    "haskell" := Language(Some(LitRestOfLine("--")), Some(Lit("{-")), Some(Lit("-}"))),
    "javascript" := CStyle,
    "lua" := Language(Some(LitRestOfLine("--")), Some(Lit("--[[")), Some(Lit("]]"))),
    "matlab" := Language(Some(LitRestOfLine("%")), Some(Lit("%{")), Some(Lit("%}"))),
    "perl" := Language(Some(LitRestOfLine("#")), None, None),
    "php" := Language(Some(PhpLine), Some(SlashStarOpen), Some(StarSlashClose)),
    "ruby" := Language(Some(LitRestOfLine("#")), Some(Lit("=begin")), Some(Lit("=end"))),
    "shebang" := Language(Some(LitRestOfLine("#!")), None, None),
    "python" := PythonStyle,
    "c" := CStyle,
    "css" := CStyle,
    "java" := CStyle,
    "js" := CStyle,
    "less" := CStyle,
    "pascal" := MlStyle,
    "ocaml" := MlStyle,
    "sass" := CStyle,
    "sql" := Language(Some(LitRestOfLine("--")), None, None),
    "swift" := CStyle,
    "ts" := CStyle,
    "typscript" := CStyle
  ]

  /**
   * `languages[name]`: a table entry, or, for the two lower-case names that
   * an object literal inherits from `Object.prototype`, a value with none of
   * the three expressions; `None` is `undefined`.
   */
  function LanguageNamed(name: string): (l: Option<Language>)
    ensures name in Table ==> l == Some(Table[name])
    ensures l.None? <==> name !in Table && name != "constructor" && name != "__proto__"
  {
    if name in Table then Some(Table[name])
    else if name == "constructor" || name == "__proto__" then Some(NoComments)
    else None
  }

  /** A recogniser for line comments whose matches never span a line terminator. */
  predicate SingleLine(r: Recogniser) {
    r.SlashSlashLine? || r.PhpLine? || (r.LitRestOfLine? && forall i | 0 <= i < |r.lit| :: !IsLineTerminator(r.lit[i]))
  }

  predicate LanguageWellFormed(l: Language) {
    (l.line.Some? ==> WellFormed(l.line.value) && SingleLine(l.line.value))
    && (l.open.Some? ==> WellFormed(l.open.value))
    && (l.close.Some? ==> WellFormed(l.close.value))
  }

  lemma TableWellFormed(name: string)
    requires LanguageNamed(name).Some?
    ensures LanguageWellFormed(LanguageNamed(name).value)
  {
  }

  /**
   * `tripleQuotes`: every block expression the language defines has the
   * source `^"""`. It holds for Python and, because `every` of an empty list
   * is true, for a language without block expressions.
   */
  predicate TripleQuotes(l: Language) {
    (l.open.Some? ==> l.open.value == Lit(TripleQuote)) && (l.close.Some? ==> l.close.value == Lit(TripleQuote))
  }

  // A block-comment opener of the C family is protected exactly when it is written `/*!` or `/**!`.
  lemma OpenProtectedIffBang(s: string)
    requires Exec(SlashStarOpen, s).Matched?
    ensures var m := Exec(SlashStarOpen, s);
      Protected(NewCodeNode(Props("open", Some(m.whole), m, None, None)))
      <==> StartsWith(s, "/*!") || StartsWith(s, "/**!")
  {
    var m := Exec(SlashStarOpen, s);
    if StartsWith(s, "/**!") {
      assert s[..4] == "/**!";
      assert s[2] == '*' && s[3] == '!';
    } else if StartsWith(s, "/*!") {
      assert s[..3] == "/*!";
      assert s[2] == '!';
    } else {
      assert m.group1 == Some("");
    }
  }

  /** A line comment of the C family is protected exactly when it is written `//!`. */
  lemma LineProtectedIffBang(s: string)
    requires Exec(SlashSlashLine, s).Matched?
    ensures var m := Exec(SlashSlashLine, s);
      Protected(NewCodeNode(Props("line", Some(m.whole), m, None, None))) <==> StartsWith(s, "//!")
  {
    if StartsWith(s, "//!") {
      assert s[..3] == "//!";
    }
  }

  /** A recogniser without a capture group never yields a protected node. */
  lemma LiteralsNeverProtected(r: Recogniser, s: string, kind: string)
    requires r.Lit? || r.LitRestOfLine?
    ensures !Protected(NewCodeNode(Props(kind, None, Exec(r, s), None, None)))
  {
  }
}
