/**
 * The tokenizer of the comment stripper (lib/parse.ts). It consumes the input
 * from the front, one token per iteration, and builds the syntax tree.
 *
 * The source keeps a stack of open `Block` objects that are already linked
 * into their parents, and mutates them in place. The model keeps the same
 * stack as values: a frame holds the children pushed so far, and it is
 * appended to the frame below it when it is popped (or, for frames still
 * open at the end, when the stack is folded by `Nest`). `Prev` says where the
 * previously pushed node lives, so that merging text into it can update it.
 */
module StripParse {
  import opened Wrappers
  import opened JsStrings
  import opened StripNode
  import opened StripLanguages
  import StripCompile

  /** The options `parse` reads; `block` and `line` are truthiness tests, so a missing one is `false`. */
  datatype ParseOptions = ParseOptions(language: Option<string>, block: bool, line: bool)

  /** `(options.language || "javascript").toLowerCase()` */
  function LanguageName(language: Option<string>): string {
    ToLower(if language.None? || language.value == "" then "javascript" else language.value)
  }

  function Unsupported(name: string): string {
    "Language \"" + name + "\" is not supported by strip-comments"
  }

  /** The root of the tree: `new Block({ type: "root", nodes: [], value: "" })`; the empty value is not kept. */
  const Root := NewBlock(Props("root", Some(""), NoMatch, None, Some([])))

  /** Where the node pushed last lives. */
  datatype Prev =
    | NoPrev                      // nothing pushed yet
    | PrevChild                   // the last child of the top frame
    | PrevTop                     // the top frame itself
    | PrevDetached(node: CodeNode)  // the closing token of a block comment just popped

  datatype State = State(stack: seq<CodeNode>, prev: Prev, remaining: string)

  function Top(stack: seq<CodeNode>): CodeNode
    requires |stack| > 0
  {
    stack[|stack| - 1]
  }

  /** What every step needs of the stack: the root at the bottom, open objects with children above it. */
  predicate WellStacked(stack: seq<CodeNode>, prev: Prev) {
    |stack| >= 1 && stack[0].Block? && stack[0].kind == "root"
    && (forall i | 1 <= i < |stack| :: stack[i].Block? && stack[i].kind != "root")
    && (prev.PrevChild? ==> |Top(stack).nodes| > 0)
  }

  /** The node `prev` refers to, `undefined` being `None`. */
  function PrevNode(stack: seq<CodeNode>, prev: Prev): Option<CodeNode>
    requires WellStacked(stack, prev)
  {
    match prev
    case NoPrev => None
    case PrevChild => Some(Top(stack).nodes[|Top(stack).nodes| - 1])
    case PrevTop => Some(Top(stack))
    case PrevDetached(n) => Some(n)
  }

  /** `prev.value = v`, in place. */
  function SetPrevValue(stack: seq<CodeNode>, prev: Prev, v: Option<string>): (r: seq<CodeNode>)
    requires WellStacked(stack, prev)
    ensures WellStacked(r, prev)
  {
    var top := Top(stack);
    match prev
    case PrevChild =>
      var k := |top.nodes|;
      stack[..|stack| - 1] + [top.(nodes := top.nodes[..k - 1] + [WithValue(top.nodes[k - 1], v)])]
    case PrevTop => stack[..|stack| - 1] + [WithValue(top, v)]
    case _ => stack
  }

  /** `prev.value ? prev.value + node.value : node.value` */
  function JoinValue(a: Option<string>, b: Option<string>): Option<string> {
    if a.Some? && a.value != "" then Some(a.value + StripCompile.ConcatValue(b)) else b
  }

  /**
   * `push(node)`: text after text is merged into the previous node; any
   * other node is appended to the top frame, and a node with children
   * becomes the new top frame.
   */
  function PushNode(stack: seq<CodeNode>, prev: Prev, node: CodeNode): (r: (seq<CodeNode>, Prev))
    requires WellStacked(stack, prev) && node.kind != "root"
    ensures WellStacked(r.0, r.1)
    ensures node.Leaf? ==> |r.0| == |stack| && Top(r.0).kind == Top(stack).kind
  {
    var p := PrevNode(stack, prev);
    if p.Some? && p.value.kind == "text" && node.kind == "text" then
      (SetPrevValue(stack, prev, JoinValue(p.value.value, node.value)), prev)
    else if node.Block? then
      (stack + [node], PrevTop)
    else
      (stack[..|stack| - 1] + [Push(Top(stack), node)], PrevChild)
  }

  /** `pop()`: leave the top frame, which becomes the last child of the frame below. */
  function PopFrame(stack: seq<CodeNode>): (r: Result<seq<CodeNode>, string>)
    requires WellStacked(stack, NoPrev)
    ensures r.Failure? <==> |stack| == 1
    ensures r.Success? ==> WellStacked(r.value, NoPrev) && |r.value| == |stack| - 1
  {
    if Top(stack).kind == "root" then Failure("Unclosed block comment")
    else Success(stack[..|stack| - 2] + [Push(stack[|stack| - 2], Top(stack))])
  }

  /** The tree the source returns: every frame still open is already linked into the one below. */
  function Nest(stack: seq<CodeNode>): (t: CodeNode)
    requires WellStacked(stack, NoPrev)
    ensures t.Block? && t.kind == "root"
    decreases |stack|
  {
    if |stack| == 1 then stack[0] else Nest(PopFrame(stack).value)
  }

  /** `new CodeNode(token)` for a scanned token. */
  function TokenLeaf(kind: string, m: Match): CodeNode
    requires m.Matched?
  {
    NewCodeNode(Props(kind, Some(m.whole), m, None, None))
  }

  /** `token.match[1] || ""` */
  function GroupOrEmpty(m: Match): string
    requires m.Matched?
  {
    m.group1.GetOr("")
  }

  function EndsWithWordChar(s: string): bool {
    |s| > 0 && IsWordChar(s[|s| - 1])
  }

  /** A quoted string may start here: not inside a block comment, not right after a word character, not at a `"""` delimiter. */
  predicate QuoteAllowed(lang: Language, stack: seq<CodeNode>, prev: Prev, rem: string)
    requires WellStacked(stack, prev)
  {
    var p := PrevNode(stack, prev);
    Top(stack).kind != "block"
    && (p.None? || !EndsWithWordChar(ValueText(p.value.value)))
    && !(TripleQuotes(lang) && StartsWith(rem, TripleQuote))
  }

  function OpenScan(lang: Language, opts: ParseOptions, stack: seq<CodeNode>, rem: string): (m: Match)
    requires |stack| > 0
    ensures m.Matched? ==> lang.open.Some? && opts.block && m == Exec(lang.open.value, rem)
  {
    if lang.open.Some? && opts.block && !(TripleQuotes(lang) && Top(stack).kind == "block") then Exec(lang.open.value, rem) else NoMatch
  }

  function CloseScan(lang: Language, opts: ParseOptions, stack: seq<CodeNode>, rem: string): (m: Match)
    requires |stack| > 0
    ensures m.Matched? ==> lang.close.Some? && opts.block && Top(stack).kind == "block" && m == Exec(lang.close.value, rem)
  {
    if lang.close.Some? && Top(stack).kind == "block" && opts.block then Exec(lang.close.value, rem) else NoMatch
  }

  function LineScan(lang: Language, opts: ParseOptions, stack: seq<CodeNode>, rem: string): (m: Match)
    requires |stack| > 0
    ensures m.Matched? ==> lang.line.Some? && opts.line && Top(stack).kind != "block" && m == Exec(lang.line.value, rem)
  {
    if lang.line.Some? && Top(stack).kind != "block" && opts.line then Exec(lang.line.value, rem) else NoMatch
  }

  /** The token one iteration settles on. */
  datatype Token =
    | EscapeTok(m: Match)                          // an escaped character, stored as a `Block`
    | LeafTok(kind: string, value: string, m: Match) // text, a quoted string, a newline run or a line comment
    | OpenTok(m: Match)                            // the opening delimiter of a block comment
    | CloseTok(m: Match)                           // its closing delimiter

  function TokenText(t: Token): string {
    match t
    case LeafTok(_, v, _) => v
    case _ => if t.m.Matched? then t.m.whole else ""
  }

  /** The scanners in the order the loop tries them; the first that matches decides the token. */
  function NextToken(lang: Language, opts: ParseOptions, stack: seq<CodeNode>, prev: Prev, rem: string): (t: Token)
    requires WellStacked(stack, prev) && rem != "" && LanguageWellFormed(lang)
    ensures 0 < |TokenText(t)| && TokenText(t) <= rem
    ensures t.CloseTok? ==> Top(stack).kind == "block"
    ensures !t.LeafTok? ==> t.m.Matched?
    ensures t.LeafTok? ==> t.kind != "root"
  {
    var escaped := Exec(EscapedChar, rem);
    var quoted := if QuoteAllowed(lang, stack, prev, rem) then Exec(QuotedString, rem) else NoMatch;
    var newline := Exec(NewlineRun, rem);
    var open := OpenScan(lang, opts, stack, rem);
    var close := CloseScan(lang, opts, stack, rem);
    var line := LineScan(lang, opts, stack, rem);
    var plain := Exec(PlainText, rem);
    if escaped.Matched? then EscapeTok(escaped)
    else if quoted.Matched? then LeafTok("text", quoted.whole, quoted)
    else if newline.Matched? then LeafTok("newline", newline.whole, newline)
    else if open.Matched? then OpenTok(open)
    else if close.Matched? then CloseTok(close)
    else if line.Matched? then LeafTok("line", line.whole, line)
    else if plain.Matched? then LeafTok("text", plain.whole, plain)
    else LeafTok("text", rem[..1], NoMatch)
  }

  /** The closing token: its `newline` is the line feed the delimiter swallowed, if any. */
  function ClosingLeaf(m: Match): CodeNode
    requires m.Matched?
  {
    NewCodeNode(Props("close", Some(m.whole), m, Some(GroupOrEmpty(m)), None))
  }

  /** The pushes (and the pop) a token causes. */
  function Apply(stack: seq<CodeNode>, prev: Prev, t: Token): (r: (seq<CodeNode>, Prev))
    requires WellStacked(stack, prev)
    requires !t.LeafTok? ==> t.m.Matched?
    requires t.CloseTok? ==> Top(stack).kind == "block"
    requires t.LeafTok? ==> t.kind != "root"
    ensures WellStacked(r.0, r.1)
  {
    match t
    case EscapeTok(m) => PushNode(stack, prev, NewBlock(Props("text", Some(m.whole), m, None, None)))
    case LeafTok(kind, v, m) => PushNode(stack, prev, NewCodeNode(Props(kind, Some(v), m, None, None)))
    case OpenTok(m) =>
      var (s1, p1) := PushNode(stack, prev, NewBlock(Props("block", None, NoMatch, None, None)));
      PushNode(s1, p1, TokenLeaf("open", m))
    case CloseTok(m) =>
      var (s1, p1) := PushNode(stack, prev, ClosingLeaf(m));
      (PopFrame(s1).value, PrevDetached(ClosingLeaf(m)))
  }

  /** Text after text (`push`, first branch): only the previous node's value changes, to the two values joined. */
  lemma PushNodeMergesText(stack: seq<CodeNode>, prev: Prev, node: CodeNode)
    requires WellStacked(stack, prev) && node.kind == "text"
    requires prev.PrevChild? || prev.PrevTop?
    requires PrevNode(stack, prev).value.kind == "text"
    ensures var r := PushNode(stack, prev, node); var p := PrevNode(stack, prev).value;
      r.1 == prev && |r.0| == |stack| && r.0[..|stack| - 1] == stack[..|stack| - 1]
      && PrevNode(r.0, r.1) == Some(WithValue(p, JoinValue(p.value, node.value)))
      && |Top(r.0).nodes| == |Top(stack).nodes|
      && (prev.PrevChild? ==> Top(r.0).nodes[..|Top(stack).nodes| - 1] == Top(stack).nodes[..|Top(stack).nodes| - 1])
  {
    var r := SetPrevValue(stack, prev, JoinValue(PrevNode(stack, prev).value.value, node.value));
    var n := |stack|;
    assert r[..n - 1] == stack[..n - 1];
  }

  /**
   * Any other node (`push`, second branch) is appended to the top frame and
   * becomes `prev`; a node with children also becomes the top frame.
   */
  lemma PushNodeAppends(stack: seq<CodeNode>, prev: Prev, node: CodeNode)
    requires WellStacked(stack, prev) && node.kind != "root"
    requires var p := PrevNode(stack, prev); !(p.Some? && p.value.kind == "text" && node.kind == "text")
    ensures var r := PushNode(stack, prev, node);
      node.Block? ==> (r.0 == stack + [node] && r.1 == PrevTop && PrevNode(r.0, r.1) == Some(node))
    ensures var r := PushNode(stack, prev, node);
      node.Leaf? ==> (r.1 == PrevChild && |r.0| == |stack| && r.0[..|stack| - 1] == stack[..|stack| - 1]
                      && Top(r.0).nodes == Top(stack).nodes + [node] && PrevNode(r.0, r.1) == Some(node))
  {
    if node.Leaf? {
      var n := |stack|;
      var r := stack[..n - 1] + [Push(Top(stack), node)];
      assert r[..n - 1] == stack[..n - 1];
    }
  }

  /** An opening delimiter starts a new comment frame whose first and only child is the delimiter. */
  lemma ApplyOpen(stack: seq<CodeNode>, prev: Prev, m: Match)
    requires WellStacked(stack, prev) && m.Matched?
    ensures var r := Apply(stack, prev, OpenTok(m));
      |r.0| == |stack| + 1 && r.0[..|stack|] == stack && r.1 == PrevChild
      && Top(r.0).kind == "block" && Top(r.0).nodes == [TokenLeaf("open", m)]
  {
    var frame := NewBlock(Props("block", None, NoMatch, None, None));
    PushNodeAppends(stack, prev, frame);
    PushNodeAppends(stack + [frame], PrevTop, TokenLeaf("open", m));
    assert (stack + [frame])[..|stack|] == stack;
  }

  /**
   * A closing delimiter is first appended to the comment frame, carrying the
   * line feed it swallowed; then the frame is closed and becomes the last
   * child of the frame below.
   */
  lemma ApplyClose(stack: seq<CodeNode>, prev: Prev, m: Match)
    requires WellStacked(stack, prev) && m.Matched? && Top(stack).kind == "block"
    ensures |stack| >= 2
    ensures var r := Apply(stack, prev, CloseTok(m)); var closing := ClosingLeaf(m);
      |r.0| == |stack| - 1 && r.0[..|stack| - 2] == stack[..|stack| - 2]
      && Top(r.0).nodes == stack[|stack| - 2].nodes + [Push(Top(stack), closing)]
      && Top(Top(r.0).nodes).nodes == Top(stack).nodes + [closing]
      && closing.kind == "close" && closing.newline == GroupOrEmpty(m)
      && r.1 == PrevDetached(closing)
  {
    var closing := ClosingLeaf(m);
    PushNodeAppends(stack, prev, closing);
    var s1 := PushNode(stack, prev, closing).0;
    var n := |stack|;
    assert s1[..n - 1] == stack[..n - 1];
    assert s1[n - 2] == stack[n - 2];
    var s2 := PopFrame(s1).value;
    assert s2 == s1[..n - 2] + [Push(s1[n - 2], Top(s1))];
    assert s2[..n - 2] == s1[..n - 2] == stack[..n - 2];
  }

  /** One iteration of the tokenizer loop. */
  function Step(lang: Language, opts: ParseOptions, st: State): (next: State)
    requires WellStacked(st.stack, st.prev) && st.remaining != "" && LanguageWellFormed(lang)
    ensures WellStacked(next.stack, next.prev)
    ensures |next.remaining| < |st.remaining|
  {
    var t := NextToken(lang, opts, st.stack, st.prev, st.remaining);
    var (s, p) := Apply(st.stack, st.prev, t);
    State(s, p, st.remaining[|TokenText(t)|..])
  }

  /** The loop run to the end of the input, and the tree it leaves. */
  function Run(lang: Language, opts: ParseOptions, st: State): (t: CodeNode)
    requires WellStacked(st.stack, st.prev) && LanguageWellFormed(lang)
    ensures t.Block? && t.kind == "root"
    decreases |st.remaining|
  {
    if st.remaining == "" then Nest(st.stack) else Run(lang, opts, Step(lang, opts, st))
  }

  /** `parse(input, options)`: the tree, or the error for an unknown language. */
  function ParseF(input: string, opts: ParseOptions): Result<CodeNode, string> {
    var name := LanguageName(opts.language);
    var found := LanguageNamed(name);
    if found.None? then Failure(Unsupported(name))
    else
      TableWellFormed(name);
      Success(Run(found.value, opts, State([Root], NoPrev, input)))
  }

  /** `parse`, as the source writes it: a loop that consumes the input one token at a time. */
  method Parse(input: string, options: ParseOptions) returns (r: Result<CodeNode, string>)
    ensures r == ParseF(input, options)
  {
    var name := LanguageName(options.language);
    var found := LanguageNamed(name);
    if found.None? {
      return Failure(Unsupported(name));
    }
    var lang := found.value;
    TableWellFormed(name);
    var stack := [Root];
    var prev := NoPrev;
    var remaining := input;
    while remaining != ""
      invariant WellStacked(stack, prev)
      invariant Run(lang, options, State(stack, prev, remaining)) == Run(lang, options, State([Root], NoPrev, input))
      decreases |remaining|
    {
      ghost var before := State(stack, prev, remaining);
      var token := NextToken(lang, options, stack, prev, remaining);
      match token {
        case EscapeTok(m) =>
          var pushed := PushNode(stack, prev, NewBlock(Props("text", Some(m.whole), m, None, None)));
          stack, prev := pushed.0, pushed.1;
        case LeafTok(kind, value, m) =>
          var pushed := PushNode(stack, prev, NewCodeNode(Props(kind, Some(value), m, None, None)));
          stack, prev := pushed.0, pushed.1;
        case OpenTok(m) =>
          var framed := PushNode(stack, prev, NewBlock(Props("block", None, NoMatch, None, None)));
          stack, prev := framed.0, framed.1;
          var pushed := PushNode(stack, prev, TokenLeaf("open", m));
          stack, prev := pushed.0, pushed.1;
        case CloseTok(m) =>
          var closing := ClosingLeaf(m);
          var pushed := PushNode(stack, prev, closing);
          stack := pushed.0;
          var popped := PopFrame(stack);
          stack, prev := popped.value, PrevDetached(closing);
      }
      remaining := remaining[|TokenText(token)|..];
      assert (stack, prev) == Apply(before.stack, before.prev, token);
      assert State(stack, prev, remaining) == Step(lang, options, before);
    }
    r := Success(Nest(stack));
  }
}
