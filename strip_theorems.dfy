/**
 * What the comment stripper guarantees, proved about the model of
 * lib/parse.ts and lib/compile.ts: the tree holds the whole input, in order;
 * it has the tokenizer's shape; the options switch node kinds off; and
 * compiling the tree removes comments and nothing else.
 */
module StripTheorems {
  import opened Wrappers
  import opened JsStrings
  import opened StripNode
  import opened StripLanguages
  import opened StripParse
  import opened StripCompile

  /** The text held by the open frames, bottom to top. */
  function FramesText(stack: seq<CodeNode>): string {
    if stack == [] then "" else FramesText(stack[..|stack| - 1]) + Text(stack[|stack| - 1])
  }

  /** The input has no backslash, so no escaped character can grow children. */
  predicate NoEscape(input: string) {
    '\\' !in input
  }

  /** The node kinds a parse with these options never creates. */
  function Forbidden(opts: ParseOptions): set<string> {
    (if opts.block then {} else {"block", "open", "close"}) + (if opts.line then {} else {"line"})
  }

  /** What the tree returned by `parse` satisfies. */
  predicate ParsedFrom(tree: CodeNode, input: string, opts: ParseOptions) {
    tree.Block? && tree.kind == "root" && tree.value.None?
    && Text(tree) == input
    && Shaped(tree)
    && Avoids(tree, Forbidden(opts))
    && (NoEscape(input) ==> Flat(tree))
  }

  predicate PrevOk(stack: seq<CodeNode>, prev: Prev)
    requires WellStacked(stack, prev)
  {
    match prev
    case NoPrev => true
    case PrevChild => Top(stack).nodes[|Top(stack).nodes| - 1].Leaf?
    case PrevTop => |stack| > 1 && Top(stack).kind == "text" && Top(stack).nodes == []
    case PrevDetached(n) => n.kind == "close"
  }

  /** Frame `i` of the stack: the root at the bottom, block comments and escaped characters above. */
  predicate FrameOk(f: CodeNode, i: nat, opts: ParseOptions, noEscape: bool) {
    (i == 0 ==> f.kind == "root" && f.value.None?)
    && (i > 0 ==> f.kind == "block" || f.kind == "text")
    && Shaped(f) && Avoids(f, Forbidden(opts))
    && (noEscape ==> Flat(f) && (i > 0 ==> f.kind == "block"))
  }

  predicate FramesOk(stack: seq<CodeNode>, opts: ParseOptions, noEscape: bool) {
    forall i | 0 <= i < |stack| :: FrameOk(stack[i], i, opts, noEscape)
  }

  /** The loop invariant of the tokenizer. */
  predicate Inv(opts: ParseOptions, input: string, st: State) {
    WellStacked(st.stack, st.prev) && PrevOk(st.stack, st.prev)
    && FramesText(st.stack) + st.remaining == input
    && FramesOk(st.stack, opts, NoEscape(input))
  }

  lemma FramesTextLast(s: seq<CodeNode>, x: CodeNode)
    ensures FramesText(s + [x]) == FramesText(s) + Text(x)
  {
    assert (s + [x])[..|s|] == s;
  }

  lemma JoinValueText(a: Option<string>, b: Option<string>)
    requires b.Some?
    ensures ValueText(JoinValue(a, b)) == ValueText(a) + b.value
  {
  }

  lemma ReplaceTopOk(stack: seq<CodeNode>, x: CodeNode, opts: ParseOptions, noEscape: bool)
    requires |stack| > 0 && FramesOk(stack, opts, noEscape) && FrameOk(x, |stack| - 1, opts, noEscape)
    ensures FramesOk(stack[..|stack| - 1] + [x], opts, noEscape)
  {
    var r := stack[..|stack| - 1] + [x];
    forall i | 0 <= i < |r|
      ensures FrameOk(r[i], i, opts, noEscape)
    {
      if i < |stack| - 1 {
        assert r[i] == stack[i];
      }
    }
  }

  lemma AppendFrameOk(stack: seq<CodeNode>, x: CodeNode, opts: ParseOptions, noEscape: bool)
    requires FramesOk(stack, opts, noEscape) && FrameOk(x, |stack|, opts, noEscape)
    ensures FramesOk(stack + [x], opts, noEscape)
  {
    var r := stack + [x];
    forall i | 0 <= i < |r|
      ensures FrameOk(r[i], i, opts, noEscape)
    {
      if i < |stack| {
        assert r[i] == stack[i];
      }
    }
  }

  /** Popping a frame keeps the frames well formed and their text unchanged. */
  lemma PopOk(stack: seq<CodeNode>, opts: ParseOptions, noEscape: bool)
    requires WellStacked(stack, NoPrev) && |stack| >= 2 && FramesOk(stack, opts, noEscape)
    ensures PopFrame(stack).Success?
    ensures FramesOk(PopFrame(stack).value, opts, noEscape)
    ensures FramesText(PopFrame(stack).value) == FramesText(stack)
  {
    PopText(stack);
    PopFramesOk(stack, opts, noEscape);
  }

  lemma PopFramesOk(stack: seq<CodeNode>, opts: ParseOptions, noEscape: bool)
    requires WellStacked(stack, NoPrev) && |stack| >= 2 && FramesOk(stack, opts, noEscape)
    ensures PopFrame(stack).Success? && FramesOk(PopFrame(stack).value, opts, noEscape)
  {
    var n := |stack|;
    var below, top := stack[n - 2], stack[n - 1];
    assert FrameOk(below, n - 2, opts, noEscape) && FrameOk(top, n - 1, opts, noEscape);
    var joined := Push(below, top);
    JoinedFrameOk(below, top, n - 2, opts, noEscape);
    var base := stack[..n - 2];
    assert FramesOk(base, opts, noEscape) by {
      forall i | 0 <= i < |base|
        ensures FrameOk(base[i], i, opts, noEscape)
      {
        assert base[i] == stack[i];
      }
    }
    AppendFrameOk(base, joined, opts, noEscape);
    assert PopFrame(stack).value == base + [joined];
  }

  /** The top frame, pushed into the frame below, leaves that frame well formed. */
  lemma JoinedFrameOk(below: CodeNode, top: CodeNode, i: nat, opts: ParseOptions, noEscape: bool)
    requires below.Block? && FrameOk(below, i, opts, noEscape) && FrameOk(top, i + 1, opts, noEscape)
    ensures FrameOk(Push(below, top), i, opts, noEscape)
  {
    PushShaped(below, top);
    PushAvoids(below, top, Forbidden(opts));
    if noEscape {
      PushFlat(below, top);
    }
  }

  lemma PopText(stack: seq<CodeNode>)
    requires WellStacked(stack, NoPrev) && |stack| >= 2
    ensures PopFrame(stack).Success? && FramesText(PopFrame(stack).value) == FramesText(stack)
  {
    var n := |stack|;
    var below, top := stack[n - 2], stack[n - 1];
    var base := stack[..n - 2];
    var joined := Push(below, top);
    FramesTextTopTwo(stack);
    assert PopFrame(stack).value == base + [joined];
    FramesTextLast(base, joined);
    PushText(below, top);
    Assoc(FramesText(base), Text(below), Text(top));
  }

  /** The text of the frames, with the two topmost taken apart. */
  lemma FramesTextTopTwo(stack: seq<CodeNode>)
    requires |stack| >= 2
    ensures var n := |stack|;
      FramesText(stack) == FramesText(stack[..n - 2]) + Text(stack[n - 2]) + Text(stack[n - 1])
  {
    var n := |stack|;
    assert stack[..n - 1][..n - 2] == stack[..n - 2];
    assert FramesText(stack) == FramesText(stack[..n - 1]) + Text(stack[n - 1]);
    assert FramesText(stack[..n - 1]) == FramesText(stack[..n - 2]) + Text(stack[n - 2]);
  }

  lemma Assoc(a: string, b: string, c: string)
    ensures a + (b + c) == a + b + c
  {
  }

  /** The top frame `top` replaced by `top'`, which holds `w` more text, with `w` consumed. */
  lemma TopUpdateInv(opts: ParseOptions, input: string, stack: seq<CodeNode>, prev: Prev, rem: string,
                     top': CodeNode, prev': Prev, w: string)
    requires Inv(opts, input, State(stack, prev, rem))
    requires FrameOk(top', |stack| - 1, opts, NoEscape(input)) && Text(top') == Text(Top(stack)) + w && w <= rem
    requires WellStacked(stack[..|stack| - 1] + [top'], prev') && PrevOk(stack[..|stack| - 1] + [top'], prev')
    ensures Inv(opts, input, State(stack[..|stack| - 1] + [top'], prev', rem[|w|..]))
  {
    TopUpdateText(stack, rem, input, top', w);
    ReplaceTopOk(stack, top', opts, NoEscape(input));
  }

  lemma TopUpdateText(stack: seq<CodeNode>, rem: string, input: string, top': CodeNode, w: string)
    requires |stack| > 0 && FramesText(stack) + rem == input
    requires Text(top') == Text(stack[|stack| - 1]) + w && w <= rem
    ensures FramesText(stack[..|stack| - 1] + [top']) + rem[|w|..] == input
  {
    var base := stack[..|stack| - 1];
    var top := stack[|stack| - 1];
    assert FramesText(stack) == FramesText(base) + Text(top);
    FramesTextLast(base, top');
    Regroup(FramesText(base), Text(top), w, rem);
  }

  lemma Regroup(a: string, b: string, w: string, rem: string)
    requires w <= rem
    ensures a + (b + w) + rem[|w|..] == a + b + rem
  {
    assert rem == w + rem[|w|..];
  }

  /** Moving a consumed prefix `w` of the remaining input onto the parsed text. */
  lemma Consume(a: string, w: string, rem: string)
    requires w <= rem
    ensures a + w + rem[|w|..] == a + rem
  {
    assert rem == w + rem[|w|..];
  }

  /** The last child of a frame, a text leaf, with `w` appended to its value. */
  function SetLast(top: CodeNode, v: Option<string>): CodeNode
    requires top.Block? && |top.nodes| > 0
  {
    top.(nodes := top.nodes[..|top.nodes| - 1] + [WithValue(top.nodes[|top.nodes| - 1], v)])
  }

  lemma SetLastText(top: CodeNode, v: Option<string>, w: string)
    requires top.Block? && |top.nodes| > 0 && top.nodes[|top.nodes| - 1].Leaf?
    requires ValueText(v) == ValueText(top.nodes[|top.nodes| - 1].value) + w
    ensures Text(SetLast(top, v)) == Text(top) + w
  {
    var k := |top.nodes|;
    var last := top.nodes[k - 1];
    assert top.nodes == top.nodes[..k - 1] + [last];
    TextOfAppend(top.nodes[..k - 1], last);
    TextOfAppend(top.nodes[..k - 1], WithValue(last, v));
  }

  lemma SetLastOk(top: CodeNode, v: Option<string>, i: nat, opts: ParseOptions, noEscape: bool)
    requires top.Block? && |top.nodes| > 0 && top.nodes[|top.nodes| - 1].Leaf? && top.nodes[|top.nodes| - 1].kind == "text"
    requires FrameOk(top, i, opts, noEscape)
    ensures FrameOk(SetLast(top, v), i, opts, noEscape)
  {
    var k := |top.nodes|;
    var last := top.nodes[k - 1];
    var top' := SetLast(top, v);
    assert last in top.nodes;
    assert forall c <- top'.nodes :: c in top.nodes || c == WithValue(last, v);
    assert top'.nodes[0] == (if k == 1 then WithValue(last, v) else top.nodes[0]);
  }

  lemma AppendLeafOk(top: CodeNode, node: CodeNode, i: nat, opts: ParseOptions, noEscape: bool)
    requires top.Block? && node.Leaf? && FrameOk(top, i, opts, noEscape)
    requires node.kind != "block" && Shaped(node) && Avoids(node, Forbidden(opts))
    ensures FrameOk(Push(top, node), i, opts, noEscape)
  {
    PushShaped(top, node);
    PushAvoids(top, node, Forbidden(opts));
    if noEscape {
      PushFlat(top, node);
    }
  }

  /** A leaf token or an escaped character merged into the previous text node. */
  lemma MergeInv(opts: ParseOptions, input: string, stack: seq<CodeNode>, prev: Prev, rem: string, node: CodeNode)
    requires Inv(opts, input, State(stack, prev, rem))
    requires node.value.Some? && node.value.value <= rem && node.kind == "text"
    requires PrevNode(stack, prev).Some? && PrevNode(stack, prev).value.kind == "text"
    ensures var r := PushNode(stack, prev, node);
      Inv(opts, input, State(r.0, r.1, rem[|node.value.value|..]))
  {
    var p := PrevNode(stack, prev).value;
    var v := JoinValue(p.value, node.value);
    JoinValueText(p.value, node.value);
    assert PushNode(stack, prev, node) == (SetPrevValue(stack, prev, v), prev);
    if prev.PrevChild? {
      MergeChildInv(opts, input, stack, rem, node.value.value, v);
    } else {
      assert prev.PrevTop?;
      MergeTopInv(opts, input, stack, rem, node.value.value, v);
    }
  }

  /** Text merged into the last child of the top frame. */
  lemma MergeChildInv(opts: ParseOptions, input: string, stack: seq<CodeNode>, rem: string, w: string, v: Option<string>)
    requires Inv(opts, input, State(stack, PrevChild, rem)) && w <= rem
    requires var last := Top(stack).nodes[|Top(stack).nodes| - 1];
      last.kind == "text" && ValueText(v) == ValueText(last.value) + w
    ensures Inv(opts, input, State(SetPrevValue(stack, PrevChild, v), PrevChild, rem[|w|..]))
  {
    var top := Top(stack);
    var top' := SetLast(top, v);
    assert SetPrevValue(stack, PrevChild, v) == stack[..|stack| - 1] + [top'];
    assert FrameOk(top, |stack| - 1, opts, NoEscape(input));
    SetLastText(top, v, w);
    SetLastOk(top, v, |stack| - 1, opts, NoEscape(input));
    ReplaceTopStacked(stack, PrevChild, top', PrevChild);
    assert Top(stack[..|stack| - 1] + [top']) == top';
    TopUpdateInv(opts, input, stack, PrevChild, rem, top', PrevChild, w);
  }

  /** Text merged into an escaped character that is the top frame. */
  lemma MergeTopInv(opts: ParseOptions, input: string, stack: seq<CodeNode>, rem: string, w: string, v: Option<string>)
    requires Inv(opts, input, State(stack, PrevTop, rem)) && w <= rem
    requires ValueText(v) == ValueText(Top(stack).value) + w
    ensures Inv(opts, input, State(SetPrevValue(stack, PrevTop, v), PrevTop, rem[|w|..]))
  {
    var top := Top(stack);
    var top' := WithValue(top, v);
    assert SetPrevValue(stack, PrevTop, v) == stack[..|stack| - 1] + [top'];
    assert FrameOk(top, |stack| - 1, opts, NoEscape(input));
    assert Text(top') == Text(top) + w;
    ReplaceTopStacked(stack, PrevTop, top', PrevTop);
    assert Top(stack[..|stack| - 1] + [top']) == top';
    TopUpdateInv(opts, input, stack, PrevTop, rem, top', PrevTop, w);
  }

  /** A leaf token: merged into the previous text node or appended to the top frame. */
  lemma PushLeafInv(opts: ParseOptions, input: string, stack: seq<CodeNode>, prev: Prev, rem: string, node: CodeNode)
    requires Inv(opts, input, State(stack, prev, rem))
    requires node.Leaf? && node.value.Some? && node.value.value <= rem
    requires node.kind != "root" && node.kind != "block" && Shaped(node) && Avoids(node, Forbidden(opts))
    ensures var r := PushNode(stack, prev, node);
      Inv(opts, input, State(r.0, r.1, rem[|node.value.value|..]))
  {
    var p := PrevNode(stack, prev);
    if p.Some? && p.value.kind == "text" && node.kind == "text" {
      MergeInv(opts, input, stack, prev, rem, node);
    } else {
      AppendInv(opts, input, stack, prev, rem, node);
    }
  }

  lemma AppendInv(opts: ParseOptions, input: string, stack: seq<CodeNode>, prev: Prev, rem: string, node: CodeNode)
    requires Inv(opts, input, State(stack, prev, rem))
    requires node.Leaf? && node.value.Some? && node.value.value <= rem
    requires node.kind != "root" && node.kind != "block" && Shaped(node) && Avoids(node, Forbidden(opts))
    ensures var top' := Push(Top(stack), node);
      Inv(opts, input, State(stack[..|stack| - 1] + [top'], PrevChild, rem[|node.value.value|..]))
  {
    var top := Top(stack);
    assert FrameOk(top, |stack| - 1, opts, NoEscape(input));
    AppendLeafOk(top, node, |stack| - 1, opts, NoEscape(input));
    PushText(top, node);
    ReplaceTopStacked(stack, prev, Push(top, node), PrevChild);
    TopUpdateInv(opts, input, stack, prev, rem, Push(top, node), PrevChild, node.value.value);
  }

  /** Replacing the top frame by a block of the same kind keeps the stack well formed. */
  lemma ReplaceTopStacked(stack: seq<CodeNode>, prev: Prev, top': CodeNode, prev': Prev)
    requires WellStacked(stack, prev) && top'.Block? && top'.kind == Top(stack).kind
    requires prev'.PrevChild? ==> |top'.nodes| > 0
    ensures WellStacked(stack[..|stack| - 1] + [top'], prev')
  {
    var r := stack[..|stack| - 1] + [top'];
    assert Top(r) == top';
    forall i | 0 <= i < |r| - 1
      ensures r[i] == stack[i]
    {
    }
  }

  /** An escaped character: merged into the previous text node, or pushed as a new top frame. */
  lemma PushEscapeInv(opts: ParseOptions, input: string, stack: seq<CodeNode>, prev: Prev, rem: string, m: Match)
    requires Inv(opts, input, State(stack, prev, rem))
    requires m.Matched? && m.whole <= rem && |m.whole| > 0 && m.whole[0] == '\\'
    ensures var r := PushNode(stack, prev, NewBlock(Props("text", Some(m.whole), m, None, None)));
      Inv(opts, input, State(r.0, r.1, rem[|m.whole|..]))
  {
    var node := NewBlock(Props("text", Some(m.whole), m, None, None));
    var p := PrevNode(stack, prev);
    if p.Some? && p.value.kind == "text" {
      MergeInv(opts, input, stack, prev, rem, node);
    } else {
      PushFrameInv(opts, input, stack, prev, rem, node);
    }
  }

  lemma PushFrameInv(opts: ParseOptions, input: string, stack: seq<CodeNode>, prev: Prev, rem: string, node: CodeNode)
    requires Inv(opts, input, State(stack, prev, rem))
    requires node == NewBlock(Props("text", node.value, node.regexMatch, None, None))
    requires node.value.Some? && node.value.value <= rem && |node.value.value| > 0 && node.value.value[0] == '\\'
    ensures Inv(opts, input, State(stack + [node], PrevTop, rem[|node.value.value|..]))
  {
    var w := node.value.value;
    CharAfter(FramesText(stack), rem, input);
    assert !NoEscape(input);
    assert node.nodes == [];
    assert FrameOk(node, |stack|, opts, false);
    AppendFrameOk(stack, node, opts, false);
    var r := stack + [node];
    assert Top(r) == node && r[..|stack|] == stack;
    assert WellStacked(r, PrevTop);
    FramesTextLast(stack, node);
    assert Text(node) == w;
    Consume(FramesText(stack), w, rem);
  }

  /** The next character of the input is the first one not yet consumed. */
  lemma CharAfter(done: string, rem: string, input: string)
    requires done + rem == input && |rem| > 0
    ensures |done| < |input| && input[|done|] == rem[0]
  {
  }

  /** The opening delimiter of a block comment: a new frame whose first child is the delimiter. */
  lemma OpenInv(opts: ParseOptions, input: string, stack: seq<CodeNode>, prev: Prev, rem: string, m: Match)
    requires Inv(opts, input, State(stack, prev, rem)) && opts.block
    requires m.Matched? && m.whole <= rem && |m.whole| > 0
    ensures var r1 := PushNode(stack, prev, NewBlock(Props("block", None, NoMatch, None, None)));
      var r := PushNode(r1.0, r1.1, TokenLeaf("open", m));
      Inv(opts, input, State(r.0, r.1, rem[|m.whole|..]))
  {
    var opening := NewBlock(Props("block", None, NoMatch, None, None));
    var leaf := TokenLeaf("open", m);
    var r1 := PushNode(stack, prev, opening);
    assert r1 == (stack + [opening], PrevTop);
    assert r1.0[..|r1.0| - 1] == stack;
    var frame := Push(opening, leaf);
    assert PushNode(r1.0, r1.1, leaf) == (stack + [frame], PrevChild);
    OpenFrameOk(leaf, |stack|, opts, NoEscape(input));
    OpenFrameText(opts, input, stack, rem, leaf);
  }

  lemma OpenFrameOk(leaf: CodeNode, i: nat, opts: ParseOptions, noEscape: bool)
    requires opts.block && i > 0 && leaf.Leaf? && leaf.kind == "open"
    ensures FrameOk(Push(NewBlock(Props("block", None, NoMatch, None, None)), leaf), i, opts, noEscape)
  {
    var frame := Push(NewBlock(Props("block", None, NoMatch, None, None)), leaf);
    assert frame.nodes == [leaf];
    assert forall c <- frame.nodes :: c == leaf;
  }

  lemma OpenFrameText(opts: ParseOptions, input: string, stack: seq<CodeNode>, rem: string, leaf: CodeNode)
    requires FramesText(stack) + rem == input
    requires FramesOk(stack, opts, NoEscape(input)) && WellStacked(stack, NoPrev)
    requires opts.block && leaf.Leaf? && leaf.kind == "open" && leaf.value.Some? && leaf.value.value <= rem
    ensures Inv(opts, input, State(stack + [Push(NewBlock(Props("block", None, NoMatch, None, None)), leaf)], PrevChild, rem[|leaf.value.value|..]))
  {
    var frame := Push(NewBlock(Props("block", None, NoMatch, None, None)), leaf);
    OpenFrameOk(leaf, |stack|, opts, NoEscape(input));
    AppendFrameOk(stack, frame, opts, NoEscape(input));
    var r := stack + [frame];
    assert Top(r) == frame && r[..|stack|] == stack;
    assert WellStacked(r, PrevChild);
    FramesTextLast(stack, frame);
    SingleChildText(frame, leaf);
    Consume(FramesText(stack), leaf.value.value, rem);
  }

  /** A block with no value and one child carries that child's text. */
  lemma SingleChildText(b: CodeNode, leaf: CodeNode)
    requires b.Block? && b.value.None? && b.nodes == [leaf] && leaf.Leaf? && leaf.value.Some?
    ensures Text(b) == leaf.value.value
  {
    assert b.nodes[..0] == [];
    assert TextOf(b.nodes) == TextOf(b.nodes[..0]) + Text(leaf);
  }

  /** The closing delimiter of a block comment: appended to the comment, which is then popped. */
  lemma CloseInv(opts: ParseOptions, input: string, stack: seq<CodeNode>, prev: Prev, rem: string, m: Match)
    requires Inv(opts, input, State(stack, prev, rem)) && opts.block && Top(stack).kind == "block"
    requires m.Matched? && m.whole <= rem && |m.whole| > 0
    ensures var s1 := PushNode(stack, prev, ClosingLeaf(m)).0;
      PopFrame(s1).Success?
      && Inv(opts, input, State(PopFrame(s1).value, PrevDetached(ClosingLeaf(m)), rem[|m.whole|..]))
  {
    var leaf := ClosingLeaf(m);
    PushLeafInv(opts, input, stack, prev, rem, leaf);
    var s1 := PushNode(stack, prev, leaf).0;
    assert |s1| >= 2;
    PopOk(s1, opts, NoEscape(input));
  }

  /** A match of a line-comment recogniser stays on one line. */
  lemma LineMatchSingleLine(r: Recogniser, s: string)
    requires SingleLine(r) && Exec(r, s).Matched?
    ensures '\n' !in Exec(r, s).whole
  {
    var w := Exec(r, s).whole;
    forall i | 0 <= i < |w|
      ensures w[i] != '\n'
    {
      if r.LitRestOfLine? {
        if i < |r.lit| {
          assert w[i] == r.lit[i];
        }
      } else if r.SlashSlashLine? {
        if i >= 2 && !(i == 2 && s[2] == '!') {
          assert !IsLineTerminator(s[i]);
        }
      }
    }
  }

  /** What the token an iteration settles on satisfies, beyond `NextToken`'s own contract. */
  predicate TokenOk(opts: ParseOptions, t: Token) {
    (t.EscapeTok? ==> t.m.Matched? && |t.m.whole| > 0 && t.m.whole[0] == '\\')
    && (t.LeafTok? ==> (t.kind == "text" || t.kind == "newline" || (t.kind == "line" && opts.line && '\n' !in t.value)))
    && (t.OpenTok? || t.CloseTok? ==> opts.block)
  }

  lemma NextTokenOk(lang: Language, opts: ParseOptions, st: State)
    requires WellStacked(st.stack, st.prev) && st.remaining != "" && LanguageWellFormed(lang)
    ensures TokenOk(opts, NextToken(lang, opts, st.stack, st.prev, st.remaining))
  {
    var t := NextToken(lang, opts, st.stack, st.prev, st.remaining);
    if t.EscapeTok? {
      assert Exec(EscapedChar, st.remaining).Matched?;
    } else if t.LeafTok? && t.kind == "line" {
      LineMatchSingleLine(lang.line.value, st.remaining);
    }
  }

  /** Applying a token that meets `TokenOk` keeps the invariant and consumes the token's text. */
  lemma ApplyInv(opts: ParseOptions, input: string, st: State, t: Token)
    requires Inv(opts, input, st) && TokenOk(opts, t)
    requires TokenText(t) <= st.remaining && 0 < |TokenText(t)|
    requires !t.LeafTok? ==> t.m.Matched?
    requires t.CloseTok? ==> Top(st.stack).kind == "block"
    ensures var r := Apply(st.stack, st.prev, t);
      Inv(opts, input, State(r.0, r.1, st.remaining[|TokenText(t)|..]))
  {
    var rem := st.remaining;
    match t
    case EscapeTok(m) =>
      PushEscapeInv(opts, input, st.stack, st.prev, rem, m);
    case LeafTok(kind, v, m) =>
      var node := NewCodeNode(Props(kind, Some(v), m, None, None));
      assert Shaped(node) && Avoids(node, Forbidden(opts));
      PushLeafInv(opts, input, st.stack, st.prev, rem, node);
    case OpenTok(m) =>
      OpenInv(opts, input, st.stack, st.prev, rem, m);
    case CloseTok(m) =>
      CloseInv(opts, input, st.stack, st.prev, rem, m);
  }

  /** Every iteration keeps the invariant. */
  lemma StepInv(lang: Language, opts: ParseOptions, input: string, st: State)
    requires Inv(opts, input, st) && st.remaining != "" && LanguageWellFormed(lang)
    ensures Inv(opts, input, Step(lang, opts, st))
  {
    var t := NextToken(lang, opts, st.stack, st.prev, st.remaining);
    NextTokenOk(lang, opts, st);
    ApplyInv(opts, input, st, t);
  }

  /** Folding the frames still open gives a tree with the invariant's properties. */
  lemma {:induction false} NestParsed(opts: ParseOptions, input: string, stack: seq<CodeNode>)
    requires WellStacked(stack, NoPrev) && FramesOk(stack, opts, NoEscape(input)) && FramesText(stack) == input
    ensures ParsedFrom(Nest(stack), input, opts)
    decreases |stack|
  {
    if |stack| == 1 {
      assert FrameOk(stack[0], 0, opts, NoEscape(input));
      assert stack[..0] == [];
      assert FramesText(stack) == Text(stack[0]);
    } else {
      PopOk(stack, opts, NoEscape(input));
      NestParsed(opts, input, PopFrame(stack).value);
    }
  }

  lemma {:induction false} RunParsed(lang: Language, opts: ParseOptions, input: string, st: State)
    requires Inv(opts, input, st) && LanguageWellFormed(lang)
    ensures ParsedFrom(Run(lang, opts, st), input, opts)
    decreases |st.remaining|
  {
    if st.remaining == "" {
      NestParsed(opts, input, st.stack);
    } else {
      StepInv(lang, opts, input, st);
      RunParsed(lang, opts, input, Step(lang, opts, st));
    }
  }

  /**
   * `parse` fails only on an unknown language, with the source's message;
   * otherwise the tree holds the whole input in order, has the tokenizer's
   * shape, and contains no node kind the options switch off.
   */
  lemma ParseCorrect(input: string, opts: ParseOptions)
    ensures ParseF(input, opts).Failure? <==> LanguageNamed(LanguageName(opts.language)).None?
    ensures ParseF(input, opts).Failure? ==> ParseF(input, opts).error == Unsupported(LanguageName(opts.language))
    ensures ParseF(input, opts).Success? ==> ParsedFrom(ParseF(input, opts).value, input, opts)
  {
    var name := LanguageName(opts.language);
    if LanguageNamed(name).Some? {
      TableWellFormed(name);
      var init := State([Root], NoPrev, input);
      assert [Root] == [] + [Root];
      assert FrameOk(Root, 0, opts, NoEscape(input));
      RunParsed(LanguageNamed(name).value, opts, input, init);
    }
  }

  /**
   * Stripping with the default compile options removes exactly the comment
   * nodes: the output is the parsed input with the top-level comments cut out.
   */
  lemma StripRemovesComments(tree: CodeNode, input: string, opts: ParseOptions)
    requires ParsedFrom(tree, input, opts) && NoEscape(input)
    ensures TextOf(tree.nodes) == input
    ensures CompileF(tree, Defaults) == CodeText(tree.nodes)
  {
    DefaultsDropComments(tree);
  }

  /** Without `block` and `line`, nothing is a comment, and stripping gives the input back. */
  lemma NoCommentOptionsIdentity(tree: CodeNode, input: string, opts: ParseOptions)
    requires ParsedFrom(tree, input, opts) && NoEscape(input) && !opts.block && !opts.line
    ensures CompileF(tree, Defaults) == input
  {
    StripRemovesComments(tree, input, opts);
    assert "block" in Forbidden(opts) && "line" in Forbidden(opts);
    assert forall c <- tree.nodes :: Avoids(c, Forbidden(opts));
    assert forall c <- tree.nodes :: !IsComment(c);
    CodeTextNoComments(tree.nodes);
  }

  /** With `preserveNewlines`, the stripped code has as many line feeds as the input. */
  lemma StripPreservesLineCount(tree: CodeNode, input: string, opts: ParseOptions, o: CompileOptions)
    requires ParsedFrom(tree, input, opts) && NoEscape(input) && o.preserveNewlines
    ensures Count(CompileF(tree, o), '\n') == Count(input, '\n')
  {
    PreserveNewlinesKeepsLines(tree, o, false);
    assert Text(tree) == TextOf(tree.nodes);
  }
}
