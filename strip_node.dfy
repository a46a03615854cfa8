/**
 * The nodes of the comment stripper's concrete syntax tree (lib/class/node.ts).
 *
 * A `CodeNode` object is a `Leaf`; a `Block` object, which owns an ordered
 * list of children, is a `Block`. Fields the source assigns only when the
 * constructor argument is truthy are `Option`s. The `match` field (`regexMatch` here) holds the
 * `RegExpExecArray` the tokenizer scanned the node with; only its whole match
 * and its first capture group are ever read, so that is all `Match` keeps.
 */
module StripNode {
  import opened Wrappers

  /** `null` (no match) or a regular-expression match with capture group 1 (`None` when the group is undefined). */
  datatype Match = NoMatch | Matched(whole: string, group1: Option<string>)

  datatype CodeNode =
    | Leaf(kind: string, value: Option<string>, regexMatch: Match, newline: string)
    | Block(kind: string, value: Option<string>, regexMatch: Match, newline: string, nodes: seq<CodeNode>)

  /** The (partial) object literal handed to a constructor. */
  datatype Props = Props(kind: string, value: Option<string>, regexMatch: Match, newline: Option<string>, nodes: Option<seq<CodeNode>>)

  /** `value` and `match` are copied only when truthy; `newline` defaults to the empty string. */
  function NewCodeNode(p: Props): (n: CodeNode)
    ensures n.Leaf? && n.kind == p.kind && n.regexMatch == p.regexMatch
    ensures n.value.Some? <==> p.value.Some? && p.value.value != ""
    ensures n.value.Some? ==> n.value == p.value
    ensures p.newline.None? ==> n.newline == ""
    ensures p.newline.Some? ==> n.newline == p.newline.value
  {
    Leaf(p.kind, if p.value.Some? && p.value.value != "" then p.value else None, p.regexMatch, p.newline.GetOr(""))
  }

  /** A `Block` is built like a `CodeNode` and starts with the given children, or none. */
  function NewBlock(p: Props): (b: CodeNode)
    ensures b.Block? && b.kind == p.kind && b.regexMatch == p.regexMatch
    ensures b.value == NewCodeNode(p).value && b.newline == NewCodeNode(p).newline
    ensures p.nodes.None? ==> b.nodes == []
    ensures p.nodes.Some? ==> b.nodes == p.nodes.value
  {
    var n := NewCodeNode(p);
    Block(n.kind, n.value, n.regexMatch, n.newline, p.nodes.GetOr([]))
  }

  /**
   * The `protected` getter: a `CodeNode` is protected when its match's first
   * group is `"!"`; a `Block` when its first child is.
   */
  predicate Protected(n: CodeNode) {
    match n
    case Leaf(_, _, m, _) => m.Matched? && m.group1 == Some("!")
    case Block(_, _, _, _, ns) => |ns| > 0 && Protected(ns[0])
  }

  /** The node with its `value` field reassigned. */
  function WithValue(n: CodeNode, v: Option<string>): (r: CodeNode)
    ensures r.value == v && r.kind == n.kind && r.Leaf? == n.Leaf?
    ensures n.Block? ==> r.nodes == n.nodes
  {
    match n
    case Leaf(k, _, m, nl) => Leaf(k, v, m, nl)
    case Block(k, _, m, nl, ns) => Block(k, v, m, nl, ns)
  }

  /** `Block.push`: the node is appended at the end of `nodes`; nothing else changes. */
  function Push(b: CodeNode, n: CodeNode): (r: CodeNode)
    requires b.Block?
    ensures r.Block? && |r.nodes| == |b.nodes| + 1
    ensures r.nodes[..|b.nodes|] == b.nodes && r.nodes[|b.nodes|] == n
    ensures r.kind == b.kind && r.value == b.value && r.regexMatch == b.regexMatch && r.newline == b.newline
  {
    b.(nodes := b.nodes + [n])
  }

  lemma PushProtected(b: CodeNode, n: CodeNode)
    requires b.Block?
    ensures Protected(Push(b, n)) == if b.nodes == [] then Protected(n) else Protected(b)
  {
  }

  /** The value of a node as text, `""` when it has none. */
  function ValueText(v: Option<string>): string {
    v.GetOr("")
  }

  /** All the text a node carries: its own value, then its children's text in order. */
  function Text(n: CodeNode): string {
    ValueText(n.value) + (if n.Block? then TextOf(n.nodes) else "")
  }

  function TextOf(ns: seq<CodeNode>): string {
    if ns == [] then "" else TextOf(ns[..|ns| - 1]) + Text(ns[|ns| - 1])
  }

  lemma TextOfAppend(ns: seq<CodeNode>, n: CodeNode)
    ensures TextOf(ns + [n]) == TextOf(ns) + Text(n)
  {
    assert (ns + [n])[..|ns|] == ns;
  }

  /** Pushing a node adds its text at the end of the block's text. */
  lemma PushText(b: CodeNode, n: CodeNode)
    requires b.Block?
    ensures Text(Push(b, n)) == Text(b) + Text(n)
  {
    TextOfAppend(b.nodes, n);
  }

  /**
   * The shape of one node as the tokenizer builds it: objects with children
   * are the root, block comments and escaped characters; a block comment has
   * no value of its own and starts with its opening token; a line comment is a
   * leaf whose text stays on one line.
   */
  predicate NodeShape(n: CodeNode) {
    (n.Block? ==> n.kind == "root" || n.kind == "block" || n.kind == "text")
    && (n.kind == "block" ==> n.Block? && n.value.None? && |n.nodes| > 0 && n.nodes[0].Leaf? && n.nodes[0].kind == "open")
    && (n.kind == "line" ==> n.Leaf? && n.value.Some? && '\n' !in n.value.value)
  }

  /** Every node of the tree has the tokenizer's shape. */
  predicate Shaped(n: CodeNode) {
    NodeShape(n) && (n.Block? ==> forall c <- n.nodes :: Shaped(c))
  }

  /** Below `n`, every node that has children is a block comment (no escaped character grew children). */
  predicate Flat(n: CodeNode) {
    n.Block? ==> forall c <- n.nodes :: (c.Block? ==> c.kind == "block") && Flat(c)
  }

  /** No node of the tree has one of the kinds in `ks`. */
  predicate Avoids(n: CodeNode, ks: set<string>) {
    n.kind !in ks && (n.Block? ==> forall c <- n.nodes :: Avoids(c, ks))
  }

  lemma PushShaped(b: CodeNode, n: CodeNode)
    requires b.Block? && Shaped(b) && Shaped(n)
    ensures Shaped(Push(b, n))
  {
    var r := Push(b, n);
    assert forall c <- r.nodes :: c in b.nodes || c == n;
  }

  lemma PushFlat(b: CodeNode, n: CodeNode)
    requires b.Block? && Flat(b) && Flat(n) && (n.Block? ==> n.kind == "block")
    ensures Flat(Push(b, n))
  {
    var r := Push(b, n);
    assert forall c <- r.nodes :: c in b.nodes || c == n;
  }

  lemma PushAvoids(b: CodeNode, n: CodeNode, ks: set<string>)
    requires b.Block? && Avoids(b, ks) && Avoids(n, ks)
    ensures Avoids(Push(b, n), ks)
  {
    var r := Push(b, n);
    assert forall c <- r.nodes :: c in b.nodes || c == n;
  }

  /** A block comment is protected exactly when its opening token carries `!`. */
  lemma ShapedBlockProtected(b: CodeNode)
    requires NodeShape(b) && b.kind == "block"
    ensures Protected(b) <==> b.nodes[0].regexMatch.Matched? && b.nodes[0].regexMatch.group1 == Some("!")
  {
  }
}
