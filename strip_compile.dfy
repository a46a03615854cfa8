/**
 * The second half of the comment stripper (lib/compile.ts): a walk over the
 * syntax tree that re-emits the code and drops the comments the options ask
 * to drop. The walk shares one flag, `firstSeen`, across the whole tree; the
 * model threads it through the walk as an extra input and output.
 */
module StripCompile {
  import opened Wrappers
  import opened JsStrings
  import opened StripNode

  /** The options `compile` reads; an option left out is `false`. */
  datatype CompileOptions = CompileOptions(first: bool, preserveNewlines: bool, keepProtected: bool, safe: bool)

  const Defaults := CompileOptions(false, false, false, false)

  /** `safe` is an alias of `keepProtected`. */
  predicate KeepProtected(o: CompileOptions) {
    o.safe || o.keepProtected
  }

  predicate IsComment(n: CodeNode) {
    n.kind == "block" || n.kind == "line"
  }

  /** Appending `child.value` to a string: a missing value is spelled `undefined`. */
  function ConcatValue(v: Option<string>): string {
    if v.Some? then v.value else "undefined"
  }

  /**
   * `walk(node)`, run with `firstSeen == seen`: the text emitted and the flag
   * afterwards. A node without children emits nothing.
   */
  function WalkF(n: CodeNode, o: CompileOptions, seen: bool): (string, bool)
    decreases n, 2, 0
  {
    if n.Leaf? then ("", seen) else WalkSeq(n, |n.nodes|, o, seen)
  }

  /** The walk over the first `k` children of `n`. */
  function WalkSeq(n: CodeNode, k: nat, o: CompileOptions, seen: bool): (string, bool)
    requires n.Block? && k <= |n.nodes|
    decreases n, 1, k
  {
    if k == 0 then ("", seen)
    else
      var (out, s1) := WalkSeq(n, k - 1, o, seen);
      var (piece, s2) := Child(n.nodes[k - 1], o, s1);
      (out + piece, s2)
  }

  /** What one child adds to its parent's output, by its kind. */
  function Child(c: CodeNode, o: CompileOptions, seen: bool): (string, bool)
    decreases c, 3, 0
  {
    if c.kind == "block" then
      if o.first && seen then WalkF(c, o, seen)
      else if o.preserveNewlines then
        var (inner, s) := WalkF(c, o, seen);
        (Repeat('\n', |Split(inner, '\n')| - 1), s)
      else if KeepProtected(o) && Protected(c) then WalkF(c, o, seen)
      else ("", true)
    else if c.kind == "line" then
      if o.first && seen then (ConcatValue(c.value), seen)
      else if KeepProtected(o) && Protected(c) then (ConcatValue(c.value), true)
      else ("", true)
    else (ValueText(c.value), seen)
  }

  /** `walk`, imperatively: a loop over the children that recurses into nested blocks. */
  method Walk(node: CodeNode, o: CompileOptions, seen0: bool) returns (output: string, seen: bool)
    ensures (output, seen) == WalkF(node, o, seen0)
    decreases node
  {
    output := "";
    seen := seen0;
    if node.Block? {
      for i := 0 to |node.nodes|
        invariant (output, seen) == WalkSeq(node, i, o, seen0)
      {
        var child := node.nodes[i];
        ghost var expected := Child(child, o, seen);
        ghost var before := output;
        if child.kind == "block" {
          if o.first && seen {
            var inner, s := Walk(child, o, seen);
            output, seen := output + inner, s;
          } else if o.preserveNewlines {
            var inner, s := Walk(child, o, seen);
            var lines := Split(inner, '\n');
            output, seen := output + Repeat('\n', |lines| - 1), s;
          } else if KeepProtected(o) && Protected(child) {
            var inner, s := Walk(child, o, seen);
            output, seen := output + inner, s;
          } else {
            assert expected == ("", true);
            seen := true;
          }
        } else if child.kind == "line" {
          if o.first && seen {
            output := output + ConcatValue(child.value);
          } else {
            if KeepProtected(o) && Protected(child) {
              assert expected == (ConcatValue(child.value), true);
              output := output + ConcatValue(child.value);
            } else {
              assert expected == ("", true);
            }
            seen := true;
          }
        } else {
          output := output + ValueText(child.value);
        }
        assert output == before + expected.0 && seen == expected.1;
      }
    }
  }

  /** `compile(cst, options)`: the walk from the root with `firstSeen` false. */
  method Compile(cst: CodeNode, o: CompileOptions) returns (output: string)
    ensures output == CompileF(cst, o)
  {
    var firstSeen;
    output, firstSeen := Walk(cst, o, false);
  }

  function CompileF(cst: CodeNode, o: CompileOptions): string {
    WalkF(cst, o, false).0
  }

  /** The text of the children that are not comments: what stripping every comment leaves. */
  function CodeText(ns: seq<CodeNode>): string {
    if ns == [] then "" else CodeText(ns[..|ns| - 1]) + (if IsComment(ns[|ns| - 1]) then "" else Text(ns[|ns| - 1]))
  }

  /**
   * The reference of the walk without `first` and `preserveNewlines`: a block
   * comment survives with its protected contents, a line comment survives
   * when protected, everything else is copied.
   */
  function Stripped(n: CodeNode, keep: bool): string
    decreases n, 1, 0
  {
    if n.Leaf? then "" else StrippedSeq(n, |n.nodes|, keep)
  }

  function StrippedSeq(n: CodeNode, k: nat, keep: bool): string
    requires n.Block? && k <= |n.nodes|
    decreases n, 0, k
  {
    if k == 0 then ""
    else
      var c := n.nodes[k - 1];
      StrippedSeq(n, k - 1, keep)
      + if c.kind == "block" then (if keep && Protected(c) then Stripped(c, keep) else "")
        else if c.kind == "line" then (if keep && Protected(c) then ConcatValue(c.value) else "")
        else ValueText(c.value)
  }

  /**
   * Without `first` and `preserveNewlines` the output does not depend on the
   * comments met before: it is the reference `Stripped`.
   */
  lemma {:induction false} WalkWithoutFirst(n: CodeNode, o: CompileOptions, seen: bool)
    requires !o.first && !o.preserveNewlines
    ensures WalkF(n, o, seen).0 == Stripped(n, KeepProtected(o))
    decreases n, 1
  {
    if n.Block? {
      WalkSeqWithoutFirst(n, |n.nodes|, o, seen);
    }
  }

  lemma {:induction false} WalkSeqWithoutFirst(n: CodeNode, k: nat, o: CompileOptions, seen: bool)
    requires !o.first && !o.preserveNewlines
    requires n.Block? && k <= |n.nodes|
    ensures WalkSeq(n, k, o, seen).0 == StrippedSeq(n, k, KeepProtected(o))
    decreases n, 0, k
  {
    if k > 0 {
      var s1 := WalkSeq(n, k - 1, o, seen).1;
      WalkSeqWithoutFirst(n, k - 1, o, seen);
      WalkWithoutFirst(n.nodes[k - 1], o, s1);
    }
  }

  /**
   * With the default options, a tree whose only nodes with children are block
   * comments compiles to the text of its non-comment children: exactly the
   * comments are removed.
   */
  lemma DefaultsDropComments(n: CodeNode)
    requires n.Block? && Flat(n)
    ensures CompileF(n, Defaults) == CodeText(n.nodes)
  {
    WalkWithoutFirst(n, Defaults, false);
    StrippedDropsComments(n, |n.nodes|);
    assert n.nodes[..|n.nodes|] == n.nodes;
  }

  lemma {:induction false} StrippedDropsComments(n: CodeNode, k: nat)
    requires n.Block? && Flat(n) && k <= |n.nodes|
    ensures StrippedSeq(n, k, false) == CodeText(n.nodes[..k])
    decreases k
  {
    if k > 0 {
      StrippedDropsComments(n, k - 1);
      assert n.nodes[..k][..k - 1] == n.nodes[..k - 1];
      var c := n.nodes[k - 1];
      assert c in n.nodes;
      if !IsComment(c) {
        assert c.Leaf?;
      }
    }
  }

  /** Without comments, the code text is the whole text. */
  lemma {:induction false} CodeTextNoComments(ns: seq<CodeNode>)
    requires forall c <- ns :: !IsComment(c)
    ensures CodeText(ns) == TextOf(ns)
    decreases |ns|
  {
    if ns != [] {
      CodeTextNoComments(ns[..|ns| - 1]);
    }
  }

  /**
   * With `preserveNewlines` every block comment is replaced by as many line
   * feeds as it spans, so on a well-shaped flat tree the output has exactly as
   * many line feeds as the input text: line numbers are kept.
   */
  lemma {:induction false} PreserveNewlinesKeepsLines(n: CodeNode, o: CompileOptions, seen: bool)
    requires o.preserveNewlines && n.Block? && Shaped(n) && Flat(n)
    ensures Count(WalkF(n, o, seen).0, '\n') == Count(TextOf(n.nodes), '\n')
    decreases n, 1
  {
    PreserveSeq(n, |n.nodes|, o, seen);
    assert n.nodes[..|n.nodes|] == n.nodes;
  }

  lemma {:induction false} PreserveSeq(n: CodeNode, k: nat, o: CompileOptions, seen: bool)
    requires o.preserveNewlines && n.Block? && Shaped(n) && Flat(n) && k <= |n.nodes|
    ensures Count(WalkSeq(n, k, o, seen).0, '\n') == Count(TextOf(n.nodes[..k]), '\n')
    decreases n, 0, k
  {
    if k > 0 {
      var (out, s1) := WalkSeq(n, k - 1, o, seen);
      var c := n.nodes[k - 1];
      assert c in n.nodes;
      var piece := Child(c, o, s1).0;
      assert WalkSeq(n, k, o, seen).0 == out + piece;
      PreserveSeq(n, k - 1, o, seen);
      PreserveChild(c, o, s1);
      CountAppend(out, piece, '\n');
      assert n.nodes[..k] == n.nodes[..k - 1] + [c];
      TextOfAppend(n.nodes[..k - 1], c);
      CountAppend(TextOf(n.nodes[..k - 1]), Text(c), '\n');
    }
  }

  /** One child of a well-shaped flat tree adds as many line feeds under `preserveNewlines` as its text holds. */
  lemma {:induction false} PreserveChild(c: CodeNode, o: CompileOptions, seen: bool)
    requires o.preserveNewlines && Shaped(c) && Flat(c) && (c.Block? ==> c.kind == "block")
    ensures Count(Child(c, o, seen).0, '\n') == Count(Text(c), '\n')
    decreases c, 2
  {
    if c.kind == "block" {
      var inner := WalkF(c, o, seen).0;
      PreserveNewlinesKeepsLines(c, o, seen);
      assert Text(c) == TextOf(c.nodes);
      if !(o.first && seen) {
        SplitCount(inner, '\n');
        RepeatCount('\n', |Split(inner, '\n')| - 1);
      }
    } else if c.kind == "line" {
      NoCountWithout(c.value.value, '\n');
      assert Text(c) == c.value.value;
    } else {
      assert Text(c) == ValueText(c.value);
    }
  }

  lemma {:induction false} NoCountWithout(s: string, x: char)
    requires x !in s
    ensures Count(s, x) == 0
    decreases |s|
  {
    if s != [] {
      NoCountWithout(s[..|s| - 1], x);
    }
  }

  /**
   * With `first`, once a comment has been seen everything that follows is
   * copied verbatim: the walk emits the whole text and the flag stays set.
   */
  lemma {:induction false} FirstSeenCopiesAll(n: CodeNode, o: CompileOptions)
    requires o.first && n.Block? && Shaped(n) && Flat(n)
    ensures WalkF(n, o, true) == (TextOf(n.nodes), true)
    decreases n, 1
  {
    FirstSeenSeq(n, |n.nodes|, o);
    assert n.nodes[..|n.nodes|] == n.nodes;
  }

  lemma {:induction false} FirstSeenSeq(n: CodeNode, k: nat, o: CompileOptions)
    requires o.first && n.Block? && Shaped(n) && Flat(n) && k <= |n.nodes|
    ensures WalkSeq(n, k, o, true) == (TextOf(n.nodes[..k]), true)
    decreases n, 0, k
  {
    if k > 0 {
      var c := n.nodes[k - 1];
      assert c in n.nodes;
      FirstSeenSeq(n, k - 1, o);
      assert n.nodes[..k] == n.nodes[..k - 1] + [c];
      TextOfAppend(n.nodes[..k - 1], c);
      var piece: string;
      if c.kind == "block" {
        assert Shaped(c) && Flat(c) && c.Block?;
        FirstSeenCopiesAll(c, o);
        piece := TextOf(c.nodes);
        assert Text(c) == piece;
      } else if c.kind == "line" {
        piece := ConcatValue(c.value);
        assert Text(c) == piece;
      } else {
        assert c.Leaf?;
        piece := ValueText(c.value);
        assert Text(c) == piece;
      }
      assert Child(c, o, true) == (piece, true);
    }
  }

  /**
   * With `first` (and neither `preserveNewlines` nor protected comments kept),
   * only the first comment of the root is removed: the code before it and
   * everything after it is copied.
   */
  lemma FirstDropsOnlyFirst(n: CodeNode, o: CompileOptions, k: nat)
    requires o.first && !o.preserveNewlines && !KeepProtected(o)
    requires n.Block? && Shaped(n) && Flat(n)
    requires k < |n.nodes| && IsComment(n.nodes[k])
    requires forall j :: 0 <= j < k ==> !IsComment(n.nodes[j])
    ensures CompileF(n, o) == TextOf(n.nodes[..k]) + TextOf(n.nodes[k + 1..])
  {
    var before := n.nodes[..k];
    ThroughFirstComment(n, o, k);
    var tail := Block("root", None, NoMatch, "", n.nodes[k + 1..]);
    TailShapedFlat(n, k + 1);
    FirstSeenCopiesAll(tail, o);
    WalkSeqSplit(n, k + 1, o, false);
  }

  /** Walking up to and including the first comment emits the code before it and sets the flag. */
  lemma ThroughFirstComment(n: CodeNode, o: CompileOptions, k: nat)
    requires o.first && !o.preserveNewlines && !KeepProtected(o)
    requires n.Block? && Flat(n)
    requires k < |n.nodes| && IsComment(n.nodes[k])
    requires forall j :: 0 <= j < k ==> !IsComment(n.nodes[j])
    ensures WalkSeq(n, k + 1, o, false) == (TextOf(n.nodes[..k]), true)
  {
    var before := n.nodes[..k];
    PrefixUnseen(n, k, o);
    CodeTextNoComments(before);
    assert Child(n.nodes[k], o, false) == ("", true);
    assert TextOf(before) + "" == TextOf(before);
  }

  /** The children after `m` form a root of the same shape. */
  lemma TailShapedFlat(n: CodeNode, m: nat)
    requires n.Block? && Shaped(n) && Flat(n) && m <= |n.nodes|
    ensures var tail := Block("root", None, NoMatch, "", n.nodes[m..]);
      Shaped(tail) && Flat(tail)
  {
    assert forall c <- n.nodes[m..] :: c in n.nodes;
  }

  /** Before the first comment, the flag stays unset and the code is copied. */
  lemma {:induction false} PrefixUnseen(n: CodeNode, k: nat, o: CompileOptions)
    requires n.Block? && Flat(n) && k <= |n.nodes|
    requires forall j :: 0 <= j < k ==> !IsComment(n.nodes[j])
    ensures WalkSeq(n, k, o, false) == (CodeText(n.nodes[..k]), false)
    decreases k
  {
    if k > 0 {
      PrefixUnseen(n, k - 1, o);
      assert n.nodes[..k][..k - 1] == n.nodes[..k - 1];
      var c := n.nodes[k - 1];
      assert c in n.nodes;
      assert !IsComment(c);
      assert c.Leaf?;
      assert Text(c) == ValueText(c.value);
      assert Child(c, o, false) == (ValueText(c.value), false);
      assert CodeText(n.nodes[..k]) == CodeText(n.nodes[..k - 1]) + Text(c);
    }
  }

  /**
   * Walking the first `m` children and then the rest is walking them all:
   * the children after `m` are walked like the children of a root of their own.
   */
  lemma WalkSeqSplit(n: CodeNode, m: nat, o: CompileOptions, seen: bool)
    requires n.Block? && m <= |n.nodes|
    ensures var (a, s1) := WalkSeq(n, m, o, seen);
      WalkSeq(n, |n.nodes|, o, seen) == (a + WalkF(Block("root", None, NoMatch, "", n.nodes[m..]), o, s1).0, WalkF(Block("root", None, NoMatch, "", n.nodes[m..]), o, s1).1)
  {
    var (a, s1) := WalkSeq(n, m, o, seen);
    var tail := Block("root", None, NoMatch, "", n.nodes[m..]);
    WalkSeqSplitAt(n, tail, m, |n.nodes|, o, seen);
  }

  lemma {:induction false} WalkSeqSplitAt(n: CodeNode, tail: CodeNode, m: nat, k: nat, o: CompileOptions, seen: bool)
    requires n.Block? && m <= k <= |n.nodes|
    requires tail.Block? && tail.nodes == n.nodes[m..]
    ensures var (a, s1) := WalkSeq(n, m, o, seen);
      var (b, s2) := WalkSeq(tail, k - m, o, s1);
      WalkSeq(n, k, o, seen) == (a + b, s2)
    decreases k
  {
    if k > m {
      WalkSeqSplitAt(n, tail, m, k - 1, o, seen);
      var (a, s1) := WalkSeq(n, m, o, seen);
      var (b, s2) := WalkSeq(tail, k - 1 - m, o, s1);
      var c := n.nodes[k - 1];
      assert tail.nodes[k - m - 1] == c;
      var (piece, s3) := Child(c, o, s2);
      assert WalkSeq(tail, k - m, o, s1) == (b + piece, s3);
      assert WalkSeq(n, k, o, seen) == (a + b + piece, s3);
      assert a + b + piece == a + (b + piece);
    } else {
      var (a, s1) := WalkSeq(n, m, o, seen);
      assert WalkSeq(tail, 0, o, s1) == ("", s1);
      assert a + "" == a;
    }
  }
}
