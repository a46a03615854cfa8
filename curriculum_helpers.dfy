/**
 * The text helpers of lib/index.ts. Each one is a single global
 * `String.prototype.replace` with a regular expression; the model spells out
 * the left-to-right scan that the regular-expression engine performs: at each
 * position it tries the pattern, deletes the match and resumes after it, or
 * keeps one character and moves on.
 */
module CurriculumHelpers {
  import opened Wrappers
  import opened JsStrings

  /** The first index `i >= from` at which `pat` occurs in `s`. */
  function FindFrom(s: string, pat: string, from: nat): (r: Option<nat>)
    ensures r.Some? ==> from <= r.value && OccursAt(s, pat, r.value)
    ensures r.Some? ==> forall j :: from <= j < r.value ==> !OccursAt(s, pat, j)
    ensures r.None? ==> forall j :: from <= j ==> !OccursAt(s, pat, j)
    decreases |s| - from
  {
    if from + |pat| > |s| then None
    else if OccursAt(s, pat, from) then Some(from)
    else FindFrom(s, pat, from + 1)
  }

  /** An occurrence in `s[k..]` is an occurrence in `s`, `k` places further on. */
  lemma OccursInSuffix(s: string, pat: string, k: nat, i: int)
    requires k <= |s|
    ensures OccursAt(s[k..], pat, i) <==> (0 <= i && OccursAt(s, pat, k + i))
  {
    if 0 <= i && k + i + |pat| <= |s| {
      assert s[k..][i..i + |pat|] == s[k + i..k + i + |pat|];
    }
  }

  // ---------------------------------------------------------------------
  // removeWhiteSpace: `str.replace(/\s/g, "")`

  function RemoveWhiteSpace(s: string): (r: string)
    ensures |r| <= |s|
    ensures forall i :: 0 <= i < |r| ==> !IsWhiteSpace(r[i])
    decreases |s|
  {
    if s == [] then ""
    else (if IsWhiteSpace(s[0]) then "" else [s[0]]) + RemoveWhiteSpace(s[1..])
  }

  /** Every character other than white space is kept, as often as it occurs. */
  lemma {:induction false} RemoveWhiteSpaceKeepsOthers(s: string)
    ensures forall c :: !IsWhiteSpace(c) ==> multiset(RemoveWhiteSpace(s))[c] == multiset(s)[c]
    ensures forall c :: IsWhiteSpace(c) ==> multiset(RemoveWhiteSpace(s))[c] == 0
    decreases |s|
  {
    if s != [] {
      RemoveWhiteSpaceKeepsOthers(s[1..]);
      assert s == [s[0]] + s[1..];
    }
  }

  /** The deletion works character by character, so it distributes over concatenation. */
  lemma {:induction false} RemoveWhiteSpaceAppend(a: string, b: string)
    ensures RemoveWhiteSpace(a + b) == RemoveWhiteSpace(a) + RemoveWhiteSpace(b)
    decreases |a|
  {
    if a != [] {
      assert (a + b)[0] == a[0];
      assert (a + b)[1..] == a[1..] + b;
      RemoveWhiteSpaceAppend(a[1..], b);
    } else {
      assert a + b == b;
    }
  }

  /** A string without white space is returned unchanged; in particular the helper is idempotent. */
  lemma {:induction false} RemoveWhiteSpaceKeepsClean(s: string)
    requires forall i :: 0 <= i < |s| ==> !IsWhiteSpace(s[i])
    ensures RemoveWhiteSpace(s) == s
    ensures RemoveWhiteSpace(RemoveWhiteSpace(s)) == RemoveWhiteSpace(s)
    decreases |s|
  {
    if s != [] {
      RemoveWhiteSpaceKeepsClean(s[1..]);
    }
  }

  lemma RemoveWhiteSpaceIdempotent(s: string)
    ensures RemoveWhiteSpace(RemoveWhiteSpace(s)) == RemoveWhiteSpace(s)
  {
    RemoveWhiteSpaceKeepsClean(RemoveWhiteSpace(s));
  }

  // ---------------------------------------------------------------------
  // escapeRegExp: `exp.replace(/[.*+?^${}()|[\]\\]/g, "\\$&")`

  /** The fourteen characters the character class `[.*+?^${}()|[\]\\]` lists. */
  predicate IsRegExpSpecial(c: char) {
    c == '.' || c == '*' || c == '+' || c == '?' || c == '^' || c == '$' || c == '{' || c == '}'
    || c == '(' || c == ')' || c == '|' || c == '[' || c == ']' || c == '\\'
  }

  /** Number of special characters in `s`. */
  function CountSpecial(s: string): (n: nat)
    ensures n <= |s|
  {
    if s == [] then 0 else (if IsRegExpSpecial(s[0]) then 1 else 0) + CountSpecial(s[1..])
  }

  function EscapeRegExp(s: string): (r: string)
    ensures |r| == |s| + CountSpecial(s)
    ensures CountSpecial(s) == 0 ==> r == s
    decreases |s|
  {
    if s == [] then ""
    else (if IsRegExpSpecial(s[0]) then ['\\', s[0]] else [s[0]]) + EscapeRegExp(s[1..])
  }

  /**
   * How a regular expression reads a literal: a backslash takes the next
   * character literally, every other character stands for itself.
   */
  function Unescape(r: string): (s: string)
    decreases |r|
  {
    if r == [] then ""
    else if r[0] == '\\' && |r| >= 2 then [r[1]] + Unescape(r[2..])
    else [r[0]] + Unescape(r[1..])
  }

  /** The escaped string denotes exactly the original text. */
  lemma {:induction false} EscapeRegExpRoundTrip(s: string)
    ensures Unescape(EscapeRegExp(s)) == s
    decreases |s|
  {
    if s != [] {
      var rest := EscapeRegExp(s[1..]);
      EscapeRegExpRoundTrip(s[1..]);
      if IsRegExpSpecial(s[0]) {
        var r := ['\\', s[0]] + rest;
        assert r[2..] == rest;
      } else {
        var r := [s[0]] + rest;
        assert r[1..] == rest;
      }
    }
  }

  lemma {:induction false} EscapeRegExpAppend(a: string, b: string)
    ensures EscapeRegExp(a + b) == EscapeRegExp(a) + EscapeRegExp(b)
    decreases |a|
  {
    if a != [] {
      assert (a + b)[0] == a[0];
      assert (a + b)[1..] == a[1..] + b;
      EscapeRegExpAppend(a[1..], b);
    } else {
      assert a + b == b;
    }
  }

  // ---------------------------------------------------------------------
  // removeHtmlComments: `str.replace(/<!--[\s\S]*?(-->|$)/g, "")`

  function RemoveHtmlComments(s: string): (r: string)
    ensures |r| <= |s|
    decreases |s|
  {
    if s == [] then ""
    else if OccursAt(s, "<!--", 0) then
      match FindFrom(s, "-->", 4)
      case Some(i) => RemoveHtmlComments(s[i + 3..])
      case None => ""
    else [s[0]] + RemoveHtmlComments(s[1..])
  }

  /** Text in front of the first `<!--` is copied through unchanged. */
  lemma {:induction false} RemoveHtmlCommentsPrefix(a: string, b: string)
    requires forall i :: 0 <= i < |a| ==> !OccursAt(a + b, "<!--", i)
    ensures RemoveHtmlComments(a + b) == a + RemoveHtmlComments(b)
    decreases |a|
  {
    if a == [] {
      assert a + b == b;
    } else {
      var s := a + b;
      var t := a[1..] + b;
      assert !OccursAt(s, "<!--", 0);
      assert s[1..] == t;
      HtmlPlainStep(s);
      forall i | 0 <= i < |a[1..]|
        ensures !OccursAt(t, "<!--", i)
      {
        OccursInSuffix(s, "<!--", 1, i);
      }
      RemoveHtmlCommentsPrefix(a[1..], b);
      ConsAppend(a, RemoveHtmlComments(b));
    }
  }

  /** Outside a comment one character is copied. */
  lemma HtmlPlainStep(s: string)
    requires s != [] && !OccursAt(s, "<!--", 0)
    ensures RemoveHtmlComments(s) == [s[0]] + RemoveHtmlComments(s[1..])
  {
  }

  lemma ConsAppend(a: string, r: string)
    requires a != []
    ensures [a[0]] + (a[1..] + r) == a + r
  {
    assert a == [a[0]] + a[1..];
  }

  /** A string that contains no `<!--` is returned unchanged. */
  lemma RemoveHtmlCommentsNoComment(s: string)
    requires !Includes(s, "<!--")
    ensures RemoveHtmlComments(s) == s
  {
    assert s + "" == s;
    RemoveHtmlCommentsPrefix(s, "");
  }

  /**
   * A comment is deleted up to and including the nearest `-->` after its
   * `<!--`: the body `c`, followed by the first two dashes of the
   * terminator, holds no earlier `-->`.
   */
  lemma RemoveHtmlCommentsClosed(c: string, b: string)
    requires !Includes(c + "--", "-->")
    ensures RemoveHtmlComments("<!--" + c + "-->" + b) == RemoveHtmlComments(b)
  {
    var s := "<!--" + c + "-->" + b;
    assert OccursAt(s, "<!--", 0);
    assert OccursAt(s, "-->", 4 + |c|);
    forall j | 4 <= j < 4 + |c|
      ensures !OccursAt(s, "-->", j)
    {
      if OccursAt(s, "-->", j) {
        assert s[j..j + 3] == (c + "--")[j - 4..j - 1];
        assert OccursAt(c + "--", "-->", j - 4);
      }
    }
    assert FindFrom(s, "-->", 4) == Some(4 + |c|);
    assert s[4 + |c| + 3..] == b;
  }

  /** An unterminated comment runs to the end of the string. */
  lemma RemoveHtmlCommentsUnterminated(c: string)
    requires !Includes(c, "-->")
    ensures RemoveHtmlComments("<!--" + c) == ""
  {
    var s := "<!--" + c;
    assert OccursAt(s, "<!--", 0);
    assert s[4..] == c;
    forall j | 4 <= j
      ensures !OccursAt(s, "-->", j)
    {
      OccursInSuffix(s, "-->", 4, j - 4);
    }
  }

  // ---------------------------------------------------------------------
  // removeCssComments: `str.replace(/\/\*[\s\S]+?\*\//g, "")`

  /**
   * Where the comment opened at the start of `s` ends: the nearest `*` `/`
   * that leaves at least one character between the delimiters.
   */
  function CssCommentEnd(s: string): (r: Option<nat>)
    ensures r.Some? ==> 3 <= r.value && OccursAt(s, "*/", r.value)
  {
    if OccursAt(s, "/*", 0) then FindFrom(s, "*/", 3) else None
  }

  function RemoveCssComments(s: string): (r: string)
    ensures |r| <= |s|
    decreases |s|
  {
    if s == [] then ""
    else
      match CssCommentEnd(s)
      case Some(i) => RemoveCssComments(s[i + 2..])
      case None => [s[0]] + RemoveCssComments(s[1..])
  }

  /** A string without any `*` `/` is returned unchanged: nothing can close a comment. */
  lemma {:induction false} RemoveCssCommentsNoClose(s: string)
    requires !Includes(s, "*/")
    ensures RemoveCssComments(s) == s
    decreases |s|
  {
    if s != [] {
      forall j | 3 <= j
        ensures !OccursAt(s, "*/", j)
      {
        assert !OccursAt(s, "*/", j);
      }
      assert CssCommentEnd(s).None?;
      forall i | 0 <= i <= |s[1..]|
        ensures !OccursAt(s[1..], "*/", i)
      {
        OccursInSuffix(s, "*/", 1, i);
      }
      RemoveCssCommentsNoClose(s[1..]);
      assert s == [s[0]] + s[1..];
    }
  }

  /**
   * A comment with a non-empty body `c` is deleted through the nearest `*` `/`
   * that ends after the body's first character.
   */
  lemma RemoveCssCommentsClosed(c: string, b: string)
    requires |c| >= 1 && !Includes(c[1..] + "*", "*/")
    ensures RemoveCssComments("/*" + c + "*/" + b) == RemoveCssComments(b)
  {
    var s := "/*" + c + "*/" + b;
    assert OccursAt(s, "/*", 0);
    assert OccursAt(s, "*/", 2 + |c|);
    forall j | 3 <= j < 2 + |c|
      ensures !OccursAt(s, "*/", j)
    {
      if OccursAt(s, "*/", j) {
        assert s[j..j + 2] == (c[1..] + "*")[j - 3..j - 1];
        assert OccursAt(c[1..] + "*", "*/", j - 3);
      }
    }
    assert CssCommentEnd(s) == Some(2 + |c|);
    assert s[2 + |c| + 2..] == b;
  }

  /** A character that does not open a comment is copied. */
  lemma CssPlainStep(s: string)
    requires s != [] && !OccursAt(s, "/*", 0)
    ensures RemoveCssComments(s) == [s[0]] + RemoveCssComments(s[1..])
  {
  }

  /** Text in front of the first comment opener is copied through unchanged. */
  lemma {:induction false} RemoveCssCommentsPrefix(a: string, b: string)
    requires forall i :: 0 <= i < |a| ==> !OccursAt(a + b, "/*", i)
    ensures RemoveCssComments(a + b) == a + RemoveCssComments(b)
    decreases |a|
  {
    if a == [] {
      assert a + b == b;
    } else {
      var s := a + b;
      var t := a[1..] + b;
      assert !OccursAt(s, "/*", 0);
      assert s[1..] == t;
      CssPlainStep(s);
      forall i | 0 <= i < |a[1..]|
        ensures !OccursAt(t, "/*", i)
      {
        OccursInSuffix(s, "/*", 1, i);
      }
      RemoveCssCommentsPrefix(a[1..], b);
      ConsAppend(a, RemoveCssComments(b));
    }
  }

  /** A comment after plain text is deleted and the text before it is kept. */
  lemma RemoveCssCommentsMiddle(a: string, c: string, b: string)
    requires !Includes(a, "/*") && |c| >= 1 && !Includes(c[1..] + "*", "*/")
    ensures RemoveCssComments(a + "/*" + c + "*/" + b) == a + RemoveCssComments(b)
  {
    var rest := "/*" + c + "*/" + b;
    assert a + "/*" + c + "*/" + b == a + rest;
    forall i | 0 <= i < |a|
      ensures !OccursAt(a + rest, "/*", i)
    {
      if i + 2 <= |a| {
        assert (a + rest)[i..i + 2] == a[i..i + 2];
        assert !OccursAt(a, "/*", i);
      } else {
        assert (a + rest)[i + 1] == '/';
      }
    }
    RemoveCssCommentsPrefix(a, rest);
    RemoveCssCommentsClosed(c, b);
  }

  /** `a`, a comment holding `x`, then `b` becomes `ab`. */
  lemma RemoveCssCommentsExample()
    ensures RemoveCssComments("a/*x*/b") == "ab"
  {
    assert !Includes("a", "/*");
    assert !Includes("", "*/") && !Includes("*", "*/");
    RemoveCssCommentsMiddle("a", "x", "b");
    assert "a" + "/*" + "x" + "*/" + "b" == "a/*x*/b";
    assert !Includes("b", "*/");
    RemoveCssCommentsNoClose("b");
  }

  // An empty comment `/**/` has an empty body, so this pattern does not
  // match it and it survives.
  lemma RemoveCssCommentsKeepsEmpty(b: string)
    requires !Includes(b, "*/")
    ensures RemoveCssComments("/**/" + b) == "/**/" + b
  {
    var s0, s1, s2, t := "/**/" + b, "**/" + b, "*/" + b, "/" + b;
    assert s0[4..] == b;
    forall j | 3 <= j
      ensures !OccursAt(s0, "*/", j)
    {
      if OccursAt(s0, "*/", j) {
        assert j != 3 by { assert s0[3] == '/'; }
        OccursInSuffix(s0, "*/", 4, j - 4);
      }
    }
    assert s0[1..] == s1 && s1[1..] == s2 && s2[1..] == t;
    assert RemoveCssComments(s0) == "/" + RemoveCssComments(s1);
    assert !OccursAt(s1, "/*", 0) && !OccursAt(s2, "/*", 0);
    assert RemoveCssComments(s1) == "*" + RemoveCssComments(s2);
    assert RemoveCssComments(s2) == "*" + RemoveCssComments(t);
    assert t[1..] == b;
    forall i | 0 <= i <= |t|
      ensures !OccursAt(t, "*/", i)
    {
      if OccursAt(t, "*/", i) {
        assert i != 0;
        OccursInSuffix(t, "*/", 1, i - 1);
      }
    }
    RemoveCssCommentsNoClose(t);
  }

  // ---------------------------------------------------------------------
  // python.removeComments: `code.replace(/\/\/.*|\/\*[\s\S]*?\*\/|(#.*$)/gm, "")`

  // The alternatives are tried in order: `//` to the line end, `/*` to the
  // nearest `*/`, `#` to the line end.
  function RemovePythonComments(s: string): (r: string)
    ensures |r| <= |s|
    decreases |s|
  {
    if s == [] then ""
    else if OccursAt(s, "//", 0) then RemovePythonComments(s[LineEnd(s, 2)..])
    else if OccursAt(s, "/*", 0) && FindFrom(s, "*/", 2).Some? then
      RemovePythonComments(s[FindFrom(s, "*/", 2).value + 2..])
    else if s[0] == '#' then RemovePythonComments(s[LineEnd(s, 1)..])
    else [s[0]] + RemovePythonComments(s[1..])
  }

  /** A line comment never reaches past the end of its line: every line break is kept. */
  lemma {:induction false} RemovePythonCommentsKeepsLineBreaks(s: string, c: char)
    requires !Includes(s, "/*") && IsLineTerminator(c)
    ensures multiset(RemovePythonComments(s))[c] == multiset(s)[c]
    decreases |s|
  {
    if s == [] {
    } else if OccursAt(s, "//", 0) || s[0] == '#' {
      var e := PythonLineCommentSkip(s);
      ExcludedFromSuffix(s, "/*", e);
      RemovePythonCommentsKeepsLineBreaks(s[e..], c);
      NoBreakBefore(s, e, c);
    } else {
      PythonPlainStep(s);
      ExcludedFromSuffix(s, "/*", 1);
      RemovePythonCommentsKeepsLineBreaks(s[1..], c);
      MultisetHead(s, c);
      MultisetHead([s[0]] + RemovePythonComments(s[1..]), c);
    }
  }

  /** With no block-comment opener in `s`, a `#` or `//` comment is skipped to the end of its line. */
  lemma PythonLineCommentSkip(s: string) returns (e: nat)
    requires s != [] && !Includes(s, "/*") && (OccursAt(s, "//", 0) || s[0] == '#')
    ensures 0 < e <= |s| && RemovePythonComments(s) == RemovePythonComments(s[e..])
    ensures forall k :: 0 <= k < e ==> !IsLineTerminator(s[k])
  {
    var from := if OccursAt(s, "//", 0) then 2 else 1;
    assert s[0] == '/' || s[0] == '#' by {
      if OccursAt(s, "//", 0) {
        assert s[..2][0] == s[0];
      }
    }
    assert from == 2 ==> s[1] == '/' by {
      if from == 2 {
        assert s[..2][1] == s[1];
      }
    }
    e := LineEnd(s, from);
    assert !OccursAt(s, "/*", 0);
  }

  /** Any other character is copied. */
  lemma PythonPlainStep(s: string)
    requires s != [] && !OccursAt(s, "/*", 0) && !OccursAt(s, "//", 0) && s[0] != '#'
    ensures RemovePythonComments(s) == [s[0]] + RemovePythonComments(s[1..])
  {
  }

  /** Text in front of the first `#`, `//` or block-comment opener is copied through unchanged. */
  lemma {:induction false} RemovePythonCommentsPrefix(a: string, b: string)
    requires forall i :: 0 <= i < |a| ==> a[i] != '#' && !OccursAt(a + b, "//", i) && !OccursAt(a + b, "/*", i)
    ensures RemovePythonComments(a + b) == a + RemovePythonComments(b)
    decreases |a|
  {
    if a == [] {
      assert a + b == b;
    } else {
      var s := a + b;
      var t := a[1..] + b;
      assert !OccursAt(s, "//", 0) && !OccursAt(s, "/*", 0) && s[0] == a[0];
      assert s[1..] == t;
      PythonPlainStep(s);
      forall i | 0 <= i < |a[1..]|
        ensures a[1..][i] != '#' && !OccursAt(t, "//", i) && !OccursAt(t, "/*", i)
      {
        assert a[1..][i] == a[i + 1];
        OccursInSuffix(s, "//", 1, i);
        OccursInSuffix(s, "/*", 1, i);
      }
      RemovePythonCommentsPrefix(a[1..], b);
      ConsAppend(a, RemovePythonComments(b));
    }
  }

  /** A block comment is deleted through the nearest `*` `/` after its opening. */
  lemma RemovePythonCommentsSpan(c: string, b: string)
    requires !Includes(c + "*", "*/")
    ensures RemovePythonComments("/*" + c + "*/" + b) == RemovePythonComments(b)
  {
    var s := "/*" + c + "*/" + b;
    assert OccursAt(s, "/*", 0) && !OccursAt(s, "//", 0);
    assert OccursAt(s, "*/", 2 + |c|);
    forall j | 2 <= j < 2 + |c|
      ensures !OccursAt(s, "*/", j)
    {
      if OccursAt(s, "*/", j) {
        assert s[j..j + 2] == (c + "*")[j - 2..j];
        assert OccursAt(c + "*", "*/", j - 2);
      }
    }
    assert FindFrom(s, "*/", 2) == Some(2 + |c|);
    assert s[2 + |c| + 2..] == b;
  }

  /**
   * A block comment after plain text is deleted and the text before it is
   * kept, unless that text ends in `/`: then `//` starts a line comment.
   */
  lemma RemovePythonCommentsMiddle(a: string, c: string, b: string)
    requires '#' !in a && !Includes(a + "/", "//") && !Includes(a, "/*") && !Includes(c + "*", "*/")
    ensures RemovePythonComments(a + "/*" + c + "*/" + b) == a + RemovePythonComments(b)
  {
    var rest := "/*" + c + "*/" + b;
    assert a + "/*" + c + "*/" + b == a + rest;
    forall i | 0 <= i < |a|
      ensures a[i] != '#' && !OccursAt(a + rest, "//", i) && !OccursAt(a + rest, "/*", i)
    {
      assert a[i] in a;
      if i + 2 <= |a| {
        assert (a + rest)[i..i + 2] == a[i..i + 2] == (a + "/")[i..i + 2];
        assert !OccursAt(a, "/*", i) && !OccursAt(a + "/", "//", i);
      } else {
        assert (a + rest)[i..i + 2] == (a + "/")[i..i + 2] == [a[i], '/'];
        assert !OccursAt(a + "/", "//", i);
      }
    }
    RemovePythonCommentsPrefix(a, rest);
    RemovePythonCommentsSpan(c, b);
  }

  /** `a`, a comment holding `x`, then `b` becomes `ab`. */
  lemma RemovePythonCommentsExample()
    ensures RemovePythonComments("a/*x*/b") == "ab"
  {
    assert !Includes("a/", "//") by {
      assert !OccursAt("a/", "//", 0) by { assert "a/"[0] == 'a'; }
    }
    assert !Includes("x*", "*/") by {
      assert !OccursAt("x*", "*/", 0) by { assert "x*"[0] == 'x'; }
    }
    assert !Includes("a", "/*") && '#' !in "a";
    assert "a" + "/" == "a/" && "x" + "*" == "x*";
    RemovePythonCommentsMiddle("a", "x", "b");
    assert "a" + "/*" + "x" + "*/" + "b" == "a/*x*/b";
    assert !OccursAt("b", "/*", 0) && !OccursAt("b", "//", 0);
    PythonPlainStep("b");
  }

  lemma MultisetHead(s: string, c: char)
    requires s != []
    ensures multiset(s)[c] == (if s[0] == c then 1 else 0) + multiset(s[1..])[c]
  {
    assert s == [s[0]] + s[1..];
  }

  /** Cutting off a prefix without line breaks leaves the count of each break unchanged. */
  lemma NoBreakBefore(s: string, e: nat, c: char)
    requires e <= |s| && IsLineTerminator(c)
    requires forall k :: 0 <= k < e ==> !IsLineTerminator(s[k])
    ensures multiset(s[e..])[c] == multiset(s)[c]
  {
    assert s == s[..e] + s[e..];
    assert forall k :: 0 <= k < e ==> s[..e][k] != c;
    assert c !in multiset(s[..e]);
  }

  /** A pattern absent from `s` is absent from each of its suffixes. */
  lemma ExcludedFromSuffix(s: string, pat: string, k: nat)
    requires k <= |s| && !Includes(s, pat)
    ensures !Includes(s[k..], pat)
  {
    forall i | 0 <= i <= |s[k..]|
      ensures !OccursAt(s[k..], pat, i)
    {
      OccursInSuffix(s, pat, k, i);
    }
  }

  /** `#` or `//` deletes the rest of its line but not the line break itself. */
  lemma RemovePythonCommentsLine(marker: string, c: string, b: string)
    requires marker == "#" || marker == "//"
    requires forall i :: 0 <= i < |c| ==> !IsLineTerminator(c[i])
    requires b == [] || IsLineTerminator(b[0])
    ensures RemovePythonComments(marker + c + b) == RemovePythonComments(b)
  {
    var s := marker + c + b;
    var n := |marker|;
    assert s[n..n + |c|] == c;
    assert LineEnd(s, n) == n + |c| by {
      LineEndAt(s, n, n + |c|);
    }
    assert s[n + |c|..] == b;
    if marker == "//" {
      assert OccursAt(s, "//", 0);
    } else {
      assert s[0] == '#';
      assert !OccursAt(s, "//", 0) && !OccursAt(s, "/*", 0);
    }
  }

  lemma {:induction false} LineEndAt(s: string, from: nat, e: nat)
    requires from <= e <= |s|
    requires forall i :: from <= i < e ==> !IsLineTerminator(s[i])
    requires e == |s| || IsLineTerminator(s[e])
    ensures LineEnd(s, from) == e
    decreases e - from
  {
    if from < e {
      LineEndAt(s, from + 1, e);
    }
  }

  // ---------------------------------------------------------------------
  // removeJSComments: `try { return strip(codeStr) } catch { return codeStr }`

  /**
   * The stripper module `./strip` is not part of this model: it is a
   * parameter, and an exception it throws is a `Failure`.
   */
  function RemoveJsComments(strip: string -> Result<string, string>, code: string): (r: string)
    ensures strip(code).Success? ==> r == strip(code).value
    ensures strip(code).Failure? ==> r == code
  {
    match strip(code)
    case Success(stripped) => stripped
    case Failure(_) => code
  }
}
