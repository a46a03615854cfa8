/**
 * String vocabulary shared by the models of the TypeScript helpers: the
 * character classes of JavaScript regular expressions and a few
 * `String.prototype` operations (`startsWith`, `split`, `join`, `includes`).
 * A JavaScript string is modelled as `seq<char>`, a sequence of Unicode
 * scalar values. JavaScript counts UTF-16 code units, so lengths and offsets
 * agree with the source only for text inside the Basic Multilingual Plane:
 * a character outside it is one `char` here and two code units there.
 */
module JsStrings {

  /** The characters that end a line for `.` and `$` in a JavaScript regular expression. */
  predicate IsLineTerminator(c: char) {
    c == '\n' || c == '\r' || c == '\U{2028}' || c == '\U{2029}'
  }

  /** `\w`: ASCII letters, digits and underscore. */
  predicate IsWordChar(c: char) {
    ('a' <= c <= 'z') || ('A' <= c <= 'Z') || ('0' <= c <= '9') || c == '_'
  }

  /** `\s`: the WhiteSpace and LineTerminator code points of ECMAScript. */
  predicate IsWhiteSpace(c: char) {
    c == '\t' || c == '\n' || c == '\U{000B}' || c == '\U{000C}' || c == '\r' || c == ' '
    || c == '\U{00A0}' || c == '\U{1680}' || ('\U{2000}' <= c <= '\U{200A}')
    || c == '\U{2028}' || c == '\U{2029}' || c == '\U{202F}' || c == '\U{205F}'
    || c == '\U{3000}' || c == '\U{FEFF}'
  }

  /** Where `.*` starting at `from` stops: the first line terminator, or the end. */
  function LineEnd(s: string, from: nat): (e: nat)
    requires from <= |s|
    ensures from <= e <= |s|
    ensures forall i :: from <= i < e ==> !IsLineTerminator(s[i])
    ensures e < |s| ==> IsLineTerminator(s[e])
    decreases |s| - from
  {
    if from == |s| || IsLineTerminator(s[from]) then from else LineEnd(s, from + 1)
  }

  predicate StartsWith(s: string, prefix: string) {
    prefix <= s
  }

  predicate EndsWith(s: string, suffix: string) {
    |suffix| <= |s| && s[|s| - |suffix|..] == suffix
  }

  /** `pat` occurs in `s` starting at index `i`. */
  predicate OccursAt(s: string, pat: string, i: int) {
    0 <= i && i + |pat| <= |s| && s[i..i + |pat|] == pat
  }

  /** `s.includes(pat)`. */
  predicate Includes(s: string, pat: string) {
    exists i | 0 <= i <= |s| :: OccursAt(s, pat, i)
  }

  /** Number of occurrences of the character `c` in `s`. */
  function Count(s: string, c: char): (n: nat)
    ensures n <= |s|
  {
    if s == [] then 0 else Count(s[..|s| - 1], c) + (if s[|s| - 1] == c then 1 else 0)
  }

  lemma {:induction false} CountAppend(a: string, b: string, c: char)
    ensures Count(a + b, c) == Count(a, c) + Count(b, c)
    decreases |b|
  {
    if b == [] {
      assert a + b == a;
    } else {
      assert (a + b)[..|a + b| - 1] == a + b[..|b| - 1];
      CountAppend(a, b[..|b| - 1], c);
    }
  }

  /** `"x".repeat(n)`. */
  function Repeat(c: char, n: nat): (s: string)
    ensures |s| == n && forall i :: 0 <= i < n ==> s[i] == c
  {
    if n == 0 then "" else Repeat(c, n - 1) + [c]
  }

  /** `parts.join(sep)`. */
  function Join(parts: seq<string>, sep: string): string {
    if parts == [] then ""
    else if |parts| == 1 then parts[0]
    else Join(parts[..|parts| - 1], sep) + sep + parts[|parts| - 1]
  }

  /** `s.split(c)` for a one-character separator: the pieces between occurrences of `c`. */
  function Split(s: string, c: char): (parts: seq<string>)
    ensures |parts| >= 1
  {
    if s == [] then [""]
    else
      var init := Split(s[..|s| - 1], c);
      if s[|s| - 1] == c then init + [""]
      else init[..|init| - 1] + [init[|init| - 1] + [s[|s| - 1]]]
  }

  /** ASCII lower-casing, the part of `String.prototype.toLowerCase` the model needs. */
  function ToLower(s: string): (r: string)
    ensures |r| == |s|
  {
    if s == [] then ""
    else
      var c := s[0];
      [if 'A' <= c <= 'Z' then (c as int + 32) as char else c] + ToLower(s[1..])
  }

  /** `s.split(c)` has one more piece than `s` has occurrences of `c`. */
  lemma {:induction false} SplitCount(s: string, c: char)
    ensures |Split(s, c)| == Count(s, c) + 1
    decreases |s|
  {
    if s != [] {
      SplitCount(s[..|s| - 1], c);
    }
  }

  /** The last piece of `s.split(c)` is the text after the last `c`. */
  lemma {:induction false} SplitLastPiece(s: string, c: char)
    ensures var parts := Split(s, c); var last := parts[|parts| - 1];
      |last| <= |s| && last == s[|s| - |last|..] && c !in last
      && (|last| < |s| ==> s[|s| - |last| - 1] == c)
    decreases |s|
  {
    if s != [] {
      var front := s[..|s| - 1];
      SplitLastPiece(front, c);
      var init := Split(front, c);
      var l0 := init[|init| - 1];
      if s[|s| - 1] != c {
        var l := l0 + [s[|s| - 1]];
        assert Split(s, c)[|Split(s, c)| - 1] == l;
        assert s[|s| - |l|..] == front[|front| - |l0|..] + [s[|s| - 1]];
      }
    }
  }

  /** A character that occurs in `s` is counted. */
  lemma {:induction false} CountPositive(s: string, c: char)
    requires c in s
    ensures Count(s, c) > 0
    decreases |s|
  {
    if s[|s| - 1] != c {
      assert s == s[..|s| - 1] + [s[|s| - 1]];
      CountPositive(s[..|s| - 1], c);
    }
  }

  /** Joining the pieces of `s.split(c)` with `c` gives `s` back. */
  lemma {:induction false} SplitJoin(s: string, c: char)
    ensures Join(Split(s, c), [c]) == s
    decreases |s|
  {
    if s != [] {
      var front := s[..|s| - 1];
      var x := s[|s| - 1];
      var init := Split(front, c);
      SplitJoin(front, c);
      assert s == front + [x];
      if x == c {
        JoinAppend(init, "", [c]);
      } else {
        JoinExtendLast(init, x, [c]);
      }
    }
  }

  /** Appending a piece appends the separator and the piece. */
  lemma JoinAppend(parts: seq<string>, p: string, sep: string)
    requires |parts| >= 1
    ensures Join(parts + [p], sep) == Join(parts, sep) + sep + p
  {
    assert (parts + [p])[..|parts|] == parts;
  }

  /** Extending the last piece extends the joined text. */
  lemma JoinExtendLast(parts: seq<string>, x: char, sep: string)
    requires |parts| >= 1
    ensures var k := |parts|;
      Join(parts[..k - 1] + [parts[k - 1] + [x]], sep) == Join(parts, sep) + [x]
  {
    var k := |parts|;
    var ext := parts[..k - 1] + [parts[k - 1] + [x]];
    if k > 1 {
      assert ext[..k - 1] == parts[..k - 1];
      assert Join(ext, sep) == Join(parts[..k - 1], sep) + sep + (parts[k - 1] + [x]);
    }
  }

  lemma {:induction false} RepeatCount(c: char, n: nat)
    ensures Count(Repeat(c, n), c) == n
    decreases n
  {
    if n > 0 {
      RepeatCount(c, n - 1);
      assert Repeat(c, n)[..n - 1] == Repeat(c, n - 1);
    }
  }
  /** Without the separator, `s.split(c)` is `[s]`. */
  lemma {:induction false} SplitNoSeparator(s: string, c: char)
    requires c !in s
    ensures Split(s, c) == [s]
    decreases |s|
  {
    if s != [] {
      SplitNoSeparator(s[..|s| - 1], c);
      assert s[..|s| - 1] + [s[|s| - 1]] == s;
    }
  }

  /** Text after the last separator becomes the last piece. */
  lemma {:induction false} SplitAfterSeparator(a: string, b: string, c: char)
    requires c !in b
    ensures Split(a + [c] + b, c) == Split(a, c) + [b]
    decreases |b|
  {
    if b == [] {
      assert a + [c] + b == a + [c];
      assert (a + [c])[..|a + [c]| - 1] == a;
    } else {
      var front := b[..|b| - 1];
      var x := b[|b| - 1];
      SplitAfterSeparator(a, front, c);
      var s := a + [c] + b;
      assert s[..|s| - 1] == a + [c] + front;
      assert front + [x] == b;
    }
  }

  /** Splitting the joined pieces gives them back when no piece holds the separator. */
  lemma {:induction false} JoinSplit(parts: seq<string>, c: char)
    requires |parts| >= 1
    requires forall i :: 0 <= i < |parts| ==> c !in parts[i]
    ensures Split(Join(parts, [c]), c) == parts
    decreases |parts|
  {
    if |parts| == 1 {
      SplitNoSeparator(parts[0], c);
    } else {
      var init := parts[..|parts| - 1];
      JoinSplit(init, c);
      SplitAfterSeparator(Join(init, [c]), parts[|parts| - 1], c);
      assert init + [parts[|parts| - 1]] == parts;
    }
  }
}
