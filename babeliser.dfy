/**
 * The Babel tree queries of lib/class/babeliser.ts. Babel's parser stays
 * outside the model: a `Babeliser` is built from the program body it
 * returned. A JavaScript value reached from the tree is an object (an AST
 * node when it has a `type`), an array, a string, or another primitive.
 */
module Babeliser {
  import opened Wrappers
  import opened JsStrings

  datatype Field = Field(key: string, value: Value)

  datatype Value =
    /** An object: `kind` is its `type` property, `fields` its other own properties in order. */
    | Obj(kind: Option<string>, fields: seq<Field>)
    | Arr(items: seq<Value>)
    | Str(s: string)
    /** A number, a boolean, `null` or `undefined`. */
    | Atom

  /** A node found by the search, with the scope the search recorded for it. */
  datatype Scoped = Scoped(node: Value, scope: seq<string>)

  datatype Babeliser = Babeliser(program: seq<Value>, maxScopeDepth: int, codeString: string)

  /** `options.maxScopeDepth` replaces the default 4 only when it is truthy. */
  function MaxScopeDepth(option: Option<int>): (d: int)
    ensures option.None? || option.value == 0 ==> d == 4
    ensures option.Some? && option.value != 0 ==> d == option.value
  {
    if option.Some? && option.value != 0 then option.value else 4
  }

  /** The constructor, given the body of the program Babel parsed from `codeString`. */
  function NewBabeliser(codeString: string, program: seq<Value>, maxScopeDepth: Option<int>): (b: Babeliser)
    ensures b.codeString == codeString && b.program == program
    ensures b.maxScopeDepth == MaxScopeDepth(maxScopeDepth)
  {
    Babeliser(program, MaxScopeDepth(maxScopeDepth), codeString)
  }

  predicate IsNode(v: Value, kind: string) {
    v.Obj? && v.kind == Some(kind)
  }

  /** The `name` of an Identifier node; Babel always gives one. */
  function IdentifierName(v: Value): string {
    if v.Obj? then
      match Lookup(v.fields, "name")
      case Some(Str(n)) => n
      case _ => ""
    else ""
  }

  /**
   * `node[key]`: the property with that key, if any. A Babel node never has
   * two properties with one key, so the first field with the key is the
   * property (`LookupFirst`), and there is none exactly when no field has
   * the key (`LookupAbsent`).
   */
  function Lookup(fields: seq<Field>, key: string): (r: Option<Value>)
    ensures r.Some? ==> Field(key, r.value) in fields
  {
    if fields == [] then None
    else if fields[0].key == key then Some(fields[0].value)
    else Lookup(fields[1..], key)
  }

  lemma {:induction false} LookupFirst(fields: seq<Field>, key: string, i: nat)
    requires i < |fields| && fields[i].key == key
    requires forall j :: 0 <= j < i ==> fields[j].key != key
    ensures Lookup(fields, key) == Some(fields[i].value)
    decreases i
  {
    if i > 0 {
      LookupFirst(fields[1..], key, i - 1);
    }
  }

  lemma {:induction false} LookupAbsent(fields: seq<Field>, key: string)
    ensures Lookup(fields, key).None? <==> forall j :: 0 <= j < |fields| ==> fields[j].key != key
  {
    if fields != [] && fields[0].key != key {
      LookupAbsent(fields[1..], key);
      assert forall j :: 1 <= j < |fields| ==> fields[j] == fields[1..][j - 1];
    }
  }

  /** `o?.[key]` on an optional value. */
  function Prop(o: Option<Value>, key: string): Option<Value> {
    if o.Some? && o.value.Obj? then Lookup(o.value.fields, key) else None
  }

  predicate IsKind(o: Option<Value>, kind: string) {
    o.Some? && IsNode(o.value, kind)
  }

  // ---------------------------------------------------------------------
  // Children: `Object.values(val)`

  function ChildCount(v: Value): nat {
    match v
    case Obj(_, fs) => |fs|
    case Arr(items) => |items|
    case _ => 0
  }

  function ChildAt(v: Value, i: nat): (c: Value)
    requires i < ChildCount(v)
    ensures c < v
  {
    match v
    case Obj(_, fs) => fs[i].value
    case Arr(items) => items[i]
  }

  /** Child `i` is the first Identifier node among the children from index `k` on. */
  predicate FirstIdentifierAt(v: Value, k: nat, i: nat) {
    k <= i < ChildCount(v) && IsNode(ChildAt(v, i), "Identifier")
    && forall j :: k <= j < i ==> !IsNode(ChildAt(v, j), "Identifier")
  }

  /**
   * `Object.values(val).find(v => v?.type === "Identifier")`: the position of
   * the first child, from index `k` on, that is an Identifier node.
   */
  function NearestIdentifier(v: Value, k: nat): (r: Option<nat>)
    ensures r.Some? ==> FirstIdentifierAt(v, k, r.value)
    ensures r.None? <==> forall i :: k <= i < ChildCount(v) ==> !IsNode(ChildAt(v, i), "Identifier")
    decreases ChildCount(v) - k
  {
    if k >= ChildCount(v) then None
    else if IsNode(ChildAt(v, k), "Identifier") then Some(k)
    else NearestIdentifier(v, k + 1)
  }

  /**
   * The scope the children of `v` are searched with: the parent's scope
   * extended by the name of the first Identifier child, or the parent's
   * scope itself when there is none.
   */
  function ChildScope(v: Value, scope: seq<string>): (s: seq<string>)
    ensures |s| <= |scope| + 1 && scope <= s
  {
    match NearestIdentifier(v, 0)
    case Some(i) => scope + [IdentifierName(ChildAt(v, i))]
    case None => scope
  }

  /** Which name `ChildScope` appends: that of the first Identifier child, and none without one. */
  lemma ChildScopeNearestName(v: Value, scope: seq<string>)
    ensures forall i | FirstIdentifierAt(v, 0, i) :: ChildScope(v, scope) == scope + [IdentifierName(ChildAt(v, i))]
    ensures (forall i :: 0 <= i < ChildCount(v) ==> !IsNode(ChildAt(v, i), "Identifier")) ==> ChildScope(v, scope) == scope
  {
    forall i | FirstIdentifierAt(v, 0, i)
      ensures ChildScope(v, scope) == scope + [IdentifierName(ChildAt(v, i))]
    {
      var j := NearestIdentifier(v, 0).value;
      assert FirstIdentifierAt(v, 0, j);
    }
  }

  // ---------------------------------------------------------------------
  // _recurse

  /**
   * The matches `_recurse(v, a => a?.type === target, scope)` returns: the
   * pre-order list of the nodes of kind `target`, each with its scope, cut
   * off where the scope reaches `maxDepth` names.
   */
  function RecurseF(v: Value, target: string, scope: seq<string>, maxDepth: int): (r: seq<Scoped>)
    ensures forall m | m in r :: IsNode(m.node, target)
    ensures forall m | m in r :: scope <= m.scope && |m.scope| < maxDepth
    decreases v, 1, 0
  {
    if |scope| >= maxDepth then []
    else if v.Obj? || v.Arr? then
      (if IsNode(v, target) then [Scoped(v, scope)] else [])
        + RecurseChildren(v, ChildCount(v), target, ChildScope(v, scope), maxDepth)
    else []
  }

  /** The matches from the first `k` children of `v`, each searched with `scope`. */
  function RecurseChildren(v: Value, k: nat, target: string, scope: seq<string>, maxDepth: int): (r: seq<Scoped>)
    requires k <= ChildCount(v)
    ensures forall m | m in r :: IsNode(m.node, target)
    ensures forall m | m in r :: scope <= m.scope && |m.scope| < maxDepth
    decreases v, 0, k
  {
    if k == 0 then []
    else RecurseChildren(v, k - 1, target, scope, maxDepth) + RecurseF(ChildAt(v, k - 1), target, scope, maxDepth)
  }

  method Recurse(v: Value, target: string, scope: seq<string>, maxDepth: int) returns (matches: seq<Scoped>)
    ensures matches == RecurseF(v, target, scope, maxDepth)
    decreases v
  {
    matches := [];
    if |scope| >= maxDepth {
      return;
    }
    if v.Obj? || v.Arr? {
      matches := if IsNode(v, target) then [Scoped(v, scope)] else [];
      var nearest := NearestIdentifier(v, 0);
      var currentScope := if nearest.Some? then scope + [IdentifierName(ChildAt(v, nearest.value))] else scope;
      assert currentScope == ChildScope(v, scope);
      var here := matches;
      for i := 0 to ChildCount(v)
        invariant matches == here + RecurseChildren(v, i, target, currentScope, maxDepth)
      {
        var mat := Recurse(ChildAt(v, i), target, currentScope, maxDepth);
        RecurseChildrenStep(v, i, target, currentScope, maxDepth);
        AppendAssoc(here, RecurseChildren(v, i, target, currentScope, maxDepth), mat);
        matches := matches + mat;
      }
      RecurseUnfold(v, target, scope, maxDepth);
    }
  }

  /** One level of `RecurseF` on an object or array below the depth limit. */
  lemma RecurseUnfold(v: Value, target: string, scope: seq<string>, maxDepth: int)
    requires |scope| < maxDepth && (v.Obj? || v.Arr?)
    ensures RecurseF(v, target, scope, maxDepth)
      == (if IsNode(v, target) then [Scoped(v, scope)] else [])
        + RecurseChildren(v, ChildCount(v), target, ChildScope(v, scope), maxDepth)
  {
  }

  lemma AppendAssoc<T>(a: seq<T>, b: seq<T>, c: seq<T>)
    ensures a + b + c == a + (b + c)
  {
  }

  lemma RecurseChildrenStep(v: Value, i: nat, target: string, scope: seq<string>, maxDepth: int)
    requires i < ChildCount(v)
    ensures RecurseChildren(v, i + 1, target, scope, maxDepth)
      == RecurseChildren(v, i, target, scope, maxDepth) + RecurseF(ChildAt(v, i), target, scope, maxDepth)
  {
  }

  /** A node of the target kind comes before every match found below it. */
  lemma RecursePreOrder(v: Value, target: string, scope: seq<string>, maxDepth: int)
    requires |scope| < maxDepth && IsNode(v, target)
    ensures var r := RecurseF(v, target, scope, maxDepth); |r| > 0 && r[0] == Scoped(v, scope)
  {
  }

  /** A search that starts at the depth limit finds nothing. */
  lemma RecurseDepthLimit(v: Value, target: string, scope: seq<string>, maxDepth: int)
    requires |scope| >= maxDepth
    ensures RecurseF(v, target, scope, maxDepth) == []
  {
  }

  /**
   * A child of the target kind is found with its parent's scope extended by
   * the parent's first Identifier, as long as that scope is below the limit.
   */
  lemma RecurseFindsChild(v: Value, i: nat, target: string, scope: seq<string>, maxDepth: int)
    requires i < ChildCount(v) && IsNode(ChildAt(v, i), target)
    requires |ChildScope(v, scope)| < maxDepth
    ensures Scoped(ChildAt(v, i), ChildScope(v, scope)) in RecurseF(v, target, scope, maxDepth)
  {
    var cs := ChildScope(v, scope);
    RecursePreOrder(ChildAt(v, i), target, cs, maxDepth);
    RecurseChildrenContains(v, ChildCount(v), i, target, cs, maxDepth);
  }

  lemma {:induction false} RecurseChildrenContains(v: Value, k: nat, i: nat, target: string, scope: seq<string>, maxDepth: int)
    requires i < k <= ChildCount(v)
    ensures forall m | m in RecurseF(ChildAt(v, i), target, scope, maxDepth) :: m in RecurseChildren(v, k, target, scope, maxDepth)
    decreases k
  {
    var prev := RecurseChildren(v, k - 1, target, scope, maxDepth);
    var last := RecurseF(ChildAt(v, k - 1), target, scope, maxDepth);
    assert RecurseChildren(v, k, target, scope, maxDepth) == prev + last;
    if i < k - 1 {
      RecurseChildrenContains(v, k - 1, i, target, scope, maxDepth);
    }
    forall m | m in RecurseF(ChildAt(v, i), target, scope, maxDepth)
      ensures m in prev + last
    {
      if i < k - 1 {
        assert m in prev;
      } else {
        assert m in last;
      }
    }
  }

  // ---------------------------------------------------------------------
  // _recurseBodiesForType

  /** The matches of every top-level statement, searched from the scope `["global"]`, in order. */
  function BodiesF(body: seq<Value>, target: string, maxDepth: int): (r: seq<Scoped>)
    ensures forall m | m in r :: IsNode(m.node, target) && ["global"] <= m.scope && |m.scope| < maxDepth
  {
    if body == [] then []
    else BodiesF(body[..|body| - 1], target, maxDepth) + RecurseF(body[|body| - 1], target, ["global"], maxDepth)
  }

  method RecurseBodiesForType(b: Babeliser, target: string) returns (types: seq<Scoped>)
    ensures types == BodiesF(b.program, target, b.maxScopeDepth)
  {
    types := [];
    for i := 0 to |b.program|
      invariant types == BodiesF(b.program[..i], target, b.maxScopeDepth)
    {
      assert b.program[..i + 1][..i] == b.program[..i];
      var a := Recurse(b.program[i], target, ["global"], b.maxScopeDepth);
      types := types + a;
    }
    assert b.program[..|b.program|] == b.program;
  }

  /** A top-level statement of the target kind is found with the scope `["global"]` when the limit allows one name. */
  lemma BodiesFindsTopLevel(body: seq<Value>, i: nat, target: string, maxDepth: int)
    requires i < |body| && IsNode(body[i], target) && maxDepth > 1
    ensures Scoped(body[i], ["global"]) in BodiesF(body, target, maxDepth)
    decreases |body|
  {
    if i < |body| - 1 {
      assert body[..|body| - 1][i] == body[i];
      BodiesFindsTopLevel(body[..|body| - 1], i, target, maxDepth);
    } else {
      RecursePreOrder(body[i], target, ["global"], maxDepth);
    }
  }

  // ---------------------------------------------------------------------
  // _isInScope

  function IsInScope(scope: seq<string>, targetScope: seq<string>): (r: bool)
    ensures targetScope == ["global"] ==> r
    ensures targetScope != ["global"] && |scope| < |targetScope| ==> !r
  {
    if |targetScope| == 1 && targetScope[0] == "global" then true
    else if |scope| < |targetScope| then false
    else Includes(Join(scope, "."), Join(targetScope, "."))
  }

  /** A scope that starts with the target scope is in it. */
  lemma IsInScopePrefix(scope: seq<string>, targetScope: seq<string>)
    requires targetScope <= scope
    ensures IsInScope(scope, targetScope)
  {
    JoinPrefix(scope, targetScope, ".");
    assert OccursAt(Join(scope, "."), Join(targetScope, "."), 0);
  }

  /**
   * The test is on the joined strings, so a target matches anywhere inside
   * the scope, even across part of a name: `["ab"]` is in `["global", "cab"]`.
   */
  lemma IsInScopeSubstring()
    ensures IsInScope(["global", "outer", "inner"], ["inner"])
    ensures IsInScope(["global", "cab"], ["ab"])
    ensures !IsInScope(["global", "cab"], ["x", "y", "z"])
  {
    assert Join(["global", "outer", "inner"], ".") == "global.outer.inner";
    assert OccursAt("global.outer.inner", "inner", 13);
    assert Join(["global", "cab"], ".") == "global.cab";
    assert OccursAt("global.cab", "ab", 8);
  }

  /** Joining a prefix of the parts gives a prefix of the joined string. */
  lemma {:induction false} JoinPrefix(parts: seq<string>, prefix: seq<string>, sep: string)
    requires prefix <= parts
    ensures Join(prefix, sep) <= Join(parts, sep)
    decreases |parts|
  {
    if prefix != parts {
      var front := parts[..|parts| - 1];
      assert prefix <= front;
      JoinPrefix(front, prefix, sep);
      if |parts| >= 2 {
        assert Join(parts, sep) == Join(front, sep) + sep + parts[|parts| - 1];
      } else {
        assert prefix == [];
      }
    }
  }

  // ---------------------------------------------------------------------
  // getExpressionStatement

  /** The callback that `getExpressionStatement` hands to `find`. */
  predicate CallMatches(statement: Value, name: string) {
    var expression := Prop(Some(statement), "expression");
    if IsKind(expression, "CallExpression") && DottedCallMatch(expression, name).Some? then
      DottedCallMatch(expression, name).value
    else if IsKind(expression, "CallExpression") && IsKind(Prop(expression, "callee"), "Identifier")
      && IdentifierName(Prop(expression, "callee").value) == name then
      true
    else if IsKind(expression, "AwaitExpression") && IsKind(Prop(expression, "argument"), "CallExpression")
      && IsKind(Prop(Prop(expression, "argument"), "callee"), "Identifier") then
      IdentifierName(Prop(Prop(expression, "argument"), "callee").value) == name
    else false
  }

  /**
   * For a dotted name and a callee `object.property` whose two parts are
   * identifiers, the answer `object.name === objectName && property.name === methodName`;
   * `None` when that early `return` is not reached.
   */
  function DottedCallMatch(call: Option<Value>, name: string): (r: Option<bool>)
    ensures r.Some? ==> '.' in name && IsKind(Prop(call, "callee"), "MemberExpression")
  {
    var callee := Prop(call, "callee");
    if '.' in name && IsKind(callee, "MemberExpression")
      && IsKind(Prop(callee, "object"), "Identifier") && IsKind(Prop(callee, "property"), "Identifier") then
      CountPositive(name, '.');
      SplitCount(name, '.');
      var parts := Split(name, '.');
      Some(IdentifierName(Prop(callee, "object").value) == parts[0]
        && IdentifierName(Prop(callee, "property").value) == parts[1])
    else None
  }

  /** The first statement, in search order, that is in the scope and calls `name`. */
  function FindCall(statements: seq<Scoped>, name: string, scope: seq<string>): (r: Option<Scoped>)
    ensures r.Some? ==> r.value in statements && IsInScope(r.value.scope, scope) && CallMatches(r.value.node, name)
    ensures r.None? <==> forall i :: 0 <= i < |statements| ==>
      !(IsInScope(statements[i].scope, scope) && CallMatches(statements[i].node, name))
  {
    if statements == [] then None
    else if IsInScope(statements[0].scope, scope) && CallMatches(statements[0].node, name) then Some(statements[0])
    else FindCall(statements[1..], name, scope)
  }

  lemma {:induction false} FindCallFirst(statements: seq<Scoped>, name: string, scope: seq<string>, i: nat)
    requires i < |statements| && IsInScope(statements[i].scope, scope) && CallMatches(statements[i].node, name)
    requires forall j :: 0 <= j < i ==> !(IsInScope(statements[j].scope, scope) && CallMatches(statements[j].node, name))
    ensures FindCall(statements, name, scope) == Some(statements[i])
    decreases i
  {
    if i > 0 {
      FindCallFirst(statements[1..], name, scope, i - 1);
    }
  }

  function GetExpressionStatement(b: Babeliser, name: string, scope: seq<string>): (r: Option<Scoped>)
    ensures r.Some? ==>
      (IsNode(r.value.node, "ExpressionStatement") && IsInScope(r.value.scope, scope) && CallMatches(r.value.node, name))
  {
    FindCall(BodiesF(b.program, "ExpressionStatement", b.maxScopeDepth), name, scope)
  }

  /** The identifiers a call check compares with the name hold no dot, as in every parsed program. */
  predicate DotFreeCallees(statement: Value) {
    var expression := Prop(Some(statement), "expression");
    var callee := Prop(expression, "callee");
    var awaited := Prop(Prop(expression, "argument"), "callee");
    (IsKind(callee, "Identifier") ==> '.' !in IdentifierName(callee.value))
    && (IsKind(awaited, "Identifier") ==> '.' !in IdentifierName(awaited.value))
  }

  /**
   * A dotted name `a.b` matches only a call whose callee is the member
   * expression `a.b` of two identifiers: the text before the first dot and
   * the piece after it.
   */
  lemma DottedNameMatch(statement: Value, name: string)
    requires '.' in name && CallMatches(statement, name) && DotFreeCallees(statement)
    ensures var expression := Prop(Some(statement), "expression"); var callee := Prop(expression, "callee");
      IsKind(expression, "CallExpression") && IsKind(callee, "MemberExpression")
      && IsKind(Prop(callee, "object"), "Identifier") && IsKind(Prop(callee, "property"), "Identifier")
      && |Split(name, '.')| >= 2
      && IdentifierName(Prop(callee, "object").value) == Split(name, '.')[0]
      && IdentifierName(Prop(callee, "property").value) == Split(name, '.')[1]
  {
    CountPositive(name, '.');
    SplitCount(name, '.');
  }

  /** A plain name matches a direct call `name(...)` or an awaited one `await name(...)`. */
  lemma PlainNameMatch(statement: Value, name: string)
    requires '.' !in name
    ensures var expression := Prop(Some(statement), "expression");
      CallMatches(statement, name) <==>
        (IsKind(expression, "CallExpression") && IsKind(Prop(expression, "callee"), "Identifier")
          && IdentifierName(Prop(expression, "callee").value) == name)
        || (IsKind(expression, "AwaitExpression") && IsKind(Prop(expression, "argument"), "CallExpression")
          && IsKind(Prop(Prop(expression, "argument"), "callee"), "Identifier")
          && IdentifierName(Prop(Prop(expression, "argument"), "callee").value) == name)
  {
  }

  // ---------------------------------------------------------------------
  // getLineAndColumnFromIndex

  /** Where `s.slice(0, end)` stops: a negative `end` counts from the end of the string. */
  function SliceEnd(s: string, end: int): (e: nat)
    ensures e <= |s|
    ensures 0 <= end <= |s| ==> e == end
  {
    if end < 0 then (if |s| + end < 0 then 0 else |s| + end)
    else if end > |s| then |s| else end
  }

  datatype Position = Position(line: nat, column: nat)

  /**
   * The line is one more than the number of line feeds before `index`; the
   * column is the length of the text between the last of them and `index`.
   */
  function GetLineAndColumnFromIndex(b: Babeliser, index: int): (p: Position)
    ensures var before := b.codeString[..SliceEnd(b.codeString, index)];
      p.line == Count(before, '\n') + 1
      && p.column <= |before| && '\n' !in before[|before| - p.column..]
      && (p.column < |before| ==> before[|before| - p.column - 1] == '\n')
  {
    var before := b.codeString[..SliceEnd(b.codeString, index)];
    var linesBeforeIndex := Split(before, '\n');
    SplitCount(before, '\n');
    SplitLastPiece(before, '\n');
    Position(|linesBeforeIndex|, |linesBeforeIndex[|linesBeforeIndex| - 1]|)
  }
}
