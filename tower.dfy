/**
 * The `Tower` lookups of lib/class/tower.ts: a wrapper around one Babel node
 * that finds a function or variable declaration by name in the node's
 * immediate body and wraps it in turn. Babel's parser and generator are not
 * part of this model; a tower built from source text starts from the
 * `program` node the parser returned.
 */
module Tower {
  import opened Wrappers

  /** The Babel node kinds a tower looks at; every other kind is `OtherNode`. */
  datatype Node =
    | Program(body: seq<Node>)
    /** `id` is absent for `export default function () {}`; `block` is `body.body`, the statements of its body. */
    | FunctionDeclaration(id: Option<string>, isAsync: bool, params: seq<Node>, block: seq<Node>)
    | VariableDeclaration(declKind: string, declarations: seq<Node>)
    | VariableDeclarator(target: Node, init: Option<Node>)
    | Identifier(name: string)
    | OtherNode(nodeType: string, children: seq<Node>)

  /** `node.type`. */
  function TypeOf(n: Node): string {
    match n
    case Program(_) => "Program"
    case FunctionDeclaration(_, _, _, _) => "FunctionDeclaration"
    case VariableDeclaration(_, _) => "VariableDeclaration"
    case VariableDeclarator(_, _) => "VariableDeclarator"
    case Identifier(_) => "Identifier"
    case OtherNode(t, _) => t
  }

  /** The `type` strings that have a constructor of their own above. */
  const DedicatedKinds: set<string> :=
    {"Program", "FunctionDeclaration", "VariableDeclaration", "VariableDeclarator", "Identifier"}

  /** A tree Babel can produce: an `OtherNode`, at any depth, never claims a kind that has its own constructor. */
  predicate WellKinded(n: Node) {
    match n
    case Program(body) => forall c | c in body :: WellKinded(c)
    case FunctionDeclaration(_, _, params, block) =>
      (forall c | c in params :: WellKinded(c)) && (forall c | c in block :: WellKinded(c))
    case VariableDeclaration(_, declarations) => forall c | c in declarations :: WellKinded(c)
    case VariableDeclarator(target, init) => WellKinded(target) && (init.Some? ==> WellKinded(init.value))
    case Identifier(_) => true
    case OtherNode(t, children) => t !in DedicatedKinds && forall c | c in children :: WellKinded(c)
  }

  /** In a well-kinded tree `node.type` tells the kinds apart, so a type test is a constructor test. */
  lemma TypeOfDeterminesKind(n: Node)
    requires WellKinded(n)
    ensures TypeOf(n) == "Program" <==> n.Program?
    ensures TypeOf(n) == "FunctionDeclaration" <==> n.FunctionDeclaration?
    ensures TypeOf(n) == "VariableDeclaration" <==> n.VariableDeclaration?
    ensures TypeOf(n) == "VariableDeclarator" <==> n.VariableDeclarator?
    ensures TypeOf(n) == "Identifier" <==> n.Identifier?
  {
  }

  datatype Tower = Tower(ast: Node)

  /** What the constructor receives: source text (here, the program Babel parsed from it) or a node. */
  datatype TowerSource = ParsedCode(program: Node) | AstNode(node: Node)

  function NewTower(source: TowerSource): (t: Tower)
    ensures source.ParsedCode? ==> t.ast == source.program
    ensures source.AstNode? ==> t.ast == source.node
  {
    match source
    case ParsedCode(p) => Tower(p)
    case AstNode(n) => Tower(n)
  }

  /** `extractBody`: the statements a lookup searches. */
  function ExtractBody(ast: Node): (r: Result<seq<Node>, string>)
    ensures r.Failure? <==> !(ast.Program? || ast.FunctionDeclaration? || ast.VariableDeclaration?)
    ensures r.Failure? ==> r.error == "Unimplemented for " + TypeOf(ast)
  {
    match ast
    case Program(body) => Success(body)
    case FunctionDeclaration(_, _, _, block) => Success(block)
    case VariableDeclaration(_, declarations) => Success(declarations)
    case _ => Failure("Unimplemented for " + TypeOf(ast))
  }

  /** The callback `getType` hands to `find`. */
  predicate IsNamed(node: Node, nodeType: string, name: string) {
    TypeOf(node) == nodeType
    && (if node.FunctionDeclaration? then node.id == Some(name)
        else if node.VariableDeclaration? then
          |node.declarations| > 0 && node.declarations[0].VariableDeclarator?
          && node.declarations[0].target == Identifier(name)
        else false)
  }

  function FindNamed(body: seq<Node>, nodeType: string, name: string): (r: Option<Node>)
    ensures r.Some? ==> r.value in body && IsNamed(r.value, nodeType, name)
    ensures r.None? <==> forall i :: 0 <= i < |body| ==> !IsNamed(body[i], nodeType, name)
  {
    if body == [] then None
    else if IsNamed(body[0], nodeType, name) then Some(body[0])
    else FindNamed(body[1..], nodeType, name)
  }

  lemma {:induction false} FindNamedFirst(body: seq<Node>, nodeType: string, name: string, i: nat)
    requires i < |body| && IsNamed(body[i], nodeType, name)
    requires forall j :: 0 <= j < i ==> !IsNamed(body[j], nodeType, name)
    ensures FindNamed(body, nodeType, name) == Some(body[i])
    decreases i
  {
    if i > 0 {
      FindNamedFirst(body[1..], nodeType, name, i - 1);
    }
  }

  function GetType(t: Tower, nodeType: string, name: string): (r: Result<Tower, string>)
    ensures r.Success? ==>
      (ExtractBody(t.ast).Success? && r.value.ast in ExtractBody(t.ast).value && IsNamed(r.value.ast, nodeType, name))
    ensures ExtractBody(t.ast).Success? && r.Failure? ==> r.error == "No AST found with name " + name
  {
    var body :- ExtractBody(t.ast);
    match FindNamed(body, nodeType, name)
    case None => Failure("No AST found with name " + name)
    case Some(n) => Success(Tower(n))
  }

  function GetFunction(t: Tower, name: string): (r: Result<Tower, string>)
    ensures r.Success? ==> r.value.ast.FunctionDeclaration? && r.value.ast.id == Some(name)
  {
    GetType(t, "FunctionDeclaration", name)
  }

  function GetVariable(t: Tower, name: string): (r: Result<Tower, string>)
    ensures r.Success? ==>
      (r.value.ast.VariableDeclaration? && |r.value.ast.declarations| > 0
       && r.value.ast.declarations[0].VariableDeclarator? && r.value.ast.declarations[0].target == Identifier(name))
  {
    GetType(t, "VariableDeclaration", name)
  }

  /** `getFunction` returns the first declaration with that name in the immediate body, `async` ones included. */
  lemma GetFunctionFirst(t: Tower, name: string, i: nat)
    requires ExtractBody(t.ast).Success?
    requires var body := ExtractBody(t.ast).value;
      i < |body| && body[i].FunctionDeclaration? && body[i].id == Some(name)
      && forall j :: 0 <= j < i ==> !(body[j].FunctionDeclaration? && body[j].id == Some(name))
    ensures GetFunction(t, name) == Success(Tower(ExtractBody(t.ast).value[i]))
  {
    var body := ExtractBody(t.ast).value;
    forall j | 0 <= j < i
      ensures !IsNamed(body[j], "FunctionDeclaration", name)
    {
    }
    FindNamedFirst(body, "FunctionDeclaration", name, i);
  }

  /**
   * `getVariable` sees only the first declarator of each declaration and only
   * a plain identifier there: `let h, i` does not declare `i` to it, and
   * neither does a destructuring pattern.
   */
  lemma GetVariableFirstDeclaratorOnly(name: string, other: string, pattern: Node, init: Option<Node>)
    requires other != name && !pattern.Identifier?
    ensures GetVariable(Tower(Program([VariableDeclaration("let",
      [VariableDeclarator(Identifier(other), None), VariableDeclarator(Identifier(name), None)])])), name)
      == Failure("No AST found with name " + name)
    ensures GetVariable(Tower(Program([VariableDeclaration("const", [VariableDeclarator(pattern, init)])])), name)
      == Failure("No AST found with name " + name)
  {
    var d1 := VariableDeclaration("let", [VariableDeclarator(Identifier(other), None), VariableDeclarator(Identifier(name), None)]);
    assert !IsNamed(d1, "VariableDeclaration", name);
    var d2 := VariableDeclaration("const", [VariableDeclarator(pattern, init)]);
    assert !IsNamed(d2, "VariableDeclaration", name);
  }

  /**
   * Only the immediate body is searched: a function declared inside another
   * one is not found from the program, but is found by chaining through its
   * parent.
   */
  lemma LookupIsShallow(outer: string, inner: string, innerBody: seq<Node>)
    requires outer != inner
    ensures var innerFn := FunctionDeclaration(Some(inner), false, [], innerBody);
      var outerFn := FunctionDeclaration(Some(outer), false, [], [innerFn]);
      var t := Tower(Program([outerFn]));
      GetFunction(t, inner) == Failure("No AST found with name " + inner)
      && GetFunction(t, outer) == Success(Tower(outerFn))
      && GetFunction(Tower(outerFn), inner) == Success(Tower(innerFn))
  {
    var innerFn := FunctionDeclaration(Some(inner), false, [], innerBody);
    var outerFn := FunctionDeclaration(Some(outer), false, [], [innerFn]);
    assert !IsNamed(outerFn, "FunctionDeclaration", inner);
    assert IsNamed(outerFn, "FunctionDeclaration", outer);
    assert IsNamed(innerFn, "FunctionDeclaration", inner);
  }

  /** A tower around a variable declaration searches its declarators, which are never declarations: every lookup fails. */
  lemma VariableTowerFindsNothing(kind: string, declarations: seq<Node>, name: string)
    requires forall i :: 0 <= i < |declarations| ==> declarations[i].VariableDeclarator?
    ensures GetVariable(Tower(VariableDeclaration(kind, declarations)), name).Failure?
    ensures GetFunction(Tower(VariableDeclaration(kind, declarations)), name).Failure?
  {
  }
}
