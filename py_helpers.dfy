/**
 * The Python AST helpers of python/py_helpers.py. The tree that `ast.parse`
 * builds is a datatype that spells out the node kinds and fields the helpers
 * look at. Every other field of a node (an operator, the decorators, default
 * values and annotations of a `def`, a literal's text, ...) is kept in an
 * `attrs` string holding what `ast.dump` prints for those fields. A `Name`'s
 * context is fixed by the field it stands in, so it is not stored.
 * `ast.dump(a) == ast.dump(b)` compares two trees field by field without
 * positions, which is then equality of the datatype values.
 */
module PyHelpers {
  import opened Wrappers

  /** The Python value an `ast.Constant` holds. `PyOther` is a float, complex, bytes or `...` literal, with its `repr`. */
  datatype PyValue = PyInt(i: int) | PyBool(b: bool) | PyNone | PyStr(s: string) | PyOther(kind: string, repr: string)

  /** Expressions. */
  datatype Expr =
    /** `attrs` holds the `kind` field (`'u'` for a `u"..."` literal). */
    | Constant(value: PyValue, attrs: string)
    /** `ast.Name`: the only target the helpers accept. */
    | Name(id: string)
    /**
     * A node kind whose `value` field is itself an expression: `Attribute`, `Subscript`, `Starred`, `Await`, ...
     * A node whose `value` is optional and absent (`Yield` in `x = yield`) is `HasInner` with `Constant(PyNone, ...)`
     * as its `inner`, since Python reads `None` there.
     */
    | HasInner(kind: string, inner: Expr, others: seq<Expr>, attrs: string)
    /** A node kind without a `value` field: `BinOp`, `UnaryOp`, `Call`, `List`, `Tuple`, ... */
    | Operation(kind: string, operands: seq<Expr>, attrs: string)

  /** Statements. */
  datatype Stmt =
    /** `attrs` holds the decorators, defaults, annotations, argument kinds and `returns`. */
    | FunctionDef(name: string, params: seq<string>, body: seq<Stmt>, attrs: string)
    | AsyncFunctionDef(name: string, params: seq<string>, body: seq<Stmt>, attrs: string)
    /** `a = b = value` has the targets `[a, b]`. */
    | Assign(targets: seq<Expr>, value: Expr)
    | AnnAssign(target: Expr, annotation: Expr, annValue: Option<Expr>, attrs: string)
    | AugAssign(target: Expr, op: string, augValue: Expr)
    /** Any other statement (`if`, `for`, `return`, an expression statement, ...) with its nested blocks. */
    | OtherStmt(kind: string, exprs: seq<Expr>, blocks: seq<seq<Stmt>>, attrs: string)

  datatype Module = Module(body: seq<Stmt>)

  predicate IsFunctionNamed(s: Stmt, name: string) {
    s.FunctionDef? && s.name == name
  }

  /** `s` is an `Assign` with a plain `Name` target spelled `name`. */
  predicate AssignsName(s: Stmt, name: string) {
    s.Assign? && Name(name) in s.targets
  }

  // ---------------------------------------------------------------------
  // _get_function

  /** The first `def name` directly in `body`; nested and `async` functions are not considered. */
  function GetFunction(body: seq<Stmt>, name: string): (r: Option<Stmt>)
    ensures r.Some? ==> IsFunctionNamed(r.value, name) && r.value in body
    ensures r.None? <==> forall i :: 0 <= i < |body| ==> !IsFunctionNamed(body[i], name)
  {
    if body == [] then None
    else if IsFunctionNamed(body[0], name) then Some(body[0])
    else GetFunction(body[1..], name)
  }

  /** The function found is the first one with that name. */
  lemma {:induction false} GetFunctionFirst(body: seq<Stmt>, name: string, i: nat)
    requires i < |body| && IsFunctionNamed(body[i], name)
    requires forall j :: 0 <= j < i ==> !IsFunctionNamed(body[j], name)
    ensures GetFunction(body, name) == Some(body[i])
    decreases i
  {
    if i > 0 {
      GetFunctionFirst(body[1..], name, i - 1);
    }
  }

  // ---------------------------------------------------------------------
  // _local_variable_in_function

  /** Whether some target of one `Assign` is `Name(name)`: the inner loop over `node.targets`. */
  function TargetsName(targets: seq<Expr>, name: string): (r: bool)
    ensures r <==> Name(name) in targets
  {
    if targets == [] then false
    else if targets[0].Name? && targets[0].id == name then true
    else TargetsName(targets[1..], name)
  }

  function LocalVariableInFunction(body: seq<Stmt>, name: string): (r: bool)
    ensures r <==> exists i :: 0 <= i < |body| && AssignsName(body[i], name)
  {
    if body == [] then false
    else if body[0].Assign? && TargetsName(body[0].targets, name) then true
    else LocalVariableInFunction(body[1..], name)
  }

  // ---------------------------------------------------------------------
  // has_local_variable

  function HasLocalVariable(mod: Module, funcName: string, name: string): (r: bool)
    ensures GetFunction(mod.body, funcName).None? ==> !r
  {
    match GetFunction(mod.body, funcName)
    case None => false
    case Some(f) => LocalVariableInFunction(f.body, name)
  }

  /**
   * `has_local_variable` holds exactly when the first top-level `def funcName`
   * assigns `name` directly in its own body.
   */
  lemma HasLocalVariableFirstDef(mod: Module, funcName: string, name: string, i: nat)
    requires i < |mod.body| && IsFunctionNamed(mod.body[i], funcName)
    requires forall j :: 0 <= j < i ==> !IsFunctionNamed(mod.body[j], funcName)
    ensures HasLocalVariable(mod, funcName, name)
        <==> exists k :: 0 <= k < |mod.body[i].body| && AssignsName(mod.body[i].body[k], name)
  {
    GetFunctionFirst(mod.body, funcName, i);
  }

  /** An assignment inside a nested block, or to an attribute, is not a local variable to this helper. */
  lemma LocalVariableIgnoresNested(name: string, inner: seq<Stmt>)
    ensures !LocalVariableInFunction([OtherStmt("If", [], [inner], "")], name)
    ensures !LocalVariableInFunction([Assign([HasInner("Attribute", Name("self"), [], "attr='" + name + "', ctx=Store()"), Constant(PyNone, "")], Name(name))], name)
    ensures !LocalVariableInFunction([AugAssign(Name(name), "Add()", Constant(PyInt(1), ""))], name)
  {
    assert !AssignsName(OtherStmt("If", [], [inner], ""), name);
    assert !AssignsName(Assign([HasInner("Attribute", Name("self"), [], "attr='" + name + "', ctx=Store()"), Constant(PyNone, "")], Name(name)), name);
  }

  // ---------------------------------------------------------------------
  // variable_is_integer

  /**
   * `type(value.value) == type(1)`: true only for a constant whose exact type
   * is `int` (a `bool` is not); another node with a `value` field compares an
   * AST node with `int`; a node without one raises `AttributeError`.
   */
  function ValueIsInteger(e: Expr): (r: Result<bool, string>)
    ensures r == Success(true) <==> e.Constant? && e.value.PyInt?
    ensures r.Failure? <==> e.Name? || e.Operation?
  {
    match e
    case Constant(v, _) => Success(v.PyInt?)
    case HasInner(_, _, _, _) => Success(false)
    case Name(_) => Failure("'Name' object has no attribute 'value'")
    case Operation(kind, _, _) => Failure("'" + kind + "' object has no attribute 'value'")
  }

  /** The scan over `mod.body`: the first `Assign` with a `Name(name)` target decides. */
  function VariableIsInteger(body: seq<Stmt>, name: string): (r: Result<bool, string>)
    ensures (forall i :: 0 <= i < |body| ==> !AssignsName(body[i], name)) ==> r == Success(false)
  {
    if body == [] then Success(false)
    else if body[0].Assign? && TargetsName(body[0].targets, name) then ValueIsInteger(body[0].value)
    else VariableIsInteger(body[1..], name)
  }

  /** The first assignment to `name` decides; later ones are never looked at. */
  lemma {:induction false} VariableIsIntegerFirst(body: seq<Stmt>, name: string, i: nat)
    requires i < |body| && AssignsName(body[i], name)
    requires forall j :: 0 <= j < i ==> !AssignsName(body[j], name)
    ensures VariableIsInteger(body, name) == ValueIsInteger(body[i].value)
    decreases i
  {
    if i > 0 {
      VariableIsIntegerFirst(body[1..], name, i - 1);
    }
  }

  /** `x = True`, `x = None` and `x = 1.5` are not integers; `x = -1` is a `UnaryOp` and raises. */
  lemma VariableIsIntegerExamples(name: string, b: bool)
    ensures VariableIsInteger([Assign([Name(name)], Constant(PyBool(b), ""))], name) == Success(false)
    ensures VariableIsInteger([Assign([Name(name)], Constant(PyNone, ""))], name) == Success(false)
    ensures VariableIsInteger([Assign([Name(name)], Constant(PyInt(7), ""))], name) == Success(true)
    ensures VariableIsInteger([Assign([Name(name)], Operation("UnaryOp", [Constant(PyInt(1), "")], "USub()"))], name).Failure?
  {
    VariableIsIntegerFirst([Assign([Name(name)], Constant(PyBool(b), ""))], name, 0);
    VariableIsIntegerFirst([Assign([Name(name)], Constant(PyNone, ""))], name, 0);
    VariableIsIntegerFirst([Assign([Name(name)], Constant(PyInt(7), ""))], name, 0);
    VariableIsIntegerFirst([Assign([Name(name)], Operation("UnaryOp", [Constant(PyInt(1), "")], "USub()"))], name, 0);
  }

  // ---------------------------------------------------------------------
  // local_variable_is_integer

  function LocalVariableIsInteger(mod: Module, funcName: string, name: string): (r: Result<bool, string>)
    ensures GetFunction(mod.body, funcName).None? ==> r == Success(false)
  {
    match GetFunction(mod.body, funcName)
    case None => Success(false)
    case Some(f) => VariableIsInteger(f.body, name)
  }

  /** Inside the first `def funcName`, the first assignment to `name` decides. */
  lemma LocalVariableIsIntegerFirst(mod: Module, funcName: string, name: string, i: nat, k: nat)
    requires i < |mod.body| && IsFunctionNamed(mod.body[i], funcName)
    requires forall j :: 0 <= j < i ==> !IsFunctionNamed(mod.body[j], funcName)
    requires k < |mod.body[i].body| && AssignsName(mod.body[i].body[k], name)
    requires forall j :: 0 <= j < k ==> !AssignsName(mod.body[i].body[j], name)
    ensures LocalVariableIsInteger(mod, funcName, name) == ValueIsInteger(mod.body[i].body[k].value)
  {
    GetFunctionFirst(mod.body, funcName, i);
    VariableIsIntegerFirst(mod.body[i].body, name, k);
  }

  // ---------------------------------------------------------------------
  // functions_are_equivalent

  function FunctionsAreEquivalent(expected: Module, actual: Module, func: string): (r: bool)
    ensures r <==> (GetFunction(expected.body, func).Some? && GetFunction(actual.body, func).Some?
      && GetFunction(expected.body, func) == GetFunction(actual.body, func))
  {
    var fe := GetFunction(expected.body, func);
    var fa := GetFunction(actual.body, func);
    if fe.None? || fa.None? then false else fe.value == fa.value
  }

  /** A module is equivalent to itself exactly when it defines the function. */
  lemma FunctionsAreEquivalentReflexive(m: Module, func: string)
    ensures FunctionsAreEquivalent(m, m, func) <==> exists i :: 0 <= i < |m.body| && IsFunctionNamed(m.body[i], func)
  {
  }

  lemma FunctionsAreEquivalentSymmetric(a: Module, b: Module, func: string)
    ensures FunctionsAreEquivalent(a, b, func) == FunctionsAreEquivalent(b, a, func)
  {
  }

  lemma FunctionsAreEquivalentTransitive(a: Module, b: Module, c: Module, func: string)
    requires FunctionsAreEquivalent(a, b, func) && FunctionsAreEquivalent(b, c, func)
    ensures FunctionsAreEquivalent(a, c, func)
  {
  }

  /**
   * Two first definitions that differ only in a field the helpers do not
   * read (`def f(a=1)` against `def f(a=2)`: the defaults) are not
   * equivalent, and neither are two that differ in their body.
   */
  lemma FunctionsAreEquivalentComparesAllFields(name: string, params: seq<string>, body: seq<Stmt>, body': seq<Stmt>, attrs: string, attrs': string)
    requires attrs != attrs' || body != body'
    ensures !FunctionsAreEquivalent(Module([FunctionDef(name, params, body, attrs)]), Module([FunctionDef(name, params, body', attrs')]), name)
  {
    GetFunctionFirst([FunctionDef(name, params, body, attrs)], name, 0);
    GetFunctionFirst([FunctionDef(name, params, body', attrs')], name, 0);
  }
}
