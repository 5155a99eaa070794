/**
 * What interpreting a block does to the interpreter's two scope stacks, as pure
 * functions of the stacks before the call: `Declare` and `DeclareVariables`
 * register names in the innermost scope, `ExecBlock` pushes a scope pair, hoists
 * the block's functions, classes and namespaces, then runs its items in order and
 * pops the pair again. The methods of `Interpreter.ScopeStacks` are proved to
 * behave exactly as these functions say; module `ScopeProperties` states what
 * they promise.
 */
module Scopes {
  import opened Wrappers
  import opened Ast
  import Values

  /** What a declaration scope remembers of a function, class or namespace (`DeclStackItem`). */
  datatype DeclStackItem = Function(f: Function) | Class(c: Class) | Namespace(n: Namespace)

  /** One declaration scope. */
  type DeclarationMap = map<Identifier, DeclStackItem>

  /** One variable scope: the source keeps a map to `()`, that is, a set of names. */
  type VariableMap = set<Identifier>

  /** The declaration stack and the variable stack, innermost scope last. */
  datatype Stacks = Stacks(declarations: seq<DeclarationMap>, variables: seq<VariableMap>)

  /** Why the Rust code would panic: a `todo!()`, or `unwrap` on the innermost scope of an empty stack. */
  datatype Panic = Unimplemented | EmptyStack

  /** `Result<InterpreterValue, InterpreterError>`, plus the panics that end the program instead of returning. */
  datatype Outcome =
    | Ok(value: Option<Values.TValue>)
    | Err(error: Values.InterpreterError)
    | Panicked(reason: Panic)

  /** An outcome and the stacks as the call leaves them. */
  datatype Run = Run(outcome: Outcome, after: Stacks)

  function Conflict(id: Identifier): Outcome {
    Err(Values.ConflictWithPreviousDeclaration(id))
  }

  function Innermost<T>(s: seq<T>): T
    requires |s| > 0
  {
    s[|s| - 1]
  }

  /** `Vec::pop` with its result dropped: removes the last scope, and does nothing on an empty stack. */
  function DropLast<T>(s: seq<T>): (r: seq<T>)
    ensures |s| > 0 ==> r == s[..|s| - 1]
  {
    if |s| == 0 then s else s[..|s| - 1]
  }

  function Push(st: Stacks): Stacks {
    Stacks(st.declarations + [map[]], st.variables + [{}])
  }

  function Pop(st: Stacks): Stacks {
    Stacks(DropLast(st.declarations), DropLast(st.variables))
  }

  // ---------------------------------------------------------------------------
  // Registration in the innermost scope
  // ---------------------------------------------------------------------------

  /**
   * The registration shared by `Function`, `Class` and `Namespace`: insert into the
   * innermost declaration scope unless the name is already there. Only the innermost
   * scope is consulted, so a name bound further out does not conflict.
   */
  function Declare(st: Stacks, id: Identifier, item: DeclStackItem): (r: Run)
    ensures |st.declarations| == 0 ==> r.outcome == Panicked(EmptyStack)
    ensures |st.declarations| > 0 ==> (r.outcome == Ok(None) <==> id !in Innermost(st.declarations))
    ensures |st.declarations| > 0 && id in Innermost(st.declarations) ==> r.outcome == Conflict(id)
    ensures r.outcome.Ok? ==>
              |r.after.declarations| == |st.declarations| &&
              DropLast(r.after.declarations) == DropLast(st.declarations) &&
              Innermost(r.after.declarations) == Innermost(st.declarations)[id := item]
    ensures r.outcome.Err? ==> r.outcome == Conflict(id)
    ensures !r.outcome.Ok? ==> r.after == st
    ensures r.after.variables == st.variables
  {
    if |st.declarations| == 0 then Run(Panicked(EmptyStack), st)
    else
      var scope := Innermost(st.declarations);
      if id in scope then Run(Conflict(id), st)
      else Run(Ok(None), st.(declarations := DropLast(st.declarations) + [scope[id := item]]))
  }

  function DeclareFunction(st: Stacks, f: Function): Run {
    Declare(st, f.identifier, DeclStackItem.Function(f))
  }

  function DeclareClass(st: Stacks, c: Class): Run {
    Declare(st, c.identifier, DeclStackItem.Class(c))
  }

  function DeclareNamespace(st: Stacks, n: Namespace): Run {
    Declare(st, n.identifier, DeclStackItem.Namespace(n))
  }

  /** `Vec<Variable>::interpret`: the innermost variable scope is fetched once, before any variable is looked at. */
  function DeclareVariables(st: Stacks, vars: seq<Variable>): Run {
    if |st.variables| == 0 then Run(Panicked(EmptyStack), st)
    else InsertVariables(st, vars)
  }

  /** The loop of `Vec<Variable>::interpret`: insert each name in turn, stopping at the first already present. */
  function InsertVariables(st: Stacks, vars: seq<Variable>): (r: Run)
    requires |st.variables| > 0
    ensures r.outcome == Ok(None) || r.outcome.Err?
    ensures r.after.declarations == st.declarations
    ensures |r.after.variables| == |st.variables|
    ensures DropLast(r.after.variables) == DropLast(st.variables)
    decreases |vars|
  {
    if vars == [] then Run(Ok(None), st)
    else
      var id := vars[0].identifier;
      var scope := Innermost(st.variables);
      if id in scope then Run(Conflict(id), st)
      else InsertVariables(st.(variables := DropLast(st.variables) + [scope + {id}]), vars[1..])
  }

  /** The dispatch that `derive(Interpretable)` generates for `Declaration`. */
  function DeclarationStep(st: Stacks, d: Declaration): Run {
    match d
    case Variable(vars) => DeclareVariables(st, vars)
    case Function(f) => DeclareFunction(st, f)
    case Class(c) => DeclareClass(st, c)
    case Namespace(n) => DeclareNamespace(st, n)
  }

  // ---------------------------------------------------------------------------
  // Blocks
  // ---------------------------------------------------------------------------

  /** The hoisting filter of `Block::interpret`: the block's declarations other than variable lists, in order. */
  function HoistedDeclarations(items: seq<BlockItem>): (ds: seq<Declaration>)
    ensures forall d :: d in ds ==> !d.Variable?
    ensures forall d :: d in ds <==> BlockItem.Declaration(d) in items && !d.Variable?
    ensures |ds| <= |items|
  {
    if items == [] then []
    else
      var rest := HoistedDeclarations(items[1..]);
      match items[0]
      case Declaration(d) => if d.Variable? then rest else [d] + rest
      case _ => rest
  }

  /** The first loop of `Block::interpret`: register each declaration, stopping at the first error. */
  function DeclareAll(st: Stacks, ds: seq<Declaration>): (r: Run)
    requires forall d :: d in ds ==> !d.Variable?
    ensures |st.declarations| == 0 && ds != [] ==> r.outcome == Panicked(EmptyStack)
    ensures |st.declarations| > 0 ==>
              (r.outcome == Ok(None) || r.outcome.Err?) &&
              |r.after.declarations| == |st.declarations| &&
              DropLast(r.after.declarations) == DropLast(st.declarations)
    ensures r.after.variables == st.variables
    decreases |ds|
  {
    if ds == [] then Run(Ok(None), st)
    else
      var r := DeclarationStep(st, ds[0]);
      if r.outcome.Ok? then DeclareAll(r.after, ds[1..]) else r
  }

  /** The hoisting pass of a block entered from `st`. */
  function HoistPass(st: Stacks, b: Block): Run {
    DeclareAll(Push(st), HoistedDeclarations(b.items))
  }

  /**
   * `Block::interpret`. An error or panic returns at once through `?`, before the
   * pops; only a block that runs to its end pops its scope pair.
   */
  function ExecBlock(st: Stacks, b: Block): Run
    decreases b, 2
  {
    var h := HoistPass(st, b);
    if !h.outcome.Ok? then h
    else
      var p := ExecItems(h.after, b, 0);
      if !p.outcome.Ok? then p
      else Run(Ok(None), Pop(p.after))
  }

  /** The second loop of `Block::interpret`, from item `i` on. */
  function ExecItems(st: Stacks, b: Block, i: nat): Run
    requires i <= |b.items|
    decreases b, 1, |b.items| - i
  {
    if i == |b.items| then Run(Ok(None), st)
    else
      var r := ExecItem(st, b.items[i]);
      if r.outcome.Ok? then ExecItems(r.after, b, i + 1) else r
  }

  /** One item of the second loop; functions, classes and namespaces were registered by the first. */
  function ExecItem(st: Stacks, item: BlockItem): Run
    decreases item, 0
  {
    match item
    case Declaration(d) => if d.Variable? then DeclareVariables(st, d.variables) else Run(Ok(None), st)
    case Statement(s) => ExecStatement(st, s)
    case Directive(d) => DirectiveStep(st, d)
  }

  /** `Statement::interpret`: only nested blocks and expression statements are implemented. */
  function ExecStatement(st: Stacks, s: Statement): (r: Run)
    ensures !s.Block? && !s.Expression? ==> r == Run(Panicked(Unimplemented), st)
    decreases s, 0
  {
    match s
    case Block(b) => ExecBlock(st, b)
    case Expression(e) => EvalExpression(st, e)
    case _ => Run(Panicked(Unimplemented), st)
  }

  /** `Expression::interpret`: only function calls are implemented. */
  function EvalExpression(st: Stacks, e: Expression): (r: Run)
    ensures r.after == st
    ensures r.outcome == Ok(None) <==> e.FunctionCall? && IsPrint(e.call.expression)
    ensures r.outcome != Ok(None) ==> r.outcome == Panicked(Unimplemented)
  {
    match e
    case FunctionCall(call) => CallFunction(st, call)
    case _ => Run(Panicked(Unimplemented), st)
  }

  /** The callee `print`, a name of one identifier. */
  predicate IsPrint(callee: Expression) {
    callee == Expression.Name(Name.Name([Identifier.Identifier("print")]))
  }

  /** `FunctionCall::interpret`: a call of `print` writes to the console and yields nothing; no other call is implemented. */
  function CallFunction(st: Stacks, call: FunctionCall): (r: Run)
    ensures r.after == st
    ensures r.outcome == Ok(None) <==> IsPrint(call.expression)
    ensures !IsPrint(call.expression) ==> r.outcome == Panicked(Unimplemented)
  {
    if IsPrint(call.expression) then Run(Ok(None), st)
    else Run(Panicked(Unimplemented), st)
  }

  /** `Directive::interpret` dispatches to `UseDirective::interpret`, which is `todo!()`. */
  function DirectiveStep(st: Stacks, d: Directive): (r: Run)
    ensures r == Run(Panicked(Unimplemented), st)
  {
    match d
    case Use(_) => Run(Panicked(Unimplemented), st)
  }
}
