/**
 * The tree-walking interpreter itself: every `interpret` call works on one pair of
 * mutable stacks, the declaration stack and the variable stack, which
 * `ScopeStacks` holds as fields. Each method is proved to end in the outcome and the
 * stacks that the matching function of `Scopes` computes from the stacks it started
 * from, so everything `ScopeProperties` proves about those functions holds of the
 * methods.
 */
module Interpreter {
  import opened Wrappers
  import opened Ast
  import opened Scopes

  class ScopeStacks {
    /** `DeclarationStack`, innermost scope last. */
    var declarationStack: seq<DeclarationMap>
    /** `VariableStack`, innermost scope last. */
    var variableStack: seq<VariableMap>

    function State(): Stacks
      reads this
    {
      Stacks(declarationStack, variableStack)
    }

    /** Both stacks start empty, as the entry point sets them up. */
    constructor()
      ensures State() == Stacks([], [])
    {
      declarationStack := [];
      variableStack := [];
    }

    /**
     * The body shared by `Function`, `Class` and `Namespace::interpret`: fetch the
     * innermost declaration scope and insert the name unless it is already bound there.
     */
    method Register(id: Identifier, item: DeclStackItem) returns (r: Outcome)
      modifies this
      ensures Run(r, State()) == Declare(old(State()), id, item)
    {
      if |declarationStack| == 0 {
        return Panicked(EmptyStack);
      }
      var scope := declarationStack[|declarationStack| - 1];
      if id in scope {
        return Conflict(id);
      }
      declarationStack := declarationStack[..|declarationStack| - 1] + [scope[id := item]];
      return Ok(None);
    }

    method InterpretFunction(f: Function) returns (r: Outcome)
      modifies this
      ensures Run(r, State()) == DeclareFunction(old(State()), f)
    {
      r := Register(f.identifier, DeclStackItem.Function(f));
    }

    method InterpretClass(c: Class) returns (r: Outcome)
      modifies this
      ensures Run(r, State()) == DeclareClass(old(State()), c)
    {
      r := Register(c.identifier, DeclStackItem.Class(c));
    }

    method InterpretNamespace(n: Namespace) returns (r: Outcome)
      modifies this
      ensures Run(r, State()) == DeclareNamespace(old(State()), n)
    {
      r := Register(n.identifier, DeclStackItem.Namespace(n));
    }

    /** `Vec<Variable>::interpret`: insert the names one by one into the innermost variable scope. */
    method InterpretVariables(vars: seq<Variable>) returns (r: Outcome)
      modifies this
      ensures Run(r, State()) == DeclareVariables(old(State()), vars)
    {
      if |variableStack| == 0 {
        return Panicked(EmptyStack);
      }
      for i := 0 to |vars|
        invariant |variableStack| > 0
        invariant InsertVariables(old(State()), vars) == InsertVariables(State(), vars[i..])
      {
        assert vars[i..][0] == vars[i] && vars[i..][1..] == vars[i + 1..];
        var scope := variableStack[|variableStack| - 1];
        var id := vars[i].identifier;
        if id in scope {
          return Conflict(id);
        }
        variableStack := variableStack[..|variableStack| - 1] + [scope + {id}];
      }
      return Ok(None);
    }

    /** The dispatch `derive(Interpretable)` generates for `Declaration`. */
    method InterpretDeclaration(d: Declaration) returns (r: Outcome)
      modifies this
      ensures Run(r, State()) == DeclarationStep(old(State()), d)
    {
      match d {
        case Variable(vars) => r := InterpretVariables(vars);
        case Function(f) => r := InterpretFunction(f);
        case Class(c) => r := InterpretClass(c);
        case Namespace(n) => r := InterpretNamespace(n);
      }
    }

    /**
     * `Block::interpret`: push a scope pair, register the block's functions, classes
     * and namespaces, run the items in order, pop the pair. The first error or panic
     * returns at once, leaving the pair pushed.
     */
    method InterpretBlock(b: Block) returns (r: Outcome)
      modifies this
      ensures Run(r, State()) == ExecBlock(old(State()), b)
      decreases b, 2
    {
      declarationStack := declarationStack + [map[]];
      variableStack := variableStack + [{}];
      ghost var pushed := State();

      for i := 0 to |b.items|
        invariant DeclareAll(pushed, HoistedDeclarations(b.items)) ==
                  DeclareAll(State(), HoistedDeclarations(b.items[i..]))
      {
        assert b.items[i..][0] == b.items[i] && b.items[i..][1..] == b.items[i + 1..];
        match b.items[i] {
          case Declaration(d) =>
            if !d.Variable? {
              assert HoistedDeclarations(b.items[i..]) == [d] + HoistedDeclarations(b.items[i + 1..]);
              assert ([d] + HoistedDeclarations(b.items[i + 1..]))[1..] == HoistedDeclarations(b.items[i + 1..]);
              r := InterpretDeclaration(d);
              if !r.Ok? {
                return;
              }
            }
          case _ =>
        }
      }
      assert b.items[|b.items|..] == [];
      ghost var hoisted := State();

      for i := 0 to |b.items|
        invariant ExecItems(hoisted, b, 0) == ExecItems(State(), b, i)
      {
        match b.items[i] {
          case Declaration(d) =>
            if d.Variable? {
              r := InterpretVariables(d.variables);
              if !r.Ok? {
                return;
              }
            }
          case Statement(s) =>
            r := InterpretStatement(s);
            if !r.Ok? {
              return;
            }
          case Directive(d) =>
            r := InterpretDirective(d);
            if !r.Ok? {
              return;
            }
        }
      }

      variableStack := DropLast(variableStack);
      declarationStack := DropLast(declarationStack);
      return Ok(None);
    }

    /** `Statement::interpret`: nested blocks and expression statements; every other statement is `todo!()`. */
    method InterpretStatement(s: Statement) returns (r: Outcome)
      modifies this
      ensures Run(r, State()) == ExecStatement(old(State()), s)
      decreases s, 0
    {
      match s {
        case Block(b) => r := InterpretBlock(b);
        case Expression(e) => r := InterpretExpression(e);
        case _ => r := Panicked(Unimplemented);
      }
    }

    /** `Expression::interpret`: function calls only; every other expression is `todo!()`. */
    method InterpretExpression(e: Expression) returns (r: Outcome)
      ensures Run(r, State()) == EvalExpression(State(), e)
    {
      match e {
        case FunctionCall(call) => r := InterpretFunctionCall(call);
        case _ => r := Panicked(Unimplemented);
      }
    }

    /** `FunctionCall::interpret`: a call of `print` yields nothing; any other callee is `todo!()`. */
    method InterpretFunctionCall(call: FunctionCall) returns (r: Outcome)
      ensures Run(r, State()) == CallFunction(State(), call)
      ensures r == Ok(None) <==> IsPrint(call.expression)
    {
      if call.expression == Expression.Name(Name.Name([Identifier.Identifier("print")])) {
        r := Ok(None);
      } else {
        r := Panicked(Unimplemented);
      }
    }

    /** `Directive::interpret`, which reaches the `todo!()` of `UseDirective::interpret`. */
    method InterpretDirective(d: Directive) returns (r: Outcome)
      ensures Run(r, State()) == DirectiveStep(State(), d)
      ensures r == Panicked(Unimplemented)
    {
      r := Panicked(Unimplemented);
    }
  }
}
