/**
 * The syntax tree the interpreter walks, as the external parser builds it.
 * Rust structs become single-constructor datatypes, enums become datatypes with one
 * constructor per variant, `Vec` becomes `seq`, `Box` disappears.
 */
module Ast {
  import opened Wrappers
  import opened Primitives

  /** An interned name; two identifiers are the same when their text is. */
  datatype Identifier = Identifier(text: string)

  /** A qualified path `a.b.c`. */
  datatype Name = Name(path: seq<Identifier>)

  datatype Block = Block(items: seq<BlockItem>)

  datatype BlockItem =
    | Declaration(declaration: Declaration)
    | Statement(statement: Statement)
    | Directive(directive: Directive)

  datatype Declaration =
    | Variable(variables: seq<Variable>)
    | Function(functionDecl: Function)
    | Class(classDecl: Class)
    | Namespace(namespaceDecl: Namespace)

  /** One binding of a `var` list, with its optional initializer. */
  datatype Variable = Variable(identifier: Identifier, expression: Option<Expression>)

  datatype Function = Function(identifier: Identifier, parameters: seq<Parameter>, body: seq<BlockItem>)

  datatype Parameter = Parameter(identifier: Identifier, expression: Option<Expression>)

  datatype Class = Class(
    identifier: Identifier,
    base: Option<Name>,   // `extends`
    publicItems: seq<ClassItem>,
    privateItems: seq<ClassItem>,
    protectedItems: seq<ClassItem>)

  datatype ClassItem =
    | Constructor(constructorDecl: Constructor)
    | StaticDeclaration(staticDeclaration: Declaration)
    | Declaration(declaration: Declaration)
    | Directive(directive: Directive)

  datatype Constructor = Constructor(parameters: seq<Parameter>, superParameters: seq<Expression>, body: seq<BlockItem>)

  datatype Namespace = Namespace(identifier: Identifier, body: seq<BlockItem>)

  datatype Statement =
    | Block(block: Block)
    | Assignment(assignment: Assignment)
    | Expression(expression: Expression)
    | Condition(condition: Condition)
    | ForLoop(forLoop: ForLoop)
    | WhileDoLoop(whileDo: WhileLoop)
    | DoWhileLoop(doWhile: WhileLoop)
    | Break
    | Continue
    | Return(returned: Option<Expression>)
    | Throw(thrown: Expression)
    | TryCatch(tryCatch: TryCatch)

  datatype Assignment = Assignment(leftHandSide: LeftHandSide, operation: AssignmentOperator, expression: Expression)

  datatype LeftHandSide = Name(name: Name) | Item(item: ItemAccess) | Member(member: MemberAccess)

  datatype AssignmentOperator = Equals | Add | Sub | Mul | Div | Mod | Exp

  datatype Condition = Condition(expression: Expression, doThen: Statement, doElse: Option<Statement>)

  datatype ForLoop = ForLoop(loopVar: Option<ForLoopVariable>, expression: Expression, doForEach: Statement)

  datatype ForLoopVariable = Identifier(identifier: Identifier) | Name(name: Name)

  datatype WhileLoop = WhileLoop(expression: Expression, doWhile: Statement)

  datatype TryCatch = TryCatch(doTry: Statement, error: Identifier, doCatch: Statement)

  datatype Directive = Use(useDirective: UseDirective)

  datatype UseDirective = UseDirective(source: Option<Name>, imports: seq<Import>)

  datatype Import = Namespace(path: Name) | Name(name: Name, alias: Option<Identifier>)

  datatype Expression =
    | Literal(literal: Literal)
    | Group(group: Group)
    | UnaryOperation(unary: UnaryOperation)
    | BinaryOperation(binary: BinaryOperation)
    | FunctionCall(call: FunctionCall)
    | ItemAccess(itemAccess: ItemAccess)
    | MemberAccess(memberAccess: MemberAccess)
    | Name(name: Name)

  datatype Literal =
    | Null
    | Boolean(b: bool)
    | Integer(n: i32)
    | Real(x: Float64)
    | String(s: string)
    | Array(elements: seq<Expression>)
    | Dictionary(entries: seq<(string, Expression)>)
    | Lambda

  datatype Group = Rounded(inner: Expression) | Square(inner: Expression) | Curly(inner: Expression)

  datatype UnaryOperation = UnaryOperation(expression: Expression, operator: UnaryOperator)

  datatype UnaryOperator = Not | Add | Sub

  datatype BinaryOperation = BinaryOperation(left: Expression, right: Expression, operator: BinaryOperator)

  datatype BinaryOperator =
    | Add | Sub | Mul | RDiv | IDiv | Mod | Pow
    | Eq | Neq | Lt | Gt | Leq | Geq
    | And | Or | Xor | Range
  {
    /** The six operators `binary_operate` implements. */
    predicate IsComparison() {
      this in {Eq, Neq, Lt, Gt, Leq, Geq}
    }
  }

  datatype FunctionCall = FunctionCall(expression: Expression, arguments: seq<FunctionCallArgument>)

  datatype FunctionCallArgument = FunctionCallArgument(identifier: Option<Identifier>, expression: Expression)

  datatype ItemAccess = ItemAccess(container: Expression, index: Expression)

  datatype MemberAccess = MemberAccess(expression: Expression, identifier: Identifier)
}
