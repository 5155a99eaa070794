# oxidized-tscript interpreter core, modelled in Dafny

The interpreter of oxidized-tscript walks a TScript syntax tree and keeps two stacks
of scopes. The declaration stack maps names to functions, classes and namespaces.
The variable stack holds the variable names declared in each scope.

A block does three things:
- It pushes a fresh scope onto each stack.
- It hoists its functions, classes and namespaces: these are registered before anything else runs.
- It runs its items in order, then pops both scopes. An error returns at once, before the pops.

Registering a name is insert-if-absent on the innermost scope. A name that is already
there fails with `ConflictWithPreviousDeclaration`. Runtime values are compared by
`binary_operate`, which implements the six comparison operators and rejects every other operator.

The project has these modules, one per file:
- `Wrappers`: `Option`.
- `Primitives`: Rust's `i32`, `f64` as seen by comparisons, `Ordering`, and the standard comparisons on integers, booleans, floats and strings.
- `Ast`: the syntax tree.
- `Values`: `TValue`, the derived equality and ordering, `InterpreterError`, `BinaryOperate` and its properties.
- `Scopes`: the scope stacks as a value (`Stacks`), and every `interpret` as a pure function from the stacks before the call to an outcome and the stacks after it.
- `ScopeProperties`: what those functions promise. This covers hoisting, conflicts, the first repeated name, stack depth on success and on failure, and shadowing.
- `Interpreter`: class `ScopeStacks`, whose two fields are the stacks. Its methods update those fields in place, with the source's loops and early returns. Each method is proved to end in exactly the outcome and stacks that its `Scopes` function computes, so every property in `ScopeProperties` holds of the methods.

A `todo!()` and a failed `unwrap` of the innermost scope of an empty stack end the Rust
program with a panic. The model represents both as the outcome `Panicked(...)`, so it keeps
no precondition the source does not have. `ScopeProperties.BlockSettles` shows that no
`unwrap` fails inside a block.

## Model

| member | source | states |
|---|---|---|
| Primitives.CompareInts | interpreter/src/lib.rs:38 | `i32` ordering inside the derived ordering of `Number`: `Less` exactly when smaller, `Equal` exactly when equal |
| Primitives.CompareBools | interpreter/src/lib.rs:37 | `bool` ordering inside the derived ordering of `Boolean`: `false` before `true`, `Equal` exactly when equal |
| Primitives.CompareStrings | interpreter/src/lib.rs:40 | `String` ordering, lexicographic with a proper prefix first; its properties are `CompareStringsEqual` and `CompareStringsAntisymmetric` |
| Primitives.CompareFloats | interpreter/src/lib.rs:34-39 | `f64` comparison inside the derived ordering of `Real`: unordered exactly when a NaN is involved, equal exactly when both operands are the same non-NaN value |
| Primitives.FloatsAntisymmetric | interpreter/src/lib.rs:34-39 | comparing two floats the other way round reverses the result |
| Primitives.CompareStringsEqual | interpreter/src/lib.rs:34-40 | the string ordering inside the derived ordering of `String` says `Equal` exactly for equal strings |
| Primitives.CompareStringsAntisymmetric | interpreter/src/lib.rs:34-40 | comparing two strings the other way round reverses the result |
| Values.Equals | interpreter/src/lib.rs:34-44 | the derived `PartialEq`: same variant and equal payloads, element by element for arrays and key by key for dictionaries; its properties are `EqualsSymmetric` and `CompareEqualIffEquals` |
| Values.Compare | interpreter/src/lib.rs:34-44 | the derived `PartialOrd`: variant position first, then the payloads; its properties are `CompareAntisymmetric`, `CompareEqualIffEquals` and `MismatchedVariants` |
| Values.CompareSeqs | interpreter/src/lib.rs:41 | slice ordering of arrays: the first pair that is not `Equal` decides, then the lengths; its properties are `CompareSeqsAntisymmetric` and `CompareSeqsEqual` |
| Values.BinaryOperate | interpreter/src/lib.rs:81-101 | succeeds exactly for the six comparison operators, and then yields a `Boolean`; every other operator fails with `OperationNotPossible` carrying the operator and both operands |
| Values.EqualsSymmetric | interpreter/src/lib.rs:34-44 | the derived `==` on runtime values is symmetric, arrays and dictionaries included |
| Values.CompareAntisymmetric | interpreter/src/lib.rs:34-44 | the derived `partial_cmp(b, a)` is `partial_cmp(a, b)` reversed, and unordered exactly when it is |
| Values.CompareSeqsAntisymmetric | interpreter/src/lib.rs:41 | the lexicographic comparison of two arrays reverses when the arrays are swapped |
| Values.CompareEqualIffEquals | interpreter/src/lib.rs:34-44 | the derived ordering says `Equal` exactly when the derived `==` holds |
| Values.CompareSeqsEqual | interpreter/src/lib.rs:41 | two arrays compare `Equal` exactly when they have the same length and equal elements at every index |
| Values.EqualityOperators | interpreter/src/lib.rs:88-89 | `Eq` and `Neq` never fail, `Neq` is the negation of `Eq`, and `Eq` does not depend on operand order |
| Values.MismatchedVariants | interpreter/src/lib.rs:34-44 | values of different variants are never equal and are ordered by variant position |
| Values.SwappedOrderings | interpreter/src/lib.rs:90-93 | `Lt(a, b)` equals `Gt(b, a)` and `Leq(a, b)` equals `Geq(b, a)` |
| Values.LeqIsLtOrEq | interpreter/src/lib.rs:90-93 | `a <= b` holds exactly when `a < b` or `a == b` holds |
| Values.LtIrreflexive | interpreter/src/lib.rs:90 | no value is less than itself |
| Scopes.Declare | interpreter/src/lib.rs:159-168 | on an empty stack it panics; otherwise it succeeds with no value exactly when the name is absent from the innermost declaration scope and binds it there, and fails with `ConflictWithPreviousDeclaration(name)` when the name is present. A conflict leaves everything unchanged, and the outer scopes and the variable stack never change |
| Scopes.InsertVariables | interpreter/src/lib.rs:217-230 | inserting a variable list never panics and yields no value or an error; it changes only the innermost variable scope |
| Scopes.HoistedDeclarations | interpreter/src/lib.rs:114-118 | the hoisting filter keeps exactly the block's function, class and namespace declarations, never a variable list; `HoistedDeclarationsAppend` and `HoistedDeclarationsSingle` show it keeps their order and their repeats |
| Scopes.DeclareAll | interpreter/src/lib.rs:114-121 | the hoisting loop panics on an empty stack; otherwise it yields no value or an error, changes only the innermost declaration scope, and never touches the variable stack |
| Scopes.DeclareVariables | interpreter/src/lib.rs:210-232 | `Vec<Variable>::interpret`: panics on an empty variable stack, otherwise inserts the list as `InsertVariables` states |
| Scopes.DeclarationStep | interpreter/src/ast.rs:15-21 | the generated dispatch for `Declaration`: each variant goes to its own registration; `DeclareAllSucceedsIff` and `DeclareAllStopsAtFirstRepeat` state what it does for functions, classes and namespaces |
| Scopes.HoistPass | interpreter/src/lib.rs:109-121 | the push and the hoisting loop of a block; `HoistPassBindsHoisted` states what it does |
| Scopes.ExecBlock | interpreter/src/lib.rs:103-141 | `Block::interpret`; `BlockSettles`, `FlatBlockFailsOneDeeper`, `HoistConflictAbortsBlock` and `BlockIgnoresEnclosingScopes` state what it does |
| Scopes.ExecItems | interpreter/src/lib.rs:122-135 | the second loop of a block from a given item on; `ItemsSettle` and `ItemsIgnoreOuter` state what it does |
| Scopes.ExecItem | interpreter/src/lib.rs:123-134 | one item of the second loop; `ItemSettles` states what it does |
| Scopes.ExecStatement | interpreter/src/lib.rs:234-246 | every statement other than a block or an expression panics as unimplemented without touching the stacks; `StatementSettles` and `StatementIgnoresOuter` state the rest |
| Scopes.EvalExpression | interpreter/src/lib.rs:248-259 | never changes the stacks; yields no value exactly for a call of `print`, and panics as unimplemented otherwise |
| Scopes.CallFunction | interpreter/src/lib.rs:261-274 | never changes the stacks; yields no value exactly when the callee is the name `print`, and panics as unimplemented otherwise |
| Scopes.DirectiveStep | interpreter/src/lib.rs:143-151 | a `use` directive panics as unimplemented and leaves the stacks unchanged |
| ScopeProperties.InsertVariablesSucceedsIff | interpreter/src/lib.rs:217-231 | a variable list is accepted exactly when no name repeats within it or against the innermost variable scope, and that scope then gains exactly its names |
| ScopeProperties.InsertVariablesStopsAtFirstRepeat | interpreter/src/lib.rs:217-229 | a rejected list fails with a conflict on its first repeated name, and the names before it stay in the scope |
| ScopeProperties.DeclareAllSucceedsIff | interpreter/src/lib.rs:114-121 | hoisted declarations are accepted exactly when their names are distinct and new to the scope, whether function, class or namespace; the scope then holds exactly the earlier names and theirs |
| ScopeProperties.DeclareAllBinds | interpreter/src/lib.rs:159-164 | after successful registrations every earlier binding is kept and each name is bound to its own declaration |
| ScopeProperties.DeclareAllStopsAtFirstRepeat | interpreter/src/lib.rs:114-121 | failed registrations fail with a conflict on the first repeated name |
| ScopeProperties.HoistPassBindsHoisted | interpreter/src/lib.rs:109-121 | the hoisting pass pushes one scope on each stack and leaves the variable scope empty. It succeeds exactly when the hoisted names are distinct, and it then binds every function, class and namespace of the block and nothing else |
| ScopeProperties.HoistConflictAbortsBlock | interpreter/src/lib.rs:114-122 | two hoisted declarations with one name make the block fail on the first repeated name before any variable, statement or directive runs, with the variable scope still empty |
| ScopeProperties.HoistedDeclarationsAppend | interpreter/src/lib.rs:114-118 | filtering a concatenation of items is concatenating the filtered parts, so the filter keeps order and repeats |
| ScopeProperties.HoistedDeclarationsSingle | interpreter/src/lib.rs:115-117 | one item passes the filter exactly when it is a function, class or namespace declaration |
| ScopeProperties.HoistedKeepsBoth | interpreter/src/lib.rs:114-118 | two hoisted items of a block appear in the filter's result in the same order |
| ScopeProperties.SameNameDeclarationsConflict | interpreter/src/lib.rs:114-122 | any two functions, classes or namespaces of one block that share a name, at any positions, make the block fail with a conflict with its variable scope still empty |
| ScopeProperties.FunctionAndClassShareScope | interpreter/src/lib.rs:153-189 | a function and a class of the same name in one block conflict |
| ScopeProperties.BlockSettles | interpreter/src/lib.rs:103-141 | a block never panics for an empty stack. On success it yields no value and leaves both stacks exactly as it found them. On an error both stacks are left deeper by the same number of scopes, and every scope it found is unchanged |
| ScopeProperties.ItemsSettle | interpreter/src/lib.rs:124-136 | the second loop changes nothing below the block's own scope pair and grows both stacks alike; on success it keeps their depth |
| ScopeProperties.ItemSettles | interpreter/src/lib.rs:125-135 | one item of the second loop: the same, and only a nested block can leave scopes pushed when it fails |
| ScopeProperties.StatementSettles | interpreter/src/lib.rs:240-244 | a statement settles the stacks as a block does |
| ScopeProperties.FlatBlockFailsOneDeeper | interpreter/src/lib.rs:109-139 | a block with no nested block that fails leaves each stack exactly one scope deeper, with the scopes below untouched |
| ScopeProperties.DeclareAllIgnoresOuter | interpreter/src/lib.rs:153-208 | the outcome of registering declarations depends only on the innermost scope |
| ScopeProperties.InsertVariablesIgnoresOuter | interpreter/src/lib.rs:217 | the outcome of inserting variables depends only on the innermost variable scope |
| ScopeProperties.ItemsIgnoreOuter | interpreter/src/lib.rs:124-136 | the outcome of the second loop depends only on the innermost scope pair |
| ScopeProperties.StatementIgnoresOuter | interpreter/src/lib.rs:240-244 | the outcome of a statement does not depend on the enclosing scopes |
| ScopeProperties.BlockIgnoresEnclosingScopes | interpreter/src/lib.rs:103-141 | a block's outcome, conflicts included, is the same whatever scopes enclose it, so a nested block may redeclare an outer name |
| ScopeProperties.NestedRedeclarationShadows | interpreter/src/lib.rs:159-168 | registering a name already in the innermost scope conflicts, while a nested block declaring it runs to its end and restores the stacks |
| ScopeProperties.VariablesHaveTheirOwnScope | interpreter/src/lib.rs:19-20 | a block holding a function and a variable of the same name runs to its end |
| ScopeProperties.RepeatedVariableConflicts | interpreter/src/lib.rs:217-229 | a variable declared again in a later list of the same block conflicts; the block stops with its scopes pushed and the first binding in place |
| Interpreter.ScopeStacks.constructor | interpreter/src/lib.rs:64-65 | both stacks start empty |
| Interpreter.ScopeStacks.Register | interpreter/src/lib.rs:159-168 | the in-place registration ends in the outcome and stacks of `Scopes.Declare` |
| Interpreter.ScopeStacks.InterpretFunction | interpreter/src/lib.rs:153-170 | `Function::interpret` registers the function under its name as `Scopes.Declare` says |
| Interpreter.ScopeStacks.InterpretClass | interpreter/src/lib.rs:172-189 | `Class::interpret` registers the class under its name as `Scopes.Declare` says |
| Interpreter.ScopeStacks.InterpretNamespace | interpreter/src/lib.rs:191-208 | `Namespace::interpret` registers the namespace under its name as `Scopes.Declare` says |
| Interpreter.ScopeStacks.InterpretVariables | interpreter/src/lib.rs:210-232 | the loop with its early return ends in the outcome and stacks of `Scopes.DeclareVariables` |
| Interpreter.ScopeStacks.InterpretDeclaration | interpreter/src/ast.rs:15-21 | the dispatch generated for `Declaration` delegates to the registration of its variant |
| Interpreter.ScopeStacks.InterpretBlock | interpreter/src/lib.rs:103-141 | the push, the two loops and the pops end in the outcome and stacks of `Scopes.ExecBlock` |
| Interpreter.ScopeStacks.InterpretStatement | interpreter/src/lib.rs:234-246 | nested blocks and expression statements run; every other statement panics as unimplemented |
| Interpreter.ScopeStacks.InterpretExpression | interpreter/src/lib.rs:248-259 | only a function call runs; every other expression panics as unimplemented |
| Interpreter.ScopeStacks.InterpretFunctionCall | interpreter/src/lib.rs:261-274 | yields no value exactly when the callee is the name `print`, and panics as unimplemented otherwise |
| Interpreter.ScopeStacks.InterpretDirective | interpreter/src/lib.rs:143-151 | a `use` directive always panics as unimplemented |

## Left out

- Console output: the `println!` calls at interpreter/src/lib.rs:216 and 268 are not modelled, so a `print` call and a variable list write nothing.
- Initializers of variables and the arguments of `print` are never evaluated, as in the source.
- The demo driver `run()` (interpreter/src/lib.rs:46-70) is not modelled. It only calls `InterpretBlock` on two empty stacks and unwraps the result.
- Statements other than blocks and expression statements, expressions other than calls, calls other than `print`, and `use` directives are `todo!()` in the source. The model gives them the outcome `Panicked(Unimplemented)` and no other semantics.
- The LALRPOP parser (interpreter/src/lib.rs:12-14) is not part of this model. The syntax tree is taken as given.
- The derive macro in interpreter-proc-macros/src/lib.rs is not modelled as code. Its effect is per-variant delegation, which `InterpretDeclaration` and `InterpretDirective` model as a `match`.
- Rust lifetimes and references: declaration scopes store copies of the declarations, not references into the tree. Variable scopes, which map names to `()` in the source, are sets of names.
- Values.BinaryOperate: the `OperationNotPossible` error carries the operator and both operands, not the message formatted from them with `Debug`.
- Values.Compare: `HashMap` implements no ordering, so `derive(PartialOrd)` on `TValue` cannot hold for `Dictionary` as written. The model orders two dictionaries as `Equal` when they are equal and leaves them unordered otherwise.
- `f64` values are modelled as extended reals plus NaN. Only comparisons are modelled: rounding, signed zero and representability are not.
- Primitives.CompareStrings: strings are sequences of characters compared code point by code point. That agrees with Rust's byte-wise comparison of UTF-8, but UTF-8 encoding itself is not modelled.
