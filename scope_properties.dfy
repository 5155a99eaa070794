/**
 * What the scope-stack machinery of `Scopes` promises: registration is
 * insert-if-absent on the innermost scope, hoisting binds exactly the block's
 * functions, classes and namespaces before anything else runs, a block restores
 * the stacks when it succeeds and leaves its scopes pushed when it fails, and
 * enclosing scopes never cause a conflict (shadowing).
 */
module ScopeProperties {
  import opened Wrappers
  import opened Ast
  import opened Scopes

  // ---------------------------------------------------------------------------
  // Vocabulary
  // ---------------------------------------------------------------------------

  function Elements(ids: seq<Identifier>): set<Identifier> {
    set id | id in ids
  }

  /** Inserting `ids[..n]` in order into a scope holding `seen` never meets a name already there. */
  predicate NoRepeatBefore(seen: set<Identifier>, ids: seq<Identifier>, n: nat)
    requires n <= |ids|
  {
    (forall i :: 0 <= i < n ==> ids[i] !in seen) &&
    (forall i, j :: 0 <= j < i < n ==> ids[j] != ids[i])
  }

  predicate NoRepeat(seen: set<Identifier>, ids: seq<Identifier>) {
    NoRepeatBefore(seen, ids, |ids|)
  }

  /** `ids[k]` is the first name that inserting `ids` in order into `seen` finds already present. */
  predicate FirstRepeat(seen: set<Identifier>, ids: seq<Identifier>, k: nat) {
    k < |ids| && NoRepeatBefore(seen, ids, k) && !NoRepeatBefore(seen, ids, k + 1)
  }

  function Identifiers(vars: seq<Variable>): (ids: seq<Identifier>)
    ensures |ids| == |vars| && forall i :: 0 <= i < |vars| ==> ids[i] == vars[i].identifier
  {
    seq(|vars|, i requires 0 <= i < |vars| => vars[i].identifier)
  }

  function NameOf(d: Declaration): Identifier
    requires !d.Variable?
  {
    match d
    case Function(f) => f.identifier
    case Class(c) => c.identifier
    case Namespace(n) => n.identifier
  }

  function ItemOf(d: Declaration): DeclStackItem
    requires !d.Variable?
  {
    match d
    case Function(f) => DeclStackItem.Function(f)
    case Class(c) => DeclStackItem.Class(c)
    case Namespace(n) => DeclStackItem.Namespace(n)
  }

  function Names(ds: seq<Declaration>): (ids: seq<Identifier>)
    requires forall d :: d in ds ==> !d.Variable?
    ensures |ids| == |ds| && forall i :: 0 <= i < |ds| ==> ids[i] == NameOf(ds[i])
  {
    seq(|ds|, i requires 0 <= i < |ds| => NameOf(ds[i]))
  }

  /** `inner` is `outer` with one or more scope pairs pushed on top, the scopes of `outer` untouched. */
  predicate Nested(outer: Stacks, inner: Stacks) {
    |inner.declarations| > |outer.declarations| &&
    |inner.declarations| - |outer.declarations| == |inner.variables| - |outer.variables| &&
    inner.declarations[..|outer.declarations|] == outer.declarations &&
    inner.variables[..|outer.variables|] == outer.variables
  }

  /**
   * `s` keeps every scope of `c` below its innermost pair and has grown both stacks
   * by the same number of scopes: `c`'s innermost pair may have changed, nothing under it.
   */
  predicate Above(c: Stacks, s: Stacks) {
    |c.declarations| > 0 && |c.variables| > 0 &&
    |s.declarations| >= |c.declarations| &&
    |s.declarations| - |c.declarations| == |s.variables| - |c.variables| &&
    s.declarations[..|c.declarations| - 1] == c.declarations[..|c.declarations| - 1] &&
    s.variables[..|c.variables| - 1] == c.variables[..|c.variables| - 1]
  }

  /**
   * What a block or statement promises its caller: on success it yields no value and
   * leaves the stacks exactly as it found them; on an error it leaves the scope pairs
   * it pushed on the stacks, and nothing it found there changed. Whatever stacks it
   * starts from, no `unwrap` of an innermost scope fails.
   */
  predicate Settles(st: Stacks, r: Run) {
    r.outcome != Panicked(EmptyStack) &&
    (r.outcome.Ok? ==> r.outcome.value == None && r.after == st) &&
    (r.outcome.Err? ==> Nested(st, r.after))
  }

  /** No item of the block is a nested block. */
  predicate Flat(b: Block) {
    forall i :: 0 <= i < |b.items| ==> !(b.items[i].Statement? && b.items[i].statement.Block?)
  }

  /** Two states whose innermost scope pairs coincide, whatever lies below them. */
  predicate SameInnermost(c1: Stacks, c2: Stacks) {
    |c1.declarations| > 0 && |c2.declarations| > 0 && |c1.variables| > 0 && |c2.variables| > 0 &&
    Innermost(c1.declarations) == Innermost(c2.declarations) &&
    Innermost(c1.variables) == Innermost(c2.variables)
  }

  // ---------------------------------------------------------------------------
  // Facts about first repeats
  // ---------------------------------------------------------------------------

  lemma NoRepeatShift(seen: set<Identifier>, ids: seq<Identifier>, n: nat)
    requires 0 < n <= |ids|
    ensures NoRepeatBefore(seen, ids, n) <==>
            ids[0] !in seen && NoRepeatBefore(seen + {ids[0]}, ids[1..], n - 1)
  {
    var tail := ids[1..];
    if ids[0] !in seen && NoRepeatBefore(seen + {ids[0]}, tail, n - 1) {
      forall i | 0 <= i < n ensures ids[i] !in seen {
        if i > 0 {
          assert ids[i] == tail[i - 1];
        }
      }
      forall i, j | 0 <= j < i < n ensures ids[j] != ids[i] {
        assert ids[i] == tail[i - 1];
        if j > 0 {
          assert ids[j] == tail[j - 1];
        }
      }
    }
    if NoRepeatBefore(seen, ids, n) {
      forall i | 0 <= i < n - 1 ensures tail[i] !in seen + {ids[0]} {
        assert tail[i] == ids[i + 1];
      }
      forall i, j | 0 <= j < i < n - 1 ensures tail[j] != tail[i] {
        assert tail[i] == ids[i + 1] && tail[j] == ids[j + 1];
      }
    }
  }

  lemma FirstRepeatShift(seen: set<Identifier>, ids: seq<Identifier>, k: nat)
    requires |ids| > 0 && ids[0] !in seen
    requires FirstRepeat(seen + {ids[0]}, ids[1..], k)
    ensures FirstRepeat(seen, ids, k + 1)
  {
    NoRepeatShift(seen, ids, k + 1);
    NoRepeatShift(seen, ids, k + 2);
  }

  lemma ElementsShift(ids: seq<Identifier>, k: nat)
    requires k < |ids|
    ensures Elements(ids[..k + 1]) == {ids[0]} + Elements(ids[1..][..k])
    ensures Elements(ids) == {ids[0]} + Elements(ids[1..])
  {
    assert ids[..k + 1] == [ids[0]] + ids[1..][..k];
    assert ids == [ids[0]] + ids[1..];
  }

  // ---------------------------------------------------------------------------
  // Variable lists
  // ---------------------------------------------------------------------------

  /**
   * A variable list is accepted exactly when no name in it repeats, neither within
   * the list nor against the innermost variable scope, which then gains all its names.
   */
  lemma {:induction false} InsertVariablesSucceedsIff(st: Stacks, vars: seq<Variable>)
    requires |st.variables| > 0
    ensures var r := InsertVariables(st, vars);
            var seen := Innermost(st.variables);
            (r.outcome.Ok? <==> NoRepeat(seen, Identifiers(vars))) &&
            (r.outcome.Ok? ==> Innermost(r.after.variables) == seen + Elements(Identifiers(vars)))
    decreases |vars|
  {
    var ids := Identifiers(vars);
    var seen := Innermost(st.variables);
    if vars != [] {
      var id := vars[0].identifier;
      if id !in seen {
        InsertVariablesSucceedsIff(st.(variables := DropLast(st.variables) + [seen + {id}]), vars[1..]);
        assert Identifiers(vars[1..]) == ids[1..];
        NoRepeatShift(seen, ids, |ids|);
        ElementsShift(ids, 0);
      }
    }
  }

  /**
   * A variable list whose `k`-th name is the first repeated one fails with a conflict
   * on that name; the `k` names before it stay in the innermost variable scope.
   */
  lemma {:induction false} InsertVariablesStopsAtFirstRepeat(st: Stacks, vars: seq<Variable>, k: nat)
    requires |st.variables| > 0
    requires FirstRepeat(Innermost(st.variables), Identifiers(vars), k)
    ensures var r := InsertVariables(st, vars);
            r.outcome == Conflict(vars[k].identifier) &&
            Innermost(r.after.variables) == Innermost(st.variables) + Elements(Identifiers(vars)[..k])
    decreases k
  {
    var ids := Identifiers(vars);
    var seen := Innermost(st.variables);
    if k == 0 {
      assert ids[0] in seen;
      assert Elements(ids[..0]) == {};
    } else {
      var id := vars[0].identifier;
      assert ids[0] == id && id !in seen;
      var next := st.(variables := DropLast(st.variables) + [seen + {id}]);
      assert Identifiers(vars[1..]) == ids[1..];
      NoRepeatShift(seen, ids, k);
      NoRepeatShift(seen, ids, k + 1);
      InsertVariablesStopsAtFirstRepeat(next, vars[1..], k - 1);
      ElementsShift(ids, k - 1);
    }
  }

  // ---------------------------------------------------------------------------
  // Functions, classes and namespaces
  // ---------------------------------------------------------------------------

  /**
   * Functions, classes and namespaces registered in order into one scope are
   * accepted exactly when their names are pairwise distinct and new to the scope;
   * all three kinds share it. The scope then holds exactly its earlier names and theirs.
   */
  lemma {:induction false} DeclareAllSucceedsIff(st: Stacks, ds: seq<Declaration>)
    requires |st.declarations| > 0
    requires forall d :: d in ds ==> !d.Variable?
    ensures var r := DeclareAll(st, ds);
            var scope := Innermost(st.declarations);
            (r.outcome.Ok? <==> NoRepeat(scope.Keys, Names(ds))) &&
            (r.outcome.Ok? ==> Innermost(r.after.declarations).Keys == scope.Keys + Elements(Names(ds)))
    decreases |ds|
  {
    var names := Names(ds);
    var scope := Innermost(st.declarations);
    if ds != [] {
      var d := ds[0];
      assert DeclarationStep(st, d) == Declare(st, NameOf(d), ItemOf(d));
      if NameOf(d) !in scope {
        DeclareAllSucceedsIff(DeclarationStep(st, d).after, ds[1..]);
        assert Names(ds[1..]) == names[1..];
        NoRepeatShift(scope.Keys, names, |names|);
        ElementsShift(names, 0);
      }
    }
  }

  /**
   * After a successful run of registrations the scope keeps every earlier binding
   * and binds each registered name to its own declaration.
   */
  lemma {:induction false} DeclareAllBinds(st: Stacks, ds: seq<Declaration>)
    requires |st.declarations| > 0
    requires forall d :: d in ds ==> !d.Variable?
    ensures var r := DeclareAll(st, ds);
            var scope := Innermost(st.declarations);
            r.outcome.Ok? ==>
              (forall id :: id in scope ==>
                 id in Innermost(r.after.declarations) && Innermost(r.after.declarations)[id] == scope[id]) &&
              (forall i :: 0 <= i < |ds| ==>
                 NameOf(ds[i]) in Innermost(r.after.declarations) &&
                 Innermost(r.after.declarations)[NameOf(ds[i])] == ItemOf(ds[i]))
    decreases |ds|
  {
    if ds != [] {
      var d := ds[0];
      var first := DeclarationStep(st, d);
      assert first == Declare(st, NameOf(d), ItemOf(d));
      if first.outcome.Ok? {
        DeclareAllBinds(first.after, ds[1..]);
        forall i | 1 <= i < |ds| ensures ds[i] == ds[1..][i - 1] {
        }
      }
    }
  }

  /** A rejected run of registrations fails with a conflict on the first repeated name. */
  lemma {:induction false} DeclareAllStopsAtFirstRepeat(st: Stacks, ds: seq<Declaration>)
    requires |st.declarations| > 0
    requires forall d :: d in ds ==> !d.Variable?
    ensures var r := DeclareAll(st, ds);
            !r.outcome.Ok? ==>
              exists k: nat :: FirstRepeat(Innermost(st.declarations).Keys, Names(ds), k) &&
                               r.outcome == Conflict(Names(ds)[k])
    decreases |ds|
  {
    var names := Names(ds);
    var seen := Innermost(st.declarations).Keys;
    if ds != [] {
      var d := ds[0];
      var first := DeclarationStep(st, d);
      assert first == Declare(st, NameOf(d), ItemOf(d));
      if NameOf(d) in seen {
        assert FirstRepeat(seen, names, 0);
      } else {
        var next := first.after;
        DeclareAllStopsAtFirstRepeat(next, ds[1..]);
        assert Names(ds[1..]) == names[1..];
        assert Innermost(next.declarations).Keys == seen + {names[0]};
        var r := DeclareAll(next, ds[1..]);
        if !r.outcome.Ok? {
          var k: nat :| FirstRepeat(seen + {names[0]}, names[1..], k) && r.outcome == Conflict(names[1..][k]);
          FirstRepeatShift(seen, names, k);
        }
      }
    }
  }

  // ---------------------------------------------------------------------------
  // Hoisting
  // ---------------------------------------------------------------------------

  /**
   * The hoisting pass of a block succeeds exactly when its functions, classes and
   * namespaces have pairwise distinct names. It then binds every one of them in the
   * block's fresh declaration scope before any other item runs, and binds nothing
   * else; variable lists, statements and directives are not looked at, so the
   * block's variable scope is still empty and the enclosing scopes are untouched.
   */
  lemma HoistPassBindsHoisted(st: Stacks, b: Block)
    ensures var h := HoistPass(st, b);
            h.after.variables == st.variables + [{}] &&
            |h.after.declarations| == |st.declarations| + 1 &&
            h.after.declarations[..|st.declarations|] == st.declarations
    ensures var h := HoistPass(st, b);
            var hoisted := HoistedDeclarations(b.items);
            (h.outcome.Ok? <==> NoRepeat({}, Names(hoisted))) &&
            (h.outcome.Ok? ==>
               Innermost(h.after.declarations).Keys == Elements(Names(hoisted)) &&
               forall d :: BlockItem.Declaration(d) in b.items && !d.Variable? ==>
                 Innermost(h.after.declarations)[NameOf(d)] == ItemOf(d))
  {
    var hoisted := HoistedDeclarations(b.items);
    var pushed := Push(st);
    assert Innermost(pushed.declarations) == map[];
    DeclareAllSucceedsIff(pushed, hoisted);
    DeclareAllBinds(pushed, hoisted);
    var h := HoistPass(st, b);
    if h.outcome.Ok? {
      forall d | BlockItem.Declaration(d) in b.items && !d.Variable?
        ensures Innermost(h.after.declarations)[NameOf(d)] == ItemOf(d)
      {
        var i :| 0 <= i < |hoisted| && hoisted[i] == d;
      }
    }
  }

  /**
   * Two hoisted declarations of one block with the same name make the block fail
   * with a conflict on the first repeated name, before any variable list, statement
   * or directive is processed: the block's variable scope is still empty, and even a
   * block full of unimplemented statements fails this way instead of panicking.
   */
  lemma HoistConflictAbortsBlock(st: Stacks, b: Block)
    requires !NoRepeat({}, Names(HoistedDeclarations(b.items)))
    ensures var r := ExecBlock(st, b);
            var names := Names(HoistedDeclarations(b.items));
            (exists k: nat :: FirstRepeat({}, names, k) && r.outcome == Conflict(names[k])) &&
            r.after.variables == st.variables + [{}] &&
            Nested(st, r.after)
  {
    var pushed := Push(st);
    var hoisted := HoistedDeclarations(b.items);
    assert Innermost(pushed.declarations).Keys == {};
    HoistPassBindsHoisted(st, b);
    DeclareAllStopsAtFirstRepeat(pushed, hoisted);
  }

  /** The hoisting filter distributes over concatenation: it keeps the items' order and their repeats. */
  lemma {:induction false} HoistedDeclarationsAppend(a: seq<BlockItem>, c: seq<BlockItem>)
    ensures HoistedDeclarations(a + c) == HoistedDeclarations(a) + HoistedDeclarations(c)
  {
    if a == [] {
      assert a + c == c;
    } else {
      assert (a + c)[0] == a[0] && (a + c)[1..] == a[1..] + c;
      HoistedDeclarationsAppend(a[1..], c);
    }
  }

  /** One item passes the hoisting filter exactly when it declares a function, class or namespace. */
  lemma HoistedDeclarationsSingle(item: BlockItem)
    ensures HoistedDeclarations([item]) ==
            if item.Declaration? && !item.declaration.Variable? then [item.declaration] else []
  {
    assert [item][1..] == [];
  }

  /** Two hoisted items of a block appear in the filter's result in their order. */
  lemma HoistedKeepsBoth(items: seq<BlockItem>, i: nat, j: nat) returns (p: nat, q: nat)
    requires i < j < |items|
    requires items[i].Declaration? && !items[i].declaration.Variable?
    requires items[j].Declaration? && !items[j].declaration.Variable?
    ensures p < q < |HoistedDeclarations(items)|
    ensures HoistedDeclarations(items)[p] == items[i].declaration
    ensures HoistedDeclarations(items)[q] == items[j].declaration
  {
    var x, y := items[i], items[j];
    var pre, mid, post := items[..i], items[i + 1..j], items[j + 1..];
    assert items == pre + [x] + mid + [y] + post;
    HoistedDeclarationsAppend(pre + [x] + mid + [y], post);
    HoistedDeclarationsAppend(pre + [x] + mid, [y]);
    HoistedDeclarationsAppend(pre + [x], mid);
    HoistedDeclarationsAppend(pre, [x]);
    HoistedDeclarationsSingle(x);
    HoistedDeclarationsSingle(y);
    var hp, hm := HoistedDeclarations(pre), HoistedDeclarations(mid);
    assert HoistedDeclarations(items) == hp + [x.declaration] + hm + [y.declaration] + HoistedDeclarations(post);
    p, q := |hp|, |hp| + 1 + |hm|;
  }

  /**
   * Any two functions, classes or namespaces of one block that share a name, at any
   * positions, make the block fail with a conflict before any variable list is
   * registered.
   */
  lemma SameNameDeclarationsConflict(st: Stacks, b: Block, i: nat, j: nat)
    requires i < j < |b.items|
    requires b.items[i].Declaration? && !b.items[i].declaration.Variable?
    requires b.items[j].Declaration? && !b.items[j].declaration.Variable?
    requires NameOf(b.items[i].declaration) == NameOf(b.items[j].declaration)
    ensures var r := ExecBlock(st, b);
            r.outcome.Err? && r.outcome.error.ConflictWithPreviousDeclaration? &&
            r.after.variables == st.variables + [{}]
  {
    var p, q := HoistedKeepsBoth(b.items, i, j);
    var names := Names(HoistedDeclarations(b.items));
    assert names[p] == names[q];
    assert !NoRepeat({}, names);
    HoistConflictAbortsBlock(st, b);
  }

  /** A function and a class of the same name in one block conflict: the three kinds share one scope. */
  lemma FunctionAndClassShareScope(st: Stacks, f: Function, c: Class, rest: seq<BlockItem>)
    requires f.identifier == c.identifier
    ensures ExecBlock(st, Block.Block([BlockItem.Declaration(Declaration.Function(f)),
                                       BlockItem.Declaration(Declaration.Class(c))] + rest)).outcome
            == Conflict(f.identifier)
  {
    var b := Block.Block([BlockItem.Declaration(Declaration.Function(f)), BlockItem.Declaration(Declaration.Class(c))] + rest);
    var cl := BlockItem.Declaration(Declaration.Class(c));
    assert b.items[1..] == [cl] + rest;
    assert ([cl] + rest)[1..] == rest;
    assert HoistedDeclarations([cl] + rest) == [Declaration.Class(c)] + HoistedDeclarations(rest);
    var hoisted := HoistedDeclarations(b.items);
    assert hoisted == [Declaration.Function(f)] + ([Declaration.Class(c)] + HoistedDeclarations(rest));
    var names := Names(hoisted);
    assert names[0] == names[1];
    HoistConflictAbortsBlock(st, b);
    assert NoRepeatBefore({}, names, 1) && !NoRepeatBefore({}, names, 2);
    var k: nat :| FirstRepeat({}, names, k) && ExecBlock(st, b).outcome == Conflict(names[k]);
  }

  // ---------------------------------------------------------------------------
  // Stack discipline
  // ---------------------------------------------------------------------------

  lemma AboveTransitive(c: Stacks, m: Stacks, s: Stacks)
    requires Above(c, m) && |m.declarations| == |c.declarations| && |m.variables| == |c.variables|
    requires Above(m, s)
    ensures Above(c, s)
  {
  }

  lemma NestedIsAbove(c: Stacks, s: Stacks)
    requires |c.declarations| > 0 && |c.variables| > 0 && Nested(c, s)
    ensures Above(c, s)
  {
    assert s.declarations[..|c.declarations| - 1] == s.declarations[..|c.declarations|][..|c.declarations| - 1];
    assert s.variables[..|c.variables| - 1] == s.variables[..|c.variables|][..|c.variables| - 1];
  }

  /**
   * A block pushes one scope pair onto each stack. If it runs to its end it pops
   * both, so it leaves the stacks exactly as it found them and yields no value; if it
   * fails, it returns before the pops, leaving both stacks deeper by the same number
   * of scopes (its own pair and those of the nested blocks it failed in) with every
   * scope it found untouched.
   */
  lemma {:induction false} BlockSettles(st: Stacks, b: Block)
    ensures Settles(st, ExecBlock(st, b))
    decreases b, 2
  {
    var pushed := Push(st);
    var h := HoistPass(st, b);
    assert Above(pushed, h.after);
    if h.outcome.Ok? {
      ItemsSettle(h.after, b, 0);
      var p := ExecItems(h.after, b, 0);
      if p.outcome.Ok? || p.outcome.Err? {
        AboveTransitive(pushed, h.after, p.after);
        assert p.after.declarations[..|st.declarations|] == st.declarations;
        assert p.after.variables[..|st.variables|] == st.variables;
      }
    }
  }

  /** The second pass changes nothing below the block's own scope pair; on success it also keeps the depths. */
  lemma {:induction false} ItemsSettle(c: Stacks, b: Block, i: nat)
    requires i <= |b.items| && |c.declarations| > 0 && |c.variables| > 0
    ensures var r := ExecItems(c, b, i);
            r.outcome != Panicked(EmptyStack) &&
            (r.outcome.Ok? ==>
               r.outcome.value == None && Above(c, r.after) &&
               |r.after.declarations| == |c.declarations| && |r.after.variables| == |c.variables|) &&
            (r.outcome.Err? ==> Above(c, r.after)) &&
            (r.outcome.Err? && Flat(b) ==> |r.after.declarations| == |c.declarations|)
    decreases b, 1, |b.items| - i
  {
    if i < |b.items| {
      var item := b.items[i];
      var first := ExecItem(c, item);
      ItemSettles(c, item);
      if first.outcome.Ok? {
        ItemsSettle(first.after, b, i + 1);
        var r := ExecItems(first.after, b, i + 1);
        if r.outcome.Ok? || r.outcome.Err? {
          AboveTransitive(c, first.after, r.after);
        }
      }
    }
  }

  lemma {:induction false} ItemSettles(c: Stacks, item: BlockItem)
    requires |c.declarations| > 0 && |c.variables| > 0
    ensures var r := ExecItem(c, item);
            r.outcome != Panicked(EmptyStack) &&
            (r.outcome.Ok? ==>
               r.outcome.value == None && Above(c, r.after) &&
               |r.after.declarations| == |c.declarations| && |r.after.variables| == |c.variables|) &&
            (r.outcome.Err? ==> Above(c, r.after)) &&
            (r.outcome.Err? && !(item.Statement? && item.statement.Block?) ==>
               |r.after.declarations| == |c.declarations|)
    decreases item, 0
  {
    match item {
      case Declaration(d) =>
        if d.Variable? {
        }
      case Statement(s) =>
        StatementSettles(c, s);
        var r := ExecItem(c, item);
        if r.outcome.Err? {
          NestedIsAbove(c, r.after);
        }
      case Directive(_) =>
    }
  }

  lemma {:induction false} StatementSettles(st: Stacks, s: Statement)
    ensures Settles(st, ExecStatement(st, s))
    decreases s, 0
  {
    match s {
      case Block(b) => BlockSettles(st, b);
      case _ =>
    }
  }

  /**
   * A block whose items include no nested block fails, if it fails, exactly one
   * scope pair deeper than it started: the pair it pushed, still holding what was
   * registered before the error.
   */
  lemma FlatBlockFailsOneDeeper(st: Stacks, b: Block)
    requires Flat(b)
    ensures var r := ExecBlock(st, b);
            r.outcome.Err? ==>
              |r.after.declarations| == |st.declarations| + 1 &&
              |r.after.variables| == |st.variables| + 1 &&
              r.after.declarations[..|st.declarations|] == st.declarations &&
              r.after.variables[..|st.variables|] == st.variables
  {
    BlockSettles(st, b);
    var pushed := Push(st);
    var h := HoistPass(st, b);
    if h.outcome.Ok? {
      ItemsSettle(h.after, b, 0);
    }
  }

  // ---------------------------------------------------------------------------
  // Shadowing
  // ---------------------------------------------------------------------------

  lemma {:induction false} DeclareAllIgnoresOuter(c1: Stacks, c2: Stacks, ds: seq<Declaration>)
    requires SameInnermost(c1, c2)
    requires forall d :: d in ds ==> !d.Variable?
    ensures DeclareAll(c1, ds).outcome == DeclareAll(c2, ds).outcome
    ensures DeclareAll(c1, ds).outcome.Ok? ==> SameInnermost(DeclareAll(c1, ds).after, DeclareAll(c2, ds).after)
    decreases |ds|
  {
    if ds != [] {
      var r1 := DeclarationStep(c1, ds[0]);
      var r2 := DeclarationStep(c2, ds[0]);
      if r1.outcome.Ok? {
        DeclareAllIgnoresOuter(r1.after, r2.after, ds[1..]);
      }
    }
  }

  lemma {:induction false} InsertVariablesIgnoresOuter(c1: Stacks, c2: Stacks, vars: seq<Variable>)
    requires SameInnermost(c1, c2)
    ensures InsertVariables(c1, vars).outcome == InsertVariables(c2, vars).outcome
    ensures InsertVariables(c1, vars).outcome.Ok? ==>
              SameInnermost(InsertVariables(c1, vars).after, InsertVariables(c2, vars).after)
    decreases |vars|
  {
    if vars != [] {
      var id := vars[0].identifier;
      var scope := Innermost(c1.variables);
      if id !in scope {
        var n1 := c1.(variables := DropLast(c1.variables) + [scope + {id}]);
        var n2 := c2.(variables := DropLast(c2.variables) + [scope + {id}]);
        InsertVariablesIgnoresOuter(n1, n2, vars[1..]);
      }
    }
  }

  lemma {:induction false} ItemsIgnoreOuter(c1: Stacks, c2: Stacks, b: Block, i: nat)
    requires i <= |b.items| && SameInnermost(c1, c2)
    ensures ExecItems(c1, b, i).outcome == ExecItems(c2, b, i).outcome
    decreases b, 1, |b.items| - i
  {
    if i < |b.items| {
      var item := b.items[i];
      var r1 := ExecItem(c1, item);
      var r2 := ExecItem(c2, item);
      match item {
        case Declaration(d) =>
          if d.Variable? {
            InsertVariablesIgnoresOuter(c1, c2, d.variables);
          }
        case Statement(s) =>
          StatementIgnoresOuter(c1, c2, s);
          StatementSettles(c1, s);
          StatementSettles(c2, s);
        case Directive(_) =>
      }
      if r1.outcome.Ok? {
        assert SameInnermost(r1.after, r2.after);
        ItemsIgnoreOuter(r1.after, r2.after, b, i + 1);
      }
    }
  }

  lemma {:induction false} StatementIgnoresOuter(c1: Stacks, c2: Stacks, s: Statement)
    ensures ExecStatement(c1, s).outcome == ExecStatement(c2, s).outcome
    decreases s, 0
  {
    match s {
      case Block(b) => BlockIgnoresEnclosingScopes(c1, c2, b);
      case _ =>
    }
  }

  /**
   * Whether a block succeeds or fails, and with which conflict, does not depend on
   * the scopes that enclose it: every check looks only at the innermost scope, which
   * the block pushes fresh. A name bound in an enclosing scope can therefore always
   * be declared again inside a nested block; the inner binding shadows the outer one.
   */
  lemma {:induction false} BlockIgnoresEnclosingScopes(st1: Stacks, st2: Stacks, b: Block)
    ensures ExecBlock(st1, b).outcome == ExecBlock(st2, b).outcome
    decreases b, 2
  {
    var hoisted := HoistedDeclarations(b.items);
    assert SameInnermost(Push(st1), Push(st2));
    DeclareAllIgnoresOuter(Push(st1), Push(st2), hoisted);
    var h1 := HoistPass(st1, b);
    var h2 := HoistPass(st2, b);
    if h1.outcome.Ok? {
      ItemsIgnoreOuter(h1.after, h2.after, b, 0);
    }
  }

  /**
   * Redeclaring in the same scope conflicts, redeclaring in a nested scope shadows:
   * when the innermost scope already binds a function's name, registering the
   * function there conflicts, while a nested block declaring it runs to its end and
   * restores the stacks.
   */
  lemma NestedRedeclarationShadows(st: Stacks, f: Function)
    requires |st.declarations| > 0 && f.identifier in Innermost(st.declarations)
    ensures DeclareFunction(st, f).outcome == Conflict(f.identifier)
    ensures ExecBlock(st, Block.Block([BlockItem.Declaration(Declaration.Function(f))])) == Run(Ok(None), st)
  {
    var b := Block.Block([BlockItem.Declaration(Declaration.Function(f))]);
    assert b.items[1..] == [];
    var hoisted := HoistedDeclarations(b.items);
    assert hoisted == [Declaration.Function(f)];
    HoistPassBindsHoisted(st, b);
    assert NoRepeat({}, Names(hoisted));
    var h := HoistPass(st, b);
    assert ExecItems(h.after, b, 1) == Run(Ok(None), h.after);
    assert ExecItems(h.after, b, 0) == Run(Ok(None), h.after);
    BlockSettles(st, b);
  }

  /** A one-variable list with a new name succeeds and adds just that name to the innermost variable scope. */
  lemma InsertOneVariable(st: Stacks, v: Variable)
    requires |st.variables| > 0 && v.identifier !in Innermost(st.variables)
    ensures InsertVariables(st, [v]) ==
            Run(Ok(None), st.(variables := DropLast(st.variables) + [Innermost(st.variables) + {v.identifier}]))
  {
    assert [v][1..] == [];
  }

  /**
   * Variables live in a scope of their own, apart from declarations: a block holding
   * a function and a variable of the same name runs to its end.
   */
  lemma VariablesHaveTheirOwnScope(st: Stacks, f: Function, init: Option<Expression>)
    ensures var v := Variable.Variable(f.identifier, init);
            ExecBlock(st, Block.Block([BlockItem.Declaration(Declaration.Function(f)),
                                       BlockItem.Declaration(Declaration.Variable([v]))])) == Run(Ok(None), st)
  {
    var v := Variable.Variable(f.identifier, init);
    var fn := BlockItem.Declaration(Declaration.Function(f));
    var vs := BlockItem.Declaration(Declaration.Variable([v]));
    var b := Block.Block([fn, vs]);
    assert b.items[1..] == [vs] && b.items[1..][1..] == [];
    assert HoistedDeclarations(b.items) == [Declaration.Function(f)];
    HoistPassBindsHoisted(st, b);
    assert NoRepeat({}, Names(HoistedDeclarations(b.items)));
    var h := HoistPass(st, b);
    InsertOneVariable(h.after, v);
    var r := ExecItem(h.after, vs);
    assert r.outcome == Ok(None);
    assert ExecItems(r.after, b, 2) == Run(Ok(None), r.after);
    assert ExecItems(h.after, b, 1).outcome == Ok(None);
    assert ExecItems(h.after, b, 0).outcome == Ok(None);
    BlockSettles(st, b);
  }

  /**
   * A variable repeated in a later list of the same block conflicts; the block stops
   * there with its scope pair still pushed, the first binding in place.
   */
  lemma RepeatedVariableConflicts(st: Stacks, v: Variable)
    ensures var vs := BlockItem.Declaration(Declaration.Variable([v]));
            var r := ExecBlock(st, Block.Block([vs, vs]));
            r.outcome == Conflict(v.identifier) &&
            r.after == Stacks(st.declarations + [map[]], st.variables + [{v.identifier}])
  {
    var vs := BlockItem.Declaration(Declaration.Variable([v]));
    var b := Block.Block([vs, vs]);
    assert b.items[1..] == [vs] && b.items[1..][1..] == [];
    assert HoistedDeclarations(b.items) == [];
    var pushed := Push(st);
    assert HoistPass(st, b) == Run(Ok(None), pushed);
    var inner := Stacks(st.declarations + [map[]], st.variables + [{v.identifier}]);
    InsertOneVariable(pushed, v);
    assert DropLast(pushed.variables) == st.variables;
    assert Innermost(pushed.variables) + {v.identifier} == {v.identifier};
    assert DropLast(pushed.variables) + [Innermost(pushed.variables) + {v.identifier}] == inner.variables;
    assert ExecItem(pushed, vs) == Run(Ok(None), inner);
    assert ExecItem(inner, vs) == Run(Conflict(v.identifier), inner);
    assert ExecItems(inner, b, 1) == Run(Conflict(v.identifier), inner);
    assert ExecItems(pushed, b, 0) == Run(Conflict(v.identifier), inner);
  }
}
