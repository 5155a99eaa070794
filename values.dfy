/**
 * Runtime values (`TValue`), the interpreter's errors, and the one operation the
 * interpreter defines on values, `binary_operate`, which implements the six
 * comparisons through the `PartialEq` and `PartialOrd` that `TValue` derives and
 * rejects every other operator.
 */
module Values {
  import opened Wrappers
  import opened Primitives
  import Ast

  datatype TValue =
    | Null
    | Boolean(b: bool)
    | Number(n: i32)
    | Real(x: Float64)
    | String(s: string)
    | Array(elements: seq<TValue>)
    | Dictionary(entries: map<string, TValue>)
    | Object
  {
    /** The variant's position in the declaration, which the derived ordering compares first. */
    function Discriminant(): nat {
      match this
      case Null => 0
      case Boolean(_) => 1
      case Number(_) => 2
      case Real(_) => 3
      case String(_) => 4
      case Array(_) => 5
      case Dictionary(_) => 6
      case Object => 7
    }
  }

  /**
   * `OperationNotPossible` carries, in the source, a message rendered from the
   * operator and both operands; the model carries the three themselves.
   */
  datatype InterpreterError =
    | ConflictWithPreviousDeclaration(identifier: Ast.Identifier)
    | OperationNotPossible(operator: Ast.BinaryOperator, left: TValue, right: TValue)

  datatype Result<T> = Ok(value: T) | Err(error: InterpreterError)

  /**
   * The derived `PartialEq`: same variant and equal payloads, element by element for
   * arrays and key by key for dictionaries. Reals compare as IEEE numbers, so a value
   * holding a NaN is not equal to itself.
   */
  predicate Equals(a: TValue, b: TValue) {
    match (a, b)
    case (Null, Null) => true
    case (Boolean(x), Boolean(y)) => x == y
    case (Number(x), Number(y)) => x == y
    case (Real(x), Real(y)) => CompareFloats(x, y) == Some(Equal)
    case (String(x), String(y)) => x == y
    case (Array(xs), Array(ys)) => |xs| == |ys| && forall i :: 0 <= i < |xs| ==> Equals(xs[i], ys[i])
    case (Dictionary(m), Dictionary(n)) => m.Keys == n.Keys && forall k :: k in m ==> Equals(m[k], n[k])
    case (Object, Object) => true
    case _ => false
  }

  /**
   * The derived `PartialOrd::partial_cmp`: variants in declaration order first, then
   * the payloads with their own `partial_cmp`; arrays lexicographically. `HashMap`
   * has no ordering, so two dictionaries are taken as ordered only when equal.
   */
  function Compare(a: TValue, b: TValue): Option<Ordering>
    decreases a
  {
    if a.Discriminant() != b.Discriminant() then Some(CompareInts(a.Discriminant(), b.Discriminant()))
    else match (a, b)
      case (Null, Null) => Some(Equal)
      case (Boolean(x), Boolean(y)) => Some(CompareBools(x, y))
      case (Number(x), Number(y)) => Some(CompareInts(x as int, y as int))
      case (Real(x), Real(y)) => CompareFloats(x, y)
      case (String(x), String(y)) => Some(CompareStrings(x, y))
      case (Array(xs), Array(ys)) => CompareSeqs(xs, ys)
      case (Dictionary(_), Dictionary(_)) => if Equals(a, b) then Some(Equal) else None
      case (Object, Object) => Some(Equal)
      case _ => None  // differing variants were ordered above
  }

  /** Slice `partial_cmp`: the first pair of elements that is not `Equal` decides, then the lengths. */
  function CompareSeqs(xs: seq<TValue>, ys: seq<TValue>): Option<Ordering>
    decreases xs
  {
    if xs == [] || ys == [] then Some(CompareInts(|xs|, |ys|))
    else match Compare(xs[0], ys[0])
      case Some(Equal) => CompareSeqs(xs[1..], ys[1..])
      case c => c
  }

  /** `TValue::binary_operate`. */
  function BinaryOperate(l: TValue, r: TValue, op: Ast.BinaryOperator): (res: Result<TValue>)
    ensures res.Ok? <==> op.IsComparison()
    ensures res.Ok? ==> res.value.Boolean?
    ensures res.Err? ==> res.error == OperationNotPossible(op, l, r)
  {
    match op
    case Eq => Ok(Boolean(Equals(l, r)))
    case Neq => Ok(Boolean(!Equals(l, r)))
    case Lt => Ok(Boolean(Compare(l, r) == Some(Less)))
    case Gt => Ok(Boolean(Compare(l, r) == Some(Greater)))
    case Leq => Ok(Boolean(Compare(l, r) == Some(Less) || Compare(l, r) == Some(Equal)))
    case Geq => Ok(Boolean(Compare(l, r) == Some(Greater) || Compare(l, r) == Some(Equal)))
    case _ => Err(OperationNotPossible(op, l, r))
  }

  // ---------------------------------------------------------------------------
  // Properties of the derived equality and ordering
  // ---------------------------------------------------------------------------

  lemma {:induction false} EqualsSymmetric(a: TValue, b: TValue)
    ensures Equals(a, b) == Equals(b, a)
    decreases a
  {
    match (a, b)
    case (Array(xs), Array(ys)) =>
      forall i | 0 <= i < |xs| && i < |ys| ensures Equals(xs[i], ys[i]) == Equals(ys[i], xs[i]) {
        EqualsSymmetric(xs[i], ys[i]);
      }
    case (Dictionary(m), Dictionary(n)) =>
      forall k | k in m && k in n ensures Equals(m[k], n[k]) == Equals(n[k], m[k]) {
        EqualsSymmetric(m[k], n[k]);
      }
    case _ =>
  }

  /** `partial_cmp(b, a)` is `partial_cmp(a, b)` reversed, for every pair of values. */
  lemma {:induction false} CompareAntisymmetric(a: TValue, b: TValue)
    ensures Compare(b, a) == Flip(Compare(a, b))
    decreases a
  {
    if a.Discriminant() == b.Discriminant() {
      match (a, b)
      case (Real(x), Real(y)) => FloatsAntisymmetric(x, y);
      case (String(x), String(y)) => CompareStringsAntisymmetric(x, y);
      case (Array(xs), Array(ys)) => CompareSeqsAntisymmetric(xs, ys);
      case (Dictionary(_), Dictionary(_)) => EqualsSymmetric(a, b);
      case _ =>
    }
  }

  lemma {:induction false} CompareSeqsAntisymmetric(xs: seq<TValue>, ys: seq<TValue>)
    ensures CompareSeqs(ys, xs) == Flip(CompareSeqs(xs, ys))
    decreases xs
  {
    if xs != [] && ys != [] {
      CompareAntisymmetric(xs[0], ys[0]);
      if Compare(xs[0], ys[0]) == Some(Equal) {
        CompareSeqsAntisymmetric(xs[1..], ys[1..]);
      }
    }
  }

  /** The derived ordering agrees with the derived equality: `partial_cmp` is `Some(Equal)` exactly when `==` holds. */
  lemma {:induction false} CompareEqualIffEquals(a: TValue, b: TValue)
    ensures Compare(a, b) == Some(Equal) <==> Equals(a, b)
    decreases a
  {
    if a.Discriminant() == b.Discriminant() {
      match (a, b)
      case (String(x), String(y)) => CompareStringsEqual(x, y);
      case (Array(xs), Array(ys)) => CompareSeqsEqual(xs, ys);
      case _ =>
    }
  }

  lemma {:induction false} CompareSeqsEqual(xs: seq<TValue>, ys: seq<TValue>)
    ensures CompareSeqs(xs, ys) == Some(Equal) <==>
            |xs| == |ys| && forall i :: 0 <= i < |xs| ==> Equals(xs[i], ys[i])
    decreases xs
  {
    if xs != [] && ys != [] {
      CompareEqualIffEquals(xs[0], ys[0]);
      CompareSeqsEqual(xs[1..], ys[1..]);
      if |xs| == |ys| && forall i :: 0 <= i < |xs| ==> Equals(xs[i], ys[i]) {
        assert Equals(xs[0], ys[0]);
        assert forall i :: 0 <= i < |xs| - 1 ==> Equals(xs[1..][i], ys[1..][i]) by {
          forall i | 0 <= i < |xs| - 1 ensures Equals(xs[1..][i], ys[1..][i]) {
            assert xs[1..][i] == xs[i + 1] && ys[1..][i] == ys[i + 1];
          }
        }
      }
      if CompareSeqs(xs, ys) == Some(Equal) {
        forall i | 0 <= i < |xs| ensures Equals(xs[i], ys[i]) {
          if i > 0 {
            assert xs[1..][i - 1] == xs[i] && ys[1..][i - 1] == ys[i];
          }
        }
      }
    }
  }

  // ---------------------------------------------------------------------------
  // Properties of binary_operate
  // ---------------------------------------------------------------------------

  /** `Eq` and `Neq` never fail, `Neq` is the negation of `Eq`, and neither depends on operand order. */
  lemma EqualityOperators(l: TValue, r: TValue)
    ensures BinaryOperate(l, r, Ast.Eq).Ok? && BinaryOperate(l, r, Ast.Neq).Ok?
    ensures BinaryOperate(l, r, Ast.Neq).value.b == !BinaryOperate(l, r, Ast.Eq).value.b
    ensures BinaryOperate(l, r, Ast.Eq) == BinaryOperate(r, l, Ast.Eq)
  {
    EqualsSymmetric(l, r);
  }

  /** Values of different variants are never equal, and are ordered by variant. */
  lemma MismatchedVariants(l: TValue, r: TValue)
    requires l.Discriminant() != r.Discriminant()
    ensures BinaryOperate(l, r, Ast.Eq) == Ok(Boolean(false))
    ensures BinaryOperate(l, r, Ast.Neq) == Ok(Boolean(true))
    ensures BinaryOperate(l, r, Ast.Lt) == Ok(Boolean(l.Discriminant() < r.Discriminant()))
  {
  }

  /** `a < b` is `b > a`, and `a <= b` is `b >= a`. */
  lemma SwappedOrderings(l: TValue, r: TValue)
    ensures BinaryOperate(l, r, Ast.Lt) == BinaryOperate(r, l, Ast.Gt)
    ensures BinaryOperate(l, r, Ast.Leq) == BinaryOperate(r, l, Ast.Geq)
  {
    CompareAntisymmetric(l, r);
  }

  /** `a <= b` holds exactly when `a < b` or `a == b` does. */
  lemma LeqIsLtOrEq(l: TValue, r: TValue)
    ensures BinaryOperate(l, r, Ast.Leq).value.b <==>
            BinaryOperate(l, r, Ast.Lt).value.b || BinaryOperate(l, r, Ast.Eq).value.b
  {
    CompareEqualIffEquals(l, r);
  }

  /** No value is less than itself, NaN-holding values included. */
  lemma LtIrreflexive(v: TValue)
    ensures BinaryOperate(v, v, Ast.Lt) == Ok(Boolean(false))
  {
    CompareAntisymmetric(v, v);
  }
}
