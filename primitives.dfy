/**
 * The primitive Rust types that appear in runtime values and literals (`i32`, `f64`,
 * `String`) and the standard library's comparisons on them, which the derived
 * `PartialOrd` of a runtime value is built from.
 */
module Primitives {
  import opened Wrappers

  /** Rust's `i32`. */
  newtype i32 = x: int | -0x8000_0000 <= x < 0x8000_0000

  /**
   * Rust's `f64`, as far as comparisons see it: IEEE 754 orders the finite values
   * as the reals they denote, puts the two infinities at the ends and leaves NaN
   * unordered and unequal to everything, itself included.
   */
  datatype Float64 = Finite(value: real) | Infinity(negative: bool) | NaN

  /** `std::cmp::Ordering`. */
  datatype Ordering = Less | Equal | Greater {
    function Reverse(): Ordering {
      match this
      case Less => Greater
      case Equal => Equal
      case Greater => Less
    }
  }

  /** The result of `partial_cmp` read the other way round: `partial_cmp(b, a)` from `partial_cmp(a, b)`. */
  function Flip(c: Option<Ordering>): Option<Ordering> {
    match c
    case None => None
    case Some(o) => Some(o.Reverse())
  }

  function CompareInts(a: int, b: int): (r: Ordering)
    ensures r == Less <==> a < b
    ensures r == Equal <==> a == b
  {
    if a < b then Less else if a == b then Equal else Greater
  }

  /** `bool` orders `false` before `true`. */
  function CompareBools(a: bool, b: bool): (r: Ordering)
    ensures r == Equal <==> a == b
    ensures r == Less <==> !a && b
  {
    CompareInts(if a then 1 else 0, if b then 1 else 0)
  }

  /** `f64::partial_cmp`: `None` exactly when a NaN is involved. */
  function CompareFloats(a: Float64, b: Float64): (r: Option<Ordering>)
    ensures r.None? <==> a.NaN? || b.NaN?
    ensures r == Some(Equal) <==> !a.NaN? && a == b
  {
    match (a, b)
    case (Finite(x), Finite(y)) => Some(if x < y then Less else if x == y then Equal else Greater)
    case (Infinity(n), Infinity(m)) => Some(if n == m then Equal else if n then Less else Greater)
    case (Infinity(n), Finite(_)) => Some(if n then Less else Greater)
    case (Finite(_), Infinity(m)) => Some(if m then Greater else Less)
    case _ => None
  }

  /**
   * `String`'s `Ord`: lexicographic, a proper prefix first. Rust compares the UTF-8
   * bytes, which orders strings exactly as comparing their code points does.
   */
  function CompareStrings(a: string, b: string): Ordering {
    if a == [] || b == [] then CompareInts(|a|, |b|)
    else if a[0] != b[0] then (if a[0] < b[0] then Less else Greater)
    else CompareStrings(a[1..], b[1..])
  }

  lemma {:induction false} CompareStringsEqual(a: string, b: string)
    ensures CompareStrings(a, b) == Equal <==> a == b
  {
    if a != [] && b != [] && a[0] == b[0] {
      CompareStringsEqual(a[1..], b[1..]);
      assert a == [a[0]] + a[1..] && b == [b[0]] + b[1..];
    }
  }

  lemma {:induction false} CompareStringsAntisymmetric(a: string, b: string)
    ensures CompareStrings(b, a) == CompareStrings(a, b).Reverse()
  {
    if a != [] && b != [] && a[0] == b[0] {
      CompareStringsAntisymmetric(a[1..], b[1..]);
    }
  }

  lemma FloatsAntisymmetric(a: Float64, b: Float64)
    ensures CompareFloats(b, a) == Flip(CompareFloats(a, b))
  {
  }
}
