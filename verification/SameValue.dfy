/** The Test262 harness: value comparison through strict equality and reciprocals. */
module SameValue {

  type NonZeroReal = r: real | r != 0.0 witness 1.0

  /** Numbers by kind; every nonzero finite number is known by its value. */
  datatype Number = NaN | PosInfinity | NegInfinity | PosZero | NegZero | NonZero(value: NonZeroReal)

  /** Language values; objects and symbols by identity. */
  datatype Value =
    | Undefined | Null | Boolean(b: bool) | String(s: string) | Symbol(symbol: nat)
    | Num(n: Number) | BigInt(i: int) | Object(reference: nat)

  /** `a === b` (IsStrictlyEqual, section 7.2.15 of ECMA-262, 2023). */
  predicate StrictlyEqual(a: Value, b: Value) {
    match (a, b)
    case (Num(x), Num(y)) =>
      if x.NaN? || y.NaN? then false
      else if (x.PosZero? && y.NegZero?) || (x.NegZero? && y.PosZero?) then true
      else x == y
    case _ => a == b
  }

  const ZERO: Value := Num(PosZero)

  /** `1 / a` for the operands the harness divides by: the two zeros. */
  function Reciprocal(a: Value): (r: Value)
    requires StrictlyEqual(a, ZERO)
  {
    if a.n.NegZero? then Num(NegInfinity) else Num(PosInfinity)
  }

  /** `isNegativeZero`. */
  predicate IsNegativeZero(a: Value)
    ensures IsNegativeZero(a) <==> a == Num(NegZero)
  {
    StrictlyEqual(a, ZERO) && StrictlyEqual(Reciprocal(a), Num(NegInfinity))
  }

  /** `assert._isSameValue`. */
  predicate IsSameValue(a: Value, b: Value) {
    if StrictlyEqual(a, b) then
      !StrictlyEqual(a, ZERO) || StrictlyEqual(Reciprocal(a), Reciprocal(b))
    else
      !StrictlyEqual(a, a) && !StrictlyEqual(b, b)
  }

  // ---------------------------------------------------------------------------
  // The standard's SameValue
  // ---------------------------------------------------------------------------

  /** Number::sameValue (section 6.1.6.1.14). */
  predicate NumberSameValue(x: Number, y: Number) {
    if x.NaN? && y.NaN? then true
    else if x.PosZero? && y.NegZero? then false
    else if x.NegZero? && y.PosZero? then false
    else x == y
  }

  predicate SameType(a: Value, b: Value) {
    || (a.Undefined? && b.Undefined?) || (a.Null? && b.Null?) || (a.Boolean? && b.Boolean?)
    || (a.String? && b.String?) || (a.Symbol? && b.Symbol?) || (a.Num? && b.Num?)
    || (a.BigInt? && b.BigInt?) || (a.Object? && b.Object?)
  }

  /** SameValue (section 7.2.10). */
  predicate SpecSameValue(a: Value, b: Value) {
    if !SameType(a, b) then false
    else if a.Num? then NumberSameValue(a.n, b.n)
    else a == b
  }

  /** The harness's comparison is SameValue, which is identity of language values. */
  lemma IsSameValueIsSpec(a: Value, b: Value)
    ensures IsSameValue(a, b) <==> SpecSameValue(a, b)
    ensures IsSameValue(a, b) <==> a == b
  {
  }

  /** `compareArray`: lengths first, then element by element until one differs. */
  method CompareArray(a: seq<Value>, b: seq<Value>) returns (same: bool)
    ensures same <==> |a| == |b| && forall i :: 0 <= i < |a| ==> SpecSameValue(b[i], a[i])
    ensures same <==> a == b
  {
    if |b| != |a| {
      return false;
    }
    for i := 0 to |a|
      invariant a[..i] == b[..i]
    {
      if !IsSameValue(b[i], a[i]) {
        return false;
      }
      assert a[..i + 1] == a[..i] + [a[i]] && b[..i + 1] == b[..i] + [b[i]];
    }
    assert a[..|a|] == a && b[..|b|] == b;
    return true;
  }
}
