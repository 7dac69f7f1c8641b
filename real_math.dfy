/** Real-number stand-ins for java.lang.Math.

    Doubles are modelled as `real`. `Math.sqrt` and `Math.pow` are library code
    whose bodies are outside the model, so each is an uninterpreted constant of
    function type; the few facts the proofs rely on are collected in `Laws()`,
    which lemmas take as a hypothesis instead of an axiom. */
module RealMath {

  /** Uninterpreted `Math.sqrt`. */
  const SqrtOf: real -> real

  /** Uninterpreted `Math.pow`. */
  const PowOf: (real, real) -> real

  function Sqrt(x: real): real { SqrtOf(x) }

  function Pow(base: real, exponent: real): real { PowOf(base, exponent) }

  /** What the model assumes of the library: the square root of a non-negative
      number is its non-negative root, and `pow(x, 2)` is `x*x`. */
  ghost predicate Laws() {
    (forall x: real {:trigger SqrtOf(x)} :: 0.0 <= x ==> 0.0 <= SqrtOf(x) && SqrtOf(x) * SqrtOf(x) == x) &&
    (forall x: real {:trigger PowOf(x, 2.0)} :: PowOf(x, 2.0) == x * x)
  }

  /** `Math.max` on doubles (no NaN here). */
  function Max(a: real, b: real): (m: real)
    ensures m >= a && m >= b && (m == a || m == b)
  {
    if a >= b then a else b
  }

  /** `Math.min` on doubles (no NaN here). */
  function Min(a: real, b: real): (m: real)
    ensures m <= a && m <= b && (m == a || m == b)
  {
    if a <= b then a else b
  }

  lemma SqrtNonNegative(x: real)
    requires Laws() && 0.0 <= x
    ensures 0.0 <= Sqrt(x) && Sqrt(x) * Sqrt(x) == x
  {
    assert 0.0 <= SqrtOf(x);
  }

  /** The root of the square of a non-negative number is that number; in
      particular `Sqrt(0) == 0` and `Sqrt(1) == 1`. */
  lemma SqrtOfSquare(a: real)
    requires Laws() && 0.0 <= a
    ensures Sqrt(a * a) == a
  {
    var s := Sqrt(a * a);
    SqrtNonNegative(a * a);
    assert (s - a) * (s + a) == 0.0;
    if s + a != 0.0 {
      assert s - a == (s - a) * (s + a) / (s + a);
    }
  }

  lemma SqrtZeroIff(x: real)
    requires Laws() && 0.0 <= x
    ensures Sqrt(x) == 0.0 <==> x == 0.0
    ensures 0.0 < x ==> 0.0 < Sqrt(x)
  {
    SqrtNonNegative(x);
    if x == 0.0 {
      SqrtOfSquare(0.0);
    }
  }

  lemma SquareZeroNonNegative(r: real)
    requires Laws() && 0.0 <= r && r * r == 0.0
    ensures r == 0.0
  {
    SqrtOfSquare(0.0);
    SqrtOfSquare(r);
  }

  /** Only zero squares to zero. */
  lemma SquareZero(r: real)
    requires Laws() && r * r == 0.0
    ensures r == 0.0
  {
    if r >= 0.0 {
      SquareZeroNonNegative(r);
    } else {
      assert (-r) * (-r) == r * r;
      SquareZeroNonNegative(-r);
    }
  }

  lemma PowTwo(a: real)
    requires Laws()
    ensures Pow(a, 2.0) == a * a
  {
    assert PowOf(a, 2.0) == a * a;
  }
}
