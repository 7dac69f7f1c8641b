/** `Point3D.java`: points are never updated in place by the core, so a point
    is a `Triple` value and its operations are functions. */
module Points {
  import opened Vectors
  import RealMath

  /** `Point3D()`: the origin. */
  const ORIGIN := ZERO

  /** `Point3D.addVectorToPoint` and `addVector` are called by the core but
      defined in none of its files; the model leaves them abstract. */
  const AddVectorToPointOf: (Triple, Triple) -> Triple

  /** The one fact the callers rely on: the result is the point moved by the
      vector. Lemmas that need it take it as a hypothesis. */
  ghost predicate MovesByVector()
  {
    forall p, v {:trigger AddVectorToPointOf(p, v)} :: AddVectorToPointOf(p, v) == p.Plus(v)
  }

  function AddVectorToPoint(p: Triple, v: Triple): Triple
  {
    AddVectorToPointOf(p, v)
  }

  /** `distance(p)`: the square root of the sum of the squared coordinate
      differences, each squared with `Math.pow(_, 2)`. */
  function Distance(p: Triple, q: Triple): real
  {
    RealMath.Sqrt(RealMath.Pow(p.x - q.x, 2.0) + RealMath.Pow(p.y - q.y, 2.0) + RealMath.Pow(p.z - q.z, 2.0))
  }

  /** `vectorToAnotherPoint(q)` on `p`. */
  function VectorToAnotherPoint(p: Triple, q: Triple): Triple
  {
    Triple(q.x - p.x, q.y - p.y, q.z - p.z)
  }

  /** Static `vectorBetweenTwoPoints(p1, p2)`, which delegates. */
  function VectorBetweenTwoPoints(p1: Triple, p2: Triple): Triple
  {
    VectorToAnotherPoint(p1, p2)
  }

  /** `equals(p1, p2)`, the static form of `Tuple.equals`. */
  predicate Equals(p1: Triple, p2: Triple)
  {
    p1.x == p2.x && p1.y == p2.y && p1.z == p2.z
  }

  lemma EqualsIsEquality(p: Triple, q: Triple)
    ensures Equals(p, q) <==> p == q
    ensures Equals(p, p)
    ensures Equals(p, q) == Equals(q, p)
  {
  }

  /** The vector from `p` to `q` carries `p` onto `q`. */
  lemma VectorToAnotherPointArrives(p: Triple, q: Triple)
    ensures p.Plus(VectorToAnotherPoint(p, q)) == q
    ensures VectorToAnotherPoint(p, q) == q.Minus(p)
  {
  }

  lemma VectorBetweenAntisymmetric(a: Triple, b: Triple)
    ensures VectorBetweenTwoPoints(a, b) == VectorBetweenTwoPoints(b, a).Negated()
    ensures VectorBetweenTwoPoints(a, a) == ZERO
  {
  }

  /** The sum under the root in `distance` is the squared length of the
      vector between the points. */
  lemma DistanceRadicand(p: Triple, q: Triple)
    requires RealMath.Laws()
    ensures RealMath.Pow(p.x - q.x, 2.0) + RealMath.Pow(p.y - q.y, 2.0) + RealMath.Pow(p.z - q.z, 2.0)
         == VectorBetweenTwoPoints(p, q).LengthSquared()
  {
    var d := VectorBetweenTwoPoints(p, q);
    RealMath.PowTwo(p.x - q.x);
    RealMath.PowTwo(p.y - q.y);
    RealMath.PowTwo(p.z - q.z);
    assert RealMath.Pow(p.x - q.x, 2.0) == d.x * d.x;
    assert RealMath.Pow(p.y - q.y, 2.0) == d.y * d.y;
    assert RealMath.Pow(p.z - q.z, 2.0) == d.z * d.z;
  }

  /** The distance is the length of the vector between the points. */
  lemma DistanceIsLength(p: Triple, q: Triple)
    requires RealMath.Laws()
    ensures Distance(p, q) == VectorBetweenTwoPoints(p, q).Length()
    ensures Distance(p, q) * Distance(p, q) == VectorBetweenTwoPoints(p, q).LengthSquared()
  {
    var d := VectorBetweenTwoPoints(p, q);
    DistanceRadicand(p, q);
    LengthSquaredNonNegative(d);
    RealMath.SqrtNonNegative(d.LengthSquared());
  }

  lemma DistanceNonNegative(p: Triple, q: Triple)
    requires RealMath.Laws()
    ensures 0.0 <= Distance(p, q)
  {
    DistanceIsLength(p, q);
    LengthSquaredNonNegative(VectorBetweenTwoPoints(p, q));
    RealMath.SqrtNonNegative(VectorBetweenTwoPoints(p, q).LengthSquared());
  }

  lemma DistanceSymmetric(p: Triple, q: Triple)
    requires RealMath.Laws()
    ensures Distance(p, q) == Distance(q, p)
  {
    DistanceIsLength(p, q);
    DistanceIsLength(q, p);
    VectorBetweenAntisymmetric(p, q);
    var d := VectorBetweenTwoPoints(q, p);
    assert d.Negated().LengthSquared() == d.LengthSquared();
  }

  /** The distance is zero exactly between equal points. */
  lemma DistanceZero(p: Triple, q: Triple)
    requires RealMath.Laws()
    ensures Distance(p, q) == 0.0 <==> p == q
  {
    var d := VectorBetweenTwoPoints(p, q);
    DistanceIsLength(p, q);
    LengthSquaredNonNegative(d);
    RealMath.SqrtZeroIff(d.LengthSquared());
    if Distance(p, q) == 0.0 {
      ZeroLengthSquared(d);
    }
  }

  lemma DistanceToItself(p: Triple)
    requires RealMath.Laws()
    ensures Distance(p, p) == 0.0
  {
    DistanceZero(p, p);
  }
}
