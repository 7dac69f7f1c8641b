/** The shared 3-tuple of `Tuple.java` and the vector algebra of `Vec.java`.

    `Triple` is the value of a tuple: a point, a direction or an (unclamped)
    colour. `Vec` is the mutable Java object; `Tuple`, `Vec` and `RGB` share its
    three public fields and none of the subclasses adds one, so a single class
    carries them here. */
module Vectors {
  import opened Results
  import RealMath

  const ZERO := Triple(0.0, 0.0, 0.0)

  /** The message `Vec.normalize` throws with. */
  const DIVIDED_BY_ZERO := "DividedByZero"

  datatype Triple = Triple(x: real, y: real, z: real) {

    function Plus(a: Triple): Triple {
      Triple(x + a.x, y + a.y, z + a.z)
    }

    function Minus(a: Triple): Triple {
      Triple(x - a.x, y - a.y, z - a.z)
    }

    /** Multiplication by a scalar. */
    function Scaled(s: real): Triple {
      Triple(x * s, y * s, z * s)
    }

    /** Pairwise multiplication. */
    function PairScaled(a: Triple): Triple {
      Triple(x * a.x, y * a.y, z * a.z)
    }

    function Negated(): Triple {
      Triple(-x, -y, -z)
    }

    function Dot(a: Triple): real {
      x * a.x + y * a.y + z * a.z
    }

    function LengthSquared(): real {
      x * x + y * y + z * z
    }

    function Length(): real {
      RealMath.Sqrt(x * x + y * y + z * z)
    }

    /** The right-handed cross product `this x b`. */
    function Cross(b: Triple): Triple {
      Triple(y * b.z - z * b.y, z * b.x - x * b.z, x * b.y - y * b.x)
    }

    /** `v.reflect(n)`: the normal scaled by `-2 (n . v)`, plus `v`. */
    function Reflected(normal: Triple): Triple {
      normal.Scaled(normal.Dot(this) * -2.0).Plus(this)
    }

    /** `normalize`: every component divided by the length, or an
        `ArithmeticException` when the length is zero. */
    function Normalized(): Result<Triple> {
      var l := Length();
      if l == 0.0 then Failure(ArithmeticException(DIVIDED_BY_ZERO))
      else Success(Triple(x / l, y / l, z / l))
    }
  }

  // ---------------------------------------------------------------------------
  // Algebra of triples

  lemma PlusThenMinus(v: Triple, a: Triple)
    ensures v.Plus(a).Minus(a) == v
  {
  }

  lemma ScaledByOne(v: Triple)
    ensures v.Scaled(1.0) == v
  {
  }

  lemma DotCommutes(a: Triple, b: Triple)
    ensures a.Dot(b) == b.Dot(a)
    ensures a.LengthSquared() == a.Dot(a)
  {
  }

  lemma SquareNonNegative(r: real)
    ensures r * r >= 0.0
  {
    if r < 0.0 {
      assert (-r) * (-r) > 0.0;
    }
  }

  lemma LengthSquaredNonNegative(a: Triple)
    ensures a.LengthSquared() >= 0.0
  {
    SquareNonNegative(a.x);
    SquareNonNegative(a.y);
    SquareNonNegative(a.z);
  }

  lemma ZeroLengthSquared(a: Triple)
    requires RealMath.Laws() && a.LengthSquared() == 0.0
    ensures a == ZERO
  {
    SquareNonNegative(a.x);
    SquareNonNegative(a.y);
    SquareNonNegative(a.z);
    assert a.x * a.x == 0.0 && a.y * a.y == 0.0 && a.z * a.z == 0.0;
    RealMath.SquareZero(a.x);
    RealMath.SquareZero(a.y);
    RealMath.SquareZero(a.z);
  }

  /** Only the zero vector has length zero. */
  lemma LengthSquaredZero(a: Triple)
    requires RealMath.Laws()
    ensures a.LengthSquared() == 0.0 <==> a == ZERO
    ensures a != ZERO ==> a.LengthSquared() > 0.0
  {
    LengthSquaredNonNegative(a);
    if a.LengthSquared() == 0.0 {
      ZeroLengthSquared(a);
    }
  }

  lemma DotScaledLeft(a: Triple, s: real, b: Triple)
    ensures a.Scaled(s).Dot(b) == s * a.Dot(b)
  {
  }

  lemma DotPlusLeft(a: Triple, b: Triple, c: Triple)
    ensures a.Plus(b).Dot(c) == a.Dot(c) + b.Dot(c)
  {
  }

  lemma DotMinusLeft(a: Triple, b: Triple, c: Triple)
    ensures a.Minus(b).Dot(c) == a.Dot(c) - b.Dot(c)
  {
  }

  lemma LengthSquaredScaled(a: Triple, s: real)
    ensures a.Scaled(s).LengthSquared() == s * s * a.LengthSquared()
  {
  }

  /** The cross product is orthogonal to both factors. */
  lemma CrossOrthogonal(a: Triple, b: Triple)
    ensures a.Cross(b).Dot(a) == 0.0
    ensures a.Cross(b).Dot(b) == 0.0
  {
  }

  lemma CrossSelfZero(a: Triple)
    ensures a.Cross(a) == ZERO
  {
  }

  /** For a unit normal, reflection flips the component along the normal. */
  lemma ReflectFlipsNormalComponent(v: Triple, n: Triple)
    requires n.LengthSquared() == 1.0
    ensures n.Dot(v.Reflected(n)) == -n.Dot(v)
  {
    var k := n.Dot(v) * -2.0;
    DotPlusLeft(n.Scaled(k), v, n);
    DotScaledLeft(n, k, n);
    DotCommutes(n, v);
    DotCommutes(n, v.Reflected(n));
  }

  /** For a unit normal, reflecting twice gives back the vector. */
  lemma ReflectTwice(v: Triple, n: Triple)
    requires n.LengthSquared() == 1.0
    ensures v.Reflected(n).Reflected(n) == v
  {
    var r := v.Reflected(n);
    ReflectFlipsNormalComponent(v, n);
    assert n.Dot(r) == -n.Dot(v);
    var k := n.Dot(v) * -2.0;
    assert r == n.Scaled(k).Plus(v);
    assert r.Reflected(n) == n.Scaled(n.Dot(r) * -2.0).Plus(r);
  }

  /** For a unit normal, reflection keeps the length. */
  lemma ReflectKeepsLength(v: Triple, n: Triple)
    requires n.LengthSquared() == 1.0
    ensures v.Reflected(n).LengthSquared() == v.LengthSquared()
  {
    var k := n.Dot(v) * -2.0;
    var r := v.Reflected(n);
    assert r == n.Scaled(k).Plus(v);
    DotCommutes(r, r);
    DotPlusLeft(n.Scaled(k), v, r);
    DotScaledLeft(n, k, r);
    ReflectFlipsNormalComponent(v, n);
    DotCommutes(v, r);
    DotPlusLeft(n.Scaled(k), v, v);
    DotScaledLeft(n, k, v);
    DotCommutes(v, v);
  }

  /** Dividing a non-zero vector by its length gives a unit vector. */
  lemma UnitAfterDivision(v: Triple, l: real)
    requires 0.0 < l && l * l == v.LengthSquared()
    ensures v.Scaled(1.0 / l).LengthSquared() == 1.0
  {
    var k := 1.0 / l;
    LengthSquaredScaled(v, k);
    assert k * l == 1.0;
    assert k * k * (l * l) == (k * l) * (k * l);
  }

  /** `normalize` throws exactly for the zero vector. */
  lemma NormalizedFailsOnZero(v: Triple)
    requires RealMath.Laws()
    ensures v.Normalized().Failure? <==> v == ZERO
    ensures v.Normalized().Failure? ==> v.Normalized().error == ArithmeticException(DIVIDED_BY_ZERO)
  {
    assert v.Normalized().Failure? <==> v.Length() == 0.0;
    assert v.Length() == RealMath.Sqrt(v.LengthSquared());
    LengthSquaredZero(v);
    RealMath.SqrtZeroIff(v.LengthSquared());
  }

  /** Otherwise the result is the input divided by its length, a vector of
      length one. */
  lemma NormalizedIsUnit(v: Triple)
    requires RealMath.Laws()
    requires v != ZERO
    ensures v.Normalized().Success?
    ensures 0.0 < v.Length() && v.Normalized().value == v.Scaled(1.0 / v.Length())
    ensures v.Normalized().value.LengthSquared() == 1.0 && v.Normalized().value.Length() == 1.0
  {
    NormalizedFailsOnZero(v);
    LengthSquaredZero(v);
    RealMath.SqrtZeroIff(v.LengthSquared());
    RealMath.SqrtNonNegative(v.LengthSquared());
    var l := v.Length();
    var u := v.Normalized().value;
    assert u == v.Scaled(1.0 / l);
    UnitAfterDivision(v, l);
    RealMath.SqrtOfSquare(1.0);
  }

  /** A normalised vector keeps the direction of its input. */
  lemma NormalizedDot(v: Triple, a: Triple)
    requires RealMath.Laws()
    requires v != ZERO
    ensures v.Normalized().Success? && v.Normalized().value.Dot(a) == v.Dot(a) / v.Length()
  {
    NormalizedIsUnit(v);
    DotScaledLeft(v, 1.0 / v.Length(), a);
  }

  // ---------------------------------------------------------------------------
  // The mutable object

  class Vec {
    var x: real
    var y: real
    var z: real

    function Value(): Triple
      reads this
    {
      Triple(x, y, z)
    }

    /** `Tuple()`: the origin. */
    constructor ()
      ensures Value() == ZERO
    {
      x, y, z := 0.0, 0.0, 0.0;
    }

    /** `Tuple(x, y, z)`: the coordinates exactly as given. */
    constructor Of(x: real, y: real, z: real)
      ensures this.x == x && this.y == y && this.z == z
    {
      this.x, this.y, this.z := x, y, z;
    }

    /** `Tuple(Tuple t)`: a copy that `equals` its source. */
    constructor Copy(t: Vec)
      ensures Value() == t.Value() && Equals(t)
    {
      x, y, z := t.x, t.y, t.z;
    }

    /** `equals`: all three coordinates are equal. */
    function Equals(t: Vec): (b: bool)
      reads this, t
      ensures b <==> Value() == t.Value()
    {
      x == t.x && y == t.y && z == t.z
    }

    /** `clone`: a fresh equal object. In Java it builds a plain `Tuple`, so
        the `(Vec)` casts that `reflect` and the static variants apply to it
        would throw ClassCastException; the model gives them the evidently
        intended copy. */
    method Clone() returns (c: Vec)
      ensures fresh(c) && c.Value() == Value() && c.Equals(this)
    {
      c := new Vec.Copy(this);
    }

    function LengthSquared(): real
      reads this
    {
      Value().LengthSquared()
    }

    function Length(): real
      reads this
    {
      Value().Length()
    }

    function DotProd(a: Vec): real
      reads this, a
    {
      Value().Dot(a.Value())
    }

    method Add(a: Vec)
      modifies this
      ensures Value() == old(Value()).Plus(old(a.Value()))
    {
      x, y, z := x + a.x, y + a.y, z + a.z;
    }

    method Sub(a: Vec)
      modifies this
      ensures Value() == old(Value()).Minus(old(a.Value()))
    {
      x, y, z := x - a.x, y - a.y, z - a.z;
    }

    /** `mac(s, a)`: scales `a` by `s` in place, then adds it. When `a` is
        `this`, the object is scaled and then added to itself. */
    method Mac(s: real, a: Vec)
      modifies this, a
      ensures a != this ==> a.Value() == old(a.Value()).Scaled(s)
      ensures a != this ==> Value() == old(Value()).Plus(old(a.Value()).Scaled(s))
      ensures a == this ==> Value() == old(Value()).Scaled(s).Plus(old(Value()).Scaled(s))
    {
      a.Scale(s);
      Add(a);
    }

    method Scale(s: real)
      modifies this
      ensures Value() == old(Value()).Scaled(s)
    {
      x, y, z := x * s, y * s, z * s;
    }

    /** `scale(Vec a)`: pairwise multiplication. */
    method ScaleBy(a: Vec)
      modifies this
      ensures Value() == old(Value()).PairScaled(old(a.Value()))
    {
      x, y, z := x * a.x, y * a.y, z * a.z;
    }

    /** `negate`: pairwise multiplication by (-1, -1, -1). */
    method Negate()
      modifies this
      ensures Value() == old(Value()).Negated()
    {
      var minusOne := new Vec.Of(-1.0, -1.0, -1.0);
      ScaleBy(minusOne);
    }

    /** `normalize`: throws (and changes nothing) for a zero length, otherwise
        divides every component by the length. */
    method Normalize() returns (r: Outcome)
      modifies this
      ensures match old(Value()).Normalized()
        case Success(u) => r == Pass && Value() == u
        case Failure(e) => r == Fail(e) && Value() == old(Value())
    {
      var l := Length();
      if l == 0.0 {
        return Fail(ArithmeticException(DIVIDED_BY_ZERO));
      }
      x, y, z := x / l, y / l, z / l;
      r := Pass;
    }

    /** `reflect(normal)`: a fresh vector; neither `this` nor `normal` changes. */
    method Reflect(normal: Vec) returns (r: Vec)
      ensures fresh(r) && r.Value() == Value().Reflected(normal.Value())
    {
      r := normal.Clone();
      r.Scale(r.DotProd(this) * -2.0);
      r.Add(this);
    }

    static method CrossProd(a: Vec, b: Vec) returns (r: Vec)
      ensures fresh(r) && r.Value() == a.Value().Cross(b.Value())
    {
      r := new Vec.Of(a.y * b.z - a.z * b.y, a.z * b.x - a.x * b.z, a.x * b.y - a.y * b.x);
    }

    /** Static `add(a, b)`: a fresh `a + b`; the arguments are unchanged. */
    static method Sum(a: Vec, b: Vec) returns (r: Vec)
      ensures fresh(r) && r.Value() == a.Value().Plus(b.Value())
    {
      r := a.Clone();
      r.Add(b);
    }

    /** Static `sub(a, b)`. */
    static method Difference(a: Vec, b: Vec) returns (r: Vec)
      ensures fresh(r) && r.Value() == a.Value().Minus(b.Value())
    {
      r := a.Clone();
      r.Sub(b);
    }

    /** Static `negate(a)`. */
    static method Negation(a: Vec) returns (r: Vec)
      ensures fresh(r) && r.Value() == a.Value().Negated()
    {
      r := a.Clone();
      r.Negate();
    }

    /** Static `scale(s, a)`. */
    static method Product(s: real, a: Vec) returns (r: Vec)
      ensures fresh(r) && r.Value() == a.Value().Scaled(s)
    {
      r := a.Clone();
      r.Scale(s);
    }

    /** Static `scale(a, b)`: pairwise. */
    static method PairProduct(a: Vec, b: Vec) returns (r: Vec)
      ensures fresh(r) && r.Value() == a.Value().PairScaled(b.Value())
    {
      r := a.Clone();
      r.ScaleBy(b);
    }
  }

  /** `add(a)` then `sub(a)` restores the vector, unless `a` is the vector
      itself: then `add` doubles it and `sub` leaves zero. */
  method AddThenSub(v: Vec, a: Vec)
    modifies v
    ensures a != v ==> v.Value() == old(v.Value()) && a.Value() == old(a.Value())
    ensures a == v ==> v.Value() == ZERO
  {
    v.Add(a);
    v.Sub(a);
  }

  /** Mutating a clone leaves the original as it was. */
  method ScaleClone(t: Vec, s: real) returns (c: Vec)
    ensures fresh(c) && c.Value() == t.Value().Scaled(s)
    ensures t.Value() == old(t.Value())
  {
    c := t.Clone();
    c.Scale(s);
  }
}
