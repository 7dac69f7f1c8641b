/** `Surface.java`, `Sphere.java`, `Disc.java` and `Poly.java`.

    A surface's fields are assigned only while it is being constructed and
    never change afterwards, so a surface is a value: each constructor
    becomes a function (or, for `Poly`, a method with the constructor's two
    loops) returning the finished surface or the exception it throws. */
module Surfaces {
  import opened Results
  import opened Vectors
  import opened Points
  import opened Attributes
  import opened Strings
  import RealMath

  /** The material fields every surface shares. */
  datatype Material = Material(
    diffuse: Triple,
    specular: Triple,
    ambient: Triple,
    emission: Triple,
    shininess: real,
    reflectance: real)

  /** `Surface.commonInit`. Each colour comes from its own key or its default.
      The "reflectance" value is written into the shininess, overwriting
      whatever "mtl-shininess" gave, and `reflectance` keeps the Java field
      default 0. */
  function CommonInit(attrs: Attrs): Material {
    Material(
      TripleOr(attrs, "mtl-diffuse", Triple(0.7, 0.7, 0.7)),
      TripleOr(attrs, "mtl-specular", Triple(1.0, 1.0, 1.0)),
      TripleOr(attrs, "mtl-ambient", Triple(0.1, 0.1, 0.1)),
      TripleOr(attrs, "mtl-emission", Triple(0.0, 0.0, 0.0)),
      NumberOr(attrs, "reflectance", 0.0),
      0.0)
  }

  /** The colours come from their keys, each default used exactly when its
      key is absent. */
  lemma CommonInitColors(attrs: Attrs)
    ensures "mtl-diffuse" !in attrs ==> CommonInit(attrs).diffuse == Triple(0.7, 0.7, 0.7)
    ensures "mtl-diffuse" in attrs ==> CommonInit(attrs).diffuse == attrs["mtl-diffuse"].triple
    ensures "mtl-specular" !in attrs ==> CommonInit(attrs).specular == Triple(1.0, 1.0, 1.0)
    ensures "mtl-specular" in attrs ==> CommonInit(attrs).specular == attrs["mtl-specular"].triple
    ensures "mtl-ambient" !in attrs ==> CommonInit(attrs).ambient == Triple(0.1, 0.1, 0.1)
    ensures "mtl-ambient" in attrs ==> CommonInit(attrs).ambient == attrs["mtl-ambient"].triple
    ensures "mtl-emission" !in attrs ==> CommonInit(attrs).emission == ZERO
    ensures "mtl-emission" in attrs ==> CommonInit(attrs).emission == attrs["mtl-emission"].triple
  {
  }

  /** Each colour depends on its own key only: two attribute maps that agree
      on that key give the same colour. */
  lemma CommonInitColorsIndependent(a: Attrs, b: Attrs)
    ensures (("mtl-diffuse" in a) == ("mtl-diffuse" in b) && ("mtl-diffuse" in a ==> a["mtl-diffuse"] == b["mtl-diffuse"]))
      ==> CommonInit(a).diffuse == CommonInit(b).diffuse
    ensures (("mtl-specular" in a) == ("mtl-specular" in b) && ("mtl-specular" in a ==> a["mtl-specular"] == b["mtl-specular"]))
      ==> CommonInit(a).specular == CommonInit(b).specular
    ensures (("mtl-ambient" in a) == ("mtl-ambient" in b) && ("mtl-ambient" in a ==> a["mtl-ambient"] == b["mtl-ambient"]))
      ==> CommonInit(a).ambient == CommonInit(b).ambient
    ensures (("mtl-emission" in a) == ("mtl-emission" in b) && ("mtl-emission" in a ==> a["mtl-emission"] == b["mtl-emission"]))
      ==> CommonInit(a).emission == CommonInit(b).emission
  {
  }

  /** The shininess is the "reflectance" value, or 0 without one, whatever
      "mtl-shininess" says; the reflectance coefficient is never assigned. */
  lemma CommonInitShininess(attrs: Attrs, v: Value)
    ensures "reflectance" in attrs ==> CommonInit(attrs).shininess == attrs["reflectance"].number
    ensures "reflectance" !in attrs ==> CommonInit(attrs).shininess == 0.0
    ensures CommonInit(attrs["mtl-shininess" := v]) == CommonInit(attrs)
    ensures CommonInit(attrs - {"mtl-shininess"}) == CommonInit(attrs)
    ensures CommonInit(attrs).reflectance == 0.0
  {
  }

  /** A surface: its material and its shape. `Disc` extends `Sphere` in the
      Java code and keeps the sphere's centre and radius. */
  datatype Surface =
    | Sphere(material: Material, center: Triple, radius: real)
    | Disc(material: Material, center: Triple, radius: real, normal: Triple)
    | Poly(material: Material, p: seq<Triple>)
  {
    /** What construction guarantees: a polygon has at least three points. */
    predicate Valid() {
      Poly? ==> |p| >= 3
    }
  }

  /** `new Sphere(attributes)`: `commonInit`, then `init`, which checks
      "center" before "radius". */
  function NewSphere(attrs: Attrs): Result<Surface> {
    if "center" !in attrs then Failure(IllegalArgumentException("Missing 'center' attribute"))
    else if "radius" !in attrs then Failure(IllegalArgumentException("Missing 'radius' attribute"))
    else Success(Sphere(CommonInit(attrs), attrs["center"].triple, attrs["radius"].number))
  }

  /** A sphere is built exactly when both keys are present; the missing
      centre is reported first; `getCenter` and `getRadius` return the
      attribute values. */
  lemma NewSphereOutcome(attrs: Attrs)
    ensures NewSphere(attrs).Success? <==> "center" in attrs && "radius" in attrs
    ensures "center" !in attrs ==> NewSphere(attrs) == Failure(IllegalArgumentException("Missing 'center' attribute"))
    ensures "center" in attrs && "radius" !in attrs ==> NewSphere(attrs) == Failure(IllegalArgumentException("Missing 'radius' attribute"))
    ensures NewSphere(attrs).Success? ==> NewSphere(attrs).value.Sphere? && NewSphere(attrs).value.Valid()
    ensures NewSphere(attrs).Success? ==> NewSphere(attrs).value.center == attrs["center"].triple
    ensures NewSphere(attrs).Success? ==> NewSphere(attrs).value.radius == attrs["radius"].number
    ensures NewSphere(attrs).Success? ==> NewSphere(attrs).value.material == CommonInit(attrs)
  {
  }

  /** `new Disc(attributes)`: the sphere constructor first, then
      `dontForget`, which requires "normal" and normalises it in place. */
  function NewDisc(attrs: Attrs): Result<Surface> {
    match NewSphere(attrs)
    case Failure(e) => Failure(e)
    case Success(s) =>
      if "normal" !in attrs then Failure(IllegalArgumentException("Missing 'normal' attribute"))
      else match attrs["normal"].triple.Normalized()
        case Failure(e) => Failure(e)
        case Success(n) => Success(Disc(s.material, s.center, s.radius, n))
  }

  /** The sphere's errors come before the normal's, a zero normal throws
      `ArithmeticException`, and a built disc keeps a unit normal along the
      given one. */
  lemma NewDiscOutcome(attrs: Attrs)
    requires RealMath.Laws()
    ensures NewSphere(attrs).Failure? ==> NewDisc(attrs) == NewSphere(attrs)
    ensures NewSphere(attrs).Success? && "normal" !in attrs
      ==> NewDisc(attrs) == Failure(IllegalArgumentException("Missing 'normal' attribute"))
    ensures NewSphere(attrs).Success? && "normal" in attrs && attrs["normal"].triple == ZERO
      ==> NewDisc(attrs) == Failure(ArithmeticException(DIVIDED_BY_ZERO))
    ensures NewDisc(attrs).Success? <==>
      "center" in attrs && "radius" in attrs && "normal" in attrs && attrs["normal"].triple != ZERO
    ensures NewDisc(attrs).Success? ==>
      var d := NewDisc(attrs).value;
      d.Disc? && d.center == attrs["center"].triple && d.radius == attrs["radius"].number &&
      d.material == CommonInit(attrs) && d.normal.LengthSquared() == 1.0 &&
      d.normal == attrs["normal"].triple.Scaled(1.0 / attrs["normal"].triple.Length())
  {
    NewSphereOutcome(attrs);
    if "normal" in attrs {
      var n := attrs["normal"].triple;
      NormalizedFailsOnZero(n);
      if n != ZERO {
        NormalizedIsUnit(n);
      }
    }
  }

  /** `getNormalAtPoint(p)`. A sphere normalises p - center, which throws at
      the centre; a disc returns its stored normal whatever the argument; a
      polygon normalises (p1 - p0) x (p2 - p0), ignoring the argument. */
  function GetNormalAtPoint(s: Surface, q: Triple): Result<Triple>
    requires s.Valid()
  {
    match s
    case Sphere(_, center, _) => VectorBetweenTwoPoints(center, q).Normalized()
    case Disc(_, _, _, normal) => Success(normal)
    case Poly(_, p) => VectorBetweenTwoPoints(p[0], p[1]).Cross(VectorBetweenTwoPoints(p[0], p[2])).Normalized()
  }

  lemma QuotientPositive(a: real, b: real)
    requires 0.0 < a && 0.0 < b
    ensures 0.0 < a / b
  {
  }

  /** Away from the centre, the sphere's normal is a unit vector pointing
      outwards: its dot product with p - center is positive. */
  lemma SphereNormalOutward(s: Surface, q: Triple)
    requires RealMath.Laws() && s.Sphere? && q != s.center
    ensures GetNormalAtPoint(s, q).Success?
    ensures GetNormalAtPoint(s, q).value.LengthSquared() == 1.0
    ensures GetNormalAtPoint(s, q).value.Dot(VectorBetweenTwoPoints(s.center, q)) > 0.0
  {
    var v := VectorBetweenTwoPoints(s.center, q);
    assert v != ZERO by {
      VectorToAnotherPointArrives(s.center, q);
    }
    NormalizedIsUnit(v);
    NormalizedDot(v, v);
    LengthSquaredZero(v);
    DotCommutes(v, v);
    QuotientPositive(v.Dot(v), v.Length());
  }

  /** The sphere's normal at its own centre throws `ArithmeticException`. */
  lemma SphereNormalAtCenter(s: Surface)
    requires RealMath.Laws() && s.Sphere?
    ensures GetNormalAtPoint(s, s.center) == Failure(ArithmeticException(DIVIDED_BY_ZERO))
  {
    VectorBetweenAntisymmetric(s.center, s.center);
    NormalizedFailsOnZero(ZERO);
  }

  /** A disc's normal is the stored one at every point. */
  lemma DiscNormalConstant(s: Surface, q: Triple, q': Triple)
    requires s.Disc?
    ensures GetNormalAtPoint(s, q) == Success(s.normal)
    ensures GetNormalAtPoint(s, q) == GetNormalAtPoint(s, q')
  {
  }

  /** A polygon's normal is the same at every point, is orthogonal to both
      edges out of p0, and exists exactly when those edges are not parallel. */
  lemma PolyNormal(s: Surface, q: Triple, q': Triple)
    requires RealMath.Laws() && s.Poly? && s.Valid()
    ensures GetNormalAtPoint(s, q) == GetNormalAtPoint(s, q')
    ensures var c := VectorBetweenTwoPoints(s.p[0], s.p[1]).Cross(VectorBetweenTwoPoints(s.p[0], s.p[2]));
      GetNormalAtPoint(s, q).Failure? <==> c == ZERO
    ensures GetNormalAtPoint(s, q).Success? ==>
      var n := GetNormalAtPoint(s, q).value;
      n.LengthSquared() == 1.0 &&
      n.Dot(VectorBetweenTwoPoints(s.p[0], s.p[1])) == 0.0 &&
      n.Dot(VectorBetweenTwoPoints(s.p[0], s.p[2])) == 0.0
  {
    var a := VectorBetweenTwoPoints(s.p[0], s.p[1]);
    var b := VectorBetweenTwoPoints(s.p[0], s.p[2]);
    var c := a.Cross(b);
    NormalizedFailsOnZero(c);
    if c != ZERO {
      NormalizedIsUnit(c);
      CrossOrthogonal(a, b);
      DotScaledLeft(c, 1.0 / c.Length(), a);
      DotScaledLeft(c, 1.0 / c.Length(), b);
    }
  }

  /** `intersectsWith`: the sphere's is a stub that returns null, and the
      disc inherits it. */
  function IntersectsWith(s: Surface, origin: Triple, direction: Triple): (r: Option<Triple>)
    requires s.Sphere? || s.Disc?
    ensures r == None
  {
    None
  }

  /** `Poly.getSize`. */
  function GetSize(s: Surface): nat
    requires s.Poly?
  {
    |s.p|
  }

  /** `Poly.getPoint(i)`: null outside 0 <= i < size. */
  function GetPoint(s: Surface, i: int): Option<Triple>
    requires s.Poly?
  {
    if i < 0 || i >= |s.p| then None else Some(s.p[i])
  }

  lemma GetPointRange(s: Surface, i: int)
    requires s.Poly?
    ensures GetPoint(s, i).Some? <==> 0 <= i < GetSize(s)
    ensures GetPoint(s, i).Some? ==> GetPoint(s, i).value == s.p[i]
  {
  }

  /** The keys `Poly.init` counts: those starting with "p". */
  function PointKeys(attrs: Attrs): set<string> {
    set k | k in attrs && StartsWith(k, "p")
  }

  /** The key of the i-th vertex, `"p" + i`. */
  function PolyKey(i: nat): string {
    "p" + DecimalString(i)
  }

  lemma PolyKeyIsPointKey(i: nat)
    ensures StartsWith(PolyKey(i), "p")
  {
    assert PolyKey(i)[..1] == "p";
  }

  /** Distinct vertices have distinct keys, so vertex i is read from its
      own entry. */
  lemma PolyKeyInjective(i: nat, j: nat)
    ensures PolyKey(i) == PolyKey(j) <==> i == j
  {
    if PolyKey(i) == PolyKey(j) {
      assert DecimalString(i) == PolyKey(i)[1..];
      assert DecimalString(j) == PolyKey(j)[1..];
      DecimalStringInjective(i, j);
    }
  }

  /** What `new Poly(attributes)` builds: fewer than three "p" keys is an
      invalid polygon; otherwise vertex i comes from key "p"+i for i below
      that count, and a missing one reaches a `Point3D` constructor with null,
      which throws `NullPointerException`. */
  ghost function PolyOf(attrs: Attrs): Result<Surface> {
    var n := |PointKeys(attrs)|;
    if n < 3 then Failure(IllegalArgumentException("Invalid Poly"))
    else if exists i :: 0 <= i < n && PolyKey(i) !in attrs then Failure(NullPointerException)
    else Success(Poly(CommonInit(attrs), seq(n, (i: int) requires 0 <= i < n && PolyKey(i) in attrs => attrs[PolyKey(i)].triple)))
  }

  /** The size is the number of "p" keys, the vertices are read by key, and
      a built polygon is valid. */
  lemma PolyOfOutcome(attrs: Attrs)
    ensures PolyOf(attrs).Success? <==>
      |PointKeys(attrs)| >= 3 && forall i :: 0 <= i < |PointKeys(attrs)| ==> PolyKey(i) in attrs
    ensures |PointKeys(attrs)| < 3 ==> PolyOf(attrs) == Failure(IllegalArgumentException("Invalid Poly"))
    ensures PolyOf(attrs).Success? ==>
      var s := PolyOf(attrs).value;
      s.Poly? && s.Valid() && GetSize(s) == |PointKeys(attrs)| && s.material == CommonInit(attrs) &&
      forall i :: 0 <= i < GetSize(s) ==> GetPoint(s, i) == Some(attrs[PolyKey(i)].triple)
  {
  }

  /** The "p" entries of the map, the copy `Poly.init` counts. */
  function JustThePoints(attrs: Attrs): map<string, Value> {
    map k | k in PointKeys(attrs) :: attrs[k]
  }

  /** The first loop of `Poly.init`: copies the entries whose key starts
      with "p" and counts them. */
  method CountPoints(attrs: Attrs) returns (justThePoints: map<string, Value>, size: nat)
    ensures justThePoints == JustThePoints(attrs)
    ensures size == |PointKeys(attrs)|
  {
    justThePoints, size := map[], 0;
    var rest := attrs.Keys;
    while rest != {}
      invariant rest <= attrs.Keys
      invariant forall k :: k in justThePoints <==> k in attrs && k !in rest && StartsWith(k, "p")
      invariant forall k :: k in justThePoints ==> justThePoints[k] == attrs[k]
      invariant size == |justThePoints.Keys|
      decreases rest
    {
      var k :| k in rest;
      if StartsWith(k, "p") {
        justThePoints := justThePoints[k := attrs[k]];
        size := size + 1;
      }
      rest := rest - {k};
    }
    assert justThePoints.Keys == PointKeys(attrs);
  }

  /** The second loop of `Poly.init`: vertex i from key "p"+i. */
  method FillPoints(justThePoints: map<string, Value>, size: nat) returns (r: Option<seq<Triple>>)
    ensures r.Some? <==> forall i :: 0 <= i < size ==> PolyKey(i) in justThePoints
    ensures r.Some? ==> |r.value| == size && forall i :: 0 <= i < size ==> r.value[i] == justThePoints[PolyKey(i)].triple
  {
    var points := new Triple[size];
    for i := 0 to size
      invariant forall j :: 0 <= j < i ==> PolyKey(j) in justThePoints && points[j] == justThePoints[PolyKey(j)].triple
    {
      var key := "p" + DecimalString(i);
      if key !in justThePoints {
        assert PolyKey(i) !in justThePoints;
        return None;
      }
      points[i] := justThePoints[key].triple;
    }
    r := Some(points[..]);
  }

  /** A vertex key is in the "p" copy exactly when it is in the attributes. */
  lemma PolyKeyInJustThePoints(attrs: Attrs, i: nat)
    ensures PolyKey(i) in JustThePoints(attrs) <==> PolyKey(i) in attrs
    ensures PolyKey(i) in attrs ==> JustThePoints(attrs)[PolyKey(i)] == attrs[PolyKey(i)]
  {
    PolyKeyIsPointKey(i);
  }

  /** `new Poly(attributes)`: counts the "p" entries, rejects fewer than
      three, then fills the vertex array (the sorted copy of the map the Java
      code makes has the same entries). */
  method NewPoly(attrs: Attrs) returns (r: Result<Surface>)
    ensures r == PolyOf(attrs)
  {
    var justThePoints, size := CountPoints(attrs);
    if size < 3 {
      return Failure(IllegalArgumentException("Invalid Poly"));
    }
    var points := FillPoints(justThePoints, size);
    forall i: nat | i < size
      ensures PolyKey(i) in justThePoints <==> PolyKey(i) in attrs
      ensures PolyKey(i) in attrs ==> justThePoints[PolyKey(i)] == attrs[PolyKey(i)]
    {
      PolyKeyInJustThePoints(attrs, i);
    }
    if points.None? {
      var i: nat :| i < size && PolyKey(i) !in justThePoints;
      assert PolyKey(i) !in attrs;
      return Failure(NullPointerException);
    }
    assert forall i :: 0 <= i < size ==> PolyKey(i) in attrs;
    r := Success(Poly(CommonInit(attrs), points.value));
    assert PolyOf(attrs).Success?;
    assert PolyOf(attrs).value.p == points.value;
  }
}
