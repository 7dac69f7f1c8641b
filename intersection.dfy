/** `Intersection.java`: ray against sphere, plane, disc and convex polygon.

    Every test is a function of the ray's current origin and direction
    (`RayState`) and of the surface. A `null` result is `None`. */
module Intersection {
  import opened Results
  import opened Vectors
  import opened Points
  import opened Surfaces
  import opened Rays
  import opened RealMath

  /** Hits nearer than this to a ray's origin are ignored by the scene. */
  const TOLERANCE: real := 0.0001

  /** An `Intersection` record: the surface hit, the point and its distance
      from the ray's origin. */
  datatype Hit = Hit(surface: Surface, point: Triple, distance: real)

  // ---------------------------------------------------------------- sphere

  /** The quadratic |O + tV - C|^2 = r^2 has a = 1 (the direction is taken to
      be a unit vector), b = 2 V.(O - C) and c = |O - C|^2 - r^2. */
  function SphereB(ray: RayState, s: Surface): real
    requires s.Sphere? || s.Disc?
  {
    2.0 * ray.v.Dot(VectorBetweenTwoPoints(s.center, ray.p))
  }

  function SphereC(ray: RayState, s: Surface): real
    requires s.Sphere? || s.Disc?
  {
    VectorBetweenTwoPoints(s.center, ray.p).LengthSquared() - Pow(s.radius, 2.0)
  }

  function Discriminant(ray: RayState, s: Surface): real
    requires s.Sphere? || s.Disc?
  {
    SphereB(ray, s) * SphereB(ray, s) - 4.0 * 1.0 * SphereC(ray, s)
  }

  /** The root with +sqrt. */
  function Root1(ray: RayState, s: Surface): real
    requires s.Sphere? || s.Disc?
  {
    (-SphereB(ray, s) + Sqrt(Discriminant(ray, s))) / (2.0 * 1.0)
  }

  /** The root with -sqrt. */
  function Root2(ray: RayState, s: Surface): real
    requires s.Sphere? || s.Disc?
  {
    (-SphereB(ray, s) - Sqrt(Discriminant(ray, s))) / (2.0 * 1.0)
  }

  /** The ray parameter `raySphereIntersection` picks, if any: no real root,
      or both roots at or behind the origin, is a miss; otherwise the one
      root in front, or the smaller of two in front. */
  function SphereParameter(ray: RayState, s: Surface): Option<real>
    requires s.Sphere? || s.Disc?
  {
    var t1 := Root1(ray, s);
    var t2 := Root2(ray, s);
    if Discriminant(ray, s) < 0.0 then None
    else if t1 <= 0.0 && t2 <= 0.0 then None
    else if t1 > 0.0 && t2 <= 0.0 then Some(t1)
    else if t2 > 0.0 && t1 <= 0.0 then Some(t2)
    else Some(Min(t1, t2))
  }

  /** The point on the ray at parameter t. */
  function PointAt(ray: RayState, t: real): Triple {
    AddVectorToPoint(ray.p, ray.v.Scaled(t))
  }

  /** `raySphereIntersection(ray, sphere)`. */
  function RaySphere(ray: RayState, s: Surface): Option<Triple>
    requires s.Sphere? || s.Disc?
  {
    match SphereParameter(ray, s)
    case None => None
    case Some(t) => Some(PointAt(ray, t))
  }

  /** The chosen parameter is the smallest positive root: a miss exactly when
      the discriminant is negative or no root is positive, and otherwise a
      positive root no larger than any positive root. */
  lemma SphereParameterIsNearestRoot(ray: RayState, s: Surface)
    requires s.Sphere? || s.Disc?
    ensures Discriminant(ray, s) < 0.0 ==> RaySphere(ray, s) == None
    ensures SphereParameter(ray, s).None? <==>
      Discriminant(ray, s) < 0.0 || (Root1(ray, s) <= 0.0 && Root2(ray, s) <= 0.0)
    ensures SphereParameter(ray, s).Some? ==>
      var t := SphereParameter(ray, s).value;
      0.0 < t && (t == Root1(ray, s) || t == Root2(ray, s)) &&
      (0.0 < Root1(ray, s) ==> t <= Root1(ray, s)) &&
      (0.0 < Root2(ray, s) ==> t <= Root2(ray, s))
    ensures RaySphere(ray, s).Some? <==> SphereParameter(ray, s).Some?
    ensures RaySphere(ray, s).Some? ==> RaySphere(ray, s).value == PointAt(ray, SphereParameter(ray, s).value)
  {
  }

  /** With a real square root, the +sqrt root is never the smaller one, so
      the branch that takes t2 alone is never reached with t1 <= 0 < t2. */
  lemma SphereRootsOrdered(ray: RayState, s: Surface)
    requires Laws() && (s.Sphere? || s.Disc?)
    requires 0.0 <= Discriminant(ray, s)
    ensures Root2(ray, s) <= Root1(ray, s)
    ensures !(Root2(ray, s) > 0.0 && Root1(ray, s) <= 0.0)
  {
    SqrtNonNegative(Discriminant(ray, s));
  }

  lemma QuadraticRoots(b: real, c: real, d: real)
    requires d * d == b * b - 4.0 * c
    ensures var t := (-b + d) / 2.0; t * t + b * t + c == 0.0
    ensures var t := (-b - d) / 2.0; t * t + b * t + c == 0.0
  {
  }

  /** Both roots solve t^2 + b t + c = 0. */
  lemma RootsSolveQuadratic(ray: RayState, s: Surface)
    requires Laws() && (s.Sphere? || s.Disc?)
    requires 0.0 <= Discriminant(ray, s)
    ensures var b, c, t := SphereB(ray, s), SphereC(ray, s), Root1(ray, s); t * t + b * t + c == 0.0
    ensures var b, c, t := SphereB(ray, s), SphereC(ray, s), Root2(ray, s); t * t + b * t + c == 0.0
  {
    SqrtNonNegative(Discriminant(ray, s));
    QuadraticRoots(SphereB(ray, s), SphereC(ray, s), Sqrt(Discriminant(ray, s)));
  }

  lemma LengthSquaredAlongRay(f: Triple, v: Triple, t: real)
    ensures f.Plus(v.Scaled(t)).LengthSquared() == f.LengthSquared() + 2.0 * t * v.Dot(f) + t * t * v.LengthSquared()
  {
  }

  /** A point of the ray at a root lies on the sphere when the direction is a
      unit vector. */
  lemma RootOnSphere(ray: RayState, s: Surface, t: real)
    requires Laws() && MovesByVector() && (s.Sphere? || s.Disc?)
    requires ray.v.LengthSquared() == 1.0
    requires t * t + SphereB(ray, s) * t + SphereC(ray, s) == 0.0
    ensures VectorBetweenTwoPoints(s.center, PointAt(ray, t)).LengthSquared() == s.radius * s.radius
  {
    var f := VectorBetweenTwoPoints(s.center, ray.p);
    assert VectorBetweenTwoPoints(s.center, PointAt(ray, t)) == f.Plus(ray.v.Scaled(t));
    LengthSquaredAlongRay(f, ray.v, t);
    PowTwo(s.radius);
  }

  /** The chosen parameter is a root of the quadratic. */
  lemma ChosenRootSolves(ray: RayState, s: Surface)
    requires Laws() && (s.Sphere? || s.Disc?)
    requires SphereParameter(ray, s).Some?
    ensures var b, c, t := SphereB(ray, s), SphereC(ray, s), SphereParameter(ray, s).value; t * t + b * t + c == 0.0
  {
    SphereParameterIsNearestRoot(ray, s);
    RootsSolveQuadratic(ray, s);
  }

  lemma DistanceFromLengthSquared(a: Triple, b: Triple, r: real)
    requires Laws() && 0.0 <= r
    requires VectorBetweenTwoPoints(a, b).LengthSquared() == r * r
    ensures Distance(a, b) == r
  {
    DistanceIsLength(a, b);
    SqrtOfSquare(r);
  }

  /** The sphere's answer is the point of the ray at a root of the
      quadratic. */
  lemma SphereHitAtRoot(ray: RayState, s: Surface) returns (t: real)
    requires Laws() && (s.Sphere? || s.Disc?)
    requires RaySphere(ray, s).Some?
    ensures RaySphere(ray, s) == Some(PointAt(ray, t))
    ensures t * t + SphereB(ray, s) * t + SphereC(ray, s) == 0.0
  {
    t := SphereParameter(ray, s).value;
    ChosenRootSolves(ray, s);
  }

  /** The sphere's answer lies on the sphere when the direction is a unit
      vector: its squared distance from the centre is radius^2, and its
      distance is the radius when the radius is non-negative. */
  lemma RaySphereOnSurface(ray: RayState, s: Surface)
    requires Laws() && MovesByVector() && (s.Sphere? || s.Disc?)
    requires ray.v.LengthSquared() == 1.0
    requires RaySphere(ray, s).Some?
    ensures VectorBetweenTwoPoints(s.center, RaySphere(ray, s).value).LengthSquared() == s.radius * s.radius
    ensures 0.0 <= s.radius ==> Distance(s.center, RaySphere(ray, s).value) == s.radius
  {
    var t := SphereHitAtRoot(ray, s);
    RootOnSphere(ray, s, t);
    PointOnSphereAtRadius(s.center, PointAt(ray, t), s.radius);
  }

  lemma PointOnSphereAtRadius(center: Triple, p: Triple, r: real)
    requires Laws()
    requires VectorBetweenTwoPoints(center, p).LengthSquared() == r * r
    ensures 0.0 <= r ==> Distance(center, p) == r
  {
    if 0.0 <= r {
      DistanceFromLengthSquared(center, p, r);
    }
  }

  // ----------------------------------------------------------------- plane

  /** `raySurfaceIntersection(ray, N, P0)`: a ray that does not head against
      the normal (back face or parallel) misses; otherwise the point at
      t = ((P0 - O).N) / (V.N), whatever the sign of t. */
  function RaySurface(ray: RayState, normal: Triple, pointOnSurface: Triple): Option<Triple> {
    var rayDotNormal := ray.v.Dot(normal);
    if rayDotNormal >= 0.0 then None
    else Some(PointAt(ray, VectorBetweenTwoPoints(ray.p, pointOnSurface).Dot(normal) / rayDotNormal))
  }

  lemma QuotientTimesDivisor(a: real, b: real)
    requires b < 0.0
    ensures (a / b) * b == a
  {
  }

  /** A miss exactly when V.N >= 0; a hit lies on the plane through P0 with
      normal N. */
  lemma RaySurfaceOnPlane(ray: RayState, normal: Triple, pointOnSurface: Triple)
    requires MovesByVector()
    ensures RaySurface(ray, normal, pointOnSurface).None? <==> ray.v.Dot(normal) >= 0.0
    ensures RaySurface(ray, normal, pointOnSurface).Some? ==>
      VectorBetweenTwoPoints(pointOnSurface, RaySurface(ray, normal, pointOnSurface).value).Dot(normal) == 0.0
  {
    var vn := ray.v.Dot(normal);
    if vn < 0.0 {
      var w := VectorBetweenTwoPoints(ray.p, pointOnSurface);
      var t := w.Dot(normal) / vn;
      var P := PointAt(ray, t);
      assert VectorBetweenTwoPoints(pointOnSurface, P) == ray.v.Scaled(t).Minus(w);
      DotMinusLeft(ray.v.Scaled(t), w, normal);
      DotScaledLeft(ray.v, t, normal);
      QuotientTimesDivisor(w.Dot(normal), vn);
    }
  }

  /** The sign of t is not checked: a plane behind the origin is still hit,
      here at t = -1. */
  lemma RaySurfaceBehindOrigin()
    ensures RaySurface(RayState(ORIGIN, Triple(0.0, 0.0, -1.0)), Triple(0.0, 0.0, 1.0), Triple(0.0, 0.0, 1.0))
      == Some(PointAt(RayState(ORIGIN, Triple(0.0, 0.0, -1.0)), -1.0))
  {
  }

  // ------------------------------------------------------------------ disc

  /** `rayDiscIntersection(ray, disc)`: the plane point through the disc's
      centre with its normal (`getNormalAtPoint(null)` is the stored normal),
      kept when within the radius of the centre. */
  function RayDisc(ray: RayState, s: Surface): Option<Triple>
    requires s.Disc?
  {
    match RaySurface(ray, s.normal, s.center)
    case None => None
    case Some(P) => if Distance(P, s.center) <= s.radius then Some(P) else None
  }

  lemma RayDiscOutcome(ray: RayState, s: Surface, P: Triple)
    requires s.Disc?
    ensures RayDisc(ray, s) == Some(P) <==> RaySurface(ray, s.normal, s.center) == Some(P) && Distance(P, s.center) <= s.radius
    ensures RaySurface(ray, s.normal, s.center).None? ==> RayDisc(ray, s).None?
  {
  }

  // ------------------------------------------------------------------ poly

  /** Whether edge i, from vertex i to vertex (i + 1) mod n, rejects the
      point: the point lies on the wrong side of the pyramid face through the
      ray's origin and that edge. */
  predicate EdgeRejects(o: Triple, P: Triple, p: seq<Triple>, i: nat)
    requires i < |p|
  {
    var v1 := VectorBetweenTwoPoints(o, p[i]);
    var v2 := VectorBetweenTwoPoints(o, p[(i + 1) % |p|]);
    VectorBetweenTwoPoints(o, P).Dot(v2.Cross(v1)) < 0.0
  }

  /** The loop of `rayPolyIntersection` from edge i on: true when no edge
      from i rejects the point. */
  predicate EdgesPassFrom(o: Triple, P: Triple, p: seq<Triple>, i: nat)
    requires i <= |p|
    decreases |p| - i
  {
    i == |p| || (!EdgeRejects(o, P, p, i) && EdgesPassFrom(o, P, p, i + 1))
  }

  /** The early-exit loop accepts exactly when no edge rejects. */
  lemma {:induction false} EdgesPassFromAll(o: Triple, P: Triple, p: seq<Triple>, i: nat)
    requires i <= |p|
    ensures EdgesPassFrom(o, P, p, i) <==> forall j :: i <= j < |p| ==> !EdgeRejects(o, P, p, j)
    decreases |p| - i
  {
    if i < |p| {
      EdgesPassFromAll(o, P, p, i + 1);
    }
  }

  /** `rayPolyIntersection(ray, poly)`: the polygon's normal (which throws
      when the first edges are parallel), the plane point through vertex 0,
      then the edge test. */
  function RayPoly(ray: RayState, s: Surface): Result<Option<Triple>>
    requires s.Poly? && s.Valid()
  {
    match GetNormalAtPoint(s, ORIGIN)
    case Failure(e) => Failure(e)
    case Success(n) =>
      match RaySurface(ray, n, s.p[0])
      case None => Success(None)
      case Some(P) => if EdgesPassFrom(ray.p, P, s.p, 0) then Success(Some(P)) else Success(None)
  }

  /** The polygon test throws exactly when its normal does; otherwise it
      answers the plane point when no edge (including the closing edge from
      the last vertex back to vertex 0) rejects it. */
  lemma RayPolyOutcome(ray: RayState, s: Surface, P: Triple)
    requires s.Poly? && s.Valid()
    ensures RayPoly(ray, s).Failure? <==> GetNormalAtPoint(s, ORIGIN).Failure?
    ensures RayPoly(ray, s).Failure? ==> RayPoly(ray, s).error == GetNormalAtPoint(s, ORIGIN).error
    ensures RayPoly(ray, s) == Success(Some(P)) <==>
      GetNormalAtPoint(s, ORIGIN).Success? &&
      RaySurface(ray, GetNormalAtPoint(s, ORIGIN).value, s.p[0]) == Some(P) &&
      forall j :: 0 <= j < |s.p| ==> !EdgeRejects(ray.p, P, s.p, j)
  {
    EdgesPassFromAll(ray.p, P, s.p, 0);
  }

  /** The closing edge pairs the last vertex with vertex 0. */
  lemma ClosingEdge(o: Triple, P: Triple, p: seq<Triple>)
    requires |p| >= 1
    ensures EdgeRejects(o, P, p, |p| - 1) <==>
      VectorBetweenTwoPoints(o, P).Dot(VectorBetweenTwoPoints(o, p[0]).Cross(VectorBetweenTwoPoints(o, p[|p| - 1]))) < 0.0
  {
  }
}
