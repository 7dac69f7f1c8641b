/** The colour computation of `Scene.calcColor` and its helpers, as
    functions of the scene's contents; the scene's methods are proved
    against them.

    A few members the scene calls are defined in no file of the program:
    `Light.vectorToMe`, `Light.distanceToMe` and the surface coefficient
    getters. They enter as an `Oracle`, a record of functions the caller
    supplies, so every statement here holds whatever they return. */
module Shading {
  import opened Results
  import opened Vectors
  import opened Points
  import opened Colors
  import opened Surfaces
  import opened Lights
  import opened Rays
  import opened Intersection
  import opened NearestHit
  import RealMath

  /** The undefined members the scene calls. */
  datatype Oracle = Oracle(
    vectorToMe: (Light, Triple) -> Triple,
    distanceToMe: (Light, Triple) -> real,
    emission: Surface -> Triple,
    ambient: Surface -> Triple,
    diffuse: Surface -> Triple,
    specular: Surface -> Triple,
    shininess: Surface -> real,
    reflectance: Surface -> real)

  /** What `calcColor` reads of the scene. */
  datatype World = World(surfaces: seq<Surface>, lights: seq<Light>, bgColor: Triple, ambientLight: Triple, maxRecLvl: int)

  /** The exceptions rendering can raise: `normalize` of a zero vector and a
      zero attenuation divisor. */
  predicate RenderError(e: Error) {
    e == ArithmeticException(DIVIDED_BY_ZERO) || e == NotFinite
  }

  /** `calcEmissionColor`. */
  function EmissionColor(o: Oracle, hit: Hit): Triple {
    o.emission(hit.surface)
  }

  /** `calcAmbientColor`: the ambient coefficient times the scene's ambient
      light, channel by channel. */
  function AmbientColor(o: Oracle, w: World, hit: Hit): Triple {
    o.ambient(hit.surface).PairScaled(w.ambientLight)
  }

  /** The normalised direction from the hit point to the light. */
  function ToLight(o: Oracle, light: Light, point: Triple): Result<Triple> {
    o.vectorToMe(light, point).Normalized()
  }

  /** `calcDiffuseColor`: KD * (max(0, N.L) IL), with N the normal at the
      point and L the normalised direction to the light. Throws what
      `getNormalAtPoint`, `normalize` and `getIntensityAtPoint` throw, in
      that order. */
  function DiffuseColor(o: Oracle, hit: Hit, light: Light): Result<Triple>
    requires hit.surface.Valid()
  {
    match GetNormalAtPoint(hit.surface, hit.point)
    case Failure(e) => Failure(e)
    case Success(n) =>
      match ToLight(o, light, hit.point)
      case Failure(e) => Failure(e)
      case Success(l) =>
        match IntensityAtPoint(light, hit.point)
        case Failure(e) => Failure(e)
        case Success(il) => Success(o.diffuse(hit.surface).PairScaled(il.Scaled(RealMath.Max(0.0, n.Dot(l)))))
  }

  /** The mirror direction R of `calcSpecularColor`: L reflected about N,
      normalised. */
  function Mirror(l: Triple, n: Triple): Result<Triple> {
    l.Reflected(n).Normalized()
  }

  /** `calcSpecularColor`: KS * (max(0, V.R)^shininess IL), with V the
      ray's direction and R the mirror direction of L. Throws what
      `getNormalAtPoint`, the two `normalize` calls and
      `getIntensityAtPoint` throw, in source order. */
  function SpecularColor(o: Oracle, hit: Hit, light: Light, ray: RayState): Result<Triple>
    requires hit.surface.Valid()
  {
    match GetNormalAtPoint(hit.surface, hit.point)
    case Failure(e) => Failure(e)
    case Success(n) =>
      match ToLight(o, light, hit.point)
      case Failure(e) => Failure(e)
      case Success(l) =>
        match IntensityAtPoint(light, hit.point)
        case Failure(e) => Failure(e)
        case Success(il) =>
          match Mirror(l, n)
          case Failure(e) => Failure(e)
          case Success(r) =>
            var power := RealMath.Pow(RealMath.Max(0.0, ray.v.Dot(r)), o.shininess(hit.surface));
            Success(o.specular(hit.surface).PairScaled(il.Scaled(power)))
  }

  /** The shadow test: a directional light never casts a shadow; for any other
      light a ray from the point towards the light is traced, and the point
      is in shadow when it hits something farther than TOLERANCE and more
      than TOLERANCE nearer than the light. */
  function Occluded(o: Oracle, w: World, hit: Hit, light: Light): Result<bool>
    requires AllValid(w.surfaces)
  {
    if light.DirLight? then Success(false)
    else
      match ToLight(o, light, hit.point)
      case Failure(e) => Failure(e)
      case Success(u) =>
        match FindIntersection(w.surfaces, RayState(hit.point, u))
        case Failure(e) => Failure(e)
        case Success(None) => Success(false)
        case Success(Some(h)) => Success(h.distance > TOLERANCE && o.distanceToMe(light, hit.point) > h.distance + TOLERANCE)
  }

  /** One pass of the lights loop: an unshadowed light adds its diffuse and
      then its specular term. */
  function ShadeLight(o: Oracle, w: World, hit: Hit, ray: RayState, light: Light, color: Triple): Result<Triple>
    requires AllValid(w.surfaces) && hit.surface.Valid()
  {
    match Occluded(o, w, hit, light)
    case Failure(e) => Failure(e)
    case Success(true) => Success(color)
    case Success(false) =>
      match DiffuseColor(o, hit, light)
      case Failure(e) => Failure(e)
      case Success(d) =>
        match SpecularColor(o, hit, light, ray)
        case Failure(e) => Failure(e)
        case Success(s) => Success(color.Plus(d).Plus(s))
  }

  /** The lights loop from light i on, starting from `color`. */
  function LightsFrom(o: Oracle, w: World, hit: Hit, ray: RayState, i: nat, color: Triple): Result<Triple>
    requires AllValid(w.surfaces) && hit.surface.Valid() && i <= |w.lights|
    decreases |w.lights| - i
  {
    if i == |w.lights| then Success(color)
    else
      match ShadeLight(o, w, hit, ray, w.lights[i], color)
      case Failure(e) => Failure(e)
      case Success(c) => LightsFrom(o, w, hit, ray, i + 1, c)
  }

  /** `calcColor(ray, level, x, y)` without a background texture. Black at
      the maximum level, the background colour on a miss, and the colour of
      the nearest hit otherwise. */
  function Shade(o: Oracle, w: World, ray: RayState, level: int): Result<Triple>
    requires AllValid(w.surfaces) && level <= w.maxRecLvl
    decreases w.maxRecLvl - level, 1
  {
    if level == w.maxRecLvl then Success(ZERO)
    else
      match FindIntersection(w.surfaces, ray)
      case Failure(e) => Failure(e)
      case Success(None) => Success(w.bgColor)
      case Success(Some(hit)) => HitColor(o, w, ray, level, hit)
  }

  /** The reflection ray of `calcColor`: from the hit point along the
      ray's direction mirrored about the normal there, normalised by the
      `Ray` constructor. */
  function ReflectionRay(hit: Hit, ray: RayState): Result<RayState>
    requires hit.surface.Valid()
  {
    match GetNormalAtPoint(hit.surface, hit.point)
    case Failure(e) => Failure(e)
    case Success(n) =>
      match Mirror(ray.v, n)
      case Failure(e) => Failure(e)
      case Success(rv) => Success(RayState(hit.point, rv))
  }

  /** The colour `calcColor` gives a hit: emission + ambient + the
      unshadowed lights' terms + reflectance times the colour along the
      reflection ray one level deeper, each channel capped at 1. */
  /** The emission and ambient terms the lights are added to. */
  function BaseColor(o: Oracle, w: World, hit: Hit): Triple {
    ZERO.Plus(EmissionColor(o, hit)).Plus(AmbientColor(o, w, hit))
  }

  function HitColor(o: Oracle, w: World, ray: RayState, level: int, hit: Hit): Result<Triple>
    requires AllValid(w.surfaces) && hit.surface.Valid() && level < w.maxRecLvl
    decreases w.maxRecLvl - level, 0
  {
    match LightsFrom(o, w, hit, ray, 0, BaseColor(o, w, hit))
    case Failure(e) => Failure(e)
    case Success(c) =>
      match ReflectionRay(hit, ray)
      case Failure(e) => Failure(e)
      case Success(reflectionRay) =>
        match Shade(o, w, reflectionRay, level + 1)
        case Failure(e) => Failure(e)
        case Success(rc) => Success(CapAtOne(c.Plus(rc.Scaled(o.reflectance(hit.surface)))))
  }

  // ------------------------------------------------------------ properties

  /** At the maximum level the colour is black before any intersection
      test; below it, a ray that hits nothing gets the background colour. */
  lemma ShadeStops(o: Oracle, w: World, ray: RayState, level: int)
    requires AllValid(w.surfaces) && level <= w.maxRecLvl
    ensures level == w.maxRecLvl ==> Shade(o, w, ray, level) == Success(ZERO)
    ensures level < w.maxRecLvl && FindIntersection(w.surfaces, ray) == Success(None) ==>
      Shade(o, w, ray, level) == Success(w.bgColor)
    ensures level < w.maxRecLvl && FindIntersection(w.surfaces, ray).Failure? ==>
      Shade(o, w, ray, level) == Failure(FindIntersection(w.surfaces, ray).error)
  {
  }

  /** Every channel of a colour given to a hit is at most 1. */
  lemma HitColorAtMostOne(o: Oracle, w: World, ray: RayState, level: int, hit: Hit)
    requires AllValid(w.surfaces) && hit.surface.Valid() && level < w.maxRecLvl
    ensures HitColor(o, w, ray, level, hit).Success? ==> AtMostOne(HitColor(o, w, ray, level, hit).value)
  {
    if HitColor(o, w, ray, level, hit).Success? {
      var base := BaseColor(o, w, hit);
      var c := LightsFrom(o, w, hit, ray, 0, base).value;
      var rc := Shade(o, w, ReflectionRay(hit, ray).value, level + 1).value;
      CapAtOneBounds(c.Plus(rc.Scaled(o.reflectance(hit.surface))));
    }
  }

  /** With a background colour within bounds, every colour `calcColor`
      returns is at most 1 in every channel. */
  lemma ShadeAtMostOne(o: Oracle, w: World, ray: RayState, level: int)
    requires AllValid(w.surfaces) && level <= w.maxRecLvl
    requires AtMostOne(w.bgColor)
    ensures Shade(o, w, ray, level).Success? ==> AtMostOne(Shade(o, w, ray, level).value)
  {
    if level < w.maxRecLvl {
      var found := FindIntersection(w.surfaces, ray);
      if found.Success? && found.value.Some? {
        HitColorAtMostOne(o, w, ray, level, found.value.value);
      }
    }
  }

  // ---- the shadow test

  /** A directional light never casts a shadow. */
  lemma DirLightUnshadowed(o: Oracle, w: World, hit: Hit, light: Light)
    requires AllValid(w.surfaces) && light.DirLight?
    ensures Occluded(o, w, hit, light) == Success(false)
  {
  }

  /** A point light or spot light is hidden exactly when the shadow ray
      meets a surface whose hit point is farther than TOLERANCE from the
      point and more than TOLERANCE nearer than the light: not only the
      nearest hit decides, no hit at all lies in between otherwise. */
  lemma OccludedIffBlocker(o: Oracle, w: World, hit: Hit, light: Light)
    requires AllValid(w.surfaces) && !light.DirLight?
    requires ToLight(o, light, hit.point).Success?
    requires FindIntersection(w.surfaces, RayState(hit.point, ToLight(o, light, hit.point).value)).Success?
    ensures Occluded(o, w, hit, light).Success?
    ensures
      var shadowRay := RayState(hit.point, ToLight(o, light, hit.point).value);
      var tests := Tests(w.surfaces, shadowRay);
      Occluded(o, w, hit, light).value <==>
        exists j :: Qualifies(tests, hit.point, j) &&
          o.distanceToMe(light, hit.point) > HitOf(w.surfaces, tests, hit.point, j).distance + TOLERANCE
  {
    var shadowRay := RayState(hit.point, ToLight(o, light, hit.point).value);
    var tests := Tests(w.surfaces, shadowRay);
    var toLight := o.distanceToMe(light, hit.point);
    FindIntersectionIsNearest(w.surfaces, shadowRay);
    var found := FindIntersection(w.surfaces, shadowRay).value;
    if found.Some? {
      var h := found.value;
      var k :| NearestAt(w.surfaces, tests, hit.point, |w.surfaces|, k, h);
      if Occluded(o, w, hit, light).value {
        assert Qualifies(tests, hit.point, k) && toLight > HitOf(w.surfaces, tests, hit.point, k).distance + TOLERANCE;
      } else {
        assert toLight <= h.distance + TOLERANCE;
        forall j | Qualifies(tests, hit.point, j)
          ensures toLight <= HitOf(w.surfaces, tests, hit.point, j).distance + TOLERANCE
        {
          assert h.distance <= HitOf(w.surfaces, tests, hit.point, j).distance;
        }
      }
    }
  }

  // ---- the diffuse and specular terms

  /** A light behind the surface (N.L <= 0) adds no diffuse light. */
  lemma DiffuseFacingAway(o: Oracle, hit: Hit, light: Light)
    requires hit.surface.Valid()
    requires GetNormalAtPoint(hit.surface, hit.point).Success? && ToLight(o, light, hit.point).Success?
    requires GetNormalAtPoint(hit.surface, hit.point).value.Dot(ToLight(o, light, hit.point).value) <= 0.0
    requires IntensityAtPoint(light, hit.point).Success?
    ensures DiffuseColor(o, hit, light) == Success(ZERO)
  {
    var il := IntensityAtPoint(light, hit.point).value;
    assert il.Scaled(0.0) == ZERO;
  }

  /** No channel is negative. */
  predicate NonNegative(c: Triple) {
    c.x >= 0.0 && c.y >= 0.0 && c.z >= 0.0
  }

  /** With a non-negative coefficient and intensity the diffuse term is
      non-negative in every channel: the max(0, .) keeps a light behind the
      surface from subtracting light. */
  lemma DiffuseNonNegative(o: Oracle, hit: Hit, light: Light)
    requires hit.surface.Valid()
    requires DiffuseColor(o, hit, light).Success?
    requires NonNegative(o.diffuse(hit.surface))
    requires IntensityAtPoint(light, hit.point).Success? && NonNegative(IntensityAtPoint(light, hit.point).value)
    ensures NonNegative(DiffuseColor(o, hit, light).value)
  {
    var m := DiffuseFactor(o, hit, light);
    ProductNonNegative(o.diffuse(hit.surface), IntensityAtPoint(light, hit.point).value, m);
  }

  /** A successful diffuse term is KD * (m IL) for some m >= 0. */
  lemma DiffuseFactor(o: Oracle, hit: Hit, light: Light) returns (m: real)
    requires hit.surface.Valid()
    requires DiffuseColor(o, hit, light).Success?
    ensures IntensityAtPoint(light, hit.point).Success?
    ensures m >= 0.0
    ensures DiffuseColor(o, hit, light) == Success(o.diffuse(hit.surface).PairScaled(IntensityAtPoint(light, hit.point).value.Scaled(m)))
  {
    var n := GetNormalAtPoint(hit.surface, hit.point).value;
    var l := ToLight(o, light, hit.point).value;
    m := RealMath.Max(0.0, n.Dot(l));
  }

  lemma ProductNonNegative(k: Triple, il: Triple, m: real)
    requires NonNegative(k) && NonNegative(il) && m >= 0.0
    ensures NonNegative(k.PairScaled(il.Scaled(m)))
  {
    NonNegativeProduct(il.x, m, k.x);
    NonNegativeProduct(il.y, m, k.y);
    NonNegativeProduct(il.z, m, k.z);
  }

  lemma NonNegativeProduct(a: real, b: real, c: real)
    requires a >= 0.0 && b >= 0.0 && c >= 0.0
    ensures c * (a * b) >= 0.0
  {
  }

  /** For a unit L and a unit N, the mirror direction is L reflected about
      N itself (normalising changes nothing), it is a unit vector, and it
      makes the opposite angle with N: N.R = -(N.L). */
  lemma MirrorOfUnit(l: Triple, n: Triple)
    requires RealMath.Laws()
    requires l.LengthSquared() == 1.0 && n.LengthSquared() == 1.0
    ensures Mirror(l, n) == Success(l.Reflected(n))
    ensures l.Reflected(n).LengthSquared() == 1.0
    ensures n.Dot(l.Reflected(n)) == -n.Dot(l)
  {
    var r := l.Reflected(n);
    ReflectKeepsLength(l, n);
    ReflectFlipsNormalComponent(l, n);
    LengthSquaredZero(r);
    NormalizedIsUnit(r);
    RealMath.SqrtOfSquare(1.0);
    assert r.Length() == 1.0;
    ScaledByOne(r);
  }

  /** A mirror direction pointing away from the viewer (V.R <= 0) leaves
      pow(0, shininess): the specular term no longer depends on the
      angle. */
  lemma SpecularFacingAway(o: Oracle, hit: Hit, light: Light, ray: RayState)
    requires hit.surface.Valid()
    requires SpecularColor(o, hit, light, ray).Success?
    requires ray.v.Dot(Mirror(ToLight(o, light, hit.point).value, GetNormalAtPoint(hit.surface, hit.point).value).value) <= 0.0
    ensures SpecularColor(o, hit, light, ray) ==
      Success(o.specular(hit.surface).PairScaled(IntensityAtPoint(light, hit.point).value.Scaled(RealMath.Pow(0.0, o.shininess(hit.surface)))))
  {
  }

  // ---- the lights loop

  /** The lights loop only adds to its starting colour: starting from
      `color + d` gives the same exception, or `d` more. */
  lemma {:induction false} LightsFromShift(o: Oracle, w: World, hit: Hit, ray: RayState, i: nat, color: Triple, d: Triple)
    requires AllValid(w.surfaces) && hit.surface.Valid() && i <= |w.lights|
    ensures LightsFrom(o, w, hit, ray, i, color.Plus(d)) ==
      match LightsFrom(o, w, hit, ray, i, color)
      case Failure(e) => Failure(e)
      case Success(c) => Success(c.Plus(d))
    decreases |w.lights| - i
  {
    if i < |w.lights| {
      var light := w.lights[i];
      match ShadeLight(o, w, hit, ray, light, color)
      case Failure(e) =>
      case Success(c) =>
        var c' := ShadeLight(o, w, hit, ray, light, color.Plus(d)).value;
        assert c' == c.Plus(d);
        LightsFromShift(o, w, hit, ray, i + 1, c, d);
    }
  }

  /** An exception in the lights loop, anywhere from light i on, is one of
      the rendering exceptions. */
  lemma {:induction false} LightsFromErrors(o: Oracle, w: World, hit: Hit, ray: RayState, i: nat, color: Triple)
    requires AllValid(w.surfaces) && hit.surface.Valid() && i <= |w.lights|
    ensures LightsFrom(o, w, hit, ray, i, color).Failure? ==> RenderError(LightsFrom(o, w, hit, ray, i, color).error)
    decreases |w.lights| - i
  {
    if i < |w.lights| {
      var light := w.lights[i];
      if !light.DirLight? {
        var u := ToLight(o, light, hit.point);
        if u.Success? {
          FindIntersectionErrors(w.surfaces, RayState(hit.point, u.value));
        }
      }
      NormalErrors(hit.surface, hit.point);
      match ShadeLight(o, w, hit, ray, light, color)
      case Failure(e) =>
      case Success(c) => LightsFromErrors(o, w, hit, ray, i + 1, c);
    }
  }

  /** The normal fails only by normalising a zero vector. */
  lemma NormalErrors(s: Surface, q: Triple)
    requires s.Valid()
    ensures GetNormalAtPoint(s, q).Failure? ==> GetNormalAtPoint(s, q).error == ArithmeticException(DIVIDED_BY_ZERO)
  {
  }

  /** A surface test fails only in the polygon normal, by normalising a
      zero vector, and so does the scan. */
  lemma FindIntersectionErrors(ss: seq<Surface>, ray: RayState)
    requires AllValid(ss)
    ensures FindIntersection(ss, ray).Failure? ==> FindIntersection(ss, ray).error == ArithmeticException(DIVIDED_BY_ZERO)
  {
    FindIntersectionIsNearest(ss, ray);
    if FindIntersection(ss, ray).Failure? {
      var j :| 0 <= j < |ss| && SurfaceHit(ss[j], ray) == Failure(FindIntersection(ss, ray).error) &&
        forall k :: 0 <= k < j ==> SurfaceHit(ss[k], ray).Success?;
      SurfaceHitDispatch(ss[j], ray);
      RayPolyErrors(ray, ss[j]);
    }
  }

  lemma RayPolyErrors(ray: RayState, s: Surface)
    requires s.Poly? && s.Valid()
    ensures RayPoly(ray, s).Failure? ==> RayPoly(ray, s).error == ArithmeticException(DIVIDED_BY_ZERO)
  {
    NormalErrors(s, ORIGIN);
  }

  /** `calcColor` throws nothing but the rendering exceptions, at any depth
      of the reflection recursion. */
  lemma {:induction false} ShadeErrors(o: Oracle, w: World, ray: RayState, level: int)
    requires AllValid(w.surfaces) && level <= w.maxRecLvl
    ensures Shade(o, w, ray, level).Failure? ==> RenderError(Shade(o, w, ray, level).error)
    decreases w.maxRecLvl - level, 1
  {
    if level < w.maxRecLvl {
      FindIntersectionErrors(w.surfaces, ray);
      var found := FindIntersection(w.surfaces, ray);
      if found.Success? && found.value.Some? {
        HitColorErrors(o, w, ray, level, found.value.value);
      }
    }
  }

  /** The colour of a hit throws nothing but the rendering exceptions. */
  lemma {:induction false} HitColorErrors(o: Oracle, w: World, ray: RayState, level: int, hit: Hit)
    requires AllValid(w.surfaces) && hit.surface.Valid() && level < w.maxRecLvl
    ensures HitColor(o, w, ray, level, hit).Failure? ==> RenderError(HitColor(o, w, ray, level, hit).error)
    decreases w.maxRecLvl - level, 0
  {
    var base := BaseColor(o, w, hit);
    var lit := LightsFrom(o, w, hit, ray, 0, base);
    if lit.Failure? {
      LightsFromErrors(o, w, hit, ray, 0, base);
      assert HitColor(o, w, ray, level, hit) == Failure(lit.error);
      return;
    }
    var reflectionRay := ReflectionRay(hit, ray);
    if reflectionRay.Failure? {
      NormalErrors(hit.surface, hit.point);
      assert HitColor(o, w, ray, level, hit) == Failure(reflectionRay.error);
      return;
    }
    var rc := Shade(o, w, reflectionRay.value, level + 1);
    ShadeErrors(o, w, reflectionRay.value, level + 1);
    if rc.Failure? {
      assert HitColor(o, w, ray, level, hit) == Failure(rc.error);
    }
  }

  /** On a hit below the maximum level the colour is, before capping, the
      emission plus the ambient term plus what the lights loop adds from
      black plus the reflectance times the reflected colour; the first
      exception among these is the result otherwise. */
  lemma ShadeOnHit(o: Oracle, w: World, ray: RayState, level: int)
    requires AllValid(w.surfaces) && level < w.maxRecLvl
    requires FindIntersection(w.surfaces, ray).Success? && FindIntersection(w.surfaces, ray).value.Some?
    requires
      var hit := FindIntersection(w.surfaces, ray).value.value;
      LightsFrom(o, w, hit, ray, 0, ZERO).Success? && ReflectionRay(hit, ray).Success?
    ensures
      var hit := FindIntersection(w.surfaces, ray).value.value;
      var lit := LightsFrom(o, w, hit, ray, 0, ZERO).value;
      var reflected := Shade(o, w, ReflectionRay(hit, ray).value, level + 1);
      (reflected.Failure? ==> Shade(o, w, ray, level) == reflected) &&
      (reflected.Success? ==>
        Shade(o, w, ray, level) ==
          Success(CapAtOne(EmissionColor(o, hit).Plus(AmbientColor(o, w, hit)).Plus(lit).Plus(reflected.value.Scaled(o.reflectance(hit.surface))))))
  {
    var hit := FindIntersection(w.surfaces, ray).value.value;
    var e := EmissionColor(o, hit);
    var a := AmbientColor(o, w, hit);
    var base := BaseColor(o, w, hit);
    assert base == ZERO.Plus(e).Plus(a);
    assert ZERO.Plus(base) == base;
    LightsFromShift(o, w, hit, ray, 0, ZERO, base);
    var lit := LightsFrom(o, w, hit, ray, 0, ZERO).value;
    assert Shade(o, w, ray, level) == HitColor(o, w, ray, level, hit);
    assert LightsFrom(o, w, hit, ray, 0, base) == Success(lit.Plus(base));
    assert lit.Plus(base) == e.Plus(a).Plus(lit);
  }

  /** With the laws of sqrt, a unit ray direction and a unit normal, the
      reflection ray starts at the hit point along the mirrored direction
      itself, a unit vector making the opposite angle with the normal. */
  lemma ReflectionRayOfUnit(hit: Hit, ray: RayState)
    requires RealMath.Laws() && hit.surface.Valid()
    requires GetNormalAtPoint(hit.surface, hit.point).Success?
    requires ray.v.LengthSquared() == 1.0 && GetNormalAtPoint(hit.surface, hit.point).value.LengthSquared() == 1.0
    ensures
      var n := GetNormalAtPoint(hit.surface, hit.point).value;
      ReflectionRay(hit, ray) == Success(RayState(hit.point, ray.v.Reflected(n))) &&
      ray.v.Reflected(n).LengthSquared() == 1.0 && n.Dot(ray.v.Reflected(n)) == -n.Dot(ray.v)
  {
    MirrorOfUnit(ray.v, GetNormalAtPoint(hit.surface, hit.point).value);
  }
}
