/** `Scene.java`: the scene's settings, its camera, and the lists of
    surfaces and lights, with the ray queries of the renderer. */
module Scenes {
  import opened Results
  import opened Vectors
  import opened Points
  import opened Attributes
  import opened Strings
  import opened Surfaces
  import opened Lights
  import opened Rays
  import opened Intersection
  import opened Cameras
  import NearestHit
  import Colors
  import Shading
  import RealMath

  /** The light `addObjectByName` builds for a light name: a directional
      light, a point light, and a spot light for the remaining name. */
  function NewLight(name: string, attrs: Attrs): Result<Light> {
    var lower := ToLower(name);
    if lower == "dir-light" then NewDirLight(attrs)
    else if lower == "omni-light" then NewOmniLight(attrs)
    else NewSpotLight(attrs)
  }

  /** The surface `addObjectByName` builds for a non-light name: a sphere, a
      disc, and a polygon for every other name. */
  ghost function NewSurface(name: string, attrs: Attrs): Result<Surface> {
    var lower := ToLower(name);
    if lower == "sphere" then NewSphere(attrs)
    else if lower == "disc" then NewDisc(attrs)
    else PolyOf(attrs)
  }

  /** The kind of object comes from the lower-cased name alone, and every
      surface built is well formed. */
  lemma NewObjectKinds(name: string, attrs: Attrs)
    ensures IsLight(name) && NewLight(name, attrs).Success? ==>
      var l := NewLight(name, attrs).value;
      (l.DirLight? <==> ToLower(name) == "dir-light") &&
      (l.OmniLight? <==> ToLower(name) == "omni-light") &&
      (l.SpotLight? <==> ToLower(name) == "spot-light")
    ensures NewSurface(name, attrs).Success? ==>
      var s := NewSurface(name, attrs).value;
      s.Valid() &&
      (s.Sphere? <==> ToLower(name) == "sphere") &&
      (s.Disc? <==> ToLower(name) == "disc") &&
      (s.Poly? <==> ToLower(name) != "sphere" && ToLower(name) != "disc")
  {
    NewSphereOutcome(attrs);
    PolyOfOutcome(attrs);
  }

  /** The best hit the three loop variables of `findIntersection` describe;
      `minObject` is null until the first hit. */
  function Best(minObject: Option<Surface>, minPoint: Triple, minDistance: real): Option<Hit> {
    if minObject.None? then None else Some(Hit(minObject.value, minPoint, minDistance))
  }

  class Scene {
    var bgColor: Triple
    var bgTexturePath: Option<string>
    var maxRecLvl: int
    var ambientLight: Triple
    var scenePath: string
    var canvasWidth: int
    var canvasHeight: int
    var surfaces: seq<Surface>
    var lights: seq<Light>
    var camera: Camera

    /** Every surface came out of its constructor. */
    predicate Valid()
      reads this
    {
      NearestHit.AllValid(surfaces)
    }

    /** What the colour computation reads. */
    function World(): Shading.World
      reads this
    {
      Shading.World(surfaces, lights, bgColor, ambientLight, maxRecLvl)
    }

    /** `Scene(canvasWidth, canvasHeight, path)`: no surfaces, no lights and
        an empty camera. The settings `init` assigns are null in Java until
        then; here they start black, absent and 0. */
    constructor (canvasWidth: int, canvasHeight: int, path: string)
      ensures this.canvasWidth == canvasWidth && this.canvasHeight == canvasHeight && scenePath == path
      ensures surfaces == [] && lights == [] && fresh(camera)
      ensures Valid()
    {
      this.canvasWidth, this.canvasHeight, scenePath := canvasWidth, canvasHeight, path;
      surfaces, lights := [], [];
      camera := new Camera.Empty();
      bgColor, bgTexturePath, maxRecLvl, ambientLight := ZERO, None, 0, ZERO;
    }

    /** `init(attributes)`: black background, no texture, recursion depth 10
        and no ambient light unless the attributes say otherwise; nothing
        else changes. */
    method Init(attrs: Attrs)
      modifies this
      ensures bgColor == TripleOr(attrs, "background-col", ZERO)
      ensures "background-tex" in attrs ==> bgTexturePath == Some(attrs["background-tex"].text)
      ensures "background-tex" !in attrs ==> bgTexturePath == None
      ensures maxRecLvl == IntegerOr(attrs, "max-recursion-level", 10)
      ensures ambientLight == TripleOr(attrs, "ambient-light", ZERO)
      ensures surfaces == old(surfaces) && lights == old(lights) && camera == old(camera)
      ensures scenePath == old(scenePath) && canvasWidth == old(canvasWidth) && canvasHeight == old(canvasHeight)
    {
      if "background-col" in attrs {
        bgColor := attrs["background-col"].triple;
      } else {
        bgColor := ZERO;
      }
      if "background-tex" in attrs {
        bgTexturePath := Some(attrs["background-tex"].text);
      } else {
        bgTexturePath := None;
      }
      if "max-recursion-level" in attrs {
        maxRecLvl := attrs["max-recursion-level"].integer;
      } else {
        maxRecLvl := 10;
      }
      if "ambient-light" in attrs {
        ambientLight := attrs["ambient-light"].triple;
      } else {
        ambientLight := ZERO;
      }
    }

    /** `findIntersection(ray)`: the loop over the surfaces keeps the
        nearest qualifying hit so far. */
    method FindIntersection(ray: Ray) returns (r: Result<Option<Hit>>)
      requires Valid()
      ensures r == NearestHit.FindIntersection(surfaces, ray.State())
    {
      var state := ray.State();
      ghost var tests := NearestHit.Tests(surfaces, state);
      var minDistance := 0.0;  // +infinity while minObject is None
      var minObject: Option<Surface> := None;
      var minPoint := ORIGIN;
      var i := 0;
      while i < |surfaces|
        invariant 0 <= i <= |surfaces|
        invariant NearestHit.ScanFrom(surfaces, tests, state.p, 0, None) ==
          NearestHit.ScanFrom(surfaces, tests, state.p, i, Best(minObject, minPoint, minDistance))
      {
        var obj := surfaces[i];
        var p: Option<Triple>;
        if obj.Disc? {
          p := RayDisc(state, obj);
        } else if obj.Sphere? {
          p := RaySphere(state, obj);
        } else {
          var q := RayPoly(state, obj);
          if q.Failure? {
            assert tests[i] == Failure(q.error);
            return Failure(q.error);
          }
          p := q.value;
        }
        assert tests[i] == Success(p);
        ghost var before := Best(minObject, minPoint, minDistance);
        if p.Some? {
          var dist := Distance(state.p, p.value);
          if (minObject.None? || dist < minDistance) && dist > TOLERANCE {
            minDistance, minObject, minPoint := dist, Some(obj), p.value;
          }
        }
        assert Best(minObject, minPoint, minDistance) == NearestHit.Next(surfaces, tests, state.p, i, before);
        NearestHit.ScanStep(surfaces, tests, state.p, i, before);
        i := i + 1;
      }
      if minObject.None? {
        return Success(None);
      }
      return Success(Some(Hit(minObject.value, minPoint, minDistance)));
    }

    /** The shadow test in the lights loop of `calcColor`. */
    method Occlusion(o: Shading.Oracle, hit: Hit, light: Light) returns (r: Result<bool>)
      requires Valid()
      ensures r == Shading.Occluded(o, World(), hit, light)
    {
      if light.DirLight? {
        return Success(false);
      }
      var v := o.vectorToMe(light, hit.point);
      var fromIntersectionToLightSource := new Vec.Of(v.x, v.y, v.z);
      var shadowRay := Ray.Create(hit.point, fromIntersectionToLightSource);
      if shadowRay.Failure? {
        return Failure(shadowRay.error);
      }
      var lightIntersection := FindIntersection(shadowRay.value);
      if lightIntersection.Failure? {
        return Failure(lightIntersection.error);
      }
      if lightIntersection.value.None? {
        return Success(false);
      }
      var distanceToLightSource := o.distanceToMe(light, hit.point);
      var distanceToObject := lightIntersection.value.value.distance;
      return Success(distanceToObject > TOLERANCE && distanceToLightSource > distanceToObject + TOLERANCE);
    }

    /** `calcDiffuseColor(intersection, light)`. */
    method CalcDiffuseColor(o: Shading.Oracle, hit: Hit, light: Light) returns (r: Result<Triple>)
      requires hit.surface.Valid()
      ensures r == Shading.DiffuseColor(o, hit, light)
    {
      var normal := GetNormalAtPoint(hit.surface, hit.point);
      if normal.Failure? {
        return Failure(normal.error);
      }
      var n := new Vec.Of(normal.value.x, normal.value.y, normal.value.z);
      var v := o.vectorToMe(light, hit.point);
      var l := new Vec.Of(v.x, v.y, v.z);
      var normalized := l.Normalize();
      if normalized.Fail? {
        return Failure(normalized.error);
      }
      var intensity := IntensityAtPoint(light, hit.point);
      if intensity.Failure? {
        return Failure(intensity.error);
      }
      var il := new Vec.Of(intensity.value.x, intensity.value.y, intensity.value.z);
      var dotProduct := RealMath.Max(0.0, n.DotProd(l));
      var c := o.diffuse(hit.surface);
      var kd := new Vec.Of(c.x, c.y, c.z);
      var scaled := Vec.Product(dotProduct, il);
      var id := Vec.PairProduct(kd, scaled);
      return Success(id.Value());
    }

    /** `calcSpecularColor(intersection, light, ray)`. */
    method CalcSpecularColor(o: Shading.Oracle, hit: Hit, light: Light, ray: Ray) returns (r: Result<Triple>)
      requires hit.surface.Valid()
      ensures r == Shading.SpecularColor(o, hit, light, ray.State())
    {
      var normal := GetNormalAtPoint(hit.surface, hit.point);
      if normal.Failure? {
        return Failure(normal.error);
      }
      var n := new Vec.Of(normal.value.x, normal.value.y, normal.value.z);
      var v := o.vectorToMe(light, hit.point);
      var l := new Vec.Of(v.x, v.y, v.z);
      var normalized := l.Normalize();
      if normalized.Fail? {
        return Failure(normalized.error);
      }
      var intensity := IntensityAtPoint(light, hit.point);
      if intensity.Failure? {
        return Failure(intensity.error);
      }
      var il := new Vec.Of(intensity.value.x, intensity.value.y, intensity.value.z);
      var mirror := l.Reflect(n);
      normalized := mirror.Normalize();
      if normalized.Fail? {
        return Failure(normalized.error);
      }
      var dotProduct := RealMath.Max(0.0, ray.v.DotProd(mirror));
      var dotProductN := RealMath.Pow(dotProduct, o.shininess(hit.surface));
      var c := o.specular(hit.surface);
      var ks := new Vec.Of(c.x, c.y, c.z);
      var scaled := Vec.Product(dotProductN, il);
      var specular := Vec.PairProduct(ks, scaled);
      return Success(specular.Value());
    }

    /** `calcColor(ray, level, x, y)` without a background texture (x and y
        only index the texture). Nothing that exists before the call
        changes. */
    method CalcColor(o: Shading.Oracle, ray: Ray, level: int, x: int, y: int) returns (r: Result<Triple>)
      requires Valid() && level <= maxRecLvl
      ensures r == Shading.Shade(o, World(), ray.State(), level)
      decreases maxRecLvl - level, 2
    {
      if level == maxRecLvl {
        var black := new Vec();
        return Success(black.Value());
      }
      var intersection := FindIntersection(ray);
      if intersection.Failure? {
        return Failure(intersection.error);
      }
      if intersection.value.None? {
        return Success(bgColor);
      }
      r := ColorAtHit(o, ray, level, intersection.value.value, x, y);
    }

    /** The part of `calcColor` after a hit was found. */
    method ColorAtHit(o: Shading.Oracle, ray: Ray, level: int, hit: Hit, x: int, y: int) returns (r: Result<Triple>)
      requires Valid() && hit.surface.Valid() && level < maxRecLvl
      ensures r == Shading.HitColor(o, World(), ray.State(), level, hit)
      decreases maxRecLvl - level, 1
    {
      var direct := DirectColor(o, hit, ray);
      if direct.Failure? {
        return Failure(direct.error);
      }
      var color := direct.value;
      var reflectionColor := ReflectedColor(o, ray, level, hit, x, y);
      if reflectionColor.Failure? {
        return Failure(reflectionColor.error);
      }
      var ks := o.reflectance(hit.surface);
      var rc := new Vec.Of(reflectionColor.value.x, reflectionColor.value.y, reflectionColor.value.z);
      var scaled := Vec.Product(ks, rc);
      color.Add(scaled);
      Clamp(color);
      return Success(color.Value());
    }

    /** The reflection step of `calcColor`: the colour seen along the
        reflection ray one level deeper. */
    method ReflectedColor(o: Shading.Oracle, ray: Ray, level: int, hit: Hit, x: int, y: int) returns (r: Result<Triple>)
      requires Valid() && hit.surface.Valid() && level < maxRecLvl
      ensures match Shading.ReflectionRay(hit, ray.State())
        case Success(reflectionRay) => r == Shading.Shade(o, World(), reflectionRay, level + 1)
        case Failure(e) => r == Failure(e)
      decreases maxRecLvl - level, 0
    {
      var reflectionRay := CastReflection(hit, ray);
      if reflectionRay.Failure? {
        return Failure(reflectionRay.error);
      }
      r := CalcColor(o, reflectionRay.value, level + 1, x, y);
    }

    /** The emission, ambient and light terms of `calcColor`, summed into a
        fresh colour vector. */
    method DirectColor(o: Shading.Oracle, hit: Hit, ray: Ray) returns (r: Result<Vec>)
      requires Valid() && hit.surface.Valid()
      ensures match Shading.LightsFrom(o, World(), hit, ray.State(), 0, Shading.BaseColor(o, World(), hit))
        case Success(c) => r.Success? && fresh(r.value) && r.value.Value() == c
        case Failure(e) => r == Failure(e)
    {
      var color := new Vec();
      var emission := Shading.EmissionColor(o, hit);
      var term := new Vec.Of(emission.x, emission.y, emission.z);
      color.Add(term);
      var ambient := Shading.AmbientColor(o, World(), hit);
      term := new Vec.Of(ambient.x, ambient.y, ambient.z);
      color.Add(term);
      var lit := AddLights(o, hit, ray, color);
      if lit.Fail? {
        return Failure(lit.error);
      }
      return Success(color);
    }

    /** The clamp at the end of `calcColor`: every channel above 1 becomes 1. */
    static method Clamp(color: Vec)
      modifies color
      ensures color.Value() == Colors.CapAtOne(old(color.Value()))
    {
      if color.x > 1.0 {
        color.x := 1.0;
      }
      if color.y > 1.0 {
        color.y := 1.0;
      }
      if color.z > 1.0 {
        color.z := 1.0;
      }
    }

    /** The reflection ray of `calcColor`: a fresh ray from the hit point
        along `ray.v.reflect(normal)`, which the `Ray` constructor
        normalises in place. */
    method CastReflection(hit: Hit, ray: Ray) returns (r: Result<Ray>)
      requires hit.surface.Valid()
      ensures match Shading.ReflectionRay(hit, ray.State())
        case Success(reflectionRay) => r.Success? && fresh(r.value) && r.value.State() == reflectionRay
        case Failure(e) => r == Failure(e)
    {
      var normal := GetNormalAtPoint(hit.surface, hit.point);
      if normal.Failure? {
        return Failure(normal.error);
      }
      var n := new Vec.Of(normal.value.x, normal.value.y, normal.value.z);
      var reflected := ray.v.Reflect(n);
      r := Ray.Create(hit.point, reflected);
    }

    /** The lights loop of `calcColor`: every light in list order adds its
        terms to `color`, and an exception ends the loop. Only `color`
        changes. */
    method AddLights(o: Shading.Oracle, hit: Hit, ray: Ray, color: Vec) returns (r: Outcome)
      requires Valid() && hit.surface.Valid() && color != ray.v
      modifies color
      ensures match Shading.LightsFrom(o, World(), hit, ray.State(), 0, old(color.Value()))
        case Success(c) => r == Pass && color.Value() == c
        case Failure(e) => r == Fail(e)
    {
      ghost var state := ray.State();
      ghost var base := color.Value();
      var i := 0;
      while i < |lights|
        invariant 0 <= i <= |lights|
        invariant Shading.LightsFrom(o, World(), hit, state, 0, base) ==
          Shading.LightsFrom(o, World(), hit, state, i, color.Value())
      {
        var outcome := AddLight(o, hit, lights[i], ray, color);
        if outcome.Fail? {
          return outcome;
        }
        i := i + 1;
      }
      r := Pass;
    }

    /** One pass of the lights loop: the shadow test, then the diffuse and
        the specular term of an unshadowed light added to `color`. */
    method AddLight(o: Shading.Oracle, hit: Hit, light: Light, ray: Ray, color: Vec) returns (r: Outcome)
      requires Valid() && hit.surface.Valid() && color != ray.v
      modifies color
      ensures match Shading.ShadeLight(o, World(), hit, ray.State(), light, old(color.Value()))
        case Success(c) => r == Pass && color.Value() == c
        case Failure(e) => r == Fail(e)
    {
      var occluded := Occlusion(o, hit, light);
      if occluded.Failure? {
        return Fail(occluded.error);
      }
      if !occluded.value {
        var diffuse := CalcDiffuseColor(o, hit, light);
        if diffuse.Failure? {
          return Fail(diffuse.error);
        }
        var term := new Vec.Of(diffuse.value.x, diffuse.value.y, diffuse.value.z);
        color.Add(term);
        var specular := CalcSpecularColor(o, hit, light, ray);
        if specular.Failure? {
          return Fail(specular.error);
        }
        term := new Vec.Of(specular.value.x, specular.value.y, specular.value.z);
        color.Add(term);
      }
      r := Pass;
    }

    /** `addObjectByName(name, attributes)`: lower-cases the name and
        appends exactly one new object to exactly one of the two lists, or
        throws the constructor's exception and changes nothing. */
    method AddObjectByName(name: string, attrs: Attrs) returns (r: Outcome)
      requires Valid()
      modifies this
      ensures Valid()
      ensures IsLight(name) ==> surfaces == old(surfaces)
      ensures IsLight(name) ==>
        match NewLight(name, attrs)
        case Success(l) => r == Pass && lights == old(lights) + [l]
        case Failure(e) => r == Fail(e) && lights == old(lights)
      ensures !IsLight(name) ==> lights == old(lights)
      ensures !IsLight(name) ==>
        match NewSurface(name, attrs)
        case Success(s) => r == Pass && surfaces == old(surfaces) + [s]
        case Failure(e) => r == Fail(e) && surfaces == old(surfaces)
      ensures bgColor == old(bgColor) && bgTexturePath == old(bgTexturePath) && maxRecLvl == old(maxRecLvl)
      ensures ambientLight == old(ambientLight) && camera == old(camera)
      ensures scenePath == old(scenePath) && canvasWidth == old(canvasWidth) && canvasHeight == old(canvasHeight)
    {
      var lower := ToLower(name);
      ToLowerIdempotent(name);
      IsLightIgnoresCase(name);
      NewObjectKinds(name, attrs);
      if IsLight(lower) {
        var light: Result<Light>;
        if lower == "dir-light" {
          light := NewDirLight(attrs);
        } else if lower == "omni-light" {
          light := NewOmniLight(attrs);
        } else {
          light := NewSpotLight(attrs);
        }
        if light.Failure? {
          return Fail(light.error);
        }
        lights := lights + [light.value];
      } else {
        var surface: Result<Surface>;
        if lower == "sphere" {
          surface := NewSphere(attrs);
        } else if lower == "disc" {
          surface := NewDisc(attrs);
        } else {
          surface := NewPoly(attrs);
        }
        if surface.Failure? {
          return Fail(surface.error);
        }
        surfaces := surfaces + [surface.value];
      }
      r := Pass;
    }

    /** `setCameraAttributes(attributes)`: the camera's `init`. An exception
        leaves the camera fields assigned before the missing key. */
    method SetCameraAttributes(attrs: Attrs) returns (r: Outcome)
      modifies camera
      ensures r.Pass? <==> Camera.Complete(attrs)
      ensures r.Pass? ==> camera.Initialised(attrs)
      ensures "eye" !in attrs ==> r == Fail(IllegalArgumentException("Missing 'eye' attribute"))
      ensures "eye" in attrs && "direction" !in attrs && "look-at" !in attrs ==>
        r == Fail(IllegalArgumentException("Missing 'direction' or 'look-at' attribute"))
      ensures "eye" in attrs && ("direction" in attrs || "look-at" in attrs) && "up-direction" !in attrs ==>
        r == Fail(IllegalArgumentException("Missing 'up-direction' attribute"))
      ensures "eye" in attrs && ("direction" in attrs || "look-at" in attrs) && "up-direction" in attrs && "screen-dist" !in attrs ==>
        r == Fail(IllegalArgumentException("Missing 'screen-dist' attribute"))
      ensures camera.eye == (if "eye" in attrs then attrs["eye"].triple else old(camera.eye))
      ensures camera.towards == (if "eye" in attrs && ("direction" in attrs || "look-at" in attrs) then TowardsOf(attrs) else old(camera.towards))
      ensures "eye" in attrs && ("direction" in attrs || "look-at" in attrs) && "up-direction" in attrs ==>
        camera.right == RightOf(TowardsOf(attrs), attrs["up-direction"].triple) && camera.up == UpOf(TowardsOf(attrs), attrs["up-direction"].triple)
      ensures !("eye" in attrs && ("direction" in attrs || "look-at" in attrs) && "up-direction" in attrs) ==>
        camera.right == old(camera.right) && camera.up == old(camera.up)
      ensures camera.screenDist == (if Camera.Complete(attrs) then attrs["screen-dist"].number else old(camera.screenDist))
      ensures camera.screenWidth == (if Camera.Complete(attrs) then NumberOr(attrs, "screen-width", 2.0) else old(camera.screenWidth))
    {
      r := camera.Init(attrs);
    }

    /** `castRay(x, y, width, height)`: passes width and height to the
        camera's `height` and `width` parameters in that order, and the
        camera's stub returns null. */
    function CastRay(x: real, y: real, width: real, height: real): (r: Option<RayState>)
      reads this
      ensures r == None
    {
      camera.ConstructRayThroughPixel(x, y, width, height)
    }
  }
}
