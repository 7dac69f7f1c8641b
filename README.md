# CG_ex3_partial ray tracer, modelled in Dafny

This project models the geometric and shading engine of a small Java
Whitted-style ray tracer and proves properties of it. The model covers:

- the 3-tuple algebra of `Tuple`, `Vec`, `Point3D`, `RGB` and `Ray`;
- the ray–sphere, ray–plane, ray–disc and ray–polygon tests of `Intersection`;
- construction of the surfaces (`Surface`, `Sphere`, `Disc`, `Poly`) and of
  the lights (`Light`, `DirLight`, `OmniLight`, `SpotLight`) from their
  attribute maps, with their normals and intensities;
- the camera's towards/up/right basis;
- the scene: its settings, the nearest-hit scan, the recursive colour
  computation and the dispatch that builds an object from its name.

Doubles are `real`. `Math.sqrt` and `Math.pow` are uninterpreted constants
(`RealMath.SqrtOf`, `RealMath.PowOf`). The laws the proofs need are collected
in `RealMath.Laws()`:
- the square root of a non-negative number is its non-negative root;
- `pow(x, 2)` is `x*x`.

Lemmas that need either law take `Laws()` as a hypothesis.

## How the model is organised

- Mutable objects are classes:
  - `Vectors.Vec` carries the three public fields that `Tuple`, `Vec` and `RGB` share;
  - `Rays.Ray` holds an origin and a direction object that it shares with the caller;
  - `Cameras.Camera` has an `init` that can fail half way;
  - `Scenes.Scene` holds the settings and the two lists.
- Values that the core never changes after construction are datatypes:
  - `Vectors.Triple` for points, directions and colours;
  - `Surfaces.Surface` and `Lights.Light`, whose constructors are functions
    returning `Result` (the object, or the exception the Java constructor
    throws);
  - `Poly`, whose `init` loops and so is a method (`Surfaces.NewPoly`),
    proved equal to the function `Surfaces.PolyOf`.
- The loops of `Scene.findIntersection` and `Scene.calcColor` are methods of
  `Scenes.Scene`. Each is proved equal to a specification function:
  - `NearestHit.FindIntersection` for the scan;
  - `Shading.Shade` for the colour.

  The properties are then proved about those functions.
- Some members that the scene calls are defined in no file of the program:
  - `Light.vectorToMe` and `Light.distanceToMe`;
  - the surface coefficient getters;
  - `Point3D.addVectorToPoint`.

  The first two groups are the fields of a `Shading.Oracle` record that the
  caller passes in, so every result holds whatever they return.
  `Points.AddVectorToPointOf` is an uninterpreted constant. Lemmas that need
  it to be "point plus vector" take `Points.MovesByVector()` as a hypothesis.
- Exceptions are `Results.Error` values:
  - `ArithmeticException("DividedByZero")` from `normalize`;
  - `IllegalArgumentException` with the source's messages;
  - `NullPointerException` for a missing polygon vertex;
  - `NotFinite` for a division by a zero attenuation, where Java would yield
    an infinity or NaN.

  A `null` result is `Results.Option.None`.

The model follows the code in these places:
- `Camera.init` does not normalise towards, up or right, and does not reject
  a degenerate basis. Its up vector is towards × right.
- `constructRayThroughPixel` is a stub that returns null.
- A spot light's intensity has no max(0, ·), and its direction is not
  normalised.
- `new Ray(p, v)` normalises the caller's own vector object in place.
- A zero-length `normalize` throws `ArithmeticException`; it does not yield
  "no hit".
- `commonInit` stores the "reflectance" attribute in the shininess and never
  assigns the reflectance coefficient.

## Model

| member | source | states |
|---|---|---|
| RealMath.Max | CG_ex3_partial/src/ex3/render/raytrace/Scene.java:387 | `Math.max(0, ·)`: the result is at least both arguments and is one of them |
| Strings.ToLower | CG_ex3_partial/src/ex3/render/raytrace/Scene.java:298 | `toLowerCase` keeps the length and lower-cases every character (ASCII letters) |
| Strings.LowerChar | CG_ex3_partial/src/ex3/render/raytrace/Scene.java:298 | an upper-case ASCII letter maps to its lower-case letter (code + 32); every other character is kept |
| Strings.ToLowerIdempotent | CG_ex3_partial/src/lights/Light.java:24 | lower-casing twice equals lower-casing once |
| Strings.ToLowerOfLower | CG_ex3_partial/src/lights/Light.java:24 | a name without upper-case letters is its own lower-case form |
| Strings.DecimalString | CG_ex3_partial/src/shapes/Poly.java:80 | the decimal text of `i` in `"p" + i` is non-empty and made of digits |
| Strings.DecimalStringValue | CG_ex3_partial/src/shapes/Poly.java:80 | the decimal text of n spells n: reading its digits back gives n |
| Strings.DecimalStringInjective | CG_ex3_partial/src/shapes/Poly.java:80 | distinct numbers have distinct decimal texts |
| Vectors.Vec.constructor | CG_ex3_partial/src/math/Tuple.java:16-20 | the no-argument constructor yields (0, 0, 0) |
| Vectors.Vec.Of | CG_ex3_partial/src/math/Tuple.java:28-32 | the three-argument constructor stores x, y, z exactly as given |
| Vectors.Vec.Copy | CG_ex3_partial/src/math/Tuple.java:38-42 | the copy constructor yields a tuple that `equals` its source |
| Vectors.Vec.Equals | CG_ex3_partial/src/math/Tuple.java:49-51 | `equals` holds iff all three coordinates are equal |
| Vectors.Vec.Clone | CG_ex3_partial/src/math/Tuple.java:64-66 | `clone` returns a fresh object equal to the original |
| Vectors.ScaleClone | CG_ex3_partial/src/math/Tuple.java:64-66 | scaling a clone changes the clone and leaves the original unchanged |
| Vectors.Vec.Add | CG_ex3_partial/src/math/Vec.java:60-64 | `add(a)` adds a component-wise to this; only this changes (it is also `RGB.add`) |
| Vectors.Vec.Sub | CG_ex3_partial/src/math/Vec.java:72-76 | `sub(a)` subtracts a component-wise; only this changes |
| Vectors.AddThenSub | CG_ex3_partial/src/math/Vec.java:60-76 | `add(a)` then `sub(a)` restores the vector and leaves a unchanged; when a is the vector itself, the result is zero |
| Vectors.PlusThenMinus | CG_ex3_partial/src/math/Vec.java:60-76 | as values, adding then subtracting a is the identity |
| Vectors.Vec.Mac | CG_ex3_partial/src/math/Vec.java:86-89 | `mac(s, a)` sets this to this + s·a and leaves a scaled by s; the aliased case a == this gives 2·s·this |
| Vectors.Vec.Scale | CG_ex3_partial/src/math/Vec.java:97-101 | `scale(s)` multiplies every component by s |
| Vectors.ScaledByOne | CG_ex3_partial/src/math/Vec.java:97-101 | scaling by 1 is the identity |
| Vectors.Vec.ScaleBy | CG_ex3_partial/src/math/Vec.java:109-113 | `scale(Vec a)` multiplies component-wise by a |
| Vectors.Vec.Negate | CG_ex3_partial/src/math/Vec.java:120-122 | `negate` negates every component |
| Vectors.DotCommutes | CG_ex3_partial/src/math/Vec.java:138-151 | `dotProd` is commutative and `lengthSquared()` equals `dotProd(this)` |
| Vectors.LengthSquaredNonNegative | CG_ex3_partial/src/math/Vec.java:138-140 | the squared length is never negative |
| Vectors.LengthSquaredZero | CG_ex3_partial/src/math/Vec.java:138-140 | the squared length is zero iff the vector is zero, and positive otherwise |
| Vectors.Vec.Normalize | CG_ex3_partial/src/math/Vec.java:158-165 | `normalize` throws ArithmeticException("DividedByZero") and changes nothing when the length is 0; otherwise it divides every component by the length |
| Vectors.NormalizedFailsOnZero | CG_ex3_partial/src/math/Vec.java:158-165 | normalising fails exactly for the zero vector, with ArithmeticException("DividedByZero") |
| Vectors.NormalizedIsUnit | CG_ex3_partial/src/math/Vec.java:158-165 | a non-zero vector normalises to itself scaled by 1/length, which has length 1 |
| Vectors.NormalizedDot | CG_ex3_partial/src/math/Vec.java:158-165 | the normalised vector's dot product with a is v·a divided by the length of v |
| Vectors.Vec.Reflect | CG_ex3_partial/src/math/Vec.java:47-52 | `reflect(n)` returns a fresh v − 2(n·v)n and changes neither argument |
| Vectors.ReflectFlipsNormalComponent | CG_ex3_partial/src/math/Vec.java:47-52 | for a unit n, n·reflect(v) = −(n·v) |
| Vectors.ReflectTwice | CG_ex3_partial/src/math/Vec.java:47-52 | for a unit n, reflecting twice gives back v |
| Vectors.ReflectKeepsLength | CG_ex3_partial/src/math/Vec.java:47-52 | for a unit n, reflection keeps the squared length |
| Vectors.Vec.CrossProd | CG_ex3_partial/src/math/Vec.java:191-196 | `crossProd(a, b)` is a fresh right-handed a × b |
| Vectors.CrossOrthogonal | CG_ex3_partial/src/math/Vec.java:191-196 | a × b is orthogonal to both a and b |
| Vectors.CrossSelfZero | CG_ex3_partial/src/math/Vec.java:191-196 | a × a is zero |
| Vectors.Vec.Sum | CG_ex3_partial/src/math/Vec.java:207-211 | static `add(a, b)` is a fresh a + b; the arguments are unchanged |
| Vectors.Vec.Difference | CG_ex3_partial/src/math/Vec.java:222-226 | static `sub(a, b)` is a fresh a − b; the arguments are unchanged |
| Vectors.Vec.Negation | CG_ex3_partial/src/math/Vec.java:235-239 | static `negate(a)` is a fresh −a; a is unchanged |
| Vectors.Vec.Product | CG_ex3_partial/src/math/Vec.java:250-254 | static `scale(s, a)` is a fresh s·a; a is unchanged |
| Vectors.Vec.PairProduct | CG_ex3_partial/src/math/Vec.java:265-269 | static `scale(a, b)` is a fresh pairwise product; the arguments are unchanged |
| Points.EqualsIsEquality | CG_ex3_partial/src/math/Point3D.java:87-89 | `equals(p1, p2)` is equality of points, so it is reflexive and symmetric |
| Points.VectorToAnotherPointArrives | CG_ex3_partial/src/math/Point3D.java:57-59 | `vectorToAnotherPoint(q)` is q − p, and it carries p onto q |
| Points.VectorBetweenAntisymmetric | CG_ex3_partial/src/math/Point3D.java:77-79 | `vectorBetweenTwoPoints(a, b)` is the negation of `vectorBetweenTwoPoints(b, a)`, and zero for a == b |
| Points.DistanceRadicand | CG_ex3_partial/src/math/Point3D.java:50-55 | the sum of `pow(·, 2)` terms under the root is the squared length of the vector between the points |
| Points.DistanceIsLength | CG_ex3_partial/src/math/Point3D.java:50-59 | the distance is the length of the vector between the points, and its square is that vector's squared length |
| Points.DistanceNonNegative | CG_ex3_partial/src/math/Point3D.java:50-55 | the distance is non-negative |
| Points.DistanceSymmetric | CG_ex3_partial/src/math/Point3D.java:50-55 | `distance` is symmetric |
| Points.DistanceZero | CG_ex3_partial/src/math/Point3D.java:50-55 | the distance is zero exactly between equal points |
| Points.DistanceToItself | CG_ex3_partial/src/math/Point3D.java:50-55 | a point's distance to itself is 0 |
| Colors.ChannelsOfColor | CG_ex3_partial/src/math/RGB.java:48-90 | `red`/`green`/`blue` return x/y/z, and `realRed`/`realGreen`/`realBlue` are those channels times 255 |
| Colors.ScaleIsScaled | CG_ex3_partial/src/math/RGB.java:104-106 | static `scale(s, c)` is component-wise; `scale(1, c)` is c and `scale(0, c)` is black |
| Colors.CapAtOneBounds | CG_ex3_partial/src/ex3/render/raytrace/Scene.java:274-282 | after the per-channel clamp every channel is at most 1; a colour within bounds is kept; clamping is idempotent; each channel is min(channel, 1) |
| Rays.Ray.Store | CG_ex3_partial/src/math/Ray.java:18-20 | the origin and the direction object are stored as given |
| Rays.Ray.Create | CG_ex3_partial/src/math/Ray.java:18-23 | `new Ray(p, v)` stores p and the caller's object v and normalises v in place; a zero v throws ArithmeticException and leaves v as it was; after construction v has length 1 |
| Surfaces.CommonInitColors | CG_ex3_partial/src/shapes/Surface.java:32-60 | diffuse (0.7,0.7,0.7), specular (1,1,1), ambient (0.1,0.1,0.1) and emission (0,0,0) are each used exactly when their own key is absent |
| Surfaces.CommonInitColorsIndependent | CG_ex3_partial/src/shapes/Surface.java:32-60 | each material colour depends only on its own key |
| Surfaces.CommonInitShininess | CG_ex3_partial/src/shapes/Surface.java:64-76 | the shininess is the "reflectance" attribute or 0, whatever "mtl-shininess" says; the reflectance coefficient stays 0 |
| Surfaces.NewSphereOutcome | CG_ex3_partial/src/shapes/Sphere.java:37-51 | a sphere is built iff "center" and "radius" are present; a missing centre is reported before a missing radius; `getCenter`/`getRadius` return the attributes |
| Surfaces.NewDiscOutcome | CG_ex3_partial/src/shapes/Disc.java:20-43 | the sphere's errors come first, then a missing "normal"; a zero normal throws ArithmeticException; a built disc stores the normal scaled to unit length |
| Surfaces.SphereNormalOutward | CG_ex3_partial/src/shapes/Sphere.java:61-65 | away from the centre the normal exists, has unit length and a positive dot product with p − center |
| Surfaces.SphereNormalAtCenter | CG_ex3_partial/src/shapes/Sphere.java:61-65 | the normal at the centre throws ArithmeticException |
| Surfaces.IntersectsWith | CG_ex3_partial/src/shapes/Sphere.java:74-76 | the sphere's (and so the disc's) `intersectsWith` always returns null |
| Surfaces.DiscNormalConstant | CG_ex3_partial/src/shapes/Disc.java:53-55 | the disc's normal is the stored one at every point |
| Surfaces.PolyNormal | CG_ex3_partial/src/shapes/Poly.java:94-110 | the polygon's normal does not depend on the point, exists iff (p1−p0)×(p2−p0) is non-zero, and is a unit vector orthogonal to p1−p0 and p2−p0 |
| Surfaces.GetPointRange | CG_ex3_partial/src/shapes/Poly.java:118-132 | `getPoint(i)` is null exactly outside 0 ≤ i < `getSize()`, and p[i] inside |
| Surfaces.PolyKeyInjective | CG_ex3_partial/src/shapes/Poly.java:79-81 | "p"+i and "p"+j are the same key exactly when i == j, so each vertex is read from its own entry |
| Surfaces.PolyKeyIsPointKey | CG_ex3_partial/src/shapes/Poly.java:61-80 | every vertex key "p"+i is among the keys the first loop counts |
| Surfaces.CountPoints | CG_ex3_partial/src/shapes/Poly.java:57-65 | the first loop copies exactly the entries whose key starts with "p", and `size` is their number |
| Surfaces.FillPoints | CG_ex3_partial/src/shapes/Poly.java:76-81 | the second loop succeeds iff every key "p0".."p(size−1)" is present, and vertex i is the value of "p"+i |
| Surfaces.PolyKeyInJustThePoints | CG_ex3_partial/src/shapes/Poly.java:60-81 | a vertex key is among the copied "p" entries iff it is an attribute, with the same value |
| Surfaces.PolyOfOutcome | CG_ex3_partial/src/shapes/Poly.java:55-83 | size < 3 throws IllegalArgumentException("Invalid Poly"); success needs every "p"+i below the size; a built polygon is valid, its size is the number of "p" keys and vertex i comes from "p"+i |
| Surfaces.NewPoly | CG_ex3_partial/src/shapes/Poly.java:36-83 | `new Poly(attributes)` returns exactly what `PolyOf` specifies |
| Intersection.SphereParameterIsNearestRoot | CG_ex3_partial/src/shapes/Intersection.java:48-84 | a negative discriminant, or both roots ≤ 0, gives null; otherwise the parameter is a positive root no larger than any positive root, and the point is taken at it |
| Intersection.SphereRootsOrdered | CG_ex3_partial/src/shapes/Intersection.java:62-79 | with a real square root, t2 ≤ t1, so the branch that takes t2 alone is never reached |
| Intersection.RootsSolveQuadratic | CG_ex3_partial/src/shapes/Intersection.java:50-65 | both roots solve t² + b·t + c = 0 |
| Intersection.RootOnSphere | CG_ex3_partial/src/shapes/Intersection.java:50-84 | for a unit direction, the ray point at a root is at squared distance r² from the centre |
| Intersection.ChosenRootSolves | CG_ex3_partial/src/shapes/Intersection.java:67-82 | the chosen parameter solves the quadratic |
| Intersection.SphereHitAtRoot | CG_ex3_partial/src/shapes/Intersection.java:48-84 | a sphere hit is the ray point at a root of the quadratic |
| Intersection.RaySphereOnSurface | CG_ex3_partial/src/shapes/Intersection.java:48-84 | for a unit direction, the returned point lies on the sphere: at squared distance r², and at distance r when r ≥ 0 |
| Intersection.RaySurfaceOnPlane | CG_ex3_partial/src/shapes/Intersection.java:168-187 | null exactly when v·N ≥ 0; otherwise the point lies on the plane through P0 with normal N |
| Intersection.RaySurfaceBehindOrigin | CG_ex3_partial/src/shapes/Intersection.java:168-187 | the sign of t is not checked: a plane behind the origin is hit at t = −1 |
| Intersection.RayDiscOutcome | CG_ex3_partial/src/shapes/Intersection.java:94-115 | the disc returns P iff the plane test returns P and P is within the radius of the centre; a failed plane test gives null |
| Intersection.EdgesPassFromAll | CG_ex3_partial/src/shapes/Intersection.java:136-155 | the early-exit edge loop accepts exactly when no edge rejects the point |
| Intersection.RayPolyOutcome | CG_ex3_partial/src/shapes/Intersection.java:125-157 | the polygon test throws iff the normal does; it returns P iff the plane test returns P and no edge i (vertex i to vertex (i+1) mod size) rejects P |
| Intersection.ClosingEdge | CG_ex3_partial/src/shapes/Intersection.java:136-155 | the last edge wraps around to vertex 0 |
| Lights.IsLightIgnoresCase | CG_ex3_partial/src/lights/Light.java:23-26 | `isLight(s) == isLight(lower(s))` |
| Lights.IsLightNames | CG_ex3_partial/src/lights/Light.java:23-26 | "dir-light", "omni-light" and "spot-light" are lights |
| Lights.LowerNameIsLight | CG_ex3_partial/src/lights/Light.java:25 | each of the three lower-case light names is a light |
| Lights.IsLightUpperCase | CG_ex3_partial/src/lights/Light.java:24 | upper-case light names such as "OMNI-LIGHT" and "Dir-Light" are lights |
| Lights.IsLightOtherNames | CG_ex3_partial/src/lights/Light.java:25 | "sphere", "disc", "poly", and any name whose length matches none of the light names, are not lights |
| Lights.NewDirLightOutcome | CG_ex3_partial/src/lights/DirLight.java:32-49 | a missing "direction" throws; otherwise the direction is stored as given (not normalised), and the colour is the attribute or white |
| Lights.DirIntensityConstant | CG_ex3_partial/src/lights/DirLight.java:55-57 | a directional light's intensity is its colour at every point |
| Lights.NewOmniLightOutcome | CG_ex3_partial/src/lights/OmniLight.java:38-78 | a missing "pos" throws; the colour, kc, kl and kq default to white, 1, 0 and 0, each only when its key is absent |
| Lights.GetPositionOfNew | CG_ex3_partial/src/lights/OmniLight.java:115-117 | `getPosition` returns the "pos" attribute |
| Lights.OmniIntensityCapped | CG_ex3_partial/src/lights/OmniLight.java:84-109 | intensity is min(colour/(kc + kl·d + kq·d²), 1) per channel, so every channel is ≤ 1; it fails exactly for a zero divisor |
| Lights.OmniDefaultAttenuation | CG_ex3_partial/src/lights/OmniLight.java:84-109 | with the default attenuation the intensity is min(colour, 1) per channel |
| Lights.NewSpotLightOutcome | CG_ex3_partial/src/lights/SpotLight.java:42-79 | a missing "position", then a missing "direction", throws; the colour defaults to white and (kc, kl, kq) to (1, 0, 0) |
| Lights.SpotIntensitySign | CG_ex3_partial/src/lights/SpotLight.java:85-99 | with a positive divisor, the intensity is black where p − position is orthogonal to the direction, and negative in every positive channel behind the spot |
| Cameras.TowardsPrecedence | CG_ex3_partial/src/ex3/render/raytrace/Camera.java:42-46 | "direction" wins over "look-at"; otherwise towards = lookAt − eye |
| Cameras.BasisOrthogonal | CG_ex3_partial/src/ex3/render/raytrace/Camera.java:53-59 | right is orthogonal to towards and to the up hint; up is orthogonal to towards and to right in both branches |
| Cameras.UpKeptIff | CG_ex3_partial/src/ex3/render/raytrace/Camera.java:55-59 | up == upDirection exactly when towards·upDirection == 0 |
| Cameras.Camera.Empty | CG_ex3_partial/src/ex3/render/raytrace/Scene.java:62 | the no-argument camera the scene creates: screenDist and screenWidth are 0, and (0, 0, 0) stands in for the null eye, towards, up and right |
| Cameras.Camera.Create | CG_ex3_partial/src/ex3/render/raytrace/Camera.java:26-28 | `new Camera(attributes)` fails iff a required key is missing, and otherwise is fresh and initialised |
| Cameras.Camera.Init | CG_ex3_partial/src/ex3/render/raytrace/Camera.java:30-75 | each missing key throws its IllegalArgumentException in source order and keeps the fields assigned before it; success assigns the basis, the screen distance and the width (default 2.0) |
| Cameras.Camera.ConstructRayThroughPixel | CG_ex3_partial/src/ex3/render/raytrace/Camera.java:85-94 | always returns null |
| NearestHit.SurfaceHitDispatch | CG_ex3_partial/src/ex3/render/raytrace/Scene.java:147-153 | a disc is checked before a sphere, every other surface is a polygon, and only the polygon test can throw |
| NearestHit.Tests | CG_ex3_partial/src/ex3/render/raytrace/Scene.java:147-153 | entry j is the intersection test of surface j, one per surface |
| NearestHit.ScanFrom | CG_ex3_partial/src/ex3/render/raytrace/Scene.java:143-176 | the hit found by the scan belongs to one of the scanned surfaces |
| NearestHit.ScanStep | CG_ex3_partial/src/ex3/render/raytrace/Scene.java:165-169 | one pass of the loop over a surface whose test does not throw moves the scan on with the updated best hit |
| NearestHit.StepReplaces | CG_ex3_partial/src/ex3/render/raytrace/Scene.java:165-169 | a qualifying hit strictly nearer than the best so far becomes the nearest, earliest on ties, among the surfaces scanned so far |
| NearestHit.StepKeeps | CG_ex3_partial/src/ex3/render/raytrace/Scene.java:165-169 | a best hit no farther than the next surface's hit stays the nearest one step further |
| NearestHit.StepKeepsNearest | CG_ex3_partial/src/ex3/render/raytrace/Scene.java:165-169 | each pass of the loop keeps "the best hit is the nearest among the surfaces scanned so far" |
| NearestHit.FindIntersection | CG_ex3_partial/src/ex3/render/raytrace/Scene.java:136-181 | the returned hit is on a surface of the scene |
| NearestHit.ScanFindsNearest | CG_ex3_partial/src/ex3/render/raytrace/Scene.java:143-176 | without an exception the scan ends with the nearest qualifying hit, the earliest on ties |
| NearestHit.ScanFails | CG_ex3_partial/src/ex3/render/raytrace/Scene.java:143-176 | the scan throws iff some later surface test throws, and it throws the first such exception |
| NearestHit.FindIntersectionIsNearest | CG_ex3_partial/src/ex3/render/raytrace/Scene.java:136-181 | throws exactly the first surface test's exception; otherwise null iff no surface yields a point farther than TOLERANCE, and else the hit at minimum distance (earliest on ties), with the distance recorded |
| Shading.ShadeStops | CG_ex3_partial/src/ex3/render/raytrace/Scene.java:197-211 | black at level == maxRecLvl before any intersection test; a miss gives bgColor; a failing scan propagates |
| Shading.HitColorAtMostOne | CG_ex3_partial/src/ex3/render/raytrace/Scene.java:274-282 | every channel of the colour of a hit is ≤ 1 |
| Shading.ShadeAtMostOne | CG_ex3_partial/src/ex3/render/raytrace/Scene.java:194-286 | with a background colour within bounds, every colour `calcColor` returns is ≤ 1 per channel |
| Shading.DirLightUnshadowed | CG_ex3_partial/src/ex3/render/raytrace/Scene.java:239-240 | a directional light never runs a shadow test |
| Shading.OccludedIffBlocker | CG_ex3_partial/src/ex3/render/raytrace/Scene.java:239-251 | any other light is occluded iff some surface's shadow-ray hit lies farther than TOLERANCE and more than TOLERANCE nearer than the light |
| Shading.DiffuseFacingAway | CG_ex3_partial/src/ex3/render/raytrace/Scene.java:369-397 | a light with N·L ≤ 0 adds no diffuse light |
| Shading.DiffuseFactor | CG_ex3_partial/src/ex3/render/raytrace/Scene.java:369-397 | a diffuse term is KD times IL scaled by a non-negative factor |
| Shading.DiffuseNonNegative | CG_ex3_partial/src/ex3/render/raytrace/Scene.java:369-397 | with a non-negative KD and intensity, the diffuse term is non-negative in every channel |
| Shading.MirrorOfUnit | CG_ex3_partial/src/ex3/render/raytrace/Scene.java:406-444 | for unit L and N the mirror direction is L reflected about N itself, a unit vector with N·R = −(N·L) |
| Shading.SpecularFacingAway | CG_ex3_partial/src/ex3/render/raytrace/Scene.java:406-444 | a mirror direction with V·R ≤ 0 makes the specular term KS times IL scaled by pow(0, shininess) |
| Shading.LightsFromShift | CG_ex3_partial/src/ex3/render/raytrace/Scene.java:236-264 | the lights loop only adds to the colour it starts from: starting from color + d ends d further, or with the same exception |
| Shading.LightsFromErrors | CG_ex3_partial/src/ex3/render/raytrace/Scene.java:236-264 | the lights loop throws only rendering exceptions |
| Shading.NormalErrors | CG_ex3_partial/src/shapes/Sphere.java:61-65 | a normal fails only by normalising a zero vector |
| Shading.RayPolyErrors | CG_ex3_partial/src/shapes/Intersection.java:125-157 | the polygon test throws only ArithmeticException("DividedByZero") |
| Shading.FindIntersectionErrors | CG_ex3_partial/src/ex3/render/raytrace/Scene.java:136-181 | the scan throws only ArithmeticException("DividedByZero") |
| Shading.ShadeErrors | CG_ex3_partial/src/ex3/render/raytrace/Scene.java:194-286 | `calcColor` throws nothing but the rendering exceptions, at any depth |
| Shading.HitColorErrors | CG_ex3_partial/src/ex3/render/raytrace/Scene.java:225-286 | the colour of a hit throws nothing but the rendering exceptions |
| Shading.ShadeOnHit | CG_ex3_partial/src/ex3/render/raytrace/Scene.java:225-284 | on a hit whose lights loop and reflection ray do not throw, the colour is cap(emission + ambient + lights + reflectance · reflected colour), or the reflected call's exception |
| Shading.ReflectionRayOfUnit | CG_ex3_partial/src/ex3/render/raytrace/Scene.java:267-268 | for unit V and N, the reflection ray starts at the hit point along V reflected about N, a unit vector |
| Scenes.NewObjectKinds | CG_ex3_partial/src/ex3/render/raytrace/Scene.java:295-331 | the lower-cased name alone decides the kind (dir-light, omni-light, otherwise spot; sphere, disc, otherwise poly), and every surface built is valid |
| Scenes.Scene.constructor | CG_ex3_partial/src/ex3/render/raytrace/Scene.java:54-64 | the canvas size and path are stored; the lists start empty; the camera is new |
| Scenes.Scene.Init | CG_ex3_partial/src/ex3/render/raytrace/Scene.java:71-108 | defaults: bgColor (0,0,0), no texture path, maxRecLvl 10 and ambientLight (0,0,0), each used when its key is absent; nothing else changes |
| Scenes.Scene.FindIntersection | CG_ex3_partial/src/ex3/render/raytrace/Scene.java:136-181 | the loop over minDistance/minObject/minPoint returns what `NearestHit.FindIntersection` specifies |
| Scenes.Scene.Occlusion | CG_ex3_partial/src/ex3/render/raytrace/Scene.java:239-251 | the shadow test returns what `Shading.Occluded` specifies |
| Scenes.Scene.CalcDiffuseColor | CG_ex3_partial/src/ex3/render/raytrace/Scene.java:369-397 | returns `Shading.DiffuseColor`: KD ⊙ (max(0, N·L) IL), or the first exception |
| Scenes.Scene.CalcSpecularColor | CG_ex3_partial/src/ex3/render/raytrace/Scene.java:406-444 | returns `Shading.SpecularColor`: KS ⊙ (max(0, V·R)^shininess IL), or the first exception |
| Scenes.Scene.CalcColor | CG_ex3_partial/src/ex3/render/raytrace/Scene.java:194-286 | the depth-bounded recursion returns `Shading.Shade` of the scene, terminating on maxRecLvl − level |
| Scenes.Scene.ColorAtHit | CG_ex3_partial/src/ex3/render/raytrace/Scene.java:225-284 | the colour after a hit is `Shading.HitColor` |
| Scenes.Scene.DirectColor | CG_ex3_partial/src/ex3/render/raytrace/Scene.java:227-264 | emission + ambient + the lights loop, in a fresh vector |
| Scenes.Scene.AddLights | CG_ex3_partial/src/ex3/render/raytrace/Scene.java:236-264 | the lights loop adds `Shading.LightsFrom` to the colour vector, or throws its exception |
| Scenes.Scene.AddLight | CG_ex3_partial/src/ex3/render/raytrace/Scene.java:238-262 | one light's pass adds what `Shading.ShadeLight` specifies |
| Scenes.Scene.CastReflection | CG_ex3_partial/src/ex3/render/raytrace/Scene.java:267-268 | the reflection ray is a fresh ray in the state `Shading.ReflectionRay` specifies, or that function's exception |
| Scenes.Scene.ReflectedColor | CG_ex3_partial/src/ex3/render/raytrace/Scene.java:267-270 | the colour along the reflection ray one level deeper |
| Scenes.Scene.Clamp | CG_ex3_partial/src/ex3/render/raytrace/Scene.java:274-282 | the clamp leaves `Colors.CapAtOne` of the colour |
| Scenes.Scene.AddObjectByName | CG_ex3_partial/src/ex3/render/raytrace/Scene.java:295-331 | appends exactly one object to exactly one list, a light when `isLight` and a surface otherwise, or throws the constructor's exception and changes nothing; the other fields are unchanged |
| Scenes.Scene.SetCameraAttributes | CG_ex3_partial/src/ex3/render/raytrace/Scene.java:338-340 | the camera's `init` succeeds iff its keys are present, and then the camera is initialised; a missing key throws its IllegalArgumentException in source order and leaves the camera with the fields assigned before it, the rest as they were |
| Scenes.Scene.CastRay | CG_ex3_partial/src/ex3/render/raytrace/Scene.java:446-448 | `castRay` returns the camera stub's null |

## Left out

- Floating point. Doubles are `real`, so rounding, infinities and NaN are not modelled. A zero attenuation divisor, which Java turns into an infinity or NaN, is the `NotFinite` failure. The exact `== 0` tests on doubles become exact tests on reals.
- `Math.sqrt` and `Math.pow` are uninterpreted. Only the laws in `RealMath.Laws()` are known about them. `Vec.angle` (`Math.acos`) and its callers are not part of this model.
- String parsing. Attributes arrive already parsed, as a `map<string, Value>`. The `Scanner`, `Double.parseDouble` and `Integer.parseInt` calls, and the String constructors of `Point3D`, `RGB` and `Vec`, are not modelled. A malformed number or triple is not modelled either.
- Background texture. Loading it (`initBgTexture`) and sampling it in `calcColor` are file and image I/O. The texture is always absent, so a miss returns bgColor. The pixel coordinates x and y are passed through but never read.
- RayTracer.java (the pixel loop, supersampling and image output) is not part of this model. Nor is Intersections.java, an unused earlier draft of Intersection.java.
- `toString` of `Tuple` and `Ray`: text formatting.
- The static `Vec.equals(a, b)` and `Vec.dotProd(a, b)` only delegate to the instance forms, which `Vectors.Vec.Equals` and `Vectors.Vec.DotProd` model.
- The members the program calls but no file defines:
  - `Light.vectorToMe`, `Light.distanceToMe` and the surface coefficient getters are the `Shading.Oracle` fields;
  - the object returned by `vectorToMe` is taken to be fresh, since the shadow ray normalises it in place;
  - `Point3D.addVectorToPoint` is the uninterpreted `Points.AddVectorToPointOf`;
  - `Point3D.addVector`, which `constructRayThroughPixel` calls on the eye (Camera.java:91) before returning null, has no counterpart: the stub's result does not depend on it;
  - the no-argument `Camera()` is `Cameras.Camera.Empty`.
- Cameras.Camera.Empty: the zero vector (0, 0, 0) stands in for Java's null in eye, towards, up and right; only screenDist and screenWidth really default to 0. So the NullPointerException that `castRay` raises at Camera.java:91 on a camera that was never initialised is not modelled: `Scenes.Scene.CastRay` returns null there too.
- `Tuple.clone` builds a plain `Tuple`. The `(Vec)` casts on its result in `reflect` and in the static variants would therefore throw `ClassCastException`. The model gives them the evidently intended copy instead.
- `String.toLowerCase` lower-cases ASCII letters only. No other Unicode case mapping is modelled.
- `Poly()`, the polygon's no-argument constructor, leaves a polygon with no points, which no caller uses. It is not modelled.
- `Poly.intersectsWith` is declared abstract in `Surface` but defined in no file; the scene never calls it.
- Surfaces.NewPoly: the `TreeMap` sorted copy of the "p" entries is not built, because it holds the same entries and only lookups by key follow.
- Surfaces.PolyOf: Java's `HashMap` iteration order is not modelled. The first loop's result does not depend on it.
- Scenes.Scene.CalcColor: requires level ≤ maxRecLvl, the range the renderer calls it in (level 0, then level + 1 below the maximum). From a deeper level the Java recursion need not stop. It still stops at the first miss, but a ray that keeps hitting, such as one inside a closed sphere, recurses until the stack overflows.
- Scenes.Scene.CalcColor: a negative "max-recursion-level" is outside the model. `init` stores the parsed value unchecked (Scene.java:89-93, and `Scenes.Scene.Init` keeps it), and then even level 0 lies above the maximum.
- Scenes.Scene.CalcColor: on a miss, the scene's bgColor is returned as a value. Java returns the scene's own object, which a caller could then alias.
- Surface and light constructors are functions that return the finished object. The Java objects' construction step by step is not visible, because none of their fields changes after construction.
- Java `int` overflow of `maxRecLvl` and of the level counter is not modelled; integers are unbounded.
- Scenes.Scene.CastRay: `castRay` passes its width and height to the camera's height and width parameters, swapped. The stub ignores both, so this has no effect.
- Scenes.Scene.constructor: the settings that `init` assigns start black, absent and 0. In Java they are null until `init` runs.
- `Rays.Ray.State()` is the ray's origin and the current value of its direction object, so the specification functions take rays as values.
- `Scenes.Scene.DirectColor`, `AddLights`, `AddLight`, `CastReflection`, `ReflectedColor` and `Clamp` split the body of `calcColor` into steps. Each pass of its lights loop is `AddLight`. They do not exist as separate methods in Java.
