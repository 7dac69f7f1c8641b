/** The nearest-hit scan of `Scene.findIntersection`, as a specification
    the scene's loop is proved against, with its declarative meaning. */
module NearestHit {
  import opened Results
  import opened Vectors
  import opened Points
  import opened Surfaces
  import opened Rays
  import opened Intersection

  /** Every surface came out of its constructor. */
  predicate AllValid(ss: seq<Surface>) {
    forall i :: 0 <= i < |ss| ==> ss[i].Valid()
  }

  /** The dispatch of `findIntersection`: a `Disc` is checked before a
      `Sphere` (a disc is a sphere in the Java class hierarchy) and any other
      surface is a `Poly`. */
  function SurfaceHit(s: Surface, ray: RayState): Result<Option<Triple>>
    requires s.Valid()
  {
    if s.Disc? then Success(RayDisc(ray, s))
    else if s.Sphere? then Success(RaySphere(ray, s))
    else RayPoly(ray, s)
  }

  lemma SurfaceHitDispatch(s: Surface, ray: RayState)
    requires s.Valid()
    ensures s.Disc? ==> SurfaceHit(s, ray) == Success(RayDisc(ray, s))
    ensures s.Sphere? ==> SurfaceHit(s, ray) == Success(RaySphere(ray, s))
    ensures s.Poly? ==> SurfaceHit(s, ray) == RayPoly(ray, s)
    ensures SurfaceHit(s, ray).Failure? ==> s.Poly?
  {
  }

  /** The test results of every surface, in list order. */
  function Tests(ss: seq<Surface>, ray: RayState): (t: seq<Result<Option<Triple>>>)
    requires AllValid(ss)
    ensures |t| == |ss| && forall j :: 0 <= j < |ss| ==> t[j] == SurfaceHit(ss[j], ray)
  {
    seq(|ss|, (j: int) requires 0 <= j < |ss| && AllValid(ss) => SurfaceHit(ss[j], ray))
  }

  /** One step of the loop: a point replaces the best so far when it is
      strictly nearer (the first hit is nearer than +infinity) and farther
      than TOLERANCE from the ray's origin o. */
  function Better(best: Option<Hit>, s: Surface, p: Triple, o: Triple): Option<Hit> {
    var dist := Distance(o, p);
    if (best.None? || dist < best.value.distance) && dist > TOLERANCE then Some(Hit(s, p, dist)) else best
  }

  /** The loop from surface i on, given every surface's test result, with the
      best hit so far; an exception of a polygon test ends it. The hit found
      is one of the scanned surfaces. */
  function ScanFrom(ss: seq<Surface>, tests: seq<Result<Option<Triple>>>, o: Triple, i: nat, best: Option<Hit>): (r: Result<Option<Hit>>)
    requires |tests| == |ss| && i <= |ss|
    ensures (best.None? || best.value.surface in ss) && r.Success? && r.value.Some? ==> r.value.value.surface in ss
    decreases |ss| - i
  {
    if i == |ss| then Success(best)
    else match tests[i]
      case Failure(e) => Failure(e)
      case Success(None) => ScanFrom(ss, tests, o, i + 1, best)
      case Success(Some(p)) => ScanFrom(ss, tests, o, i + 1, Better(best, ss[i], p, o))
  }

  /** `findIntersection(ray)` over the scene's surfaces. */
  function FindIntersection(ss: seq<Surface>, ray: RayState): (r: Result<Option<Hit>>)
    requires AllValid(ss)
    ensures r.Success? && r.value.Some? ==> r.value.value.surface in ss && r.value.value.surface.Valid()
  {
    ScanFrom(ss, Tests(ss, ray), ray.p, 0, None)
  }

  // ------------------------------------------------------------ meaning

  /** Surface j yields a point farther than TOLERANCE from the origin. */
  ghost predicate Qualifies(tests: seq<Result<Option<Triple>>>, o: Triple, j: int) {
    0 <= j < |tests| && tests[j].Success? && tests[j].value.Some? && Distance(o, tests[j].value.value) > TOLERANCE
  }

  /** The record for surface j's point. */
  ghost function HitOf(ss: seq<Surface>, tests: seq<Result<Option<Triple>>>, o: Triple, j: int): Hit
    requires |tests| == |ss| && Qualifies(tests, o, j)
  {
    Hit(ss[j], tests[j].value.value, Distance(o, tests[j].value.value))
  }

  /** `h` is the nearest qualifying hit among the first n surfaces, and the
      earliest of them on a tie: it is surface k's. */
  ghost predicate NearestAt(ss: seq<Surface>, tests: seq<Result<Option<Triple>>>, o: Triple, n: nat, k: int, h: Hit)
    requires |tests| == |ss| && n <= |ss|
  {
    0 <= k < n && Qualifies(tests, o, k) && h == HitOf(ss, tests, o, k) &&
    forall j :: 0 <= j < n && Qualifies(tests, o, j) ==>
      h.distance <= HitOf(ss, tests, o, j).distance && (j < k ==> h.distance < HitOf(ss, tests, o, j).distance)
  }

  /** `best` is the nearest, earliest qualifying hit among the first n
      surfaces, or none when none qualifies. */
  ghost predicate NearestAmong(ss: seq<Surface>, tests: seq<Result<Option<Triple>>>, o: Triple, n: nat, best: Option<Hit>)
    requires |tests| == |ss| && n <= |ss|
  {
    (best.None? <==> forall j :: 0 <= j < n ==> !Qualifies(tests, o, j)) &&
    (best.Some? ==> exists k :: NearestAt(ss, tests, o, n, k, best.value))
  }

  /** The result of one step when surface i's test returns normally. */
  function Next(ss: seq<Surface>, tests: seq<Result<Option<Triple>>>, o: Triple, i: nat, best: Option<Hit>): Option<Hit>
    requires |tests| == |ss| && i < |ss| && tests[i].Success?
  {
    match tests[i].value
    case None => best
    case Some(p) => Better(best, ss[i], p, o)
  }

  /** A step of the scan when surface i's test returns normally. */
  lemma ScanStep(ss: seq<Surface>, tests: seq<Result<Option<Triple>>>, o: Triple, i: nat, best: Option<Hit>)
    requires |tests| == |ss| && i < |ss| && tests[i].Success?
    ensures ScanFrom(ss, tests, o, i, best) == ScanFrom(ss, tests, o, i + 1, Next(ss, tests, o, i, best))
  {
  }

  /** Surface i's hit replaces the best so far: it becomes the nearest. */
  lemma StepReplaces(ss: seq<Surface>, tests: seq<Result<Option<Triple>>>, o: Triple, i: nat, best: Option<Hit>)
    requires |tests| == |ss| && i < |ss| && Qualifies(tests, o, i)
    requires best.Some? ==> HitOf(ss, tests, o, i).distance < best.value.distance
    requires NearestAmong(ss, tests, o, i, best)
    ensures NearestAt(ss, tests, o, i + 1, i, HitOf(ss, tests, o, i))
  {
    var h := HitOf(ss, tests, o, i);
    forall j | 0 <= j < i + 1 && Qualifies(tests, o, j)
      ensures h.distance <= HitOf(ss, tests, o, j).distance && (j < i ==> h.distance < HitOf(ss, tests, o, j).distance)
    {
      if j < i {
        var k :| NearestAt(ss, tests, o, i, k, best.value);
        assert best.value.distance <= HitOf(ss, tests, o, j).distance;
      }
    }
  }

  /** The best so far stays the nearest when surface i's result does not
      replace it. */
  lemma StepKeeps(ss: seq<Surface>, tests: seq<Result<Option<Triple>>>, o: Triple, i: nat, k: int, h: Hit)
    requires |tests| == |ss| && i < |ss|
    requires Qualifies(tests, o, i) ==> h.distance <= HitOf(ss, tests, o, i).distance
    requires NearestAt(ss, tests, o, i, k, h)
    ensures NearestAt(ss, tests, o, i + 1, k, h)
  {
  }

  /** A step keeps the best hit the nearest, earliest one. */
  lemma StepKeepsNearest(ss: seq<Surface>, tests: seq<Result<Option<Triple>>>, o: Triple, i: nat, best: Option<Hit>)
    requires |tests| == |ss| && i < |ss| && tests[i].Success?
    requires NearestAmong(ss, tests, o, i, best)
    ensures NearestAmong(ss, tests, o, i + 1, Next(ss, tests, o, i, best))
  {
    var next := Next(ss, tests, o, i, best);
    if Qualifies(tests, o, i) && (best.None? || HitOf(ss, tests, o, i).distance < best.value.distance) {
      assert next == Some(HitOf(ss, tests, o, i));
      StepReplaces(ss, tests, o, i, best);
    } else {
      assert next == best;
      if best.Some? {
        var k :| NearestAt(ss, tests, o, i, k, best.value);
        StepKeeps(ss, tests, o, i, k, best.value);
      } else {
        assert !Qualifies(tests, o, i);
      }
    }
  }

  /** With no exception from surface i on, the scan ends with the nearest,
      earliest qualifying hit of all surfaces. */
  lemma {:induction false} ScanFindsNearest(ss: seq<Surface>, tests: seq<Result<Option<Triple>>>, o: Triple, i: nat, best: Option<Hit>)
    requires |tests| == |ss| && i <= |ss|
    requires NearestAmong(ss, tests, o, i, best)
    requires forall j :: i <= j < |ss| ==> tests[j].Success?
    ensures ScanFrom(ss, tests, o, i, best).Success?
    ensures NearestAmong(ss, tests, o, |ss|, ScanFrom(ss, tests, o, i, best).value)
    decreases |ss| - i
  {
    if i < |ss| {
      StepKeepsNearest(ss, tests, o, i, best);
      ScanFindsNearest(ss, tests, o, i + 1, Next(ss, tests, o, i, best));
    }
  }

  /** The scan throws exactly when a surface test from i on throws, and the
      exception is that of the first such surface. */
  lemma {:induction false} ScanFails(ss: seq<Surface>, tests: seq<Result<Option<Triple>>>, o: Triple, i: nat, best: Option<Hit>)
    requires |tests| == |ss| && i <= |ss|
    ensures ScanFrom(ss, tests, o, i, best).Failure? <==> exists j :: i <= j < |ss| && tests[j].Failure?
    ensures ScanFrom(ss, tests, o, i, best).Failure? ==>
      exists j :: i <= j < |ss| && tests[j] == Failure(ScanFrom(ss, tests, o, i, best).error) &&
        forall k :: i <= k < j ==> tests[k].Success?
    decreases |ss| - i
  {
    if i < |ss| && tests[i].Success? {
      var next := Next(ss, tests, o, i, best);
      ScanFails(ss, tests, o, i + 1, next);
      assert ScanFrom(ss, tests, o, i, best) == ScanFrom(ss, tests, o, i + 1, next);
      if ScanFrom(ss, tests, o, i, best).Failure? {
        var j :| i + 1 <= j < |ss| && tests[j] == Failure(ScanFrom(ss, tests, o, i, best).error) &&
          forall k :: i + 1 <= k < j ==> tests[k].Success?;
        assert forall k :: i <= k < j ==> tests[k].Success?;
      }
    }
  }

  /** `findIntersection` throws exactly when a surface test throws (the
      first one's exception); otherwise it returns null exactly when no
      surface yields a point farther than TOLERANCE from the ray's origin,
      and else the one at minimum distance, the earliest in list order on
      ties. */
  lemma FindIntersectionIsNearest(ss: seq<Surface>, ray: RayState)
    requires AllValid(ss)
    ensures FindIntersection(ss, ray).Failure? <==> exists j :: 0 <= j < |ss| && SurfaceHit(ss[j], ray).Failure?
    ensures FindIntersection(ss, ray).Failure? ==>
      exists j :: 0 <= j < |ss| && SurfaceHit(ss[j], ray) == Failure(FindIntersection(ss, ray).error) &&
        forall k :: 0 <= k < j ==> SurfaceHit(ss[k], ray).Success?
    ensures FindIntersection(ss, ray).Success? ==>
      var r := FindIntersection(ss, ray).value;
      var tests := Tests(ss, ray);
      (r.None? <==> forall j :: 0 <= j < |ss| ==> !Qualifies(tests, ray.p, j)) &&
      (r.Some? ==>
        r.value.distance > TOLERANCE && r.value.distance == Distance(ray.p, r.value.point) &&
        exists k :: NearestAt(ss, tests, ray.p, |ss|, k, r.value))
  {
    var tests := Tests(ss, ray);
    ScanFails(ss, tests, ray.p, 0, None);
    if FindIntersection(ss, ray).Success? {
      ScanFindsNearest(ss, tests, ray.p, 0, None);
    }
  }
}
