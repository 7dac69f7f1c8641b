/** `Ray.java`: an origin and a direction object. */
module Rays {
  import opened Results
  import opened Vectors
  import RealMath

  /** What a ray holds at one moment: its origin and the current value of
      its direction object. */
  datatype RayState = RayState(p: Triple, v: Triple)

  class Ray {
    /** Point of origin; points are never updated in place. */
    var p: Triple
    /** Direction: the caller's own object, shared with the caller. */
    var v: Vec

    function State(): RayState
      reads this, v
    {
      RayState(p, v.Value())
    }

    constructor Store(p: Triple, v: Vec)
      ensures this.p == p && this.v == v
    {
      this.p, this.v := p, v;
    }

    /** `new Ray(p, v)`: stores `p` and the object `v` itself and normalises
        `v` in place, so the caller sees its vector change. A zero `v` makes
        the constructor throw, and `v` is left as it was. */
    static method Create(p: Triple, v: Vec) returns (r: Result<Ray>)
      modifies v
      ensures match old(v.Value()).Normalized()
        case Success(u) => r.Success? && fresh(r.value) && r.value.p == p && r.value.v == v && v.Value() == u
        case Failure(e) => r == Failure(e) && v.Value() == old(v.Value())
      ensures RealMath.Laws() ==> (r.Failure? <==> old(v.Value()) == ZERO)
      ensures RealMath.Laws() && r.Success? ==> v.LengthSquared() == 1.0
    {
      ghost var before := v.Value();
      var outcome := v.Normalize();
      if outcome.Fail? {
        r := Failure(outcome.error);
      } else {
        var ray := new Ray.Store(p, v);
        r := Success(ray);
      }
      if RealMath.Laws() {
        NormalizedFailsOnZero(before);
        if before != ZERO {
          NormalizedIsUnit(before);
        }
      }
    }
  }
}
