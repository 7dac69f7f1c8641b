/** `Camera.java`: the eye and the towards/up/right basis of the view. */
module Cameras {
  import opened Results
  import opened Vectors
  import opened Points
  import opened Attributes
  import opened Rays

  /** The towards vector: "direction" when given, otherwise from the eye to
      "look-at". */
  function TowardsOf(attrs: Attrs): Triple
    requires "eye" in attrs && ("direction" in attrs || "look-at" in attrs)
  {
    if "direction" in attrs then attrs["direction"].triple
    else VectorToAnotherPoint(attrs["eye"].triple, attrs["look-at"].triple)
  }

  /** right = towards x up-direction. */
  function RightOf(towards: Triple, upDirection: Triple): Triple {
    towards.Cross(upDirection)
  }

  /** up is the given up-direction when it is already orthogonal to towards,
      and towards x right otherwise. Nothing is normalised. */
  function UpOf(towards: Triple, upDirection: Triple): Triple {
    if towards.Dot(upDirection) == 0.0 then upDirection
    else towards.Cross(RightOf(towards, upDirection))
  }

  /** "direction" wins over "look-at"; with only "look-at", towards is
      look-at minus eye. */
  lemma TowardsPrecedence(attrs: Attrs)
    requires "eye" in attrs && ("direction" in attrs || "look-at" in attrs)
    ensures "direction" in attrs ==> TowardsOf(attrs) == attrs["direction"].triple
    ensures "direction" !in attrs ==> TowardsOf(attrs) == attrs["look-at"].triple.Minus(attrs["eye"].triple)
    ensures "direction" !in attrs ==> attrs["eye"].triple.Plus(TowardsOf(attrs)) == attrs["look-at"].triple
  {
    if "direction" !in attrs {
      VectorToAnotherPointArrives(attrs["eye"].triple, attrs["look-at"].triple);
    }
  }

  /** The basis is orthogonal: right is orthogonal to towards and to the
      given up-direction, and up to towards and to right, in both branches. */
  lemma BasisOrthogonal(towards: Triple, upDirection: Triple)
    ensures RightOf(towards, upDirection).Dot(towards) == 0.0
    ensures RightOf(towards, upDirection).Dot(upDirection) == 0.0
    ensures UpOf(towards, upDirection).Dot(towards) == 0.0
    ensures UpOf(towards, upDirection).Dot(RightOf(towards, upDirection)) == 0.0
  {
    var right := RightOf(towards, upDirection);
    CrossOrthogonal(towards, upDirection);
    CrossOrthogonal(towards, right);
    DotCommutes(towards, upDirection);
    DotCommutes(right, upDirection);
  }

  /** The given up-direction is kept exactly when it is orthogonal to
      towards. */
  lemma UpKeptIff(towards: Triple, upDirection: Triple)
    ensures UpOf(towards, upDirection) == upDirection <==> towards.Dot(upDirection) == 0.0
  {
    if towards.Dot(upDirection) != 0.0 {
      var up := UpOf(towards, upDirection);
      CrossOrthogonal(towards, RightOf(towards, upDirection));
      DotCommutes(up, towards);
      DotCommutes(upDirection, towards);
      assert up.Dot(towards) == 0.0 != upDirection.Dot(towards);
    }
  }

  /** The camera. `Scene` creates it empty and initialises it later, and an
      `init` that throws leaves the fields it had already assigned. */
  class Camera {
    var eye: Triple
    var towards: Triple
    var up: Triple
    var right: Triple
    var screenDist: real
    var screenWidth: real

    /** The no-argument `Camera()` the scene calls, which no shown file
        defines. The two distances keep Java's default 0; the zero vector
        stands in for the null the four vector fields hold in Java. */
    constructor Empty()
      ensures eye == ZERO && towards == ZERO && up == ZERO && right == ZERO
      ensures screenDist == 0.0 && screenWidth == 0.0
    {
      eye, towards, up, right := ZERO, ZERO, ZERO, ZERO;
      screenDist, screenWidth := 0.0, 0.0;
    }

    /** `new Camera(attributes)`: an empty camera, then `init`. */
    static method Create(attrs: Attrs) returns (r: Result<Camera>)
      ensures r.Failure? <==> !Complete(attrs)
      ensures r.Success? ==> fresh(r.value) && r.value.Initialised(attrs)
    {
      var c := new Camera.Empty();
      var o := c.Init(attrs);
      if o.Fail? {
        return Failure(o.error);
      }
      return Success(c);
    }

    /** Whether `init` finds every required key. */
    static predicate Complete(attrs: Attrs) {
      "eye" in attrs && ("direction" in attrs || "look-at" in attrs) &&
      "up-direction" in attrs && "screen-dist" in attrs
    }

    /** The state a complete `init` leaves. */
    predicate Initialised(attrs: Attrs)
      reads this
      requires Complete(attrs)
    {
      eye == attrs["eye"].triple &&
      towards == TowardsOf(attrs) &&
      right == RightOf(TowardsOf(attrs), attrs["up-direction"].triple) &&
      up == UpOf(TowardsOf(attrs), attrs["up-direction"].triple) &&
      screenDist == attrs["screen-dist"].number &&
      screenWidth == NumberOr(attrs, "screen-width", 2.0)
    }

    /** `init(attributes)`: checks "eye", then "direction"/"look-at", then
        "up-direction", then "screen-dist", assigning each field as it goes,
        so an exception leaves the earlier fields assigned and the later ones
        as they were. */
    method Init(attrs: Attrs) returns (o: Outcome)
      modifies this
      ensures o.Pass? <==> Complete(attrs)
      ensures o.Pass? ==> Initialised(attrs)
      ensures "eye" !in attrs ==> o == Fail(IllegalArgumentException("Missing 'eye' attribute"))
      ensures "eye" in attrs && "direction" !in attrs && "look-at" !in attrs ==>
        o == Fail(IllegalArgumentException("Missing 'direction' or 'look-at' attribute"))
      ensures "eye" in attrs && ("direction" in attrs || "look-at" in attrs) && "up-direction" !in attrs ==>
        o == Fail(IllegalArgumentException("Missing 'up-direction' attribute"))
      ensures "eye" in attrs && ("direction" in attrs || "look-at" in attrs) && "up-direction" in attrs && "screen-dist" !in attrs ==>
        o == Fail(IllegalArgumentException("Missing 'screen-dist' attribute"))
      ensures eye == (if "eye" in attrs then attrs["eye"].triple else old(eye))
      ensures towards == (if "eye" in attrs && ("direction" in attrs || "look-at" in attrs) then TowardsOf(attrs) else old(towards))
      ensures "eye" in attrs && ("direction" in attrs || "look-at" in attrs) && "up-direction" in attrs ==>
        right == RightOf(TowardsOf(attrs), attrs["up-direction"].triple) && up == UpOf(TowardsOf(attrs), attrs["up-direction"].triple)
      ensures !("eye" in attrs && ("direction" in attrs || "look-at" in attrs) && "up-direction" in attrs) ==>
        right == old(right) && up == old(up)
      ensures screenDist == (if Complete(attrs) then attrs["screen-dist"].number else old(screenDist))
      ensures screenWidth == (if Complete(attrs) then NumberOr(attrs, "screen-width", 2.0) else old(screenWidth))
    {
      if "eye" !in attrs {
        return Fail(IllegalArgumentException("Missing 'eye' attribute"));
      }
      eye := attrs["eye"].triple;
      if "direction" !in attrs && "look-at" !in attrs {
        return Fail(IllegalArgumentException("Missing 'direction' or 'look-at' attribute"));
      }
      if "direction" in attrs {
        towards := attrs["direction"].triple;
      } else {
        towards := VectorToAnotherPoint(eye, attrs["look-at"].triple);
      }
      if "up-direction" !in attrs {
        return Fail(IllegalArgumentException("Missing 'up-direction' attribute"));
      }
      var tmpUp := attrs["up-direction"].triple;
      right := towards.Cross(tmpUp);
      if towards.Dot(tmpUp) == 0.0 {
        up := tmpUp;
      } else {
        up := towards.Cross(right);
      }
      if "screen-dist" !in attrs {
        return Fail(IllegalArgumentException("Missing 'screen-dist' attribute"));
      }
      screenDist := attrs["screen-dist"].number;
      if "screen-width" !in attrs {
        screenWidth := 2.0;
      } else {
        screenWidth := attrs["screen-width"].number;
      }
      o := Pass;
    }

    /** `constructRayThroughPixel`: a stub that computes eye + towards (with
        the undefined `Point3D.addVector`) and returns null. */
    function ConstructRayThroughPixel(x: real, y: real, height: real, width: real): (r: Option<RayState>)
      ensures r == None
    {
      None
    }
  }
}
