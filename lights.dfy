/** `Light.java`, `DirLight.java`, `OmniLight.java` and `SpotLight.java`.

    A light's fields are assigned only by its constructor, so a light is a
    value and each constructor is a function returning the light or the
    exception it throws. */
module Lights {
  import opened Results
  import opened Vectors
  import opened Points
  import opened Colors
  import opened Attributes
  import opened Strings
  import RealMath

  /** The three kinds of light, with the intensity `color` they share. */
  datatype Light =
    | DirLight(color: Triple, direction: Triple)
    | OmniLight(color: Triple, position: Triple, kc: real, kl: real, kq: real)
    | SpotLight(color: Triple, position: Triple, direction: Triple, kc: real, kl: real, kq: real)

  /** `Light.isLight(type)`: the lower-cased name is one of the three light
      names. */
  predicate IsLight(name: string) {
    var t := ToLower(name);
    t == "dir-light" || t == "omni-light" || t == "spot-light"
  }

  /** The name is compared after lower-casing, so case does not matter. */
  lemma IsLightIgnoresCase(name: string)
    ensures IsLight(name) == IsLight(ToLower(name))
  {
    ToLowerIdempotent(name);
  }

  /** The three light names are lights. */
  lemma IsLightNames()
    ensures IsLight("dir-light") && IsLight("omni-light") && IsLight("spot-light")
  {
    LowerNameIsLight("dir-light");
    LowerNameIsLight("omni-light");
    LowerNameIsLight("spot-light");
  }

  /** A name without upper-case letters is a light when it is one of the
      three names. */
  lemma LowerNameIsLight(name: string)
    requires name == "dir-light" || name == "omni-light" || name == "spot-light"
    ensures IsLight(name)
  {
    ToLowerOfLower(name);
  }

  /** Upper-case letters in a light name do not matter. */
  lemma IsLightUpperCase()
    ensures IsLight("OMNI-LIGHT") && IsLight("Dir-Light")
  {
    assert ToLower("OMNI-LIGHT") == "omni-light";
    assert ToLower("Dir-Light") == "dir-light";
  }

  /** The surface names, and any name whose length differs from all three
      light names, are not lights. */
  lemma IsLightOtherNames(name: string)
    requires |name| != 9 && |name| != 10
    ensures !IsLight(name)
    ensures !IsLight("sphere") && !IsLight("disc") && !IsLight("poly")
  {
    assert |ToLower("sphere")| == 6 && |ToLower("disc")| == 4 && |ToLower("poly")| == 4;
  }

  /** The light colour: the "color" attribute or white. */
  function LightColor(attrs: Attrs): Triple {
    TripleOr(attrs, "color", WHITE)
  }

  /** `new DirLight(attributes)`: "direction" is required and stored as
      given, without normalising. */
  function NewDirLight(attrs: Attrs): Result<Light> {
    if "direction" !in attrs then Failure(IllegalArgumentException("Missing 'direction' attribute"))
    else Success(DirLight(LightColor(attrs), attrs["direction"].triple))
  }

  lemma NewDirLightOutcome(attrs: Attrs)
    ensures NewDirLight(attrs).Failure? <==> "direction" !in attrs
    ensures NewDirLight(attrs).Failure? ==> NewDirLight(attrs).error == IllegalArgumentException("Missing 'direction' attribute")
    ensures NewDirLight(attrs).Success? ==>
      var l := NewDirLight(attrs).value;
      l.DirLight? && l.direction == attrs["direction"].triple &&
      ("color" in attrs ==> l.color == attrs["color"].triple) &&
      ("color" !in attrs ==> l.color == WHITE)
  {
  }

  /** `new OmniLight(attributes)`: "pos" is required; kc, kl and kq default
      to 1, 0 and 0. */
  function NewOmniLight(attrs: Attrs): Result<Light> {
    if "pos" !in attrs then Failure(IllegalArgumentException("Missing 'pos' attribute"))
    else Success(OmniLight(LightColor(attrs), attrs["pos"].triple,
      NumberOr(attrs, "kc", 1.0), NumberOr(attrs, "kl", 0.0), NumberOr(attrs, "kq", 0.0)))
  }

  lemma NewOmniLightOutcome(attrs: Attrs)
    ensures NewOmniLight(attrs).Failure? <==> "pos" !in attrs
    ensures NewOmniLight(attrs).Failure? ==> NewOmniLight(attrs).error == IllegalArgumentException("Missing 'pos' attribute")
    ensures NewOmniLight(attrs).Success? ==>
      var l := NewOmniLight(attrs).value;
      l.OmniLight? && l.position == attrs["pos"].triple &&
      ("color" in attrs ==> l.color == attrs["color"].triple) && ("color" !in attrs ==> l.color == WHITE) &&
      ("kc" in attrs ==> l.kc == attrs["kc"].number) && ("kc" !in attrs ==> l.kc == 1.0) &&
      ("kl" in attrs ==> l.kl == attrs["kl"].number) && ("kl" !in attrs ==> l.kl == 0.0) &&
      ("kq" in attrs ==> l.kq == attrs["kq"].number) && ("kq" !in attrs ==> l.kq == 0.0)
  {
  }

  /** `new SpotLight(attributes)`: "position" is checked before "direction";
      "attenuation" holds kc, kl and kq, by default 1, 0 and 0. */
  function NewSpotLight(attrs: Attrs): Result<Light> {
    if "position" !in attrs then Failure(IllegalArgumentException("Missing 'position' attribute"))
    else if "direction" !in attrs then Failure(IllegalArgumentException("Missing 'direction' attribute"))
    else
      var k := TripleOr(attrs, "attenuation", Triple(1.0, 0.0, 0.0));
      Success(SpotLight(LightColor(attrs), attrs["position"].triple, attrs["direction"].triple, k.x, k.y, k.z))
  }

  lemma NewSpotLightOutcome(attrs: Attrs)
    ensures NewSpotLight(attrs).Failure? <==> "position" !in attrs || "direction" !in attrs
    ensures "position" !in attrs ==> NewSpotLight(attrs) == Failure(IllegalArgumentException("Missing 'position' attribute"))
    ensures "position" in attrs && "direction" !in attrs ==>
      NewSpotLight(attrs) == Failure(IllegalArgumentException("Missing 'direction' attribute"))
    ensures NewSpotLight(attrs).Success? ==>
      var l := NewSpotLight(attrs).value;
      l.SpotLight? && l.position == attrs["position"].triple && l.direction == attrs["direction"].triple &&
      ("color" in attrs ==> l.color == attrs["color"].triple) && ("color" !in attrs ==> l.color == WHITE) &&
      ("attenuation" in attrs ==> Triple(l.kc, l.kl, l.kq) == attrs["attenuation"].triple) &&
      ("attenuation" !in attrs ==> l.kc == 1.0 && l.kl == 0.0 && l.kq == 0.0)
  {
  }

  /** The attenuation divisor kc + kl d + kq d^2 at distance d. */
  function Attenuation(l: Light, d: real): real
    requires l.OmniLight? || l.SpotLight?
  {
    l.kc + l.kl * d + l.kq * d * d
  }

  /** `getIntensityAtPoint(p)`. A directional light gives its colour; an omni
      light its colour divided by the attenuation at distance d from its
      position, each channel then capped at 1; a spot light its colour
      times direction.(p - position) over the attenuation, with no cap and
      no max(0). A zero divisor has no real quotient: `NotFinite`. */
  function IntensityAtPoint(l: Light, p: Triple): Result<Triple> {
    match l
    case DirLight(color, _) => Success(color)
    case OmniLight(color, position, _, _, _) =>
      var denominator := Attenuation(l, Distance(p, position));
      if denominator == 0.0 then Failure(NotFinite)
      else Success(CapAtOne(Scale(1.0 / denominator, color)))
    case SpotLight(color, position, direction, _, _, _) =>
      var denominator := Attenuation(l, Distance(p, position));
      if denominator == 0.0 then Failure(NotFinite)
      else Success(Scale(direction.Dot(VectorBetweenTwoPoints(position, p)) / denominator, color))
  }

  /** `OmniLight.getPosition`. */
  function GetPosition(l: Light): Triple
    requires l.OmniLight?
  {
    l.position
  }

  /** `getPosition` returns the "pos" attribute the light was built from. */
  lemma GetPositionOfNew(attrs: Attrs)
    requires NewOmniLight(attrs).Success?
    ensures GetPosition(NewOmniLight(attrs).value) == attrs["pos"].triple
  {
  }

  /** A directional light's intensity is its colour at every point. */
  lemma DirIntensityConstant(l: Light, p: Triple, q: Triple)
    requires l.DirLight?
    ensures IntensityAtPoint(l, p) == Success(l.color)
    ensures IntensityAtPoint(l, p) == IntensityAtPoint(l, q)
  {
  }

  /** Every channel of an omni light's intensity is at most 1, and below the
      cap it is the colour channel over the attenuation. */
  lemma OmniIntensityCapped(l: Light, p: Triple)
    requires l.OmniLight?
    ensures IntensityAtPoint(l, p).Failure? <==> Attenuation(l, Distance(p, l.position)) == 0.0
    ensures IntensityAtPoint(l, p).Success? ==>
      var w := 1.0 / Attenuation(l, Distance(p, l.position));
      var i := IntensityAtPoint(l, p).value;
      AtMostOne(i) && i == Triple(RealMath.Min(w * l.color.x, 1.0), RealMath.Min(w * l.color.y, 1.0), RealMath.Min(w * l.color.z, 1.0))
  {
    var d := Attenuation(l, Distance(p, l.position));
    if d != 0.0 {
      var c := Scale(1.0 / d, l.color);
      CapAtOneBounds(c);
      ScaleIsScaled(1.0 / d, l.color);
    }
  }

  /** With the default attenuation an omni light gives min(color, 1) per
      channel at every point. */
  lemma OmniDefaultAttenuation(l: Light, p: Triple)
    requires l.OmniLight? && l.kc == 1.0 && l.kl == 0.0 && l.kq == 0.0
    ensures IntensityAtPoint(l, p) == Success(Triple(RealMath.Min(l.color.x, 1.0), RealMath.Min(l.color.y, 1.0), RealMath.Min(l.color.z, 1.0)))
  {
    var d := Distance(p, l.position);
    assert Attenuation(l, d) == 1.0;
    ScaleIsScaled(1.0, l.color);
    CapAtOneBounds(l.color);
  }

  lemma QuotientNegative(a: real, b: real)
    requires a < 0.0 && 0.0 < b
    ensures a / b < 0.0
  {
  }

  lemma ProductNegative(a: real, b: real)
    requires a < 0.0 && 0.0 < b
    ensures a * b < 0.0
  {
  }

  /** A spot light gives black at points orthogonal to its direction, and a
      negative value in every positive channel behind it. */
  lemma SpotIntensitySign(l: Light, p: Triple)
    requires l.SpotLight?
    requires Attenuation(l, Distance(p, l.position)) > 0.0
    ensures IntensityAtPoint(l, p).Success?
    ensures l.direction.Dot(VectorBetweenTwoPoints(l.position, p)) == 0.0 ==> IntensityAtPoint(l, p).value == BLACK
    ensures l.direction.Dot(VectorBetweenTwoPoints(l.position, p)) < 0.0 ==>
      var i := IntensityAtPoint(l, p).value;
      (l.color.x > 0.0 ==> i.x < 0.0) && (l.color.y > 0.0 ==> i.y < 0.0) && (l.color.z > 0.0 ==> i.z < 0.0)
  {
    var a := l.direction.Dot(VectorBetweenTwoPoints(l.position, p));
    var d := Attenuation(l, Distance(p, l.position));
    ScaleIsScaled(a / d, l.color);
    if a < 0.0 {
      QuotientNegative(a, d);
      if l.color.x > 0.0 { ProductNegative(a / d, l.color.x); }
      if l.color.y > 0.0 { ProductNegative(a / d, l.color.y); }
      if l.color.z > 0.0 { ProductNegative(a / d, l.color.z); }
    }
  }
}
