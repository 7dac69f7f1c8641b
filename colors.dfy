/** `RGB.java`: a colour is a `Triple` whose x, y, z are the red, green and
    blue channels, nominally in [0, 1]. `RGB.add` is `Vectors.Vec.Add`, since
    one class carries the three fields of every tuple. */
module Colors {
  import opened Vectors
  import RealMath

  /** `RGB()`. */
  const BLACK := ZERO

  /** `RGB(1, 1, 1)`, the default light colour. */
  const WHITE := Triple(1.0, 1.0, 1.0)

  function Red(c: Triple): real { c.x }

  function Green(c: Triple): real { c.y }

  function Blue(c: Triple): real { c.z }

  function RealRed(c: Triple): real { Red(c) * 255.0 }

  function RealGreen(c: Triple): real { Green(c) * 255.0 }

  function RealBlue(c: Triple): real { Blue(c) * 255.0 }

  /** Static `scale(s, rgb)`: a new colour, each channel times `s`. */
  function Scale(s: real, c: Triple): Triple
  {
    Triple(Red(c) * s, Green(c) * s, Blue(c) * s)
  }

  /** The accessors read back the channels a colour was built from, and the
      "real" amounts are those channels times 255. */
  lemma ChannelsOfColor(r: real, g: real, b: real)
    ensures Red(Triple(r, g, b)) == r && Green(Triple(r, g, b)) == g && Blue(Triple(r, g, b)) == b
    ensures RealRed(Triple(r, g, b)) == 255.0 * r
    ensures RealGreen(Triple(r, g, b)) == 255.0 * g
    ensures RealBlue(Triple(r, g, b)) == 255.0 * b
  {
  }

  /** `scale` is the scalar multiplication of the tuple algebra; one keeps
      the colour, zero gives black. */
  lemma ScaleIsScaled(s: real, c: Triple)
    ensures Scale(s, c) == c.Scaled(s)
    ensures Scale(1.0, c) == c
    ensures Scale(0.0, c) == BLACK
  {
  }

  /** Capping at one, as `OmniLight.getIntensityAtPoint` and
      `Scene.calcColor` do field by field: a channel above one becomes one. */
  function CapAtOne(c: Triple): Triple
  {
    Triple(if c.x > 1.0 then 1.0 else c.x,
           if c.y > 1.0 then 1.0 else c.y,
           if c.z > 1.0 then 1.0 else c.z)
  }

  predicate AtMostOne(c: Triple)
  {
    c.x <= 1.0 && c.y <= 1.0 && c.z <= 1.0
  }

  /** After capping every channel is at most one, a colour already within
      bounds is kept, capping twice changes nothing more, and each channel
      is the minimum of the original channel and one. */
  lemma CapAtOneBounds(c: Triple)
    ensures AtMostOne(CapAtOne(c))
    ensures AtMostOne(c) ==> CapAtOne(c) == c
    ensures CapAtOne(CapAtOne(c)) == CapAtOne(c)
    ensures CapAtOne(c) == Triple(RealMath.Min(c.x, 1.0), RealMath.Min(c.y, 1.0), RealMath.Min(c.z, 1.0))
  {
  }
}
