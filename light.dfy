/**
 * The colour-and-intensity value `Light` (four `uint8_t` channels) and its
 * component-wise operations.
 */
module Lights {
  import opened CInts

  datatype Light = Light(r: Byte, g: Byte, b: Byte, a: Byte)

  /** What the default constructor makes: every channel 0. */
  const DARK: Light := Light(0, 0, 0, 0)

  /** `operator==`: all four channels agree. */
  predicate Equal(l: Light, other: Light)
  {
    l.r == other.r && l.g == other.g && l.b == other.b && l.a == other.a
  }

  /** `operator!=`. */
  predicate NotEqual(l: Light, other: Light)
  {
    !Equal(l, other)
  }

  lemma EqualIsIdentity(l: Light, other: Light)
    ensures Equal(l, other) <==> l == other
    ensures NotEqual(l, other) <==> l != other
  {
  }

  /** Least upper bound of one channel. */
  predicate IsChannelMax(m: int, x: int, y: int)
  {
    m >= x && m >= y && (m == x || m == y)
  }

  /** `max`: the channel-wise maximum of two lights. */
  function Max(l: Light, other: Light): (m: Light)
    ensures IsChannelMax(m.r, l.r, other.r) && IsChannelMax(m.g, l.g, other.g)
    ensures IsChannelMax(m.b, l.b, other.b) && IsChannelMax(m.a, l.a, other.a)
  {
    Light(CInts.Max(l.r, other.r), CInts.Max(l.g, other.g),
          CInts.Max(l.b, other.b), CInts.Max(l.a, other.a))
  }

  lemma MaxCommutative(l: Light, other: Light)
    ensures Max(l, other) == Max(other, l)
  {
  }

  lemma MaxIdempotent(l: Light)
    ensures Max(l, l) == l
  {
  }

  lemma MaxAssociative(x: Light, y: Light, z: Light)
    ensures Max(Max(x, y), z) == Max(x, Max(y, z))
  {
  }

  /** `smaller`: some channel of `l` is strictly below the same channel of `other`. */
  predicate Smaller(l: Light, other: Light)
  {
    l.r < other.r || l.g < other.g || l.b < other.b || l.a < other.a
  }

  /** `l` is smaller than `other` exactly when taking the maximum with `other` changes `l`. */
  lemma SmallerIffMaxChanges(l: Light, other: Light)
    ensures Smaller(l, other) <==> Max(l, other) != l
    ensures !Smaller(Max(l, other), l) && !Smaller(Max(l, other), other)
  {
  }

  /** `setmax(l)`: the value `*this` holds afterwards. */
  function SetMax(this_: Light, l: Light): (after: Light)
    ensures !Smaller(after, this_) && !Smaller(after, l)
    ensures after == this_ <==> !Smaller(this_, l)
  {
    Max(this_, l)
  }

  /** Applying `setmax` twice with the same light changes nothing more. */
  lemma SetMaxIdempotent(this_: Light, l: Light)
    ensures SetMax(SetMax(this_, l), l) == SetMax(this_, l)
  {
  }

  /** One channel scaled by `intensity / 255`, in integer arithmetic. */
  function Scale(c: Byte, intensity: Byte): (s: Byte)
    ensures s <= c
    ensures intensity == 255 ==> s == c
    ensures intensity == 0 ==> s == 0
  {
    ScaleBound(c, intensity);
    c * intensity / 255
  }

  lemma ScaleBound(c: Byte, intensity: Byte)
    ensures 0 <= c * intensity / 255 <= c
  {
    assert 0 <= c * intensity <= c * 255;
    ModUnique(c * 255, 255, c, 0);
  }

  /** `setIntensity(i)`: the alpha becomes `i` and every colour channel is scaled by `i/255`. */
  function SetIntensity(l: Light, intensity: Byte): (s: Light)
    ensures s.a == intensity
    ensures s.r <= l.r && s.g <= l.g && s.b <= l.b
    ensures s.r == Scale(l.r, intensity) && s.g == Scale(l.g, intensity) && s.b == Scale(l.b, intensity)
    ensures intensity == 255 ==> s == l.(a := 255)
  {
    Light(Scale(l.r, intensity), Scale(l.g, intensity), Scale(l.b, intensity), intensity)
  }

  /** `useSky(sky)`: this light combined with the sky's colour at this light's intensity. */
  function UseSky(l: Light, sky: Light): (lit: Light)
    ensures lit.a == l.a
    ensures !Smaller(lit, l)
    ensures lit.r <= CInts.Max(l.r, sky.r) && lit.g <= CInts.Max(l.g, sky.g) && lit.b <= CInts.Max(l.b, sky.b)
  {
    Max(l, SetIntensity(sky, l.a))
  }

  /** Under a full-white sky, only the alpha matters: every colour channel becomes at least the alpha. */
  lemma UseWhiteSky(l: Light)
    ensures UseSky(l, Light(255, 255, 255, 255)) == Light(CInts.Max(l.r, l.a), CInts.Max(l.g, l.a), CInts.Max(l.b, l.a), l.a)
  {
    ModUnique(255 * l.a, 255, l.a, 0);
  }
}
