/**
 * Small value types shared by the map: layers, locations and their set
 * order, per-tile damage records, biomes, the per-cell `SpaceInfo`, and the
 * one-byte encoding of a spritesheet position.
 */
module MapHelpers {
  import opened CInts
  import opened Tiles
  import opened Lights

  /** `enum class MapLayer`. */
  datatype MapLayer = Foreground | Background | Liquid | NoLayer

  /** The enumerator's integer value, used by the location order. */
  function LayerIndex(layer: MapLayer): (i: int)
    ensures 0 <= i < 4
  {
    match layer
    case Foreground => 0
    case Background => 1
    case Liquid => 2
    case NoLayer => 3
  }

  lemma LayerIndexInjective(l1: MapLayer, l2: MapLayer)
    ensures LayerIndex(l1) == LayerIndex(l2) <==> l1 == l2
  {
  }

  datatype Location = Location(x: int, y: int, layer: MapLayer)

  /** `Location::operator==`: x, y and layer all agree. */
  predicate Equals(a: Location, b: Location)
  {
    b.x == a.x && b.y == a.y && b.layer == a.layer
  }

  /** `Location::operator!=`. */
  predicate NotEquals(a: Location, b: Location)
  {
    !Equals(a, b)
  }

  /**
   * `Location::operator<`: a location is smaller when it is higher up (larger
   * y); on the same row when it is further left (smaller x); at the same
   * place when its layer comes first.
   */
  predicate Less(a: Location, b: Location)
  {
    if a.y != b.y then a.y > b.y
    else if a.x != b.x then a.x < b.x
    else LayerIndex(a.layer) < LayerIndex(b.layer)
  }

  lemma EqualsIsIdentity(a: Location, b: Location)
    ensures Equals(a, b) <==> a == b
    ensures NotEquals(a, b) <==> a != b
  {
  }

  /** The order is the lexicographic order on (-y, x, layer). */
  lemma LessIsLexicographic(a: Location, b: Location)
    ensures Less(a, b) <==>
      (-a.y < -b.y) ||
      (a.y == b.y && a.x < b.x) ||
      (a.y == b.y && a.x == b.x && LayerIndex(a.layer) < LayerIndex(b.layer))
  {
  }

  lemma LessIrreflexive(a: Location)
    ensures !Less(a, a)
  {
  }

  lemma LessTransitive(a: Location, b: Location, c: Location)
    requires Less(a, b) && Less(b, c)
    ensures Less(a, c)
  {
  }

  /**
   * Exactly one of `a < b`, `b < a`, `a == b` holds, so the order is a valid
   * strict weak (indeed total) ordering for `std::set<Location>`.
   */
  lemma LessTrichotomous(a: Location, b: Location)
    ensures Less(a, b) || Less(b, a) || Equals(a, b)
    ensures !(Less(a, b) && Less(b, a))
    ensures Equals(a, b) ==> !Less(a, b) && !Less(b, a)
  {
    LayerIndexInjective(a.layer, b.layer);
  }

  /** `struct TileHealth`: a damaged tile, its remaining health and the tick it was last hit. */
  datatype TileHealth = TileHealth(place: Location, health: int, lastUpdated: int)

  /** `enum class BiomeType`, by its numeric value (the value written to save files). */
  type BiomeType = b: int | 0 <= b <= 18

  const TUNDRA: BiomeType := 0
  const TAIGA: BiomeType := 1
  const GRASSLAND: BiomeType := 2
  const WOODLAND: BiomeType := 3
  const JUNGLE: BiomeType := 4
  const SAVANNAH: BiomeType := 5
  const SCRUB: BiomeType := 6
  const DESERT: BiomeType := 7
  const TALLGRASS: BiomeType := 8
  const BENTHIC: BiomeType := 18

  /** `struct SpaceInfo`: what one map cell holds. */
  datatype SpaceInfo = SpaceInfo(
    foreground: TileType,
    background: TileType,
    light: Light,
    sunlight: Light,
    isLightUpdated: bool,
    lightRemoved: bool,
    lightAdded: bool,
    foregroundSprite: Byte,
    backgroundSprite: Byte)

  /** The `SpaceInfo` constructor. */
  function NewSpaceInfo(): (s: SpaceInfo)
    ensures s.foreground == EMPTY && s.background == EMPTY
    ensures !s.isLightUpdated && !s.lightRemoved && !s.lightAdded
    ensures s.foregroundSprite == 0 && s.backgroundSprite == 0
    ensures s.light == DARK && s.sunlight == DARK
  {
    SpaceInfo(EMPTY, EMPTY, DARK, DARK, false, false, false, 0, 0)
  }

  /**
   * `toSpritePlace(x, y)`: column `x` and row `y` of a 16-row spritesheet
   * packed into one byte as `16*x + y`; the store into `uint8_t` keeps the
   * value modulo 256.
   */
  function ToSpritePlace(x: int, y: int): (p: Byte)
    ensures 0 <= x < 16 && 0 <= y < 16 ==> p == 16 * x + y
    ensures (16 * x + y - p) % 256 == 0
  {
    ToByte(16 * x + y)
  }

  /** `toSpritePlace(place)`. */
  function ToSpritePlaceAt(place: Location): (p: Byte)
    ensures 0 <= place.x < 16 && 0 <= place.y < 16 ==> p == 16 * place.x + place.y
  {
    ToSpritePlace(place.x, place.y)
  }

  /** `getX`: the spritesheet column stored in a byte. */
  function GetX(spritePlace: Byte): (x: int)
    ensures 0 <= x < 16
  {
    spritePlace / 16
  }

  /** `getY`: the spritesheet row stored in a byte. */
  function GetY(spritePlace: Byte): (y: int)
    ensures 0 <= y < 16
  {
    spritePlace % 16
  }

  /**
   * `fromSpritePlace(place, p)`: fills in `place.x` and `place.y` from the
   * byte and leaves `place.layer` as it was.
   */
  function FromSpritePlace(place: Location, spritePlace: Byte): (decoded: Location)
    ensures decoded.layer == place.layer
    ensures 0 <= decoded.x < 16 && 0 <= decoded.y < 16
    ensures 16 * decoded.x + decoded.y == spritePlace
  {
    place.(x := spritePlace / 16, y := spritePlace % 16)
  }

  /** `getX`/`getY` agree with `fromSpritePlace`. */
  lemma GetXYAgree(place: Location, spritePlace: Byte)
    ensures FromSpritePlace(place, spritePlace).x == GetX(spritePlace)
    ensures FromSpritePlace(place, spritePlace).y == GetY(spritePlace)
  {
  }

  /** Decoding an encoded in-range place gives the column and row back. */
  lemma {:induction false} SpritePlaceRoundTrip(place: Location, x: int, y: int)
    requires 0 <= x < 16 && 0 <= y < 16
    ensures FromSpritePlace(place, ToSpritePlace(x, y)) == place.(x := x, y := y)
  {
    ModUnique(16 * x + y, 16, x, y);
  }

  /** Encoding a decoded byte gives the byte back, for every byte. */
  lemma ByteRoundTrip(place: Location, spritePlace: Byte)
    ensures ToSpritePlaceAt(FromSpritePlace(place, spritePlace)) == spritePlace
    ensures ToSpritePlace(GetX(spritePlace), GetY(spritePlace)) == spritePlace
  {
  }

  /** Columns 16 apart share a byte: the column is only kept modulo 16. */
  lemma SpritePlaceColumnWraps(x: int, y: int)
    ensures ToSpritePlace(x + 16, y) == ToSpritePlace(x, y)
  {
    ModAddMultiple(16 * x + y, 256, 1);
  }
}
