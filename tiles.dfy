/**
 * The tile-type enumeration of the world map, the edge classes used to pick
 * sprites, and the per-type attributes that each tile reads from its JSON
 * description (here supplied by the caller as a `TileProps` record).
 */
module Tiles {

  /** `enum class TileType`, by its numeric value (the value written to save files). */
  type TileType = t: int | 0 <= t <= 28

  const EMPTY: TileType := 0
  const WATER: TileType := 1
  const DIRT: TileType := 2
  const TOPSOIL: TileType := 3
  const CLAY: TileType := 4
  const CALCAREOUS_OOZE: TileType := 5
  const SNOW: TileType := 6
  const ICE: TileType := 7
  const STONE: TileType := 8
  const GRANITE: TileType := 9
  const BASALT: TileType := 10
  const LIMESTONE: TileType := 11
  const MUDSTONE: TileType := 12
  const PERIDOTITE: TileType := 13
  const SANDSTONE: TileType := 14
  const RED_SANDSTONE: TileType := 15
  const PLATFORM: TileType := 16
  const LUMBER: TileType := 17
  const RED_BRICK: TileType := 18
  const GRAY_BRICK: TileType := 19
  const DARK_BRICK: TileType := 20
  const GLASS: TileType := 21
  const GLOWSTONE: TileType := 22
  const TORCH: TileType := 23
  const SAND: TileType := 24
  const MUD: TileType := 25
  const CLOUD: TileType := 26
  const BOULDER: TileType := 27
  const GLACIER: TileType := 28

  const FIRST_TILE: TileType := EMPTY
  /** The first tile type that has an equivalent item. */
  const FIRST_ITEMED_TILE: TileType := DIRT
  const LAST_TILE: TileType := GLACIER
  /** The last tile type that is a plain `Tile` (not a subclass). */
  const LAST_PURE_TILE: TileType := TORCH
  const FIRST_BOULDER: TileType := SAND
  const LAST_BOULDER: TileType := GLACIER

  /** The enumerators of `TileType`, in declaration order. */
  const TILE_TYPE_NAMES: seq<string> := [
    "EMPTY", "WATER", "DIRT", "TOPSOIL", "CLAY", "CALCAREOUS_OOZE", "SNOW",
    "ICE", "STONE", "GRANITE", "BASALT", "LIMESTONE", "MUDSTONE", "PERIDOTITE",
    "SANDSTONE", "RED_SANDSTONE", "PLATFORM", "LUMBER", "RED_BRICK",
    "GRAY_BRICK", "DARK_BRICK", "GLASS", "GLOWSTONE", "TORCH", "SAND", "MUD",
    "CLOUD", "BOULDER", "GLACIER"]

  /** `EdgeType`: tiles of the same edge class count as next to each other. */
  datatype EdgeType = LiquidEdge | SolidEdge | PlatformEdge | SolitaryEdge | TorchEdge

  /** The attributes a tile type loads from its JSON file. */
  datatype TileProps = TileProps(
    canBackground: TileType -> bool,
    isAnimated: TileType -> bool,
    maxHealth: TileType -> int,
    tier: TileType -> int,
    edge: TileType -> EdgeType,
    /** Number of columns of the spritesheet. */
    cols: TileType -> nat,
    hasTexture: TileType -> bool,
    isSky: TileType -> bool,
    name: TileType -> string)

  /**
   * `numSprites`: the number of sprite columns per layer. A tile that can
   * also sit in the background keeps its background variants in the right
   * half of the sheet, so each layer gets half of the columns.
   */
  function NumSprites(props: TileProps, t: TileType): (n: nat)
    ensures props.canBackground(t) ==> 2 * n <= props.cols(t) < 2 * n + 2
    ensures !props.canBackground(t) ==> n == props.cols(t)
  {
    props.cols(t) / (2 - (if props.canBackground(t) then 0 else 1))
  }

  /**
   * `getTier`: declared as returning `bool`, so the stored tier is reported
   * as 0 or 1, not as its value.
   */
  function GetTier(props: TileProps, t: TileType): (tierAsBool: int)
    ensures tierAsBool == 0 || tierAsBool == 1
    ensures tierAsBool == 0 <==> props.tier(t) == 0
  {
    if props.tier(t) != 0 then 1 else 0
  }
}
