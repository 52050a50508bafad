/**
 * Items (`Item.cc`, `action/Block.cc`, `action/Pickaxe.cc`,
 * `action/Potion.cc`): the JSON file an item type reads, the stack that a
 * use of a consumable item takes one from, and what using a block, a
 * pickaxe or a potion does to the map and to the player.
 */
module Items {
  import opened CInts
  import opened Tiles
  import opened MapHelpers
  import opened MapCells
  import opened TileMap
  import opened Actions
  import opened ItemMaker
  import opened Stats
  import opened Rects
  import opened Players

  /** The stack a new item starts with. */
  const NEW_STACK: int := 957

  /**
   * The names `getJsonFilename`'s switch gives, by `ActionType`; the three
   * types it has no case for (GLASS, GLOWSTONE, TORCH) reach `assert(false)`.
   */
  const ITEM_FILE_NAMES: seq<Option<string>> := [
    Some("dirt"), Some("topsoil"), Some("clay"), Some("calcareous_ooze"), Some("snow"),
    Some("ice"), Some("stone"), Some("granite"), Some("basalt"), Some("limestone"),
    Some("mudstone"), Some("peridotite"), Some("sandstone"), Some("red_sandstone"),
    Some("platform"), Some("lumber"), Some("red_brick"), Some("gray_brick"),
    Some("dark_brick"), None, None, None, Some("sand"), Some("mud"), Some("cloud"),
    Some("boulder"), Some("glacier"), Some("pickaxe"), Some("maple_leaf"),
    Some("health_potion")]

  /** `getJsonFilename` as written: `None` where the switch asserts. */
  function GetJsonFilenameAsWritten(t: ActionType): Option<string>
  {
    match ITEM_FILE_NAMES[t]
    case Some(name) => Some("items/" + name + ".json")
    case None => None
  }

  /** A letter in lower case; other characters stay. */
  function LowerChar(c: char): char
  {
    if 'A' <= c <= 'Z' then (c as int - 'A' as int + 'a' as int) as char else c
  }

  /** A name in lower case. */
  function Lower(s: string): (r: string)
    ensures |r| == |s|
  {
    seq(|s|, i requires 0 <= i < |s| => LowerChar(s[i]))
  }

  /**
   * `getJsonFilename` as evidently intended: every type's file is its
   * enumerator's name in lower case, under `items/`.
   */
  function GetJsonFilename(t: ActionType): (file: string)
    ensures |file| == |ACTION_TYPE_NAMES[t]| + 11
    ensures file[6 .. |file| - 5] == Lower(ACTION_TYPE_NAMES[t])
  {
    var file := "items/" + Lower(ACTION_TYPE_NAMES[t]) + ".json";
    assert file[6 .. |file| - 5] == Lower(ACTION_TYPE_NAMES[t]);
    file
  }

  /** The switch's names for DIRT, TOPSOIL, CLAY are their enumerators' names in lower case. */
  lemma SwitchNames0()
    ensures ITEM_FILE_NAMES[0] == Some(Lower(ACTION_TYPE_NAMES[0]))
    ensures ITEM_FILE_NAMES[1] == Some(Lower(ACTION_TYPE_NAMES[1]))
    ensures ITEM_FILE_NAMES[2] == Some(Lower(ACTION_TYPE_NAMES[2]))
  {
    assert ACTION_TYPE_NAMES[0] == "DIRT" && ITEM_FILE_NAMES[0] == Some("dirt");
    assert Lower("DIRT") == "dirt";
    assert ACTION_TYPE_NAMES[1] == "TOPSOIL" && ITEM_FILE_NAMES[1] == Some("topsoil");
    assert Lower("TOPSOIL") == "topsoil";
    assert ACTION_TYPE_NAMES[2] == "CLAY" && ITEM_FILE_NAMES[2] == Some("clay");
    assert Lower("CLAY") == "clay";
  }

  /** The switch's names for CALCAREOUS_OOZE, SNOW, ICE are their enumerators' names in lower case. */
  lemma SwitchNames1()
    ensures ITEM_FILE_NAMES[3] == Some(Lower(ACTION_TYPE_NAMES[3]))
    ensures ITEM_FILE_NAMES[4] == Some(Lower(ACTION_TYPE_NAMES[4]))
    ensures ITEM_FILE_NAMES[5] == Some(Lower(ACTION_TYPE_NAMES[5]))
  {
    assert ACTION_TYPE_NAMES[3] == "CALCAREOUS_OOZE" && ITEM_FILE_NAMES[3] == Some("calcareous_ooze");
    assert Lower("CALCAREOUS_OOZE") == "calcareous_ooze";
    assert ACTION_TYPE_NAMES[4] == "SNOW" && ITEM_FILE_NAMES[4] == Some("snow");
    assert Lower("SNOW") == "snow";
    assert ACTION_TYPE_NAMES[5] == "ICE" && ITEM_FILE_NAMES[5] == Some("ice");
    assert Lower("ICE") == "ice";
  }

  /** The switch's names for STONE, GRANITE, BASALT are their enumerators' names in lower case. */
  lemma SwitchNames2()
    ensures ITEM_FILE_NAMES[6] == Some(Lower(ACTION_TYPE_NAMES[6]))
    ensures ITEM_FILE_NAMES[7] == Some(Lower(ACTION_TYPE_NAMES[7]))
    ensures ITEM_FILE_NAMES[8] == Some(Lower(ACTION_TYPE_NAMES[8]))
  {
    assert ACTION_TYPE_NAMES[6] == "STONE" && ITEM_FILE_NAMES[6] == Some("stone");
    assert Lower("STONE") == "stone";
    assert ACTION_TYPE_NAMES[7] == "GRANITE" && ITEM_FILE_NAMES[7] == Some("granite");
    assert Lower("GRANITE") == "granite";
    assert ACTION_TYPE_NAMES[8] == "BASALT" && ITEM_FILE_NAMES[8] == Some("basalt");
    assert Lower("BASALT") == "basalt";
  }

  /** The switch's names for LIMESTONE, MUDSTONE, PERIDOTITE are their enumerators' names in lower case. */
  lemma SwitchNames3()
    ensures ITEM_FILE_NAMES[9] == Some(Lower(ACTION_TYPE_NAMES[9]))
    ensures ITEM_FILE_NAMES[10] == Some(Lower(ACTION_TYPE_NAMES[10]))
    ensures ITEM_FILE_NAMES[11] == Some(Lower(ACTION_TYPE_NAMES[11]))
  {
    assert ACTION_TYPE_NAMES[9] == "LIMESTONE" && ITEM_FILE_NAMES[9] == Some("limestone");
    assert Lower("LIMESTONE") == "limestone";
    assert ACTION_TYPE_NAMES[10] == "MUDSTONE" && ITEM_FILE_NAMES[10] == Some("mudstone");
    assert Lower("MUDSTONE") == "mudstone";
    assert ACTION_TYPE_NAMES[11] == "PERIDOTITE" && ITEM_FILE_NAMES[11] == Some("peridotite");
    assert Lower("PERIDOTITE") == "peridotite";
  }

  /** The switch's names for SANDSTONE, RED_SANDSTONE, PLATFORM are their enumerators' names in lower case. */
  lemma SwitchNames4()
    ensures ITEM_FILE_NAMES[12] == Some(Lower(ACTION_TYPE_NAMES[12]))
    ensures ITEM_FILE_NAMES[13] == Some(Lower(ACTION_TYPE_NAMES[13]))
    ensures ITEM_FILE_NAMES[14] == Some(Lower(ACTION_TYPE_NAMES[14]))
  {
    assert ACTION_TYPE_NAMES[12] == "SANDSTONE" && ITEM_FILE_NAMES[12] == Some("sandstone");
    assert Lower("SANDSTONE") == "sandstone";
    assert ACTION_TYPE_NAMES[13] == "RED_SANDSTONE" && ITEM_FILE_NAMES[13] == Some("red_sandstone");
    assert Lower("RED_SANDSTONE") == "red_sandstone";
    assert ACTION_TYPE_NAMES[14] == "PLATFORM" && ITEM_FILE_NAMES[14] == Some("platform");
    assert Lower("PLATFORM") == "platform";
  }

  /** The switch's names for LUMBER, RED_BRICK, GRAY_BRICK are their enumerators' names in lower case. */
  lemma SwitchNames5()
    ensures ITEM_FILE_NAMES[15] == Some(Lower(ACTION_TYPE_NAMES[15]))
    ensures ITEM_FILE_NAMES[16] == Some(Lower(ACTION_TYPE_NAMES[16]))
    ensures ITEM_FILE_NAMES[17] == Some(Lower(ACTION_TYPE_NAMES[17]))
  {
    assert ACTION_TYPE_NAMES[15] == "LUMBER" && ITEM_FILE_NAMES[15] == Some("lumber");
    assert Lower("LUMBER") == "lumber";
    assert ACTION_TYPE_NAMES[16] == "RED_BRICK" && ITEM_FILE_NAMES[16] == Some("red_brick");
    assert Lower("RED_BRICK") == "red_brick";
    assert ACTION_TYPE_NAMES[17] == "GRAY_BRICK" && ITEM_FILE_NAMES[17] == Some("gray_brick");
    assert Lower("GRAY_BRICK") == "gray_brick";
  }

  /** The switch's names for DARK_BRICK, SAND, MUD are their enumerators' names in lower case. */
  lemma SwitchNames6()
    ensures ITEM_FILE_NAMES[18] == Some(Lower(ACTION_TYPE_NAMES[18]))
    ensures ITEM_FILE_NAMES[22] == Some(Lower(ACTION_TYPE_NAMES[22]))
    ensures ITEM_FILE_NAMES[23] == Some(Lower(ACTION_TYPE_NAMES[23]))
  {
    assert ACTION_TYPE_NAMES[18] == "DARK_BRICK" && ITEM_FILE_NAMES[18] == Some("dark_brick");
    assert Lower("DARK_BRICK") == "dark_brick";
    assert ACTION_TYPE_NAMES[22] == "SAND" && ITEM_FILE_NAMES[22] == Some("sand");
    assert Lower("SAND") == "sand";
    assert ACTION_TYPE_NAMES[23] == "MUD" && ITEM_FILE_NAMES[23] == Some("mud");
    assert Lower("MUD") == "mud";
  }

  /** The switch's names for CLOUD, BOULDER, GLACIER are their enumerators' names in lower case. */
  lemma SwitchNames7()
    ensures ITEM_FILE_NAMES[24] == Some(Lower(ACTION_TYPE_NAMES[24]))
    ensures ITEM_FILE_NAMES[25] == Some(Lower(ACTION_TYPE_NAMES[25]))
    ensures ITEM_FILE_NAMES[26] == Some(Lower(ACTION_TYPE_NAMES[26]))
  {
    assert ACTION_TYPE_NAMES[24] == "CLOUD" && ITEM_FILE_NAMES[24] == Some("cloud");
    assert Lower("CLOUD") == "cloud";
    assert ACTION_TYPE_NAMES[25] == "BOULDER" && ITEM_FILE_NAMES[25] == Some("boulder");
    assert Lower("BOULDER") == "boulder";
    assert ACTION_TYPE_NAMES[26] == "GLACIER" && ITEM_FILE_NAMES[26] == Some("glacier");
    assert Lower("GLACIER") == "glacier";
  }

  /** The switch's names for PICKAXE, MAPLE_LEAF, HEALTH_POTION are their enumerators' names in lower case. */
  lemma SwitchNames8()
    ensures ITEM_FILE_NAMES[27] == Some(Lower(ACTION_TYPE_NAMES[27]))
    ensures ITEM_FILE_NAMES[28] == Some(Lower(ACTION_TYPE_NAMES[28]))
    ensures ITEM_FILE_NAMES[29] == Some(Lower(ACTION_TYPE_NAMES[29]))
  {
    assert ACTION_TYPE_NAMES[27] == "PICKAXE" && ITEM_FILE_NAMES[27] == Some("pickaxe");
    assert Lower("PICKAXE") == "pickaxe";
    assert ACTION_TYPE_NAMES[28] == "MAPLE_LEAF" && ITEM_FILE_NAMES[28] == Some("maple_leaf");
    assert Lower("MAPLE_LEAF") == "maple_leaf";
    assert ACTION_TYPE_NAMES[29] == "HEALTH_POTION" && ITEM_FILE_NAMES[29] == Some("health_potion");
    assert Lower("HEALTH_POTION") == "health_potion";
  }

  /**
   * The switch follows that rule wherever it has a case, and it has a case
   * for every type but GLASS, GLOWSTONE and TORCH.
   */
  lemma JsonFilenameAgrees(t: ActionType)
    ensures GetJsonFilenameAsWritten(t).None? <==> t == A_GLASS || t == A_GLOWSTONE || t == A_TORCH
    ensures GetJsonFilenameAsWritten(t).Some? ==> GetJsonFilenameAsWritten(t).value == GetJsonFilename(t)
  {
    SwitchNames0();
    SwitchNames1();
    SwitchNames2();
    SwitchNames3();
    SwitchNames4();
    SwitchNames5();
    SwitchNames6();
    SwitchNames7();
    SwitchNames8();
    assert t == 0 || t == 1 || t == 2 || t == 3 || t == 4 || t == 5 || t == 6 || t == 7 || t == 8 || t == 9 || t == 10 || t == 11 || t == 12 || t == 13 || t == 14 || t == 15 || t == 16 || t == 17 || t == 18 || t == 19 || t == 20 || t == 21 || t == 22 || t == 23 || t == 24 || t == 25 || t == 26 || t == 27 || t == 28 || t == 29;
  }

  /**
   * The item types the player's constructor makes, in order: a pickaxe, 20
   * rounds of potion, glowstone and glass, then one of each block.
   */
  function StartingItems(): (items: seq<ActionType>)
    ensures |items| == 80
  {
    [PICKAXE] + Repeat([HEALTH_POTION, A_GLOWSTONE, A_GLASS], 20) +
    [A_DIRT, A_TOPSOIL, A_SAND, A_CLAY, A_SNOW, A_ICE, A_STONE, A_GRANITE, A_BASALT,
     A_PERIDOTITE, A_SANDSTONE, A_PLATFORM, A_LUMBER, A_RED_BRICK, A_GRAY_BRICK,
     A_DARK_BRICK, A_GLOWSTONE, A_GLASS, A_TORCH]
  }

  /** `k` copies of `s` one after another. */
  function Repeat<T>(s: seq<T>, k: nat): (r: seq<T>)
    ensures |r| == |s| * k
  {
    if k == 0 then [] else s + Repeat(s, k - 1)
  }

  /**
   * The third item the player starts with is GLOWSTONE, whose constructor
   * reaches the switch's `assert(false)`: the file name as written is
   * missing for it, for the GLASS after it and for the final TORCH.
   */
  lemma StartingItemsMissFiles()
    ensures StartingItems()[2] == A_GLOWSTONE && GetJsonFilenameAsWritten(StartingItems()[2]).None?
    ensures StartingItems()[3] == A_GLASS && GetJsonFilenameAsWritten(StartingItems()[3]).None?
    ensures StartingItems()[79] == A_TORCH && GetJsonFilenameAsWritten(StartingItems()[79]).None?
    ensures forall i :: 0 <= i < |StartingItems()| ==> |GetJsonFilename(StartingItems()[i])| > 11
  {
    var r := Repeat([HEALTH_POTION, A_GLOWSTONE, A_GLASS], 20);
    assert r[..3] == [HEALTH_POTION, A_GLOWSTONE, A_GLASS];
    assert StartingItems()[2] == r[1];
  }

  /** The tile `Block`'s constructor chooses: the named tile for a pure block, EMPTY for the pickaxe. */
  function BlockTileType(t: ActionType): TileType
    requires FIRST_BLOCK <= t <= LAST_BLOCK
  {
    if t <= LAST_PURE_BLOCK then ItemToTile(t) else EMPTY
  }

  /** A pure block places the tile of its own name, which is a real tile; the pickaxe places nothing. */
  lemma BlockTileTypeMeaning(t: ActionType)
    requires FIRST_BLOCK <= t <= LAST_BLOCK
    ensures t <= LAST_PURE_BLOCK ==>
      FIRST_ITEMED_TILE <= BlockTileType(t) <= LAST_TILE && TILE_TYPE_NAMES[BlockTileType(t)] == ACTION_TYPE_NAMES[t]
    ensures t == PICKAXE ==> BlockTileType(t) == EMPTY
    ensures t <= LAST_PURE_BLOCK ==> TileToItem(BlockTileType(t)) == t
  {
    if t <= LAST_PURE_BLOCK {
      ItemTileInverse(t, BlockTileType(t));
    }
  }

  /** `getLayer`: the left button works in the foreground, the right one in the background. */
  function GetLayer(input: InputType): (layer: MapLayer)
    ensures layer == Foreground <==> input == LeftButtonPressed || input == LeftButtonHeld
    ensures layer == Background <==> input == RightButtonPressed || input == RightButtonHeld
    ensures IsDrawLayer(layer) <==> input != NoInput
    ensures !IsDrawLayer(layer) ==> layer == NoLayer
  {
    match input
    case LeftButtonPressed => Foreground
    case LeftButtonHeld => Foreground
    case RightButtonPressed => Background
    case RightButtonHeld => Background
    case NoInput => NoLayer
  }

  /**
   * `canPlace`: the tile under the pixel, less the tile of the player's
   * top middle, both by C's truncating division, is in the player's reach.
   */
  function InReach(rect: Rect, sideways: int, up: int, down: int, tileWidth: int, tileHeight: int,
                   x: int, y: int, bonus: int): bool
    requires tileWidth > 0 && tileHeight > 0
  {
    var xTile := CDiv(x, tileWidth);
    var yTile := CDiv(y, tileHeight);
    var xPlayer := CDiv(rect.x + CDiv(rect.w, 2), tileWidth);
    var yPlayer := CDiv(rect.y + rect.h, tileHeight);
    CanReach(sideways, up, down, xTile - xPlayer, yTile - yPlayer, bonus)
  }

  /**
   * The player can always place at the pixel of its own top middle, and a
   * bigger bonus never takes a pixel out of reach.
   */
  lemma InReachMeaning(rect: Rect, sideways: int, up: int, down: int, tileWidth: int, tileHeight: int,
                       x: int, y: int, bonus: int, more: int)
    requires tileWidth > 0 && tileHeight > 0 && bonus <= more
    requires sideways + bonus >= 0 && up + bonus >= 0 && down + bonus >= 0
    ensures InReach(rect, sideways, up, down, tileWidth, tileHeight, rect.x + CDiv(rect.w, 2), rect.y + rect.h, bonus)
    ensures InReach(rect, sideways, up, down, tileWidth, tileHeight, x, y, bonus) ==>
      InReach(rect, sideways, up, down, tileWidth, tileHeight, x, y, more)
  {
    var dx := CDiv(x, tileWidth) - CDiv(rect.x + CDiv(rect.w, 2), tileWidth);
    var dy := CDiv(y, tileHeight) - CDiv(rect.y + rect.h, tileHeight);
    ReachGrowsWithBonus(sideways, up, down, dx, dy, bonus, more);
  }

  /** `canPlace` for this player on this map. */
  function CanPlaceFor(p: Player, m: Map, x: int, y: int, bonus: int): bool
    reads p
    requires m.tileWidth > 0 && m.tileHeight > 0
  {
    InReach(p.rect, p.tileReachSideways, p.tileReachUp, p.tileReachDown, m.tileWidth, m.tileHeight, x, y, bonus)
  }

  /** What `getMapCoords` asserts of the pixel: no further left than one map width, and inside the map's rows. */
  predicate PixelOnMap(m: Map, x: int, y: int)
    reads m
    requires m.tileHeight > 0
  {
    x + m.width * m.tileWidth >= 0 && 0 <= CDiv(y, m.tileHeight) < m.height
  }

  /** The place `getMapCoords` answers for the pixel in the layer. */
  function PlaceOf(m: Map, x: int, y: int, layer: MapLayer): (place: Location)
    reads m
    requires m.Valid() && PixelOnMap(m, x, y)
    ensures 0 <= place.x < m.width && 0 <= place.y < m.height && place.layer == layer
  {
    MapCoords(m.width, m.tileWidth, m.tileHeight, x, y, layer)
  }

  /** The cells after `placeTile` put `t` at the place, with its two sprite bytes. */
  function PlacedGrid(g: Grid, place: Location, t: TileType, foreSprite: Byte, backSprite: Byte): (g': Grid)
    requires WellFormed(g) && 0 <= place.y < g.height && IsDrawLayer(place.layer)
    ensures WellFormed(g') && g'.width == g.width && g'.height == g.height
  {
    SetSpriteByte(SetSpriteByte(SetType(g, place.x, place.y, place.layer, t),
                                place.x, place.y, Foreground, foreSprite),
                  place.x, place.y, Background, backSprite)
  }

  /**
   * Whether a block use places: the pixel is in reach, the input names a
   * layer, and `placeTile`'s rule lets the tile in.
   */
  predicate BlockPlaces(m: Map, p: Player, cells: seq<SpaceInfo>, t: TileType, bonus: int,
                        input: InputType, x: int, y: int)
    reads m, p
    requires m.Valid() && |cells| == m.width * m.height
    requires CanPlaceFor(p, m, x, y, bonus) && input != NoInput ==> PixelOnMap(m, x, y)
  {
    CanPlaceFor(p, m, x, y, bonus) && IsDrawLayer(GetLayer(input)) &&
    CanPlace(m.G(cells), m.props, PlaceOf(m, x, y, GetLayer(input)), t)
  }

  /**
   * `Block::use_internal`: out of reach or with no layer nothing happens;
   * otherwise the answer and the new cells are `placeTile`'s at the place
   * under the pixel.
   */
  method BlockUse(t: TileType, bonus: int, input: InputType, x: int, y: int, m: Map, p: Player,
                  foreSprite: Byte, backSprite: Byte) returns (success: bool)
    requires m.Valid()
    requires CanPlaceFor(p, m, x, y, bonus) && input != NoInput ==> PixelOnMap(m, x, y)
    modifies m.tiles
    ensures success == BlockPlaces(m, p, old(m.tiles[..]), t, bonus, input, x, y)
    ensures !success ==> m.tiles[..] == old(m.tiles[..])
    ensures success ==>
      m.tiles[..] == PlacedGrid(m.G(old(m.tiles[..])), PlaceOf(m, x, y, GetLayer(input)), t, foreSprite, backSprite).cells
  {
    if !CanPlaceFor(p, m, x, y, bonus) {
      return false;
    }
    var layer := GetLayer(input);
    if layer == NoLayer {
      return false;
    }
    var place := m.GetMapCoords(x, y, layer);
    success := m.PlaceTile(place, t, foreSprite, backSprite);
  }

  /**
   * Whether a pickaxe use hits: the pixel is in reach, the tile there is of
   * a tier the pickaxe can mine (`getTier` answers a `bool`, so 0 or 1),
   * and it is present.
   */
  predicate PickaxeHits(m: Map, p: Player, cells: seq<SpaceInfo>, bonus: int, tier: int,
                        input: InputType, x: int, y: int)
    reads m, p
    requires m.Valid() && |cells| == m.width * m.height
    requires CanPlaceFor(p, m, x, y, bonus) ==> PixelOnMap(m, x, y) && input != NoInput
  {
    CanPlaceFor(p, m, x, y, bonus) &&
    var place := PlaceOf(m, x, y, GetLayer(input));
    var here := TileAt(m.G(cells), place.x, place.y, place.layer);
    GetTier(m.props, here) <= tier && Present(here)
  }

  /**
   * `Pickaxe::use_internal`: out of reach, or at a tile of too high a
   * tier, nothing happens; otherwise the answer and the damage are
   * `damage`'s at the place under the pixel. Unlike a block it computes
   * the place before looking at the layer, and looking up the tile in no
   * layer asserts, so a pixel in reach needs an input.
   */
  method PickaxeUse(bonus: int, blockDamage: int, tier: int, input: InputType, x: int, y: int,
                    m: Map, p: Player) returns (success: bool, drops: seq<Drop>)
    requires m.Valid()
    requires CanPlaceFor(p, m, x, y, bonus) ==> PixelOnMap(m, x, y) && input != NoInput
    modifies m`damaged, m.tiles
    ensures success == PickaxeHits(m, p, old(m.tiles[..]), bonus, tier, input, x, y)
    ensures !success ==> m.tiles[..] == old(m.tiles[..]) && m.damaged == old(m.damaged) && drops == []
    ensures success ==>
      var place := PlaceOf(m, x, y, GetLayer(input));
      var here := TileAt(m.G(old(m.tiles[..])), place.x, place.y, place.layer);
      var (entry, list) := DamagedList(old(m.damaged), place, blockDamage, AsInt(m.tick), m.props.maxHealth(here));
      m.damaged == list &&
      (entry.health <= 0 ==>
        m.tiles[..] == SetType(m.G(old(m.tiles[..])), place.x, place.y, place.layer, EMPTY).cells &&
        drops == KillDrops(m.G(old(m.tiles[..])), m.tileWidth, m.tileHeight, place.x, place.y, place.layer)) &&
      (entry.health > 0 ==> m.tiles[..] == old(m.tiles[..]) && drops == [])
  {
    drops := [];
    if !CanPlaceFor(p, m, x, y, bonus) {
      return false, drops;
    }
    var layer := GetLayer(input);
    var place := m.GetMapCoords(x, y, layer);
    var here := m.GetTileType(place.x, place.y, place.layer);
    if GetTier(m.props, here) > tier {
      return false, drops;
    }
    success, drops := m.Damage(place, blockDamage);
  }

  /**
   * A stat's (amount, cap) after a potion: `addPart(cured)` raises the cap
   * (pulling the amount down to it if need be), then `addFull(gained)`
   * adds to the amount under the new cap.
   */
  function Quaffed(full: real, part: real, maxStat: real, cured: int, gained: int): (r: (real, real))
  {
    var part' := PartAfterSet(part + cured as real, maxStat);
    var full' := if full > part' then part' else full;
    (FullAfterSet(full' + gained as real, maxStat, part'), part')
  }

  /**
   * On a consistent stat a potion keeps the stat consistent; with amounts
   * that are not negative it lowers neither the amount nor the cap, and a
   * cure at least the missing cap restores the cap to the maximum.
   */
  lemma QuaffedMeaning(full: real, part: real, maxStat: real, cured: int, gained: int)
    requires 0.0 <= full <= part <= maxStat
    ensures var (full', part') := Quaffed(full, part, maxStat, cured, gained);
      0.0 <= full' <= part' <= maxStat &&
      (cured >= 0 && gained >= 0 ==> part <= part' && full <= full') &&
      (cured as real >= maxStat - part ==> part' == maxStat) &&
      (gained >= 0 && full + gained as real <= part' ==> full' == full + gained as real)
  {
    var part' := PartAfterSet(part + cured as real, maxStat);
    var full' := if full > part' then part' else full;
    FullAfterSetMeaning(full' + gained as real, maxStat, part');
  }

  /** A stat after a potion, as `Quaffed` says; the maximum stays. */
  twostate predicate DrankFrom(s: Stat, cured: int, gained: int)
    reads s
  {
    (s.full, s.part) == Quaffed(old(s.full), old(s.part), old(s.maxStat), cured, gained) &&
    s.maxStat == old(s.maxStat) && (old(s.Valid()) ==> s.Valid())
  }

  /** A stat after `addPart(cured)`: the cap moved, the amount pulled down to it; the maximum stays. */
  twostate predicate CuredBy(s: Stat, cured: int)
    reads s
  {
    s.part == PartAfterSet(old(s.part) + cured as real, old(s.maxStat)) &&
    s.full == (if old(s.full) > s.part then s.part else old(s.full)) &&
    s.maxStat == old(s.maxStat) && (old(s.Valid()) ==> s.Valid())
  }

  /** A stat after `addFull(gained)`: the amount moved under the cap; the cap and the maximum stay. */
  twostate predicate FilledBy(s: Stat, gained: int)
    reads s
  {
    s.full == FullAfterSet(old(s.full) + gained as real, old(s.maxStat), old(s.part)) &&
    s.part == old(s.part) && s.maxStat == old(s.maxStat) && (old(s.Valid()) ==> s.Valid())
  }

  /** The three `addPart` calls of a potion. */
  method CureAll(health: Stat, fullness: Stat, mana: Stat, woundsCured: int, hungerCured: int, manaCured: int)
    requires health != fullness && health != mana && fullness != mana
    modifies health, fullness, mana
    ensures CuredBy(health, woundsCured) && CuredBy(fullness, hungerCured) && CuredBy(mana, manaCured)
  {
    health.AddPart(woundsCured as real);
    fullness.AddPart(hungerCured as real);
    mana.AddPart(manaCured as real);
  }

  /** The three `addFull` calls of a potion. */
  method FillAll(health: Stat, fullness: Stat, mana: Stat, healthGained: int, fullnessGained: int, manaGained: int)
    requires health != fullness && health != mana && fullness != mana
    modifies health, fullness, mana
    ensures FilledBy(health, healthGained) && FilledBy(fullness, fullnessGained) && FilledBy(mana, manaGained)
  {
    health.AddFull(healthGained as real);
    fullness.AddFull(fullnessGained as real);
    mana.AddFull(manaGained as real);
  }

  /**
   * `Potion::use_internal`: only a left-button press drinks, curing and
   * then filling health, fullness and mana; any other input changes no stat.
   */
  method PotionUse(healthGained: int, fullnessGained: int, manaGained: int,
                   woundsCured: int, hungerCured: int, manaCured: int,
                   input: InputType, p: Player) returns (success: bool)
    requires p.health != p.fullness && p.health != p.mana && p.fullness != p.mana
    modifies p.health, p.fullness, p.mana
    ensures success <==> input == LeftButtonPressed
    ensures !success ==> unchanged(p.health, p.fullness, p.mana)
    ensures success ==>
      DrankFrom(p.health, woundsCured, healthGained) &&
      DrankFrom(p.fullness, hungerCured, fullnessGained) &&
      DrankFrom(p.mana, manaCured, manaGained)
  {
    if input == LeftButtonPressed {
      CureAll(p.health, p.fullness, p.mana, woundsCured, hungerCured, manaCured);
      FillAll(p.health, p.fullness, p.mana, healthGained, fullnessGained, manaGained);
      return true;
    }
    return false;
  }

  /** Which `use_internal` an item has, with the fields its subclass reads from its JSON file. */
  datatype Behaviour =
    | PlainUse
    | BlockBehaviour(tileType: TileType, bonusReach: int)
    | PickaxeBehaviour(bonusReach: int, blockDamage: int, tier: int)
    | PotionBehaviour(healthGained: int, fullnessGained: int, manaGained: int,
                      woundsCured: int, hungerCured: int, manaCured: int)

  /** What the constructors assert: a block or a pickaxe has a type in the block range, and a block its tile. */
  predicate Fits(kind: ActionType, b: Behaviour)
  {
    match b
    case BlockBehaviour(tileType, _) => FIRST_BLOCK <= kind <= LAST_BLOCK && tileType == BlockTileType(kind)
    case PickaxeBehaviour(_, _, _) => FIRST_BLOCK <= kind <= LAST_BLOCK
    case _ => true
  }

  /** The stack after a run of uses with these `use_internal` answers. */
  function StackAfter(stack: int, consumable: bool, results: seq<bool>): int
    decreases |results|
  {
    if results == [] then stack
    else StackAfter(stack - (if consumable && results[0] then 1 else 0), consumable, results[1..])
  }

  /** How many of the answers were true. */
  function Successes(results: seq<bool>): (n: nat)
    ensures n <= |results|
  {
    if results == [] then 0 else (if results[0] then 1 else 0) + Successes(results[1..])
  }

  /**
   * A consumable stack loses exactly one item per successful use, and a
   * stack that is not consumable never changes.
   */
  lemma {:induction false} StackAfterCounts(stack: int, consumable: bool, results: seq<bool>)
    ensures StackAfter(stack, consumable, results) == stack - (if consumable then Successes(results) else 0)
    decreases |results|
  {
    if results != [] {
      StackAfterCounts(stack - (if consumable && results[0] then 1 else 0), consumable, results[1..]);
    }
  }

  class Item {
    const kind: ActionType
    const maxStack: int
    const useTime: int
    const consumable: bool
    const behaviour: Behaviour
    var stack: int

    /**
     * The constructors of `Item` and its subclasses: the JSON fields as
     * read, and a stack of 957.
     */
    constructor(kind: ActionType, maxStack: int, useTime: int, consumable: bool, behaviour: Behaviour)
      requires Fits(kind, behaviour)
      ensures this.kind == kind && this.maxStack == maxStack && this.useTime == useTime
      ensures this.consumable == consumable && this.behaviour == behaviour
      ensures stack == NEW_STACK
    {
      this.kind := kind;
      this.maxStack := maxStack;
      this.useTime := useTime;
      this.consumable := consumable;
      this.behaviour := behaviour;
      stack := NEW_STACK;
    }

    /** Whether this item's `use_internal` may be called with these arguments: what its asserts need. */
    predicate CanCall(input: InputType, x: int, y: int, m: Map, p: Player)
      reads this, m, p
      requires m.Valid()
    {
      (behaviour.BlockBehaviour? && CanPlaceFor(p, m, x, y, behaviour.bonusReach) && input != NoInput ==>
         PixelOnMap(m, x, y)) &&
      (behaviour.PickaxeBehaviour? && CanPlaceFor(p, m, x, y, behaviour.bonusReach) ==>
         PixelOnMap(m, x, y) && input != NoInput) &&
      (behaviour.PotionBehaviour? ==> p.health != p.fullness && p.health != p.mana && p.fullness != p.mana)
    }

    /**
     * The subclass's `use_internal`. A plain item never succeeds; a block
     * answers `BlockPlaces`, a pickaxe `PickaxeHits`, a potion whether the
     * left button was pressed. Only a potion touches the stats, only a
     * block or a pickaxe the map.
     */
    method UseInternal(input: InputType, x: int, y: int, m: Map, p: Player, foreSprite: Byte, backSprite: Byte)
      returns (used: bool, drops: seq<Drop>)
      requires m.Valid() && CanCall(input, x, y, m, p)
      modifies m`damaged, m.tiles, p.health, p.fullness, p.mana
      ensures behaviour.PlainUse? ==> !used
      ensures behaviour.BlockBehaviour? ==>
        used == BlockPlaces(m, p, old(m.tiles[..]), behaviour.tileType, behaviour.bonusReach, input, x, y)
      ensures behaviour.PickaxeBehaviour? ==>
        used == PickaxeHits(m, p, old(m.tiles[..]), behaviour.bonusReach, behaviour.tier, input, x, y)
      ensures behaviour.PotionBehaviour? ==> (used <==> input == LeftButtonPressed)
      ensures !used || behaviour.PlainUse? || behaviour.PotionBehaviour? ==>
        m.tiles[..] == old(m.tiles[..]) && drops == []
      ensures !behaviour.PickaxeBehaviour? ==> m.damaged == old(m.damaged)
      ensures !used || !behaviour.PotionBehaviour? ==> unchanged(p.health, p.fullness, p.mana)
    {
      drops := [];
      match behaviour {
        case PlainUse =>
          used := false;
        case BlockBehaviour(tileType, bonusReach) =>
          used := BlockUse(tileType, bonusReach, input, x, y, m, p, foreSprite, backSprite);
        case PickaxeBehaviour(bonusReach, blockDamage, tier) =>
          used, drops := PickaxeUse(bonusReach, blockDamage, tier, input, x, y, m, p);
        case PotionBehaviour(healthGained, fullnessGained, manaGained, woundsCured, hungerCured, manaCured) =>
          used := PotionUse(healthGained, fullnessGained, manaGained, woundsCured, hungerCured, manaCured, input, p);
      }
    }

    /**
     * `use`: runs `use_internal` and takes one from the stack exactly when
     * the item is consumable and the use succeeded; the stack must not be
     * empty.
     */
    method Use(input: InputType, x: int, y: int, m: Map, p: Player, foreSprite: Byte, backSprite: Byte)
      returns (used: bool, drops: seq<Drop>)
      requires stack > 0 && m.Valid() && CanCall(input, x, y, m, p)
      modifies this`stack, m`damaged, m.tiles, p.health, p.fullness, p.mana
      ensures stack == old(stack) - (if consumable && used then 1 else 0)
      ensures behaviour.PlainUse? ==> !used && stack == old(stack)
      ensures !consumable ==> stack == old(stack)
    {
      used, drops := UseInternal(input, x, y, m, p, foreSprite, backSprite);
      stack := stack - (if consumable then 1 else 0) * (if used then 1 else 0);
    }
  }
}
