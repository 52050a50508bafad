/**
 * Pure helpers of the tile map: reading and writing one layer of a cell,
 * the horizontal wrap-around, the biome grid's indexing, and the rules of
 * the damaged-tile list.
 */
module MapCells {
  import opened CInts
  import opened Tiles
  import opened MapHelpers
  import opened Actions
  import opened ItemMaker
  import opened RunLength

  /** Each biome entry covers a square of this many tiles. */
  const BIOME_SIZE: int := 32

  /** A damaged tile heals (its entry is dropped) once it was last hit more than this many ticks ago. */
  const HEAL_TIME: int := 3000

  /** The two layers a cell stores a tile type for; the others fail the source's asserts. */
  predicate IsDrawLayer(layer: MapLayer)
  {
    layer == Foreground || layer == Background
  }

  function LayerType(c: SpaceInfo, layer: MapLayer): TileType
    requires IsDrawLayer(layer)
  {
    if layer == Foreground then c.foreground else c.background
  }

  function WithLayerType(c: SpaceInfo, layer: MapLayer, t: TileType): SpaceInfo
    requires IsDrawLayer(layer)
  {
    if layer == Foreground then c.(foreground := t) else c.(background := t)
  }

  function LayerSprite(c: SpaceInfo, layer: MapLayer): Byte
    requires IsDrawLayer(layer)
  {
    if layer == Foreground then c.foregroundSprite else c.backgroundSprite
  }

  function WithLayerSprite(c: SpaceInfo, layer: MapLayer, b: Byte): SpaceInfo
    requires IsDrawLayer(layer)
  {
    if layer == Foreground then c.(foregroundSprite := b) else c.(backgroundSprite := b)
  }

  /** Writing one layer's type changes that layer only. */
  lemma WithLayerTypeReads(c: SpaceInfo, layer: MapLayer, t: TileType, other: MapLayer)
    requires IsDrawLayer(layer) && IsDrawLayer(other)
    ensures LayerType(WithLayerType(c, layer, t), other) == if other == layer then t else LayerType(c, other)
    ensures LayerSprite(WithLayerType(c, layer, t), other) == LayerSprite(c, other)
  {
  }

  /** Writing one layer's sprite changes that sprite only. */
  lemma WithLayerSpriteReads(c: SpaceInfo, layer: MapLayer, b: Byte, other: MapLayer)
    requires IsDrawLayer(layer) && IsDrawLayer(other)
    ensures LayerSprite(WithLayerSprite(c, layer, b), other) == if other == layer then b else LayerSprite(c, other)
    ensures LayerType(WithLayerSprite(c, layer, b), other) == LayerType(c, other)
  {
  }

  /** One layer of the whole map, in storage order. */
  function LayerOf(cells: seq<SpaceInfo>, layer: MapLayer): (s: seq<TileType>)
    requires IsDrawLayer(layer)
    ensures |s| == |cells| && forall i :: 0 <= i < |cells| ==> s[i] == LayerType(cells[i], layer)
  {
    seq(|cells|, i requires 0 <= i < |cells| => LayerType(cells[i], layer))
  }

  /**
   * `wrapX`: the column brought into `[0, width)`. It is the Euclidean
   * remainder, so it differs from `x` by a multiple of the width.
   */
  function Wrap(x: int, width: int): (r: int)
    requires width > 0
    ensures 0 <= r < width
    ensures (x - r) % width == 0
    ensures 0 <= x < width ==> r == x
  {
    ModUnique(x - x % width, width, x / width, 0);
    x % width
  }

  /** Moving by whole widths does not change the wrapped column. */
  lemma WrapShift(x: int, width: int, k: int)
    requires width > 0
    ensures Wrap(x + k * width, width) == Wrap(x, width)
  {
    ModAddMultiple(x, width, k);
  }

  /** Two columns wrap to the same one exactly when they differ by a multiple of the width. */
  lemma WrapCongruent(x: int, y: int, width: int)
    requires width > 0
    ensures Wrap(x, width) == Wrap(y, width) <==> (x - y) % width == 0
  {
    var q := (x - y) / width;
    if (x - y) % width == 0 {
      assert x == y + q * width;
      WrapShift(y, width, q);
    } else {
      var qx, qy := x / width, y / width;
      if x % width == y % width {
        assert x - y == (qx - qy) * width;
        ModUnique(x - y, width, qx - qy, 0);
      }
    }
  }

  /** The cell `y * width + x` of a row-major grid exists when the coordinates do. */
  lemma CellInGrid(width: int, height: int, x: int, y: int)
    requires 0 <= x < width && 0 <= y < height
    ensures 0 <= y * width + x < width * height
  {
    assert y * width <= (height - 1) * width;
  }

  /** The grid cell of column `x` (wrapped) and row `y`: what `findPointer` addresses. */
  function CellIndex(width: int, height: int, x: int, y: int): (i: int)
    requires width > 0 && 0 <= y < height
    ensures 0 <= i < width * height
    ensures i % width == Wrap(x, width) && i / width == y
  {
    var wx := Wrap(x, width);
    CellInGrid(width, height, wx, y);
    ModUnique(y * width + wx, width, y, wx);
    y * width + wx
  }

  /** Different in-range coordinates never share a cell. */
  lemma CellIndexInjective(width: int, height: int, x1: int, y1: int, x2: int, y2: int)
    requires width > 0 && 0 <= y1 < height && 0 <= y2 < height
    ensures CellIndex(width, height, x1, y1) == CellIndex(width, height, x2, y2) <==>
      y1 == y2 && Wrap(x1, width) == Wrap(x2, width)
  {
  }

  /** `width / BIOME_SIZE + 1`: the biome entries across (or up) the map. */
  function BiomeCount(size: int): (n: int)
    ensures size >= 0 ==> n >= 1 && (n - 1) * BIOME_SIZE <= size < n * BIOME_SIZE
  {
    CDiv(size, BIOME_SIZE) + 1
  }

  /** `getBiome`'s index: the biome square holding tile (x, y). */
  function BiomeIndex(biomesWide: int, x: int, y: int): int
    requires 0 <= x && 0 <= y
  {
    biomesWide * (y / BIOME_SIZE) + x / BIOME_SIZE
  }

  /** `setBiome`'s index: biome square (x, y) itself. */
  function BiomeSquare(biomesWide: int, biomesHigh: int, x: int, y: int): (i: int)
    requires 0 <= x < biomesWide && 0 <= y < biomesHigh
    ensures 0 <= i < biomesWide * biomesHigh
  {
    CellInGrid(biomesWide, biomesHigh, x, y);
    biomesWide * y + x
  }

  /** `getBiome`'s asserts keep its index inside the biome vector. */
  lemma BiomeIndexInRange(biomesWide: int, biomesHigh: int, x: int, y: int)
    requires 0 <= x < biomesWide * BIOME_SIZE && 0 <= y < biomesHigh * BIOME_SIZE
    ensures 0 <= BiomeIndex(biomesWide, x, y) < biomesWide * biomesHigh
  {
    DivBelow(x, biomesWide);
    DivBelow(y, biomesHigh);
    CellInGrid(biomesWide, biomesHigh, x / BIOME_SIZE, y / BIOME_SIZE);
  }

  lemma DivBelow(x: int, n: int)
    requires 0 <= x < n * BIOME_SIZE
    ensures 0 <= x / BIOME_SIZE < n
  {
  }

  /**
   * A tile reads the biome square `setBiome` wrote exactly when it lies in
   * that square: `getBiome` and `setBiome` index the same vector at two
   * scales.
   */
  lemma GetBiomeReadsSetBiome(biomesWide: int, biomesHigh: int, sx: int, sy: int, x: int, y: int)
    requires 0 <= sx < biomesWide && 0 <= sy < biomesHigh
    requires 0 <= x < biomesWide * BIOME_SIZE && 0 <= y < biomesHigh * BIOME_SIZE
    ensures BiomeIndex(biomesWide, x, y) == BiomeSquare(biomesWide, biomesHigh, sx, sy) <==>
      x / BIOME_SIZE == sx && y / BIOME_SIZE == sy
  {
    DivBelow(x, biomesWide);
    DivBelow(y, biomesHigh);
    var qx, qy := x / BIOME_SIZE, y / BIOME_SIZE;
    if biomesWide * qy + qx == biomesWide * sy + sx {
      ModUnique(biomesWide * qy + qx, biomesWide, qy, qx);
      ModUnique(biomesWide * sy + sx, biomesWide, sy, sx);
    }
  }

  /** `getBiome` on the biome vector: the entry of the square holding tile (x, y). */
  function BiomeOf(biomes: seq<BiomeType>, biomesWide: int, biomesHigh: int, x: int, y: int): BiomeType
    requires |biomes| == biomesWide * biomesHigh
    requires 0 <= x < biomesWide * BIOME_SIZE && 0 <= y < biomesHigh * BIOME_SIZE
  {
    BiomeIndexInRange(biomesWide, biomesHigh, x, y);
    biomes[BiomeIndex(biomesWide, x, y)]
  }

  /**
   * After `setBiome` of square (sx, sy), a tile of that square reads the
   * new biome and any other tile reads what it read before.
   */
  lemma SetBiomeThenGet(biomes: seq<BiomeType>, biomesWide: int, biomesHigh: int, sx: int, sy: int, info: BiomeType,
                        x: int, y: int)
    requires |biomes| == biomesWide * biomesHigh
    requires 0 <= sx < biomesWide && 0 <= sy < biomesHigh
    requires 0 <= x < biomesWide * BIOME_SIZE && 0 <= y < biomesHigh * BIOME_SIZE
    ensures BiomeOf(biomes[BiomeSquare(biomesWide, biomesHigh, sx, sy) := info], biomesWide, biomesHigh, x, y) ==
      if x / BIOME_SIZE == sx && y / BIOME_SIZE == sy then info else BiomeOf(biomes, biomesWide, biomesHigh, x, y)
  {
    CellInGrid(biomesWide, biomesHigh, sx, sy);
    BiomeIndexInRange(biomesWide, biomesHigh, x, y);
    GetBiomeReadsSetBiome(biomesWide, biomesHigh, sx, sy, x, y);
    var i, j := BiomeIndex(biomesWide, x, y), BiomeSquare(biomesWide, biomesHigh, sx, sy);
    var updated := biomes[j := info];
    assert BiomeOf(updated, biomesWide, biomesHigh, x, y) == updated[i];
    assert BiomeOf(biomes, biomesWide, biomesHigh, x, y) == biomes[i];
  }

  // ---------------------------------------------------------------------
  // Damaged tiles
  // ---------------------------------------------------------------------

  /** A tile that is there to be damaged or built over: neither EMPTY nor WATER. */
  predicate Present(t: TileType)
  {
    t != EMPTY && t != WATER
  }

  /** The tick as stored in `TileHealth::lastUpdated`: `unsigned int` read back as `int`. */
  function AsInt(tick: UInt32): (n: int)
    ensures -0x8000_0000 <= n < 0x8000_0000
    ensures ToUInt32(n) == tick
  {
    if tick < 0x8000_0000 then tick else tick - UINT32_MODULUS
  }

  /**
   * The test of `update`'s healing loop: `tick - lastUpdated > healTime`
   * is computed in `unsigned int`, so it wraps around.
   */
  predicate Expired(tick: UInt32, entry: TileHealth)
  {
    ToUInt32(tick - entry.lastUpdated) > HEAL_TIME
  }

  /** The damaged list after the healing loop: the entries that have not expired, in order. */
  function Healed(damaged: seq<TileHealth>, tick: UInt32): (kept: seq<TileHealth>)
    ensures |kept| <= |damaged|
  {
    if damaged == [] then []
    else
      var rest := Healed(damaged[..|damaged| - 1], tick);
      var e := damaged[|damaged| - 1];
      if Expired(tick, e) then rest else rest + [e]
  }

  /**
   * Healing keeps exactly the entries that have not expired; a list with
   * nothing expired is left as it is, so healing twice at one tick is
   * healing once.
   */
  lemma {:induction false} HealedKeepsFresh(damaged: seq<TileHealth>, tick: UInt32)
    ensures forall e :: e in Healed(damaged, tick) <==> e in damaged && !Expired(tick, e)
    ensures (forall e :: e in damaged ==> !Expired(tick, e)) ==> Healed(damaged, tick) == damaged
    ensures Healed(Healed(damaged, tick), tick) == Healed(damaged, tick)
    decreases |damaged|
  {
    if damaged != [] {
      var init := damaged[..|damaged| - 1];
      var e := damaged[|damaged| - 1];
      HealedKeepsFresh(init, tick);
      assert damaged == init + [e];
      var rest := Healed(init, tick);
      if !Expired(tick, e) {
        assert (rest + [e])[..|rest|] == rest;
      }
    }
  }

  /** Healing one more entry of the list, as the loop does. */
  lemma HealedStep(damaged: seq<TileHealth>, tick: UInt32, n: nat)
    requires n < |damaged|
    ensures Healed(damaged[..n + 1], tick) ==
      if Expired(tick, damaged[n]) then Healed(damaged[..n], tick) else Healed(damaged[..n], tick) + [damaged[n]]
  {
    assert damaged[..n + 1][..n] == damaged[..n];
  }

  /** `damage`'s loop: every entry for the place loses `amount` and is stamped with the tick. */
  function HitAll(damaged: seq<TileHealth>, place: Location, amount: int, stamp: int): (hit: seq<TileHealth>)
    ensures |hit| == |damaged|
    ensures forall i :: 0 <= i < |damaged| ==> hit[i].place == damaged[i].place
  {
    seq(|damaged|, i requires 0 <= i < |damaged| =>
      if damaged[i].place == place then damaged[i].(health := damaged[i].health - amount, lastUpdated := stamp)
      else damaged[i])
  }

  /** The index `damage`'s loop remembers: the last entry for the place, or -1. */
  function LastEntry(damaged: seq<TileHealth>, place: Location): (k: int)
    ensures -1 <= k < |damaged|
    ensures k >= 0 ==> damaged[k].place == place && forall j :: k < j < |damaged| ==> damaged[j].place != place
    ensures k == -1 ==> forall j :: 0 <= j < |damaged| ==> damaged[j].place != place
  {
    if damaged == [] then -1
    else if damaged[|damaged| - 1].place == place then |damaged| - 1
    else LastEntry(damaged[..|damaged| - 1], place)
  }

  /** No two entries are for the same place: what `damage` maintains. */
  predicate UniquePlaces(damaged: seq<TileHealth>)
  {
    forall i, j :: 0 <= i < j < |damaged| ==> damaged[i].place != damaged[j].place
  }

  function RemoveAt<T>(s: seq<T>, k: int): (r: seq<T>)
    requires 0 <= k < |s|
    ensures |r| == |s| - 1
  {
    s[..k] + s[k + 1..]
  }

  /**
   * The entry `damage` leaves for the place and the list it leaves: the
   * existing (last) entry hit, or a new one at `maxHealth - amount`
   * appended, and in both cases dropped again when its health is gone.
   */
  function DamagedList(damaged: seq<TileHealth>, place: Location, amount: int, stamp: int, maxHealth: int):
    (result: (TileHealth, seq<TileHealth>))
  {
    var hit := HitAll(damaged, place, amount, stamp);
    var k := LastEntry(damaged, place);
    var list := if k == -1 then hit + [TileHealth(place, maxHealth - amount, stamp)] else hit;
    var index := if k == -1 then |hit| else k;
    var entry := list[index];
    (entry, if entry.health <= 0 then RemoveAt(list, index) else list)
  }

  /**
   * The entry `damage` leaves for the place: with one entry per place, the
   * existing entry less `amount`, or a new one at `maxHealth - amount`,
   * stamped with the tick either way.
   */
  lemma DamagedEntry(damaged: seq<TileHealth>, place: Location, amount: int, stamp: int, maxHealth: int)
    requires UniquePlaces(damaged)
    ensures var entry := DamagedList(damaged, place, amount, stamp, maxHealth).0;
      entry.place == place && entry.lastUpdated == stamp &&
      (forall e :: e in damaged && e.place == place ==> entry.health == e.health - amount) &&
      ((forall e :: e in damaged ==> e.place != place) ==> entry.health == maxHealth - amount)
  {
    var k := LastEntry(damaged, place);
    if k != -1 {
      assert forall e :: e in damaged && e.place == place ==> e == damaged[k];
    }
  }

  /**
   * The list `damage` leaves: still one entry per place, the place's entry
   * kept exactly when it has health left, and every entry for another
   * place kept as it was (and nothing else added).
   */
  lemma DamagedListKeepsOthers(damaged: seq<TileHealth>, place: Location, amount: int, stamp: int, maxHealth: int)
    requires UniquePlaces(damaged)
    ensures var (entry, list) := DamagedList(damaged, place, amount, stamp, maxHealth);
      UniquePlaces(list) &&
      (entry in list <==> entry.health > 0) &&
      (forall e :: e in list && e.place == place ==> e == entry) &&
      (forall e :: e in damaged && e.place != place ==> e in list) &&
      (forall e :: e in list && e.place != place ==> e in damaged)
  {
    var hit := HitAll(damaged, place, amount, stamp);
    var k := LastEntry(damaged, place);
    var list := if k == -1 then hit + [TileHealth(place, maxHealth - amount, stamp)] else hit;
    var index := if k == -1 then |hit| else k;
    HitAllKeeps(damaged, place, amount, stamp);
    assert forall i :: 0 <= i < |list| && i != index ==> list[i].place != place;
    assert UniquePlaces(list);
    assert forall e :: e in damaged && e.place != place ==> e in hit;
    RemoveAtKeepsUnique(list, index);
  }

  lemma HitAllKeeps(damaged: seq<TileHealth>, place: Location, amount: int, stamp: int)
    requires UniquePlaces(damaged)
    ensures var hit := HitAll(damaged, place, amount, stamp);
      UniquePlaces(hit) &&
      (forall i :: 0 <= i < |damaged| && damaged[i].place != place ==> hit[i] == damaged[i]) &&
      (forall e :: e in hit && e.place != place ==> e in damaged)
  {
  }

  lemma RemoveAtKeepsUnique(list: seq<TileHealth>, index: int)
    requires 0 <= index < |list| && UniquePlaces(list)
    ensures UniquePlaces(RemoveAt(list, index))
    ensures forall e :: e in RemoveAt(list, index) <==> e in list && e.place != list[index].place
  {
    var r := RemoveAt(list, index);
    assert forall i :: 0 <= i < |r| ==> r[i] == if i < index then list[i] else list[i + 1];
    forall e | e in list && e.place != list[index].place
      ensures e in r
    {
      var i :| 0 <= i < |list| && list[i] == e;
      assert i != index;
      if i < index {
        assert r[i] == e;
      } else {
        assert r[i - 1] == e;
      }
    }
  }

  // ---------------------------------------------------------------------
  // The grid
  // ---------------------------------------------------------------------

  lemma MulOrder(a: int, b: int, w: int)
    requires w > 0
    ensures a <= b <==> a * w <= b * w
  {
    if a <= b {
      assert (b - a) * w >= 0;
    } else {
      assert (a - b) * w > 0;
    }
  }

  /** The map's cells with its size: `width * height` cells, one row after another. */
  datatype Grid = Grid(width: int, height: int, cells: seq<SpaceInfo>)

  predicate WellFormed(g: Grid)
  {
    g.width > 0 && g.height > 0 && |g.cells| == g.width * g.height
  }

  /** `isOnMap`: the column and row are both inside the map, with no wrapping. */
  predicate OnMap(g: Grid, x: int, y: int)
  {
    0 <= x < g.width && 0 <= y < g.height
  }

  function Index(g: Grid, x: int, y: int): (i: int)
    requires WellFormed(g) && 0 <= y < g.height
    ensures 0 <= i < |g.cells|
    ensures 0 <= x < g.width ==> i == y * g.width + x
  {
    CellIndex(g.width, g.height, x, y)
  }

  /**
   * The places on the map and the cells are in one-to-one correspondence:
   * an on-map place is cell `y * width + x`, and every cell is the cell of
   * the place given by its remainder and quotient by the width.
   */
  lemma OnMapCells(g: Grid, i: int)
    requires WellFormed(g) && 0 <= i < |g.cells|
    ensures OnMap(g, i % g.width, i / g.width) && Index(g, i % g.width, i / g.width) == i
  {
    var q, r := i / g.width, i % g.width;
    MulOrder(g.height, q, g.width);
    assert i == q * g.width + r;
  }

  /** `getTileType`: EMPTY off the map, otherwise the stored type of the layer. */
  function TypeAt(g: Grid, x: int, y: int, layer: MapLayer): (t: TileType)
    requires WellFormed(g) && (OnMap(g, x, y) ==> IsDrawLayer(layer))
    ensures !OnMap(g, x, y) ==> t == EMPTY
    ensures OnMap(g, x, y) ==> t == LayerType(g.cells[Index(g, x, y)], layer)
  {
    if !OnMap(g, x, y) then EMPTY else LayerType(g.cells[Index(g, x, y)], layer)
  }

  /** The type `getTile(x, y, layer)` looks up: the column is wrapped before `getTileType`. */
  function TileAt(g: Grid, x: int, y: int, layer: MapLayer): (t: TileType)
    requires WellFormed(g) && (0 <= y < g.height ==> IsDrawLayer(layer))
    ensures 0 <= y < g.height ==> t == LayerType(g.cells[Index(g, x, y)], layer)
    ensures !(0 <= y < g.height) ==> t == EMPTY
  {
    TypeAt(g, Wrap(x, g.width), y, layer)
  }

  /** The grid with one layer of one cell set: what `setTileType` (and `setTile`) writes. */
  function SetType(g: Grid, x: int, y: int, layer: MapLayer, t: TileType): (g': Grid)
    requires WellFormed(g) && 0 <= y < g.height && IsDrawLayer(layer)
    ensures WellFormed(g') && g'.width == g.width && g'.height == g.height
  {
    var i := Index(g, x, y);
    g.(cells := g.cells[i := WithLayerType(g.cells[i], layer, t)])
  }

  /**
   * Setting a type changes exactly that layer of that place (its column
   * taken modulo the width): every other place and layer reads as before,
   * and no sprite changes.
   */
  lemma SetTypeOnlyChanges(g: Grid, x: int, y: int, layer: MapLayer, t: TileType, x': int, y': int, layer': MapLayer)
    requires WellFormed(g) && 0 <= y < g.height && IsDrawLayer(layer)
    requires 0 <= y' < g.height && IsDrawLayer(layer')
    ensures TileAt(SetType(g, x, y, layer, t), x', y', layer') ==
      if y' == y && Wrap(x', g.width) == Wrap(x, g.width) && layer' == layer then t else TileAt(g, x', y', layer')
    ensures LayerSprite(SetType(g, x, y, layer, t).cells[Index(g, x', y')], layer') ==
      LayerSprite(g.cells[Index(g, x', y')], layer')
  {
    CellIndexInjective(g.width, g.height, x, y, x', y');
  }

  /** The grid with one sprite of one cell set: what `setSprite` writes. */
  function SetSpriteByte(g: Grid, x: int, y: int, layer: MapLayer, b: Byte): (g': Grid)
    requires WellFormed(g) && 0 <= y < g.height && IsDrawLayer(layer)
    ensures WellFormed(g') && g'.width == g.width && g'.height == g.height
  {
    var i := Index(g, x, y);
    g.(cells := g.cells[i := WithLayerSprite(g.cells[i], layer, b)])
  }

  /** `getSprite`: the spritesheet column and row stored for the layer. */
  function SpriteAt(g: Grid, x: int, y: int, layer: MapLayer): (place: (int, int))
    requires WellFormed(g) && 0 <= y < g.height && IsDrawLayer(layer)
    ensures 0 <= place.0 < 16 && 0 <= place.1 < 16
  {
    var b := LayerSprite(g.cells[Index(g, x, y)], layer);
    (GetX(b), GetY(b))
  }

  /**
   * The variant a boulder reads with `getVariant` (declared by no header
   * of the map): the layer's stored sprite byte, which `src/world/MapHelpers.hh`
   * calls `foregroundVariant` and `backgroundVariant`.
   */
  function VariantAt(g: Grid, x: int, y: int, layer: MapLayer): Byte
    requires WellFormed(g) && 0 <= y < g.height && IsDrawLayer(layer)
  {
    LayerSprite(g.cells[Index(g, x, y)], layer)
  }

  /** `getTileType(place, dx, dy)`: the type at the wrapped column `place.x + dx` and the row `place.y + dy`. */
  function OffsetType(g: Grid, place: Location, dx: int, dy: int): (t: TileType)
    requires WellFormed(g) && IsDrawLayer(place.layer)
    ensures t == TileAt(g, place.x + dx, place.y + dy, place.layer)
  {
    TypeAt(g, Wrap(place.x + dx, g.width), place.y + dy, place.layer)
  }

  /**
   * `setSprite` then `getSprite` on the same place and layer gives back
   * the spritesheet place, when it fits in the byte (`0 <= y < 16` and
   * `16x + y < 256`); other places and layers keep their sprites.
   */
  lemma SetSpriteThenGet(g: Grid, x: int, y: int, layer: MapLayer, sprite: Location, x': int, y': int, layer': MapLayer)
    requires WellFormed(g) && 0 <= y < g.height && IsDrawLayer(layer)
    requires 0 <= y' < g.height && IsDrawLayer(layer')
    requires 0 <= sprite.x && 0 <= sprite.y < 16 && 16 * sprite.x + sprite.y < 256
    ensures var g' := SetSpriteByte(g, x, y, layer, ToSpritePlaceAt(sprite));
      SpriteAt(g', x', y', layer') ==
        if y' == y && Wrap(x', g.width) == Wrap(x, g.width) && layer' == layer then (sprite.x, sprite.y)
        else SpriteAt(g, x', y', layer')
  {
    CellIndexInjective(g.width, g.height, x, y, x', y');
    SpritePlaceRoundTrip(sprite, sprite.x, sprite.y);
  }

  // ---------------------------------------------------------------------
  // Bordering, and the placing rules
  // ---------------------------------------------------------------------

  /** The edge class a tile compares its neighbours against: a torch acts as a solid tile. */
  function OwnEdge(e: EdgeType): EdgeType
  {
    if e == TorchEdge then SolidEdge else e
  }

  function Bit(b: bool): int
  {
    if b then 1 else 0
  }

  lemma FourBits(col: int, a: bool, b: bool, c: bool, d: bool)
    requires col == Bit(a) + 2 * Bit(b) + 4 * Bit(c) + 8 * Bit(d)
    ensures (col % 2 == 1 <==> a) && (col / 2 % 2 == 1 <==> b) && (col / 4 % 2 == 1 <==> c) && (col / 8 == 1 <==> d)
  {
  }

  /**
   * The number `bordering` computes from the tile's own type and its four
   * neighbours' types: bit 1 for the place at y + 1 (only when `hasAbove`),
   * bit 2 for x + 1, bit 4 for y - 1 (only when `hasBelow`) and bit 8 for
   * x - 1, each set when that neighbour's edge class differs. A liquid tile
   * gives 0.
   */
  function BorderCode(props: TileProps, self: TileType, above: TileType, right: TileType, below: TileType,
                      left: TileType, hasAbove: bool, hasBelow: bool): (col: int)
    ensures 0 <= col < 16
  {
    var e := props.edge(self);
    if e == LiquidEdge then 0
    else
      var own := OwnEdge(e);
      Bit(hasAbove && props.edge(above) != own) + 2 * Bit(props.edge(right) != own) +
      4 * Bit(hasBelow && props.edge(below) != own) + 8 * Bit(props.edge(left) != own)
  }

  /** Reading each bit of the code back. */
  lemma BorderCodeBits(props: TileProps, self: TileType, above: TileType, right: TileType, below: TileType,
                       left: TileType, hasAbove: bool, hasBelow: bool)
    ensures var col := BorderCode(props, self, above, right, below, left, hasAbove, hasBelow);
      var own := OwnEdge(props.edge(self));
      (props.edge(self) == LiquidEdge ==> col == 0) &&
      (props.edge(self) != LiquidEdge ==>
        (col % 2 == 1 <==> hasAbove && props.edge(above) != own) &&
        (col / 2 % 2 == 1 <==> props.edge(right) != own) &&
        (col / 4 % 2 == 1 <==> hasBelow && props.edge(below) != own) &&
        (col / 8 == 1 <==> props.edge(left) != own))
  {
    var own := OwnEdge(props.edge(self));
    if props.edge(self) != LiquidEdge {
      FourBits(BorderCode(props, self, above, right, below, left, hasAbove, hasBelow),
        hasAbove && props.edge(above) != own, props.edge(right) != own,
        hasBelow && props.edge(below) != own, props.edge(left) != own);
    }
  }

  /**
   * `bordering`: the code of the tile at the place and its neighbours, the
   * columns wrapping around and the rows at y = height - 1 and y = 0 not
   * looking past the map.
   */
  function Bordering(g: Grid, props: TileProps, place: Location): (col: int)
    requires WellFormed(g) && 0 <= place.y < g.height && IsDrawLayer(place.layer)
    ensures 0 <= col < 16
  {
    BorderCode(props, TileAt(g, place.x, place.y, place.layer),
      TileAt(g, place.x, place.y + 1, place.layer), TileAt(g, place.x + 1, place.y, place.layer),
      TileAt(g, place.x, place.y - 1, place.layer), TileAt(g, place.x - 1, place.y, place.layer),
      place.y != g.height - 1, place.y != 0)
  }

  /** A place `isBesideTile` counts: on the map (no wrapping) and holding a tile. */
  predicate HasTile(g: Grid, x: int, y: int, layer: MapLayer)
    requires WellFormed(g) && IsDrawLayer(layer)
  {
    OnMap(g, x, y) && Present(TypeAt(g, x, y, layer))
  }

  /**
   * `isBesideTile`: the place itself (its column wrapped) or one of its four
   * orthogonal neighbours that is on the map holds a tile; diagonal
   * neighbours do not count.
   */
  predicate Beside(g: Grid, x: int, y: int, layer: MapLayer)
    requires WellFormed(g) && IsDrawLayer(layer)
  {
    Present(TileAt(g, x, y, layer)) ||
    HasTile(g, x - 1, y, layer) || HasTile(g, x + 1, y, layer) ||
    HasTile(g, x, y - 1, layer) || HasTile(g, x, y + 1, layer)
  }

  /** The three tests of `placeTile`, each of which makes it return false. */
  predicate CanPlace(g: Grid, props: TileProps, place: Location, t: TileType)
    requires WellFormed(g) && 0 <= place.y < g.height && IsDrawLayer(place.layer)
  {
    !Present(TileAt(g, place.x, place.y, place.layer)) &&
    (Beside(g, place.x, place.y, Foreground) || Beside(g, place.x, place.y, Background)) &&
    (place.layer == Background ==> props.canBackground(t))
  }

  /** A placed tile is what the place then holds. */
  lemma PlacedTileIsThere(g: Grid, place: Location, t: TileType)
    requires WellFormed(g) && 0 <= place.y < g.height && IsDrawLayer(place.layer)
    ensures TileAt(SetType(g, place.x, place.y, place.layer, t), place.x, place.y, place.layer) == t
  {
    SetTypeOnlyChanges(g, place.x, place.y, place.layer, t, place.x, place.y, place.layer);
  }

  // ---------------------------------------------------------------------
  // Killing, moving and displacing tiles
  // ---------------------------------------------------------------------

  /** A `DroppedItem`: the item, its pixel position and the world width in pixels. */
  datatype Drop = Drop(item: ActionType, x: int, y: int, worldWidth: int)

  /** The items `kill` drops: the tile's block item, unless the place was empty. */
  function KillDrops(g: Grid, tileWidth: int, tileHeight: int, x: int, y: int, layer: MapLayer): (drops: seq<Drop>)
    requires WellFormed(g) && 0 <= y < g.height && IsDrawLayer(layer)
    requires TileAt(g, x, y, layer) != WATER
    ensures |drops| <= 1
    ensures drops == [] <==> TileAt(g, x, y, layer) == EMPTY
    ensures drops != [] ==> drops[0].item == TileToItem(TileAt(g, x, y, layer))
  {
    var t := TileAt(g, x, y, layer);
    if t == EMPTY then [] else [Drop(TileToItem(t), x * tileWidth, y * tileHeight, g.width * tileWidth)]
  }

  /**
   * The grid after `moveTile(place, dx, dy)`: off the map the tile
   * vanishes; otherwise the destination is killed, gets the tile's sprite
   * and type, and the place becomes EMPTY.
   */
  function MovedGrid(g: Grid, place: Location, dx: int, dy: int): (g': Grid)
    requires WellFormed(g) && 0 <= place.y < g.height && IsDrawLayer(place.layer)
    ensures WellFormed(g') && g'.width == g.width && g'.height == g.height
  {
    var newX := Wrap(place.x + dx, g.width);
    var newY := place.y + dy;
    if !OnMap(g, newX, newY) then SetType(g, place.x, place.y, place.layer, EMPTY)
    else MovedOnMap(g, place, newX, newY)
  }

  /** `moveTile` to an on-map destination (newX, newY): the destination is killed, then the tile copied. */
  function MovedOnMap(g: Grid, place: Location, newX: int, newY: int): (g': Grid)
    requires WellFormed(g) && 0 <= place.y < g.height && IsDrawLayer(place.layer) && OnMap(g, newX, newY)
    ensures WellFormed(g') && g'.width == g.width && g'.height == g.height
  {
    CopiedGrid(SetType(g, newX, newY, place.layer, EMPTY), place, newX, newY)
  }

  /** The copy step of `moveTile`: sprite and type to (newX, newY), and the place emptied. */
  function CopiedGrid(g: Grid, place: Location, newX: int, newY: int): (g': Grid)
    requires WellFormed(g) && 0 <= place.y < g.height && IsDrawLayer(place.layer) && OnMap(g, newX, newY)
    ensures WellFormed(g') && g'.width == g.width && g'.height == g.height
  {
    var t := TileAt(g, place.x, place.y, place.layer);
    var sprite := LayerSprite(g.cells[Index(g, place.x, place.y)], place.layer);
    var spriteSet := SetSpriteByte(g, newX, newY, place.layer, sprite);
    var moved := SetType(spriteSet, newX, newY, place.layer, t);
    SetType(moved, place.x, place.y, place.layer, EMPTY)
  }

  /** `moveTile` asserts nothing about water, but `kill` does: the destination must not hold water. */
  predicate MoveAllowed(g: Grid, place: Location, dx: int, dy: int)
    requires WellFormed(g) && IsDrawLayer(place.layer)
  {
    var newX := Wrap(place.x + dx, g.width);
    OnMap(g, newX, place.y + dy) ==> TileAt(g, newX, place.y + dy, place.layer) != WATER
  }

  /** What `moveTile` drops: what killing the destination drops, and nothing when it is off the map. */
  function MoveDrops(g: Grid, tileWidth: int, tileHeight: int, place: Location, dx: int, dy: int): (drops: seq<Drop>)
    requires WellFormed(g) && IsDrawLayer(place.layer) && MoveAllowed(g, place, dx, dy)
    ensures |drops| <= 1
  {
    var newX := Wrap(place.x + dx, g.width);
    if OnMap(g, newX, place.y + dy) then KillDrops(g, tileWidth, tileHeight, newX, place.y + dy, place.layer) else []
  }

  /**
   * When the destination is on the map and is another cell, `moveTile`
   * leaves the tile and its sprite there and the place EMPTY; every other
   * cell is untouched.
   */
  lemma MovedGridMeaning(g: Grid, place: Location, dx: int, dy: int)
    requires WellFormed(g) && 0 <= place.y < g.height && IsDrawLayer(place.layer)
    ensures var newX, newY := Wrap(place.x + dx, g.width), place.y + dy;
      var g' := MovedGrid(g, place, dx, dy);
      var i := Index(g, place.x, place.y);
      (OnMap(g, newX, newY) && Index(g, newX, newY) != i ==>
        var j := Index(g, newX, newY);
        LayerType(g'.cells[j], place.layer) == LayerType(g.cells[i], place.layer) &&
        LayerSprite(g'.cells[j], place.layer) == LayerSprite(g.cells[i], place.layer) &&
        LayerType(g'.cells[i], place.layer) == EMPTY &&
        forall k :: 0 <= k < |g.cells| && k != i && k != j ==> g'.cells[k] == g.cells[k]) &&
      (!OnMap(g, newX, newY) ==>
        LayerType(g'.cells[i], place.layer) == EMPTY &&
        forall k :: 0 <= k < |g.cells| && k != i ==> g'.cells[k] == g.cells[k])
  {
  }

  /**
   * The grid after `displaceTile(place, dx, dy)`: with the destination on
   * the map, the two places swap their types and sprites.
   */
  function DisplacedGrid(g: Grid, place: Location, dx: int, dy: int): (g': Grid)
    requires WellFormed(g) && 0 <= place.y < g.height && IsDrawLayer(place.layer)
    ensures WellFormed(g') && g'.width == g.width && g'.height == g.height
  {
    var newX := Wrap(place.x + dx, g.width);
    var newY := place.y + dy;
    if !OnMap(g, newX, newY) then g else SwappedGrid(g, place, newX, newY)
  }

  /** The swap `displaceTile` makes with an on-map destination (newX, newY): sprites first, then types. */
  function SwappedGrid(g: Grid, place: Location, newX: int, newY: int): (g': Grid)
    requires WellFormed(g) && 0 <= place.y < g.height && IsDrawLayer(place.layer) && OnMap(g, newX, newY)
    ensures WellFormed(g') && g'.width == g.width && g'.height == g.height
  {
    var destination := TileAt(g, newX, newY, place.layer);
    var destSprite := LayerSprite(g.cells[Index(g, newX, newY)], place.layer);
    var ownSprite := LayerSprite(g.cells[Index(g, place.x, place.y)], place.layer);
    var g1 := SetSpriteByte(g, newX, newY, place.layer, ownSprite);
    var g2 := SetSpriteByte(g1, place.x, place.y, place.layer, destSprite);
    var g3 := SetType(g2, newX, newY, place.layer, TileAt(g2, place.x, place.y, place.layer));
    SetType(g3, place.x, place.y, place.layer, destination)
  }

  /**
   * `displaceTile` swaps the layer's type and sprite of the two places and
   * changes nothing else; off the map it changes nothing.
   */
  lemma DisplacedGridSwaps(g: Grid, place: Location, dx: int, dy: int)
    requires WellFormed(g) && 0 <= place.y < g.height && IsDrawLayer(place.layer)
    ensures var newX, newY := Wrap(place.x + dx, g.width), place.y + dy;
      var g' := DisplacedGrid(g, place, dx, dy);
      var i := Index(g, place.x, place.y);
      (OnMap(g, newX, newY) ==>
        var j := Index(g, newX, newY);
        LayerType(g'.cells[j], place.layer) == LayerType(g.cells[i], place.layer) &&
        LayerSprite(g'.cells[j], place.layer) == LayerSprite(g.cells[i], place.layer) &&
        LayerType(g'.cells[i], place.layer) == LayerType(g.cells[j], place.layer) &&
        LayerSprite(g'.cells[i], place.layer) == LayerSprite(g.cells[j], place.layer) &&
        forall k :: 0 <= k < |g.cells| && k != i && k != j ==> g'.cells[k] == g.cells[k]) &&
      (!OnMap(g, newX, newY) ==> g' == g)
  {
    var newX, newY := Wrap(place.x + dx, g.width), place.y + dy;
    if OnMap(g, newX, newY) {
      assert Wrap(place.x + dx, g.width) == Wrap(newX, g.width);
    }
  }

  /**
   * `getMapCoords`: a pixel position to a map place. A world width is added
   * to x so that it is not negative, both coordinates are divided by the
   * tile size with C division, and the column is wrapped.
   */
  function MapCoords(width: int, tileWidth: int, tileHeight: int, x: int, y: int, layer: MapLayer): (place: Location)
    requires width > 0 && tileWidth > 0 && tileHeight > 0 && x + width * tileWidth >= 0
    ensures 0 <= place.x < width && place.layer == layer
    ensures place.y == CDiv(y, tileHeight)
  {
    Location(Wrap(CDiv(x + width * tileWidth, tileWidth), width), CDiv(y, tileHeight), layer)
  }

  /**
   * On the map's pixels the place is the tile the pixel lies in; any other
   * x lands on the wrapped column of its tile, and a y less than one tile
   * above the map still gives row 0, because C division rounds toward zero.
   */
  lemma MapCoordsOfPixel(width: int, tileWidth: int, tileHeight: int, x: int, y: int, layer: MapLayer)
    requires width > 0 && tileWidth > 0 && tileHeight > 0 && x + width * tileWidth >= 0
    ensures var place := MapCoords(width, tileWidth, tileHeight, x, y, layer);
      (x >= 0 ==> place.x == Wrap(x / tileWidth, width)) &&
      (0 <= x < width * tileWidth ==> place.x == x / tileWidth) &&
      (y >= 0 ==> place.y == y / tileHeight) &&
      (-tileHeight < y < 0 ==> place.y == 0)
  {
    if x >= 0 {
      var column := ShiftedColumn(width, tileWidth, x);
      WrapShift(x / tileWidth, width, 1);
      assert Wrap(column, width) == Wrap(x / tileWidth, width);
      if x < width * tileWidth {
        DivBelowWidth(x, tileWidth, width);
      }
    }
  }

  /** Adding a world width in pixels adds `width` columns. */
  lemma ShiftedColumn(width: int, tileWidth: int, x: int) returns (column: int)
    requires width > 0 && tileWidth > 0 && x >= 0
    ensures column == CDiv(x + width * tileWidth, tileWidth) == x / tileWidth + 1 * width
  {
    ModUnique(x + width * tileWidth, tileWidth, x / tileWidth + width, x % tileWidth);
    column := x / tileWidth + width;
  }

  lemma DivBelowWidth(x: int, tileWidth: int, width: int)
    requires tileWidth > 0 && 0 <= x < width * tileWidth
    ensures 0 <= x / tileWidth < width
  {
    MulOrder(width, x / tileWidth, tileWidth);
  }

  // ---------------------------------------------------------------------
  // The save file
  // ---------------------------------------------------------------------

  /**
   * The numbers of a save file, apart from its header lines: the size,
   * the spawn point, the seed, the run-length coded foreground, background
   * and biomes, and the two sprite bytes of every cell.
   */
  datatype SaveFile = SaveFile(
    width: int,
    height: int,
    spawnX: int,
    spawnY: int,
    seed: int,
    foreground: seq<Span<TileType>>,
    background: seq<Span<TileType>>,
    biomes: seq<Span<BiomeType>>,
    sprites: seq<(int, int)>)

  /** The sprite bytes `save` writes, cell by cell. */
  function SpritesOf(cells: seq<SpaceInfo>): (sprites: seq<(int, int)>)
    ensures |sprites| == |cells|
    ensures forall i :: 0 <= i < |cells| ==> sprites[i] == (cells[i].foregroundSprite, cells[i].backgroundSprite)
  {
    seq(|cells|, i requires 0 <= i < |cells| => (cells[i].foregroundSprite, cells[i].backgroundSprite))
  }

  /** What `save` writes. */
  function SaveOf(g: Grid, spawnX: int, spawnY: int, seed: int, biomes: seq<BiomeType>): SaveFile
  {
    SaveFile(g.width, g.height, spawnX, spawnY, seed,
      Compress(LayerOf(g.cells, Foreground)), Compress(LayerOf(g.cells, Background)),
      Compress(biomes), SpritesOf(g.cells))
  }

  /** What the loading constructor can read: both layers cover the map exactly, one sprite pair per cell. */
  predicate Loadable(f: SaveFile)
  {
    f.width > 0 && f.height > 0 &&
    NonNegative(f.foreground) && Total(f.foreground) == f.width * f.height &&
    NonNegative(f.background) && Total(f.background) == f.width * f.height &&
    NonNegative(f.biomes) && Total(f.biomes) == BiomeCount(f.width) * BiomeCount(f.height) &&
    |f.sprites| == f.width * f.height
  }

  /**
   * The cells the constructor builds from a save file: fresh `SpaceInfo`s
   * with the decoded types, and the sprite numbers stored into `uint8_t`.
   */
  function LoadedCells(f: SaveFile): (cells: seq<SpaceInfo>)
    requires Loadable(f)
    ensures |cells| == f.width * f.height
  {
    var fore := Expand(f.foreground);
    var back := Expand(f.background);
    seq(f.width * f.height, i requires 0 <= i < f.width * f.height =>
      NewSpaceInfo().(foreground := fore[i], background := back[i],
                      foregroundSprite := ToByte(f.sprites[i].0), backgroundSprite := ToByte(f.sprites[i].1)))
  }

  /** What survives a save and load of a cell: its two types and two sprites; the lighting starts over. */
  function Reloaded(c: SpaceInfo): SpaceInfo
  {
    NewSpaceInfo().(foreground := c.foreground, background := c.background,
                    foregroundSprite := c.foregroundSprite, backgroundSprite := c.backgroundSprite)
  }

  /**
   * Saving a map and loading the file gives back its size, spawn point,
   * seed, both layers and the sprites of every cell, and its biomes; the
   * coded layers are canonical and cover the map exactly.
   */
  lemma SaveLoadRoundTrip(g: Grid, spawnX: int, spawnY: int, seed: int, biomes: seq<BiomeType>)
    requires WellFormed(g) && |biomes| == BiomeCount(g.width) * BiomeCount(g.height)
    ensures var f := SaveOf(g, spawnX, spawnY, seed, biomes);
      Loadable(f) &&
      Canonical(f.foreground) && Canonical(f.background) && Canonical(f.biomes) &&
      f.width == g.width && f.height == g.height && f.spawnX == spawnX && f.spawnY == spawnY && f.seed == seed &&
      Expand(f.biomes) == biomes &&
      LoadedCells(f) == seq(|g.cells|, i requires 0 <= i < |g.cells| => Reloaded(g.cells[i]))
  {
    SaveCodes(g, spawnX, spawnY, seed, biomes);
    LoadedCellsOf(SaveOf(g, spawnX, spawnY, seed, biomes), g.cells);
  }

  /** The three codes of a save file are canonical and decode to the layers and the biomes. */
  lemma SaveCodes(g: Grid, spawnX: int, spawnY: int, seed: int, biomes: seq<BiomeType>)
    requires WellFormed(g) && |biomes| == BiomeCount(g.width) * BiomeCount(g.height)
    ensures Loadable(SaveOf(g, spawnX, spawnY, seed, biomes))
    ensures Canonical(Compress(LayerOf(g.cells, Foreground))) && Expand(Compress(LayerOf(g.cells, Foreground))) == LayerOf(g.cells, Foreground)
    ensures Canonical(Compress(LayerOf(g.cells, Background))) && Expand(Compress(LayerOf(g.cells, Background))) == LayerOf(g.cells, Background)
    ensures Canonical(Compress(biomes)) && Expand(Compress(biomes)) == biomes
  {
    CompressRoundTrip(LayerOf(g.cells, Foreground));
    CompressRoundTrip(LayerOf(g.cells, Background));
    CompressRoundTrip(biomes);
  }

  lemma LoadedCellsOf(f: SaveFile, cells: seq<SpaceInfo>)
    requires Loadable(f) && |cells| == f.width * f.height
    requires Expand(f.foreground) == LayerOf(cells, Foreground)
    requires Expand(f.background) == LayerOf(cells, Background)
    requires f.sprites == SpritesOf(cells)
    ensures LoadedCells(f) == seq(|cells|, i requires 0 <= i < |cells| => Reloaded(cells[i]))
  {
    var loaded := LoadedCells(f);
    forall i | 0 <= i < |cells|
      ensures loaded[i] == Reloaded(cells[i])
    {
      assert Expand(f.foreground)[i] == cells[i].foreground;
      assert Expand(f.background)[i] == cells[i].background;
    }
  }
}
