/**
 * `Map`: the world's tile grid, stored as an array of `width * height`
 * cells, with its biome grid, the set of places whose tiles want updates,
 * the list of damaged tiles and the tick counter. Each method's contract
 * ties the new state to the pure definitions of `MapCells`.
 */
module TileMap {
  import opened CInts
  import opened Tiles
  import opened MapHelpers
  import opened RunLength
  import opened MapCells

  /** The map the game plays on: the Map class. */
  class Map {
    const tileWidth: int
    const tileHeight: int
    /** The attributes each tile type read from its JSON file. */
    const props: TileProps

    var seed: int
    var tick: UInt32
    var tiles: array<SpaceInfo>
    var biomes: seq<BiomeType>
    var height: int
    var width: int
    var biomesHigh: int
    var biomesWide: int
    var spawnX: int
    var spawnY: int
    var toUpdate: set<Location>
    var damaged: seq<TileHealth>

    /** A playable map: the cell array and the biome vector have the sizes the dimensions give. */
    ghost predicate Valid()
      reads this
    {
      width > 0 && height > 0 && tiles.Length == width * height &&
      biomesWide == BiomeCount(width) && biomesHigh == BiomeCount(height) &&
      |biomes| == biomesWide * biomesHigh &&
      tileWidth > 0 && tileHeight > 0
    }

    /** Cells seen with this map's dimensions. */
    function G(cells: seq<SpaceInfo>): Grid
      reads this
    {
      Grid(width, height, cells)
    }

    function GridOf(): (g: Grid)
      reads this, tiles
      ensures Valid() ==> WellFormed(g)
    {
      G(tiles[..])
    }

    /**
     * The private constructor `Map()` that `Mapgen` starts from: tiles of
     * size 1, no cells yet. The fields it leaves uninitialised start at 0.
     */
    constructor Blank(props: TileProps)
      ensures tileWidth == 1 && tileHeight == 1 && this.props == props
      ensures tiles.Length == 0 && width == 0 && height == 0 && tick == 0
      ensures toUpdate == {} && damaged == [] && biomes == []
      ensures fresh(tiles)
    {
      tileWidth := 1;
      tileHeight := 1;
      this.props := props;
      seed := 0;
      tick := 0;
      tiles := new SpaceInfo[0];
      biomes := [];
      height := 0;
      width := 0;
      biomesHigh := 0;
      biomesWide := 0;
      spawnX := 0;
      spawnY := 0;
      toUpdate := {};
      damaged := [];
    }

    /** `wrapX`: C++ `%`, then whole widths added while the column is negative. */
    method WrapX(x: int) returns (r: int)
      requires width > 0
      ensures r == Wrap(x, width)
    {
      r := CRem(x, width);
      ModAddMultiple(0, width, CDiv(x, width));
      assert (x - r) % width == 0;
      while r < 0
        invariant -width < r < width
        invariant (x - r) % width == 0
        decreases -r
      {
        ModAddMultiple(x - r - width, width, 1);
        r := r + width;
      }
      WrapCongruent(x, r, width);
    }

    /** `findPointer`: the index of the cell at the wrapped column and the row. */
    method FindPointer(x: int, y: int) returns (i: int)
      requires Valid() && 0 <= y < height
      ensures i == CellIndex(width, height, x, y) && 0 <= i < tiles.Length
    {
      var wx := WrapX(x);
      i := y * width + wx;
    }

    /** `setWidth`: the width, and the biome columns it needs. */
    method SetWidth(newWidth: int)
      modifies this`width, this`biomesWide
      ensures width == newWidth && biomesWide == BiomeCount(newWidth)
    {
      width := newWidth;
      biomesWide := CDiv(newWidth, BIOME_SIZE) + 1;
    }

    /** `setHeight`: the height, and the biome rows it needs. */
    method SetHeight(newHeight: int)
      modifies this`height, this`biomesHigh
      ensures height == newHeight && biomesHigh == BiomeCount(newHeight)
    {
      height := newHeight;
      biomesHigh := CDiv(newHeight, BIOME_SIZE) + 1;
    }

    /** `getBiome`: the biome of the square holding tile (x, y). */
    function GetBiome(x: int, y: int): BiomeType
      reads this
      requires |biomes| == biomesWide * biomesHigh
      requires 0 <= x < biomesWide * BIOME_SIZE && 0 <= y < biomesHigh * BIOME_SIZE
    {
      BiomeOf(biomes, biomesWide, biomesHigh, x, y)
    }

    /**
     * `setBiome`: biome square (x, y) is set, so every tile in that square
     * reads the new biome and every other tile reads what it read before.
     */
    method SetBiome(x: int, y: int, info: BiomeType)
      requires |biomes| == biomesWide * biomesHigh
      requires 0 <= x < biomesWide && 0 <= y < biomesHigh
      modifies this`biomes
      ensures biomes == old(biomes)[BiomeSquare(biomesWide, biomesHigh, x, y) := info]
      ensures forall tx, ty :: 0 <= tx < biomesWide * BIOME_SIZE && 0 <= ty < biomesHigh * BIOME_SIZE ==>
        BiomeOf(biomes, biomesWide, biomesHigh, tx, ty) ==
          if tx / BIOME_SIZE == x && ty / BIOME_SIZE == y then info else BiomeOf(old(biomes), biomesWide, biomesHigh, tx, ty)
    {
      ghost var before := biomes;
      biomes := biomes[BiomeSquare(biomesWide, biomesHigh, x, y) := info];
      forall tx, ty | 0 <= tx < biomesWide * BIOME_SIZE && 0 <= ty < biomesHigh * BIOME_SIZE
        ensures BiomeOf(biomes, biomesWide, biomesHigh, tx, ty) ==
          if tx / BIOME_SIZE == x && ty / BIOME_SIZE == y then info else BiomeOf(before, biomesWide, biomesHigh, tx, ty)
      {
        SetBiomeThenGet(before, biomesWide, biomesHigh, x, y, info, tx, ty);
      }
    }

    /** `getTileType`. */
    function GetTileType(x: int, y: int, layer: MapLayer): TileType
      reads this, tiles
      requires Valid() && (OnMap(GridOf(), x, y) ==> IsDrawLayer(layer))
    {
      TypeAt(GridOf(), x, y, layer)
    }

    /** `setTileType`: one layer of one cell is set. */
    method SetTileType(x: int, y: int, layer: MapLayer, t: TileType)
      requires Valid() && 0 <= y < height && IsDrawLayer(layer)
      modifies tiles
      ensures tiles[..] == SetType(G(old(tiles[..])), x, y, layer, t).cells
    {
      var i := FindPointer(x, y);
      tiles[i] := WithLayerType(tiles[i], layer, t);
    }

    /** `getSprite`. */
    function GetSprite(x: int, y: int, layer: MapLayer): (int, int)
      reads this, tiles
      requires Valid() && 0 <= y < height && IsDrawLayer(layer)
    {
      SpriteAt(GridOf(), x, y, layer)
    }

    /** `setSprite`: the spritesheet place is stored as one byte in the layer's sprite. */
    method SetSprite(x: int, y: int, layer: MapLayer, newSprite: Location)
      requires Valid() && 0 <= y < height && IsDrawLayer(layer)
      modifies tiles
      ensures tiles[..] == SetSpriteByte(G(old(tiles[..])), x, y, layer, ToSpritePlaceAt(newSprite)).cells
    {
      var toSet := ToSpritePlaceAt(newSprite);
      var i := FindPointer(x, y);
      tiles[i] := WithLayerSprite(tiles[i], layer, toSet);
    }

    /** `getVariant`, as a boulder calls it: the layer's stored sprite byte. */
    function GetVariant(x: int, y: int, layer: MapLayer): Byte
      reads this, tiles
      requires Valid() && 0 <= y < height && IsDrawLayer(layer)
    {
      VariantAt(GridOf(), x, y, layer)
    }

    /** `setVariant`, as a boulder calls it: the layer's sprite byte is overwritten. */
    method SetVariant(x: int, y: int, layer: MapLayer, variant: Byte)
      requires Valid() && 0 <= y < height && IsDrawLayer(layer)
      modifies tiles
      ensures tiles[..] == SetSpriteByte(G(old(tiles[..])), x, y, layer, variant).cells
    {
      var i := FindPointer(x, y);
      tiles[i] := WithLayerSprite(tiles[i], layer, variant);
    }

    /** `getTileType(place, dx, dy)`: the column is wrapped, the row is not. */
    method GetTileTypeNear(place: Location, dx: int, dy: int) returns (t: TileType)
      requires Valid() && IsDrawLayer(place.layer)
      ensures t == OffsetType(GridOf(), place, dx, dy)
    {
      var newX := WrapX(place.x + dx);
      t := GetTileType(newX, place.y + dy, place.layer);
    }

    /**
     * `addToUpdate`: the place (which must be on the map) joins the set
     * exactly when its tile says it can update.
     */
    method AddToUpdate(place: Location, canUpdate: bool)
      requires 0 <= place.x < width && 0 <= place.y < height
      modifies this`toUpdate
      ensures toUpdate == if canUpdate then old(toUpdate) + {place} else old(toUpdate)
      ensures UpdateContains(place) <==> canUpdate || old(UpdateContains(place))
    {
      if canUpdate {
        toUpdate := toUpdate + {place};
      }
    }

    /** `removeFromUpdate`. */
    method RemoveFromUpdate(place: Location)
      modifies this`toUpdate
      ensures toUpdate == old(toUpdate) - {place}
      ensures !UpdateContains(place)
    {
      toUpdate := toUpdate - {place};
    }

    /** `updateContains`. */
    predicate UpdateContains(place: Location)
      reads this
    {
      place in toUpdate
    }

    /**
     * `kill`: the tile's block item is dropped (unless the place was
     * empty) and the place becomes EMPTY. Killing water is forbidden.
     */
    method Kill(x: int, y: int, layer: MapLayer) returns (drops: seq<Drop>)
      requires Valid() && 0 <= y < height && IsDrawLayer(layer)
      requires TileAt(GridOf(), x, y, layer) != WATER
      modifies tiles
      ensures drops == KillDrops(G(old(tiles[..])), tileWidth, tileHeight, x, y, layer)
      ensures tiles[..] == SetType(G(old(tiles[..])), x, y, layer, EMPTY).cells
    {
      var wx := WrapX(x);
      var t := GetTileType(wx, y, layer);
      drops := [];
      if t != EMPTY {
        drops := [Drop(ItemMaker.TileToItem(t), x * tileWidth, y * tileHeight, width * tileWidth)];
      }
      SetTileType(x, y, layer, EMPTY);
    }

    /** `destroy`: the tile is killed exactly when the entry has no health left, and that is the answer. */
    method Destroy(health: TileHealth) returns (destroyed: bool, drops: seq<Drop>)
      requires Valid()
      requires health.health <= 0 ==>
        0 <= health.place.y < height && IsDrawLayer(health.place.layer) &&
        TileAt(GridOf(), health.place.x, health.place.y, health.place.layer) != WATER
      modifies tiles
      ensures destroyed <==> health.health <= 0
      ensures destroyed ==> tiles[..] == SetType(G(old(tiles[..])), health.place.x, health.place.y, health.place.layer, EMPTY).cells
      ensures destroyed ==> drops == KillDrops(G(old(tiles[..])), tileWidth, tileHeight, health.place.x, health.place.y, health.place.layer)
      ensures !destroyed ==> tiles[..] == old(tiles[..]) && drops == []
    {
      drops := [];
      if health.health <= 0 {
        drops := Kill(health.place.x, health.place.y, health.place.layer);
      }
      destroyed := health.health <= 0;
    }

    /**
     * `isBesideTile`: the place, then the neighbours (i, j) in -1..1 that
     * are on the map and not on a diagonal.
     */
    method IsBesideTile(x: int, y: int, layer: MapLayer) returns (beside: bool)
      requires Valid() && IsDrawLayer(layer)
      ensures beside == Beside(GridOf(), x, y, layer)
    {
      ghost var g := GridOf();
      BesideByNeighbours(g, x, y, layer);
      var wx := WrapX(x);
      var here := GetTileType(wx, y, layer);
      if here != EMPTY && here != WATER {
        return true;
      }
      var i := -1;
      while i < 2
        invariant -1 <= i <= 2
        invariant forall i', j' :: -1 <= i' < i && -1 <= j' < 2 ==> !Counted(g, x, y, i', j', layer)
      {
        var j := -1;
        while j < 2
          invariant -1 <= j <= 2
          invariant forall j' :: -1 <= j' < j ==> !Counted(g, x, y, i, j', layer)
        {
          var found := NeighbourHasTile(x, y, i, j, layer);
          if found {
            return true;
          }
          j := j + 1;
        }
        i := i + 1;
      }
      return false;
    }

    /** The test `isBesideTile` makes of neighbour (i, j). */
    method NeighbourHasTile(x: int, y: int, i: int, j: int, layer: MapLayer) returns (found: bool)
      requires Valid() && IsDrawLayer(layer)
      ensures found == Counted(GridOf(), x, y, i, j, layer)
    {
      found := false;
      if 0 <= x + i < width && 0 <= y + j < height && i != j && i != -1 * j {
        var nx := WrapX(x + i);
        var t := GetTileType(nx, y + j, layer);
        found := t != EMPTY && t != WATER;
      }
    }

    /**
     * `placeTile`: refused (false, nothing changed) when the place holds a
     * tile, when neither layer is beside a tile, or when the tile cannot be
     * a background tile; otherwise the type is set and the cell's two
     * sprites are re-chosen (the choice is given).
     */
    method PlaceTile(place: Location, t: TileType, foreSprite: Byte, backSprite: Byte) returns (placed: bool)
      requires Valid() && 0 <= place.y < height && IsDrawLayer(place.layer)
      modifies tiles
      ensures placed == CanPlace(G(old(tiles[..])), props, place, t)
      ensures !placed ==> tiles[..] == old(tiles[..])
      ensures placed ==> tiles[..] ==
                         SetSpriteByte(SetSpriteByte(SetType(G(old(tiles[..])), place.x, place.y, place.layer, t),
                                                     place.x, place.y, Foreground, foreSprite),
                                       place.x, place.y, Background, backSprite).cells
    {
      var wx := WrapX(place.x);
      var here := GetTileType(wx, place.y, place.layer);
      if here != EMPTY && here != WATER {
        return false;
      }
      var fore := IsBesideTile(place.x, place.y, Foreground);
      var back := IsBesideTile(place.x, place.y, Background);
      if !fore && !back {
        return false;
      }
      if place.layer == Background && !props.canBackground(t) {
        return false;
      }
      SetTileType(place.x, place.y, place.layer, t);
      ChooseSprite(place.x, place.y, foreSprite, backSprite);
      return true;
    }

    /** `chooseSprite`: both sprites of the cell are set; the choice itself is random and given. */
    method ChooseSprite(x: int, y: int, foreSprite: Byte, backSprite: Byte)
      requires Valid() && 0 <= y < height
      modifies tiles
      ensures tiles[..] ==
        SetSpriteByte(SetSpriteByte(G(old(tiles[..])), x, y, Foreground, foreSprite), x, y, Background, backSprite).cells
    {
      var i := FindPointer(x, y);
      tiles[i] := tiles[i].(foregroundSprite := foreSprite);
      i := FindPointer(x, y);
      tiles[i] := tiles[i].(backgroundSprite := backSprite);
    }

    /**
     * `damage`: nothing happens at an EMPTY or WATER place; otherwise the
     * damaged list becomes `DamagedList`, and the tile is killed when its
     * entry has no health left.
     */
    method Damage(place: Location, amount: int) returns (hit: bool, drops: seq<Drop>)
      requires Valid() && (0 <= place.y < height ==> IsDrawLayer(place.layer))
      modifies this`damaged, tiles
      ensures hit == Present(TileAt(G(old(tiles[..])), place.x, place.y, place.layer))
      ensures !hit ==> damaged == old(damaged) && tiles[..] == old(tiles[..]) && drops == []
      ensures hit ==>
        var t := TileAt(G(old(tiles[..])), place.x, place.y, place.layer);
        var (entry, list) := DamagedList(old(damaged), place, amount, AsInt(old(tick)), props.maxHealth(t));
        damaged == list &&
        (entry.health <= 0 ==>
          tiles[..] == SetType(G(old(tiles[..])), place.x, place.y, place.layer, EMPTY).cells &&
          drops == KillDrops(G(old(tiles[..])), tileWidth, tileHeight, place.x, place.y, place.layer)) &&
        (entry.health > 0 ==> tiles[..] == old(tiles[..]) && drops == [])
    {
      var t := EMPTY;
      if 0 <= place.y < height {
        var wx := WrapX(place.x);
        t := GetTileType(wx, place.y, place.layer);
      }
      if t == EMPTY || t == WATER {
        return false, [];
      }
      var stamp := AsInt(tick);
      ghost var result := DamagedList(damaged, place, amount, stamp, props.maxHealth(t));
      var list, index := HitEntries(damaged, place, amount, stamp);
      if index == -1 {
        list := list + [TileHealth(place, props.maxHealth(t) - amount, stamp)];
        index := |list| - 1;
      }
      assert list[index] == result.0;
      var destroyed;
      destroyed, drops := Destroy(list[index]);
      if destroyed {
        list := list[..index] + list[index + 1..];
      }
      damaged := list;
      return true, drops;
    }

    /** The first loop of `update`: places whose tiles cannot update are erased from the set. */
    method PruneUpdates(canUpdate: Location -> bool)
      modifies this`toUpdate
      ensures forall l :: l in toUpdate <==> l in old(toUpdate) && canUpdate(l)
    {
      var rest := toUpdate;
      while rest != {}
        invariant rest <= old(toUpdate)
        invariant forall l :: l in toUpdate <==> l in old(toUpdate) && (l in rest || canUpdate(l))
        decreases |rest|
      {
        var l :| l in rest;
        if !canUpdate(l) {
          toUpdate := toUpdate - {l};
        }
        rest := rest - {l};
      }
    }

    /** The healing loop of `update`: entries damaged more than `HEAL_TIME` ticks ago are erased. */
    method Heal()
      modifies this`damaged
      ensures damaged == Healed(old(damaged), tick)
    {
      var list := damaged;
      ghost var d0 := list;
      ghost var n := 0;
      var i := 0;
      while i < |list|
        invariant 0 <= i <= |list| && 0 <= n <= |d0|
        invariant list[..i] == Healed(d0[..n], tick)
        invariant list[i..] == d0[n..]
        decreases |list| - i
      {
        HealedStep(d0, tick, n);
        assert list[i] == d0[n];
        if ToUInt32(tick - list[i].lastUpdated) > HEAL_TIME {
          assert list[i + 1..] == d0[n + 1..];
          list := list[..i] + list[i + 1..];
          assert list[..i] == Healed(d0[..n + 1], tick);
        } else {
          assert list[..i + 1] == list[..i] + [d0[n]];
          i := i + 1;
        }
        n := n + 1;
      }
      assert d0[..n] == d0;
      assert list == list[..i];
      damaged := list;
    }

    /**
     * `getMapCoords`: a pixel position to a place on the map; the asserts
     * that the result is on the map become the requirements.
     */
    method GetMapCoords(x: int, y: int, layer: MapLayer) returns (place: Location)
      requires Valid() && layer != Liquid
      requires x + width * tileWidth >= 0 && 0 <= CDiv(y, tileHeight) < height
      ensures place == MapCoords(width, tileWidth, tileHeight, x, y, layer)
      ensures 0 <= place.x < width && 0 <= place.y < height
    {
      var px := x + width * tileWidth;
      var column := CDiv(px, tileWidth);
      column := WrapX(column);
      place := Location(column, CDiv(y, tileHeight), layer);
    }

    /**
     * `moveTile`: the destination is killed and takes the tile and its
     * sprite, and the place becomes EMPTY; a tile moved off the map
     * vanishes.
     */
    method MoveTile(place: Location, dx: int, dy: int) returns (drops: seq<Drop>)
      requires Valid() && 0 <= place.x < width && 0 <= place.y < height && IsDrawLayer(place.layer)
      requires dx != 0 || dy != 0
      requires MoveAllowed(GridOf(), place, dx, dy)
      modifies tiles
      ensures tiles[..] == MovedGrid(G(old(tiles[..])), place, dx, dy).cells
      ensures drops == MoveDrops(G(old(tiles[..])), tileWidth, tileHeight, place, dx, dy)
    {
      var newX := WrapX(place.x + dx);
      var newY := place.y + dy;
      if !(0 <= newX < width && 0 <= newY < height) {
        SetTileType(place.x, place.y, place.layer, EMPTY);
        return [];
      }
      drops := Kill(newX, newY, place.layer);
      CopyTile(place, newX, newY);
    }

    /** The end of `moveTile`: the sprite and the type go to (newX, newY), and the place becomes EMPTY. */
    method CopyTile(place: Location, newX: int, newY: int)
      requires Valid() && 0 <= place.x < width && 0 <= place.y < height && IsDrawLayer(place.layer)
      requires 0 <= newX < width && 0 <= newY < height
      modifies tiles
      ensures tiles[..] == CopiedGrid(G(old(tiles[..])), place, newX, newY).cells
    {
      ghost var g1 := GridOf();
      var t := GetTileType(place.x, place.y, place.layer);
      var sprite := GetSprite(place.x, place.y, place.layer);
      ghost var b := LayerSprite(g1.cells[Index(g1, place.x, place.y)], place.layer);
      ByteRoundTrip(place, b);
      SetSprite(newX, newY, place.layer, Location(sprite.0, sprite.1, place.layer));
      ghost var g2 := GridOf();
      assert g2 == SetSpriteByte(g1, newX, newY, place.layer, b);
      SetTileType(newX, newY, place.layer, t);
      ghost var g3 := GridOf();
      assert g3 == SetType(g2, newX, newY, place.layer, t);
      SetTileType(place.x, place.y, place.layer, EMPTY);
    }

    /** `displaceTile`: the tile and the one at the destination swap types and sprites. */
    method DisplaceTile(place: Location, dx: int, dy: int)
      requires Valid() && 0 <= place.y < height && IsDrawLayer(place.layer)
      requires dx != 0 || dy != 0
      modifies tiles
      ensures tiles[..] == DisplacedGrid(G(old(tiles[..])), place, dx, dy).cells
    {
      var newX := WrapX(place.x + dx);
      var newY := place.y + dy;
      if !(0 <= newX < width && 0 <= newY < height) {
        return;
      }
      SwapTiles(place, newX, newY);
    }

    /** The swap of `displaceTile`, once the destination (newX, newY) is known to be on the map. */
    method SwapTiles(place: Location, newX: int, newY: int)
      requires Valid() && 0 <= place.y < height && IsDrawLayer(place.layer)
      requires 0 <= newX < width && 0 <= newY < height
      modifies tiles
      ensures tiles[..] == SwappedGrid(G(old(tiles[..])), place, newX, newY).cells
    {
      ghost var g0 := GridOf();
      var destination := GetTileType(newX, newY, place.layer);
      var destSprite := GetSprite(newX, newY, place.layer);
      var ownSprite := GetSprite(place.x, place.y, place.layer);
      ghost var destByte := LayerSprite(g0.cells[Index(g0, newX, newY)], place.layer);
      ghost var ownByte := LayerSprite(g0.cells[Index(g0, place.x, place.y)], place.layer);
      ByteRoundTrip(place, destByte);
      ByteRoundTrip(place, ownByte);
      SetSprite(newX, newY, place.layer, Location(ownSprite.0, ownSprite.1, place.layer));
      ghost var g1 := GridOf();
      assert g1 == SetSpriteByte(g0, newX, newY, place.layer, ownByte);
      SetSprite(place.x, place.y, place.layer, Location(destSprite.0, destSprite.1, place.layer));
      ghost var g2 := GridOf();
      assert g2 == SetSpriteByte(g1, place.x, place.y, place.layer, destByte);
      var wx := WrapX(place.x);
      var own := GetTileType(wx, place.y, place.layer);
      assert own == TileAt(g2, place.x, place.y, place.layer);
      SetTileType(newX, newY, place.layer, own);
      ghost var g3 := GridOf();
      assert g3 == SetType(g2, newX, newY, place.layer, own);
      SetTileType(place.x, place.y, place.layer, destination);
    }

    /**
     * `saveLayer`: one pass over the cells counting equal neighbours; a
     * pair is written whenever the type changes, and once more at the end.
     */
    method SaveLayer(layer: MapLayer) returns (runs: seq<Span<TileType>>)
      requires Valid() && IsDrawLayer(layer)
      ensures runs == Compress(LayerOf(tiles[..], layer))
    {
      ghost var s := LayerOf(tiles[..], layer);
      var count := 0;
      var last := EMPTY;
      runs := [];
      var index := 0;
      while index < height * width
        invariant 0 <= index <= |s|
        invariant index == 0 ==> runs == [] && count == 0
        invariant index > 0 ==> Compress(s[..index]) == runs + [Span(count, last)]
      {
        var current := LayerType(tiles[index], layer);
        assert current == s[index];
        if index == 0 {
          assert s[..1] == [s[0]];
        } else {
          CompressExtend(s, index, runs, count, last);
        }
        if index != 0 && current != last {
          runs := runs + [Span(count, last)];
          count := 1;
        } else {
          count := count + 1;
        }
        last := current;
        index := index + 1;
      }
      assert s[..index] == s;
      runs := runs + [Span(count, last)];
    }

    /** The biome part of `save`: the same run-length pass over the biome vector. */
    method SaveBiomes() returns (runs: seq<Span<BiomeType>>)
      requires Valid()
      ensures runs == Compress(biomes)
    {
      var count := 0;
      var last := GRASSLAND;
      runs := [];
      var i := 0;
      BiomeCountOfPositive(width, height);
      while i < biomesWide * biomesHigh
        invariant 0 <= i <= |biomes|
        invariant i == 0 ==> runs == [] && count == 0
        invariant i > 0 ==> Compress(biomes[..i]) == runs + [Span(count, last)]
      {
        var current := biomes[i];
        if i == 0 {
          assert biomes[..1] == [biomes[0]];
        } else {
          CompressExtend(biomes, i, runs, count, last);
        }
        if i != 0 && current != last {
          runs := runs + [Span(count, last)];
          count := 1;
        } else {
          count := count + 1;
        }
        last := current;
        i := i + 1;
      }
      assert biomes[..i] == biomes;
      runs := runs + [Span(count, last)];
    }

    /** `save`: the numbers the save file holds. */
    method Save() returns (file: SaveFile)
      requires Valid()
      ensures file == SaveOf(GridOf(), spawnX, spawnY, seed, biomes)
    {
      var fore := SaveLayer(Foreground);
      var back := SaveLayer(Background);
      var biomeRuns := SaveBiomes();
      var sprites: seq<(int, int)> := [];
      var i := 0;
      while i < width * height
        invariant 0 <= i <= tiles.Length
        invariant sprites == SpritesOf(tiles[..i])
      {
        sprites := sprites + [(tiles[i].foregroundSprite, tiles[i].backgroundSprite)];
        i := i + 1;
      }
      assert tiles[..i] == tiles[..];
      file := SaveFile(width, height, spawnX, spawnY, seed, fore, back, biomeRuns, sprites);
    }

    /**
     * `loadLayer`: pairs are read until the layer is full, each pair
     * writing its type into that many cells.
     */
    method LoadLayer(layer: MapLayer, runs: seq<Span<TileType>>)
      requires Valid() && IsDrawLayer(layer)
      requires NonNegative(runs) && Total(runs) == width * height
      modifies tiles
      ensures forall i :: 0 <= i < tiles.Length ==> tiles[i] == WithLayerType(old(tiles[i]), layer, Expand(runs)[i])
    {
      ghost var values := Expand(runs);
      ghost var before := tiles[..];
      var index := 0;
      var k := 0;
      while index < height * width
        invariant 0 <= k <= |runs|
        invariant index == Total(runs[..k]) <= tiles.Length
        invariant forall i :: 0 <= i < tiles.Length ==>
          tiles[i] == if i < index then WithLayerType(before[i], layer, values[i]) else before[i]
        decreases |runs| - k
      {
        assert runs[..|runs|] == runs;
        var count := runs[k].count;
        var current := runs[k].value;
        ExpandRun(runs, k);
        var j := 0;
        while j < count
          invariant 0 <= j <= count
          invariant index == Total(runs[..k]) + j
          invariant forall i :: 0 <= i < tiles.Length ==>
            tiles[i] == if i < index then WithLayerType(before[i], layer, values[i]) else before[i]
        {
          tiles[index] := WithLayerType(tiles[index], layer, current);
          index := index + 1;
          j := j + 1;
        }
        k := k + 1;
      }
    }

    /** The biome part of the loading constructor. */
    method LoadBiomes(runs: seq<Span<BiomeType>>)
      requires NonNegative(runs) && Total(runs) == biomesWide * biomesHigh && |biomes| == biomesWide * biomesHigh
      modifies this`biomes
      ensures biomes == Expand(runs)
    {
      ghost var values := Expand(runs);
      var index := 0;
      var k := 0;
      while index < biomesWide * biomesHigh
        invariant 0 <= k <= |runs|
        invariant |biomes| == |values|
        invariant index == Total(runs[..k]) <= |biomes|
        invariant forall i :: 0 <= i < index ==> biomes[i] == values[i]
        decreases |runs| - k
      {
        assert runs[..|runs|] == runs;
        var count := runs[k].count;
        var current := runs[k].value;
        ExpandRun(runs, k);
        var j := 0;
        while j < count
          invariant 0 <= j <= count
          invariant |biomes| == |values|
          invariant index == Total(runs[..k]) + j
          invariant forall i :: 0 <= i < index ==> biomes[i] == values[i]
        {
          biomes := biomes[index := current];
          index := index + 1;
          j := j + 1;
        }
        k := k + 1;
      }
      assert biomes == values;
    }

    /**
     * The loading constructor `Map(filename, tileWidth, tileHeight)`, on the
     * numbers of the file: the layers, biomes and sprites are decoded, and
     * every foreground and background place whose tile can update joins the
     * update set.
     */
    constructor Load(file: SaveFile, tileWidth: int, tileHeight: int, props: TileProps, canUpdate: Location -> bool)
      requires Loadable(file) && tileWidth > 0 && tileHeight > 0
      ensures Valid() && fresh(tiles)
      ensures this.tileWidth == tileWidth && this.tileHeight == tileHeight && this.props == props
      ensures width == file.width && height == file.height
      ensures spawnX == file.spawnX && spawnY == file.spawnY && seed == file.seed
      ensures tiles[..] == LoadedCells(file)
      ensures biomes == Expand(file.biomes)
      ensures tick == 0 && damaged == []
      ensures forall l :: l in toUpdate <==>
        IsDrawLayer(l.layer) && 0 <= l.x < width && 0 <= l.y < height && canUpdate(l)
    {
      this.tileWidth := tileWidth;
      this.tileHeight := tileHeight;
      this.props := props;
      tick := 0;
      width := file.width;
      biomesWide := CDiv(file.width, BIOME_SIZE) + 1;
      height := file.height;
      biomesHigh := CDiv(file.height, BIOME_SIZE) + 1;
      BiomeCountOfPositive(file.width, file.height);
      tiles := new SpaceInfo[file.width * file.height](_ => NewSpaceInfo());
      biomes := Repeat(TUNDRA, BiomeCount(file.width) * BiomeCount(file.height));
      spawnX := file.spawnX;
      spawnY := file.spawnY;
      seed := file.seed;
      toUpdate := {};
      damaged := [];
      new;
      LoadCells(file);
      LoadBiomes(file.biomes);
      LoadUpdates(canUpdate);
    }

    /** The cell part of the loading constructor: both layers, then the sprites, over fresh cells. */
    method LoadCells(file: SaveFile)
      requires Valid() && Loadable(file) && width == file.width && height == file.height
      requires forall i :: 0 <= i < tiles.Length ==> tiles[i] == NewSpaceInfo()
      modifies tiles
      ensures tiles[..] == LoadedCells(file)
    {
      LoadLayer(Foreground, file.foreground);
      LoadLayer(Background, file.background);
      LoadSprites(file.sprites);
      assert forall k :: 0 <= k < tiles.Length ==> tiles[k] == LoadedCells(file)[k];
    }

    /** The sprite part of the loading constructor: each number is stored into a `uint8_t`. */
    method LoadSprites(sprites: seq<(int, int)>)
      requires |sprites| == tiles.Length
      modifies tiles
      ensures forall i :: 0 <= i < tiles.Length ==>
        tiles[i] == old(tiles[i]).(foregroundSprite := ToByte(sprites[i].0), backgroundSprite := ToByte(sprites[i].1))
    {
      ghost var before := tiles[..];
      var i := 0;
      while i < tiles.Length
        invariant 0 <= i <= tiles.Length
        invariant forall k :: 0 <= k < tiles.Length ==> tiles[k] == if k < i then
          before[k].(foregroundSprite := ToByte(sprites[k].0), backgroundSprite := ToByte(sprites[k].1)) else before[k]
      {
        tiles[i] := tiles[i].(foregroundSprite := ToByte(sprites[i].0), backgroundSprite := ToByte(sprites[i].1));
        i := i + 1;
      }
    }

    /** The constructor's last loops: every column, every row, foreground then background. */
    method LoadUpdates(canUpdate: Location -> bool)
      requires width >= 0 && height >= 0 && toUpdate == {}
      modifies this`toUpdate
      ensures forall l :: l in toUpdate <==>
        IsDrawLayer(l.layer) && 0 <= l.x < width && 0 <= l.y < height && canUpdate(l)
    {
      var i := 0;
      while i < width
        invariant 0 <= i <= width
        invariant forall l :: l in toUpdate <==>
          IsDrawLayer(l.layer) && 0 <= l.x < i && 0 <= l.y < height && canUpdate(l)
      {
        var j := 0;
        while j < height
          invariant 0 <= j <= height
          invariant forall l :: l in toUpdate <==>
            IsDrawLayer(l.layer) && 0 <= l.y < height && canUpdate(l) && (0 <= l.x < i || (l.x == i && l.y < j))
        {
          var fore := Location(i, j, Foreground);
          var back := Location(i, j, Background);
          AddToUpdate(fore, canUpdate(fore));
          AddToUpdate(back, canUpdate(back));
          j := j + 1;
        }
        i := i + 1;
      }
    }
  }

  /** A neighbour (i, j) of (x, y) that `isBesideTile` finds a tile at: on the map and not on a diagonal. */
  predicate Counted(g: Grid, x: int, y: int, i: int, j: int, layer: MapLayer)
    requires WellFormed(g) && IsDrawLayer(layer)
  {
    i != j && i != -1 * j && HasTile(g, x + i, y + j, layer)
  }

  /** `Beside` is the place itself or a neighbour (i, j), with i and j in -1..1, that is `Counted`. */
  lemma BesideByNeighbours(g: Grid, x: int, y: int, layer: MapLayer)
    requires WellFormed(g) && IsDrawLayer(layer)
    ensures Beside(g, x, y, layer) <==>
              Present(TypeAt(g, Wrap(x, g.width), y, layer)) ||
              exists i, j :: -1 <= i < 2 && -1 <= j < 2 && Counted(g, x, y, i, j, layer)
  {
    assert x + -1 == x - 1 && y + -1 == y - 1 && x + 0 == x && y + 0 == y;
    if exists i, j :: -1 <= i < 2 && -1 <= j < 2 && Counted(g, x, y, i, j, layer) {
      var i, j :| -1 <= i < 2 && -1 <= j < 2 && Counted(g, x, y, i, j, layer);
      assert (i, j) in {(-1, 0), (1, 0), (0, -1), (0, 1)};
    }
    if HasTile(g, x - 1, y, layer) {
      assert Counted(g, x, y, -1, 0, layer);
    }
    if HasTile(g, x + 1, y, layer) {
      assert Counted(g, x, y, 1, 0, layer);
    }
    if HasTile(g, x, y - 1, layer) {
      assert Counted(g, x, y, 0, -1, layer);
    }
    if HasTile(g, x, y + 1, layer) {
      assert Counted(g, x, y, 0, 1, layer);
    }
  }

  lemma BiomeCountOfPositive(width: int, height: int)
    requires width > 0 && height > 0
    ensures BiomeCount(width) * BiomeCount(height) > 0
  {
    MulOrder(1, BiomeCount(height), BiomeCount(width));
  }

  /**
   * The loop of `damage`: every entry for the place loses `amount` and is
   * stamped, and the index of the last one hit (or -1) is remembered.
   */
  method HitEntries(damaged: seq<TileHealth>, place: Location, amount: int, stamp: int)
    returns (hit: seq<TileHealth>, index: int)
    ensures hit == HitAll(damaged, place, amount, stamp)
    ensures index == LastEntry(damaged, place)
  {
    hit := damaged;
    index := -1;
    var i := 0;
    while i < |hit|
      invariant 0 <= i <= |hit| == |damaged|
      invariant forall k :: 0 <= k < |hit| ==>
        hit[k] == if k < i then HitAll(damaged, place, amount, stamp)[k] else damaged[k]
      invariant index == LastEntry(damaged[..i], place)
    {
      assert damaged[..i + 1][..i] == damaged[..i];
      if hit[i].place == place {
        hit := hit[i := hit[i].(health := hit[i].health - amount, lastUpdated := stamp)];
        index := i;
      }
      i := i + 1;
    }
    assert damaged[..i] == damaged;
  }
}
