/**
 * `Mapgen`: the world generator's deterministic steps on the map it
 * builds. Each method's loops write the map through `setTileType`, and its
 * contract ties the new cells to the pass of `GenPasses` they compute.
 */
module Mapgen {
  import opened Tiles
  import opened MapHelpers
  import opened MapCells
  import opened GenPasses
  import opened TileMap

  /** `vector::resize(n, v)`: the first `n` entries, padded with copies of `v`. */
  function Resized<T>(s: seq<T>, n: nat, v: T): (r: seq<T>)
    ensures |r| == n
    ensures forall k :: 0 <= k < n ==> r[k] == if k < |s| then s[k] else v
  {
    if n <= |s| then s[..n] else s + seq(n - |s|, _ => v)
  }

  class Generator {
    /** The map being generated. */
    const tileMap: Map
    /** Which biome each (temperature, humidity) percentile pair stands for, by enum value. */
    var biomeData: seq<seq<int>>
    /** The height of the land surface in each column. */
    var surfaces: seq<int>
    var baseHeight: int
    var seaLevel: int

    constructor (tileMap: Map, biomeData: seq<seq<int>>)
      ensures this.tileMap == tileMap && this.biomeData == biomeData && surfaces == []
      ensures baseHeight == 0 && seaLevel == 0
    {
      this.tileMap := tileMap;
      this.biomeData := biomeData;
      surfaces := [];
      baseHeight := 0;
      seaLevel := 0;
    }

    /**
     * `setSize(x, y)`: the dimensions and biome counts, `x * y` new cells
     * on a map that had none, the biome vector resized to the biome grid
     * with value-initialised (TUNDRA) entries, and `x` zero surfaces.
     */
    method SetSize(x: int, y: int)
      requires tileMap.tiles.Length == 0 && x >= 0 && y >= 0
      modifies tileMap, this`surfaces
      ensures tileMap.width == x && tileMap.height == y
      ensures tileMap.biomesWide == BiomeCount(x) && tileMap.biomesHigh == BiomeCount(y)
      ensures fresh(tileMap.tiles) && tileMap.tiles[..] == seq(x * y, _ => NewSpaceInfo())
      ensures tileMap.biomes == Resized(old(tileMap.biomes), BiomeCount(x) * BiomeCount(y), TUNDRA)
      ensures surfaces == Resized(old(surfaces), x, 0)
      ensures x > 0 && y > 0 && tileMap.tileWidth > 0 && tileMap.tileHeight > 0 ==> tileMap.Valid()
      ensures tileMap.seed == old(tileMap.seed) && tileMap.tick == old(tileMap.tick) && tileMap.toUpdate == old(tileMap.toUpdate)
      ensures tileMap.damaged == old(tileMap.damaged) && tileMap.spawnX == old(tileMap.spawnX) && tileMap.spawnY == old(tileMap.spawnY)
    {
      tileMap.SetHeight(y);
      tileMap.SetWidth(x);
      tileMap.biomes := Resized(tileMap.biomes, tileMap.biomesWide * tileMap.biomesHigh, TUNDRA);
      tileMap.tiles := new SpaceInfo[tileMap.width * tileMap.height](_ => NewSpaceInfo());
      surfaces := Resized(surfaces, x, 0);
    }

    /**
     * `getBaseBiome`: the entry of `biomeData` at the numbers of leading
     * temperature and humidity percentiles the values are above.
     */
    method GetBaseBiome(temperature: real, humidity: real, tempPercentiles: seq<real>,
                        humidityPercentiles: seq<real>) returns (biome: int)
      requires |tempPercentiles| == |biomeData| - 1 && |humidityPercentiles| == |biomeData| - 1
      requires forall r :: 0 <= r < |biomeData| ==> |biomeData[r]| >= |biomeData|
      ensures biome == biomeData[LeadingBelow(temperature, tempPercentiles)][LeadingBelow(humidity, humidityPercentiles)]
    {
      var h := 0;
      var t := 0;
      while t < |tempPercentiles| && temperature > tempPercentiles[t]
        invariant 0 <= t <= |tempPercentiles|
        invariant forall k :: 0 <= k < t ==> tempPercentiles[k] < temperature
      {
        t := t + 1;
      }
      while h < |humidityPercentiles| && humidity > humidityPercentiles[h]
        invariant 0 <= h <= |humidityPercentiles|
        invariant forall k :: 0 <= k < h ==> humidityPercentiles[k] < humidity
      {
        h := h + 1;
      }
      LeadingBelowUnique(temperature, tempPercentiles, t);
      LeadingBelowUnique(humidity, humidityPercentiles, h);
      biome := biomeData[t][h];
    }

    /** `moveTileFast`: both columns wrapped, the type copied, the source emptied. */
    method MoveTileFast(x1: int, y1: int, x2: int, y2: int, layer: MapLayer)
      requires tileMap.Valid() && 0 <= y1 < tileMap.height && 0 <= y2 < tileMap.height && IsDrawLayer(layer)
      modifies tileMap.tiles
      ensures tileMap.tiles[..] == FastMoved(tileMap.G(old(tileMap.tiles[..])), x1, y1, x2, y2, layer).cells
    {
      ghost var g := tileMap.GridOf();
      var wx1 := tileMap.WrapX(x1);
      var wx2 := tileMap.WrapX(x2);
      var t := tileMap.GetTileType(wx1, y1, layer);
      assert Index(g, wx2, y2) == Index(g, x2, y2) && Index(g, wx1, y1) == Index(g, x1, y1);
      tileMap.SetTileType(wx2, y2, layer, t);
      tileMap.SetTileType(wx1, y1, layer, EMPTY);
    }

    /**
     * `findFall`: scans from x in `direction` for a column where the cell
     * below row y is EMPTY; answers `wrapX(x - direction)` when there is none.
     */
    method FindFall(direction: int, x: int, y: int, layer: MapLayer) returns (current: int)
      requires tileMap.Valid() && (direction == 1 || direction == -1) && y > 0 && IsDrawLayer(layer)
      ensures current == FallFrom(tileMap.GridOf(), direction, x, Wrap(x - direction, tileMap.width), y, layer, x)
    {
      ghost var g := tileMap.GridOf();
      var stop := tileMap.WrapX(x - direction);
      ghost var result := FallFrom(g, direction, x, stop, y, layer, x);
      current := x;
      var found := false;
      while current != stop && !found
        invariant tileMap.GridOf() == g && (current == x || 0 <= current < g.width)
        invariant result == FallPending(g, direction, x, stop, y, layer, current, found)
        decreases !found, FallMeasure(g.width, direction, stop, current)
      {
        current, found := ScanColumn(direction, x, stop, y, layer, current);
      }
    }

    /**
     * One round of `findFall`'s loop at the column `current`: found when the
     * cell below is EMPTY, the stop column when another column is occupied
     * at row y, otherwise the next column.
     */
    method ScanColumn(direction: int, x: int, stop: int, y: int, layer: MapLayer, current: int) returns (next: int, found: bool)
      requires tileMap.Valid() && (direction == 1 || direction == -1) && y > 0 && IsDrawLayer(layer)
      requires 0 <= stop < tileMap.width && current != stop && (current == x || 0 <= current < tileMap.width)
      ensures (next == x || 0 <= next < tileMap.width) &&
        FallPending(tileMap.GridOf(), direction, x, stop, y, layer, next, found) == FallFrom(tileMap.GridOf(), direction, x, stop, y, layer, current)
      ensures !found && next != stop ==> FallMeasure(tileMap.width, direction, stop, next) < FallMeasure(tileMap.width, direction, stop, current)
    {
      ghost var g := tileMap.GridOf();
      if tileMap.GetTileType(current, y - 1, layer) == EMPTY {
        return current, true;
      }
      var inTheWay := tileMap.GetTileType(current, y, layer);
      if inTheWay != EMPTY && current != x {
        return stop, false;
      }
      FallFromStep(g, direction, x, stop, y, layer, current);
      next := StepColumn(direction, current);
      found := false;
    }

    /** `findFall`'s step to the next column: `current + direction`, wrapped round the map. */
    method StepColumn(direction: int, current: int) returns (next: int)
      requires tileMap.Valid() && (direction == 1 || direction == -1) && 0 <= current < tileMap.width
      ensures next == NextColumn(tileMap.width, direction, current)
    {
      next := current + direction;
      next := tileMap.WrapX(next);
    }

    /** `fillWater(depth)`: every column, rows `height - depth` to the top, set to WATER. */
    method FillWater(fillDepth: int)
      requires tileMap.Valid() && fillDepth <= tileMap.height
      modifies tileMap.tiles
      ensures tileMap.tiles[..] == Filled(tileMap.G(old(tileMap.tiles[..])), fillDepth, tileMap.width).cells
    {
      ghost var g := tileMap.GridOf();
      var i := 0;
      while i < tileMap.width
        invariant 0 <= i <= tileMap.width
        invariant tileMap.tiles[..] == Filled(g, fillDepth, i).cells
      {
        var j := tileMap.height - fillDepth;
        while j < tileMap.height
          invariant j == tileMap.height - fillDepth || tileMap.height - fillDepth <= j <= tileMap.height
          invariant j <= tileMap.height ==>
            tileMap.tiles[..] == FilledColumn(Filled(g, fillDepth, i), i, tileMap.height - fillDepth, j).cells
          invariant j > tileMap.height ==> tileMap.tiles[..] == Filled(g, fillDepth, i).cells
        {
          tileMap.SetTileType(i, j, Foreground, WATER);
          j := j + 1;
        }
        i := i + 1;
      }
    }

    /** `removeWater(depth)`: in each column, from the top, up to `depth` WATER tiles above the first solid one emptied. */
    method RemoveWater(removeDepth: int)
      requires tileMap.Valid()
      modifies tileMap.tiles
      ensures tileMap.tiles[..] == Removed(tileMap.G(old(tileMap.tiles[..])), removeDepth, tileMap.width).cells
    {
      ghost var g := tileMap.GridOf();
      var i := 0;
      while i < tileMap.width
        invariant 0 <= i <= tileMap.width
        invariant tileMap.tiles[..] == Removed(g, removeDepth, i).cells
      {
        RemoveFromColumn(i, removeDepth);
        i := i + 1;
      }
    }

    /** The body of `removeWater`'s loop for column i: the `toRemove` countdown from the top row. */
    method RemoveFromColumn(i: int, removeDepth: int)
      requires tileMap.Valid() && 0 <= i < tileMap.width
      modifies tileMap.tiles
      ensures tileMap.tiles[..] == RemoveColumn(tileMap.G(old(tileMap.tiles[..])), i, tileMap.height - 1, removeDepth).cells
    {
      ghost var gi := tileMap.GridOf();
      var toRemove := removeDepth;
      var j := tileMap.height - 1;
      while toRemove > 0 && j >= 0
        invariant -1 <= j < tileMap.height
        invariant RemoveColumn(gi, i, tileMap.height - 1, removeDepth) == RemoveColumn(tileMap.GridOf(), i, j, toRemove)
        decreases j + 1
      {
        var tile := tileMap.GetTileType(i, j, Foreground);
        if tile == WATER {
          tileMap.SetTileType(i, j, Foreground, EMPTY);
          toRemove := toRemove - 1;
        } else if tile != EMPTY {
          break;
        }
        j := j - 1;
      }
    }

    /**
     * The ocean loop of `generateEarth`: each column from `baseHeight + 30`
     * down to the first non-EMPTY tile, with the EMPTY cells below
     * `seaLevel` turned to WATER.
     */
    method FillOcean()
      requires tileMap.Valid() && seaLevel <= tileMap.height
      modifies tileMap.tiles
      ensures tileMap.tiles[..] == Ocean(tileMap.G(old(tileMap.tiles[..])), baseHeight + 30, seaLevel, tileMap.width).cells
    {
      ghost var g := tileMap.GridOf();
      var i := 0;
      while i < tileMap.width
        invariant 0 <= i <= tileMap.width
        invariant tileMap.tiles[..] == Ocean(g, baseHeight + 30, seaLevel, i).cells
      {
        FillOceanColumn(i);
        i := i + 1;
      }
    }

    /** The body of the ocean loop for column i. */
    method FillOceanColumn(i: int)
      requires tileMap.Valid() && seaLevel <= tileMap.height && 0 <= i < tileMap.width
      modifies tileMap.tiles
      ensures tileMap.tiles[..] == OceanColumn(tileMap.G(old(tileMap.tiles[..])), i, baseHeight + 30, seaLevel).cells
    {
      ghost var gi := tileMap.GridOf();
      var j := baseHeight + 30;
      while j >= 0
        invariant OceanColumn(gi, i, baseHeight + 30, seaLevel) == OceanColumn(tileMap.GridOf(), i, j, seaLevel)
        decreases j + 1
      {
        if tileMap.GetTileType(i, j, Foreground) != EMPTY {
          break;
        }
        if j < seaLevel {
          tileMap.SetTileType(i, j, Foreground, WATER);
        }
        j := j - 1;
      }
    }
  }

  /** The loop's stopping point is the value `LeadingBelow` gives. */
  lemma LeadingBelowUnique(v: real, s: seq<real>, t: int)
    requires 0 <= t <= |s| && forall k :: 0 <= k < t ==> s[k] < v
    requires t == |s| || !(v > s[t])
    ensures LeadingBelow(v, s) == t
  {
  }

  /**
   * `getPercentile`'s inner loop: the sample goes before the first entry
   * at least as large, or at the end.
   */
  method InsertSample(results: seq<real>, value: real) returns (r: seq<real>)
    ensures r == Insert(results, value)
  {
    r := results;
    var j := 0;
    while j < |results|
      invariant 0 <= j <= |results| && r == results
      invariant forall k :: 0 <= k < j ==> value > results[k]
    {
      if value <= results[j] {
        r := results[..j] + [value] + results[j..];
        break;
      }
      j := j + 1;
    }
    if j == |results| {
      r := results + [value];
    }
    InsertSkips(results, value, j);
  }

  /**
   * `getPercentile`: the samples (drawn from the noise module) are
   * inserted one by one into a sorted table, and the entry at
   * `(int)(percentile * samples)` is the answer.
   */
  method GetPercentile(percentile: real, draws: seq<real>) returns (value: real)
    requires 0 <= PercentileIndex(percentile, |draws|) < |draws|
    ensures value == InsertAll(draws)[PercentileIndex(percentile, |draws|)]
  {
    var results: seq<real> := [];
    var i := 0;
    while i < |draws|
      invariant 0 <= i <= |draws| && results == InsertAll(draws[..i])
    {
      results := InsertSample(results, draws[i]);
      assert draws[..i + 1][..i] == draws[..i];
      i := i + 1;
    }
    assert draws[..|draws|] == draws;
    var index := Trunc(percentile * |draws| as real);
    value := results[index];
  }
}
