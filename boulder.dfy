/**
 * Boulders (`src/world/Boulder.cc`): tiles that fall and slide. A boulder's
 * settings, which the game reads from its JSON file, are the fields of a
 * value; what it does to the map goes through the map's `moveTile`,
 * `displaceTile` and sprite byte. Each operation is specified by a `Step`
 * over the map's cells, and the lemmas say what those steps mean.
 */
module Boulders {
  import opened CInts
  import opened Tiles
  import opened MapHelpers
  import opened MapCells
  import opened TileMap

  /** The settings of one kind of boulder. */
  datatype Boulder = Boulder(
    moveTicks: int,
    fallTicks: int,
    tilesDestroyed: set<int>,
    tilesCrushed: set<int>,
    tilesDisplaced: set<int>,
    tilesSunk: set<int>,
    isMoving: bool,
    isFloating: bool,
    isSliding: bool,
    /** `getNumVariants()`: the sprite variants; those in the first half face left. */
    numVariants: nat)

  /**
   * `moveTile` kills the tile it lands on, and `kill` refuses water: a
   * boulder whose moves can crush or destroy must not list water there.
   */
  predicate KillsNoWater(b: Boulder)
  {
    WATER !in b.tilesCrushed && WATER !in b.tilesDestroyed
  }

  /** `vectorConvert`: the set of the listed tile numbers. */
  method VectorConvert(input: seq<int>) returns (output: set<int>)
    ensures forall t :: t in output <==> t in input
  {
    output := {};
    var i := 0;
    while i < |input|
      invariant 0 <= i <= |input|
      invariant forall t :: t in output <==> t in input[..i]
    {
      assert input[..i + 1] == input[..i] + [input[i]];
      output := output + {input[i]};
      i := i + 1;
    }
    assert input[..i] == input;
  }

  /** What one boulder operation does: its answer, the map's cells after it, and the items it drops. */
  datatype Step = Step(result: bool, grid: Grid, drops: seq<Drop>)

  /** The boulder sits on the map, in a layer that is drawn, and its settings keep `kill`'s rule. */
  predicate Placed(b: Boulder, g: Grid, place: Location)
  {
    WellFormed(g) && OnMap(g, place.x, place.y) && IsDrawLayer(place.layer) && KillsNoWater(b)
  }

  /**
   * `fall`: a crushable tile below is crushed by moving onto it, a
   * sinkable one swaps places with the boulder; otherwise nothing happens.
   */
  function FallStep(b: Boulder, g: Grid, tileWidth: int, tileHeight: int, place: Location): Step
    requires Placed(b, g, place)
  {
    var below := OffsetType(g, place, 0, -1);
    if below in b.tilesCrushed then Step(true, MovedGrid(g, place, 0, -1), MoveDrops(g, tileWidth, tileHeight, place, 0, -1))
    else if below in b.tilesSunk then Step(true, DisplacedGrid(g, place, 0, -1), [])
    else Step(false, g, [])
  }

  /** The direction a slide picks from the value `r` that `rand()` returned: -1 or 1. */
  function SlideDirection(r: nat): (d: int)
    ensures d == 1 || d == -1
  {
    (r % 2) * 2 - 1
  }

  /**
   * `move(direction)`: with no direction a sliding boulder tries a random
   * side and reports success whatever happens; with a direction, a
   * destroyable tile ahead is replaced by the boulder, a displaceable one
   * swaps places with it, and anything else stops it.
   */
  function MoveStep(b: Boulder, g: Grid, tileWidth: int, tileHeight: int, place: Location, direction: int, r: nat): Step
    requires Placed(b, g, place)
    decreases if direction == 0 then 1 else 0
  {
    if direction == 0 then
      if !b.isSliding then Step(false, g, [])
      else
        var tried := MoveStep(b, g, tileWidth, tileHeight, place, SlideDirection(r), r);
        Step(true, tried.grid, tried.drops)
    else
      var ahead := OffsetType(g, place, direction, 0);
      if ahead in b.tilesDestroyed then
        Step(true, MovedGrid(g, place, direction, 0), MoveDrops(g, tileWidth, tileHeight, place, direction, 0))
      else if ahead in b.tilesDisplaced then Step(true, DisplacedGrid(g, place, direction, 0), [])
      else Step(false, g, [])
  }

  /**
   * `canUpdate(place, direction)`: a boulder that does not float and has a
   * crushable or sinkable tile below can update; with no direction only a
   * sliding one can, when either side lets it; with a direction, when the
   * tile ahead is destroyable or displaceable.
   */
  function CanUpdateDir(b: Boulder, g: Grid, place: Location, direction: int): bool
    requires WellFormed(g) && IsDrawLayer(place.layer)
    decreases if direction == 0 then 1 else 0
  {
    var below := OffsetType(g, place, 0, -1);
    if !b.isFloating && (below in b.tilesCrushed || below in b.tilesSunk) then true
    else if direction == 0 then b.isSliding && (CanUpdateDir(b, g, place, 1) || CanUpdateDir(b, g, place, -1))
    else
      var ahead := OffsetType(g, place, direction, 0);
      ahead in b.tilesDestroyed || ahead in b.tilesDisplaced
  }

  /**
   * `getDirection`: 0 for a boulder that does not move, otherwise -1 for a
   * variant in the first half and 1 for one in the second.
   */
  function GetDirection(b: Boulder, g: Grid, place: Location): (d: int)
    requires WellFormed(g) && 0 <= place.y < g.height && IsDrawLayer(place.layer)
    ensures d == 0 <==> !b.isMoving
    ensures d == -1 || d == 0 || d == 1
  {
    if !b.isMoving then 0
    else if VariantAt(g, place.x, place.y, place.layer) < b.numVariants / 2 then -1
    else 1
  }

  /** `canUpdate(place)`: `canUpdate` in the direction the boulder faces. */
  function CanUpdate(b: Boulder, g: Grid, place: Location): bool
    requires WellFormed(g) && 0 <= place.y < g.height && IsDrawLayer(place.layer)
  {
    CanUpdateDir(b, g, place, GetDirection(b, g, place))
  }

  /**
   * The variant `setDirection` stores: the old variant reduced into the
   * first half, moved into the second half for direction 1, and kept in a
   * byte.
   */
  function DirectedVariant(b: Boulder, variant: Byte, direction: int): Byte
    requires b.numVariants >= 2 && (direction == 1 || direction == -1)
  {
    var half := b.numVariants / 2;
    ToByte(variant % half + ((direction + 1) / 2) * half)
  }

  /** The cells after `setDirection`: the boulder's sprite byte holds the directed variant. */
  function SetDirectionGrid(b: Boulder, g: Grid, place: Location, direction: int): (g': Grid)
    requires WellFormed(g) && 0 <= place.y < g.height && IsDrawLayer(place.layer)
    requires b.numVariants >= 2 && (direction == 1 || direction == -1)
    ensures WellFormed(g') && g'.width == g.width && g'.height == g.height
  {
    SetSpriteByte(g, place.x, place.y, place.layer,
      DirectedVariant(b, VariantAt(g, place.x, place.y, place.layer), direction))
  }

  /**
   * `update(tick)`: on a falling tick a boulder that does not float falls
   * if it can; failing that, on a moving tick it moves in the direction it
   * faces and answers whether it moved; on any other tick it answers true.
   */
  function UpdateStep(b: Boulder, g: Grid, tileWidth: int, tileHeight: int, place: Location, tick: int, r: nat): Step
    requires Placed(b, g, place)
  {
    var fall := FallStep(b, g, tileWidth, tileHeight, place);
    if b.fallTicks != 0 && tick % b.fallTicks == 0 && !b.isFloating && fall.result then fall
    else if b.moveTicks != 0 && tick % b.moveTicks == 0 then
      MoveStep(b, g, tileWidth, tileHeight, place, GetDirection(b, g, place), r)
    else Step(true, g, [])
  }

  // ---------------------------------------------------------------------
  // What the steps mean
  // ---------------------------------------------------------------------

  /**
   * `fall` succeeds exactly when the tile below is crushable or sinkable,
   * and otherwise leaves the map alone. Above the bottom row, a crushing
   * boulder ends up one row down with EMPTY where it was, and a sinking
   * one swaps with the tile below.
   */
  lemma FallStepMeaning(b: Boulder, g: Grid, tileWidth: int, tileHeight: int, place: Location)
    requires Placed(b, g, place)
    ensures var s := FallStep(b, g, tileWidth, tileHeight, place);
      var below := OffsetType(g, place, 0, -1);
      var own := TileAt(g, place.x, place.y, place.layer);
      (s.result <==> below in b.tilesCrushed || below in b.tilesSunk) &&
      (!s.result ==> s.grid == g && s.drops == []) &&
      (below in b.tilesCrushed && place.y > 0 ==>
        TileAt(s.grid, place.x, place.y - 1, place.layer) == own &&
        TileAt(s.grid, place.x, place.y, place.layer) == EMPTY) &&
      (below !in b.tilesCrushed && below in b.tilesSunk && place.y > 0 ==>
        TileAt(s.grid, place.x, place.y - 1, place.layer) == own &&
        TileAt(s.grid, place.x, place.y, place.layer) == below)
  {
    var below := OffsetType(g, place, 0, -1);
    if place.y > 0 {
      CellIndexInjective(g.width, g.height, place.x, place.y, place.x, place.y - 1);
      if below in b.tilesCrushed {
        MovedGridMeaning(g, place, 0, -1);
      } else if below in b.tilesSunk {
        DisplacedGridSwaps(g, place, 0, -1);
      }
    }
  }

  /**
   * With a direction, `move` succeeds exactly when the tile ahead is
   * destroyable or displaceable; with none, exactly when the boulder
   * slides. Whenever it fails the map is left alone.
   */
  lemma MoveStepMeaning(b: Boulder, g: Grid, tileWidth: int, tileHeight: int, place: Location, direction: int, r: nat)
    requires Placed(b, g, place)
    ensures var s := MoveStep(b, g, tileWidth, tileHeight, place, direction, r);
      var ahead := OffsetType(g, place, direction, 0);
      (direction != 0 ==> (s.result <==> ahead in b.tilesDestroyed || ahead in b.tilesDisplaced)) &&
      (direction == 0 ==> s.result == b.isSliding) &&
      (!s.result ==> s.grid == g && s.drops == [])
  {
  }

  /**
   * `canUpdate(place, direction)` answers whether falling or moving that
   * way would succeed: for a direction, if and only if a non-floating
   * fall or the move succeeds; for none, if and only if a non-floating
   * fall succeeds or the boulder slides and a move to either side would.
   */
  lemma CanUpdateDirMeaning(b: Boulder, g: Grid, tileWidth: int, tileHeight: int, place: Location, direction: int, r: nat)
    requires Placed(b, g, place)
    ensures var falls := !b.isFloating && FallStep(b, g, tileWidth, tileHeight, place).result;
      var eitherSide := MoveStep(b, g, tileWidth, tileHeight, place, 1, r).result ||
        MoveStep(b, g, tileWidth, tileHeight, place, -1, r).result;
      (direction != 0 ==>
        (CanUpdateDir(b, g, place, direction) <==> falls || MoveStep(b, g, tileWidth, tileHeight, place, direction, r).result)) &&
      (direction == 0 ==> (CanUpdateDir(b, g, place, 0) <==> falls || (b.isSliding && eitherSide)))
  {
    FallStepMeaning(b, g, tileWidth, tileHeight, place);
    MoveStepMeaning(b, g, tileWidth, tileHeight, place, direction, r);
    MoveStepMeaning(b, g, tileWidth, tileHeight, place, 1, r);
    MoveStepMeaning(b, g, tileWidth, tileHeight, place, -1, r);
  }

  /**
   * Why the map drops a boulder that cannot update from its update set: on
   * every tick and whatever `rand()` says, its update leaves the map as it
   * was.
   */
  lemma CannotUpdateKeepsMap(b: Boulder, g: Grid, tileWidth: int, tileHeight: int, place: Location, tick: int, r: nat)
    requires Placed(b, g, place) && !CanUpdate(b, g, place)
    ensures UpdateStep(b, g, tileWidth, tileHeight, place, tick, r).grid == g
  {
    var d := GetDirection(b, g, place);
    CanUpdateDirMeaning(b, g, tileWidth, tileHeight, place, d, r);
    FallStepMeaning(b, g, tileWidth, tileHeight, place);
    MoveStepMeaning(b, g, tileWidth, tileHeight, place, d, r);
    if d == 0 && b.isSliding {
      CanUpdateDirMeaning(b, g, tileWidth, tileHeight, place, SlideDirection(r), r);
      MoveStepMeaning(b, g, tileWidth, tileHeight, place, SlideDirection(r), r);
    }
  }

  /**
   * `update` answers false only when the boulder did not move and should
   * leave the update set: a moving tick on which the move failed, with the
   * map left as it was.
   */
  lemma UpdateFalseMeansStuck(b: Boulder, g: Grid, tileWidth: int, tileHeight: int, place: Location, tick: int, r: nat)
    requires Placed(b, g, place) && !UpdateStep(b, g, tileWidth, tileHeight, place, tick, r).result
    ensures b.moveTicks != 0 && tick % b.moveTicks == 0
    ensures !MoveStep(b, g, tileWidth, tileHeight, place, GetDirection(b, g, place), r).result
    ensures UpdateStep(b, g, tileWidth, tileHeight, place, tick, r).grid == g
  {
    FallStepMeaning(b, g, tileWidth, tileHeight, place);
    MoveStepMeaning(b, g, tileWidth, tileHeight, place, GetDirection(b, g, place), r);
  }

  /**
   * Falling comes first: on a falling tick, a boulder that does not float
   * and has a crushable or sinkable tile below falls, whatever its moving
   * settings.
   */
  lemma UpdateFallsFirst(b: Boulder, g: Grid, tileWidth: int, tileHeight: int, place: Location, tick: int, r: nat)
    requires Placed(b, g, place)
    requires b.fallTicks != 0 && tick % b.fallTicks == 0 && !b.isFloating
    requires OffsetType(g, place, 0, -1) in b.tilesCrushed + b.tilesSunk
    ensures UpdateStep(b, g, tileWidth, tileHeight, place, tick, r) == FallStep(b, g, tileWidth, tileHeight, place)
    ensures UpdateStep(b, g, tileWidth, tileHeight, place, tick, r).result
  {
    FallStepMeaning(b, g, tileWidth, tileHeight, place);
  }

  /**
   * `setDirection(d)` then `getDirection` gives d back for a moving
   * boulder whose variants fit in the byte; no tile type changes.
   */
  lemma SetDirectionThenGet(b: Boulder, g: Grid, place: Location, direction: int, x: int, y: int, layer: MapLayer)
    requires WellFormed(g) && 0 <= place.y < g.height && IsDrawLayer(place.layer)
    requires b.isMoving && 2 <= b.numVariants <= 256 && (direction == 1 || direction == -1)
    requires 0 <= y < g.height && IsDrawLayer(layer)
    ensures GetDirection(b, SetDirectionGrid(b, g, place, direction), place) == direction
    ensures TileAt(SetDirectionGrid(b, g, place, direction), x, y, layer) == TileAt(g, x, y, layer)
  {
    var half := b.numVariants / 2;
    var v := VariantAt(g, place.x, place.y, place.layer);
    assert 0 <= v % half < half <= 128;
    var stored := DirectedVariant(b, v, direction);
    if direction == 1 {
      assert stored == v % half + half;
    } else {
      assert stored == v % half;
    }
    var g' := SetDirectionGrid(b, g, place, direction);
    assert VariantAt(g', place.x, place.y, place.layer) == stored;
    CellIndexInjective(g.width, g.height, place.x, place.y, x, y);
  }

  // ---------------------------------------------------------------------
  // The operations on the map
  // ---------------------------------------------------------------------

  /** `fall`, on the map. */
  method Fall(b: Boulder, m: Map, place: Location) returns (fell: bool, drops: seq<Drop>)
    requires m.Valid() && Placed(b, m.GridOf(), place)
    modifies m.tiles
    ensures var s := FallStep(b, m.G(old(m.tiles[..])), m.tileWidth, m.tileHeight, place);
      fell == s.result && m.tiles[..] == s.grid.cells && drops == s.drops
  {
    var blocking := m.GetTileTypeNear(place, 0, -1);
    if blocking in b.tilesCrushed {
      drops := m.MoveTile(place, 0, -1);
      return true, drops;
    } else if blocking in b.tilesSunk {
      m.DisplaceTile(place, 0, -1);
      return true, [];
    }
    return false, [];
  }

  /** `move(direction)`, on the map; `r` is the value `rand()` returns for a slide. */
  method Move(b: Boulder, m: Map, place: Location, direction: int, r: nat) returns (moved: bool, drops: seq<Drop>)
    requires m.Valid() && Placed(b, m.GridOf(), place)
    modifies m.tiles
    ensures var s := MoveStep(b, m.G(old(m.tiles[..])), m.tileWidth, m.tileHeight, place, direction, r);
      moved == s.result && m.tiles[..] == s.grid.cells && drops == s.drops
    decreases if direction == 0 then 1 else 0
  {
    if direction == 0 {
      if !b.isSliding {
        return false, [];
      }
      var newDirection := (r % 2) * 2 - 1;
      var _, slid := Move(b, m, place, newDirection, r);
      return true, slid;
    }
    var blocking := m.GetTileTypeNear(place, direction, 0);
    if blocking in b.tilesDestroyed {
      drops := m.MoveTile(place, direction, 0);
    } else if blocking in b.tilesDisplaced {
      m.DisplaceTile(place, direction, 0);
      drops := [];
    } else {
      return false, [];
    }
    moved := true;
  }

  /** `setDirection(d)`, on the map. */
  method SetDirection(b: Boulder, m: Map, place: Location, direction: int)
    requires m.Valid() && 0 <= place.y < m.height && IsDrawLayer(place.layer)
    requires b.numVariants >= 2 && (direction == 1 || direction == -1)
    modifies m.tiles
    ensures m.tiles[..] == SetDirectionGrid(b, m.G(old(m.tiles[..])), place, direction).cells
  {
    var toSecondHalf := (direction + 1) / 2;
    var variant := m.GetVariant(place.x, place.y, place.layer);
    variant := variant % (b.numVariants / 2);
    variant := ToByte(variant + toSecondHalf * (b.numVariants / 2));
    m.SetVariant(place.x, place.y, place.layer, variant);
  }

  /** `update(tick)`, on the map; `r` is the value `rand()` returns if the boulder slides. */
  method Update(b: Boulder, m: Map, place: Location, tick: int, r: nat) returns (keep: bool, drops: seq<Drop>)
    requires m.Valid() && Placed(b, m.GridOf(), place)
    modifies m.tiles
    ensures var s := UpdateStep(b, m.G(old(m.tiles[..])), m.tileWidth, m.tileHeight, place, tick, r);
      keep == s.result && m.tiles[..] == s.grid.cells && drops == s.drops
  {
    if b.fallTicks != 0 && tick % b.fallTicks == 0 && !b.isFloating {
      var fell, fallen := Fall(b, m, place);
      if fell {
        return true, fallen;
      }
    }
    var direction := GetDirection(b, m.GridOf(), place);
    if b.moveTicks != 0 && tick % b.moveTicks == 0 {
      keep, drops := Move(b, m, place, direction, r);
      return;
    }
    return true, [];
  }
}
