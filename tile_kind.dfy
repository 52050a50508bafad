/**
 * What a tile kind does on the map (`src/world/Tile.cc`): its JSON file name,
 * whether it needs updates, which spritesheet place it shows, and its
 * animation. A tile kind is its `TileType` looked up in the map's
 * `TileProps`.
 */
module TileKind {
  import opened CInts
  import opened Tiles
  import opened MapHelpers
  import opened MapCells
  import opened TileMap

  /** Ticks between two frames of an animated tile (`TILE_ANIMATION_DELAY`). */
  const ANIMATION_DELAY: int := 4

  /** `getFilename`: the tile's JSON file, under `tiles/` beside the executable. */
  function GetFilename(pathToExecutable: string, props: TileProps, t: TileType): string
  {
    pathToExecutable + "tiles/" + props.name(t) + ".json"
  }

  /** The tile name a file name made by `getFilename` carries. */
  function NameInFilename(pathToExecutable: string, filename: string): string
    requires |pathToExecutable| + 11 <= |filename|
  {
    filename[|pathToExecutable| + 6 .. |filename| - 5]
  }

  /**
   * The tile name can be read back from the file name, so two kinds with
   * different names never share a JSON file.
   */
  lemma FilenameHoldsName(pathToExecutable: string, props: TileProps, t: TileType, t': TileType)
    ensures |pathToExecutable| + 11 <= |GetFilename(pathToExecutable, props, t)|
    ensures NameInFilename(pathToExecutable, GetFilename(pathToExecutable, props, t)) == props.name(t)
    ensures GetFilename(pathToExecutable, props, t) == GetFilename(pathToExecutable, props, t') ==> props.name(t) == props.name(t')
  {
    var f := GetFilename(pathToExecutable, props, t);
    var start := |pathToExecutable| + 6;
    assert f[start .. |f| - 5] == props.name(t);
    var f' := GetFilename(pathToExecutable, props, t');
    if f == f' {
      assert f'[start .. |f'| - 5] == props.name(t');
    }
  }

  /** `canUpdate`: a tile kind needs updates exactly when it is animated. */
  predicate TileCanUpdate(props: TileProps, t: TileType)
  {
    props.isAnimated(t)
  }

  /** `updateSprite`: the spritesheet column stays, the row becomes the place's border code. */
  function UpdateSprite(g: Grid, props: TileProps, place: Location): (int, int)
    requires WellFormed(g) && 0 <= place.y < g.height && IsDrawLayer(place.layer)
  {
    (SpriteAt(g, place.x, place.y, place.layer).0, Bordering(g, props, place))
  }

  /**
   * Storing what `updateSprite` answers keeps the sprite's column and
   * shows the border code as its row; the other places keep their sprites.
   */
  lemma UpdateSpriteKeepsColumn(g: Grid, props: TileProps, place: Location, x: int, y: int, layer: MapLayer)
    requires WellFormed(g) && 0 <= place.y < g.height && IsDrawLayer(place.layer)
    requires 0 <= y < g.height && IsDrawLayer(layer)
    ensures var s := UpdateSprite(g, props, place);
      var g' := SetSpriteByte(g, place.x, place.y, place.layer, ToSpritePlaceAt(Location(s.0, s.1, place.layer)));
      SpriteAt(g', place.x, place.y, place.layer) == (SpriteAt(g, place.x, place.y, place.layer).0, Bordering(g, props, place)) &&
      (y != place.y || Wrap(x, g.width) != Wrap(place.x, g.width) || layer != place.layer ==>
        SpriteAt(g', x, y, layer) == SpriteAt(g, x, y, layer))
  {
    var s := UpdateSprite(g, props, place);
    SetSpriteThenGet(g, place.x, place.y, place.layer, Location(s.0, s.1, place.layer), place.x, place.y, place.layer);
    SetSpriteThenGet(g, place.x, place.y, place.layer, Location(s.0, s.1, place.layer), x, y, layer);
  }

  /**
   * `getSpritePlace`: (0, 0) for a kind without a texture; otherwise the
   * row is the border code and the column is drawn at random (`r` is the
   * value `rand()` returns) among the kind's sprites, shifted into the
   * right half of the sheet in the background.
   */
  function GetSpritePlace(g: Grid, props: TileProps, t: TileType, place: Location, r: nat): (int, int)
    requires WellFormed(g) && 0 <= place.y < g.height && IsDrawLayer(place.layer)
    requires props.hasTexture(t) ==> NumSprites(props, t) > 0
    requires props.hasTexture(t) && place.layer == Background ==> props.canBackground(t)
  {
    if !props.hasTexture(t) then (0, 0)
    else
      var column := r % NumSprites(props, t);
      (if place.layer == Background then column + props.cols(t) / 2 else column, Bordering(g, props, place))
  }

  /**
   * The chosen sprite lies on the sheet: a foreground column among the
   * first `numSprites`, a background one among the `numSprites` after
   * `cols / 2`, and either way below `cols`.
   */
  lemma SpritePlaceOnSheet(g: Grid, props: TileProps, t: TileType, place: Location, r: nat)
    requires WellFormed(g) && 0 <= place.y < g.height && IsDrawLayer(place.layer)
    requires props.hasTexture(t) ==> NumSprites(props, t) > 0
    requires props.hasTexture(t) && place.layer == Background ==> props.canBackground(t)
    ensures var p := GetSpritePlace(g, props, t, place, r);
      var n := NumSprites(props, t);
      (!props.hasTexture(t) ==> p == (0, 0)) &&
      (props.hasTexture(t) ==>
        0 <= p.0 < props.cols(t) && p.1 == Bordering(g, props, place) &&
        (place.layer == Foreground ==> p.0 < n) &&
        (place.layer == Background ==> props.cols(t) / 2 <= p.0 < props.cols(t) / 2 + n))
  {
  }

  /**
   * The cells after `update(tick)`: an animated kind, on every fourth
   * tick, moves its sprite one column on, round its `numSprites` columns;
   * otherwise nothing changes.
   */
  function TileUpdateGrid(g: Grid, props: TileProps, t: TileType, place: Location, tick: int): (g': Grid)
    requires WellFormed(g) && 0 <= place.y < g.height && IsDrawLayer(place.layer)
    requires props.isAnimated(t) ==> NumSprites(props, t) > 0
    ensures WellFormed(g') && g'.width == g.width && g'.height == g.height
  {
    if props.isAnimated(t) && tick % ANIMATION_DELAY == 0 then
      var sprite := SpriteAt(g, place.x, place.y, place.layer);
      SetSpriteByte(g, place.x, place.y, place.layer, ToSpritePlace((sprite.0 + 1) % NumSprites(props, t), sprite.1))
    else g
  }

  /**
   * The animation cycles: with at most 16 sprites (all a byte can hold),
   * an animated tile's column goes to the next one modulo `numSprites` on
   * every fourth tick and its row stays; a kind that cannot update never
   * changes the map.
   */
  lemma AnimationCycles(g: Grid, props: TileProps, t: TileType, place: Location, tick: int)
    requires WellFormed(g) && 0 <= place.y < g.height && IsDrawLayer(place.layer)
    requires props.isAnimated(t) ==> 0 < NumSprites(props, t) <= 16
    ensures var before := SpriteAt(g, place.x, place.y, place.layer);
      var g' := TileUpdateGrid(g, props, t, place, tick);
      (props.isAnimated(t) && tick % ANIMATION_DELAY == 0 ==>
        SpriteAt(g', place.x, place.y, place.layer) == ((before.0 + 1) % NumSprites(props, t), before.1)) &&
      (!TileCanUpdate(props, t) || tick % ANIMATION_DELAY != 0 ==> g' == g)
  {
    if props.isAnimated(t) && tick % ANIMATION_DELAY == 0 {
      var s := SpriteAt(g, place.x, place.y, place.layer);
      var next := Location((s.0 + 1) % NumSprites(props, t), s.1, place.layer);
      SetSpriteThenGet(g, place.x, place.y, place.layer, next, place.x, place.y, place.layer);
    }
  }

  /** `update(tick)`, on the map: answers whether the kind is animated. */
  method Update(m: Map, t: TileType, place: Location, tick: int) returns (updated: bool)
    requires m.Valid() && 0 <= place.y < m.height && IsDrawLayer(place.layer)
    requires m.props.isAnimated(t) ==> NumSprites(m.props, t) > 0
    modifies m.tiles
    ensures updated == TileCanUpdate(m.props, t)
    ensures m.tiles[..] == TileUpdateGrid(m.G(old(m.tiles[..])), m.props, t, place, tick).cells
  {
    if m.props.isAnimated(t) {
      if tick % ANIMATION_DELAY == 0 {
        var spritePlace := m.GetSprite(place.x, place.y, place.layer);
        var next := Location((spritePlace.0 + 1) % NumSprites(m.props, t), spritePlace.1, place.layer);
        m.SetSprite(place.x, place.y, place.layer, next);
      }
      return true;
    }
    return false;
  }
}
