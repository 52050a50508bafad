/**
 * One tick of the map (`Map::update` in `src/world/Map.cc`): the places
 * whose tiles can no longer update leave the update set, every remaining
 * place is updated by its tile's kind in the order of the set, expired
 * damage heals and the tick goes up by one.
 *
 * A tile type in the boulder range is a boulder, with the settings its
 * JSON file gives (`boulders`); any other type is a plain tile, which only
 * animates. The values `rand()` returns, when a boulder slides, are the
 * parameter `rolls`, indexed by the position of the place in the pass.
 */
module MapUpdate {
  import opened CInts
  import opened Tiles
  import opened MapHelpers
  import opened MapCells
  import opened TileMap
  import opened TileKind
  import Boulders

  /** `Map::newTile`: the types from `FIRST_BOULDER` to `LAST_BOULDER` are boulders. */
  predicate IsBoulderType(t: TileType)
  {
    FIRST_BOULDER <= t <= LAST_BOULDER
  }

  /**
   * What the tile kinds read from JSON must satisfy for their updates to be
   * defined: an animated kind has sprite columns, and no boulder kills water.
   */
  predicate KindsReady(props: TileProps, boulders: TileType -> Boulders.Boulder)
  {
    (forall t: TileType :: props.isAnimated(t) ==> NumSprites(props, t) > 0) &&
    (forall t: TileType :: IsBoulderType(t) ==> Boulders.KillsNoWater(boulders(t)))
  }

  /** A place a tile object can be asked about: on the map, in a drawn layer. */
  predicate IsTilePlace(g: Grid, place: Location)
  {
    OnMap(g, place.x, place.y) && IsDrawLayer(place.layer)
  }

  /** `getTile(place)->canUpdate(*this, place)`, dispatched on the type at the place. */
  predicate CanUpdateAt(props: TileProps, boulders: TileType -> Boulders.Boulder, g: Grid, place: Location)
    requires WellFormed(g) && IsTilePlace(g, place)
  {
    var t := TileAt(g, place.x, place.y, place.layer);
    if IsBoulderType(t) then Boulders.CanUpdate(boulders(t), g, place) else TileCanUpdate(props, t)
  }

  /** A boulder's update keeps the map's shape. */
  lemma BoulderStepShape(b: Boulders.Boulder, g: Grid, tileWidth: int, tileHeight: int, place: Location, tick: int, r: nat)
    requires Boulders.Placed(b, g, place)
    ensures var s := Boulders.UpdateStep(b, g, tileWidth, tileHeight, place, tick, r);
      WellFormed(s.grid) && s.grid.width == g.width && s.grid.height == g.height
  {
    MoveStepShape(b, g, tileWidth, tileHeight, place, Boulders.GetDirection(b, g, place), r);
  }

  lemma MoveStepShape(b: Boulders.Boulder, g: Grid, tileWidth: int, tileHeight: int, place: Location, direction: int, r: nat)
    requires Boulders.Placed(b, g, place)
    ensures var s := Boulders.MoveStep(b, g, tileWidth, tileHeight, place, direction, r);
      WellFormed(s.grid) && s.grid.width == g.width && s.grid.height == g.height
    decreases if direction == 0 then 1 else 0
  {
    if direction == 0 && b.isSliding {
      MoveStepShape(b, g, tileWidth, tileHeight, place, Boulders.SlideDirection(r), r);
    }
  }

  /** The cells and the dropped items after some of the per-tile updates. */
  datatype Pass = Pass(grid: Grid, drops: seq<Drop>)

  /** `tile->update(*this, place, items, tick)` for the tile now at `place`. */
  function TileStep(props: TileProps, boulders: TileType -> Boulders.Boulder, g: Grid, tileWidth: int, tileHeight: int,
                    place: Location, tick: int, r: nat): (s: Pass)
    requires KindsReady(props, boulders) && WellFormed(g) && IsTilePlace(g, place)
    ensures WellFormed(s.grid) && s.grid.width == g.width && s.grid.height == g.height
  {
    var t := TileAt(g, place.x, place.y, place.layer);
    if IsBoulderType(t) then
      BoulderStepShape(boulders(t), g, tileWidth, tileHeight, place, tick, r);
      var s := Boulders.UpdateStep(boulders(t), g, tileWidth, tileHeight, place, tick, r);
      Pass(s.grid, s.drops)
    else Pass(TileUpdateGrid(g, props, t, place, tick), [])
  }

  /**
   * The loop over the copy of the update set: the places in `order`, one
   * after another, each seeing the cells the earlier ones left; the drops
   * are appended in that order.
   */
  function Stepped(props: TileProps, boulders: TileType -> Boulders.Boulder, g: Grid, tileWidth: int, tileHeight: int,
                   order: seq<Location>, tick: int, rolls: nat -> nat): (p: Pass)
    requires KindsReady(props, boulders) && WellFormed(g)
    requires forall l <- order :: IsTilePlace(g, l)
    ensures WellFormed(p.grid) && p.grid.width == g.width && p.grid.height == g.height
    decreases |order|
  {
    if order == [] then Pass(g, [])
    else
      var init, last := order[..|order| - 1], order[|order| - 1];
      assert forall l <- init :: l in order;
      var prev := Stepped(props, boulders, g, tileWidth, tileHeight, init, tick, rolls);
      assert last in order;
      assert IsTilePlace(g, last);
      assert prev.grid.width == g.width && prev.grid.height == g.height;
      var s := TileStep(props, boulders, prev.grid, tileWidth, tileHeight, last, tick, rolls(|order| - 1));
      Pass(s.grid, prev.drops + s.drops)
  }

  // ---------------------------------------------------------------------
  // The order in which a std::set<Location> is walked

  /** The smallest place of the set under `Location::operator<`. */
  predicate IsLeast(s: set<Location>, m: Location)
  {
    m in s && forall l <- s :: l != m ==> Less(m, l)
  }

  /** A finite set of places has a smallest one, since `<` is a strict total order. */
  lemma {:induction false} LeastExists(s: set<Location>)
    requires s != {}
    ensures exists m :: IsLeast(s, m)
    decreases |s|
  {
    var x :| x in s;
    if s != {x} {
      var rest := s - {x};
      LeastExists(rest);
      var m :| IsLeast(rest, m);
      LessTrichotomous(x, m);
      EqualsIsIdentity(x, m);
      if Less(x, m) {
        forall l | l in s && l != x
          ensures Less(x, l)
        {
          if l != m {
            LessTransitive(x, m, l);
          }
        }
        assert IsLeast(s, x);
      } else {
        assert Less(m, x);
        assert IsLeast(s, m);
      }
    } else {
      assert IsLeast(s, x);
    }
  }

  /** There is only one smallest place. */
  lemma LeastUnique(s: set<Location>, a: Location, b: Location)
    requires IsLeast(s, a) && IsLeast(s, b)
    ensures a == b
  {
    if a != b {
      LessTrichotomous(a, b);
    }
  }

  ghost function Least(s: set<Location>): (m: Location)
    requires s != {}
    ensures IsLeast(s, m)
  {
    LeastExists(s);
    var m :| IsLeast(s, m);
    m
  }

  /**
   * The places of the set in ascending order of `Location::operator<`, as
   * a `std::set` iterator visits them: each place once, each before every
   * greater one.
   */
  ghost function Ascending(s: set<Location>): (r: seq<Location>)
    ensures |r| == |s|
    ensures forall l :: l in r <==> l in s
    decreases |s|
  {
    if s == {} then []
    else [Least(s)] + Ascending(s - {Least(s)})
  }

  /** Each place of `Ascending(s)` comes before every greater one. */
  lemma {:induction false} AscendingIncreases(s: set<Location>)
    ensures forall i, j :: 0 <= i < j < |Ascending(s)| ==> Less(Ascending(s)[i], Ascending(s)[j])
    decreases |s|
  {
    if s != {} {
      var m := Least(s);
      var rest := Ascending(s - {m});
      AscendingIncreases(s - {m});
      var r := Ascending(s);
      assert r == [m] + rest;
      forall i, j | 0 <= i < j < |r|
        ensures Less(r[i], r[j])
      {
        if i == 0 {
          assert r[j] == rest[j - 1] && rest[j - 1] in rest;
          assert rest[j - 1] in s && rest[j - 1] != m;
          assert IsLeast(s, m);
        } else {
          assert r[i] == rest[i - 1] && r[j] == rest[j - 1];
          assert Less(rest[i - 1], rest[j - 1]);
        }
      }
    }
  }

  /** Walking a set's order: its least place comes first, then the order of the rest. */
  lemma AscendingNext(rest: set<Location>, place: Location, order: seq<Location>, i: nat)
    requires IsLeast(rest, place) && i <= |order| && Ascending(rest) == order[i..]
    ensures i < |order| && order[i] == place && Ascending(rest - {place}) == order[i + 1..]
  {
    LeastUnique(rest, place, Least(rest));
    assert Ascending(rest) == [place] + Ascending(rest - {place});
    assert order[i + 1..] == order[i..][1..];
  }

  // ---------------------------------------------------------------------
  // Map::update

  /** The update set holds only places a tile object can be asked about. */
  predicate UpdatePlaces(g: Grid, places: set<Location>)
  {
    forall l <- places :: IsTilePlace(g, l)
  }

  /**
   * `Map::update`: the places whose tiles cannot update are erased, every
   * remaining place is updated in the set's order, the items the updates
   * drop are returned in that order, damage older than `HEAL_TIME` heals,
   * and the tick (an `unsigned int`) goes up by one.
   */
  method Update(m: Map, boulders: TileType -> Boulders.Boulder, rolls: nat -> nat) returns (drops: seq<Drop>)
    requires m.Valid() && KindsReady(m.props, boulders) && UpdatePlaces(m.GridOf(), m.toUpdate)
    modifies m`toUpdate, m`damaged, m`tick, m.tiles
    ensures forall l :: l in m.toUpdate <==>
      l in old(m.toUpdate) && CanUpdateAt(m.props, boulders, m.G(old(m.tiles[..])), l)
    ensures var pass := Stepped(m.props, boulders, m.G(old(m.tiles[..])), m.tileWidth, m.tileHeight,
                                Ascending(m.toUpdate), AsInt(old(m.tick)), rolls);
      m.tiles[..] == pass.grid.cells && drops == pass.drops
    ensures m.damaged == Healed(old(m.damaged), old(m.tick))
    ensures m.tick == ToUInt32(old(m.tick) + 1)
  {
    drops := PruneAndUpdateTiles(m, boulders, rolls);
    m.Heal();
    m.tick := ToUInt32(m.tick + 1);
  }

  /** The first two loops of `update`: the set pruned, then each remaining place's tile updated in order. */
  method PruneAndUpdateTiles(m: Map, boulders: TileType -> Boulders.Boulder, rolls: nat -> nat) returns (drops: seq<Drop>)
    requires m.Valid() && KindsReady(m.props, boulders) && UpdatePlaces(m.GridOf(), m.toUpdate)
    modifies m`toUpdate, m.tiles
    ensures forall l :: l in m.toUpdate <==>
      l in old(m.toUpdate) && CanUpdateAt(m.props, boulders, m.G(old(m.tiles[..])), l)
    ensures var pass := Stepped(m.props, boulders, m.G(old(m.tiles[..])), m.tileWidth, m.tileHeight,
                                Ascending(m.toUpdate), AsInt(m.tick), rolls);
      m.tiles[..] == pass.grid.cells && drops == pass.drops
  {
    var g := m.GridOf();
    var props := m.props;
    m.PruneUpdates(l => IsTilePlace(g, l) && CanUpdateAt(props, boulders, g, l));
    assert m.GridOf() == g && UpdatePlaces(g, m.toUpdate);
    drops := UpdateTiles(m, boulders, rolls);
  }

  /** The loop over the copy `newUpdate` of the update set: each place's tile updates the map in turn. */
  method UpdateTiles(m: Map, boulders: TileType -> Boulders.Boulder, rolls: nat -> nat) returns (drops: seq<Drop>)
    requires m.Valid() && KindsReady(m.props, boulders) && UpdatePlaces(m.GridOf(), m.toUpdate)
    modifies m.tiles
    ensures var pass := Stepped(m.props, boulders, m.G(old(m.tiles[..])), m.tileWidth, m.tileHeight,
                                Ascending(m.toUpdate), AsInt(m.tick), rolls);
      m.tiles[..] == pass.grid.cells && drops == pass.drops
  {
    var newUpdate := m.toUpdate;
    ghost var g0 := m.GridOf();
    ghost var order := Ascending(newUpdate);
    var tick := AsInt(m.tick);
    var rest := newUpdate;
    var i := 0;
    drops := [];
    while rest != {}
      invariant 0 <= i <= |order| && Ascending(rest) == order[i..]
      invariant rest <= newUpdate
      invariant var pass := Stepped(m.props, boulders, g0, m.tileWidth, m.tileHeight, order[..i], tick, rolls);
        m.tiles[..] == pass.grid.cells && drops == pass.drops
      decreases |rest|
    {
      LeastExists(rest);
      var place :| IsLeast(rest, place);
      AscendingNext(rest, place, order, i);
      SteppedNext(m.props, boulders, g0, m.tileWidth, m.tileHeight, order, i, tick, rolls);
      var dropped := UpdatePlace(m, boulders, place, tick, rolls(i));
      drops := drops + dropped;
      rest := rest - {place};
      i := i + 1;
    }
    assert order[..i] == order;
  }

  /** `getTile(place)->update(...)`: the boulder or the plain tile at the place updates the map. */
  method UpdatePlace(m: Map, boulders: TileType -> Boulders.Boulder, place: Location, tick: int, r: nat)
    returns (dropped: seq<Drop>)
    requires m.Valid() && KindsReady(m.props, boulders) && IsTilePlace(m.GridOf(), place)
    modifies m.tiles
    ensures var s := TileStep(m.props, boulders, m.G(old(m.tiles[..])), m.tileWidth, m.tileHeight, place, tick, r);
      m.tiles[..] == s.grid.cells && dropped == s.drops
  {
    var t := m.GetTileType(place.x, place.y, place.layer);
    if IsBoulderType(t) {
      var moved;
      moved, dropped := Boulders.Update(boulders(t), m, place, tick, r);
    } else {
      var animated := TileKind.Update(m, t, place, tick);
      dropped := [];
    }
  }

  /** One more place of the order: the pass so far, then the tile at that place. */
  lemma SteppedNext(props: TileProps, boulders: TileType -> Boulders.Boulder, g: Grid, tileWidth: int, tileHeight: int,
                    order: seq<Location>, i: nat, tick: int, rolls: nat -> nat)
    requires KindsReady(props, boulders) && WellFormed(g) && i < |order|
    requires forall l <- order :: IsTilePlace(g, l)
    ensures forall l <- order[..i] :: IsTilePlace(g, l)
    ensures var prev := Stepped(props, boulders, g, tileWidth, tileHeight, order[..i], tick, rolls);
      IsTilePlace(prev.grid, order[i]) &&
      var s := TileStep(props, boulders, prev.grid, tileWidth, tileHeight, order[i], tick, rolls(i));
      Stepped(props, boulders, g, tileWidth, tileHeight, order[..i + 1], tick, rolls) == Pass(s.grid, prev.drops + s.drops)
  {
    assert forall l <- order[..i] :: l in order;
    assert forall l <- order[..i + 1] :: l in order;
    assert order[..i + 1][..i] == order[..i];
    assert order[i] in order;
  }

  // ---------------------------------------------------------------------
  // What a pass does

  /**
   * Only boulders move tiles or drop items: a pass over places none of
   * which holds a boulder changes no tile type anywhere and drops nothing;
   * the animations touch only sprites.
   */
  lemma {:induction false} PlainPassKeepsTypes(props: TileProps, boulders: TileType -> Boulders.Boulder, g: Grid,
                                               tileWidth: int, tileHeight: int, order: seq<Location>, tick: int,
                                               rolls: nat -> nat)
    requires KindsReady(props, boulders) && WellFormed(g)
    requires forall l <- order :: IsTilePlace(g, l) && !IsBoulderType(TileAt(g, l.x, l.y, l.layer))
    ensures var p := Stepped(props, boulders, g, tileWidth, tileHeight, order, tick, rolls);
      p.drops == [] &&
      forall x, y, layer | OnMap(g, x, y) && IsDrawLayer(layer) :: TileAt(p.grid, x, y, layer) == TileAt(g, x, y, layer)
    decreases |order|
  {
    if order != [] {
      var init := order[..|order| - 1];
      assert forall l <- init :: l in order;
      PlainPassKeepsTypes(props, boulders, g, tileWidth, tileHeight, init, tick, rolls);
      var prev := Stepped(props, boulders, g, tileWidth, tileHeight, init, tick, rolls);
      var place := order[|order| - 1];
      var t := TileAt(prev.grid, place.x, place.y, place.layer);
      forall x, y, layer | OnMap(g, x, y) && IsDrawLayer(layer)
        ensures TileAt(TileUpdateGrid(prev.grid, props, t, place, tick), x, y, layer) == TileAt(prev.grid, x, y, layer)
      {
        AnimationKeepsType(prev.grid, props, t, place, tick, x, y, layer);
      }
    }
  }

  /** An animation step writes only a sprite byte, so every tile type stays. */
  lemma AnimationKeepsType(g: Grid, props: TileProps, t: TileType, place: Location, tick: int, x: int, y: int, layer: MapLayer)
    requires WellFormed(g) && IsTilePlace(g, place) && OnMap(g, x, y) && IsDrawLayer(layer)
    requires props.isAnimated(t) ==> NumSprites(props, t) > 0
    ensures TileAt(TileUpdateGrid(g, props, t, place, tick), x, y, layer) == TileAt(g, x, y, layer)
  {
    var g' := TileUpdateGrid(g, props, t, place, tick);
    if g' != g {
      var i := Index(g, place.x, place.y);
      var j := Index(g, x, y);
      if i == j {
        WithLayerSpriteReads(g.cells[i], place.layer, LayerSprite(g'.cells[i], place.layer), layer);
        assert g'.cells[i] == WithLayerSprite(g.cells[i], place.layer, LayerSprite(g'.cells[i], place.layer));
      }
    }
  }
}
