/**
 * `ItemMaker`: the offset between the block items and the tiles they place,
 * and the choice of item class for an item type.
 */
module ItemMaker {
  import opened Tiles
  import opened Actions

  /**
   * `itemToTile`: the tile a pure block places. Both enumerations list
   * the same names in the same order, so the tile has the item's name.
   */
  function ItemToTile(a: ActionType): (t: TileType)
    requires LAST_TILE - FIRST_ITEMED_TILE == LAST_PURE_BLOCK - FIRST_BLOCK
    requires FIRST_BLOCK <= a <= LAST_PURE_BLOCK
    ensures FIRST_ITEMED_TILE <= t <= LAST_TILE
    ensures TILE_TYPE_NAMES[t] == ACTION_TYPE_NAMES[a]
  {
    a - FIRST_BLOCK + FIRST_ITEMED_TILE
  }

  /** `tileToItem`: the block item for a tile that has one, again with the same name. */
  function TileToItem(t: TileType): (a: ActionType)
    requires LAST_TILE - FIRST_ITEMED_TILE == LAST_PURE_BLOCK - FIRST_BLOCK
    requires FIRST_ITEMED_TILE <= t <= LAST_TILE
    ensures FIRST_BLOCK <= a <= LAST_PURE_BLOCK
    ensures ACTION_TYPE_NAMES[a] == TILE_TYPE_NAMES[t]
  {
    t + FIRST_BLOCK - FIRST_ITEMED_TILE
  }

  /** The two conversions are inverse bijections between the two ranges. */
  lemma ItemTileInverse(a: ActionType, t: TileType)
    ensures FIRST_BLOCK <= a <= LAST_PURE_BLOCK ==> TileToItem(ItemToTile(a)) == a
    ensures FIRST_ITEMED_TILE <= t <= LAST_TILE ==> ItemToTile(TileToItem(t)) == t
    ensures FIRST_BLOCK <= a <= LAST_PURE_BLOCK && FIRST_ITEMED_TILE <= t <= LAST_TILE ==>
      (ItemToTile(a) == t <==> TileToItem(t) == a)
  {
  }

  /** `isIn`: a linear search of the list. */
  method IsIn(items: seq<ActionType>, t: ActionType) returns (found: bool)
    ensures found <==> t in items
  {
    var i := 0;
    while i < |items|
      invariant 0 <= i <= |items|
      invariant t !in items[..i]
    {
      if items[i] == t {
        return true;
      }
      i := i + 1;
    }
    return false;
  }

  /** The item types `makeItem` turns into potions. */
  const POTIONS: seq<ActionType> := [HEALTH_POTION]

  /** The class `makeItem` instantiates. */
  datatype ItemKind = PotionItem | BlockItem | PickaxeItem | PlainItem

  /**
   * `makeItem`: potions first, then the pure blocks, then the pickaxe, and
   * a plain `Item` for everything else.
   */
  method MakeItemKind(t: ActionType) returns (kind: ItemKind)
    ensures kind == PotionItem <==> t in POTIONS
    ensures kind == BlockItem <==> t !in POTIONS && FIRST_BLOCK <= t <= LAST_PURE_BLOCK
    ensures kind == PickaxeItem <==> t == PICKAXE
    ensures kind == PlainItem <==> t == MAPLE_LEAF
  {
    var isPotion := IsIn(POTIONS, t);
    if isPotion {
      kind := PotionItem;
    } else if FIRST_BLOCK <= t <= LAST_PURE_BLOCK {
      kind := BlockItem;
    } else if t == PICKAXE {
      kind := PickaxeItem;
    } else {
      kind := PlainItem;
    }
  }
}
