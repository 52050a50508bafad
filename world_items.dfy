/**
 * `World` (`World.cc`): the world puts the player at the map's spawn point
 * and keeps the list of dropped items, from which each update removes the
 * empty entries and then the oldest ones beyond the limit.
 */
module Worlds {
  import opened Actions
  import opened Rects
  import opened TileMap
  import opened Players

  /** `ITEM_LIMIT`: the most dropped items the world keeps. */
  const ITEM_LIMIT: nat := 400

  /** A `DroppedItem` in the world's list: which object it is and the item it holds, if any. */
  datatype DropSlot = DropSlot(id: nat, item: Option<ActionRef>)

  /** An entry that survives the despawn: not null, and holding an item. */
  predicate IsLive(entry: Option<DropSlot>)
  {
    entry.Some? && entry.value.item.Some?
  }

  /** The entries that survive the despawn, in their order. */
  function Live(s: seq<Option<DropSlot>>): (r: seq<Option<DropSlot>>)
    ensures |r| <= |s|
  {
    if s == [] then [] else (if IsLive(s[0]) then [s[0]] else []) + Live(s[1..])
  }

  /**
   * The despawn keeps exactly the live entries: every entry it keeps is
   * live and was there, every live entry is kept, and a list of live
   * entries is kept whole.
   */
  lemma {:induction false} LiveMeaning(s: seq<Option<DropSlot>>)
    ensures forall i :: 0 <= i < |Live(s)| ==> IsLive(Live(s)[i])
    ensures forall e :: e in Live(s) <==> e in s && IsLive(e)
    ensures (forall i :: 0 <= i < |s| ==> IsLive(s[i])) ==> Live(s) == s
  {
    if s != [] {
      LiveMeaning(s[1..]);
      assert s == [s[0]] + s[1..];
    }
  }

  /** The despawn of one list keeps the survivors of its two halves, one after the other. */
  lemma {:induction false} LiveSplits(a: seq<Option<DropSlot>>, b: seq<Option<DropSlot>>)
    ensures Live(a + b) == Live(a) + Live(b)
  {
    if a != [] {
      LiveSplits(a[1..], b);
      assert (a + b)[1..] == a[1..] + b;
    } else {
      assert a + b == b;
    }
  }

  /** One step of the despawn loop: a dead entry adds nothing, a live one is kept after the entries before it. */
  lemma LiveStep(kept: seq<Option<DropSlot>>, entry: Option<DropSlot>, rest: seq<Option<DropSlot>>)
    requires Live(kept) == kept
    ensures Live([entry] + rest) == (if IsLive(entry) then [entry] else []) + Live(rest)
    ensures IsLive(entry) ==> Live(kept + [entry]) == kept + [entry]
  {
    assert ([entry] + rest)[1..] == rest;
    LiveSplits(kept, [entry]);
    assert [entry][1..] == [];
  }

  /** The cap: beyond `ITEM_LIMIT` entries only the newest (those at the back) stay. */
  function Capped(s: seq<Option<DropSlot>>): seq<Option<DropSlot>>
  {
    if |s| > ITEM_LIMIT then s[|s| - ITEM_LIMIT..] else s
  }

  /**
   * The cap leaves at most `ITEM_LIMIT` entries, exactly that many when
   * there were more, and always a suffix of the list.
   */
  lemma CappedMeaning(s: seq<Option<DropSlot>>)
    ensures |Capped(s)| == if |s| > ITEM_LIMIT then ITEM_LIMIT else |s|
    ensures Capped(s) == s[|s| - |Capped(s)|..]
  {
  }

  /** After an update the list is within the limit, every entry in it is live, and it kept the newest survivors. */
  lemma UpdateBounds(s: seq<Option<DropSlot>>)
    ensures |Capped(Live(s))| <= ITEM_LIMIT
    ensures forall i :: 0 <= i < |Capped(Live(s))| ==> IsLive(Capped(Live(s))[i])
    ensures Capped(Live(s)) == Live(s)[|Live(s)| - |Capped(Live(s))|..]
  {
    LiveMeaning(s);
    CappedMeaning(Live(s));
  }

  class World {
    const gameMap: Map
    const player: Player
    /** The things that move, as pointers. */
    var entities: seq<object>
    var droppedItems: seq<Option<DropSlot>>

    /**
     * The constructor: the player is the first entity and stands at the
     * spawn point, in pixels; no items lie around.
     */
    constructor(gameMap: Map, player: Player)
      modifies player`rect
      ensures this.gameMap == gameMap && this.player == player
      ensures entities == [player] && droppedItems == []
      ensures player.rect == old(player.rect).(x := gameMap.spawnX * gameMap.tileWidth, y := gameMap.spawnY * gameMap.tileHeight)
    {
      this.gameMap := gameMap;
      this.player := player;
      droppedItems := [];
      entities := [player];
      player.rect := player.rect.(x := gameMap.spawnX * gameMap.tileWidth);
      player.rect := player.rect.(y := gameMap.spawnY * gameMap.tileHeight);
    }

    /** The despawn of `update`: each null entry, or entry without an item, is erased. */
    method Despawn()
      modifies this`droppedItems
      ensures droppedItems == Live(old(droppedItems))
    {
      var i := 0;
      while i < |droppedItems|
        invariant 0 <= i <= |droppedItems|
        invariant droppedItems[..i] + Live(droppedItems[i..]) == Live(old(droppedItems))
        invariant Live(droppedItems[..i]) == droppedItems[..i]
        decreases |droppedItems| - i
      {
        var kept, entry, rest := droppedItems[..i], droppedItems[i], droppedItems[i + 1..];
        LiveStep(kept, entry, rest);
        if entry.None? || entry.value.item.None? {
          droppedItems := kept + rest;
          assert droppedItems[..i] == kept && droppedItems[i..] == rest;
        } else {
          assert droppedItems[..i + 1] == kept + [entry] && droppedItems[i + 1..] == rest;
          i := i + 1;
        }
      }
      assert droppedItems[..i] == droppedItems;
    }

    /** The cap of `update`: the entries before the newest `ITEM_LIMIT` are erased. */
    method Cap()
      modifies this`droppedItems
      ensures droppedItems == Capped(old(droppedItems))
    {
      if |droppedItems| > ITEM_LIMIT {
        droppedItems := droppedItems[|droppedItems| - ITEM_LIMIT..];
      }
    }

    /** The dropped-item part of `update`: the despawn, then the cap. */
    method UpdateItems()
      modifies this`droppedItems
      ensures droppedItems == Capped(Live(old(droppedItems)))
      ensures |droppedItems| <= ITEM_LIMIT && forall i :: 0 <= i < |droppedItems| ==> IsLive(droppedItems[i])
    {
      Despawn();
      Cap();
      UpdateBounds(old(droppedItems));
    }
  }
}
