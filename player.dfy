/**
 * `Player` (`Player.cc`): how far the player reaches, the cooldown between
 * two uses of an action, which action a use goes to, the inventory
 * toggle, and dropping what the mouse holds.
 */
module Players {
  import opened CInts
  import opened Actions
  import opened Rects
  import opened Stats
  import opened Inventories
  import opened Hotbars

  /**
   * `canReach(x, y, bonus)`: a place `x` tiles to the side and `y` tiles
   * above is in reach unless it is too far sideways, too high or too low.
   */
  function CanReach(sideways: int, up: int, down: int, x: int, y: int, bonus: int): (inReach: bool)
    ensures !inReach <==> Abs(x) > sideways + bonus || y > up + bonus || -y > down + bonus
  {
    if Abs(x) > sideways + bonus then false
    else if y > up + bonus then false
    else if -1 * y > down + bonus then false
    else true
  }

  /** More bonus never takes a place out of reach, and the player's own tile is in reach whenever the reaches are not negative. */
  lemma ReachGrowsWithBonus(sideways: int, up: int, down: int, x: int, y: int, bonus: int, more: int)
    requires bonus <= more
    ensures CanReach(sideways, up, down, x, y, bonus) ==> CanReach(sideways, up, down, x, y, more)
    ensures sideways + bonus >= 0 && up + bonus >= 0 && down + bonus >= 0 ==> CanReach(sideways, up, down, 0, 0, bonus)
  {
  }

  /**
   * What `useAction(type)` uses: nothing while the cooldown runs or for
   * no input; otherwise what the mouse holds, or else the selected hotbar
   * action (which may be none).
   */
  function UseTarget(useTimeLeft: int, input: InputType, mouse: Option<ActionRef>, selected: Option<ActionRef>): (target: Option<ActionRef>)
  {
    if useTimeLeft == 0 && input != NoInput then
      if mouse.Some? then mouse else selected
    else None
  }

  /** A use goes through only when allowed, and the mouse wins over the hotbar. */
  lemma UseTargetMeaning(useTimeLeft: int, input: InputType, mouse: Option<ActionRef>, selected: Option<ActionRef>)
    ensures var target := UseTarget(useTimeLeft, input, mouse, selected);
      (useTimeLeft != 0 || input == NoInput ==> target.None?) &&
      (target.Some? ==> target == mouse || (mouse.None? && target == selected)) &&
      (useTimeLeft == 0 && input != NoInput ==> (target.None? <==> mouse.None? && selected.None?))
  {
  }

  /** `update`'s count-down of the cooldown. */
  function Countdown(useTimeLeft: int): int
  {
    if useTimeLeft != 0 then useTimeLeft - 1 else useTimeLeft
  }

  /** The cooldown after `k` updates. */
  function CountdownAfter(useTimeLeft: int, k: nat): int
  {
    if k == 0 then useTimeLeft else Countdown(CountdownAfter(useTimeLeft, k - 1))
  }

  /**
   * From a cooldown that is not negative, `k` updates leave max(t - k, 0):
   * it never goes negative, and after `t` updates the player can use
   * actions again.
   */
  lemma {:induction false} CountdownReachesZero(useTimeLeft: int, k: nat)
    requires useTimeLeft >= 0
    ensures CountdownAfter(useTimeLeft, k) == Max(useTimeLeft - k, 0)
  {
    if k > 0 {
      CountdownReachesZero(useTimeLeft, k - 1);
    }
  }

  /** A `DroppedItem` as `drop` makes it: the item, where it starts, and the world width. */
  datatype DroppedItem = DroppedItem(item: ActionRef, x: int, y: int, worldWidth: int)

  class Player {
    var rect: Rect
    var tileReachUp: int
    var tileReachDown: int
    var tileReachSideways: int
    var useTimeLeft: int
    var isInventoryOpen: bool
    var mouseSlot: Option<ActionRef>
    const health: Stat
    const fullness: Stat
    const mana: Stat
    const inventory: Inventory
    const hotbar: Hotbar

    /**
     * The constructor's own settings: the reaches (read from the entity's
     * JSON), no cooldown, nothing on the mouse and the inventory closed.
     */
    constructor(rect: Rect, reachUp: int, reachDown: int, reachSideways: int,
                health: Stat, fullness: Stat, mana: Stat, inventory: Inventory, hotbar: Hotbar)
      ensures this.rect == rect && tileReachUp == reachUp && tileReachDown == reachDown && tileReachSideways == reachSideways
      ensures this.health == health && this.fullness == fullness && this.mana == mana
      ensures this.inventory == inventory && this.hotbar == hotbar
      ensures useTimeLeft == 0 && mouseSlot.None? && !isInventoryOpen
    {
      this.rect := rect;
      tileReachUp := reachUp;
      tileReachDown := reachDown;
      tileReachSideways := reachSideways;
      this.health := health;
      this.fullness := fullness;
      this.mana := mana;
      this.inventory := inventory;
      this.hotbar := hotbar;
      useTimeLeft := 0;
      mouseSlot := None;
      isInventoryOpen := false;
    }

    /** `toggleInventory`. */
    method ToggleInventory()
      modifies this`isInventoryOpen
      ensures isInventoryOpen == !old(isInventoryOpen)
    {
      isInventoryOpen := !isInventoryOpen;
    }

    /** `canReach` on this player's reaches. */
    function Reaches(x: int, y: int, bonus: int): bool
      reads this
    {
      CanReach(tileReachSideways, tileReachUp, tileReachDown, x, y, bonus)
    }

    /** `canUse`. */
    predicate CanUse()
      reads this
    {
      useTimeLeft == 0
    }

    /**
     * `useAction(type)`: answers the action whose `use` is called (the
     * call itself is `Items.Item.Use`). A use that goes through marks the
     * hotbar's sprite stale, and a use of the hotbar's selection the
     * inventory's too.
     */
    method UseAction(input: InputType) returns (target: Option<ActionRef>)
      requires hotbar.Valid() && 0 <= hotbar.selected < SLOTS
      modifies hotbar`isSpriteUpdated, inventory`isSpriteUpdated
      ensures target == UseTarget(useTimeLeft, input, mouseSlot, hotbar.GetSelected())
      ensures hotbar.isSpriteUpdated == (old(hotbar.isSpriteUpdated) && !(CanUse() && input != NoInput))
      ensures inventory.isSpriteUpdated ==
        (old(inventory.isSpriteUpdated) && !(CanUse() && input != NoInput && mouseSlot.None? && hotbar.GetSelected().Some?))
    {
      target := None;
      if CanUse() && input != NoInput {
        if mouseSlot.Some? {
          target := mouseSlot;
        } else if hotbar.GetSelected().Some? {
          target := hotbar.GetSelected();
          inventory.Touch();
        }
        hotbar.Touch();
      }
    }

    /** The cooldown part of `update`: it counts down while it is not zero. */
    method Update()
      requires useTimeLeft >= 0
      modifies this`useTimeLeft
      ensures useTimeLeft == Countdown(old(useTimeLeft)) && useTimeLeft >= 0
    {
      if !CanUse() {
        useTimeLeft := useTimeLeft - 1;
      }
    }

    /**
     * `drop`: an item on the mouse leaves it as a dropped item at the
     * player's centre; anything else stays and nothing is dropped.
     */
    method Drop(centerX: int, centerY: int) returns (dropped: Option<DroppedItem>)
      modifies this`mouseSlot
      ensures old(mouseSlot).Some? && old(mouseSlot).value.isItem ==>
        dropped == Some(DroppedItem(old(mouseSlot).value, centerX, centerY, rect.worldWidth)) && mouseSlot.None?
      ensures !(old(mouseSlot).Some? && old(mouseSlot).value.isItem) ==> dropped.None? && mouseSlot == old(mouseSlot)
    {
      if mouseSlot.Some? && mouseSlot.value.isItem {
        dropped := Some(DroppedItem(mouseSlot.value, centerX, centerY, rect.worldWidth));
        mouseSlot := None;
        return;
      }
      return None;
    }
  }
}
