/**
 * `Hotbar` (`Hotbar.cc`): 24 action shortcuts, 12 in the front row and 12
 * behind it, each with a `MouseBox`, and the selected slot.
 */
module Hotbars {
  import opened Actions
  import opened MouseBoxes

  /** The spacing the constructor sets. */
  const SMALL_GAP: int := 4
  const LARGE_GAP: int := 16
  const OFFSET_RIGHT: int := 0
  const OFFSET_DOWN: int := 36
  const X_START: int := 20
  const Y_START: int := 10
  /** The frame sprite is 32 × 32. */
  const FRAME_WIDTH: int := 32
  const FRAME_HEIGHT: int := 32
  const SLOTS: int := 24

  /** `HotbarItem`: the action in a slot and whether it is an item. */
  datatype HotbarItem = HotbarItem(action: Option<ActionRef>, isItem: bool)

  /** The left edge of front box `i`: slots of one frame width and a small gap, with a large gap after each group of four. */
  function FrontX(i: int): int
  {
    X_START + OFFSET_RIGHT + i * (FRAME_WIDTH + SMALL_GAP) + (i / 4) * LARGE_GAP
  }

  /** Box `i` as the constructor lays it out: the front row for i < 12, the row behind for the rest. */
  function SlotBox(i: int): MouseBox
  {
    if i < 12 then EMPTY_BOX.(x := FrontX(i), y := Y_START + OFFSET_DOWN, w := FRAME_WIDTH, h := FRAME_HEIGHT)
    else EMPTY_BOX.(x := FrontX(i - 12) - OFFSET_RIGHT, y := Y_START, w := FRAME_WIDTH, h := FRAME_HEIGHT)
  }

  lemma FrontXIncreases(i: int, j: int)
    requires 0 <= i < j
    ensures FrontX(i) + FRAME_WIDTH + SMALL_GAP <= FrontX(j)
  {
    assert i / 4 <= j / 4;
  }

  /** No point of the screen lies in two of the 24 boxes. */
  lemma SlotBoxesDisjoint(i: int, j: int, px: int, py: int)
    requires 0 <= i < SLOTS && 0 <= j < SLOTS && i != j
    ensures var a := SlotBox(i); var b := SlotBox(j);
      !(InRect(a.x, a.y, a.w, a.h, px, py) && InRect(b.x, b.y, b.w, b.h, px, py))
  {
    var ci := if i < 12 then i else i - 12;
    var cj := if j < 12 then j else j - 12;
    if ci < cj {
      FrontXIncreases(ci, cj);
    } else if cj < ci {
      FrontXIncreases(cj, ci);
    }
  }

  /** The state `update` works on, with its answer so far. */
  datatype BarState = BarState(selected: int, spriteUpdated: bool, actions: seq<HotbarItem>, boxes: seq<MouseBox>, answer: bool)

  /** `select`: the sprite goes stale only when the selection changes. */
  function SelectIn(s: BarState, slot: int): (s': BarState)
    ensures s'.selected == slot && s'.actions == s.actions && s'.boxes == s.boxes && s'.answer == s.answer
    ensures s'.spriteUpdated <==> s.spriteUpdated && slot == s.selected
  {
    if slot != s.selected then s.(selected := slot, spriteUpdated := false) else s
  }

  /** Whether a click on `box` stores `mouse` in its slot. */
  predicate StoresMouse(box: MouseBox, mouse: Option<ActionRef>)
  {
    Clicked(box) && box.event.button == SDL_BUTTON_LEFT && mouse.Some?
  }

  /**
   * `update` at box `i`: a fresh press selects the slot; then a left click
   * with something on the mouse stores it (and the answer becomes true if
   * it is an item), a right click empties the slot; the press is consumed.
   */
  function UseSlot(s: BarState, mouse: Option<ActionRef>, i: int): (s': BarState)
    requires 0 <= i < |s.boxes| == |s.actions|
    ensures |s'.boxes| == |s.boxes| == |s'.actions|
  {
    var box := s.boxes[i];
    if !Clicked(box) then s
    else
      var s1 := SelectIn(s, i);
      var s2 :=
        if box.event.button == SDL_BUTTON_LEFT && mouse.Some? then
          s1.(actions := s1.actions[i := HotbarItem(mouse, mouse.value.isItem)],
            answer := s1.answer || mouse.value.isItem, spriteUpdated := false)
        else if box.event.button == SDL_BUTTON_RIGHT then
          s1.(actions := s1.actions[i := HotbarItem(None, false)], spriteUpdated := false)
        else s1;
      s2.(boxes := s2.boxes[i := box.(wasClicked := false)])
  }

  /** `update` over the first `n` boxes. */
  function UpdateUpTo(s: BarState, mouse: Option<ActionRef>, n: int): (s': BarState)
    requires 0 <= n <= |s.boxes| == |s.actions|
    ensures |s'.boxes| == |s.boxes| == |s'.actions|
  {
    if n == 0 then s else UseSlot(UpdateUpTo(s, mouse, n - 1), mouse, n - 1)
  }

  /** What slot `i` holds after its box was handled. */
  function SlotAfter(item: HotbarItem, box: MouseBox, mouse: Option<ActionRef>): HotbarItem
  {
    if StoresMouse(box, mouse) then HotbarItem(mouse, mouse.value.isItem)
    else if Clicked(box) && box.event.button == SDL_BUTTON_RIGHT then HotbarItem(None, false)
    else item
  }

  /** One box of `update`: its slot becomes `SlotAfter`, and a press selects it and is consumed. */
  lemma UseSlotEffect(s: BarState, mouse: Option<ActionRef>, k: int)
    requires 0 <= k < |s.boxes| == |s.actions|
    ensures var s' := UseSlot(s, mouse, k);
      s'.actions == s.actions[k := SlotAfter(s.actions[k], s.boxes[k], mouse)] &&
      (s'.answer <==> s.answer || (StoresMouse(s.boxes[k], mouse) && mouse.value.isItem)) &&
      (Clicked(s.boxes[k]) ==> s'.selected == k && s'.boxes == s.boxes[k := s.boxes[k].(wasClicked := false)]) &&
      (!Clicked(s.boxes[k]) ==> s' == s)
  {
  }

  /**
   * `update` handles every slot on its own: every box's press is consumed
   * and its slot holds `SlotAfter`, and the boxes not yet reached are
   * untouched.
   */
  lemma {:induction false} UpdateSlots(s: BarState, mouse: Option<ActionRef>, n: int)
    requires 0 <= n <= |s.boxes| == |s.actions|
    ensures var s' := UpdateUpTo(s, mouse, n);
      (forall i :: 0 <= i < n ==> !Clicked(s'.boxes[i]) && s'.actions[i] == SlotAfter(s.actions[i], s.boxes[i], mouse)) &&
      (forall i :: n <= i < |s.boxes| ==> s'.boxes[i] == s.boxes[i] && s'.actions[i] == s.actions[i])
  {
    if n > 0 {
      UpdateSlots(s, mouse, n - 1);
      UseSlotEffect(UpdateUpTo(s, mouse, n - 1), mouse, n - 1);
    }
  }

  /** `update` answers true exactly if some left click stored an item. */
  lemma {:induction false} UpdateAnswer(s: BarState, mouse: Option<ActionRef>, n: int)
    requires 0 <= n <= |s.boxes| == |s.actions|
    ensures UpdateUpTo(s, mouse, n).answer <==>
      s.answer || exists i :: 0 <= i < n && StoresMouse(s.boxes[i], mouse) && mouse.value.isItem
  {
    if n > 0 {
      UpdateAnswer(s, mouse, n - 1);
      UpdateSlots(s, mouse, n - 1);
      UseSlotEffect(UpdateUpTo(s, mouse, n - 1), mouse, n - 1);
      if StoresMouse(s.boxes[n - 1], mouse) && mouse.value.isItem {
        assert UpdateUpTo(s, mouse, n).answer;
      }
    }
  }

  /**
   * After `update` the selection is the last box pressed; if none was,
   * the selection and the sprite flag are as before.
   */
  lemma {:induction false} UpdateSelection(s: BarState, mouse: Option<ActionRef>, n: int)
    requires 0 <= n <= |s.boxes| == |s.actions|
    ensures var s' := UpdateUpTo(s, mouse, n);
      ((forall i :: 0 <= i < n ==> !Clicked(s.boxes[i])) ==> s'.selected == s.selected && s'.spriteUpdated == s.spriteUpdated) &&
      ((exists i :: 0 <= i < n && Clicked(s.boxes[i])) ==>
        0 <= s'.selected < n && Clicked(s.boxes[s'.selected]) &&
        forall j :: s'.selected < j < n ==> !Clicked(s.boxes[j]))
  {
    if n > 0 {
      var k := n - 1;
      UpdateSelection(s, mouse, k);
      UpdateSlots(s, mouse, k);
      UseSlotEffect(UpdateUpTo(s, mouse, k), mouse, k);
      if !Clicked(s.boxes[k]) && exists i :: 0 <= i < n && Clicked(s.boxes[i]) {
        var i :| 0 <= i < n && Clicked(s.boxes[i]);
        assert i < k;
      }
    }
  }

  class Hotbar {
    var selected: int
    var isSpriteUpdated: bool
    var actions: seq<HotbarItem>
    var clickBoxes: seq<MouseBox>

    ghost predicate Valid()
      reads this
    {
      |actions| == SLOTS && |clickBoxes| == SLOTS
    }

    function State(answer: bool): BarState
      reads this
    {
      BarState(selected, isSpriteUpdated, actions, clickBoxes, answer)
    }

    /**
     * The constructor: 24 empty slots, slot 0 selected, the sprite stale,
     * and box `i` at `SlotBox(i)`.
     */
    constructor()
      ensures Valid() && selected == 0 && !isSpriteUpdated
      ensures forall i :: 0 <= i < SLOTS ==> actions[i] == HotbarItem(None, false) && clickBoxes[i] == SlotBox(i)
    {
      isSpriteUpdated := false;
      selected := 0;
      var boxes := Layout();
      clickBoxes := boxes;
      actions := seq(SLOTS, _ => HotbarItem(None, false));
    }

    /** The constructor's loop over three groups of four slots, with the running left edge `x`. */
    static method Layout() returns (boxes: seq<MouseBox>)
      ensures |boxes| == SLOTS && forall i :: 0 <= i < SLOTS ==> boxes[i] == SlotBox(i)
    {
      boxes := seq(SLOTS, _ => EMPTY_BOX);
      var x := X_START + OFFSET_RIGHT;
      var i := 0;
      while i < 3
        invariant 0 <= i <= 3 && |boxes| == SLOTS && x == FrontX(4 * i)
        invariant forall k :: (0 <= k < 4 * i || 12 <= k < 12 + 4 * i) ==> boxes[k] == SlotBox(k)
        invariant forall k :: (4 * i <= k < 12 || 12 + 4 * i <= k < SLOTS) ==> boxes[k] == EMPTY_BOX
      {
        var j := 0;
        while j < 4
          invariant 0 <= j <= 4 && |boxes| == SLOTS && x == FrontX(4 * i + j) - j / 4 * LARGE_GAP
          invariant forall k :: (0 <= k < 4 * i + j || 12 <= k < 12 + 4 * i + j) ==> boxes[k] == SlotBox(k)
          invariant forall k :: (4 * i + j <= k < 12 || 12 + 4 * i + j <= k < SLOTS) ==> boxes[k] == EMPTY_BOX
        {
          var index := 4 * i + j;
          boxes := boxes[index := boxes[index].(x := x, y := Y_START + OFFSET_DOWN, w := FRAME_WIDTH, h := FRAME_HEIGHT,
            wasClicked := false, containsMouse := false)];
          boxes := boxes[index + 12 := boxes[index + 12].(x := x - OFFSET_RIGHT, y := Y_START, w := FRAME_WIDTH, h := FRAME_HEIGHT,
            wasClicked := false, containsMouse := false)];
          x := x + FRAME_WIDTH + SMALL_GAP;
          j := j + 1;
        }
        x := x + LARGE_GAP;
        i := i + 1;
      }
    }

    /** `select`. */
    method Select(slot: int)
      modifies this
      ensures State(false) == SelectIn(old(State(false)), slot)
    {
      if slot != selected {
        selected := slot;
        isSpriteUpdated := false;
      }
    }

    /** The body of `update`'s loop at box `i`. */
    method UseSlotAt(mouse: Option<ActionRef>, i: int, answer: bool) returns (answer': bool)
      requires Valid() && 0 <= i < SLOTS
      modifies this
      ensures Valid() && State(answer') == UseSlot(old(State(answer)), mouse, i)
    {
      answer' := answer;
      var box := clickBoxes[i];
      if box.wasClicked && !box.isHeld && box.event.kind == ButtonDown {
        Select(i);
        if box.event.button == SDL_BUTTON_LEFT && mouse.Some? {
          actions := actions[i := HotbarItem(mouse, mouse.value.isItem)];
          if mouse.value.isItem {
            answer' := true;
          }
          isSpriteUpdated := false;
        } else if box.event.button == SDL_BUTTON_RIGHT {
          actions := actions[i := HotbarItem(None, false)];
          isSpriteUpdated := false;
        }
        clickBoxes := clickBoxes[i := clickBoxes[i].(wasClicked := false)];
      }
    }

    /** `update(mouse)`: answers whether the mouse's item should go back to the inventory. */
    method Update(mouse: Option<ActionRef>) returns (answer: bool)
      requires Valid()
      modifies this
      ensures Valid() && State(answer) == UpdateUpTo(old(State(false)), mouse, SLOTS)
    {
      ghost var start := State(false);
      answer := false;
      var i := 0;
      while i < |clickBoxes|
        invariant Valid() && 0 <= i <= SLOTS
        invariant State(answer) == UpdateUpTo(start, mouse, i)
      {
        answer := UseSlotAt(mouse, i, answer);
        i := i + 1;
      }
    }

    /**
     * `touch`, which `Player.cc` calls on its hotbar: the drawn sprite is
     * marked stale, as `Inventory::touch` does.
     */
    method Touch()
      modifies this`isSpriteUpdated
      ensures !isSpriteUpdated
    {
      isSpriteUpdated := false;
    }

    /** `getSelected`: the action in the selected slot. */
    function GetSelected(): (a: Option<ActionRef>)
      reads this
      requires Valid() && 0 <= selected < SLOTS
    {
      actions[selected].action
    }
  }
}
