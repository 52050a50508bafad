/**
 * `MouseBox` (`Button.hh`): a screen rectangle with the mouse state that
 * `EventHandler` writes into it. Inventories and the hotbar hold their
 * boxes by value in vectors, so a box is a value here and each mutator is
 * a function answering the updated box, which the holder stores back.
 */
module MouseBoxes {
  import opened Rects

  /** The part of `SDL_MouseButtonEvent.type` the boxes look at. */
  datatype EventType = ButtonDown | ButtonUp | OtherEvent

  /** `SDL_BUTTON_LEFT` and `SDL_BUTTON_RIGHT`. */
  const SDL_BUTTON_LEFT: int := 1
  const SDL_BUTTON_RIGHT: int := 3

  /** The mouse event stored in a box: its type and its button number. */
  datatype MouseEvent = MouseEvent(kind: EventType, button: int)

  datatype MouseBox = MouseBox(
    x: int, y: int, w: int, h: int,
    containsMouse: bool,
    wasClicked: bool,
    isHeld: bool,
    event: MouseEvent)

  /** A value-initialised box, as `vector::resize` makes them: all zero. */
  const EMPTY_BOX: MouseBox := MouseBox(0, 0, 0, 0, false, false, false, MouseEvent(OtherEvent, 0))

  /** Whether (px, py) lies in the half-open rectangle [x, x+w) × [y, y+h). */
  predicate InRect(x: int, y: int, w: int, h: int, px: int, py: int)
  {
    x <= px < x + w && y <= py < y + h
  }

  /**
   * `contains`: answers whether the mouse lies in the box and stores that
   * answer in `containsMouse`; nothing else in the box changes.
   */
  function Contains(box: MouseBox, xMouse: int, yMouse: int): (r: (bool, MouseBox))
    ensures r.0 <==> InRect(box.x, box.y, box.w, box.h, xMouse, yMouse)
    ensures r.1 == box.(containsMouse := r.0)
  {
    var answer := box.x <= xMouse && xMouse < box.x + box.w;
    var answer' := answer && box.y <= yMouse && yMouse < box.y + box.h;
    (answer', box.(containsMouse := answer'))
  }

  /** `clicked`: a fresh press, i.e. a click not held over from last frame. */
  predicate Clicked(box: MouseBox)
  {
    box.wasClicked && !box.isHeld && box.event.kind == ButtonDown
  }

  /** `leftClicked`. */
  predicate LeftClicked(box: MouseBox)
  {
    Clicked(box) && box.event.button == SDL_BUTTON_LEFT
  }

  /** `rightClicked`. */
  predicate RightClicked(box: MouseBox)
  {
    Clicked(box) && box.event.button == SDL_BUTTON_RIGHT
  }

  /** `move(int, int, int, int)`: only the rectangle changes. */
  function Move(box: MouseBox, newx: int, newy: int, neww: int, newh: int): (b: MouseBox)
    ensures b.containsMouse == box.containsMouse && b.wasClicked == box.wasClicked
    ensures b.isHeld == box.isHeld && b.event == box.event
    ensures (b.x, b.y, b.w, b.h) == (newx, newy, neww, newh)
  {
    box.(x := newx, y := newy, w := neww, h := newh)
  }

  /** `move(Rect)`: takes the rectangle's corner and size. */
  function MoveToRect(box: MouseBox, rect: Rect): (b: MouseBox)
    ensures b == Move(box, rect.x, rect.y, rect.w, rect.h)
  {
    box.(x := rect.x, y := rect.y, w := rect.w, h := rect.h)
  }

  /** `reset`: the box forgets its click and the mouse; nothing else changes. */
  function Reset(box: MouseBox): (b: MouseBox)
    ensures !b.wasClicked && !b.containsMouse
    ensures (b.x, b.y, b.w, b.h, b.isHeld, b.event) == (box.x, box.y, box.w, box.h, box.isHeld, box.event)
  {
    box.(wasClicked := false, containsMouse := false)
  }

  /**
   * The click predicates: a left and a right click exclude each other, both
   * are fresh presses, and a box that was reset has no click at all.
   */
  lemma ClickKinds(box: MouseBox)
    ensures !(LeftClicked(box) && RightClicked(box))
    ensures LeftClicked(box) || RightClicked(box) ==> Clicked(box)
    ensures Clicked(box) <==> box.wasClicked && !box.isHeld && box.event.kind == ButtonDown
    ensures !Clicked(Reset(box)) && !LeftClicked(Reset(box)) && !RightClicked(Reset(box))
  {
  }

  /**
   * After `move`, `contains` answers for the new rectangle and leaves the
   * click state alone; a box of no width or height never has the mouse.
   */
  lemma MoveThenContains(box: MouseBox, newx: int, newy: int, neww: int, newh: int, px: int, py: int)
    ensures var r := Contains(Move(box, newx, newy, neww, newh), px, py);
      (r.0 <==> newx <= px < newx + neww && newy <= py < newy + newh) &&
      r.1.wasClicked == box.wasClicked && r.1.isHeld == box.isHeld && r.1.event == box.event
    ensures neww <= 0 || newh <= 0 ==> !Contains(Move(box, newx, newy, neww, newh), px, py).0
  {
  }
}
