/**
 * `EventHandler` (`EventHandler.cc`): the keyboard and mouse state of one
 * frame. Key events toggle windows and select hotbar slots, held keys set
 * the directions the player moves in, button events count clicks, and
 * each update classifies the mouse input and steers the player.
 *
 * SDL's keyboard state array is a `seq<bool>` indexed by scancode, and
 * the mouse position is a parameter where the handler asks SDL for it.
 */
module EventHandlers {
  import opened Actions
  import opened MouseBoxes
  import opened Hotbars
  import opened Inventories
  import opened Players
  import opened Movables

  /** The SDL scancodes the constructor binds (the USB usage numbers). */
  const SCANCODE_A := 4
  const SCANCODE_C := 6
  const SCANCODE_D := 7
  const SCANCODE_I := 12
  const SCANCODE_S := 22
  const SCANCODE_W := 26
  const SCANCODE_X := 27
  const SCANCODE_1 := 30
  const SCANCODE_0 := 39
  const SCANCODE_SPACE := 44
  const SCANCODE_MINUS := 45
  const SCANCODE_EQUALS := 46
  const SCANCODE_F1 := 58
  const SCANCODE_F12 := 69
  const SCANCODE_RIGHT := 79
  const SCANCODE_LEFT := 80
  const SCANCODE_DOWN := 81
  const SCANCODE_UP := 82
  const SCANCODE_KP_SPACE := 205

  /** `KeySettings`: which keys do what. */
  datatype KeySettings = KeySettings(
    leftKeys: seq<int>, rightKeys: seq<int>, upKeys: seq<int>, downKeys: seq<int>, jumpKeys: seq<int>,
    inventoryKeys: seq<int>, toggleHotbarKeys: seq<int>, hotbarKeys: seq<int>)

  /** The 24 hotbar keys, in slot order: 1 to 9, 0, minus, equals, then F1 to F12. */
  function HotbarKeys(): (keys: seq<int>)
    ensures |keys| == SLOTS
  {
    seq(9, i => SCANCODE_1 + i) + [SCANCODE_0, SCANCODE_MINUS, SCANCODE_EQUALS] + seq(12, i => SCANCODE_F1 + i)
  }

  /** The constructor's settings. */
  const DEFAULT_KEYS := KeySettings(
    [SCANCODE_LEFT, SCANCODE_A], [SCANCODE_RIGHT, SCANCODE_D], [SCANCODE_UP, SCANCODE_W], [SCANCODE_DOWN, SCANCODE_S],
    [SCANCODE_SPACE, SCANCODE_KP_SPACE], [SCANCODE_I, SCANCODE_C], [SCANCODE_X], HotbarKeys())

  /** The default hotbar keys rise strictly, so no two slots share a key. */
  lemma DefaultHotbarKeysDistinct()
    ensures |DEFAULT_KEYS.hotbarKeys| == SLOTS
    ensures forall i, j :: 0 <= i < j < SLOTS ==> DEFAULT_KEYS.hotbarKeys[i] < DEFAULT_KEYS.hotbarKeys[j]
    ensures forall i :: 0 <= i < SLOTS ==> DEFAULT_KEYS.hotbarKeys[i] !in DEFAULT_KEYS.inventoryKeys + DEFAULT_KEYS.toggleHotbarKeys
  {
    var keys := HotbarKeys();
    assert forall i :: 0 <= i < 9 ==> keys[i] == SCANCODE_1 + i;
    assert keys[9] == SCANCODE_0 && keys[10] == SCANCODE_MINUS && keys[11] == SCANCODE_EQUALS;
    assert forall i :: 12 <= i < SLOTS ==> keys[i] == SCANCODE_F1 + i - 12;
  }

  /** `select` called at every index of `keys` below `n` that holds `key`, in order. */
  function SelectMatches(s: BarState, keys: seq<int>, key: int, n: nat): (s': BarState)
    requires n <= |keys|
    ensures s'.actions == s.actions && s'.boxes == s.boxes && s'.answer == s.answer
  {
    if n == 0 then s
    else
      var s1 := SelectMatches(s, keys, key, n - 1);
      if keys[n - 1] == key then SelectIn(s1, n - 1) else s1
  }

  /**
   * The selection ends at the last index holding the key (or stays, if
   * none does), and the sprite stays fresh only if every such index was
   * already the selection.
   */
  lemma {:induction false} SelectMatchesMeaning(s: BarState, keys: seq<int>, key: int, n: nat)
    requires n <= |keys|
    ensures var s' := SelectMatches(s, keys, key, n);
      ((forall i :: 0 <= i < n ==> keys[i] != key) ==> s'.selected == s.selected) &&
      (forall i :: 0 <= i < n && keys[i] == key ==> i <= s'.selected < n && keys[s'.selected] == key) &&
      ((forall i :: 0 <= i < n && keys[i] == key ==> i == s.selected) ==> s'.selected == s.selected) &&
      (s'.spriteUpdated <==> s.spriteUpdated && forall i :: 0 <= i < n && keys[i] == key ==> i == s.selected)
  {
    if n > 0 {
      SelectMatchesMeaning(s, keys, key, n - 1);
    }
  }

  /** A key bound to exactly one slot selects that slot. */
  lemma {:induction false} SelectUniqueMatch(s: BarState, keys: seq<int>, i: nat, n: nat)
    requires i < n <= |keys| && forall j :: 0 <= j < n && j != i ==> keys[j] != keys[i]
    ensures SelectMatches(s, keys, keys[i], n) == SelectIn(s, i)
  {
    if n - 1 > i {
      SelectUniqueMatch(s, keys, i, n - 1);
    } else {
      SelectNoMatch(s, keys, keys[i], i);
    }
  }

  lemma {:induction false} SelectNoMatch(s: BarState, keys: seq<int>, key: int, n: nat)
    requires n <= |keys| && forall j :: 0 <= j < n ==> keys[j] != key
    ensures SelectMatches(s, keys, key, n) == s
  {
    if n > 0 {
      SelectNoMatch(s, keys, key, n - 1);
    }
  }

  /** With the default settings, hotbar key number `i` selects slot `i`. */
  lemma DefaultHotbarKeySelects(s: BarState, i: nat)
    requires i < SLOTS
    ensures SelectMatches(s, DEFAULT_KEYS.hotbarKeys, DEFAULT_KEYS.hotbarKeys[i], SLOTS) == SelectIn(s, i)
  {
    DefaultHotbarKeysDistinct();
    SelectUniqueMatch(s, DEFAULT_KEYS.hotbarKeys, i, SLOTS);
  }

  /** What the boxes are told of the mouse: where it is, which buttons count as clicked, and which were down last frame. */
  datatype Pointer = Pointer(x: int, y: int, clickedLeft: bool, clickedRight: bool, wasLeft: bool, wasRight: bool)

  /**
   * One box of `updateMouseBoxes`: the box learns whether it holds the
   * mouse; if it does and a button counts as clicked, it records a button
   * press, of the left button if that counts, and whether that button was
   * already down.
   */
  function Tapped(box: MouseBox, p: Pointer): (r: (bool, MouseBox))
    ensures r.0 <==> InRect(box.x, box.y, box.w, box.h, p.x, p.y)
    ensures (r.1.x, r.1.y, r.1.w, r.1.h, r.1.containsMouse) == (box.x, box.y, box.w, box.h, r.0)
    ensures r.0 && (p.clickedLeft || p.clickedRight) ==>
      r.1.wasClicked && r.1.event.kind == ButtonDown &&
      (r.1.event.button == SDL_BUTTON_LEFT <==> p.clickedLeft) &&
      r.1.isHeld == (if p.clickedLeft then p.wasLeft else p.wasRight)
    ensures !(r.0 && (p.clickedLeft || p.clickedRight)) ==> r.1 == box.(containsMouse := r.0)
  {
    var (inside, b) := Contains(box, p.x, p.y);
    if inside && (p.clickedLeft || p.clickedRight) then
      if p.clickedLeft then (true, b.(wasClicked := true, event := MouseEvent(ButtonDown, SDL_BUTTON_LEFT), isHeld := p.wasLeft))
      else (true, b.(wasClicked := true, event := MouseEvent(ButtonDown, SDL_BUTTON_RIGHT), isHeld := p.wasRight))
    else (inside, b)
  }

  /**
   * A box the mouse is in counts a fresh click exactly when a button counts
   * as clicked and the winning button was not down last frame; the right
   * button only wins when the left does not count.
   */
  lemma TappedClicks(box: MouseBox, p: Pointer)
    ensures var (inside, b) := Tapped(box, p);
      (inside && (p.clickedLeft || p.clickedRight) ==>
        (Clicked(b) <==> (p.clickedLeft && !p.wasLeft) || (!p.clickedLeft && !p.wasRight)) &&
        (LeftClicked(b) <==> p.clickedLeft && !p.wasLeft) &&
        (RightClicked(b) <==> !p.clickedLeft && !p.wasRight)) &&
      (!(inside && (p.clickedLeft || p.clickedRight)) ==> b.wasClicked == box.wasClicked && (Clicked(b) <==> Clicked(box)))
  {
  }

  /** Every box of a list, tapped. */
  function TapAll(boxes: seq<MouseBox>, p: Pointer): (tapped: seq<MouseBox>)
    ensures |tapped| == |boxes|
  {
    seq(|boxes|, i requires 0 <= i < |boxes| => Tapped(boxes[i], p).1)
  }

  /** Whether one of the boxes holds the mouse. */
  predicate AnyHolds(boxes: seq<MouseBox>, p: Pointer)
  {
    exists i :: 0 <= i < |boxes| && InRect(boxes[i].x, boxes[i].y, boxes[i].w, boxes[i].h, p.x, p.y)
  }

  /**
   * `updateInventoryClickBoxes` over the first `n` rows: each row is tapped
   * until one answers true, and the rows after it are skipped (the `||`
   * does not evaluate them).
   */
  function TapRows(grid: seq<seq<MouseBox>>, p: Pointer, n: nat): (r: (bool, seq<seq<MouseBox>>))
    requires n <= |grid|
    ensures |r.1| == |grid| && forall k :: 0 <= k < |grid| ==> |r.1[k]| == |grid[k]|
    ensures forall k :: n <= k < |grid| ==> r.1[k] == grid[k]
  {
    if n == 0 then (false, grid)
    else
      var (answer, g) := TapRows(grid, p, n - 1);
      if answer then (answer, g)
      else (AnyHolds(g[n - 1], p), g[n - 1 := TapAll(g[n - 1], p)])
  }

  /** Whether a box of one of the first `k` rows holds the mouse. */
  predicate HitBefore(grid: seq<seq<MouseBox>>, p: Pointer, k: nat)
    requires k <= |grid|
  {
    exists j :: 0 <= j < k && AnyHolds(grid[j], p)
  }

  /**
   * The rows' answer is whether some box holds the mouse; a row is tapped
   * if no earlier row holds the mouse, and left as it was otherwise.
   */
  lemma {:induction false} TapRowsMeaning(grid: seq<seq<MouseBox>>, p: Pointer, n: nat)
    requires n <= |grid|
    ensures TapRows(grid, p, n).0 <==> HitBefore(grid, p, n)
    ensures forall k :: 0 <= k < n ==>
      TapRows(grid, p, n).1[k] == if HitBefore(grid, p, k) then grid[k] else TapAll(grid[k], p)
  {
    if n > 0 {
      TapRowsMeaning(grid, p, n - 1);
      var (answer, g) := TapRows(grid, p, n - 1);
      assert g[n - 1] == grid[n - 1];
      assert HitBefore(grid, p, n) <==> HitBefore(grid, p, n - 1) || AnyHolds(grid[n - 1], p) by {
        if AnyHolds(grid[n - 1], p) {
          assert 0 <= n - 1 < n && AnyHolds(grid[n - 1], p);
        }
        if HitBefore(grid, p, n) && !AnyHolds(grid[n - 1], p) {
          var j :| 0 <= j < n && AnyHolds(grid[j], p);
          assert j < n - 1;
        }
      }
    }
  }

  /**
   * `useMouse`'s input type when no part of the interface took the mouse:
   * a new press (or a click counted this frame) of the left button, else
   * of the right, else a held left, else a held right, else none.
   */
  function Classify(isLeftDown: bool, isRightDown: bool, wasLeftDown: bool, wasRightDown: bool, leftClicks: int, rightClicks: int): (input: InputType)
  {
    if (isLeftDown && !wasLeftDown) || leftClicks != 0 then LeftButtonPressed
    else if (isRightDown && !wasRightDown) || rightClicks != 0 then RightButtonPressed
    else if isLeftDown then LeftButtonHeld
    else if isRightDown then RightButtonHeld
    else NoInput
  }

  /** The classification: a press wins over holding, the left over the right, and there is no input only when nothing happened. */
  lemma ClassifyMeaning(l: bool, r: bool, wl: bool, wr: bool, lc: int, rc: int)
    ensures var input := Classify(l, r, wl, wr, lc, rc);
      (input == LeftButtonPressed <==> (l && !wl) || lc != 0) &&
      (input == RightButtonPressed <==> !((l && !wl) || lc != 0) && ((r && !wr) || rc != 0)) &&
      (input == LeftButtonHeld <==> l && wl && lc == 0 && !((r && !wr) || rc != 0)) &&
      (input == RightButtonHeld ==> r && wr && !l && lc == 0 && rc == 0) &&
      (input == NoInput <==> !l && !r && lc == 0 && rc == 0)
  {
  }

  /**
   * `updatePlayer`'s jump rule: the jump key, the player still within its
   * jump time (or without a limit), and `isJumping == hasJumped`, which
   * holds either before the first jump of a press or while that jump goes
   * on.
   */
  predicate Jumps(jump: bool, timeOffGround: int, maxJumpTime: int, isJumping: bool, hasJumped: bool)
  {
    jump && (timeOffGround <= maxJumpTime || maxJumpTime == -1) && isJumping == hasJumped
  }

  /** One frame of the jump flags: `updateKeys` (a released key clears both), then `updatePlayer`. */
  function JumpFrame(jump: bool, timeOffGround: int, maxJumpTime: int, isJumping: bool, hasJumped: bool): (flags: (bool, bool))
  {
    var (j, h) := if jump then (isJumping, hasJumped) else (false, false);
    if Jumps(jump, timeOffGround, maxJumpTime, j, h) then (true, true) else (false, h)
  }

  /**
   * One jump per press: once a jump has stopped while the key stays held,
   * no frame jumps again until the key is released; a release clears the
   * flags, so the next press may jump.
   */
  lemma OneJumpPerPress(timeOffGround: int, maxJumpTime: int, isJumping: bool, hasJumped: bool)
    ensures JumpFrame(true, timeOffGround, maxJumpTime, false, true) == (false, true)
    ensures !Jumps(true, timeOffGround, maxJumpTime, false, true)
    ensures JumpFrame(false, timeOffGround, maxJumpTime, isJumping, hasJumped) == (false, false)
    ensures (timeOffGround <= maxJumpTime || maxJumpTime == -1) ==> JumpFrame(true, timeOffGround, maxJumpTime, false, false) == (true, true)
  {
  }

  /** The handler's state. */
  class EventHandler {
    var keySettings: KeySettings
    var left: bool
    var right: bool
    var up: bool
    var down: bool
    var jump: bool
    var isJumping: bool
    var hasJumped: bool
    var isLeftButtonDown: bool
    var isRightButtonDown: bool
    var wasLeftButtonDown: bool
    var wasRightButtonDown: bool
    var leftClicks: int
    var rightClicks: int

    /** The constructor: nothing held, no button down, no clicks, and the default key settings. */
    constructor()
      ensures !left && !right && !up && !down && !jump && !isJumping && !hasJumped
      ensures !isLeftButtonDown && !isRightButtonDown && !wasLeftButtonDown && !wasRightButtonDown
      ensures leftClicks == 0 && rightClicks == 0 && keySettings == DEFAULT_KEYS
    {
      left, right, up, down, jump := false, false, false, false, false;
      isJumping, hasJumped := false, false;
      isLeftButtonDown, isRightButtonDown, wasLeftButtonDown, wasRightButtonDown := false, false, false, false;
      leftClicks, rightClicks := 0, 0;
      keySettings := DEFAULT_KEYS;
    }

    /** What the boxes are told of the buttons: down now or clicked this frame, and down last frame. */
    function PointerAt(x: int, y: int): Pointer
      reads this
    {
      Pointer(x, y, isLeftButtonDown || leftClicks != 0, isRightButtonDown || rightClicks != 0, wasLeftButtonDown, wasRightButtonDown)
    }

    /** `mouseEvent`: a button down or up of the left or the right button. */
    method MouseEventAt(kind: EventType, button: int)
      modifies this`isLeftButtonDown, this`isRightButtonDown, this`leftClicks, this`rightClicks
      ensures kind == OtherEvent || (button != SDL_BUTTON_LEFT && button != SDL_BUTTON_RIGHT) ==>
        isLeftButtonDown == old(isLeftButtonDown) && isRightButtonDown == old(isRightButtonDown) &&
        leftClicks == old(leftClicks) && rightClicks == old(rightClicks)
      ensures kind != OtherEvent && button == SDL_BUTTON_LEFT ==>
        isLeftButtonDown == (kind == ButtonDown) && isRightButtonDown == old(isRightButtonDown) && rightClicks == old(rightClicks) &&
        leftClicks == old(leftClicks) + (if kind == ButtonUp && old(isLeftButtonDown) && !wasLeftButtonDown then 1 else 0)
      ensures kind != OtherEvent && button == SDL_BUTTON_RIGHT ==>
        isRightButtonDown == (kind == ButtonDown) && isLeftButtonDown == old(isLeftButtonDown) && leftClicks == old(leftClicks) &&
        rightClicks == old(rightClicks) + (if kind == ButtonUp && old(isRightButtonDown) && !wasRightButtonDown then 1 else 0)
    {
      if kind == ButtonDown || kind == ButtonUp {
        var which := kind == ButtonDown;
        if button == SDL_BUTTON_LEFT {
          leftClicks := leftClicks + if !which && isLeftButtonDown && !wasLeftButtonDown then 1 else 0;
          isLeftButtonDown := which;
        } else if button == SDL_BUTTON_RIGHT {
          rightClicks := rightClicks + if !which && isRightButtonDown && !wasRightButtonDown then 1 else 0;
          isRightButtonDown := which;
        }
      }
    }

    /** `updateKeys(state)`: each direction is held iff one of its keys is; a released jump key clears the jump flags. */
    method UpdateKeys(state: seq<bool>)
      requires KeysIn(keySettings, |state|)
      modifies this`left, this`right, this`up, this`down, this`jump, this`isJumping, this`hasJumped
      ensures (left, right, up, down, jump) == HeldKeys(state, keySettings)
      ensures (isJumping, hasJumped) == if jump then old((isJumping, hasJumped)) else (false, false)
    {
      left, right, up, down, jump := false, false, false, false, false;
      var held := IsHeld(state, keySettings.leftKeys);
      if held {
        left := true;
      }
      held := IsHeld(state, keySettings.rightKeys);
      if held {
        right := true;
      }
      held := IsHeld(state, keySettings.upKeys);
      if held {
        up := true;
      }
      held := IsHeld(state, keySettings.downKeys);
      if held {
        down := true;
      }
      held := IsHeld(state, keySettings.jumpKeys);
      if held {
        jump := true;
      } else {
        isJumping := false;
        hasJumped := false;
      }
    }

    /**
     * `keyEvent`: on a key press, an inventory key toggles the inventory,
     * else a toggle key toggles the hotbar (answered as `toggledHotbar`),
     * else every hotbar key index that holds the key is selected in turn.
     * Releases do nothing.
     */
    method KeyEvent(isKeyUp: bool, key: int, player: Player) returns (toggledHotbar: bool)
      modifies player`isInventoryOpen, player.hotbar
      ensures var s := old(player.hotbar.State(false));
        var keys := keySettings;
        var hotbarKey := !isKeyUp && key !in keys.inventoryKeys && key !in keys.toggleHotbarKeys;
        player.hotbar.State(false) == (if hotbarKey then SelectMatches(s, keys.hotbarKeys, key, |keys.hotbarKeys|) else s)
      ensures player.isInventoryOpen <==> old(player.isInventoryOpen) != (!isKeyUp && key in keySettings.inventoryKeys)
      ensures toggledHotbar <==> !isKeyUp && key !in keySettings.inventoryKeys && key in keySettings.toggleHotbarKeys
    {
      toggledHotbar := false;
      if isKeyUp {
        return;
      }
      var found := IsIn(key, keySettings.inventoryKeys);
      if found {
        player.ToggleInventory();
        return;
      }
      found := IsIn(key, keySettings.toggleHotbarKeys);
      if found {
        return true;
      }
      found := IsIn(key, keySettings.hotbarKeys);
      if found {
        SelectKey(key, player.hotbar);
      } else {
        SelectNoMatch(player.hotbar.State(false), keySettings.hotbarKeys, key, |keySettings.hotbarKeys|);
      }
    }

    /** The loop of `keyEvent` over the hotbar keys. */
    method SelectKey(key: int, hotbar: Hotbar)
      modifies hotbar
      ensures hotbar.State(false) == SelectMatches(old(hotbar.State(false)), keySettings.hotbarKeys, key, |keySettings.hotbarKeys|)
    {
      var i := 0;
      while i < |keySettings.hotbarKeys|
        invariant 0 <= i <= |keySettings.hotbarKeys|
        invariant hotbar.State(false) == SelectMatches(old(hotbar.State(false)), keySettings.hotbarKeys, key, i)
      {
        if key == keySettings.hotbarKeys[i] {
          hotbar.Select(i);
        }
        i := i + 1;
      }
    }

    /**
     * The classification of `useMouse`, and its reset of the click counts.
     * `isMouseUsed` says whether a box of the interface held the mouse;
     * when none did, the input type is answered.
     */
    method ClassifyMouse(isMouseUsed: bool) returns (input: Option<InputType>)
      modifies this`leftClicks, this`rightClicks
      ensures leftClicks == 0 && rightClicks == 0
      ensures input == if isMouseUsed then None
        else Some(Classify(isLeftButtonDown, isRightButtonDown, wasLeftButtonDown, wasRightButtonDown, old(leftClicks), old(rightClicks)))
    {
      input := None;
      if !isMouseUsed {
        var kind := NoInput;
        if (isLeftButtonDown && !wasLeftButtonDown) || leftClicks != 0 {
          kind := LeftButtonPressed;
        } else if (isRightButtonDown && !wasRightButtonDown) || rightClicks != 0 {
          kind := RightButtonPressed;
        } else if isLeftButtonDown {
          kind := LeftButtonHeld;
        } else if isRightButtonDown {
          kind := RightButtonHeld;
        }
        input := Some(kind);
      }
      leftClicks := 0;
      rightClicks := 0;
    }

    /**
     * The movement part of `updatePlayer`, on the player's `Movable` part:
     * left and right accelerate sideways, a jump (by the jump rule) and up
     * accelerate upwards, and down lets the player fall through platforms.
     */
    method Steer(body: Movable)
      modifies this`isJumping, this`hasJumped, body`accel, body`collidePlatforms
      ensures var jumps := Jumps(jump, body.timeOffGround, body.maxJumpTime, old(isJumping), old(hasJumped));
        isJumping == jumps && hasJumped == (jumps || old(hasJumped)) &&
        body.accel == Point(
          (if right then body.dAccel.x else 0.0) - (if left then body.dAccel.x else 0.0),
          (if jumps then body.dAccel.y else 0.0) + (if up then body.dAccel.y else 0.0)) &&
        body.collidePlatforms == !down
    {
      var ax, ay := 0.0, 0.0;
      if right {
        ax := ax + body.dAccel.x;
      }
      if left {
        ax := ax - body.dAccel.x;
      }
      if jump && (body.timeOffGround <= body.maxJumpTime || body.maxJumpTime == -1) && isJumping == hasJumped {
        ay := ay + body.dAccel.y;
        isJumping := true;
        hasJumped := true;
      } else {
        isJumping := false;
      }
      if up {
        ay := ay + body.dAccel.y;
      }
      if down {
        body.collidePlatforms := false;
      } else {
        body.collidePlatforms := true;
      }
      body.accel := Point(ax, ay);
    }

    /**
     * `updatePlayer`: the use cooldown counts down (its assertion is the
     * precondition), then the player is steered.
     */
    method UpdatePlayer(player: Player, body: Movable)
      requires player.useTimeLeft >= 0
      modifies player`useTimeLeft, this`isJumping, this`hasJumped, body`accel, body`collidePlatforms
      ensures player.useTimeLeft == Countdown(old(player.useTimeLeft))
      ensures var jumps := Jumps(jump, body.timeOffGround, body.maxJumpTime, old(isJumping), old(hasJumped));
        (isJumping, hasJumped) == (jumps, jumps || old(hasJumped)) &&
        body.accel == Point(
          (if right then body.dAccel.x else 0.0) - (if left then body.dAccel.x else 0.0),
          (if jumps then body.dAccel.y else 0.0) + (if up then body.dAccel.y else 0.0)) &&
        body.collidePlatforms == !down
    {
      player.Update();
      Steer(body);
    }

    /** The first half of `update`: the held keys, the mouse classification, and this frame's buttons remembered. */
    method ReadInput(state: seq<bool>, isMouseUsed: bool) returns (input: Option<InputType>)
      requires KeysIn(keySettings, |state|)
      modifies this`left, this`right, this`up, this`down, this`jump, this`isJumping, this`hasJumped
      modifies this`wasLeftButtonDown, this`wasRightButtonDown, this`leftClicks, this`rightClicks
      ensures (left, right, up, down, jump) == HeldKeys(state, keySettings)
      ensures (isJumping, hasJumped) == if jump then old((isJumping, hasJumped)) else (false, false)
      ensures input == if isMouseUsed then None
        else Some(Classify(isLeftButtonDown, isRightButtonDown, old(wasLeftButtonDown), old(wasRightButtonDown), old(leftClicks), old(rightClicks)))
      ensures wasLeftButtonDown == isLeftButtonDown && wasRightButtonDown == isRightButtonDown
      ensures leftClicks == 0 && rightClicks == 0
    {
      UpdateKeys(state);
      input := ClassifyMouse(isMouseUsed);
      wasLeftButtonDown := isLeftButtonDown;
      wasRightButtonDown := isRightButtonDown;
    }

    /**
     * `update`: the held keys, the mouse classification (with the
     * interface's answer as `isMouseUsed`), this frame's buttons remembered
     * for the next, and the player steered. The jump flags follow
     * `JumpFrame`.
     */
    method Update(state: seq<bool>, isMouseUsed: bool, player: Player, body: Movable) returns (input: Option<InputType>)
      requires KeysIn(keySettings, |state|) && player.useTimeLeft >= 0
      modifies this`left, this`right, this`up, this`down, this`jump, this`isJumping, this`hasJumped
      modifies this`wasLeftButtonDown, this`wasRightButtonDown, this`leftClicks, this`rightClicks
      modifies player`useTimeLeft, body`accel, body`collidePlatforms
      ensures (left, right, up, down, jump) == HeldKeys(state, keySettings)
      ensures input == if isMouseUsed then None
        else Some(Classify(isLeftButtonDown, isRightButtonDown, old(wasLeftButtonDown), old(wasRightButtonDown), old(leftClicks), old(rightClicks)))
      ensures wasLeftButtonDown == isLeftButtonDown && wasRightButtonDown == isRightButtonDown
      ensures leftClicks == 0 && rightClicks == 0
      ensures player.useTimeLeft == Countdown(old(player.useTimeLeft))
      ensures (isJumping, hasJumped) == JumpFrame(jump, body.timeOffGround, body.maxJumpTime, old(isJumping), old(hasJumped))
      ensures body.accel == Point(
        (if right then body.dAccel.x else 0.0) - (if left then body.dAccel.x else 0.0),
        (if isJumping then body.dAccel.y else 0.0) + (if up then body.dAccel.y else 0.0))
      ensures body.collidePlatforms == !down
    {
      input := ReadInput(state, isMouseUsed);
      UpdatePlayer(player, body);
    }
  }

  /** Every key of the settings indexes the keyboard state. */
  predicate KeysIn(keys: KeySettings, size: int)
  {
    (forall i :: 0 <= i < |keys.leftKeys| ==> 0 <= keys.leftKeys[i] < size) &&
    (forall i :: 0 <= i < |keys.rightKeys| ==> 0 <= keys.rightKeys[i] < size) &&
    (forall i :: 0 <= i < |keys.upKeys| ==> 0 <= keys.upKeys[i] < size) &&
    (forall i :: 0 <= i < |keys.downKeys| ==> 0 <= keys.downKeys[i] < size) &&
    (forall i :: 0 <= i < |keys.jumpKeys| ==> 0 <= keys.jumpKeys[i] < size)
  }

  /** Which of left, right, up, down and jump are held. */
  function HeldKeys(state: seq<bool>, keys: KeySettings): (bool, bool, bool, bool, bool)
    requires KeysIn(keys, |state|)
  {
    (HeldIn(state, keys.leftKeys), HeldIn(state, keys.rightKeys), HeldIn(state, keys.upKeys),
     HeldIn(state, keys.downKeys), HeldIn(state, keys.jumpKeys))
  }

  /** Whether one of the keys is down in the state array. */
  predicate HeldIn(state: seq<bool>, keys: seq<int>)
    requires forall i :: 0 <= i < |keys| ==> 0 <= keys[i] < |state|
  {
    exists i :: 0 <= i < |keys| && state[keys[i]]
  }

  /** `isIn(key, keys)`. */
  method IsIn(key: int, keys: seq<int>) returns (found: bool)
    ensures found <==> key in keys
  {
    var i := 0;
    while i < |keys|
      invariant 0 <= i <= |keys| && key !in keys[..i]
    {
      if keys[i] == key {
        return true;
      }
      i := i + 1;
    }
    assert keys[..i] == keys;
    return false;
  }

  /** `isHeld(state, keys)`. */
  method IsHeld(state: seq<bool>, keys: seq<int>) returns (held: bool)
    requires forall i :: 0 <= i < |keys| ==> 0 <= keys[i] < |state|
    ensures held == HeldIn(state, keys)
  {
    var i := 0;
    while i < |keys|
      invariant 0 <= i <= |keys| && forall j :: 0 <= j < i ==> !state[keys[j]]
    {
      if state[keys[i]] {
        return true;
      }
      i := i + 1;
    }
    return false;
  }

  /** `updateMouseBoxes(boxes)`: answers whether a box holds the mouse, and the tapped boxes. */
  method UpdateMouseBoxes(boxes: seq<MouseBox>, p: Pointer) returns (answer: bool, tapped: seq<MouseBox>)
    ensures answer == AnyHolds(boxes, p) && tapped == TapAll(boxes, p)
  {
    answer := false;
    tapped := boxes;
    var i := 0;
    while i < |tapped|
      invariant 0 <= i <= |tapped| == |boxes|
      invariant forall k :: 0 <= k < i ==> tapped[k] == Tapped(boxes[k], p).1
      invariant forall k :: i <= k < |boxes| ==> tapped[k] == boxes[k]
      invariant answer <==> exists k :: 0 <= k < i && InRect(boxes[k].x, boxes[k].y, boxes[k].w, boxes[k].h, p.x, p.y)
    {
      var (inside, box) := Tapped(tapped[i], p);
      if inside {
        answer := true;
      }
      tapped := tapped[i := box];
      i := i + 1;
    }
  }

  /** `updateInventoryClickBoxes(inventory)`, on the inventory's rows of boxes. */
  method UpdateInventoryClickBoxes(grid: seq<seq<MouseBox>>, p: Pointer) returns (answer: bool, tapped: seq<seq<MouseBox>>)
    ensures (answer, tapped) == TapRows(grid, p, |grid|)
  {
    answer := false;
    tapped := grid;
    var i := 0;
    while i < |grid|
      invariant 0 <= i <= |grid| && (answer, tapped) == TapRows(grid, p, i)
    {
      if !answer {
        var row;
        answer, row := UpdateMouseBoxes(tapped[i], p);
        tapped := tapped[i := row];
      }
      i := i + 1;
    }
  }
}
