/**
 * `Inventory` (`Inventory.cc`): a rows × cols grid of item pointers with
 * one `MouseBox` per slot. The item pointers are `ActionRef`s; which
 * object a slot holds is what matters, so a slot is `Option<ActionRef>`
 * (`None` is NULL).
 */
module Inventories {
  import opened Actions
  import opened MouseBoxes

  /** The size of the square sprite every slot is drawn with. */
  const SQUARE_WIDTH: int := 32
  const SQUARE_HEIGHT: int := 32

  type Slot = Option<ActionRef>
  type Slots = seq<seq<Slot>>

  /** Every row has `cols` entries. */
  predicate Rectangular<T>(grid: seq<seq<T>>, cols: int)
  {
    forall r :: 0 <= r < |grid| ==> |grid[r]| == cols
  }

  /** The grid's slots, row after row. */
  function Flatten<T>(grid: seq<seq<T>>): seq<T>
  {
    if |grid| == 0 then [] else grid[0] + Flatten(grid[1..])
  }

  /** The grid with the slot at (row, col) holding `v`. */
  function SetSlot(items: Slots, row: int, col: int, v: Slot): (items': Slots)
    requires 0 <= row < |items| && 0 <= col < |items[row]|
    ensures |items'| == |items| && forall r :: 0 <= r < |items| ==> |items'[r]| == |items[r]|
  {
    items[row := items[row][col := v]]
  }

  /** All slots strictly before (row, col) in row-major order are occupied. */
  predicate FullBefore(items: Slots, row: int, col: int)
  {
    forall r, c :: 0 <= r < |items| && 0 <= c < |items[r]| && (r < row || (r == row && c < col)) ==> items[r][c].Some?
  }

  /** What the slot grid holds, and whether the drawn sprite is up to date. */
  datatype Stock = Stock(items: Slots, spriteUpdated: bool)

  /**
   * `add`: an empty slot takes the argument (even NULL) and answers NULL;
   * an occupied slot stays as it is and answers the argument back (NULL
   * for NULL), since adding to a stack is not implemented.
   */
  function AddResult(s: Stock, item: Slot, row: int, col: int): (r: (Stock, Slot))
    requires 0 <= row < |s.items| && 0 <= col < |s.items[row]|
    ensures r.1 == None || r.1 == item
    ensures r.1.Some? ==> r.0 == s
  {
    if s.items[row][col].None? then (Stock(SetSlot(s.items, row, col, item), false), None)
    else if item.None? then (s, None)
    else (s, item)
  }

  /** `s'` is `s` with `item` stored in the first empty slot in row-major order. */
  predicate StoredAtFirstFree(s: Stock, s': Stock, item: Slot)
  {
    exists r, c ::
      0 <= r < |s.items| && 0 <= c < |s.items[r]| && s.items[r][c].None? && FullBefore(s.items, r, c) &&
      s' == Stock(SetSlot(s.items, r, c, item), false)
  }

  /** `pickup`'s scan from (row, col) on, trying `add` at each slot of a `width`-wide grid. */
  function PickupFrom(s: Stock, width: nat, item: Slot, row: nat, col: nat): (r: (Stock, Slot))
    requires Rectangular(s.items, width) && col <= width
    ensures r.1 == None || r.1 == item
    ensures r.1.Some? ==> r.0 == s
    ensures Rectangular(r.0.items, width) && |r.0.items| == |s.items|
    decreases |s.items| - row, width - col
  {
    if row >= |s.items| then (s, item)
    else if col == width then PickupFrom(s, width, item, row + 1, 0)
    else
      var (s', rest) := AddResult(s, item, row, col);
      if rest.None? then (s', None)
      else
        assert s' == s;
        PickupFrom(s', width, rest, row, col + 1)
  }

  /**
   * `pickup` of a non-null item: it lands in the first empty slot in
   * row-major order and NULL comes back; if no slot is empty, the item
   * comes back and nothing changes.
   */
  lemma {:induction false} PickupFromMeaning(s: Stock, width: nat, item: Slot, row: nat, col: nat)
    requires Rectangular(s.items, width) && col <= width && item.Some?
    requires FullBefore(s.items, row, col)
    ensures var (s', rest) := PickupFrom(s, width, item, row, col);
      (rest.None? ==> StoredAtFirstFree(s, s', item)) &&
      (rest.Some? ==> rest == item && s' == s && FullBefore(s.items, |s.items|, 0))
    decreases |s.items| - row, width - col
  {
    if row >= |s.items| {
    } else if col == width {
      PickupFromMeaning(s, width, item, row + 1, 0);
    } else if s.items[row][col].None? {
      assert FullBefore(s.items, row, col);
    } else {
      PickupFromMeaning(s, width, item, row, col + 1);
    }
  }

  /** `pickup` of NULL answers NULL; only an empty first slot is rewritten, with NULL. */
  lemma {:induction false} PickupNullFrom(s: Stock, width: nat, row: nat, col: nat)
    requires Rectangular(s.items, width) && col <= width
    ensures var (s', rest) := PickupFrom(s, width, None, row, col);
      rest.None? && s'.items == s.items && (s'.spriteUpdated ==> s.spriteUpdated)
    decreases |s.items| - row, width - col
  {
    if row >= |s.items| {
    } else if col == width {
      PickupNullFrom(s, width, row + 1, 0);
    } else if s.items[row][col].None? {
      assert s.items[row][col := None] == s.items[row];
    }
  }

  /** The flattened grid is the rows before `r`, row `r`, and the rows after it. */
  lemma {:induction false} FlattenSplit<T>(grid: seq<seq<T>>, r: int)
    requires 0 <= r < |grid|
    ensures Flatten(grid) == Flatten(grid[..r]) + grid[r] + Flatten(grid[r + 1..])
  {
    if r == 0 {
      assert grid[..0] == [];
    } else {
      FlattenSplit(grid[1..], r - 1);
      assert grid[1..][..r - 1] == grid[1..r];
      assert grid[1..][r - 1 + 1..] == grid[r + 1..];
      assert grid[..r][1..] == grid[1..r];
    }
  }

  /** Rewriting one slot trades its old content for the new one in the grid's multiset. */
  lemma SetSlotSwaps(items: Slots, row: int, col: int, v: Slot)
    requires 0 <= row < |items| && 0 <= col < |items[row]|
    ensures multiset(Flatten(SetSlot(items, row, col, v))) + multiset{items[row][col]} ==
      multiset(Flatten(items)) + multiset{v}
  {
    var items' := SetSlot(items, row, col, v);
    FlattenSplit(items, row);
    FlattenSplit(items', row);
    assert items'[..row] == items[..row];
    assert items'[row + 1..] == items[row + 1..];
    var line := items[row];
    assert line == line[..col] + [line[col]] + line[col + 1..];
    assert items'[row] == line[..col] + [v] + line[col + 1..];
  }

  /**
   * `add` never loses or invents an item: what the grid holds plus what
   * comes back is what it held plus what was offered.
   */
  lemma AddKeepsItems(s: Stock, item: Slot, row: int, col: int)
    requires 0 <= row < |s.items| && 0 <= col < |s.items[row]|
    ensures var (s', rest) := AddResult(s, item, row, col);
      multiset(Flatten(s'.items)) + multiset{rest} == multiset(Flatten(s.items)) + multiset{item}
  {
    if s.items[row][col].None? {
      SetSlotSwaps(s.items, row, col, item);
    }
  }

  /**
   * `pickup` never loses or invents an item: what the grid holds plus
   * what comes back is what it held plus what was offered, NULLs
   * included.
   */
  lemma PickupKeepsItems(s: Stock, width: nat, item: Slot)
    requires Rectangular(s.items, width)
    ensures var (s', rest) := PickupFrom(s, width, item, 0, 0);
      multiset(Flatten(s'.items)) + multiset{rest} == multiset(Flatten(s.items)) + multiset{item}
  {
    if item.None? {
      PickupNullFrom(s, width, 0, 0);
    } else {
      PickupFromMeaning(s, width, item, 0, 0);
      var (s', rest) := PickupFrom(s, width, item, 0, 0);
      if rest.None? {
        var r, c :| 0 <= r < |s.items| && 0 <= c < |s.items[r]| && s.items[r][c].None? && FullBefore(s.items, r, c) &&
          s' == Stock(SetSlot(s.items, r, c, item), false);
        SetSlotSwaps(s.items, r, c, item);
      }
    }
  }

  /** The slots, their boxes and the mouse's pointer, as `update(mouse)` sees them. */
  datatype UiState = UiState(stock: Stock, boxes: seq<seq<MouseBox>>, mouse: Slot)

  predicate Shaped(u: UiState, width: nat)
  {
    Rectangular(u.stock.items, width) && |u.boxes| == |u.stock.items| && Rectangular(u.boxes, width)
  }

  /**
   * `update(mouse)` at one box. A fresh press is consumed; then a mouse
   * holding a non-item aborts the row (the second component is true),
   * and otherwise the mouse and the slot swap, followed by `add` of what
   * the mouse now holds into the (now occupied) slot.
   */
  function UseBox(u: UiState, width: nat, row: nat, col: nat): (r: (UiState, bool))
    requires Shaped(u, width) && row < |u.boxes| && col < width
    ensures Shaped(r.0, width) && |r.0.boxes| == |u.boxes|
  {
    var box := u.boxes[row][col];
    if !Clicked(box) then (u, false)
    else
      var boxes := u.boxes[row := u.boxes[row][col := box.(wasClicked := false)]];
      if u.mouse.Some? && !u.mouse.value.isItem then (u.(boxes := boxes), true)
      else
        var items := SetSlot(u.stock.items, row, col, u.mouse);
        var held := u.stock.items[row][col];
        if items[row][col].Some? then
          var (stock, rest) := AddResult(Stock(items, false), held, row, col);
          (UiState(stock, boxes, rest), false)
        else (UiState(Stock(items, false), boxes, held), false)
  }

  /** The inner loop of `update(mouse)` from column `col` of `row`, up to the end or a `break`. */
  function RowFrom(u: UiState, width: nat, row: nat, col: nat): (u': UiState)
    requires Shaped(u, width) && row < |u.boxes| && col <= width
    ensures Shaped(u', width) && |u'.boxes| == |u.boxes|
    decreases width - col
  {
    if col == width then u
    else
      var (u', abort) := UseBox(u, width, row, col);
      if abort then u' else RowFrom(u', width, row, col + 1)
  }

  /** `update(mouse)` over the first `rows` rows. */
  function RowsUpTo(u: UiState, width: nat, rows: nat): (u': UiState)
    requires Shaped(u, width) && rows <= |u.boxes|
    ensures Shaped(u', width) && |u'.boxes| == |u.boxes|
  {
    if rows == 0 then u else RowFrom(RowsUpTo(u, width, rows - 1), width, rows - 1, 0)
  }

  /** The multiset of pointers in the slots and the mouse. */
  function Held(u: UiState): multiset<Slot>
  {
    multiset(Flatten(u.stock.items)) + multiset{u.mouse}
  }

  lemma UseBoxKeepsItems(u: UiState, width: nat, row: nat, col: nat)
    requires Shaped(u, width) && row < |u.boxes| && col < width
    ensures Held(UseBox(u, width, row, col).0) == Held(u)
  {
    var box := u.boxes[row][col];
    if Clicked(box) && !(u.mouse.Some? && !u.mouse.value.isItem) {
      SetSlotSwaps(u.stock.items, row, col, u.mouse);
      var items: Slots := SetSlot(u.stock.items, row, col, u.mouse);
      if u.mouse.Some? {
        AddKeepsItems(Stock(items, false), u.stock.items[row][col], row, col);
      }
    }
  }

  lemma {:induction false} RowFromKeepsItems(u: UiState, width: nat, row: nat, col: nat)
    requires Shaped(u, width) && row < |u.boxes| && col <= width
    ensures Held(RowFrom(u, width, row, col)) == Held(u)
    decreases width - col
  {
    if col < width {
      UseBoxKeepsItems(u, width, row, col);
      var (u', abort) := UseBox(u, width, row, col);
      if !abort {
        RowFromKeepsItems(u', width, row, col + 1);
      }
    }
  }

  /**
   * `update(mouse)` only moves pointers between the slots and the mouse:
   * the multiset of grid + mouse stays the same.
   */
  lemma {:induction false} UpdateKeepsItems(u: UiState, width: nat, rows: nat)
    requires Shaped(u, width) && rows <= |u.boxes|
    ensures Held(RowsUpTo(u, width, rows)) == Held(u)
  {
    if rows > 0 {
      UpdateKeepsItems(u, width, rows - 1);
      RowFromKeepsItems(RowsUpTo(u, width, rows - 1), width, rows - 1, 0);
    }
  }

  /**
   * The `break` leaves only the inner loop: with a non-item on the mouse
   * and fresh presses on both slots of a row, the first press is consumed,
   * the second stays pending and no slot changes.
   */
  lemma BreakSkipsRestOfRow(skill: ActionRef, box: MouseBox)
    requires !skill.isItem && Clicked(box)
    ensures var u := UiState(Stock([[None, None]], true), [[box, box]], Some(skill));
      var u' := RowsUpTo(u, 2, 1);
      u'.stock == u.stock && u'.mouse == u.mouse &&
      !u'.boxes[0][0].wasClicked && u'.boxes[0][1] == box
  {
    var u := UiState(Stock([[None, None]], true), [[box, box]], Some(skill));
    var u1 := UseBox(u, 2, 0, 0);
    assert u1.1;
    assert RowFrom(u, 2, 0, 0) == u1.0;
  }

  /** The box at (row, col) as `updateClickBoxes` leaves it, for an inventory at (x, y). */
  function PlacedBox(box: MouseBox, x: int, y: int, row: int, col: int): MouseBox
  {
    box.(x := x + col * SQUARE_WIDTH, y := y + row * SQUARE_HEIGHT, w := SQUARE_WIDTH, h := SQUARE_HEIGHT,
      wasClicked := false, containsMouse := false)
  }

  /**
   * A point of the inventory's area lies in exactly one placed box: the
   * one in row (py - y) / 32 and column (px - x) / 32.
   */
  lemma PlacedBoxesTile(box: MouseBox, x: int, y: int, row: int, col: int, px: int, py: int)
    requires px >= x && py >= y
    ensures var b := PlacedBox(box, x, y, row, col);
      InRect(b.x, b.y, b.w, b.h, px, py) <==> row == (py - y) / SQUARE_HEIGHT && col == (px - x) / SQUARE_WIDTH
  {
    var b := PlacedBox(box, x, y, row, col);
    var dx, dy := px - x, py - y;
    if InRect(b.x, b.y, b.w, b.h, px, py) {
      assert col * 32 <= dx < col * 32 + 32;
      assert row * 32 <= dy < row * 32 + 32;
      DivInStrip(dx, col);
      DivInStrip(dy, row);
    } else if row == dy / 32 && col == dx / 32 {
      assert false;
    }
  }

  lemma DivInStrip(d: int, k: int)
    requires k * 32 <= d < k * 32 + 32
    ensures d / 32 == k
  {
  }

  class Inventory {
    var items: Slots
    var clickBoxes: seq<seq<MouseBox>>
    var x: int
    var y: int
    var isSpriteUpdated: bool

    ghost predicate Valid()
      reads this
    {
      |items| > 0 && Rectangular(items, |items[0]|) &&
      |clickBoxes| == |items| && Rectangular(clickBoxes, |items[0]|)
    }

    /** `getWidth`: the number of columns (the first row's length). */
    function GetWidth(): nat
      reads this
      requires |items| > 0
    {
      |items[0]|
    }

    /** `getHeight`: the number of rows. */
    function GetHeight(): nat
      reads this
    {
      |items|
    }

    function Snapshot(mouse: Slot): UiState
      reads this
    {
      UiState(Stock(items, isSpriteUpdated), clickBoxes, mouse)
    }

    /**
     * The constructor: a `rows` × `cols` grid of NULL slots at (0, 0),
     * with its boxes placed by `updateClickBoxes`. A grid without rows
     * fails the assertion in `getWidth`.
     */
    constructor(cols: nat, rows: nat)
      requires rows > 0
      ensures Valid() && GetHeight() == rows && GetWidth() == cols
      ensures forall r, c :: 0 <= r < rows && 0 <= c < cols ==> items[r][c].None?
      ensures x == 0 && y == 0 && !isSpriteUpdated
      ensures forall r, c :: 0 <= r < rows && 0 <= c < cols ==> clickBoxes[r][c] == PlacedBox(EMPTY_BOX, 0, 0, r, c)
    {
      x, y := 0, 0;
      items := seq(rows, _ => seq(cols, _ => None));
      clickBoxes := seq(rows, _ => seq(cols, _ => EMPTY_BOX));
      isSpriteUpdated := false;
      new;
      UpdateClickBoxes();
    }

    /** `touch`: the drawn sprite is marked stale. */
    method Touch()
      modifies this`isSpriteUpdated
      ensures !isSpriteUpdated
    {
      isSpriteUpdated := false;
    }

    /** `getItem`: the pointer in the slot. */
    function GetItem(row: int, col: int): Slot
      reads this
      requires Valid() && 0 <= row < GetHeight() && 0 <= col < GetWidth()
    {
      items[row][col]
    }

    /** `setItem`: the slot takes the pointer and the sprite goes stale. */
    method SetItem(item: Slot, row: int, col: int)
      requires Valid() && 0 <= row < GetHeight() && 0 <= col < GetWidth()
      modifies this
      ensures Valid() && items == SetSlot(old(items), row, col, item) && GetItem(row, col) == item
      ensures clickBoxes == old(clickBoxes) && x == old(x) && y == old(y) && !isSpriteUpdated
    {
      items := items[row := items[row][col := item]];
      isSpriteUpdated := false;
    }

    /** `add`. */
    method Add(item: Slot, row: int, col: int) returns (rest: Slot)
      requires Valid() && 0 <= row < GetHeight() && 0 <= col < GetWidth()
      modifies this
      ensures Valid() && (Stock(items, isSpriteUpdated), rest) == AddResult(old(Stock(items, isSpriteUpdated)), item, row, col)
      ensures clickBoxes == old(clickBoxes) && x == old(x) && y == old(y)
    {
      if items[row][col].None? {
        SetItem(item, row, col);
        isSpriteUpdated := false;
        return None;
      }
      if item.None? {
        return None;
      }
      // Items of one type would stack here; stacking is not written yet,
      // so the item comes back whatever its type.
      return item;
    }

    /** `pickup`: the scan over rows and columns, stopping at the first `add` that answers NULL. */
    method Pickup(item: Slot) returns (rest: Slot)
      requires Valid()
      modifies this
      ensures Valid() && (Stock(items, isSpriteUpdated), rest) == PickupFrom(old(Stock(items, isSpriteUpdated)), old(GetWidth()), item, 0, 0)
      ensures clickBoxes == old(clickBoxes) && x == old(x) && y == old(y)
    {
      ghost var width := GetWidth();
      ghost var result := PickupFrom(Stock(items, isSpriteUpdated), width, item, 0, 0);
      rest := item;
      var row := 0;
      while row < GetHeight()
        invariant Valid() && GetWidth() == width && 0 <= row <= GetHeight()
        invariant PickupFrom(Stock(items, isSpriteUpdated), width, rest, row, 0) == result
        invariant clickBoxes == old(clickBoxes) && x == old(x) && y == old(y)
      {
        var col := 0;
        while col < GetWidth()
          invariant Valid() && GetWidth() == width && 0 <= col <= width
          invariant PickupFrom(Stock(items, isSpriteUpdated), width, rest, row, col) == result
          invariant clickBoxes == old(clickBoxes) && x == old(x) && y == old(y)
        {
          rest := Add(rest, row, col);
          if rest.None? {
            return None;
          }
          col := col + 1;
        }
        row := row + 1;
      }
      return rest;
    }

    /** One box of `update(mouse)`: the body of its inner loop. */
    method UseBoxAt(mouse: Slot, row: int, col: int) returns (mouse': Slot, abort: bool)
      requires Valid() && 0 <= row < GetHeight() && 0 <= col < GetWidth()
      modifies this
      ensures Valid() && GetWidth() == old(GetWidth()) && x == old(x) && y == old(y)
      ensures (Snapshot(mouse'), abort) == UseBox(old(Snapshot(mouse)), old(GetWidth()), row, col)
    {
      mouse' := mouse;
      abort := false;
      var box := clickBoxes[row][col];
      if Clicked(box) {
        clickBoxes := clickBoxes[row := clickBoxes[row][col := box.(wasClicked := false)]];
        if mouse'.Some? && !mouse'.value.isItem {
          return mouse', true;
        }
        isSpriteUpdated := false;
        var item := mouse';
        mouse' := items[row][col];
        items := items[row := items[row][col := item]];
        if items[row][col].Some? {
          mouse' := Add(mouse', row, col);
        }
      }
    }

    /** `update(mouse)`: answers the pointer the mouse holds afterwards. */
    method Update(mouse: Slot) returns (mouse': Slot)
      requires Valid()
      modifies this
      ensures Valid() && x == old(x) && y == old(y)
      ensures Snapshot(mouse') == RowsUpTo(old(Snapshot(mouse)), old(GetWidth()), old(GetHeight()))
    {
      ghost var start := Snapshot(mouse);
      ghost var width := GetWidth();
      mouse' := mouse;
      var row := 0;
      while row < GetHeight()
        invariant Valid() && GetWidth() == width && GetHeight() == |start.boxes| && 0 <= row <= GetHeight()
        invariant x == old(x) && y == old(y)
        invariant Snapshot(mouse') == RowsUpTo(start, width, row)
      {
        ghost var rowStart := Snapshot(mouse');
        var col := 0;
        while col < GetWidth()
          invariant Valid() && GetWidth() == width && GetHeight() == |start.boxes| && 0 <= col <= width
          invariant x == old(x) && y == old(y)
          invariant RowFrom(Snapshot(mouse'), width, row, col) == RowFrom(rowStart, width, row, 0)
        {
          var abort;
          mouse', abort := UseBoxAt(mouse', row, col);
          if abort {
            break;
          }
          col := col + 1;
        }
        row := row + 1;
      }
    }

    /** The boxes of one row, placed from `newY` down and `x` across. */
    method PlaceRow(row: int, newY: int)
      requires Valid() && 0 <= row < GetHeight() && newY == y + row * SQUARE_HEIGHT
      modifies this
      ensures Valid() && items == old(items) && x == old(x) && y == old(y) && isSpriteUpdated == old(isSpriteUpdated)
      ensures forall r :: 0 <= r < GetHeight() && r != row ==> clickBoxes[r] == old(clickBoxes[r])
      ensures forall c :: 0 <= c < GetWidth() ==> clickBoxes[row][c] == PlacedBox(old(clickBoxes[row][c]), x, y, row, c)
    {
      ghost var line := clickBoxes[row];
      var newX := x;
      var col := 0;
      while col < GetWidth()
        invariant Valid() && items == old(items) && x == old(x) && y == old(y) && isSpriteUpdated == old(isSpriteUpdated)
        invariant 0 <= col <= GetWidth() && newX == x + col * SQUARE_WIDTH
        invariant forall r :: 0 <= r < |clickBoxes| && r != row ==> clickBoxes[r] == old(clickBoxes[r])
        invariant forall c :: 0 <= c < col ==> clickBoxes[row][c] == PlacedBox(line[c], x, y, row, c)
        invariant forall c :: col <= c < GetWidth() ==> clickBoxes[row][c] == line[c]
      {
        var box := clickBoxes[row][col];
        box := box.(w := SQUARE_WIDTH, h := SQUARE_HEIGHT, x := newX, y := newY);
        box := box.(wasClicked := false, containsMouse := false);
        clickBoxes := clickBoxes[row := clickBoxes[row][col := box]];
        newX := newX + SQUARE_WIDTH;
        col := col + 1;
      }
    }

    /** `updateClickBoxes`: the box of slot (row, col) becomes the 32 × 32 square at (x + 32 col, y + 32 row). */
    method UpdateClickBoxes()
      requires Valid()
      modifies this
      ensures Valid() && items == old(items) && x == old(x) && y == old(y) && isSpriteUpdated == old(isSpriteUpdated)
      ensures forall r, c :: 0 <= r < GetHeight() && 0 <= c < GetWidth() ==>
        clickBoxes[r][c] == PlacedBox(old(clickBoxes[r][c]), x, y, r, c)
    {
      var newY := y;
      var row := 0;
      while row < GetHeight()
        invariant Valid() && items == old(items) && x == old(x) && y == old(y) && isSpriteUpdated == old(isSpriteUpdated)
        invariant 0 <= row <= GetHeight() && newY == y + row * SQUARE_HEIGHT
        invariant forall r, c :: 0 <= r < row && 0 <= c < GetWidth() ==> clickBoxes[r][c] == PlacedBox(old(clickBoxes[r][c]), x, y, r, c)
        invariant forall r :: row <= r < GetHeight() ==> clickBoxes[r] == old(clickBoxes[r])
      {
        PlaceRow(row, newY);
        newY := newY + SQUARE_HEIGHT;
        row := row + 1;
      }
    }
  }
}
