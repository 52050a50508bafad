/**
 * The deterministic passes of world generation as pure functions on the
 * grid. Each pass is the fold of `SetType` in the order the generator's
 * loops visit the cells; a lemma beside each says what the pass does to
 * every cell of the map.
 */
module GenPasses {
  import opened Tiles
  import opened MapHelpers
  import opened MapCells

  /** Setting one layer of one cell changes that cell only. */
  lemma SetTypeCell(g: Grid, x: int, y: int, layer: MapLayer, t: TileType, x': int, y': int)
    requires WellFormed(g) && 0 <= y < g.height && IsDrawLayer(layer) && 0 <= y' < g.height
    ensures SetType(g, x, y, layer, t).cells[Index(g, x', y')] ==
      if y' == y && Wrap(x', g.width) == Wrap(x, g.width) then WithLayerType(g.cells[Index(g, x', y')], layer, t)
      else g.cells[Index(g, x', y')]
  {
    CellIndexInjective(g.width, g.height, x, y, x', y');
  }

  /** Setting a cell of column x leaves every foreground type of any other row of any column as it was. */
  lemma SetTypeOtherRow(g: Grid, x: int, y: int, layer: MapLayer, t: TileType, x': int, r: int)
    requires WellFormed(g) && 0 <= y < g.height && IsDrawLayer(layer) && 0 <= x' < g.width && r != y
    ensures TypeAt(SetType(g, x, y, layer, t), x', r, Foreground) == TypeAt(g, x', r, Foreground)
  {
    if 0 <= r < g.height {
      SetTypeOnlyChanges(g, x, y, layer, t, x', r, Foreground);
    }
  }

  // ---------------------------------------------------------------------
  // fillWater
  // ---------------------------------------------------------------------

  /** Rows [start, j) of column x set to WATER, lowest first: `fillWater`'s inner loop. */
  function FilledColumn(g: Grid, x: int, start: int, j: int): (g': Grid)
    requires WellFormed(g) && 0 <= start && j <= g.height
    ensures WellFormed(g') && g'.width == g.width && g'.height == g.height
    decreases j - start
  {
    if j <= start then g else SetType(FilledColumn(g, x, start, j - 1), x, j - 1, Foreground, WATER)
  }

  /** `fillWater(depth)` over the columns [0, i). */
  function Filled(g: Grid, depth: int, i: int): (g': Grid)
    requires WellFormed(g) && depth <= g.height && 0 <= i <= g.width
    ensures WellFormed(g') && g'.width == g.width && g'.height == g.height
  {
    if i == 0 then g else FilledColumn(Filled(g, depth, i - 1), i - 1, g.height - depth, g.height)
  }

  lemma {:induction false} FilledColumnCell(g: Grid, x: int, start: int, j: int, x': int, y': int)
    requires WellFormed(g) && 0 <= start && j <= g.height
    requires 0 <= x < g.width && 0 <= x' < g.width && 0 <= y' < g.height
    ensures FilledColumn(g, x, start, j).cells[Index(g, x', y')] ==
      if x' == x && start <= y' < j then WithLayerType(g.cells[Index(g, x', y')], Foreground, WATER)
      else g.cells[Index(g, x', y')]
    decreases j - start
  {
    if j > start {
      FilledColumnCell(g, x, start, j - 1, x', y');
      SetTypeCell(FilledColumn(g, x, start, j - 1), x, j - 1, Foreground, WATER, x', y');
    }
  }

  /**
   * After `fillWater(depth)`, the top `depth` rows hold WATER in the
   * foreground and every other cell, and every other part of those
   * cells, is as it was; a negative depth fills nothing.
   */
  lemma {:induction false} FilledCell(g: Grid, depth: int, i: int, x: int, y: int)
    requires WellFormed(g) && depth <= g.height && 0 <= i <= g.width
    requires 0 <= x < g.width && 0 <= y < g.height
    ensures Filled(g, depth, i).cells[Index(g, x, y)] ==
      if x < i && y >= g.height - depth then WithLayerType(g.cells[Index(g, x, y)], Foreground, WATER)
      else g.cells[Index(g, x, y)]
  {
    if i > 0 {
      FilledCell(g, depth, i - 1, x, y);
      FilledColumnCell(Filled(g, depth, i - 1), i - 1, g.height - depth, g.height, x, y);
    }
  }

  // ---------------------------------------------------------------------
  // The ocean fill of generateEarth
  // ---------------------------------------------------------------------

  /** Rows lo..hi of column x are all EMPTY in the foreground (rows off the map count as EMPTY). */
  predicate ClearDown(g: Grid, x: int, lo: int, hi: int)
    requires WellFormed(g)
  {
    forall r :: lo <= r <= hi ==> TypeAt(g, x, r, Foreground) == EMPTY
  }

  /**
   * The ocean loop on column x from row j down: it stops at the first
   * non-EMPTY cell, and fills the EMPTY cells it passes below `seaLevel`.
   */
  function OceanColumn(g: Grid, x: int, j: int, seaLevel: int): (g': Grid)
    requires WellFormed(g) && seaLevel <= g.height
    ensures WellFormed(g') && g'.width == g.width && g'.height == g.height
    decreases if j < 0 then 0 else j + 1
  {
    if j < 0 || TypeAt(g, x, j, Foreground) != EMPTY then g
    else OceanColumn(if j < seaLevel then SetType(g, x, j, Foreground, WATER) else g, x, j - 1, seaLevel)
  }

  /** The ocean loop over the columns [0, i), each scanned from row `top` down. */
  function Ocean(g: Grid, top: int, seaLevel: int, i: int): (g': Grid)
    requires WellFormed(g) && seaLevel <= g.height && 0 <= i <= g.width
    ensures WellFormed(g') && g'.width == g.width && g'.height == g.height
  {
    if i == 0 then g else OceanColumn(Ocean(g, top, seaLevel, i - 1), i - 1, top, seaLevel)
  }

  lemma {:induction false} OceanColumnCell(g: Grid, x: int, j: int, seaLevel: int, x': int, y': int)
    requires WellFormed(g) && seaLevel <= g.height
    requires 0 <= x < g.width && 0 <= x' < g.width && 0 <= y' < g.height
    ensures OceanColumn(g, x, j, seaLevel).cells[Index(g, x', y')] ==
      if x' == x && y' <= j && y' < seaLevel && ClearDown(g, x, y', j)
      then WithLayerType(g.cells[Index(g, x', y')], Foreground, WATER)
      else g.cells[Index(g, x', y')]
    decreases if j < 0 then 0 else j + 1
  {
    if j < 0 {
    } else if TypeAt(g, x, j, Foreground) != EMPTY {
      assert y' <= j ==> !ClearDown(g, x, y', j);
    } else {
      var g1 := if j < seaLevel then SetType(g, x, j, Foreground, WATER) else g;
      OceanColumnCell(g1, x, j - 1, seaLevel, x', y');
      forall r | r <= j - 1
        ensures TypeAt(g1, x, r, Foreground) == TypeAt(g, x, r, Foreground)
      {
        if j < seaLevel {
          SetTypeOtherRow(g, x, j, Foreground, WATER, x, r);
        }
      }
      assert ClearDown(g1, x, y', j - 1) == ClearDown(g, x, y', j - 1);
      assert ClearDown(g, x, y', j) == ClearDown(g, x, y', j - 1);
      if j < seaLevel {
        SetTypeCell(g, x, j, Foreground, WATER, x', y');
      }
    }
  }

  /**
   * The ocean fill: in every column, the cells at or below `top` and below
   * `seaLevel` that have only EMPTY cells from them up to `top` become
   * WATER in the foreground; every other cell is as it was.
   */
  lemma {:induction false} OceanCell(g: Grid, top: int, seaLevel: int, i: int, x: int, y: int)
    requires WellFormed(g) && seaLevel <= g.height && 0 <= i <= g.width
    requires 0 <= x < g.width && 0 <= y < g.height
    ensures Ocean(g, top, seaLevel, i).cells[Index(g, x, y)] ==
      if x < i && y <= top && y < seaLevel && ClearDown(g, x, y, top)
      then WithLayerType(g.cells[Index(g, x, y)], Foreground, WATER)
      else g.cells[Index(g, x, y)]
    decreases i, 1
  {
    if i > 0 {
      var c := i - 1;
      var g2 := Ocean(g, top, seaLevel, c);
      OceanCell(g, top, seaLevel, c, x, y);
      OceanColumnCell(g2, c, top, seaLevel, x, y);
      ColumnUntouched(g, top, seaLevel, c, c);
      assert ClearDown(g2, c, y, top) == ClearDown(g, c, y, top);
    }
  }

  /** Column x is not yet touched by the ocean loop over the columns before it. */
  lemma {:induction false} ColumnUntouched(g: Grid, top: int, seaLevel: int, i: int, x: int)
    requires WellFormed(g) && seaLevel <= g.height && 0 <= i <= x < g.width
    ensures forall r :: TypeAt(Ocean(g, top, seaLevel, i), x, r, Foreground) == TypeAt(g, x, r, Foreground)
    decreases i, 2
  {
    forall r
      ensures TypeAt(Ocean(g, top, seaLevel, i), x, r, Foreground) == TypeAt(g, x, r, Foreground)
    {
      if 0 <= r < g.height {
        OceanCell(g, top, seaLevel, i, x, r);
      }
    }
  }

  // ---------------------------------------------------------------------
  // removeWater
  // ---------------------------------------------------------------------

  /** Rows lo..hi of column x hold only EMPTY or WATER in the foreground. */
  predicate OnlyLiquid(g: Grid, x: int, lo: int, hi: int)
    requires WellFormed(g)
  {
    forall r :: lo <= r <= hi ==> TypeAt(g, x, r, Foreground) == EMPTY || TypeAt(g, x, r, Foreground) == WATER
  }

  /** The number of WATER cells in rows [lo, hi) of column x. */
  function WaterCount(g: Grid, x: int, lo: int, hi: int): (n: nat)
    requires WellFormed(g)
    ensures n <= if hi <= lo then 0 else hi - lo
    decreases hi - lo
  {
    if hi <= lo then 0 else WaterCount(g, x, lo, hi - 1) + (if TypeAt(g, x, hi - 1, Foreground) == WATER then 1 else 0)
  }

  /** Columns that read the same in rows [lo, hi) hold the same number of WATER cells there. */
  lemma {:induction false} WaterCountFrame(g: Grid, g1: Grid, x: int, lo: int, hi: int)
    requires WellFormed(g) && WellFormed(g1)
    requires forall r :: lo <= r < hi ==> TypeAt(g1, x, r, Foreground) == TypeAt(g, x, r, Foreground)
    ensures WaterCount(g1, x, lo, hi) == WaterCount(g, x, lo, hi)
    decreases hi - lo
  {
    if hi > lo {
      WaterCountFrame(g, g1, x, lo, hi - 1);
    }
  }

  /**
   * `removeWater`'s while loop on column x from row j down with
   * `toRemove` to go: WATER becomes EMPTY and counts, EMPTY is skipped,
   * any other tile stops the scan.
   */
  function RemoveColumn(g: Grid, x: int, j: int, toRemove: int): (g': Grid)
    requires WellFormed(g) && j < g.height
    ensures WellFormed(g') && g'.width == g.width && g'.height == g.height
    decreases if j < 0 then 0 else j + 1
  {
    if toRemove <= 0 || j < 0 then g
    else if TypeAt(g, x, j, Foreground) == WATER then RemoveColumn(SetType(g, x, j, Foreground, EMPTY), x, j - 1, toRemove - 1)
    else if TypeAt(g, x, j, Foreground) != EMPTY then g
    else RemoveColumn(g, x, j - 1, toRemove)
  }

  /** `removeWater(depth)` over the columns [0, i), each scanned from the top row. */
  function Removed(g: Grid, depth: int, i: int): (g': Grid)
    requires WellFormed(g) && 0 <= i <= g.width
    ensures WellFormed(g') && g'.width == g.width && g'.height == g.height
  {
    if i == 0 then g else RemoveColumn(Removed(g, depth, i - 1), i - 1, g.height - 1, depth)
  }

  /** The condition under which `removeWater` empties cell (x, y), scanning from row j with `toRemove` to go. */
  predicate RemovedHere(g: Grid, x: int, y: int, j: int, toRemove: int)
    requires WellFormed(g)
  {
    y <= j && TypeAt(g, x, y, Foreground) == WATER && OnlyLiquid(g, x, y + 1, j) &&
    WaterCount(g, x, y + 1, j + 1) < toRemove
  }

  lemma {:induction false} RemoveColumnCell(g: Grid, x: int, j: int, toRemove: int, x': int, y': int)
    requires WellFormed(g) && j < g.height
    requires 0 <= x < g.width && 0 <= x' < g.width && 0 <= y' < g.height
    ensures RemoveColumn(g, x, j, toRemove).cells[Index(g, x', y')] ==
      if x' == x && RemovedHere(g, x, y', j, toRemove)
      then WithLayerType(g.cells[Index(g, x', y')], Foreground, EMPTY)
      else g.cells[Index(g, x', y')]
    decreases if j < 0 then 0 else j + 1
  {
    if toRemove <= 0 || j < 0 {
    } else if TypeAt(g, x, j, Foreground) == WATER {
      var g1 := SetType(g, x, j, Foreground, EMPTY);
      RemoveColumnCell(g1, x, j - 1, toRemove - 1, x', y');
      SetTypeCell(g, x, j, Foreground, EMPTY, x', y');
      if y' < j {
        RemovedHereAfterWater(g, x, y', j, toRemove);
      }
    } else if TypeAt(g, x, j, Foreground) != EMPTY {
      assert y' < j ==> !OnlyLiquid(g, x, y' + 1, j);
    } else {
      RemoveColumnCell(g, x, j - 1, toRemove, x', y');
      assert y' < j ==> OnlyLiquid(g, x, y' + 1, j) == OnlyLiquid(g, x, y' + 1, j - 1);
    }
  }

  /** Below a WATER cell the scan removes, the condition is the one for the next row with one fewer to go. */
  lemma RemovedHereAfterWater(g: Grid, x: int, y: int, j: int, toRemove: int)
    requires WellFormed(g) && 0 <= y < j < g.height && 0 <= x < g.width
    requires TypeAt(g, x, j, Foreground) == WATER
    ensures RemovedHere(SetType(g, x, j, Foreground, EMPTY), x, y, j - 1, toRemove - 1) == RemovedHere(g, x, y, j, toRemove)
  {
    var g1 := SetType(g, x, j, Foreground, EMPTY);
    forall r | r < j
      ensures TypeAt(g1, x, r, Foreground) == TypeAt(g, x, r, Foreground)
    {
      SetTypeOtherRow(g, x, j, Foreground, EMPTY, x, r);
    }
    WaterCountFrame(g, g1, x, y + 1, j);
    assert OnlyLiquid(g1, x, y + 1, j - 1) == OnlyLiquid(g, x, y + 1, j - 1);
    assert OnlyLiquid(g, x, y + 1, j) == OnlyLiquid(g, x, y + 1, j - 1);
  }

  /** Columns that read the same everywhere give the same removal condition. */
  lemma RemovedHereFrame(g: Grid, g2: Grid, x: int, y: int, j: int, toRemove: int)
    requires WellFormed(g) && WellFormed(g2)
    requires forall r :: TypeAt(g2, x, r, Foreground) == TypeAt(g, x, r, Foreground)
    ensures RemovedHere(g2, x, y, j, toRemove) == RemovedHere(g, x, y, j, toRemove)
  {
    WaterCountFrame(g, g2, x, y + 1, j + 1);
    assert OnlyLiquid(g2, x, y + 1, j) == OnlyLiquid(g, x, y + 1, j);
  }

  /**
   * After `removeWater(depth)`, a cell is emptied exactly when it held
   * WATER, only EMPTY or WATER lies above it in its column, and fewer than
   * `depth` WATER cells lie above it; every other cell is as it was.
   */
  lemma {:induction false} RemovedCell(g: Grid, depth: int, i: int, x: int, y: int)
    requires WellFormed(g) && 0 <= i <= g.width
    requires 0 <= x < g.width && 0 <= y < g.height
    ensures Removed(g, depth, i).cells[Index(g, x, y)] ==
      if x < i && RemovedHere(g, x, y, g.height - 1, depth)
      then WithLayerType(g.cells[Index(g, x, y)], Foreground, EMPTY)
      else g.cells[Index(g, x, y)]
    decreases i, 1
  {
    if i > 0 {
      var c := i - 1;
      var g2 := Removed(g, depth, c);
      RemovedCell(g, depth, c, x, y);
      RemoveColumnCell(g2, c, g.height - 1, depth, x, y);
      RemovedUntouched(g, depth, c, c);
      RemovedHereFrame(g, g2, c, y, g.height - 1, depth);
    }
  }

  /** Column x is not yet touched by `removeWater`'s loop over the columns before it. */
  lemma {:induction false} RemovedUntouched(g: Grid, depth: int, i: int, x: int)
    requires WellFormed(g) && 0 <= i <= x < g.width
    ensures forall r :: TypeAt(Removed(g, depth, i), x, r, Foreground) == TypeAt(g, x, r, Foreground)
    decreases i, 2
  {
    forall r
      ensures TypeAt(Removed(g, depth, i), x, r, Foreground) == TypeAt(g, x, r, Foreground)
    {
      if 0 <= r < g.height {
        RemovedCell(g, depth, i, x, r);
      }
    }
  }

  /** A WATER cell taken out of a column lowers its count by one, wherever it lies in [lo, hi). */
  lemma {:induction false} WaterCountRemoveOne(g: Grid, x: int, j: int, lo: int, hi: int)
    requires WellFormed(g) && 0 <= x < g.width && 0 <= j < g.height && lo <= j < hi
    requires TypeAt(g, x, j, Foreground) == WATER
    ensures WaterCount(SetType(g, x, j, Foreground, EMPTY), x, lo, hi) + 1 == WaterCount(g, x, lo, hi)
    decreases hi - lo
  {
    var g1 := SetType(g, x, j, Foreground, EMPTY);
    SetTypeOnlyChanges(g, x, j, Foreground, EMPTY, x, j, Foreground);
    if hi - 1 == j {
      forall r | lo <= r < j
        ensures TypeAt(g1, x, r, Foreground) == TypeAt(g, x, r, Foreground)
      {
        SetTypeOtherRow(g, x, j, Foreground, EMPTY, x, r);
      }
      WaterCountFrame(g, g1, x, lo, j);
    } else {
      WaterCountRemoveOne(g, x, j, lo, hi - 1);
      SetTypeOtherRow(g, x, j, Foreground, EMPTY, x, hi - 1);
    }
  }

  /** `removeWater` takes at most `toRemove` WATER cells out of a column. */
  lemma {:induction false} RemoveColumnCount(g: Grid, x: int, j: int, toRemove: int)
    requires WellFormed(g) && -1 <= j < g.height && 0 <= x < g.width && toRemove >= 0
    ensures WaterCount(g, x, 0, j + 1) - toRemove <= WaterCount(RemoveColumn(g, x, j, toRemove), x, 0, j + 1)
    ensures WaterCount(RemoveColumn(g, x, j, toRemove), x, 0, j + 1) <= WaterCount(g, x, 0, j + 1)
    decreases j + 1
  {
    if toRemove == 0 || j < 0 {
    } else if TypeAt(g, x, j, Foreground) == WATER {
      var g1 := SetType(g, x, j, Foreground, EMPTY);
      var res := RemoveColumn(g1, x, j - 1, toRemove - 1);
      RemoveColumnCount(g1, x, j - 1, toRemove - 1);
      WaterCountRemoveOne(g, x, j, 0, j + 1);
      RemoveColumnCell(g1, x, j - 1, toRemove - 1, x, j);
      WaterCountTop(g1, res, x, j);
    } else if TypeAt(g, x, j, Foreground) != EMPTY {
    } else {
      var res := RemoveColumn(g, x, j - 1, toRemove);
      RemoveColumnCount(g, x, j - 1, toRemove);
      RemoveColumnCell(g, x, j - 1, toRemove, x, j);
      WaterCountTop(g, res, x, j);
    }
  }

  /** Two columns that agree at row j differ in their count of rows [0, j + 1) as they do in rows [0, j). */
  lemma WaterCountTop(g: Grid, res: Grid, x: int, j: int)
    requires WellFormed(g) && WellFormed(res) && res.width == g.width && res.height == g.height
    requires 0 <= x < g.width && 0 <= j < g.height
    requires res.cells[Index(g, x, j)] == g.cells[Index(g, x, j)]
    ensures WaterCount(res, x, 0, j + 1) - WaterCount(g, x, 0, j + 1) == WaterCount(res, x, 0, j) - WaterCount(g, x, 0, j)
  {
  }

  // ---------------------------------------------------------------------
  // moveTileFast
  // ---------------------------------------------------------------------

  /** `moveTileFast`: the destination gets the source's type, then the source becomes EMPTY. */
  function FastMoved(g: Grid, x1: int, y1: int, x2: int, y2: int, layer: MapLayer): (g': Grid)
    requires WellFormed(g) && 0 <= y1 < g.height && 0 <= y2 < g.height && IsDrawLayer(layer)
    ensures WellFormed(g') && g'.width == g.width && g'.height == g.height
  {
    SetType(SetType(g, x2, y2, layer, TileAt(g, x1, y1, layer)), x1, y1, layer, EMPTY)
  }

  /**
   * After `moveTileFast` the source (columns taken modulo the width) is
   * EMPTY, the destination holds what the source held, and every other
   * type is as it was; sprites do not move.
   */
  lemma FastMovedMeaning(g: Grid, x1: int, y1: int, x2: int, y2: int, layer: MapLayer, x: int, y: int, l: MapLayer)
    requires WellFormed(g) && 0 <= y1 < g.height && 0 <= y2 < g.height && IsDrawLayer(layer)
    requires 0 <= y < g.height && IsDrawLayer(l)
    ensures TileAt(FastMoved(g, x1, y1, x2, y2, layer), x, y, l) ==
      if l == layer && y == y1 && Wrap(x, g.width) == Wrap(x1, g.width) then EMPTY
      else if l == layer && y == y2 && Wrap(x, g.width) == Wrap(x2, g.width) then TileAt(g, x1, y1, layer)
      else TileAt(g, x, y, l)
    ensures LayerSprite(FastMoved(g, x1, y1, x2, y2, layer).cells[Index(g, x, y)], l) == LayerSprite(g.cells[Index(g, x, y)], l)
  {
    var g1 := SetType(g, x2, y2, layer, TileAt(g, x1, y1, layer));
    SetTypeOnlyChanges(g, x2, y2, layer, TileAt(g, x1, y1, layer), x, y, l);
    SetTypeOnlyChanges(g1, x1, y1, layer, EMPTY, x, y, l);
  }

  // ---------------------------------------------------------------------
  // findFall
  // ---------------------------------------------------------------------

  /** How many steps in `direction` lead from the on-map column `current` to the on-map column `stop`. */
  function StepsTo(width: int, direction: int, current: int, stop: int): (n: int)
    requires 0 <= current < width && 0 <= stop < width
    ensures 0 <= n < width && (n == 0 <==> current == stop)
  {
    if direction == 1 then (if stop >= current then stop - current else stop - current + width)
    else (if current >= stop then current - stop else current - stop + width)
  }

  /** The neighbouring column in `direction`, round the cylinder: `wrapX(current + direction)` for an on-map column. */
  function NextColumn(width: int, direction: int, current: int): (next: int)
    requires (direction == 1 || direction == -1) && 0 <= current < width
    ensures 0 <= next < width && next == Wrap(current + direction, width)
  {
    if direction == 1 then
      if current + 1 == width then WrapShift(0, width, 1); 0 else current + 1
    else
      if current == 0 then WrapShift(width - 1, width, -1); width - 1 else current - 1
  }

  /** From an on-map column other than `stop`, the next column is one step nearer. */
  lemma StepsToNext(width: int, direction: int, current: int, stop: int)
    requires (direction == 1 || direction == -1) && 0 <= current < width && 0 <= stop < width && current != stop
    ensures StepsTo(width, direction, NextColumn(width, direction, current), stop) == StepsTo(width, direction, current, stop) - 1
  {
  }

  /** What is left of `findFall`'s scan from `current`: the steps to `stop`, or the width from an off-map start. */
  function FallMeasure(width: int, direction: int, stop: int, current: int): (n: int)
    requires 0 <= stop < width
    ensures 0 <= n <= width
  {
    if 0 <= current < width then StepsTo(width, direction, current, stop) else width
  }

  /**
   * What `findFall` computes from the column `current` on, where `stop` is
   * `wrapX(x - direction)`: the first column whose cell below row y is
   * EMPTY, unless a column other than x is occupied at row y first, or the
   * scan comes round to `stop`; in those cases the answer is `stop`.
   */
  function FallFrom(g: Grid, direction: int, x: int, stop: int, y: int, layer: MapLayer, current: int): (c: int)
    requires WellFormed(g) && (direction == 1 || direction == -1) && 0 <= stop < g.width && y > 0 && IsDrawLayer(layer)
    requires current == x || 0 <= current < g.width
    decreases FallMeasure(g.width, direction, stop, current)
  {
    if current == stop then current
    else if TypeAt(g, current, y - 1, layer) == EMPTY then current
    else if TypeAt(g, current, y, layer) != EMPTY && current != x then stop
    else
      assert OnMap(g, current, y - 1);
      StepsToNext(g.width, direction, current, stop);
      FallFrom(g, direction, x, stop, y, layer, NextColumn(g.width, direction, current))
  }

  /** `findFall`'s answer given where its loop stands: done at a found column or at `stop`, otherwise still to scan. */
  function FallPending(g: Grid, direction: int, x: int, stop: int, y: int, layer: MapLayer, current: int, found: bool): int
    requires WellFormed(g) && (direction == 1 || direction == -1) && 0 <= stop < g.width && y > 0 && IsDrawLayer(layer)
    requires current == x || 0 <= current < g.width
  {
    if found || current == stop then current else FallFrom(g, direction, x, stop, y, layer, current)
  }

  /** A column that neither stops nor blocks the scan hands it on to the next column. */
  lemma FallFromStep(g: Grid, direction: int, x: int, stop: int, y: int, layer: MapLayer, current: int)
    requires WellFormed(g) && (direction == 1 || direction == -1) && 0 <= stop < g.width && y > 0 && IsDrawLayer(layer)
    requires current == x || 0 <= current < g.width
    requires current != stop && TypeAt(g, current, y - 1, layer) != EMPTY
    requires !(TypeAt(g, current, y, layer) != EMPTY && current != x)
    ensures 0 <= current < g.width
    ensures var next := NextColumn(g.width, direction, current);
      StepsTo(g.width, direction, next, stop) < StepsTo(g.width, direction, current, stop) &&
      FallFrom(g, direction, x, stop, y, layer, current) == FallFrom(g, direction, x, stop, y, layer, next)
  {
    assert OnMap(g, current, y - 1);
    StepsToNext(g.width, direction, current, stop);
  }

  /** `findFall` either answers `stop`, meaning no fall, or a column whose cell at row y - 1 is EMPTY. */
  lemma {:induction false} FallFromMeaning(g: Grid, direction: int, x: int, stop: int, y: int, layer: MapLayer, current: int)
    requires WellFormed(g) && (direction == 1 || direction == -1) && 0 <= stop < g.width && y > 0 && IsDrawLayer(layer)
    requires current == x || 0 <= current < g.width
    ensures var c := FallFrom(g, direction, x, stop, y, layer, current);
      c == stop || TypeAt(g, c, y - 1, layer) == EMPTY
    decreases FallMeasure(g.width, direction, stop, current)
  {
    if current != stop && TypeAt(g, current, y - 1, layer) != EMPTY && !(TypeAt(g, current, y, layer) != EMPTY && current != x) {
      FallFromStep(g, direction, x, stop, y, layer, current);
      FallFromMeaning(g, direction, x, stop, y, layer, NextColumn(g.width, direction, current));
    }
  }

  // ---------------------------------------------------------------------
  // getPercentile and getBaseBiome
  // ---------------------------------------------------------------------

  predicate Sorted(s: seq<real>)
  {
    forall i, j :: 0 <= i < j < |s| ==> s[i] <= s[j]
  }

  /** `results.insert` before the first entry at least `v`, or `push_back` when there is none. */
  function Insert(s: seq<real>, v: real): (r: seq<real>)
    ensures |r| == |s| + 1
  {
    if s == [] then [v] else if v <= s[0] then [v] + s else [s[0]] + Insert(s[1..], v)
  }

  /** `getPercentile`'s table after inserting each sample in turn. */
  function InsertAll(samples: seq<real>): (r: seq<real>)
    ensures |r| == |samples|
  {
    if samples == [] then [] else Insert(InsertAll(samples[..|samples| - 1]), samples[|samples| - 1])
  }

  /** Inserting keeps a sorted table sorted and adds exactly the new value. */
  lemma {:induction false} InsertSortedPermutes(s: seq<real>, v: real)
    requires Sorted(s)
    ensures Sorted(Insert(s, v))
    ensures multiset(Insert(s, v)) == multiset(s) + multiset{v}
  {
    InsertPermutes(s, v);
    if s != [] && !(v <= s[0]) {
      var rest := s[1..];
      InsertSortedPermutes(rest, v);
      var r := Insert(rest, v);
      forall k | 0 <= k < |r|
        ensures s[0] <= r[k]
      {
        InsertedFrom(rest, v, k);
      }
      assert Insert(s, v) == [s[0]] + r;
    }
  }

  /** Inserting adds exactly the new value, sorted or not. */
  lemma {:induction false} InsertPermutes(s: seq<real>, v: real)
    ensures multiset(Insert(s, v)) == multiset(s) + multiset{v}
  {
    if s != [] && !(v <= s[0]) {
      var rest := s[1..];
      assert s == [s[0]] + rest;
      InsertPermutes(rest, v);
      assert Insert(s, v) == [s[0]] + Insert(rest, v);
    }
  }

  /** Every entry of the table after inserting is an old entry or the new value. */
  lemma InsertedFrom(s: seq<real>, v: real, k: int)
    requires 0 <= k < |s| + 1
    requires multiset(Insert(s, v)) == multiset(s) + multiset{v}
    ensures Insert(s, v)[k] == v || Insert(s, v)[k] in s
  {
    assert Insert(s, v)[k] in multiset(Insert(s, v));
  }

  /** The table `getPercentile` builds is the samples sorted ascending: sorted, and a permutation of them. */
  lemma {:induction false} InsertAllSorts(samples: seq<real>)
    ensures Sorted(InsertAll(samples))
    ensures multiset(InsertAll(samples)) == multiset(samples)
  {
    if samples != [] {
      var init := samples[..|samples| - 1];
      InsertAllSorts(init);
      InsertSortedPermutes(InsertAll(init), samples[|samples| - 1]);
      assert samples == init + [samples[|samples| - 1]];
    }
  }

  /** Skipping the entries smaller than `v` is what `Insert` does first. */
  lemma {:induction false} InsertSkips(s: seq<real>, v: real, j: nat)
    requires j <= |s| && forall k :: 0 <= k < j ==> v > s[k]
    ensures Insert(s, v) == s[..j] + Insert(s[j..], v)
    decreases j
  {
    if j > 0 {
      InsertSkips(s[1..], v, j - 1);
      assert s[1..][j - 1..] == s[j..];
      assert [s[0]] + s[1..][..j - 1] == s[..j];
    }
  }

  /** C++'s conversion of a `double` to `int`: truncation toward zero. */
  function Trunc(r: real): (n: int)
    ensures r >= 0.0 ==> n == r.Floor
    ensures r < 0.0 ==> n == -((-r).Floor)
  {
    if r >= 0.0 then r.Floor else -((-r).Floor)
  }

  /** The index `getPercentile` reads: `(int)(percentile * samples)`. */
  function PercentileIndex(percentile: real, samples: int): int
  {
    Trunc(percentile * samples as real)
  }

  /** The asserts `getPercentile` checks on that index before reading `results[index]`. */
  predicate PercentileAsserts(percentile: real, samples: int)
  {
    PercentileIndex(percentile, samples) <= samples && 0 <= PercentileIndex(percentile, samples)
  }

  /**
   * The asserts let percentile 1.0 through (for any number of samples),
   * and its index is `samples`: one past the last of the `samples`
   * entries of the table.
   */
  lemma PercentileAssertsAdmitEnd(samples: nat)
    ensures PercentileAsserts(1.0, samples)
    ensures PercentileIndex(1.0, samples) == samples
  {
  }

  /**
   * A percentile in [0, 1) and at least one sample give an index inside
   * the table, which is what reading `results[index]` needs.
   */
  lemma PercentileIndexInRange(percentile: real, samples: int)
    requires 0.0 <= percentile < 1.0 && samples > 0
    ensures 0 <= PercentileIndex(percentile, samples) < samples
  {
    var n := samples as real;
    var r := percentile * n;
    assert 0.0 <= r by {
      MulNonNegative(percentile, n);
    }
    assert r < n by {
      MulNonNegative(1.0 - percentile, n);
      assert n - r == (1.0 - percentile) * n;
      assert (1.0 - percentile) * n != 0.0;
    }
    assert r.Floor as real <= r;
  }

  /** The product of two non-negative numbers is non-negative, and zero only when a factor is. */
  lemma MulNonNegative(a: real, b: real)
    requires a >= 0.0 && b >= 0.0
    ensures a * b >= 0.0 && (a * b == 0.0 ==> a == 0.0 || b == 0.0)
  {
  }

  /**
   * The number of leading entries the value is strictly above: where
   * `getBaseBiome`'s while loops stop.
   */
  function LeadingBelow(v: real, s: seq<real>): (t: nat)
    ensures t <= |s|
    ensures forall k :: 0 <= k < t ==> s[k] < v
    ensures t < |s| ==> v <= s[t]
  {
    if s == [] || !(v > s[0]) then 0 else 1 + LeadingBelow(v, s[1..])
  }

  /** On a sorted table of thresholds the count is the number of thresholds below the value. */
  lemma LeadingBelowSorted(v: real, s: seq<real>)
    requires Sorted(s)
    ensures forall k :: 0 <= k < |s| ==> (s[k] < v <==> k < LeadingBelow(v, s))
  {
  }
}
