/**
 * The world generator `World` (`World.cc`): a width-by-height grid of
 * tiles stored row by row in one array per layer, the helpers the
 * generators build on (addressing, filling, finding the surface of a
 * column, merging height profiles) and the run-length save of the
 * foreground.
 */
module WorldGen {
  import opened CInts
  import opened RunLength

  /** The generator's `enum class TileType`, by its numeric value (`EMPTY` is 0, `DARK_BRICK` 20). */
  type WorldTile = t: int | 0 <= t <= 20

  const EMPTY: WorldTile := 0

  /** What `save` writes: the size, the spawn point, and the (count, value) pairs of the foreground. */
  datatype SaveFile = SaveFile(width: int, height: int, spawnX: int, spawnY: int, runs: seq<Span<WorldTile>>)

  /** Row-by-row addressing fits the grid and can be undone by `%` and `/`. */
  lemma AddressFits(width: int, height: int, x: int, y: int)
    requires 0 <= x < width && 0 <= y < height
    ensures 0 <= y * width + x < width * height
    ensures (y * width + x) % width == x && (y * width + x) / width == y
  {
    ModUnique(y * width + x, width, y, x);
    MulLeq(0, y, width);
    MulLeq(y + 1, height, width);
  }

  /** Every cell of a grid has an address: its column is the remainder and its row the quotient. */
  lemma AddressOnto(width: int, height: int, k: int)
    requires width >= 0 && height >= 0 && 0 <= k < width * height
    ensures width > 0 && 0 <= k % width < width && 0 <= k / width < height
    ensures (k / width) * width + k % width == k
  {
    assert width != 0;
    if k / width >= height {
      MulLeq(height, k / width, width);
    }
  }

  /** One piece of `merge`: `h[i - offset]` where the piece covers `i`, and nothing elsewhere. */
  function Piece(h: seq<real>, offset: int, n: int, i: int): real
    requires 0 <= n <= |h|
  {
    if offset <= i < offset + n then h[i - offset] else 0.0
  }

  /**
   * `merge`'s result: the span from the leftmost start to the rightmost
   * stop, holding the first profile at its place with the second added on
   * top at its place.
   */
  function Merged(start1: int, stop1: int, heights1: seq<real>, start2: int, stop2: int, heights2: seq<real>): seq<real>
    requires start1 <= stop1 && start2 <= stop2
    requires stop1 - start1 <= |heights1| && stop2 - start2 <= |heights2|
  {
    var start := Min(start1, start2);
    seq(Max(stop1, stop2) - start, i =>
      Piece(heights1, start1 - start, stop1 - start1, i) + Piece(heights2, start2 - start, stop2 - start2, i))
  }

  /**
   * What the merged profile holds at each place: the sum of both profiles
   * where they overlap, one of them where only it reaches, and 0 in a gap
   * between them.
   */
  lemma MergedMeaning(start1: int, stop1: int, heights1: seq<real>, start2: int, stop2: int, heights2: seq<real>)
    requires start1 <= stop1 && start2 <= stop2
    requires stop1 - start1 <= |heights1| && stop2 - start2 <= |heights2|
    ensures var m := Merged(start1, stop1, heights1, start2, stop2, heights2);
      var start := Min(start1, start2);
      |m| == Max(stop1, stop2) - start &&
      (forall i :: 0 <= i < |m| ==>
        m[i] ==
          (if start1 <= start + i < stop1 then heights1[start + i - start1] else 0.0) +
          (if start2 <= start + i < stop2 then heights2[start + i - start2] else 0.0))
  {
  }

  /** The order of the two profiles does not matter. */
  lemma MergeCommutes(start1: int, stop1: int, heights1: seq<real>, start2: int, stop2: int, heights2: seq<real>)
    requires start1 <= stop1 && start2 <= stop2
    requires stop1 - start1 <= |heights1| && stop2 - start2 <= |heights2|
    ensures Merged(start1, stop1, heights1, start2, stop2, heights2) == Merged(start2, stop2, heights2, start1, stop1, heights1)
  {
    var m := Merged(start1, stop1, heights1, start2, stop2, heights2);
    var n := Merged(start2, stop2, heights2, start1, stop1, heights1);
    assert Min(start1, start2) == Min(start2, start1) && Max(stop1, stop2) == Max(stop2, stop1);
    assert |m| == |n|;
    forall i | 0 <= i < |m|
      ensures m[i] == n[i]
    {
    }
  }

  class World {
    var foreground: array<WorldTile>
    var background: array<WorldTile>
    /** The size of the map, in tiles. */
    var height: int
    var width: int
    var spawnX: int
    var spawnY: int

    /** A layer of this world: one tile per cell. */
    predicate Sized(a: array<WorldTile>)
      reads this`width, this`height
    {
      0 <= width && 0 <= height && a.Length == width * height
    }

    /**
     * `findPointer(x, y)`: where cell (x, y) is, row by row. Distinct cells
     * have distinct places, since the column and row come back out.
     */
    function FindPointer(x: int, y: int): (index: int)
      requires 0 <= x < width && 0 <= y < height
      reads this`width, this`height
      ensures 0 <= index < width * height
      ensures index % width == x && index / width == y
    {
      AddressFits(width, height, x, y);
      y * width + x
    }

    /** `getTile(x, y, array)`. */
    function GetTile(x: int, y: int, a: array<WorldTile>): WorldTile
      requires Sized(a) && 0 <= x < width && 0 <= y < height
      reads this`width, this`height, a
    {
      a[FindPointer(x, y)]
    }

    /** `setTile(x, y, val, array)`: that one cell changes. */
    method SetTile(x: int, y: int, val: WorldTile, a: array<WorldTile>)
      requires Sized(a) && 0 <= x < width && 0 <= y < height
      modifies a
      ensures a[..] == old(a[..])[FindPointer(x, y) := val]
    {
      a[FindPointer(x, y)] := val;
    }

    /** `setAll(val, array)`: every cell of the layer holds `val`. */
    method SetAll(val: WorldTile, a: array<WorldTile>)
      requires Sized(a)
      modifies a
      ensures forall k :: 0 <= k < a.Length ==> a[k] == val
    {
      for i := 0 to width
        invariant forall x, y :: 0 <= x < i && 0 <= y < height ==> a[FindPointer(x, y)] == val
      {
        SetColumn(i, val, a);
      }
      forall k | 0 <= k < a.Length
        ensures a[k] == val
      {
        AddressOnto(width, height, k);
        assert k == FindPointer(k % width, k / width);
      }
    }

    /** The inner loop of `setAll`: column x holds `val`, and the other columns are as they were. */
    method SetColumn(x: int, val: WorldTile, a: array<WorldTile>)
      requires Sized(a) && 0 <= x < width
      modifies a
      ensures forall y :: 0 <= y < height ==> a[FindPointer(x, y)] == val
      ensures forall i, y :: 0 <= i < width && 0 <= y < height && i != x ==> a[FindPointer(i, y)] == old(a[FindPointer(i, y)])
    {
      for j := 0 to height
        invariant forall y :: 0 <= y < j ==> a[FindPointer(x, y)] == val
        invariant forall i, y :: 0 <= i < width && 0 <= y < height && i != x ==> a[FindPointer(i, y)] == old(a[FindPointer(i, y)])
      {
        SetTile(x, j, val, a);
      }
    }

    /**
     * `setTo(x, y1, y2, fill, array)`: rows `min(y1, y2)` up to, but not
     * including, `max(y1, y2)` of column x each get a tile of `fill`, the
     * one `rand() % fill.size()` picks; `rolls` are those `rand()` values,
     * one per row. Nothing else changes.
     */
    method SetTo(x: int, y1: int, y2: int, fill: seq<WorldTile>, rolls: seq<nat>, a: array<WorldTile>)
      requires Sized(a) && 0 <= Min(y1, y2) && Max(y1, y2) < height && |fill| != 0
      requires Min(y1, y2) < Max(y1, y2) ==> 0 <= x < width
      requires |rolls| == Max(y1, y2) - Min(y1, y2)
      modifies a
      ensures forall y :: Min(y1, y2) <= y < Max(y1, y2) ==>
        a[FindPointer(x, y)] == fill[rolls[y - Min(y1, y2)] % |fill|]
      ensures forall i, y :: 0 <= i < width && 0 <= y < height && !(i == x && Min(y1, y2) <= y < Max(y1, y2)) ==>
        a[FindPointer(i, y)] == old(a[FindPointer(i, y)])
    {
      var miny := Min(y1, y2);
      var maxy := Max(y1, y2);
      var size := |fill|;
      for j := miny to maxy
        invariant forall y :: miny <= y < j ==> a[FindPointer(x, y)] == fill[rolls[y - miny] % size]
        invariant forall i, y :: 0 <= i < width && 0 <= y < height && !(i == x && miny <= y < j) ==>
          a[FindPointer(i, y)] == old(a[FindPointer(i, y)])
      {
        var index := rolls[j - miny] % size;
        SetTile(x, j, fill[index], a);
      }
    }

    /** `setTo(x, y1, y2, tile, array)`: the same rows all get `tile`, whatever `rand()` says. */
    method SetToTile(x: int, y1: int, y2: int, tile: WorldTile, rolls: seq<nat>, a: array<WorldTile>)
      requires Sized(a) && 0 <= Min(y1, y2) && Max(y1, y2) < height
      requires Min(y1, y2) < Max(y1, y2) ==> 0 <= x < width
      requires |rolls| == Max(y1, y2) - Min(y1, y2)
      modifies a
      ensures forall y :: Min(y1, y2) <= y < Max(y1, y2) ==> a[FindPointer(x, y)] == tile
      ensures forall i, y :: 0 <= i < width && 0 <= y < height && !(i == x && Min(y1, y2) <= y < Max(y1, y2)) ==>
        a[FindPointer(i, y)] == old(a[FindPointer(i, y)])
    {
      SetTo(x, y1, y2, [tile], rolls, a);
    }

    /**
     * The answer `findChange(x, top, array)` must give: going down column
     * x from row `top - 1`, the first row whose tile differs from that top
     * tile, or -1 when every row down to row 1 matches it.
     */
    predicate ChangeAt(a: array<WorldTile>, x: int, top: int, row: int)
      requires Sized(a) && 0 <= x < width && 0 < top <= height
      reads this`width, this`height, a
    {
      var val := a[FindPointer(x, top - 1)];
      (row == -1 <==> forall y :: 0 < y < top ==> a[FindPointer(x, y)] == val) &&
      (row != -1 ==>
        0 < row < top - 1 && a[FindPointer(x, row)] != val &&
        forall y :: row < y < top ==> a[FindPointer(x, y)] == val)
    }

    /** There is only one right answer: the first change is one row, or there is none. */
    lemma ChangeAtUnique(a: array<WorldTile>, x: int, top: int, row1: int, row2: int)
      requires Sized(a) && 0 <= x < width && 0 < top <= height
      requires ChangeAt(a, x, top, row1) && ChangeAt(a, x, top, row2)
      ensures row1 == row2
    {
    }

    /**
     * `findChange(x, top, array)`: the scan down column x. Row 0 is never
     * looked at, so -1 also comes back when only row 0 differs.
     */
    method FindChange(x: int, top: int, a: array<WorldTile>) returns (row: int)
      requires Sized(a) && 0 <= x < width && 0 < top <= height
      ensures ChangeAt(a, x, top, row)
    {
      var t := top - 1;
      var val := GetTile(x, t, a);
      while t > 0 && GetTile(x, t, a) == val
        invariant 0 <= t <= top - 1
        invariant forall y :: t < y < top ==> a[FindPointer(x, y)] == val
      {
        t := t - 1;
      }
      if t == 0 {
        return -1;
      }
      return t;
    }

    /**
     * The spawn point the constructor picks once a generator has run:
     * the middle column, four rows above where `findChange` finds its
     * surface, or four rows above row 0 when it finds none.
     */
    method PlaceSpawn()
      requires Sized(foreground) && width > 0 && height > 0
      modifies this`spawnX, this`spawnY
      ensures spawnX == width / 2 && spawnY >= 4
      ensures ChangeAt(foreground, spawnX, height, if spawnY == 4 then -1 else spawnY - 4)
    {
      var x := width / 2;
      var change := FindChange(x, height, foreground);
      var surface := Max(0, change);
      assert surface == if change == -1 then 0 else change;
      spawnX, spawnY := x, surface + 4;
    }

    /**
     * `merge(start1, stop1, heights1, start2, stop2, heights2)`: both
     * profiles written into one vector from the leftmost start, the second
     * added to the first where they overlap.
     */
    method Merge(start1: int, stop1: int, heights1: seq<real>, start2: int, stop2: int, heights2: seq<real>)
      returns (merged: seq<real>)
      requires 0 <= start1 <= stop1 <= width && 0 <= start2 <= stop2 <= width
      requires stop1 - start1 <= |heights1| && stop2 - start2 <= |heights2|
      ensures merged == Merged(start1, stop1, heights1, start2, stop2, heights2)
    {
      var start := Min(start1, start2);
      var length := Max(stop1, stop2) - start;
      merged := seq(length, _ => 0.0);
      for i := 0 to stop1 - start1
        invariant |merged| == length
        invariant forall k :: 0 <= k < length ==> merged[k] == Piece(heights1, start1 - start, i, k)
      {
        merged := merged[start1 - start + i := heights1[i]];
      }
      for i := 0 to stop2 - start2
        invariant |merged| == length
        invariant forall k :: 0 <= k < length ==>
          merged[k] == Piece(heights1, start1 - start, stop1 - start1, k) + Piece(heights2, start2 - start, i, k)
      {
        merged := merged[start2 - start + i := merged[start2 - start + i] + heights2[i]];
      }
    }

    /**
     * `save`: the size, the spawn point, then the foreground as run-length
     * pairs, counted from `foreground[0]` on.
     */
    method Save() returns (file: SaveFile)
      requires Sized(foreground) && foreground.Length > 0
      ensures file == SaveFile(width, height, spawnX, spawnY, Compress(foreground[..]))
    {
      ghost var s := foreground[..];
      var runs: seq<Span<WorldTile>> := [];
      var count := 0;
      var last := foreground[0];
      var index := 0;
      while index < height * width
        invariant 0 <= index <= |s|
        invariant index == 0 ==> runs == [] && count == 0 && last == s[0]
        invariant index > 0 ==> Compress(s[..index]) == runs + [Span(count, last)]
      {
        var current := foreground[index];
        if index == 0 {
          assert s[..1] == [s[0]];
        } else {
          CompressExtend(s, index, runs, count, last);
        }
        if current != last {
          runs := runs + [Span(count, last)];
          last := current;
          count := 1;
        } else {
          count := count + 1;
        }
        index := index + 1;
      }
      assert s[..index] == s;
      file := SaveFile(width, height, spawnX, spawnY, runs + [Span(count, last)]);
    }
  }
}
