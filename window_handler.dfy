/**
 * The integer arithmetic of `WindowHandler` (`render/WindowHandler.cc`):
 * where the camera goes, the grid of tile-sized screen rectangles, and
 * the world size in pixels. Window set-up and drawing are SDL calls and
 * are not part of this model.
 */
module Windows {
  import opened CInts
  import opened Rects

  /** An `SDL_Rect` of the tile grid. */
  datatype ScreenBox = ScreenBox(x: int, y: int, w: int, h: int)

  /**
   * `ceil((float)a / (float)b)` for a positive `b`, on exact quotients. The
   * result is the fewest `b`-sized steps that cover `a`.
   */
  function CeilDiv(a: int, b: int): (q: int)
    requires b > 0
    ensures q * b >= a && (q - 1) * b < a
  {
    var f := (-a) / b;
    assert f * b <= -a < (f + 1) * b;
    -f
  }

  /** What `std::vector::resize` leaves at `[i][j]`: the old rectangle if there was one, else a zeroed one. */
  function KeptBox(grid: seq<seq<ScreenBox>>, i: nat, j: nat): ScreenBox
  {
    if i < |grid| && j < |grid[i]| then grid[i][j] else ScreenBox(0, 0, 0, 0)
  }

  /** One column of `resize`: `rows` rectangles, the old ones kept in place, all given the tile size. */
  function ResizedColumn(column: seq<ScreenBox>, rows: nat, tileWidth: int, tileHeight: int): seq<ScreenBox>
  {
    seq(rows, j requires 0 <= j < rows => KeptBox([column], 0, j).(w := tileWidth, h := tileHeight))
  }

  /** `resize`'s grid: `cols` columns of `rows` rectangles, each kept in place and given the tile size. */
  function ResizedGrid(grid: seq<seq<ScreenBox>>, cols: nat, rows: nat, tileWidth: int, tileHeight: int): seq<seq<ScreenBox>>
  {
    seq(cols, i requires 0 <= i < cols => ResizedColumn(if i < |grid| then grid[i] else [], rows, tileWidth, tileHeight))
  }

  /**
   * The resized grid has the asked-for shape, every rectangle is one tile
   * big, and every rectangle that was there keeps its position.
   */
  lemma ResizedGridMeaning(grid: seq<seq<ScreenBox>>, cols: nat, rows: nat, tileWidth: int, tileHeight: int)
    ensures var g := ResizedGrid(grid, cols, rows, tileWidth, tileHeight);
      |g| == cols &&
      (forall i :: 0 <= i < cols ==> |g[i]| == rows) &&
      (forall i, j :: 0 <= i < cols && 0 <= j < rows ==> g[i][j].w == tileWidth && g[i][j].h == tileHeight) &&
      (forall i, j :: 0 <= i < cols && 0 <= j < rows && i < |grid| && j < |grid[i]| ==>
        g[i][j].x == grid[i][j].x && g[i][j].y == grid[i][j].y)
  {
    var g: seq<seq<ScreenBox>> := ResizedGrid(grid, cols, rows, tileWidth, tileHeight);
    forall i | 0 <= i < cols
      ensures |g[i]| == rows
      ensures forall j :: 0 <= j < rows ==> g[i][j].w == tileWidth && g[i][j].h == tileHeight
    {
      assert g[i] == ResizedColumn(if i < |grid| then grid[i] else [], rows, tileWidth, tileHeight);
    }
  }

  /**
   * The grid `resize` leaves covers the screen wherever the tile grid
   * starts: its rectangles, laid side by side from any part-tile offset
   * `(-ox, -oy)`, reach the right and bottom edges of the screen.
   */
  lemma GridCoversScreen(grid: seq<seq<ScreenBox>>, screenWidth: int, screenHeight: int, tileWidth: int, tileHeight: int,
                         ox: int, oy: int)
    requires tileWidth > 0 && tileHeight > 0 && screenWidth >= 0 && screenHeight >= 0
    requires 0 <= ox < tileWidth && 0 <= oy < tileHeight
    ensures var g := ResizedGrid(grid, CeilDiv(screenWidth, tileWidth) + 1, CeilDiv(screenHeight, tileHeight) + 1, tileWidth, tileHeight);
      |g| > 0 && |g[0]| > 0 &&
      -ox + |g| * g[0][0].w >= screenWidth && -oy + |g[0]| * g[0][0].h >= screenHeight
  {
    var cols, rows := CeilDiv(screenWidth, tileWidth) + 1, CeilDiv(screenHeight, tileHeight) + 1;
    ResizedGridMeaning(grid, cols, rows, tileWidth, tileHeight);
    assert cols * tileWidth == (cols - 1) * tileWidth + tileWidth;
    assert rows * tileHeight == (rows - 1) * tileHeight + tileHeight;
  }

  class WindowHandler {
    const tileWidth: int
    const tileHeight: int
    var screenWidth: int
    var screenHeight: int
    var worldWidth: int
    var worldHeight: int
    /** `tileRects`, indexed `[x][y]`. */
    var tileRects: seq<seq<ScreenBox>>

    /**
     * The constructor: the screen and tile sizes, and the tile grid for
     * that screen. The world size is set later, by `setMapSize`.
     */
    constructor(screenWidth: int, screenHeight: int, tileWidth: int, tileHeight: int)
      requires tileWidth > 0 && tileHeight > 0 && screenWidth >= 0 && screenHeight >= 0
      ensures this.tileWidth == tileWidth && this.tileHeight == tileHeight
      ensures this.screenWidth == screenWidth && this.screenHeight == screenHeight
      ensures tileRects == ResizedGrid([], CeilDiv(screenWidth, tileWidth) + 1, CeilDiv(screenHeight, tileHeight) + 1, tileWidth, tileHeight)
    {
      this.tileWidth := tileWidth;
      this.tileHeight := tileHeight;
      this.screenWidth := screenWidth;
      this.screenHeight := screenHeight;
      tileRects := [];
      new;
      Resize(screenWidth, screenHeight);
    }

    /**
     * `findCamera(x, y, w, h)`: the screen-sized view centred on the
     * player's sprite, wrapped around the world's width, kept inside the
     * world vertically, and shrunk when the world is smaller than the
     * screen (by `TILE_HEIGHT` across and `TILE_WIDTH` down, as written).
     */
    function FindCamera(x: int, y: int, w: int, h: int): (camera: Rect)
      requires worldWidth != 0
      reads this
      ensures var centred := x - CDiv(screenWidth, 2) + CDiv(w, 2);
        camera.worldWidth == worldWidth &&
        (centred + worldWidth >= 0 ==> 0 <= camera.x < Abs(worldWidth)) &&
        (worldWidth > 0 ==> (camera.x - centred) % worldWidth == 0) &&
        (0 <= centred < worldWidth ==> camera.x == centred)
      ensures var centred := y - CDiv(screenHeight, 2) + CDiv(h, 2);
        camera.y >= 0 &&
        (worldHeight >= screenHeight ==> camera.y <= worldHeight - screenHeight) &&
        (0 <= centred <= worldHeight - screenHeight ==> camera.y == centred)
      ensures camera.w <= screenWidth && camera.w <= worldWidth - tileHeight
      ensures camera.h <= screenHeight && camera.h <= worldHeight - tileWidth
      ensures (camera.w == screenWidth || camera.w == worldWidth - tileHeight) &&
        (camera.h == screenHeight || camera.h == worldHeight - tileWidth)
    {
      var centredX := x - CDiv(screenWidth, 2) + CDiv(w, 2);
      var cameraX := CRem(centredX + worldWidth, worldWidth);
      var cameraY := Max(0, Min(y - CDiv(screenHeight, 2) + CDiv(h, 2), worldHeight - screenHeight));
      CameraWraps(centredX, worldWidth);
      Rect(worldWidth, cameraX, cameraY, Min(screenWidth, worldWidth - tileHeight), Min(screenHeight, worldHeight - tileWidth))
    }

    /** `resize(width, height)`: the new screen size and a tile grid that covers it. */
    method Resize(width: int, height: int)
      requires tileWidth > 0 && tileHeight > 0 && width >= 0 && height >= 0
      modifies this`screenWidth, this`screenHeight, this`tileRects
      ensures screenWidth == width && screenHeight == height
      ensures tileRects == ResizedGrid(old(tileRects), CeilDiv(width, tileWidth) + 1, CeilDiv(height, tileHeight) + 1, tileWidth, tileHeight)
    {
      screenWidth := width;
      screenHeight := height;
      var before := tileRects;
      var cols := CeilDiv(screenWidth, tileWidth) + 1;
      var rows := CeilDiv(screenHeight, tileHeight) + 1;
      tileRects := seq(cols, i requires 0 <= i < cols => if i < |before| then before[i] else []);
      var i := 0;
      while i < |tileRects|
        invariant 0 <= i <= |tileRects| == cols && screenWidth == width && screenHeight == height
        invariant forall k :: 0 <= k < i ==> tileRects[k] == ResizedGrid(before, cols, rows, tileWidth, tileHeight)[k]
        invariant forall k :: i <= k < cols ==> tileRects[k] == if k < |before| then before[k] else []
      {
        var column := ResizeColumn(tileRects[i], rows);
        tileRects := tileRects[i := column];
        i := i + 1;
      }
    }

    /** One column of `resize`: resized to `rows` rectangles, each given the tile size. */
    method ResizeColumn(column: seq<ScreenBox>, rows: nat) returns (resized: seq<ScreenBox>)
      ensures resized == ResizedColumn(column, rows, tileWidth, tileHeight)
    {
      resized := seq(rows, j requires 0 <= j < rows => if j < |column| then column[j] else ScreenBox(0, 0, 0, 0));
      var j := 0;
      while j < |resized|
        invariant 0 <= j <= |resized| == rows
        invariant forall k :: 0 <= k < j ==> resized[k] == KeptBox([column], 0, k).(w := tileWidth, h := tileHeight)
        invariant forall k :: j <= k < rows ==> resized[k] == KeptBox([column], 0, k)
      {
        resized := resized[j := resized[j].(w := tileWidth, h := tileHeight)];
        j := j + 1;
      }
    }

    /** `setMapSize(tilesWide, tilesHigh)`: the world's size in pixels. */
    method SetMapSize(tilesWide: int, tilesHigh: int)
      modifies this`worldWidth, this`worldHeight
      ensures worldWidth == tilesWide * tileWidth && worldHeight == tilesHigh * tileHeight
    {
      worldWidth := tilesWide * tileWidth;
      worldHeight := tilesHigh * tileHeight;
    }
  }

  /** The wrap of `findCamera`: adding the world width before C's `%` gives the same place around the world. */
  lemma CameraWraps(centred: int, worldWidth: int)
    requires worldWidth != 0
    ensures var x := CRem(centred + worldWidth, worldWidth);
      (worldWidth > 0 ==> (x - centred) % worldWidth == 0) &&
      (centred + worldWidth >= 0 ==> 0 <= x < Abs(worldWidth)) &&
      (0 <= centred < worldWidth ==> x == centred)
  {
    var a := centred + worldWidth;
    var x := CRem(a, worldWidth);
    var q := CDiv(a, worldWidth);
    assert a == q * worldWidth + x;
    if worldWidth > 0 {
      WrapIsMultiple(centred, x, q, worldWidth);
      if 0 <= centred < worldWidth {
        ModUnique(a, worldWidth, 1, centred);
      }
    }
  }

  /** The step of `CameraWraps`: what the wrap adds is a whole number of widths. */
  lemma WrapIsMultiple(centred: int, x: int, q: int, w: int)
    requires w > 0 && centred + w == q * w + x
    ensures (x - centred) % w == 0
  {
    assert x - centred == 0 + (1 - q) * w;
    ModAddMultiple(0, w, 1 - q);
  }
}
