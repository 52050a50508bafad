/**
 * `Rect`: an axis-aligned rectangle in a world that wraps around in x,
 * with a wrap-aware intersection test.
 */
module Rects {
  import opened CInts

  datatype Rect = Rect(worldWidth: int, x: int, y: int, w: int, h: int)

  /** The rectangle's left edge brought into `[0, worldWidth)`, as `(x + worldWidth) % worldWidth`. */
  function NormalX(r: Rect, x: int): int
    requires r.worldWidth > 0 && x + r.worldWidth >= 0
  {
    CRem(x + r.worldWidth, r.worldWidth)
  }

  /**
   * The sanity assertion of `intersectsX`, as C++ parses it:
   * `(overlap == (thisX >= thatX && thisX < thatX + that.w)) || (thatX < thisX + w && thatX >= thisX)`.
   */
  predicate OverlapAssert(thisX: int, w: int, thatX: int, thatW: int)
  {
    var overlap := (thisX + w > thatX) && (thisX < thatX + thatW);
    (overlap == (thisX >= thatX && thisX < thatX + thatW)) || (thatX < thisX + w && thatX >= thisX)
  }

  /** What `intersectsX` asserts before it computes its answer. */
  predicate IntersectsXDefined(r: Rect, that: Rect)
  {
    r.worldWidth > 0 && that.worldWidth != 0 &&
    r.x + r.worldWidth >= 0 && that.x + r.worldWidth >= 0 &&
    0 <= r.w && 0 <= that.w &&
    OverlapAssert(NormalX(r, r.x), r.w, NormalX(r, that.x), that.w)
  }

  /**
   * `intersectsX`: the x ranges overlap, either directly or after moving the
   * one rectangle that crosses the right edge of the world to the other side.
   */
  function IntersectsX(r: Rect, that: Rect): (overlap: bool)
    requires IntersectsXDefined(r, that)
    ensures (var thisX, thatX := NormalX(r, r.x), NormalX(r, that.x);
      overlap <==>
        (thisX + r.w > thatX && thisX < thatX + that.w) ||
        ((thisX + r.w < r.worldWidth) != (thatX + that.w < r.worldWidth) &&
         ((thatX + r.worldWidth < thisX + r.w && thisX < thatX + that.w + r.worldWidth) ||
          (thatX < thisX + r.w + r.worldWidth && thisX + r.worldWidth < thatX + that.w))))
  {
    var W := r.worldWidth;
    var thisX := NormalX(r, r.x);
    var thatX := NormalX(r, that.x);
    var direct := (thisX + r.w > thatX) && (thisX < thatX + that.w);
    if (thisX + r.w < W) != (thatX + that.w < W) then
      var thisWraps := (thatX + W < thisX + r.w) && (thisX < thatX + that.w + W);
      var thatWraps := (thatX < thisX + r.w + W) && (thisX + W < thatX + that.w);
      direct || thisWraps || thatWraps
    else
      direct
  }

  /** The sanity assertion holds whenever both widths are positive. */
  lemma OverlapAssertHoldsForPositiveWidths(thisX: int, w: int, thatX: int, thatW: int)
    requires w > 0 && thatW > 0
    ensures OverlapAssert(thisX, w, thatX, thatW)
  {
  }

  /** It fails for a zero-width rectangle whose left edge meets the other's. */
  lemma OverlapAssertFailsForZeroWidth()
    ensures !OverlapAssert(3, 0, 3, 5)
  {
  }

  /** `intersectsY`: the half-open y ranges overlap. */
  function IntersectsY(r: Rect, that: Rect): (overlap: bool)
    requires 0 <= r.y && 0 <= that.y && 0 <= r.h && 0 <= that.h
    ensures overlap <==> r.y < that.y + that.h && that.y < r.y + r.h
  {
    (r.y + r.h > that.y) && (r.y < that.y + that.h)
  }

  predicate IntersectsDefined(r: Rect, that: Rect)
  {
    IntersectsXDefined(r, that) &&
    0 <= r.y && 0 <= that.y && 0 <= r.h && 0 <= that.h
  }

  /** `intersects`: both the x and the y ranges overlap. */
  function Intersects(r: Rect, that: Rect): (overlap: bool)
    requires IntersectsDefined(r, that)
    ensures overlap <==> IntersectsX(r, that) && IntersectsY(r, that)
  {
    IntersectsX(r, that) && IntersectsY(r, that)
  }

  /** Two rectangles of the same world can be tested in either order. */
  lemma IntersectsSymmetric(r: Rect, that: Rect)
    requires r.worldWidth == that.worldWidth
    requires 0 <= r.x < r.worldWidth && 0 <= that.x < r.worldWidth
    requires 0 < r.w && 0 < that.w
    requires 0 <= r.y && 0 <= that.y && 0 <= r.h && 0 <= that.h
    ensures IntersectsDefined(r, that) && IntersectsDefined(that, r)
    ensures Intersects(r, that) == Intersects(that, r)
  {
    OverlapAssertHoldsForPositiveWidths(NormalX(r, r.x), r.w, NormalX(r, that.x), that.w);
    OverlapAssertHoldsForPositiveWidths(NormalX(that, that.x), that.w, NormalX(that, r.x), r.w);
  }

  /** `(x + W) % W` is unchanged when x moves by a whole world width (x staying at least -W). */
  lemma NormalXShift(r: Rect, x: int, k: int)
    requires r.worldWidth > 0 && x + r.worldWidth >= 0 && x + k * r.worldWidth + r.worldWidth >= 0
    ensures NormalX(r, x + k * r.worldWidth) == NormalX(r, x)
  {
    var W := r.worldWidth;
    ModAddMultiple(x + W, W, k);
    assert x + k * W + W == (x + W) + k * W;
  }

  /** Moving a rectangle by one world width, either way, does not change `intersects`. */
  lemma IntersectsWrapInvariant(r: Rect, that: Rect, k: int)
    requires k == 1 || k == -1
    requires IntersectsDefined(r, that)
    requires r.x + k * r.worldWidth + r.worldWidth >= 0
    ensures IntersectsDefined(r.(x := r.x + k * r.worldWidth), that)
    ensures Intersects(r.(x := r.x + k * r.worldWidth), that) == Intersects(r, that)
  {
    NormalXShift(r, r.x, k);
    var moved := r.(x := r.x + k * r.worldWidth);
    assert NormalX(moved, moved.x) == NormalX(r, r.x);
    assert NormalX(moved, that.x) == NormalX(r, that.x);
  }

  /** The basic intersecting case of the collision tests, on an 80-wide world. */
  lemma BasicCaseIntersecting()
    ensures var one, two := Rect(80, 5, 20, 6, 8), Rect(80, 6, 15, 12, 10);
      IntersectsDefined(one, two) && IntersectsDefined(two, one) &&
      Intersects(one, two) && Intersects(two, one)
  {
    var one, two := Rect(80, 5, 20, 6, 8), Rect(80, 6, 15, 12, 10);
    assert NormalX(one, 5) == 5 && NormalX(one, 6) == 6;
    assert NormalX(two, 5) == 5 && NormalX(two, 6) == 6;
    assert OverlapAssert(5, 6, 6, 12) && OverlapAssert(6, 12, 5, 6);
    assert IntersectsXDefined(one, two) && IntersectsXDefined(two, one);
    assert IntersectsX(one, two) && IntersectsX(two, one);
  }

  /** The basic non-intersecting case: the same x ranges, but y ranges apart. */
  lemma BasicCaseApart()
    ensures var one, two := Rect(80, 5, 20, 6, 8), Rect(80, 6, 32, 12, 10);
      IntersectsDefined(one, two) && IntersectsDefined(two, one) &&
      !Intersects(one, two) && !Intersects(two, one)
  {
    var one, two := Rect(80, 5, 20, 6, 8), Rect(80, 6, 32, 12, 10);
    assert NormalX(one, 5) == 5 && NormalX(one, 6) == 6;
    assert NormalX(two, 5) == 5 && NormalX(two, 6) == 6;
    assert OverlapAssert(5, 6, 6, 12) && OverlapAssert(6, 12, 5, 6);
    assert IntersectsXDefined(one, two) && IntersectsXDefined(two, one);
    assert !IntersectsY(one, two) && !IntersectsY(two, one);
  }

  /**
   * `collideEdge(worldHeight)`: the rectangle is pushed below the top of the
   * world, then clamped to the bottom; the result says whether it touched
   * the bottom. Returns the new value of `*this` with the result.
   */
  function CollideEdge(r: Rect, worldHeight: int): (res: (Rect, bool))
    ensures res.0 == r.(y := res.0.y)
    ensures res.1 <==> Min(r.y, worldHeight - r.h - 1) <= 0
    ensures res.1 ==> res.0.y == 0
    ensures !res.1 ==> res.0.y == Min(r.y, worldHeight - r.h - 1) && 0 < res.0.y <= r.y
    ensures res.0.y >= 0
  {
    var y := Min(r.y, worldHeight - r.h - 1);
    if y <= 0 then (r.(y := 0), true) else (r.(y := y), false)
  }

  /** After `collideEdge` the rectangle's top is below the top of the world, unless it was clamped to 0. */
  lemma CollideEdgeKeepsInside(r: Rect, worldHeight: int)
    ensures var (moved, _) := CollideEdge(r, worldHeight);
      moved.y == 0 || moved.y + r.h < worldHeight
  {
  }
}
