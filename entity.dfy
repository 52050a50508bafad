/**
 * `Entity` (`Entity.cc`, with the `StatBar` of `UIHelpers.hh`): a movable
 * thing with health, fullness and mana bars, which takes damage and, after
 * a long enough fall, fall damage.
 */
module Entities {
  import opened CInts
  import opened Movables

  /** The three-channel `Light` the bars are drawn in. */
  datatype Colour = Colour(r: Byte, g: Byte, b: Byte)

  /**
   * A `StatBar`: its stats (`max`, `fullStat`, `partStat`), the drawn widths
   * of the full and the regenerable parts, the bar's whole width, and its
   * colours. Its position and height only place it on the screen.
   */
  datatype StatBar = StatBar(
    max: int, fullStat: int, partStat: int,
    full: int, part: int, totalWidth: int,
    fullColor: Colour, partColor: Colour, emptyColor: Colour)

  /** A C cast of a (finite) number to `int`: the value truncated toward zero. */
  function Truncate(x: real): (n: int)
    ensures x >= 0.0 ==> 0.0 <= n as real <= x < n as real + 1.0
    ensures x < 0.0 ==> n as real - 1.0 < x <= n as real <= 0.0
  {
    if x >= 0.0 then x.Floor else -((-x).Floor)
  }

  /**
   * `convert`: the width of the bar that a stat of `value` fills, the
   * fraction `value / max` of the whole width, truncated; 0 for a bar whose
   * maximum is 0.
   */
  function Convert(max: int, totalWidth: int, value: int): (width: int)
    ensures max == 0 || value == 0 ==> width == 0
    ensures max != 0 && value == max ==> width == totalWidth
    ensures max > 0 && 0 <= value <= max && totalWidth >= 0 ==> 0 <= width <= totalWidth
  {
    if max != 0 then
      var fraction := value as real / max as real;
      FractionBounds(value, max, totalWidth);
      Truncate(fraction * totalWidth as real)
    else 0
  }

  /** The arithmetic of `Convert`: a fraction between 0 and 1 of a width lies between 0 and that width. */
  lemma FractionBounds(value: int, max: int, totalWidth: int)
    requires max != 0
    ensures value == max ==> value as real / max as real * totalWidth as real == totalWidth as real
    ensures max > 0 && 0 <= value <= max && totalWidth >= 0 ==>
      0.0 <= value as real / max as real * totalWidth as real <= totalWidth as real
  {
    var f := value as real / max as real;
    if max > 0 && 0 <= value <= max && totalWidth >= 0 {
      assert f * max as real == value as real;
      assert 0.0 <= f <= 1.0;
      assert f * totalWidth as real <= 1.0 * totalWidth as real;
    }
  }

  /** A bar as drawn: both widths are those its stats call for. */
  predicate Displayed(bar: StatBar)
  {
    bar.full == Convert(bar.max, bar.totalWidth, bar.fullStat) && bar.part == Convert(bar.max, bar.totalWidth, bar.partStat)
  }

  /**
   * `takeDamage(normal, wounds)` on the health bar: `setFull` lowers the
   * full stat by `normal` and `setPart` the regenerable stat by `wounds`,
   * neither clamped, and both widths are redrawn.
   */
  function Damaged(bar: StatBar, normal: int, wounds: int): (b: StatBar)
    ensures b.fullStat == bar.fullStat - normal && b.partStat == bar.partStat - wounds
    ensures Displayed(b)
    ensures b.max == bar.max && b.totalWidth == bar.totalWidth
    ensures b.fullColor == bar.fullColor && b.partColor == bar.partColor && b.emptyColor == bar.emptyColor
  {
    var fullStat, partStat := bar.fullStat - normal, bar.partStat - wounds;
    bar.(fullStat := fullStat, full := Convert(bar.max, bar.totalWidth, fullStat),
         partStat := partStat, part := Convert(bar.max, bar.totalWidth, partStat))
  }

  /** Two hits do what one hit of their sum does. */
  lemma DamageAdds(bar: StatBar, n1: int, w1: int, n2: int, w2: int)
    ensures Damaged(Damaged(bar, n1, w1), n2, w2) == Damaged(bar, n1 + n2, w1 + w2)
  {
  }

  /** On a bar as drawn, healing a hit by the same amounts gives back the bar. */
  lemma DamageUndone(bar: StatBar, normal: int, wounds: int)
    requires Displayed(bar)
    ensures Damaged(Damaged(bar, normal, wounds), -normal, -wounds) == bar
  {
  }

  /** The fall-damage condition: a fall beyond `maxFallDistance`, which is not -1 (the mark of no fall damage). */
  predicate FallHurts(pixelsFallen: int, maxFallDistance: int)
  {
    pixelsFallen > maxFallDistance && maxFallDistance != -1
  }

  /**
   * The damage of `takeFallDamage`: with `d` the pixels fallen beyond
   * `maxFallDistance`, a quadratic part `d * d / 256 / 8` and a linear part
   * `d / 8`. It is never negative, and it is nothing exactly when the fall
   * does not hurt or ends within 8 pixels of the limit.
   */
  function FallDamage(pixelsFallen: int, maxFallDistance: int): (damage: int)
    ensures damage >= 0
    ensures damage == 0 <==> !FallHurts(pixelsFallen, maxFallDistance) || pixelsFallen - maxFallDistance < 8
  {
    if FallHurts(pixelsFallen, maxFallDistance) then
      var d := pixelsFallen - maxFallDistance;
      assert d >= 8 ==> d / 8 >= 1;
      assert d < 8 ==> d * d < 2048 by {
        if d < 8 {
          MulMonotone(d, d, 8);
        }
      }
      d * d / 256 / 8 + d / 8
    else 0
  }

  /** `a * a <= b * b` for `0 <= a <= b`, and the square of `a` stays below `b * b` once `a < b`. */
  lemma MulMonotone(a: int, x: int, b: int)
    requires 0 <= a == x < b
    ensures a * x < b * b
  {
    assert a * x <= a * b;
    assert a * b < b * b;
  }

  /** A longer fall, with the same limit, never hurts less. */
  lemma FallDamageMonotone(p1: int, p2: int, maxFallDistance: int)
    requires p1 <= p2
    ensures FallDamage(p1, maxFallDistance) <= FallDamage(p2, maxFallDistance)
  {
    if FallHurts(p1, maxFallDistance) {
      var d1, d2 := p1 - maxFallDistance, p2 - maxFallDistance;
      assert d1 * d1 <= d2 * d2 by {
        MulLeq(d1, d2, d1);
        MulLeq(d1, d2, d2);
      }
      DivMonotone(d1 * d1, d2 * d2, 256);
      DivMonotone(d1 * d1 / 256, d2 * d2 / 256, 8);
      DivMonotone(d1, d2, 8);
    }
  }

  /** The bar colours the constructor sets. */
  const HEALTH_COLOURS := (Colour(0xFF, 0x10, 0x20), Colour(0x40, 0x00, 0x10), Colour(0x00, 0x00, 0x00))
  const FULLNESS_COLOURS := (Colour(0xF0, 0xF0, 0x00), Colour(0x88, 0x44, 0x00), Colour(0x00, 0x00, 0x00))
  const MANA_COLOURS := (Colour(0x10, 0x28, 0xFF), Colour(0x08, 0x18, 0x60), Colour(0x00, 0x00, 0x00))

  /** A bar given its (full, part, empty) colours. */
  function Coloured(bar: StatBar, colours: (Colour, Colour, Colour)): StatBar
  {
    bar.(fullColor := colours.0, partColor := colours.1, emptyColor := colours.2)
  }

  class Entity {
    /** The `Movable` part of the entity, which counts `pixelsFallen`. */
    const body: Movable
    var health: StatBar
    var fullness: StatBar
    var mana: StatBar
    /** The farthest fall, in pixels, that does no damage; -1 for none ever. */
    var maxFallDistance: int

    /**
     * The constructor: no fall is safe until the subclass says otherwise,
     * and the bars get their colours. Their stats, which the subclass
     * sets, are given.
     */
    constructor(body: Movable, health: StatBar, fullness: StatBar, mana: StatBar)
      ensures this.body == body && maxFallDistance == 0
      ensures this.health == Coloured(health, HEALTH_COLOURS)
      ensures this.fullness == Coloured(fullness, FULLNESS_COLOURS)
      ensures this.mana == Coloured(mana, MANA_COLOURS)
    {
      this.body := body;
      maxFallDistance := 0;
      this.health := Coloured(health, HEALTH_COLOURS);
      this.fullness := Coloured(fullness, FULLNESS_COLOURS);
      this.mana := Coloured(mana, MANA_COLOURS);
    }

    /** `takeDamage(normal, wounds)`: only the health bar changes. */
    method TakeDamage(normal: int, wounds: int)
      modifies this`health
      ensures health == Damaged(old(health), normal, wounds)
    {
      var fullStat := health.fullStat - normal;
      health := health.(fullStat := fullStat, full := Convert(health.max, health.totalWidth, fullStat));
      var partStat := health.partStat - wounds;
      health := health.(partStat := partStat, part := Convert(health.max, health.totalWidth, partStat));
    }

    /**
     * `takeFallDamage`: after a fall that hurts, the full health stat drops
     * by `FallDamage` and the regenerable one not at all; otherwise nothing
     * changes.
     */
    method TakeFallDamage()
      modifies this`health
      ensures health == if FallHurts(body.pixelsFallen, maxFallDistance)
        then Damaged(old(health), FallDamage(body.pixelsFallen, maxFallDistance), 0)
        else old(health)
    {
      if body.pixelsFallen > maxFallDistance && maxFallDistance != -1 {
        var effectiveDistance := body.pixelsFallen - maxFallDistance;
        var damage := effectiveDistance * effectiveDistance / 256 / 8;
        damage := damage + effectiveDistance / 8;
        TakeDamage(damage, 0);
      }
    }
  }
}
