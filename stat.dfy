/**
 * `Stat`: a stat such as health or mana, with a current amount `full`, a
 * temporary cap `part` that regeneration cannot pass, and a maximum. The
 * source's `double`s are modelled as reals (rounding is not modelled).
 */
module Stats {

  function RMax(a: real, b: real): (m: real)
    ensures m >= a && m >= b && (m == a || m == b)
  {
    if a >= b then a else b
  }

  function RMin(a: real, b: real): (m: real)
    ensures m <= a && m <= b && (m == a || m == b)
  {
    if a <= b then a else b
  }

  /** `std::min(maxStat, std::max(0.0, v))`: the value brought into `[0, maxStat]`. */
  function Clamp(v: real, maxStat: real): (c: real)
    ensures maxStat >= 0.0 ==> 0.0 <= c <= maxStat
    ensures maxStat >= 0.0 && 0.0 <= v <= maxStat ==> c == v
    ensures maxStat >= 0.0 && v < 0.0 ==> c == 0.0
    ensures maxStat >= 0.0 && v > maxStat ==> c == maxStat
  {
    RMin(maxStat, RMax(0.0, v))
  }

  /** The amount `setFull(v)` stores: `v` clamped, then lowered to the cap. */
  function FullAfterSet(v: real, maxStat: real, part: real): (full: real)
    ensures full <= part
    ensures maxStat >= 0.0 && part >= 0.0 ==> 0.0 <= full
    ensures full == Clamp(v, maxStat) || full == part
  {
    var clamped := Clamp(v, maxStat);
    if clamped > part then part else clamped
  }

  /** The cap `setPart(v)` stores: `v` clamped. */
  function PartAfterSet(v: real, maxStat: real): (part: real)
    ensures part == Clamp(v, maxStat)
  {
    Clamp(v, maxStat)
  }

  /**
   * What `regenerate` adds to `full`: `linearRegen`, plus, once the wait is
   * over (`ticksUntilRegen < 0`), a term that grows with the time waited.
   */
  function RegenTotal(maxStat: real, full: real, part: real, linearRegen: real, percentRegen: real,
                      quadraticRegen: real, timeRegen: real, ticksUntilRegen: int): (total: real)
    ensures ticksUntilRegen >= 0 ==> total == linearRegen
    ensures ticksUntilRegen < 0 ==>
      total == linearRegen +
        (percentRegen * (maxStat + part) + quadraticRegen * full) * (-timeRegen * ticksUntilRegen as real)
  {
    var total := if ticksUntilRegen < 0 then
      (percentRegen * (maxStat + part) + quadraticRegen * full) * (-1.0 * timeRegen * ticksUntilRegen as real)
    else 0.0;
    total + linearRegen
  }

  /** `setFull` leaves the amount inside `[0, part]` and keeps it where it can. */
  lemma FullAfterSetMeaning(v: real, maxStat: real, part: real)
    requires 0.0 <= part <= maxStat
    ensures 0.0 <= FullAfterSet(v, maxStat, part) <= part
    ensures 0.0 <= v <= part ==> FullAfterSet(v, maxStat, part) == v
    ensures v < 0.0 ==> FullAfterSet(v, maxStat, part) == 0.0
    ensures v > part ==> FullAfterSet(v, maxStat, part) == part
  {
  }

  /** `fill` reaches the maximum in both the cap and the amount. */
  lemma FillReachesMax(maxStat: real)
    requires maxStat >= 0.0
    ensures var part := PartAfterSet(maxStat, maxStat);
      part == maxStat && FullAfterSet(maxStat, maxStat, part) == maxStat
  {
  }

  class Stat {
    var maxStat: real
    var full: real
    var part: real
    var linearRegen: real
    var percentRegen: real
    var quadraticRegen: real
    var timeRegen: real
    var ticksUntilRegen: int
    var baseRegenTicks: int

    /** What the stat bars assert: the amount is under the cap, the cap under the maximum. */
    ghost predicate Valid()
      reads this
    {
      0.0 <= full <= part <= maxStat
    }

    /** `Stat()`: everything 0, except that a loss delays regeneration by one tick. */
    constructor()
      ensures maxStat == 0.0 && full == 0.0 && part == 0.0
      ensures linearRegen == 0.0 && percentRegen == 0.0 && quadraticRegen == 0.0 && timeRegen == 0.0
      ensures ticksUntilRegen == 0 && baseRegenTicks == 1
      ensures Valid()
    {
      full := 0.0;
      part := 0.0;
      maxStat := 0.0;
      linearRegen := 0.0;
      percentRegen := 0.0;
      quadraticRegen := 0.0;
      timeRegen := 0.0;
      ticksUntilRegen := 0;
      baseRegenTicks := 1;
    }

    /**
     * `from_json`: the loaded values are stored as they are, except that
     * `ticksUntilRegen` always starts at 0.
     */
    method FromJson(maxStat': real, full': real, part': real, linearRegen': real, percentRegen': real,
                    quadraticRegen': real, timeRegen': real, baseRegenTicks': int)
      modifies this
      ensures maxStat == maxStat' && full == full' && part == part'
      ensures linearRegen == linearRegen' && percentRegen == percentRegen'
      ensures quadraticRegen == quadraticRegen' && timeRegen == timeRegen'
      ensures ticksUntilRegen == 0 && baseRegenTicks == baseRegenTicks'
    {
      maxStat := maxStat';
      full := full';
      part := part';
      linearRegen := linearRegen';
      percentRegen := percentRegen';
      quadraticRegen := quadraticRegen';
      timeRegen := timeRegen';
      ticksUntilRegen := 0;
      baseRegenTicks := baseRegenTicks';
    }

    /** `setFull(v)`. */
    method SetFull(v: real)
      modifies this
      ensures full == FullAfterSet(v, old(maxStat), old(part))
      ensures maxStat == old(maxStat) && part == old(part) && ticksUntilRegen == old(ticksUntilRegen)
      ensures unchanged(`linearRegen, `percentRegen, `quadraticRegen, `timeRegen, `baseRegenTicks)
      ensures old(maxStat >= 0.0 && 0.0 <= part <= maxStat) ==> Valid()
    {
      var newValue := RMax(0.0, v);
      newValue := RMin(maxStat, newValue);
      full := newValue;
      if full > part {
        full := part;
      }
    }

    /** `setPart(v)`: the cap is clamped, and the amount is lowered to it if it was above. */
    method SetPart(v: real)
      modifies this
      ensures part == PartAfterSet(v, old(maxStat))
      ensures full == if old(full) > part then part else old(full)
      ensures maxStat == old(maxStat) && ticksUntilRegen == old(ticksUntilRegen)
      ensures unchanged(`linearRegen, `percentRegen, `quadraticRegen, `timeRegen, `baseRegenTicks)
      ensures old(maxStat >= 0.0 && 0.0 <= full) ==> Valid()
    {
      var newValue := RMax(0.0, v);
      newValue := RMin(maxStat, newValue);
      part := newValue;
      if full > part {
        SetFull(part);
      }
    }

    /** `resetRegen`: regeneration waits `baseRegenTicks` again. */
    method ResetRegen()
      modifies this
      ensures ticksUntilRegen == old(baseRegenTicks)
      ensures unchanged(`maxStat, `full, `part, `linearRegen, `percentRegen, `quadraticRegen, `timeRegen,
                        `baseRegenTicks)
    {
      ticksUntilRegen := baseRegenTicks;
    }

    /** `addFull(amount)`: a loss restarts the regeneration wait. */
    method AddFull(amount: real)
      modifies this
      ensures full == FullAfterSet(old(full) + amount, old(maxStat), old(part))
      ensures maxStat == old(maxStat) && part == old(part)
      ensures ticksUntilRegen == if amount < 0.0 then old(baseRegenTicks) else old(ticksUntilRegen)
      ensures unchanged(`linearRegen, `percentRegen, `quadraticRegen, `timeRegen, `baseRegenTicks)
      ensures old(Valid()) ==> Valid()
    {
      if amount < 0.0 {
        ResetRegen();
      }
      SetFull(full + amount);
    }

    /** `addPart(amount)`: a loss restarts the regeneration wait. */
    method AddPart(amount: real)
      modifies this
      ensures part == PartAfterSet(old(part) + amount, old(maxStat))
      ensures full == if old(full) > part then part else old(full)
      ensures maxStat == old(maxStat)
      ensures ticksUntilRegen == if amount < 0.0 then old(baseRegenTicks) else old(ticksUntilRegen)
      ensures unchanged(`linearRegen, `percentRegen, `quadraticRegen, `timeRegen, `baseRegenTicks)
      ensures old(Valid()) ==> Valid()
    {
      if amount < 0.0 {
        ResetRegen();
      }
      SetPart(part + amount);
    }

    /** `fill`: the cap and then the amount are set to the maximum. */
    method Fill()
      modifies this
      ensures part == PartAfterSet(old(maxStat), old(maxStat))
      ensures full == FullAfterSet(old(maxStat), old(maxStat), part)
      ensures old(maxStat) >= 0.0 ==> part == maxStat && full == maxStat && Valid()
      ensures maxStat == old(maxStat) && ticksUntilRegen == old(ticksUntilRegen)
      ensures unchanged(`linearRegen, `percentRegen, `quadraticRegen, `timeRegen, `baseRegenTicks)
    {
      SetPart(maxStat);
      SetFull(maxStat);
    }

    /** `regenerate`: adds `RegenTotal` to the amount through `addFull`. */
    method Regenerate()
      modifies this
      ensures var total := RegenTotal(old(maxStat), old(full), old(part), old(linearRegen), old(percentRegen),
                                      old(quadraticRegen), old(timeRegen), old(ticksUntilRegen));
        full == FullAfterSet(old(full) + total, old(maxStat), old(part)) &&
        ticksUntilRegen == if total < 0.0 then old(baseRegenTicks) else old(ticksUntilRegen)
      ensures maxStat == old(maxStat) && part == old(part)
      ensures unchanged(`linearRegen, `percentRegen, `quadraticRegen, `timeRegen, `baseRegenTicks)
      ensures old(Valid()) ==> Valid()
    {
      var total := 0.0;
      if ticksUntilRegen < 0 {
        total := percentRegen * (maxStat + part);
        total := total + quadraticRegen * full;
        total := total * (-1.0 * timeRegen * ticksUntilRegen as real);
      }
      total := total + linearRegen;
      AddFull(total);
    }

    /** `update`: regenerate, then one tick less to wait. */
    method Update()
      modifies this
      ensures var total := RegenTotal(old(maxStat), old(full), old(part), old(linearRegen), old(percentRegen),
                                      old(quadraticRegen), old(timeRegen), old(ticksUntilRegen));
        full == FullAfterSet(old(full) + total, old(maxStat), old(part)) &&
        ticksUntilRegen == (if total < 0.0 then old(baseRegenTicks) else old(ticksUntilRegen)) - 1
      ensures maxStat == old(maxStat) && part == old(part)
      ensures unchanged(`linearRegen, `percentRegen, `quadraticRegen, `timeRegen, `baseRegenTicks)
      ensures old(Valid()) ==> Valid()
    {
      Regenerate();
      ticksUntilRegen := ticksUntilRegen - 1;
    }
  }
}
