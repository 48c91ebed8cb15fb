/** The process-wide `GameData.random`, with every draw decided in advance so that generation is
    deterministic. Each kind of draw the engine makes has its own stream and cursor. */
module Randomness {

  /** Where a spread-amount `nextDouble()` falls: below 0.2, below 0.4, or neither. */
  datatype SpreadDraw = BelowTwoTenths | BelowFourTenths | NotBelowFourTenths

  class Random {
    /** The k-th `nextDouble() < WATER_RATE` test. */
    const waterDraws: nat -> bool
    /** The k-th spread-amount `nextDouble()`. */
    const spreadDraws: nat -> SpreadDraw
    /** The k-th `nextInt(bound)` is `intDraws(k) % bound`. */
    const intDraws: nat -> nat
    var waterUsed: nat
    var spreadUsed: nat
    var intUsed: nat

    constructor (water: nat -> bool, spread: nat -> SpreadDraw, ints: nat -> nat)
      ensures waterDraws == water && spreadDraws == spread && intDraws == ints
      ensures waterUsed == 0 && spreadUsed == 0 && intUsed == 0
    {
      waterDraws, spreadDraws, intDraws := water, spread, ints;
      waterUsed, spreadUsed, intUsed := 0, 0, 0;
    }

    method NextIsWater() returns (b: bool)
      modifies this`waterUsed
      ensures b == waterDraws(old(waterUsed))
      ensures waterUsed == old(waterUsed) + 1
    {
      b := waterDraws(waterUsed);
      waterUsed := waterUsed + 1;
    }

    method NextSpread() returns (d: SpreadDraw)
      modifies this`spreadUsed
      ensures d == spreadDraws(old(spreadUsed))
      ensures spreadUsed == old(spreadUsed) + 1
    {
      d := spreadDraws(spreadUsed);
      spreadUsed := spreadUsed + 1;
    }

    /** `nextInt(bound)`: a value in [0, bound). */
    method NextInt(bound: int) returns (r: int)
      requires bound > 0
      modifies this`intUsed
      ensures 0 <= r < bound
      ensures r == intDraws(old(intUsed)) % bound
      ensures intUsed == old(intUsed) + 1
    {
      r := intDraws(intUsed) % bound;
      intUsed := intUsed + 1;
    }
  }
}
