/** The number of people living on a tile (Population.java). */
module Populations {
  import opened TileTypes

  /** What `setTotal(t)` stores: `t` itself when it is not negative, else 0. */
  function Clamp(t: int): (r: nat)
    ensures r >= t && (r == t || r == 0)
  {
    if t > 0 then t else 0
  }

  /** Clamping a stored value again changes nothing: `setTotal` is idempotent. */
  lemma ClampIdempotent(t: int)
    ensures Clamp(Clamp(t)) == Clamp(t)
  {
  }

  class Population {
    /** `setTotal` is the only writer of `total` and never stores a negative value, so the field
        is a natural number. */
    var total: nat

    /** `new Population()`: Java initialises the int field to 0. */
    constructor ()
      ensures total == 0
    {
      total := 0;
    }

    /** Stores `max(t, 0)`. The new total does not depend on the old one, so setting the same
        value twice leaves the same state as setting it once. */
    method SetTotal(t: int)
      modifies this
      ensures total == Clamp(t)
    {
      total := if t > 0 then t else 0;
    }

    /** `getTotal()`: never negative. */
    function GetTotal(): (r: int)
      reads this
      ensures r == total && r >= 0
    {
      total
    }

    /** `makePopulation(type)`: a new population holding the kind's suggested number of people,
        which is never negative, so the clamp never changes it. */
    static method MakePopulation(t: TileType) returns (p: Population)
      ensures fresh(p)
      ensures p.total == SuggestedPopulation(t)
    {
      p := new Population();
      p.SetTotal(SuggestedPopulation(t));
    }
  }
}
