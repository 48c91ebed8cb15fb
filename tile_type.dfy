/** The kinds of terrain a tile can have (TileType.java). */
module TileTypes {

  /** Exactly three kinds, in declaration order. */
  datatype TileType = Hill | Beach | Water

  /** The `suggestedPopulation` each kind is declared with. */
  function SuggestedPopulation(t: TileType): (p: int)
    ensures p >= 0
    ensures p == 0 <==> t == Water
  {
    match t
    case Hill => 4
    case Beach => 2
    case Water => 0
  }
}
