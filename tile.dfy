/** One square of terrain (Tile.java): a mutable kind plus the population it was created with. */
module Tiles {
  import opened TileTypes
  import opened Populations

  class Tile {
    var tileType: TileType
    const population: Population

    /** `new Tile(type)`: the given kind, and a population made for that kind. */
    constructor (t: TileType)
      ensures tileType == t
      ensures fresh(population)
      ensures population.total == SuggestedPopulation(t)
    {
      var p := Population.MakePopulation(t);
      tileType, population := t, p;
    }

    function GetType(): (t: TileType)
      reads this
      ensures t == tileType
    {
      tileType
    }

    /** `setType` changes the kind and nothing else: the population object stays the same. */
    method SetType(t: TileType)
      modifies this`tileType
      ensures tileType == t
    {
      tileType := t;
    }

    predicate IsBeach()
      reads this
    {
      tileType == Beach
    }

    predicate IsWater()
      reads this
    {
      tileType == Water
    }
  }

  /** A tile is never reported as both beach and water. */
  lemma BeachExcludesWater(t: Tile)
    ensures !(t.IsBeach() && t.IsWater())
    ensures t.IsBeach() <==> t.GetType() == Beach
    ensures t.IsWater() <==> t.GetType() == Water
  {
  }
}
