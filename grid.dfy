/** The tile kinds of an N-by-N TileMatrix as a value, and what its operations mean on that value:
    the 4-connected beach region a flood covers, the shoreline classification, and the water count. */
module Grids {
  import opened TileTypes

  /** A position: column `i` and row `j`, as in `getTileType(i, j)` reading `tileArray[j][i]`. */
  datatype Coord = Coord(i: int, j: int)

  /** `Dimension`: a width and a height. */
  datatype Dimension = Dimension(width: int, height: int)

  /** `g[j][i]` is the kind of the tile at column i, row j. */
  type Grid = seq<seq<TileType>>

  predicate IsSquare(g: Grid, n: int)
  {
    |g| == n && forall j :: 0 <= j < n ==> |g[j]| == n
  }

  predicate InBounds(n: int, c: Coord)
  {
    0 <= c.i < n && 0 <= c.j < n
  }

  function At(g: Grid, c: Coord): TileType
    requires IsSquare(g, |g|) && InBounds(|g|, c)
  {
    g[c.j][c.i]
  }

  function AllCells(n: nat): (cells: set<Coord>)
    ensures forall c :: c in cells <==> InBounds(n, c)
  {
    set i, j | 0 <= i < n && 0 <= j < n :: Coord(i, j)
  }

  /** The four non-diagonal neighbours that `flood` visits. */
  predicate Adjacent(a: Coord, b: Coord)
  {
    (a.i == b.i && (a.j == b.j + 1 || a.j + 1 == b.j)) ||
    (a.j == b.j && (a.i == b.i + 1 || a.i + 1 == b.i))
  }

  /** The 3-by-3 block around `c` (itself included) that the shoreline classifier inspects. */
  predicate Near(c: Coord, d: Coord)
  {
    -1 <= d.i - c.i <= 1 && -1 <= d.j - c.j <= 1
  }

  /** Some in-bounds tile among the 8-neighbours of `c` (or `c` itself) is water. */
  ghost predicate HasWaterNear(g: Grid, c: Coord)
    requires IsSquare(g, |g|)
  {
    exists d :: InBounds(|g|, d) && Near(c, d) && At(g, d) == Water
  }

  // ---------------------------------------------------------------------------------------------
  // Flood region

  /** A walk through 4-adjacent in-bounds beach tiles. */
  ghost predicate IsBeachPath(g: Grid, p: seq<Coord>)
    requires IsSquare(g, |g|)
  {
    && |p| > 0
    && (forall k :: 0 <= k < |p| ==> InBounds(|g|, p[k]) && At(g, p[k]) == Beach)
    && (forall k :: 0 <= k < |p| - 1 ==> Adjacent(p[k], p[k + 1]))
  }

  ghost predicate Reachable(g: Grid, s: Coord, c: Coord)
    requires IsSquare(g, |g|)
  {
    exists p :: IsBeachPath(g, p) && p[0] == s && p[|p| - 1] == c
  }

  /** The 4-connected beach region containing `s`; empty when `s` is not an in-bounds beach. */
  ghost function Region(g: Grid, s: Coord): (r: set<Coord>)
    requires IsSquare(g, |g|)
    ensures forall c :: c in r <==> InBounds(|g|, c) && Reachable(g, s, c)
  {
    set c | c in AllCells(|g|) && Reachable(g, s, c)
  }

  /** Every beach neighbour of a member of `S` that is not in `pending` is in `S`. */
  ghost predicate ClosedExcept(g: Grid, S: set<Coord>, pending: set<Coord>)
    requires IsSquare(g, |g|)
  {
    forall v, w :: v in S && v !in pending && Adjacent(v, w) && InBounds(|g|, w) && At(g, w) == Beach ==> w in S
  }

  /** The four neighbours, spelled out. */
  lemma AdjacentCases(c: Coord, w: Coord)
    requires Adjacent(c, w)
    ensures w == Coord(c.i, c.j - 1) || w == Coord(c.i, c.j + 1) || w == Coord(c.i - 1, c.j) || w == Coord(c.i + 1, c.j)
  {
  }

  /** `R` is a set of in-bounds beach tiles that holds every beach neighbour of its members. */
  ghost predicate BeachClosed(g: Grid, R: set<Coord>)
    requires IsSquare(g, |g|)
  {
    && (forall c :: c in R ==> InBounds(|g|, c) && At(g, c) == Beach)
    && (forall c, d :: c in R && Adjacent(c, d) && InBounds(|g|, d) && At(g, d) == Beach ==> d in R)
  }

  /** A region is such a set. */
  lemma RegionBeachClosed(g: Grid, s: Coord)
    requires IsSquare(g, |g|)
    ensures BeachClosed(g, Region(g, s))
  {
    forall c | c in Region(g, s)
      ensures InBounds(|g|, c) && At(g, c) == Beach
    {
      RegionIsBeach(g, s, c);
    }
    forall c, d | c in Region(g, s) && Adjacent(c, d) && InBounds(|g|, d) && At(g, d) == Beach
      ensures d in Region(g, s)
    {
      RegionStep(g, s, c, d);
    }
  }

  /** Once every beach neighbour of `c` is in `S`, `c` need no longer be pending. */
  lemma CloseAround(g: Grid, S: set<Coord>, pending: set<Coord>, c: Coord)
    requires IsSquare(g, |g|) && ClosedExcept(g, S, pending + {c})
    requires forall w :: Adjacent(c, w) && InBounds(|g|, w) && At(g, w) == Beach ==> w in S
    ensures ClosedExcept(g, S, pending)
  {
  }

  lemma RegionIsBeach(g: Grid, s: Coord, c: Coord)
    requires IsSquare(g, |g|) && c in Region(g, s)
    ensures InBounds(|g|, c) && At(g, c) == Beach
  {
    var p :| IsBeachPath(g, p) && p[0] == s && p[|p| - 1] == c;
    assert InBounds(|g|, p[|p| - 1]);
  }

  lemma RegionHasStart(g: Grid, s: Coord)
    requires IsSquare(g, |g|) && InBounds(|g|, s) && At(g, s) == Beach
    ensures s in Region(g, s)
  {
    assert IsBeachPath(g, [s]);
  }

  /** Nothing is reachable from a start that is not an in-bounds beach. */
  lemma RegionOfNonBeachIsEmpty(g: Grid, s: Coord)
    requires IsSquare(g, |g|) && !(InBounds(|g|, s) && At(g, s) == Beach)
    ensures Region(g, s) == {}
  {
    forall p | IsBeachPath(g, p)
      ensures p[0] != s
    {
      assert InBounds(|g|, p[0]) && At(g, p[0]) == Beach;
    }
  }

  /** A beach tile adjacent to a member of the region is a member. */
  lemma RegionStep(g: Grid, s: Coord, c: Coord, d: Coord)
    requires IsSquare(g, |g|) && c in Region(g, s)
    requires Adjacent(c, d) && InBounds(|g|, d) && At(g, d) == Beach
    ensures d in Region(g, s)
  {
    var p :| IsBeachPath(g, p) && p[0] == s && p[|p| - 1] == c;
    var q := p + [d];
    assert q[|q| - 2] == c;
    assert IsBeachPath(g, q);
  }

  /** A set of tiles containing `s` and closed under beach adjacency contains the whole region. */
  lemma {:induction false} RegionWithinClosed(g: Grid, s: Coord, S: set<Coord>)
    requires IsSquare(g, |g|) && s in S && ClosedExcept(g, S, {})
    ensures Region(g, s) <= S
  {
    forall c | c in Region(g, s)
      ensures c in S
    {
      var p :| IsBeachPath(g, p) && p[0] == s && p[|p| - 1] == c;
      PathWithinClosed(g, p, S, |p| - 1);
    }
  }

  lemma {:induction false} PathWithinClosed(g: Grid, p: seq<Coord>, S: set<Coord>, k: nat)
    requires IsSquare(g, |g|) && IsBeachPath(g, p) && p[0] in S && ClosedExcept(g, S, {})
    requires k < |p|
    ensures p[k] in S
  {
    if k > 0 {
      PathWithinClosed(g, p, S, k - 1);
      assert Adjacent(p[k - 1], p[k]);
    }
  }

  /** The grid with every tile of `R` turned to water. */
  function Flooded(g: Grid, R: set<Coord>): (h: Grid)
    requires IsSquare(g, |g|)
    ensures IsSquare(h, |g|)
    ensures forall c :: InBounds(|g|, c) ==> At(h, c) == if c in R then Water else At(g, c)
  {
    seq(|g|, j requires 0 <= j < |g| =>
      seq(|g|, i requires 0 <= i < |g| => if Coord(i, j) in R then Water else g[j][i]))
  }

  /** A start and a set that lies inside its region, holds the start when the start is an in-bounds
      beach, and is closed under beach adjacency, is the whole region. */
  lemma ClosedSetIsRegion(g: Grid, s: Coord, S: set<Coord>)
    requires IsSquare(g, |g|) && S <= Region(g, s) && ClosedExcept(g, S, {})
    requires InBounds(|g|, s) && At(g, s) == Beach ==> s in S
    ensures S == Region(g, s)
  {
    if InBounds(|g|, s) && At(g, s) == Beach {
      RegionWithinClosed(g, s, S);
    } else {
      RegionOfNonBeachIsEmpty(g, s);
    }
  }

  /** The grid with the tile at `c` replaced by kind `k`. */
  function SetAt(g: Grid, c: Coord, k: TileType): (h: Grid)
    requires IsSquare(g, |g|) && InBounds(|g|, c)
    ensures IsSquare(h, |g|)
    ensures forall d :: InBounds(|g|, d) ==> At(h, d) == if d == c then k else At(g, d)
  {
    g[c.j := g[c.j][c.i := k]]
  }

  // ---------------------------------------------------------------------------------------------
  // Shoreline classification

  /** What `updateTiles` makes of one tile: water and beach stay; any other tile becomes beach
      exactly when some in-bounds 8-neighbour is water. */
  ghost function ClassifyAt(g: Grid, c: Coord): TileType
    requires IsSquare(g, |g|) && InBounds(|g|, c)
  {
    if At(g, c) == Water || At(g, c) == Beach then At(g, c)
    else if HasWaterNear(g, c) then Beach
    else At(g, c)
  }

  /** The tiles `updateTiles` changes: the ones its classification turns into beaches. */
  ghost predicate BecomesBeach(g: Grid, c: Coord)
    requires IsSquare(g, |g|) && InBounds(|g|, c)
  {
    ClassifyAt(g, c) != At(g, c)
  }

  ghost function Classify(g: Grid): (h: Grid)
    requires IsSquare(g, |g|)
    ensures IsSquare(h, |g|)
    ensures forall c :: InBounds(|g|, c) ==> At(h, c) == ClassifyAt(g, c)
  {
    seq(|g|, j requires 0 <= j < |g| =>
      seq(|g|, i requires 0 <= i < |g| => ClassifyAt(g, Coord(i, j))))
  }

  /** Every beach has water next to it and no hill has. */
  ghost predicate ShorelineConsistent(g: Grid)
    requires IsSquare(g, |g|)
  {
    forall c :: InBounds(|g|, c) ==>
      (At(g, c) == Beach ==> HasWaterNear(g, c)) && (At(g, c) == Hill ==> !HasWaterNear(g, c))
  }

  ghost predicate BeachesHaveWater(g: Grid)
    requires IsSquare(g, |g|)
  {
    forall c :: InBounds(|g|, c) && At(g, c) == Beach ==> HasWaterNear(g, c)
  }

  // ---------------------------------------------------------------------------------------------
  // Water count

  ghost function WaterCells(g: Grid): (w: set<Coord>)
    requires IsSquare(g, |g|)
    ensures forall c :: c in w <==> InBounds(|g|, c) && At(g, c) == Water
  {
    set c | c in AllCells(|g|) && At(g, c) == Water
  }

  ghost function WaterCount(g: Grid): nat
    requires IsSquare(g, |g|)
  {
    |WaterCells(g)|
  }

  // ---------------------------------------------------------------------------------------------
  // The list of visited tiles

  function Elems(s: seq<Coord>): (r: set<Coord>)
    ensures forall c :: c in r <==> c in s
  {
    set c | c in s
  }

  predicate NoDuplicates(s: seq<Coord>)
  {
    forall a, b :: 0 <= a < b < |s| ==> s[a] != s[b]
  }

  // ---------------------------------------------------------------------------------------------
  // Facts connecting flooding, classification and the water count

  /** Two grids that agree on every tile are the same grid. */
  lemma SameGrid(g: Grid, h: Grid)
    requires IsSquare(g, |g|) && IsSquare(h, |g|)
    requires forall c :: InBounds(|g|, c) ==> At(g, c) == At(h, c)
    ensures g == h
  {
    forall j | 0 <= j < |g|
      ensures g[j] == h[j]
    {
      forall i | 0 <= i < |g|
        ensures g[j][i] == h[j][i]
      {
        assert InBounds(|g|, Coord(i, j));
      }
    }
  }

  /** Only water matters to `HasWaterNear`. */
  lemma SameWaterNear(g: Grid, h: Grid, c: Coord)
    requires IsSquare(g, |g|) && IsSquare(h, |g|)
    requires WaterCells(g) == WaterCells(h)
    ensures HasWaterNear(g, c) <==> HasWaterNear(h, c)
  {
    if HasWaterNear(g, c) {
      var d :| InBounds(|g|, d) && Near(c, d) && At(g, d) == Water;
      assert d in WaterCells(h);
    }
    if HasWaterNear(h, c) {
      var d :| InBounds(|g|, d) && Near(c, d) && At(h, d) == Water;
      assert d in WaterCells(g);
    }
  }

  /** Flooding a set of beach tiles adds exactly those tiles to the water. */
  lemma FloodedWater(g: Grid, R: set<Coord>)
    requires IsSquare(g, |g|)
    requires forall c :: c in R ==> InBounds(|g|, c) && At(g, c) == Beach
    ensures WaterCells(Flooded(g, R)) == WaterCells(g) + R
    ensures WaterCount(Flooded(g, R)) == WaterCount(g) + |R|
  {
    var h := Flooded(g, R);
    assert WaterCells(h) == WaterCells(g) + R;
    assert WaterCells(g) * R == {};
  }

  /** Classification never creates or removes water. */
  lemma ClassifyKeepsWater(g: Grid)
    requires IsSquare(g, |g|)
    ensures WaterCells(Classify(g)) == WaterCells(g)
    ensures WaterCount(Classify(g)) == WaterCount(g)
  {
    var h := Classify(g);
    forall c | InBounds(|g|, c)
      ensures At(h, c) == Water <==> At(g, c) == Water
    {
    }
    assert WaterCells(h) == WaterCells(g);
  }

  /** If every beach already borders water, the classified grid has a consistent shoreline. */
  lemma ClassifyConsistent(g: Grid)
    requires IsSquare(g, |g|) && BeachesHaveWater(g)
    ensures ShorelineConsistent(Classify(g))
  {
    var h := Classify(g);
    ClassifyKeepsWater(g);
    forall c | InBounds(|g|, c)
      ensures HasWaterNear(h, c) <==> HasWaterNear(g, c)
    {
      SameWaterNear(h, g, c);
    }
  }

  /** Classifying twice changes nothing more: `updateTiles` is idempotent. */
  lemma ClassifyIdempotent(g: Grid)
    requires IsSquare(g, |g|)
    ensures Classify(Classify(g)) == Classify(g)
  {
    var h := Classify(g);
    ClassifyKeepsWater(g);
    forall c | InBounds(|g|, c)
      ensures At(Classify(h), c) == At(h, c)
    {
      SameWaterNear(h, g, c);
    }
    SameGrid(Classify(h), h);
  }

  /** Flooding only adds water, so a beach that bordered water still does. */
  lemma FloodKeepsBeachesWet(g: Grid, R: set<Coord>)
    requires IsSquare(g, |g|) && BeachesHaveWater(g)
    ensures BeachesHaveWater(Flooded(g, R))
  {
    var h := Flooded(g, R);
    forall c | InBounds(|g|, c) && At(h, c) == Beach
      ensures HasWaterNear(h, c)
    {
      var d :| InBounds(|g|, d) && Near(c, d) && At(g, d) == Water;
      assert At(h, d) == Water;
    }
  }

  /** A grid with a water tile has a positive water count. */
  lemma WaterCountPositive(g: Grid, c: Coord)
    requires IsSquare(g, |g|) && InBounds(|g|, c) && At(g, c) == Water
    ensures WaterCount(g) >= 1
  {
    assert c in WaterCells(g);
  }

  /** The water tiles that come before column x of row y in row-major order. */
  ghost function WaterBefore(g: Grid, y: int, x: int): (w: set<Coord>)
    requires IsSquare(g, |g|)
    ensures forall c :: c in w <==> c in WaterCells(g) && (c.j < y || (c.j == y && c.i < x))
  {
    set c | c in WaterCells(g) && (c.j < y || (c.j == y && c.i < x))
  }

  /** One more tile of the row-major walk adds it to the count exactly when it is water. */
  lemma WaterBeforeStep(g: Grid, y: int, x: int)
    requires IsSquare(g, |g|) && 0 <= y < |g| && 0 <= x < |g|
    ensures |WaterBefore(g, y, x + 1)| ==
              |WaterBefore(g, y, x)| + if g[y][x] == Water then 1 else 0
  {
    var c := Coord(x, y);
    var before, after := WaterBefore(g, y, x), WaterBefore(g, y, x + 1);
    assert c in WaterCells(g) <==> g[y][x] == Water;
    assert forall d :: d in after <==> d in before || (d == c && c in WaterCells(g));
    if g[y][x] == Water {
      assert after == before + {c};
    } else {
      assert after == before;
    }
  }

  /** What a flood does to the board: flooding the region of `s` and reclassifying adds exactly
      the region's tiles to the water and keeps the shoreline consistent. */
  lemma FloodThenClassify(g: Grid, s: Coord)
    requires IsSquare(g, |g|) && ShorelineConsistent(g)
    ensures WaterCount(Classify(Flooded(g, Region(g, s)))) == WaterCount(g) + |Region(g, s)|
    ensures ShorelineConsistent(Classify(Flooded(g, Region(g, s))))
  {
    var R := Region(g, s);
    RegionBeachClosed(g, s);
    FloodedWater(g, R);
    ClassifyKeepsWater(Flooded(g, R));
    FloodKeepsBeachesWet(g, R);
    ClassifyConsistent(Flooded(g, R));
  }
}
