/** The grid engine (TileMatrix.java): an N-by-N array of tiles, the flood that turns a 4-connected
    beach region into water, the shoreline classifier, the cached water count and the population sum. */
module Matrix {
  import opened Outcomes
  import opened TileTypes
  import opened Populations
  import opened Tiles
  import opened Grids
  import opened Painting
  import opened Randomness

  /** `GameSize`: the board sizes, by tiles per row (the pixel size of a tile is presentation). */
  datatype GameSize = Small | Medium | Big | Huge | Overkill

  function TilesPerRow(s: GameSize): (n: nat)
    ensures 10 <= n <= 100 && n % 2 == 0
  {
    match s
    case Small => 10
    case Medium => 20
    case Big => 30
    case Huge => 50
    case Overkill => 100
  }

  /** `GeneratorMode`: which of the built-in generators `initialize` runs. */
  datatype GeneratorMode = SimpleMode | SquaresMode | ComplexMode

  /** The new beach tiles `updateTiles(true)` stores in row j of grid g left of column i, in
      order: one at each tile the pass reclassifies. */
  ghost function ShoreRow(g: Grid, j: int, i: int): seq<Write>
    requires IsSquare(g, |g|) && 0 <= j < |g| && 0 <= i <= |g|
    decreases i
  {
    if i == 0 then []
    else ShoreRow(g, j, i - 1) + if BecomesBeach(g, Coord(i - 1, j)) then [Write(Coord(i - 1, j), Beach)] else []
  }

  /** The new beach tiles `updateTiles(true)` stores in the rows above row j, in order. */
  ghost function ShoreRows(g: Grid, j: int): seq<Write>
    requires IsSquare(g, |g|) && 0 <= j <= |g|
  {
    if j == 0 then [] else ShoreRows(g, j - 1) + ShoreRow(g, j - 1, |g|)
  }

  /** Every store of a row's pass is a beach in that row, left of column i. */
  lemma {:induction false} ShoreRowWithin(g: Grid, j: int, i: int)
    requires IsSquare(g, |g|) && 0 <= j < |g| && 0 <= i <= |g|
    ensures forall k :: 0 <= k < |ShoreRow(g, j, i)| ==>
              ShoreRow(g, j, i)[k].kind == Beach && ShoreRow(g, j, i)[k].cell.j == j &&
              0 <= ShoreRow(g, j, i)[k].cell.i < i
    decreases i
  {
    if i > 0 {
      ShoreRowWithin(g, j, i - 1);
    }
  }

  /** Every store of the pass over the rows above row j is a beach on the board, above row j. */
  lemma {:induction false} ShoreRowsWithin(g: Grid, j: int)
    requires IsSquare(g, |g|) && 0 <= j <= |g|
    ensures forall k :: 0 <= k < |ShoreRows(g, j)| ==>
              ShoreRows(g, j)[k].kind == Beach && InBounds(|g|, ShoreRows(g, j)[k].cell) && ShoreRows(g, j)[k].cell.j < j
  {
    if j > 0 {
      ShoreRowsWithin(g, j - 1);
      ShoreRowWithin(g, j - 1, |g|);
    }
  }

  /** The last store to a cell in a row's pass up to column i: the store at column i - 1, if the
      cell is that one and the pass stores there, else the one before. */
  lemma ShoreRowUnfold(g: Grid, j: int, i: int, c: Coord)
    requires IsSquare(g, |g|) && 0 <= j < |g| && 0 < i <= |g|
    ensures LastKind(ShoreRow(g, j, i), c) ==
              if c == Coord(i - 1, j) && BecomesBeach(g, c) then Some(Beach) else LastKind(ShoreRow(g, j, i - 1), c)
  {
    var w := Write(Coord(i - 1, j), Beach);
    LastKindConcat(ShoreRow(g, j, i - 1), if BecomesBeach(g, Coord(i - 1, j)) then [w] else [], c);
  }

  /** The stores of a row reach exactly the cells of that row, left of column i, that the pass
      reclassifies, each with a beach. */
  lemma {:induction false} ShoreRowLast(g: Grid, j: int, i: int, c: Coord)
    requires IsSquare(g, |g|) && 0 <= j < |g| && 0 <= i <= |g| && InBounds(|g|, c)
    ensures LastKind(ShoreRow(g, j, i), c) ==
              if c.j == j && c.i < i && BecomesBeach(g, c) then Some(Beach) else None
    decreases i
  {
    if i > 0 {
      ShoreRowUnfold(g, j, i, c);
      ShoreRowLast(g, j, i - 1, c);
    }
  }

  /** A row's stores reach no cell outside that row. */
  lemma {:induction false} ShoreRowOther(g: Grid, j: int, i: int, c: Coord)
    requires IsSquare(g, |g|) && 0 <= j < |g| && 0 <= i <= |g| && c.j != j
    ensures LastKind(ShoreRow(g, j, i), c) == None
    decreases i
  {
    if i > 0 {
      ShoreRowUnfold(g, j, i, c);
      ShoreRowOther(g, j, i - 1, c);
    }
  }

  /** The last store to a cell in the rows above row j: row j - 1's, if it has one. */
  lemma ShoreRowsUnfold(g: Grid, j: int, c: Coord)
    requires IsSquare(g, |g|) && 0 < j <= |g|
    ensures var row := LastKind(ShoreRow(g, j - 1, |g|), c);
            LastKind(ShoreRows(g, j), c) == if row.Some? then row else LastKind(ShoreRows(g, j - 1), c)
  {
    LastKindConcat(ShoreRows(g, j - 1), ShoreRow(g, j - 1, |g|), c);
  }

  /** The stores of the rows above row j reach a cell there exactly as the pass over its own row
      does. */
  lemma {:induction false} ShoreRowsLast(g: Grid, j: int, c: Coord)
    requires IsSquare(g, |g|) && 0 <= j <= |g| && InBounds(|g|, c)
    ensures LastKind(ShoreRows(g, j), c) == if c.j < j then LastKind(ShoreRow(g, c.j, |g|), c) else None
  {
    if j > 0 {
      ShoreRowsUnfold(g, j, c);
      ShoreRowsLast(g, j - 1, c);
      if c.j != j - 1 {
        ShoreRowOther(g, j - 1, |g|, c);
      }
    }
  }

  /** The new tiles of `updateTiles(true)`, painted onto the board, give exactly the classified
      board: the pass stores a beach wherever classification makes one, and nowhere else. */
  lemma ShoreWritesClassify(g: Grid)
    requires IsSquare(g, |g|)
    ensures WithinGrid(ShoreRows(g, |g|), |g|)
    ensures Apply(g, ShoreRows(g, |g|)) == Classify(g)
  {
    var log := ShoreRows(g, |g|);
    ShoreRowsWithin(g, |g|);
    forall c | InBounds(|g|, c)
      ensures At(Apply(g, log), c) == At(Classify(g), c)
    {
      ApplyAt(g, log, c);
      ShoreRowsLast(g, |g|, c);
      ShoreRowLast(g, c.j, |g|, c);
    }
    SameGrid(Apply(g, log), Classify(g));
  }

  /** `updateTiles` over `g0` has reached column i of row j, with grid `g`, log `w` and owner map
      `o`: the cells before that position show their classification and the others what they
      showed in `g0`; with `overwrite` the pass's stores so far follow `w0` in the log, and
      without it nothing is logged and no tile is stored. */
  ghost predicate Shored(g0: Grid, w0: seq<Write>, o0: map<Tile, Coord>, overwrite: bool, j: int, i: int,
                         g: Grid, w: seq<Write>, o: map<Tile, Coord>)
  {
    && IsSquare(g0, |g0|) && IsSquare(g, |g0|) && 0 <= j <= |g0| && 0 <= i <= |g0| && (j == |g0| ==> i == 0)
    && (forall c :: InBounds(|g0|, c) ==>
          At(g, c) == if c.j < j || (c.j == j && c.i < i) then ClassifyAt(g0, c) else At(g0, c))
    && if !overwrite then o == o0 && w == w0
       else w == w0 + ShoreRows(g0, j) + if j < |g0| then ShoreRow(g0, j, i) else []
  }

  /** The cell the pass is at still shows its kind in `g0`, and the classifier turns it into a
      beach exactly when it is neither water nor beach and water is near it in `g`. */
  lemma ShoredCell(g0: Grid, w0: seq<Write>, o0: map<Tile, Coord>, overwrite: bool, j: int, i: int,
                   g: Grid, w: seq<Write>, o: map<Tile, Coord>)
    requires Shored(g0, w0, o0, overwrite, j, i, g, w, o) && j < |g0| && i < |g0|
    ensures At(g, Coord(i, j)) == At(g0, Coord(i, j))
    ensures BecomesBeach(g0, Coord(i, j)) <==>
              At(g, Coord(i, j)) != Water && At(g, Coord(i, j)) != Beach && HasWaterNear(g, Coord(i, j))
  {
    forall c | InBounds(|g0|, c)
      ensures At(g, c) == Water <==> At(g0, c) == Water
    {
    }
    assert WaterCells(g) == WaterCells(g0);
    SameWaterNear(g, g0, Coord(i, j));
  }

  /** One step of the pass: the cell at (i, j) takes its classification, and with `overwrite` a
      reclassified cell's new beach tile is logged. */
  lemma ShoredNext(g0: Grid, w0: seq<Write>, o0: map<Tile, Coord>, overwrite: bool, j: int, i: int,
                   g: Grid, w: seq<Write>, o: map<Tile, Coord>, o': map<Tile, Coord>)
    requires Shored(g0, w0, o0, overwrite, j, i, g, w, o) && j < |g0| && i < |g0|
    requires !overwrite ==> o' == o
    ensures var c := Coord(i, j);
            Shored(g0, w0, o0, overwrite, j, i + 1,
                   if BecomesBeach(g0, c) then SetAt(g, c, Beach) else g,
                   if overwrite && BecomesBeach(g0, c) then w + [Write(c, Beach)] else w, o')
  {
    var c := Coord(i, j);
    if BecomesBeach(g0, c) {
      assert ShoreRow(g0, j, i + 1) == ShoreRow(g0, j, i) + [Write(c, Beach)];
    } else {
      assert ShoreRow(g0, j, i + 1) == ShoreRow(g0, j, i) + [];
    }
  }

  /** Before the pass nothing has changed. */
  lemma ShoredStart(g0: Grid, w0: seq<Write>, o0: map<Tile, Coord>, overwrite: bool)
    requires IsSquare(g0, |g0|)
    ensures Shored(g0, w0, o0, overwrite, 0, 0, g0, w0, o0)
  {
    if overwrite {
      if 0 < |g0| {
        assert ShoreRow(g0, 0, 0) == [];
      }
      assert w0 + ShoreRows(g0, 0) + [] == w0;
    }
  }

  /** After the last row every cell shows its classification, and with `overwrite` the log holds
      one store per new beach, in row order. */
  lemma ShoredDone(g0: Grid, w0: seq<Write>, o0: map<Tile, Coord>, overwrite: bool,
                   g: Grid, w: seq<Write>, o: map<Tile, Coord>)
    requires Shored(g0, w0, o0, overwrite, |g0|, 0, g, w, o)
    ensures g == Classify(g0)
    ensures !overwrite ==> o == o0 && w == w0
    ensures overwrite ==> w == w0 + ShoreRows(g0, |g0|)
  {
    if overwrite {
      assert w0 + ShoreRows(g0, |g0|) + [] == w0 + ShoreRows(g0, |g0|);
    }
    SameGrid(g, Classify(g0));
  }

  /** The end of row j is the start of row j + 1. */
  lemma ShoredRowEnd(g0: Grid, w0: seq<Write>, o0: map<Tile, Coord>, overwrite: bool, j: int,
                     g: Grid, w: seq<Write>, o: map<Tile, Coord>)
    requires Shored(g0, w0, o0, overwrite, j, |g0|, g, w, o) && j < |g0|
    ensures Shored(g0, w0, o0, overwrite, j + 1, 0, g, w, o)
  {
    ShoreRowsNext(g0, w0, j);
  }

  /** The log after row j is the log of the rows up to row j + 1, with nothing of the next row. */
  lemma ShoreRowsNext(g0: Grid, w0: seq<Write>, j: int)
    requires IsSquare(g0, |g0|) && 0 <= j < |g0|
    ensures w0 + ShoreRows(g0, j) + ShoreRow(g0, j, |g0|) ==
            w0 + ShoreRows(g0, j + 1) + if j + 1 < |g0| then ShoreRow(g0, j + 1, 0) else []
  {
    var above, row := ShoreRows(g0, j), ShoreRow(g0, j, |g0|);
    var rest: seq<Write> := if j + 1 < |g0| then ShoreRow(g0, j + 1, 0) else [];
    assert ShoreRows(g0, j + 1) == above + row && rest == [];
    assert w0 + above + row == w0 + (above + row) + [];
  }


  class TileMatrix {
    /** `tileArray.length`: the matrix is n-by-n. */
    const n: nat
    /** `tileArray[j][i]` is `tiles[j, i]`; null until generation stores a tile there. */
    const tiles: array2<Tile?>
    const generatorMode: GeneratorMode
    /** `alreadyHitInThisChainReaction`, by position. */
    var visited: seq<Coord>
    var lastWaterCount: int
    /** The position each stored tile was stored at, so that distinct positions hold distinct tiles. */
    ghost var owner: map<Tile, Coord>
    /** The kinds the tiles show: `grid[j][i]` is the kind of `tiles[j, i]` wherever a tile is stored. */
    ghost var grid: Grid
    /** Every store of a new tile into the array, in order. */
    ghost var writes: seq<Write>

    ghost predicate Shape()
    {
      tiles.Length0 == n && tiles.Length1 == n && n >= 2
    }

    /** Every stored tile is recorded at its own position: no tile object is shared. */
    ghost predicate Owned()
      reads this`owner, tiles
    {
      && Shape()
      && forall j, i :: 0 <= j < n && 0 <= i < n && tiles[j, i] != null ==>
           tiles[j, i] in owner && owner[tiles[j, i]] == Coord(i, j)
    }

    /** The stored tiles show the kinds of `grid`. */
    ghost predicate Agrees()
      reads this`owner, this`grid, tiles, owner.Keys
    {
      && Owned()
      && IsSquare(grid, n)
      && forall j, i :: 0 <= j < n && 0 <= i < n && tiles[j, i] != null ==> tiles[j, i].tileType == grid[j][i]
    }

    ghost predicate Filled()
      reads tiles
    {
      forall j, i :: 0 <= j < tiles.Length0 && 0 <= i < tiles.Length1 ==> tiles[j, i] != null
    }

    /** Every position holds its own tile, and the tiles show `grid`. */
    ghost predicate ValidGrid()
      reads this`owner, this`grid, tiles, owner.Keys
    {
      Agrees() && Filled()
    }

    /** The invariant between public operations: the tiles are distinct, stored and show `grid`,
        the visited list is empty, the cached count is the number of water tiles and at least one,
        every beach borders water and no hill does. */
    ghost predicate Valid()
      reads this, tiles, owner.Keys
    {
      && ValidGrid()
      && visited == []
      && lastWaterCount == WaterCount(grid)
      && lastWaterCount >= 1
      && ShorelineConsistent(grid)
    }

    /** The part of `new TileMatrix(gameSize, mode)` before `initialize()`: an array of nulls. */
    constructor (size: GameSize, mode: GeneratorMode)
      ensures n == TilesPerRow(size) && generatorMode == mode
      ensures fresh(tiles) && Agrees()
      ensures visited == [] && lastWaterCount == 0 && owner == map[] && writes == []
      ensures forall j, i :: 0 <= j < n && 0 <= i < n ==> tiles[j, i] == null
    {
      var k := TilesPerRow(size);
      n := k;
      tiles := new Tile?[k, k]((j, i) => null);
      generatorMode := mode;
      visited := [];
      lastWaterCount := 0;
      owner := map[];
      grid := seq(k, j => seq(k, i => Hill));
      writes := [];
    }

    // -------------------------------------------------------------------------------------------
    // Accessors

    /** `getTileType(i, j)`: the kind at column i, row j. */
    method GetTileType(i: int, j: int) returns (r: Result<TileType>)
      requires ValidGrid()
      ensures InBounds(n, Coord(i, j)) ==> r == Ok(At(grid, Coord(i, j)))
      ensures !InBounds(n, Coord(i, j)) ==> r == Err(ArrayIndexOutOfBoundsException)
    {
      if 0 <= j < n && 0 <= i < n {
        r := Ok(tiles[j, i].GetType());
      } else {
        r := Err(ArrayIndexOutOfBoundsException);
      }
    }

    /** `getTile(i, j)`: the tile object at column i, row j (null before generation stores one). */
    method GetTile(i: int, j: int) returns (r: Result<Tile?>)
      requires Agrees()
      ensures InBounds(n, Coord(i, j)) ==> r == Ok(tiles[j, i])
      ensures InBounds(n, Coord(i, j)) && r.value != null ==> r.value.tileType == At(grid, Coord(i, j))
      ensures !InBounds(n, Coord(i, j)) ==> r == Err(ArrayIndexOutOfBoundsException)
    {
      if 0 <= j < n && 0 <= i < n {
        r := Ok(tiles[j, i]);
      } else {
        r := Err(ArrayIndexOutOfBoundsException);
      }
    }

    /** `getDimensions()`: the matrix is square. */
    method GetDimensions() returns (d: Dimension)
      requires Shape()
      ensures d.width == d.height == n == tiles.Length0 == tiles.Length1
    {
      d := Dimension(n, n);
    }

    /** `getWaterCount()`: the cached count, which `Valid` ties to the grid. */
    method GetWaterCount() returns (r: int)
      requires Valid()
      ensures r == WaterCount(grid) && r >= 1
    {
      r := lastWaterCount;
    }

    /** `setTile(x, y, tile)`: store a tile that is not stored anywhere else. */
    method SetTile(x: int, y: int, t: Tile)
      requires Agrees() && InBounds(n, Coord(x, y)) && t !in owner
      modifies tiles, this`owner, this`grid, this`writes
      ensures Agrees()
      ensures tiles[y, x] == t
      ensures forall j, i :: 0 <= j < n && 0 <= i < n && (j != y || i != x) ==> tiles[j, i] == old(tiles[j, i])
      ensures owner == old(owner)[t := Coord(x, y)]
      ensures grid == SetAt(old(grid), Coord(x, y), t.tileType)
      ensures writes == old(writes) + [Write(Coord(x, y), t.tileType)]
    {
      tiles[y, x] := t;
      owner := owner[t := Coord(x, y)];
      grid := SetAt(grid, Coord(x, y), t.tileType);
      writes := writes + [Write(Coord(x, y), t.tileType)];
    }

    /** `tiles[y][x].setType(kind)` on a stored tile; the ghost grid follows the tile. */
    method Recolour(c: Coord, kind: TileType)
      requires ValidGrid() && InBounds(n, c)
      modifies this`grid, tiles[c.j, c.i]
      ensures ValidGrid() && grid == SetAt(old(grid), c, kind)
    {
      tiles[c.j, c.i].SetType(kind);
      grid := SetAt(grid, c, kind);
    }

    // -------------------------------------------------------------------------------------------
    // Flood

    /** During a flood started on grid `g0`: every tile shows its kind in `g0`, except that a real
        flood has turned the visited tiles to water. */
    ghost predicate Mirrors(g0: Grid, simulated: bool)
      reads this`visited, this`grid
    {
      && IsSquare(grid, n)
      && IsSquare(g0, n)
      && forall c :: InBounds(n, c) ==> At(grid, c) == if !simulated && c in visited then Water else At(g0, c)
    }

    /** `flood(i, j, simulated)`: enter (i, j) if it is an unvisited beach, record it, turn it to
        water unless simulated, and go on to each in-bounds beach neighbour (up, down, left, right).
        The ghost parameters carry the proof: `g0` is the grid when the flood started, `R` a set of
        its beach tiles closed under beach adjacency that holds the start (its region), and
        `pending` the tiles whose neighbours the active calls have still to visit. */
    method Flood(i: int, j: int, simulated: bool, ghost g0: Grid, ghost R: set<Coord>, ghost pending: set<Coord>)
      requires ValidGrid() && InBounds(n, Coord(i, j)) && Mirrors(g0, simulated) && BeachClosed(g0, R)
      requires g0[j][i] == Beach ==> Coord(i, j) in R
      requires Elems(visited) <= R && NoDuplicates(visited)
      requires ClosedExcept(g0, Elems(visited), pending)
      modifies this`visited, if simulated then {} else owner.Keys + {this}
      ensures ValidGrid() && Mirrors(g0, simulated)
      ensures simulated ==> grid == old(grid)
      ensures owner == old(owner) && lastWaterCount == old(lastWaterCount) && writes == old(writes)
      ensures Elems(visited) <= R && NoDuplicates(visited)
      ensures ClosedExcept(g0, Elems(visited), pending)
      ensures Elems(old(visited)) <= Elems(visited)
      ensures g0[j][i] == Beach ==> Coord(i, j) in visited
      ensures Coord(i, j) in old(visited) || g0[j][i] != Beach ==> visited == old(visited)
      decreases R - Elems(visited), 2
    {
      var c := Coord(i, j);
      if c !in visited && tiles[j, i].IsBeach() {
        ghost var before := Elems(visited);
        Visit(c, simulated, g0, R, pending);
        ghost var p := pending + {c};
        FloodVertical(c, simulated, g0, R, p, before);
        ghost var v := Elems(visited);
        FloodHorizontal(c, simulated, g0, R, p, before);
        ghost var S := Elems(visited);
        assert v <= S;
        forall w | Adjacent(c, w) && InBounds(n, w) && At(g0, w) == Beach
          ensures w in S
        {
          AdjacentCases(c, w);
        }
        CloseAround(g0, S, pending, c);
      }
    }

    /** Entering a tile: record it and, in a real flood, turn it to water. */
    method Visit(c: Coord, simulated: bool, ghost g0: Grid, ghost R: set<Coord>, ghost pending: set<Coord>)
      requires ValidGrid() && InBounds(n, c) && Mirrors(g0, simulated)
      requires c !in visited && At(g0, c) == Beach && c in R
      requires Elems(visited) <= R && NoDuplicates(visited)
      requires ClosedExcept(g0, Elems(visited), pending)
      modifies this`visited, if simulated then {} else {tiles[c.j, c.i], this}
      ensures visited == old(visited) + [c]
      ensures ValidGrid() && Mirrors(g0, simulated)
      ensures simulated ==> grid == old(grid)
      ensures owner == old(owner) && lastWaterCount == old(lastWaterCount) && writes == old(writes)
      ensures Elems(visited) <= R && NoDuplicates(visited)
      ensures ClosedExcept(g0, Elems(visited), pending + {c})
    {
      visited := visited + [c];
      if !simulated {
        Recolour(c, Water);
      }
      assert Elems(visited) == Elems(old(visited)) + {c};
    }

    /** The checks of the tiles above and below `c`, in that order. */
    method FloodVertical(c: Coord, simulated: bool, ghost g0: Grid, ghost R: set<Coord>,
                         ghost pending: set<Coord>, ghost before: set<Coord>)
      requires ValidGrid() && InBounds(n, c) && Mirrors(g0, simulated) && BeachClosed(g0, R)
      requires c in R && c in pending && c in visited && c !in before
      requires before + {c} <= Elems(visited)
      requires Elems(visited) <= R && NoDuplicates(visited)
      requires ClosedExcept(g0, Elems(visited), pending)
      modifies this`visited, if simulated then {} else owner.Keys + {this}
      ensures ValidGrid() && Mirrors(g0, simulated)
      ensures simulated ==> grid == old(grid)
      ensures owner == old(owner) && lastWaterCount == old(lastWaterCount) && writes == old(writes)
      ensures Elems(visited) <= R && NoDuplicates(visited)
      ensures ClosedExcept(g0, Elems(visited), pending)
      ensures Elems(old(visited)) <= Elems(visited)
      ensures forall d :: (d == Coord(c.i, c.j - 1) || d == Coord(c.i, c.j + 1)) && InBounds(n, d) && At(g0, d) == Beach ==>
                d in visited
      decreases R - before, 1
    {
      if c.j != 0 {
        FloodNeighbour(c, Coord(c.i, c.j - 1), simulated, g0, R, pending, before);
      }
      ghost var v := Elems(visited);
      if c.j != n - 1 {
        FloodNeighbour(c, Coord(c.i, c.j + 1), simulated, g0, R, pending, before);
      }
      assert v <= Elems(visited);
    }

    /** The checks of the tiles left and right of `c`, in that order. */
    method FloodHorizontal(c: Coord, simulated: bool, ghost g0: Grid, ghost R: set<Coord>,
                           ghost pending: set<Coord>, ghost before: set<Coord>)
      requires ValidGrid() && InBounds(n, c) && Mirrors(g0, simulated) && BeachClosed(g0, R)
      requires c in R && c in pending && c in visited && c !in before
      requires before + {c} <= Elems(visited)
      requires Elems(visited) <= R && NoDuplicates(visited)
      requires ClosedExcept(g0, Elems(visited), pending)
      modifies this`visited, if simulated then {} else owner.Keys + {this}
      ensures ValidGrid() && Mirrors(g0, simulated)
      ensures simulated ==> grid == old(grid)
      ensures owner == old(owner) && lastWaterCount == old(lastWaterCount) && writes == old(writes)
      ensures Elems(visited) <= R && NoDuplicates(visited)
      ensures ClosedExcept(g0, Elems(visited), pending)
      ensures Elems(old(visited)) <= Elems(visited)
      ensures forall d :: (d == Coord(c.i - 1, c.j) || d == Coord(c.i + 1, c.j)) && InBounds(n, d) && At(g0, d) == Beach ==>
                d in visited
      decreases R - before, 1
    {
      if c.i != 0 {
        FloodNeighbour(c, Coord(c.i - 1, c.j), simulated, g0, R, pending, before);
      }
      ghost var v := Elems(visited);
      if c.i != n - 1 {
        FloodNeighbour(c, Coord(c.i + 1, c.j), simulated, g0, R, pending, before);
      }
      assert v <= Elems(visited);
    }

    /** One neighbour check of `flood`: recurse into `d` if it is currently a beach. Afterwards
        `d` is visited whenever it was a beach in `g0`. */
    method FloodNeighbour(c: Coord, d: Coord, simulated: bool, ghost g0: Grid, ghost R: set<Coord>,
                          ghost pending: set<Coord>, ghost before: set<Coord>)
      requires ValidGrid() && InBounds(n, c) && InBounds(n, d) && Adjacent(c, d)
      requires Mirrors(g0, simulated) && BeachClosed(g0, R)
      requires c in R && c in pending && c in visited && c !in before
      requires before + {c} <= Elems(visited)
      requires Elems(visited) <= R && NoDuplicates(visited)
      requires ClosedExcept(g0, Elems(visited), pending)
      modifies this`visited, if simulated then {} else owner.Keys + {this}
      ensures ValidGrid() && Mirrors(g0, simulated)
      ensures simulated ==> grid == old(grid)
      ensures owner == old(owner) && lastWaterCount == old(lastWaterCount) && writes == old(writes)
      ensures Elems(visited) <= R && NoDuplicates(visited)
      ensures ClosedExcept(g0, Elems(visited), pending)
      ensures Elems(old(visited)) <= Elems(visited)
      ensures At(g0, d) == Beach ==> d in visited
      decreases R - before, 0
    {
      if tiles[d.j, d.i].IsBeach() {
        Flood(d.i, d.j, simulated, g0, R, pending);
      }
    }

    /** A whole flood from an empty visited list, which it empties again afterwards: the tiles it
        recorded are exactly the region of the start, and a real flood has turned them to water. */
    method FloodRegion(i: int, j: int, simulated: bool) returns (selection: seq<Coord>)
      requires ValidGrid() && visited == [] && InBounds(n, Coord(i, j))
      modifies this`visited, if simulated then {} else owner.Keys + {this}
      ensures ValidGrid() && visited == []
      ensures owner == old(owner) && lastWaterCount == old(lastWaterCount) && writes == old(writes)
      ensures NoDuplicates(selection) && Elems(selection) == Region(old(grid), Coord(i, j))
      ensures grid == if simulated then old(grid) else Flooded(old(grid), Region(old(grid), Coord(i, j)))
    {
      ghost var g0 := grid;
      ghost var s := Coord(i, j);
      ghost var R := Region(g0, s);
      RegionBeachClosed(g0, s);
      if g0[j][i] == Beach {
        RegionHasStart(g0, s);
      }
      Flood(i, j, simulated, g0, R, {});
      ClosedSetIsRegion(g0, s, Elems(visited));
      if !simulated {
        SameGrid(grid, Flooded(g0, R));
      }
      selection := visited;
      visited := [];
    }

    /** `getSelection(i, j)`: a simulated flood. It reports the region a real flood started at
        (i, j) would cover, changes no tile and no counter, and leaves the visited list empty.
        Java indexes the array first, so out-of-range coordinates fail with an index exception. */
    method GetSelection(i: int, j: int) returns (r: Result<seq<Coord>>)
      requires Valid()
      modifies this`visited
      ensures Valid()
      ensures !InBounds(n, Coord(i, j)) ==> r == Err(ArrayIndexOutOfBoundsException)
      ensures InBounds(n, Coord(i, j)) ==>
                r.Ok? && NoDuplicates(r.value) && Elems(r.value) == Region(grid, Coord(i, j))
    {
      if !(0 <= i < n && 0 <= j < n) {
        return Err(ArrayIndexOutOfBoundsException);
      }
      var selection := FloodRegion(i, j, true);
      r := Ok(selection);
    }

    /** `startFlood(i, j)`: flood the region of (i, j), then reclassify the shore and recount.
        Out-of-range coordinates are rejected before anything changes. */
    method StartFlood(i: int, j: int) returns (o: Outcome)
      requires Valid()
      modifies this, owner.Keys
      ensures Valid()
      ensures !InBounds(n, Coord(i, j)) ==>
                o == Thrown(IllegalArgumentException) && unchanged(this)
      ensures InBounds(n, Coord(i, j)) ==>
                && o == Done
                && grid == Classify(Flooded(old(grid), Region(old(grid), Coord(i, j))))
                && lastWaterCount == old(lastWaterCount) + |Region(old(grid), Coord(i, j))|
      ensures PeopleRows(n) == old(PeopleRows(n))
    {
      if i < 0 || i >= n || j < 0 || j >= n {
        return Thrown(IllegalArgumentException);
      }
      FloodAndReclassify(i, j);
      PeopleKept(n);
      o := Done;
    }

    /** The in-bounds part of `startFlood`: the real flood, the shore reclassified, the count redone. */
    method FloodAndReclassify(i: int, j: int)
      requires Valid() && InBounds(n, Coord(i, j))
      modifies this, owner.Keys
      ensures Valid()
      ensures grid == Classify(Flooded(old(grid), Region(old(grid), Coord(i, j))))
      ensures lastWaterCount == old(lastWaterCount) + |Region(old(grid), Coord(i, j))|
    {
      ghost var g0 := grid;
      FloodThenShore(i, j);
      FloodThenClassify(g0, Coord(i, j));
      UpdateWaterCount();
    }

    /** The real flood of the region of (i, j) followed by `updateTiles(false)`. */
    method FloodThenShore(i: int, j: int)
      requires ValidGrid() && visited == [] && InBounds(n, Coord(i, j))
      modifies this, owner.Keys
      ensures ValidGrid() && visited == []
      ensures owner == old(owner) && lastWaterCount == old(lastWaterCount) && writes == old(writes)
      ensures grid == Classify(Flooded(old(grid), Region(old(grid), Coord(i, j))))
    {
      var _ := FloodRegion(i, j, false);
      UpdateTiles(false);
    }

    // -------------------------------------------------------------------------------------------
    // Water count

    /** `updateWaterCount()`: count the water tiles, row by row. */
    method UpdateWaterCount()
      requires ValidGrid()
      modifies this`lastWaterCount
      ensures lastWaterCount == WaterCount(grid)
    {
      lastWaterCount := 0;
      for y := 0 to n
        invariant lastWaterCount == |WaterBefore(grid, y, 0)|
      {
        for x := 0 to n
          invariant lastWaterCount == |WaterBefore(grid, y, x)|
        {
          WaterBeforeStep(grid, y, x);
          if tiles[y, x].IsWater() {
            lastWaterCount := lastWaterCount + 1;
          }
        }
        assert WaterBefore(grid, y, n) == WaterBefore(grid, y + 1, 0);
      }
      assert WaterBefore(grid, n, 0) == WaterCells(grid);
    }

    /** `assertMinimumWaterLevel()`: when no tile is water, draw a column and then a row and turn
        that tile to water. Requires the cached count to be current, as `initialize` ensures. */
    method AssertMinimumWaterLevel(rng: Random)
      requires ValidGrid() && lastWaterCount == WaterCount(grid)
      modifies this`lastWaterCount, this`grid, owner.Keys, rng`intUsed
      ensures visited == old(visited) && owner == old(owner) && writes == old(writes)
      ensures ValidGrid() && lastWaterCount == WaterCount(grid) && lastWaterCount >= 1
      ensures old(lastWaterCount) != 0 ==> grid == old(grid) && rng.intUsed == old(rng.intUsed)
      ensures old(lastWaterCount) == 0 ==>
                && rng.intUsed == old(rng.intUsed) + 2
                && grid == SetAt(old(grid), Coord(rng.intDraws(old(rng.intUsed)) % n,
                                                  rng.intDraws(old(rng.intUsed) + 1) % n), Water)
    {
      if lastWaterCount == 0 {
        var x := rng.NextInt(n);
        var y := rng.NextInt(n);
        Recolour(Coord(x, y), Water);
        UpdateWaterCount();
        WaterCountPositive(grid, Coord(x, y));
      }
    }

    // -------------------------------------------------------------------------------------------
    // Shoreline classification

    /** `setToBeachIfThereIsWaterNeighbor(j, i, overwrite)`: a water tile is refused; any other
        tile becomes a beach when a tile of the 3-by-3 block around it is water: a new beach tile,
        with a beach's population, when `overwrite`, else the same tile with its kind changed.
        Every other position keeps its tile object. */
    method SetToBeachIfThereIsWaterNeighbor(j: int, i: int, overwrite: bool) returns (o: Outcome)
      requires ValidGrid() && 0 <= j < n && 0 <= i < n
      modifies this`grid, this`owner, this`writes, if overwrite then {tiles} else {tiles[j, i]}
      ensures ValidGrid()
      ensures old(grid)[j][i] == Water ==> o == Thrown(AssertionError) && grid == old(grid)
      ensures old(grid)[j][i] != Water ==>
                && o == Done
                && grid == if HasWaterNear(old(grid), Coord(i, j)) then SetAt(old(grid), Coord(i, j), Beach)
                           else old(grid)
      ensures forall y, x :: 0 <= y < n && 0 <= x < n && (y != j || x != i) ==> tiles[y, x] == old(tiles[y, x])
      ensures forall p: Population :: old(allocated(p)) ==> p.total == old(p.total)
      ensures var replaced := overwrite && old(grid)[j][i] != Water && HasWaterNear(old(grid), Coord(i, j));
              && (replaced ==>
                    && fresh(tiles[j, i])
                    && tiles[j, i].population.total == SuggestedPopulation(Beach)
                    && writes == old(writes) + [Write(Coord(i, j), Beach)])
              && (!replaced ==> tiles[j, i] == old(tiles[j, i]) && owner == old(owner) && writes == old(writes))
    {
      if tiles[j, i].IsWater() {
        return Thrown(AssertionError);
      }
      ghost var c := Coord(i, j);
      for b := -1 to 2
        invariant forall d :: InBounds(n, d) && Near(c, d) && d.j < j + b ==> At(grid, d) != Water
      {
        var y := j + b;
        if y >= 0 && y < n {
          for a := -1 to 2
            invariant forall d :: InBounds(n, d) && Near(c, d) && (d.j < y || (d.j == y && d.i < i + a)) ==>
                                    At(grid, d) != Water
          {
            var x := i + a;
            if x >= 0 && x < n {
              if tiles[y, x].IsWater() {
                assert InBounds(n, Coord(x, y)) && Near(c, Coord(x, y)) && At(grid, Coord(x, y)) == Water;
                if overwrite {
                  var t := new Tile(Beach);
                  SetTile(i, j, t);
                } else {
                  Recolour(Coord(i, j), Beach);
                }
                return Done;
              }
            }
          }
        }
      }
      o := Done;
    }

    /** `updateTiles(overwrite)`: visit every tile in row-major order and hand each one that is
        neither water nor beach to the classifier. Since the classifier only ever makes beaches,
        the water it looks at stays as it was, and the result is `Classify` of the starting grid.
        With `overwrite`, each tile the pass reclassifies is replaced by a new beach tile with a
        beach's population, logged in row-major order, and every other position keeps its tile;
        without it, every position keeps its tile and only kinds change. */
    method UpdateTiles(overwrite: bool)
      requires ValidGrid()
      modifies this`grid, this`owner, this`writes, if overwrite then {tiles} else owner.Keys
      ensures visited == old(visited) && lastWaterCount == old(lastWaterCount)
      ensures ValidGrid()
      ensures grid == Classify(old(grid))
      ensures !overwrite ==> owner == old(owner) && writes == old(writes)
      ensures overwrite ==> writes == old(writes) + ShoreRows(old(grid), n)
      ensures forall y, x :: 0 <= y < n && 0 <= x < n && !(overwrite && BecomesBeach(old(grid), Coord(x, y))) ==>
                tiles[y, x] == old(tiles[y, x])
      ensures forall y, x :: 0 <= y < n && 0 <= x < n && overwrite && BecomesBeach(old(grid), Coord(x, y)) ==>
                fresh(tiles[y, x]) && tiles[y, x].population.total == SuggestedPopulation(Beach)
    {
      ghost var g0, t0 := grid, Board();
      ghost var made: set<Tile> := {};
      ShoredStart(g0, writes, owner, overwrite);
      for j := 0 to n
        invariant ShoredBefore(g0, old(writes), old(owner), t0, overwrite, j, 0, made)
        invariant forall t :: t in made ==> fresh(t) && t.population.total == SuggestedPopulation(Beach)
      {
        made := ShoreRowPass(j, overwrite, g0, old(writes), old(owner), t0, made);
      }
      ShoredDone(g0, old(writes), old(owner), overwrite, grid, writes, owner);
    }

    /** The tiles on the board, row by row. */
    ghost function Board(): (b: seq<seq<Tile?>>)
      reads tiles
      ensures |b| == tiles.Length0
      ensures forall y :: 0 <= y < |b| ==> |b[y]| == tiles.Length1
      ensures forall y, x :: 0 <= y < tiles.Length0 && 0 <= x < tiles.Length1 ==> b[y][x] == tiles[y, x]
    {
      seq(tiles.Length0, y requires 0 <= y < tiles.Length0 reads tiles =>
        seq(tiles.Length1, x requires 0 <= x < tiles.Length1 reads tiles => tiles[y, x]))
    }

    /** `updateTiles` over `g0`, on the board `t0`, has reached column i of row j in this matrix:
        the positions before it that the classifier turns into beaches hold the new tiles of
        `made` when `overwrite` asks for them, and every other position holds its tile of `t0`. */
    ghost predicate ShoredBefore(g0: Grid, w0: seq<Write>, o0: map<Tile, Coord>, t0: seq<seq<Tile?>>, overwrite: bool,
                                 j: int, i: int, made: set<Tile>)
      reads this`owner, this`grid, this`writes, tiles, owner.Keys
    {
      && ValidGrid() && |g0| == n && Shored(g0, w0, o0, overwrite, j, i, grid, writes, owner)
      && |t0| == n && (forall y :: 0 <= y < n ==> |t0[y]| == n)
      && forall y, x :: 0 <= y < n && 0 <= x < n ==>
           if overwrite && (y < j || (y == j && x < i)) && BecomesBeach(g0, Coord(x, y))
           then tiles[y, x] in made else tiles[y, x] == t0[y][x]
    }

    /** One pass of the outer loop of `updateTiles`: row j, left to right. The new beach tiles of
        the row join `made`. */
    method ShoreRowPass(j: int, overwrite: bool, ghost g0: Grid, ghost w0: seq<Write>, ghost o0: map<Tile, Coord>,
                        ghost t0: seq<seq<Tile?>>, ghost made: set<Tile>)
      returns (ghost made': set<Tile>)
      requires ShoredBefore(g0, w0, o0, t0, overwrite, j, 0, made) && j < n
      requires forall t :: t in made ==> t.population.total == SuggestedPopulation(Beach)
      modifies this`grid, this`owner, this`writes, if overwrite then {tiles} else owner.Keys
      ensures ShoredBefore(g0, w0, o0, t0, overwrite, j + 1, 0, made')
      ensures forall t :: t in made' ==> (t in made || fresh(t)) && t.population.total == SuggestedPopulation(Beach)
    {
      made' := made;
      for i := 0 to n
        invariant ShoredBefore(g0, w0, o0, t0, overwrite, j, i, made')
        invariant forall t :: t in made' ==> (t in made || fresh(t)) && t.population.total == SuggestedPopulation(Beach)
      {
        made' := ShoreCell(j, i, overwrite, g0, w0, o0, t0, made');
      }
      ShoredRowEnd(g0, w0, o0, overwrite, j, grid, writes, owner);
    }

    /** One pass of the inner loop of `updateTiles` at column i, row j: a tile that is neither
        water nor beach is handed to the classifier, which reclassifies it as `Classify` does. A
        new beach tile joins `made`. */
    method ShoreCell(j: int, i: int, overwrite: bool, ghost g0: Grid, ghost w0: seq<Write>, ghost o0: map<Tile, Coord>,
                     ghost t0: seq<seq<Tile?>>, ghost made: set<Tile>)
      returns (ghost made': set<Tile>)
      requires ShoredBefore(g0, w0, o0, t0, overwrite, j, i, made) && j < n && i < n
      requires forall t :: t in made ==> t.population.total == SuggestedPopulation(Beach)
      modifies this`grid, this`owner, this`writes, if overwrite then {tiles} else owner.Keys
      ensures ShoredBefore(g0, w0, o0, t0, overwrite, j, i + 1, made')
      ensures forall t :: t in made' ==> (t in made || fresh(t)) && t.population.total == SuggestedPopulation(Beach)
    {
      ghost var g, w, o := grid, writes, owner;
      ShoredCell(g0, w0, o0, overwrite, j, i, g, w, o);
      made' := made;
      var tile := tiles[j, i];
      if !tile.IsWater() && !tile.IsBeach() {
        made' := ClassifyCell(j, i, overwrite, made);
      }
      ShoredNext(g0, w0, o0, overwrite, j, i, g, w, o, owner);
    }

    /** The classifier's call in `updateTiles`, on a tile that is neither water nor beach: a new
        beach tile joins `made`. */
    method ClassifyCell(j: int, i: int, overwrite: bool, ghost made: set<Tile>) returns (ghost made': set<Tile>)
      requires ValidGrid() && 0 <= j < n && 0 <= i < n && grid[j][i] != Water
      requires forall t :: t in made ==> t.population.total == SuggestedPopulation(Beach)
      modifies this`grid, this`owner, this`writes, if overwrite then {tiles} else owner.Keys
      ensures ValidGrid()
      ensures grid == if HasWaterNear(old(grid), Coord(i, j)) then SetAt(old(grid), Coord(i, j), Beach) else old(grid)
      ensures forall y, x :: 0 <= y < n && 0 <= x < n && (y != j || x != i) ==> tiles[y, x] == old(tiles[y, x])
      ensures if overwrite && HasWaterNear(old(grid), Coord(i, j))
              then fresh(tiles[j, i]) && made' == made + {tiles[j, i]} && writes == old(writes) + [Write(Coord(i, j), Beach)]
              else tiles[j, i] == old(tiles[j, i]) && made' == made && owner == old(owner) && writes == old(writes)
      ensures forall t :: t in made' ==> t.population.total == SuggestedPopulation(Beach)
    {
      var _ := SetToBeachIfThereIsWaterNeighbor(j, i, overwrite);
      made' := made;
      if overwrite && HasWaterNear(old(grid), Coord(i, j)) {
        made' := made + {tiles[j, i]};
      }
    }

    // -------------------------------------------------------------------------------------------
    // Population

    /** The population objects of the tiles on the board. */
    ghost function Populations(): set<Population>
      reads tiles
    {
      set j, i | 0 <= j < tiles.Length0 && 0 <= i < tiles.Length1 && tiles[j, i] != null :: tiles[j, i].population
    }

    /** The people on the first k tiles of row j. It depends on the array and the populations
        only, not on the tiles' kinds. */
    ghost function RowPeople(j: int, k: nat): nat
      requires Shape() && Filled() && 0 <= j < n && k <= n
      reads tiles, Populations()
    {
      if k == 0 then 0 else RowPeople(j, k - 1) + tiles[j, k - 1].population.total
    }

    /** The people on the first k rows. */
    ghost function PeopleRows(k: nat): nat
      requires Shape() && Filled() && k <= n
      reads tiles, Populations()
    {
      if k == 0 then 0 else PeopleRows(k - 1) + RowPeople(k - 1, n)
    }

    /** A step that keeps the array and every tile's head count keeps the people on the board. */
    twostate lemma PeopleKept(k: nat)
      requires Shape() && old(Filled()) && unchanged(tiles) && k <= n
      requires forall y, x :: 0 <= y < n && 0 <= x < n ==> tiles[y, x].population.total == old(tiles[y, x].population.total)
      ensures Filled() && PeopleRows(k) == old(PeopleRows(k))
      decreases k
    {
      var m := 0;
      while m < k
        invariant m <= k && PeopleRows(m) == old(PeopleRows(m))
      {
        var x := 0;
        while x < n
          invariant x <= n && RowPeople(m, x) == old(RowPeople(m, x))
        {
          x := x + 1;
        }
        m := m + 1;
      }
    }

    /** `getTotalPopulation()`: the people on every tile, summed row by row; never negative. */
    method GetTotalPopulation() returns (total: int)
      requires ValidGrid()
      ensures total == PeopleRows(n) && total >= 0
    {
      total := 0;
      for y := 0 to n
        invariant total == PeopleRows(y)
      {
        for x := 0 to n
          invariant total == PeopleRows(y) + RowPeople(y, x)
        {
          total := total + tiles[y, x].population.GetTotal();
        }
      }
    }
  }
}
