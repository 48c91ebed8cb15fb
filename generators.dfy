/** The generators that fill a tile matrix: each stores a fresh tile at every position, through
    `setTile`, in an order fixed by its loops and with kinds decided by the draws. */
module Generators {
  import opened Outcomes
  import opened TileTypes
  import opened Tiles
  import opened Grids
  import opened Painting
  import opened Randomness
  import opened Layouts
  import opened Matrix

  /** Since generation began on grid `g0` with store log `w0`, the stores `log` have been made:
      the matrix logged them, shows their effect, and holds a tile wherever one of them landed. */
  ghost predicate Tracks(m: TileMatrix, g0: Grid, w0: seq<Write>, log: seq<Write>)
    reads m, m.tiles, m.owner.Keys
  {
    && m.Agrees()
    && |g0| == m.n && IsSquare(g0, m.n)
    && WithinGrid(log, m.n)
    && m.writes == w0 + log
    && m.grid == Apply(g0, log)
    && forall t :: 0 <= t < |log| ==> m.tiles[log[t].cell.j, log[t].cell.i] != null
  }

  /** `setTile(x, y, new Tile(kind))`. */
  method Store(m: TileMatrix, x: int, y: int, kind: TileType, ghost g0: Grid, ghost w0: seq<Write>,
               ghost log: seq<Write>)
    requires Tracks(m, g0, w0, log) && InBounds(m.n, Coord(x, y))
    modifies m.tiles, m`owner, m`grid, m`writes
    ensures Tracks(m, g0, w0, log + [Write(Coord(x, y), kind)])
  {
    var t := new Tile(kind);
    m.SetTile(x, y, t);
    var w := Write(Coord(x, y), kind);
    ApplyAppend(g0, log, w);
    assert m.writes == w0 + (log + [w]);
    assert forall k :: 0 <= k < |log| ==> (log + [w])[k] == log[k];
  }

  /** A cell some store has reached holds a tile of the kind last stored there. */
  lemma TracksKind(m: TileMatrix, g0: Grid, w0: seq<Write>, log: seq<Write>, c: Coord)
    requires Tracks(m, g0, w0, log) && InBounds(m.n, c) && LastKind(log, c).Some?
    ensures m.tiles[c.j, c.i] != null && m.tiles[c.j, c.i].tileType == LastKind(log, c).value
  {
    ApplyAt(g0, log, c);
    LastKindMeaning(log, c);
  }

  /** Once the stores reach every cell, every position holds a tile. */
  lemma TracksCovered(m: TileMatrix, g0: Grid, w0: seq<Write>, log: seq<Write>)
    requires Tracks(m, g0, w0, log) && CoversGrid(log, m.n)
    ensures m.ValidGrid()
  {
    forall j, i | 0 <= j < m.tiles.Length0 && 0 <= i < m.tiles.Length1
      ensures m.tiles[j, i] != null
    {
      assert LastKind(log, Coord(i, j)).Some?;
      LastKindMeaning(log, Coord(i, j));
    }
  }

  /** After the whole walk the matrix is full and shows the layout's kinds. */
  lemma FillResult(m: TileMatrix, g0: Grid, w0: seq<Write>, layout: Layout)
    requires Tracks(m, g0, w0, RowsStores(m.n, layout, m.n))
    ensures m.ValidGrid()
    ensures m.writes == w0 + RowsStores(m.n, layout, m.n)
    ensures forall c :: InBounds(m.n, c) ==> At(m.grid, c) == KindAt(m.n, layout, c)
  {
    WalkResult(g0, layout);
    TracksCovered(m, g0, w0, RowsStores(m.n, layout, m.n));
  }

  /** SimpleInitializationAlgorithm.initialize, and the SIMPLE branch of `TileMatrix.initialize`
      when `asWritten`: one draw and one store per cell, in row-major order. */
  method SimpleFill(m: TileMatrix, rng: Random, asWritten: bool)
    requires m.Agrees()
    modifies m.tiles, m`owner, m`grid, m`writes, rng`waterUsed
    ensures m.ValidGrid()
    ensures rng.waterUsed == old(rng.waterUsed) + m.n * m.n
    ensures m.writes == old(m.writes) + RowsStores(m.n, SimpleLayout(rng.waterDraws, old(rng.waterUsed), asWritten), m.n)
    ensures forall c :: InBounds(m.n, c) ==>
              At(m.grid, c) == KindAt(m.n, SimpleLayout(rng.waterDraws, old(rng.waterUsed), asWritten), c)
  {
    ghost var layout := SimpleLayout(rng.waterDraws, rng.waterUsed, asWritten);
    ghost var g0, w0 := m.grid, m.writes;
    var d := m.GetDimensions();
    for y := 0 to d.height
      invariant Tracks(m, g0, w0, RowsStores(m.n, layout, y))
      invariant rng.waterUsed == layout.first + RowStart(m.n, y)
    {
      SimpleRow(m, rng, asWritten, d.width, y, layout, g0, w0);
    }
    FillResult(m, g0, w0, layout);
    RowStartIsProduct(m.n, m.n);
  }

  /** One pass of SimpleInitializationAlgorithm's outer loop: row `y`, left to right. */
  method SimpleRow(m: TileMatrix, rng: Random, asWritten: bool, width: int, y: int, ghost layout: Layout,
                   ghost g0: Grid, ghost w0: seq<Write>)
    requires layout == SimpleLayout(rng.waterDraws, layout.first, asWritten)
    requires 0 <= y < m.n && width == m.n
    requires Tracks(m, g0, w0, RowsStores(m.n, layout, y))
    requires rng.waterUsed == layout.first + RowStart(m.n, y)
    modifies m.tiles, m`owner, m`grid, m`writes, rng`waterUsed
    ensures Tracks(m, g0, w0, RowsStores(m.n, layout, y + 1))
    ensures rng.waterUsed == layout.first + RowStart(m.n, y + 1)
  {
    ghost var done := RowsStores(m.n, layout, y);
    assert done + RowStores(m.n, layout, y, 0) == done;
    for x := 0 to width
      invariant Tracks(m, g0, w0, done + RowStores(m.n, layout, y, x))
      invariant rng.waterUsed == layout.first + RowStart(m.n, y) + x
    {
      SimpleCell(m, rng, asWritten, x, y, layout, g0, w0, done);
    }
  }

  /** One pass of SimpleInitializationAlgorithm's inner loop: draw, then store water or hill. */
  method SimpleCell(m: TileMatrix, rng: Random, asWritten: bool, x: int, y: int, ghost layout: Layout,
                    ghost g0: Grid, ghost w0: seq<Write>, ghost done: seq<Write>)
    requires layout == SimpleLayout(rng.waterDraws, layout.first, asWritten)
    requires 0 <= y < m.n && 0 <= x < m.n
    requires Tracks(m, g0, w0, done + RowStores(m.n, layout, y, x))
    requires rng.waterUsed == layout.first + RowStart(m.n, y) + x
    modifies m.tiles, m`owner, m`grid, m`writes, rng`waterUsed
    ensures Tracks(m, g0, w0, done + RowStores(m.n, layout, y, x + 1))
    ensures rng.waterUsed == layout.first + RowStart(m.n, y) + x + 1
  {
    SimpleCellStep(m.n, layout, y, x, done);
    ghost var log := done + RowStores(m.n, layout, y, x);
    var water := rng.NextIsWater();
    var kind := if water then Water else if asWritten then Water else Hill;
    assert log + [Write(Coord(x, y), kind)] == done + RowStores(m.n, layout, y, x + 1);
    Store(m, x, y, kind, g0, w0, log);
  }

  /** SquaresInitializationAlgorithm.initialize and the SQUARES branch of `TileMatrix.initialize`:
      an anchor (even column, even row) gets a drawn kind; the other cells copy the tile to their
      left on even rows and the tile above on odd rows, as already stored. */
  method SquaresFill(m: TileMatrix, rng: Random)
    requires m.Agrees()
    modifies m.tiles, m`owner, m`grid, m`writes, rng`waterUsed
    ensures m.ValidGrid()
    ensures rng.waterUsed == old(rng.waterUsed) + ((m.n + 1) / 2) * ((m.n + 1) / 2)
    ensures m.writes == old(m.writes) + RowsStores(m.n, SquaresLayout(rng.waterDraws, old(rng.waterUsed)), m.n)
    ensures forall c :: InBounds(m.n, c) ==>
              At(m.grid, c) == KindAt(m.n, SquaresLayout(rng.waterDraws, old(rng.waterUsed)), c)
  {
    ghost var layout := SquaresLayout(rng.waterDraws, rng.waterUsed);
    ghost var g0, w0 := m.grid, m.writes;
    var d := m.GetDimensions();
    for y := 0 to d.height
      invariant Tracks(m, g0, w0, RowsStores(m.n, layout, y))
      invariant rng.waterUsed == layout.first + AnchorRows(m.n, y)
    {
      SquaresRow(m, rng, d.width, y, layout, g0, w0);
    }
    FillResult(m, g0, w0, layout);
    AnchorRowsClosedForm(m.n, m.n);
  }

  /** One pass of SquaresInitializationAlgorithm's outer loop: row `y`, left to right. */
  method SquaresRow(m: TileMatrix, rng: Random, width: int, y: int, ghost layout: Layout,
                    ghost g0: Grid, ghost w0: seq<Write>)
    requires layout == SquaresLayout(rng.waterDraws, layout.first)
    requires 0 <= y < m.n && width == m.n
    requires Tracks(m, g0, w0, RowsStores(m.n, layout, y))
    requires rng.waterUsed == layout.first + AnchorRows(m.n, y)
    modifies m.tiles, m`owner, m`grid, m`writes, rng`waterUsed
    ensures Tracks(m, g0, w0, RowsStores(m.n, layout, y + 1))
    ensures rng.waterUsed == layout.first + AnchorRows(m.n, y + 1)
  {
    ghost var done := RowsStores(m.n, layout, y);
    assert done + RowStores(m.n, layout, y, 0) == done;
    for x := 0 to width
      invariant Tracks(m, g0, w0, done + RowStores(m.n, layout, y, x))
      invariant rng.waterUsed == layout.first + AnchorsBefore(m.n, y, x)
    {
      SquaresCell(m, rng, x, y, layout, g0, w0, done);
    }
    AnchorsNextRow(m.n, y);
  }

  /** One pass of SquaresInitializationAlgorithm's inner loop. */
  method SquaresCell(m: TileMatrix, rng: Random, x: int, y: int, ghost layout: Layout,
                     ghost g0: Grid, ghost w0: seq<Write>, ghost done: seq<Write>)
    requires layout == SquaresLayout(rng.waterDraws, layout.first)
    requires 0 <= y < m.n && 0 <= x < m.n && done == RowsStores(m.n, layout, y)
    requires Tracks(m, g0, w0, done + RowStores(m.n, layout, y, x))
    requires rng.waterUsed == layout.first + AnchorsBefore(m.n, y, x)
    modifies m.tiles, m`owner, m`grid, m`writes, rng`waterUsed
    ensures Tracks(m, g0, w0, done + RowStores(m.n, layout, y, x + 1))
    ensures rng.waterUsed == layout.first + AnchorsBefore(m.n, y, x + 1)
  {
    ghost var row := RowStores(m.n, layout, y, x);
    ghost var w := Write(Coord(x, y), KindAt(m.n, layout, Coord(x, y)));
    assert RowStores(m.n, layout, y, x + 1) == row + [w];
    assert done + row + [w] == done + (row + [w]);
    AnchorsStep(m.n, y, x);
    var kind: TileType;
    if y % 2 == 0 && x % 2 == 0 {
      kind := AnchorKind(m.n, rng, x, y, layout);
    } else {
      kind := CopiedKind(m, x, y, layout, g0, w0);
    }
    Store(m, x, y, kind, g0, w0, done + row);
  }

  /** An anchor's kind: one draw. */
  method AnchorKind(n: nat, rng: Random, x: int, y: int, ghost layout: Layout) returns (kind: TileType)
    requires layout == SquaresLayout(rng.waterDraws, layout.first)
    requires 0 <= y < n && 0 <= x < n && y % 2 == 0 && x % 2 == 0
    requires rng.waterUsed == layout.first + AnchorsBefore(n, y, x)
    modifies rng`waterUsed
    ensures kind == KindAt(n, layout, Coord(x, y))
    ensures rng.waterUsed == old(rng.waterUsed) + 1
  {
    SquaresAnchor(n, layout.water, layout.first, Coord(x, y));
    var water := rng.NextIsWater();
    kind := KindOf(water);
  }

  /** Any other cell's kind: that of the tile already stored to its left (even row) or above it
      (odd row). */
  method CopiedKind(m: TileMatrix, x: int, y: int, ghost layout: Layout, ghost g0: Grid, ghost w0: seq<Write>)
      returns (kind: TileType)
    requires layout.SquaresLayout?
    requires 0 <= y < m.n && 0 <= x < m.n && (y % 2 == 1 || x % 2 == 1)
    requires Tracks(m, g0, w0, RowsStores(m.n, layout, y) + RowStores(m.n, layout, y, x))
    ensures kind == KindAt(m.n, layout, Coord(x, y))
  {
    var from: Coord;
    if y % 2 == 0 {
      assert x != 0;
      from := Coord(x - 1, y);
    } else {
      assert y != 0;
      from := Coord(x, y - 1);
    }
    SquaresCopies(m.n, layout.water, layout.first, Coord(x, y));
    WalkKind(m.n, layout, y, x, from);
    TracksKind(m, g0, w0, RowsStores(m.n, layout, y) + RowStores(m.n, layout, y, x), from);
    kind := m.tiles[from.j, from.i].GetType();
  }
}
