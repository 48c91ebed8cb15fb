/** The two Complex generators as they run: ComplexInitializationAlgorithm.initialize and the
    COMPLEX branch of `TileMatrix.initialize`. Each walks the 2-by-2 blocks, stores through
    `setTile`, and is proved to make exactly the stores `ComplexLayout.Blocks` describes. */
module ComplexGenerator {
  import opened Outcomes
  import opened TileTypes
  import opened Grids
  import opened Painting
  import opened Randomness
  import opened Matrix
  import opened Generators
  import opened ComplexLayout

  /** The pre-decided draws of `rng`, as the block model takes them. */
  function DrawsOf(rng: Random): Draws
  {
    Draws(rng.waterDraws, rng.spreadDraws, rng.intDraws)
  }

  /** The draw cursors and `spreading` are those of the generation state `g`. */
  ghost predicate AtGen(rng: Random, spreading: int, g: Gen)
    reads rng
  {
    rng.waterUsed == g.waterUsed && rng.spreadUsed == g.spreadUsed && rng.intUsed == g.intUsed
    && spreading == g.spreading
  }

  /** `spreading`, `remainingNeighbors` and the int cursor are those of the scan state `s`. */
  ghost predicate AtScan(rng: Random, spreading: int, remaining: int, s: Scan)
    reads rng
  {
    spreading == s.spreading && remaining == s.remaining && rng.intUsed == s.intUsed
  }

  // ---------------------------------------------------------------------------------------------
  // spreadWater

  /** ComplexInitializationAlgorithm.spreadWater: move (x, y) one step in direction d, or to the
      listed fallback when that step leaves the grid, and store water there. */
  method SpreadWaterOnce(m: TileMatrix, x: int, y: int, d: Direction, ghost g0: Grid, ghost w0: seq<Write>,
                         ghost log: seq<Write>)
    requires Tracks(m, g0, w0, log) && InBounds(m.n, Coord(x, y))
    modifies m.tiles, m`owner, m`grid, m`writes
    ensures Tracks(m, g0, w0, log + SpreadWrites(m.n, x, y, d, false))
  {
    var dims := m.GetDimensions();
    ghost var target := SpreadTarget(m.n, x, y, d);
    ghost var ws := SpreadWrites(m.n, x, y, d, false);
    assert ws == [Write(target, Water)];
    SpreadTargetFacts(m.n, x, y, d);
    var x, y := x, y;
    if d == West {
      if x > 0 {
        x := x - 1;
      } else if y > 0 {
        y := y - 1;
      } else {
        y := y + 1;
      }
    } else if d == East {
      if x < dims.width - 1 {
        x := x + 1;
      } else if y > 0 {
        y := y - 1;
      } else {
        y := y + 1;
      }
    } else if d == North {
      if y > 0 {
        y := y - 1;
      } else if x > 0 {
        x := x - 1;
      } else {
        x := x + 1;
      }
    } else {
      if y < dims.height - 1 {
        y := y + 1;
      } else if x > 0 {
        x := x - 1;
      } else {
        x := x + 1;
      }
    }
    assert Coord(x, y) == target;
    Store(m, x, y, Water, g0, w0, log);
  }

  /** `TileMatrix.spreadWater`: a `switch` without `break`, so the case of direction d runs and
      then every case after it. Each case body is the step of `SpreadWaterOnce` for its direction,
      taken from the same (x, y). */
  method SpreadWaterSwitch(m: TileMatrix, x: int, y: int, d: Direction, ghost g0: Grid, ghost w0: seq<Write>,
                           ghost log: seq<Write>)
    requires Tracks(m, g0, w0, log) && InBounds(m.n, Coord(x, y))
    modifies m.tiles, m`owner, m`grid, m`writes
    ensures Tracks(m, g0, w0, log + SpreadWrites(m.n, x, y, d, true))
  {
    ghost var all := log + SpreadWrites(m.n, x, y, d, true);
    ghost var done, r := log, Rank(d);
    assert all == done + FallWrites(m.n, x, y, r);
    if d == West {
      done, r := FallCase(m, x, y, West, g0, w0, all, done, r);
    }
    if d == West || d == East {
      done, r := FallCase(m, x, y, East, g0, w0, all, done, r);
    }
    if d != South {
      done, r := FallCase(m, x, y, North, g0, w0, all, done, r);
    }
    assert r == 3;
    FallWritesLast(m.n, x, y);
    SpreadWaterOnce(m, x, y, South, g0, w0, done);
  }

  /** One case of the `spreadWater` switch that falls through to the next: its store, after which
      the cases still to come make the rest of `all`. */
  method FallCase(m: TileMatrix, x: int, y: int, d: Direction, ghost g0: Grid, ghost w0: seq<Write>,
                  ghost all: seq<Write>, ghost done: seq<Write>, ghost r: nat)
    returns (ghost done': seq<Write>, ghost r': nat)
    requires Tracks(m, g0, w0, done) && InBounds(m.n, Coord(x, y))
    requires r < 4 && d == DirectionOfRank(r) && all == done + FallWrites(m.n, x, y, r)
    modifies m.tiles, m`owner, m`grid, m`writes
    ensures r' == r + 1 && all == done' + FallWrites(m.n, x, y, r') && Tracks(m, g0, w0, done')
  {
    FallWritesStep(done, m.n, x, y, r);
    SpreadWaterOnce(m, x, y, d, g0, w0, done);
    done', r' := done + SpreadWrites(m.n, x, y, d, false), r + 1;
  }

  // ---------------------------------------------------------------------------------------------
  // One block

  /** One row of the hill branch: hill in the cells (i, y) and (i + 1, y) that lie on the grid. */
  method HillRowStores(m: TileMatrix, i: int, y: int, ghost g0: Grid, ghost w0: seq<Write>, ghost log: seq<Write>)
    requires Tracks(m, g0, w0, log) && 0 <= i && 0 <= y < m.n
    modifies m.tiles, m`owner, m`grid, m`writes
    ensures Tracks(m, g0, w0, HillRow(m.n, i, y, 0, log))
  {
    ghost var cur := log;
    for a := 0 to 2
      invariant HillRow(m.n, i, y, 0, log) == HillRow(m.n, i, y, a, cur)
      invariant Tracks(m, g0, w0, cur)
    {
      var x := i + a;
      if x < m.n {
        Store(m, x, y, Hill, g0, w0, cur);
        cur := cur + [Write(Coord(x, y), Hill)];
      }
    }
  }

  /** The hill branch of a block: hill in every cell of the 2-by-2 block at (i, j) that lies on
      the grid, row by row. */
  method HillStores(m: TileMatrix, i: int, j: int, ghost g0: Grid, ghost w0: seq<Write>, ghost log: seq<Write>)
    requires Tracks(m, g0, w0, log) && 0 <= i && 0 <= j
    modifies m.tiles, m`owner, m`grid, m`writes
    ensures Tracks(m, g0, w0, HillBlock(m.n, i, j, 0, log))
  {
    var dims := m.GetDimensions();
    ghost var cur := log;
    for b := 0 to 2
      invariant HillBlock(m.n, i, j, 0, log) == HillBlock(m.n, i, j, b, cur)
      invariant Tracks(m, g0, w0, cur)
    {
      cur := HillPass(m, i, j, b, dims.height, g0, w0, cur);
    }
  }

  /** One pass of the hill branch's outer loop: row j + b, when it lies on the grid. */
  method HillPass(m: TileMatrix, i: int, j: int, b: int, height: int, ghost g0: Grid, ghost w0: seq<Write>,
                  ghost log: seq<Write>)
    returns (ghost log': seq<Write>)
    requires Tracks(m, g0, w0, log) && 0 <= i && 0 <= j && 0 <= b < 2 && height == m.n
    modifies m.tiles, m`owner, m`grid, m`writes
    ensures HillBlock(m.n, i, j, b, log) == HillBlock(m.n, i, j, b + 1, log')
    ensures Tracks(m, g0, w0, log')
  {
    var y := j + b;
    HillBlockNext(m.n, i, j, b, log);
    log' := log;
    if y < height {
      HillRowStores(m, i, y, g0, w0, log);
      log' := HillRow(m.n, i, y, 0, log);
    }
  }
  /** A picked neighbour (x, y) at offset (a, b): water there, and when `spreading` is 2 one
      more spread away from the block. */
  method PickStores(m: TileMatrix, x: int, y: int, a: int, b: int, spreading: int, fallthrough: bool,
                    ghost g0: Grid, ghost w0: seq<Write>, ghost log: seq<Write>)
    requires Tracks(m, g0, w0, log) && InBounds(m.n, Coord(x, y))
    modifies m.tiles, m`owner, m`grid, m`writes
    ensures Tracks(m, g0, w0, if spreading == 2
                              then log + [Write(Coord(x, y), Water)] + SpreadWrites(m.n, x, y, DirectionOf(a, b), fallthrough)
                              else log + [Write(Coord(x, y), Water)])
  {
    Store(m, x, y, Water, g0, w0, log);
    if spreading == 2 {
      var d := DirectionOf(a, b);
      if fallthrough {
        SpreadWaterSwitch(m, x, y, d, g0, w0, log + [Write(Coord(x, y), Water)]);
      } else {
        SpreadWaterOnce(m, x, y, d, g0, w0, log + [Write(Coord(x, y), Water)]);
      }
    }
  }

  // The cases of `CellStep`, one at a time, so that the scan method meets each as a plain value.

  lemma CellStepIdle(w: Window, a: int, b: int, s: Scan)
    requires ValidWindow(w) && 0 <= w.j + b < w.n
    requires !(0 <= w.i + a < w.n) || (!Centre(a, b) && (s.spreading == 0 || Corner(a, b)))
    ensures CellStep(w, a, b, s) == s
  {}

  lemma CellStepCentre(w: Window, a: int, b: int, s: Scan)
    requires ValidWindow(w) && 0 <= w.j + b < w.n && 0 <= w.i + a < w.n && Centre(a, b)
    ensures CellStep(w, a, b, s) == s.(log := s.log + [Write(Coord(w.i + a, w.j + b), Water)])
  {}

  lemma CellStepPick(w: Window, a: int, b: int, s: Scan, used: nat)
    requires ValidWindow(w) && 0 <= w.j + b < w.n && 0 <= w.i + a < w.n && !Centre(a, b)
    requires s.spreading != 0 && !Corner(a, b)
    requires s.remaining == 1 || w.ints(s.intUsed) % w.count == 0
    requires used == if s.remaining == 1 then s.intUsed else s.intUsed + 1
    ensures CellStep(w, a, b, s) ==
            Scan(0, s.remaining, used, s.picks + 1,
                 if s.spreading == 2
                 then s.log + [Write(Coord(w.i + a, w.j + b), Water)]
                      + SpreadWrites(w.n, w.i + a, w.j + b, DirectionOf(a, b), w.fallthrough)
                 else s.log + [Write(Coord(w.i + a, w.j + b), Water)])
  {}

  lemma CellStepPass(w: Window, a: int, b: int, s: Scan)
    requires ValidWindow(w) && 0 <= w.j + b < w.n && 0 <= w.i + a < w.n && !Centre(a, b)
    requires s.spreading != 0 && !Corner(a, b)
    requires s.remaining != 1 && w.ints(s.intUsed) % w.count != 0
    ensures CellStep(w, a, b, s) == Scan(s.spreading, s.remaining - 1, s.intUsed + 1, s.picks, s.log)
  {}

  /** The body of the inner scan loop at offset (a, b) of a water block, for a row on the grid:
      the block's own cells become water; while `spreading` is not 0 a margin cell that is not a
      corner is picked when `remainingNeighbors` is 1 or `nextInt(count)` is 0 (drawn only when
      needed); a pick stores water there, spreads once more when `spreading` is 2, and zeroes
      `spreading`; a candidate not picked decrements `remainingNeighbors`. */
  method ScanCell(m: TileMatrix, rng: Random, i: int, j: int, a: int, b: int, count: int, fallthrough: bool,
                  spreading: int, remaining: int, ghost w: Window, ghost s: Scan, ghost g0: Grid, ghost w0: seq<Write>)
    returns (spreading': int, remaining': int, ghost s': Scan)
    requires w == Window(m.n, i, j, count, rng.intDraws, fallthrough) && ValidWindow(w) && 0 <= j + b < m.n
    requires AtScan(rng, spreading, remaining, s) && Tracks(m, g0, w0, s.log)
    modifies m.tiles, m`owner, m`grid, m`writes, rng`intUsed
    ensures s' == CellStep(w, a, b, s)
    ensures AtScan(rng, spreading', remaining', s') && Tracks(m, g0, w0, s'.log)
  {
    spreading', remaining', s' := spreading, remaining, s;
    var x, y := i + a, j + b;
    if x < 0 || x >= m.n {
      CellStepIdle(w, a, b, s);
    } else if (a == 0 || a == 1) && (b == 0 || b == 1) {
      Store(m, x, y, Water, g0, w0, s.log);
      CellStepCentre(w, a, b, s);
      s' := s.(log := s.log + [Write(Coord(x, y), Water)]);
    } else if spreading == 0 || ((a == -1 || a == 2) && (b == -1 || b == 2)) {
      CellStepIdle(w, a, b, s);
    } else {
      var pick := remaining == 1;
      if !pick {
        var r := rng.NextInt(count);
        pick := r == 0;
      }
      if pick {
        CellStepPick(w, a, b, s, rng.intUsed);
        PickStores(m, x, y, a, b, spreading, fallthrough, g0, w0, s.log);
        spreading' := 0;
        s' := Scan(0, s.remaining, rng.intUsed, s.picks + 1,
                   if spreading == 2
                   then s.log + [Write(Coord(x, y), Water)] + SpreadWrites(m.n, x, y, DirectionOf(a, b), fallthrough)
                   else s.log + [Write(Coord(x, y), Water)]);
      } else {
        CellStepPass(w, a, b, s);
        remaining' := remaining - 1;
        s' := Scan(s.spreading, s.remaining - 1, s.intUsed + 1, s.picks, s.log);
      }
    }
  }

  /** The inner scan loop over row b of the window, which lies on the grid. */
  method RowScanStores(m: TileMatrix, rng: Random, i: int, j: int, b: int, count: int, fallthrough: bool,
                       spreading: int, remaining: int, ghost w: Window, ghost s: Scan, ghost g0: Grid,
                       ghost w0: seq<Write>)
    returns (spreading': int, remaining': int, ghost t: Scan)
    requires w == Window(m.n, i, j, count, rng.intDraws, fallthrough) && ValidWindow(w) && 0 <= j + b < m.n
    requires AtScan(rng, spreading, remaining, s) && Tracks(m, g0, w0, s.log)
    modifies m.tiles, m`owner, m`grid, m`writes, rng`intUsed
    ensures t == RowScan(w, b, -1, s)
    ensures AtScan(rng, spreading', remaining', t) && Tracks(m, g0, w0, t.log)
  {
    spreading', remaining', t := spreading, remaining, s;
    for a := -1 to 3
      invariant RowScan(w, b, -1, s) == RowScan(w, b, a, t)
      invariant AtScan(rng, spreading', remaining', t) && Tracks(m, g0, w0, t.log)
    {
      spreading', remaining', t := ScanCell(m, rng, i, j, a, b, count, fallthrough, spreading', remaining',
                                            w, t, g0, w0);
    }
  }

  /** The water branch's scan of the 4-by-4 window around the block at (i, j), rows off the grid
      skipped; `remainingNeighbors` starts at `count`. */
  method WaterScan(m: TileMatrix, rng: Random, i: int, j: int, count: int, fallthrough: bool, spreading: int,
                   ghost w: Window, ghost s: Scan, ghost g0: Grid, ghost w0: seq<Write>)
    returns (spreading': int, ghost t: Scan)
    requires w == Window(m.n, i, j, count, rng.intDraws, fallthrough) && ValidWindow(w)
    requires AtScan(rng, spreading, count, s) && Tracks(m, g0, w0, s.log)
    modifies m.tiles, m`owner, m`grid, m`writes, rng`intUsed
    ensures t == WindowScan(w, -1, s)
    ensures spreading' == t.spreading && rng.intUsed == t.intUsed && Tracks(m, g0, w0, t.log)
  {
    var remaining := count;
    spreading', t := spreading, s;
    for b := -1 to 3
      invariant WindowScan(w, -1, s) == WindowScan(w, b, t)
      invariant AtScan(rng, spreading', remaining, t) && Tracks(m, g0, w0, t.log)
    {
      spreading', remaining, t := ScanPass(m, rng, i, j, b, count, fallthrough, spreading', remaining, w, t, g0, w0);
    }
  }

  /** One pass of the scan's outer loop: row j + b of the window, when it lies on the grid. */
  method ScanPass(m: TileMatrix, rng: Random, i: int, j: int, b: int, count: int, fallthrough: bool,
                  spreading: int, remaining: int, ghost w: Window, ghost s: Scan, ghost g0: Grid,
                  ghost w0: seq<Write>)
    returns (spreading': int, remaining': int, ghost t: Scan)
    requires w == Window(m.n, i, j, count, rng.intDraws, fallthrough) && ValidWindow(w) && -1 <= b < 3
    requires AtScan(rng, spreading, remaining, s) && Tracks(m, g0, w0, s.log)
    modifies m.tiles, m`owner, m`grid, m`writes, rng`intUsed
    ensures WindowScan(w, b, s) == WindowScan(w, b + 1, t)
    ensures AtScan(rng, spreading', remaining', t) && Tracks(m, g0, w0, t.log)
  {
    spreading', remaining', t := spreading, remaining, s;
    var y := j + b;
    if y >= 0 && y < m.n {
      spreading', remaining', t := RowScanStores(m, rng, i, j, b, count, fallthrough, spreading, remaining,
                                                 w, s, g0, w0);
    }
  }

  // ---------------------------------------------------------------------------------------------
  // The block loops

  lemma BlockStepWater(n: int, v: Variant, dr: Draws, i: int, j: int, g: Gen)
    requires Fits(n, v) && 0 <= i < n && 0 <= j < n && dr.water(g.waterUsed)
    ensures var t := WindowScan(BlockWindow(n, v, dr.ints, i, j), -1, StartScan(n, v, dr, i, j, g));
            BlockStep(n, v, dr, i, j, g) == Gen(t.spreading, g.waterUsed + 1, g.spreadUsed + 1, t.intUsed, t.log)
  {}

  lemma BlockStepHill(n: int, v: Variant, dr: Draws, i: int, j: int, g: Gen)
    requires Fits(n, v) && 0 <= i < n && 0 <= j < n && !dr.water(g.waterUsed)
    ensures BlockStep(n, v, dr, i, j, g) ==
            Gen(g.spreading, g.waterUsed + 1, g.spreadUsed, g.intUsed, HillBlock(n, i, j, 0, g.log))
  {}

  /** One pass of the inner block loop at (i, j): a "water?" draw; for water a spread-amount draw
      that may raise `spreading` (which the in-class generator carries over from the last block and
      ComplexInitializationAlgorithm starts at 0), the margin count and the scan; for hill the hill
      block. */
  method ComplexBlock(m: TileMatrix, rng: Random, v: Variant, i: int, j: int, spreading: int,
                      ghost g: Gen, ghost g0: Grid, ghost w0: seq<Write>)
    returns (spreading': int, ghost g': Gen)
    requires Fits(m.n, v) && 0 <= i < m.n && 0 <= j < m.n
    requires AtGen(rng, spreading, g) && Tracks(m, g0, w0, g.log)
    modifies m.tiles, m`owner, m`grid, m`writes, rng`waterUsed, rng`spreadUsed, rng`intUsed
    ensures g' == BlockStep(m.n, v, DrawsOf(rng), i, j, g)
    ensures AtGen(rng, spreading', g') && Tracks(m, g0, w0, g'.log)
  {
    ghost var dr := DrawsOf(rng);
    var water := rng.NextIsWater();
    if water {
      BlockStepWater(m.n, v, dr, i, j, g);
      spreading' := if v.carry then spreading else 0;
      var d := rng.NextSpread();
      if d == BelowTwoTenths {
        spreading' := 2;
      } else if d == BelowFourTenths {
        spreading' := 1;
      }
      var count := Count(v.counting, m.n, i, j);
      ghost var w := BlockWindow(m.n, v, rng.intDraws, i, j);
      ghost var s := StartScan(m.n, v, dr, i, j, g);
      ghost var t;
      spreading', t := WaterScan(m, rng, i, j, count, v.fallthrough, spreading', w, s, g0, w0);
      g' := Gen(t.spreading, g.waterUsed + 1, g.spreadUsed + 1, t.intUsed, t.log);
    } else {
      BlockStepHill(m.n, v, dr, i, j, g);
      HillStores(m, i, j, g0, w0, g.log);
      spreading' := spreading;
      g' := Gen(g.spreading, g.waterUsed + 1, g.spreadUsed, g.intUsed, HillBlock(m.n, i, j, 0, g.log));
    }
  }

  /** The inner block loop stands at column i of block row j: `row` is what is left of the row
      from the state `g`, and the matrix and the draw cursors are at `g`. */
  ghost predicate RowAt(m: TileMatrix, rng: Random, v: Variant, j: int, i: int, spreading: int,
                        row: Gen, g: Gen, g0: Grid, w0: seq<Write>)
    requires Fits(m.n, v) && 0 <= j < m.n && 0 <= i
    reads rng, m, m.tiles, m.owner.Keys
  {
    && row == BlockRow(m.n, v, DrawsOf(rng), j, i, g)
    && AtGen(rng, spreading, g)
    && Tracks(m, g0, w0, g.log)
  }

  /** One pass of the inner block loop, seen from the row: the rest of the row from the block
      at (i, j) is the rest of the row after it, from the state the block leaves. */
  method BlockInRow(m: TileMatrix, rng: Random, v: Variant, i: int, j: int, spreading: int,
                    ghost row: Gen, ghost g: Gen, ghost g0: Grid, ghost w0: seq<Write>)
    returns (spreading': int, ghost g': Gen)
    requires Fits(m.n, v) && 0 <= i < m.n && 0 <= j < m.n
    requires RowAt(m, rng, v, j, i, spreading, row, g, g0, w0)
    modifies m.tiles, m`owner, m`grid, m`writes, rng`waterUsed, rng`spreadUsed, rng`intUsed
    ensures RowAt(m, rng, v, j, i + 2, spreading', row, g', g0, w0)
  {
    ghost var next := BlockRowNext(m.n, v, DrawsOf(rng), j, i, g);
    spreading', g' := ComplexBlock(m, rng, v, i, j, spreading, g, g0, w0);
  }

  /** The inner block loop of block row j, columns 0, 2, 4, ... */
  method ComplexRow(m: TileMatrix, rng: Random, v: Variant, j: int, spreading: int,
                    ghost g: Gen, ghost g0: Grid, ghost w0: seq<Write>)
    returns (spreading': int, ghost g': Gen)
    requires Fits(m.n, v) && 0 <= j < m.n
    requires AtGen(rng, spreading, g) && Tracks(m, g0, w0, g.log)
    modifies m.tiles, m`owner, m`grid, m`writes, rng`waterUsed, rng`spreadUsed, rng`intUsed
    ensures g' == BlockRow(m.n, v, DrawsOf(rng), j, 0, g)
    ensures AtGen(rng, spreading', g') && Tracks(m, g0, w0, g'.log)
  {
    ghost var row := BlockRow(m.n, v, DrawsOf(rng), j, 0, g);
    var i := 0;
    spreading', g' := spreading, g;
    while i < m.n
      invariant 0 <= i
      invariant RowAt(m, rng, v, j, i, spreading', row, g', g0, w0)
      decreases m.n - i
    {
      spreading', g' := BlockInRow(m, rng, v, i, j, spreading', row, g', g0, w0);
      i := i + 2;
    }
  }

  /** The Complex generators: the block loops over block rows 0, 2, 4, ... from `spreading` 0,
      storing exactly what `Blocks` describes; the matrix ends full, every tile water or hill. */
  method ComplexFill(m: TileMatrix, rng: Random, v: Variant)
    requires m.Agrees() && Fits(m.n, v)
    modifies m.tiles, m`owner, m`grid, m`writes, rng`waterUsed, rng`spreadUsed, rng`intUsed
    ensures var final := Blocks(m.n, v, DrawsOf(rng), 0,
                                Gen(0, old(rng.waterUsed), old(rng.spreadUsed), old(rng.intUsed), []));
            && m.writes == old(m.writes) + final.log
            && rng.waterUsed == final.waterUsed && rng.spreadUsed == final.spreadUsed
            && rng.intUsed == final.intUsed
    ensures m.ValidGrid()
    ensures forall c :: InBounds(m.n, c) ==> At(m.grid, c) == Water || At(m.grid, c) == Hill
    ensures forall c :: InBounds(m.n, c) ==>
              LastKind(Blocks(m.n, v, DrawsOf(rng), 0, Gen(0, old(rng.waterUsed), old(rng.spreadUsed),
                                                          old(rng.intUsed), [])).log, c) == Some(At(m.grid, c))
  {
    ghost var g0, w0 := m.grid, m.writes;
    ghost var start := Gen(0, rng.waterUsed, rng.spreadUsed, rng.intUsed, []);
    ghost var g := BlockRows(m, rng, v, start, g0, w0);
    FillDone(m, v, DrawsOf(rng), start, g0, w0);
  }

  /** One pass of the outer block loop, seen from the generation: the rest of the generation
      from block row j is the rest after it, from the state that row leaves. */
  method RowInBlocks(m: TileMatrix, rng: Random, v: Variant, j: int, spreading: int,
                     ghost rest: Gen, ghost g: Gen, ghost g0: Grid, ghost w0: seq<Write>)
    returns (spreading': int, ghost g': Gen)
    requires Fits(m.n, v) && 0 <= j < m.n
    requires rest == Blocks(m.n, v, DrawsOf(rng), j, g)
    requires AtGen(rng, spreading, g) && Tracks(m, g0, w0, g.log)
    modifies m.tiles, m`owner, m`grid, m`writes, rng`waterUsed, rng`spreadUsed, rng`intUsed
    ensures rest == Blocks(m.n, v, DrawsOf(rng), j + 2, g')
    ensures AtGen(rng, spreading', g') && Tracks(m, g0, w0, g'.log)
  {
    ghost var next := BlocksNext(m.n, v, DrawsOf(rng), j, g);
    spreading', g' := ComplexRow(m, rng, v, j, spreading, g, g0, w0);
  }

  /** The outer block loop, block rows 0, 2, 4, ..., with `spreading` starting at 0. */
  method BlockRows(m: TileMatrix, rng: Random, v: Variant, ghost start: Gen, ghost g0: Grid, ghost w0: seq<Write>)
    returns (ghost g: Gen)
    requires Fits(m.n, v) && AtGen(rng, 0, start) && Tracks(m, g0, w0, start.log)
    modifies m.tiles, m`owner, m`grid, m`writes, rng`waterUsed, rng`spreadUsed, rng`intUsed
    ensures g == Blocks(m.n, v, DrawsOf(rng), 0, start)
    ensures AtGen(rng, g.spreading, g) && Tracks(m, g0, w0, g.log)
  {
    ghost var rest := Blocks(m.n, v, DrawsOf(rng), 0, start);
    g := start;
    var spreading := 0;
    var j := 0;
    while j < m.n
      invariant 0 <= j
      invariant rest == Blocks(m.n, v, DrawsOf(rng), j, g)
      invariant AtGen(rng, spreading, g) && Tracks(m, g0, w0, g.log)
      decreases m.n - j
    {
      spreading, g := RowInBlocks(m, rng, v, j, spreading, rest, g, g0, w0);
      j := j + 2;
    }
  }

  /** Once the block loops have made every store of `Blocks`, the matrix is full and shows only
      water and hill. */
  lemma FillDone(m: TileMatrix, v: Variant, dr: Draws, start: Gen, g0: Grid, w0: seq<Write>)
    requires Fits(m.n, v) && start.log == []
    requires Tracks(m, g0, w0, Blocks(m.n, v, dr, 0, start).log)
    ensures m.ValidGrid()
    ensures forall c :: InBounds(m.n, c) ==> At(m.grid, c) == Water || At(m.grid, c) == Hill
    ensures forall c :: InBounds(m.n, c) ==> LastKind(Blocks(m.n, v, dr, 0, start).log, c) == Some(At(m.grid, c))
  {
    var log := Blocks(m.n, v, dr, 0, start).log;
    GenerateNoBeach(m.n, v, dr, start, g0);
    TracksCovered(m, g0, w0, log);
    forall c | InBounds(m.n, c)
      ensures LastKind(log, c) == Some(At(m.grid, c))
    {
      ApplyAt(g0, log, c);
    }
  }
}
