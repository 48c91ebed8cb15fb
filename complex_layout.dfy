/** What the Complex generators store (ComplexInitializationAlgorithm and the COMPLEX branch of
    `TileMatrix.initialize`): 2-by-2 blocks of water or hill, and around a water block an optional
    spread of one or two more water cells, placed by a scan of the block's margin. */
module ComplexLayout {
  import opened Outcomes
  import opened TileTypes
  import opened Grids
  import opened Painting
  import opened Randomness

  /** The four directions water spreads in, in the order of the `switch` in `spreadWater`. */
  datatype Direction = West | East | North | South

  /** How a water block counts its margin: the edge test of `TileMatrix.initialize`,
      `calculateNotDiagonalNeighbors`, or the number of candidates the scan will actually meet. */
  datatype Counting = EdgeRule | NotDiagonal | ExactCandidates

  /** The three ways the two Complex generators differ: whether `spreading` carries over from one
      block to the next, how the margin is counted, and whether `spreadWater` falls through its
      `switch`. */
  datatype Variant = Variant(carry: bool, counting: Counting, fallthrough: bool)

  /** The COMPLEX branch of `TileMatrix.initialize`. */
  const InClass := Variant(true, EdgeRule, true)
  /** ComplexInitializationAlgorithm. */
  const Pluggable := Variant(false, NotDiagonal, false)
  /** ComplexInitializationAlgorithm with the margin counted exactly. */
  const Corrected := Variant(false, ExactCandidates, false)

  // ---------------------------------------------------------------------------------------------
  // Counting the margin

  /** `calculateNotDiagonalNeighbors(i, j, dims)`: two for each side of the block at (i, j) that is
      not on the matrix edge, as the code tests it; AssertionError for a matrix under 2-by-2. */
  function NotDiagonalNeighbors(i: int, j: int, d: Dimension): (r: Result<int>)
    ensures r.Err? <==> d.height < 2 || d.width < 2
    ensures r.Err? ==> r.error == AssertionError
  {
    if d.height < 2 || d.width < 2 then Err(AssertionError)
    else
      var neighbors := 0;
      var neighbors := if i > 0 then neighbors + 2 else neighbors;
      var neighbors := if i < d.width - 1 then neighbors + 2 else neighbors;
      var neighbors := if j > 0 then neighbors + 2 else neighbors;
      var neighbors := if j < d.height - 1 then neighbors + 2 else neighbors;
      Ok(neighbors)
  }

  /** For a block inside a matrix of at least 2-by-2 the count is 4, 6 or 8: 8 exactly inside,
      4 exactly in a corner. */
  lemma NotDiagonalNeighborsValues(i: int, j: int, d: Dimension)
    requires d.width >= 2 && d.height >= 2 && 0 <= i < d.width && 0 <= j < d.height
    ensures var r := NotDiagonalNeighbors(i, j, d);
            && r.Ok?
            && (r.value == 8 <==> 0 < i < d.width - 1 && 0 < j < d.height - 1)
            && (r.value == 4 <==> (i == 0 || i == d.width - 1) && (j == 0 || j == d.height - 1))
            && (r.value == 4 || r.value == 6 || r.value == 8)
  {
  }

  /** The edge test of `TileMatrix.initialize`: 4 in a corner, 6 on an edge, 8 inside, where "on an
      edge" means index 0 or `length - 1`. */
  function EdgeRuleCount(n: int, i: int, j: int): int
  {
    if j == 0 || j == n - 1 then
      if i == 0 || i == n - 1 then 4 else 6
    else
      if i == 0 || i == n - 1 then 6 else 8
  }

  /** The spread candidates the scan meets around the block at (i, j): both cells of each side that
      lies on the grid, the second only when its row or column does. */
  function SideCount(n: int, i: int, j: int): (c: int)
    ensures 0 <= c <= 8
    ensures n >= 3 && 0 <= i < n ==> c >= 1
  {
    var along := if j + 1 < n then 2 else 1;
    var across := if i + 1 < n then 2 else 1;
    (if i > 0 then along else 0) + (if i + 2 < n then along else 0) +
    (if j > 0 then across else 0) + (if j + 2 < n then across else 0)
  }

  /** The count a generator variant uses for the block at (i, j). */
  function Count(c: Counting, n: int, i: int, j: int): (r: int)
    requires n >= 2
    ensures c != ExactCandidates ==> r == 4 || r == 6 || r == 8
    ensures c == ExactCandidates && n >= 3 && 0 <= i < n ==> r >= 1
  {
    match c
    case EdgeRule => EdgeRuleCount(n, i, j)
    case NotDiagonal => NotDiagonalNeighbors(i, j, Dimension(n, n)).value
    case ExactCandidates => SideCount(n, i, j)
  }

  /** On a matrix of even side, blocks start at even indices, which are never `length - 1`: the edge
      test of `TileMatrix.initialize` then gives what `calculateNotDiagonalNeighbors` gives. */
  lemma EdgeRuleAgrees(n: int, i: int, j: int)
    requires n >= 2 && n % 2 == 0 && i % 2 == 0 && j % 2 == 0 && 0 <= i < n && 0 <= j < n
    ensures EdgeRuleCount(n, i, j) == NotDiagonalNeighbors(i, j, Dimension(n, n)).value
  {
    assert i != n - 1 && j != n - 1;
  }

  /** Away from the last block row and column both counts are exact; on them
      `calculateNotDiagonalNeighbors` counts a side that is not on the grid. */
  lemma CountsAgreeInside(n: int, i: int, j: int)
    requires n >= 2 && 0 <= i < n && 0 <= j < n
    ensures i + 2 < n && j + 2 < n ==> NotDiagonalNeighbors(i, j, Dimension(n, n)).value == SideCount(n, i, j)
    ensures n >= 4 && i == n - 2 && j == n - 2 ==>
              NotDiagonalNeighbors(i, j, Dimension(n, n)).value == 8 && SideCount(n, i, j) == 4
  {
  }

  // ---------------------------------------------------------------------------------------------
  // Spreading

  /** The cell `spreadWater(x, y, d)` turns to water: the neighbour in direction d, or the listed
      fallback when that neighbour is off the grid. */
  function SpreadTarget(n: int, x: int, y: int, d: Direction): Coord
  {
    match d
    case West => if x > 0 then Coord(x - 1, y) else if y > 0 then Coord(x, y - 1) else Coord(x, y + 1)
    case East => if x < n - 1 then Coord(x + 1, y) else if y > 0 then Coord(x, y - 1) else Coord(x, y + 1)
    case North => if y > 0 then Coord(x, y - 1) else if x > 0 then Coord(x - 1, y) else Coord(x + 1, y)
    case South => if y < n - 1 then Coord(x, y + 1) else if x > 0 then Coord(x - 1, y) else Coord(x + 1, y)
  }

  /** The spread lands on the grid next to (x, y), in direction d whenever that neighbour is on the
      grid. */
  lemma SpreadTargetFacts(n: int, x: int, y: int, d: Direction)
    requires n >= 2 && InBounds(n, Coord(x, y))
    ensures var c := SpreadTarget(n, x, y, d);
            && InBounds(n, c) && Adjacent(Coord(x, y), c)
            && (d == West && x > 0 ==> c == Coord(x - 1, y))
            && (d == East && x < n - 1 ==> c == Coord(x + 1, y))
            && (d == North && y > 0 ==> c == Coord(x, y - 1))
            && (d == South && y < n - 1 ==> c == Coord(x, y + 1))
  {
  }

  /** The position of a direction's case in the `switch`. */
  function Rank(d: Direction): nat
  {
    match d
    case West => 0
    case East => 1
    case North => 2
    case South => 3
  }

  function DirectionOfRank(r: nat): Direction
  {
    if r == 0 then West else if r == 1 then East else if r == 2 then North else South
  }

  /** The stores of the in-class `spreadWater`, whose `switch` has no `break`: the case for the
      direction with rank r and every case after it, each aimed from the same (x, y). */
  function FallWrites(n: int, x: int, y: int, r: nat): (ws: seq<Write>)
    ensures |ws| == if r <= 4 then 4 - r else 0
    decreases 4 - r
  {
    if r >= 4 then [] else [Write(SpreadTarget(n, x, y, DirectionOfRank(r)), Water)] + FallWrites(n, x, y, r + 1)
  }

  /** The k-th fall-through store is the case of rank r + k. */
  lemma {:induction false} FallWritesAt(n: int, x: int, y: int, r: nat, k: nat)
    requires k < |FallWrites(n, x, y, r)|
    ensures FallWrites(n, x, y, r)[k] == Write(SpreadTarget(n, x, y, DirectionOfRank(r + k)), Water)
    decreases k
  {
    if k > 0 {
      FallWritesAt(n, x, y, r + 1, k - 1);
    }
  }

  /** Stores made so far, followed by the fall-through from the case of rank r: the same as the
      stores with that case's single store added, followed by the fall-through from the next case. */
  lemma FallWritesStep(done: seq<Write>, n: int, x: int, y: int, r: nat)
    requires r < 4
    ensures done + FallWrites(n, x, y, r) ==
              (done + SpreadWrites(n, x, y, DirectionOfRank(r), false)) + FallWrites(n, x, y, r + 1)
  {
  }

  /** The fall-through from the last case is that case's single store. */
  lemma FallWritesLast(n: int, x: int, y: int)
    ensures FallWrites(n, x, y, 3) == SpreadWrites(n, x, y, South, false)
  {
  }

  /** The stores one `spreadWater(x, y, d)` makes: one, or with fall-through one per remaining case. */
  function SpreadWrites(n: int, x: int, y: int, d: Direction, fallthrough: bool): (ws: seq<Write>)
  {
    if fallthrough then FallWrites(n, x, y, Rank(d)) else [Write(SpreadTarget(n, x, y, d), Water)]
  }

  /** Every spread store is water, lands on the grid next to (x, y), and there is at least one;
      without fall-through there is exactly one, aimed in direction d. */
  lemma SpreadWritesFacts(n: int, x: int, y: int, d: Direction, fallthrough: bool)
    requires n >= 2 && InBounds(n, Coord(x, y))
    ensures var ws := SpreadWrites(n, x, y, d, fallthrough);
            && 1 <= |ws| <= 4
            && (forall k :: 0 <= k < |ws| ==>
                  ws[k].kind == Water && InBounds(n, ws[k].cell) && Adjacent(Coord(x, y), ws[k].cell))
            && (!fallthrough ==> ws == [Write(SpreadTarget(n, x, y, d), Water)])
            && (fallthrough ==> ws[0] == Write(SpreadTarget(n, x, y, d), Water))
  {
    var ws := SpreadWrites(n, x, y, d, fallthrough);
    SpreadTargetFacts(n, x, y, d);
    if fallthrough {
      assert DirectionOfRank(Rank(d)) == d;
      FallWritesAt(n, x, y, Rank(d), 0);
      forall k | 0 <= k < |ws|
        ensures ws[k].kind == Water && InBounds(n, ws[k].cell) && Adjacent(Coord(x, y), ws[k].cell)
      {
        FallWritesAt(n, x, y, Rank(d), k);
        SpreadTargetFacts(n, x, y, DirectionOfRank(Rank(d) + k));
      }
    }
  }

  /** With fall-through, a spread towards the west from an inner cell stores four cells: the
      neighbours to the west, the east, the north and the south. */
  lemma FallthroughStoresFour(n: int, x: int, y: int)
    requires 0 < x < n - 1 && 0 < y < n - 1
    ensures SpreadWrites(n, x, y, West, true) ==
              [Write(Coord(x - 1, y), Water), Write(Coord(x + 1, y), Water),
               Write(Coord(x, y - 1), Water), Write(Coord(x, y + 1), Water)]
  {
    var ws := SpreadWrites(n, x, y, West, true);
    FallWritesAt(n, x, y, 0, 0);
    FallWritesAt(n, x, y, 0, 1);
    FallWritesAt(n, x, y, 0, 2);
    FallWritesAt(n, x, y, 0, 3);
    assert ws[0] == Write(SpreadTarget(n, x, y, West), Water);
    assert ws[1] == Write(SpreadTarget(n, x, y, East), Water);
    assert ws[2] == Write(SpreadTarget(n, x, y, North), Water);
    assert ws[3] == Write(SpreadTarget(n, x, y, South), Water);
  }

  // ---------------------------------------------------------------------------------------------
  // The scan of a water block

  /** One water block's scan: the side of the grid, the block's top-left cell (i, j), the fixed
      count that bounds `nextInt`, the int draws, and whether `spreadWater` falls through. */
  datatype Window = Window(n: int, i: int, j: int, count: int, ints: nat -> nat, fallthrough: bool)

  ghost predicate ValidWindow(w: Window)
  {
    w.n >= 2 && 0 <= w.i < w.n && 0 <= w.j < w.n && w.count > 0
  }

  /** The scan's state: `spreading`, `remainingNeighbors`, the int draws used so far, the candidates
      picked (a count kept only by the model) and the stores made since generation began. */
  datatype Scan = Scan(spreading: int, remaining: int, intUsed: nat, picks: nat, log: seq<Write>)

  /** Offsets 0 and 1 in both directions: the block itself. */
  predicate Centre(a: int, b: int)
  {
    (a == 0 || a == 1) && (b == 0 || b == 1)
  }

  /** The four corners of the window, never spread to. */
  predicate Corner(a: int, b: int)
  {
    (a == -1 || a == 2) && (b == -1 || b == 2)
  }

  /** The preferred direction of a spread from the candidate at offset (a, b). */
  function DirectionOf(a: int, b: int): Direction
  {
    if a == -1 then West else if a == 2 then East else if b == -1 then North else South
  }

  /** A margin cell of the window, on the grid, that the scan may pick. */
  predicate IsCandidate(w: Window, a: int, b: int)
  {
    !Centre(a, b) && !Corner(a, b) && 0 <= w.i + a < w.n && 0 <= w.j + b < w.n
  }

  /** The body of the inner scan loop at offset (a, b) of a row that lies on the grid: off the grid
      nothing happens; the block's own cells become water; while `spreading` is not 0, a candidate
      is picked when it is the last one counted or when `nextInt(count)` is 0. A pick stores water
      there, spreads once more when `spreading` is 2, and zeroes `spreading`; a candidate not picked
      decrements `remaining`. The draw is made only when `remaining` is not 1. */
  function CellStep(w: Window, a: int, b: int, s: Scan): Scan
    requires ValidWindow(w) && 0 <= w.j + b < w.n
  {
    var x, y := w.i + a, w.j + b;
    if !(0 <= x < w.n) then s
    else if Centre(a, b) then s.(log := s.log + [Write(Coord(x, y), Water)])
    else if s.spreading == 0 || Corner(a, b) then s
    else if s.remaining == 1 || w.ints(s.intUsed) % w.count == 0 then
      s.(spreading := 0,
         intUsed := if s.remaining == 1 then s.intUsed else s.intUsed + 1,
         picks := s.picks + 1,
         log := if s.spreading == 2
                then s.log + [Write(Coord(x, y), Water)] + SpreadWrites(w.n, x, y, DirectionOf(a, b), w.fallthrough)
                else s.log + [Write(Coord(x, y), Water)])
    else s.(remaining := s.remaining - 1, intUsed := s.intUsed + 1)
  }

  /** The inner scan loop of row b from offset a on. */
  function RowScan(w: Window, b: int, a: int, s: Scan): Scan
    requires ValidWindow(w) && 0 <= w.j + b < w.n && -1 <= a <= 3
    decreases 3 - a
  {
    if a == 3 then s else RowScan(w, b, a + 1, CellStep(w, a, b, s))
  }

  /** The outer scan loop from row offset b on; rows off the grid are skipped. */
  function WindowScan(w: Window, b: int, s: Scan): Scan
    requires ValidWindow(w) && -1 <= b <= 3
    decreases 3 - b
  {
    if b == 3 then s
    else WindowScan(w, b + 1, if 0 <= w.j + b < w.n then RowScan(w, b, -1, s) else s)
  }

  /** `log2` is `log1` followed by stores on the n-by-n grid, all of water when `waterOnly`, else of
      water or hill. */
  ghost predicate Extends(log1: seq<Write>, log2: seq<Write>, n: int, waterOnly: bool)
  {
    && |log1| <= |log2| && log2[..|log1|] == log1
    && forall k :: |log1| <= k < |log2| ==>
         InBounds(n, log2[k].cell) && (log2[k].kind == Water || (!waterOnly && log2[k].kind == Hill))
  }

  lemma ExtendsTrans(log1: seq<Write>, log2: seq<Write>, log3: seq<Write>, n: int, waterOnly: bool)
    requires Extends(log1, log2, n, waterOnly) && Extends(log2, log3, n, waterOnly)
    ensures Extends(log1, log3, n, waterOnly)
  {
    assert log3[..|log1|] == log3[..|log2|][..|log1|];
  }

  /** From s to t the scan picked at most once: nothing when `spreading` was already 0, and after a
      pick `spreading` is 0; the draws used only grew. */
  ghost predicate Settles(s: Scan, t: Scan)
  {
    && s.intUsed <= t.intUsed
    && s.picks <= t.picks <= s.picks + 1
    && (s.spreading == 0 ==> t.picks == s.picks)
    && (t.picks == s.picks + 1 ==> t.spreading == 0)
    && (t.picks == s.picks ==> t.spreading == s.spreading)
  }

  /** One step of the scan stores only water, on the grid. */
  lemma CellStepWater(w: Window, a: int, b: int, s: Scan)
    requires ValidWindow(w) && 0 <= w.j + b < w.n
    ensures Extends(s.log, CellStep(w, a, b, s).log, w.n, true)
  {
    var x, y := w.i + a, w.j + b;
    var t := CellStep(w, a, b, s);
    if 0 <= x < w.n && !Centre(a, b) && s.spreading != 0 && !Corner(a, b) &&
       (s.remaining == 1 || w.ints(s.intUsed) % w.count == 0) && s.spreading == 2 {
      var ws := SpreadWrites(w.n, x, y, DirectionOf(a, b), w.fallthrough);
      SpreadWritesFacts(w.n, x, y, DirectionOf(a, b), w.fallthrough);
      assert t.log == s.log + [Write(Coord(x, y), Water)] + ws;
      forall k | |s.log| <= k < |t.log|
        ensures InBounds(w.n, t.log[k].cell) && t.log[k].kind == Water
      {
        if k > |s.log| {
          assert t.log[k] == ws[k - |s.log| - 1];
        }
      }
    }
  }

  /** One step of the scan picks at most once, and not at all once `spreading` is 0. */
  lemma CellStepSettles(w: Window, a: int, b: int, s: Scan)
    requires ValidWindow(w) && 0 <= w.j + b < w.n
    ensures Settles(s, CellStep(w, a, b, s))
  {
  }

  /** The rest of a row's scan stores only water, on the grid. */
  lemma {:induction false} RowScanWater(w: Window, b: int, a: int, s: Scan)
    requires ValidWindow(w) && 0 <= w.j + b < w.n && -1 <= a <= 3
    ensures Extends(s.log, RowScan(w, b, a, s).log, w.n, true)
    decreases 3 - a
  {
    if a < 3 {
      var s' := CellStep(w, a, b, s);
      CellStepWater(w, a, b, s);
      RowScanWater(w, b, a + 1, s');
      ExtendsTrans(s.log, s'.log, RowScan(w, b, a, s).log, w.n, true);
    }
  }

  /** The rest of a row's scan picks at most once. */
  lemma {:induction false} RowScanSettles(w: Window, b: int, a: int, s: Scan)
    requires ValidWindow(w) && 0 <= w.j + b < w.n && -1 <= a <= 3
    ensures Settles(s, RowScan(w, b, a, s))
    decreases 3 - a
  {
    if a < 3 {
      CellStepSettles(w, a, b, s);
      RowScanSettles(w, b, a + 1, CellStep(w, a, b, s));
    }
  }

  /** The rest of a block's scan stores only water, on the grid. */
  lemma {:induction false} WindowScanWater(w: Window, b: int, s: Scan)
    requires ValidWindow(w) && -1 <= b <= 3
    ensures Extends(s.log, WindowScan(w, b, s).log, w.n, true)
    decreases 3 - b
  {
    if b < 3 {
      var s' := if 0 <= w.j + b < w.n then RowScan(w, b, -1, s) else s;
      if 0 <= w.j + b < w.n {
        RowScanWater(w, b, -1, s);
      }
      WindowScanWater(w, b + 1, s');
      ExtendsTrans(s.log, s'.log, WindowScan(w, b, s).log, w.n, true);
    }
  }

  /** The rest of a block's scan picks at most once: at most one spread per block. */
  lemma {:induction false} WindowScanSettles(w: Window, b: int, s: Scan)
    requires ValidWindow(w) && -1 <= b <= 3
    ensures Settles(s, WindowScan(w, b, s))
    decreases 3 - b
  {
    if b < 3 {
      if 0 <= w.j + b < w.n {
        RowScanSettles(w, b, -1, s);
      }
      WindowScanSettles(w, b + 1, if 0 <= w.j + b < w.n then RowScan(w, b, -1, s) else s);
    }
  }

  // ---------------------------------------------------------------------------------------------
  // What the scan stores

  /** Among the stores of `log` from index `start` on, one stored `kind` at `c`. */
  ghost predicate StoredAfter(log: seq<Write>, start: nat, c: Coord, kind: TileType)
  {
    exists k :: start <= k < |log| && log[k] == Write(c, kind)
  }

  lemma StoredGrows(log1: seq<Write>, log2: seq<Write>, start: nat, c: Coord, kind: TileType)
    requires |log1| <= |log2| && log2[..|log1|] == log1 && StoredAfter(log1, start, c, kind)
    ensures StoredAfter(log2, start, c, kind)
  {
    var k :| start <= k < |log1| && log1[k] == Write(c, kind);
    assert log2[k] == log2[..|log1|][k];
  }

  /** The rest of a row of the block stores water in the block's cells of that row from offset a on. */
  lemma {:induction false} RowScanCovers(w: Window, b: int, a: int, s: Scan)
    requires ValidWindow(w) && 0 <= w.j + b < w.n && -1 <= a <= 3 && (b == 0 || b == 1)
    ensures forall c: Coord :: c.j == w.j + b && w.i <= c.i <= w.i + 1 && w.i + a <= c.i && c.i < w.n ==>
              StoredAfter(RowScan(w, b, a, s).log, |s.log|, c, Water)
    decreases 3 - a
  {
    if a < 3 {
      var s' := CellStep(w, a, b, s);
      var t := RowScan(w, b, a, s);
      RowScanCovers(w, b, a + 1, s');
      RowScanWater(w, b, a + 1, s');
      CellStepWater(w, a, b, s);
      forall c: Coord | c.j == w.j + b && w.i <= c.i <= w.i + 1 && w.i + a <= c.i && c.i < w.n
        ensures StoredAfter(t.log, |s.log|, c, Water)
      {
        if c.i == w.i + a {
          assert s'.log[|s.log|] == Write(c, Water);
          StoredGrows(s'.log, t.log, |s.log|, c, Water);
        } else {
          var k :| |s'.log| <= k < |t.log| && t.log[k] == Write(c, Water);
        }
      }
    }
  }

  /** The rest of the scan stores water in every cell of the block, from row offset b on. */
  lemma WindowScanCovers(w: Window, b: int, s: Scan)
    requires ValidWindow(w) && -1 <= b <= 3
    ensures forall c :: InBounds(w.n, c) && w.i <= c.i <= w.i + 1 && w.j <= c.j <= w.j + 1 && w.j + b <= c.j ==>
              StoredAfter(WindowScan(w, b, s).log, |s.log|, c, Water)
  {
    forall c | InBounds(w.n, c) && w.i <= c.i <= w.i + 1 && w.j <= c.j <= w.j + 1 && w.j + b <= c.j
      ensures StoredAfter(WindowScan(w, b, s).log, |s.log|, c, Water)
    {
      WindowScanCoversCell(w, b, s, c);
    }
  }

  /** The rest of the scan, from row offset b on, stores water in the block cell c of a row it
      has still to visit. */
  lemma {:induction false} WindowScanCoversCell(w: Window, b: int, s: Scan, c: Coord)
    requires ValidWindow(w) && -1 <= b <= 3
    requires InBounds(w.n, c) && w.i <= c.i <= w.i + 1 && w.j <= c.j <= w.j + 1 && w.j + b <= c.j
    ensures StoredAfter(WindowScan(w, b, s).log, |s.log|, c, Water)
    decreases 3 - b
  {
    var s' := if 0 <= w.j + b < w.n then RowScan(w, b, -1, s) else s;
    var t := WindowScan(w, b + 1, s');
    assert WindowScan(w, b, s) == t;
    WindowScanWater(w, b + 1, s');
    if c.j == w.j + b {
      RowScanCovers(w, b, -1, s);
      StoredGrows(s'.log, t.log, |s.log|, c, Water);
    } else {
      WindowScanCoversCell(w, b + 1, s', c);
      if 0 <= w.j + b < w.n {
        RowScanWater(w, b, -1, s);
      }
      var k :| |s'.log| <= k < |t.log| && t.log[k] == Write(c, Water);
    }
  }

  // ---------------------------------------------------------------------------------------------
  // How many times the scan picks

  /** The candidates of row b from offset a on. */
  function RowCandidates(w: Window, b: int, a: int): nat
    requires -1 <= a <= 3
    decreases 3 - a
  {
    if a == 3 then 0 else (if IsCandidate(w, a, b) then 1 else 0) + RowCandidates(w, b, a + 1)
  }

  /** The candidates the scan meets from row offset b on. */
  function WindowCandidates(w: Window, b: int): nat
    requires -1 <= b <= 3
    decreases 3 - b
  {
    if b == 3 then 0
    else (if 0 <= w.j + b < w.n then RowCandidates(w, b, -1) else 0) + WindowCandidates(w, b + 1)
  }

  /** A row of the window meets one candidate at each end of the block's rows, two above and below. */
  lemma RowCandidatesOf(w: Window, b: int)
    requires -1 <= b <= 2
    requires 0 <= w.j + b < w.n
    ensures RowCandidates(w, b, -1) ==
              if b == 0 || b == 1 then (if 0 <= w.i - 1 < w.n then 1 else 0) + (if 0 <= w.i + 2 < w.n then 1 else 0)
              else (if 0 <= w.i < w.n then 1 else 0) + (if 0 <= w.i + 1 < w.n then 1 else 0)
  {
    assert RowCandidates(w, b, 2) == (if IsCandidate(w, 2, b) then 1 else 0);
    assert RowCandidates(w, b, 1) == (if IsCandidate(w, 1, b) then 1 else 0) + RowCandidates(w, b, 2);
    assert RowCandidates(w, b, 0) == (if IsCandidate(w, 0, b) then 1 else 0) + RowCandidates(w, b, 1);
    assert RowCandidates(w, b, -1) == (if IsCandidate(w, -1, b) then 1 else 0) + RowCandidates(w, b, 0);
  }

  /** The exact count is the number of candidates the scan meets. */
  lemma CandidatesCount(w: Window)
    requires ValidWindow(w)
    ensures WindowCandidates(w, -1) == SideCount(w.n, w.i, w.j)
  {
    if w.j > 0 {
      RowCandidatesOf(w, -1);
    }
    RowCandidatesOf(w, 0);
    if w.j + 1 < w.n {
      RowCandidatesOf(w, 1);
    }
    if w.j + 2 < w.n {
      RowCandidatesOf(w, 2);
    }
    assert WindowCandidates(w, 2) == if w.j + 2 < w.n then RowCandidates(w, 2, -1) else 0;
  }

  /** A cell that is not a candidate leaves `spreading`, `remaining`, the picks and the draws as
      they were. */
  lemma NotCandidateStep(w: Window, a: int, b: int, s: Scan)
    requires ValidWindow(w) && 0 <= w.j + b < w.n && !IsCandidate(w, a, b)
    ensures var t := CellStep(w, a, b, s);
            t.spreading == s.spreading && t.remaining == s.remaining && t.picks == s.picks && t.intUsed == s.intUsed
  {
  }

  /** While nothing is picked, `remaining` counts the candidates still ahead plus `later`, and never
      drops below 1: the candidate met with `remaining` at 1 is always picked. */
  lemma {:induction false} RowScanPicks(w: Window, b: int, a: int, s: Scan, later: int)
    requires ValidWindow(w) && 0 <= w.j + b < w.n && -1 <= a <= 3
    requires s.spreading != 0 && s.remaining >= 1 && s.remaining == RowCandidates(w, b, a) + later
    ensures var t := RowScan(w, b, a, s);
            t.picks == s.picks + 1 ||
            (t.picks == s.picks && t.spreading == s.spreading && t.remaining == later && later >= 1)
    decreases 3 - a
  {
    if a < 3 {
      var s' := CellStep(w, a, b, s);
      RowScanSettles(w, b, a + 1, s');
      if IsCandidate(w, a, b) {
        if s'.picks == s.picks {
          RowScanPicks(w, b, a + 1, s', later);
        }
      } else {
        NotCandidateStep(w, a, b, s);
        RowScanPicks(w, b, a + 1, s', later);
      }
    }
  }

  lemma {:induction false} WindowScanPicks(w: Window, b: int, s: Scan, later: int)
    requires ValidWindow(w) && -1 <= b <= 3
    requires s.spreading != 0 && s.remaining >= 1 && s.remaining == WindowCandidates(w, b) + later
    ensures var t := WindowScan(w, b, s);
            t.picks == s.picks + 1 ||
            (t.picks == s.picks && t.spreading == s.spreading && t.remaining == later && later >= 1)
    decreases 3 - b, 1
  {
    if b < 3 {
      if 0 <= w.j + b < w.n {
        WindowRowPicks(w, b, s, later);
      } else {
        assert WindowCandidates(w, b) == WindowCandidates(w, b + 1);
        WindowScanPicks(w, b + 1, s, later);
        assert WindowScan(w, b, s) == WindowScan(w, b + 1, s);
      }
    }
  }

  /** `WindowScanPicks` for a row on the grid: the row picks, or passes `remaining` on to the rest. */
  lemma {:induction false} WindowRowPicks(w: Window, b: int, s: Scan, later: int)
    requires ValidWindow(w) && -1 <= b < 3 && 0 <= w.j + b < w.n
    requires s.spreading != 0 && s.remaining >= 1 && s.remaining == WindowCandidates(w, b) + later
    ensures var t := WindowScan(w, b, s);
            t.picks == s.picks + 1 ||
            (t.picks == s.picks && t.spreading == s.spreading && t.remaining == later && later >= 1)
    decreases 3 - b, 0
  {
    var s' := RowScan(w, b, -1, s);
    RowScanPicks(w, b, -1, s, WindowCandidates(w, b + 1) + later);
    if s'.picks == s.picks {
      WindowScanPicks(w, b + 1, s', later);
    } else {
      WindowScanSettles(w, b + 1, s');
    }
  }

  /** Counted exactly, a block with water to spread picks exactly one candidate, provided it has one. */
  lemma ExactCountPicksOnce(w: Window, s: Scan)
    requires ValidWindow(w) && w.count == SideCount(w.n, w.i, w.j)
    requires s.spreading != 0 && s.remaining == w.count
    ensures WindowScan(w, -1, s).picks == s.picks + 1
    ensures WindowScan(w, -1, s).spreading == 0
  {
    CandidatesCount(w);
    WindowScanPicks(w, -1, s, 0);
    WindowScanSettles(w, -1, s);
  }

  /** Counted too high, and with no draw of 0, the forced pick never comes: the row is scanned
      without a pick and `remaining` only drops by the candidates met. */
  lemma {:induction false} RowScanOvercounted(w: Window, b: int, a: int, s: Scan)
    requires ValidWindow(w) && 0 <= w.j + b < w.n && -1 <= a <= 3
    requires forall k :: w.ints(k) % w.count != 0
    requires s.spreading != 0 && s.remaining >= RowCandidates(w, b, a) + 2
    ensures var t := RowScan(w, b, a, s);
            t.picks == s.picks && t.spreading == s.spreading && t.remaining == s.remaining - RowCandidates(w, b, a)
    decreases 3 - a
  {
    if a < 3 {
      if !IsCandidate(w, a, b) {
        NotCandidateStep(w, a, b, s);
      }
      RowScanOvercounted(w, b, a + 1, CellStep(w, a, b, s));
    }
  }

  lemma {:induction false} WindowScanOvercounted(w: Window, b: int, s: Scan)
    requires ValidWindow(w) && -1 <= b <= 3
    requires forall k :: w.ints(k) % w.count != 0
    requires s.spreading != 0 && s.remaining >= WindowCandidates(w, b) + 2
    ensures var t := WindowScan(w, b, s);
            t.picks == s.picks && t.spreading == s.spreading && t.remaining == s.remaining - WindowCandidates(w, b)
    decreases 3 - b
  {
    if b < 3 {
      var s' := if 0 <= w.j + b < w.n then RowScan(w, b, -1, s) else s;
      if 0 <= w.j + b < w.n {
        RowScanOvercounted(w, b, -1, s);
      }
      WindowScanOvercounted(w, b + 1, s');
    }
  }

  /** `calculateNotDiagonalNeighbors` counts 8 for the last block of an even grid, which has only
      4 candidates: when no `nextInt(8)` draw is 0, a block with water to spread spreads none. */
  lemma MiscountLosesSpread(n: int, ints: nat -> nat, fallthrough: bool, s: Scan)
    requires n >= 4 && forall k :: ints(k) % 8 != 0
    requires s.spreading != 0 && s.remaining == 8
    ensures var w := Window(n, n - 2, n - 2, NotDiagonalNeighbors(n - 2, n - 2, Dimension(n, n)).value, ints, fallthrough);
            var t := WindowScan(w, -1, s);
            w.count == 8 && t.picks == s.picks && t.spreading == s.spreading
  {
    var w := Window(n, n - 2, n - 2, NotDiagonalNeighbors(n - 2, n - 2, Dimension(n, n)).value, ints, fallthrough);
    CountsAgreeInside(n, n - 2, n - 2);
    CandidatesCount(w);
    WindowScanOvercounted(w, -1, s);
  }

  // ---------------------------------------------------------------------------------------------
  // Hill blocks

  /** The inner loop of a hill block: row y, columns i + a and i + 1 while on the grid. */
  function HillRow(n: int, i: int, y: int, a: int, log: seq<Write>): seq<Write>
    requires 0 <= a <= 2
    decreases 2 - a
  {
    if a == 2 then log
    else HillRow(n, i, y, a + 1, if i + a < n then log + [Write(Coord(i + a, y), Hill)] else log)
  }

  /** The outer loop of a hill block, from row offset b on. */
  function HillBlock(n: int, i: int, j: int, b: int, log: seq<Write>): seq<Write>
    requires 0 <= b <= 2
    decreases 2 - b
  {
    if b == 2 then log
    else HillBlock(n, i, j, b + 1, if j + b < n then HillRow(n, i, j + b, 0, log) else log)
  }

  /** One pass of the hill block's outer loop: row j + b when it lies on the grid, then the rest. */
  lemma HillBlockNext(n: int, i: int, j: int, b: int, log: seq<Write>)
    requires 0 <= b < 2
    ensures HillBlock(n, i, j, b, log) == HillBlock(n, i, j, b + 1, if j + b < n then HillRow(n, i, j + b, 0, log) else log)
  {
  }

  /** The stores from index `start` on are hills in the 2-by-2 block at (i, j), on the grid. */
  ghost predicate HillsInBlock(log: seq<Write>, start: nat, n: int, i: int, j: int)
  {
    forall k :: start <= k < |log| ==>
      log[k].kind == Hill && InBounds(n, log[k].cell) &&
      i <= log[k].cell.i <= i + 1 && j <= log[k].cell.j <= j + 1
  }

  lemma {:induction false} HillRowFacts(n: int, i: int, y: int, a: int, log: seq<Write>, j: int)
    requires 0 <= i && 0 <= j <= y <= j + 1 && y < n && 0 <= a <= 2
    ensures var h := HillRow(n, i, y, a, log);
            |log| <= |h| && h[..|log|] == log && HillsInBlock(h, |log|, n, i, j)
    decreases 2 - a
  {
    if a < 2 {
      var log' := if i + a < n then log + [Write(Coord(i + a, y), Hill)] else log;
      var h := HillRow(n, i, y, a, log);
      HillRowFacts(n, i, y, a + 1, log', j);
      assert h[..|log|] == h[..|log'|][..|log|];
    }
  }

  lemma HillsTrans(log1: seq<Write>, log2: seq<Write>, log3: seq<Write>, n: int, i: int, j: int)
    requires |log1| <= |log2| <= |log3| && log3[..|log2|] == log2
    requires HillsInBlock(log2, |log1|, n, i, j) && HillsInBlock(log3, |log2|, n, i, j)
    ensures HillsInBlock(log3, |log1|, n, i, j)
  {
    forall k | |log1| <= k < |log2|
      ensures log3[k] == log2[k]
    {
      assert log3[k] == log3[..|log2|][k];
    }
  }

  /** A hill block stores only hill, only in its 2-by-2 block, only on the grid. */
  lemma {:induction false} HillBlockStores(n: int, i: int, j: int, b: int, log: seq<Write>)
    requires 0 <= i && 0 <= j && 0 <= b <= 2
    ensures var h := HillBlock(n, i, j, b, log);
            |log| <= |h| && h[..|log|] == log && HillsInBlock(h, |log|, n, i, j)
    decreases 2 - b
  {
    if b < 2 {
      var log' := if j + b < n then HillRow(n, i, j + b, 0, log) else log;
      var h := HillBlock(n, i, j, b, log);
      if j + b < n {
        HillRowFacts(n, i, j + b, 0, log, j);
      }
      HillBlockStores(n, i, j, b + 1, log');
      assert h[..|log|] == h[..|log'|][..|log|];
      HillsTrans(log, log', h, n, i, j);
    }
  }

  /** Some store in `log` is to `c`. */
  predicate Reached(log: seq<Write>, c: Coord)
  {
    exists t :: 0 <= t < |log| && log[t].cell == c
  }

  /** Stores appended later keep a cell reached. */
  lemma ReachedKept(log: seq<Write>, longer: seq<Write>, c: Coord)
    requires log <= longer && Reached(log, c)
    ensures Reached(longer, c)
  {
    var t :| 0 <= t < |log| && log[t].cell == c;
    assert longer[t] == log[t];
  }

  /** The rest of a hill row only appends stores. */
  lemma {:induction false} HillRowGrows(n: int, i: int, y: int, a: int, log: seq<Write>)
    requires 0 <= a <= 2
    ensures log <= HillRow(n, i, y, a, log)
    decreases 2 - a
  {
    if a < 2 {
      HillRowGrows(n, i, y, a + 1, if i + a < n then log + [Write(Coord(i + a, y), Hill)] else log);
    }
  }

  /** The rest of a hill block only appends stores. */
  lemma {:induction false} HillBlockGrows(n: int, i: int, j: int, b: int, log: seq<Write>)
    requires 0 <= b <= 2
    ensures log <= HillBlock(n, i, j, b, log)
    decreases 2 - b
  {
    if b < 2 {
      if j + b < n {
        HillRowGrows(n, i, j + b, 0, log);
      }
      HillBlockGrows(n, i, j, b + 1, if j + b < n then HillRow(n, i, j + b, 0, log) else log);
    }
  }

  /** The rest of a hill row stores at every cell of the row, in the block, on the grid. */
  lemma {:induction false} HillRowReaches(n: int, i: int, y: int, a: int, log: seq<Write>, c: Coord)
    requires 0 <= a <= 2 && c.j == y && i + a <= c.i <= i + 1 && c.i < n
    ensures Reached(HillRow(n, i, y, a, log), c)
    decreases 2 - a
  {
    var log' := log + [Write(Coord(i + a, y), Hill)];
    if c.i == i + a {
      assert log'[|log|].cell == c;
      HillRowGrows(n, i, y, a + 1, log');
      ReachedKept(log', HillRow(n, i, y, a + 1, log'), c);
    } else {
      HillRowReaches(n, i, y, a + 1, log', c);
    }
  }

  /** A hill block stores at every cell of its 2-by-2 block that is on the grid. */
  lemma {:induction false} HillBlockReaches(n: int, i: int, j: int, b: int, log: seq<Write>, c: Coord)
    requires 0 <= b <= 2 && InBounds(n, c) && i <= c.i <= i + 1 && j + b <= c.j <= j + 1
    ensures Reached(HillBlock(n, i, j, b, log), c)
    decreases 2 - b
  {
    var log' := HillRow(n, i, j + b, 0, log);
    if c.j == j + b {
      HillRowReaches(n, i, j + b, 0, log, c);
      HillBlockGrows(n, i, j, b + 1, log');
      ReachedKept(log', HillBlock(n, i, j, b + 1, log'), c);
    } else {
      HillBlockReaches(n, i, j, b + 1, log', c);
    }
  }

  // ---------------------------------------------------------------------------------------------
  // Blocks and the whole generation

  /** The pre-decided draws: "water?" per block, the spread amount per water block, and `nextInt`. */
  datatype Draws = Draws(water: nat -> bool, spread: nat -> SpreadDraw, ints: nat -> nat)

  /** The generation's state between blocks: `spreading`, the draws used from each stream, and the
      stores made so far. */
  datatype Gen = Gen(spreading: int, waterUsed: nat, spreadUsed: nat, intUsed: nat, log: seq<Write>)

  /** `spreading` after the spread-amount draw: 2 below 0.2, 1 below 0.4, else what it was before
      the draw (0 where `spreading` is declared inside the block). */
  function Spreading(d: SpreadDraw, before: int): int
  {
    match d
    case BelowTwoTenths => 2
    case BelowFourTenths => 1
    case NotBelowFourTenths => before
  }

  /** The grids a variant can fill: the matrix is at least 2-by-2, and counting exactly needs a
      block with a candidate, so at least 3-by-3. */
  predicate Fits(n: int, v: Variant)
  {
    n >= 2 && (v.counting == ExactCandidates ==> n >= 3)
  }

  /** The scan of the water block at (i, j). */
  function BlockWindow(n: int, v: Variant, ints: nat -> nat, i: int, j: int): (w: Window)
    requires Fits(n, v) && 0 <= i < n && 0 <= j < n
    ensures ValidWindow(w) && w.n == n && w.i == i && w.j == j && w.ints == ints
  {
    Window(n, i, j, Count(v.counting, n, i, j), ints, v.fallthrough)
  }

  /** The scan state a water block starts from: `spreading` from the draw, `remaining` the count. */
  function StartScan(n: int, v: Variant, dr: Draws, i: int, j: int, g: Gen): Scan
    requires Fits(n, v) && 0 <= i < n && 0 <= j < n
  {
    Scan(Spreading(dr.spread(g.spreadUsed), if v.carry then g.spreading else 0),
         BlockWindow(n, v, dr.ints, i, j).count, g.intUsed, 0, g.log)
  }

  /** One pass of the block loops at (i, j): a "water?" draw; for water a spread-amount draw and the
      scan, for hill the hill block. */
  function BlockStep(n: int, v: Variant, dr: Draws, i: int, j: int, g: Gen): Gen
    requires Fits(n, v) && 0 <= i < n && 0 <= j < n
  {
    if dr.water(g.waterUsed) then
      var t := WindowScan(BlockWindow(n, v, dr.ints, i, j), -1, StartScan(n, v, dr, i, j, g));
      Gen(t.spreading, g.waterUsed + 1, g.spreadUsed + 1, t.intUsed, t.log)
    else
      Gen(g.spreading, g.waterUsed + 1, g.spreadUsed, g.intUsed, HillBlock(n, i, j, 0, g.log))
  }

  /** The inner block loop of block row j, from column i on. */
  function BlockRow(n: int, v: Variant, dr: Draws, j: int, i: int, g: Gen): Gen
    requires Fits(n, v) && 0 <= j < n && 0 <= i
    decreases n - i, 2
  {
    if i >= n then g else BlockThenRow(n, v, dr, j, i, g)
  }

  /** The pass of the inner block loop at column i, which lies inside the matrix. It is spelled
      out by StepThenRow: the extra level keeps the stores of a block out of proofs that only
      unfold the row loop once or twice. */
  function BlockThenRow(n: int, v: Variant, dr: Draws, j: int, i: int, g: Gen): Gen
    requires Fits(n, v) && 0 <= j < n && 0 <= i < n
    decreases n - i, 1
  {
    StepThenRow(n, v, dr, j, i, g)
  }

  /** The block at (i, j), then the rest of its block row. */
  function StepThenRow(n: int, v: Variant, dr: Draws, j: int, i: int, g: Gen): Gen
    requires Fits(n, v) && 0 <= j < n && 0 <= i < n
    decreases n - i, 0
  {
    BlockRow(n, v, dr, j, i + 2, BlockStep(n, v, dr, i, j, g))
  }

  /** The outer block loop, from block row j on. */
  function Blocks(n: int, v: Variant, dr: Draws, j: int, g: Gen): Gen
    requires Fits(n, v) && 0 <= j
    decreases n - j
  {
    if j >= n then g else Blocks(n, v, dr, j + 2, BlockRow(n, v, dr, j, 0, g))
  }

  /** A block stores only water or hill, on the grid. */
  lemma BlockStepExtends(n: int, v: Variant, dr: Draws, i: int, j: int, g: Gen)
    requires Fits(n, v) && 0 <= i < n && 0 <= j < n
    ensures Extends(g.log, BlockStep(n, v, dr, i, j, g).log, n, false)
  {
    if dr.water(g.waterUsed) {
      WindowScanWater(BlockWindow(n, v, dr.ints, i, j), -1, StartScan(n, v, dr, i, j, g));
    } else {
      HillBlockStores(n, i, j, 0, g.log);
    }
  }

  /** A block stores at every cell of its 2-by-2 block that is on the grid. */
  lemma BlockStepReaches(n: int, v: Variant, dr: Draws, i: int, j: int, g: Gen, c: Coord)
    requires Fits(n, v) && 0 <= i < n && 0 <= j < n
    requires InBounds(n, c) && i <= c.i <= i + 1 && j <= c.j <= j + 1
    ensures Reached(BlockStep(n, v, dr, i, j, g).log, c)
  {
    var h := BlockStep(n, v, dr, i, j, g).log;
    if dr.water(g.waterUsed) {
      WindowScanCovers(BlockWindow(n, v, dr.ints, i, j), -1, StartScan(n, v, dr, i, j, g));
      var k :| |g.log| <= k < |h| && h[k] == Write(c, Water);
    } else {
      HillBlockReaches(n, i, j, 0, g.log, c);
    }
  }

  /** The rest of a block row stores only water or hill, on the grid. */
  lemma {:induction false} BlockRowExtends(n: int, v: Variant, dr: Draws, j: int, i: int, g: Gen)
    requires Fits(n, v) && 0 <= j < n && 0 <= i
    ensures Extends(g.log, BlockRow(n, v, dr, j, i, g).log, n, false)
    decreases n - i
  {
    if i < n {
      BlockStepExtends(n, v, dr, i, j, g);
      var g' := BlockRowNext(n, v, dr, j, i, g);
      BlockRowExtends(n, v, dr, j, i + 2, g');
      ExtendsTrans(g.log, g'.log, BlockRow(n, v, dr, j, i + 2, g').log, n, false);
    }
  }

  /** A block only appends stores. */
  lemma BlockStepGrows(n: int, v: Variant, dr: Draws, i: int, j: int, g: Gen)
    requires Fits(n, v) && 0 <= i < n && 0 <= j < n
    ensures g.log <= BlockStep(n, v, dr, i, j, g).log
  {
    BlockStepExtends(n, v, dr, i, j, g);
  }

  /** The rest of a block row only appends stores. */
  lemma BlockRowGrows(n: int, v: Variant, dr: Draws, j: int, i: int, g: Gen)
    requires Fits(n, v) && 0 <= j < n && 0 <= i
    ensures g.log <= BlockRow(n, v, dr, j, i, g).log
  {
    BlockRowExtends(n, v, dr, j, i, g);
  }

  /** The rest of a block row keeps every cell already stored at stored. */
  lemma BlockRowKeeps(n: int, v: Variant, dr: Draws, j: int, i: int, g: Gen, c: Coord)
    requires Fits(n, v) && 0 <= j < n && 0 <= i && Reached(g.log, c)
    ensures Reached(BlockRow(n, v, dr, j, i, g).log, c)
  {
    BlockRowGrows(n, v, dr, j, i, g);
    ReachedKept(g.log, BlockRow(n, v, dr, j, i, g).log, c);
  }

  /** One block of a block row: the row goes on from the state that block leaves. */
  lemma BlockRowNext(n: int, v: Variant, dr: Draws, j: int, i: int, g: Gen) returns (g': Gen)
    requires Fits(n, v) && 0 <= j < n && 0 <= i < n
    ensures g' == BlockStep(n, v, dr, i, j, g)
    ensures BlockRow(n, v, dr, j, i, g) == BlockRow(n, v, dr, j, i + 2, g')
  {
    g' := BlockStep(n, v, dr, i, j, g);
    assert BlockRow(n, v, dr, j, i, g) == BlockThenRow(n, v, dr, j, i, g) == StepThenRow(n, v, dr, j, i, g);
  }

  /** A block row stores at every cell of its first block. */
  lemma BlockRowHere(n: int, v: Variant, dr: Draws, j: int, i: int, g: Gen, c: Coord)
    requires Fits(n, v) && 0 <= j < n && 0 <= i
    requires InBounds(n, c) && i <= c.i <= i + 1 && j <= c.j <= j + 1
    ensures Reached(BlockRow(n, v, dr, j, i, g).log, c)
  {
    var g' := BlockRowNext(n, v, dr, j, i, g);
    BlockStepReaches(n, v, dr, i, j, g, c);
    BlockRowKeeps(n, v, dr, j, i + 2, g', c);
  }

  /** The rest of a block row stores at every cell of its two rows from column i on. */
  lemma {:induction false} BlockRowReaches(n: int, v: Variant, dr: Draws, j: int, i: int, g: Gen, c: Coord)
    requires Fits(n, v) && 0 <= j < n && 0 <= i
    requires InBounds(n, c) && i <= c.i && j <= c.j <= j + 1
    ensures Reached(BlockRow(n, v, dr, j, i, g).log, c)
    decreases n - i, 1
  {
    if i + 2 <= c.i {
      BlockRowLater(n, v, dr, j, i, g, c);
    } else {
      BlockRowHere(n, v, dr, j, i, g, c);
    }
  }

  /** A block row reaches a cell past its first block through the blocks after the first. */
  lemma {:induction false} BlockRowLater(n: int, v: Variant, dr: Draws, j: int, i: int, g: Gen, c: Coord)
    requires Fits(n, v) && 0 <= j < n && 0 <= i
    requires InBounds(n, c) && i + 2 <= c.i && j <= c.j <= j + 1
    ensures Reached(BlockRow(n, v, dr, j, i, g).log, c)
    decreases n - i, 0
  {
    var g' := BlockRowNext(n, v, dr, j, i, g);
    BlockRowReaches(n, v, dr, j, i + 2, g', c);
  }

  /** The rest of the generation stores only water or hill, on the grid. */
  lemma {:induction false} BlocksExtends(n: int, v: Variant, dr: Draws, j: int, g: Gen)
    requires Fits(n, v) && 0 <= j
    ensures Extends(g.log, Blocks(n, v, dr, j, g).log, n, false)
    decreases n - j
  {
    if j < n {
      BlockRowExtends(n, v, dr, j, 0, g);
      var g' := BlockRow(n, v, dr, j, 0, g);
      BlocksExtends(n, v, dr, j + 2, g');
      ExtendsTrans(g.log, g'.log, Blocks(n, v, dr, j + 2, g').log, n, false);
    }
  }

  /** The rest of the generation only appends stores. */
  lemma BlocksGrow(n: int, v: Variant, dr: Draws, j: int, g: Gen)
    requires Fits(n, v) && 0 <= j
    ensures g.log <= Blocks(n, v, dr, j, g).log
  {
    BlocksExtends(n, v, dr, j, g);
  }

  /** The rest of the generation keeps every cell already stored at stored. */
  lemma BlocksKeep(n: int, v: Variant, dr: Draws, j: int, g: Gen, c: Coord)
    requires Fits(n, v) && 0 <= j && Reached(g.log, c)
    ensures Reached(Blocks(n, v, dr, j, g).log, c)
  {
    BlocksGrow(n, v, dr, j, g);
    ReachedKept(g.log, Blocks(n, v, dr, j, g).log, c);
  }

  /** One block row of the generation: the generation goes on from the state that row leaves. */
  lemma BlocksNext(n: int, v: Variant, dr: Draws, j: int, g: Gen) returns (g': Gen)
    requires Fits(n, v) && 0 <= j < n
    ensures g' == BlockRow(n, v, dr, j, 0, g)
    ensures Blocks(n, v, dr, j, g) == Blocks(n, v, dr, j + 2, g')
  {
    g' := BlockRow(n, v, dr, j, 0, g);
  }

  /** The generation stores at every cell of its first block row. */
  lemma BlocksHere(n: int, v: Variant, dr: Draws, j: int, g: Gen, c: Coord)
    requires Fits(n, v) && 0 <= j && InBounds(n, c) && j <= c.j <= j + 1
    ensures Reached(Blocks(n, v, dr, j, g).log, c)
  {
    BlockRowReaches(n, v, dr, j, 0, g, c);
    BlocksKeep(n, v, dr, j + 2, BlockRow(n, v, dr, j, 0, g), c);
  }

  /** The rest of the generation stores at every cell from row j on. */
  lemma {:induction false} BlocksReach(n: int, v: Variant, dr: Draws, j: int, g: Gen, c: Coord)
    requires Fits(n, v) && 0 <= j && InBounds(n, c) && j <= c.j
    ensures Reached(Blocks(n, v, dr, j, g).log, c)
    decreases n - j, 1
  {
    if j + 2 <= c.j {
      BlocksLater(n, v, dr, j, g, c);
    } else {
      BlocksHere(n, v, dr, j, g, c);
    }
  }

  /** The generation reaches a cell past its first block row through the rows after the first. */
  lemma {:induction false} BlocksLater(n: int, v: Variant, dr: Draws, j: int, g: Gen, c: Coord)
    requires Fits(n, v) && 0 <= j && InBounds(n, c) && j + 2 <= c.j
    ensures Reached(Blocks(n, v, dr, j, g).log, c)
    decreases n - j, 0
  {
    var g' := BlocksNext(n, v, dr, j, g);
    BlocksReach(n, v, dr, j + 2, g', c);
  }

  /** The stores of a whole generation, started with no stores made, lie on the grid, are all of
      water or hill and reach every cell: whatever the grid held before, afterwards it holds no
      beach. */
  lemma GenerateNoBeach(n: int, v: Variant, dr: Draws, g: Gen, g0: Grid)
    requires Fits(n, v) && g.log == [] && |g0| == n && IsSquare(g0, n)
    ensures var log := Blocks(n, v, dr, 0, g).log;
            && WithinGrid(log, n) && WaterOrHill(log) && CoversGrid(log, n)
            && forall c :: InBounds(n, c) ==> At(Apply(g0, log), c) == Water || At(Apply(g0, log), c) == Hill
  {
    var log := Blocks(n, v, dr, 0, g).log;
    BlocksExtends(n, v, dr, 0, g);
    forall c | InBounds(n, c)
      ensures LastKind(log, c).Some?
    {
      BlocksReach(n, v, dr, 0, g, c);
      LastKindMeaning(log, c);
    }
    PaintedWaterOrHill(g0, log);
  }

  /** In `TileMatrix.initialize`, `spreading` outlives its block: a water block whose spread-amount
      draw is 0.4 or more still scans with what an earlier block left unspread, where
      ComplexInitializationAlgorithm starts from 0. */
  lemma CarriedSpread(n: int, dr: Draws, i: int, j: int, g: Gen)
    requires Fits(n, InClass) && 0 <= i < n && 0 <= j < n
    requires g.spreading != 0 && dr.spread(g.spreadUsed) == NotBelowFourTenths
    ensures StartScan(n, InClass, dr, i, j, g).spreading == g.spreading
    ensures StartScan(n, Pluggable, dr, i, j, g).spreading == 0
  {
  }

  /** Counted exactly, with `spreading` declared inside the block, a water block spreads exactly
      once when its spread-amount draw is below 0.4 and not at all otherwise, and leaves nothing
      to spread for the next block. */
  lemma CorrectedBlockSpreads(n: int, dr: Draws, i: int, j: int, g: Gen)
    requires Fits(n, Corrected) && 0 <= i < n && 0 <= j < n
    ensures var w := BlockWindow(n, Corrected, dr.ints, i, j);
            var t := WindowScan(w, -1, StartScan(n, Corrected, dr, i, j, g));
            && (t.picks == 1 <==> dr.spread(g.spreadUsed) != NotBelowFourTenths)
            && t.picks <= 1 && t.spreading == 0
  {
    var w := BlockWindow(n, Corrected, dr.ints, i, j);
    var s := StartScan(n, Corrected, dr, i, j, g);
    if dr.spread(g.spreadUsed) != NotBelowFourTenths {
      ExactCountPicksOnce(w, s);
    } else {
      WindowScanSettles(w, -1, s);
    }
  }
}
