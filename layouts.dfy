/** What the row-major generators store (SimpleInitializationAlgorithm, SquaresInitializationAlgorithm
    and the SIMPLE and SQUARES branches of `TileMatrix.initialize`): every cell once, in row-major
    order, each with a kind decided by the "water?" draws. */
module Layouts {
  import opened TileTypes
  import opened Grids
  import opened Outcomes
  import opened Painting

  /** `nextDouble() < WATER_RATE ? WATER : HILL`, given the outcome of the test. */
  function KindOf(water: bool): TileType
  {
    if water then Water else Hill
  }

  /** A row-major generator together with the draws it reads, `water(first)` being the first. */
  datatype Layout =
    | SimpleLayout(water: nat -> bool, first: nat, asWritten: bool)
    | SquaresLayout(water: nat -> bool, first: nat)

  /** The anchors (even column, even row) among the first x cells of row y. */
  function AnchorsInRow(y: nat, x: nat): nat
  {
    if y % 2 == 0 then (x + 1) / 2 else 0
  }

  /** The anchors in the first y rows of n cells. */
  function AnchorRows(n: nat, y: nat): nat
  {
    if y == 0 then 0 else AnchorRows(n, y - 1) + AnchorsInRow(y - 1, n)
  }

  /** The anchors that come before (x, y) in row-major order. */
  function AnchorsBefore(n: nat, y: nat, x: nat): nat
  {
    AnchorRows(n, y) + AnchorsInRow(y, x)
  }

  /** Each earlier even row holds (n + 1) / 2 anchors. */
  lemma {:induction false} AnchorRowsClosedForm(n: nat, y: nat)
    ensures AnchorRows(n, y) == ((y + 1) / 2) * ((n + 1) / 2)
  {
    if y > 0 {
      AnchorRowsClosedForm(n, y - 1);
      var h := (n + 1) / 2;
      if (y - 1) % 2 == 0 {
        assert (y + 1) / 2 == y / 2 + 1;
        assert (y / 2 + 1) * h == (y / 2) * h + h;
      } else {
        assert (y + 1) / 2 == y / 2;
      }
    }
  }

  /** The kind the generator stores at `c`. Simple uses the cell's own draw; as written in
      `TileMatrix.initialize` both outcomes store water. Squares uses the draw of the anchor of the
      2-by-2 block holding `c`. */
  function KindAt(n: nat, layout: Layout, c: Coord): TileType
    requires InBounds(n, c)
  {
    match layout
    case SimpleLayout(water, first, asWritten) =>
      if water(first + c.j * n + c.i) then Water else if asWritten then Water else Hill
    case SquaresLayout(water, first) =>
      KindOf(water(first + AnchorsBefore(n, c.j - c.j % 2, c.i - c.i % 2)))
  }

  /** All stores of the generator on an n-by-n grid: the k-th store is to column k % n of row k / n. */
  function RowMajorLog(n: nat, layout: Layout): (log: seq<Write>)
    ensures |log| == n * n
  {
    seq(n * n, k requires 0 <= k < n * n => Write(CellOf(n, k), KindAt(n, layout, CellOf(n, k))))
  }

  /** The cell of store number k. */
  function CellOf(n: nat, k: int): (c: Coord)
    requires 0 <= k < n * n
    ensures InBounds(n, c) && c == Coord(k % n, k / n)
  {
    IndexInBounds(n, k);
    Coord(k % n, k / n)
  }

  // ---------------------------------------------------------------------------------------------
  // Row-major indices

  lemma DivUnique(m: int, n: int, q: int, r: int)
    requires n > 0 && m == q * n + r && 0 <= r < n
    ensures m / n == q && m % n == r
  {
    var q', r' := m / n, m % n;
    assert m == q' * n + r';
    assert (q - q') * n == r' - r;
    if q > q' {
      MulAtLeast(q - q', n);
    } else if q < q' {
      assert (q' - q) * n == r - r';
      MulAtLeast(q' - q, n);
    }
  }

  lemma MulAtLeast(d: int, n: int)
    requires d >= 1 && n > 0
    ensures d * n >= n
  {
  }

  /** Cell (x, y) is store number y * n + x. */
  lemma RowMajorIndex(n: nat, y: nat, x: nat)
    requires x < n
    ensures (y * n + x) / n == y && (y * n + x) % n == x
  {
    DivUnique(y * n + x, n, y, x);
  }

  /** Store number k of an n-by-n walk lands inside the grid. */
  lemma IndexInBounds(n: nat, k: int)
    requires 0 <= k < n * n
    ensures InBounds(n, Coord(k % n, k / n))
  {
    var q := k / n;
    assert k == q * n + k % n;
    if q >= n {
      assert q * n == (q - n) * n + n * n;
      assert (q - n + 1) * n == (q - n) * n + n;
      MulAtLeast(q - n + 1, n);
    }
  }

  /** The walk goes forward: a later store is to a later cell in row-major order. */
  lemma IndexOrder(n: nat, k: int, k': int)
    requires 0 <= k < k' < n * n
    ensures k / n < k' / n || (k / n == k' / n && k % n < k' % n)
  {
    var q, q' := k / n, k' / n;
    assert k == q * n + k % n && k' == q' * n + k' % n;
    if q > q' {
      assert (q - q') * n == q * n - q' * n;
      MulAtLeast(q - q', n);
    }
  }

  /** Every store of the walk is inside the grid. */
  lemma RowMajorWithinGrid(n: nat, layout: Layout)
    ensures WithinGrid(RowMajorLog(n, layout), n)
  {
    var log := RowMajorLog(n, layout);
    forall t | 0 <= t < |log|
      ensures InBounds(n, log[t].cell)
    {
      IndexInBounds(n, t);
    }
  }

  /** The position of cell c in the walk is inside the walk. */
  lemma IndexOfCell(n: nat, c: Coord)
    requires InBounds(n, c)
    ensures 0 <= c.j * n + c.i < n * n
  {
    assert c.j * n <= (n - 1) * n by {
      if c.j < n - 1 {
        assert (n - 1 - c.j) * n == (n - 1) * n - c.j * n;
        MulAtLeast(n - 1 - c.j, n);
      }
    }
    assert (n - 1) * n + n == n * n;
  }

  /** Only position y * n + x of the walk names cell (x, y). */
  lemma CellIndexUnique(n: nat, c: Coord, t: int)
    requires InBounds(n, c) && 0 <= t < n * n && t % n == c.i && t / n == c.j
    ensures t == c.j * n + c.i
  {
  }

  /** Each cell of the grid is stored exactly once, at position y * n + x of the walk. */
  lemma RowMajorOnce(n: nat, layout: Layout, c: Coord)
    requires InBounds(n, c)
    ensures c.j * n + c.i < n * n
    ensures RowMajorLog(n, layout)[c.j * n + c.i] == Write(c, KindAt(n, layout, c))
    ensures forall t :: 0 <= t < n * n && RowMajorLog(n, layout)[t].cell == c ==> t == c.j * n + c.i
  {
    var log := RowMajorLog(n, layout);
    IndexOfCell(n, c);
    RowMajorIndex(n, c.j, c.i);
    forall t | 0 <= t < n * n && log[t].cell == c
      ensures t == c.j * n + c.i
    {
      CellIndexUnique(n, c, t);
    }
  }

  /** The walk's stores come in strictly increasing row-major order. */
  lemma RowMajorOrdered(n: nat, layout: Layout, t: int, t': int)
    requires 0 <= t < t' < n * n
    ensures var c, d := RowMajorLog(n, layout)[t].cell, RowMajorLog(n, layout)[t'].cell;
            c.j < d.j || (c.j == d.j && c.i < d.i)
  {
    IndexOrder(n, t, t');
  }

  // ---------------------------------------------------------------------------------------------
  // The walk as the nested loops make it

  /** The stores of the first x cells of row y, in the order the inner loop makes them. */
  function RowStores(n: nat, layout: Layout, y: nat, x: nat): (s: seq<Write>)
    requires y < n && x <= n
    ensures |s| == x && WithinGrid(s, n)
  {
    if x == 0 then [] else RowStores(n, layout, y, x - 1) + [Write(Coord(x - 1, y), KindAt(n, layout, Coord(x - 1, y)))]
  }

  /** The t-th store of a row is to column t, with that cell's kind. */
  lemma {:induction false} RowStoresAt(n: nat, layout: Layout, y: nat, x: nat)
    requires y < n && x <= n
    ensures forall t :: 0 <= t < x ==> RowStores(n, layout, y, x)[t] == Write(Coord(t, y), KindAt(n, layout, Coord(t, y)))
  {
    if x > 0 {
      RowStoresAt(n, layout, y, x - 1);
    }
  }

  /** The stores of the first y rows, in the order the nested loops make them. */
  function RowsStores(n: nat, layout: Layout, y: nat): (s: seq<Write>)
    requires y <= n
    ensures WithinGrid(s, n)
  {
    if y == 0 then [] else RowsStores(n, layout, y - 1) + RowStores(n, layout, y - 1, n)
  }

  /** Within one row, the last store to a cell already passed is its own store; no other cell is hit. */
  lemma {:induction false} RowStoresKind(n: nat, layout: Layout, y: nat, x: nat, c: Coord)
    requires y < n && x <= n
    ensures LastKind(RowStores(n, layout, y, x), c) ==
              if c.j == y && 0 <= c.i < x then Some(KindAt(n, layout, c)) else None
  {
    if x > 0 {
      var w := Write(Coord(x - 1, y), KindAt(n, layout, Coord(x - 1, y)));
      var front := RowStores(n, layout, y, x - 1);
      assert RowStores(n, layout, y, x) == front + [w];
      LastKindAppend(front, w, c);
      if c != w.cell {
        RowStoresKind(n, layout, y, x - 1, c);
      }
    }
  }

  /** After the first y rows, exactly the cells of those rows have been stored, each with its kind. */
  lemma {:induction false} RowsStoresKind(n: nat, layout: Layout, y: nat, c: Coord)
    requires y <= n && InBounds(n, c)
    ensures LastKind(RowsStores(n, layout, y), c) == if c.j < y then Some(KindAt(n, layout, c)) else None
  {
    if y > 0 {
      RowStoresKind(n, layout, y - 1, n, c);
      RowsStoresKind(n, layout, y - 1, c);
      RowsStep(RowsStores(n, layout, y - 1), RowStores(n, layout, y - 1, n), c, y - 1, KindAt(n, layout, c));
    }
  }

  /** The kinds after one more row, from the kinds before it and those of the row. */
  lemma RowsStep(front: seq<Write>, row: seq<Write>, c: Coord, y: int, kind: TileType)
    requires LastKind(front, c) == if c.j < y then Some(kind) else None
    requires LastKind(row, c) == if c.j == y then Some(kind) else None
    ensures LastKind(front + row, c) == if c.j < y + 1 then Some(kind) else None
  {
    LastKindConcat(front, row, c);
  }

  /** Part way through the walk, at cell (x, y): the cells already passed show their kinds and the
      others have not been stored yet. */
  lemma WalkKind(n: nat, layout: Layout, y: nat, x: nat, c: Coord)
    requires y < n && x <= n && InBounds(n, c)
    ensures LastKind(RowsStores(n, layout, y) + RowStores(n, layout, y, x), c) ==
              if c.j < y || (c.j == y && c.i < x) then Some(KindAt(n, layout, c)) else None
  {
    RowsStoresKind(n, layout, y, c);
    RowStoresKind(n, layout, y, x, c);
    LastKindConcat(RowsStores(n, layout, y), RowStores(n, layout, y, x), c);
  }

  /** After the whole walk every cell shows the kind the generator chose for it, whatever it showed
      before, and every cell has been stored. */
  lemma WalkResult(g: Grid, layout: Layout)
    requires IsSquare(g, |g|)
    ensures CoversGrid(RowsStores(|g|, layout, |g|), |g|)
    ensures forall c :: InBounds(|g|, c) ==> At(Apply(g, RowsStores(|g|, layout, |g|)), c) == KindAt(|g|, layout, c)
  {
    forall c | InBounds(|g|, c)
      ensures LastKind(RowsStores(|g|, layout, |g|), c) == Some(KindAt(|g|, layout, c))
      ensures At(Apply(g, RowsStores(|g|, layout, |g|)), c) == KindAt(|g|, layout, c)
    {
      RowsStoresKind(|g|, layout, |g|, c);
      ApplyAt(g, RowsStores(|g|, layout, |g|), c);
    }
  }

  /** The nested loops make exactly the stores of the row-major walk. */
  lemma WalkIsRowMajor(n: nat, layout: Layout)
    ensures RowsStores(n, layout, n) == RowMajorLog(n, layout)
  {
    var log := RowMajorLog(n, layout);
    for y := 0 to n
      invariant y * n <= n * n
      invariant RowsStores(n, layout, y) == log[..y * n]
    {
      RowsPrefixStep(n, layout, y);
    }
    assert log[..n * n] == log;
  }

  /** One more row of the walk is the next n stores of the row-major walk. */
  lemma RowsPrefixStep(n: nat, layout: Layout, y: nat)
    requires y < n && y * n <= n * n && RowsStores(n, layout, y) == RowMajorLog(n, layout)[..y * n]
    ensures (y + 1) * n <= n * n
    ensures RowsStores(n, layout, y + 1) == RowMajorLog(n, layout)[..(y + 1) * n]
  {
    IndexOfCell(n, Coord(n - 1, y));
    assert (y + 1) * n == y * n + n;
    RowMajorRow(n, layout, y);
    PrefixThen(RowMajorLog(n, layout), RowsStores(n, layout, y), RowStores(n, layout, y, n), y * n);
  }

  /** Row y of the nested loops is the stretch of the row-major walk from store y * n on. */
  lemma RowMajorRow(n: nat, layout: Layout, y: nat)
    requires y < n
    ensures (y + 1) * n <= n * n
    ensures forall t :: 0 <= t < n ==> RowMajorLog(n, layout)[y * n + t] == RowStores(n, layout, y, n)[t]
  {
    IndexOfCell(n, Coord(n - 1, y));
    assert (y + 1) * n == y * n + n;
    RowStoresAt(n, layout, y, n);
    forall t | 0 <= t < n
      ensures RowMajorLog(n, layout)[y * n + t] == RowStores(n, layout, y, n)[t]
    {
      RowMajorCell(n, layout, y, t);
    }
  }

  /** Store number y * n + x of the row-major walk is the store to (x, y). */
  lemma RowMajorCell(n: nat, layout: Layout, y: nat, x: nat)
    requires y < n && x < n
    ensures 0 <= y * n + x < n * n
    ensures RowMajorLog(n, layout)[y * n + x] == Write(Coord(x, y), KindAt(n, layout, Coord(x, y)))
  {
    IndexOfCell(n, Coord(x, y));
    RowMajorIndex(n, y, x);
    assert CellOf(n, y * n + x) == Coord(x, y);
  }

  /** A prefix of a log, followed by the stores that come next in it, is a longer prefix. */
  lemma PrefixThen(log: seq<Write>, front: seq<Write>, more: seq<Write>, k: int)
    requires 0 <= k && k + |more| <= |log| && front == log[..k]
    requires forall t :: 0 <= t < |more| ==> log[k + t] == more[t]
    ensures front + more == log[..k + |more|]
  {
    assert forall t :: 0 <= t < k + |more| ==> (front + more)[t] == log[t] by {
      forall t | 0 <= t < k + |more|
        ensures (front + more)[t] == log[t]
      {
        if t >= k {
          assert (front + more)[t] == more[t - k];
        }
      }
    }
  }

  // ---------------------------------------------------------------------------------------------
  // Simple

  /** The Simple generator stores water exactly where the cell's draw says water, hill elsewhere:
      never a beach. As written in `TileMatrix.initialize`, every cell is water whatever the draws. */
  lemma SimpleKinds(n: nat, water: nat -> bool, first: nat, c: Coord)
    requires InBounds(n, c)
    ensures KindAt(n, SimpleLayout(water, first, false), c) == Water <==> water(first + c.j * n + c.i)
    ensures KindAt(n, SimpleLayout(water, first, false), c) == Hill <==> !water(first + c.j * n + c.i)
    ensures KindAt(n, SimpleLayout(water, first, true), c) == Water
  {
  }

  // ---------------------------------------------------------------------------------------------
  // Squares

  /** An anchor gets water exactly when its own draw says so; its draw is the one numbered by the
      anchors before it. */
  lemma SquaresAnchor(n: nat, water: nat -> bool, first: nat, c: Coord)
    requires InBounds(n, c) && c.i % 2 == 0 && c.j % 2 == 0
    ensures KindAt(n, SquaresLayout(water, first), c) == KindOf(water(first + AnchorsBefore(n, c.j, c.i)))
  {
  }

  /** An odd cell of an even row copies its left neighbour; every cell of an odd row copies the
      cell above; so each 2-by-2 block starting at an even position is uniform. */
  lemma SquaresCopies(n: nat, water: nat -> bool, first: nat, c: Coord)
    requires InBounds(n, c)
    ensures c.j % 2 == 0 && c.i % 2 == 1 ==>
              KindAt(n, SquaresLayout(water, first), c) == KindAt(n, SquaresLayout(water, first), Coord(c.i - 1, c.j))
    ensures c.j % 2 == 1 ==>
              KindAt(n, SquaresLayout(water, first), c) == KindAt(n, SquaresLayout(water, first), Coord(c.i, c.j - 1))
    ensures KindAt(n, SquaresLayout(water, first), c) ==
              KindAt(n, SquaresLayout(water, first), Coord(c.i - c.i % 2, c.j - c.j % 2))
  {
    var layout := SquaresLayout(water, first);
    var ai, aj := c.i - c.i % 2, c.j - c.j % 2;
    SameAnchor(n, layout, c, Coord(ai, aj));
    if c.j % 2 == 0 && c.i % 2 == 1 {
      SameAnchor(n, layout, c, Coord(c.i - 1, c.j));
    }
    if c.j % 2 == 1 {
      SameAnchor(n, layout, c, Coord(c.i, c.j - 1));
    }
  }

  /** Two cells of the same 2-by-2 block show the same Squares kind. */
  lemma SameAnchor(n: nat, layout: Layout, c: Coord, d: Coord)
    requires layout.SquaresLayout? && InBounds(n, c) && InBounds(n, d)
    requires c.i - c.i % 2 == d.i - d.i % 2 && c.j - c.j % 2 == d.j - d.j % 2
    ensures KindAt(n, layout, c) == KindAt(n, layout, d)
  {
  }

  /** Squares stores only water and hill. */
  lemma SquaresKinds(n: nat, water: nat -> bool, first: nat, c: Coord)
    requires InBounds(n, c)
    ensures KindAt(n, SquaresLayout(water, first), c) == Water || KindAt(n, SquaresLayout(water, first), c) == Hill
  {
  }

  /** Distinct anchors use distinct draws, in row-major order: a later anchor uses a later draw. */
  lemma SquaresAnchorDrawsIncrease(n: nat, c: Coord, d: Coord)
    requires InBounds(n, c) && InBounds(n, d)
    requires c.i % 2 == 0 && c.j % 2 == 0 && d.i % 2 == 0 && d.j % 2 == 0
    requires c.j < d.j || (c.j == d.j && c.i < d.i)
    ensures AnchorsBefore(n, c.j, c.i) < AnchorsBefore(n, d.j, d.i)
  {
    var h, p, q := (n + 1) / 2, (c.j + 1) / 2, (d.j + 1) / 2;
    AnchorsInEvenRow(n, c.j, c.i);
    AnchorsInEvenRow(n, d.j, d.i);
    if c.j < d.j {
      HalfBelow(c.j, d.j);
      HalfBelow(c.i, n);
      LaterRow(p, q, h, (c.i + 1) / 2, (d.i + 1) / 2);
    } else {
      HalfBelow(c.i, d.i);
    }
  }

  /** In an even row, the anchors before column x: the full rows of anchors above, then those of
      the row. */
  lemma AnchorsInEvenRow(n: nat, y: nat, x: nat)
    requires y % 2 == 0
    ensures AnchorsBefore(n, y, x) == ((y + 1) / 2) * ((n + 1) / 2) + (x + 1) / 2
  {
    AnchorRowsClosedForm(n, y);
  }

  /** Any anchor of a later row of anchors comes after every anchor of an earlier one. */
  lemma LaterRow(p: int, q: int, h: int, a: int, b: int)
    requires 0 <= p < q && 0 <= a < h && 0 <= b
    ensures p * h + a < q * h + b
  {
    MulAtLeast(q - p, h);
    assert (q - p) * h == q * h - p * h;
  }

  /** Halving rounds an even x below m to fewer than half of m, rounded up. */
  lemma HalfBelow(x: int, m: int)
    requires 0 <= x < m && x % 2 == 0
    ensures (x + 1) / 2 < (m + 1) / 2
  {
  }

  /** One more cell of the walk: the Squares generator draws exactly at anchors. */
  lemma AnchorsStep(n: nat, y: nat, x: nat)
    ensures AnchorsBefore(n, y, x + 1) == AnchorsBefore(n, y, x) + if y % 2 == 0 && x % 2 == 0 then 1 else 0
  {
  }

  /** The end of a row is the start of the next. */
  lemma AnchorsNextRow(n: nat, y: nat)
    ensures AnchorsBefore(n, y, n) == AnchorsBefore(n, y + 1, 0)
  {
  }

  /** One more cell of a Simple walk: the store to (x, y) of the kind its draw decides. */
  lemma SimpleCellStep(n: nat, layout: Layout, y: nat, x: nat, done: seq<Write>)
    requires layout.SimpleLayout? && y < n && x < n
    ensures done + RowStores(n, layout, y, x + 1) ==
              done + RowStores(n, layout, y, x) +
              [Write(Coord(x, y), if layout.water(layout.first + RowStart(n, y) + x) then Water
                                  else if layout.asWritten then Water else Hill)]
  {
    RowStartIsProduct(n, y);
    assert done + RowStores(n, layout, y, x + 1) ==
             done + (RowStores(n, layout, y, x) + [Write(Coord(x, y), KindAt(n, layout, Coord(x, y)))]);
  }

  /** The draws made before row y when every cell draws once: n per earlier row. */
  function RowStart(n: nat, y: nat): nat
  {
    if y == 0 then 0 else RowStart(n, y - 1) + n
  }

  /** Row y starts after y * n draws. */
  lemma {:induction false} RowStartIsProduct(n: nat, y: nat)
    ensures RowStart(n, y) == y * n
  {
    if y > 0 {
      RowStartIsProduct(n, y - 1);
    }
  }
}
