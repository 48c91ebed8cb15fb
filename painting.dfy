/** Generation stores a fresh tile at a position, again and again; a log of those stores says what
    the grid shows afterwards. */
module Painting {
  import opened Outcomes
  import opened TileTypes
  import opened Grids

  /** One store of a new tile into the array: where, and the kind of the tile stored. */
  datatype Write = Write(cell: Coord, kind: TileType)

  /** The kind most recently stored at `c`; None when no store reached `c`. */
  function LastKind(log: seq<Write>, c: Coord): Option<TileType>
  {
    if log == [] then None
    else if log[|log| - 1].cell == c then Some(log[|log| - 1].kind)
    else LastKind(log[..|log| - 1], c)
  }

  /** `LastKind` finds a store exactly when some store reached `c`, and the kind it finds is that
      of a store to `c`, the latest one. */
  lemma {:induction false} LastKindMeaning(log: seq<Write>, c: Coord)
    ensures LastKind(log, c).Some? <==> exists t :: 0 <= t < |log| && log[t].cell == c
    ensures LastKind(log, c).Some? ==>
              exists t :: 0 <= t < |log| && log[t] == Write(c, LastKind(log, c).value) &&
                          forall u :: t < u < |log| ==> log[u].cell != c
    decreases |log|
  {
    if log != [] {
      var front, w := log[..|log| - 1], log[|log| - 1];
      assert log == front + [w];
      if w.cell == c {
        assert log[|log| - 1] == Write(c, w.kind);
      } else {
        LastKindMeaning(front, c);
        assert forall t :: 0 <= t < |front| ==> front[t] == log[t];
        if LastKind(front, c).Some? {
          var t :| 0 <= t < |front| && front[t] == Write(c, LastKind(front, c).value) &&
                   forall u :: t < u < |front| ==> front[u].cell != c;
          assert log[t] == Write(c, LastKind(log, c).value);
        }
      }
    }
  }

  /** Every store is of water or of hill. */
  predicate WaterOrHill(log: seq<Write>)
  {
    forall t :: 0 <= t < |log| ==> log[t].kind == Water || log[t].kind == Hill
  }

  /** Every store lands inside the n-by-n grid. */
  predicate WithinGrid(log: seq<Write>, n: int)
  {
    forall t :: 0 <= t < |log| ==> InBounds(n, log[t].cell)
  }

  /** Every position of the n-by-n grid is stored at least once. */
  ghost predicate CoversGrid(log: seq<Write>, n: int)
  {
    forall c :: InBounds(n, c) ==> LastKind(log, c).Some?
  }

  /** The grid `g` after every store of `log`, in order. */
  function Apply(g: Grid, log: seq<Write>): (h: Grid)
    requires IsSquare(g, |g|) && WithinGrid(log, |g|)
    ensures IsSquare(h, |g|)
  {
    if log == [] then g
    else
      var front := log[..|log| - 1];
      assert forall t :: 0 <= t < |front| ==> front[t] == log[t];
      SetAt(Apply(g, front), log[|log| - 1].cell, log[|log| - 1].kind)
  }

  /** After the stores, a cell shows the kind last stored there, or what it showed before when no
      store reached it. */
  lemma {:induction false} ApplyAt(g: Grid, log: seq<Write>, c: Coord)
    requires IsSquare(g, |g|) && WithinGrid(log, |g|) && InBounds(|g|, c)
    ensures At(Apply(g, log), c) == if LastKind(log, c).Some? then LastKind(log, c).value else At(g, c)
    decreases |log|
  {
    if log != [] {
      var front := log[..|log| - 1];
      assert forall t :: 0 <= t < |front| ==> front[t] == log[t];
      ApplyAt(g, front, c);
    }
  }

  /** One more store changes one cell. */
  lemma ApplyAppend(g: Grid, log: seq<Write>, w: Write)
    requires IsSquare(g, |g|) && WithinGrid(log, |g|) && InBounds(|g|, w.cell)
    ensures WithinGrid(log + [w], |g|)
    ensures Apply(g, log + [w]) == SetAt(Apply(g, log), w.cell, w.kind)
  {
    assert (log + [w])[..|log|] == log;
  }

  /** After a log of water and hill stores that reaches every cell, every cell shows water or hill:
      whatever the grid held before, no beach is left. */
  lemma PaintedWaterOrHill(g: Grid, log: seq<Write>)
    requires IsSquare(g, |g|) && WithinGrid(log, |g|) && WaterOrHill(log) && CoversGrid(log, |g|)
    ensures forall c :: InBounds(|g|, c) ==> At(Apply(g, log), c) == Water || At(Apply(g, log), c) == Hill
  {
    forall c | InBounds(|g|, c)
      ensures LastKind(log, c) == Some(Water) || LastKind(log, c) == Some(Hill)
      ensures At(Apply(g, log), c) == LastKind(log, c).value
    {
      ApplyAt(g, log, c);
      LastKindMeaning(log, c);
      var t :| 0 <= t < |log| && log[t] == Write(c, LastKind(log, c).value) &&
               forall u :: t < u < |log| ==> log[u].cell != c;
    }
  }

  /** One more store decides its own cell and leaves every other cell's last store as it was. */
  lemma LastKindAppend(log: seq<Write>, w: Write, c: Coord)
    ensures LastKind(log + [w], c) == if w.cell == c then Some(w.kind) else LastKind(log, c)
  {
    assert (log + [w])[..|log|] == log;
  }

  /** The last store to `c` in two logs run one after the other: the second log's, if it has one. */
  lemma {:induction false} LastKindConcat(log: seq<Write>, more: seq<Write>, c: Coord)
    ensures LastKind(log + more, c) == if LastKind(more, c).Some? then LastKind(more, c) else LastKind(log, c)
    decreases |more|
  {
    if more == [] {
      assert log + more == log;
    } else {
      var front, w := more[..|more| - 1], more[|more| - 1];
      LastKindConcat(log, front, c);
      assert more == front + [w];
      assert log + more == (log + front) + [w];
      LastKindAppend(log + front, w, c);
      LastKindAppend(front, w, c);
    }
  }
}
