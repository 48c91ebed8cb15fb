/** Filling a TileMatrix: `TileMatrix.initialize` and `reinitialize` with their three built-in
    generators, the pluggable InitializationAlgorithm objects, and what the board looks like once
    the water count is taken, a missing lake is repaired and the shoreline is classified. */
module Initialization {
  import opened Outcomes
  import opened TileTypes
  import opened Grids
  import opened Painting
  import opened Randomness
  import opened Layouts
  import opened Matrix
  import opened Generators
  import opened ComplexLayout
  import opened ComplexGenerator
  import opened Utils
  import opened Tiles
  import opened Populations

  // ---------------------------------------------------------------------------------------------
  // The pluggable algorithms

  /** The three InitializationAlgorithm implementations. */
  datatype Algorithm = Simple | Squares | Complex

  /** `getName()` of SimpleInitializationAlgorithm and `toString()` of the other two. */
  function Name(a: Algorithm): string
  {
    match a
    case Simple => "Simple"
    case Squares => "Squares"
    case Complex => "Complex"
  }

  /** No two algorithms share a name. */
  lemma NamesDistinct(a: Algorithm, b: Algorithm)
    ensures Name(a) == Name(b) <==> a == b
  {
    if a != b {
      assert Name(a)[1] != Name(b)[1] || |Name(a)| != |Name(b)|;
    }
  }

  /** The names are title-cased already, as the menus show names. */
  lemma NameIsTitle(a: Algorithm)
    ensures ToTitle(Name(a)) == Ok(Name(a))
  {
    var s := Name(a);
    var t := ToTitle(s).value;
    forall k | 0 <= k < |s|
      ensures t[k] == s[k]
    {
    }
    assert t == s;
  }

  /** `InitializationAlgorithms.getBestAlgorithm()`. */
  const BestAlgorithm := Complex

  /** The algorithm a built-in generator mode follows. */
  function AlgorithmOf(mode: GeneratorMode): Algorithm
  {
    match mode
    case SimpleMode => Simple
    case SquaresMode => Squares
    case ComplexMode => Complex
  }

  // ---------------------------------------------------------------------------------------------
  // What a generator makes

  /** The stores of a Complex generation from the given draw cursors. */
  function ComplexRun(n: int, v: Variant, dr: Draws, waterUsed: nat, spreadUsed: nat, intUsed: nat): Gen
    requires Fits(n, v)
  {
    Blocks(n, v, dr, 0, Gen(0, waterUsed, spreadUsed, intUsed, []))
  }

  /** The kind algorithm `a` leaves at `c`, from the draws at the given cursors: `inClass` selects
      the branch of `TileMatrix.initialize` over the algorithm object. */
  function GeneratedKind(n: int, a: Algorithm, inClass: bool, dr: Draws, waterUsed: nat, spreadUsed: nat,
                         intUsed: nat, c: Coord): TileType
    requires n >= 2 && InBounds(n, c)
  {
    match a
    case Simple => KindAt(n, SimpleLayout(dr.water, waterUsed, inClass), c)
    case Squares => KindAt(n, SquaresLayout(dr.water, waterUsed), c)
    case Complex =>
      var last := LastKind(ComplexRun(n, if inClass then InClass else Pluggable, dr, waterUsed, spreadUsed,
                                      intUsed).log, c);
      if last.Some? then last.value else Hill
  }

  /** The grid a generator leaves, before the water count, the repair and the shoreline. */
  function Generated(n: int, a: Algorithm, inClass: bool, dr: Draws, waterUsed: nat, spreadUsed: nat,
                     intUsed: nat): (g: Grid)
    requires n >= 2
    ensures IsSquare(g, n)
    ensures forall c :: InBounds(n, c) ==> At(g, c) == GeneratedKind(n, a, inClass, dr, waterUsed, spreadUsed, intUsed, c)
  {
    seq(n, j requires 0 <= j < n =>
      seq(n, i requires 0 <= i < n => GeneratedKind(n, a, inClass, dr, waterUsed, spreadUsed, intUsed, Coord(i, j))))
  }

  /** The `nextInt` cursor after the generator: only Complex draws integers. */
  function IntsAfter(n: int, a: Algorithm, inClass: bool, dr: Draws, waterUsed: nat, spreadUsed: nat,
                     intUsed: nat): nat
    requires n >= 2
  {
    if a == Complex then ComplexRun(n, if inClass then InClass else Pluggable, dr, waterUsed, spreadUsed, intUsed).intUsed
    else intUsed
  }

  /** The "water?" cursor after the generator: Simple draws once per cell, Squares once per
      anchor, Complex once per block. */
  function WaterAfter(n: int, a: Algorithm, inClass: bool, dr: Draws, waterUsed: nat, spreadUsed: nat,
                      intUsed: nat): nat
    requires n >= 2
  {
    match a
    case Simple => waterUsed + n * n
    case Squares => waterUsed + ((n + 1) / 2) * ((n + 1) / 2)
    case Complex => ComplexRun(n, if inClass then InClass else Pluggable, dr, waterUsed, spreadUsed, intUsed).waterUsed
  }

  /** The spread-amount cursor after the generator: only Complex draws spread amounts. */
  function SpreadAfter(n: int, a: Algorithm, inClass: bool, dr: Draws, waterUsed: nat, spreadUsed: nat,
                       intUsed: nat): nat
    requires n >= 2
  {
    if a == Complex then ComplexRun(n, if inClass then InClass else Pluggable, dr, waterUsed, spreadUsed, intUsed).spreadUsed
    else spreadUsed
  }

  /** A generator never leaves a beach: every cell is water or hill. */
  lemma GeneratedNoBeach(n: int, a: Algorithm, inClass: bool, dr: Draws, waterUsed: nat, spreadUsed: nat,
                         intUsed: nat, c: Coord)
    requires n >= 2 && InBounds(n, c)
    ensures GeneratedKind(n, a, inClass, dr, waterUsed, spreadUsed, intUsed, c) in {Water, Hill}
  {
    if a == Complex {
      var v := if inClass then InClass else Pluggable;
      var start := Gen(0, waterUsed, spreadUsed, intUsed, []);
      var blank := seq(n, j => seq(n, i => Hill));
      var log := Blocks(n, v, dr, 0, start).log;
      GenerateNoBeach(n, v, dr, start, blank);
      ApplyAt(blank, log, c);
    }
  }

  /** The in-class SIMPLE branch leaves only water, so its board never needs the repair. */
  lemma InClassSimpleAllWater(n: int, dr: Draws, waterUsed: nat, spreadUsed: nat, intUsed: nat)
    requires n >= 2
    ensures var g := Generated(n, Simple, true, dr, waterUsed, spreadUsed, intUsed);
            && (forall c :: InBounds(n, c) ==> At(g, c) == Water)
            && WaterCount(g) >= 1 && Repaired(g, dr.ints, intUsed) == g
  {
    var g := Generated(n, Simple, true, dr, waterUsed, spreadUsed, intUsed);
    forall c | InBounds(n, c)
      ensures At(g, c) == Water
    {
      SimpleKinds(n, dr.water, waterUsed, c);
    }
    WaterCountPositive(g, Coord(0, 0));
  }

  // ---------------------------------------------------------------------------------------------
  // The minimum-water repair

  /** `assertMinimumWaterLevel` as a value: a board without water gets one water tile at the
      column and row drawn from `ints` at cursors k and k + 1; any other board is left alone. */
  ghost function Repaired(g: Grid, ints: nat -> nat, k: nat): (h: Grid)
    requires IsSquare(g, |g|) && |g| >= 1
    ensures IsSquare(h, |g|)
  {
    if WaterCount(g) == 0 then SetAt(g, Coord(ints(k) % |g|, ints(k + 1) % |g|), Water) else g
  }

  /** After the repair there is water, and the repair changes nothing on a board that had some. */
  lemma RepairedHasWater(g: Grid, ints: nat -> nat, k: nat)
    requires IsSquare(g, |g|) && |g| >= 1
    ensures WaterCount(Repaired(g, ints, k)) >= 1
    ensures WaterCount(g) >= 1 ==> Repaired(g, ints, k) == g
    ensures WaterCount(g) == 0 ==> WaterCount(Repaired(g, ints, k)) == 1
  {
    if WaterCount(g) == 0 {
      var c := Coord(ints(k) % |g|, ints(k + 1) % |g|);
      var h := SetAt(g, c, Water);
      assert WaterCells(g) == {};
      assert WaterCells(h) == {c};
    }
  }

  /** A board without beaches, once repaired and classified, is consistent and has as much water
      as the repaired board, at least one tile. */
  lemma RepairedClassified(g: Grid, ints: nat -> nat, k: nat)
    requires IsSquare(g, |g|) && |g| >= 1
    requires forall c :: InBounds(|g|, c) ==> At(g, c) != Beach
    ensures var r := Repaired(g, ints, k);
            && ShorelineConsistent(Classify(r))
            && WaterCount(Classify(r)) == WaterCount(r) >= 1
  {
    var r := Repaired(g, ints, k);
    RepairedHasWater(g, ints, k);
    assert BeachesHaveWater(r);
    ClassifyKeepsWater(r);
    ClassifyConsistent(r);
  }

  // ---------------------------------------------------------------------------------------------
  // Running the generators

  /** `algorithm.initialize(tileMatrix)`: the algorithm object stores a fresh tile at every position. */
  method RunAlgorithm(a: Algorithm, m: TileMatrix, rng: Random)
    requires m.Agrees()
    modifies m.tiles, m`owner, m`grid, m`writes, rng`waterUsed, rng`spreadUsed, rng`intUsed
    ensures m.ValidGrid()
    ensures m.grid == Generated(m.n, a, false, DrawsOf(rng), old(rng.waterUsed), old(rng.spreadUsed), old(rng.intUsed))
    ensures rng.intUsed == IntsAfter(m.n, a, false, DrawsOf(rng), old(rng.waterUsed), old(rng.spreadUsed), old(rng.intUsed))
    ensures rng.waterUsed == WaterAfter(m.n, a, false, DrawsOf(rng), old(rng.waterUsed), old(rng.spreadUsed), old(rng.intUsed))
    ensures rng.spreadUsed == SpreadAfter(m.n, a, false, DrawsOf(rng), old(rng.waterUsed), old(rng.spreadUsed), old(rng.intUsed))
  {
    Generate(a, false, m, rng);
  }

  /** One of the generators, in the algorithm object's form or the branch of `initialize`. */
  method Generate(a: Algorithm, inClass: bool, m: TileMatrix, rng: Random)
    requires m.Agrees()
    modifies m.tiles, m`owner, m`grid, m`writes, rng`waterUsed, rng`spreadUsed, rng`intUsed
    ensures m.ValidGrid()
    ensures m.grid == Generated(m.n, a, inClass, DrawsOf(rng), old(rng.waterUsed), old(rng.spreadUsed), old(rng.intUsed))
    ensures rng.intUsed == IntsAfter(m.n, a, inClass, DrawsOf(rng), old(rng.waterUsed), old(rng.spreadUsed), old(rng.intUsed))
    ensures rng.waterUsed == WaterAfter(m.n, a, inClass, DrawsOf(rng), old(rng.waterUsed), old(rng.spreadUsed), old(rng.intUsed))
    ensures rng.spreadUsed == SpreadAfter(m.n, a, inClass, DrawsOf(rng), old(rng.waterUsed), old(rng.spreadUsed), old(rng.intUsed))
  {
    match a
    case Simple => GenerateSimple(inClass, m, rng);
    case Squares => GenerateSquares(inClass, m, rng);
    case Complex => GenerateComplex(inClass, m, rng);
  }

  /** The Simple generator, in either form: it draws only "water?" values. */
  method GenerateSimple(inClass: bool, m: TileMatrix, rng: Random)
    requires m.Agrees()
    modifies m.tiles, m`owner, m`grid, m`writes, rng`waterUsed
    ensures m.ValidGrid()
    ensures m.grid == Generated(m.n, Simple, inClass, DrawsOf(rng), old(rng.waterUsed), old(rng.spreadUsed), old(rng.intUsed))
    ensures rng.waterUsed == WaterAfter(m.n, Simple, inClass, DrawsOf(rng), old(rng.waterUsed), old(rng.spreadUsed), old(rng.intUsed))
  {
    ghost var wu, su, iu := rng.waterUsed, rng.spreadUsed, rng.intUsed;
    SimpleFill(m, rng, inClass);
    IsGenerated(m.grid, m.n, Simple, inClass, DrawsOf(rng), wu, su, iu);
  }

  /** The Squares generator, in either form: it draws only "water?" values. */
  method GenerateSquares(inClass: bool, m: TileMatrix, rng: Random)
    requires m.Agrees()
    modifies m.tiles, m`owner, m`grid, m`writes, rng`waterUsed
    ensures m.ValidGrid()
    ensures m.grid == Generated(m.n, Squares, inClass, DrawsOf(rng), old(rng.waterUsed), old(rng.spreadUsed), old(rng.intUsed))
    ensures rng.waterUsed == WaterAfter(m.n, Squares, inClass, DrawsOf(rng), old(rng.waterUsed), old(rng.spreadUsed), old(rng.intUsed))
  {
    ghost var wu, su, iu := rng.waterUsed, rng.spreadUsed, rng.intUsed;
    SquaresFill(m, rng);
    IsGenerated(m.grid, m.n, Squares, inClass, DrawsOf(rng), wu, su, iu);
  }

  /** The Complex generator, in either form. */
  method GenerateComplex(inClass: bool, m: TileMatrix, rng: Random)
    requires m.Agrees()
    modifies m.tiles, m`owner, m`grid, m`writes, rng`waterUsed, rng`spreadUsed, rng`intUsed
    ensures m.ValidGrid()
    ensures m.grid == Generated(m.n, Complex, inClass, DrawsOf(rng), old(rng.waterUsed), old(rng.spreadUsed), old(rng.intUsed))
    ensures rng.waterUsed == WaterAfter(m.n, Complex, inClass, DrawsOf(rng), old(rng.waterUsed), old(rng.spreadUsed), old(rng.intUsed))
    ensures rng.spreadUsed == SpreadAfter(m.n, Complex, inClass, DrawsOf(rng), old(rng.waterUsed), old(rng.spreadUsed), old(rng.intUsed))
    ensures rng.intUsed == IntsAfter(m.n, Complex, inClass, DrawsOf(rng), old(rng.waterUsed), old(rng.spreadUsed), old(rng.intUsed))
  {
    ghost var wu, su, iu := rng.waterUsed, rng.spreadUsed, rng.intUsed;
    ComplexFill(m, rng, if inClass then InClass else Pluggable);
    IsGenerated(m.grid, m.n, Complex, inClass, DrawsOf(rng), wu, su, iu);
  }

  /** A grid that shows the generated kind everywhere is the generated grid. */
  lemma IsGenerated(g: Grid, n: int, a: Algorithm, inClass: bool, dr: Draws, waterUsed: nat, spreadUsed: nat,
                    intUsed: nat)
    requires n >= 2 && IsSquare(g, n)
    requires forall c :: InBounds(n, c) ==> At(g, c) == GeneratedKind(n, a, inClass, dr, waterUsed, spreadUsed, intUsed, c)
    ensures g == Generated(n, a, inClass, dr, waterUsed, spreadUsed, intUsed)
  {
    SameGrid(g, Generated(n, a, inClass, dr, waterUsed, spreadUsed, intUsed));
  }

  // ---------------------------------------------------------------------------------------------
  // TileMatrix.initialize and reinitialize

  /** Holds of every tile object. It only names all tiles in the frame of `initialize`, which may
      recolour whichever tile the repair draws. */
  ghost predicate IsTile(t: Tile)
  {
    true
  }

  /** `initialize()`: run the generator of the matrix's mode, count the water, repair a board
      without water, then classify the shoreline with fresh tiles. The board is the generator's,
      repaired and classified, and satisfies the matrix invariant: water count at least one. The
      beach tiles are new, each with the suggested population of a beach. */
  method Initialize(m: TileMatrix, rng: Random)
    requires m.Agrees() && m.visited == []
    modifies m, m.tiles, rng, iset t: Tile | IsTile(t)
    ensures m.Valid()
    ensures var a := AlgorithmOf(m.generatorMode);
            var dr := DrawsOf(rng);
            var g := Generated(m.n, a, true, dr, old(rng.waterUsed), old(rng.spreadUsed), old(rng.intUsed));
            var k := IntsAfter(m.n, a, true, dr, old(rng.waterUsed), old(rng.spreadUsed), old(rng.intUsed));
            var r := Repaired(g, rng.intDraws, k);
            && m.grid == Classify(r)
            && rng.waterUsed == WaterAfter(m.n, a, true, dr, old(rng.waterUsed), old(rng.spreadUsed), old(rng.intUsed))
            && rng.spreadUsed == SpreadAfter(m.n, a, true, dr, old(rng.waterUsed), old(rng.spreadUsed), old(rng.intUsed))
            && rng.intUsed == k + (if WaterCount(g) == 0 then 2 else 0)
            && forall y, x :: 0 <= y < m.n && 0 <= x < m.n && BecomesBeach(r, Coord(x, y)) ==>
                 fresh(m.tiles[y, x]) && m.tiles[y, x].population.total == SuggestedPopulation(Beach)
  {
    ghost var wu, su, iu := rng.waterUsed, rng.spreadUsed, rng.intUsed;
    Generate(AlgorithmOf(m.generatorMode), true, m, rng);
    forall c | InBounds(m.n, c)
      ensures At(m.grid, c) != Beach
    {
      GeneratedNoBeach(m.n, AlgorithmOf(m.generatorMode), true, DrawsOf(rng), wu, su, iu, c);
    }
    Finish(m, rng);
  }

  /** The end of `initialize()`: `updateWaterCount()`, `assertMinimumWaterLevel()` and
      `updateTiles(true)` make the generated board valid. */
  method Finish(m: TileMatrix, rng: Random)
    requires m.ValidGrid() && m.visited == []
    requires forall c :: InBounds(m.n, c) ==> At(m.grid, c) != Beach
    modifies m, m.tiles, rng`intUsed, m.owner.Keys
    ensures m.Valid()
    ensures rng.intUsed == old(rng.intUsed) + (if WaterCount(old(m.grid)) == 0 then 2 else 0)
    ensures var r := Repaired(old(m.grid), rng.intDraws, old(rng.intUsed));
            && m.grid == Classify(r)
            && m.writes == old(m.writes) + ShoreRows(r, m.n)
            && (forall y, x :: 0 <= y < m.n && 0 <= x < m.n && !BecomesBeach(r, Coord(x, y)) ==>
                  m.tiles[y, x] == old(m.tiles[y, x]))
            && (forall y, x :: 0 <= y < m.n && 0 <= x < m.n && BecomesBeach(r, Coord(x, y)) ==>
                  fresh(m.tiles[y, x]) && m.tiles[y, x].population.total == SuggestedPopulation(Beach))
  {
    ghost var g, k := m.grid, rng.intUsed;
    CountAndRepair(m, rng);
    ghost var r := m.grid;
    assert r == Repaired(g, rng.intDraws, k);
    RepairedClassified(g, rng.intDraws, k);
    assert ShorelineConsistent(Classify(r)) && WaterCount(Classify(r)) == m.lastWaterCount;
    m.UpdateTiles(true);
    assert m.grid == Classify(r);
  }

  /** `updateWaterCount()` then `assertMinimumWaterLevel()`: the count is made current, and a
      board without water gets one water tile at the next two integer draws. */
  method CountAndRepair(m: TileMatrix, rng: Random)
    requires m.ValidGrid()
    modifies m`lastWaterCount, m`grid, m.owner.Keys, rng`intUsed
    ensures m.ValidGrid() && m.owner == old(m.owner) && m.writes == old(m.writes)
    ensures m.grid == Repaired(old(m.grid), rng.intDraws, old(rng.intUsed))
    ensures m.lastWaterCount == WaterCount(m.grid)
    ensures rng.intUsed == old(rng.intUsed) + (if WaterCount(old(m.grid)) == 0 then 2 else 0)
  {
    m.UpdateWaterCount();
    m.AssertMinimumWaterLevel(rng);
  }

  /** `reinitialize()`: a valid matrix is filled anew, exactly as `initialize` fills it. */
  method Reinitialize(m: TileMatrix, rng: Random)
    requires m.Valid()
    modifies m, m.tiles, rng, iset t: Tile | IsTile(t)
    ensures m.Valid()
    ensures var a := AlgorithmOf(m.generatorMode);
            var dr := DrawsOf(rng);
            var g := Generated(m.n, a, true, dr, old(rng.waterUsed), old(rng.spreadUsed), old(rng.intUsed));
            var k := IntsAfter(m.n, a, true, dr, old(rng.waterUsed), old(rng.spreadUsed), old(rng.intUsed));
            var r := Repaired(g, rng.intDraws, k);
            && m.grid == Classify(r)
            && rng.waterUsed == WaterAfter(m.n, a, true, dr, old(rng.waterUsed), old(rng.spreadUsed), old(rng.intUsed))
            && rng.spreadUsed == SpreadAfter(m.n, a, true, dr, old(rng.waterUsed), old(rng.spreadUsed), old(rng.intUsed))
            && rng.intUsed == k + (if WaterCount(g) == 0 then 2 else 0)
            && forall y, x :: 0 <= y < m.n && 0 <= x < m.n && BecomesBeach(r, Coord(x, y)) ==>
                 fresh(m.tiles[y, x]) && m.tiles[y, x].population.total == SuggestedPopulation(Beach)
  {
    Initialize(m, rng);
  }

  /** `new TileMatrix(gameSize, generatorMode)`: an array of the size's side, then `initialize()`. */
  method NewTileMatrix(size: GameSize, mode: GeneratorMode, rng: Random) returns (m: TileMatrix)
    modifies rng, iset t: Tile | IsTile(t)
    ensures fresh(m) && m.Valid()
    ensures m.n == TilesPerRow(size) && m.generatorMode == mode
    ensures var a := AlgorithmOf(mode);
            var dr := DrawsOf(rng);
            var g := Generated(m.n, a, true, dr, old(rng.waterUsed), old(rng.spreadUsed), old(rng.intUsed));
            var k := IntsAfter(m.n, a, true, dr, old(rng.waterUsed), old(rng.spreadUsed), old(rng.intUsed));
            var r := Repaired(g, rng.intDraws, k);
            && m.grid == Classify(r)
            && rng.waterUsed == WaterAfter(m.n, a, true, dr, old(rng.waterUsed), old(rng.spreadUsed), old(rng.intUsed))
            && rng.spreadUsed == SpreadAfter(m.n, a, true, dr, old(rng.waterUsed), old(rng.spreadUsed), old(rng.intUsed))
            && rng.intUsed == k + (if WaterCount(g) == 0 then 2 else 0)
            && forall y, x :: 0 <= y < m.n && 0 <= x < m.n && BecomesBeach(r, Coord(x, y)) ==>
                 fresh(m.tiles[y, x]) && m.tiles[y, x].population.total == SuggestedPopulation(Beach)
  {
    m := new TileMatrix(size, mode);
    Initialize(m, rng);
  }
}
