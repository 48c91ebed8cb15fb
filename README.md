# Flood: the grid engine, modelled and proved in Dafny

Flood is a single-player puzzle on a square board of terrain tiles (hill, beach, water). The player
clicks a beach tile, and the 4-connected region of beach around it floods. The engine then
re-draws the shoreline and recounts the water. This project models the engine's core in Dafny:

- **`TileMatrix`** is a class over an `array2<Tile?>`. It owns:
  - the recursive flood, with a real mode and a simulated mode (`getSelection`);
  - the shoreline classifier (`updateTiles` and `setToBeachIfThereIsWaterNeighbor`);
  - the cached water count and the minimum-water repair;
  - the population sum;
  - the in-class generator `initialize`.

  A ghost `grid` mirrors the kinds the tiles show. A ghost `owner` map proves that no tile object
  is stored at two positions. A ghost `writes` log records every store of a new tile.
- **The three pluggable generators** (Simple, Squares, Complex) run as methods against the
  matrix. Each is proved to make exactly the stores of a specification function:
  - `RowsStores` for the row-major generators;
  - `Blocks` for the Complex generators.

  Lemmas about those functions give the properties: every cell stored, no beach left, uniform
  2-by-2 blocks, at most one spread per block, and so on.
- **`Tile`, `Population`, `TileType`, `CircularQueue` and `Utils.toTitle`** are modelled as
  classes and functions in the same form as the code.

Randomness (`GameData.random`) becomes a `Random` object whose draws are decided in advance. It
has three streams, each with a cursor:
- the "water?" test `nextDouble() < WATER_RATE`;
- the spread-amount bucket (below 0.2, below 0.4, neither);
- `nextInt`, read as `intDraws(k) % bound`.

The generator's results are stated as functions of those draws.

In this version of the code the generators call `getDimensions` and `setTile`, and
`getTotalPopulation` calls `getPopulation()`. `TileMatrix.java` defines neither of the first two,
and `Tile.java` has no `getPopulation`. The model gives the matrix `GetDimensions` and `SetTile`,
and gives each tile a `Population` made by `makePopulation(type)`.

Three behaviours of the code that a reader might not expect, each modelled as written:
- **Flooding keeps a tile's population.** `Tile.setType` changes only the kind
  (`src/org/flood/Tile.java:20-22`), and the flood turns tiles to water through it, so a flooded
  tile keeps the `Population` it was made with.
- **The spread pick is `nextInt(notDiagonalNeighbors) == 0`.** The bound is the fixed count of
  candidates, not the number still left, and a candidate is picked outright when
  `remainingNeighbors` is 1 (`src/org/flood/TileMatrix.java:211`,
  `src/org/flood/algorithms/ComplexInitializationAlgorithm.java:46`).
- **The in-class SIMPLE generator stores water on both branches** of its draw
  (`src/org/flood/TileMatrix.java:128-132`); see Findings.

Modules: `TileTypes`, `Populations`, `Tiles`, `Outcomes` (Java exceptions and null as values),
`Grids` (the grid as a value: the flood region, `Classify`, the water count), `Randomness`,
`Painting` (logs of tile stores), `Matrix` (`TileMatrix`), `Layouts` and `Generators` (Simple
and Squares), `ComplexLayout` and `ComplexGenerator` (both Complex generators), `Initialization`
(`initialize`, `reinitialize`, the constructor), `CircularQueues` and `Utils`.

## Model

| member | source | states |
|---|---|---|
| Matrix.TilesPerRow | src/org/flood/GameSize.java:4-12 | every board size has an even number of tiles per row, between 10 and 100 |
| Matrix.TileMatrix.constructor | src/org/flood/TileMatrix.java:21-23 | `new Tile[n][n]`: a fresh n-by-n array of nulls, the given generator mode, an empty visited list and a zero count |
| Matrix.TileMatrix.GetTileType | src/org/flood/TileMatrix.java:34-36 | the kind at column i, row j; an index exception outside the board |
| Matrix.TileMatrix.GetTile | src/org/flood/TileMatrix.java:394-396 | the tile object stored at column i, row j, which shows the grid's kind; an index exception outside the board |
| Matrix.TileMatrix.GetDimensions | src/org/flood/algorithms/SimpleInitializationAlgorithm.java:19-21 | the matrix is square: width and height are both the side of the array |
| Matrix.TileMatrix.GetWaterCount | src/org/flood/TileMatrix.java:43-45 | between public operations the cached count is the number of water tiles, and at least one |
| Matrix.TileMatrix.SetTile | src/org/flood/algorithms/SimpleInitializationAlgorithm.java:28 | stores a tile at one position, changes no other position, keeps every position's tile distinct, and the grid shows the new tile's kind there |
| Matrix.TileMatrix.Recolour | src/org/flood/TileMatrix.java:384 | `setType` on a stored tile changes the grid at that position only |
| Matrix.TileMatrix.Flood | src/org/flood/TileMatrix.java:93-120 | enters (i, j) only when it is an unvisited beach; never records a tile twice or outside the start's region; afterwards the start is visited if it was a beach, the visited set is closed under beach adjacency, and a real flood has turned exactly the visited tiles to water; a simulated flood changes no tile |
| Matrix.TileMatrix.Visit | src/org/flood/TileMatrix.java:94-98 | entering a tile appends it to the visited list and, unless simulated, turns it to water and nothing else |
| Matrix.TileMatrix.FloodVertical | src/org/flood/TileMatrix.java:99-108 | after the checks above and below, each of those two neighbours that was a beach when the flood began is visited |
| Matrix.TileMatrix.FloodHorizontal | src/org/flood/TileMatrix.java:109-118 | after the checks left and right, each of those two neighbours that was a beach when the flood began is visited |
| Matrix.TileMatrix.FloodNeighbour | src/org/flood/TileMatrix.java:99-103 | one neighbour check: afterwards the neighbour is visited whenever it was a beach when the flood began |
| Matrix.TileMatrix.FloodRegion | src/org/flood/TileMatrix.java:93-120 | a whole flood records each tile of the start's 4-connected beach region exactly once and nothing else (nothing when the start is not a beach); a real flood turns exactly that region to water |
| Matrix.TileMatrix.GetSelection | src/org/flood/TileMatrix.java:316-322 | returns the region a real flood would cover, without duplicates; no tile, counter or population changes and the visited list is left empty; an index exception outside the board |
| Matrix.TileMatrix.StartFlood | src/org/flood/TileMatrix.java:67-75 | outside the board: IllegalArgumentException and nothing changes; inside: the grid becomes the classified flooded grid, and the count grows by the size of the region and stays equal to the number of water tiles; in both cases the people on the board are as many as before, since flooding and reclassifying only change kinds |
| Matrix.TileMatrix.FloodAndReclassify | src/org/flood/TileMatrix.java:71-74 | the flood, the reclassification and the recount keep the matrix invariant, and the count grows by exactly the region's size |
| Matrix.TileMatrix.FloodThenShore | src/org/flood/TileMatrix.java:71-73 | a real flood of the region followed by `updateTiles(false)` gives `Classify(Flooded(g, Region))` and leaves the visited list empty |
| Matrix.TileMatrix.UpdateWaterCount | src/org/flood/TileMatrix.java:50-59 | the row-by-row count equals the number of water tiles of the grid |
| Matrix.TileMatrix.AssertMinimumWaterLevel | src/org/flood/TileMatrix.java:328-335 | with water present, nothing changes and no draw is made; without water, two draws pick a column and a row, that tile becomes water; afterwards the count is current and at least 1, and the visited list, the stored tiles and the store log are as they were |
| Matrix.TileMatrix.SetToBeachIfThereIsWaterNeighbor | src/org/flood/TileMatrix.java:369-392 | AssertionError on a water tile with nothing changed; otherwise the tile becomes a beach exactly when a tile of its 3-by-3 block is water; with `overwrite` that beach is a new tile holding a beach's population and its store is logged, without it the same tile is recoloured; every other position keeps its tile and no population changes |
| Matrix.TileMatrix.UpdateTiles | src/org/flood/TileMatrix.java:348-357 | the row-major pass gives exactly `Classify` of the starting grid: water and beach stay, any other tile becomes a beach exactly when an 8-neighbour is water; with `overwrite` each such position gets a new tile holding a beach's population, the stores are logged in row-major order, and every other position keeps its tile; without it every position keeps its tile and nothing is logged |
| Matrix.TileMatrix.ShoreRowPass | src/org/flood/TileMatrix.java:349-356 | one row of the pass: the row's cells take their classification and, with `overwrite`, their new beach tiles, each new and holding a beach's population; the other positions keep their tiles |
| Matrix.TileMatrix.ShoreCell | src/org/flood/TileMatrix.java:350-355 | one cell of the pass: a tile that is neither water nor beach is classified as `Classify` would, against the grid as it was before the pass |
| Matrix.TileMatrix.ClassifyCell | src/org/flood/TileMatrix.java:352-354 | the classifier's call: the tile becomes a beach exactly when water is near it; with `overwrite` the position gets a new tile, its store is logged, and no other position changes |
| Matrix.TileMatrix.Board | src/org/flood/TileMatrix.java:348-357 | the tiles of the array row by row, each row as long as the array is wide |
| Matrix.ShoreRowWithin | src/org/flood/TileMatrix.java:350-355 | every new tile of a row's pass is a beach in that row, left of where the pass has reached |
| Matrix.ShoreRowsWithin | src/org/flood/TileMatrix.java:349-356 | every new tile of the pass over the rows above row j is a beach on the board, above row j |
| Matrix.ShoreRowUnfold | src/org/flood/TileMatrix.java:350-355 | the last store to a cell in a row up to column i is the store at column i - 1 when it is that cell and the pass stores there, else the last one before |
| Matrix.ShoreRowLast | src/org/flood/TileMatrix.java:350-355 | a row's pass stores a beach at exactly the cells of that row, left of column i, that classification turns into beaches |
| Matrix.ShoreRowOther | src/org/flood/TileMatrix.java:350-355 | a row's pass stores nothing outside that row |
| Matrix.ShoreRowsUnfold | src/org/flood/TileMatrix.java:349-356 | the last store to a cell in the rows above row j is row j - 1's, if it has one, else the earlier rows' |
| Matrix.ShoreRowsLast | src/org/flood/TileMatrix.java:349-356 | the rows above row j store at a cell exactly what the pass over that cell's own row stores, and nothing below row j |
| Matrix.ShoreWritesClassify | src/org/flood/TileMatrix.java:348-392 | the new beach tiles of `updateTiles(true)`, painted onto the board, give exactly the classified board: a store wherever classification makes a beach and nowhere else |
| Matrix.ShoredCell | src/org/flood/TileMatrix.java:350-355 | part way through the pass, the cell reached still shows its old kind, and the classifier's test on the current grid is the test on the grid before the pass |
| Matrix.ShoredNext | src/org/flood/TileMatrix.java:350-355 | one step of the pass classifies the cell reached and, with `overwrite`, logs its new beach |
| Matrix.ShoredStart | src/org/flood/TileMatrix.java:348-349 | before the pass nothing has changed |
| Matrix.ShoredDone | src/org/flood/TileMatrix.java:348-357 | after the last row the grid is `Classify` of the old grid; without `overwrite` the stored tiles and the log are unchanged, with it the log gains exactly the pass's new beaches |
| Matrix.ShoredRowEnd | src/org/flood/TileMatrix.java:349-350 | the end of one row of the pass is the start of the next |
| Matrix.ShoreRowsNext | src/org/flood/TileMatrix.java:349-350 | the log after row j is the log of the rows up to row j + 1 |
| Matrix.TileMatrix.GetTotalPopulation | src/org/flood/TileMatrix.java:398-406 | the sum of every tile's population total, row by row, and never negative |
| Matrix.TileMatrix.PeopleKept | src/org/flood/TileMatrix.java:398-406 | a step that keeps the array and every tile's head count keeps the people on the board, as `getTotalPopulation` sums them |
| Grids.Region | src/org/flood/TileMatrix.java:93-120 | the flood region holds exactly the in-bounds tiles reachable from the start through 4-adjacent beaches |
| Grids.RegionBeachClosed | src/org/flood/TileMatrix.java:99-118 | the region holds only in-bounds beaches and every beach neighbour of its members |
| Grids.RegionIsBeach | src/org/flood/TileMatrix.java:94 | every tile of a region is an in-bounds beach |
| Grids.RegionHasStart | src/org/flood/TileMatrix.java:94-95 | a beach start belongs to its own region |
| Grids.RegionOfNonBeachIsEmpty | src/org/flood/TileMatrix.java:94 | a start that is not an in-bounds beach has an empty region |
| Grids.RegionStep | src/org/flood/TileMatrix.java:99-118 | a beach tile adjacent to a member of the region is a member |
| Grids.RegionWithinClosed | src/org/flood/TileMatrix.java:93-120 | any set that holds the start and is closed under beach adjacency contains the whole region |
| Grids.ClosedSetIsRegion | src/org/flood/TileMatrix.java:93-120 | a closed set inside the region that holds a beach start is the region: the flood visits no less and no more |
| Grids.Flooded | src/org/flood/TileMatrix.java:96-98 | the tiles of the set become water and every other tile keeps its kind |
| Grids.SetAt | src/org/flood/TileMatrix.java:332 | one tile takes the new kind and every other tile keeps its kind |
| Grids.Classify | src/org/flood/TileMatrix.java:348-392 | each tile becomes what the classifier makes of it from the grid as it was before the pass |
| Grids.WaterCells | src/org/flood/TileMatrix.java:50-59 | the water tiles are exactly the in-bounds positions showing water |
| Grids.WaterCount | src/org/flood/TileMatrix.java:50-59 | the number of water tiles on the board |
| Grids.FloodedWater | src/org/flood/TileMatrix.java:94-98 | flooding a set of beaches adds exactly that set to the water, and its size to the water count |
| Grids.ClassifyKeepsWater | src/org/flood/TileMatrix.java:348-392 | classification never creates or removes water, so the water count is unchanged |
| Grids.ClassifyConsistent | src/org/flood/TileMatrix.java:348-392 | when every beach already borders water, after classification every beach borders water and no hill does |
| Grids.ClassifyIdempotent | src/org/flood/TileMatrix.java:348-357 | classifying twice gives the same grid as classifying once |
| Grids.SameWaterNear | src/org/flood/TileMatrix.java:373-391 | the classifier's test depends only on which tiles are water |
| Grids.HasWaterNear | src/org/flood/TileMatrix.java:373-391 | the classifier's test: a tile of the 3-by-3 block around the cell, on the board, is water |
| Grids.ClassifyAt | src/org/flood/TileMatrix.java:350-391 | water and beach stay; any other tile becomes a beach when water is near it |
| Grids.FloodKeepsBeachesWet | src/org/flood/TileMatrix.java:94-98 | flooding only adds water, so a beach that bordered water still does |
| Grids.WaterCountPositive | src/org/flood/TileMatrix.java:329 | a board with a water tile has a positive water count |
| Grids.WaterBefore | src/org/flood/TileMatrix.java:52-58 | the water tiles the row-major count has passed before (x, y) |
| Grids.WaterBeforeStep | src/org/flood/TileMatrix.java:54-56 | each step of the count adds one exactly when the tile is water |
| Grids.FloodThenClassify | src/org/flood/TileMatrix.java:67-75 | a flood then a reclassification adds exactly the region's size to the water count and keeps a consistent shoreline consistent |
| Painting.LastKindMeaning | src/org/flood/algorithms/SimpleInitializationAlgorithm.java:28 | the last kind stored at a cell exists exactly when some store reached it, and it is the latest such store |
| Painting.Apply | src/org/flood/algorithms/SimpleInitializationAlgorithm.java:28 | a sequence of stores keeps the board square |
| Painting.ApplyAt | src/org/flood/algorithms/SimpleInitializationAlgorithm.java:28 | after the stores a cell shows the kind last stored there, or its old kind when no store reached it |
| Painting.ApplyAppend | src/org/flood/algorithms/SimpleInitializationAlgorithm.java:28 | one more store changes exactly its own cell |
| Painting.PaintedWaterOrHill | src/org/flood/algorithms/ComplexInitializationAlgorithm.java:19-20 | water-or-hill stores that reach every cell leave no beach, whatever the board held before |
| Painting.LastKindAppend | src/org/flood/algorithms/SimpleInitializationAlgorithm.java:28 | one more store decides its own cell and leaves every other cell's last store as it was |
| Painting.LastKindConcat | src/org/flood/algorithms/SimpleInitializationAlgorithm.java:28 | the last store to a cell in two logs run in turn is the second log's, if it has one |
| Generators.Store | src/org/flood/algorithms/SimpleInitializationAlgorithm.java:28 | `setTile(x, y, new Tile(kind))` appends exactly that store to the matrix's log and the board shows it |
| Generators.TracksKind | src/org/flood/algorithms/SimpleInitializationAlgorithm.java:28 | a cell some store reached holds a tile of the kind last stored there |
| Generators.TracksCovered | src/org/flood/algorithms/SimpleInitializationAlgorithm.java:20-28 | once the stores reach every cell, every position holds its own tile |
| Generators.FillResult | src/org/flood/algorithms/SimpleInitializationAlgorithm.java:20-30 | after the row-major walk the matrix is full and every cell shows the generator's kind for it |
| Generators.SimpleFill | src/org/flood/algorithms/SimpleInitializationAlgorithm.java:18-31 | the Simple generator stores exactly the row-major walk, each cell water or hill by its own draw, and uses exactly n times n draws; when `asWritten`, the SIMPLE branch of `initialize` (water on both branches) |
| Generators.SimpleRow | src/org/flood/algorithms/SimpleInitializationAlgorithm.java:21-29 | one row of the walk: its n stores in order, and n more draws |
| Generators.SimpleCell | src/org/flood/algorithms/SimpleInitializationAlgorithm.java:22-28 | one cell: one draw, then one store of the kind that draw decides |
| Generators.SquaresFill | src/org/flood/algorithms/SquaresInitializationAlgorithm.java:13-34 | the Squares generator stores exactly the row-major walk of the Squares layout and uses one draw per anchor, ((n + 1) / 2) squared in all |
| Generators.SquaresRow | src/org/flood/algorithms/SquaresInitializationAlgorithm.java:16-32 | one row of the walk: its stores in order, and one draw per anchor of the row |
| Generators.SquaresCell | src/org/flood/algorithms/SquaresInitializationAlgorithm.java:17-30 | one cell: its single store, with a draw only at an anchor |
| Generators.AnchorKind | src/org/flood/algorithms/SquaresInitializationAlgorithm.java:19-25 | an anchor's kind takes one draw and is the layout's kind there |
| Generators.CopiedKind | src/org/flood/algorithms/SquaresInitializationAlgorithm.java:26-30 | reading the tile already stored to the left (even row) or above (odd row) gives the layout's kind for the cell |
| Layouts.AnchorRowsClosedForm | src/org/flood/algorithms/SquaresInitializationAlgorithm.java:17-18 | the first y rows hold ((y + 1) / 2) times ((n + 1) / 2) anchors |
| Layouts.RowMajorLog | src/org/flood/algorithms/SimpleInitializationAlgorithm.java:20-21 | the walk makes n times n stores |
| Layouts.CellOf | src/org/flood/algorithms/SimpleInitializationAlgorithm.java:20-21 | store number k is to column k % n of row k / n, on the board |
| Layouts.RowMajorIndex | src/org/flood/algorithms/SimpleInitializationAlgorithm.java:20-21 | cell (x, y) is store number y * n + x |
| Layouts.IndexInBounds | src/org/flood/algorithms/SimpleInitializationAlgorithm.java:20-21 | every store of an n-by-n walk lands on the board |
| Layouts.IndexOrder | src/org/flood/algorithms/SimpleInitializationAlgorithm.java:20-21 | a later store is to a later cell in row-major order |
| Layouts.RowMajorWithinGrid | src/org/flood/algorithms/SimpleInitializationAlgorithm.java:20-21 | every store of the walk is on the board |
| Layouts.IndexOfCell | src/org/flood/algorithms/SimpleInitializationAlgorithm.java:20-21 | the position of a cell in the walk lies inside the walk |
| Layouts.CellIndexUnique | src/org/flood/algorithms/SimpleInitializationAlgorithm.java:20-21 | only position y * n + x of the walk names cell (x, y) |
| Layouts.RowMajorOnce | src/org/flood/algorithms/SimpleInitializationAlgorithm.java:20-28 | each cell is stored exactly once, at position y * n + x, with its kind |
| Layouts.RowMajorOrdered | src/org/flood/algorithms/SquaresInitializationAlgorithm.java:15-16 | the walk's stores come in strictly increasing row-major order |
| Layouts.RowStores | src/org/flood/algorithms/SimpleInitializationAlgorithm.java:21-29 | the first x stores of a row: x of them, all on the board |
| Layouts.RowStoresAt | src/org/flood/algorithms/SimpleInitializationAlgorithm.java:21-29 | the t-th store of row y is to (t, y), with that cell's kind |
| Layouts.RowsStores | src/org/flood/algorithms/SimpleInitializationAlgorithm.java:20-30 | the stores of the first y rows all land on the board |
| Layouts.RowStoresKind | src/org/flood/algorithms/SimpleInitializationAlgorithm.java:21-29 | within a row, the cells already passed show their own kind and no other cell is touched |
| Layouts.RowsStoresKind | src/org/flood/algorithms/SimpleInitializationAlgorithm.java:20-30 | after y rows exactly the cells of those rows are stored, each with its kind |
| Layouts.RowsStep | src/org/flood/algorithms/SimpleInitializationAlgorithm.java:20-30 | the kinds after one more row follow from the kinds before it and those of the row |
| Layouts.WalkKind | src/org/flood/algorithms/SquaresInitializationAlgorithm.java:15-31 | part way through the walk, the cells already passed show their kinds and the rest are not yet stored (what Squares reads when it copies) |
| Layouts.WalkResult | src/org/flood/algorithms/SimpleInitializationAlgorithm.java:20-30 | after the whole walk every cell is stored and shows the generator's kind, whatever the board held before |
| Layouts.WalkIsRowMajor | src/org/flood/algorithms/SimpleInitializationAlgorithm.java:20-30 | the nested loops make exactly the stores of the row-major walk |
| Layouts.RowsPrefixStep | src/org/flood/algorithms/SimpleInitializationAlgorithm.java:20-30 | one more row is the next n stores of the row-major walk |
| Layouts.RowMajorRow | src/org/flood/algorithms/SimpleInitializationAlgorithm.java:21-29 | row y of the nested loops is the stretch of the walk from store y * n on |
| Layouts.RowMajorCell | src/org/flood/algorithms/SimpleInitializationAlgorithm.java:21-28 | store y * n + x of the walk is the store to (x, y) with its kind |
| Layouts.SimpleKinds | src/org/flood/algorithms/SimpleInitializationAlgorithm.java:23-27 | a Simple cell is water exactly when its draw says water, and hill exactly when it does not; as written in `initialize` it is water regardless |
| Layouts.KindAt | src/org/flood/algorithms/SquaresInitializationAlgorithm.java:15-31 | the kind the Simple or Squares walk gives a cell, from its own draw or its block anchor's |
| Layouts.SquaresAnchor | src/org/flood/algorithms/SquaresInitializationAlgorithm.java:17-25 | an anchor is water exactly when its own draw, numbered by the anchors before it, says water |
| Layouts.SquaresCopies | src/org/flood/algorithms/SquaresInitializationAlgorithm.java:26-30 | an odd cell of an even row has its left neighbour's kind, a cell of an odd row has the kind of the cell above, so every cell has its block anchor's kind |
| Layouts.SameAnchor | src/org/flood/algorithms/SquaresInitializationAlgorithm.java:15-31 | two cells of the same 2-by-2 block starting at even indices show the same kind |
| Layouts.SquaresKinds | src/org/flood/algorithms/SquaresInitializationAlgorithm.java:19-25 | every Squares cell is water or hill |
| Layouts.SquaresAnchorDrawsIncrease | src/org/flood/algorithms/SquaresInitializationAlgorithm.java:17-25 | distinct anchors use distinct draws, a later anchor a later draw |
| Layouts.AnchorsInEvenRow | src/org/flood/algorithms/SquaresInitializationAlgorithm.java:17-18 | the draws used before column x of an even row: the full anchor rows above, then those of the row |
| Layouts.AnchorsStep | src/org/flood/algorithms/SquaresInitializationAlgorithm.java:17-30 | one more cell uses a draw exactly when it is an anchor |
| Layouts.AnchorsNextRow | src/org/flood/algorithms/SquaresInitializationAlgorithm.java:15-16 | the draws at the end of a row are those at the start of the next |
| Layouts.SimpleCellStep | src/org/flood/algorithms/SimpleInitializationAlgorithm.java:22-28 | one more cell appends the store its draw decides (water on both outcomes as written in `initialize`) |
| Layouts.RowStartIsProduct | src/org/flood/algorithms/SimpleInitializationAlgorithm.java:20-23 | row y starts after y * n draws |
| ComplexLayout.NotDiagonalNeighbors | src/org/flood/algorithms/ComplexInitializationAlgorithm.java:107-126 | AssertionError exactly when the board is narrower or lower than 2 |
| ComplexLayout.NotDiagonalNeighborsValues | src/org/flood/algorithms/ComplexInitializationAlgorithm.java:112-125 | on a board of at least 2-by-2 the count is 4, 6 or 8: 8 exactly inside, 4 exactly in a corner |
| ComplexLayout.EdgeRuleCount | src/org/flood/TileMatrix.java:184-196 | the in-class count of candidates: 4 at a corner block, 6 on an edge, 8 inside |
| ComplexLayout.SideCount | src/org/flood/algorithms/ComplexInitializationAlgorithm.java:33-44 | the candidates a block's scan really meets: between 0 and 8, and at least one on a board of side 3 or more |
| ComplexLayout.Count | src/org/flood/algorithms/ComplexInitializationAlgorithm.java:31-32 | the in-class and pluggable counts are 4, 6 or 8; the exact count is at least one on a board of side 3 or more |
| ComplexLayout.EdgeRuleAgrees | src/org/flood/TileMatrix.java:184-196 | on a board of even side, the in-class edge test gives what `calculateNotDiagonalNeighbors` gives, because a block index is never `length - 1` |
| ComplexLayout.CountsAgreeInside | src/org/flood/algorithms/ComplexInitializationAlgorithm.java:113-124 | away from the last block row and column the count is exact; at the last block it is 8 against 4 real candidates |
| ComplexLayout.SpreadTargetFacts | src/org/flood/algorithms/ComplexInitializationAlgorithm.java:136-170 | the spread lands on the board, next to (x, y), in the preferred direction whenever that neighbour is on the board |
| ComplexLayout.SpreadTarget | src/org/flood/algorithms/ComplexInitializationAlgorithm.java:136-170 | the neighbour a spread reaches: the one in the preferred direction when it is on the board, else the fallback the `switch` names |
| ComplexLayout.SpreadWrites | src/org/flood/TileMatrix.java:279-314 | the stores of one spread: one at its target, or with fall-through every case from the direction's on |
| ComplexLayout.FallWrites | src/org/flood/TileMatrix.java:280-313 | with fall-through, the case of rank r runs with every case after it: 4 - r stores |
| ComplexLayout.FallWritesAt | src/org/flood/TileMatrix.java:280-313 | the k-th fall-through store is the case of rank r + k |
| ComplexLayout.FallWritesStep | src/org/flood/TileMatrix.java:280-313 | falling through from one case is its single store followed by the fall-through from the next case |
| ComplexLayout.FallWritesLast | src/org/flood/TileMatrix.java:305-312 | the last case stores once |
| ComplexLayout.SpreadWritesFacts | src/org/flood/algorithms/ComplexInitializationAlgorithm.java:136-171 | every spread store is water next to (x, y) on the board; without fall-through exactly one, in the preferred direction or its fallback |
| ComplexLayout.FallthroughStoresFour | src/org/flood/TileMatrix.java:280-313 | as written, a westward spread from an inner cell floods all four neighbours |
| ComplexLayout.CellStepWater | src/org/flood/algorithms/ComplexInitializationAlgorithm.java:38-75 | one step of a water block's scan stores only water, on the board |
| ComplexLayout.CellStepSettles | src/org/flood/algorithms/ComplexInitializationAlgorithm.java:44-75 | one step picks at most once, and not at all once `spreading` is 0 |
| ComplexLayout.CellStep | src/org/flood/algorithms/ComplexInitializationAlgorithm.java:38-75 | one cell of a water block's scan: a block cell becomes water, a margin candidate is counted down, drawn and possibly picked, anything else is skipped |
| ComplexLayout.RowScan | src/org/flood/algorithms/ComplexInitializationAlgorithm.java:36-79 | the scan's inner loop over one row of the window, columns -1 to 2 |
| ComplexLayout.WindowScan | src/org/flood/algorithms/ComplexInitializationAlgorithm.java:33-81 | the scan's outer loop, rows -1 to 2, rows off the board skipped |
| ComplexLayout.RowScanWater | src/org/flood/algorithms/ComplexInitializationAlgorithm.java:36-79 | a row of the scan stores only water, on the board |
| ComplexLayout.RowScanSettles | src/org/flood/algorithms/ComplexInitializationAlgorithm.java:36-79 | a row of the scan picks at most once |
| ComplexLayout.WindowScanWater | src/org/flood/algorithms/ComplexInitializationAlgorithm.java:33-81 | every store a water block makes is water, on the board |
| ComplexLayout.WindowScanSettles | src/org/flood/algorithms/ComplexInitializationAlgorithm.java:33-81 | a water block picks at most one candidate, because `spreading` is zeroed after a pick |
| ComplexLayout.RowScanCovers | src/org/flood/algorithms/ComplexInitializationAlgorithm.java:36-41 | a row of the scan stores water in the block's cells of that row |
| ComplexLayout.WindowScanCovers | src/org/flood/algorithms/ComplexInitializationAlgorithm.java:33-41 | a water block stores water in every cell of its 2-by-2 block on the board |
| ComplexLayout.WindowScanCoversCell | src/org/flood/algorithms/ComplexInitializationAlgorithm.java:33-41 | the same, for one cell of a row still to be scanned |
| ComplexLayout.RowCandidatesOf | src/org/flood/algorithms/ComplexInitializationAlgorithm.java:40-44 | a row meets one candidate at each end of the block's rows, and up to two above and below |
| ComplexLayout.CandidatesCount | src/org/flood/algorithms/ComplexInitializationAlgorithm.java:33-44 | the candidates the scan meets are exactly the exact count |
| ComplexLayout.NotCandidateStep | src/org/flood/algorithms/ComplexInitializationAlgorithm.java:40-44 | a cell that is not a candidate changes no counter and makes no draw |
| ComplexLayout.RowScanPicks | src/org/flood/algorithms/ComplexInitializationAlgorithm.java:44-75 | while nothing is picked, `remainingNeighbors` counts the candidates ahead; a row either picks once or passes the count on |
| ComplexLayout.WindowScanPicks | src/org/flood/algorithms/ComplexInitializationAlgorithm.java:33-81 | the same from any row of the window on |
| ComplexLayout.WindowRowPicks | src/org/flood/algorithms/ComplexInitializationAlgorithm.java:33-81 | the same for a window row on the board |
| ComplexLayout.ExactCountPicksOnce | src/org/flood/algorithms/ComplexInitializationAlgorithm.java:44-75 | counted exactly, a block with water to spread picks exactly one candidate, because the last one is forced |
| ComplexLayout.RowScanOvercounted | src/org/flood/algorithms/ComplexInitializationAlgorithm.java:44-75 | counted too high and with no zero draw, a row picks nothing |
| ComplexLayout.WindowScanOvercounted | src/org/flood/algorithms/ComplexInitializationAlgorithm.java:33-81 | counted too high and with no zero draw, a whole block picks nothing |
| ComplexLayout.MiscountLosesSpread | src/org/flood/algorithms/ComplexInitializationAlgorithm.java:113-124 | the last block of an even board is counted 8 with 4 candidates, so with no zero draw of `nextInt(8)` it spreads nothing |
| ComplexLayout.HillBlockNext | src/org/flood/algorithms/ComplexInitializationAlgorithm.java:83-93 | one pass of the hill branch's outer loop: its row, when on the board, then the rest |
| ComplexLayout.HillRow | src/org/flood/algorithms/ComplexInitializationAlgorithm.java:86-91 | the hill branch's inner loop: a hill at each cell of the row on the board |
| ComplexLayout.HillBlock | src/org/flood/algorithms/ComplexInitializationAlgorithm.java:83-93 | the hill branch's outer loop over the block's two rows |
| ComplexLayout.HillRowFacts | src/org/flood/algorithms/ComplexInitializationAlgorithm.java:86-91 | a hill row only appends hill stores inside its block, on the board |
| ComplexLayout.HillBlockStores | src/org/flood/algorithms/ComplexInitializationAlgorithm.java:82-93 | a non-water block stores only hill, only in its 2-by-2 block, only on the board |
| ComplexLayout.HillRowGrows | src/org/flood/algorithms/ComplexInitializationAlgorithm.java:86-91 | a hill row only appends stores |
| ComplexLayout.HillBlockGrows | src/org/flood/algorithms/ComplexInitializationAlgorithm.java:82-93 | a hill block only appends stores |
| ComplexLayout.HillRowReaches | src/org/flood/algorithms/ComplexInitializationAlgorithm.java:86-91 | a hill row stores at each of its cells on the board |
| ComplexLayout.HillBlockReaches | src/org/flood/algorithms/ComplexInitializationAlgorithm.java:82-93 | a non-water block stores at every cell of its 2-by-2 block on the board |
| ComplexLayout.Spreading | src/org/flood/algorithms/ComplexInitializationAlgorithm.java:23-30 | `spreading` is 2 below 0.2, 1 below 0.4, and otherwise what it was before the draw |
| ComplexLayout.BlockWindow | src/org/flood/algorithms/ComplexInitializationAlgorithm.java:31-33 | the scan of the block at (i, j) is a valid window with the generator's count |
| ComplexLayout.StartScan | src/org/flood/algorithms/ComplexInitializationAlgorithm.java:23-33 | the state a water block's scan starts from: `spreading` from the spread draw, `remainingNeighbors` the count |
| ComplexLayout.BlockStep | src/org/flood/algorithms/ComplexInitializationAlgorithm.java:22-94 | one block: a "water?" draw, then the water scan or the hill stores |
| ComplexLayout.BlockRow | src/org/flood/algorithms/ComplexInitializationAlgorithm.java:20-95 | the inner block loop: blocks at even columns from i on |
| ComplexLayout.Blocks | src/org/flood/algorithms/ComplexInitializationAlgorithm.java:19-96 | the outer block loop: block rows at even rows from j on |
| ComplexLayout.BlockStepExtends | src/org/flood/algorithms/ComplexInitializationAlgorithm.java:22-94 | a block stores only water or hill, on the board |
| ComplexLayout.BlockStepReaches | src/org/flood/algorithms/ComplexInitializationAlgorithm.java:22-94 | a block stores at every cell of its 2-by-2 block on the board |
| ComplexLayout.BlockRowExtends | src/org/flood/algorithms/ComplexInitializationAlgorithm.java:20-95 | a block row stores only water or hill, on the board |
| ComplexLayout.BlockStepGrows | src/org/flood/algorithms/ComplexInitializationAlgorithm.java:22-94 | a block only appends stores |
| ComplexLayout.BlockRowGrows | src/org/flood/algorithms/ComplexInitializationAlgorithm.java:20-95 | a block row only appends stores |
| ComplexLayout.BlockRowKeeps | src/org/flood/algorithms/ComplexInitializationAlgorithm.java:20-95 | a block row keeps every cell already stored as stored |
| ComplexLayout.BlockRowNext | src/org/flood/algorithms/ComplexInitializationAlgorithm.java:20 | one block of a row, then the rest of the row from the state it leaves |
| ComplexLayout.BlockRowHere | src/org/flood/algorithms/ComplexInitializationAlgorithm.java:20-95 | a block row stores at every cell of its first block |
| ComplexLayout.BlockRowReaches | src/org/flood/algorithms/ComplexInitializationAlgorithm.java:20-95 | a block row stores at every cell of its two rows from its first column on |
| ComplexLayout.BlockRowLater | src/org/flood/algorithms/ComplexInitializationAlgorithm.java:20-95 | a block row reaches cells past its first block through its later blocks |
| ComplexLayout.BlocksExtends | src/org/flood/algorithms/ComplexInitializationAlgorithm.java:19-96 | the generation stores only water or hill, on the board |
| ComplexLayout.BlocksGrow | src/org/flood/algorithms/ComplexInitializationAlgorithm.java:19-96 | the generation only appends stores |
| ComplexLayout.BlocksKeep | src/org/flood/algorithms/ComplexInitializationAlgorithm.java:19-96 | the generation keeps every cell already stored as stored |
| ComplexLayout.BlocksNext | src/org/flood/algorithms/ComplexInitializationAlgorithm.java:19 | one block row, then the rest of the generation from the state it leaves |
| ComplexLayout.BlocksHere | src/org/flood/algorithms/ComplexInitializationAlgorithm.java:19-96 | the generation stores at every cell of its first block row |
| ComplexLayout.BlocksReach | src/org/flood/algorithms/ComplexInitializationAlgorithm.java:19-96 | the generation stores at every cell from its first block row on |
| ComplexLayout.BlocksLater | src/org/flood/algorithms/ComplexInitializationAlgorithm.java:19-96 | the generation reaches later block rows through the rows after the first |
| ComplexLayout.GenerateNoBeach | src/org/flood/algorithms/ComplexInitializationAlgorithm.java:19-96 | a whole Complex generation stores only water or hill, reaches every cell, and leaves no beach whatever the board held |
| ComplexLayout.CarriedSpread | src/org/flood/TileMatrix.java:165 | in the in-class generator, a water block whose spread draw is 0.4 or more still scans with an earlier block's unspent `spreading`, where the pluggable one starts from 0 |
| ComplexLayout.CorrectedBlockSpreads | src/org/flood/algorithms/ComplexInitializationAlgorithm.java:23-75 | counted exactly, with `spreading` local to the block, a water block spreads exactly once when its draw is below 0.4 and not at all otherwise, leaving nothing to carry over |
| ComplexGenerator.DrawsOf | src/org/flood/algorithms/ComplexInitializationAlgorithm.java:22-46 | the block model reads the same three draw streams as the random source |
| ComplexGenerator.SpreadWaterOnce | src/org/flood/algorithms/ComplexInitializationAlgorithm.java:136-171 | one water store at the preferred neighbour or its fallback |
| ComplexGenerator.SpreadWaterSwitch | src/org/flood/TileMatrix.java:279-314 | the `switch` without `break` stores the case of the direction and every case after it |
| ComplexGenerator.FallCase | src/org/flood/TileMatrix.java:280-313 | one case of the switch stores once and falls through to the next |
| ComplexGenerator.HillRowStores | src/org/flood/algorithms/ComplexInitializationAlgorithm.java:84-92 | one row of the hill branch makes exactly the hill row's stores |
| ComplexGenerator.HillStores | src/org/flood/algorithms/ComplexInitializationAlgorithm.java:82-93 | the hill branch makes exactly the hill block's stores |
| ComplexGenerator.HillPass | src/org/flood/algorithms/ComplexInitializationAlgorithm.java:83-93 | one pass of the hill branch's outer loop |
| ComplexGenerator.PickStores | src/org/flood/algorithms/ComplexInitializationAlgorithm.java:48-67 | a pick stores water there and, when `spreading` is 2, spreads once more in the preferred direction |
| ComplexGenerator.CellStepIdle | src/org/flood/algorithms/ComplexInitializationAlgorithm.java:38-44 | off the board, at a corner, or with nothing to spread, a margin cell changes nothing |
| ComplexGenerator.CellStepCentre | src/org/flood/algorithms/ComplexInitializationAlgorithm.java:40-41 | a cell of the block itself becomes water |
| ComplexGenerator.CellStepPick | src/org/flood/algorithms/ComplexInitializationAlgorithm.java:46-70 | a pick, with the draw made only when `remainingNeighbors` is not 1, zeroes `spreading` |
| ComplexGenerator.CellStepPass | src/org/flood/algorithms/ComplexInitializationAlgorithm.java:46-74 | a candidate not picked uses one draw and decrements `remainingNeighbors` |
| ComplexGenerator.ScanCell | src/org/flood/algorithms/ComplexInitializationAlgorithm.java:37-77 | the inner scan loop's body does exactly what the scan model's step does, on the matrix and the draw cursor |
| ComplexGenerator.RowScanStores | src/org/flood/algorithms/ComplexInitializationAlgorithm.java:36-78 | the inner scan loop over a row does exactly the row scan |
| ComplexGenerator.WaterScan | src/org/flood/algorithms/ComplexInitializationAlgorithm.java:33-81 | the scan of a water block does exactly the window scan, with `remainingNeighbors` starting at the count |
| ComplexGenerator.ScanPass | src/org/flood/algorithms/ComplexInitializationAlgorithm.java:34-80 | one pass of the scan's outer loop, rows off the board skipped |
| ComplexGenerator.BlockStepWater | src/org/flood/algorithms/ComplexInitializationAlgorithm.java:22-81 | a water block: one "water?" draw, one spread draw and the scan |
| ComplexGenerator.BlockStepHill | src/org/flood/algorithms/ComplexInitializationAlgorithm.java:82-93 | a hill block: one "water?" draw and the hill stores; `spreading` and the other draws untouched |
| ComplexGenerator.ComplexBlock | src/org/flood/algorithms/ComplexInitializationAlgorithm.java:21-94 | one pass of the inner block loop does exactly one block step of the model |
| ComplexGenerator.BlockInRow | src/org/flood/algorithms/ComplexInitializationAlgorithm.java:20-95 | one pass of the inner block loop keeps the rest of the row as the model predicts |
| ComplexGenerator.ComplexRow | src/org/flood/algorithms/ComplexInitializationAlgorithm.java:20-95 | the inner block loop does exactly one block row of the model |
| ComplexGenerator.ComplexFill | src/org/flood/algorithms/ComplexInitializationAlgorithm.java:16-97 | both Complex generators make exactly the stores and draws of `Blocks`; the matrix ends full, every tile water or hill, each showing the last kind stored there |
| ComplexGenerator.RowInBlocks | src/org/flood/algorithms/ComplexInitializationAlgorithm.java:19-96 | one pass of the outer block loop keeps the rest of the generation as the model predicts |
| ComplexGenerator.BlockRows | src/org/flood/algorithms/ComplexInitializationAlgorithm.java:19-96 | the outer block loop does exactly the whole generation of the model |
| ComplexGenerator.FillDone | src/org/flood/algorithms/ComplexInitializationAlgorithm.java:19-96 | once every store of the generation is made, the matrix is full, water or hill everywhere, each cell showing its last store |
| Initialization.NamesDistinct | src/org/flood/algorithms/SimpleInitializationAlgorithm.java:13-15 | the generators' names ("Simple", "Squares", "Complex") tell them apart |
| Initialization.NameIsTitle | src/org/flood/algorithms/SquaresInitializationAlgorithm.java:37-39 | each generator's name is already in title case |
| Initialization.Name | src/org/flood/algorithms/SimpleInitializationAlgorithm.java:13-15 | `getName()` of each generator: "Simple", "Squares", "Complex" |
| Initialization.AlgorithmOf | src/org/flood/TileMatrix.java:123-265 | the generator the mode's `switch` case runs |
| Initialization.Generated | src/org/flood/TileMatrix.java:123-265 | the board a generator leaves, cell by cell, as its layout or its block log decides |
| Initialization.IntsAfter | src/org/flood/algorithms/ComplexInitializationAlgorithm.java:46 | the integer cursor after a generator: only Complex draws `nextInt` |
| Initialization.WaterAfter | src/org/flood/TileMatrix.java:123-265 | the "water?" cursor after a generator: one draw per cell for Simple, per anchor for Squares, per block for Complex |
| Initialization.SpreadAfter | src/org/flood/algorithms/ComplexInitializationAlgorithm.java:25-30 | the spread-amount cursor after a generator: only Complex draws spread amounts |
| Initialization.GeneratedNoBeach | src/org/flood/TileMatrix.java:123-265 | every generator leaves only water and hill |
| Initialization.InClassSimpleAllWater | src/org/flood/TileMatrix.java:125-136 | as written, the in-class SIMPLE branch makes every cell water, so the repair never fires |
| Initialization.Repaired | src/org/flood/TileMatrix.java:328-335 | the repair turns one drawn cell to water only when there is none |
| Initialization.RepairedHasWater | src/org/flood/TileMatrix.java:328-335 | after the repair there is water; a board with water is left alone; a dry board gets exactly one water tile |
| Initialization.RepairedClassified | src/org/flood/TileMatrix.java:267-269 | classifying a repaired beach-free board keeps its water count, at least one, and gives a consistent shoreline: the invariant `initialize` leaves |
| Initialization.RunAlgorithm | src/org/flood/algorithms/InitializationAlgorithm.java:14 | running a pluggable generator leaves the board `Generated` by it from the current draws, with the integer cursor past its draws |
| Initialization.Generate | src/org/flood/TileMatrix.java:123-266 | the generator chosen by the mode leaves the board `Generated` by it from the current draws, and moves each draw cursor past exactly the draws that generator makes |
| Initialization.GenerateSimple | src/org/flood/algorithms/SimpleInitializationAlgorithm.java:18-31 | the Simple generator leaves its generated board and uses n times n "water?" draws and no other draw |
| Initialization.GenerateSquares | src/org/flood/algorithms/SquaresInitializationAlgorithm.java:13-34 | the Squares generator leaves its generated board and uses one "water?" draw per anchor and no other draw |
| Initialization.GenerateComplex | src/org/flood/algorithms/ComplexInitializationAlgorithm.java:16-97 | a Complex generator leaves its generated board, with each cursor where the block model's run leaves it |
| Initialization.IsGenerated | src/org/flood/TileMatrix.java:123-266 | a board agreeing with the generator's kinds cell by cell is the generated board |
| Initialization.Initialize | src/org/flood/TileMatrix.java:122-270 | after `initialize` the board is the classified, repaired, generated board; every tile the shoreline pass makes a beach is a new tile holding a beach's population; the draw cursors are past the generator's draws and, for a dry board, the repair's two integer draws; the matrix invariant holds: at least one water tile, count current, every beach borders water and no hill does |
| Initialization.Finish | src/org/flood/TileMatrix.java:267-269 | the count, the repair and `updateTiles(true)` turn a beach-free board into a valid matrix showing `Classify(Repaired(board))`; two integer draws are used exactly when the board was dry; the log gains one store per new beach, each of those positions holds a new tile with a beach's population, and every other position keeps its tile |
| Initialization.CountAndRepair | src/org/flood/TileMatrix.java:267-268 | the recount then the repair: the board becomes `Repaired(board)`, the count is current, and two integer draws are used exactly when the board was dry |
| Initialization.Reinitialize | src/org/flood/TileMatrix.java:341-343 | `reinitialize` is `initialize` on a valid matrix, with the same board, the same new beach tiles and the same draws |
| Initialization.NewTileMatrix | src/org/flood/TileMatrix.java:21-25 | `new TileMatrix(size, mode)` is a fresh valid matrix of the size's side and the mode's generator, showing the initialized board, its new beach tiles holding a beach's population |
| Randomness.Random.constructor | src/org/flood/algorithms/SimpleInitializationAlgorithm.java:23 | a random source with the given pre-decided streams, none used yet |
| Randomness.Random.NextIsWater | src/org/flood/algorithms/SimpleInitializationAlgorithm.java:23 | the next "water?" test is the next value of its stream |
| Randomness.Random.NextSpread | src/org/flood/algorithms/ComplexInitializationAlgorithm.java:25-30 | the next spread-amount draw is the next value of its stream |
| Randomness.Random.NextInt | src/org/flood/TileMatrix.java:330-331 | `nextInt(bound)` is in [0, bound) and uses one draw |
| Tiles.Tile.constructor | src/org/flood/Tile.java:12-14 | a new tile has exactly the given kind, and a fresh population of that kind's suggested size |
| Tiles.Tile.GetType | src/org/flood/Tile.java:16-18 | returns the kind |
| Tiles.Tile.SetType | src/org/flood/Tile.java:20-22 | changes the kind and nothing else |
| Tiles.BeachExcludesWater | src/org/flood/Tile.java:24-30 | `isBeach` holds exactly for beach, `isWater` exactly for water, never both |
| TileTypes.SuggestedPopulation | src/org/flood/TileType.java:10-16 | each kind suggests a non-negative population, zero exactly for water |
| Populations.Clamp | src/org/flood/Population.java:27-29 | the larger of the value and 0: never negative, never below the value, and either the value or 0 |
| Populations.ClampIdempotent | src/org/flood/Population.java:27-29 | clamping a stored value again changes nothing |
| Populations.Population.constructor | src/org/flood/Population.java:13 | a new population holds 0 |
| Populations.Population.SetTotal | src/org/flood/Population.java:27-29 | stores `max(t, 0)`, whatever was there before, so setting a value twice is the same as setting it once |
| Populations.Population.GetTotal | src/org/flood/Population.java:18-20 | the stored total, never negative |
| Populations.Population.MakePopulation | src/org/flood/Population.java:12-16 | a fresh population holding the kind's suggested number of people |
| CircularQueues.Rotated | src/org/flood/CircularQueue.java:15-19 | a poll moves the head to the back, keeping the length; on an empty queue it leaves one null |
| CircularQueues.RotatedTimesMovesPrefix | src/org/flood/CircularQueue.java:15-19 | k polls of a non-empty queue move its first k elements to the back, in order |
| CircularQueues.FullRotationRestores | src/org/flood/CircularQueue.java:15-19 | polling a queue as many times as its length restores it |
| CircularQueues.CircularQueue.constructor | src/org/flood/CircularQueue.java:13 | a new queue is empty |
| CircularQueues.CircularQueue.Poll | src/org/flood/CircularQueue.java:15-19 | returns the old head (null on an empty queue) and leaves the queue rotated |
| CircularQueues.CircularQueue.Add | src/org/flood/CircularQueue.java:21-23 | appends at the end, earlier elements unchanged |
| Utils.ToUpper | src/org/flood/Utils.java:19 | lower-case letters map to their capitals, which lower back to them; nothing else moves |
| Utils.ToLower | src/org/flood/Utils.java:19 | capitals map to lower-case letters; nothing else moves |
| Utils.LowerAll | src/org/flood/Utils.java:19 | each character lowered, length kept |
| Utils.ToTitle | src/org/flood/Utils.java:18-20 | StringIndexOutOfBoundsException exactly on the empty string; otherwise same length, first character upper-cased, the rest lower-cased |
| Utils.ToTitleIdempotent | src/org/flood/Utils.java:18-20 | title-casing a title-cased string changes nothing |

## Left out

- The Swing user interface is not modelled: `TilesPanel`, `GamePanel`, `Game`, `Configuration` and `Launcher` (drawing, mouse handling, menus, dialogs). `TilesPanel`'s older copy of the flood and generation code is left out with it.
- `Theme`, `GameData` and `GameConstants` are colour tables and constants. `HighlightMode` is an enum with no behaviour.
- The `InitializationAlgorithms` factory is the constant `Initialization.BestAlgorithm` (Complex). The interface is the datatype `Initialization.Algorithm`.
- Randomness is pre-decided. `nextDouble() < WATER_RATE` and the 0.2 and 0.4 thresholds are draws whose outcome is given; no floating point is modelled.
- The random draws come from three separate streams, one per kind of draw. Java interleaves them in one generator, so the model does not capture the order of draws between kinds.
- `Tile.getPeopleCount` is not modelled: it is the square root of a random integer (floating point and randomness, used only for display).
- The visited list of a flood and the selection `getSelection` returns hold coordinates, not `Tile` references. The model instead proves that no tile object is stored at two positions, so the two views agree.
- Matrix.TileMatrix.GetSelection: returns the selected positions rather than the `Tile` objects at them.
- Java's recursion depth and `StackOverflowError` are not modelled; the flood is proved to terminate.
- Initialization.Initialize: its `modifies` clause names every `Tile` object, not only those the matrix stores. The generators' contracts do not say that each stored tile is new, so the narrower frame could not be proved within the solver's budget. `Finish`, which runs on the generated board, is framed by the stored tiles only.
- Initialization.Initialize: states the head counts of the new beach tiles only. Each tile a generator stores is made with its kind's suggested population, and the repair's `setType` keeps it, but these counts are not carried through the generators' contracts.
- Initialization.Reinitialize: same frame as `Initialize`.
- Initialization.NewTileMatrix: same frame as `Initialize`.
- Utils.ToUpper: models case mapping for ASCII letters only, not Unicode case mapping.
- Utils.ToLower: models case mapping for ASCII letters only, not Unicode case mapping.
- Utils.ToTitle: uses ASCII case mapping, so it preserves the length, which Java's Unicode `toUpperCase` need not.
- `Dimension` and `GameSize` are datatypes. The pixel size of a tile is presentation and is left out.
- The generators need a board of side at least 2 (3 for the corrected exact count). Every `GameSize` has a side of at least 10.

## Findings

| source | as written | input that shows it | evidently intended | confidence | as-written member | corrected member |
|---|---|---|---|---|---|---|
| src/org/flood/TileMatrix.java:128-132 | the SIMPLE branch of `initialize` stores water when the draw says water and also when it does not | any draw sequence, e.g. every "water?" draw false: every cell is still water | water exactly when the draw says water, hill otherwise, as SimpleInitializationAlgorithm does | not executed | Initialization.InClassSimpleAllWater | Layouts.SimpleKinds |
| src/org/flood/TileMatrix.java:280-313 | `spreadWater`'s `switch` has no `break`, so a spread runs its own case and every later one | a spread towards the west from an inner cell (0 < x < n - 1, 0 < y < n - 1): it floods the west, east, north and south neighbours | one store, at the neighbour in the given direction or its fallback | not executed | ComplexLayout.FallthroughStoresFour | ComplexLayout.SpreadWritesFacts |
| src/org/flood/algorithms/ComplexInitializationAlgorithm.java:113-124 | the margin count tests `i < width - 1` and `j < height - 1` on the block's top-left cell, so the last block of an even board counts 8 candidates where the scan meets 4; the in-class edge test (src/org/flood/TileMatrix.java:184-196) gives the same numbers | n = 4, the block at (2, 2), `spreading` not 0, and no `nextInt(8)` draw equal to 0: the forced last pick never comes and no spread happens | the count of candidates the scan meets, so that the last candidate is always picked | not executed | ComplexLayout.MiscountLosesSpread | ComplexLayout.CorrectedBlockSpreads |
| src/org/flood/TileMatrix.java:165 | `spreading` is declared outside the block loops, so an unspent spread is carried into later blocks, including those whose own draw is 0.4 or more | a water block whose spread was lost as above, followed by a water block whose spread draw is 0.4 or more: the second still spreads | `spreading` set from each block's own draw, starting at 0, as ComplexInitializationAlgorithm.java:23 does | not executed | ComplexLayout.CarriedSpread | ComplexLayout.CorrectedBlockSpreads |
