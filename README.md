# Battlesnake move engine — a Dafny model

This project models the decision core of a TypeScript Battlesnake bot. On every turn the
bot receives the game request. It then:

- marks every cell of a square board with a category, its *semantic grid*: kill zones, space,
  tails, food, future-2 cells, near-wall cells, warnings, dangers, bodies and heads;
- picks a behaviour: eating when health is low, otherwise hunting when it is the biggest snake
  or a smaller snake exists, and eating as the fallback;
- scores each of the four moves for that behaviour with A* searches to the targets;
- adds a fixed sequence of biases: the base value of the next cell, tight moves, a flood fill
  of the reachable area, distance from the walls and three heuristic vectors;
- normalises the sum so that the value closest to zero becomes zero;
- answers with the direction of the highest score.

One Dafny module per source file:

- `Keys`, `Params`, `Weights`, `Types`: the constants and request records.
- `Utils`: cells, moves and distances.
- `SemanticGrid`: the `Grid` class over a two-dimensional array, and how the grid is built.
- `TurnState`: the `State` class.
- `Self`: questions about our own snake.
- `Astar`: the A* search over the grid.
- `Scores`: score vectors.
- `Search`: the scorers, the biases and the flood fill.
- `Move`: the behaviours and `addBiasesToBehaviour`.
- `Endpoint`: the move handler in `main.ts`.

The grid, the turn state and the flood fill's two marker grids are classes whose methods
update arrays in place. Score vectors are values (`seq<Number>`) where a `Number` is either
NaN or a real. The normalisation step keeps the source's in-place update on an array.

The A* search and the flood fill are specified by what they find rather than by the order in
which they find it:

- A* succeeds exactly when a path of cells under the avoid threshold joins the start to the
  destination. Its distance is the length of a path it found, and its position is the
  requested step of that path.
- The flood fill visits exactly the cells reachable from the start through admitted cells, each
  of them once. Its score is the weighted tally of those cells.

The behaviours and the endpoint are then specified by these relations: "the move is the best
slot of the normalised sum of some tight bias, some flood bias, … that the board admits".

## Model

| member | source | states |
|---|---|---|
| Keys.CategoryOrder | src/app/keys.ts:2-14 | the thirteen categories are ranked 0..12 in the order the danger thresholds rely on |
| Keys.TypeNamesCategories | src/app/keys.ts:15-29 | TYPE has one distinct name per category, indexed by the category's value |
| Keys.GridSymbolsCoverCategories | src/app/keys.ts:31 | every category has a map symbol |
| Keys.DirectionNames | src/app/keys.ts:48-54 | the four move codes are 0..3 and name "up", "down", "left", "right"; a move code is exactly a member of DIRECTIONS |
| Utils.ApplyMoveToCell | src/app/utils.ts:17-30 | UP adds one to y, DOWN subtracts one, LEFT and RIGHT change x, and any other code leaves the cell unchanged |
| Utils.ApplyOffsetToCell | src/app/utils.ts:38-40 | the result differs from the cell by exactly the offset |
| Utils.GetDistance | src/app/utils.ts:48-50 | the Manhattan distance is zero exactly for equal cells |
| Utils.DistanceMetric | src/app/utils.ts:48-50 | the distance is symmetric and satisfies the triangle inequality |
| Utils.MoveIsUnitStep | src/app/utils.ts:17-30 | every move goes one step, and different moves lead to different cells |
| Utils.AdjacentIsSomeMove | src/app/utils.ts:17-30 | every cell at distance one is reached by some move |
| Utils.CalcDirection | src/app/utils.ts:59-72 | no direction exactly for equal cells; otherwise a direction that brings a one step closer to b, horizontal first |
| Utils.CalcDirectionRoundTrip | src/app/utils.ts:59-72 | the direction from a cell to its neighbour in move m is m |
| Utils.SameCell | src/app/utils.ts:80-88 | coordinate equality is cell equality |
| Utils.ArrayIncludesCell | src/app/utils.ts:96-103 | true exactly when some element has the cell's coordinates |
| SemanticGrid.InitGrid | src/app/grid.ts:30-39 | corrected initGrid: a height x width array with every cell holding the fill value |
| SemanticGrid.InitGridAsWritten | src/app/grid.ts:30-39 | initGrid as written: each row is the JavaScript array left by filling indices 0..height-1 of a width-long array |
| SemanticGrid.JsRowFilledIffSquare | src/app/grid.ts:30-39 | a row as written is fully filled exactly when the board is square, and index j is a hole exactly when j >= height |
| SemanticGrid.InitGridHoleExample | src/app/grid.ts:34 | on a 3 x 2 board the last cell of each row is never filled |
| SemanticGrid.JsStore | src/app/grid.ts:35 | a JavaScript store past the end of an array grows it and leaves holes between |
| SemanticGrid.HeadKey | src/app/grid.ts:69-80 | another snake's head is ENEMY_HEAD exactly when it is at least our length or friendly, otherwise SMALL_HEAD |
| SemanticGrid.Future1Key | src/app/grid.ts:91-97 | the ring around a head is a kill zone for a shorter unfriendly snake, small danger for an equal one, danger otherwise |
| SemanticGrid.OffsetRings | src/app/grid.ts:98-126 | the four future-1 offsets hit exactly the cells at distance 1, and the eight future-2 offsets exactly those at distance 2 |
| SemanticGrid.BuildKeepsCategories | src/app/grid.ts:46-143 | building the grid from category values only ever writes categories |
| SemanticGrid.OccupiedCellsStayOccupied | src/app/grid.ts:67-140 | a body or head cell that is not a marked tail ends at SNAKE_BODY or above |
| SemanticGrid.FarCellsKeepBaseValue | src/app/grid.ts:67-140 | a cell off every body and more than two steps from every head keeps its edge/food value |
| SemanticGrid.FoodCanBeOverwritten | src/app/grid.ts:62-108 | a listed food can end up marked as something other than FOOD, here the small-danger ring of an equal snake |
| SemanticGrid.PerimeterCanDropBelowWallNear | src/app/grid.ts:52-133 | an edge cell can be re-marked FUTURE_2, below WALL_NEAR |
| SemanticGrid.Grid.constructor | src/app/grid.ts:17-21 | a fresh width x height grid filled with the fill value |
| SemanticGrid.Grid.OutOfBounds | src/app/grid.ts:217-219 | true exactly for cells off the board |
| SemanticGrid.Grid.NearPerimeter | src/app/grid.ts:226-228 | for a board cell: some move stays on the board and a second step the same way leaves it |
| SemanticGrid.Grid.OnPerimeter | src/app/grid.ts:235-237 | for a board cell: true exactly when some move leaves the board |
| SemanticGrid.Grid.UpdateCell | src/app/grid.ts:198-201 | writes one cell, returns it, and changes no other cell |
| SemanticGrid.Grid.CopyGridData | src/app/grid.ts:181-190 | a fresh array equal to the grid cell by cell |
| SemanticGrid.Grid.CopyGrid | src/app/grid.ts:171-175 | a fresh grid of the same size and contents, sharing no array |
| SemanticGrid.Grid.GetAll | src/app/grid.ts:244-255 | exactly the cells of the given type, in row-major order |
| SemanticGrid.Grid.MarkEdges | src/app/grid.ts:51-59 | every edge cell becomes WALL_NEAR and every other cell is unchanged |
| SemanticGrid.Grid.MarkAll | src/app/grid.ts:61-64 | the listed food cells get the mark and every other cell is unchanged |
| SemanticGrid.Grid.MarkFuture1 | src/app/grid.ts:88-114 | cells next to the head that are below DANGER get the key, and nothing else changes |
| SemanticGrid.Grid.MarkFuture2 | src/app/grid.ts:116-137 | cells two steps from the head that are at most WALL_NEAR and not FOOD become FUTURE_2, and nothing else changes |
| SemanticGrid.Grid.MarkSnake | src/app/grid.ts:67-139 | the grid after one snake is the snake layer applied to the grid before |
| SemanticGrid.Grid.BuildGrid | src/app/grid.ts:46-143 | the built grid is edges, then food, then every snake in list order, over the old values |
| TurnState.State.constructor | src/app/state.ts:14-22 | the state holds the request's parts (`FromRequest`) and a fresh width x width grid built from the request |
| Astar.NewResult | src/app/astar.ts:133-139 | the result carries the success flag; the default failure distance 9999 exceeds the cell count of every searchable board |
| Astar.NeighborsOf | src/app/astar.ts:206-217 | the neighbours of a board cell are exactly the board cells one step away, at most four and distinct |
| Astar.NewScoreCell | src/app/astar.ts:185-218 | a score cell records its cell and category, its neighbours are exactly the board cells one step away, and its predecessor marker lies off the board |
| Astar.BuildAstarScoreRow | src/app/astar.ts:174-179 | one row of fresh score cells, one per column |
| Astar.BuildAstarScoreGrid | src/app/astar.ts:172-181 | a height x width score grid with a fresh score cell for every board cell |
| Astar.SelectLowest | src/app/astar.ts:51-61 | the first open cell with the smallest f score |
| Astar.RemoveCell | src/app/astar.ts:74 | the open set without the cell, keeping every other cell |
| Astar.PrioritiesBelowSentinel | src/app/astar.ts:51-52 | on a board within the searchable size, every open f score stays below the 9999 start value |
| Astar.Walkback | src/app/astar.ts:150-168 | follows the previous links to a path from start to destination; distance is its length, position its first step, or the start when asked |
| Astar.QueueNeighbor | src/app/astar.ts:89-116 | a passable, unclosed neighbour is queued if it was not, and is re-parented through the current cell with cost g + 1 unless it is queued with a strictly lower cost, so ties re-parent; any other neighbour changes nothing |
| Astar.VisitNeighbor | src/app/astar.ts:79-118 | the search ends exactly at the destination; any other neighbour follows the re-parenting rule above and the search invariant still holds |
| Astar.Expand | src/app/astar.ts:77-119 | expanding a closed cell either ends the search or keeps the search invariant |
| Astar.SearchStep | src/app/astar.ts:50-119 | one iteration either finds a path or closes one more cell and keeps the search invariant |
| Astar.ExhaustedMeansUnreachable | src/app/astar.ts:121-123 | when the open set runs empty, no path under the threshold exists |
| Astar.InitialScores | src/app/astar.ts:40-46 | the fresh score grid with only the start open satisfies the search invariant |
| Astar.Search | src/app/astar.ts:42-123 | success exactly with a found path; failure returns the default result and means no path exists |
| Astar.Astar | src/app/astar.ts:23-124 | off-board endpoints fail; equal endpoints give distance 0 at the start; otherwise success exactly when the destination is reachable, with distance at least the Manhattan distance and equal to the length of a path, whose first step (or start) is the position |
| Scores.BaseScoreForCell | src/app/scores.ts:14-40 | -200 exactly for off-board cells and values above DANGER; positive exactly for board cells below WALL_NEAR |
| Scores.BaseScoreTable | src/app/scores.ts:14-40 | the weight for each category, case by case |
| Scores.CombineSlot | src/app/scores.ts:52-57 | the sum of two numbers, and 0 when either is NaN |
| Scores.CombineScores | src/app/scores.ts:48-66 | the combined vector of the two inputs |
| Scores.CombinedSlots | src/app/scores.ts:48-66 | four numeric slots, each the sum of the inputs' slots or 0 when one is missing or NaN |
| Scores.CombineCommutes | src/app/scores.ts:48-66 | combining is symmetric in its two arguments |
| Scores.CombineOrderMatters | src/app/scores.ts:48-66 | combining is not associative once a NaN takes part |
| Scores.ClosestToZero | src/app/scores.ts:76-84 | the first slot with the smallest magnitude below 9999, or none when every magnitude is at least 9999 |
| Scores.Shift | src/app/scores.ts:86-88 | every numeric slot lowered by the same amount, NaN kept |
| Scores.NormalizeScores | src/app/scores.ts:74-95 | the array becomes the normalised vector of its old contents, in place |
| Scores.NormalizedKeepsDifferences | src/app/scores.ts:74-95 | normalising keeps NaN slots and every difference and ordering between numeric slots |
| Scores.NormalizedHasZero | src/app/scores.ts:74-95 | a vector with a slot below 9999 in magnitude normalises to one with a zero slot |
| Scores.NormalizedFixesZero | src/app/scores.ts:85 | a vector that already has a zero slot is unchanged |
| Scores.BestOf | src/app/scores.ts:104-111 | the first slot holding the largest value above -9999, or slot 0 |
| Scores.HighestScoreIsFirstMaximum | src/app/scores.ts:102-118 | the chosen move is a direction holding the first maximum when any score exceeds -9999, and 0 otherwise |
| Scores.HighestScoreMove | src/app/scores.ts:102-118 | returns the highest-score move, always a direction |
| Scores.MoveInScores | src/app/scores.ts:126-133 | true exactly when some slot is not 0 |
| Scores.NoMoveIsAllZero | src/app/scores.ts:125-133 | "no move" means every slot is 0, so an all-negative vector does count as a move |
| Search.ValidMove | src/app/search.ts:337-343 | true exactly when the move lands on the board on a cell ranked below every snake body and head; such a move is one step |
| Search.GetEnemyMoveLocations | src/app/search.ts:284-292 | exactly the cells one valid move from the enemy head, in direction order |
| Search.OtherSnakes | src/app/search.ts:260-270 | exactly the listed snakes that are not us |
| Search.GetEnemySnakes | src/app/search.ts:260-270 | the other snakes, in list order |
| Search.EdgeFillFromEnemyToSelf | src/app/search.ts:273-281 | returns the grid copy it was given |
| Search.PreprocessGrid | src/app/grid.ts:150-165 | the grid's values are left as they were |
| Search.DistanceFromWall | src/app/search.ts:220-234 | for a board cell: non-negative, and zero exactly in a corner |
| Search.DistanceFromWallIsCornerDistance | src/app/search.ts:220-234 | the distance to the nearest of the four corners |
| Search.WallFloor | src/app/search.ts:196-206 | the smallest positive clearance, or 9999 when none is positive |
| Search.FartherFromWallsBias | src/app/search.ts:194-212 | the wall scores of the four clearances |
| Search.WallScoresRankClearance | src/app/search.ts:194-212 | positive clearances keep their differences and the smallest scores 0; the others sit one floor below; with no positive clearance every slot is -9999 |
| Search.ClearanceBelowSentinel | src/app/search.ts:196-204 | the wall clearance of any move from our head stays below 9999 |
| Search.RoomAround | src/app/search.ts:301-306 | at most one point per direction |
| Search.TightMoveBias | src/app/search.ts:295-313 | a move onto a board cell no worse than DANGER scores TIGHT_MOVE for each neighbour of it that is on the board and at most WARNING, so between 0 and 4; any other move scores 0 |
| Search.ClosestTarget | src/app/search.ts:361-382 | the first cell in row-major order of the given type at the smallest distance below 9999 |
| Search.ClosestTargetFindsAny | src/app/search.ts:361-382 | on a board within 9999, none is found exactly when no cell has the type |
| Search.ClosestFood | src/app/search.ts:346-348 | the closest food cell |
| Search.ClosestKillableSnake | src/app/search.ts:351-353 | the closest kill zone |
| Search.ClosestDangerSnake | src/app/search.ts:356-358 | the closest enemy head |
| Search.AddToOpen | src/app/search.ts:416-447 | an untouched board cell up to DANGER that the constraints admit is pushed, and an untouched head is counted |
| Search.RemoveFromOpen | src/app/search.ts:449-462 | pops the top of the stack and clears its open mark |
| Search.AddNeighbour | src/app/search.ts:512-523 | one neighbour is pushed, counted or passed over as addToOpen decides |
| Search.ExpandNeighbours | src/app/search.ts:512-523 | after the four neighbours, each is settled, and the heads counted are those next to the cell |
| Search.VisitTop | src/app/search.ts:478-511 | the popped cell is closed and tallied by its category |
| Search.ExpandStep | src/app/search.ts:512-523 | after expanding the popped cell, the fill invariant and the tally hold for one more visited cell |
| Search.FillStep | src/app/search.ts:478-524 | one iteration visits one more cell and keeps the fill invariant and the tally |
| Search.FillLoop | src/app/search.ts:477-525 | when the stack empties, the visited cells and their tally describe a complete fill |
| Search.FloodFill | src/app/search.ts:385-540 | the cells visited are exactly those reachable through admitted cells, and the score is their weighted tally |
| Search.TallyStep | src/app/search.ts:481-510 | visiting a cell adds one to the area and one to its category's count |
| Search.TalliesWithinArea | src/app/search.ts:481-510 | the category counts together never exceed the cells visited |
| Search.FloodFitsBoard | src/app/search.ts:477-525 | a fill visits at most the board's cells, and its counts stay within its area |
| Search.FloodReachUnique | src/app/search.ts:477-525 | any two fills from the same start under the same constraints visit the same cells, so their tallies agree |
| Search.FloodSlotUnique | src/app/search.ts:237-253 | each flood-bias slot has exactly one possible value |
| Search.FloodBias | src/app/search.ts:237-253 | each open move scores the flood fill from its cell; other moves score 0 |
| Search.FloodSlotFitsBoard | src/app/search.ts:237-253 | an open move's flood score comes from a fill of area between 1 and the board size |
| Search.ScoreTarget | src/app/search.ts:172-180 | a passable next cell is searched with A*; a found search adds the scorer's value of its distance, which is the step count of a path avoiding snake bodies |
| Search.GetScoresForTargets | src/app/search.ts:165-187 | every slot sums the scorer over the targets A* reaches from that move's cell |
| Search.TargetSumOfMisses | src/app/search.ts:165-187 | targets that are never reached add nothing |
| Search.TargetSumNonNegative | src/app/search.ts:165-187 | a non-negative scorer gives a non-negative sum |
| Search.UnreachedTargetsScoreZero | src/app/search.ts:165-187 | a move from which no target is reachable scores exactly 0 |
| Search.TargetScoresNonNegative | src/app/search.ts:165-187 | a non-negative scorer gives non-negative target scores |
| Search.SortedCellsUnique | src/app/grid.ts:244-255 | two row-major sorted lists of the same cells are equal |
| Search.AllOfTypeUnique | src/app/grid.ts:244-255 | getAll has one possible result for each type |
| Search.EatingScoresFromListOfFood | src/app/search.ts:44-55 | the target scores of the given food list |
| Search.EatingScoresFromState | src/app/search.ts:33-35 | the target scores of the request's food list |
| Search.EatingScoresFromGrid | src/app/search.ts:18-25 | the target scores of the grid's food cells, falling back to the request's food list when those give no move |
| Search.HuntingScoresForAccessibleKillzones | src/app/search.ts:62-80 | the target scores of the grid's kill zones |
| Search.HuntingScoresForAccessibleFuture2 | src/app/search.ts:87-99 | the target scores of the grid's future-2 cells |
| Search.NoTargetsNoMove | src/app/search.ts:74-75 | with no cell of the type on the board, the scores offer no move |
| Self.IsMe | src/app/self.ts:19-21 | our own snake is us, and a snake is us exactly when it has the request's `you` id |
| Self.MyLocation | src/app/self.ts:24-26 | the head of the request's `you` snake |
| Self.MyHealth | src/app/self.ts:29-31 | the health of the request's `you` snake |
| Self.MyMinimumHealth | src/app/self.ts:34-36 | 33 less the number of completed 500-turn periods |
| Self.MinimumHealthNonIncreasing | src/app/self.ts:34-36 | the threshold never rises with the turn and is 33 for the first 500 turns |
| Self.AmIBiggestSnake | src/app/self.ts:50-60 | true exactly when every other snake is shorter than us |
| Self.ExistsSnakeSmallerThanMe | src/app/self.ts:63-73 | true exactly when some other snake is shorter than us |
| Self.ClosestFoodDistance | src/app/search.ts:316-328 | the smallest distance to a listed food, capped at 9999 and attained when below it |
| Self.DistanceFromCellToClosestFoodInFoodList | src/app/search.ts:316-334 | the closest food's distance, or 0.7 of the board height without food |
| Self.IsHungerEmergency | src/app/self.ts:44-47 | true exactly when the closest food is at least health - 1 away or health is at the minimum |
| Move.BaseMoveBias | src/app/move.ts:152-168 | each move scored by the base score of the cell it lands on |
| Move.BaseBiasRanksMoves | src/app/move.ts:152-168 | off-board or occupied next cells score -200, and a move scores positively exactly when it lands below WALL_NEAR |
| Move.BoardBiases | src/app/move.ts:93-121 | the base, tight, flood and wall bias vectors of the board |
| Move.CombineAll | src/app/move.ts:88-126 | the behaviour's first four slots with the biases combined in the fixed order |
| Move.SumBiases | src/app/move.ts:88-126 | the behaviour vector plus the board's biases, in the fixed order |
| Move.BestNormalizedMove | src/app/move.ts:140-144 | the highest-score move of the normalised vector |
| Move.AddBiasesToBehaviour | src/app/move.ts:87-145 | the move is the best slot of the normalised sum of the behaviour and the biases, and a direction |
| Move.ChoiceReadsFourSlots | src/app/move.ts:88 | only the first four slots of a behaviour vector affect the choice |
| Move.Eat | src/app/move.ts:15-41 | in a hunger emergency it chooses by the request's food list, otherwise by the grid's food |
| Move.HuntingBehaviour | src/app/move.ts:49-59 | kill-zone scores, replaced by future-2 scores when they offer no move |
| Move.Hunt | src/app/move.ts:48-61 | chooses by the hunting scores |
| Move.HuntWithoutKillZones | src/app/move.ts:52-56 | with no kill zone on the board, hunting aims at the future-2 cells |
| Move.LateHunt | src/app/move.ts:64-77 | chooses by kill zones when a smaller snake exists, otherwise by future-2 cells |
| Endpoint.Decide | src/app/main.ts:75-103 | eats below the minimum health; otherwise hunts when biggest or a smaller snake exists; otherwise eats; always a direction |
| Endpoint.ResponseFor | src/app/main.ts:114 | a direction's name, and "right" for a negative move |
| Endpoint.Move | src/app/main.ts:55-116 | the state holds this request's snake, board, turn and friend test, its grid has the request's width on both sides and every cell holds the value built from the request; the answer names the move `Decided` on that state and is always one of the four direction names |

## Left out

- Logging, map printing, `scoresToString`, the JSON dump of each request, and the timing
  statistics in `main.ts` (`slowestTime`, `moveTimes`). The `root`, `start` and `end` endpoints and
  the HTTP server in `src/app.ts` are left out too. They only produce output.
- `playSafe` is computed in `main.ts` and passed along by `eat` and `hunt`, but
  `addBiasesToBehaviour` never reads it, so it cannot affect the move. The behaviour tag is
  only logged. The model carries neither.
- Floating point: scores are reals, so there is no rounding and no infinity. NaN is modelled
  only as a missing or undefined slot (`Number.NaN`), which is the only way it arises here.
- The scorers built from `Math.exp` and `Math.pow` are taken as given functions
  (`Heuristics.foodScoring`, `killZoneScoring`, `future2Scoring`). This covers the food
  exponential with its hunger urgency (`myHungerUrgency` rounds `(101 - health) * 0.4`) and the
  kill-zone and future-2 powers. The kill-zone scorer's test of the start cell's value is folded
  into the given function.
- `fartherFromDangerousSnakesBias`, `closerToKillableSnakesBias` and `closerToTailsBias` are
  built only from those scorers over `getScoresForTargets`. They are taken as given vectors
  (`Heuristics.dangerousSnakes`, `killableSnakes`, `tails`).
- `isFriendly` matches snake names against regular expressions. It is a parameter
  (`string -> bool`).
- try/catch: each operation requires what keeps it from throwing instead of modelling the catch.
  That is every cell of the request inside the `width x width` grid, our head on the board, and a
  valid tail index for the snakes whose tail is marked.
- Astar.Astar: requires `width * height + width + height <= 9999` (`SearchableSize`), so that no
  f score reaches the 9999 start value of the lowest-f scan. Larger boards are not modelled.
- The board is square: `State` builds a `width x width` grid, as the source does, and the model
  does not cover the `initGrid` holes on non-square boards beyond the finding below.
- Scores.NormalizeScores: requires a four-slot array; the source always passes one.
- Search.RemoveFromOpen: requires a non-empty stack. The flood-fill loop only calls it then, so
  its `null` result is never produced.
- Search.FloodBias, Search.GetScoresForTargets: state the result through the reachability relation
  of the flood fill and of A*. They do not fix which path A* returns, only that the distance is
  the step count of some path avoiding snake bodies, at least the Manhattan distance. Which
  cells the fill visits is fixed (`Search.FloodReachUnique`); the order it visits them in is not.
- Search.PreprocessGrid: `edgeFillFromEnemyToSelf` returns its copy untouched, so preprocessing
  never changes a value. The model keeps the calls but states only that.
- `move.ts` imports `huntingScoresForKillZones` and `huntingScoresForFuture2`, names that
  `search.ts` does not define. The model reads them as `huntingScoresForAccessibleKillzones`
  and `huntingScoresForAccessibleFuture2`.
- `main.ts` catches any exception from a behaviour and then falls back to eating. In the model
  no behaviour throws, so that fallback runs only when neither branch was taken.

## Findings

| source | as written | input that shows it | evidently intended | confidence | as-written member | corrected member |
|---|---|---|---|---|---|---|
| src/app/grid.ts:34 | the inner loop of `initGrid` runs `j < height`, so each row is filled up to the height, not the width | a board of width 3 and height 2: index 2 of every row stays a hole | `j < width`, every cell filled | not executed | SemanticGrid.InitGridAsWritten (SemanticGrid.InitGridHoleExample) | SemanticGrid.InitGrid |
