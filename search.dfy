/**
 * Searches over the semantic grid that turn a board into per-direction scores
 * (src/app/search.ts): move validity, closest targets, wall clearance, tight spots, the
 * flood fill of the space behind each move, and path-based scores for lists of targets.
 */
module Search {
  import opened Keys
  import opened Types
  import opened Weights
  import opened Utils
  import opened SemanticGrid
  import opened TurnState
  import opened Self
  import opened Scores
  import Astar

  // ---------------------------------------------------------------------------------------
  // Moves of other snakes
  // ---------------------------------------------------------------------------------------

  /** Moving from cell lands on the board on a cell that is not a body or a head. */
  predicate ValidMove(move: int, cell: Cell, state: State): (r: bool)
    reads state.grid, state.grid.data
    requires state.grid.Valid()
    ensures r <==>
      InBounds(ApplyMoveToCell(move, cell), state.grid.width, state.grid.height) &&
      state.grid.Value(ApplyMoveToCell(move, cell)) < SNAKE_BODY
    ensures r && IsDirection(move) ==> GetDistance(cell, ApplyMoveToCell(move, cell)) == 1
  {
    var newCell := ApplyMoveToCell(move, cell);
    !state.grid.OutOfBounds(newCell) && state.grid.Value(newCell) <= DANGER
  }

  /**
   * The cells an enemy can move to: exactly the valid moves from its head, listed in
   * direction order (up, down, left, right), so at most four.
   */
  method GetEnemyMoveLocations(enemy: Snake, state: State) returns (positions: seq<Cell>)
    requires state.grid.Valid()
    ensures |positions| <= 4
    ensures forall c :: c in positions <==>
      exists m :: IsDirection(m) && ValidMove(m, enemy.head, state) && c == ApplyMoveToCell(m, enemy.head)
    ensures forall i :: 0 <= i < |positions| ==>
      CalcDirection(enemy.head, positions[i]).Some? && ValidMove(CalcDirection(enemy.head, positions[i]).value, enemy.head, state)
    ensures forall i, j :: 0 <= i < j < |positions| ==>
      CalcDirection(enemy.head, positions[i]).value < CalcDirection(enemy.head, positions[j]).value
  {
    positions := [];
    for m := 0 to 4
      invariant |positions| <= m
      invariant forall c :: c in positions <==>
        exists k :: 0 <= k < m && ValidMove(k, enemy.head, state) && c == ApplyMoveToCell(k, enemy.head)
      invariant forall i :: 0 <= i < |positions| ==>
        CalcDirection(enemy.head, positions[i]).Some? && CalcDirection(enemy.head, positions[i]).value < m &&
        ValidMove(CalcDirection(enemy.head, positions[i]).value, enemy.head, state)
      invariant forall i, j :: 0 <= i < j < |positions| ==>
        CalcDirection(enemy.head, positions[i]).value < CalcDirection(enemy.head, positions[j]).value
    {
      if ValidMove(m, enemy.head, state) {
        CalcDirectionRoundTrip(m, enemy.head);
        positions := positions + [ApplyMoveToCell(m, enemy.head)];
      }
    }
  }

  /** The snakes of a list that are not us, in list order. */
  function OtherSnakes(snakes: seq<Snake>, state: State): (r: seq<Snake>)
    ensures forall s :: s in r <==> s in snakes && !IsMe(s, state)
    ensures |r| <= |snakes|
    decreases |snakes|
  {
    if snakes == [] then []
    else
      var n := |snakes| - 1;
      assert snakes == snakes[..n] + [snakes[n]];
      var rest := OtherSnakes(snakes[..n], state);
      if IsMe(snakes[n], state) then rest else rest + [snakes[n]]
  }

  /** Every snake on the board except us, in board order. */
  method GetEnemySnakes(state: State) returns (snakes: seq<Snake>)
    ensures snakes == OtherSnakes(state.board.snakes, state)
    ensures forall s :: s in snakes <==> s in state.board.snakes && !IsMe(s, state)
  {
    snakes := [];
    var all := state.board.snakes;
    for i := 0 to |all|
      invariant snakes == OtherSnakes(all[..i], state)
    {
      assert all[..i + 1][..i] == all[..i];
      var snake := all[i];
      if IsMe(snake, state) {
        continue;
      }
      snakes := snakes + [snake];
    }
    assert all[..|all|] == all;
  }

  /**
   * The edge fill from an enemy on the perimeter: it looks up the enemy's moves and then
   * hands the grid copy back untouched.
   */
  method EdgeFillFromEnemyToSelf(enemy: Snake, gridDataCopy: array2<int>, state: State) returns (r: array2<int>)
    requires state.grid.Valid()
    ensures r == gridDataCopy
  {
    var enemyMoves := GetEnemyMoveLocations(enemy, state);
    r := gridDataCopy;
  }

  /**
   * When our head is next to the wall, the grid is copied, handed through the edge fill of
   * every enemy whose head is on the perimeter, and the copy replaces the grid's matrix; the
   * value of every cell stays what it was.
   */
  method PreprocessGrid(state: State)
    requires state.grid.Valid()
    modifies state.grid
    ensures state.grid.Valid()
    ensures forall c :: InBounds(c, state.grid.width, state.grid.height) ==>
      state.grid.Value(c) == old(state.grid.Value(c))
  {
    var grid := state.grid;
    if grid.NearPerimeter(MyLocation(state)) {
      var enemySnakes := GetEnemySnakes(state);
      var gridDataCopy := grid.CopyGridData();
      for i := 0 to |enemySnakes|
        invariant grid.data == old(grid.data) && grid.Valid()
        invariant gridDataCopy.Length0 == grid.height && gridDataCopy.Length1 == grid.width
        invariant forall c :: InBounds(c, grid.width, grid.height) ==> gridDataCopy[c.y, c.x] == old(grid.Value(c))
      {
        var enemy := enemySnakes[i];
        if grid.OnPerimeter(enemy.head) {
          gridDataCopy := EdgeFillFromEnemyToSelf(enemy, gridDataCopy, state);
        }
      }
      grid.data := gridDataCopy;
    }
  }

  // ---------------------------------------------------------------------------------------
  // Distance to the walls
  // ---------------------------------------------------------------------------------------

  /**
   * How many steps a cell lies inside the board: the smaller horizontal margin plus the
   * smaller vertical margin (negative for cells off the board).
   */
  function DistanceFromWall(cell: Cell, state: State): (r: int)
    ensures InBounds(cell, state.grid.width, state.grid.height) ==>
      r >= 0 && (r == 0 <==> (cell.x == 0 || cell.x == state.grid.width - 1) && (cell.y == 0 || cell.y == state.grid.height - 1))
    ensures r <= cell.x + cell.y
  {
    var yDown := cell.y;
    var yUp := (state.grid.height - 1) - cell.y;
    var xLeft := cell.x;
    var xRight := (state.grid.width - 1) - cell.x;
    var xDistance := if xLeft < xRight then xLeft else xRight;
    var yDistance := if yUp < yDown then yUp else yDown;
    xDistance + yDistance
  }

  /** The four corner cells of the board. */
  function Corners(state: State): seq<Cell>
  {
    var w := state.grid.width;
    var h := state.grid.height;
    [Cell(0, 0), Cell(w - 1, 0), Cell(0, h - 1), Cell(w - 1, h - 1)]
  }

  /** On the board, a cell's clearance is its Manhattan distance to the nearest corner. */
  lemma DistanceFromWallIsCornerDistance(cell: Cell, state: State)
    requires InBounds(cell, state.grid.width, state.grid.height)
    ensures exists k :: 0 <= k < 4 && GetDistance(cell, Corners(state)[k]) == DistanceFromWall(cell, state)
    ensures forall k :: 0 <= k < 4 ==> GetDistance(cell, Corners(state)[k]) >= DistanceFromWall(cell, state)
  {
    var w := state.grid.width;
    var h := state.grid.height;
    var k := (if cell.x < (w - 1) - cell.x then 0 else 1) + (if (h - 1) - cell.y < cell.y then 2 else 0);
    assert GetDistance(cell, Corners(state)[k]) == DistanceFromWall(cell, state);
  }

  /** Our clearance after move m. */
  function Clearance(state: State, m: int): int
  {
    DistanceFromWall(ApplyMoveToCell(m, MyLocation(state)), state)
  }

  /** The clearances of the four moves, in direction order. */
  function Clearances(state: State): (cs: seq<int>)
    ensures |cs| == 4 && forall m :: 0 <= m < 4 ==> cs[m] == Clearance(state, m)
  {
    [Clearance(state, UP), Clearance(state, DOWN), Clearance(state, LEFT), Clearance(state, RIGHT)]
  }

  /**
   * The least positive clearance among the first k, as the walls bias tracks it: it starts at
   * 9999 and is lowered only by a strictly smaller positive clearance.
   */
  function WallFloor(cs: seq<int>, k: nat): (r: real)
    requires k <= |cs|
    ensures 0.0 < r <= 9999.0
    ensures forall m :: 0 <= m < k && cs[m] > 0 ==> r <= cs[m] as real
    ensures r == 9999.0 || exists m :: 0 <= m < k && cs[m] > 0 && r == cs[m] as real
  {
    if k == 0 then 9999.0
    else
      var floor := WallFloor(cs, k - 1);
      var c := cs[k - 1];
      if 0 < c && (c as real) < floor then c as real else floor
  }

  /** The walls bias: a move's positive clearance (0 otherwise) less the least positive clearance. */
  function WallScores(cs: seq<int>): seq<Number>
    requires |cs| == 4
  {
    seq(4, m requires 0 <= m < 4 => Num((if cs[m] > 0 then cs[m] as real else 0.0) - WallFloor(cs, 4)))
  }

  /** Scores the four moves by how far the next cell lies from the walls. */
  method FartherFromWallsBias(state: State) returns (scores: seq<Number>)
    ensures scores == WallScores(Clearances(state))
  {
    ghost var cs := Clearances(state);
    var raw, minimumScore := WallRaw(state);
    scores := seq(4, m requires 0 <= m < 4 => Num(raw[m] - minimumScore));
    assert forall m :: 0 <= m < 4 ==> scores[m] == WallScores(cs)[m];
  }

  /** The loop of the walls bias: each move's positive clearance, and the least of them. */
  method WallRaw(state: State) returns (raw: seq<real>, minimumScore: real)
    ensures |raw| == 4
    ensures forall m :: 0 <= m < 4 ==> raw[m] == if Clearance(state, m) > 0 then Clearance(state, m) as real else 0.0
    ensures minimumScore == WallFloor(Clearances(state), 4)
  {
    ghost var cs := Clearances(state);
    raw := [0.0, 0.0, 0.0, 0.0];
    minimumScore := 9999.0;
    for move := 0 to 4
      invariant |raw| == 4
      invariant forall m :: 0 <= m < move ==> raw[m] == if cs[m] > 0 then cs[m] as real else 0.0
      invariant forall m :: move <= m < 4 ==> raw[m] == 0.0
      invariant minimumScore == WallFloor(cs, move)
    {
      var currentDistance := Clearance(state, move);
      if raw[move] < currentDistance as real {
        raw := raw[move := currentDistance as real * MULTIPLIER.WALL_DISTANCE];
        if raw[move] < minimumScore {
          minimumScore := raw[move];
        }
      }
    }
  }

  /**
   * What the walls bias ranks: moves with positive clearance keep the differences of their
   * clearances and never score below 0; a move without clearance scores exactly one positive
   * clearance below each move that has one; with no positive clearance anywhere every move
   * scores -9999; and when some positive clearance is below 9999 the least of them scores 0.
   */
  lemma WallScoresRankClearance(cs: seq<int>)
    requires |cs| == 4
    ensures |WallScores(cs)| == 4
    ensures forall m, k :: 0 <= m < 4 && 0 <= k < 4 && cs[m] > 0 && cs[k] > 0 ==>
      WallScores(cs)[m].value - WallScores(cs)[k].value == (cs[m] - cs[k]) as real
    ensures forall m :: 0 <= m < 4 && cs[m] > 0 ==> WallScores(cs)[m].value >= 0.0
    ensures forall m, k :: 0 <= m < 4 && 0 <= k < 4 && cs[m] <= 0 && cs[k] > 0 ==>
      WallScores(cs)[m].value == WallScores(cs)[k].value - cs[k] as real
    ensures (forall m :: 0 <= m < 4 ==> cs[m] <= 0) ==> forall m :: 0 <= m < 4 ==> WallScores(cs)[m] == Num(-9999.0)
    ensures (exists m :: 0 <= m < 4 && 0 < cs[m] < 9999) ==>
      exists m :: 0 <= m < 4 && cs[m] > 0 && WallScores(cs)[m] == Num(0.0)
  {
    var floor := WallFloor(cs, 4);
    if forall m :: 0 <= m < 4 ==> cs[m] <= 0 {
      assert floor == 9999.0;
    }
    if exists m :: 0 <= m < 4 && 0 < cs[m] < 9999 {
      var m :| 0 <= m < 4 && 0 < cs[m] < 9999;
      assert floor <= cs[m] as real < 9999.0;
      var k :| 0 <= k < 4 && cs[k] > 0 && floor == cs[k] as real;
      assert WallScores(cs)[k] == Num(0.0);
    }
  }

  /** From a head on the board, every move's clearance is below 9999 on a board up to 9999 cells across. */
  lemma ClearanceBelowSentinel(state: State, m: int)
    requires InBounds(MyLocation(state), state.grid.width, state.grid.height)
    requires state.grid.width + state.grid.height <= 9999
    ensures Clearance(state, m) < 9999
  {
  }

  // ---------------------------------------------------------------------------------------
  // Tight moves
  // ---------------------------------------------------------------------------------------

  /** How many of the first k neighbours of cell (in direction order) are on the board and at most a warning. */
  function RoomAround(grid: Grid, cell: Cell, k: nat): (n: nat)
    reads grid, grid.data
    requires grid.Valid() && k <= 4
    ensures n <= k
  {
    if k == 0 then 0
    else
      var next := ApplyMoveToCell(k - 1, cell);
      RoomAround(grid, cell, k - 1) + (if !grid.OutOfBounds(next) && grid.Value(next) <= WARNING then 1 else 0)
  }

  /**
   * The tight-move bias: a move onto the board and onto a cell no worse than danger scores
   * TIGHT_MOVE for each neighbour of that cell that is on the board and at most a warning;
   * any other move scores 0.
   */
  ghost predicate IsTightBias(state: State, scores: seq<Number>)
    reads state.grid, state.grid.data
    requires state.grid.Valid()
  {
    |scores| == 4 &&
    forall m :: 0 <= m < 4 ==>
      var next := ApplyMoveToCell(m, MyLocation(state));
      scores[m] == Num(
        if !state.grid.OutOfBounds(next) && state.grid.Value(next) <= DANGER
        then MULTIPLIER.TIGHT_MOVE * RoomAround(state.grid, next, 4) as real
        else 0.0)
  }

  method TightMoveBias(state: State) returns (scores: seq<Number>)
    requires state.grid.Valid()
    ensures IsTightBias(state, scores)
    ensures forall m :: 0 <= m < 4 ==> scores[m].Num? && 0.0 <= scores[m].value <= 4.0 * MULTIPLIER.TIGHT_MOVE
  {
    var raw := [0.0, 0.0, 0.0, 0.0];
    for move := 0 to 4
      invariant |raw| == 4
      invariant forall m :: 0 <= m < move ==>
        var next := ApplyMoveToCell(m, MyLocation(state));
        raw[m] == if !state.grid.OutOfBounds(next) && state.grid.Value(next) <= DANGER
          then MULTIPLIER.TIGHT_MOVE * RoomAround(state.grid, next, 4) as real else 0.0
      invariant forall m :: move <= m < 4 ==> raw[m] == 0.0
    {
      var nextCell := ApplyMoveToCell(move, MyLocation(state));
      if !state.grid.OutOfBounds(nextCell) && state.grid.Value(nextCell) <= DANGER {
        for direction := 0 to 4
          invariant |raw| == 4
          invariant forall m :: 0 <= m < move ==>
            var next := ApplyMoveToCell(m, MyLocation(state));
            raw[m] == if !state.grid.OutOfBounds(next) && state.grid.Value(next) <= DANGER
              then MULTIPLIER.TIGHT_MOVE * RoomAround(state.grid, next, 4) as real else 0.0
          invariant forall m :: move < m < 4 ==> raw[m] == 0.0
          invariant raw[move] == MULTIPLIER.TIGHT_MOVE * RoomAround(state.grid, nextCell, direction) as real
        {
          var cellToCheck := ApplyMoveToCell(direction, nextCell);
          if !state.grid.OutOfBounds(cellToCheck) && state.grid.Value(cellToCheck) <= WARNING {
            raw := raw[move := raw[move] + MULTIPLIER.TIGHT_MOVE];
          }
        }
      }
    }
    scores := [Num(raw[0]), Num(raw[1]), Num(raw[2]), Num(raw[3])];
  }

  // ---------------------------------------------------------------------------------------
  // Closest targets
  // ---------------------------------------------------------------------------------------

  /** The cell holds the target type. */
  ghost predicate IsTarget(grid: Grid, c: Cell, targetType: int)
    reads grid, grid.data
    requires grid.Valid()
  {
    InBounds(c, grid.width, grid.height) && grid.Value(c) == targetType
  }

  /**
   * The answer closestTarget gives: nothing when no target lies closer than 9999 steps;
   * otherwise a target at the least distance from startCell, and the first such target when
   * the board is read row by row.
   */
  ghost predicate IsClosestTarget(startCell: Cell, grid: Grid, targetType: int, r: Option<Cell>)
    reads grid, grid.data
    requires grid.Valid()
  {
    (r.None? <==> forall c :: IsTarget(grid, c, targetType) ==> GetDistance(startCell, c) >= 9999) &&
    (r.Some? ==>
      IsTarget(grid, r.value, targetType) && GetDistance(startCell, r.value) < 9999 &&
      (forall c :: IsTarget(grid, c, targetType) ==> GetDistance(startCell, r.value) <= GetDistance(startCell, c)) &&
      (forall c :: IsTarget(grid, c, targetType) && RowMajorBefore(c, r.value) ==>
        GetDistance(startCell, r.value) < GetDistance(startCell, c)))
  }

  /** The cell lies before (row j of) row i in the row-by-row reading of the board. */
  predicate ScannedBefore(c: Cell, i: int, j: int)
  {
    c.y < i || (c.y == i && c.x < j)
  }

  /**
   * The scan's state once the cells before column j of row i are scanned: no target found and
   * none of the scanned targets nearer than 9999, or the first scanned target at the least
   * distance, below 9999, with dist its distance.
   */
  ghost predicate ScanSoFar(startCell: Cell, grid: Grid, targetType: int, i: int, j: int, best: Option<Cell>, dist: int)
    reads grid, grid.data
    requires grid.Valid()
  {
    (best.None? ==>
      dist == 9999 &&
      forall c :: IsTarget(grid, c, targetType) && ScannedBefore(c, i, j) ==> GetDistance(startCell, c) >= 9999) &&
    (best.Some? ==>
      IsTarget(grid, best.value, targetType) && ScannedBefore(best.value, i, j) &&
      dist == GetDistance(startCell, best.value) < 9999 &&
      (forall c :: IsTarget(grid, c, targetType) && ScannedBefore(c, i, j) ==> dist <= GetDistance(startCell, c)) &&
      (forall c :: IsTarget(grid, c, targetType) && RowMajorBefore(c, best.value) ==> dist < GetDistance(startCell, c)))
  }

  /** Scans the board row by row for the target cell closest to startCell. */
  method ClosestTarget(startCell: Cell, grid: Grid, targetType: int) returns (r: Option<Cell>)
    requires grid.Valid()
    ensures IsClosestTarget(startCell, grid, targetType, r)
  {
    var closestTarget: Option<Cell> := None;
    var closestDistance := 9999;
    for i := 0 to grid.height
      invariant ScanSoFar(startCell, grid, targetType, i, 0, closestTarget, closestDistance)
    {
      closestTarget, closestDistance := ScanRow(startCell, grid, targetType, i, closestTarget, closestDistance);
    }
    r := closestTarget;
    assert forall c :: IsTarget(grid, c, targetType) ==> ScannedBefore(c, grid.height, 0);
  }

  /** The inner loop of closestTarget: one row scanned, keeping the nearest target so far. */
  method ScanRow(startCell: Cell, grid: Grid, targetType: int, i: int, best: Option<Cell>, dist: int)
    returns (closestTarget: Option<Cell>, closestDistance: int)
    requires grid.Valid() && 0 <= i < grid.height
    requires ScanSoFar(startCell, grid, targetType, i, 0, best, dist)
    ensures ScanSoFar(startCell, grid, targetType, i + 1, 0, closestTarget, closestDistance)
  {
    closestTarget, closestDistance := best, dist;
    for j := 0 to grid.width
      invariant ScanSoFar(startCell, grid, targetType, i, j, closestTarget, closestDistance)
    {
      var target := Cell(j, i);
      if grid.Value(target) == targetType {
        var distance := GetDistance(startCell, target);
        if distance < closestDistance {
          closestTarget := Some(target);
          closestDistance := distance;
        }
      }
    }
    forall c | IsTarget(grid, c, targetType)
      ensures ScannedBefore(c, i + 1, 0) <==> ScannedBefore(c, i, grid.width)
    {
    }
  }

  /** On a board of at most 9999 cells across, a start on the board finds a target iff there is one. */
  lemma ClosestTargetFindsAny(startCell: Cell, grid: Grid, targetType: int, r: Option<Cell>)
    requires grid.Valid() && InBounds(startCell, grid.width, grid.height) && grid.width + grid.height <= 10000
    requires IsClosestTarget(startCell, grid, targetType, r)
    ensures r.None? <==> forall c :: InBounds(c, grid.width, grid.height) ==> grid.Value(c) != targetType
  {
    if r.None? {
      forall c | InBounds(c, grid.width, grid.height)
        ensures grid.Value(c) != targetType
      {
        assert GetDistance(startCell, c) < 9999;
      }
    }
  }

  method ClosestFood(startCell: Cell, grid: Grid) returns (r: Option<Cell>)
    requires grid.Valid()
    ensures IsClosestTarget(startCell, grid, FOOD, r)
    ensures r.Some? ==> grid.Value(r.value) == FOOD
  {
    r := ClosestTarget(startCell, grid, FOOD);
  }

  method ClosestKillableSnake(startCell: Cell, grid: Grid) returns (r: Option<Cell>)
    requires grid.Valid()
    ensures IsClosestTarget(startCell, grid, KILL_ZONE, r)
    ensures r.Some? ==> grid.Value(r.value) == KILL_ZONE
  {
    r := ClosestTarget(startCell, grid, KILL_ZONE);
  }

  method ClosestDangerSnake(startCell: Cell, grid: Grid) returns (r: Option<Cell>)
    requires grid.Valid()
    ensures IsClosestTarget(startCell, grid, ENEMY_HEAD, r)
    ensures r.Some? ==> grid.Value(r.value) == ENEMY_HEAD
  {
    r := ClosestTarget(startCell, grid, ENEMY_HEAD);
  }

  // ---------------------------------------------------------------------------------------
  // Flood fill
  // ---------------------------------------------------------------------------------------

  /** The cell holds another snake's head. */
  predicate IsHeadValue(v: int)
  {
    v == ENEMY_HEAD || v == SMALL_HEAD
  }

  /**
   * The constraint check of the flood fill: a cell passes unless its value is listed among
   * the constraints, except that the very first cell passes anyway when it is a kill zone or
   * a future-2 cell.
   */
  predicate Admitted(v: int, first: bool, constraints: seq<int>)
  {
    (first && (v == KILL_ZONE || v == FUTURE_2)) || v !in constraints
  }

  /** The four cells the fill tries from a cell, in its order: down, up, left, right. */
  function FloodNeighbours(c: Cell): seq<Cell>
  {
    [Cell(c.x, c.y - 1), Cell(c.x, c.y + 1), Cell(c.x - 1, c.y), Cell(c.x + 1, c.y)]
  }

  /** The fill starts: the start cell is on the board, passable, and passes the first-cell check. */
  ghost predicate StartEnters(state: State, start: Cell, constraints: seq<int>)
    reads state.grid, state.grid.data
    requires state.grid.Valid()
  {
    InBounds(start, state.grid.width, state.grid.height) && state.grid.Value(start) <= DANGER &&
    Admitted(state.grid.Value(start), true, constraints)
  }

  /** A cell the fill may enter: passable and either the start or a cell other than our head that passes the constraints. */
  ghost predicate Enterable(state: State, start: Cell, constraints: seq<int>, c: Cell)
    reads state.grid, state.grid.data
    requires state.grid.Valid()
  {
    InBounds(c, state.grid.width, state.grid.height) && state.grid.Value(c) <= DANGER &&
    ((c == start && Admitted(state.grid.Value(c), true, constraints)) ||
     (c != MyLocation(state) && Admitted(state.grid.Value(c), false, constraints)))
  }

  /**
   * A neighbour n the fill has dealt with: off the board, our head, already entered
   * (visited or waiting), or a cell the fill may not enter after the first step.
   */
  ghost predicate Settled(state: State, constraints: seq<int>, n: Cell, visited: seq<Cell>, stack: seq<Cell>)
    reads state.grid, state.grid.data
    requires state.grid.Valid()
  {
    !InBounds(n, state.grid.width, state.grid.height) || n == MyLocation(state) || n in visited || n in stack ||
    !(state.grid.Value(n) <= DANGER && Admitted(state.grid.Value(n), false, constraints))
  }

  ghost predicate NeighboursSettled(state: State, constraints: seq<int>, c: Cell, visited: seq<Cell>, stack: seq<Cell>)
    reads state.grid, state.grid.data
    requires state.grid.Valid()
  {
    Settled(state, constraints, Cell(c.x, c.y - 1), visited, stack) &&
    Settled(state, constraints, Cell(c.x, c.y + 1), visited, stack) &&
    Settled(state, constraints, Cell(c.x - 1, c.y), visited, stack) &&
    Settled(state, constraints, Cell(c.x + 1, c.y), visited, stack)
  }

  /** Cell i of the list is a step away from an earlier cell of the list. */
  ghost predicate LinkedBack(cells: seq<Cell>, i: int)
    requires 0 <= i < |cells|
  {
    exists j :: 0 <= j < i && GetDistance(cells[j], cells[i]) == 1
  }

  /**
   * The cells a flood fill from start visits, in visiting order: distinct passable cells;
   * none at all when the start may not be entered, and otherwise the start first; every later
   * cell is not our head, passes the constraints and is a step away from an earlier one; and
   * every neighbour of a visited cell is visited or may not be entered. So the visited cells
   * are the component of start that the fill can reach.
   */
  ghost predicate FloodReach(state: State, start: Cell, constraints: seq<int>, visited: seq<Cell>)
    reads state.grid, state.grid.data
    requires state.grid.Valid()
  {
    DistinctCells(visited) &&
    (forall c :: c in visited ==> InBounds(c, state.grid.width, state.grid.height) && state.grid.Value(c) <= DANGER) &&
    (|visited| == 0 <==> !StartEnters(state, start, constraints)) &&
    (|visited| > 0 ==> visited[0] == start) &&
    (forall i :: 0 < i < |visited| ==>
      visited[i] != MyLocation(state) && Admitted(state.grid.Value(visited[i]), false, constraints) && LinkedBack(visited, i)) &&
    (forall c :: c in visited ==> NeighboursSettled(state, constraints, c, visited, []))
  }

  /** The tallies of a fill: area and the counts it weighs. */
  datatype FloodTally = FloodTally(
    area: nat, enemyHeads: nat, killZones: nat, tails: nat, foods: nat,
    warnings: nat, walls: nat, dangers: nat, futures: nat)

  /** How many of the cells are on the board with value v. */
  function CountOf(grid: Grid, cells: seq<Cell>, v: int): (n: nat)
    reads grid, grid.data
    requires grid.Valid()
    ensures n <= |cells|
    decreases |cells|
  {
    if cells == [] then 0
    else
      var last := cells[|cells| - 1];
      CountOf(grid, cells[..|cells| - 1], v) + (if InBounds(last, grid.width, grid.height) && grid.Value(last) == v then 1 else 0)
  }

  /** 1 when the cell is on the board, is not our head and holds another snake's head. */
  function HeadHit(grid: Grid, head: Cell, n: Cell): nat
    reads grid, grid.data
    requires grid.Valid()
  {
    if InBounds(n, grid.width, grid.height) && n != head && IsHeadValue(grid.Value(n)) then 1 else 0
  }

  /** How many of a cell's four neighbours hold another snake's head. */
  function HeadContact(grid: Grid, head: Cell, c: Cell): nat
    reads grid, grid.data
    requires grid.Valid()
  {
    HeadHit(grid, head, Cell(c.x, c.y - 1)) + HeadHit(grid, head, Cell(c.x, c.y + 1)) +
    HeadHit(grid, head, Cell(c.x - 1, c.y)) + HeadHit(grid, head, Cell(c.x + 1, c.y))
  }

  function HeadContacts(grid: Grid, head: Cell, cells: seq<Cell>): nat
    reads grid, grid.data
    requires grid.Valid()
    decreases |cells|
  {
    if cells == [] then 0
    else HeadContacts(grid, head, cells[..|cells| - 1]) + HeadContact(grid, head, cells[|cells| - 1])
  }

  /**
   * The tallies of a fill that visited the given cells: area is the number of visited cells,
   * each category count counts visited cells of that category (danger and small danger
   * together), and the head count is one for a start on a head plus one for every
   * head next to a visited cell, counted again from every visited neighbour.
   */
  function TallyOf(state: State, start: Cell, visited: seq<Cell>): FloodTally
    reads state.grid, state.grid.data
    requires state.grid.Valid()
  {
    var g := state.grid;
    FloodTally(
      |visited|,
      (if InBounds(start, g.width, g.height) && IsHeadValue(g.Value(start)) then 1 else 0) +
        HeadContacts(g, MyLocation(state), visited),
      CountOf(g, visited, KILL_ZONE), CountOf(g, visited, TAIL), CountOf(g, visited, FOOD),
      CountOf(g, visited, WARNING), CountOf(g, visited, WALL_NEAR),
      CountOf(g, visited, DANGER) + CountOf(g, visited, SMALL_DANGER), CountOf(g, visited, FUTURE_2))
  }

  /** The fill's score: a weighted sum of area and tallies. */
  function FloodScore(t: FloodTally): real
  {
    t.area as real * BASE_WEIGHT.SPACE +
    t.tails as real * BASE_WEIGHT.TAIL +
    t.foods as real * BASE_WEIGHT.FOOD +
    t.enemyHeads as real * BASE_WEIGHT.ENEMY_HEAD +
    t.killZones as real * BASE_WEIGHT.KILL_ZONE +
    t.warnings as real * BASE_WEIGHT.WARNING +
    t.walls as real * (BASE_WEIGHT.WALL_NEAR * MULTIPLIER.WALL_NEAR_FILL) +
    t.dangers as real * (BASE_WEIGHT.DANGER * MULTIPLIER.DANGER_FILL) +
    t.futures as real * BASE_WEIGHT.FUTURE_2
  }

  /** The category tallies of visited cells add up to at most the area, and area fits on the board. */
  lemma {:induction false} TalliesWithinArea(grid: Grid, cells: seq<Cell>)
    requires grid.Valid()
    ensures CountOf(grid, cells, KILL_ZONE) + CountOf(grid, cells, TAIL) + CountOf(grid, cells, FOOD) +
      CountOf(grid, cells, WARNING) + CountOf(grid, cells, WALL_NEAR) + CountOf(grid, cells, DANGER) +
      CountOf(grid, cells, SMALL_DANGER) + CountOf(grid, cells, FUTURE_2) <= |cells|
    decreases |cells|
  {
    if cells != [] {
      TalliesWithinArea(grid, cells[..|cells| - 1]);
    }
  }

  /** A fill visits at most one cell per board cell, and its tallies stay within its area. */
  lemma FloodFitsBoard(state: State, start: Cell, constraints: seq<int>, visited: seq<Cell>)
    requires state.grid.Valid() && FloodReach(state, start, constraints, visited)
    ensures |visited| <= state.grid.width * state.grid.height
    ensures var t := TallyOf(state, start, visited);
      t.killZones + t.tails + t.foods + t.warnings + t.walls + t.dangers + t.futures <= t.area
  {
    DistinctCellsFit(visited, state.grid.width, state.grid.height);
    TalliesWithinArea(state.grid, visited);
  }

  /**
   * A fill's visited cells are fixed by the board, the start and the constraints: two lists
   * that both satisfy FloodReach hold the same cells, so they have the same tallies and score.
   */
  lemma FloodReachUnique(state: State, start: Cell, constraints: seq<int>, a: seq<Cell>, b: seq<Cell>)
    requires state.grid.Valid()
    requires FloodReach(state, start, constraints, a) && FloodReach(state, start, constraints, b)
    ensures |a| == |b| && forall c :: c in a <==> c in b
    ensures TallyOf(state, start, a) == TallyOf(state, start, b)
  {
    FloodReachWithin(state, start, constraints, a, b);
    FloodReachWithin(state, start, constraints, b, a);
    SameCellsSameCounts(state.grid, MyLocation(state), a, b);
  }

  /** Every cell one fill visits, another fill from the same start visits too. */
  lemma FloodReachWithin(state: State, start: Cell, constraints: seq<int>, a: seq<Cell>, b: seq<Cell>)
    requires state.grid.Valid()
    requires FloodReach(state, start, constraints, a) && FloodReach(state, start, constraints, b)
    ensures forall c :: c in a ==> c in b
  {
    forall i | 0 <= i < |a|
      ensures a[i] in b
    {
      VisitedWithin(state, start, constraints, a, b, i);
    }
  }

  /**
   * By induction on the visiting order: the start is visited by both, and every later cell of
   * a is next to an earlier one, which b visits, and b leaves no enterable neighbour unvisited.
   */
  lemma {:induction false} VisitedWithin(state: State, start: Cell, constraints: seq<int>, a: seq<Cell>, b: seq<Cell>, i: int)
    requires state.grid.Valid()
    requires FloodReach(state, start, constraints, a) && FloodReach(state, start, constraints, b)
    requires 0 <= i < |a|
    ensures a[i] in b
    decreases i
  {
    if i == 0 {
      assert StartEnters(state, start, constraints);
      assert b[0] == a[0];
    } else {
      assert LinkedBack(a, i);
      var j :| 0 <= j < i && GetDistance(a[j], a[i]) == 1;
      VisitedWithin(state, start, constraints, a, b, j);
      assert a[i] in a && a[j] in b;
      SettledNeighbourVisited(state, constraints, a[j], a[i], b);
    }
  }

  /** An enterable neighbour of a cell whose neighbours are all settled with an empty stack is visited. */
  lemma SettledNeighbourVisited(state: State, constraints: seq<int>, c: Cell, n: Cell, visited: seq<Cell>)
    requires state.grid.Valid() && NeighboursSettled(state, constraints, c, visited, [])
    requires GetDistance(c, n) == 1 && LaterEnterable(state, constraints, n)
    ensures n in visited
  {
    assert n == Cell(c.x, c.y - 1) || n == Cell(c.x, c.y + 1) || n == Cell(c.x - 1, c.y) || n == Cell(c.x + 1, c.y);
    assert Settled(state, constraints, n, visited, []);
  }

  /** Two lists of distinct cells with the same members have the same length and the same counts. */
  lemma {:induction false} SameCellsSameCounts(grid: Grid, head: Cell, a: seq<Cell>, b: seq<Cell>)
    requires grid.Valid() && DistinctCells(a) && DistinctCells(b)
    requires forall c :: c in a <==> c in b
    ensures |a| == |b|
    ensures HeadContacts(grid, head, a) == HeadContacts(grid, head, b)
    ensures forall v :: CountOf(grid, a, v) == CountOf(grid, b, v)
    decreases |a|
  {
    DistinctCellsCount(a);
    DistinctCellsCount(b);
    assert (set c | c in a) == (set c | c in b);
    if a != [] {
      var x := a[|a| - 1];
      assert x in b;
      var k :| 0 <= k < |b| && b[k] == x;
      var a', b' := a[..|a| - 1], b[..k] + b[k + 1..];
      DropAt(a, |a| - 1);
      assert a[..|a| - 1] + a[|a|..] == a';
      DropAt(b, k);
      forall c
        ensures c in a' <==> c in b'
      {
        assert c in a' <==> c in a && c != x;
      }
      SameCellsSameCounts(grid, head, a', b');
      RemoveAtHeads(grid, head, b, k);
      forall v
        ensures CountOf(grid, a, v) == CountOf(grid, b, v)
      {
        RemoveAtCount(grid, b, k, v);
      }
    }
  }

  /** Dropping entry k of a list of distinct cells drops exactly that cell. */
  lemma DropAt(s: seq<Cell>, k: int)
    requires DistinctCells(s) && 0 <= k < |s|
    ensures DistinctCells(s[..k] + s[k + 1..])
    ensures forall c :: c in s[..k] + s[k + 1..] <==> c in s && c != s[k]
  {
    var r := s[..k] + s[k + 1..];
    assert forall i :: 0 <= i < |r| ==> r[i] == if i < k then s[i] else s[i + 1];
    forall c | c in s && c != s[k]
      ensures c in r
    {
      var i :| 0 <= i < |s| && s[i] == c;
      assert r[if i < k then i else i - 1] == c;
    }
  }

  /** The count of v in a list is its count without entry k, plus that entry's share. */
  lemma {:induction false} RemoveAtCount(grid: Grid, s: seq<Cell>, k: int, v: int)
    requires grid.Valid() && 0 <= k < |s|
    ensures CountOf(grid, s, v) ==
      CountOf(grid, s[..k] + s[k + 1..], v) + (if InBounds(s[k], grid.width, grid.height) && grid.Value(s[k]) == v then 1 else 0)
    decreases |s|
  {
    var r := s[..k] + s[k + 1..];
    if k == |s| - 1 {
      assert r == s[..|s| - 1];
    } else {
      var init := s[..|s| - 1];
      RemoveAtCount(grid, init, k, v);
      assert r[..|r| - 1] == init[..k] + init[k + 1..];
      assert r[|r| - 1] == s[|s| - 1];
    }
  }

  /** The head contacts of a list are those without entry k, plus that entry's contacts. */
  lemma {:induction false} RemoveAtHeads(grid: Grid, head: Cell, s: seq<Cell>, k: int)
    requires grid.Valid() && 0 <= k < |s|
    ensures HeadContacts(grid, head, s) == HeadContacts(grid, head, s[..k] + s[k + 1..]) + HeadContact(grid, head, s[k])
    decreases |s|
  {
    var r := s[..k] + s[k + 1..];
    if k == |s| - 1 {
      assert r == s[..|s| - 1];
    } else {
      var init := s[..|s| - 1];
      RemoveAtHeads(grid, head, init, k);
      assert r[..|r| - 1] == init[..k] + init[k + 1..];
      assert r[|r| - 1] == s[|s| - 1];
    }
  }

  /** The fill's bookkeeping grids: same size as the board, each with its own matrix. */
  ghost predicate FillGrids(state: State, closedGrid: Grid, openGrid: Grid)
    reads state.grid, closedGrid, openGrid
  {
    state.grid.Valid() && closedGrid.Valid() && openGrid.Valid() &&
    closedGrid.width == state.grid.width && closedGrid.height == state.grid.height &&
    openGrid.width == state.grid.width && openGrid.height == state.grid.height &&
    closedGrid.data != openGrid.data && closedGrid.data != state.grid.data && openGrid.data != state.grid.data
  }

  /** The open grid marks exactly the cells on the stack. */
  ghost predicate OpenMarks(openGrid: Grid, stack: seq<Cell>)
    reads openGrid, openGrid.data
    requires openGrid.Valid()
  {
    forall c :: InBounds(c, openGrid.width, openGrid.height) ==> openGrid.Value(c) == if c in stack then 1 else 0
  }

  /** The closed grid marks exactly our head and the visited cells. */
  ghost predicate ClosedMarks(closedGrid: Grid, head: Cell, visited: seq<Cell>)
    reads closedGrid, closedGrid.data
    requires closedGrid.Valid()
  {
    forall c :: InBounds(c, closedGrid.width, closedGrid.height) ==>
      closedGrid.Value(c) == if c == head || c in visited then 1 else 0
  }

  /**
   * addToOpen: a cell on the board that is neither closed nor waiting is pushed when it is
   * passable and passes the constraints (the first-cell exemption applies while the area is
   * 0); an impassable one that holds another snake's head adds one to the head count.
   */
  method AddToOpen(cell: Cell, state: State, constraints: seq<int>, closedGrid: Grid, openGrid: Grid,
                   openStack: seq<Cell>, area: nat, ghost closed: set<Cell>)
    returns (newStack: seq<Cell>, heads: nat)
    requires FillGrids(state, closedGrid, openGrid) && OpenMarks(openGrid, openStack)
    requires InBounds(cell, closedGrid.width, closedGrid.height) ==>
      closedGrid.Value(cell) == if cell in closed then 1 else 0
    modifies openGrid.data
    ensures OpenMarks(openGrid, newStack)
    ensures
      var untouched := InBounds(cell, state.grid.width, state.grid.height) && cell !in closed && cell !in openStack;
      (newStack == if untouched && state.grid.Value(cell) <= DANGER && Admitted(state.grid.Value(cell), area == 0, constraints)
        then openStack + [cell] else openStack) &&
      (heads == if untouched && state.grid.Value(cell) > DANGER && IsHeadValue(state.grid.Value(cell)) then 1 else 0)
  {
    newStack, heads := openStack, 0;
    if !state.grid.OutOfBounds(cell) && closedGrid.Value(cell) == 0 && openGrid.Value(cell) == 0 {
      var v := state.grid.Value(cell);
      if v <= DANGER {
        for i := 0 to |constraints|
          invariant !(area == 0 && (v == KILL_ZONE || v == FUTURE_2)) ==> forall k :: 0 <= k < i ==> constraints[k] != v
        {
          if area == 0 && (v == KILL_ZONE || v == FUTURE_2) {
            break;
          }
          if v == constraints[i] {
            return;
          }
        }
        newStack := openStack + [cell];
        var _ := openGrid.UpdateCell(cell, 1);
      } else if v == ENEMY_HEAD || v == SMALL_HEAD {
        heads := 1;
      }
    }
  }

  /** removeFromOpen: takes the last cell off the stack and unmarks it in the open grid. */
  method RemoveFromOpen(openGrid: Grid, openStack: seq<Cell>) returns (cell: Cell, newStack: seq<Cell>)
    requires openGrid.Valid() && |openStack| > 0 && OpenMarks(openGrid, openStack) && DistinctCells(openStack)
    requires forall c :: c in openStack ==> InBounds(c, openGrid.width, openGrid.height)
    modifies openGrid.data
    ensures cell == openStack[|openStack| - 1] && newStack == openStack[..|openStack| - 1]
    ensures OpenMarks(openGrid, newStack)
  {
    cell := openStack[|openStack| - 1];
    newStack := openStack[..|openStack| - 1];
    assert openStack == newStack + [cell];
    var _ := openGrid.UpdateCell(cell, 0);
  }

  /** A cell the fill may enter after its first step: passable, not our head, passing the constraints. */
  ghost predicate LaterEnterable(state: State, constraints: seq<int>, c: Cell)
    reads state.grid, state.grid.data
    requires state.grid.Valid()
  {
    InBounds(c, state.grid.width, state.grid.height) && state.grid.Value(c) <= DANGER &&
    c != MyLocation(state) && Admitted(state.grid.Value(c), false, constraints)
  }

  /** The cell is a step away from some visited cell. */
  ghost predicate NextToVisited(visited: seq<Cell>, c: Cell)
  {
    exists j :: 0 <= j < |visited| && GetDistance(visited[j], c) == 1
  }

  /**
   * The shape of a fill in progress, over the visited cells and the waiting stack: both free
   * of repeats and disjoint, every cell enterable, the stack holding just the start (if it may
   * be entered) before the first visit, the start visited first, every other cell a step from
   * a visited one, and every neighbour of a visited cell dealt with.
   */
  ghost predicate FloodShape(state: State, start: Cell, constraints: seq<int>, stack: seq<Cell>, visited: seq<Cell>)
    reads state.grid, state.grid.data
    requires state.grid.Valid()
  {
    InBounds(MyLocation(state), state.grid.width, state.grid.height) &&
    DistinctCells(stack) && DistinctCells(visited) &&
    (forall c :: c in stack ==> c !in visited) &&
    (forall c :: c in stack ==> Enterable(state, start, constraints, c)) &&
    (forall c :: c in visited ==> Enterable(state, start, constraints, c)) &&
    (|visited| == 0 ==> stack == if StartEnters(state, start, constraints) then [start] else []) &&
    (|visited| > 0 ==> visited[0] == start) &&
    (|visited| > 0 ==> forall c :: c in stack ==> NextToVisited(visited, c)) &&
    (forall i :: 0 < i < |visited| ==> LinkedBack(visited, i)) &&
    (forall c :: c in visited ==> NeighboursSettled(state, constraints, c, visited, stack))
  }

  /** Settled neighbours stay settled when the visited and waiting cells together only grow. */
  lemma SettledGrows(state: State, constraints: seq<int>, visited: seq<Cell>, stack: seq<Cell>,
                     visited2: seq<Cell>, stack2: seq<Cell>)
    requires state.grid.Valid()
    requires forall c :: c in visited || c in stack ==> c in visited2 || c in stack2
    requires forall c :: c in visited ==> NeighboursSettled(state, constraints, c, visited, stack)
    ensures forall c :: c in visited ==> NeighboursSettled(state, constraints, c, visited2, stack2)
  {
  }

  /**
   * One step of the fill keeps its shape: the last waiting cell x is visited, and the cells
   * pushed after it are enterable later cells next to x.
   */
  lemma FloodShapeStep(state: State, start: Cell, constraints: seq<int>, rest: seq<Cell>, x: Cell,
                       visited: seq<Cell>, newStack: seq<Cell>)
    requires state.grid.Valid()
    requires FloodShape(state, start, constraints, rest + [x], visited)
    requires |newStack| >= |rest| && newStack[..|rest|] == rest && DistinctCells(newStack)
    requires forall i :: |rest| <= i < |newStack| ==>
      LaterEnterable(state, constraints, newStack[i]) && newStack[i] !in visited && newStack[i] != x &&
      GetDistance(x, newStack[i]) == 1
    requires NeighboursSettled(state, constraints, x, visited + [x], newStack)
    ensures FloodShape(state, start, constraints, newStack, visited + [x])
  {
    var stack := rest + [x];
    var visited2 := visited + [x];
    assert x in stack;
    forall c | c in visited || c in stack
      ensures c in visited2 || c in newStack
    {
      if c in rest {
        var i :| 0 <= i < |rest| && rest[i] == c;
        assert newStack[i] == c;
      }
    }
    SettledGrows(state, constraints, visited, stack, visited2, newStack);
    forall c | c in newStack
      ensures c !in visited2 && Enterable(state, start, constraints, c) && NextToVisited(visited2, c)
    {
      var i :| 0 <= i < |newStack| && newStack[i] == c;
      if i < |rest| {
        assert c in rest && stack[i] == c && stack[|rest|] == x;
        if |visited| > 0 {
          assert NextToVisited(visited, c);
          var j :| 0 <= j < |visited| && GetDistance(visited[j], c) == 1;
          assert visited2[j] == visited[j];
        } else {
          assert false;
        }
      } else {
        assert visited2[|visited|] == x;
      }
    }
    if |visited| == 0 {
      assert stack == [start];
    }
    forall i | 0 < i < |visited2|
      ensures LinkedBack(visited2, i)
    {
      if i < |visited| {
        assert LinkedBack(visited, i);
        var j :| 0 <= j < i && GetDistance(visited[j], visited[i]) == 1;
        assert visited2[j] == visited[j] && visited2[i] == visited[i];
      } else {
        assert NextToVisited(visited, x);
        var j :| 0 <= j < |visited| && GetDistance(visited[j], x) == 1;
        assert visited2[j] == visited[j];
      }
    }
    assert DistinctCells(visited2) by {
      assert x !in visited;
    }
  }

  /** Once the stack is empty, the visited cells are the fill's reach. */
  lemma FloodShapeDone(state: State, start: Cell, constraints: seq<int>, visited: seq<Cell>)
    requires state.grid.Valid() && FloodShape(state, start, constraints, [], visited)
    ensures FloodReach(state, start, constraints, visited)
  {
    if |visited| > 0 {
      assert visited[0] == start && Enterable(state, start, constraints, start);
    }
    forall i | 0 < i < |visited|
      ensures LaterEnterable(state, constraints, visited[i])
    {
      assert visited[i] != visited[0];
      assert Enterable(state, start, constraints, visited[i]);
    }
  }

  /** s2 is s with enterable later cells next to cell pushed on top, none of them visited. */
  ghost predicate PushedNextTo(state: State, constraints: seq<int>, visited: seq<Cell>, cell: Cell, s: seq<Cell>, s2: seq<Cell>)
    reads state.grid, state.grid.data
    requires state.grid.Valid()
  {
    |s2| >= |s| && s2[..|s|] == s && DistinctCells(s2) &&
    forall i :: |s| <= i < |s2| ==>
      LaterEnterable(state, constraints, s2[i]) && s2[i] !in visited && GetDistance(cell, s2[i]) == 1
  }

  lemma PushedNextToTrans(state: State, constraints: seq<int>, visited: seq<Cell>, cell: Cell,
                          s1: seq<Cell>, s2: seq<Cell>, s3: seq<Cell>)
    requires state.grid.Valid()
    requires PushedNextTo(state, constraints, visited, cell, s1, s2) && PushedNextTo(state, constraints, visited, cell, s2, s3)
    ensures PushedNextTo(state, constraints, visited, cell, s1, s3)
    ensures forall c :: c in s2 ==> c in s3
  {
    assert s3[..|s1|] == s3[..|s2|][..|s1|];
    forall c | c in s2 ensures c in s3 {
      var i :| 0 <= i < |s2| && s2[i] == c;
      assert s3[..|s2|][i] == c;
    }
    forall i | |s1| <= i < |s3|
      ensures LaterEnterable(state, constraints, s3[i]) && s3[i] !in visited && GetDistance(cell, s3[i]) == 1
    {
      if i < |s2| {
        assert s3[i] == s3[..|s2|][i];
      }
    }
  }

  /** What one addToOpen call after the first step does, in terms of the visited cells. */
  lemma AddToOpenStep(state: State, constraints: seq<int>, visited: seq<Cell>, cell: Cell, n: Cell,
                      s: seq<Cell>, s2: seq<Cell>, h: nat)
    requires state.grid.Valid()
    requires DistinctCells(s) && AllPassable(state, s) && AllPassable(state, visited)
    requires GetDistance(cell, n) == 1
    requires
      var untouched := InBounds(n, state.grid.width, state.grid.height) &&
        n !in ({MyLocation(state)} + set c | c in visited) && n !in s;
      (s2 == if untouched && state.grid.Value(n) <= DANGER && Admitted(state.grid.Value(n), false, constraints)
        then s + [n] else s) &&
      (h == if untouched && state.grid.Value(n) > DANGER && IsHeadValue(state.grid.Value(n)) then 1 else 0)
    ensures Settled(state, constraints, n, visited, s2)
    ensures h == HeadHit(state.grid, MyLocation(state), n)
    ensures PushedNextTo(state, constraints, visited, cell, s, s2)
    ensures AllPassable(state, s2)
  {
    assert s2[..|s|] == s;
  }

  /** Every listed cell is on the board and passable. */
  ghost predicate AllPassable(state: State, cells: seq<Cell>)
    reads state.grid, state.grid.data
    requires state.grid.Valid()
  {
    forall c :: c in cells ==> InBounds(c, state.grid.width, state.grid.height) && state.grid.Value(c) <= DANGER
  }

  /** addToOpen on a neighbour n of a visited cell, with its effect stated over the visited cells. */
  method AddNeighbour(cell: Cell, n: Cell, state: State, constraints: seq<int>, closedGrid: Grid, openGrid: Grid,
                      openStack: seq<Cell>, area: nat, ghost visited: seq<Cell>)
    returns (newStack: seq<Cell>, heads: nat)
    requires FillGrids(state, closedGrid, openGrid)
    requires OpenMarks(openGrid, openStack) && ClosedMarks(closedGrid, MyLocation(state), visited)
    requires area > 0 && DistinctCells(openStack) && GetDistance(cell, n) == 1
    requires AllPassable(state, openStack) && AllPassable(state, visited)
    modifies openGrid.data
    ensures OpenMarks(openGrid, newStack) && AllPassable(state, newStack)
    ensures PushedNextTo(state, constraints, visited, cell, openStack, newStack)
    ensures Settled(state, constraints, n, visited, newStack)
    ensures heads == HeadHit(state.grid, MyLocation(state), n)
  {
    ghost var closed := {MyLocation(state)} + set c | c in visited;
    newStack, heads := AddToOpen(n, state, constraints, closedGrid, openGrid, openStack, area, closed);
    AddToOpenStep(state, constraints, visited, cell, n, openStack, newStack, heads);
  }

  /**
   * The expansion of one visited cell: addToOpen on its four neighbours in the fill's order.
   * Afterwards every neighbour is dealt with, the stack has only grown by enterable later
   * cells next to it, and the head count has grown by the heads around it.
   */
  method ExpandNeighbours(cell: Cell, state: State, constraints: seq<int>, closedGrid: Grid, openGrid: Grid,
                          openStack: seq<Cell>, area: nat, ghost visited: seq<Cell>)
    returns (newStack: seq<Cell>, heads: nat)
    requires FillGrids(state, closedGrid, openGrid)
    requires OpenMarks(openGrid, openStack) && ClosedMarks(closedGrid, MyLocation(state), visited)
    requires area > 0 && DistinctCells(openStack)
    requires AllPassable(state, openStack) && AllPassable(state, visited)
    modifies openGrid.data
    ensures OpenMarks(openGrid, newStack) && AllPassable(state, newStack)
    ensures PushedNextTo(state, constraints, visited, cell, openStack, newStack)
    ensures NeighboursSettled(state, constraints, cell, visited, newStack)
    ensures heads == HeadContact(state.grid, MyLocation(state), cell)
  {
    var vertical, horizontal, s1;
    s1, vertical := AddTwoNeighbours(cell, Cell(cell.x, cell.y - 1), Cell(cell.x, cell.y + 1), state, constraints,
                                     closedGrid, openGrid, openStack, area, visited);
    newStack, horizontal := AddHorizontalNeighbours(cell, state, constraints, closedGrid, openGrid, openStack, s1, area, visited);
    heads := vertical + horizontal;
  }

  /** The second half of the expansion: the horizontal pair, after the vertical pair has been pushed. */
  method AddHorizontalNeighbours(cell: Cell, state: State, constraints: seq<int>, closedGrid: Grid, openGrid: Grid,
                                 openStack: seq<Cell>, s1: seq<Cell>, area: nat, ghost visited: seq<Cell>)
    returns (newStack: seq<Cell>, heads: nat)
    requires FillGrids(state, closedGrid, openGrid)
    requires OpenMarks(openGrid, s1) && ClosedMarks(closedGrid, MyLocation(state), visited)
    requires area > 0 && DistinctCells(s1)
    requires AllPassable(state, visited)
    requires PairPushed(state, constraints, visited, cell, openStack, s1, Cell(cell.x, cell.y - 1), Cell(cell.x, cell.y + 1))
    modifies openGrid.data
    ensures OpenMarks(openGrid, newStack) && AllPassable(state, newStack)
    ensures PushedNextTo(state, constraints, visited, cell, openStack, newStack)
    ensures NeighboursSettled(state, constraints, cell, visited, newStack)
    ensures heads == HeadHit(state.grid, MyLocation(state), Cell(cell.x - 1, cell.y)) +
      HeadHit(state.grid, MyLocation(state), Cell(cell.x + 1, cell.y))
  {
    newStack, heads := AddTwoNeighbours(cell, Cell(cell.x - 1, cell.y), Cell(cell.x + 1, cell.y), state, constraints,
                                        closedGrid, openGrid, s1, area, visited);
    PairsCombine(state, constraints, visited, cell, openStack, s1, newStack);
  }

  /** s2 is s with enterable later cells next to cell pushed on top, and n1 and n2 are dealt with. */
  ghost predicate PairPushed(state: State, constraints: seq<int>, visited: seq<Cell>, cell: Cell,
                             s: seq<Cell>, s2: seq<Cell>, n1: Cell, n2: Cell)
    reads state.grid, state.grid.data
    requires state.grid.Valid()
  {
    PushedNextTo(state, constraints, visited, cell, s, s2) && AllPassable(state, s2) &&
    Settled(state, constraints, n1, visited, s2) && Settled(state, constraints, n2, visited, s2)
  }

  /** The vertical and then the horizontal pair pushed: all four neighbours are dealt with. */
  lemma PairsCombine(state: State, constraints: seq<int>, visited: seq<Cell>, cell: Cell,
                     s0: seq<Cell>, s1: seq<Cell>, s2: seq<Cell>)
    requires state.grid.Valid()
    requires PairPushed(state, constraints, visited, cell, s0, s1, Cell(cell.x, cell.y - 1), Cell(cell.x, cell.y + 1))
    requires PairPushed(state, constraints, visited, cell, s1, s2, Cell(cell.x - 1, cell.y), Cell(cell.x + 1, cell.y))
    ensures PushedNextTo(state, constraints, visited, cell, s0, s2) && AllPassable(state, s2)
    ensures NeighboursSettled(state, constraints, cell, visited, s2)
  {
    PushedNextToTrans(state, constraints, visited, cell, s0, s1, s2);
  }

  /** addToOpen on two neighbours of a visited cell in turn: both are dealt with afterwards. */
  method AddTwoNeighbours(cell: Cell, n1: Cell, n2: Cell, state: State, constraints: seq<int>, closedGrid: Grid,
                          openGrid: Grid, openStack: seq<Cell>, area: nat, ghost visited: seq<Cell>)
    returns (newStack: seq<Cell>, heads: nat)
    requires FillGrids(state, closedGrid, openGrid)
    requires OpenMarks(openGrid, openStack) && ClosedMarks(closedGrid, MyLocation(state), visited)
    requires area > 0 && DistinctCells(openStack) && GetDistance(cell, n1) == 1 && GetDistance(cell, n2) == 1
    requires AllPassable(state, openStack) && AllPassable(state, visited)
    modifies openGrid.data
    ensures OpenMarks(openGrid, newStack)
    ensures PairPushed(state, constraints, visited, cell, openStack, newStack, n1, n2)
    ensures heads == HeadHit(state.grid, MyLocation(state), n1) + HeadHit(state.grid, MyLocation(state), n2)
  {
    var h1, h2, s1;
    s1, h1 := AddNeighbour(cell, n1, state, constraints, closedGrid, openGrid, openStack, area, visited);
    newStack, h2 := AddNeighbour(cell, n2, state, constraints, closedGrid, openGrid, s1, area, visited);
    PushedNextToTrans(state, constraints, visited, cell, openStack, s1, newStack);
    heads := h1 + h2;
  }

  /**
   * The flood fill from startPosition: a depth-first walk over passable cells that never
   * re-enters our head, tallying the categories it covers, scored by FloodScore. The
   * constraints list values the walk may not enter after its first cell.
   */
  method FloodFill(startPosition: Cell, state: State, constraints: seq<int> := [])
    returns (score: real, ghost visited: seq<Cell>)
    requires state.grid.Valid() && InBounds(MyLocation(state), state.grid.width, state.grid.height)
    ensures FloodReach(state, startPosition, constraints, visited)
    ensures score == FloodScore(TallyOf(state, startPosition, visited))
  {
    var tally;
    tally, visited := Fill(startPosition, state, constraints);
    score := FloodScore(tally);
  }

  /** The fill itself, from its start to an empty stack: its reach and its tallies. */
  method Fill(startPosition: Cell, state: State, constraints: seq<int>)
    returns (tally: FloodTally, ghost visited: seq<Cell>)
    requires state.grid.Valid() && InBounds(MyLocation(state), state.grid.width, state.grid.height)
    ensures FloodReach(state, startPosition, constraints, visited)
    ensures tally == TallyOf(state, startPosition, visited)
  {
    var closedGrid, openGrid, openStack;
    closedGrid, openGrid, openStack, tally := StartFill(startPosition, state, constraints);
    tally, visited := FillLoop(startPosition, state, constraints, closedGrid, openGrid, openStack, tally);
  }

  /** Every cell of the grid holds 0. */
  ghost predicate Blank(grid: Grid)
    reads grid, grid.data
    requires grid.Valid()
  {
    forall c :: InBounds(c, grid.width, grid.height) ==> grid.Value(c) == 0
  }

  /** The fill's closed and open grids, fresh, of the board's size and all 0. */
  method NewFillGrids(state: State) returns (closedGrid: Grid, openGrid: Grid)
    requires state.grid.Valid()
    ensures fresh(closedGrid) && fresh(closedGrid.data) && fresh(openGrid) && fresh(openGrid.data)
    ensures FillGrids(state, closedGrid, openGrid) && Blank(closedGrid) && OpenMarks(openGrid, [])
  {
    closedGrid := new Grid(state.grid.width, state.grid.height, 0);
    openGrid := new Grid(state.grid.width, state.grid.height, 0);
  }

  /** The start of the fill: addToOpen on the start cell with area 0, then our head closed. */
  method StartFill(startPosition: Cell, state: State, constraints: seq<int>)
    returns (closedGrid: Grid, openGrid: Grid, openStack: seq<Cell>, tally: FloodTally)
    requires state.grid.Valid() && InBounds(MyLocation(state), state.grid.width, state.grid.height)
    ensures fresh(closedGrid.data) && fresh(openGrid.data)
    ensures FillGrids(state, closedGrid, openGrid)
    ensures OpenMarks(openGrid, openStack) && ClosedMarks(closedGrid, MyLocation(state), [])
    ensures FloodShape(state, startPosition, constraints, openStack, [])
    ensures tally == TallyOf(state, startPosition, [])
  {
    closedGrid, openGrid := NewFillGrids(state);
    var heads;
    openStack, heads := AddToOpen(startPosition, state, constraints, closedGrid, openGrid, [], 0, {});
    assert FloodShape(state, startPosition, constraints, openStack, []);
    var current := MyLocation(state);
    var _ := closedGrid.UpdateCell(current, 1);
    tally := FloodTally(0, heads, 0, 0, 0, 0, 0, 0, 0);
  }

  /** The fill's main loop: pop a waiting cell, close it, count it and push its open neighbours. */
  method FillLoop(startPosition: Cell, state: State, constraints: seq<int>, closedGrid: Grid, openGrid: Grid,
                  openStack: seq<Cell>, tally: FloodTally)
    returns (counts: FloodTally, ghost visited: seq<Cell>)
    requires FillGrids(state, closedGrid, openGrid)
    requires OpenMarks(openGrid, openStack) && ClosedMarks(closedGrid, MyLocation(state), [])
    requires FloodShape(state, startPosition, constraints, openStack, [])
    requires tally == TallyOf(state, startPosition, [])
    modifies closedGrid.data, openGrid.data
    ensures FloodReach(state, startPosition, constraints, visited)
    ensures counts == TallyOf(state, startPosition, visited)
  {
    var stack := openStack;
    counts, visited := tally, [];
    ghost var g := state.grid;
    ghost var size := g.width * g.height;
    while |stack| > 0
      invariant FillGrids(state, closedGrid, openGrid)
      invariant OpenMarks(openGrid, stack) && ClosedMarks(closedGrid, MyLocation(state), visited)
      invariant FloodShape(state, startPosition, constraints, stack, visited)
      invariant |visited| <= size
      invariant counts == TallyOf(state, startPosition, visited)
      decreases size - |visited|
    {
      stack, visited, counts := FillStep(startPosition, state, constraints, closedGrid, openGrid, stack, visited, counts);
      DistinctCellsFit(visited, g.width, g.height);
    }
    FloodShapeDone(state, startPosition, constraints, visited);
  }

  /** One pass of the fill loop: visit the top waiting cell and push its open neighbours. */
  method FillStep(startPosition: Cell, state: State, constraints: seq<int>, closedGrid: Grid, openGrid: Grid,
                  stack: seq<Cell>, ghost visited: seq<Cell>, counts: FloodTally)
    returns (newStack: seq<Cell>, ghost newVisited: seq<Cell>, newCounts: FloodTally)
    requires FillGrids(state, closedGrid, openGrid) && |stack| > 0
    requires OpenMarks(openGrid, stack) && ClosedMarks(closedGrid, MyLocation(state), visited)
    requires FloodShape(state, startPosition, constraints, stack, visited)
    requires counts == TallyOf(state, startPosition, visited)
    modifies closedGrid.data, openGrid.data
    ensures OpenMarks(openGrid, newStack) && ClosedMarks(closedGrid, MyLocation(state), newVisited)
    ensures FloodShape(state, startPosition, constraints, newStack, newVisited)
    ensures newCounts == TallyOf(state, startPosition, newVisited)
    ensures |newVisited| == |visited| + 1
  {
    var nextMove, rest;
    nextMove, rest, newCounts := VisitTop(startPosition, state, closedGrid, openGrid, stack, visited, counts);
    newVisited := visited + [nextMove];
    newStack, newCounts := ExpandAndReshape(startPosition, state, constraints, closedGrid, openGrid, stack, nextMove, visited, newCounts);
  }

  /** The expansion of the cell just visited, restated as the fill invariant for one more visited cell. */
  method ExpandAndReshape(startPosition: Cell, state: State, constraints: seq<int>, closedGrid: Grid, openGrid: Grid,
                          stack: seq<Cell>, x: Cell, ghost visited: seq<Cell>, counts: FloodTally)
    returns (newStack: seq<Cell>, newCounts: FloodTally)
    requires FillGrids(state, closedGrid, openGrid) && |stack| > 0 && x == stack[|stack| - 1]
    requires OpenMarks(openGrid, stack[..|stack| - 1]) && ClosedMarks(closedGrid, MyLocation(state), visited + [x])
    requires FloodShape(state, startPosition, constraints, stack, visited)
    requires counts.(enemyHeads := counts.enemyHeads + HeadContact(state.grid, MyLocation(state), x)) ==
      TallyOf(state, startPosition, visited + [x])
    modifies openGrid.data
    ensures OpenMarks(openGrid, newStack) && ClosedMarks(closedGrid, MyLocation(state), visited + [x])
    ensures FloodShape(state, startPosition, constraints, newStack, visited + [x])
    ensures newCounts == TallyOf(state, startPosition, visited + [x])
  {
    newStack, newCounts := ExpandStep(startPosition, state, constraints, closedGrid, openGrid, stack, x, visited, counts);
    FloodShapeAfterExpand(state, startPosition, constraints, stack, x, visited, newStack);
  }

  /** Every waiting and visited cell of a fill is on the board and passable. */
  lemma ShapePassable(state: State, start: Cell, constraints: seq<int>, stack: seq<Cell>, visited: seq<Cell>)
    requires state.grid.Valid() && |stack| > 0 && FloodShape(state, start, constraints, stack, visited)
    ensures DistinctCells(stack[..|stack| - 1]) && AllPassable(state, stack[..|stack| - 1])
    ensures AllPassable(state, visited + [stack[|stack| - 1]])
  {
    var rest := stack[..|stack| - 1];
    assert stack == rest + [stack[|stack| - 1]];
    forall i, j | 0 <= i < j < |rest|
      ensures rest[i] != rest[j]
    {
      assert rest[i] == stack[i] && rest[j] == stack[j];
    }
    forall c | c in rest
      ensures InBounds(c, state.grid.width, state.grid.height) && state.grid.Value(c) <= DANGER
    {
      assert c in stack && Enterable(state, start, constraints, c);
    }
    forall c | c in visited + [stack[|stack| - 1]]
      ensures InBounds(c, state.grid.width, state.grid.height) && state.grid.Value(c) <= DANGER
    {
      assert c in stack || c in visited;
      assert Enterable(state, start, constraints, c);
    }
  }

  /** The second half of a pass: push the open neighbours of the cell just visited and count their heads. */
  method ExpandStep(startPosition: Cell, state: State, constraints: seq<int>, closedGrid: Grid, openGrid: Grid,
                    stack: seq<Cell>, x: Cell, ghost visited: seq<Cell>, counts: FloodTally)
    returns (newStack: seq<Cell>, newCounts: FloodTally)
    requires FillGrids(state, closedGrid, openGrid) && |stack| > 0 && x == stack[|stack| - 1]
    requires OpenMarks(openGrid, stack[..|stack| - 1]) && ClosedMarks(closedGrid, MyLocation(state), visited + [x])
    requires FloodShape(state, startPosition, constraints, stack, visited)
    requires counts.(enemyHeads := counts.enemyHeads + HeadContact(state.grid, MyLocation(state), x)) ==
      TallyOf(state, startPosition, visited + [x])
    modifies openGrid.data
    ensures OpenMarks(openGrid, newStack) && ClosedMarks(closedGrid, MyLocation(state), visited + [x])
    ensures PushedNextTo(state, constraints, visited + [x], x, stack[..|stack| - 1], newStack)
    ensures NeighboursSettled(state, constraints, x, visited + [x], newStack)
    ensures newCounts == TallyOf(state, startPosition, visited + [x])
  {
    ShapePassable(state, startPosition, constraints, stack, visited);
    var heads;
    newStack, heads := ExpandNeighbours(x, state, constraints, closedGrid, openGrid, stack[..|stack| - 1], counts.area, visited + [x]);
    newCounts := counts.(enemyHeads := counts.enemyHeads + heads);
  }

  /**
   * The first half of a pass of the fill loop: pop the top waiting cell, close it, and count its
   * value and the area; the head contacts are counted when its neighbours are pushed.
   */
  method VisitTop(startPosition: Cell, state: State, closedGrid: Grid, openGrid: Grid,
                  stack: seq<Cell>, ghost visited: seq<Cell>, counts: FloodTally)
    returns (x: Cell, rest: seq<Cell>, newCounts: FloodTally)
    requires FillGrids(state, closedGrid, openGrid) && |stack| > 0 && DistinctCells(stack)
    requires OpenMarks(openGrid, stack) && ClosedMarks(closedGrid, MyLocation(state), visited)
    requires AllPassable(state, stack)
    requires counts == TallyOf(state, startPosition, visited)
    modifies closedGrid.data, openGrid.data
    ensures x == stack[|stack| - 1] && rest == stack[..|stack| - 1]
    ensures OpenMarks(openGrid, rest) && ClosedMarks(closedGrid, MyLocation(state), visited + [x])
    ensures newCounts.(enemyHeads := newCounts.enemyHeads + HeadContact(state.grid, MyLocation(state), x)) ==
      TallyOf(state, startPosition, visited + [x])
  {
    x, rest := PopAndClose(state, closedGrid, openGrid, stack, visited);
    newCounts := CountVisit(state, startPosition, visited, x, counts);
  }

  /** Pop the top waiting cell off the stack and the open grid, and mark it on the closed grid. */
  method PopAndClose(state: State, closedGrid: Grid, openGrid: Grid, stack: seq<Cell>, ghost visited: seq<Cell>)
    returns (x: Cell, rest: seq<Cell>)
    requires FillGrids(state, closedGrid, openGrid) && |stack| > 0 && DistinctCells(stack)
    requires OpenMarks(openGrid, stack) && ClosedMarks(closedGrid, MyLocation(state), visited)
    requires AllPassable(state, stack)
    modifies closedGrid.data, openGrid.data
    ensures x == stack[|stack| - 1] && rest == stack[..|stack| - 1]
    ensures OpenMarks(openGrid, rest) && ClosedMarks(closedGrid, MyLocation(state), visited + [x])
  {
    x, rest := RemoveFromOpen(openGrid, stack);
    var _ := closedGrid.UpdateCell(x, 1);
  }

  /** Count a newly visited cell: one more area, and one more in the category its value falls in. */
  method CountVisit(state: State, start: Cell, ghost visited: seq<Cell>, x: Cell, counts: FloodTally)
    returns (newCounts: FloodTally)
    requires state.grid.Valid() && InBounds(x, state.grid.width, state.grid.height)
    requires counts == TallyOf(state, start, visited)
    ensures newCounts.(enemyHeads := newCounts.enemyHeads + HeadContact(state.grid, MyLocation(state), x)) ==
      TallyOf(state, start, visited + [x])
  {
    newCounts := counts;
    var v := state.grid.Value(x);
    if v == TAIL {
      newCounts := newCounts.(tails := newCounts.tails + 1);
    } else if v == KILL_ZONE {
      newCounts := newCounts.(killZones := newCounts.killZones + 1);
    } else if v == FOOD {
      newCounts := newCounts.(foods := newCounts.foods + 1);
    } else if v == WALL_NEAR {
      newCounts := newCounts.(walls := newCounts.walls + 1);
    } else if v == WARNING {
      newCounts := newCounts.(warnings := newCounts.warnings + 1);
    } else if v == DANGER || v == SMALL_DANGER {
      newCounts := newCounts.(dangers := newCounts.dangers + 1);
    } else if v == FUTURE_2 {
      newCounts := newCounts.(futures := newCounts.futures + 1);
    }
    newCounts := newCounts.(area := newCounts.area + 1);
    TallyStep(state, start, visited, x);
  }

  /** One pass of the loop body keeps the fill's shape: the top cell is visited and its open neighbours pushed. */
  lemma FloodShapeAfterExpand(state: State, start: Cell, constraints: seq<int>, stack: seq<Cell>, x: Cell,
                              visited: seq<Cell>, newStack: seq<Cell>)
    requires state.grid.Valid()
    requires |stack| > 0 && x == stack[|stack| - 1]
    requires FloodShape(state, start, constraints, stack, visited)
    requires PushedNextTo(state, constraints, visited + [x], x, stack[..|stack| - 1], newStack)
    requires NeighboursSettled(state, constraints, x, visited + [x], newStack)
    ensures FloodShape(state, start, constraints, newStack, visited + [x])
  {
    var rest := stack[..|stack| - 1];
    assert stack == rest + [x];
    forall i | |rest| <= i < |newStack|
      ensures newStack[i] !in visited && newStack[i] != x
    {
      assert newStack[i] !in visited + [x];
    }
    FloodShapeStep(state, start, constraints, rest, x, visited, newStack);
  }

  /** Visiting one more on-board cell adds one to the area, its head contacts to the head count, and one to the count its value falls in. */
  lemma TallyStep(state: State, start: Cell, visited: seq<Cell>, x: Cell)
    requires state.grid.Valid() && InBounds(x, state.grid.width, state.grid.height)
    ensures
      var t := TallyOf(state, start, visited);
      var v := state.grid.Value(x);
      TallyOf(state, start, visited + [x]) == FloodTally(
        t.area + 1, t.enemyHeads + HeadContact(state.grid, MyLocation(state), x),
        t.killZones + (if v == KILL_ZONE then 1 else 0), t.tails + (if v == TAIL then 1 else 0),
        t.foods + (if v == FOOD then 1 else 0), t.warnings + (if v == WARNING then 1 else 0),
        t.walls + (if v == WALL_NEAR then 1 else 0),
        t.dangers + (if v == DANGER || v == SMALL_DANGER then 1 else 0),
        t.futures + (if v == FUTURE_2 then 1 else 0))
  {
    assert (visited + [x])[..|visited|] == visited;
  }

  // ---------------------------------------------------------------------------------------
  // Flood bias
  // ---------------------------------------------------------------------------------------

  /** A move onto the board and onto a cell below a snake body: the moves the searches score. */
  predicate OpenMove(state: State, next: Cell)
    reads state.grid, state.grid.data
    requires state.grid.Valid()
  {
    !state.grid.OutOfBounds(next) && state.grid.Value(next) < SNAKE_BODY
  }

  /**
   * A slot of the flood bias: an open move scores the weighted tallies of some complete,
   * unconstrained fill from the cell it lands on; any other move scores 0.
   */
  ghost predicate FloodSlot(state: State, m: int, x: real)
    reads state.grid, state.grid.data
    requires state.grid.Valid()
  {
    var next := ApplyMoveToCell(m, MyLocation(state));
    if OpenMove(state, next) then
      exists visited :: FloodReach(state, next, [], visited) && x == FloodScore(TallyOf(state, next, visited))
    else x == 0.0
  }

  ghost predicate IsFloodBias(state: State, scores: seq<Number>)
    reads state.grid, state.grid.data
    requires state.grid.Valid()
  {
    |scores| == 4 && forall m :: 0 <= m < 4 ==> scores[m].Num? && FloodSlot(state, m, scores[m].value)
  }

  method FloodBias(state: State) returns (scores: seq<Number>)
    requires state.grid.Valid() && InBounds(MyLocation(state), state.grid.width, state.grid.height)
    ensures IsFloodBias(state, scores)
  {
    var raw := [0.0, 0.0, 0.0, 0.0];
    var myHead := MyLocation(state);
    for move := 0 to 4
      invariant |raw| == 4
      invariant forall m :: 0 <= m < move ==> FloodSlot(state, m, raw[m])
      invariant forall m :: move <= m < 4 ==> raw[m] == 0.0
    {
      var startPosition := ApplyMoveToCell(move, myHead);
      if !state.grid.OutOfBounds(startPosition) && state.grid.Value(startPosition) < SNAKE_BODY {
        var score, visited := FloodFill(startPosition, state);
        raw := raw[move := raw[move] + score];
      }
    }
    scores := [Num(raw[0]), Num(raw[1]), Num(raw[2]), Num(raw[3])];
  }

  /** A flood-bias slot has one possible value, so IsFloodBias names a single vector. */
  lemma FloodSlotUnique(state: State, m: int, x: real, y: real)
    requires state.grid.Valid() && FloodSlot(state, m, x) && FloodSlot(state, m, y)
    ensures x == y
  {
    var next := ApplyMoveToCell(m, MyLocation(state));
    if OpenMove(state, next) {
      var a :| FloodReach(state, next, [], a) && x == FloodScore(TallyOf(state, next, a));
      var b :| FloodReach(state, next, [], b) && y == FloodScore(TallyOf(state, next, b));
      FloodReachUnique(state, next, [], a, b);
    }
  }

  /** A flood-bias slot never counts more area than the board has, nor more tallied cells than its area. */
  lemma FloodSlotFitsBoard(state: State, m: int, x: real)
    requires state.grid.Valid() && FloodSlot(state, m, x)
    requires OpenMove(state, ApplyMoveToCell(m, MyLocation(state)))
    ensures exists visited ::
      var next := ApplyMoveToCell(m, MyLocation(state));
      var t := TallyOf(state, next, visited);
      x == FloodScore(t) && 1 <= t.area <= state.grid.width * state.grid.height &&
      t.killZones + t.tails + t.foods + t.warnings + t.walls + t.dangers + t.futures <= t.area
  {
    var next := ApplyMoveToCell(m, MyLocation(state));
    var visited :| FloodReach(state, next, [], visited) && x == FloodScore(TallyOf(state, next, visited));
    FloodFitsBoard(state, next, [], visited);
    assert StartEnters(state, next, []);
  }

  // ---------------------------------------------------------------------------------------
  // Scores for lists of targets
  // ---------------------------------------------------------------------------------------

  /** The cells getAll(t) returns: the on-board cells holding t, each once, in row-major order. */
  ghost predicate AllOfType(grid: Grid, t: int, cells: seq<Cell>)
    reads grid, grid.data
    requires grid.Valid()
  {
    (forall c :: c in cells <==> InBounds(c, grid.width, grid.height) && grid.Value(c) == t) &&
    (forall i, j :: 0 <= i < j < |cells| ==> RowMajorBefore(cells[i], cells[j]))
  }

  /**
   * What a path search from next to target may report as (found, distance): found exactly when
   * next is an open move, target is on the board and reachable avoiding snake bodies; then the
   * distance is at least the Manhattan distance, 0 when the two cells coincide, and otherwise
   * the number of steps of a path from next to target that avoids snake bodies.
   */
  ghost predicate SearchOutcome(state: State, next: Cell, target: Cell, outcome: (bool, int))
    reads state.grid, state.grid.data
    requires state.grid.Valid()
  {
    (outcome.0 <==>
      (OpenMove(state, next) && InBounds(target, state.grid.width, state.grid.height) &&
       Astar.Reachable(state.grid, next, target, SNAKE_BODY))) &&
    (outcome.0 ==> outcome.1 >= GetDistance(next, target) && (next == target ==> outcome.1 == 0)) &&
    (outcome.0 && next != target ==>
      exists p :: Astar.IsPath(state.grid, p, SNAKE_BODY) && p[0] == next && p[|p| - 1] == target &&
        outcome.1 == |p| - 1)
  }

  /** The scores of the found outcomes, summed in target order. */
  function TargetSum(scoring: (int, Cell) -> real, start: Cell, outcomes: seq<(bool, int)>): real
    decreases |outcomes|
  {
    if outcomes == [] then 0.0
    else
      var last := outcomes[|outcomes| - 1];
      TargetSum(scoring, start, outcomes[..|outcomes| - 1]) + (if last.0 then scoring(last.1, start) else 0.0)
  }

  /** A slot of getScoresForTargets: the scorer summed over the targets the move's search found. */
  ghost predicate TargetSlot(state: State, start: Cell, targets: seq<Cell>, scoring: (int, Cell) -> real, m: int, x: real)
    reads state.grid, state.grid.data
    requires state.grid.Valid()
  {
    exists outcomes :: SearchOutcomes(state, ApplyMoveToCell(m, start), targets, outcomes) &&
      x == TargetSum(scoring, start, outcomes)
  }

  /** One search outcome per target, in target order. */
  ghost predicate SearchOutcomes(state: State, next: Cell, targets: seq<Cell>, outcomes: seq<(bool, int)>)
    reads state.grid, state.grid.data
    requires state.grid.Valid()
  {
    |outcomes| == |targets| &&
    forall i :: 0 <= i < |targets| ==> SearchOutcome(state, next, targets[i], outcomes[i])
  }

  ghost predicate IsTargetScores(state: State, start: Cell, targets: seq<Cell>, scoring: (int, Cell) -> real, scores: seq<Number>)
    reads state.grid, state.grid.data
    requires state.grid.Valid()
  {
    |scores| == 4 && forall m :: 0 <= m < 4 ==> scores[m].Num? && TargetSlot(state, start, targets, scoring, m, scores[m].value)
  }

  method GetScoresForTargets(startPosition: Cell, targets: seq<Cell>, scoring: (int, Cell) -> real, state: State)
    returns (scores: seq<Number>)
    requires state.grid.Valid() && Astar.SearchableSize(state.grid.width, state.grid.height)
    ensures IsTargetScores(state, startPosition, targets, scoring, scores)
  {
    var raw := [0.0, 0.0, 0.0, 0.0];
    ghost var outcomes: seq<seq<(bool, int)>> := [[], [], [], []];
    for i := 0 to |targets|
      invariant |raw| == 4 && |outcomes| == 4
      invariant forall m :: 0 <= m < 4 ==> OutcomesSoFar(state, startPosition, targets, scoring, m, i, outcomes[m], raw[m])
    {
      raw, outcomes := ScoreTargetFromMoves(startPosition, targets, i, scoring, state, raw, outcomes);
    }
    scores := [Num(raw[0]), Num(raw[1]), Num(raw[2]), Num(raw[3])];
    forall m | 0 <= m < 4
      ensures TargetSlot(state, startPosition, targets, scoring, m, scores[m].value)
    {
      assert OutcomesSoFar(state, startPosition, targets, scoring, m, |targets|, outcomes[m], raw[m]);
    }
  }

  /** One target of getScoresForTargets: its search from each of the four moves, added to their slots. */
  method ScoreTargetFromMoves(startPosition: Cell, targets: seq<Cell>, i: int, scoring: (int, Cell) -> real, state: State,
                              raw: seq<real>, ghost outcomes: seq<seq<(bool, int)>>)
    returns (newRaw: seq<real>, ghost newOutcomes: seq<seq<(bool, int)>>)
    requires state.grid.Valid() && Astar.SearchableSize(state.grid.width, state.grid.height)
    requires 0 <= i < |targets| && |raw| == 4 && |outcomes| == 4
    requires forall m :: 0 <= m < 4 ==> OutcomesSoFar(state, startPosition, targets, scoring, m, i, outcomes[m], raw[m])
    ensures |newRaw| == 4 && |newOutcomes| == 4
    ensures forall m :: 0 <= m < 4 ==> OutcomesSoFar(state, startPosition, targets, scoring, m, i + 1, newOutcomes[m], newRaw[m])
  {
    newRaw, newOutcomes := raw, outcomes;
    var target := targets[i];
    for move := 0 to 4
      invariant |newRaw| == 4 && |newOutcomes| == 4
      invariant forall m :: 0 <= m < move ==> OutcomesSoFar(state, startPosition, targets, scoring, m, i + 1, newOutcomes[m], newRaw[m])
      invariant forall m :: move <= m < 4 ==> OutcomesSoFar(state, startPosition, targets, scoring, m, i, newOutcomes[m], newRaw[m])
    {
      var add, outcome := ScoreTarget(startPosition, move, target, scoring, state);
      OutcomesStep(state, startPosition, targets, scoring, move, i, newOutcomes[move], newRaw[move], outcome);
      newRaw := newRaw[move := newRaw[move] + add];
      newOutcomes := newOutcomes[move := newOutcomes[move] + [outcome]];
    }
  }

  /** One target and one move of getScoresForTargets: search from the move's cell if it is open. */
  method ScoreTarget(startPosition: Cell, move: int, target: Cell, scoring: (int, Cell) -> real, state: State)
    returns (add: real, ghost outcome: (bool, int))
    requires state.grid.Valid() && Astar.SearchableSize(state.grid.width, state.grid.height)
    ensures SearchOutcome(state, ApplyMoveToCell(move, startPosition), target, outcome)
    ensures add == if outcome.0 then scoring(outcome.1, startPosition) else 0.0
  {
    var movePosition := ApplyMoveToCell(move, startPosition);
    add, outcome := 0.0, (false, 0);
    if !state.grid.OutOfBounds(movePosition) && state.grid.Value(movePosition) < SNAKE_BODY {
      var searchResult := Astar.Astar(movePosition, target, state, SNAKE_BODY, true);
      if searchResult.success {
        add := scoring(searchResult.distance, startPosition);
      }
      outcome := (searchResult.success, searchResult.distance);
    }
  }

  /** The loop invariant of getScoresForTargets for one slot after the first i targets. */
  ghost predicate OutcomesSoFar(state: State, start: Cell, targets: seq<Cell>, scoring: (int, Cell) -> real,
                                m: int, i: int, outcomes: seq<(bool, int)>, x: real)
    reads state.grid, state.grid.data
    requires state.grid.Valid()
  {
    0 <= i <= |targets| && |outcomes| == i &&
    (forall k :: 0 <= k < i ==> SearchOutcome(state, ApplyMoveToCell(m, start), targets[k], outcomes[k])) &&
    x == TargetSum(scoring, start, outcomes)
  }

  lemma OutcomesStep(state: State, start: Cell, targets: seq<Cell>, scoring: (int, Cell) -> real,
                     m: int, i: int, outcomes: seq<(bool, int)>, x: real, outcome: (bool, int))
    requires state.grid.Valid() && 0 <= i < |targets|
    requires OutcomesSoFar(state, start, targets, scoring, m, i, outcomes, x)
    requires SearchOutcome(state, ApplyMoveToCell(m, start), targets[i], outcome)
    ensures OutcomesSoFar(state, start, targets, scoring, m, i + 1, outcomes + [outcome],
      x + if outcome.0 then scoring(outcome.1, start) else 0.0)
  {
    assert (outcomes + [outcome])[..|outcomes|] == outcomes;
  }

  lemma {:induction false} TargetSumOfMisses(scoring: (int, Cell) -> real, start: Cell, outcomes: seq<(bool, int)>)
    requires forall i :: 0 <= i < |outcomes| ==> !outcomes[i].0
    ensures TargetSum(scoring, start, outcomes) == 0.0
    decreases |outcomes|
  {
    if outcomes != [] {
      TargetSumOfMisses(scoring, start, outcomes[..|outcomes| - 1]);
    }
  }

  lemma {:induction false} TargetSumNonNegative(scoring: (int, Cell) -> real, start: Cell, outcomes: seq<(bool, int)>)
    requires forall d: int :: scoring(d, start) >= 0.0
    ensures TargetSum(scoring, start, outcomes) >= 0.0
    decreases |outcomes|
  {
    if outcomes != [] {
      TargetSumNonNegative(scoring, start, outcomes[..|outcomes| - 1]);
    }
  }

  /**
   * A slot stays 0 unless its move is open and some target is on the board and reachable from
   * the cell it lands on; in particular a move off the board or onto a body scores 0.
   */
  lemma UnreachedTargetsScoreZero(state: State, start: Cell, targets: seq<Cell>, scoring: (int, Cell) -> real,
                                  scores: seq<Number>, m: int)
    requires state.grid.Valid() && IsTargetScores(state, start, targets, scoring, scores) && 0 <= m < 4
    requires forall i :: 0 <= i < |targets| ==>
      !(OpenMove(state, ApplyMoveToCell(m, start)) && InBounds(targets[i], state.grid.width, state.grid.height) &&
        Astar.Reachable(state.grid, ApplyMoveToCell(m, start), targets[i], SNAKE_BODY))
    ensures scores[m] == Num(0.0)
  {
    assert TargetSlot(state, start, targets, scoring, m, scores[m].value);
    var outcomes :| SearchOutcomes(state, ApplyMoveToCell(m, start), targets, outcomes) &&
      scores[m].value == TargetSum(scoring, start, outcomes);
    TargetSumOfMisses(scoring, start, outcomes);
  }

  /** With a scorer that is never negative (as the eating and hunting scorers are), no slot is negative. */
  lemma TargetScoresNonNegative(state: State, start: Cell, targets: seq<Cell>, scoring: (int, Cell) -> real,
                                scores: seq<Number>)
    requires state.grid.Valid() && IsTargetScores(state, start, targets, scoring, scores)
    requires forall d: int :: scoring(d, start) >= 0.0
    ensures forall m :: 0 <= m < 4 ==> scores[m].value >= 0.0
  {
    forall m | 0 <= m < 4
      ensures scores[m].value >= 0.0
    {
      assert TargetSlot(state, start, targets, scoring, m, scores[m].value);
      var outcomes :| SearchOutcomes(state, ApplyMoveToCell(m, start), targets, outcomes) &&
        scores[m].value == TargetSum(scoring, start, outcomes);
      TargetSumNonNegative(scoring, start, outcomes);
    }
  }

  lemma FirstIsMember(s: seq<Cell>)
    ensures |s| > 0 ==> s[0] in s
  {
  }

  /** Two row-major sorted lists of the same cells are the same list. */
  lemma {:induction false} SortedCellsUnique(a: seq<Cell>, b: seq<Cell>)
    requires forall i, j :: 0 <= i < j < |a| ==> RowMajorBefore(a[i], a[j])
    requires forall i, j :: 0 <= i < j < |b| ==> RowMajorBefore(b[i], b[j])
    requires forall c :: c in a <==> c in b
    ensures a == b
    decreases |a|
  {
    if a == [] {
      FirstIsMember(b);
      assert |b| == 0;
    } else {
      assert a[0] in b && b != [] && b[0] in a;
      assert a[0] == b[0];
      forall c
        ensures c in a[1..] <==> c in b[1..]
      {
        if c in a[1..] {
          var i :| 1 <= i < |a| && a[i] == c;
          assert RowMajorBefore(a[0], a[i]);
          assert c in b;
        }
        if c in b[1..] {
          var i :| 1 <= i < |b| && b[i] == c;
          assert RowMajorBefore(b[0], b[i]);
          assert c in a;
        }
      }
      SortedCellsUnique(a[1..], b[1..]);
      assert a == [a[0]] + a[1..] && b == [b[0]] + b[1..];
    }
  }

  /** getAll's contract pins its result down: there is only one list it can return. */
  lemma AllOfTypeUnique(grid: Grid, t: int, a: seq<Cell>, b: seq<Cell>)
    requires grid.Valid() && AllOfType(grid, t, a) && AllOfType(grid, t, b)
    ensures a == b
  {
    SortedCellsUnique(a, b);
  }

  // ---------------------------------------------------------------------------------------
  // Eating and hunting scores
  // ---------------------------------------------------------------------------------------

  /**
   * Scores for eating the given food: each food scored from our head with the eating scorer
   * (the urgency-scaled decay of the path length).
   */
  method EatingScoresFromListOfFood(foods: seq<Cell>, state: State, foodScoring: (int, Cell) -> real)
    returns (scores: seq<Number>)
    requires state.grid.Valid() && Astar.SearchableSize(state.grid.width, state.grid.height)
    ensures IsTargetScores(state, MyLocation(state), foods, foodScoring, scores)
  {
    scores := GetScoresForTargets(MyLocation(state), foods, foodScoring, state);
  }

  /** Scores for eating the food listed in the request. */
  method EatingScoresFromState(foodScoring: (int, Cell) -> real, state: State) returns (scores: seq<Number>)
    requires state.grid.Valid() && Astar.SearchableSize(state.grid.width, state.grid.height)
    ensures IsTargetScores(state, MyLocation(state), state.board.food, foodScoring, scores)
  {
    scores := EatingScoresFromListOfFood(state.board.food, state, foodScoring);
  }

  /** Scores aimed at every on-board cell of category t, found by getAll. */
  ghost predicate TypeScores(state: State, t: int, scoring: (int, Cell) -> real, scores: seq<Number>)
    reads state.grid, state.grid.data
    requires state.grid.Valid()
  {
    exists cells :: AllOfType(state.grid, t, cells) && IsTargetScores(state, MyLocation(state), cells, scoring, scores)
  }

  /**
   * Scores for eating the food marked in the grid; when they offer no move, the request's food
   * list is scored instead.
   */
  ghost predicate IsGridEatingScores(state: State, foodScoring: (int, Cell) -> real, scores: seq<Number>)
    reads state.grid, state.grid.data
    requires state.grid.Valid()
  {
    exists first :: TypeScores(state, FOOD, foodScoring, first) &&
      (HasMove(first) ==> scores == first) &&
      (!HasMove(first) ==> IsTargetScores(state, MyLocation(state), state.board.food, foodScoring, scores))
  }

  method EatingScoresFromGrid(foodScoring: (int, Cell) -> real, state: State) returns (scores: seq<Number>)
    requires state.grid.Valid() && Astar.SearchableSize(state.grid.width, state.grid.height)
    ensures IsGridEatingScores(state, foodScoring, scores)
  {
    var foods := state.grid.GetAll(FOOD);
    scores := EatingScoresFromListOfFood(foods, state, foodScoring);
    ghost var first := scores;
    assert AllOfType(state.grid, FOOD, foods);
    var found := MoveInScores(scores);
    if !found {
      scores := EatingScoresFromState(foodScoring, state);
    }
  }

  /** Scores for hunting the kill zones marked in the grid. */
  method HuntingScoresForAccessibleKillzones(state: State, killScoring: (int, Cell) -> real) returns (scores: seq<Number>)
    requires state.grid.Valid() && Astar.SearchableSize(state.grid.width, state.grid.height)
    ensures TypeScores(state, KILL_ZONE, killScoring, scores)
  {
    var killzones := state.grid.GetAll(KILL_ZONE);
    scores := GetScoresForTargets(MyLocation(state), killzones, killScoring, state);
    assert AllOfType(state.grid, KILL_ZONE, killzones);
  }

  /** Scores for hunting the cells two moves ahead of smaller snakes. */
  method HuntingScoresForAccessibleFuture2(state: State, futureScoring: (int, Cell) -> real) returns (scores: seq<Number>)
    requires state.grid.Valid() && Astar.SearchableSize(state.grid.width, state.grid.height)
    ensures TypeScores(state, FUTURE_2, futureScoring, scores)
  {
    var future2s := state.grid.GetAll(FUTURE_2);
    scores := GetScoresForTargets(MyLocation(state), future2s, futureScoring, state);
    assert AllOfType(state.grid, FUTURE_2, future2s);
  }

  /** A board without cells of category t gives no move to aim at: every slot is 0. */
  lemma NoTargetsNoMove(state: State, t: int, scoring: (int, Cell) -> real, scores: seq<Number>)
    requires state.grid.Valid() && TypeScores(state, t, scoring, scores)
    requires forall c :: InBounds(c, state.grid.width, state.grid.height) ==> state.grid.Value(c) != t
    ensures !HasMove(scores)
  {
    var cells :| AllOfType(state.grid, t, cells) && IsTargetScores(state, MyLocation(state), cells, scoring, scores);
    forall m | 0 <= m < 4
      ensures scores[m] == Num(0.0)
    {
      UnreachedTargetsScoreZero(state, MyLocation(state), cells, scoring, scores, m);
    }
  }
}
