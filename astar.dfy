/**
 * Best-first (A*) path search over the semantic grid (src/app/astar.ts). The search avoids
 * cells whose category is at or above a threshold, except that the destination is accepted
 * whatever it holds.
 */
module Astar {
  import opened Keys
  import opened Types
  import opened Utils
  import opened SemanticGrid
  import opened TurnState

  datatype AstarSearchResult = AstarSearchResult(success: bool, distance: int, position: Cell)

  /** A search result; a failure carries distance 9999 and position (1, 1). */
  function NewResult(success: bool, distance: int := 9999, position: Cell := Cell(1, 1)): (r: AstarSearchResult)
    ensures r.success == success
    ensures distance == 9999 ==> forall w, h :: SearchableSize(w, h) && 0 <= w && 0 <= h ==> r.distance > w * h
  {
    AstarSearchResult(success, distance, position)
  }

  /**
   * One cell of the search's score grid: cost so far g, estimate h, priority f, the cell's
   * category, its on-board neighbours and the cell it was reached from.
   */
  datatype AstarScoreCell = AstarScoreCell(
    f: int, g: int, h: int, cell: Cell, value: int, neighbors: seq<Cell>, previous: Cell)

  /** The on-board neighbours of a cell, in the order right, left, up, down. */
  function NeighborsOf(cell: Cell, width: int, height: int): (r: seq<Cell>)
    ensures InBounds(cell, width, height) ==>
      forall n :: n in r <==> InBounds(n, width, height) && GetDistance(cell, n) == 1
    ensures |r| <= 4 && DistinctCells(r)
  {
    (if cell.x < width - 1 then [Cell(cell.x + 1, cell.y)] else []) +
    (if cell.x > 0 then [Cell(cell.x - 1, cell.y)] else []) +
    (if cell.y < height - 1 then [Cell(cell.x, cell.y + 1)] else []) +
    (if cell.y > 0 then [Cell(cell.x, cell.y - 1)] else [])
  }

  /** A fresh score cell: zero scores, no predecessor (an off-board marker), the grid's category. */
  function NewScoreCell(cell: Cell, grid: Grid): (r: AstarScoreCell)
    reads grid, grid.data
    requires grid.Valid() && InBounds(cell, grid.width, grid.height)
    ensures r.cell == cell && r.value == grid.Value(cell)
    ensures forall n :: n in r.neighbors <==> InBounds(n, grid.width, grid.height) && GetDistance(cell, n) == 1
    ensures grid.width <= 9998 ==> !InBounds(r.previous, grid.width, grid.height)
  {
    AstarScoreCell(0, 0, 0, cell, grid.Value(cell), NeighborsOf(cell, grid.width, grid.height), Cell(9998, 9998))
  }

  /** Every priority f stays below the 9999 sentinel of the lowest-f scan on boards this size. */
  predicate SearchableSize(width: int, height: int)
  {
    width * height + width + height <= 9999
  }

  /** The search's score grid, indexed [y][x] like the semantic grid. */
  type ScoreGrid = seq<seq<AstarScoreCell>>

  /** scores has height rows of width entries. */
  predicate Shaped(scores: ScoreGrid, width: int, height: int)
  {
    |scores| == height && forall y :: 0 <= y < height ==> |scores[y]| == width
  }

  function At(scores: ScoreGrid, c: Cell): AstarScoreCell
    requires 0 <= c.y < |scores| && 0 <= c.x < |scores[c.y]|
  {
    scores[c.y][c.x]
  }

  /** The score grid with the entry of c replaced by v and every other entry kept. */
  function Put(scores: ScoreGrid, c: Cell, v: AstarScoreCell): (r: ScoreGrid)
    requires 0 <= c.y < |scores| && 0 <= c.x < |scores[c.y]|
    ensures |r| == |scores| && forall y :: 0 <= y < |r| ==> |r[y]| == |scores[y]|
    ensures forall d: Cell :: 0 <= d.y < |r| && 0 <= d.x < |r[d.y]| ==> At(r, d) == if d == c then v else At(scores, d)
  {
    scores[c.y := scores[c.y][c.x := v]]
  }

  /** row holds a fresh score cell for every column of row y. */
  ghost predicate FreshRow(grid: Grid, row: seq<AstarScoreCell>, y: int)
    reads grid, grid.data
    requires grid.Valid() && 0 <= y < grid.height
  {
    |row| == grid.width && forall x :: 0 <= x < grid.width ==> row[x] == NewScoreCell(Cell(x, y), grid)
  }

  /** Row y of a fresh score grid. */
  method BuildAstarScoreRow(grid: Grid, y: int) returns (row: seq<AstarScoreCell>)
    requires grid.Valid() && 0 <= y < grid.height
    ensures |row| == grid.width
    ensures forall x :: 0 <= x < grid.width ==> row[x] == NewScoreCell(Cell(x, y), grid)
  {
    row := [];
    for j := 0 to grid.width
      invariant |row| == j
      invariant forall x :: 0 <= x < j ==> row[x] == NewScoreCell(Cell(x, y), grid)
    {
      var cell := NewScoreCell(Cell(j, y), grid);
      assert (row + [cell])[..j] == row;
      row := row + [cell];
    }
  }

  /** A fresh score grid parallel to the semantic grid. */
  method BuildAstarScoreGrid(grid: Grid) returns (scores: ScoreGrid)
    requires grid.Valid()
    ensures Shaped(scores, grid.width, grid.height)
    ensures forall y, x :: 0 <= y < grid.height && 0 <= x < grid.width ==> scores[y][x] == NewScoreCell(Cell(x, y), grid)
  {
    scores := [];
    for i := 0 to grid.height
      invariant |scores| == i
      invariant forall y :: 0 <= y < i ==> FreshRow(grid, scores[y], y)
    {
      var row := BuildAstarScoreRow(grid, i);
      assert FreshRow(grid, row, i);
      scores := scores + [row];
    }
    FreshRowsAreFresh(grid, scores);
  }

  /** Rows that are each fresh make a fresh score grid. */
  lemma FreshRowsAreFresh(grid: Grid, scores: ScoreGrid)
    requires grid.Valid() && |scores| == grid.height
    requires forall y :: 0 <= y < grid.height ==> FreshRow(grid, scores[y], y)
    ensures Shaped(scores, grid.width, grid.height)
    ensures forall y, x :: 0 <= y < grid.height && 0 <= x < grid.width ==> scores[y][x] == NewScoreCell(Cell(x, y), grid)
  {
    forall y, x | 0 <= y < grid.height && 0 <= x < grid.width
      ensures scores[y][x] == NewScoreCell(Cell(x, y), grid)
    {
      assert FreshRow(grid, scores[y], y);
    }
    forall y | 0 <= y < grid.height
      ensures |scores[y]| == grid.width
    {
      assert FreshRow(grid, scores[y], y);
    }
  }

  // ---------------------------------------------------------------------------------------
  // Paths
  // ---------------------------------------------------------------------------------------

  /**
   * p is a walk of orthogonal single steps over on-board cells whose inner cells (all but the
   * first and the last) lie below the threshold.
   */
  ghost predicate IsPath(grid: Grid, p: seq<Cell>, threshold: int)
    reads grid, grid.data
    requires grid.Valid()
  {
    |p| >= 1 &&
    (forall i :: 0 <= i < |p| ==> InBounds(p[i], grid.width, grid.height)) &&
    (forall i :: 0 <= i < |p| - 1 ==> GetDistance(p[i], p[i + 1]) == 1) &&
    (forall i :: 0 < i < |p| - 1 ==> grid.Value(p[i]) < threshold)
  }

  ghost predicate Reachable(grid: Grid, start: Cell, dest: Cell, threshold: int)
    reads grid, grid.data
    requires grid.Valid()
  {
    exists p :: IsPath(grid, p, threshold) && p[0] == start && p[|p| - 1] == dest
  }

  /** A path takes at least as many steps as the Manhattan distance between its ends. */
  lemma {:induction false} PathNoShorterThanDistance(grid: Grid, p: seq<Cell>, threshold: int)
    requires grid.Valid() && IsPath(grid, p, threshold)
    ensures |p| - 1 >= GetDistance(p[0], p[|p| - 1])
  {
    if |p| > 1 {
      var rest := p[1..];
      assert IsPath(grid, rest, threshold) by {
        assert forall i :: 0 <= i < |rest| ==> rest[i] == p[i + 1];
      }
      PathNoShorterThanDistance(grid, rest, threshold);
      DistanceMetric(p[0], p[1], p[|p| - 1]);
    }
  }

  /** The part of a path walked back so far: every cell but the last lies below the threshold. */
  ghost predicate PathTail(grid: Grid, p: seq<Cell>, threshold: int)
    reads grid, grid.data
    requires grid.Valid()
  {
    |p| >= 1 &&
    (forall i :: 0 <= i < |p| ==> InBounds(p[i], grid.width, grid.height)) &&
    (forall i :: 0 <= i < |p| - 1 ==> GetDistance(p[i], p[i + 1]) == 1) &&
    (forall i :: 0 <= i < |p| - 1 ==> grid.Value(p[i]) < threshold)
  }

  lemma PathTailPrepend(grid: Grid, c: Cell, p: seq<Cell>, threshold: int)
    requires grid.Valid() && PathTail(grid, p, threshold)
    requires InBounds(c, grid.width, grid.height) && GetDistance(c, p[0]) == 1 && grid.Value(c) < threshold
    ensures PathTail(grid, [c] + p, threshold)
  {
    var q := [c] + p;
    assert forall i :: 0 < i < |q| ==> q[i] == p[i - 1];
  }

  lemma PathTailComplete(grid: Grid, start: Cell, p: seq<Cell>, threshold: int)
    requires grid.Valid() && PathTail(grid, p, threshold)
    requires InBounds(start, grid.width, grid.height) && GetDistance(start, p[0]) == 1
    ensures IsPath(grid, [start] + p, threshold)
  {
    var q := [start] + p;
    assert forall i :: 0 < i < |q| ==> q[i] == p[i - 1];
  }

  // ---------------------------------------------------------------------------------------
  // Search invariants
  // ---------------------------------------------------------------------------------------

  /** The score grid matches the semantic grid cell by cell in category and neighbours. */
  ghost predicate ScoreFrame(grid: Grid, scores: ScoreGrid)
    reads grid, grid.data
    requires grid.Valid()
  {
    Shaped(scores, grid.width, grid.height) &&
    (forall c {:trigger At(scores, c)} :: InBounds(c, grid.width, grid.height) ==>
      At(scores, c).value == grid.Value(c)) &&
    (forall c {:trigger NeighborsOf(c, grid.width, grid.height)} :: InBounds(c, grid.width, grid.height) ==>
      At(scores, c).neighbors == NeighborsOf(c, grid.width, grid.height))
  }

  /**
   * c was reached from a closed cell one step away and one step further from the start, and
   * lies below the threshold.
   */
  ghost predicate Chained(
    grid: Grid, scores: ScoreGrid, closed: seq<Cell>, c: Cell, start: Cell, threshold: int)
    reads grid, grid.data
    requires grid.Valid() && Shaped(scores, grid.width, grid.height) && InBounds(c, grid.width, grid.height)
    requires forall k :: k in closed ==> InBounds(k, grid.width, grid.height)
  {
    0 <= At(scores, c).g &&
    (c != start ==>
      var prev := At(scores, c).previous;
      prev in closed && (assert InBounds(prev, grid.width, grid.height); true) && GetDistance(prev, c) == 1 && At(scores, c).g == At(scores, prev).g + 1 &&
      grid.Value(c) < threshold)
  }

  /**
   * c is chained to the closed list, its cost is at most the closed list's length, and its
   * priority is its cost plus its distance to the destination.
   */
  ghost predicate Linked(
    grid: Grid, scores: ScoreGrid, closed: seq<Cell>, c: Cell, start: Cell, dest: Cell, threshold: int)
    reads grid, grid.data
    requires grid.Valid() && ScoreFrame(grid, scores) && InBounds(c, grid.width, grid.height)
    requires forall k :: k in closed ==> InBounds(k, grid.width, grid.height)
  {
    Chained(grid, scores, closed, c, start, threshold) && At(scores, c).g <= |closed| &&
    (c != start ==> At(scores, c).h == GetDistance(c, dest) && At(scores, c).f == At(scores, c).g + At(scores, c).h)
  }

  /** Every on-board neighbour of c is not the destination, and is queued or closed if passable. */
  ghost predicate Expanded(grid: Grid, open: seq<Cell>, closed: seq<Cell>, c: Cell, dest: Cell, threshold: int)
    reads grid, grid.data
    requires grid.Valid()
  {
    forall n :: n in NeighborsOf(c, grid.width, grid.height) ==>
      n != dest && InBounds(n, grid.width, grid.height) &&
      (grid.Value(n) < threshold ==> n in open || n in closed)
  }

  /** The open and closed lists are on the board, duplicate-free and disjoint. */
  ghost predicate ListsWellFormed(grid: Grid, open: seq<Cell>, closed: seq<Cell>)
    reads grid
  {
    (forall c :: c in open ==> InBounds(c, grid.width, grid.height)) &&
    (forall c :: c in closed ==> InBounds(c, grid.width, grid.height)) &&
    DistinctCells(open) && DistinctCells(closed) &&
    (forall c :: c in open ==> c !in closed)
  }

  /** What holds of the open and closed lists between iterations; pending is a closed cell not yet expanded. */
  ghost predicate SearchInv(
    grid: Grid, scores: ScoreGrid, open: seq<Cell>, closed: seq<Cell>,
    start: Cell, dest: Cell, threshold: int, pending: Option<Cell>)
    reads grid, grid.data
    requires grid.Valid()
  {
    ScoreFrame(grid, scores) &&
    InBounds(start, grid.width, grid.height) && InBounds(dest, grid.width, grid.height) &&
    ListsWellFormed(grid, open, closed) &&
    (start in open || start in closed) &&
    dest !in closed &&
    At(scores, start).g == 0 && At(scores, start).f == 0 &&
    (forall c {:trigger Linked(grid, scores, closed, c, start, dest, threshold)} ::
      c in open || c in closed ==> Linked(grid, scores, closed, c, start, dest, threshold)) &&
    (forall c {:trigger Expanded(grid, open, closed, c, dest, threshold)} ::
      c in closed && Some(c) != pending ==> Expanded(grid, open, closed, c, dest, threshold))
  }

  /** The predecessor chain that walkback follows: closed cells link back to the start. */
  ghost predicate WalkInv(
    grid: Grid, scores: ScoreGrid, closed: seq<Cell>, start: Cell, dest: Cell, threshold: int)
    reads grid, grid.data
    requires grid.Valid()
  {
    Shaped(scores, grid.width, grid.height) &&
    InBounds(start, grid.width, grid.height) && InBounds(dest, grid.width, grid.height) &&
    (forall c :: c in closed ==> InBounds(c, grid.width, grid.height)) &&
    (start != dest ==>
      start in closed && dest !in closed &&
      At(scores, dest).previous in closed && GetDistance(At(scores, dest).previous, dest) == 1 &&
      (forall c {:trigger Chained(grid, scores, closed, c, start, threshold)} ::
        c in closed ==> Chained(grid, scores, closed, c, start, threshold)))
  }

  /** A fresh score grid matches the semantic grid, and the start's scores are zero. */
  lemma FreshScores(grid: Grid, scores: ScoreGrid, start: Cell)
    requires grid.Valid() && Shaped(scores, grid.width, grid.height)
    requires forall y, x :: 0 <= y < grid.height && 0 <= x < grid.width ==> scores[y][x] == NewScoreCell(Cell(x, y), grid)
    requires InBounds(start, grid.width, grid.height)
    ensures ScoreFrame(grid, scores) && At(scores, start).g == 0 && At(scores, start).f == 0
  {
    forall c | InBounds(c, grid.width, grid.height)
      ensures At(scores, c).value == grid.Value(c) && At(scores, c).neighbors == NeighborsOf(c, grid.width, grid.height)
    {
      assert Cell(c.x, c.y) == c;
    }
    assert Cell(start.x, start.y) == start;
  }

  /** Replacing an entry while keeping its category and neighbours keeps the frame. */
  lemma FrameAfterPut(grid: Grid, scores: ScoreGrid, n: Cell, v: AstarScoreCell)
    requires grid.Valid() && ScoreFrame(grid, scores) && InBounds(n, grid.width, grid.height)
    requires v.value == At(scores, n).value && v.neighbors == At(scores, n).neighbors
    ensures ScoreFrame(grid, Put(scores, n, v))
  {
  }

  /** Replacing the entry of a cell off the closed list keeps the links of every other cell. */
  lemma LinkedAfterPut(
    grid: Grid, scores: ScoreGrid, closed: seq<Cell>, c: Cell, start: Cell, dest: Cell, threshold: int,
    n: Cell, v: AstarScoreCell)
    requires grid.Valid() && ScoreFrame(grid, scores)
    requires forall k :: k in closed ==> InBounds(k, grid.width, grid.height)
    requires InBounds(c, grid.width, grid.height) && InBounds(n, grid.width, grid.height)
    requires v.value == At(scores, n).value && v.neighbors == At(scores, n).neighbors
    requires n !in closed && c != n && Linked(grid, scores, closed, c, start, dest, threshold)
    ensures ScoreFrame(grid, Put(scores, n, v))
    ensures Linked(grid, Put(scores, n, v), closed, c, start, dest, threshold)
  {
    FrameAfterPut(grid, scores, n, v);
  }

  /** Queuing more cells keeps a cell expanded. */
  lemma ExpandedGrowsOpen(
    grid: Grid, open: seq<Cell>, open': seq<Cell>, closed: seq<Cell>, c: Cell, dest: Cell, threshold: int)
    requires grid.Valid() && Expanded(grid, open, closed, c, dest, threshold)
    requires forall x :: x in open ==> x in open'
    ensures Expanded(grid, open', closed, c, dest, threshold)
  {
  }

  /** Closing one more cell keeps every link. */
  lemma LinkedGrowsClosed(
    grid: Grid, scores: ScoreGrid, closed: seq<Cell>, x: Cell, c: Cell, start: Cell, dest: Cell, threshold: int)
    requires grid.Valid() && ScoreFrame(grid, scores)
    requires forall k :: k in closed ==> InBounds(k, grid.width, grid.height)
    requires InBounds(c, grid.width, grid.height) && InBounds(x, grid.width, grid.height)
    requires Linked(grid, scores, closed, c, start, dest, threshold)
    ensures Linked(grid, scores, closed + [x], c, start, dest, threshold)
  {
  }

  /** Moving the selected cell from the open list to the closed list. */
  lemma CloseCell(
    grid: Grid, scores: ScoreGrid, open: seq<Cell>, closed: seq<Cell>, current: Cell,
    start: Cell, dest: Cell, threshold: int)
    requires grid.Valid() && SearchInv(grid, scores, open, closed, start, dest, threshold, None)
    requires current in open && current != dest
    requires (closed == [] ==> open == [start]) && (closed != [] ==> start in closed)
    ensures SearchInv(grid, scores, RemoveCell(open, current), closed + [current], start, dest, threshold, Some(current))
    ensures start in closed + [current] && At(scores, current).g + 1 <= |closed + [current]|
  {
    assert Linked(grid, scores, closed, current, start, dest, threshold);
    var open', closed' := RemoveCell(open, current), closed + [current];
    assert forall k :: k in closed' <==> k in closed || k == current;
    forall c | c in open' || c in closed'
      ensures Linked(grid, scores, closed', c, start, dest, threshold)
    {
      LinkedGrowsClosed(grid, scores, closed, current, c, start, dest, threshold);
    }
    assert ListsWellFormed(grid, open', closed');
    forall c | c in closed' && c != current ensures Expanded(grid, open', closed', c, dest, threshold) {
      assert Expanded(grid, open, closed, c, dest, threshold);
    }
  }

  /** Every queued priority is below the 9999 sentinel. */
  lemma PrioritiesBelowSentinel(
    grid: Grid, scores: ScoreGrid, open: seq<Cell>, closed: seq<Cell>, start: Cell, dest: Cell, threshold: int)
    requires grid.Valid() && SearchInv(grid, scores, open, closed, start, dest, threshold, None)
    requires SearchableSize(grid.width, grid.height) && |closed| + 1 <= grid.width * grid.height
    ensures forall c :: c in open ==> At(scores, c).f < 9999
  {
    forall c | c in open ensures At(scores, c).f < 9999 {
      assert Linked(grid, scores, closed, c, start, dest, threshold);
      assert GetDistance(c, dest) <= grid.width + grid.height - 2;
    }
  }

  // ---------------------------------------------------------------------------------------
  // The search
  // ---------------------------------------------------------------------------------------

  /** The open cell of lowest f; among equals, the first in the list. */
  method SelectLowest(openSet: seq<Cell>, scores: ScoreGrid) returns (lowestCell: Cell)
    requires |openSet| > 0
    requires forall c :: c in openSet ==> 0 <= c.y < |scores| && 0 <= c.x < |scores[c.y]|
    requires forall c :: c in openSet ==> At(scores, c).f < 9999
    ensures lowestCell in openSet
    ensures forall c :: c in openSet ==> At(scores, lowestCell).f <= At(scores, c).f
    ensures exists i :: (0 <= i < |openSet| && openSet[i] == lowestCell &&
      forall j :: 0 <= j < i ==> At(scores, openSet[j]).f > At(scores, lowestCell).f)
  {
    lowestCell := Cell(9999, 9999);
    var lowestF := 9999;
    ghost var index := -1;
    for k := 0 to |openSet|
      invariant k == 0 ==> lowestF == 9999 && index == -1
      invariant k > 0 ==> 0 <= index < k && openSet[index] == lowestCell && lowestF == At(scores, lowestCell).f
      invariant forall j :: 0 <= j < k ==> lowestF <= At(scores, openSet[j]).f
      invariant forall j :: 0 <= j < index ==> At(scores, openSet[j]).f > lowestF
    {
      var cell := openSet[k];
      if scores[cell.y][cell.x].f < lowestF {
        lowestF := scores[cell.y][cell.x].f;
        lowestCell := Cell(cell.x, cell.y);
        index := k;
      }
    }
  }

  /** The list without c. */
  function RemoveCell(s: seq<Cell>, c: Cell): (r: seq<Cell>)
    ensures forall x :: x in r <==> x in s && x != c
    ensures |r| <= |s|
    ensures DistinctCells(s) ==> DistinctCells(r)
  {
    if s == [] then []
    else
      var rest := RemoveCell(s[1..], c);
      assert forall x :: x in s[1..] ==> x in s;
      if s[0] == c then rest
      else
        assert DistinctCells(s) ==> s[0] !in s[1..];
        [s[0]] + rest
  }

  /** Rank of a cell on the predecessor chain, falling as walkback moves toward the start. */
  ghost function ChainRank(scores: ScoreGrid, closed: seq<Cell>, c: Cell, dest: Cell): int
    requires 0 <= c.y < |scores| && 0 <= c.x < |scores[c.y]|
    requires 0 <= dest.y < |scores| && 0 <= dest.x < |scores[dest.y]|
    requires var p := At(scores, dest).previous; 0 <= p.y < |scores| && 0 <= p.x < |scores[p.y]|
  {
    if c in closed then At(scores, c).g else At(scores, At(scores, dest).previous).g + 1
  }

  /** One step back along the predecessor chain from a closed cell other than the start. */
  lemma ChainStep(
    grid: Grid, scores: ScoreGrid, closed: seq<Cell>, start: Cell, dest: Cell, threshold: int, c: Cell)
    requires grid.Valid() && WalkInv(grid, scores, closed, start, dest, threshold) && start != dest
    requires c in closed && c != start
    ensures InBounds(c, grid.width, grid.height) && grid.Value(c) < threshold
    ensures At(scores, c).previous in closed && GetDistance(At(scores, c).previous, c) == 1
    ensures 0 <= At(scores, At(scores, c).previous).g < At(scores, c).g
  {
    assert Chained(grid, scores, closed, c, start, threshold);
    var prev := At(scores, c).previous;
    assert Chained(grid, scores, closed, prev, start, threshold);
  }

  /**
   * Follows the predecessor chain from dest back to start. distance counts the steps and the
   * position is the first step of the path, or start itself when returnStart is set.
   */
  method Walkback(
    grid: Grid, scores: ScoreGrid, start: Cell, dest: Cell, returnStart: bool,
    ghost closed: seq<Cell>, ghost threshold: int)
    returns (result: AstarSearchResult, ghost path: seq<Cell>)
    requires grid.Valid() && WalkInv(grid, scores, closed, start, dest, threshold)
    ensures result.success
    ensures start == dest ==> result == AstarSearchResult(true, 0, start) && path == [start]
    ensures IsPath(grid, path, threshold) && path[0] == start && path[|path| - 1] == dest
    ensures result.distance == |path| - 1
    ensures start != dest ==> result.position == if returnStart then start else path[1]
  {
    var nextPos := dest;
    var distance := 1;
    if SameCell(start, dest) {
      assert IsPath(grid, [start], threshold);
      return NewResult(true, 0, start), [start];
    }
    path := [dest];
    while !SameCell(scores[nextPos.y][nextPos.x].previous, start)
      invariant InBounds(nextPos, grid.width, grid.height) && nextPos != start
      invariant nextPos == dest || nextPos in closed
      invariant |path| == distance && path[0] == nextPos && path[|path| - 1] == dest
      invariant PathTail(grid, path, threshold)
      invariant At(scores, nextPos).previous in closed
      invariant GetDistance(At(scores, nextPos).previous, nextPos) == 1
      decreases ChainRank(scores, closed, nextPos, dest)
    {
      var prev := scores[nextPos.y][nextPos.x].previous;
      ChainStep(grid, scores, closed, start, dest, threshold, prev);
      if nextPos in closed {
        ChainStep(grid, scores, closed, start, dest, threshold, nextPos);
      }
      PathTailPrepend(grid, prev, path, threshold);
      nextPos := prev;
      distance := distance + 1;
      path := [nextPos] + path;
    }
    var pos := if returnStart then scores[nextPos.y][nextPos.x].previous else nextPos;
    PathTailComplete(grid, start, path, threshold);
    path := [start] + path;
    result := NewResult(true, distance, pos);
  }

  /**
   * The neighbour loop of one iteration: current has just been closed. Returns the new score
   * grid and open list, or found when the destination is a neighbour (whose predecessor
   * becomes current).
   */
  method Expand(
    grid: Grid, scores: ScoreGrid, openSet: seq<Cell>, closedSet: seq<Cell>,
    current: Cell, start: Cell, dest: Cell, threshold: int)
    returns (newScores: ScoreGrid, newOpen: seq<Cell>, found: bool)
    requires grid.Valid()
    requires SearchInv(grid, scores, openSet, closedSet, start, dest, threshold, Some(current))
    requires current in closedSet && start in closedSet
    requires At(scores, current).g + 1 <= |closedSet|
    ensures found ==> WalkInv(grid, newScores, closedSet, start, dest, threshold)
    ensures !found ==> SearchInv(grid, newScores, newOpen, closedSet, start, dest, threshold, None)
  {
    newScores := scores;
    var currentCell := newScores[current.y][current.x];
    var currentNeighbors := currentCell.neighbors;
    assert currentNeighbors == NeighborsOf(current, grid.width, grid.height);
    newOpen := openSet;
    for n := 0 to |currentNeighbors|
      invariant SearchInv(grid, newScores, newOpen, closedSet, start, dest, threshold, Some(current))
      invariant At(newScores, current) == currentCell
      invariant Handled(grid, newOpen, closedSet, currentNeighbors, n, dest, threshold)
    {
      ghost var openBefore := newOpen;
      newScores, newOpen, found :=
        VisitNeighbor(grid, newScores, newOpen, closedSet, current, currentCell, currentNeighbors[n], start, dest, threshold);
      if found {
        return;
      }
      HandledStep(grid, openBefore, newOpen, closedSet, current, currentNeighbors, n, dest, threshold);
    }
    NeighboursQueued(grid, newScores, newOpen, closedSet, current, start, dest, threshold, currentNeighbors);
    found := false;
  }

  /** The first n neighbours are on the board, not the destination, and queued or closed when passable. */
  ghost predicate Handled(grid: Grid, open: seq<Cell>, closed: seq<Cell>, neighbors: seq<Cell>, n: int, dest: Cell, threshold: int)
    reads grid, grid.data
    requires grid.Valid() && 0 <= n <= |neighbors|
  {
    forall j :: 0 <= j < n ==>
      neighbors[j] != dest && InBounds(neighbors[j], grid.width, grid.height) &&
      (grid.Value(neighbors[j]) < threshold ==> neighbors[j] in open || neighbors[j] in closed)
  }

  /** Handling neighbour n, with the queue only growing, extends the handled prefix by one. */
  lemma HandledStep(grid: Grid, open: seq<Cell>, open': seq<Cell>, closed: seq<Cell>, current: Cell,
                    neighbors: seq<Cell>, n: int, dest: Cell, threshold: int)
    requires grid.Valid() && InBounds(current, grid.width, grid.height)
    requires neighbors == NeighborsOf(current, grid.width, grid.height) && 0 <= n < |neighbors|
    requires Handled(grid, open, closed, neighbors, n, dest, threshold)
    requires forall x :: x in open ==> x in open'
    requires neighbors[n] != dest
    requires InBounds(neighbors[n], grid.width, grid.height) ==>
      (grid.Value(neighbors[n]) < threshold ==> neighbors[n] in open' || neighbors[n] in closed)
    ensures Handled(grid, open', closed, neighbors, n + 1, dest, threshold)
  {
    assert neighbors[n] in neighbors;
  }

  /** Once every neighbour of current is queued or closed (or impassable), current is expanded. */
  lemma NeighboursQueued(
    grid: Grid, scores: ScoreGrid, open: seq<Cell>, closed: seq<Cell>,
    current: Cell, start: Cell, dest: Cell, threshold: int, neighbors: seq<Cell>)
    requires grid.Valid() && SearchInv(grid, scores, open, closed, start, dest, threshold, Some(current))
    requires current in closed && neighbors == NeighborsOf(current, grid.width, grid.height)
    requires Handled(grid, open, closed, neighbors, |neighbors|, dest, threshold)
    ensures SearchInv(grid, scores, open, closed, start, dest, threshold, None)
  {
    forall nb | nb in neighbors
      ensures nb != dest && InBounds(nb, grid.width, grid.height)
      ensures grid.Value(nb) < threshold ==> nb in open || nb in closed
    {
      var j :| 0 <= j < |neighbors| && neighbors[j] == nb;
    }
    assert Expanded(grid, open, closed, current, dest, threshold);
  }

  /**
   * The neighbour loop's rule for a neighbour that is not the destination: a passable neighbour
   * that is not closed is queued if it was not, and it is re-parented through current (cost
   * currentG + 1, its distance to dest as estimate) unless it is already queued with a strictly
   * lower cost; so a tie re-parents it. Any other neighbour leaves both the scores and the open
   * set as they were.
   */
  predicate Relaxes(
    scores: ScoreGrid, openSet: seq<Cell>, closedSet: seq<Cell>, current: Cell, currentG: int,
    neighbor: Cell, dest: Cell, threshold: int, newScores: ScoreGrid, newOpen: seq<Cell>)
    requires 0 <= neighbor.y < |scores| && 0 <= neighbor.x < |scores[neighbor.y]|
  {
    var old_ := At(scores, neighbor);
    var candidate := old_.value < threshold && neighbor !in closedSet;
    newOpen == (if candidate && neighbor !in openSet then openSet + [neighbor] else openSet) &&
    newScores == (if candidate && (neighbor !in openSet || currentG + 1 <= old_.g)
      then Put(scores, neighbor, old_.(g := currentG + 1, h := GetDistance(neighbor, dest),
                                       f := currentG + 1 + GetDistance(neighbor, dest), previous := current))
      else scores)
  }

  /** The neighbour loop's body for a neighbour other than the destination, by the rule above. */
  method QueueNeighbor(
    scores: ScoreGrid, openSet: seq<Cell>, closedSet: seq<Cell>,
    current: Cell, currentCell: AstarScoreCell, neighbor: Cell, dest: Cell, threshold: int)
    returns (newScores: ScoreGrid, newOpen: seq<Cell>)
    requires 0 <= neighbor.y < |scores| && 0 <= neighbor.x < |scores[neighbor.y]|
    ensures Relaxes(scores, openSet, closedSet, current, currentCell.g, neighbor, dest, threshold, newScores, newOpen)
  {
    newScores, newOpen := scores, openSet;
    var neighborCell := scores[neighbor.y][neighbor.x];
    if neighborCell.value < threshold {
      if !ArrayIncludesCell(closedSet, neighbor) {
        var tempG := currentCell.g + 1;
        var shorter := true;
        if ArrayIncludesCell(newOpen, neighbor) {
          if tempG > neighborCell.g {
            shorter := false;
          }
        } else {
          newOpen := newOpen + [neighbor];
        }
        if shorter {
          var h := GetDistance(neighbor, dest);
          newScores := Put(scores, neighbor, neighborCell.(g := tempG, h := h, f := tempG + h, previous := current));
        }
      }
    }
  }

  /**
   * One pass of the neighbour loop. The destination gets current as its predecessor and ends
   * the search. Any other neighbour is dealt with by Relaxes, which keeps the search invariant.
   */
  method VisitNeighbor(
    grid: Grid, scores: ScoreGrid, openSet: seq<Cell>, closedSet: seq<Cell>,
    current: Cell, currentCell: AstarScoreCell, neighbor: Cell, start: Cell, dest: Cell, threshold: int)
    returns (newScores: ScoreGrid, newOpen: seq<Cell>, found: bool)
    requires grid.Valid()
    requires SearchInv(grid, scores, openSet, closedSet, start, dest, threshold, Some(current))
    requires current in closedSet && start in closedSet
    requires At(scores, current) == currentCell && currentCell.g + 1 <= |closedSet|
    requires neighbor in NeighborsOf(current, grid.width, grid.height)
    ensures found <==> neighbor == dest
    ensures found ==> WalkInv(grid, newScores, closedSet, start, dest, threshold)
    ensures !found ==> Relaxes(scores, openSet, closedSet, current, currentCell.g, neighbor, dest, threshold, newScores, newOpen)
    ensures !found ==> (
      SearchInv(grid, newScores, newOpen, closedSet, start, dest, threshold, Some(current)) &&
      At(newScores, current) == currentCell &&
      (forall x :: x in openSet ==> x in newOpen) &&
      (grid.Value(neighbor) < threshold ==> neighbor in newOpen || neighbor in closedSet))
  {
    assert InBounds(neighbor, grid.width, grid.height) && GetDistance(current, neighbor) == 1;
    assert Linked(grid, scores, closedSet, current, start, dest, threshold);
    var neighborCell := scores[neighbor.y][neighbor.x];
    assert neighborCell == At(scores, neighbor);
    if SameCell(neighbor, dest) {
      var v := neighborCell.(previous := current);
      DestinationReached(grid, scores, openSet, closedSet, current, start, dest, threshold, v);
      newScores := Put(scores, neighbor, v);
      return newScores, openSet, true;
    }
    found := false;
    newScores, newOpen := PassNeighbor(grid, scores, openSet, closedSet, current, currentCell, neighbor, start, dest, threshold);
  }

  /** A neighbour other than the destination: Relaxes deals with it and keeps the search invariant. */
  method PassNeighbor(
    grid: Grid, scores: ScoreGrid, openSet: seq<Cell>, closedSet: seq<Cell>,
    current: Cell, currentCell: AstarScoreCell, neighbor: Cell, start: Cell, dest: Cell, threshold: int)
    returns (newScores: ScoreGrid, newOpen: seq<Cell>)
    requires grid.Valid()
    requires SearchInv(grid, scores, openSet, closedSet, start, dest, threshold, Some(current))
    requires current in closedSet && start in closedSet
    requires At(scores, current) == currentCell && currentCell.g + 1 <= |closedSet|
    requires InBounds(neighbor, grid.width, grid.height) && GetDistance(current, neighbor) == 1 && neighbor != dest
    ensures Relaxes(scores, openSet, closedSet, current, currentCell.g, neighbor, dest, threshold, newScores, newOpen)
    ensures SearchInv(grid, newScores, newOpen, closedSet, start, dest, threshold, Some(current))
    ensures At(newScores, current) == currentCell
    ensures forall x :: x in openSet ==> x in newOpen
    ensures grid.Value(neighbor) < threshold ==> neighbor in newOpen || neighbor in closedSet
  {
    newScores, newOpen := QueueNeighbor(scores, openSet, closedSet, current, currentCell, neighbor, dest, threshold);
    var neighborCell := At(scores, neighbor);
    assert neighborCell.value == grid.Value(neighbor);
    if neighborCell.value < threshold && neighbor !in closedSet {
      assert neighbor != start;
      if neighbor !in openSet || currentCell.g + 1 <= neighborCell.g {
        var v := neighborCell.(g := currentCell.g + 1, h := GetDistance(neighbor, dest),
                               f := currentCell.g + 1 + GetDistance(neighbor, dest), previous := current);
        Relaxed(grid, scores, openSet, newOpen, closedSet, current, start, dest, threshold, neighbor, v);
      } else {
        assert neighbor in newOpen;
      }
    }
  }

  /** Recording current as the destination's predecessor completes the chain walkback follows. */
  lemma DestinationReached(
    grid: Grid, scores: ScoreGrid, open: seq<Cell>, closed: seq<Cell>,
    current: Cell, start: Cell, dest: Cell, threshold: int, v: AstarScoreCell)
    requires grid.Valid() && SearchInv(grid, scores, open, closed, start, dest, threshold, Some(current))
    requires current in closed && start in closed && GetDistance(current, dest) == 1
    requires v == At(scores, dest).(previous := current)
    ensures WalkInv(grid, Put(scores, dest, v), closed, start, dest, threshold)
  {
    var updated := Put(scores, dest, v);
    forall c | c in closed ensures Chained(grid, updated, closed, c, start, threshold) {
      assert Linked(grid, scores, closed, c, start, dest, threshold);
      LinkedAfterPut(grid, scores, closed, c, start, dest, threshold, dest, v);
    }
    assert At(updated, dest).previous == current;
  }

  /**
   * Recording a shorter route to a passable, unclosed neighbour of current (queuing it if it
   * was not queued) keeps the search invariant.
   */
  lemma Relaxed(
    grid: Grid, scores: ScoreGrid, open: seq<Cell>, open': seq<Cell>, closed: seq<Cell>,
    current: Cell, start: Cell, dest: Cell, threshold: int, neighbor: Cell, v: AstarScoreCell)
    requires grid.Valid() && SearchInv(grid, scores, open, closed, start, dest, threshold, Some(current))
    requires current in closed && At(scores, current).g + 1 <= |closed|
    requires InBounds(neighbor, grid.width, grid.height) && GetDistance(current, neighbor) == 1
    requires neighbor !in closed && neighbor != start && grid.Value(neighbor) < threshold
    requires (neighbor in open && open' == open) || (neighbor !in open && open' == open + [neighbor])
    requires v == At(scores, neighbor).(
      g := At(scores, current).g + 1, h := GetDistance(neighbor, dest),
      f := At(scores, current).g + 1 + GetDistance(neighbor, dest), previous := current)
    ensures SearchInv(grid, Put(scores, neighbor, v), open', closed, start, dest, threshold, Some(current))
    ensures neighbor in open' && forall x :: x in open ==> x in open'
  {
    RelaxedLinks(grid, scores, open, open', closed, current, start, dest, threshold, neighbor, v);
    RelaxedLists(grid, scores, open, open', closed, current, start, dest, threshold, neighbor);
  }

  /** The lists part of Relaxed: queuing the neighbour keeps the lists well formed and every other closed cell expanded. */
  lemma RelaxedLists(
    grid: Grid, scores: ScoreGrid, open: seq<Cell>, open': seq<Cell>, closed: seq<Cell>,
    current: Cell, start: Cell, dest: Cell, threshold: int, neighbor: Cell)
    requires grid.Valid() && SearchInv(grid, scores, open, closed, start, dest, threshold, Some(current))
    requires InBounds(neighbor, grid.width, grid.height) && neighbor !in closed
    requires (neighbor in open && open' == open) || (neighbor !in open && open' == open + [neighbor])
    ensures ListsWellFormed(grid, open', closed) && (start in open' || start in closed)
    ensures forall c :: c in closed && c != current ==> Expanded(grid, open', closed, c, dest, threshold)
    ensures neighbor in open' && forall x :: x in open ==> x in open'
  {
    forall c | c in closed && c != current ensures Expanded(grid, open', closed, c, dest, threshold) {
      assert Expanded(grid, open, closed, c, dest, threshold);
      ExpandedGrowsOpen(grid, open, open', closed, c, dest, threshold);
    }
  }

  /** The links part of Relaxed: every queued or closed cell stays linked after the new entry. */
  lemma RelaxedLinks(
    grid: Grid, scores: ScoreGrid, open: seq<Cell>, open': seq<Cell>, closed: seq<Cell>,
    current: Cell, start: Cell, dest: Cell, threshold: int, neighbor: Cell, v: AstarScoreCell)
    requires grid.Valid() && SearchInv(grid, scores, open, closed, start, dest, threshold, Some(current))
    requires current in closed && At(scores, current).g + 1 <= |closed|
    requires InBounds(neighbor, grid.width, grid.height) && GetDistance(current, neighbor) == 1
    requires neighbor !in closed && neighbor != start && grid.Value(neighbor) < threshold
    requires (neighbor in open && open' == open) || (neighbor !in open && open' == open + [neighbor])
    requires v == At(scores, neighbor).(
      g := At(scores, current).g + 1, h := GetDistance(neighbor, dest),
      f := At(scores, current).g + 1 + GetDistance(neighbor, dest), previous := current)
    ensures ScoreFrame(grid, Put(scores, neighbor, v))
    ensures forall c :: c in open' || c in closed ==>
      InBounds(c, grid.width, grid.height) && Linked(grid, Put(scores, neighbor, v), closed, c, start, dest, threshold)
  {
    var updated := Put(scores, neighbor, v);
    FrameAfterPut(grid, scores, neighbor, v);
    assert Linked(grid, scores, closed, current, start, dest, threshold);
    forall c | c in open' || c in closed
      ensures InBounds(c, grid.width, grid.height) && Linked(grid, updated, closed, c, start, dest, threshold)
    {
      if c == neighbor {
        assert At(updated, neighbor) == v && At(updated, current) == At(scores, current);
      } else {
        assert Linked(grid, scores, closed, c, start, dest, threshold);
        LinkedAfterPut(grid, scores, closed, c, start, dest, threshold, neighbor, v);
      }
    }
  }

  /**
   * When the closed list holds the start but not the destination, and no closed cell has the
   * destination or an unclosed passable cell as a neighbour, no path reaches the destination.
   */
  lemma NoPathLeavesClosed(grid: Grid, closed: seq<Cell>, start: Cell, dest: Cell, threshold: int, p: seq<Cell>)
    requires grid.Valid() && start in closed && dest !in closed
    requires forall c :: c in closed ==> InBounds(c, grid.width, grid.height)
    requires forall c, n :: c in closed && InBounds(n, grid.width, grid.height) && GetDistance(c, n) == 1 ==>
      n != dest && (grid.Value(n) < threshold ==> n in closed)
    requires IsPath(grid, p, threshold) && p[0] == start
    ensures p[|p| - 1] != dest
  {
    var i := 0;
    while i < |p| - 1
      invariant 0 <= i < |p| && (p[i] in closed || (i == |p| - 1 && p[i] != dest))
    {
      var c, n := p[i], p[i + 1];
      assert GetDistance(c, n) == 1 && InBounds(n, grid.width, grid.height);
      assert n != dest && (grid.Value(n) < threshold ==> n in closed);
      if i + 1 < |p| - 1 {
        assert grid.Value(n) < threshold;
      }
      i := i + 1;
    }
  }

  /** When the search gives up, nothing passable joins the start to the destination. */
  lemma ExhaustedMeansUnreachable(
    grid: Grid, scores: ScoreGrid, closed: seq<Cell>, start: Cell, dest: Cell, threshold: int)
    requires grid.Valid() && SearchInv(grid, scores, [], closed, start, dest, threshold, None)
    ensures !Reachable(grid, start, dest, threshold)
  {
    forall c, n | c in closed && InBounds(n, grid.width, grid.height) && GetDistance(c, n) == 1
      ensures n != dest && (grid.Value(n) < threshold ==> n in closed)
    {
      assert Expanded(grid, [], closed, c, dest, threshold);
      assert n in NeighborsOf(c, grid.width, grid.height);
    }
    forall p | IsPath(grid, p, threshold) && p[0] == start
      ensures p[|p| - 1] != dest
    {
      NoPathLeavesClosed(grid, closed, start, dest, threshold, p);
    }
  }

  /** Before the first iteration only the start is queued, and nothing is closed. */
  lemma InitialSearchInv(grid: Grid, scores: ScoreGrid, start: Cell, dest: Cell, threshold: int)
    requires grid.Valid() && InBounds(start, grid.width, grid.height) && InBounds(dest, grid.width, grid.height)
    requires ScoreFrame(grid, scores) && At(scores, start).g == 0 && At(scores, start).f == 0
    ensures SearchInv(grid, scores, [start], [], start, dest, threshold, None)
  {
    assert Linked(grid, scores, [], start, start, dest, threshold);
    assert ListsWellFormed(grid, [start], []);
  }

  /** The fresh score grid of a search, with the invariant of its first iteration. */
  method InitialScores(grid: Grid, start: Cell, dest: Cell, threshold: int) returns (scores: ScoreGrid)
    requires grid.Valid() && InBounds(start, grid.width, grid.height) && InBounds(dest, grid.width, grid.height)
    ensures SearchInv(grid, scores, [start], [], start, dest, threshold, None)
  {
    scores := BuildAstarScoreGrid(grid);
    FreshScores(grid, scores, start);
    InitialSearchInv(grid, scores, start, dest, threshold);
  }

  /** Closing any open cell keeps the closed list duplicate-free and on the board. */
  lemma ClosingKeepsDistinct(grid: Grid, open: seq<Cell>, closed: seq<Cell>, c: Cell)
    requires ListsWellFormed(grid, open, closed) && c in open
    ensures DistinctCells(closed + [c]) && forall k :: k in closed + [c] ==> InBounds(k, grid.width, grid.height)
  {
  }

  /** A queued destination already carries the predecessor chain that walkback follows. */
  lemma QueuedDestinationWalks(
    grid: Grid, scores: ScoreGrid, open: seq<Cell>, closed: seq<Cell>, start: Cell, dest: Cell, threshold: int)
    requires grid.Valid() && SearchInv(grid, scores, open, closed, start, dest, threshold, None)
    requires dest in open && (closed == [] ==> open == [start]) && (closed != [] ==> start in closed)
    ensures WalkInv(grid, scores, closed, start, dest, threshold)
  {
    if start != dest {
      assert closed != [];
      assert Linked(grid, scores, closed, dest, start, dest, threshold);
      forall c | c in closed ensures Chained(grid, scores, closed, c, start, threshold) {
        assert Linked(grid, scores, closed, c, start, dest, threshold);
      }
    }
  }

  /** What a successful search returns: walkback's result over a passable path from start to destination. */
  ghost predicate FoundBy(
    grid: Grid, result: AstarSearchResult, path: seq<Cell>, start: Cell, dest: Cell, threshold: int, returnStart: bool)
    reads grid, grid.data
    requires grid.Valid()
  {
    result.success &&
    IsPath(grid, path, threshold) && path[0] == start && path[|path| - 1] == dest &&
    result.distance == |path| - 1 &&
    (start == dest ==> result == AstarSearchResult(true, 0, start)) &&
    (start != dest ==> result.position == if returnStart then start else path[1])
  }

  /**
   * One iteration of the main loop: select the open cell of lowest f; if it is the destination
   * walk back, otherwise close it and expand its neighbours (walking back if the destination
   * is among them).
   */
  method SearchStep(
    grid: Grid, scores: ScoreGrid, openSet: seq<Cell>, closedSet: seq<Cell>,
    startCell: Cell, destinationCell: Cell, avoidThreshold: int, returnStartCell: bool)
    returns (newScores: ScoreGrid, newOpen: seq<Cell>, newClosed: seq<Cell>, done: bool,
             result: AstarSearchResult, ghost path: seq<Cell>)
    requires grid.Valid() && SearchableSize(grid.width, grid.height) && |openSet| > 0
    requires SearchInv(grid, scores, openSet, closedSet, startCell, destinationCell, avoidThreshold, None)
    requires closedSet == [] ==> openSet == [startCell]
    requires closedSet != [] ==> startCell in closedSet
    ensures done ==> FoundBy(grid, result, path, startCell, destinationCell, avoidThreshold, returnStartCell)
    ensures !done ==>
      SearchInv(grid, newScores, newOpen, newClosed, startCell, destinationCell, avoidThreshold, None) &&
      startCell in newClosed && |newClosed| == |closedSet| + 1 && |newClosed| <= grid.width * grid.height
  {
    // Every open cell is on the board and off the closed list, so the closed list is short
    // enough that every priority stays below the 9999 sentinel.
    ClosingKeepsDistinct(grid, openSet, closedSet, openSet[0]);
    DistinctCellsFit(closedSet + [openSet[0]], grid.width, grid.height);
    PrioritiesBelowSentinel(grid, scores, openSet, closedSet, startCell, destinationCell, avoidThreshold);
    var lowestCell := SelectLowest(openSet, scores);
    newScores, newOpen, newClosed := scores, openSet, closedSet;

    if SameCell(lowestCell, destinationCell) {
      QueuedDestinationWalks(grid, scores, openSet, closedSet, startCell, destinationCell, avoidThreshold);
      result, path := Walkback(grid, scores, startCell, lowestCell, returnStartCell, closedSet, avoidThreshold);
      return newScores, newOpen, newClosed, true, result, path;
    }

    var current := lowestCell;
    CloseCell(grid, scores, openSet, closedSet, current, startCell, destinationCell, avoidThreshold);
    newOpen := RemoveCell(openSet, current);
    newClosed := closedSet + [current];
    ClosingKeepsDistinct(grid, openSet, closedSet, current);
    DistinctCellsFit(newClosed, grid.width, grid.height);
    var found;
    newScores, newOpen, found := Expand(grid, scores, newOpen, newClosed, current, startCell, destinationCell, avoidThreshold);
    if found {
      result, path := Walkback(grid, newScores, startCell, destinationCell, returnStartCell, newClosed, avoidThreshold);
      return newScores, newOpen, newClosed, true, result, path;
    }
    done, result, path := false, NewResult(false), [];
  }

  /**
   * The main loop of the search between two on-board cells: it runs until the destination is
   * selected or discovered, or the open list runs dry. On success the ghost path is the route
   * walkback followed.
   */
  method Search(grid: Grid, startCell: Cell, destinationCell: Cell, avoidThreshold: int, returnStartCell: bool)
    returns (result: AstarSearchResult, ghost path: seq<Cell>)
    requires grid.Valid() && SearchableSize(grid.width, grid.height)
    requires InBounds(startCell, grid.width, grid.height) && InBounds(destinationCell, grid.width, grid.height)
    ensures result.success ==> FoundBy(grid, result, path, startCell, destinationCell, avoidThreshold, returnStartCell)
    ensures !result.success ==> result == NewResult(false) && !Reachable(grid, startCell, destinationCell, avoidThreshold)
  {
    ghost var size := grid.width * grid.height;
    var searchScores := InitialScores(grid, startCell, destinationCell, avoidThreshold);
    var openSet: seq<Cell> := [];
    var closedSet: seq<Cell> := [];
    openSet := openSet + [startCell];

    while |openSet| > 0
      invariant |closedSet| <= size
      invariant SearchInv(grid, searchScores, openSet, closedSet, startCell, destinationCell, avoidThreshold, None)
      invariant closedSet == [] ==> openSet == [startCell]
      invariant closedSet != [] ==> startCell in closedSet
      decreases size - |closedSet|
    {
      var done;
      searchScores, openSet, closedSet, done, result, path :=
        SearchStep(grid, searchScores, openSet, closedSet, startCell, destinationCell, avoidThreshold, returnStartCell);
      if done {
        return;
      }
    }
    ExhaustedMeansUnreachable(grid, searchScores, closedSet, startCell, destinationCell, avoidThreshold);
    result, path := NewResult(false), [];
  }

  /**
   * Searches from startCell to destinationCell through cells below avoidThreshold.
   * Off-board ends give the failure result. Equal ends succeed with distance 0 at the start.
   * Otherwise the search succeeds exactly when some path exists; on success distance is the
   * length of a path it found (at least the Manhattan distance) and position is that path's
   * first step, or the start when returnStartCell is set.
   */
  method Astar(
    startCell: Cell, destinationCell: Cell, state: State,
    avoidThreshold: int := SNAKE_BODY, returnStartCell: bool := false)
    returns (result: AstarSearchResult)
    requires state.grid.Valid() && SearchableSize(state.grid.width, state.grid.height)
    ensures state.grid.OutOfBounds(startCell) || state.grid.OutOfBounds(destinationCell) ==>
      result == NewResult(false)
    ensures !state.grid.OutOfBounds(startCell) && startCell == destinationCell ==>
      result == AstarSearchResult(true, 0, startCell)
    ensures !state.grid.OutOfBounds(startCell) && !state.grid.OutOfBounds(destinationCell) ==>
      (result.success <==> Reachable(state.grid, startCell, destinationCell, avoidThreshold))
    ensures !result.success ==> result == NewResult(false)
    ensures result.success ==> result.distance >= GetDistance(startCell, destinationCell)
    ensures result.success && startCell != destinationCell ==>
      result.distance >= 1 &&
      exists p :: (IsPath(state.grid, p, avoidThreshold) && p[0] == startCell &&
        p[|p| - 1] == destinationCell && result.distance == |p| - 1 &&
        result.position == if returnStartCell then startCell else p[1])
  {
    var grid := state.grid;
    if grid.OutOfBounds(startCell) || grid.OutOfBounds(destinationCell) {
      return NewResult(false);
    }
    if SameCell(startCell, destinationCell) && returnStartCell {
      assert IsPath(grid, [startCell], avoidThreshold);
      return NewResult(true, 0, startCell);
    }
    ghost var path;
    result, path := Search(grid, startCell, destinationCell, avoidThreshold, returnStartCell);
    if result.success {
      PathNoShorterThanDistance(grid, path, avoidThreshold);
    }
  }
}
