/**
 * The semantic grid: one category code per board cell, built fresh every turn from the
 * snapshot (src/app/grid.ts). Rows are indexed by y and columns by x.
 */
module SemanticGrid {
  import opened Keys
  import opened Types
  import opened Utils

  /** Cell c lies on a width x height board. */
  predicate InBounds(c: Cell, width: int, height: int)
  {
    0 <= c.x < width && 0 <= c.y < height
  }

  /** Cell c lies in the first or last row or column of a width x height board. */
  predicate OnEdge(c: Cell, width: int, height: int)
  {
    c.x == 0 || c.x == width - 1 || c.y == 0 || c.y == height - 1
  }

  /** a is listed before b when the board is read row by row, x increasing within a row. */
  predicate RowMajorBefore(a: Cell, b: Cell)
  {
    a.y < b.y || (a.y == b.y && a.x < b.x)
  }

  function Max(a: int, b: int): int
  {
    if a < b then b else a
  }

  // ---------------------------------------------------------------------------------------
  // Counting board cells
  // ---------------------------------------------------------------------------------------

  ghost function RowCells(width: nat, y: int): set<Cell>
  {
    set x | 0 <= x < width :: Cell(x, y)
  }

  ghost function BoardCells(width: nat, height: nat): set<Cell>
  {
    set x, y | 0 <= x < width && 0 <= y < height :: Cell(x, y)
  }

  lemma {:induction false} RowCellsCount(width: nat, y: int)
    ensures |RowCells(width, y)| == width
  {
    if width == 0 {
      assert RowCells(width, y) == {};
    } else {
      assert RowCells(width, y) == RowCells(width - 1, y) + {Cell(width - 1, y)};
      RowCellsCount(width - 1, y);
    }
  }

  lemma BoardCellsMembers(width: nat, height: nat)
    ensures forall c :: c in BoardCells(width, height) <==> InBounds(c, width, height)
  {
    forall c | InBounds(c, width, height) ensures c in BoardCells(width, height) {
      assert Cell(c.x, c.y) == c;
    }
  }

  /** A width x height board has width * height cells. */
  lemma {:induction false} BoardCellsCount(width: nat, height: nat)
    ensures |BoardCells(width, height)| == width * height
  {
    if height == 0 {
      assert BoardCells(width, height) == {};
    } else {
      var upper := BoardCells(width, height - 1);
      var row := RowCells(width, height - 1);
      BoardCellsCount(width, height - 1);
      RowCellsCount(width, height - 1);
      assert BoardCells(width, height) == upper + row;
      assert upper !! row;
      assert |upper + row| == |upper| + |row|;
      assert width * height == width * (height - 1) + width;
    }
  }

  predicate DistinctCells(s: seq<Cell>)
  {
    forall i, j :: 0 <= i < j < |s| ==> s[i] != s[j]
  }

  lemma {:induction false} DistinctCellsCount(s: seq<Cell>)
    requires DistinctCells(s)
    ensures |set c | c in s| == |s|
  {
    if s != [] {
      var rest := s[1..];
      DistinctCellsCount(rest);
      assert (set c | c in s) == (set c | c in rest) + {s[0]};
      assert s[0] !in rest;
    }
  }

  /** A duplicate-free list of on-board cells is no longer than the board has cells. */
  lemma DistinctCellsFit(s: seq<Cell>, width: nat, height: nat)
    requires DistinctCells(s) && forall c :: c in s ==> InBounds(c, width, height)
    ensures |s| <= width * height
  {
    DistinctCellsCount(s);
    BoardCellsCount(width, height);
    BoardCellsMembers(width, height);
    var members := set c | c in s;
    assert members <= BoardCells(width, height);
    SubsetCount(members, BoardCells(width, height));
  }

  lemma SubsetCount<T>(a: set<T>, b: set<T>)
    requires a <= b
    ensures |a| <= |b|
  {
    assert b == a + (b - a);
  }

  // ---------------------------------------------------------------------------------------
  // initGrid, as written and as intended
  // ---------------------------------------------------------------------------------------

  /**
   * A fresh height x width matrix with every cell holding fillValue. The inner loop runs
   * over the row's width.
   */
  method InitGrid(width: nat, height: nat, fillValue: int := SPACE) returns (grid: array2<int>)
    ensures fresh(grid)
    ensures grid.Length0 == height && grid.Length1 == width
    ensures forall y, x :: 0 <= y < height && 0 <= x < width ==> grid[y, x] == fillValue
  {
    grid := new int[height, width];
    for i := 0 to height
      invariant forall y, x :: 0 <= y < i && 0 <= x < width ==> grid[y, x] == fillValue
    {
      for j := 0 to width
        invariant forall y, x :: 0 <= y < i && 0 <= x < width ==> grid[y, x] == fillValue
        invariant forall x :: 0 <= x < j ==> grid[i, x] == fillValue
      {
        grid[i, j] := fillValue;
      }
    }
  }

  /**
   * Storing v at index i of a JavaScript array: an index past the end grows the array,
   * leaving holes (None) between the old end and i.
   */
  function JsStore(row: seq<Option<int>>, i: nat, v: int): (r: seq<Option<int>>)
    ensures |r| == Max(|row|, i + 1)
    ensures r[i] == Some(v)
    ensures forall k :: 0 <= k < |row| && k != i ==> r[k] == row[k]
    ensures forall k :: |row| <= k < |r| && k != i ==> r[k] == None
  {
    if i < |row| then row[i := Some(v)] else row + seq(i - |row|, _ => None) + [Some(v)]
  }

  /** The row the loop of initGrid leaves behind: filled below index height, holes after. */
  function JsRow(width: nat, height: nat, fillValue: int): seq<Option<int>>
  {
    seq(Max(width, height), j => if j < height then Some(fillValue) else None)
  }

  /**
   * initGrid as the source writes it: each row starts as a JavaScript array of width holes
   * and the inner loop fills indices 0 .. height-1.
   */
  method InitGridAsWritten(width: nat, height: nat, fillValue: int := SPACE)
    returns (grid: seq<seq<Option<int>>>)
    ensures |grid| == height
    ensures forall i :: 0 <= i < height ==> grid[i] == JsRow(width, height, fillValue)
  {
    grid := [];
    for i := 0 to height
      invariant |grid| == i
      invariant forall k :: 0 <= k < i ==> grid[k] == JsRow(width, height, fillValue)
    {
      var row: seq<Option<int>> := seq(width, _ => None);
      for j := 0 to height
        invariant row == seq(Max(width, j), k => if k < j then Some(fillValue) else None)
      {
        row := JsStore(row, j, fillValue);
      }
      grid := grid + [row];
    }
  }

  /**
   * The as-written rows are exactly the intended rows (width cells, all filled) iff the
   * board is square; on a board wider than it is high, column j of every row is a hole
   * exactly when j >= height.
   */
  lemma JsRowFilledIffSquare(width: nat, height: nat, fillValue: int)
    ensures JsRow(width, height, fillValue) == seq(width, _ => Some(fillValue)) <==> width == height
    ensures forall j :: 0 <= j < width ==> (JsRow(width, height, fillValue)[j] == None <==> height <= j)
  {
    var row := JsRow(width, height, fillValue);
    if width < height {
      assert |row| != width;
    } else if height < width {
      assert row[height] == None;
    }
  }

  /** The smallest board on which the rows come out short: 3 wide and 2 high. */
  lemma InitGridHoleExample()
    ensures JsRow(3, 2, SPACE)[2] == None
  {
    JsRowFilledIffSquare(3, 2, SPACE);
  }

  // ---------------------------------------------------------------------------------------
  // buildGrid as a per-cell specification: every layer of the build decides the new value
  // of a cell from its previous value alone.
  // ---------------------------------------------------------------------------------------

  /** Walls: every cell in the outer ring becomes near-wall. */
  function EdgeLayer(c: Cell, width: int, height: int, v: int): int
  {
    if OnEdge(c, width, height) then WALL_NEAR else v
  }

  /** Food cells become food. */
  function FoodLayer(food: seq<Cell>, c: Cell, v: int): int
  {
    if c in food then FOOD else v
  }

  /** A snake counts as friendly when its name says so and at least two snakes are playing. */
  predicate Friendly(req: GameRequest, isFriendly: string -> bool, s: Snake)
  {
    isFriendly(s.name) && |req.board.snakes| >= 2
  }

  /** Another snake's head: an enemy head when it is at least as long as we are, or friendly. */
  function HeadKey(req: GameRequest, isFriendly: string -> bool, s: Snake): (k: int)
    ensures k == ENEMY_HEAD <==> s.length >= req.you.length || Friendly(req, isFriendly, s)
    ensures k == ENEMY_HEAD || k == SMALL_HEAD
  {
    if s.length >= req.you.length || Friendly(req, isFriendly, s) then ENEMY_HEAD else SMALL_HEAD
  }

  /**
   * The mark for cells one move from another snake's head: a kill zone next to a shorter
   * unfriendly snake, small danger next to an unfriendly snake of our length, danger otherwise.
   */
  function Future1Key(req: GameRequest, isFriendly: string -> bool, s: Snake): (k: int)
    ensures k == KILL_ZONE <==> req.you.length > s.length && !Friendly(req, isFriendly, s)
    ensures k == SMALL_DANGER <==> req.you.length == s.length && !Friendly(req, isFriendly, s)
    ensures k == DANGER <==> req.you.length < s.length || Friendly(req, isFriendly, s)
  {
    if req.you.length > s.length && !Friendly(req, isFriendly, s) then KILL_ZONE
    else if req.you.length == s.length && !Friendly(req, isFriendly, s) then SMALL_DANGER
    else DANGER
  }

  /** A snake's tail is re-marked when it is not full of health and the game is past turn 1. */
  predicate TailMarked(req: GameRequest, s: Snake)
  {
    s.health != 100 && req.turn > 1
  }

  /** When the tail is re-marked, body[length - 1] exists. */
  predicate TailIndexable(req: GameRequest, s: Snake)
  {
    TailMarked(req, s) ==> 1 <= s.length <= |s.body|
  }

  /** The tail cell that is re-marked. */
  function TailCell(req: GameRequest, s: Snake): Cell
    requires TailMarked(req, s) && TailIndexable(req, s)
  {
    s.body[s.length - 1]
  }

  /**
   * The value of cell c after one snake is drawn over a cell holding v: body, then head,
   * then tail, then the ring one move from the head (only over cells below danger), then the
   * ring two moves from the head (only over cells at most near-wall that are not food).
   */
  function SnakeLayer(req: GameRequest, isFriendly: string -> bool, s: Snake, c: Cell, v: int): int
    requires TailIndexable(req, s)
  {
    var isMe := s.id == req.you.id;
    var afterBody := if c in s.body then (if isMe then YOUR_BODY else SNAKE_BODY) else v;
    var afterHead := if !isMe && c == s.head then HeadKey(req, isFriendly, s) else afterBody;
    var afterTail := if TailMarked(req, s) && c == TailCell(req, s) then TAIL else afterHead;
    var afterFuture1 :=
      if !isMe && GetDistance(s.head, c) == 1 && afterTail < DANGER
      then Future1Key(req, isFriendly, s) else afterTail;
    if !isMe && GetDistance(s.head, c) == 2 && afterFuture1 <= WALL_NEAR && afterFuture1 != FOOD
    then FUTURE_2 else afterFuture1
  }

  predicate AllTailsIndexable(req: GameRequest, snakes: seq<Snake>)
  {
    forall s :: s in snakes ==> TailIndexable(req, s)
  }

  /** The snakes drawn one after another, in list order. */
  function SnakesLayer(req: GameRequest, isFriendly: string -> bool, snakes: seq<Snake>, c: Cell, v: int): int
    requires AllTailsIndexable(req, snakes)
    decreases |snakes|
  {
    if snakes == [] then v
    else
      var n := |snakes| - 1;
      SnakeLayer(req, isFriendly, snakes[n], c, SnakesLayer(req, isFriendly, snakes[..n], c, v))
  }

  /** The value buildGrid leaves in cell c of a width x height grid that held v. */
  function BuiltValue(req: GameRequest, isFriendly: string -> bool, width: int, height: int, c: Cell, v: int): int
    requires AllTailsIndexable(req, req.board.snakes)
  {
    SnakesLayer(req, isFriendly, req.board.snakes, c,
      FoodLayer(req.board.food, c, EdgeLayer(c, width, height, v)))
  }

  /** Every cell the build writes unconditionally lies on the board. */
  predicate SnapshotFits(req: GameRequest, width: int, height: int)
  {
    (forall f :: f in req.board.food ==> InBounds(f, width, height)) &&
    (forall s :: s in req.board.snakes ==>
      InBounds(s.head, width, height) &&
      (forall b :: b in s.body ==> InBounds(b, width, height)) &&
      TailIndexable(req, s))
  }

  // ---------------------------------------------------------------------------------------
  // Properties of the build
  // ---------------------------------------------------------------------------------------

  lemma {:induction false} SnakesLayerKeepsCategories(
    req: GameRequest, isFriendly: string -> bool, snakes: seq<Snake>, c: Cell, v: int)
    requires AllTailsIndexable(req, snakes) && IsCategory(v)
    ensures IsCategory(SnakesLayer(req, isFriendly, snakes, c, v))
  {
    if snakes != [] {
      SnakesLayerKeepsCategories(req, isFriendly, snakes[..|snakes| - 1], c, v);
    }
  }

  /** A grid of category codes stays a grid of category codes after the build. */
  lemma BuildKeepsCategories(
    req: GameRequest, isFriendly: string -> bool, width: int, height: int, c: Cell, v: int)
    requires AllTailsIndexable(req, req.board.snakes) && IsCategory(v)
    ensures IsCategory(BuiltValue(req, isFriendly, width, height, c, v))
  {
    SnakesLayerKeepsCategories(req, isFriendly, req.board.snakes, c,
      FoodLayer(req.board.food, c, EdgeLayer(c, width, height, v)));
  }

  /** c is a body cell of some snake, or the head of a snake other than ours. */
  predicate Occupied(req: GameRequest, snakes: seq<Snake>, c: Cell)
  {
    exists s :: s in snakes && (c in s.body || (s.id != req.you.id && c == s.head))
  }

  /** c is the re-marked tail of some snake. */
  predicate SomeTail(req: GameRequest, snakes: seq<Snake>, c: Cell)
    requires AllTailsIndexable(req, snakes)
  {
    exists s :: s in snakes && TailMarked(req, s) && c == TailCell(req, s)
  }

  /**
   * Threat rings never overwrite an occupied cell: a body or other-snake head cell stays at
   * body rank or above unless it is some snake's re-marked tail.
   */
  lemma {:induction false} OccupiedCellsStayOccupied(
    req: GameRequest, isFriendly: string -> bool, snakes: seq<Snake>, c: Cell, v: int)
    requires AllTailsIndexable(req, snakes)
    requires Occupied(req, snakes, c) && !SomeTail(req, snakes, c)
    ensures SnakesLayer(req, isFriendly, snakes, c, v) >= SNAKE_BODY
  {
    var n := |snakes| - 1;
    var last := snakes[n];
    var prefix := snakes[..n];
    assert snakes == prefix + [last];
    var before := SnakesLayer(req, isFriendly, prefix, c, v);
    if !(c in last.body || (last.id != req.you.id && c == last.head)) {
      var s :| s in snakes && (c in s.body || (s.id != req.you.id && c == s.head));
      assert s in prefix;
      assert !SomeTail(req, prefix, c) by {
        forall t | t in prefix && TailMarked(req, t) ensures c != TailCell(req, t) {
          assert t in snakes;
        }
      }
      OccupiedCellsStayOccupied(req, isFriendly, prefix, c, v);
    }
  }

  /** The build writes nothing beyond walls and food on a cell far from every snake. */
  lemma {:induction false} FarCellsKeepBaseValue(
    req: GameRequest, isFriendly: string -> bool, snakes: seq<Snake>, c: Cell, v: int)
    requires AllTailsIndexable(req, snakes)
    requires forall s :: s in snakes ==> c !in s.body && GetDistance(s.head, c) > 2
    ensures SnakesLayer(req, isFriendly, snakes, c, v) == v
  {
    if snakes != [] {
      var n := |snakes| - 1;
      assert forall s :: s in snakes[..n] ==> s in snakes;
      FarCellsKeepBaseValue(req, isFriendly, snakes[..n], c, v);
      if TailMarked(req, snakes[n]) {
        assert TailCell(req, snakes[n]) in snakes[n].body;
      }
    }
  }

  /**
   * Food does not always stay food: a food cell next to the head of a snake of our length
   * becomes a one-move threat.
   */
  lemma FoodCanBeOverwritten(isFriendly: string -> bool)
    ensures
      var me := Snake("me", "me", 90, [Cell(0, 0), Cell(0, 1)], Cell(0, 0), 2, "");
      var other := Snake("other", "other", 100, [Cell(2, 3), Cell(2, 4)], Cell(2, 3), 2, "");
      var req := GameRequest(Game("g", 500), 5, Board(5, 5, [Cell(2, 2)], [me, other]), me);
      SnapshotFits(req, 5, 5) && Cell(2, 2) in req.board.food &&
      BuiltValue(req, isFriendly, 5, 5, Cell(2, 2), SPACE) != FOOD
  {
  }

  /**
   * Walls do not always stay near-wall: a perimeter cell two moves from another snake's head
   * drops to the two-move threat rank, below near-wall.
   */
  lemma PerimeterCanDropBelowWallNear(isFriendly: string -> bool)
    ensures
      var me := Snake("me", "me", 90, [Cell(0, 0), Cell(0, 1)], Cell(0, 0), 2, "");
      var other := Snake("other", "other", 100, [Cell(2, 3), Cell(2, 2)], Cell(2, 3), 2, "");
      var req := GameRequest(Game("g", 500), 5, Board(5, 5, [], [me, other]), me);
      SnapshotFits(req, 5, 5) && OnEdge(Cell(1, 4), 5, 5) &&
      BuiltValue(req, isFriendly, 5, 5, Cell(1, 4), SPACE) == FUTURE_2 && FUTURE_2 < WALL_NEAR
  {
    var me := Snake("me", "me", 90, [Cell(0, 0), Cell(0, 1)], Cell(0, 0), 2, "");
    var other := Snake("other", "other", 100, [Cell(2, 3), Cell(2, 2)], Cell(2, 3), 2, "");
    var req := GameRequest(Game("g", 500), 5, Board(5, 5, [], [me, other]), me);
    var c := Cell(1, 4);
    assert SnakeLayer(req, isFriendly, me, c, WALL_NEAR) == WALL_NEAR;
    assert SnakeLayer(req, isFriendly, other, c, WALL_NEAR) == FUTURE_2;
    assert SnakesLayer(req, isFriendly, [me], c, WALL_NEAR) == WALL_NEAR;
    assert [me, other][..1] == [me];
  }

  /** The four offsets one move from a head: down, up, left, right. */
  const FUTURE_1_OFFSETS: seq<Cell> := [Cell(0, -1), Cell(0, 1), Cell(-1, 0), Cell(1, 0)]

  /** The eight offsets two moves from a head. */
  const FUTURE_2_OFFSETS: seq<Cell> :=
    [Cell(-1, -1), Cell(-2, 0), Cell(-1, 1), Cell(0, 2), Cell(1, 1), Cell(2, 0), Cell(1, -1), Cell(0, -2)]

  /** c is reached from head by one of the first k offsets. */
  predicate RingHit(offsets: seq<Cell>, k: int, head: Cell, c: Cell)
    requires 0 <= k <= |offsets|
  {
    Cell(c.x - head.x, c.y - head.y) in offsets[..k]
  }

  predicate Distinct(offsets: seq<Cell>)
  {
    forall i, j :: 0 <= i < j < |offsets| ==> offsets[i] != offsets[j]
  }

  /** Taking one more offset adds exactly the cell it reaches, which no earlier offset reached. */
  lemma RingHitStep(offsets: seq<Cell>, k: int, head: Cell)
    requires 0 <= k < |offsets| && Distinct(offsets)
    ensures !RingHit(offsets, k, head, ApplyOffsetToCell(offsets[k], head))
    ensures forall c :: RingHit(offsets, k + 1, head, c) <==> RingHit(offsets, k, head, c) || c == ApplyOffsetToCell(offsets[k], head)
  {
    assert offsets[..k + 1] == offsets[..k] + [offsets[k]];
  }

  lemma OffsetsDistinct()
    ensures Distinct(FUTURE_1_OFFSETS) && Distinct(FUTURE_2_OFFSETS)
  {
  }

  /** The offset lists cover exactly the cells at distance one and two from the head. */
  lemma OffsetRings(head: Cell, c: Cell)
    ensures RingHit(FUTURE_1_OFFSETS, |FUTURE_1_OFFSETS|, head, c) <==> GetDistance(head, c) == 1
    ensures RingHit(FUTURE_2_OFFSETS, |FUTURE_2_OFFSETS|, head, c) <==> GetDistance(head, c) == 2
  {
    assert FUTURE_1_OFFSETS[..|FUTURE_1_OFFSETS|] == FUTURE_1_OFFSETS;
    assert FUTURE_2_OFFSETS[..|FUTURE_2_OFFSETS|] == FUTURE_2_OFFSETS;
  }

  // ---------------------------------------------------------------------------------------
  // The grid object
  // ---------------------------------------------------------------------------------------

  class Grid {
    const width: nat
    const height: nat
    var data: array2<int>

    ghost predicate Valid()
      reads this
    {
      data.Length0 == height && data.Length1 == width
    }

    /** A width x height grid with every cell holding fillValue. */
    constructor (width: nat, height: nat, fillValue: int := SPACE)
      ensures this.width == width && this.height == height
      ensures Valid() && fresh(data)
      ensures forall c :: InBounds(c, width, height) ==> Value(c) == fillValue
    {
      this.width := width;
      this.height := height;
      var d := InitGrid(width, height, fillValue);
      data := d;
    }

    function Value(cell: Cell): int
      reads this, data
      requires Valid() && InBounds(cell, width, height)
    {
      data[cell.y, cell.x]
    }

    /** The cell lies off the board. */
    function OutOfBounds(cell: Cell): (r: bool)
      ensures r <==> !InBounds(cell, width, height)
    {
      cell.x < 0 || cell.y < 0 || cell.y >= height || cell.x >= width
    }

    /** An on-board cell is near the perimeter when a straight two-step move leaves the board after one on-board step. */
    function NearPerimeter(cell: Cell): (r: bool)
      ensures InBounds(cell, width, height) ==>
        (r <==> exists m :: (IsDirection(m) &&
          !OutOfBounds(ApplyMoveToCell(m, cell)) && OutOfBounds(ApplyMoveToCell(m, ApplyMoveToCell(m, cell)))))
    {
      var r := cell.x == 1 || cell.x == width - 2 || cell.y == 1 || cell.y == height - 2;
      assert InBounds(cell, width, height) && r ==> (
        if cell.x == 1 then !OutOfBounds(ApplyMoveToCell(LEFT, cell)) && OutOfBounds(ApplyMoveToCell(LEFT, ApplyMoveToCell(LEFT, cell)))
        else if cell.x == width - 2 then !OutOfBounds(ApplyMoveToCell(RIGHT, cell)) && OutOfBounds(ApplyMoveToCell(RIGHT, ApplyMoveToCell(RIGHT, cell)))
        else if cell.y == 1 then !OutOfBounds(ApplyMoveToCell(DOWN, cell)) && OutOfBounds(ApplyMoveToCell(DOWN, ApplyMoveToCell(DOWN, cell)))
        else !OutOfBounds(ApplyMoveToCell(UP, cell)) && OutOfBounds(ApplyMoveToCell(UP, ApplyMoveToCell(UP, cell))));
      r
    }

    /** An on-board cell is on the perimeter exactly when one of its four neighbours is off the board. */
    function OnPerimeter(cell: Cell): (r: bool)
      ensures InBounds(cell, width, height) ==>
        (r <==> OutOfBounds(ApplyMoveToCell(UP, cell)) || OutOfBounds(ApplyMoveToCell(DOWN, cell)) ||
                OutOfBounds(ApplyMoveToCell(LEFT, cell)) || OutOfBounds(ApplyMoveToCell(RIGHT, cell)))
    {
      cell.x == 0 || cell.x == width - 1 || cell.y == 0 || cell.y == height - 1
    }

    /** Writes newValue into one on-board cell and returns that cell; no other cell changes. */
    method UpdateCell(cell: Cell, newValue: int) returns (r: Cell)
      requires Valid() && InBounds(cell, width, height)
      modifies data
      ensures r == cell
      ensures forall c :: InBounds(c, width, height) ==> Value(c) == if c == cell then newValue else old(Value(c))
    {
      data[cell.y, cell.x] := newValue;
      r := cell;
    }

    /** A fresh matrix holding the same values as the grid. */
    method CopyGridData() returns (copy: array2<int>)
      requires Valid()
      ensures fresh(copy) && copy.Length0 == height && copy.Length1 == width
      ensures forall c :: InBounds(c, width, height) ==> copy[c.y, c.x] == Value(c)
    {
      copy := InitGrid(width, height);
      for i := 0 to height
        invariant forall y, x :: 0 <= y < i && 0 <= x < width ==> copy[y, x] == data[y, x]
      {
        for j := 0 to width
          invariant forall y, x :: 0 <= y < i && 0 <= x < width ==> copy[y, x] == data[y, x]
          invariant forall x :: 0 <= x < j ==> copy[i, x] == data[i, x]
        {
          copy[i, j] := Value(Cell(j, i));
        }
      }
    }

    /** A fresh grid of the same size and contents, sharing no storage with this one. */
    method CopyGrid() returns (gridCopy: Grid)
      requires Valid()
      ensures fresh(gridCopy) && fresh(gridCopy.data) && gridCopy.Valid()
      ensures gridCopy.width == width && gridCopy.height == height
      ensures forall c :: InBounds(c, width, height) ==> gridCopy.Value(c) == Value(c)
    {
      gridCopy := new Grid(width, height);
      var d := CopyGridData();
      gridCopy.data := d;
    }

    /**
     * Every on-board cell holding category t, each once, in row-major order.
     */
    method GetAll(t: int) returns (cells: seq<Cell>)
      requires Valid()
      ensures forall c :: c in cells <==> InBounds(c, width, height) && Value(c) == t
      ensures forall i, j :: 0 <= i < j < |cells| ==> RowMajorBefore(cells[i], cells[j])
    {
      cells := [];
      for i := 0 to height
        invariant forall c :: c in cells <==> InBounds(c, width, height) && Value(c) == t && c.y < i
        invariant forall a, b :: 0 <= a < b < |cells| ==> RowMajorBefore(cells[a], cells[b])
        invariant forall a :: 0 <= a < |cells| ==> cells[a].y < i
      {
        for j := 0 to width
          invariant forall c :: c in cells <==>
            InBounds(c, width, height) && Value(c) == t && (c.y < i || (c.y == i && c.x < j))
          invariant forall a, b :: 0 <= a < b < |cells| ==> RowMajorBefore(cells[a], cells[b])
          invariant forall a :: 0 <= a < |cells| ==> RowMajorBefore(cells[a], Cell(j, i))
        {
          var currentCell := Cell(j, i);
          if Value(currentCell) == t {
            cells := cells + [currentCell];
          }
        }
      }
    }

    /** The walls: both end columns, then both end rows, become near-wall. */
    method MarkEdges()
      requires Valid() && (width == 0 <==> height == 0)
      modifies data
      ensures forall c :: InBounds(c, width, height) ==> Value(c) == EdgeLayer(c, width, height, old(Value(c)))
    {
      for y := 0 to height
        invariant forall c :: InBounds(c, width, height) ==>
          Value(c) == if (c.x == 0 || c.x == width - 1) && c.y < y then WALL_NEAR else old(Value(c))
      {
        var _ := UpdateCell(Cell(0, y), WALL_NEAR);
        var _ := UpdateCell(Cell(width - 1, y), WALL_NEAR);
      }
      for x := 0 to width
        invariant forall c :: InBounds(c, width, height) ==>
          Value(c) == if c.x == 0 || c.x == width - 1 || ((c.y == 0 || c.y == height - 1) && c.x < x)
                      then WALL_NEAR else old(Value(c))
      {
        var _ := UpdateCell(Cell(x, 0), WALL_NEAR);
        var _ := UpdateCell(Cell(x, height - 1), WALL_NEAR);
      }
    }

    /** Every listed cell gets the same mark. */
    method MarkAll(cells: seq<Cell>, mark: int)
      requires Valid() && forall c :: c in cells ==> InBounds(c, width, height)
      modifies data
      ensures forall c :: InBounds(c, width, height) ==> Value(c) == if c in cells then mark else old(Value(c))
    {
      for i := 0 to |cells|
        invariant forall c :: InBounds(c, width, height) ==>
          Value(c) == if c in cells[..i] then mark else old(Value(c))
      {
        var _ := UpdateCell(cells[i], mark);
        assert cells[..i + 1] == cells[..i] + [cells[i]];
      }
    }

    /** The ring one move from head: on-board cells below danger get key. */
    method MarkFuture1(head: Cell, key: int)
      requires Valid()
      modifies data
      ensures forall c :: InBounds(c, width, height) ==>
        Value(c) == if GetDistance(head, c) == 1 && old(Value(c)) < DANGER then key else old(Value(c))
    {
      var offsets := FUTURE_1_OFFSETS;
      OffsetsDistinct();
      for k := 0 to |offsets|
        invariant forall c :: InBounds(c, width, height) ==>
          Value(c) == if RingHit(offsets, k, head, c) && old(Value(c)) < DANGER then key else old(Value(c))
      {
        var position := ApplyOffsetToCell(offsets[k], head);
        RingHitStep(offsets, k, head);
        if !OutOfBounds(position) && Value(position) < DANGER {
          var _ := UpdateCell(position, key);
        }
      }
      forall c | InBounds(c, width, height)
        ensures Value(c) == if GetDistance(head, c) == 1 && old(Value(c)) < DANGER then key else old(Value(c))
      {
        OffsetRings(head, c);
      }
    }

    /** The ring two moves from head: on-board cells at most near-wall that are not food become two-move threats. */
    method MarkFuture2(head: Cell)
      requires Valid()
      modifies data
      ensures forall c :: InBounds(c, width, height) ==>
        Value(c) == if GetDistance(head, c) == 2 && old(Value(c)) <= WALL_NEAR && old(Value(c)) != FOOD
                    then FUTURE_2 else old(Value(c))
    {
      var offsets := FUTURE_2_OFFSETS;
      OffsetsDistinct();
      for k := 0 to |offsets|
        invariant forall c :: InBounds(c, width, height) ==>
          Value(c) == if RingHit(offsets, k, head, c) && old(Value(c)) <= WALL_NEAR && old(Value(c)) != FOOD
                      then FUTURE_2 else old(Value(c))
      {
        var position := ApplyOffsetToCell(offsets[k], head);
        RingHitStep(offsets, k, head);
        if !OutOfBounds(position) && Value(position) <= WALL_NEAR && Value(position) != FOOD {
          var _ := UpdateCell(position, FUTURE_2);
        }
      }
      forall c | InBounds(c, width, height)
        ensures Value(c) == if GetDistance(head, c) == 2 && old(Value(c)) <= WALL_NEAR && old(Value(c)) != FOOD
                            then FUTURE_2 else old(Value(c))
      {
        OffsetRings(head, c);
      }
    }

    /** One snake drawn over the grid: body, head, tail, then the two threat rings. */
    method MarkSnake(req: GameRequest, isFriendly: string -> bool, snake: Snake)
      requires Valid() && TailIndexable(req, snake) && InBounds(snake.head, width, height)
      requires forall b :: b in snake.body ==> InBounds(b, width, height)
      modifies data
      ensures forall c :: InBounds(c, width, height) ==>
        Value(c) == SnakeLayer(req, isFriendly, snake, c, old(Value(c)))
    {
      var snakeIsMe := snake.id == req.you.id;
      MarkAll(snake.body, if snakeIsMe then YOUR_BODY else SNAKE_BODY);
      if !snakeIsMe {
        var _ := UpdateCell(snake.head, HeadKey(req, isFriendly, snake));
      }
      if TailMarked(req, snake) {
        var _ := UpdateCell(snake.body[snake.length - 1], TAIL);
      }
      if !snakeIsMe {
        MarkFuture1(snake.head, Future1Key(req, isFriendly, snake));
        MarkFuture2(snake.head);
      }
    }

    /**
     * Draws the turn's snapshot over the grid: walls, food, then every snake in list order.
     * Each cell ends up as BuiltValue of what it held before; returns the grid's matrix.
     */
    method BuildGrid(req: GameRequest, isFriendly: string -> bool) returns (result: array2<int>)
      requires Valid() && (width == 0 <==> height == 0) && SnapshotFits(req, width, height)
      modifies data
      ensures result == data
      ensures forall c :: InBounds(c, width, height) ==>
        Value(c) == BuiltValue(req, isFriendly, width, height, c, old(Value(c)))
    {
      var board := req.board;
      MarkEdges();
      MarkAll(board.food, FOOD);
      for i := 0 to |board.snakes|
        invariant forall c :: InBounds(c, width, height) ==>
          Value(c) == SnakesLayer(req, isFriendly, board.snakes[..i], c,
            FoodLayer(board.food, c, EdgeLayer(c, width, height, old(Value(c)))))
      {
        var snake := board.snakes[i];
        assert board.snakes[..i + 1][..i] == board.snakes[..i];
        MarkSnake(req, isFriendly, snake);
      }
      assert board.snakes[..|board.snakes|] == board.snakes;
      result := data;
    }
  }
}
