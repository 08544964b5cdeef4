/** Cell arithmetic: moves, offsets, Manhattan distance and direction recovery (src/app/utils.ts). */
module Utils {
  import opened Keys
  import opened Params
  import opened Types

  function Abs(n: int): nat {
    if n < 0 then -n else n
  }

  /**
   * The cell one step from `cell` in direction `move`; y grows upwards, so UP adds one to y.
   * A code that is not a direction leaves the cell where it is.
   */
  function ApplyMoveToCell(move: int, cell: Cell): (r: Cell)
    ensures move == UP ==> r == Cell(cell.x, cell.y + 1)
    ensures move == DOWN ==> r == Cell(cell.x, cell.y - 1)
    ensures move == LEFT ==> r == Cell(cell.x - 1, cell.y)
    ensures move == RIGHT ==> r == Cell(cell.x + 1, cell.y)
    ensures !IsDirection(move) ==> r == cell
  {
    if move == UP then Cell(cell.x, cell.y + (if Y_DIRECTION == UP then 1 else -1))
    else if move == DOWN then Cell(cell.x, cell.y + (if Y_DIRECTION == UP then -1 else 1))
    else if move == LEFT then Cell(cell.x - 1, cell.y)
    else if move == RIGHT then Cell(cell.x + 1, cell.y)
    else cell
  }

  /** Componentwise sum of an offset and a cell. */
  function ApplyOffsetToCell(offset: Cell, cell: Cell): (r: Cell)
    ensures r.x - cell.x == offset.x && r.y - cell.y == offset.y
  {
    Cell(offset.x + cell.x, offset.y + cell.y)
  }

  /** Manhattan distance: never negative, and zero exactly on equal cells. */
  function GetDistance(a: Cell, b: Cell): (d: nat)
    ensures d == 0 <==> a == b
  {
    Abs(a.x - b.x) + Abs(a.y - b.y)
  }

  /** Distance is symmetric and obeys the triangle inequality. */
  lemma DistanceMetric(a: Cell, b: Cell, c: Cell)
    ensures GetDistance(a, b) == GetDistance(b, a)
    ensures GetDistance(a, c) <= GetDistance(a, b) + GetDistance(b, c)
  {
  }

  /** Every direction moves a cell by exactly one unit of distance, and moves are distinct. */
  lemma MoveIsUnitStep(m: int, c: Cell)
    requires IsDirection(m)
    ensures GetDistance(c, ApplyMoveToCell(m, c)) == 1
    ensures forall k :: IsDirection(k) && k != m ==> ApplyMoveToCell(k, c) != ApplyMoveToCell(m, c)
  {
  }

  /** Two cells at distance one are related by exactly one of the four moves. */
  lemma AdjacentIsSomeMove(a: Cell, b: Cell)
    requires GetDistance(a, b) == 1
    ensures exists m :: IsDirection(m) && ApplyMoveToCell(m, a) == b
  {
    if b.x == a.x + 1 {
      assert ApplyMoveToCell(RIGHT, a) == b;
    } else if b.x == a.x - 1 {
      assert ApplyMoveToCell(LEFT, a) == b;
    } else if b.y == a.y + 1 {
      assert ApplyMoveToCell(UP, a) == b;
    } else {
      assert ApplyMoveToCell(DOWN, a) == b;
    }
  }

  /**
   * Direction from a towards b, None when the cells are equal. A difference in x wins
   * over a difference in y, and the direction returned always brings a one step closer to b.
   */
  function CalcDirection(a: Cell, b: Cell): (r: Option<int>)
    ensures r == None <==> a == b
    ensures r.Some? ==> IsDirection(r.value) && GetDistance(ApplyMoveToCell(r.value, a), b) == GetDistance(a, b) - 1
    ensures a.x != b.x ==> r.Some? && (r.value == LEFT || r.value == RIGHT)
  {
    var xDelta := a.x - b.x;
    var yDelta := a.y - b.y;
    if xDelta < 0 then Some(RIGHT)
    else if xDelta > 0 then Some(LEFT)
    else if yDelta < 0 then Some(UP)
    else if yDelta > 0 then Some(DOWN)
    else None
  }

  /** Recovering the direction of a single move gives that move back. */
  lemma CalcDirectionRoundTrip(m: int, a: Cell)
    requires IsDirection(m)
    ensures CalcDirection(a, ApplyMoveToCell(m, a)) == Some(m)
  {
  }

  /** Same x and same y. */
  predicate SameCell(a: Cell, b: Cell): (r: bool)
    ensures r <==> a == b
  {
    a.x == b.x && a.y == b.y
  }

  /** Whether some element of arr has the coordinates of cell; scans from the front. */
  function ArrayIncludesCell(arr: seq<Cell>, cell: Cell): (r: bool)
    ensures r <==> exists i :: 0 <= i < |arr| && arr[i].x == cell.x && arr[i].y == cell.y
    ensures r <==> cell in arr
  {
    if |arr| == 0 then false
    else if SameCell(arr[0], cell) then true
    else
      var rest := ArrayIncludesCell(arr[1..], cell);
      assert forall i :: 1 <= i < |arr| ==> arr[i] == arr[1..][i - 1];
      rest
  }
}
