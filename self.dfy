/**
 * Questions about our own snake: identity, location, health thresholds and relative size
 * (src/app/self.ts), together with the closest-food distance they depend on.
 */
module Self {
  import opened Types
  import opened Weights
  import opened Utils
  import opened TurnState

  /** The snake is ours: its id is our id. */
  predicate IsMe(snake: Snake, state: State): (r: bool)
    ensures snake == state.self ==> r
    ensures state.FromRequest() ==> (r <==> snake.id == state.request.you.id)
  {
    snake.id == state.self.id
  }

  /** Our head. */
  function MyLocation(state: State): (r: Cell)
    ensures state.FromRequest() ==> r == state.request.you.head
  {
    state.self.head
  }

  /** Our health. */
  function MyHealth(state: State): (r: int)
    ensures state.FromRequest() ==> r == state.request.you.health
  {
    state.self.health
  }

  /**
   * The health below which we go eating: 33, less one for every 500 turns played
   * (the quotient is rounded down).
   */
  function MyMinimumHealth(state: State): (r: int)
    ensures (SURVIVAL_MIN_HEALTH - r) * LONG_GAME_HEALTH_RESILIENCY <= state.turn
    ensures state.turn < (SURVIVAL_MIN_HEALTH - r + 1) * LONG_GAME_HEALTH_RESILIENCY
  {
    SURVIVAL_MIN_HEALTH - state.turn / LONG_GAME_HEALTH_RESILIENCY
  }

  /** The threshold never rises as the game goes on, and it is 33 for the first 500 turns. */
  lemma MinimumHealthNonIncreasing(early: State, late: State)
    requires early.turn <= late.turn
    ensures MyMinimumHealth(late) <= MyMinimumHealth(early)
    ensures 0 <= early.turn < LONG_GAME_HEALTH_RESILIENCY ==> MyMinimumHealth(early) == SURVIVAL_MIN_HEALTH
  {
    var a := MyMinimumHealth(early);
    var b := MyMinimumHealth(late);
    assert (SURVIVAL_MIN_HEALTH - a) * LONG_GAME_HEALTH_RESILIENCY <= early.turn;
    assert late.turn < (SURVIVAL_MIN_HEALTH - b + 1) * LONG_GAME_HEALTH_RESILIENCY;
  }

  /** No other snake is as long as we are. */
  predicate IsBiggest(state: State)
  {
    forall s :: s in state.board.snakes && !IsMe(s, state) ==> s.length < state.self.length
  }

  /** Some other snake is shorter than we are. */
  predicate HasSmallerRival(state: State)
  {
    exists s :: s in state.board.snakes && !IsMe(s, state) && s.length < state.self.length
  }

  /** The closest food is at least health - 1 away, or health has fallen to the minimum. */
  predicate HungerEmergency(state: State)
  {
    FoodDistanceEstimate(MyLocation(state), state.board.food, state.board.height) >= (MyHealth(state) - 1) as real ||
    MyHealth(state) <= MyMinimumHealth(state)
  }

  method AmIBiggestSnake(state: State) returns (r: bool)
    ensures r <==> forall s :: s in state.board.snakes && !IsMe(s, state) ==> s.length < state.self.length
    ensures r == IsBiggest(state)
  {
    var snakes := state.board.snakes;
    for i := 0 to |snakes|
      invariant forall k :: 0 <= k < i && !IsMe(snakes[k], state) ==> snakes[k].length < state.self.length
    {
      var snake := snakes[i];
      if IsMe(snake, state) {
        continue;
      }
      if snake.length >= state.self.length {
        return false;
      }
    }
    return true;
  }

  method ExistsSnakeSmallerThanMe(state: State) returns (r: bool)
    ensures r <==> exists s :: s in state.board.snakes && !IsMe(s, state) && s.length < state.self.length
    ensures r == HasSmallerRival(state)
  {
    var snakes := state.board.snakes;
    for i := 0 to |snakes|
      invariant forall k :: 0 <= k < i && !IsMe(snakes[k], state) ==> snakes[k].length >= state.self.length
    {
      var snake := snakes[i];
      if IsMe(snake, state) {
        continue;
      }
      if snake.length < state.self.length {
        return true;
      }
    }
    return false;
  }

  /**
   * The smallest Manhattan distance from start to a listed food, where 9999 stands for
   * "none closer than 9999".
   */
  function ClosestFoodDistance(start: Cell, foods: seq<Cell>): (d: nat)
    ensures d <= 9999
    ensures forall f :: f in foods ==> d <= GetDistance(start, f)
    ensures d < 9999 ==> exists f :: f in foods && GetDistance(start, f) == d
    decreases |foods|
  {
    if foods == [] then 9999
    else
      var n := |foods| - 1;
      var rest := ClosestFoodDistance(start, foods[..n]);
      assert foods == foods[..n] + [foods[n]];
      var last := GetDistance(start, foods[n]);
      if last < rest then last else rest
  }

  /** The distance used for hunger decisions: the closest food, or 0.7 of the board height without one. */
  function FoodDistanceEstimate(start: Cell, foods: seq<Cell>, height: nat): real
  {
    var d := ClosestFoodDistance(start, foods);
    if d == 9999 then height as real * 0.7 else d as real
  }

  /** Scans the request's food list for the food closest to start. */
  method DistanceFromCellToClosestFoodInFoodList(start: Cell, state: State) returns (r: real)
    ensures r == FoodDistanceEstimate(start, state.board.food, state.board.height)
  {
    var foodList := state.board.food;
    var closestFoodCell: Option<Cell> := None;
    var closestFoodDistance := 9999;
    for i := 0 to |foodList|
      invariant closestFoodDistance == ClosestFoodDistance(start, foodList[..i])
      invariant closestFoodCell.Some? ==> closestFoodCell.value in foodList[..i]
    {
      var food := foodList[i];
      assert foodList[..i + 1][..i] == foodList[..i];
      var currentDistance := GetDistance(start, food);
      if currentDistance < closestFoodDistance {
        closestFoodCell := Some(food);
        closestFoodDistance := currentDistance;
      }
    }
    assert foodList[..|foodList|] == foodList;
    r := if closestFoodDistance == 9999 then state.board.height as real * 0.7 else closestFoodDistance as real;
  }

  method IsHungerEmergency(state: State) returns (r: bool)
    ensures r <==>
      FoodDistanceEstimate(MyLocation(state), state.board.food, state.board.height) >= (MyHealth(state) - 1) as real ||
      MyHealth(state) <= MyMinimumHealth(state)
    ensures r == HungerEmergency(state)
  {
    var distanceToClosestFood := DistanceFromCellToClosestFoodInFoodList(MyLocation(state), state);
    r := distanceToClosestFood >= (MyHealth(state) - 1) as real || MyHealth(state) <= MyMinimumHealth(state);
  }
}
