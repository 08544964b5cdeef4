/**
 * The move endpoint (src/app/main.ts): builds the turn state from the request, marks the grid,
 * chooses a behaviour and answers with a direction name.
 */
module Endpoint {
  import opened Keys
  import opened Types
  import opened Utils
  import opened SemanticGrid
  import opened TurnState
  import opened Self
  import opened Search
  import opened Behaviours = Move
  import Astar

  /**
   * The behaviour the endpoint follows: eat when health has dropped below the minimum, hunt
   * when we are the biggest snake or some snake is smaller, and eat otherwise.
   */
  ghost predicate Decided(state: State, h: Heuristics, move: int)
    reads state.grid, state.grid.data
    requires state.grid.Valid()
  {
    if MyHealth(state) < MyMinimumHealth(state) then Eats(state, h, move)
    else if IsBiggest(state) || HasSmallerRival(state) then Hunts(state, h, move)
    else Eats(state, h, move)
  }

  /** The behaviour choice of the endpoint, with -1 standing for "no move yet". */
  method Decide(state: State, h: Heuristics) returns (move: int)
    requires state.grid.Valid() && InBounds(MyLocation(state), state.grid.width, state.grid.height)
    requires Astar.SearchableSize(state.grid.width, state.grid.height)
    ensures Decided(state, h, move) && IsDirection(move)
  {
    move := -1;
    var iAmBiggestSnake := AmIBiggestSnake(state);
    var existsSmallerSnake := ExistsSnakeSmallerThanMe(state);
    if MyHealth(state) < MyMinimumHealth(state) {
      move := Eat(state, h);
    } else if iAmBiggestSnake || existsSmallerSnake {
      move := Hunt(state, h);
    }
    if move < 0 {
      move := Eat(state, h);
    }
  }

  /** The name sent back for a move index: a direction, and "right" for a missing move. */
  function ResponseFor(move: int): (r: MoveResponse)
    requires move < |DIRECTION|
    ensures r.move in DIRECTION
    ensures IsDirection(move) ==> r.move == DIRECTION[move]
    ensures move < 0 ==> r.move == "right"
  {
    MoveResponse(if move >= 0 then DIRECTION[move] else DIRECTION[RIGHT])
  }

  /**
   * Handles one move request on a square board: the answer is always one of the four direction
   * names, and it names the move the behaviour choice makes on the marked grid.
   */
  method Move(gameRequest: GameRequest, isFriendly: string -> bool, h: Heuristics)
    returns (response: MoveResponse, state: State, ghost move: int)
    requires SnapshotFits(gameRequest, gameRequest.board.width, gameRequest.board.width)
    requires InBounds(gameRequest.you.head, gameRequest.board.width, gameRequest.board.width)
    requires Astar.SearchableSize(gameRequest.board.width, gameRequest.board.width)
    ensures fresh(state) && state.request == gameRequest && state.grid.Valid()
    ensures state.self == gameRequest.you && state.board == gameRequest.board
    ensures state.turn == gameRequest.turn && state.isFriendly == isFriendly
    ensures state.grid.width == gameRequest.board.width && state.grid.height == gameRequest.board.width
    ensures forall c :: InBounds(c, state.grid.width, state.grid.height) ==>
      state.grid.Value(c) == BuiltValue(gameRequest, isFriendly, state.grid.width, state.grid.height, c, SPACE)
    ensures Decided(state, h, move) && response == ResponseFor(move)
    ensures response.move in DIRECTION
  {
    state := new State(gameRequest, isFriendly);
    PreprocessGrid(state);
    var chosen := Decide(state, h);
    response := ResponseFor(chosen);
    move := chosen;
  }
}
