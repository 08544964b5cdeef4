/** The per-turn state: the request, its parts, and the semantic grid built from it (src/app/state.ts). */
module TurnState {
  import opened Keys
  import opened Types
  import opened SemanticGrid

  class State {
    const request: GameRequest
    const game: Game
    const board: Board
    const self: Snake
    const turn: int
    /** Decides whether a snake's name marks it as a friend. */
    const isFriendly: string -> bool
    const grid: Grid

    /** The request's parts are the ones the state holds. */
    predicate FromRequest()
    {
      game == request.game && board == request.board && self == request.you && turn == request.turn
    }

    /**
     * Takes the request apart and builds a fresh grid for it. The grid is square, with both
     * sides equal to the board's width.
     */
    constructor (gameRequest: GameRequest, isFriendly: string -> bool)
      requires SnapshotFits(gameRequest, gameRequest.board.width, gameRequest.board.width)
      ensures request == gameRequest && game == gameRequest.game && board == gameRequest.board
      ensures self == gameRequest.you && turn == gameRequest.turn && this.isFriendly == isFriendly
      ensures FromRequest()
      ensures fresh(grid) && fresh(grid.data) && grid.Valid()
      ensures grid.width == board.width && grid.height == board.width
      ensures forall c :: InBounds(c, grid.width, grid.height) ==>
        grid.Value(c) == BuiltValue(gameRequest, isFriendly, grid.width, grid.height, c, SPACE)
    {
      request := gameRequest;
      game := gameRequest.game;
      board := gameRequest.board;
      self := gameRequest.you;
      turn := gameRequest.turn;
      this.isFriendly := isFriendly;
      var g := new Grid(gameRequest.board.width, gameRequest.board.width);
      var _ := g.BuildGrid(gameRequest, isFriendly);
      grid := g;
    }
  }
}
