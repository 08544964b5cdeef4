/** The per-turn request of the game API, as plain values (src/app/types.ts). */
module Types {

  /** A board coordinate; y grows upwards. */
  datatype Cell = Cell(x: int, y: int)

  datatype Game = Game(id: string, timeout: int)

  /** A snake: body is head first; length is the declared length, which need not equal |body|. */
  datatype Snake = Snake(
    id: string, name: string, health: int, body: seq<Cell>, head: Cell, length: int, shout: string)

  datatype Board = Board(height: nat, width: nat, food: seq<Cell>, snakes: seq<Snake>)

  datatype GameRequest = GameRequest(game: Game, turn: int, board: Board, you: Snake)

  datatype MoveResponse = MoveResponse(move: string)

  datatype Option<T> = None | Some(value: T)
}
