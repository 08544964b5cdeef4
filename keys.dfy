/** Category ordinals, direction indices and behaviour indices of the bot (src/app/keys.ts). */
module Keys {

  // Board-space categories. The ordinal is both a danger rank (searches avoid
  // cells at or above a threshold) and the priority used while the grid is built.
  const KILL_ZONE := 0
  const SPACE := 1
  const TAIL := 2
  const FOOD := 3
  const FUTURE_2 := 4
  const WALL_NEAR := 5
  const WARNING := 6
  const SMALL_DANGER := 7
  const DANGER := 8
  const SNAKE_BODY := 9
  const YOUR_BODY := 10
  const SMALL_HEAD := 11
  const ENEMY_HEAD := 12

  /** Name of each category, indexed by its ordinal. */
  const TYPE: seq<string> := [
    "KILL_ZONE", "SPACE", "TAIL", "FOOD", "FUTURE_2", "WALL_NEAR", "WARNING",
    "SMALL_DANGER", "DANGER", "SNAKE_BODY", "YOUR_BODY", "SMALL_HEAD", "ENEMY_HEAD"
  ]

  /** Map symbol of each category (one spare symbol at index 13). */
  const GRID_SYMBOLS: seq<string> := ["!", " ", "T", "o", ".", "*", "w", "x", "X", "s", "Y", "S", "E", "@"]

  // Behaviours.
  const EATING := 0
  const KILLING_TIME := 1
  const HUNTING := 2
  const LATE_HUNTING := 3
  const EATING_EMERGENCY := 4
  const BEHAVIOURS: seq<string> := ["EATING", "KILLING_TIME", "HUNTING", "LATE_HUNTING", "EATING_EMERGENCY"]

  // Directions: a move is an index into DIRECTION.
  const DIRECTION: seq<string> := ["up", "down", "left", "right"]
  const UP := 0
  const DOWN := 1
  const LEFT := 2
  const RIGHT := 3
  const DIRECTIONS: seq<int> := [UP, DOWN, LEFT, RIGHT]

  /** A grid value that names one of the thirteen categories. */
  predicate IsCategory(v: int) {
    KILL_ZONE <= v <= ENEMY_HEAD
  }

  /** A move index, that is, an index into DIRECTION. */
  predicate IsDirection(m: int) {
    0 <= m < |DIRECTION|
  }

  /** The categories are ranked 0..12 in this strict order. */
  lemma CategoryOrder()
    ensures KILL_ZONE == 0 && ENEMY_HEAD == 12
    ensures KILL_ZONE < SPACE < TAIL < FOOD < FUTURE_2 < WALL_NEAR < WARNING < SMALL_DANGER
    ensures SMALL_DANGER < DANGER < SNAKE_BODY < YOUR_BODY < SMALL_HEAD < ENEMY_HEAD
  {
  }

  /** TYPE holds one name per ordinal, the names are pairwise distinct, and each names its own constant. */
  lemma TypeNamesCategories()
    ensures |TYPE| == ENEMY_HEAD + 1
    ensures forall v :: IsCategory(v) <==> 0 <= v < |TYPE|
    ensures forall i, j :: 0 <= i < j < |TYPE| ==> TYPE[i] != TYPE[j]
    ensures TYPE[KILL_ZONE] == "KILL_ZONE" && TYPE[FOOD] == "FOOD" && TYPE[ENEMY_HEAD] == "ENEMY_HEAD"
  {
  }

  /** Every category ordinal indexes GRID_SYMBOLS, so printing any grid value stays in range. */
  lemma GridSymbolsCoverCategories()
    ensures forall v :: IsCategory(v) ==> 0 <= v < |GRID_SYMBOLS|
  {
  }

  /** Direction indices, their enumeration and their names. */
  lemma DirectionNames()
    ensures UP == 0 && DOWN == 1 && LEFT == 2 && RIGHT == 3
    ensures DIRECTIONS == [0, 1, 2, 3]
    ensures DIRECTION[UP] == "up" && DIRECTION[DOWN] == "down"
    ensures DIRECTION[LEFT] == "left" && DIRECTION[RIGHT] == "right"
    ensures forall m :: IsDirection(m) <==> m in DIRECTIONS
  {
  }
}
