/**
 * The behaviours (src/app/move.ts): eating, hunting and late hunting each produce a behaviour
 * vector, and addBiasesToBehaviour adds the fixed sequence of biases to it, normalises the sum
 * and picks the best move.
 */
module Move {
  import opened Keys
  import opened Weights
  import opened Types
  import opened Utils
  import opened SemanticGrid
  import opened TurnState
  import opened Self
  import opened Scores
  import opened Search
  import Astar

  /**
   * The parts of a turn's scoring that are built from exponentials and powers, taken as given:
   * the scorers handed to the eating and hunting searches (the eating scorer already scaled by
   * the hunger urgency) and the three bias vectors that come from such scorers.
   */
  datatype Heuristics = Heuristics(
    foodScoring: (int, Cell) -> real,
    killZoneScoring: (int, Cell) -> real,
    future2Scoring: (int, Cell) -> real,
    dangerousSnakes: seq<Number>,
    killableSnakes: seq<Number>,
    tails: seq<Number>)

  // ---------------------------------------------------------------------------------------
  // Base bias
  // ---------------------------------------------------------------------------------------

  /** Each move scored by the category of the cell it lands on. */
  method BaseMoveBias(state: State) returns (scores: seq<Number>)
    requires state.grid.Valid()
    ensures |scores| == 4
    ensures forall d :: 0 <= d < 4 ==> scores[d] == Num(BaseScoreForCell(ApplyMoveToCell(d, state.self.head), state))
  {
    var raw := [0.0, 0.0, 0.0, 0.0];
    var nextMove := ApplyMoveToCell(UP, state.self.head);
    raw := raw[UP := raw[UP] + BaseScoreForCell(nextMove, state)];
    nextMove := ApplyMoveToCell(DOWN, state.self.head);
    raw := raw[DOWN := raw[DOWN] + BaseScoreForCell(ApplyMoveToCell(DOWN, state.self.head), state)];
    nextMove := ApplyMoveToCell(LEFT, state.self.head);
    raw := raw[LEFT := raw[LEFT] + BaseScoreForCell(ApplyMoveToCell(LEFT, state.self.head), state)];
    nextMove := ApplyMoveToCell(RIGHT, state.self.head);
    raw := raw[RIGHT := raw[RIGHT] + BaseScoreForCell(ApplyMoveToCell(RIGHT, state.self.head), state)];
    scores := [Num(raw[0]), Num(raw[1]), Num(raw[2]), Num(raw[3])];
  }

  /** The base bias as a vector. */
  function BaseBias(state: State): (scores: seq<Number>)
    reads state.grid, state.grid.data
    requires state.grid.Valid()
  {
    var head := state.self.head;
    [Num(BaseScoreForCell(ApplyMoveToCell(UP, head), state)), Num(BaseScoreForCell(ApplyMoveToCell(DOWN, head), state)),
     Num(BaseScoreForCell(ApplyMoveToCell(LEFT, head), state)), Num(BaseScoreForCell(ApplyMoveToCell(RIGHT, head), state))]
  }

  /**
   * The base bias keeps every move off the board or onto a body or head at the floor, and
   * scores a move positively exactly when it lands on an open cell below a wall-near mark.
   */
  lemma BaseBiasRanksMoves(state: State)
    requires state.grid.Valid()
    ensures forall d :: 0 <= d < 4 ==>
      var next := ApplyMoveToCell(d, state.self.head);
      BaseBias(state)[d].Num? &&
      (state.grid.OutOfBounds(next) || state.grid.Value(next) > DANGER ==>
        BaseBias(state)[d].value == BASE_WEIGHT.FORGET_ABOUT_IT) &&
      (BaseBias(state)[d].value > 0.0 <==>
        !state.grid.OutOfBounds(next) && KILL_ZONE <= state.grid.Value(next) < WALL_NEAR)
  {
    forall d | 0 <= d < 4
      ensures BaseBias(state)[d] == Num(BaseScoreForCell(ApplyMoveToCell(d, state.self.head), state))
    {
    }
  }

  // ---------------------------------------------------------------------------------------
  // Adding the biases
  // ---------------------------------------------------------------------------------------

  /**
   * The behaviour vector (its first four slots) with the biases added in the fixed order:
   * base, tight, flood, dangerous snakes, killable snakes, walls, tails.
   */
  function Composed(behaviour: seq<Number>, base: seq<Number>, tight: seq<Number>, flood: seq<Number>,
                    h: Heuristics, walls: seq<Number>): (r: seq<Number>)
    ensures |r| == 4
  {
    var copy := [Slot(behaviour, 0), Slot(behaviour, 1), Slot(behaviour, 2), Slot(behaviour, 3)];
    Combined(h.tails, Combined(walls, Combined(h.killableSnakes, Combined(h.dangerousSnakes,
      Combined(flood, Combined(tight, Combined(base, copy)))))))
  }

  /**
   * The move addBiasesToBehaviour picks for a behaviour vector: the best slot of the normalised
   * sum of the behaviour and the biases of this board.
   */
  ghost predicate ChoosesMove(state: State, behaviour: seq<Number>, h: Heuristics, move: int)
    reads state.grid, state.grid.data
    requires state.grid.Valid()
  {
    exists tight, flood :: IsTightBias(state, tight) && IsFloodBias(state, flood) &&
      move == HighestScore(Normalized(Composed(behaviour, BaseBias(state), tight, flood, h, WallScores(Clearances(state)))))
  }

  method AddBiasesToBehaviour(behaviourScores: seq<Number>, state: State, h: Heuristics) returns (move: int)
    requires state.grid.Valid() && InBounds(MyLocation(state), state.grid.width, state.grid.height)
    ensures ChoosesMove(state, behaviourScores, h, move)
    ensures IsDirection(move)
  {
    var scores, tight, flood := SumBiases(behaviourScores, state, h);
    move := BestNormalizedMove(scores);
  }

  /** The behaviour vector with every bias of this board added, in the fixed order. */
  method SumBiases(behaviourScores: seq<Number>, state: State, h: Heuristics)
    returns (scores: seq<Number>, ghost tight: seq<Number>, ghost flood: seq<Number>)
    requires state.grid.Valid() && InBounds(MyLocation(state), state.grid.width, state.grid.height)
    ensures IsTightBias(state, tight) && IsFloodBias(state, flood)
    ensures scores == Composed(behaviourScores, BaseBias(state), tight, flood, h, WallScores(Clearances(state)))
  {
    var baseBiasScores, tightMoveBiasScores, floodBiasScores, fartherFromWallsBiasScores := BoardBiases(state);
    scores := CombineAll(behaviourScores, baseBiasScores, tightMoveBiasScores, floodBiasScores, h, fartherFromWallsBiasScores);
    tight, flood := tightMoveBiasScores, floodBiasScores;
  }

  /** The four bias vectors computed from the board itself. */
  method BoardBiases(state: State) returns (base: seq<Number>, tight: seq<Number>, flood: seq<Number>, walls: seq<Number>)
    requires state.grid.Valid() && InBounds(MyLocation(state), state.grid.width, state.grid.height)
    ensures base == BaseBias(state) && IsTightBias(state, tight) && IsFloodBias(state, flood)
    ensures walls == WallScores(Clearances(state))
  {
    base := BaseMoveBias(state);
    assert base == BaseBias(state);
    tight := TightMoveBias(state);
    flood := FloodBias(state);
    walls := FartherFromWallsBias(state);
  }

  /** Adds the bias vectors to the behaviour vector one after another. */
  method CombineAll(behaviourScores: seq<Number>, base: seq<Number>, tight: seq<Number>, flood: seq<Number>,
                    h: Heuristics, walls: seq<Number>) returns (scores: seq<Number>)
    ensures scores == Composed(behaviourScores, base, tight, flood, h, walls)
  {
    scores := [Slot(behaviourScores, 0), Slot(behaviourScores, 1), Slot(behaviourScores, 2), Slot(behaviourScores, 3)];
    scores := CombineScores(base, scores);
    scores := CombineScores(tight, scores);
    scores := CombineScores(flood, scores);
    scores := CombineScores(h.dangerousSnakes, scores);
    scores := CombineScores(h.killableSnakes, scores);
    scores := CombineScores(walls, scores);
    scores := CombineScores(h.tails, scores);
  }

  /** Normalises a copy of the summed vector in place and picks its best slot. */
  method BestNormalizedMove(scores: seq<Number>) returns (move: int)
    requires |scores| == 4
    ensures move == HighestScore(Normalized(scores)) && IsDirection(move)
  {
    var buffer := new Number[4];
    buffer[0], buffer[1], buffer[2], buffer[3] := scores[0], scores[1], scores[2], scores[3];
    assert buffer[..] == scores;
    var normalized := NormalizeScores(buffer);
    move := HighestScoreMove(normalized[..]);
  }

  /** Only the first four slots of a behaviour vector matter; a missing slot counts as NaN and so as 0. */
  lemma ChoiceReadsFourSlots(state: State, behaviour: seq<Number>, h: Heuristics, move: int)
    requires state.grid.Valid() && |behaviour| >= 4
    ensures ChoosesMove(state, behaviour, h, move) <==> ChoosesMove(state, behaviour[..4], h, move)
  {
    forall base, tight, flood, walls
      ensures Composed(behaviour, base, tight, flood, h, walls) == Composed(behaviour[..4], base, tight, flood, h, walls)
    {
      assert Slot(behaviour, 0) == Slot(behaviour[..4], 0) && Slot(behaviour, 1) == Slot(behaviour[..4], 1);
      assert Slot(behaviour, 2) == Slot(behaviour[..4], 2) && Slot(behaviour, 3) == Slot(behaviour[..4], 3);
    }
  }

  // ---------------------------------------------------------------------------------------
  // Behaviours
  // ---------------------------------------------------------------------------------------

  /** Eating: the request's food list in a hunger emergency, otherwise the grid's food cells. */
  ghost predicate EatingScores(state: State, h: Heuristics, scores: seq<Number>)
    reads state.grid, state.grid.data
    requires state.grid.Valid()
  {
    (HungerEmergency(state) ==> IsTargetScores(state, MyLocation(state), state.board.food, h.foodScoring, scores)) &&
    (!HungerEmergency(state) ==> IsGridEatingScores(state, h.foodScoring, scores))
  }

  ghost predicate Eats(state: State, h: Heuristics, move: int)
    reads state.grid, state.grid.data
    requires state.grid.Valid()
  {
    exists behaviour :: EatingScores(state, h, behaviour) && ChoosesMove(state, behaviour, h, move)
  }

  method Eat(state: State, h: Heuristics) returns (move: int)
    requires state.grid.Valid() && InBounds(MyLocation(state), state.grid.width, state.grid.height)
    requires Astar.SearchableSize(state.grid.width, state.grid.height)
    ensures Eats(state, h, move) && IsDirection(move)
  {
    var scores := ZEROS;
    var emergency := IsHungerEmergency(state);
    if emergency {
      scores := EatingScoresFromState(h.foodScoring, state);
    } else {
      scores := EatingScoresFromGrid(h.foodScoring, state);
    }
    move := AddBiasesToBehaviour(scores, state, h);
  }

  /** Hunting: the kill zones, or the future-2 cells when the kill zones offer no move. */
  ghost predicate HuntingScores(state: State, h: Heuristics, scores: seq<Number>)
    reads state.grid, state.grid.data
    requires state.grid.Valid()
  {
    exists kill :: TypeScores(state, KILL_ZONE, h.killZoneScoring, kill) &&
      (HasMove(kill) ==> scores == kill) &&
      (!HasMove(kill) ==> TypeScores(state, FUTURE_2, h.future2Scoring, scores))
  }

  ghost predicate Hunts(state: State, h: Heuristics, move: int)
    reads state.grid, state.grid.data
    requires state.grid.Valid()
  {
    exists behaviour :: HuntingScores(state, h, behaviour) && ChoosesMove(state, behaviour, h, move)
  }

  method Hunt(state: State, h: Heuristics) returns (move: int)
    requires state.grid.Valid() && InBounds(MyLocation(state), state.grid.width, state.grid.height)
    requires Astar.SearchableSize(state.grid.width, state.grid.height)
    ensures Hunts(state, h, move) && IsDirection(move)
  {
    var scores := HuntingBehaviour(state, h);
    move := AddBiasesToBehaviour(scores, state, h);
  }

  /** The hunting behaviour vector: the kill zones, falling back to the future-2 cells. */
  method HuntingBehaviour(state: State, h: Heuristics) returns (scores: seq<Number>)
    requires state.grid.Valid() && InBounds(MyLocation(state), state.grid.width, state.grid.height)
    requires Astar.SearchableSize(state.grid.width, state.grid.height)
    ensures HuntingScores(state, h, scores)
  {
    scores := HuntingScoresForAccessibleKillzones(state, h.killZoneScoring);
    ghost var kill := scores;
    var found := MoveInScores(scores);
    if !found {
      scores := HuntingScoresForAccessibleFuture2(state, h.future2Scoring);
    }
  }

  /** With no kill zone on the board, hunting aims at the future-2 cells. */
  lemma HuntWithoutKillZones(state: State, h: Heuristics, scores: seq<Number>)
    requires state.grid.Valid() && HuntingScores(state, h, scores)
    requires forall c :: InBounds(c, state.grid.width, state.grid.height) ==> state.grid.Value(c) != KILL_ZONE
    ensures TypeScores(state, FUTURE_2, h.future2Scoring, scores)
  {
    var kill :| TypeScores(state, KILL_ZONE, h.killZoneScoring, kill) &&
      (HasMove(kill) ==> scores == kill) &&
      (!HasMove(kill) ==> TypeScores(state, FUTURE_2, h.future2Scoring, scores));
    NoTargetsNoMove(state, KILL_ZONE, h.killZoneScoring, kill);
  }

  /** Late hunting: the kill zones when a smaller snake exists, otherwise the future-2 cells. */
  ghost predicate LateHunts(state: State, h: Heuristics, move: int)
    reads state.grid, state.grid.data
    requires state.grid.Valid()
  {
    exists behaviour ::
      (HasSmallerRival(state) ==> TypeScores(state, KILL_ZONE, h.killZoneScoring, behaviour)) &&
      (!HasSmallerRival(state) ==> TypeScores(state, FUTURE_2, h.future2Scoring, behaviour)) &&
      ChoosesMove(state, behaviour, h, move)
  }

  method LateHunt(state: State, h: Heuristics) returns (move: int)
    requires state.grid.Valid() && InBounds(MyLocation(state), state.grid.width, state.grid.height)
    requires Astar.SearchableSize(state.grid.width, state.grid.height)
    ensures LateHunts(state, h, move) && IsDirection(move)
  {
    var scores := ZEROS;
    var smaller := ExistsSnakeSmallerThanMe(state);
    if smaller {
      scores := HuntingScoresForAccessibleKillzones(state, h.killZoneScoring);
    } else {
      scores := HuntingScoresForAccessibleFuture2(state, h.future2Scoring);
    }
    move := AddBiasesToBehaviour(scores, state, h);
  }
}
