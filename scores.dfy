/**
 * Score vectors and their algebra (src/app/scores.ts): one score per direction (up, down,
 * left, right), combined slot by slot, centred on the score closest to zero, and reduced to
 * the best direction. Scores are exact reals here; the source computes them in double
 * precision, where a failed computation shows up as NaN.
 */
module Scores {
  import opened Keys
  import opened Types
  import opened Weights
  import opened SemanticGrid
  import opened TurnState

  /** A JavaScript number inside a score vector: NaN, or a real value. */
  datatype Number = NaN | Num(value: real)

  /** Slot m of a score vector; reading past the end yields undefined, which behaves as NaN. */
  function Slot(s: seq<Number>, m: int): Number
  {
    if 0 <= m < |s| then s[m] else NaN
  }

  function RealAbs(x: real): (r: real)
    ensures r >= 0.0 && (r == x || r == -x)
  {
    if x < 0.0 then -x else x
  }

  /** A vector of four zeros, the starting point of every scorer. */
  const ZEROS: seq<Number> := [Num(0.0), Num(0.0), Num(0.0), Num(0.0)]

  // ---------------------------------------------------------------------------------------
  // baseScoreForCell
  // ---------------------------------------------------------------------------------------

  /**
   * The flat weight of moving onto a cell. Off-board cells and cells holding a body or a
   * head get the "forget about it" weight of -200; of the nine categories up to danger, the
   * five below near-wall are worth a positive score and the four from near-wall to danger a
   * negative one above -200.
   */
  function BaseScoreForCell(cell: Cell, state: State): (r: real)
    reads state.grid, state.grid.data
    requires state.grid.Valid()
    ensures r == BASE_WEIGHT.FORGET_ABOUT_IT <==>
      state.grid.OutOfBounds(cell) || !(KILL_ZONE <= state.grid.Value(cell) <= DANGER)
    ensures r > 0.0 <==> !state.grid.OutOfBounds(cell) && KILL_ZONE <= state.grid.Value(cell) < WALL_NEAR
    ensures BASE_WEIGHT.FORGET_ABOUT_IT <= r <= BASE_WEIGHT.KILL_ZONE * BASE_MULTIPLIER.KILL_ZONE
  {
    if state.grid.OutOfBounds(cell) then BASE_WEIGHT.FORGET_ABOUT_IT
    else
      var v := state.grid.Value(cell);
      if v == SPACE || v == TAIL || v == FUTURE_2 then BASE_WEIGHT.SPACE
      else if v == FOOD then BASE_WEIGHT.FOOD
      else if v == KILL_ZONE then BASE_WEIGHT.KILL_ZONE * BASE_MULTIPLIER.KILL_ZONE
      else if v == WALL_NEAR then BASE_WEIGHT.WALL_NEAR * BASE_MULTIPLIER.WALL_NEAR
      else if v == WARNING then BASE_WEIGHT.WARNING
      else if v == SMALL_DANGER then BASE_WEIGHT.SMALL_DANGER
      else if v == DANGER then BASE_WEIGHT.DANGER
      else BASE_WEIGHT.FORGET_ABOUT_IT
  }

  /** The weight of each on-board category, as the source's table gives it. */
  lemma BaseScoreTable(cell: Cell, state: State)
    requires state.grid.Valid() && !state.grid.OutOfBounds(cell)
    ensures var v := state.grid.Value(cell);
      (v == SPACE || v == TAIL || v == FUTURE_2 ==> BaseScoreForCell(cell, state) == 0.9) &&
      (v == FOOD ==> BaseScoreForCell(cell, state) == 0.4) &&
      (v == KILL_ZONE ==> BaseScoreForCell(cell, state) == 4.5 * 1.3) &&
      (v == WALL_NEAR ==> BaseScoreForCell(cell, state) == -0.4 * 6.5) &&
      (v == WARNING ==> BaseScoreForCell(cell, state) == -2.6) &&
      (v == SMALL_DANGER ==> BaseScoreForCell(cell, state) == -11.0) &&
      (v == DANGER ==> BaseScoreForCell(cell, state) == -12.0) &&
      (v >= SNAKE_BODY ==> BaseScoreForCell(cell, state) == -200.0)
  {
  }

  // ---------------------------------------------------------------------------------------
  // combineScores
  // ---------------------------------------------------------------------------------------

  /** One slot of a combination: the sum when both operands are numbers, and 0 otherwise. */
  function CombineSlot(a: Number, b: Number): (r: Number)
    ensures r.Num?
    ensures a.Num? && b.Num? ==> r.value == a.value + b.value
    ensures a.NaN? || b.NaN? ==> r == Num(0.0)
  {
    if a.Num? && b.Num? then Num(a.value + b.value) else Num(0.0)
  }

  /** The vector combineScores returns for two inputs. */
  function Combined(scoresA: seq<Number>, scoresB: seq<Number>): seq<Number>
  {
    seq(4, m requires 0 <= m < 4 => CombineSlot(Slot(scoresA, m), Slot(scoresB, m)))
  }

  /** Adds two vectors slot by slot into a fresh vector; a NaN operand makes its slot 0. */
  method CombineScores(scoresA: seq<Number>, scoresB: seq<Number>) returns (scores: seq<Number>)
    ensures scores == Combined(scoresA, scoresB)
  {
    scores := ZEROS;
    for move := 0 to 4
      invariant |scores| == 4
      invariant forall m :: 0 <= m < move ==> scores[m] == CombineSlot(Slot(scoresA, m), Slot(scoresB, m))
      invariant forall m :: move <= m < 4 ==> scores[m] == Num(0.0)
    {
      if Slot(scoresA, move).Num? && Slot(scoresB, move).Num? {
        scores := scores[move := Num(Slot(scoresA, move).value + Slot(scoresB, move).value)];
      }
    }
  }

  /**
   * A combination has four slots and never holds NaN; each slot is the sum of the operands'
   * slots when both are numbers and 0 otherwise.
   */
  lemma CombinedSlots(scoresA: seq<Number>, scoresB: seq<Number>)
    ensures |Combined(scoresA, scoresB)| == 4
    ensures forall m :: 0 <= m < 4 ==> Combined(scoresA, scoresB)[m].Num?
    ensures forall m :: 0 <= m < 4 ==>
      Combined(scoresA, scoresB)[m] ==
        if Slot(scoresA, m).Num? && Slot(scoresB, m).Num?
        then Num(Slot(scoresA, m).value + Slot(scoresB, m).value) else Num(0.0)
  {
  }

  /** Combining is commutative. */
  lemma CombineCommutes(scoresA: seq<Number>, scoresB: seq<Number>)
    ensures Combined(scoresA, scoresB) == Combined(scoresB, scoresA)
  {
  }

  /**
   * Combining is not associative: a NaN slot wipes out whatever was summed before it, so the
   * order in which the biases are added matters.
   */
  lemma CombineOrderMatters()
    ensures
      var one := [Num(1.0), Num(1.0), Num(1.0), Num(1.0)];
      var broken := [NaN, Num(1.0), Num(1.0), Num(1.0)];
      Combined(one, Combined(one, broken))[0] == Num(1.0) &&
      Combined(Combined(one, one), broken)[0] == Num(0.0)
  {
  }

  // ---------------------------------------------------------------------------------------
  // normalizeScores
  // ---------------------------------------------------------------------------------------

  /**
   * The index of the first slot, among the first k, whose magnitude is smallest and below
   * 9999; NaN slots are skipped.
   */
  function ClosestToZero(s: seq<Number>, k: nat): (r: Option<nat>)
    requires k <= |s|
    ensures r.Some? ==> r.value < k && s[r.value].Num? && RealAbs(s[r.value].value) < 9999.0
    ensures r.Some? ==> forall j :: 0 <= j < k && s[j].Num? ==> RealAbs(s[r.value].value) <= RealAbs(s[j].value)
    ensures r.Some? ==> forall j :: 0 <= j < r.value && s[j].Num? ==> RealAbs(s[r.value].value) < RealAbs(s[j].value)
    ensures r.None? <==> forall j :: 0 <= j < k && s[j].Num? ==> RealAbs(s[j].value) >= 9999.0
  {
    if k == 0 then None
    else
      var before := ClosestToZero(s, k - 1);
      var best := if before.Some? then RealAbs(s[before.value].value) else 9999.0;
      if s[k - 1].Num? && RealAbs(s[k - 1].value) < best then Some(k - 1) else before
  }

  /** Every number shifted down by m; NaN stays NaN. */
  function Shift(s: seq<Number>, m: real): (r: seq<Number>)
    ensures |r| == |s|
    ensures forall i :: 0 <= i < |s| ==> r[i] == if s[i].Num? then Num(s[i].value - m) else NaN
  {
    seq(|s|, i requires 0 <= i < |s| => if s[i].Num? then Num(s[i].value - m) else NaN)
  }

  /**
   * What normalizeScores leaves in a four-slot vector: the slot closest to zero is subtracted
   * from every slot, unless that slot is already zero or no slot is within 9999 of zero.
   */
  function Normalized(s: seq<Number>): seq<Number>
    requires |s| == 4
  {
    match ClosestToZero(s, 4)
    case None => s
    case Some(i) => if RealAbs(s[i].value) > 0.0 then Shift(s, s[i].value) else s
  }

  /** Subtracts the score closest to zero from every slot, in place, and returns the same array. */
  method NormalizeScores(scores: array<Number>) returns (r: array<Number>)
    requires scores.Length == 4
    modifies scores
    ensures r == scores
    ensures scores[..] == Normalized(old(scores[..]))
  {
    var minAbsScore := 9999.0;
    var minScore := 0.0;
    ghost var closest: Option<nat> := None;
    for move := 0 to 4
      invariant closest == ClosestToZero(scores[..], move)
      invariant closest.None? ==> minAbsScore == 9999.0 && minScore == 0.0
      invariant closest.Some? ==> minScore == scores[closest.value].value && minAbsScore == RealAbs(minScore)
    {
      if scores[move].Num? && RealAbs(scores[move].value) < minAbsScore {
        minAbsScore := RealAbs(scores[move].value);
        minScore := scores[move].value;
        closest := Some(move);
      }
    }
    if minAbsScore < 9999.0 && minAbsScore > 0.0 {
      ghost var before := scores[..];
      for move := 0 to 4
        invariant forall m :: 0 <= m < move ==> scores[m] == Shift(before, minScore)[m]
        invariant forall m :: move <= m < 4 ==> scores[m] == before[m]
      {
        scores[move] := if scores[move].Num? then Num(scores[move].value - minScore) else NaN;
      }
      assert scores[..] == Shift(before, minScore);
    }
    r := scores;
  }

  /**
   * Normalising keeps the slot count, keeps NaN slots NaN, and moves every number by the same
   * amount, so every difference between two slots, and hence their order, is unchanged.
   */
  lemma NormalizedKeepsDifferences(s: seq<Number>)
    requires |s| == 4
    ensures |Normalized(s)| == 4
    ensures forall i :: 0 <= i < 4 ==> (Normalized(s)[i].Num? <==> s[i].Num?)
    ensures forall i, j :: 0 <= i < 4 && 0 <= j < 4 && s[i].Num? && s[j].Num? ==>
      Normalized(s)[i].value - Normalized(s)[j].value == s[i].value - s[j].value
    ensures forall i, j :: 0 <= i < 4 && 0 <= j < 4 && s[i].Num? && s[j].Num? ==>
      (Normalized(s)[i].value < Normalized(s)[j].value <==> s[i].value < s[j].value)
  {
  }

  /**
   * Some slot is zero after normalising whenever some number lies within 9999 of zero: the
   * first slot of least magnitude.
   */
  lemma NormalizedHasZero(s: seq<Number>)
    requires |s| == 4
    requires exists j :: 0 <= j < 4 && s[j].Num? && RealAbs(s[j].value) < 9999.0
    ensures exists i :: 0 <= i < 4 && Normalized(s)[i] == Num(0.0)
  {
    var c := ClosestToZero(s, 4);
    assert c.Some?;
    var i := c.value;
    if RealAbs(s[i].value) > 0.0 {
      assert Normalized(s)[i] == Num(s[i].value - s[i].value);
    } else {
      assert Normalized(s) == s && s[i] == Num(0.0);
    }
  }

  /** A vector that already holds a zero is left exactly as it was. */
  lemma NormalizedFixesZero(s: seq<Number>)
    requires |s| == 4
    requires exists j :: 0 <= j < 4 && s[j] == Num(0.0)
    ensures Normalized(s) == s
  {
    var j :| 0 <= j < 4 && s[j] == Num(0.0);
    var c := ClosestToZero(s, 4);
    assert c.Some? && RealAbs(s[c.value].value) <= RealAbs(s[j].value);
  }

  // ---------------------------------------------------------------------------------------
  // highestScoreMove
  // ---------------------------------------------------------------------------------------

  /**
   * The best move among the first k slots and its score, as the scan finds them: a slot wins
   * only with a number strictly above the best so far, starting from move 0 at -9999.
   */
  function BestOf(s: seq<Number>, k: nat): (r: (int, real))
    requires k <= 4
    ensures 0 <= r.0 < 4 && r.1 >= -9999.0
    ensures forall j :: 0 <= j < k && Slot(s, j).Num? ==> Slot(s, j).value <= r.1
    ensures r.1 > -9999.0 ==>
      r.0 < k && Slot(s, r.0) == Num(r.1) &&
      forall j :: 0 <= j < r.0 && Slot(s, j).Num? ==> Slot(s, j).value < r.1
    ensures r.1 == -9999.0 ==> r.0 == 0
  {
    if k == 0 then (0, -9999.0)
    else
      var before := BestOf(s, k - 1);
      var x := Slot(s, k - 1);
      if x.Num? && x.value > before.1 then (k - 1, x.value) else before
  }

  /** The move highestScoreMove picks. */
  function HighestScore(s: seq<Number>): int
  {
    BestOf(s, 4).0
  }

  /**
   * The chosen move is a direction. When some slot is a number above -9999 it is the first
   * slot holding the greatest number; otherwise it is 0 (up).
   */
  lemma HighestScoreIsFirstMaximum(s: seq<Number>)
    ensures IsDirection(HighestScore(s))
    ensures (exists m :: 0 <= m < 4 && Slot(s, m).Num? && Slot(s, m).value > -9999.0) ==>
      var best := HighestScore(s);
      Slot(s, best).Num? && Slot(s, best).value > -9999.0 &&
      (forall m :: 0 <= m < 4 && Slot(s, m).Num? ==> Slot(s, m).value <= Slot(s, best).value) &&
      (forall m :: 0 <= m < best && Slot(s, m).Num? ==> Slot(s, m).value < Slot(s, best).value)
    ensures (forall m :: 0 <= m < 4 && Slot(s, m).Num? ==> Slot(s, m).value <= -9999.0) ==> HighestScore(s) == 0
  {
    var r := BestOf(s, 4);
    if exists m :: 0 <= m < 4 && Slot(s, m).Num? && Slot(s, m).value > -9999.0 {
      var m :| 0 <= m < 4 && Slot(s, m).Num? && Slot(s, m).value > -9999.0;
      assert Slot(s, m).value <= r.1;
    }
  }

  /** Scans the four slots for the first strictly greatest number above -9999. */
  method HighestScoreMove(scores: seq<Number>) returns (bestMove: int)
    ensures bestMove == HighestScore(scores)
    ensures IsDirection(bestMove)
  {
    bestMove := 0;
    var bestScore := -9999.0;
    for move := 0 to 4
      invariant (bestMove, bestScore) == BestOf(scores, move)
    {
      if Slot(scores, move).Num? && Slot(scores, move).value > bestScore {
        bestScore := Slot(scores, move).value;
        bestMove := move;
      }
    }
  }

  // ---------------------------------------------------------------------------------------
  // moveInScores
  // ---------------------------------------------------------------------------------------

  /** Some entry of the vector is not exactly zero (NaN counts as not zero). */
  predicate HasMove(scores: seq<Number>)
  {
    exists i :: 0 <= i < |scores| && scores[i] != Num(0.0)
  }

  /** Whether any entry of the vector is nonzero. */
  method MoveInScores(scores: seq<Number>) returns (r: bool)
    ensures r <==> exists i :: 0 <= i < |scores| && scores[i] != Num(0.0)
    ensures r == HasMove(scores)
  {
    for i := 0 to |scores|
      invariant forall j :: 0 <= j < i ==> scores[j] == Num(0.0)
    {
      if scores[i] != Num(0.0) {
        return true;
      }
    }
    return false;
  }

  /**
   * Only the all-zero vectors (of any length) have no move: a vector whose every slot is
   * negative still counts as one.
   */
  lemma NoMoveIsAllZero(scores: seq<Number>)
    ensures !HasMove(scores) <==> scores == seq(|scores|, _ => Num(0.0))
    ensures !HasMove(ZEROS)
    ensures HasMove([Num(-50.0), Num(-50.0), Num(-50.0), Num(-50.0)])
  {
    if !HasMove(scores) {
      assert forall i :: 0 <= i < |scores| ==> scores[i] == seq(|scores|, _ => Num(0.0))[i];
    }
    assert ZEROS[0] == Num(0.0) && ZEROS[1] == Num(0.0) && ZEROS[2] == Num(0.0) && ZEROS[3] == Num(0.0);
    var neg := [Num(-50.0), Num(-50.0), Num(-50.0), Num(-50.0)];
    assert neg[0] != Num(0.0);
  }
}
