/**
 * Tunable weights of the bot (src/app/weights.ts). Scores are exact reals here;
 * the source computes them in double precision.
 */
module Weights {

  const SURVIVAL_MIN_HEALTH := 33
  const LONG_GAME_HEALTH_RESILIENCY := 500
  const SAME_NUMBER_OF_SNAKES := 4

  datatype BaseWeight = BaseWeight(
    FORGET_ABOUT_IT: real, SPACE: real, FOOD: real, TAIL: real, KILL_ZONE: real,
    WALL_NEAR: real, WARNING: real, FUTURE_2: real, SMALL_DANGER: real,
    ENEMY_HEAD: real, DANGER: real)

  const BASE_WEIGHT := BaseWeight(
    FORGET_ABOUT_IT := -200.0, SPACE := 0.9, FOOD := 0.4, TAIL := 12.3, KILL_ZONE := 4.5,
    WALL_NEAR := -0.4, WARNING := -2.6, FUTURE_2 := -0.7, SMALL_DANGER := -11.0,
    ENEMY_HEAD := -5.9, DANGER := -12.0)

  datatype BaseMultiplier = BaseMultiplier(KILL_ZONE: real, WALL_NEAR: real)

  const BASE_MULTIPLIER := BaseMultiplier(KILL_ZONE := 1.3, WALL_NEAR := 6.5)

  datatype Multiplier = Multiplier(
    HUNGER_URGENCY: real, TAIL_DISTANCE: real, WALL_DISTANCE: real,
    WALL_NEAR_FILL: real, DANGER_FILL: real, TIGHT_MOVE: real)

  const MULTIPLIER := Multiplier(
    HUNGER_URGENCY := 0.4, TAIL_DISTANCE := 2.0, WALL_DISTANCE := 1.0,
    WALL_NEAR_FILL := -0.5, DANGER_FILL := 0.06, TIGHT_MOVE := 1.0)
}
