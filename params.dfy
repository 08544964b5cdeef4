/** Game-API parameters the decision engine depends on (src/app/params.ts). */
module Params {
  import opened Keys

  const API_VERSION := 1

  /** Direction in which y grows: API version 1 puts y = 0 on the bottom row. */
  const Y_DIRECTION := if API_VERSION >= 1 then UP else DOWN
}
