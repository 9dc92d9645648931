/** The game's entity records (types.ts), as immutable values. */
module Entities {

  /** The ball; `active` is false while it rests on the paddle. */
  datatype Ball = Ball(x: real, y: real, dx: real, dy: real, active: bool)

  /** The paddle: only its left edge moves. */
  datatype Paddle = Paddle(x: real)

  /** A rock. `kind` is the grid code it came from; `status` is its remaining
      health, and a rock with status <= 0 is destroyed. */
  datatype Rock = Rock(x: real, y: real, status: int, kind: int, width: real, height: real)

  /** A short-lived spark; removed once `life` drops to zero. */
  datatype Particle = Particle(x: real, y: real, dx: real, dy: real, life: real, color: string, size: real)
}
