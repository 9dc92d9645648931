/** Ball motion: integration, wall reflection, the floor test, the paddle
    bounce's speed ramp, resetting onto the paddle and launching
    (components/GameCanvas.tsx, resetBall, launchBall and the ball part of
    update). */
module Physics {
  import opened Constants
  import opened Entities

  /** Speed gained per paddle hit, and the cap on the speed after a hit. */
  const SPEED_STEP: real := 0.2
  const MAX_SPEED: real := 12.0
  /** Vertical velocity given by a launch, and the bound on its horizontal
      component. */
  const LAUNCH_DY: real := -6.0
  const LAUNCH_SPREAD: real := 2.0
  /** Height at which a reset ball rests, just above the paddle. */
  const REST_Y: real := CANVAS_HEIGHT - PADDLE_HEIGHT - BALL_RADIUS - 2.0
  /** Top of the band in which the paddle catches the ball, and its bottom. */
  const PADDLE_TOP: real := CANVAS_HEIGHT - PADDLE_HEIGHT - 10.0
  const PADDLE_BOTTOM: real := CANVAS_HEIGHT - 10.0

  /** The floating-point functions of the paddle bounce, which the model
      takes as given: `magnitude(dx, dy)`, the square root of
      dx * dx + dy * dy, and `sinCos(p)`, the sine and cosine of the angle
      p * pi / 3 for a normalised hit point p in [-1, 1]. */
  datatype Trig = Trig(magnitude: (real, real) -> real, sinCos: real -> (real, real))

  /** The ball at the paddle's centre, at rest and inactive. */
  function ResetBall(p: Paddle): (b: Ball)
    ensures !b.active && b.dx == 0.0 && b.dy == 0.0
    ensures b.x == p.x + PADDLE_WIDTH / 2.0 && b.y == REST_Y
  {
    Ball(p.x + PADDLE_WIDTH / 2.0, REST_Y, 0.0, 0.0, false)
  }

  /** A resting ball rides at the centre of the paddle. */
  predicate Pinned(b: Ball, p: Paddle) {
    !b.active ==> b.x == p.x + PADDLE_WIDTH / 2.0
  }

  /** Launching: a resting ball during play becomes active, moving up at 6
      with horizontal velocity 2 * (2 * rand - 1) for a draw rand in [0, 1);
      otherwise the ball is untouched. */
  function Launch(b: Ball, playing: bool, rand: real): (r: Ball)
    requires 0.0 <= rand < 1.0
    ensures !b.active && playing ==>
              && r.active && r.dy == LAUNCH_DY
              && -LAUNCH_SPREAD <= r.dx < LAUNCH_SPREAD
              && r.x == b.x && r.y == b.y
    ensures b.active || !playing ==> r == b
  {
    if !b.active && playing then
      b.(active := true, dy := LAUNCH_DY, dx := LAUNCH_SPREAD * (rand * 2.0 - 1.0))
    else b
  }

  /** One tick of motion. */
  function Advance(b: Ball): Ball {
    b.(x := b.x + b.dx, y := b.y + b.dy)
  }

  /** Tests on the already-advanced ball, looking one more step ahead. */
  predicate PastSideWall(m: Ball) {
    m.x + m.dx > CANVAS_WIDTH - BALL_RADIUS || m.x + m.dx < BALL_RADIUS
  }

  predicate PastCeiling(m: Ball) {
    m.y + m.dy < BALL_RADIUS
  }

  /** The ball is about to go through the floor (and not the ceiling). */
  predicate PastFloor(m: Ball) {
    !PastCeiling(m) && m.y + m.dy > CANVAS_HEIGHT - BALL_RADIUS
  }

  /** Wall reflection: position is kept, dx flips exactly when the ball is
      about to leave through a side, dy exactly when it is about to leave
      through the top, and the speed is unchanged. */
  function ReflectWalls(m: Ball): (r: Ball)
    ensures r.x == m.x && r.y == m.y && r.active == m.active
    ensures r.dx * r.dx + r.dy * r.dy == m.dx * m.dx + m.dy * m.dy
    ensures r.dx == (if PastSideWall(m) then -m.dx else m.dx)
    ensures r.dy == (if PastCeiling(m) then -m.dy else m.dy)
  {
    var b := if PastSideWall(m) then m.(dx := -m.dx) else m;
    if PastCeiling(b) then b.(dy := -b.dy) else b
  }

  /** The ball is within the paddle's catching band and horizontal extent. */
  predicate OverPaddle(b: Ball, p: Paddle) {
    && b.y + BALL_RADIUS >= PADDLE_TOP
    && b.y - BALL_RADIUS <= PADDLE_BOTTOM
    && p.x <= b.x <= p.x + PADDLE_WIDTH
  }

  /** Where the ball meets the paddle, from -1 at the left edge through 0 at
      the centre to 1 at the right edge. */
  function CollidePoint(b: Ball, p: Paddle): (c: real)
    ensures OverPaddle(b, p) ==> -1.0 <= c <= 1.0
    ensures c == 0.0 <==> b.x == p.x + PADDLE_WIDTH / 2.0
    ensures b.x == p.x ==> c == -1.0
    ensures b.x == p.x + PADDLE_WIDTH ==> c == 1.0
  {
    (b.x - (p.x + PADDLE_WIDTH / 2.0)) / (PADDLE_WIDTH / 2.0)
  }

  /** The speed after a paddle hit: one step faster, but never above the
      cap. */
  function RampSpeed(speed: real): (s: real)
    ensures s <= MAX_SPEED
    ensures s <= speed + SPEED_STEP
    ensures s == speed + SPEED_STEP || s == MAX_SPEED
  {
    if speed + SPEED_STEP <= MAX_SPEED then speed + SPEED_STEP else MAX_SPEED
  }

  /** The speed after n consecutive paddle hits. */
  function RampedSpeed(speed: real, n: nat): real {
    if n == 0 then speed else RampSpeed(RampedSpeed(speed, n - 1))
  }

  /** From any speed up to the cap, n hits add n steps until the cap, which
      is then held however many more hits follow. */
  lemma {:induction false} RepeatedRamp(speed: real, n: nat)
    requires speed <= MAX_SPEED
    ensures RampedSpeed(speed, n) ==
              if speed + n as real * SPEED_STEP <= MAX_SPEED then speed + n as real * SPEED_STEP
              else MAX_SPEED
  {
    if n > 0 {
      RepeatedRamp(speed, n - 1);
    }
  }

  /** The paddle bounce: over the paddle, the velocity is re-aimed by the hit
      point at the ramped speed; elsewhere the ball is left alone. */
  function PaddleBounce(b: Ball, p: Paddle, trig: Trig): (r: Ball)
    ensures r.x == b.x && r.y == b.y && r.active == b.active
    ensures !OverPaddle(b, p) ==> r == b
  {
    if OverPaddle(b, p) then
      var speed := RampSpeed(trig.magnitude(b.dx, b.dy));
      var angle := trig.sinCos(CollidePoint(b, p));
      b.(dx := speed * angle.0, dy := -speed * angle.1)
    else b
  }

  /** A hit at the paddle's dead centre sends the ball straight up, provided
      the magnitude is non-negative and the angle-0 sine and cosine are
      0 and 1. */
  lemma CentreHitGoesStraightUp(b: Ball, p: Paddle, trig: Trig)
    requires OverPaddle(b, p) && b.x == p.x + PADDLE_WIDTH / 2.0
    requires trig.magnitude(b.dx, b.dy) >= 0.0
    requires trig.sinCos(0.0) == (0.0, 1.0)
    ensures PaddleBounce(b, p, trig).dx == 0.0
    ensures PaddleBounce(b, p, trig).dy < 0.0
  {
    var speed := RampSpeed(trig.magnitude(b.dx, b.dy));
    var angle := trig.sinCos(CollidePoint(b, p));
    assert PaddleBounce(b, p, trig).dy == -speed * angle.1;
    assert CollidePoint(b, p) == 0.0;
  }
}
