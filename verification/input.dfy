/** Pointer and touch input (components/GameCanvas.tsx, the mouse and touch
    handlers and launchBall). The pointer position arrives already converted
    to the canvas's logical x coordinate. The handlers act in every phase;
    only launching checks for play. */
module Input {
  import opened Constants
  import opened Entities
  import opened Physics
  import opened Simulation

  /** The paddle's left edge for a pointer at x: centred on the pointer,
      then clamped to the canvas. */
  function ClampPaddle(pointerX: real): (x: real)
    ensures 0.0 <= x <= CANVAS_WIDTH - PADDLE_WIDTH
    ensures 0.0 <= pointerX - PADDLE_WIDTH / 2.0 <= CANVAS_WIDTH - PADDLE_WIDTH ==>
              x == pointerX - PADDLE_WIDTH / 2.0
    ensures pointerX - PADDLE_WIDTH / 2.0 < 0.0 ==> x == 0.0
    ensures pointerX - PADDLE_WIDTH / 2.0 > CANVAS_WIDTH - PADDLE_WIDTH ==>
              x == CANVAS_WIDTH - PADDLE_WIDTH
  {
    var x := pointerX - PADDLE_WIDTH / 2.0;
    var x := if x < 0.0 then 0.0 else x;
    if x + PADDLE_WIDTH > CANVAS_WIDTH then CANVAS_WIDTH - PADDLE_WIDTH else x
  }

  /** A pointer move: the paddle follows the pointer, and a resting ball
      follows the paddle's centre; nothing else changes. */
  function MovePaddle(g: Game, pointerX: real): (r: Game)
    ensures r.paddle.x == ClampPaddle(pointerX)
    ensures !g.ball.active ==> r.ball == g.ball.(x := r.paddle.x + PADDLE_WIDTH / 2.0)
    ensures g.ball.active ==> r.ball == g.ball
    ensures r == g.(paddle := r.paddle, ball := r.ball)
  {
    var x := ClampPaddle(pointerX);
    g.(paddle := Paddle(x),
       ball := if g.ball.active then g.ball else g.ball.(x := x + PADDLE_WIDTH / 2.0))
  }

  /** A touch move acts on the first touch point, and is ignored when there
      is none. */
  function TouchMove(g: Game, touches: seq<real>): (r: Game)
    ensures |touches| == 0 ==> r == g
    ensures |touches| > 0 ==> r == MovePaddle(g, touches[0])
    ensures |touches| > 0 ==> 0.0 <= r.paddle.x <= CANVAS_WIDTH - PADDLE_WIDTH
  {
    if |touches| == 0 then g else MovePaddle(g, touches[0])
  }

  /** A press or tap launches a resting ball during play; it changes only
      the ball. */
  function Press(g: Game, rand: real): (r: Game)
    requires 0.0 <= rand < 1.0
    ensures r == g.(ball := r.ball)
    ensures g.phase == Playing && !g.ball.active ==>
              && r.ball.active && r.ball.dy == LAUNCH_DY
              && -LAUNCH_SPREAD <= r.ball.dx < LAUNCH_SPREAD
    ensures g.phase != Playing || g.ball.active ==> r == g
  {
    g.(ball := Launch(g.ball, g.phase == Playing, rand))
  }

  lemma MovePaddleKeepsConsistent(g: Game, pointerX: real)
    requires Consistent(g)
    ensures Consistent(MovePaddle(g, pointerX))
  {
  }

  lemma TouchMoveKeepsConsistent(g: Game, touches: seq<real>)
    requires Consistent(g)
    ensures Consistent(TouchMove(g, touches))
  {
  }

  lemma PressKeepsConsistent(g: Game, rand: real)
    requires 0.0 <= rand < 1.0
    requires Consistent(g)
    ensures Consistent(Press(g, rand))
  {
  }
}
