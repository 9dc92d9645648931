/** The per-tick step of the game (components/GameCanvas.tsx, update) and
    level loading (the rock initialisation effect), over one immutable game
    value. Score, lives and phase, which the game keeps in the enclosing
    shell and changes through setters, are fields here; a setter called twice
    in one tick keeps its last value. */
module Simulation {
  import opened Constants
  import opened Entities
  import opened Physics
  import opened Particles
  import opened Collision
  import Level

  /** Screen shake set when a life is lost. */
  const FLOOR_SHAKE: real := 10.0

  datatype Game = Game(
    phase: GameState,
    ball: Ball,
    paddle: Paddle,
    rocks: seq<Rock>,
    particles: seq<Particle>,
    shake: real,
    score: int,
    lives: int)

  /** The canvas as first mounted: paddle centred, ball resting at its
      centre, no rocks, no particles, no shake. */
  function Mounted(phase: GameState, score: int, lives: int): Game {
    Game(phase,
         Ball(CANVAS_WIDTH / 2.0, CANVAS_HEIGHT - 30.0, 0.0, 0.0, false),
         Paddle((CANVAS_WIDTH - PADDLE_WIDTH) / 2.0),
         [], [], 0.0, score, lives)
  }

  /** Lives left after the ball goes through the floor: one fewer, or zero
      when this was the last. */
  function LivesAfterFloor(lives: int): int {
    if lives > 1 then lives - 1 else 0
  }

  /** One tick. Nothing happens outside play. With the ball resting, only
      particles and shake advance. With the ball moving: advance it, reflect
      it off the walls, handle the floor, bounce it off the paddle, resolve
      the first rock it strikes, and test for victory. The rock scan uses the
      advanced position even when the ball has just been reset. */
  function Update(g: Game, trig: Trig, seeds: seq<Jitter>): (r: Game)
    requires ValidJitter(seeds)
    ensures r.phase == g.phase || (g.phase == Playing && r.phase in {GameOver, Victory})
    ensures r.paddle == g.paddle
    ensures |r.rocks| == |g.rocks|
    ensures r.score >= g.score
    ensures g.lives >= 0 ==> 0 <= r.lives <= g.lives
  {
    if g.phase != Playing then g
    else if !g.ball.active then
      g.(particles := Survivors(g.particles), shake := DecayShake(g.shake))
    else
      var moved := Advance(g.ball);
      var lost := PastFloor(moved);
      var respawn := lost && g.lives > 1;
      var bounced := PaddleBounce(ReflectWalls(moved), g.paddle, trig);
      var lives := if lost then LivesAfterFloor(g.lives) else g.lives;
      var phase :=
        if ClearsLevel(g.rocks, moved.x, moved.y) then Victory
        else if lost && g.lives <= 1 then GameOver
        else Playing;
      var shake := if respawn then FLOOR_SHAKE else g.shake;
      match FirstStruck(g.rocks, moved.x, moved.y)
      case Miss =>
        Game(phase,
             if respawn then ResetBall(g.paddle) else bounced,
             g.paddle,
             g.rocks,
             Survivors(g.particles),
             DecayShake(shake),
             g.score,
             lives)
      case Hit(i) =>
        var rock := g.rocks[i];
        Game(phase,
             if respawn then ResetBall(g.paddle) else bounced.(dy := -bounced.dy),
             g.paddle,
             g.rocks[i := HitRock(rock)],
             Survivors(g.particles + Burst(moved.x, moved.y, SparkColor(rock), seeds)),
             DecayShake(HitShake(rock)),
             g.score + HitScore(rock),
             lives)
  }

  /** Outside play a tick changes nothing; with the ball resting it changes
      only the particles and the shake. */
  lemma UpdateFrame(g: Game, trig: Trig, seeds: seq<Jitter>)
    requires ValidJitter(seeds)
    ensures g.phase != Playing ==> Update(g, trig, seeds) == g
    ensures g.phase == Playing && !g.ball.active ==>
              Update(g, trig, seeds) == g.(particles := Survivors(g.particles), shake := DecayShake(g.shake))
  {
  }

  /** Losing the ball: with lives to spare, one life goes, the ball is reset
      onto the paddle and the shake is set to 10 (unless a rock hit in the
      same tick sets its own); on the last life, lives drop to 0 and the game
      is over, unless the same tick's victory test overrides it. Without a
      floor crossing, lives are kept. */
  lemma FloorRule(g: Game, trig: Trig, seeds: seq<Jitter>)
    requires ValidJitter(seeds)
    requires g.phase == Playing && g.ball.active
    ensures var r := Update(g, trig, seeds);
            var m := Advance(g.ball);
            && (!PastFloor(m) ==> r.lives == g.lives && r.phase in {Playing, Victory})
            && (PastFloor(m) && g.lives > 1 ==>
                  && r.lives == g.lives - 1
                  && r.ball == ResetBall(g.paddle)
                  && r.phase in {Playing, Victory}
                  && (FirstStruck(g.rocks, m.x, m.y).Miss? ==> r.shake == DecayShake(FLOOR_SHAKE)))
            && (PastFloor(m) && g.lives <= 1 ==>
                  && r.lives == 0
                  && r.phase == (if ClearsLevel(g.rocks, m.x, m.y) then Victory else GameOver))
  {
  }

  /** Starting with 3 lives, three floor crossings in a row, with any other
      play in between and no victory along the way, leave 2, then 1, then 0
      lives, and the third ends the game. */
  lemma ThirdFloorCrossingEndsGame(g1: Game, g2: Game, g3: Game, trig: Trig, seeds: seq<Jitter>)
    requires ValidJitter(seeds)
    requires g1.lives == INITIAL_LIVES
    requires forall g :: g in [g1, g2, g3] ==>
               && g.phase == Playing && g.ball.active
               && PastFloor(Advance(g.ball))
               && !ClearsLevel(g.rocks, Advance(g.ball).x, Advance(g.ball).y)
    requires g2.lives == Update(g1, trig, seeds).lives
    requires g3.lives == Update(g2, trig, seeds).lives
    ensures Update(g1, trig, seeds).lives == 2 && Update(g1, trig, seeds).phase == Playing
    ensures Update(g2, trig, seeds).lives == 1 && Update(g2, trig, seeds).phase == Playing
    ensures Update(g3, trig, seeds).lives == 0 && Update(g3, trig, seeds).phase == GameOver
  {
    assert g1 in [g1, g2, g3] && g2 in [g1, g2, g3] && g3 in [g1, g2, g3];
    FloorRule(g1, trig, seeds);
    FloorRule(g2, trig, seeds);
    FloorRule(g3, trig, seeds);
  }

  /** The rock step of a moving-ball tick: when the scan misses, rocks and
      score are unchanged, no particles are spawned and, unless a life was
      lost, the shake just decays; when it hits rock i, that rock alone takes
      the hit, the score gains the hit's value, the shake is the hit's, the
      burst of eight particles at the ball point in the rock's spark colour
      joins the survivors, and (unless a spare life was lost and the ball
      reset) the ball's vertical velocity is reversed from what the walls and
      paddle left. On the last life the ball is not reset, so these ball
      clauses hold on the game-over tick too. */
  lemma RockRule(g: Game, trig: Trig, seeds: seq<Jitter>)
    requires ValidJitter(seeds)
    requires g.phase == Playing && g.ball.active
    ensures var r := Update(g, trig, seeds);
            var m := Advance(g.ball);
            var bounced := PaddleBounce(ReflectWalls(m), g.paddle, trig);
            match FirstStruck(g.rocks, m.x, m.y)
            case Miss =>
              && r.rocks == g.rocks && r.score == g.score
              && r.particles == Survivors(g.particles)
              && (!(PastFloor(m) && g.lives > 1) ==> r.shake == DecayShake(g.shake))
              && (!(PastFloor(m) && g.lives > 1) ==> r.ball == bounced)
            case Hit(i) =>
              && i < |g.rocks|
              && r.rocks[i] == HitRock(g.rocks[i])
              && (forall j :: 0 <= j < |g.rocks| && j != i ==> r.rocks[j] == g.rocks[j])
              && r.score == g.score + HitScore(g.rocks[i])
              && r.shake == DecayShake(HitShake(g.rocks[i]))
              && r.particles == Survivors(g.particles) + Survivors(Burst(m.x, m.y, SparkColor(g.rocks[i]), seeds))
              && |r.particles| == |Survivors(g.particles)| + BURST_SIZE
              && (!(PastFloor(m) && g.lives > 1) ==> r.ball == bounced.(dy := -bounced.dy))
  {
    var m := Advance(g.ball);
    match FirstStruck(g.rocks, m.x, m.y)
    case Miss =>
    case Hit(i) =>
      var burst := Burst(m.x, m.y, SparkColor(g.rocks[i]), seeds);
      SurvivorsAppend(g.particles, burst);
      FreshParticlesSurvive(burst);
  }

  /** Victory is declared exactly on a moving-ball tick in play whose scan
      wins the level. */
  lemma VictoryRule(g: Game, trig: Trig, seeds: seq<Jitter>)
    requires ValidJitter(seeds)
    ensures Update(g, trig, seeds).phase == Victory <==>
              g.phase == Victory ||
              (&& g.phase == Playing && g.ball.active
               && ClearsLevel(g.rocks, Advance(g.ball).x, Advance(g.ball).y))
  {
  }

  /** The tick that destroys the last destructible rock does not win; any
      later moving-ball tick in play, with the rocks that tick left, does. */
  lemma VictoryIsDeferred(g: Game, next: Game, trig: Trig, seeds: seq<Jitter>)
    requires ValidJitter(seeds)
    requires g.phase == Playing && g.ball.active
    requires var m := Advance(g.ball);
             && FirstStruck(g.rocks, m.x, m.y).Hit?
             && Destructible(g.rocks[FirstStruck(g.rocks, m.x, m.y).index])
             && g.rocks[FirstStruck(g.rocks, m.x, m.y).index].status == 1
             && forall k :: 0 <= k < |g.rocks| && k != FirstStruck(g.rocks, m.x, m.y).index
                  ==> !Counts(g.rocks[k])
    requires next.phase == Playing && next.ball.active
    requires next.rocks == Update(g, trig, seeds).rocks
    ensures Update(g, trig, seeds).phase != Victory
    ensures Update(next, trig, seeds).phase == Victory
  {
    var m := Advance(g.ball);
    HitTickNeverClears(g.rocks, m.x, m.y);
    RockRule(g, trig, seeds);
    assert forall k :: 0 <= k < |next.rocks| ==> !Counts(next.rocks[k]);
    ClearedLevelWins(next.rocks, Advance(next.ball).x, Advance(next.ball).y);
  }

  /** Loading a level during play replaces the rocks by the grid's and
      resets the ball; with no grid, or outside play, nothing changes. */
  function LoadLevel(g: Game, grid: Level.Grid): (r: Game)
    ensures g.phase == Playing && |grid| > 0 ==>
              r == g.(rocks := Level.Materialise(grid), ball := ResetBall(g.paddle))
    ensures g.phase != Playing || |grid| == 0 ==> r == g
  {
    if g.phase == Playing && |grid| > 0 then
      g.(rocks := Level.Materialise(grid), ball := ResetBall(g.paddle))
    else g
  }

  /** What every operation keeps true: the paddle lies within the canvas, a
      resting ball sits at its centre, and lives and score are not
      negative. */
  predicate Consistent(g: Game) {
    && 0.0 <= g.paddle.x <= CANVAS_WIDTH - PADDLE_WIDTH
    && Pinned(g.ball, g.paddle)
    && g.lives >= 0
    && g.score >= 0
  }

  lemma MountedConsistent(phase: GameState)
    ensures Consistent(Mounted(phase, 0, INITIAL_LIVES))
  {
  }

  lemma UpdateKeepsConsistent(g: Game, trig: Trig, seeds: seq<Jitter>)
    requires ValidJitter(seeds)
    requires Consistent(g)
    ensures Consistent(Update(g, trig, seeds))
  {
  }

  lemma LoadLevelKeepsConsistent(g: Game, grid: Level.Grid)
    requires Consistent(g)
    ensures Consistent(LoadLevel(g, grid))
  {
  }
}
