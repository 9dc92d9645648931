# Breakout simulation core in Dafny

This project models the per-tick simulation of a browser Breakout/Arkanoid
game. A ball bounces between walls and a paddle and breaks rocks laid out
from an integer grid. The model covers:

- `update`, the step function the game runs once per frame;
- the materialiser that turns a grid into rocks;
- the pointer, touch and launch input rules;
- the fixed fallback level grid;
- the layout constants and enumerations.

The whole game is one immutable value (`Simulation.Game`). Each operation is
a pure function from game to game:

- `Update` is one tick;
- `LoadLevel` installs a level;
- `MovePaddle`, `TouchMove` and `Press` are the input events.

Lengths and velocities are exact `real`s. Values the source draws from
`Math.random` come in as parameters (`Jitter`, `rand`). The square root,
sine and cosine of the paddle bounce come in as an oracle (`Physics.Trig`).

Modules follow the source's layout:

- `Constants` is `constants.ts`.
- `Entities` mirrors the records of `types.ts`.
- `Level`, `Physics`, `Collision`, `Particles`, `Simulation` and `Input`
  split `components/GameCanvas.tsx` by concern.
- `LevelGenerator` is `createDefaultGrid` from `services/levelGenerator.ts`.

The model keeps the code's behaviour in the places where a reader of the
game's rules would expect something else:

- **Victory comes one tick late.** The rock that is hit is counted as live
  before its health drops. So the tick that destroys the last destructible
  rock does not win; the next moving-ball tick does (`VictoryIsDeferred`).
  One would expect the win on the same tick.
- **Early stop of the victory count.** The count stops where the scan stops.
  So a level of indestructible rocks only is won on the first moving-ball
  tick (`MetalOnlyLevelWins`). So is a tick whose hit lands on an
  indestructible rock placed before every live destructible rock
  (`MetalShieldWins`). One would expect a level of indestructible rocks
  only never to be won, since nothing in it can be cleared.
- **Victory can override game over.** Game over and victory can both be set
  in one tick. The later setter call, victory, is what remains.
- **The rock scan runs after a reset.** After a lost life resets the ball,
  the rest of the tick still runs against the advanced, pre-reset ball:
  paddle test, rock scan, scoring. Only the ball's own velocity changes from
  that are lost.
- **An empty grid changes nothing.** Loading an empty grid leaves the rocks
  and the ball as they were. It does not clear the level.
- **The tick does not pin a resting ball.** `update` never moves a resting
  ball to the paddle. Only the pointer handlers and the reset do that.

## Model

| member | source | states |
|---|---|---|
| Constants.GameState.Ordinal | constants.ts:18-24 | each phase has a numeric value below 5, its place in declaration order |
| Constants.RockType.Code | constants.ts:26-32 | each rock kind's grid code lies in 0..4 |
| Constants.RockTypeOf | constants.ts:26-32 | a grid code decodes to a rock kind exactly when it is 0..4, and to the kind whose ordinal it is |
| Constants.GameStateOrdinalsDistinct | constants.ts:18-24 | the five phases have distinct ordinals, so the ordinal identifies the phase |
| Constants.RockTypeRoundTrip | constants.ts:26-32 | each kind's code decodes back to that kind; the destructible kinds are exactly codes 1..3 |
| Constants.BrickRowSpansCanvas | constants.ts:1-13 | ten bricks, nine gaps and both side offsets add up to the canvas width; the column-9 brick ends at the canvas width less the left offset |
| Constants.BricksDoNotOverlap | constants.ts:6-14 | bricks in different columns, or in different rows, never overlap |
| Constants.PaddleFitsCanvas | constants.ts:1-3 | the paddle is narrower than the canvas, so the clamp range for its left edge is non-empty |
| Constants.ColorTableKeys | constants.ts:16-39 | three initial lives; the colour table has entries for exactly the kinds 1..4, every kind but Empty |
| Level.Materialise | components/GameCanvas.tsx:50-67 | one rock per non-empty cell; a rock is in the level iff some non-empty cell has its position (column pitch plus left offset, row pitch plus top offset), its code as kind and that code, or 999 for an indestructible cell, as health; the rocks are strictly in row-major order |
| Level.LoneCellLevel | components/GameCanvas.tsx:50-67 | a grid with a single non-empty cell yields exactly that cell's rock |
| LevelGenerator.CreateDefaultGrid | services/levelGenerator.ts:64-79 | the fallback grid has 8 rows of 10 cells; in rows 0..3 a cell is weak when row plus column is even and medium otherwise; rows 4..7 are empty |
| LevelGenerator.DefaultPatternUnique | services/levelGenerator.ts:64-79 | the shape and cell rule above pin the fallback grid down uniquely |
| LevelGenerator.DefaultGridContents | services/levelGenerator.ts:64-79 | every fallback cell is empty, weak or medium; there are 40 non-empty cells, 20 weak and 20 medium; the level has 40 rocks, all destructible and live |
| Particles.Burst | components/GameCanvas.tsx:83-95 | an impact spawns 8 particles at the impact point, at full life, in the requested colour, with each velocity component in [-2, 2) and size in [1, 4) |
| Particles.Survivors | components/GameCanvas.tsx:262-270 | after a tick every remaining particle has positive life, none are added, and a particle remains iff it is the aged form of an old one whose life stayed positive |
| Particles.StepParticles | components/GameCanvas.tsx:262-270 | the backward walk that ages particles in place and splices out faded ones yields exactly the in-order survivors |
| Particles.FreshParticleLifetime | components/GameCanvas.tsx:262-270 | a particle spawned at life 1 is kept for 49 ticks and removed on the 50th |
| Particles.DecayShake | components/GameCanvas.tsx:273-276 | a positive shake strictly decreases and stays non-negative; it becomes the old one times 0.9 exactly when that is at least 0.5, and 0 otherwise; a non-positive shake is kept |
| Particles.FloorShakeFades | components/GameCanvas.tsx:273-276 | the shake of 10 from a lost life follows 10 times 0.9 to the power k, staying at least 0.5, for 28 ticks, and is 0 after the 29th |
| Physics.ResetBall | components/GameCanvas.tsx:73-81 | the reset ball is inactive and still, horizontally at the paddle centre, resting at the canvas height less paddle height, radius and 2 |
| Physics.Launch | components/GameCanvas.tsx:97-103 | a resting ball in play becomes active with dy = -6 and dx in [-2, 2), keeping its position; otherwise the ball is unchanged |
| Physics.ReflectWalls | components/GameCanvas.tsx:176-181 | position is kept; dx flips exactly when the next step leaves through a side, and dy exactly when it leaves through the top; speed is unchanged |
| Physics.CollidePoint | components/GameCanvas.tsx:204-206 | over the paddle the hit point lies in [-1, 1]; it is 0 exactly at the paddle centre, -1 at the left edge and 1 at the right edge |
| Physics.RampSpeed | components/GameCanvas.tsx:212 | the speed after a paddle hit is the old speed plus 0.2 or the cap, never above the cap of 12 and never more than 0.2 faster |
| Physics.RepeatedRamp | components/GameCanvas.tsx:210-212 | from any speed up to the cap, n paddle hits add 0.2 each until the cap of 12, which then holds however many hits follow |
| Physics.PaddleBounce | components/GameCanvas.tsx:194-216 | the bounce keeps the ball's position and activity, and leaves a ball that is not over the paddle untouched |
| Physics.CentreHitGoesStraightUp | components/GameCanvas.tsx:204-215 | a dead-centre paddle hit leaves dx = 0 and dy < 0 |
| Collision.FirstStruck | components/GameCanvas.tsx:222-252 | the rock resolved is the first live rock, in array order, whose rectangle strictly contains the ball point; on a miss no live rock contains it |
| Collision.ScanRocks | components/GameCanvas.tsx:219-254 | the loop that counts live destructible rocks and breaks at the first hit finds the first struck rock, and its count is that of the live destructible rocks up to and including it |
| Collision.ClearsLevelMeans | components/GameCanvas.tsx:219-258 | the victory test passes iff there are rocks and none up to where the scan stops is live and destructible |
| Collision.HitTickNeverClears | components/GameCanvas.tsx:224-236 | a tick whose hit lands on a destructible rock never passes the victory test, because that rock is counted before its decrement |
| Collision.ClearedLevelWins | components/GameCanvas.tsx:256-258 | with rocks present and none live and destructible, any tick passes the victory test |
| Collision.MetalOnlyLevelWins | components/GameCanvas.tsx:222-258 | a non-empty level of indestructible rocks passes the victory test at once |
| Collision.MetalShieldWins | components/GameCanvas.tsx:222-258 | a hit on an indestructible rock placed before every live destructible rock passes the victory test although destructible rocks remain |
| Collision.HitRock | components/GameCanvas.tsx:235-236 | a hit lowers a destructible rock's health by exactly 1 and changes nothing else; an indestructible rock is unchanged |
| Collision.HitScore | components/GameCanvas.tsx:235-249 | a hit on a destructible rock scores 10, plus 50 if its health falls to 0 or below; an indestructible rock scores nothing |
| Collision.HitShake | components/GameCanvas.tsx:235-250 | a hit on an indestructible rock sets the shake to 2, a hit on any other rock to 3 |
| Collision.SparkColor | components/GameCanvas.tsx:235-250 | sparks of an indestructible rock are "#94a3b8"; any other rock's take its colour from the table, or "#fff" when its kind has none |
| Collision.CellRockSparks | components/GameCanvas.tsx:235-250 | a rock from a non-empty cell is destructible iff its kind is weak, medium or hard; weak, medium and hard sparks match their fill colour, indestructible sparks are "#94a3b8" against a "#475569" fill, and no such rock sparks white |
| Collision.HitsToDestroy | components/GameCanvas.tsx:235-249 | a fresh destructible rock is alive after n hits iff n is below its code (weak dies on hit 1, hard on hit 3), and earns 10 a hit plus 50 on destruction; an indestructible rock keeps 999 health and earns nothing |
| Simulation.Update | components/GameCanvas.tsx:166-277 | a tick moves the phase only from play to game over or victory; it keeps the paddle and the number of rocks; the score never drops; lives never rise or go negative |
| Simulation.UpdateFrame | components/GameCanvas.tsx:166-276 | outside play a tick changes nothing; with the ball resting only particles and shake advance |
| Simulation.FloorRule | components/GameCanvas.tsx:180-192 | on a floor crossing with lives above 1, lives drop by exactly 1, the ball is reset and the shake is 10 before decay unless a rock hit resets it; on the last life, lives become 0 and the phase game over, unless victory overrides it; otherwise lives are kept |
| Simulation.ThirdFloorCrossingEndsGame | components/GameCanvas.tsx:182-191 | from 3 lives, three floor crossings leave 2, then 1, then 0 lives, with game over on the third |
| Simulation.RockRule | components/GameCanvas.tsx:219-254 | a miss leaves rocks, score and particles alone and, unless a spare life was lost, lets the shake decay and keeps the walls' and paddle's ball; a hit on rock i changes that rock alone, adds its score, sets its shake, adds the 8-particle burst at the ball point in the rock's spark colour to the survivors, and, unless a spare life was lost and the ball reset, reverses dy (on the last life too) |
| Simulation.VictoryRule | components/GameCanvas.tsx:256-258 | the tick ends in victory iff it already was, or it is a moving-ball tick in play whose scan passes the victory test |
| Simulation.VictoryIsDeferred | components/GameCanvas.tsx:224-258 | the tick that destroys the last destructible rock does not win; the next moving-ball tick in play does |
| Simulation.LoadLevel | components/GameCanvas.tsx:50-71 | in play with a non-empty grid, the rocks become the materialised grid and the ball is reset; otherwise nothing changes |
| Simulation.MountedConsistent | components/GameCanvas.tsx:43-47 | the freshly mounted canvas has the paddle in range and the resting ball at its centre |
| Simulation.UpdateKeepsConsistent | components/GameCanvas.tsx:166-277 | a tick keeps the paddle in range, a resting ball at the paddle centre, and lives and score non-negative |
| Simulation.LoadLevelKeepsConsistent | components/GameCanvas.tsx:50-81 | loading a level keeps the same invariant |
| Input.ClampPaddle | components/GameCanvas.tsx:112-116 | the paddle's left edge lies in [0, canvas width - paddle width]; it equals pointer x less half the paddle width when that is in range, else the nearer bound |
| Input.MovePaddle | components/GameCanvas.tsx:107-124 | a pointer move sets the paddle to the clamped position; a resting ball moves to its centre and an active ball is untouched; nothing else changes |
| Input.TouchMove | components/GameCanvas.tsx:131-145 | a touch move with no touch point changes nothing; otherwise it is the pointer move for the first touch, leaving the paddle within the canvas |
| Input.Press | components/GameCanvas.tsx:97-103 | a press launches a resting ball in play (active, dy = -6, dx in [-2, 2)); otherwise nothing changes; only the ball is ever affected |
| Input.MovePaddleKeepsConsistent | components/GameCanvas.tsx:112-123 | a pointer move keeps the paddle in range and a resting ball at its centre |
| Input.TouchMoveKeepsConsistent | components/GameCanvas.tsx:131-145 | a touch move keeps the paddle in range and a resting ball at its centre |
| Input.PressKeepsConsistent | components/GameCanvas.tsx:97-103 | a press keeps that invariant |

## Left out

- The drawing pass (`draw`) is not modelled. It turns state into pixels and makes no decisions.
- React hooks, `requestAnimationFrame` and the event-listener wiring are not modelled. Each event is an explicit call: `Update`, `MovePaddle`, `TouchMove`, `Press`, `LoadLevel`.
- Screen-to-canvas pointer scaling (`getBoundingClientRect`) is not modelled; it is DOM geometry. Pointer positions arrive in canvas coordinates.
- The handlers' early return when the canvas element is missing is not modelled. That is host plumbing.
- `Math.random` is replaced by parameters with its range [0, 1): `Jitter` values for a burst and `rand` for a launch.
- Physics.PaddleBounce: says nothing about the deflection angle or the new speed's magnitude, because the square root, sine and cosine are oracle inputs (`Trig`). Only the speed ramp `RampSpeed` is stated exactly.
- IEEE floating point is not modelled; all arithmetic is exact. So a particle's life reaches exactly 0 on its 50th tick, and the 0.9 shake factor has no rounding.
- The AI level generator (`generateLevel`) and its JSON parsing are not modelled. They are an external network call.
- The menu and overlay shell (`App.tsx`) is not modelled. Its only logic resets score and lives around that call.
- `PARTICLE_COLORS` and `BRICK_ROWS_DEFAULT` have no model, and are not declared. The simulation never reads them.
- Simulation.Update: the lives test reads the tick's own lives value, as the source's closure does. React's deferred state updates between ticks are not modelled.
