/** Layout constants, the game phase and rock kind enumerations, and the
    colour table of the breakout game (constants.ts). All lengths are in the
    canvas's logical pixels and are modelled as exact reals. */
module Constants {
  import opened Wrappers

  const CANVAS_WIDTH: real := 800.0
  const CANVAS_HEIGHT: real := 600.0
  const PADDLE_WIDTH: real := 100.0
  const PADDLE_HEIGHT: real := 16.0
  const BALL_RADIUS: real := 6.0
  const BRICK_PADDING: real := 8.0
  const BRICK_OFFSET_TOP: real := 60.0
  const BRICK_OFFSET_LEFT: real := 35.0
  const BRICK_COLS_DEFAULT: nat := 10

  /** The brick width is derived so that a row of BRICK_COLS_DEFAULT bricks
      with padding between them and the left offset on both sides spans the
      canvas exactly. */
  const BRICK_WIDTH: real :=
    (CANVAS_WIDTH - BRICK_OFFSET_LEFT * 2.0 - BRICK_PADDING * (BRICK_COLS_DEFAULT - 1) as real)
    / BRICK_COLS_DEFAULT as real
  const BRICK_HEIGHT: real := 24.0

  const INITIAL_LIVES: nat := 3

  /** The coarse phase of a session, in declaration order. */
  datatype GameState = Menu | Playing | GameOver | Victory | GeneratingLevel {
    /** The enum's numeric value. */
    function Ordinal(): (n: nat)
      ensures n < 5
    {
      match this
      case Menu => 0
      case Playing => 1
      case GameOver => 2
      case Victory => 3
      case GeneratingLevel => 4
    }
  }

  /** The kinds of grid cell. A destructible kind's code is also the number of
      hits it takes to destroy. */
  datatype RockType = Empty | Weak | Medium | Hard | Indestructible {
    function Code(): (n: int)
      ensures 0 <= n <= 4
    {
      match this
      case Empty => 0
      case Weak => 1
      case Medium => 2
      case Hard => 3
      case Indestructible => 4
    }

    predicate IsDestructible() {
      Weak? || Medium? || Hard?
    }
  }

  const EMPTY: int := Empty.Code()
  const INDESTRUCTIBLE: int := Indestructible.Code()

  /** Decodes a grid code back into its kind; codes outside 0..4 have none. */
  function RockTypeOf(code: int): (t: Option<RockType>)
    ensures t.Some? <==> 0 <= code <= 4
    ensures t.Some? ==> t.value.Code() == code
  {
    if code == 0 then Some(Empty)
    else if code == 1 then Some(Weak)
    else if code == 2 then Some(Medium)
    else if code == 3 then Some(Hard)
    else if code == 4 then Some(Indestructible)
    else None
  }

  /** Fill colour of each non-empty kind, keyed by code. */
  const ROCK_COLORS: map<int, string> := map[
    Weak.Code() := "#94a3b8",
    Medium.Code() := "#d97706",
    Hard.Code() := "#dc2626",
    Indestructible.Code() := "#475569"
  ]

  /** The colour looked up for a rock's code, white when the table has none. */
  function RockColor(code: int): string {
    if code in ROCK_COLORS then ROCK_COLORS[code] else "#fff"
  }

  /** Left edge of the brick in column c. */
  function ColumnX(c: nat): real {
    c as real * (BRICK_WIDTH + BRICK_PADDING) + BRICK_OFFSET_LEFT
  }

  /** Top edge of the brick in row r. */
  function RowY(r: nat): real {
    r as real * (BRICK_HEIGHT + BRICK_PADDING) + BRICK_OFFSET_TOP
  }

  lemma GameStateOrdinalsDistinct(s: GameState, t: GameState)
    ensures s.Ordinal() == t.Ordinal() <==> s == t
  {
  }

  lemma RockTypeRoundTrip(t: RockType)
    ensures RockTypeOf(t.Code()) == Some(t)
    ensures t.IsDestructible() <==> 1 <= t.Code() <= 3
  {
  }

  lemma BrickRowSpansCanvas()
    ensures BRICK_COLS_DEFAULT as real * BRICK_WIDTH
            + (BRICK_COLS_DEFAULT - 1) as real * BRICK_PADDING
            + 2.0 * BRICK_OFFSET_LEFT == CANVAS_WIDTH
    ensures ColumnX(BRICK_COLS_DEFAULT - 1) + BRICK_WIDTH == CANVAS_WIDTH - BRICK_OFFSET_LEFT
  {
  }

  /** Bricks in distinct columns, and in distinct rows, never overlap. */
  lemma BricksDoNotOverlap(c1: nat, c2: nat, r1: nat, r2: nat)
    ensures c1 < c2 ==> ColumnX(c1) + BRICK_WIDTH < ColumnX(c2)
    ensures r1 < r2 ==> RowY(r1) + BRICK_HEIGHT < RowY(r2)
  {
  }

  lemma PaddleFitsCanvas()
    ensures 0.0 < PADDLE_WIDTH < CANVAS_WIDTH
    ensures 0.0 <= CANVAS_WIDTH - PADDLE_WIDTH
  {
  }

  lemma ColorTableKeys()
    ensures INITIAL_LIVES == 3
    ensures ROCK_COLORS.Keys == {1, 2, 3, 4}
    ensures forall t: RockType :: t.Code() in ROCK_COLORS <==> t != Empty
  {
  }
}
