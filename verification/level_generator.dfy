/** The deterministic fallback level (services/levelGenerator.ts,
    createDefaultGrid): 8 rows of 10 cells, a checkerboard of weak and medium
    rocks in the top four rows and empty rows below. */
module LevelGenerator {
  import opened Constants
  import opened Level

  const DEFAULT_ROWS: nat := 8
  const DEFAULT_COLS: nat := 10
  const PATTERN_ROWS: nat := 4

  /** The fallback grid's shape and contents. */
  ghost predicate DefaultPattern(grid: Grid) {
    && |grid| == DEFAULT_ROWS
    && (forall r :: 0 <= r < |grid| ==> |grid[r]| == DEFAULT_COLS)
    && (forall r, c :: 0 <= r < PATTERN_ROWS && 0 <= c < DEFAULT_COLS ==>
          grid[r][c] == (if (c + r) % 2 == 0 then Weak.Code() else Medium.Code()))
    && (forall r, c :: PATTERN_ROWS <= r < DEFAULT_ROWS && 0 <= c < DEFAULT_COLS ==>
          grid[r][c] == Empty.Code())
  }

  /** Builds the fallback grid row by row, as createDefaultGrid's nested loops do. */
  method CreateDefaultGrid() returns (grid: Grid)
    ensures DefaultPattern(grid)
  {
    grid := [];
    var r := 0;
    while r < DEFAULT_ROWS
      invariant 0 <= r <= DEFAULT_ROWS
      invariant |grid| == r
      invariant forall i :: 0 <= i < r ==> |grid[i]| == DEFAULT_COLS
      invariant forall i, c :: 0 <= i < r && i < PATTERN_ROWS && 0 <= c < DEFAULT_COLS ==>
                  grid[i][c] == (if (c + i) % 2 == 0 then Weak.Code() else Medium.Code())
      invariant forall i, c :: PATTERN_ROWS <= i < r && 0 <= c < DEFAULT_COLS ==>
                  grid[i][c] == Empty.Code()
    {
      var row := [];
      var c := 0;
      while c < DEFAULT_COLS
        invariant 0 <= c <= DEFAULT_COLS
        invariant |row| == c
        invariant forall j :: 0 <= j < c ==>
                    row[j] == (if r < PATTERN_ROWS
                               then (if (j + r) % 2 == 0 then Weak.Code() else Medium.Code())
                               else Empty.Code())
      {
        if r < PATTERN_ROWS {
          row := row + [if (c + r) % 2 == 0 then Weak.Code() else Medium.Code()];
        } else {
          row := row + [Empty.Code()];
        }
        c := c + 1;
      }
      grid := grid + [row];
      r := r + 1;
    }
  }

  /** The shape and contents above determine the grid completely. */
  lemma DefaultPatternUnique(g1: Grid, g2: Grid)
    requires DefaultPattern(g1) && DefaultPattern(g2)
    ensures g1 == g2
  {
    forall r | 0 <= r < DEFAULT_ROWS ensures g1[r] == g2[r] {
      assert forall c :: 0 <= c < DEFAULT_COLS ==> g1[r][c] == g2[r][c];
    }
  }

  /** Number of cells of a row holding `code`. */
  function CountInRow(row: seq<int>, code: int): nat {
    if |row| == 0 then 0
    else (if row[0] == code then 1 else 0) + CountInRow(row[1..], code)
  }

  /** Number of cells of a grid holding `code`. */
  function CountInGrid(grid: Grid, code: int): nat {
    if |grid| == 0 then 0 else CountInRow(grid[0], code) + CountInGrid(grid[1..], code)
  }

  /** A row alternating between two non-empty codes holds each on half of
      its cells, and has no empty cell. */
  lemma {:induction false} AlternatingRowCounts(row: seq<int>, p: nat, a: int, b: int)
    requires |row| % 2 == 0
    requires a != b && a != EMPTY && b != EMPTY
    requires forall c :: 0 <= c < |row| ==> row[c] == (if (c + p) % 2 == 0 then a else b)
    ensures CountInRow(row, a) == |row| / 2
    ensures CountInRow(row, b) == |row| / 2
    ensures NonEmptyInRow(row) == |row|
    decreases |row|
  {
    if |row| > 0 {
      var rest := row[2..];
      assert row[1..][1..] == rest;
      forall c | 0 <= c < |rest| ensures rest[c] == (if (c + p) % 2 == 0 then a else b) {
        assert rest[c] == row[c + 2];
        assert (c + 2 + p) % 2 == (c + p) % 2;
      }
      AlternatingRowCounts(rest, p, a, b);
      assert (1 + p) % 2 != p % 2;
    }
  }

  /** An all-empty row holds no other code. */
  lemma {:induction false} EmptyRowCounts(row: seq<int>, a: int)
    requires a != EMPTY
    requires forall c :: 0 <= c < |row| ==> row[c] == EMPTY
    ensures CountInRow(row, a) == 0
    ensures NonEmptyInRow(row) == 0
    decreases |row|
  {
    if |row| > 0 {
      EmptyRowCounts(row[1..], a);
    }
  }

  /** The rows from r on hold 5 weak, 5 medium and 10 non-empty cells per
      checkerboard row, and nothing in the empty rows. */
  lemma {:induction false} DefaultSuffixCounts(grid: Grid, r: nat)
    requires DefaultPattern(grid)
    requires r <= DEFAULT_ROWS
    ensures NonEmptyCells(grid[r..]) == 10 * (if r < PATTERN_ROWS then PATTERN_ROWS - r else 0)
    ensures CountInGrid(grid[r..], Weak.Code()) == 5 * (if r < PATTERN_ROWS then PATTERN_ROWS - r else 0)
    ensures CountInGrid(grid[r..], Medium.Code()) == 5 * (if r < PATTERN_ROWS then PATTERN_ROWS - r else 0)
    decreases DEFAULT_ROWS - r
  {
    if r < DEFAULT_ROWS {
      DefaultSuffixCounts(grid, r + 1);
      assert grid[r..][0] == grid[r];
      assert grid[r..][1..] == grid[r + 1..];
      if r < PATTERN_ROWS {
        AlternatingRowCounts(grid[r], r, Weak.Code(), Medium.Code());
      } else {
        EmptyRowCounts(grid[r], Weak.Code());
        EmptyRowCounts(grid[r], Medium.Code());
      }
    } else {
      assert grid[r..] == [];
    }
  }

  /** The fallback grid holds only empty, weak and medium cells: 40 rocks,
      20 of each kind, none indestructible; so its level is 40 live,
      destructible rocks. */
  lemma DefaultGridContents(grid: Grid)
    requires DefaultPattern(grid)
    ensures forall r, c :: 0 <= r < |grid| && 0 <= c < |grid[r]| ==>
              grid[r][c] in {Empty.Code(), Weak.Code(), Medium.Code()}
    ensures NonEmptyCells(grid) == 40
    ensures CountInGrid(grid, Weak.Code()) == 20
    ensures CountInGrid(grid, Medium.Code()) == 20
    ensures |Materialise(grid)| == 40
    ensures forall rk :: rk in Materialise(grid) ==>
              rk.kind != INDESTRUCTIBLE && 0 < rk.status <= Medium.Code()
  {
    DefaultSuffixCounts(grid, 0);
    assert grid[0..] == grid;
    forall rk | rk in Materialise(grid)
      ensures rk.kind != INDESTRUCTIBLE && 0 < rk.status <= Medium.Code()
    {
      var i, j :| 0 <= i < |grid| && 0 <= j < |grid[i]| && FromCell(grid, i, j, rk);
    }
  }
}
