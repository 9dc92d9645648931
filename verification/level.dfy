/** Turning an integer grid into the level's rocks (components/GameCanvas.tsx,
    the rock initialisation effect). Rows may be ragged: each row is walked
    over its own length, as the game's nested forEach does. */
module Level {
  import opened Constants
  import opened Entities

  type Grid = seq<seq<int>>

  /** Health an indestructible rock starts with: large enough never to run
      out within a game. */
  const INDESTRUCTIBLE_STATUS: int := 999

  function StartingStatus(code: int): int {
    if code == INDESTRUCTIBLE then INDESTRUCTIBLE_STATUS else code
  }

  /** The rock materialised from code `code` in row r, column c. */
  function CellRock(r: nat, c: nat, code: int): Rock {
    Rock(ColumnX(c), RowY(r), StartingStatus(code), code, BRICK_WIDTH, BRICK_HEIGHT)
  }

  /** The rocks of one row, from column c on. */
  function RowRocks(row: seq<int>, r: nat, c: nat): seq<Rock>
    requires c <= |row|
    decreases |row| - c
  {
    if c == |row| then []
    else (if row[c] != EMPTY then [CellRock(r, c, row[c])] else []) + RowRocks(row, r, c + 1)
  }

  /** The rocks of the grid, from row r on, in row-major order. */
  function GridRocks(grid: Grid, r: nat): seq<Rock>
    requires r <= |grid|
    decreases |grid| - r
  {
    if r == |grid| then [] else RowRocks(grid[r], r, 0) + GridRocks(grid, r + 1)
  }

  /** Number of non-empty cells of a row. */
  function NonEmptyInRow(row: seq<int>): nat {
    if |row| == 0 then 0
    else (if row[0] != EMPTY then 1 else 0) + NonEmptyInRow(row[1..])
  }

  /** Number of non-empty cells of a grid. */
  function NonEmptyCells(grid: Grid): nat {
    if |grid| == 0 then 0 else NonEmptyInRow(grid[0]) + NonEmptyCells(grid[1..])
  }

  /** Rock `rk` is what the cell in row i, column j materialises to: it is
      non-empty, and the rock sits at that cell's position with the cell's
      code as its kind and that code (999 for an indestructible one) as its
      health. */
  ghost predicate FromCell(grid: Grid, i: int, j: int, rk: Rock)
    requires 0 <= i < |grid| && 0 <= j < |grid[i]|
  {
    && grid[i][j] != EMPTY
    && rk.x == ColumnX(j)
    && rk.y == RowY(i)
    && rk.kind == grid[i][j]
    && rk.status == (if grid[i][j] == INDESTRUCTIBLE then 999 else grid[i][j])
    && rk.width == BRICK_WIDTH
    && rk.height == BRICK_HEIGHT
  }

  /** `a` comes before `b` in reading order: a higher row, or the same row
      further left. */
  predicate Precedes(a: Rock, b: Rock) {
    a.y < b.y || (a.y == b.y && a.x < b.x)
  }

  /** The rocks are strictly in row-major order (so no two coincide). */
  predicate RowMajor(rocks: seq<Rock>) {
    forall i, j :: 0 <= i < j < |rocks| ==> Precedes(rocks[i], rocks[j])
  }

  /** The materialised level: exactly one rock per non-empty cell, in
      row-major order, each built from its cell. */
  function Materialise(grid: Grid): (rocks: seq<Rock>)
    ensures |rocks| == NonEmptyCells(grid)
    ensures forall rk :: rk in rocks <==>
              exists i, j :: 0 <= i < |grid| && 0 <= j < |grid[i]| && FromCell(grid, i, j, rk)
    ensures RowMajor(rocks)
  {
    GridRocksCount(grid, 0);
    GridRocksOrdered(grid, 0);
    forall rk ensures rk in GridRocks(grid, 0) <==>
        exists i, j :: 0 <= i < |grid| && 0 <= j < |grid[i]| && FromCell(grid, i, j, rk) {
      GridRocksMembers(grid, 0, rk);
    }
    GridRocks(grid, 0)
  }

  lemma {:induction false} RowRocksMembers(row: seq<int>, r: nat, c: nat, rk: Rock)
    requires c <= |row|
    ensures rk in RowRocks(row, r, c) <==>
              exists j :: c <= j < |row| && row[j] != EMPTY && rk == CellRock(r, j, row[j])
    decreases |row| - c
  {
    if c < |row| {
      RowRocksMembers(row, r, c + 1, rk);
      var head := if row[c] != EMPTY then [CellRock(r, c, row[c])] else [];
      assert RowRocks(row, r, c) == head + RowRocks(row, r, c + 1);
      if rk in head {
        assert c <= c < |row| && row[c] != EMPTY && rk == CellRock(r, c, row[c]);
      }
    }
  }

  lemma {:induction false} GridRocksMembers(grid: Grid, r: nat, rk: Rock)
    requires r <= |grid|
    ensures rk in GridRocks(grid, r) <==>
              exists i, j :: r <= i < |grid| && 0 <= j < |grid[i]| && FromCell(grid, i, j, rk)
    decreases |grid| - r
  {
    if r < |grid| {
      GridRocksMembers(grid, r + 1, rk);
      RowRocksMembers(grid[r], r, 0, rk);
      if rk in RowRocks(grid[r], r, 0) {
        var j :| 0 <= j < |grid[r]| && grid[r][j] != EMPTY && rk == CellRock(r, j, grid[r][j]);
        assert FromCell(grid, r, j, rk);
      }
      if exists i, j :: r <= i < |grid| && 0 <= j < |grid[i]| && FromCell(grid, i, j, rk) {
        var i, j :| r <= i < |grid| && 0 <= j < |grid[i]| && FromCell(grid, i, j, rk);
        if i == r {
          assert rk == CellRock(r, j, grid[r][j]);
        } else {
          assert rk in GridRocks(grid, r + 1);
        }
      }
    }
  }

  lemma {:induction false} RowRocksCount(row: seq<int>, r: nat, c: nat)
    requires c <= |row|
    ensures |RowRocks(row, r, c)| == NonEmptyInRow(row[c..])
    decreases |row| - c
  {
    if c < |row| {
      RowRocksCount(row, r, c + 1);
      assert row[c..][0] == row[c];
      assert row[c..][1..] == row[c + 1..];
    }
  }

  lemma {:induction false} GridRocksCount(grid: Grid, r: nat)
    requires r <= |grid|
    ensures |GridRocks(grid, r)| == NonEmptyCells(grid[r..])
    decreases |grid| - r
  {
    if r < |grid| {
      GridRocksCount(grid, r + 1);
      RowRocksCount(grid[r], r, 0);
      assert grid[r][0..] == grid[r];
      assert grid[r..][0] == grid[r];
      assert grid[r..][1..] == grid[r + 1..];
    } else {
      assert grid[r..] == [];
    }
  }

  /** Concatenating two row-major runs, the first wholly before the second,
      gives a row-major run. */
  lemma RowMajorAppend(a: seq<Rock>, b: seq<Rock>)
    requires RowMajor(a) && RowMajor(b)
    requires forall i, j :: 0 <= i < |a| && 0 <= j < |b| ==> Precedes(a[i], b[j])
    ensures RowMajor(a + b)
  {
    var ab := a + b;
    forall i, j | 0 <= i < j < |ab| ensures Precedes(ab[i], ab[j]) {
      if j < |a| {
        assert Precedes(a[i], a[j]);
      } else if i >= |a| {
        assert Precedes(b[i - |a|], b[j - |a|]);
      } else {
        assert Precedes(a[i], b[j - |a|]);
      }
    }
  }

  lemma {:induction false} RowRocksOrdered(row: seq<int>, r: nat, c: nat)
    requires c <= |row|
    ensures RowMajor(RowRocks(row, r, c))
    ensures forall k :: 0 <= k < |RowRocks(row, r, c)| ==>
              RowRocks(row, r, c)[k].y == RowY(r) && RowRocks(row, r, c)[k].x >= ColumnX(c)
    decreases |row| - c
  {
    if c < |row| {
      var rest := RowRocks(row, r, c + 1);
      RowRocksOrdered(row, r, c + 1);
      var head := if row[c] != EMPTY then [CellRock(r, c, row[c])] else [];
      assert RowRocks(row, r, c) == head + rest;
      BricksDoNotOverlap(c, c + 1, r, r);
      RowMajorAppend(head, rest);
    }
  }

  lemma {:induction false} GridRocksOrdered(grid: Grid, r: nat)
    requires r <= |grid|
    ensures RowMajor(GridRocks(grid, r))
    ensures forall k :: 0 <= k < |GridRocks(grid, r)| ==> GridRocks(grid, r)[k].y >= RowY(r)
    decreases |grid| - r
  {
    if r < |grid| {
      var row := RowRocks(grid[r], r, 0);
      var rest := GridRocks(grid, r + 1);
      RowRocksOrdered(grid[r], r, 0);
      GridRocksOrdered(grid, r + 1);
      BricksDoNotOverlap(0, 0, r, r + 1);
      RowMajorAppend(row, rest);
    }
  }

  /** A grid whose only non-empty cell is (r, c) materialises to the single
      rock of that cell. */
  lemma LoneCellLevel(grid: Grid, r: nat, c: nat)
    requires r < |grid| && c < |grid[r]| && grid[r][c] != EMPTY
    requires forall i, j :: 0 <= i < |grid| && 0 <= j < |grid[i]| && grid[i][j] != EMPTY ==> i == r && j == c
    ensures Materialise(grid) == [CellRock(r, c, grid[r][c])]
  {
    var rocks := Materialise(grid);
    var only := CellRock(r, c, grid[r][c]);
    assert FromCell(grid, r, c, only);
    assert only in rocks;
    forall k | 0 <= k < |rocks| ensures rocks[k] == only {
      assert rocks[k] in rocks;
    }
    assert |rocks| > 1 ==> Precedes(rocks[0], rocks[1]);
    assert rocks == [only];
  }
}
