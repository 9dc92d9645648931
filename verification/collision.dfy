/** The rock scan of a tick and the effect of a hit (components/GameCanvas.tsx,
    the rock collision loop of update). The ball is treated as a point; live
    rocks are tested in array order and the first one containing the point is
    the only one resolved. While scanning, live destructible rocks are
    counted for the victory test, up to and including the rock hit. */
module Collision {
  import opened Constants
  import opened Entities
  import Level

  /** Score for any hit on a destructible rock, and the extra bonus when the
      hit destroys it. */
  const HIT_SCORE: int := 10
  const DESTROY_BONUS: int := 50
  /** Screen shake set by a hit on a destructible, or an indestructible, rock. */
  const HIT_SHAKE: real := 3.0
  const METAL_SHAKE: real := 2.0
  /** Spark colour of a hit on an indestructible rock. */
  const METAL_SPARK_COLOR: string := "#94a3b8"

  predicate Live(r: Rock) {
    r.status > 0
  }

  /** Any kind but indestructible, as the game's update loop tests it; on rocks from
      non-empty cells this agrees with RockType.IsDestructible
      (CellRockSparks). */
  predicate Destructible(r: Rock) {
    r.kind != INDESTRUCTIBLE
  }

  /** The rocks that keep a level from being won. */
  predicate Counts(r: Rock) {
    Live(r) && Destructible(r)
  }

  /** The point lies strictly inside the rock's rectangle. */
  predicate Contains(r: Rock, x: real, y: real) {
    r.x < x < r.x + r.width && r.y < y < r.y + r.height
  }

  predicate Struck(r: Rock, x: real, y: real) {
    Live(r) && Contains(r, x, y)
  }

  /** Outcome of a scan: no rock hit, or the index of the rock hit. */
  datatype Scan = Miss | Hit(index: nat)

  /** The first rock at or after index i that the point strikes. */
  function ScanFrom(rocks: seq<Rock>, x: real, y: real, i: nat): (s: Scan)
    requires i <= |rocks|
    ensures s.Hit? ==> && i <= s.index < |rocks|
                       && Struck(rocks[s.index], x, y)
                       && forall j :: i <= j < s.index ==> !Struck(rocks[j], x, y)
    ensures s.Miss? ==> forall j :: i <= j < |rocks| ==> !Struck(rocks[j], x, y)
    decreases |rocks| - i
  {
    if i == |rocks| then Miss
    else if Struck(rocks[i], x, y) then Hit(i)
    else ScanFrom(rocks, x, y, i + 1)
  }

  /** The rock a ball at (x, y) hits this tick: the first live rock, in
      array order, containing the point; Miss when there is none. */
  function FirstStruck(rocks: seq<Rock>, x: real, y: real): (s: Scan)
    ensures s.Hit? ==> && s.index < |rocks|
                       && Struck(rocks[s.index], x, y)
                       && forall j :: 0 <= j < s.index ==> !Struck(rocks[j], x, y)
    ensures s.Miss? ==> forall j :: 0 <= j < |rocks| ==> !Struck(rocks[j], x, y)
  {
    ScanFrom(rocks, x, y, 0)
  }

  /** Number of live destructible rocks. */
  function LiveDestructible(rocks: seq<Rock>): nat {
    if |rocks| == 0 then 0
    else (if Counts(rocks[0]) then 1 else 0) + LiveDestructible(rocks[1..])
  }

  lemma {:induction false} LiveDestructibleAppend(rocks: seq<Rock>, r: Rock)
    ensures LiveDestructible(rocks + [r]) == LiveDestructible(rocks) + (if Counts(r) then 1 else 0)
    decreases |rocks|
  {
    if |rocks| == 0 {
      assert rocks + [r] == [r];
      assert [r][1..] == [];
    } else {
      assert (rocks + [r])[1..] == rocks[1..] + [r];
      LiveDestructibleAppend(rocks[1..], r);
    }
  }

  /** The count is zero exactly when no rock counts. */
  lemma {:induction false} NoneLiveDestructible(rocks: seq<Rock>)
    ensures LiveDestructible(rocks) == 0 <==> forall k :: 0 <= k < |rocks| ==> !Counts(rocks[k])
    decreases |rocks|
  {
    if |rocks| > 0 {
      NoneLiveDestructible(rocks[1..]);
      assert forall k :: 1 <= k < |rocks| ==> rocks[1..][k - 1] == rocks[k];
    }
  }

  /** Where the scan stops: just past the rock hit, or at the end. */
  function StopIndex(rocks: seq<Rock>, x: real, y: real): (n: nat)
    ensures n <= |rocks|
    ensures FirstStruck(rocks, x, y).Miss? ==> n == |rocks|
    ensures FirstStruck(rocks, x, y).Hit? ==> n == FirstStruck(rocks, x, y).index + 1
  {
    match FirstStruck(rocks, x, y)
    case Miss => |rocks|
    case Hit(i) => i + 1
  }

  /** The live destructible rocks the scan has counted when it stops; the
      rock hit is counted with its health before the hit. */
  function Counted(rocks: seq<Rock>, x: real, y: real): nat {
    LiveDestructible(rocks[..StopIndex(rocks, x, y)])
  }

  /** The victory test of a tick with the ball at (x, y): there are rocks and
      the scan counted none of them. */
  predicate ClearsLevel(rocks: seq<Rock>, x: real, y: real) {
    |rocks| > 0 && Counted(rocks, x, y) == 0
  }

  /** The game's rock-scan loop as written (GameCanvas.tsx): count live
      destructible rocks while scanning, and stop at the first live rock
      containing the point. */
  method ScanRocks(rocks: seq<Rock>, x: real, y: real) returns (hit: Scan, counted: nat)
    ensures hit == FirstStruck(rocks, x, y)
    ensures counted == Counted(rocks, x, y)
  {
    hit := Miss;
    counted := 0;
    var i := 0;
    while i < |rocks|
      invariant 0 <= i <= |rocks|
      invariant counted == LiveDestructible(rocks[..i])
      invariant forall j :: 0 <= j < i ==> !Struck(rocks[j], x, y)
    {
      var b := rocks[i];
      assert rocks[..i + 1] == rocks[..i] + [b];
      LiveDestructibleAppend(rocks[..i], b);
      if b.status > 0 {
        if b.kind != INDESTRUCTIBLE {
          counted := counted + 1;
        }
        if b.x < x && x < b.x + b.width && b.y < y && y < b.y + b.height {
          hit := Hit(i);
          break;
        }
      }
      i := i + 1;
    }
    assert rocks[..|rocks|] == rocks;
  }

  /** The scan is decided by the count: it wins exactly when no rock up to
      where it stops is live and destructible. */
  lemma ClearsLevelMeans(rocks: seq<Rock>, x: real, y: real)
    ensures ClearsLevel(rocks, x, y) <==>
              |rocks| > 0 && forall k :: 0 <= k < StopIndex(rocks, x, y) ==> !Counts(rocks[k])
  {
    var n := StopIndex(rocks, x, y);
    NoneLiveDestructible(rocks[..n]);
    assert forall k :: 0 <= k < n ==> rocks[..n][k] == rocks[k];
  }

  /** Clearing the last destructible rock is not a win on the same tick: the
      rock hit is counted before its health drops. */
  lemma HitTickNeverClears(rocks: seq<Rock>, x: real, y: real)
    requires FirstStruck(rocks, x, y).Hit?
    requires Destructible(rocks[FirstStruck(rocks, x, y).index])
    ensures !ClearsLevel(rocks, x, y)
  {
    ClearsLevelMeans(rocks, x, y);
  }

  /** Once no live destructible rock is left, any tick wins. */
  lemma ClearedLevelWins(rocks: seq<Rock>, x: real, y: real)
    requires |rocks| > 0
    requires forall k :: 0 <= k < |rocks| ==> !Counts(rocks[k])
    ensures ClearsLevel(rocks, x, y)
  {
    ClearsLevelMeans(rocks, x, y);
  }

  /** A level of indestructible rocks only is won at once. */
  lemma MetalOnlyLevelWins(rocks: seq<Rock>, x: real, y: real)
    requires |rocks| > 0
    requires forall k :: 0 <= k < |rocks| ==> rocks[k].kind == INDESTRUCTIBLE
    ensures ClearsLevel(rocks, x, y)
  {
    ClearedLevelWins(rocks, x, y);
  }

  /** A hit on an indestructible rock placed before every live destructible
      rock wins, although destructible rocks remain. */
  lemma MetalShieldWins(rocks: seq<Rock>, x: real, y: real)
    requires FirstStruck(rocks, x, y).Hit?
    requires !Destructible(rocks[FirstStruck(rocks, x, y).index])
    requires forall k :: 0 <= k < FirstStruck(rocks, x, y).index ==> !Counts(rocks[k])
    ensures ClearsLevel(rocks, x, y)
  {
    ClearsLevelMeans(rocks, x, y);
  }

  /** The rock after being hit: a destructible one loses one point of
      health, an indestructible one is untouched. */
  function HitRock(r: Rock): (h: Rock)
    ensures h.x == r.x && h.y == r.y && h.kind == r.kind
    ensures h.width == r.width && h.height == r.height
    ensures Destructible(r) ==> h.status == r.status - 1
    ensures !Destructible(r) ==> h == r
  {
    if Destructible(r) then r.(status := r.status - 1) else r
  }

  /** Score for hitting the rock: 10, plus 50 more when the hit brings its
      health to zero or below; nothing for an indestructible rock. */
  function HitScore(r: Rock): (s: int)
    ensures Destructible(r) && HitRock(r).status > 0 ==> s == HIT_SCORE
    ensures Destructible(r) && HitRock(r).status <= 0 ==> s == HIT_SCORE + DESTROY_BONUS
    ensures !Destructible(r) ==> s == 0
  {
    if Destructible(r) then
      HIT_SCORE + (if r.status - 1 <= 0 then DESTROY_BONUS else 0)
    else 0
  }

  /** Screen shake set by a hit: 2 for an indestructible rock, 3 for any
      other. */
  function HitShake(r: Rock): (s: real)
    ensures r.kind == INDESTRUCTIBLE ==> s == 2.0
    ensures r.kind != INDESTRUCTIBLE ==> s == 3.0
  {
    if Destructible(r) then HIT_SHAKE else METAL_SHAKE
  }

  /** Colour of the sparks of a hit: slate grey for an indestructible rock;
      otherwise the rock's fill colour, or white for a kind without one. */
  function SparkColor(r: Rock): (color: string)
    ensures r.kind == INDESTRUCTIBLE ==> color == "#94a3b8"
    ensures r.kind != INDESTRUCTIBLE && r.kind in ROCK_COLORS ==> color == ROCK_COLORS[r.kind]
    ensures r.kind != INDESTRUCTIBLE && r.kind !in ROCK_COLORS ==> color == "#fff"
  {
    if Destructible(r) then RockColor(r.kind) else METAL_SPARK_COLOR
  }

  /** A rock materialised from a non-empty cell is destructible exactly when
      its kind is weak, medium or hard; its sparks take its fill colour, except
      an indestructible rock's, which are lighter than its fill, and never
      fall back to white. */
  lemma CellRockSparks(t: RockType, r: nat, c: nat)
    requires t != Empty
    ensures Destructible(Level.CellRock(r, c, t.Code())) <==> t.IsDestructible()
    ensures t.IsDestructible() ==> SparkColor(Level.CellRock(r, c, t.Code())) == ROCK_COLORS[t.Code()]
    ensures t == Indestructible ==>
              && SparkColor(Level.CellRock(r, c, t.Code())) == "#94a3b8"
              && ROCK_COLORS[t.Code()] == "#475569"
    ensures SparkColor(Level.CellRock(r, c, t.Code())) != "#fff"
  {
  }

  /** The rock after n hits. */
  function Hits(r: Rock, n: nat): Rock {
    if n == 0 then r else HitRock(Hits(r, n - 1))
  }

  /** The score earned by the first n hits on the rock. */
  function ScoreOf(r: Rock, n: nat): int {
    if n == 0 then 0 else ScoreOf(r, n - 1) + HitScore(Hits(r, n - 1))
  }

  lemma {:induction false} HitsStatus(r: Rock, n: nat)
    ensures Destructible(r) ==> Hits(r, n) == r.(status := r.status - n)
    ensures !Destructible(r) ==> Hits(r, n) == r
  {
    if n > 0 {
      HitsStatus(r, n - 1);
    }
  }

  /** A freshly materialised rock of a destructible kind survives one hit
      fewer than its code and is destroyed by hit number `code`, earning
      10 per hit and 50 on destruction; an indestructible rock keeps its
      health of 999 and earns nothing, however often it is hit. */
  lemma {:induction false} HitsToDestroy(t: RockType, r: nat, c: nat, n: nat)
    requires t != Empty
    ensures t.IsDestructible() ==> (Live(Hits(Level.CellRock(r, c, t.Code()), n)) <==> n < t.Code())
    ensures t.IsDestructible() && n <= t.Code() ==>
              ScoreOf(Level.CellRock(r, c, t.Code()), n) ==
                HIT_SCORE * n + (if n == t.Code() then DESTROY_BONUS else 0)
    ensures t == Indestructible ==>
              Hits(Level.CellRock(r, c, t.Code()), n).status == 999
              && ScoreOf(Level.CellRock(r, c, t.Code()), n) == 0
  {
    var rock := Level.CellRock(r, c, t.Code());
    HitsStatus(rock, n);
    if n > 0 {
      HitsToDestroy(t, r, c, n - 1);
      HitsStatus(rock, n - 1);
    }
  }
}
