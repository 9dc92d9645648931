/** Particle bursts and screen shake (components/GameCanvas.tsx,
    createParticles and the tail of update). Math.random's draws come in as
    `Jitter` values in [0, 1). */
module Particles {
  import opened Entities

  /** Particles spawned per impact. */
  const BURST_SIZE: nat := 8
  /** Life lost by a particle per tick. */
  const LIFE_DECAY: real := 0.02
  /** Factor applied to a positive shake each tick, and the magnitude below
      which it snaps to zero. */
  const SHAKE_DECAY: real := 0.9
  const SHAKE_CUTOFF: real := 0.5

  /** The three random draws behind one particle: horizontal and vertical
      velocity, and size. */
  datatype Jitter = Jitter(rx: real, ry: real, rs: real)

  predicate Unit(v: real) {
    0.0 <= v < 1.0
  }

  /** One burst's worth of draws, each in [0, 1). */
  predicate ValidJitter(seeds: seq<Jitter>) {
    && |seeds| == BURST_SIZE
    && forall i :: 0 <= i < |seeds| ==> Unit(seeds[i].rx) && Unit(seeds[i].ry) && Unit(seeds[i].rs)
  }

  function Spark(x: real, y: real, color: string, j: Jitter): Particle {
    Particle(x, y, (j.rx - 0.5) * 4.0, (j.ry - 0.5) * 4.0, 1.0, color, j.rs * 3.0 + 1.0)
  }

  /** The particles of one impact at (x, y): all start there at full life in
      the given colour, with velocity components in [-2, 2) and size in
      [1, 4). */
  function Burst(x: real, y: real, color: string, seeds: seq<Jitter>): (ps: seq<Particle>)
    requires ValidJitter(seeds)
    ensures |ps| == BURST_SIZE
    ensures forall i :: 0 <= i < |ps| ==>
              && ps[i].x == x && ps[i].y == y
              && ps[i].life == 1.0 && ps[i].color == color
              && -2.0 <= ps[i].dx < 2.0 && -2.0 <= ps[i].dy < 2.0
              && 1.0 <= ps[i].size < 4.0
  {
    seq(BURST_SIZE, i requires 0 <= i < BURST_SIZE => Spark(x, y, color, seeds[i]))
  }

  /** One tick of a particle's motion and fading. */
  function Age(p: Particle): Particle {
    p.(x := p.x + p.dx, y := p.y + p.dy, life := p.life - LIFE_DECAY)
  }

  /** The particle list after one tick: every particle aged, and those whose
      life fell to zero or below dropped. */
  function Survivors(ps: seq<Particle>): (qs: seq<Particle>)
    ensures |qs| <= |ps|
    ensures forall q :: q in qs ==> q.life > 0.0
    ensures forall q :: q in qs <==> exists p :: p in ps && q == Age(p) && Age(p).life > 0.0
  {
    if |ps| == 0 then []
    else
      var rest := Survivors(ps[1..]);
      assert forall p :: p in ps[1..] ==> p in ps;
      assert forall p :: p in ps ==> p == ps[0] || p in ps[1..];
      (if Age(ps[0]).life > 0.0 then [Age(ps[0])] else []) + rest
  }

  lemma {:induction false} SurvivorsAppend(a: seq<Particle>, b: seq<Particle>)
    ensures Survivors(a + b) == Survivors(a) + Survivors(b)
    decreases |a|
  {
    if |a| == 0 {
      assert a + b == b;
    } else {
      assert (a + b)[1..] == a[1..] + b;
      SurvivorsAppend(a[1..], b);
    }
  }

  /** Survivors of a list with a known head. */
  lemma SurvivorsCons(p: Particle, rest: seq<Particle>)
    ensures Survivors([p] + rest) == (if Age(p).life > 0.0 then [Age(p)] else []) + Survivors(rest)
  {
    assert ([p] + rest)[0] == p;
    assert ([p] + rest)[1..] == rest;
  }

  /** One step of the backward walk: with the prefix before i untouched and
      the suffix after it already filtered, ageing position i and splicing it
      out when it has faded leaves the suffix from i filtered. */
  lemma SpliceStep(ps: seq<Particle>, qs: seq<Particle>, i: nat)
    requires i < |ps|
    requires qs == ps[..i + 1] + Survivors(ps[i + 1..])
    ensures var p := Age(qs[i]);
            (if p.life <= 0.0 then qs[..i] + qs[i + 1..] else qs[..i] + [p] + qs[i + 1..])
              == ps[..i] + Survivors(ps[i..])
  {
    var tail := Survivors(ps[i + 1..]);
    assert qs[i] == ps[i];
    assert qs[..i] == ps[..i];
    assert qs[i + 1..] == tail;
    assert ps[i..] == [ps[i]] + ps[i + 1..];
    SurvivorsCons(ps[i], ps[i + 1..]);
  }

  /** The game's particle loop: walk the list from the back, age each particle in
      place and splice out the ones that have faded. */
  method StepParticles(ps: seq<Particle>) returns (qs: seq<Particle>)
    ensures qs == Survivors(ps)
  {
    qs := ps;
    var i := |ps|;
    assert ps[i..] == [];
    while i > 0
      invariant 0 <= i <= |ps|
      invariant qs == ps[..i] + Survivors(ps[i..])
    {
      i := i - 1;
      assert ps[..i + 1] + Survivors(ps[i + 1..]) == qs;
      SpliceStep(ps, qs, i);
      var p := Age(qs[i]);
      if p.life <= 0.0 {
        qs := qs[..i] + qs[i + 1..];
      } else {
        qs := qs[..i] + [p] + qs[i + 1..];
      }
    }
    assert ps[0..] == ps;
  }

  /** A particle aged k times. */
  function Aged(p: Particle, k: nat): Particle {
    if k == 0 then p else Age(Aged(p, k - 1))
  }

  lemma {:induction false} AgedLife(p: Particle, k: nat)
    ensures Aged(p, k).life == p.life - k as real * LIFE_DECAY
  {
    if k > 0 {
      AgedLife(p, k - 1);
    }
  }

  /** A freshly spawned particle survives 49 ticks and is removed on the
      50th. */
  lemma FreshParticleLifetime(p: Particle, k: nat)
    requires p.life == 1.0
    ensures k < 49 ==> Survivors([Aged(p, k)]) == [Aged(p, k + 1)]
    ensures k == 49 ==> Survivors([Aged(p, k)]) == []
  {
    AgedLife(p, k + 1);
    assert [Aged(p, k)][1..] == [];
  }

  /** Screen-shake decay: a positive magnitude shrinks by the decay factor
      and snaps to zero once below the cut-off; anything else is kept. */
  function DecayShake(s: real): (r: real)
    ensures s <= 0.0 ==> r == s
    ensures s > 0.0 ==> 0.0 <= r < s
    ensures r > 0.0 ==> r >= SHAKE_CUTOFF && r == s * SHAKE_DECAY
    ensures s > 0.0 && s * SHAKE_DECAY >= SHAKE_CUTOFF ==> r == s * SHAKE_DECAY
    ensures s > 0.0 && s * SHAKE_DECAY < SHAKE_CUTOFF ==> r == 0.0
  {
    if s > 0.0 then
      var t := s * SHAKE_DECAY;
      if t < SHAKE_CUTOFF then 0.0 else t
    else s
  }

  /** Particles at full life all survive their first tick. */
  lemma {:induction false} FreshParticlesSurvive(ps: seq<Particle>)
    requires forall i :: 0 <= i < |ps| ==> ps[i].life == 1.0
    ensures |Survivors(ps)| == |ps|
    decreases |ps|
  {
    if |ps| > 0 {
      assert forall i :: 0 <= i < |ps[1..]| ==> ps[1..][i] == ps[i + 1];
      FreshParticlesSurvive(ps[1..]);
    }
  }

  /** The shake after n ticks of decay. */
  function ShakeAfter(s: real, n: nat): real {
    if n == 0 then s else DecayShake(ShakeAfter(s, n - 1))
  }

  /** 10 * 0.9^k, the undisturbed decay of a shake of 10. */
  function FloorShakeCurve(k: nat): real {
    if k == 0 then 10.0 else FloorShakeCurve(k - 1) * SHAKE_DECAY
  }

  lemma {:induction false} FloorShakeCurveSplit(a: nat, b: nat)
    ensures FloorShakeCurve(a + b) * 10.0 == FloorShakeCurve(a) * FloorShakeCurve(b)
    decreases b
  {
    if b > 0 {
      FloorShakeCurveSplit(a, b - 1);
    }
  }

  lemma {:induction false} FloorShakeCurveFalls(k: nat)
    ensures k <= 28 ==> FloorShakeCurve(k) >= FloorShakeCurve(28)
    ensures FloorShakeCurve(28) >= SHAKE_CUTOFF
    ensures FloorShakeCurve(29) < SHAKE_CUTOFF
    decreases 28 - k
  {
    assert FloorShakeCurve(14) == 2.2876792454961;
    FloorShakeCurveSplit(14, 14);
    assert FloorShakeCurve(29) == FloorShakeCurve(28) * SHAKE_DECAY;
    if k < 28 {
      FloorShakeCurveFalls(k + 1);
    }
  }

  /** The shake of 10 set by a lost life decays geometrically for 28 ticks
      and is gone after the 29th. */
  lemma {:induction false} FloorShakeFades(k: nat)
    requires k <= 29
    ensures k <= 28 ==> ShakeAfter(10.0, k) == FloorShakeCurve(k) >= SHAKE_CUTOFF
    ensures k == 29 ==> ShakeAfter(10.0, k) == 0.0
  {
    FloorShakeCurveFalls(k);
    if k > 0 {
      FloorShakeFades(k - 1);
      FloorShakeCurveFalls(k - 1);
    }
  }
}
