/** The burst particles of the mandala visualizer (script.js:315-335, 379-407): a burst of
    twenty particles thrown out from the centre when a unit of the countdown changes, and
    the per-frame step that fades each particle, eases it towards its target and drops it
    once its life is spent. Particles are plain records that nothing else refers to, so
    they are values here. */
module Particles {
  import opened Patterns
  import TimeFormat

  /** The particles of one burst (`particleCount`). */
  const BurstSize: nat := 20

  /** The life a particle loses per frame. */
  const Fade: real := 0.02

  /** The fraction of the remaining way, per unit of speed, a particle moves per frame. */
  const Ease: real := 0.05

  /** One particle. `color` names the colour set of the unit whose change spawned it. */
  datatype Particle = Particle(
    x: real, y: real,
    targetX: real, targetY: real,
    size: real,
    color: Category,
    life: real,
    speed: real)

  /** The four `Math.random()` values one particle consumes, in the order they are drawn:
      the angle jitter, the speed, the distance spread and the size. */
  datatype BurstDraw = BurstDraw(jitter: real, speed: real, spread: real, size: real)

  predicate InUnitRange(d: BurstDraw)
  {
    0.0 <= d.jitter < 1.0 && 0.0 <= d.speed < 1.0 && 0.0 <= d.spread < 1.0
    && 0.0 <= d.size < 1.0
  }

  /** `Math.cos` and `Math.sin`. */
  datatype Trig = Trig(cos: real -> real, sin: real -> real)

  /** The direction of the `i`-th particle of a burst: evenly spaced, plus up to 0.2 radians
      of jitter. */
  function BurstAngle(i: nat, jitter: real): real
  {
    i as real * (Pi * 2.0 / BurstSize as real) + jitter * 0.2
  }

  /** How far from the centre a particle's target lies: the radius stretched by up to half. */
  function BurstDistance(radius: real, spread: real): (distance: real)
    ensures radius >= 0.0 && 0.0 <= spread < 1.0 ==> radius <= distance <= radius * 1.5
  {
    assert radius >= 0.0 && 0.0 <= spread < 1.0 ==> radius * (spread * 0.5) <= radius * 0.5 by {
      if radius > 0.0 && 0.0 <= spread < 1.0 {
        TimeFormat.MulLeReal(spread * 0.5, 0.5, radius);
      }
    }
    radius * (1.0 + spread * 0.5)
  }

  /** The `i`-th particle of a burst from `(x, y)` with the given radius and colour set. */
  function NewParticle(x: real, y: real, radius: real, color: Category, i: nat, d: BurstDraw,
                       trig: Trig): Particle
  {
    var angle := BurstAngle(i, d.jitter);
    var distance := BurstDistance(radius, d.spread);
    Particle(x, y, x + trig.cos(angle) * distance, y + trig.sin(angle) * distance,
             2.0 + d.size * 2.0, color, 1.0, 1.0 + d.speed * 2.0)
  }

  /** The particles one `createParticles` call appends, in order; `draws(i)` are the random
      numbers of the `i`-th. */
  function Burst(x: real, y: real, radius: real, color: Category, draws: nat -> BurstDraw,
                 trig: Trig): seq<Particle>
  {
    seq(BurstSize, i requires 0 <= i < BurstSize => NewParticle(x, y, radius, color, i, draws(i), trig))
  }

  /** A burst is twenty particles of its colour set, all starting at the centre with full
      life. */
  lemma BurstOf(x: real, y: real, radius: real, color: Category, draws: nat -> BurstDraw,
                trig: Trig)
    ensures var b := Burst(x, y, radius, color, draws, trig);
      && |b| == 20
      && (forall i :: 0 <= i < |b| ==> b[i].x == x && b[i].y == y && b[i].color == color)
      && (forall i :: 0 <= i < |b| ==> b[i].life == 1.0)
  {
    var b := Burst(x, y, radius, color, draws, trig);
    forall i | 0 <= i < |b|
      ensures b[i].x == x && b[i].y == y && b[i].color == color && b[i].life == 1.0
    {
      assert b[i] == NewParticle(x, y, radius, color, i, draws(i), trig);
    }
  }

  /** With random numbers in [0, 1) the speeds of a burst lie in [1, 3), its sizes in [2, 4)
      and its targets at between one and one and a half times the radius from the centre. */
  lemma BurstShape(x: real, y: real, radius: real, color: Category, draws: nat -> BurstDraw,
                   trig: Trig)
    requires forall i :: 0 <= i < BurstSize ==> InUnitRange(draws(i))
    ensures var b := Burst(x, y, radius, color, draws, trig);
      forall i :: 0 <= i < |b| ==> 1.0 <= b[i].speed < 3.0 && 2.0 <= b[i].size < 4.0
  {
    var b := Burst(x, y, radius, color, draws, trig);
    forall i | 0 <= i < |b|
      ensures 1.0 <= b[i].speed < 3.0 && 2.0 <= b[i].size < 4.0
    {
      assert InUnitRange(draws(i));
    }
  }

  // ---------------------------------------------------------------------------
  // The per-frame step (script.js:380-386, 405)
  // ---------------------------------------------------------------------------

  /** One frame of one particle: it loses `Fade` of its life and moves `speed * Ease` of the
      way towards its target. */
  function Advance(p: Particle): Particle
  {
    p.(life := p.life - Fade,
       x := p.x + (p.targetX - p.x) * p.speed * Ease,
       y := p.y + (p.targetY - p.y) * p.speed * Ease)
  }

  /** The particle is kept by the frame that advanced it. */
  predicate Alive(p: Particle)
  {
    p.life > 0.0
  }

  /** The way left to the target shrinks by the factor `1 - 0.05 * speed` every frame; for a
      burst particle (speed in [1, 3)) the factor lies in (0.85, 0.95], so a particle only
      ever approaches its target and never overshoots it. */
  lemma AdvanceEases(p: Particle)
    ensures Advance(p).targetX - Advance(p).x == (p.targetX - p.x) * (1.0 - Ease * p.speed)
    ensures Advance(p).targetY - Advance(p).y == (p.targetY - p.y) * (1.0 - Ease * p.speed)
    ensures 1.0 <= p.speed < 3.0 ==> 0.85 < 1.0 - Ease * p.speed <= 0.95
  {
  }

  /** The particle after `n` frames. */
  function AdvanceBy(p: Particle, n: nat): (q: Particle)
    ensures q.targetX == p.targetX && q.targetY == p.targetY && q.speed == p.speed
    ensures q.size == p.size && q.color == p.color
  {
    if n == 0 then p else Advance(AdvanceBy(p, n - 1))
  }

  /** After `n` frames a particle has lost `n` times `Fade` of its life. */
  lemma {:induction false} AdvanceByLife(p: Particle, n: nat)
    ensures AdvanceBy(p, n).life == p.life - n as real * Fade
  {
    if n > 0 {
      AdvanceByLife(p, n - 1);
    }
  }

  /** A particle born with full life is kept by its first 49 frames and dropped by the
      50th. */
  lemma FullLifeLastsFiftyFrames(p: Particle, n: nat)
    requires p.life == 1.0
    ensures Alive(AdvanceBy(p, n + 1)) <==> n < 49
  {
    AdvanceByLife(p, n + 1);
  }

  // ---------------------------------------------------------------------------
  // The filter of a frame (script.js:379-407)
  // ---------------------------------------------------------------------------

  /** The particles a frame keeps: every particle advanced once, in order, those whose life is
      still positive. */
  function Surviving(ps: seq<Particle>): (r: seq<Particle>)
    ensures |r| <= |ps|
  {
    if ps == [] then []
    else
      var last := Advance(ps[|ps| - 1]);
      Surviving(ps[..|ps| - 1]) + (if Alive(last) then [last] else [])
  }

  /** Filtering one more particle appends its advanced self exactly when it is still alive. */
  lemma SurvivingSnoc(ps: seq<Particle>, i: nat)
    requires i < |ps|
    ensures Surviving(ps[..i + 1])
         == Surviving(ps[..i]) + (if Alive(Advance(ps[i])) then [Advance(ps[i])] else [])
  {
    assert ps[..i + 1][..i] == ps[..i];
  }

  /** The filter treats every particle on its own, so filtering a list is filtering its parts. */
  lemma {:induction false} SurvivingConcat(a: seq<Particle>, b: seq<Particle>)
    ensures Surviving(a + b) == Surviving(a) + Surviving(b)
    decreases |b|
  {
    if b == [] {
      assert a + b == a;
    } else {
      var init := b[..|b| - 1];
      assert (a + b)[..|a + b| - 1] == a + init;
      SurvivingConcat(a, init);
    }
  }

  /** Every kept particle is alive, and when no life in the list exceeds `hi` no kept life
      exceeds `hi` less one frame's fade. */
  lemma {:induction false} SurvivingLives(ps: seq<Particle>, hi: real)
    requires forall i :: 0 <= i < |ps| ==> ps[i].life <= hi
    ensures forall i :: 0 <= i < |Surviving(ps)| ==> 0.0 < Surviving(ps)[i].life <= hi - Fade
  {
    if ps != [] {
      var init := ps[..|ps| - 1];
      assert forall i :: 0 <= i < |init| ==> init[i].life <= hi by {
        forall i | 0 <= i < |init| ensures init[i].life <= hi { assert init[i] == ps[i]; }
      }
      SurvivingLives(init, hi);
    }
  }

  /** A frame drops no particle exactly when every particle has more than one frame's fade of
      life left. */
  lemma {:induction false} SurvivingKeepsAllIff(ps: seq<Particle>)
    ensures |Surviving(ps)| == |ps| <==> forall i :: 0 <= i < |ps| ==> ps[i].life > Fade
  {
    if ps != [] {
      var init := ps[..|ps| - 1];
      SurvivingKeepsAllIff(init);
      if forall i :: 0 <= i < |ps| ==> ps[i].life > Fade {
        assert forall i :: 0 <= i < |init| ==> init[i].life > Fade by {
          forall i | 0 <= i < |init| ensures init[i].life > Fade { assert init[i] == ps[i]; }
        }
        assert Alive(Advance(ps[|ps| - 1]));
      } else {
        var k :| 0 <= k < |ps| && ps[k].life <= Fade;
        if k == |ps| - 1 {
          assert !Alive(Advance(ps[k]));
        } else {
          assert init[k] == ps[k];
        }
      }
    }
  }
}
