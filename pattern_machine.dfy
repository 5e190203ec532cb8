/** The time pattern machine: three pools of orbiting patterns, one per clock unit, that it
    advances, thins out and tops up once per animation frame, and the elapsed-time label it
    keeps. */
module PatternMachine {
  import opened Wrappers
  import opened Patterns
  import TimeFormat

  /** The `Math.random()` values one `maintainPatterns` call consumes: the spawn-angle draw of
      each pool, and the decay draw of each pool's pattern at each index. */
  datatype Draws = Draws(spawn: Category -> real, decay: Category -> nat -> real)

  /** Every running frame advances the simulated clock by 16 ms, before scaling. */
  const FrameSeconds: real := 0.016

  /** The clock after one frame: `16 ms * timeScale * timeDirection` later. */
  function ClockAfterFrame(elapsed: real, timeScale: real, timeDirection: int): real
  {
    elapsed + FrameSeconds * timeScale * timeDirection as real
  }

  /** The order in which `PATTERN_TYPES` (and so `maintainPatterns`) visits the pools. */
  const Units: seq<Category> := [Seconds, Minutes, Hours]

  /** The states of the three pools. */
  type Pools = map<Category, seq<PatternState>>

  predicate Complete(pools: Pools)
  {
    forall c: Category :: c in pools
  }

  function Min(a: real, b: real): real
  {
    if a <= b then a else b
  }

  // ---------------------------------------------------------------------------
  // The initial ring of a pool
  // ---------------------------------------------------------------------------

  /** The angle `initializePatterns` gives the `i`-th pattern of a pool. */
  function RingAngle(c: Category, i: nat): real
  {
    match c
    case Seconds => (i as real / 60.0) * Pi * 2.0
    case Minutes => (i as real / 24.0) * Pi * 2.0
    case Hours => (i as real / 12.0) * Pi * 2.0
  }

  /** The `Count(c)` fresh patterns `initializePatterns` adds to a pool, in order. */
  function Ring(c: Category, radius: real): seq<PatternState>
  {
    seq(Count(c), i requires 0 <= i < Count(c) => Fresh(c, radius, RingAngle(c, i)))
  }

  /** A fresh ring is fully opaque. */
  lemma RingOpacitiesInRange(c: Category, radius: real)
    ensures OpacitiesInRange(Ring(c, radius))
    ensures forall i :: 0 <= i < |Ring(c, radius)| ==> Ring(c, radius)[i].opacity == 1.0
  {
  }

  /** The ring spreads its patterns evenly over one turn: every angle lies in `[0, 2π)`,
      neighbours are `2π / count` apart, and all of them are fresh at the pool's radius. */
  lemma RingEvenlySpaced(c: Category, radius: real, i: nat)
    requires i < Count(c)
    ensures |Ring(c, radius)| == Count(c)
    ensures Ring(c, radius)[i] == Fresh(c, radius, RingAngle(c, i))
    ensures 0.0 <= RingAngle(c, i) < Pi * 2.0
    ensures i + 1 < Count(c) ==> RingAngle(c, i + 1) - RingAngle(c, i) == Pi * 2.0 / Count(c) as real
  {
    var n := Count(c) as real;
    var x := i as real;
    assert 0.0 <= x / n < 1.0 by {
      assert x < n;
      TimeFormat.MulLtReal(x / n, 1.0, n);
    }
    TimeFormat.MulLeReal(0.0, x / n, Pi * 2.0);
    TimeFormat.MulLtReal(x / n, 1.0, Pi * 2.0);
    assert (x + 1.0) / n - x / n == 1.0 / n;
  }

  // ---------------------------------------------------------------------------
  // What one `maintainPatterns` call does to the pools
  // ---------------------------------------------------------------------------

  /** A pool after `maintainPatterns` tops it up: one fresh pattern at the drawn angle when it
      holds fewer than its unit's count, and nothing new otherwise. */
  function Spawned(c: Category, ss: seq<PatternState>, radius: real, draw: real)
    : seq<PatternState>
  {
    if |ss| < Count(c) then ss + [Fresh(c, radius, draw * Pi * 2.0)] else ss
  }

  /** One pool's share of `maintainPatterns`: the top-up, then the decay pass over the topped-up
      pool, which reports whether it threw. */
  function Maintained(c: Category, ss: seq<PatternState>, baseRadius: real, draws: Draws,
                      timeScale: real): (seq<PatternState>, bool)
  {
    DecayPass(c, Spawned(c, ss, OrbitRadius(c, baseRadius), draws.spawn(c)), draws.decay(c),
              timeScale)
  }

  /** `maintainPatterns` over the pools named in `units`, in order; a pool whose pass threw
      stops the call, and the pools after it are left as they were. */
  function MaintainFrom(pools: Pools, units: seq<Category>, baseRadius: real, draws: Draws,
                        timeScale: real): (r: (Pools, bool))
    requires Complete(pools)
    ensures Complete(r.0)
    decreases |units|
  {
    if units == [] then (pools, false)
    else
      var c := units[0];
      var step := Maintained(c, pools[c], baseRadius, draws, timeScale);
      var next := pools[c := step.0];
      if step.1 then (next, true)
      else MaintainFrom(next, units[1..], baseRadius, draws, timeScale)
  }

  /** The pools after the per-frame filter: each keeps its surviving, advanced patterns. */
  function Filtered(pools: Pools, timeScale: real): Pools
    requires forall c :: c in pools ==> NonZeroRadii(pools[c])
  {
    map c | c in pools :: Survivors(pools[c], timeScale)
  }

  /** What one pool's pass does, element by element: the pool grows by exactly the top-up,
      every old pattern is kept in place and at most starts decaying, and the new one is a
      fresh pattern at the drawn angle that may already have started decaying. */
  lemma MaintainedShape(c: Category, ss: seq<PatternState>, baseRadius: real, draws: Draws,
                        timeScale: real)
    ensures var r := Maintained(c, ss, baseRadius, draws, timeScale).0;
      && |r| == (if |ss| < Count(c) then |ss| + 1 else |ss|)
      && (forall i :: 0 <= i < |ss| ==> r[i] == ss[i] || r[i] == ss[i].(decaying := true))
      && (|ss| < Count(c) ==>
            var f := Fresh(c, OrbitRadius(c, baseRadius), draws.spawn(c) * Pi * 2.0);
            r[|ss|] == f || r[|ss|] == f.(decaying := true))
  {
  }

  /** Over the three pools, `maintainPatterns` adds at most one pattern to each, and only to a
      pool below its count; when nothing throws, every pool below its count gets exactly one. */
  lemma MaintainTopsUp(pools: Pools, baseRadius: real, draws: Draws, timeScale: real)
    requires Complete(pools)
    ensures var r := MaintainFrom(pools, Units, baseRadius, draws, timeScale);
      && (forall c: Category :: |pools[c]| <= |r.0[c]| <= |pools[c]| + 1)
      && (forall c: Category :: |r.0[c]| == |pools[c]| + 1 ==> |pools[c]| < Count(c))
      && (!r.1 ==> forall c: Category ::
            |r.0[c]| == (if |pools[c]| < Count(c) then |pools[c]| + 1 else |pools[c]|))
  {
    var r := MaintainFrom(pools, Units, baseRadius, draws, timeScale);
    MaintainUnfolds(pools, baseRadius, draws, timeScale);
    MaintainedLength(Seconds, pools[Seconds], baseRadius, draws, timeScale);
    MaintainedLength(Minutes, pools[Minutes], baseRadius, draws, timeScale);
    MaintainedLength(Hours, pools[Hours], baseRadius, draws, timeScale);
    forall c: Category
      ensures |pools[c]| <= |r.0[c]| <= |pools[c]| + 1
      ensures |r.0[c]| == |pools[c]| + 1 ==> |pools[c]| < Count(c)
      ensures !r.1 ==> |r.0[c]| == (if |pools[c]| < Count(c) then |pools[c]| + 1 else |pools[c]|)
    {
      AllUnits(c);
    }
  }

  /** One pool's pass grows it by exactly the top-up. */
  lemma MaintainedLength(c: Category, ss: seq<PatternState>, baseRadius: real, draws: Draws,
                         timeScale: real)
    ensures |Maintained(c, ss, baseRadius, draws, timeScale).0|
         == (if |ss| < Count(c) then |ss| + 1 else |ss|)
  {
  }

  /** The three-pool call spelled out: the seconds pass always runs; the minutes pass runs
      unless the seconds pass threw, and the hours pass unless either of them threw. */
  lemma MaintainUnfolds(pools: Pools, baseRadius: real, draws: Draws, timeScale: real)
    requires Complete(pools)
    ensures var s := Maintained(Seconds, pools[Seconds], baseRadius, draws, timeScale);
      var m := Maintained(Minutes, pools[Minutes], baseRadius, draws, timeScale);
      var h := Maintained(Hours, pools[Hours], baseRadius, draws, timeScale);
      var r := MaintainFrom(pools, Units, baseRadius, draws, timeScale);
      && r.1 == (s.1 || m.1)
      && r.0[Seconds] == s.0
      && r.0[Minutes] == (if s.1 then pools[Minutes] else m.0)
      && r.0[Hours] == (if s.1 || m.1 then pools[Hours] else h.0)
  {
    var s := Maintained(Seconds, pools[Seconds], baseRadius, draws, timeScale);
    var p1 := pools[Seconds := s.0];
    assert Units[1..] == [Minutes, Hours];
    if !s.1 {
      var m := Maintained(Minutes, p1[Minutes], baseRadius, draws, timeScale);
      var p2 := p1[Minutes := m.0];
      assert [Minutes, Hours][1..] == [Hours];
      if !m.1 {
        assert [Hours][1..] == [];
      }
    }
  }

  /** `maintainPatterns` throws exactly when a seconds or minutes pattern rolls its decay (the
      hours pass never throws), and the throw comes from the first pass that had a roll. */
  lemma MaintainThrowsIff(pools: Pools, baseRadius: real, draws: Draws, timeScale: real)
    requires Complete(pools)
    ensures var sTop := Spawned(Seconds, pools[Seconds], OrbitRadius(Seconds, baseRadius),
                                draws.spawn(Seconds));
      var mTop := Spawned(Minutes, pools[Minutes], OrbitRadius(Minutes, baseRadius),
                          draws.spawn(Minutes));
      MaintainFrom(pools, Units, baseRadius, draws, timeScale).1 <==>
        (exists i :: 0 <= i < |sTop| && Rolls(sTop[i], draws.decay(Seconds)(i), timeScale))
        || (exists i :: 0 <= i < |mTop| && Rolls(mTop[i], draws.decay(Minutes)(i), timeScale))
  {
    MaintainUnfolds(pools, baseRadius, draws, timeScale);
    var sTop := Spawned(Seconds, pools[Seconds], OrbitRadius(Seconds, baseRadius),
                        draws.spawn(Seconds));
    var mTop := Spawned(Minutes, pools[Minutes], OrbitRadius(Minutes, baseRadius),
                        draws.spawn(Minutes));
    RollsIffThrows(Seconds, sTop, draws.decay(Seconds), timeScale);
    RollsIffThrows(Minutes, mTop, draws.decay(Minutes), timeScale);
  }

  /** A seconds or minutes decay pass throws exactly when some pattern rolls its decay. */
  lemma RollsIffThrows(c: Category, ss: seq<PatternState>, draws: nat -> real, timeScale: real)
    requires c != Hours
    ensures DecayPass(c, ss, draws, timeScale).1 <==>
      exists i :: 0 <= i < |ss| && Rolls(ss[i], draws(i), timeScale)
  {
    var f := FirstRoll(ss, draws, timeScale, 0);
    if f.Some? {
      assert Rolls(ss[f.value], draws(f.value), timeScale);
    }
  }

  /** The first decay roll is at `k` when `k` rolls and nothing before it does. */
  lemma FirstRollAt(ss: seq<PatternState>, draws: nat -> real, timeScale: real, k: nat)
    requires k < |ss| && Rolls(ss[k], draws(k), timeScale)
    requires forall j :: 0 <= j < k ==> !Rolls(ss[j], draws(j), timeScale)
    ensures FirstRoll(ss, draws, timeScale, 0) == Some(k)
  {
  }

  /** A seconds or minutes pass whose first firing test is at `k` throws there, having
      marked only patterns up to `k`. */
  lemma DecayPassThrowsAt(c: Category, ss: seq<PatternState>, draws: nat -> real,
                          timeScale: real, k: nat)
    requires c != Hours && k < |ss| && Rolls(ss[k], draws(k), timeScale)
    requires forall j :: 0 <= j < k ==> !Rolls(ss[j], draws(j), timeScale)
    ensures DecayPass(c, ss, draws, timeScale) == (MarkDecay(ss, draws, timeScale, k + 1), true)
  {
    FirstRollAt(ss, draws, timeScale, k);
  }

  /** An hours pass, or a pass in which no test fires, visits every pattern and does not
      throw. */
  lemma DecayPassCompletes(c: Category, ss: seq<PatternState>, draws: nat -> real,
                           timeScale: real)
    requires c != Hours ==> forall j :: 0 <= j < |ss| ==> !Rolls(ss[j], draws(j), timeScale)
    ensures DecayPass(c, ss, draws, timeScale) == (MarkDecay(ss, draws, timeScale, |ss|), false)
  {
    if c != Hours {
      assert FirstRoll(ss, draws, timeScale, 0).None?;
    }
  }

  /** Every value of the three-valued unit type is one of the three units. */
  lemma AllUnits(c: Category)
    ensures c == Seconds || c == Minutes || c == Hours
  {
  }

  /** Every opacity in every pool lies in [0, 1]. */
  predicate PoolsOpacitiesInRange(pools: Pools)
  {
    forall c :: c in pools ==> OpacitiesInRange(pools[c])
  }

  /** `maintainPatterns` keeps every opacity in [0, 1]: the pattern it adds is fully opaque,
      and the decay pass changes no opacity. */
  lemma {:induction false} MaintainKeepsOpacities(pools: Pools, units: seq<Category>,
                                                  baseRadius: real, draws: Draws,
                                                  timeScale: real)
    requires Complete(pools) && PoolsOpacitiesInRange(pools)
    ensures PoolsOpacitiesInRange(MaintainFrom(pools, units, baseRadius, draws, timeScale).0)
    decreases |units|
  {
    if units != [] {
      var c := units[0];
      var step := Maintained(c, pools[c], baseRadius, draws, timeScale);
      MaintainedShape(c, pools[c], baseRadius, draws, timeScale);
      assert OpacitiesInRange(step.0) by {
        assert OpacitiesInRange(pools[c]);
      }
      var next := pools[c := step.0];
      if !step.1 {
        MaintainKeepsOpacities(next, units[1..], baseRadius, draws, timeScale);
      }
    }
  }

  /** A whole running frame of the pools, filter then `maintainPatterns`, keeps every opacity
      in [0, 1] at a non-negative time scale. */
  lemma FrameKeepsOpacities(pools: Pools, baseRadius: real, draws: Draws, timeScale: real)
    requires Complete(pools) && forall c :: NonZeroRadii(pools[c])
    requires PoolsOpacitiesInRange(pools) && timeScale >= 0.0
    ensures PoolsOpacitiesInRange(
      MaintainFrom(Filtered(pools, timeScale), Units, baseRadius, draws, timeScale).0)
  {
    var filtered := Filtered(pools, timeScale);
    forall c | c in filtered
      ensures OpacitiesInRange(filtered[c])
    {
      SurvivorsOpacityInRange(pools[c], timeScale);
    }
    assert Complete(filtered);
    MaintainKeepsOpacities(filtered, Units, baseRadius, draws, timeScale);
  }

  /** The filtered pools, unit by unit. */
  lemma FilteredByUnit(pools: Pools, timeScale: real)
    requires Complete(pools) && forall c :: NonZeroRadii(pools[c])
    ensures Filtered(pools, timeScale)
         == map[Seconds := Survivors(pools[Seconds], timeScale),
                Minutes := Survivors(pools[Minutes], timeScale),
                Hours := Survivors(pools[Hours], timeScale)]
  {
    var m := map[Seconds := Survivors(pools[Seconds], timeScale),
                 Minutes := Survivors(pools[Minutes], timeScale),
                 Hours := Survivors(pools[Hours], timeScale)];
    CompleteByKeys(m);
    PoolsEqual(Filtered(pools, timeScale), m);
  }

  /** Two complete sets of pools are equal when each pool is. */
  lemma PoolsEqual(a: Pools, b: Pools)
    requires Complete(a) && Complete(b)
    requires a[Seconds] == b[Seconds] && a[Minutes] == b[Minutes] && a[Hours] == b[Hours]
    ensures a == b
  {
    forall c: Category
      ensures a[c] == b[c]
    {
      AllUnits(c);
    }
  }

  lemma CompleteByKeys<T>(m: map<Category, T>)
    requires Seconds in m && Minutes in m && Hours in m
    ensures forall c: Category :: c in m
  {
    forall c: Category
      ensures c in m
    {
      AllUnits(c);
    }
  }

  /** The patterns of one initial ring, newly created, in order. */
  method NewRing(c: Category, radius: real) returns (ring: seq<Pattern>)
    ensures Distinct(ring)
    ensures forall p :: p in ring ==> fresh(p) && p.category == c && p.radius == radius
    ensures States(ring) == Ring(c, radius)
  {
    ring := [];
    var i := 0;
    while i < Count(c)
      invariant 0 <= i <= Count(c) && |ring| == i
      invariant forall j :: 0 <= j < i ==> fresh(ring[j])
      invariant forall j :: 0 <= j < i ==> ring[j].category == c && ring[j].radius == radius
      invariant forall j :: 0 <= j < i ==> ring[j].State() == Ring(c, radius)[j]
      invariant Distinct(ring)
    {
      var p := new Pattern(c, radius, RingAngle(c, i));
      ring := ring + [p];
      i := i + 1;
    }
  }

  /** The filter of one pool: updates every pattern once, in order, and returns those whose
      update reported them alive, in their order. */
  method AdvanceAll(ps: seq<Pattern>, timeScale: real) returns (kept: seq<Pattern>)
    requires Distinct(ps) && NonZeroRadii(States(ps))
    modifies set p | p in ps
    ensures Distinct(kept)
    ensures forall p :: p in kept ==> p in ps
    ensures States(kept) == Survivors(old(States(ps)), timeScale)
  {
    ghost var ss := States(ps);
    kept := [];
    var i := 0;
    while i < |ps|
      invariant 0 <= i <= |ps|
      invariant forall j :: i <= j < |ps| ==> ps[j].State() == ss[j]
      invariant Distinct(kept) && forall q :: q in kept ==> q in ps
      invariant forall j :: i <= j < |ps| ==> ps[j] !in kept
      invariant States(kept) == Survivors(ss[..i], timeScale)
    {
      SurvivorsSnoc(ss, i, timeScale);
      kept := KeepIfAlive(ps[i], kept, timeScale);
      i := i + 1;
    }
    assert ss[..|ps|] == ss;
  }

  /** One step of the filter: updates `p` and appends it to `kept` when it reports itself
      alive; the patterns already kept are not touched. */
  method KeepIfAlive(p: Pattern, kept: seq<Pattern>, timeScale: real) returns (next: seq<Pattern>)
    requires p !in kept && p.radius != 0.0
    modifies p
    ensures next == kept || next == kept + [p]
    ensures var step := Step(old(p.State()), timeScale);
      States(next) == old(States(kept)) + (if step.1 then [step.0] else [])
  {
    var alive := p.Update(timeScale);
    next := if alive then kept + [p] else kept;
    assert States(kept + [p]) == States(kept) + [p.State()];
  }

  /** The decay walk of one pool: in order, each pattern not yet decaying whose draw falls
      under `0.01 * timeScale` starts decaying; for seconds and minutes the first of them
      throws and ends the walk. */
  method DecayWalk(c: Category, ps: seq<Pattern>, draws: nat -> real, timeScale: real)
    returns (threw: bool)
    requires Distinct(ps)
    modifies set p | p in ps
    ensures (States(ps), threw) == DecayPass(c, old(States(ps)), draws, timeScale)
  {
    ghost var ss := States(ps);
    var i := 0;
    while i < |ps|
      invariant 0 <= i <= |ps|
      invariant States(ps) == MarkDecay(ss, draws, timeScale, i)
      invariant c != Hours ==> forall j :: 0 <= j < i ==> !Rolls(ss[j], draws(j), timeScale)
    {
      var rolled := VisitForDecay(ps, i, ss, draws, timeScale);
      if rolled && c != Hours {
        // The cascade into the next unit reads `baseRadius` out of its scope and throws.
        DecayPassThrowsAt(c, ss, draws, timeScale, i);
        return true;
      }
      i := i + 1;
    }
    DecayPassCompletes(c, ss, draws, timeScale);
    return false;
  }

  /** The decay test of the pattern at index `i`: when it is not decaying and its draw is
      below `0.01 * timeScale` it starts decaying; no other pattern is touched. */
  method VisitForDecay(ps: seq<Pattern>, i: nat, ghost ss: seq<PatternState>, draws: nat -> real,
                       timeScale: real)
    returns (rolled: bool)
    requires Distinct(ps) && i < |ps| == |ss|
    requires States(ps) == MarkDecay(ss, draws, timeScale, i)
    modifies ps[i]
    ensures rolled == Rolls(ss[i], draws(i), timeScale)
    ensures States(ps) == MarkDecay(ss, draws, timeScale, i + 1)
  {
    var p := ps[i];
    assert p.State() == ss[i];
    rolled := !p.decaying && draws(i) < 0.01 * timeScale;
    if rolled {
      p.StartDecay();
    }
    forall j | 0 <= j < |ps|
      ensures States(ps)[j] == MarkDecay(ss, draws, timeScale, i + 1)[j]
    {
      if j != i {
        assert ps[j] != p;
      }
    }
  }

  /** The states of the three pools of patterns, keyed by unit. */
  ghost function PoolStates(pools: map<Category, seq<Pattern>>): (m: Pools)
    requires Seconds in pools && Minutes in pools && Hours in pools
    reads pools[Seconds], pools[Minutes], pools[Hours]
    ensures Complete(m)
  {
    var m := map[Seconds := States(pools[Seconds]), Minutes := States(pools[Minutes]),
                 Hours := States(pools[Hours])];
    CompleteByKeys(m);
    m
  }

  /** The pattern objects of a pool, as a set. */
  function Members(ps: seq<Pattern>): set<Pattern>
  {
    set i | 0 <= i < |ps| :: ps[i]
  }

  lemma MembersOf(ps: seq<Pattern>)
    ensures forall p :: p in Members(ps) <==> p in ps
  {
    forall p | p in ps
      ensures p in Members(ps)
    {
      var i :| 0 <= i < |ps| && ps[i] == p;
    }
  }

  /** Every pattern object in the three pools. */
  function PoolObjects(pools: map<Category, seq<Pattern>>): set<Pattern>
    requires Seconds in pools && Minutes in pools && Hours in pools
  {
    Members(pools[Seconds]) + Members(pools[Minutes]) + Members(pools[Hours])
  }

  /** Pools that only lost patterns hold no object the original pools did not. */
  lemma PoolObjectsShrink(before: map<Category, seq<Pattern>>, after: map<Category, seq<Pattern>>)
    requires Seconds in before && Minutes in before && Hours in before
    requires Seconds in after && Minutes in after && Hours in after
    requires forall p :: p in after[Seconds] ==> p in before[Seconds]
    requires forall p :: p in after[Minutes] ==> p in before[Minutes]
    requires forall p :: p in after[Hours] ==> p in before[Hours]
    ensures PoolObjects(after) <= PoolObjects(before)
  {
    MembersOf(before[Seconds]);
    MembersOf(before[Minutes]);
    MembersOf(before[Hours]);
    MembersOf(after[Seconds]);
    MembersOf(after[Minutes]);
    MembersOf(after[Hours]);
  }

  /** A pool holds distinct patterns of its own unit, all at that unit's orbit radius. */
  ghost predicate PoolValid(c: Category, ps: seq<Pattern>, baseRadius: real)
  {
    && (forall p :: p in ps ==> p.category == c && p.radius == OrbitRadius(c, baseRadius))
    && Distinct(ps)
  }

  /** Every unit has a pool, and every pool is valid. */
  ghost predicate PoolsValid(pools: map<Category, seq<Pattern>>, baseRadius: real)
  {
    && (forall c: Category :: c in pools)
    && (forall c: Category :: c in pools ==> PoolValid(c, pools[c], baseRadius))
  }

  /** Two valid pools of the same unit with no pattern in common join into a valid pool. */
  lemma JoinPools(c: Category, ps: seq<Pattern>, added: seq<Pattern>, baseRadius: real)
    requires PoolValid(c, ps, baseRadius) && PoolValid(c, added, baseRadius)
    requires forall p, q :: p in ps && q in added ==> p != q
    ensures PoolValid(c, ps + added, baseRadius)
  {
    forall i, j | 0 <= i < j < |ps + added|
      ensures (ps + added)[i] != (ps + added)[j]
    {
      if j < |ps| {
      } else if i >= |ps| {
        assert (ps + added)[i] == added[i - |ps|];
      } else {
        assert (ps + added)[i] in ps && (ps + added)[j] in added;
      }
    }
  }

  /** A pool with one ring of fresh patterns appended; the patterns already there stay, in
      place and in their order. */
  method GrowPool(c: Category, ps: seq<Pattern>, baseRadius: real) returns (grown: seq<Pattern>)
    requires PoolValid(c, ps, baseRadius)
    ensures PoolValid(c, grown, baseRadius)
    ensures States(grown) == States(ps) + Ring(c, OrbitRadius(c, baseRadius))
    ensures |ps| <= |grown| && grown[..|ps|] == ps
  {
    var added := NewRing(c, OrbitRadius(c, baseRadius));
    JoinPools(c, ps, added, baseRadius);
    StatesConcat(ps, added);
    grown := ps + added;
    assert grown[..|ps|] == ps;
  }

  /** The invariant of the machine: a positive base radius and valid pools. */
  ghost predicate MachineValid(pools: map<Category, seq<Pattern>>, baseRadius: real)
  {
    baseRadius > 0.0 && PoolsValid(pools, baseRadius)
  }

  /** Replacing one pool by a valid pool of the same unit keeps all the pools valid. */
  lemma ReplacePool(pools: map<Category, seq<Pattern>>, baseRadius: real, c: Category,
                    ps: seq<Pattern>)
    requires PoolsValid(pools, baseRadius) && PoolValid(c, ps, baseRadius)
    ensures PoolsValid(pools[c := ps], baseRadius)
  {
  }

  // ---------------------------------------------------------------------------
  // The machine
  // ---------------------------------------------------------------------------

  class TimePatternMachine {
    /** The canvas size in device pixels, which the orbit radii are taken from. */
    const width: real
    const height: real
    var patterns: map<Category, seq<Pattern>>
    var isRunning: bool
    var timeDirection: int
    var timeScale: real
    var elapsedTime: real

    /** `Math.min(canvas.width, canvas.height) * 0.3`. */
    function BaseRadius(): real
    {
      Min(width, height) * 0.3
    }

    function RadiusOf(c: Category): real
    {
      OrbitRadius(c, BaseRadius())
    }

    /** The settings and the clock: everything but the pools. */
    function Controls(): (bool, int, real, real)
      reads this
    {
      (isRunning, timeDirection, timeScale, elapsedTime)
    }

    ghost predicate Valid()
      reads this
    {
      MachineValid(patterns, BaseRadius())
    }

    ghost predicate HasPools()
      reads this
    {
      Seconds in patterns && Minutes in patterns && Hours in patterns
    }

    /** Every pattern object in the pools. */
    ghost function Objects(): set<Pattern>
      requires HasPools()
      reads this
    {
      PoolObjects(patterns)
    }

    /** The states of all the pools. */
    ghost function Snapshot(): (m: Pools)
      requires HasPools()
      reads this, patterns[Seconds], patterns[Minutes], patterns[Hours]
      ensures Complete(m)
      ensures Valid() ==> forall c :: NonZeroRadii(m[c])
    {
      PoolStates(patterns)
    }

    /** The pools start with one full ring each; the machine runs forward at normal speed. */
    constructor (width: real, height: real)
      requires width > 0.0 && height > 0.0
      ensures this.width == width && this.height == height
      ensures Valid()
      ensures forall c: Category :: States(patterns[c]) == Ring(c, RadiusOf(c))
      ensures isRunning && timeDirection == 1 && timeScale == 1.0 && elapsedTime == 0.0
      ensures PoolsOpacitiesInRange(Snapshot())
    {
      this.width := width;
      this.height := height;
      patterns := map[Seconds := [], Minutes := [], Hours := []];
      isRunning := true;
      timeDirection := 1;
      timeScale := 1.0;
      elapsedTime := 0.0;
      new;
      forall c: Category
        ensures c in patterns
      {
        AllUnits(c);
      }
      InitializePatterns();
      ghost var snap := Snapshot();
      forall c: Category
        ensures OpacitiesInRange(snap[c])
      {
        AllUnits(c);
        RingOpacitiesInRange(c, RadiusOf(c));
        assert snap[c] == States(patterns[c]) == Ring(c, RadiusOf(c));
      }
    }

    /** `initializePatterns`: one ring of fresh patterns appended to each pool, seconds,
        minutes, then hours; the patterns already there are kept, in place. */
    method InitializePatterns()
      requires Valid()
      modifies this
      ensures Valid()
      ensures Controls() == old(Controls())
      ensures forall c: Category :: States(patterns[c]) == old(States(patterns[c])) + Ring(c, RadiusOf(c))
      ensures forall c: Category ::
        |old(patterns[c])| <= |patterns[c]| && patterns[c][..|old(patterns[c])|] == old(patterns[c])
    {
      ghost var before := patterns;
      var s := GrowPool(Seconds, patterns[Seconds], BaseRadius());
      var m := GrowPool(Minutes, patterns[Minutes], BaseRadius());
      var h := GrowPool(Hours, patterns[Hours], BaseRadius());
      ReplacePool(patterns, BaseRadius(), Seconds, s);
      ReplacePool(patterns[Seconds := s], BaseRadius(), Minutes, m);
      ReplacePool(patterns[Seconds := s][Minutes := m], BaseRadius(), Hours, h);
      patterns := patterns[Seconds := s][Minutes := m][Hours := h];
      forall c: Category
        ensures States(patterns[c]) == old(States(patterns[c])) + Ring(c, RadiusOf(c))
        ensures |before[c]| <= |patterns[c]| && patterns[c][..|before[c]|] == before[c]
      {
        AllUnits(c);
        if c == Seconds {
          assert patterns[c] == s;
        } else if c == Minutes {
          assert patterns[c] == m;
        } else {
          assert patterns[c] == h;
        }
      }
    }

    /** `reset`: the elapsed time returns to zero and every pool gets another full ring; the
        patterns already there are kept. */
    method Reset()
      requires Valid()
      modifies this
      ensures Valid()
      ensures elapsedTime == 0.0
      ensures isRunning == old(isRunning) && timeDirection == old(timeDirection)
      ensures timeScale == old(timeScale)
      ensures forall c: Category :: States(patterns[c]) == old(States(patterns[c])) + Ring(c, RadiusOf(c))
      ensures forall c: Category ::
        |old(patterns[c])| <= |patterns[c]| && patterns[c][..|old(patterns[c])|] == old(patterns[c])
    {
      elapsedTime := 0.0;
      InitializePatterns();
    }

    /** The play/pause button. */
    method TogglePlay()
      modifies this
      ensures isRunning == !old(isRunning)
      ensures patterns == old(patterns) && timeDirection == old(timeDirection)
      ensures timeScale == old(timeScale) && elapsedTime == old(elapsedTime)
    {
      isRunning := !isRunning;
    }

    /** The speed slider, given the value `parseFloat` read from it. */
    method SetTimeScale(value: real)
      modifies this
      ensures timeScale == value
      ensures patterns == old(patterns) && timeDirection == old(timeDirection)
      ensures isRunning == old(isRunning) && elapsedTime == old(elapsedTime)
    {
      timeScale := value;
    }

    /** The per-frame filter of pool `c`: every pattern advances one frame and only those
        still alive stay, in their order. */
    method FilterPool(c: Category)
      requires Valid()
      modifies this, set p | p in patterns[c]
      ensures Valid()
      ensures Controls() == old(Controls())
      ensures forall d :: d != c ==> patterns[d] == old(patterns[d])
      ensures forall d :: d != c ==> States(patterns[d]) == old(States(patterns[d]))
      ensures forall p :: p in patterns[c] ==> p in old(patterns[c])
      ensures States(patterns[c]) == Survivors(old(States(patterns[c])), timeScale)
    {
      var ps := patterns[c];
      var kept := AdvanceAll(ps, timeScale);
      ReplacePool(patterns, BaseRadius(), c, kept);
      patterns := patterns[c := kept];
    }

    /** The top-up of pool `c`: one fresh pattern at the drawn angle, at the pool's radius,
        when the pool holds fewer than its unit's count. */
    method TopUp(c: Category, draw: real)
      requires Valid()
      modifies this
      ensures Valid()
      ensures Controls() == old(Controls())
      ensures forall d :: d != c ==> patterns[d] == old(patterns[d])
      ensures States(patterns[c]) == Spawned(c, old(States(patterns[c])), RadiusOf(c), draw)
      ensures forall p :: p in patterns[c] ==> p in old(patterns[c]) || fresh(p)
    {
      var ps := patterns[c];
      if |ps| < Count(c) {
        var p := new Pattern(c, RadiusOf(c), draw * Pi * 2.0);
        assert States(ps + [p]) == States(ps) + [p.State()];
        ReplacePool(patterns, BaseRadius(), c, ps + [p]);
        patterns := patterns[c := ps + [p]];
      }
    }

    /** One pool's share of `maintainPatterns`: the top-up, then the decay walk over the
        topped-up pool, new pattern included. For seconds and minutes the first pattern that
        starts decaying throws, because the cascade into the next unit reads `baseRadius`
        outside the block that declares it. */
    method MaintainPool(c: Category, draws: Draws) returns (threw: bool)
      requires Valid()
      modifies this, patterns[c]
      ensures Valid()
      ensures Controls() == old(Controls())
      ensures forall d :: d != c ==> patterns[d] == old(patterns[d])
      ensures forall d :: d != c ==> States(patterns[d]) == old(States(patterns[d]))
      ensures (States(patterns[c]), threw)
           == Maintained(c, old(States(patterns[c])), BaseRadius(), draws, timeScale)
    {
      TopUp(c, draws.spawn(c));
      var ps := patterns[c];
      threw := DecayWalk(c, ps, draws.decay(c), timeScale);
    }

    /** `maintainPatterns`: the seconds, minutes and hours pools in turn, stopping at the first
        pass that throws. */
    method MaintainPatterns(draws: Draws) returns (threw: bool)
      requires Valid()
      modifies this, patterns[Seconds], patterns[Minutes], patterns[Hours]
      ensures Valid()
      ensures Controls() == old(Controls())
      ensures (Snapshot(), threw) == MaintainFrom(old(Snapshot()), Units, BaseRadius(), draws, timeScale)
    {
      ghost var pools := Snapshot();
      ghost var r := MaintainFrom(pools, Units, BaseRadius(), draws, timeScale);
      MaintainUnfolds(pools, BaseRadius(), draws, timeScale);
      threw := MaintainPool(Seconds, draws);
      if threw {
        PoolsEqual(Snapshot(), r.0);
        return;
      }
      threw := MaintainPool(Minutes, draws);
      if threw {
        PoolsEqual(Snapshot(), r.0);
        return;
      }
      threw := MaintainPool(Hours, draws);
      PoolsEqual(Snapshot(), r.0);
    }

    /** The per-frame filter of all three pools. */
    method FilterPools()
      requires Valid()
      modifies this, Objects()
      ensures Valid()
      ensures Controls() == old(Controls())
      ensures Snapshot() == Filtered(old(Snapshot()), timeScale)
      ensures Objects() <= old(Objects())
    {
      ghost var pools, before := Snapshot(), patterns;
      FilteredByUnit(pools, timeScale);
      FilterPool(Seconds);
      ghost var s := States(patterns[Seconds]);
      assert s == Survivors(pools[Seconds], timeScale);
      FilterPool(Minutes);
      ghost var m := States(patterns[Minutes]);
      assert m == Survivors(pools[Minutes], timeScale);
      assert States(patterns[Seconds]) == s;
      FilterPool(Hours);
      assert States(patterns[Seconds]) == s && States(patterns[Minutes]) == m;
      PoolObjectsShrink(before, patterns);
    }

    /** The pool work of one running frame: every pool filtered, then `maintainPatterns`. */
    method Tick(draws: Draws) returns (threw: bool)
      requires Valid()
      modifies this, Objects()
      ensures Valid()
      ensures Controls() == old(Controls())
      ensures (Snapshot(), threw)
           == MaintainFrom(Filtered(old(Snapshot()), timeScale), Units, BaseRadius(), draws, timeScale)
      ensures timeScale >= 0.0 && PoolsOpacitiesInRange(old(Snapshot())) ==>
        PoolsOpacitiesInRange(Snapshot())
    {
      ghost var pools := Snapshot();
      FilterPools();
      threw := MaintainPatterns(draws);
      if timeScale >= 0.0 && PoolsOpacitiesInRange(pools) {
        FrameKeepsOpacities(pools, BaseRadius(), draws, timeScale);
      }
    }

    /** The clock step of a running frame: `elapsedTime` moves by `16 ms * timeScale *
        timeDirection`. */
    method AdvanceClock()
      requires Valid()
      modifies this
      ensures Valid()
      ensures elapsedTime == ClockAfterFrame(old(elapsedTime), timeScale, timeDirection)
      ensures isRunning == old(isRunning) && timeDirection == old(timeDirection)
      ensures timeScale == old(timeScale)
      ensures patterns == old(patterns) && Snapshot() == old(Snapshot())
    {
      elapsedTime := ClockAfterFrame(elapsedTime, timeScale, timeDirection);
    }

    /** One animation frame. A running machine advances the clock, filters every pool, runs
        `maintainPatterns` and then shows the elapsed-time label (`updateTimeDisplay`, whose
        text is `TimeFormat.ElapsedLabel`); when `maintainPatterns` throws, no label is shown
        and no next frame is requested (`rescheduled` is false), so the animation stops. A
        paused machine changes nothing and requests the next frame. */
    method Animate(draws: Draws) returns (rescheduled: bool, shown: Option<string>)
      requires Valid()
      modifies this, patterns[Seconds], patterns[Minutes], patterns[Hours]
      ensures Valid()
      ensures isRunning == old(isRunning) && timeDirection == old(timeDirection)
      ensures timeScale == old(timeScale)
      ensures !isRunning ==>
        rescheduled && shown == None && unchanged(this) && Snapshot() == old(Snapshot())
      ensures isRunning ==>
        && elapsedTime == ClockAfterFrame(old(elapsedTime), timeScale, timeDirection)
        && (Snapshot(), !rescheduled)
           == old(MaintainFrom(Filtered(Snapshot(), timeScale), Units, BaseRadius(), draws, timeScale))
        && shown
           == (if rescheduled then Some(TimeFormat.ElapsedLabel(elapsedTime, timeDirection))
               else None)
      ensures timeScale >= 0.0 && PoolsOpacitiesInRange(old(Snapshot())) ==>
        PoolsOpacitiesInRange(Snapshot())
    {
      if !isRunning {
        return true, None;
      }
      AdvanceClock();
      var threw := Tick(draws);
      rescheduled := !threw;
      shown := if threw then None else Some(TimeFormat.ElapsedLabel(elapsedTime, timeDirection));
    }
  }
}
