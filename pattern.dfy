/** One orbiting shape of the pattern visualizer (script.js:1-55) and the pure
    specifications of what a frame does to a list of them: the per-category
    configuration, a pattern's two-state lifecycle (orbiting, then decaying until it is
    filtered out), the survivors of a frame's filter and the decay pass of
    `maintainPatterns`. */
module Patterns {
  import opened Wrappers

  /** The three kinds of pattern, keyed as in PATTERN_TYPES and visited in this order. */
  datatype Category = Seconds | Minutes | Hours

  /** The population `maintainPatterns` tops each category up to (`config.count`). */
  function Count(c: Category): nat
  {
    match c
    case Seconds => 60
    case Minutes => 24
    case Hours => 12
  }

  /** The orbital speed (`config.speed`). */
  function Speed(c: Category): real
  {
    match c
    case Seconds => 1.0
    case Minutes => 0.5
    case Hours => 0.25
  }

  /** The orbit radius of a category, as a fraction of the base radius (1, 0.7 or 0.4). */
  function OrbitRadius(c: Category, baseRadius: real): (r: real)
    ensures baseRadius > 0.0 ==> 0.0 < r <= baseRadius
  {
    match c
    case Seconds => baseRadius
    case Minutes => baseRadius * 0.7
    case Hours => baseRadius * 0.4
  }

  /** `Math.PI`. */
  const Pi: real := 3.141592653589793

  /** The numeric state of one pattern. */
  datatype PatternState = PatternState(
    category: Category,
    radius: real,
    angle: real,
    scale: real,
    opacity: real,
    rotation: real,
    decaying: bool)

  /** The state the constructor gives a pattern. */
  function Fresh(c: Category, radius: real, angle: real): PatternState
  {
    PatternState(c, radius, angle, 1.0, 1.0, 0.0, false)
  }

  /** One `update(deltaTime, timeScale)`: the new state and whether the pattern is kept.
      A decaying pattern fades and grows and is kept while its opacity is positive; an
      orbiting one turns by `speed * timeScale` and moves along its orbit by the same
      arc length, and is always kept. */
  function Step(s: PatternState, timeScale: real): (PatternState, bool)
    requires s.radius != 0.0
  {
    if s.decaying then
      var opacity := s.opacity - 0.02 * timeScale;
      (s.(opacity := opacity, scale := s.scale + 0.01 * timeScale), opacity > 0.0)
    else
      var turn := Speed(s.category) * timeScale;
      (s.(rotation := s.rotation + turn, angle := s.angle + turn / s.radius), true)
  }

  class Pattern {
    const category: Category
    const radius: real
    var angle: real
    var scale: real
    var opacity: real
    var rotation: real
    var decaying: bool

    function State(): PatternState
      reads this
    {
      PatternState(category, radius, angle, scale, opacity, rotation, decaying)
    }

    /** A new pattern is fully opaque, unscaled, unrotated and not decaying. */
    constructor (category: Category, radius: real, angle: real)
      ensures State() == Fresh(category, radius, angle)
      ensures scale == 1.0 && opacity == 1.0 && rotation == 0.0 && !decaying
    {
      this.category := category;
      this.radius := radius;
      this.angle := angle;
      this.scale := 1.0;
      this.opacity := 1.0;
      this.rotation := 0.0;
      this.decaying := false;
    }

    /** One frame's update: exactly `Step` on the pattern's state (a decaying pattern fades
        and grows, an orbiting one turns), reporting whether it is still alive. */
    method Update(timeScale: real) returns (alive: bool)
      requires radius != 0.0
      modifies this
      ensures (State(), alive) == Step(old(State()), timeScale)
    {
      if decaying {
        opacity := opacity - 0.02 * timeScale;
        scale := scale + 0.01 * timeScale;
        return opacity > 0.0;
      }
      rotation := rotation + Speed(category) * timeScale;
      angle := angle + (Speed(category) * timeScale) / radius;
      return true;
    }

    /** Switches the pattern to its decaying state and changes nothing else; a second
        call therefore leaves the state as the first one did. */
    method StartDecay()
      modifies this
      ensures State() == old(State()).(decaying := true)
    {
      decaying := true;
    }
  }

  /** The states of a list of patterns, in order. */
  function States(ps: seq<Pattern>): (r: seq<PatternState>)
    reads ps
    ensures |r| == |ps| && forall i :: 0 <= i < |ps| ==> r[i] == ps[i].State()
  {
    seq(|ps|, i requires 0 <= i < |ps| reads ps => ps[i].State())
  }

  lemma StatesConcat(a: seq<Pattern>, b: seq<Pattern>)
    ensures States(a + b) == States(a) + States(b)
  {
  }

  /** No pattern object appears twice. */
  predicate Distinct(ps: seq<Pattern>)
  {
    forall i, j :: 0 <= i < j < |ps| ==> ps[i] != ps[j]
  }

  // ---------------------------------------------------------------------------
  // A pattern's lifetime
  // ---------------------------------------------------------------------------

  /** The state after `n` updates (whatever they reported); the category, the radius and
      the lifecycle state never change. */
  function Updates(s: PatternState, timeScale: real, n: nat): (u: PatternState)
    requires s.radius != 0.0
    ensures u.radius == s.radius && u.category == s.category && u.decaying == s.decaying
  {
    if n == 0 then s else Step(Updates(s, timeScale, n - 1), timeScale).0
  }

  /** An orbiting pattern keeps its opacity and scale and turns at a constant rate: after
      `n` updates its rotation and angle have grown by `n` steps. */
  lemma {:induction false} OrbitingUpdates(s: PatternState, timeScale: real, n: nat)
    requires s.radius != 0.0 && !s.decaying
    ensures OrbitedBy(s, timeScale, n)
  {
    if n == 0 {
      OrbitingStart(s, timeScale);
    } else {
      OrbitingUpdates(s, timeScale, n - 1);
      OrbitingStep(s, timeScale, n);
    }
  }

  ghost predicate OrbitedBy(s: PatternState, timeScale: real, n: nat)
    requires s.radius != 0.0
  {
    var u := Updates(s, timeScale, n);
    && u.opacity == s.opacity && u.scale == s.scale
    && u.rotation == s.rotation + n as real * (Speed(s.category) * timeScale)
    && u.angle == s.angle + n as real * (Speed(s.category) * timeScale / s.radius)
  }

  lemma OrbitingStart(s: PatternState, timeScale: real)
    requires s.radius != 0.0
    ensures OrbitedBy(s, timeScale, 0)
  {
  }

  lemma OrbitingStep(s: PatternState, timeScale: real, n: nat)
    requires s.radius != 0.0 && !s.decaying && n > 0 && OrbitedBy(s, timeScale, n - 1)
    ensures OrbitedBy(s, timeScale, n)
  {
  }

  /** A decaying pattern stays put: after `n` updates it has faded by `n` steps of
      `0.02 * timeScale` and grown by `n` steps of `0.01 * timeScale`. */
  lemma {:induction false} DecayingUpdates(s: PatternState, timeScale: real, n: nat)
    requires s.radius != 0.0 && s.decaying
    ensures Updates(s, timeScale, n)
      == s.(opacity := s.opacity - n as real * (0.02 * timeScale),
            scale := s.scale + n as real * (0.01 * timeScale))
  {
    if n > 0 {
      DecayingUpdates(s, timeScale, n - 1);
    }
  }

  /** A decaying pattern is reported alive by its `(n+1)`-th update exactly when its
      opacity after `n + 1` fading steps is still positive, so the filter drops it in the
      first frame its opacity reaches zero or below. */
  lemma DecayingSurvivesIff(s: PatternState, timeScale: real, n: nat)
    requires s.radius != 0.0 && s.decaying
    ensures Step(Updates(s, timeScale, n), timeScale).1
      <==> s.opacity - (n + 1) as real * (0.02 * timeScale) > 0.0
  {
    DecayingUpdates(s, timeScale, n);
  }

  /** At time scale 1 a pattern that starts decaying from full opacity is kept by its
      first 49 updates and dropped by the 50th. */
  lemma FullFadeTakesFiftyFrames(s: PatternState, n: nat)
    requires s.radius != 0.0 && s.decaying && s.opacity == 1.0
    ensures Step(Updates(s, 1.0, n), 1.0).1 <==> n < 49
  {
    DecayingSurvivesIff(s, 1.0, n);
  }

  // ---------------------------------------------------------------------------
  // A frame's filter over one category (script.js:182-185)
  // ---------------------------------------------------------------------------

  predicate NonZeroRadii(ss: seq<PatternState>)
  {
    forall i :: 0 <= i < |ss| ==> ss[i].radius != 0.0
  }

  /** `patterns.filter(p => p.update(deltaTime, timeScale))`: every pattern updated once,
      in order, keeping those whose update reported true. */
  function Survivors(ss: seq<PatternState>, timeScale: real): (r: seq<PatternState>)
    requires NonZeroRadii(ss)
    ensures |r| <= |ss|
    ensures NonZeroRadii(r)
    ensures forall i :: 0 <= i < |r| ==> !r[i].decaying || r[i].opacity > 0.0
  {
    if ss == [] then []
    else
      var last := Step(ss[|ss| - 1], timeScale);
      Survivors(ss[..|ss| - 1], timeScale) + (if last.1 then [last.0] else [])
  }

  /** Filtering one more pattern appends its advanced state exactly when it survives. */
  lemma SurvivorsSnoc(ss: seq<PatternState>, i: nat, timeScale: real)
    requires NonZeroRadii(ss) && i < |ss|
    ensures var last := Step(ss[i], timeScale);
      Survivors(ss[..i + 1], timeScale)
        == Survivors(ss[..i], timeScale) + (if last.1 then [last.0] else [])
  {
    assert ss[..i + 1][..i] == ss[..i];
  }

  /** While nothing decays the filter removes nothing: every pattern survives,
      advanced by one update, in its place. */
  lemma {:induction false} OrbitingAllSurvive(ss: seq<PatternState>, timeScale: real)
    requires NonZeroRadii(ss)
    requires forall i :: 0 <= i < |ss| ==> !ss[i].decaying
    ensures |Survivors(ss, timeScale)| == |ss|
    ensures forall i :: 0 <= i < |ss| ==> Survivors(ss, timeScale)[i] == Step(ss[i], timeScale).0
  {
    if ss != [] {
      OrbitingAllSurvive(ss[..|ss| - 1], timeScale);
    }
  }

  /** Every opacity lies in [0, 1]. */
  predicate OpacitiesInRange(ss: seq<PatternState>)
  {
    forall i :: 0 <= i < |ss| ==> 0.0 <= ss[i].opacity <= 1.0
  }

  /** With a non-negative time scale, opacities in [0, 1] stay in [0, 1]: a surviving
      pattern never becomes more opaque, and a decaying survivor is strictly visible. */
  lemma {:induction false} SurvivorsOpacityInRange(ss: seq<PatternState>, timeScale: real)
    requires NonZeroRadii(ss) && timeScale >= 0.0
    requires OpacitiesInRange(ss)
    ensures OpacitiesInRange(Survivors(ss, timeScale))
  {
    if ss != [] {
      SurvivorsOpacityInRange(ss[..|ss| - 1], timeScale);
    }
  }

  // ---------------------------------------------------------------------------
  // The decay pass of maintainPatterns over one category (script.js:220-237)
  // ---------------------------------------------------------------------------

  /** Whether the decay test at script.js:222-223 fires for a pattern, given the random
      number drawn for it. */
  predicate Rolls(s: PatternState, draw: real, timeScale: real)
  {
    !s.decaying && draw < 0.01 * timeScale
  }

  /** The states once the decay pass has visited the first `limit` patterns: each
      visited pattern whose test fired is decaying, nothing else changed.  `draws(i)` is
      the random number drawn for the pattern at index `i`. */
  function MarkDecay(ss: seq<PatternState>, draws: nat -> real, timeScale: real, limit: nat)
    : seq<PatternState>
  {
    seq(|ss|, i requires 0 <= i < |ss| =>
      if i < limit && Rolls(ss[i], draws(i), timeScale) then ss[i].(decaying := true) else ss[i])
  }

  /** The index of the first pattern from `from` on whose decay test fires. */
  function FirstRoll(ss: seq<PatternState>, draws: nat -> real, timeScale: real, from: nat)
    : (r: Option<nat>)
    requires from <= |ss|
    ensures r.Some? ==> from <= r.value < |ss| && Rolls(ss[r.value], draws(r.value), timeScale)
    ensures r.Some? ==> forall j :: from <= j < r.value ==> !Rolls(ss[j], draws(j), timeScale)
    ensures r.None? ==> forall j :: from <= j < |ss| ==> !Rolls(ss[j], draws(j), timeScale)
    decreases |ss| - from
  {
    if from == |ss| then None
    else if Rolls(ss[from], draws(from), timeScale) then Some(from)
    else FirstRoll(ss, draws, timeScale, from + 1)
  }

  /** The decay pass of one category as written: the states afterwards, and whether it
      ended in an exception.  For hours every pattern whose test fires starts decaying.
      For seconds and minutes the first pattern whose test fires starts decaying and
      then the successor spawn at script.js:232 reads `baseRadius`, a constant whose
      scope ended at script.js:218, which throws a ReferenceError that ends the pass. */
  function DecayPass(c: Category, ss: seq<PatternState>, draws: nat -> real, timeScale: real)
    : (r: (seq<PatternState>, bool))
    ensures |r.0| == |ss|
    ensures r.1 ==> c != Hours
  {
    if c == Hours then (MarkDecay(ss, draws, timeScale, |ss|), false)
    else
      match FirstRoll(ss, draws, timeScale, 0)
      case None => (MarkDecay(ss, draws, timeScale, |ss|), false)
      case Some(k) => (MarkDecay(ss, draws, timeScale, k + 1), true)
  }

  /** A seconds or minutes pass that throws has changed exactly one pattern, the first
      whose test fired, and only by making it decay. */
  lemma ThrowingPassMarksFirstRoll(c: Category, ss: seq<PatternState>, draws: nat -> real,
                                   timeScale: real)
    requires DecayPass(c, ss, draws, timeScale).1
    ensures exists k :: && 0 <= k < |ss| && Rolls(ss[k], draws(k), timeScale)
                        && (forall j :: 0 <= j < k ==> !Rolls(ss[j], draws(j), timeScale))
                        && DecayPass(c, ss, draws, timeScale).0 == ss[k := ss[k].(decaying := true)]
  {
    var k := FirstRoll(ss, draws, timeScale, 0).value;
    var r := DecayPass(c, ss, draws, timeScale).0;
    assert r == ss[k := ss[k].(decaying := true)] by {
      assert forall i :: 0 <= i < |ss| ==> r[i] == ss[k := ss[k].(decaying := true)][i];
    }
  }

  /** A seconds or minutes pass that does not throw has changed nothing. */
  lemma QuietPassChangesNothing(c: Category, ss: seq<PatternState>, draws: nat -> real,
                                timeScale: real)
    requires c != Hours && !DecayPass(c, ss, draws, timeScale).1
    ensures DecayPass(c, ss, draws, timeScale).0 == ss
  {
    var r := DecayPass(c, ss, draws, timeScale).0;
    assert forall i :: 0 <= i < |ss| ==> r[i] == ss[i];
  }

  /** The pass only ever switches patterns to decaying: position, size, opacity and
      rotation are untouched and no pattern stops decaying. */
  lemma DecayPassOnlyStartsDecay(c: Category, ss: seq<PatternState>, draws: nat -> real,
                                 timeScale: real, i: nat)
    requires i < |ss|
    ensures var r := DecayPass(c, ss, draws, timeScale).0;
      r[i] == ss[i] || (!ss[i].decaying && r[i] == ss[i].(decaying := true))
  {
  }
}
