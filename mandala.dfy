/** The countdown mandala (script.js:258-563): a timer that counts a set time down to zero
    at an adjustable speed, shows it as `HH:MM:SS`, and throws a burst of particles from
    the centre whenever the hours, minutes or seconds shown change. The clock (`Date.now()`),
    the random numbers and `Math.cos`/`Math.sin` are parameters; drawing is left out. */
module Mandala {
  import opened Wrappers
  import opened Patterns
  import opened Particles
  import TimeFormat

  // ---------------------------------------------------------------------------
  // The countdown (script.js:491-507, 543-555)
  // ---------------------------------------------------------------------------

  /** The timer part of the visualizer: the seconds left, the clock reading of the last
      frame (`null` before the first) and whether it is playing. */
  datatype Timer = Timer(remaining: real, lastTime: Option<real>, playing: bool)

  /** `lastTime` as a condition: `null` and `0` are false. */
  predicate Truthy(t: Option<real>)
  {
    t.Some? && t.value != 0.0
  }

  /** `lastTime` as a number: `null` counts as `0`. */
  function Numeric(t: Option<real>): real
  {
    if t.Some? then t.value else 0.0
  }

  /** The seconds of countdown between two clock readings in milliseconds, at the given
      speed. */
  function Delta(now: real, last: real, timeScale: real): real
  {
    (now - last) / 1000.0 * timeScale
  }

  /** `Math.max(0, r - delta)`. */
  function Countdown(r: real, delta: real): (next: real)
    ensures next >= 0.0
    ensures next == 0.0 <==> r <= delta
    ensures next != 0.0 ==> next == r - delta
    ensures delta >= 0.0 && r >= 0.0 ==> next <= r
  {
    if r - delta > 0.0 then r - delta else 0.0
  }

  /** The timer part of `updateTimer`: while playing with time left, it counts down by the
      clock time since the last reading and stops playing when it reaches zero. */
  function TimerUpdate(t: Timer, now: real, timeScale: real): Timer
  {
    if t.playing && t.remaining > 0.0 then
      var r := Countdown(t.remaining, Delta(now, Numeric(t.lastTime), timeScale));
      Timer(r, Some(now), r != 0.0)
    else t
  }

  /** `updateTimer` on a running timer leaves a time that is not negative, notes the clock,
      and keeps playing exactly while time is left; on any other timer it changes nothing. */
  lemma TimerUpdateClamps(t: Timer, now: real, timeScale: real)
    ensures var next := TimerUpdate(t, now, timeScale);
      && (Rescheduled(t) ==>
            && next.remaining >= 0.0 && next.lastTime == Some(now)
            && (next.playing <==> next.remaining > 0.0)
            && (next.remaining == 0.0 <==>
                  t.remaining <= Delta(now, Numeric(t.lastTime), timeScale)))
      && (!Rescheduled(t) ==> next == t)
  {
  }

  /** The timer part of `animate` before it draws: a playing timer notes the clock and
      counts down by the time since the last frame (nothing on the first); one with no time
      left stops playing instead. */
  function FrameStart(t: Timer, now: real, timeScale: real): Timer
  {
    if !t.playing then t
    else
      var delta := Delta(now, if Truthy(t.lastTime) then t.lastTime.value else now, timeScale);
      if t.remaining > 0.0 then Timer(Countdown(t.remaining, delta), Some(now), true)
      else Timer(t.remaining, Some(now), false)
  }

  /** Whether `animate` draws the frame and requests the next one. */
  predicate Rescheduled(t: Timer)
  {
    t.playing && t.remaining > 0.0
  }

  /** The timer after one `animate` call: the frame start, then, for a frame that is drawn,
      `updateTimer` at the second clock reading `later`. */
  function FrameTimer(t: Timer, now: real, later: real, timeScale: real): Timer
  {
    if Rescheduled(t) then TimerUpdate(FrameStart(t, now, timeScale), later, timeScale)
    else FrameStart(t, now, timeScale)
  }

  /** The invariant of the countdown: the time left is never negative, except for a timer set
      to a negative total that has not been started. */
  predicate TimerOk(t: Timer, totalTime: real)
  {
    t.remaining >= 0.0 || t.remaining == totalTime
  }

  /** A frame keeps the invariant, and the time it leaves is the old time left or not
      negative. */
  lemma FrameKeepsTimerOk(t: Timer, totalTime: real, now: real, later: real, timeScale: real)
    requires TimerOk(t, totalTime)
    ensures var next := FrameTimer(t, now, later, timeScale);
      && TimerOk(next, totalTime)
      && (next.remaining == t.remaining || next.remaining >= 0.0)
  {
  }

  /** With a clock that does not go back and a speed that is not negative, a frame never
      adds time. */
  lemma FrameNeverAddsTime(t: Timer, now: real, later: real, timeScale: real)
    requires t.lastTime.Some? ==> t.lastTime.value <= now
    requires now <= later && timeScale >= 0.0
    ensures FrameTimer(t, now, later, timeScale).remaining <= t.remaining
  {
    if Rescheduled(t) {
      var s := FrameStart(t, now, timeScale);
      var last := if Truthy(t.lastTime) then t.lastTime.value else now;
      assert Delta(now, last, timeScale) >= 0.0 by {
        NonNegativeDelta(now, last, timeScale);
      }
      if s.playing && s.remaining > 0.0 {
        NonNegativeDelta(later, Numeric(s.lastTime), timeScale);
      }
    }
  }

  lemma NonNegativeDelta(now: real, last: real, timeScale: real)
    requires last <= now && timeScale >= 0.0
    ensures Delta(now, last, timeScale) >= 0.0
  {
    assert (now - last) / 1000.0 >= 0.0;
  }

  /** A playing timer stops at zero: a frame that leaves no time left is either the one that
      stopped it, or it is followed by one that does, which draws nothing and requests no
      further frame. */
  lemma StopsAtZero(t: Timer, now: real, later: real, now2: real, later2: real,
                    timeScale: real)
    requires t.playing
    requires FrameTimer(t, now, later, timeScale).remaining == 0.0
    ensures var next := FrameTimer(t, now, later, timeScale);
      !next.playing
      || (!Rescheduled(next) && !FrameTimer(next, now2, later2, timeScale).playing)
  {
  }

  // ---------------------------------------------------------------------------
  // Bursts on a change of the shown time (script.js:411-431)
  // ---------------------------------------------------------------------------

  /** The units whose shown value changed, in the order the mandala checks them. */
  function Transitions(last: TimeFormat.Hms, now: TimeFormat.Hms): seq<Category>
  {
    (if now.hours != last.hours then [Hours] else [])
      + (if now.minutes != last.minutes then [Minutes] else [])
      + (if now.seconds != last.seconds then [Seconds] else [])
  }

  /** A unit is among the transitions exactly when its value changed; a time that was
      already shown has none. */
  lemma TransitionsIff(last: TimeFormat.Hms, now: TimeFormat.Hms)
    ensures Hours in Transitions(last, now) <==> now.hours != last.hours
    ensures Minutes in Transitions(last, now) <==> now.minutes != last.minutes
    ensures Seconds in Transitions(last, now) <==> now.seconds != last.seconds
    ensures Transitions(now, now) == []
  {
  }

  /** The radius of a unit's burst: the hours at the base radius, the minutes at three
      quarters, the seconds at half. */
  function BurstRadius(c: Category, baseRadius: real): (r: real)
    ensures baseRadius > 0.0 ==> 0.0 < r <= baseRadius
  {
    match c
    case Hours => baseRadius
    case Minutes => baseRadius * 0.75
    case Seconds => baseRadius * 0.5
  }

  /** The particles a drawn frame appends: one burst per changed unit, hours first. */
  function FrameBursts(last: TimeFormat.Hms, now: TimeFormat.Hms, center: real,
                       baseRadius: real, draws: Category -> nat -> BurstDraw, trig: Trig)
    : seq<Particle>
  {
    (if now.hours != last.hours
     then Burst(center, center, BurstRadius(Hours, baseRadius), Hours, draws(Hours), trig)
     else [])
    + (if now.minutes != last.minutes
       then Burst(center, center, BurstRadius(Minutes, baseRadius), Minutes, draws(Minutes), trig)
       else [])
    + (if now.seconds != last.seconds
       then Burst(center, center, BurstRadius(Seconds, baseRadius), Seconds, draws(Seconds), trig)
       else [])
  }

  /** A frame appends twenty particles for every unit that changed, each with full life and
      the colour set of a unit that changed; the `k`-th block of twenty belongs to the `k`-th
      changed unit, hours first. */
  lemma FrameBurstsFollowTransitions(last: TimeFormat.Hms, now: TimeFormat.Hms, center: real,
                                     baseRadius: real, draws: Category -> nat -> BurstDraw,
                                     trig: Trig)
    ensures var b := FrameBursts(last, now, center, baseRadius, draws, trig);
      && |b| == 20 * |Transitions(last, now)|
      && (forall i :: 0 <= i < |b| ==> b[i].life == 1.0 && b[i].color in Transitions(last, now))
      && (forall k, i :: 0 <= k < |Transitions(last, now)| && 20 * k <= i < 20 * (k + 1) ==>
            b[i].color == Transitions(last, now)[k])
  {
    var b := FrameBursts(last, now, center, baseRadius, draws, trig);
    var t := Transitions(last, now);
    FrameBurstsBlocks(last, now, center, baseRadius, draws, trig);
    forall i | 0 <= i < |b|
      ensures b[i].life == 1.0 && b[i].color in t
    {
      var k := i / 20;
      assert 20 * k <= i < 20 * (k + 1) && k < |t|;
      assert t[k] in t;
    }
  }

  /** The blocks of a frame's bursts: twenty full-life particles per changed unit, the `k`-th
      block in the colour set of the `k`-th changed unit. */
  lemma FrameBurstsBlocks(last: TimeFormat.Hms, now: TimeFormat.Hms, center: real,
                          baseRadius: real, draws: Category -> nat -> BurstDraw, trig: Trig)
    ensures var b := FrameBursts(last, now, center, baseRadius, draws, trig);
      && |b| == 20 * |Transitions(last, now)|
      && (forall k, i :: 0 <= k < |Transitions(last, now)| && 20 * k <= i < 20 * (k + 1) ==>
            b[i].life == 1.0 && b[i].color == Transitions(last, now)[k])
  {
    var th := if now.hours != last.hours then [Hours] else [];
    var tm := if now.minutes != last.minutes then [Minutes] else [];
    var ts := if now.seconds != last.seconds then [Seconds] else [];
    var t := Transitions(last, now);
    assert t == th + tm + ts;
    var hs := if now.hours != last.hours
              then Burst(center, center, BurstRadius(Hours, baseRadius), Hours, draws(Hours), trig)
              else [];
    var ms := if now.minutes != last.minutes
              then Burst(center, center, BurstRadius(Minutes, baseRadius), Minutes, draws(Minutes), trig)
              else [];
    var ss := if now.seconds != last.seconds
              then Burst(center, center, BurstRadius(Seconds, baseRadius), Seconds, draws(Seconds), trig)
              else [];
    var b := hs + ms + ss;
    assert b == FrameBursts(last, now, center, baseRadius, draws, trig);
    BurstOf(center, center, BurstRadius(Hours, baseRadius), Hours, draws(Hours), trig);
    BurstOf(center, center, BurstRadius(Minutes, baseRadius), Minutes, draws(Minutes), trig);
    BurstOf(center, center, BurstRadius(Seconds, baseRadius), Seconds, draws(Seconds), trig);
    assert |hs| == 20 * |th| && |ms| == 20 * |tm| && |ss| == 20 * |ts|;
    forall k, i | 0 <= k < |t| && 20 * k <= i < 20 * (k + 1)
      ensures b[i].life == 1.0 && b[i].color == t[k]
    {
      if k < |th| {
        assert t[k] == Hours && b[i] == hs[i];
      } else if k < |th| + |tm| {
        assert t[k] == Minutes && b[i] == ms[i - |hs|];
      } else {
        assert t[k] == Seconds && b[i] == ss[i - |hs| - |ms|];
      }
    }
  }

  /** All particle lives lie in (0, 1]. */
  predicate LivesOk(ps: seq<Particle>)
  {
    forall i :: 0 <= i < |ps| ==> 0.0 < ps[i].life <= 1.0
  }

  /** A drawn frame keeps every life in (0, 1]. */
  lemma FrameKeepsLivesOk(ps: seq<Particle>, last: TimeFormat.Hms, now: TimeFormat.Hms,
                          center: real, baseRadius: real, draws: Category -> nat -> BurstDraw,
                          trig: Trig)
    requires LivesOk(ps)
    ensures LivesOk(Surviving(ps + FrameBursts(last, now, center, baseRadius, draws, trig)))
  {
    var all := ps + FrameBursts(last, now, center, baseRadius, draws, trig);
    FrameBurstsFollowTransitions(last, now, center, baseRadius, draws, trig);
    assert forall i :: 0 <= i < |all| ==> all[i].life <= 1.0;
    SurvivingLives(all, 1.0);
  }

  // ---------------------------------------------------------------------------
  // Setting the timer (script.js:475-480)
  // ---------------------------------------------------------------------------

  /** The total the three inputs give, each read by `parseInt(…) || 0`. */
  function TimerTotal(hours: string, minutes: string, seconds: string): int
  {
    TimeFormat.TotalSeconds(TimeFormat.ParseIntOrZero(hours), TimeFormat.ParseIntOrZero(minutes),
                            TimeFormat.ParseIntOrZero(seconds))
  }

  /** Typing `h`, `m` and `s` (minutes and seconds below 60) sets a timer of
      `h * 3600 + m * 60 + s` seconds, whose split gives back `h`, `m` and `s`. */
  lemma SetTimerRoundTrip(h: nat, m: nat, s: nat)
    requires m < 60 && s < 60
    ensures var total := TimerTotal(TimeFormat.NatToString(h), TimeFormat.NatToString(m),
                                    TimeFormat.NatToString(s));
      && total == TimeFormat.TotalSeconds(h, m, s)
      && TimeFormat.ClockFields(total as real) == TimeFormat.Hms(h, m, s)
  {
    TimeFormat.ParseIntOfNat(h);
    TimeFormat.ParseIntOfNat(m);
    TimeFormat.ParseIntOfNat(s);
    TimeFormat.ClockFieldsOfTotal(h, m, s);
  }

  /** For fewer than 100 hours, the text shown for a timer set to `h`, `m` and `s` reads them
      back as two digits each. */
  lemma SetTimerShowsInputs(h: nat, m: nat, s: nat)
    requires h < 100 && m < 60 && s < 60
    ensures var text := TimeFormat.ClockLabel(TimeFormat.TotalSeconds(h, m, s) as real);
      && |text| == 8
      && TimeFormat.AllDigits(text[0..2]) && TimeFormat.DigitsValue(text[0..2]) == h
      && TimeFormat.AllDigits(text[3..5]) && TimeFormat.DigitsValue(text[3..5]) == m
      && TimeFormat.AllDigits(text[6..8]) && TimeFormat.DigitsValue(text[6..8]) == s
  {
    TimeFormat.ClockFieldsOfTotal(h, m, s);
    TimeFormat.ClockLabelFields(TimeFormat.TotalSeconds(h, m, s) as real);
  }

  /** Inputs without a digit count as zero. */
  lemma NonNumericInputIsZero(hours: string, minutes: string, seconds: string)
    requires forall i :: 0 <= i < |hours| ==> !TimeFormat.IsDigit(hours[i])
    requires forall i :: 0 <= i < |minutes| ==> !TimeFormat.IsDigit(minutes[i])
    requires forall i :: 0 <= i < |seconds| ==> !TimeFormat.IsDigit(seconds[i])
    ensures TimerTotal(hours, minutes, seconds) == 0
  {
  }

  // ---------------------------------------------------------------------------
  // The play/pause button (script.js:519-527)
  // ---------------------------------------------------------------------------

  /** A click on play/pause as written: it flips `isPlaying` and starts the animation only
      when playing and no frame was ever noted; the result says whether `animate` is called. */
  function Click(t: Timer, now: real): (Timer, bool)
  {
    var flipped := t.(playing := !t.playing);
    if flipped.playing && !Truthy(flipped.lastTime) then (flipped.(lastTime := Some(now)), true)
    else (flipped, false)
  }

  /** A click as evidently intended: every click that resumes playback notes the clock and
      starts the animation again. */
  function ClickResuming(t: Timer, now: real): (Timer, bool)
  {
    var flipped := t.(playing := !t.playing);
    if flipped.playing then (flipped.(lastTime := Some(now)), true) else (flipped, false)
  }

  /** Pausing a running countdown and pressing play again leaves it frozen: the pending frame
      finds it paused and requests no next frame, and the second click does not call `animate`
      because a frame was already noted. The timer says playing, but no frame will run. */
  lemma PauseThenPlayFreezes()
    ensures var running := Timer(10.0, Some(1000.0), true);
      var paused := Click(running, 1100.0);
      var afterFrame := FrameTimer(paused.0, 1116.0, 1116.0, 1.0);
      var resumed := Click(afterFrame, 2000.0);
      && !paused.1
      && !Rescheduled(paused.0) && afterFrame == paused.0
      && resumed.0.playing && resumed.0.remaining == 10.0 && !resumed.1
  {
  }

  /** The freeze for every running timer that has noted a frame: pausing starts no frame,
      the pending frame changes nothing and requests no next one, and pressing play again
      says playing with the same time left and the same noted frame but does not call
      `animate`, so no frame follows. */
  lemma PauseThenPlayNeverRestarts(t: Timer, pause: real, frameNow: real, later: real,
                                   play: real, timeScale: real)
    requires t.playing && Truthy(t.lastTime)
    ensures var paused := Click(t, pause);
      var afterFrame := FrameTimer(paused.0, frameNow, later, timeScale);
      var resumed := Click(afterFrame, play);
      && !paused.1 && !paused.0.playing
      && !Rescheduled(paused.0) && afterFrame == paused.0
      && resumed.0 == t && !resumed.1
  {
  }

  /** With the intended click, resuming always starts the animation, and its first frame
      counts only the time since the click, not the time spent paused. */
  lemma ResumeStartsFrame(t: Timer, now: real, frameNow: real, timeScale: real)
    requires !t.playing && now != 0.0 && t.remaining > 0.0
    ensures var (resumed, started) := ClickResuming(t, now);
      && started && Rescheduled(resumed)
      && FrameStart(resumed, frameNow, timeScale).remaining
         == Countdown(t.remaining, Delta(frameNow, now, timeScale))
  {
  }

  /** The `filter` of `updateAndDrawParticles`: each particle advanced, in order, and kept
      while its life is positive. */
  method FilterParticles(ps: seq<Particle>) returns (kept: seq<Particle>)
    ensures kept == Surviving(ps)
  {
    kept := [];
    var i := 0;
    while i < |ps|
      invariant 0 <= i <= |ps|
      invariant kept == Surviving(ps[..i])
    {
      var p := Advance(ps[i]);
      SurvivingSnoc(ps, i);
      if p.life > 0.0 {
        kept := kept + [p];
      }
      i := i + 1;
    }
    assert ps[..|ps|] == ps;
  }

  // ---------------------------------------------------------------------------
  // The visualizer
  // ---------------------------------------------------------------------------

  /** The centre of a canvas of the given width. */
  function Center(width: real): real
  {
    width / 2.0
  }

  /** The base radius of the mandala on a canvas of the given width. */
  function BaseRadius(width: real): real
  {
    width * 0.35
  }

  /** What one `animate` call is given from outside: the clock reading `animate` takes, the
      later one `updateTimer` takes, the random numbers of the bursts (by unit, then particle
      index) and the trigonometric functions. */
  datatype Frame = Frame(now: real, later: real, draws: Category -> nat -> BurstDraw, trig: Trig)

  class MandalaVisualizer {
    /** The canvas width (its height plays no part in the state). */
    const width: real
    var isPlaying: bool
    var timeScale: real
    var totalTime: real
    var remainingTime: real
    var lastTime: Option<real>
    var particles: seq<Particle>
    var lastTimeValues: TimeFormat.Hms

    /** The timer fields as one value. */
    function Clock(): Timer
      reads this
    {
      Timer(remainingTime, lastTime, isPlaying)
    }

    ghost predicate Valid()
      reads this
    {
      TimerOk(Clock(), totalTime) && LivesOk(particles)
    }

    /** A five-minute timer, paused, drawn once: the minutes burst is thrown (the shown values
        start at zero) and the particles take their first step. */
    constructor (width: real, draws: Category -> nat -> BurstDraw, trig: Trig, now: real)
      ensures Valid()
      ensures this.width == width
      ensures Clock() == Timer(300.0, None, false)
      ensures totalTime == 300.0 && timeScale == 1.0
      ensures lastTimeValues == TimeFormat.Hms(0, 5, 0)
      ensures particles
           == Surviving(FrameBursts(TimeFormat.Hms(0, 0, 0), lastTimeValues,
                                    Center(width), BaseRadius(width), draws, trig))
    {
      this.width := width;
      isPlaying := false;
      timeScale := 1.0;
      totalTime := 300.0;
      remainingTime := 300.0;
      lastTime := None;
      particles := [];
      lastTimeValues := TimeFormat.Hms(0, 0, 0);
      new;
      TimeFormat.ClockFieldsOfTotal(0, 5, 0);
      DrawInitialState(draws, trig, now);
      ghost var bursts := FrameBursts(TimeFormat.Hms(0, 0, 0), lastTimeValues,
                                      Center(width), BaseRadius(width), draws, trig);
      assert [] + bursts == bursts;
    }

    /** `createParticles`: twenty particles appended, one per loop turn. */
    method CreateParticles(x: real, y: real, radius: real, color: Category,
                           draws: nat -> BurstDraw, trig: Trig)
      requires Valid()
      modifies this
      ensures Valid()
      ensures particles == old(particles) + Burst(x, y, radius, color, draws, trig)
      ensures Clock() == old(Clock()) && lastTimeValues == old(lastTimeValues)
      ensures timeScale == old(timeScale) && totalTime == old(totalTime)
    {
      ghost var burst := Burst(x, y, radius, color, draws, trig);
      var i := 0;
      while i < BurstSize
        invariant 0 <= i <= BurstSize
        invariant particles == old(particles) + burst[..i]
        invariant Clock() == old(Clock()) && lastTimeValues == old(lastTimeValues)
        invariant timeScale == old(timeScale) && totalTime == old(totalTime)
        invariant LivesOk(particles)
      {
        particles := particles + [NewParticle(x, y, radius, color, i, draws(i), trig)];
        assert burst[..i + 1] == burst[..i] + [burst[i]];
        i := i + 1;
      }
      assert burst[..BurstSize] == burst;
    }

    /** The state half of `updateAndDrawParticles`: every particle advanced once, the living
        kept in order. */
    method UpdateParticles()
      requires Valid()
      modifies this
      ensures Valid()
      ensures particles == Surviving(old(particles))
      ensures Clock() == old(Clock()) && lastTimeValues == old(lastTimeValues)
      ensures timeScale == old(timeScale) && totalTime == old(totalTime)
    {
      SurvivingLives(particles, 1.0);
      particles := FilterParticles(particles);
    }

    /** The transition checks of `drawMandala`: a burst for each unit whose value, split from
        the time left, differs from the one noted last. */
    method ThrowBursts(now: TimeFormat.Hms, draws: Category -> nat -> BurstDraw, trig: Trig)
      requires Valid()
      modifies this
      ensures Valid()
      ensures particles
           == old(particles)
              + FrameBursts(lastTimeValues, now, Center(width), BaseRadius(width), draws, trig)
      ensures Clock() == old(Clock()) && lastTimeValues == old(lastTimeValues)
      ensures timeScale == old(timeScale) && totalTime == old(totalTime)
    {
      if now.hours != lastTimeValues.hours {
        CreateParticles(Center(width), Center(width), BurstRadius(Hours, BaseRadius(width)),
                        Hours, draws(Hours), trig);
      }
      if now.minutes != lastTimeValues.minutes {
        CreateParticles(Center(width), Center(width), BurstRadius(Minutes, BaseRadius(width)),
                        Minutes, draws(Minutes), trig);
      }
      if now.seconds != lastTimeValues.seconds {
        CreateParticles(Center(width), Center(width), BurstRadius(Seconds, BaseRadius(width)),
                        Seconds, draws(Seconds), trig);
      }
    }

    /** The state half of `drawMandala`: the bursts for the changed units, the shown values
        noted, then the particle step. */
    method DrawMandala(draws: Category -> nat -> BurstDraw, trig: Trig)
      requires Valid()
      modifies this
      ensures Valid()
      ensures Clock() == old(Clock())
      ensures timeScale == old(timeScale) && totalTime == old(totalTime)
      ensures lastTimeValues == TimeFormat.ClockFields(remainingTime)
      ensures particles
           == Surviving(old(particles)
                        + FrameBursts(old(lastTimeValues), lastTimeValues,
                                      Center(width), BaseRadius(width), draws, trig))
    {
      var now := TimeFormat.ClockFields(remainingTime);
      ThrowBursts(now, draws, trig);
      lastTimeValues := now;
      UpdateParticles();
    }

    /** `updateTimer`: the countdown step at clock reading `now`. The `HH:MM:SS` text it then
        shows is `TimeFormat.ClockLabel(remainingTime)`. */
    method UpdateTimer(now: real)
      requires Valid()
      modifies this
      ensures Valid()
      ensures Clock() == TimerUpdate(old(Clock()), now, timeScale)
      ensures particles == old(particles) && lastTimeValues == old(lastTimeValues)
      ensures timeScale == old(timeScale) && totalTime == old(totalTime)
    {
      if isPlaying && remainingTime > 0.0 {
        var delta := Delta(now, Numeric(lastTime), timeScale);
        lastTime := Some(now);
        remainingTime := Countdown(remainingTime, delta);
        if remainingTime == 0.0 {
          isPlaying := false;
        }
      }
    }

    /** `drawInitialState`: the mandala drawn, then `updateTimer`. */
    method DrawInitialState(draws: Category -> nat -> BurstDraw, trig: Trig, now: real)
      requires Valid()
      modifies this
      ensures Valid()
      ensures Clock() == TimerUpdate(old(Clock()), now, timeScale)
      ensures timeScale == old(timeScale) && totalTime == old(totalTime)
      ensures lastTimeValues == TimeFormat.ClockFields(old(remainingTime))
      ensures particles
           == Surviving(old(particles)
                        + FrameBursts(old(lastTimeValues), lastTimeValues,
                                      Center(width), BaseRadius(width), draws, trig))
    {
      DrawMandala(draws, trig);
      UpdateTimer(now);
    }

    /** One `animate` call. A playing visualizer with time left counts down, draws (bursts
        and particle step), runs `updateTimer` and requests the next frame;
        one with no time left stops playing; a paused one does nothing. */
    method Animate(frame: Frame) returns (rescheduled: bool)
      requires Valid()
      modifies this
      ensures Valid()
      ensures rescheduled == Rescheduled(old(Clock()))
      ensures Clock() == FrameTimer(old(Clock()), frame.now, frame.later, timeScale)
      ensures timeScale == old(timeScale) && totalTime == old(totalTime)
      ensures !rescheduled ==>
        particles == old(particles) && lastTimeValues == old(lastTimeValues)
      ensures rescheduled ==>
        var drawn := FrameStart(old(Clock()), frame.now, timeScale).remaining;
        && lastTimeValues == TimeFormat.ClockFields(drawn)
        && particles
           == Surviving(old(particles)
                        + FrameBursts(old(lastTimeValues), lastTimeValues,
                                      Center(width), BaseRadius(width), frame.draws, frame.trig))
    {
      rescheduled := false;
      if isPlaying {
        var delta := Delta(frame.now, if Truthy(lastTime) then lastTime.value else frame.now,
                           timeScale);
        lastTime := Some(frame.now);
        if remainingTime > 0.0 {
          remainingTime := Countdown(remainingTime, delta);
          DrawMandala(frame.draws, frame.trig);
          UpdateTimer(frame.later);
          rescheduled := true;
        } else {
          isPlaying := false;
        }
      }
    }

    /** The play/pause button as written: it flips `isPlaying`, and when that starts playback
        with no frame noted yet it notes the clock and calls `animate` at once. */
    method TogglePlay(now: real, frame: Frame) returns (started: bool, rescheduled: bool)
      requires Valid()
      modifies this
      ensures Valid()
      ensures started == Click(old(Clock()), now).1
      ensures !started ==> Clock() == Click(old(Clock()), now).0
      ensures !started || !rescheduled ==>
        particles == old(particles) && lastTimeValues == old(lastTimeValues)
      ensures started ==>
        var clicked := Click(old(Clock()), now).0;
        && Clock() == FrameTimer(clicked, frame.now, frame.later, timeScale)
        && rescheduled == Rescheduled(clicked)
        && (rescheduled ==>
              && lastTimeValues
                 == TimeFormat.ClockFields(FrameStart(clicked, frame.now, timeScale).remaining)
              && particles
                 == Surviving(old(particles)
                              + FrameBursts(old(lastTimeValues), lastTimeValues, Center(width),
                                            BaseRadius(width), frame.draws, frame.trig)))
      ensures timeScale == old(timeScale) && totalTime == old(totalTime)
    {
      isPlaying := !isPlaying;
      started, rescheduled := false, false;
      if isPlaying && !Truthy(lastTime) {
        lastTime := Some(now);
        started := true;
        rescheduled := Animate(frame);
      }
    }

    /** The play/pause button as evidently intended: every click that resumes playback notes
        the clock and calls `animate`. */
    method TogglePlayResuming(now: real, frame: Frame) returns (started: bool, rescheduled: bool)
      requires Valid()
      modifies this
      ensures Valid()
      ensures started == ClickResuming(old(Clock()), now).1
      ensures !started ==> Clock() == ClickResuming(old(Clock()), now).0
      ensures !started || !rescheduled ==>
        particles == old(particles) && lastTimeValues == old(lastTimeValues)
      ensures started ==>
        var clicked := ClickResuming(old(Clock()), now).0;
        && Clock() == FrameTimer(clicked, frame.now, frame.later, timeScale)
        && rescheduled == Rescheduled(clicked)
        && (rescheduled ==>
              && lastTimeValues
                 == TimeFormat.ClockFields(FrameStart(clicked, frame.now, timeScale).remaining)
              && particles
                 == Surviving(old(particles)
                              + FrameBursts(old(lastTimeValues), lastTimeValues, Center(width),
                                            BaseRadius(width), frame.draws, frame.trig)))
      ensures timeScale == old(timeScale) && totalTime == old(totalTime)
    {
      isPlaying := !isPlaying;
      started, rescheduled := false, false;
      if isPlaying {
        lastTime := Some(now);
        started := true;
        rescheduled := Animate(frame);
      }
    }

    /** The reset button: the full time back, no frame noted, paused, drawn again. */
    method Reset(draws: Category -> nat -> BurstDraw, trig: Trig, now: real)
      requires Valid()
      modifies this
      ensures Valid()
      ensures Clock() == Timer(totalTime, None, false)
      ensures totalTime == old(totalTime) && timeScale == old(timeScale)
      ensures lastTimeValues == TimeFormat.ClockFields(totalTime)
      ensures particles
           == Surviving(old(particles)
                        + FrameBursts(old(lastTimeValues), lastTimeValues,
                                      Center(width), BaseRadius(width), draws, trig))
    {
      remainingTime := totalTime;
      lastTime := None;
      isPlaying := false;
      DrawInitialState(draws, trig, now);
    }

    /** The set-timer button: the total read from the three inputs becomes the full and the
        remaining time, paused with no frame noted, drawn again. */
    method SetTimer(hours: string, minutes: string, seconds: string,
                    draws: Category -> nat -> BurstDraw, trig: Trig, now: real)
      requires Valid()
      modifies this
      ensures Valid()
      ensures totalTime == TimerTotal(hours, minutes, seconds) as real
      ensures Clock() == Timer(totalTime, None, false)
      ensures timeScale == old(timeScale)
      ensures lastTimeValues == TimeFormat.ClockFields(totalTime)
      ensures particles
           == Surviving(old(particles)
                        + FrameBursts(old(lastTimeValues), lastTimeValues,
                                      Center(width), BaseRadius(width), draws, trig))
    {
      var total := TimerTotal(hours, minutes, seconds);
      SetTotal(total, draws, trig, now);
    }

    /** What the set-timer button does with the total it read. */
    method SetTotal(total: int, draws: Category -> nat -> BurstDraw, trig: Trig, now: real)
      requires Valid()
      modifies this
      ensures Valid()
      ensures totalTime == total as real
      ensures Clock() == Timer(totalTime, None, false)
      ensures timeScale == old(timeScale)
      ensures lastTimeValues == TimeFormat.ClockFields(totalTime)
      ensures particles
           == Surviving(old(particles)
                        + FrameBursts(old(lastTimeValues), lastTimeValues,
                                      Center(width), BaseRadius(width), draws, trig))
    {
      totalTime := total as real;
      remainingTime := totalTime;
      lastTime := None;
      isPlaying := false;
      DrawInitialState(draws, trig, now);
    }

    /** The speed slider, given the value `parseFloat` read from it. */
    method SetTimeScale(value: real)
      modifies this
      ensures timeScale == value
      ensures Clock() == old(Clock()) && totalTime == old(totalTime)
      ensures particles == old(particles) && lastTimeValues == old(lastTimeValues)
    {
      timeScale := value;
    }
  }
}
