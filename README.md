# Clock-Mandala: a verified model of the clock page's state

The clock page (`script.js`) runs two animations side by side.

- The **time pattern machine** keeps three pools of orbiting shapes, one per clock unit
  (seconds, minutes, hours). Every running frame it advances a simulated clock by 16 ms
  (scaled and signed), updates every shape and drops the faded ones, then visits the pools
  in turn: each is topped up by at most one fresh shape and its shapes may start decaying
  at random. As written, the first seconds or minutes shape that starts decaying throws a
  `ReferenceError`: the pools after it are not visited, no label is shown and no next frame
  is requested, so the animation stops. A frame without such a throw shows the elapsed time
  as `T±Dd Hh Mm Ss`. Reset appends another ring of shapes to each pool.
- The **mandala visualizer** is a countdown timer. It counts a set time down to zero at an
  adjustable speed, shows it as `HH:MM:SS`, and throws a burst of twenty particles from the
  centre whenever the hours, minutes or seconds shown change. The particles fade and ease
  towards their targets until their life runs out.

The model keeps the source's form:

- `Pattern`, `TimePatternMachine` and `MandalaVisualizer` are classes whose methods update
  their fields. The pattern pools are a `map` of sequences of `Pattern` objects, updated in
  place. Particles are plain records that nothing else refers to, so they are values in a
  `seq` field.
- Every method is proved against a pure specification function of the old state (`Step`,
  `Survivors`, `MaintainFrom`, `Filtered`, `Ring`, `TimerUpdate`, `FrameTimer`, `FrameBursts`,
  `Surviving`). Lemmas state what the page promises about those functions.
- The label arithmetic (`Math.floor`, JavaScript `%`, `padStart`, `parseInt(…) || 0`) is
  pure functions over exact reals and integers.

Outside inputs are parameters:

- `Date.now()` readings are plain `real` arguments.
- `Math.random()` draws are functions from unit and index to a number (`Draws`, `BurstDraw`).
- `Math.cos`/`Math.sin` form the `Trig` record.
- The slider value is the number `parseFloat` read.

Files:

- `wrappers.dfy`: `Option`.
- `time_format.dfy`: the time splits, the two labels and the input parsing.
- `pattern.dfy`: the `Pattern` class, the lifecycle of a pattern, a frame's filter and the
  decay pass.
- `pattern_machine.dfy`: the `TimePatternMachine` class and its pool specifications.
- `particles.dfy`: bursts and the particle step.
- `mandala.dfy`: the countdown, the transition bursts and the `MandalaVisualizer` class.

## Model

| member | source | states |
|---|---|---|
| TimeFormat.Abs | script.js:242 | `Math.abs`: the result is not negative and is `x` or `-x` |
| TimeFormat.Trunc | script.js:243-245 | truncation toward zero, the quotient JavaScript's `%` uses: within one of `x`, on the side of zero |
| TimeFormat.JsRemBounds | script.js:243-245 | JavaScript `%` by a positive modulus keeps the dividend's sign and stays below the modulus in magnitude |
| TimeFormat.FloorDiv | script.js:416-417 | for a non-negative time, `Math.floor(r / k)` is the whole seconds divided by `k` |
| TimeFormat.FloorRem | script.js:417-418 | for a non-negative time, `Math.floor(r % k)` is the whole seconds modulo `k` |
| TimeFormat.NatToString | script.js:562 | `toString` of a whole number gives digits only, with a leading zero only for 0, and one character exactly below 10 |
| TimeFormat.NatToStringRoundTrip | script.js:562 | reading the decimal text of `n` back gives `n` |
| TimeFormat.PadStart2 | script.js:562 | `padStart(2, '0')` gives at least two characters: the text, preceded by zeros only |
| TimeFormat.PadStart2RoundTrip | script.js:562 | for `n` below 100 the padded text is two digits that read back as `n` |
| TimeFormat.ClockFieldsSplit | script.js:416-418 | for a non-negative time the hours/minutes/seconds split gives minutes and seconds below 60 that add back up to the whole seconds |
| TimeFormat.ClockFieldsOfTotal | script.js:479 | splitting `h*3600 + m*60 + s` (with `m, s` below 60) gives back `h`, `m`, `s` |
| TimeFormat.ClockLabelFields | script.js:557-562 | below 100 hours the countdown text is `HH:MM:SS`: eight characters, colons at 2 and 5, each digit pair reading back as its field |
| TimeFormat.ClockLabelAtZero | script.js:557-562 | a finished countdown reads `00:00:00` |
| TimeFormat.ElapsedFieldsWhole | script.js:242-246 | the elapsed split through milliseconds is days, hours mod 24, minutes mod 60 and seconds mod 60 of the whole seconds of `|elapsed|` |
| TimeFormat.DhmsSplit | script.js:243-246 | days, hours, minutes and seconds lie in their ranges and add back up to the whole seconds |
| TimeFormat.ElapsedFieldsSplit | script.js:242-246 | the elapsed fields lie in their ranges and add back up to the whole seconds of `|elapsed|` |
| TimeFormat.TrimStart | script.js:475-477 | `parseInt` skips exactly the leading JavaScript white space: tab, vertical tab, form feed, the byte-order mark, every Unicode space separator, and the line terminators |
| TimeFormat.LeadingDigits | script.js:475-477 | `parseInt` reads the longest run of digits of its radix, stopping at the first character that is not one |
| TimeFormat.DigitRunValue | script.js:475-477 | text that does not start with a digit of the radix reads as 0 (NaN, then `|| 0`) |
| TimeFormat.ParseIntOrZero | script.js:475-477 | an input with no decimal digit at all counts as 0 (a `0x` prefix needs its `0`) |
| TimeFormat.DigitRunOfDigits | script.js:475-477 | a run of digits reads as its value in its radix |
| TimeFormat.TrimStartNoSpace | script.js:475-477 | text that starts without white space is read from its first character |
| TimeFormat.ParseIntOfDigits | script.js:475-477 | a digit string reads as its value |
| TimeFormat.ParseIntOfMinusDigits | script.js:475-477 | a minus sign before digits reads as the negated value |
| TimeFormat.ParseIntOfNat | script.js:475-477 | typing the decimal text of `n` reads back `n` |
| TimeFormat.ParseIntOfNegative | script.js:475-477 | typing `-` and the decimal text of `n` reads back `-n` |
| TimeFormat.Floor | script.js:243-246 | `Math.floor`: the greatest integer not above `x` |
| TimeFormat.JsRem | script.js:243-245 | JavaScript `%`: `x` minus the truncated quotient times `m` |
| TimeFormat.IntToString | script.js:562 | `toString` of an integer: a minus sign before the digits of a negative one |
| TimeFormat.ClockFields | script.js:416-418 | the hours, minutes and seconds split of the remaining time, with `Math.floor` and JavaScript `%` |
| TimeFormat.TotalSeconds | script.js:479 | the timer total `h * 3600 + m * 60 + s` |
| TimeFormat.HmsText | script.js:561-562 | the three fields, each `toString` padded to two characters, joined by colons |
| TimeFormat.HmsTextFields | script.js:561-562 | fields below 100 print as eight characters, colons at 2 and 5, each digit pair reading back as its field |
| TimeFormat.ClockLabel | script.js:557-562 | the `HH:MM:SS` text of a remaining time |
| TimeFormat.ElapsedFields | script.js:242-246 | the days, hours, minutes and seconds of `|elapsed|`, computed through milliseconds |
| TimeFormat.DhmsText | script.js:248-249 | the fields as `Dd Hh Mm Ss` with no padding |
| TimeFormat.ElapsedLabel | script.js:241-249 | `T`, `+` for a positive direction and `-` otherwise, then `Dd Hh Mm Ss` |
| TimeFormat.DhmsTextFields | script.js:248-249 | non-negative fields print as their bare digits with unit letters, and the digits at the front read back as the days |
| TimeFormat.ElapsedLabelText | script.js:241-249 | the elapsed text starts with `T+` exactly for a positive direction and `T-` otherwise, then the days, hours, minutes and seconds; the digits after the sign read back as the days |
| TimeFormat.IsJsSpace | script.js:475-477 | the white space `parseInt` skips: tab, vertical tab, form feed, the byte-order mark, every Unicode space separator, LF, CR, U+2028 and U+2029 |
| TimeFormat.HasHexPrefix | script.js:475-477 | the text starts with the `0x` or `0X` that makes `parseInt` read radix 16 |
| TimeFormat.RadixDigitValue | script.js:475-477 | a digit's value is below its radix: a decimal digit keeps its decimal value, `a`-`f` and `A`-`F` are 10 to 15 |
| TimeFormat.IsRadixDigit | script.js:475-477 | the characters `parseInt` accepts as digits: `0`-`9` in radix 10, and also `a`-`f` and `A`-`F` in radix 16 |
| TimeFormat.RadixValue | script.js:475-477 | the number a string of digits denotes in its radix |
| TimeFormat.LeadingDigitsOfRun | script.js:475-477 | digits followed by a character that is not a digit are read as exactly those digits |
| TimeFormat.ParseIntSkipsSpace | script.js:475-477 | white space before the input does not change what it reads as |
| TimeFormat.ParseIntOfHex | script.js:475-477 | with no radix given, `0x` or `0X` followed by hexadecimal digits reads as their value in radix 16 (`0x10` is 16) |
| TimeFormat.ParseIntOfBareHexPrefix | script.js:475-477 | `0x` with no hexadecimal digit after it is NaN and counts as 0; its `0` is not read as a decimal number |
| Patterns.OrbitRadius | script.js:158 | a pool's orbit radius is positive and at most the base radius (1, 0.7 or 0.4 of it) |
| Patterns.Count | script.js:2-27 | the pool size of a unit: 60 seconds, 24 minutes, 12 hours |
| Patterns.Speed | script.js:2-27 | the orbit speed of a unit: 1, 0.5 and 0.25 |
| Patterns.Pi | script.js:157 | `Math.PI`, as its shortest decimal `3.141592653589793` |
| Patterns.Rolls | script.js:222-223 | the decay test fires for a pattern not yet decaying whose draw is below `0.01 * timeScale` |
| Patterns.Fresh | script.js:30-39 | the state of a new pattern: opacity 1, scale 1, rotation 0, not decaying |
| Patterns.Step | script.js:41-51 | one `update`: a decaying pattern fades by `0.02 * timeScale`, grows by `0.01 * timeScale` and is kept while its opacity is positive; an orbiting one turns by `speed * timeScale`, moves that arc along its orbit and is always kept |
| Patterns.MarkDecay | script.js:221-225 | among the first `limit` patterns, each not decaying whose draw is below `0.01 * timeScale` starts decaying; nothing else changes |
| Patterns.Pattern.constructor | script.js:30-39 | a new pattern is fully opaque, unscaled, unrotated and not decaying, at the given unit, radius and angle |
| Patterns.Pattern.Update | script.js:41-51 | the new state and the result are exactly one `Step` of the old state |
| Patterns.Pattern.StartDecay | script.js:53-55 | sets `decaying` and changes nothing else, so a second call changes nothing more |
| Patterns.Updates | script.js:41-51 | repeated updates never change a pattern's unit, radius or lifecycle state |
| Patterns.OrbitingUpdates | script.js:47-50 | after `n` updates an orbiting pattern keeps its opacity and scale and has turned by `n * speed * timeScale` (angle by that over the radius) |
| Patterns.DecayingUpdates | script.js:42-44 | after `n` updates a decaying pattern has faded by `n * 0.02 * timeScale` and grown by `n * 0.01 * timeScale`, nothing else changed |
| Patterns.DecayingSurvivesIff | script.js:42-45 | a decaying pattern is reported alive exactly while its opacity after the update is positive |
| Patterns.FullFadeTakesFiftyFrames | script.js:42-45 | at speed 1, a pattern decaying from full opacity survives 49 updates and is dropped by the 50th |
| Patterns.Survivors | script.js:182-185 | the filter never lengthens a pool, keeps radii non-zero, and every decaying survivor has positive opacity |
| Patterns.SurvivorsSnoc | script.js:183-184 | filtering one more pattern appends its updated state exactly when its update returned true |
| Patterns.OrbitingAllSurvive | script.js:182-185 | when nothing decays the filter keeps every pattern in its place, updated once |
| Patterns.OpacitiesInRange | script.js:36 | every opacity lies in [0, 1] |
| Patterns.SurvivorsOpacityInRange | script.js:182-185 | at a non-negative time scale, opacities in [0, 1] stay in [0, 1] |
| Patterns.FirstRoll | script.js:221-225 | finds the first pattern whose decay test fires, and none exists when it finds nothing |
| Patterns.DecayPass | script.js:220-237 | the decay pass keeps the pool's length, and only seconds and minutes passes can throw |
| Patterns.ThrowingPassMarksFirstRoll | script.js:221-234 | a pass that throws changed exactly one pattern, the first whose test fired, and only by making it decay |
| Patterns.QuietPassChangesNothing | script.js:221-237 | a seconds or minutes pass that does not throw changes nothing |
| Patterns.DecayPassOnlyStartsDecay | script.js:221-225 | the pass only ever switches a non-decaying pattern to decaying |
| PatternMachine.ClockAfterFrame | script.js:178-179 | the elapsed time after a running frame: `16 ms * timeScale * timeDirection` later |
| PatternMachine.FrameSeconds | script.js:178 | the fixed frame step `16 / 1000` seconds |
| PatternMachine.Units | script.js:209 | the order in which `Object.entries(PATTERN_TYPES)` visits the pools: seconds, minutes, hours |
| PatternMachine.Min | script.js:155 | `Math.min` of the canvas width and height |
| PatternMachine.RingAngle | script.js:157 | the `i`-th angle of a pool's ring, `(i / count) * 2π` |
| PatternMachine.Ring | script.js:156-159 | the `count` fresh patterns of a pool's ring at its radius, in order of angle |
| PatternMachine.Spawned | script.js:211-217 | the top-up: one fresh pattern at angle `draw * 2π` appended exactly when the pool holds fewer than its count |
| PatternMachine.Maintained | script.js:209-237 | one pool's pass: the top-up, then the decay pass over the topped-up pool, which reports whether it threw |
| PatternMachine.Filtered | script.js:182-185 | every pool replaced by its surviving, updated patterns |
| PatternMachine.PoolsOpacitiesInRange | script.js:36 | every opacity in every pool lies in [0, 1] |
| PatternMachine.MaintainKeepsOpacities | script.js:208-239 | `maintainPatterns` keeps every opacity in [0, 1]: the new pattern is fully opaque and the decay pass changes no opacity |
| PatternMachine.FrameKeepsOpacities | script.js:182-188 | a running frame's pool work, filter then `maintainPatterns`, keeps every opacity in [0, 1] at a non-negative time scale |
| PatternMachine.TimePatternMachine.BaseRadius | script.js:155 | the base radius of the orbits, `Math.min(width, height) * 0.3`, as also computed at script.js:213 |
| PatternMachine.TimePatternMachine.RadiusOf | script.js:158 | the orbit radius of a unit's pool, as also computed at script.js:214 |
| PatternMachine.RingEvenlySpaced | script.js:156-159 | the initial ring has `count` fresh patterns at angles in `[0, 2π)`, neighbours `2π / count` apart |
| PatternMachine.RingOpacitiesInRange | script.js:36 | every pattern of a fresh ring is fully opaque, so its opacities lie in `[0, 1]`; the ring itself is the loop of script.js:156-159 |
| PatternMachine.MaintainFrom | script.js:208-239 | `maintainPatterns` keeps all three pools present |
| PatternMachine.MaintainedShape | script.js:209-237 | one pool's pass adds exactly the top-up; old patterns stay in place and at most start decaying; the new one is fresh at the drawn angle |
| PatternMachine.MaintainedLength | script.js:211-218 | one pool's pass grows the pool by one exactly when it was below its count |
| PatternMachine.MaintainTopsUp | script.js:208-239 | each pool gains at most one pattern, only when below its count; without a throw, every pool below its count gains exactly one |
| PatternMachine.MaintainUnfolds | script.js:208-239 | the seconds pass always runs, minutes unless seconds threw, hours unless either threw |
| PatternMachine.MaintainThrowsIff | script.js:221-234 | `maintainPatterns` throws exactly when a seconds or minutes pattern (new one included) rolls its decay |
| PatternMachine.RollsIffThrows | script.js:221-234 | a seconds or minutes pass throws exactly when some pattern rolls its decay |
| PatternMachine.FirstRollAt | script.js:221-225 | the first roll is at `k` when `k` rolls and nothing before it does |
| PatternMachine.DecayPassThrowsAt | script.js:221-237 | a seconds or minutes pass whose first roll is at `k` marks patterns up to `k` and throws |
| PatternMachine.DecayPassCompletes | script.js:221-237 | an hours pass, or a pass where nothing rolls, marks every rolling pattern and does not throw |
| PatternMachine.FilteredByUnit | script.js:182-185 | the per-frame filter filters each unit's pool on its own |
| PatternMachine.NewRing | script.js:156-160 | the loop creates `count` new, distinct patterns whose states are the ring |
| PatternMachine.AdvanceAll | script.js:183-184 | the filter loop updates every pattern once and keeps exactly the survivors, in order, as distinct old objects |
| PatternMachine.KeepIfAlive | script.js:183-184 | one filter step appends the pattern exactly when its update reported it alive |
| PatternMachine.DecayWalk | script.js:221-237 | the decay loop does exactly the decay pass, including the throw |
| PatternMachine.VisitForDecay | script.js:222-225 | one decay test marks the pattern exactly when it is not decaying and its draw is below `0.01 * timeScale` |
| PatternMachine.GrowPool | script.js:156-160 | a pool with a ring appended keeps its old patterns in place and stays valid |
| PatternMachine.PoolObjectsShrink | script.js:182-185 | pools that only lost patterns hold no new object |
| PatternMachine.TimePatternMachine.constructor | script.js:106-125 | the machine starts running forward at speed 1 from time 0, each pool holding exactly one ring, every opacity 1 |
| PatternMachine.TimePatternMachine.InitializePatterns | script.js:153-162 | one ring is appended to each pool; the pattern objects already there are kept, in place |
| PatternMachine.TimePatternMachine.Reset | script.js:171-174 | the elapsed time is 0 and each pool grows by another ring rather than being restored; the old pattern objects stay in place |
| PatternMachine.TimePatternMachine.TogglePlay | script.js:140-143 | flips `isRunning`, nothing else |
| PatternMachine.TimePatternMachine.SetTimeScale | script.js:146-148 | sets the time scale, nothing else |
| PatternMachine.TimePatternMachine.FilterPool | script.js:183-184 | one pool becomes its survivors; the other pools are untouched |
| PatternMachine.TimePatternMachine.TopUp | script.js:211-218 | one fresh pattern is appended at the drawn angle exactly when the pool is below its count |
| PatternMachine.TimePatternMachine.MaintainPool | script.js:209-237 | one pool's top-up and decay walk are exactly its `Maintained` pass |
| PatternMachine.TimePatternMachine.MaintainPatterns | script.js:208-239 | the pools and the throw are exactly `MaintainFrom` over seconds, minutes, hours |
| PatternMachine.TimePatternMachine.FilterPools | script.js:182-185 | the pools become `Filtered` of the old pools, holding no new object |
| PatternMachine.TimePatternMachine.Tick | script.js:182-188 | filter, then maintain: the pools and the throw are `MaintainFrom` of the filtered pools; at a non-negative time scale every opacity stays in [0, 1] |
| PatternMachine.TimePatternMachine.AdvanceClock | script.js:178-179 | the elapsed time moves by `0.016 * timeScale * timeDirection` |
| PatternMachine.TimePatternMachine.Animate | script.js:176-206 | a paused frame changes nothing and reschedules. A running frame advances the clock, filters, then maintains. It shows the `T±Dd Hh Mm Ss` label and reschedules exactly when maintaining did not throw. At a non-negative time scale every opacity stays in [0, 1] |
| Particles.BurstAngle | script.js:317-320 | the `i`-th direction of a burst: `i * 2π / 20` plus `0.2` times the jitter draw |
| Particles.BurstSize | script.js:316 | `particleCount`: twenty particles per burst |
| Particles.NewParticle | script.js:319-333 | a particle at the centre with full life, its target at the burst angle and distance, size `2 + 2 * draw`, speed `1 + 2 * draw` |
| Particles.Burst | script.js:315-334 | the twenty particles one `createParticles` call appends, in order |
| Particles.Advance | script.js:381-386 | one frame of a particle: life less 0.02, and `speed * 0.05` of the way to its target |
| Particles.Fade | script.js:381 | the life a particle loses per frame, `0.02` |
| Particles.Ease | script.js:385-386 | the fraction of the way to its target a particle moves per frame at speed 1, `0.05` |
| Particles.BurstDistance | script.js:322 | a target lies between one and one and a half radii from the centre |
| Particles.BurstOf | script.js:315-334 | a burst is twenty particles of its colour set at the centre, each with life 1 |
| Particles.BurstShape | script.js:319-333 | with draws in [0, 1), burst speeds lie in [1, 3) and sizes in [2, 4) |
| Particles.AdvanceEases | script.js:381-386 | one frame shrinks the way left to the target by the factor `1 - 0.05 * speed`, which lies in (0.85, 0.95] for a burst particle |
| Particles.AdvanceBy | script.js:380-386 | frames never change a particle's target, speed, size or colour |
| Particles.AdvanceByLife | script.js:381 | after `n` frames a particle has lost `n * 0.02` of its life |
| Particles.FullLifeLastsFiftyFrames | script.js:381-388 | a particle with life 1 survives 49 frames and is dropped by the 50th |
| Particles.Surviving | script.js:380-406 | the particle filter never lengthens the list |
| Particles.Alive | script.js:388 | the filter's test `particle.life > 0` |
| Particles.SurvivingSnoc | script.js:380-406 | filtering one more particle appends its advanced self exactly when its life stays positive |
| Particles.SurvivingConcat | script.js:380-406 | the filter treats each particle on its own: filtering a concatenation is concatenating the filtered parts |
| Particles.SurvivingLives | script.js:381-388 | every kept life is positive and one frame's fade below the old maximum |
| Particles.SurvivingKeepsAllIff | script.js:380-406 | a frame drops no particle exactly when every life exceeds 0.02 |
| Mandala.Truthy | script.js:494 | `lastTime` as a condition: `null` and `0` are false, as in `lastTime || currentTime` and `!this.lastTime` (script.js:518) |
| Mandala.Numeric | script.js:546 | `lastTime` in arithmetic: `null` counts as 0 |
| Mandala.Center | script.js:411 | the canvas centre, half its width |
| Mandala.BaseRadius | script.js:412 | the mandala's base radius, `0.35` of the canvas width |
| Mandala.Delta | script.js:546 | the seconds of countdown between two clock readings in milliseconds, at the given speed |
| Mandala.TimerUpdate | script.js:544-555 | `updateTimer`'s state change: a playing timer with time left counts down by the time since the last reading, notes the clock, and stops at zero |
| Mandala.FrameStart | script.js:492-506 | `animate` before drawing: a playing timer notes the clock and counts down by the time since the last frame (none on the first); with no time left it stops playing |
| Mandala.Rescheduled | script.js:492-497 | `animate` draws and requests another frame exactly when playing with time left |
| Mandala.FrameTimer | script.js:491-507 | the timer after one `animate`: the frame start, then `updateTimer` at the second reading for a drawn frame |
| Mandala.Transitions | script.js:421-429 | the units whose shown value changed, hours first |
| Mandala.FrameBursts | script.js:421-431 | one burst per changed unit at its radius and colour set, hours first |
| Mandala.TimerTotal | script.js:475-479 | the total the three inputs give, each read by `parseInt(…) || 0` |
| Mandala.Click | script.js:514-522 | the play/pause click as written: flips playback, and notes the clock and starts `animate` only when playing with no frame noted |
| Mandala.ClickResuming | script.js:514-522 | the click as intended: every click that resumes playback notes the clock and starts `animate` |
| Mandala.Countdown | script.js:498 | `Math.max(0, r - delta)` is never negative, is zero exactly when `delta` covers `r`, and never grows for a non-negative `delta` from a non-negative time left |
| Mandala.TimerUpdateClamps | script.js:544-555 | `updateTimer` on a running timer leaves a non-negative time, notes the clock, and keeps playing exactly while time is left; otherwise it changes nothing |
| Mandala.FrameKeepsTimerOk | script.js:491-555 | a frame keeps the time left non-negative (or at an unstarted negative total) |
| Mandala.FrameNeverAddsTime | script.js:493-549 | with a clock that does not go back and a non-negative speed, a frame never adds time |
| Mandala.StopsAtZero | script.js:497-553 | a frame that reaches zero stops playback, at once or in the next frame, which draws nothing and requests no further frame |
| Mandala.TransitionsIff | script.js:421-429 | a unit bursts exactly when its shown value changed; a time already shown causes no burst |
| Mandala.BurstRadius | script.js:421-430 | burst radii are positive and at most the base radius (hours 1, minutes 0.75, seconds 0.5) |
| Mandala.FrameBurstsFollowTransitions | script.js:421-431 | a frame appends twenty full-life particles per changed unit, hours first: the `k`-th block of twenty is in the colour set of the `k`-th changed unit |
| Mandala.FrameBurstsBlocks | script.js:421-431 | the `k`-th block of twenty appended particles has full life and the colour set of the `k`-th changed unit |
| Mandala.FrameKeepsLivesOk | script.js:380-431 | after a drawn frame every particle life lies in (0, 1] |
| Mandala.SetTimerRoundTrip | script.js:475-480 | typing `h`, `m`, `s` (`m, s` below 60) sets `h*3600 + m*60 + s` seconds, whose split gives back `h`, `m`, `s` |
| Mandala.SetTimerShowsInputs | script.js:479-562 | below 100 hours the text shown for the set timer reads back `h`, `m`, `s` as two digits each |
| Mandala.NonNumericInputIsZero | script.js:475-479 | inputs without digits set a zero timer |
| Mandala.PauseThenPlayFreezes | script.js:514-522 | as written, pausing and pressing play again leaves a timer that says playing but never runs another frame |
| Mandala.PauseThenPlayNeverRestarts | script.js:514-522 | as written, for every running timer that has noted a frame: pause starts no frame, the pending frame changes nothing and requests none, and play restores the running timer without calling `animate` |
| Mandala.ResumeStartsFrame | script.js:514-522 | with the intended click, resuming always starts the animation, and the first frame counts only the time since the click |
| Mandala.FilterParticles | script.js:380-406 | the filter loop keeps exactly the surviving, advanced particles in order |
| Mandala.MandalaVisualizer.constructor | script.js:260-304 | a paused five-minute timer, no frame noted, shown values 0 h 5 min 0 s; only the minutes burst was thrown (the shown values start at zero), then the particles took one step |
| Mandala.MandalaVisualizer.CreateParticles | script.js:315-335 | the loop appends exactly the twenty particles of the burst and changes nothing else |
| Mandala.MandalaVisualizer.UpdateParticles | script.js:379-407 | the particles become the surviving, advanced ones |
| Mandala.MandalaVisualizer.ThrowBursts | script.js:420-431 | appends one burst per unit whose value differs from the last shown, hours first |
| Mandala.MandalaVisualizer.DrawMandala | script.js:409-466 | the bursts for the changed units are appended, the new values noted, then the particles step; the timer is untouched |
| Mandala.MandalaVisualizer.UpdateTimer | script.js:543-555 | the timer becomes `TimerUpdate` at the clock reading; the particles are untouched |
| Mandala.MandalaVisualizer.DrawInitialState | script.js:538-541 | the bursts for the units that changed since the last shown values, the particle step, then `TimerUpdate` at the clock reading |
| Mandala.MandalaVisualizer.Animate | script.js:491-507 | the timer becomes `FrameTimer`. A frame with time left draws and reschedules; any other frame draws nothing |
| Mandala.MandalaVisualizer.TogglePlay | script.js:514-522 | as written: flips playback, and starts a frame only when no frame was ever noted. A started frame leaves the timer at `FrameTimer` of the clicked timer, and when drawn, the new shown values and the particles after the bursts and one step; otherwise particles and shown values are unchanged |
| Mandala.MandalaVisualizer.TogglePlayResuming | script.js:514-522 | corrected: every click that resumes playback notes the clock and starts a frame, with the same timer, shown values and particles after it as `TogglePlay`'s started frame |
| Mandala.MandalaVisualizer.Reset | script.js:524-530 | the full time is back, paused with no frame noted, and redrawn |
| Mandala.MandalaVisualizer.SetTimer | script.js:474-488 | the total typed becomes the full and the remaining time, paused with no frame noted, and redrawn |
| Mandala.MandalaVisualizer.SetTotal | script.js:479-487 | the state changes of the set-timer button, given the total |
| Mandala.MandalaVisualizer.SetTimeScale | script.js:532-533 | sets the time scale, nothing else |

## Left out

- Drawing is not modelled: the canvas calls, `draw`, `drawTriangle`, `drawHexagon`, `drawRay`,
  `drawTimeUnit`, gradients and `clearRect`. These are foreign rendering calls.
- The DOM is not modelled: `setupCanvas`, the button texts, `updateLayerAnimations` and the
  load listeners. Canvas sizes are constructor arguments. The handlers are class methods.
- `requestAnimationFrame` is not modelled. `Animate` returns whether it asked for the next
  frame, and the caller decides whether to call it again.
- The constructors' scheduling is not modelled: the pattern machine's constructor calls its
  first `animate` at once, which is a separate `Animate` call here. In the mandala's
  constructor `updateTimer` reads no clock, because the timer is paused. The second
  `Date.now()` reading is the one `updateTimer` takes inside a drawn `animate` frame
  (script.js:493, 545), which is the `later` reading of `Frame` given to `Animate`.
- Floating point is not modelled. Numbers are exact reals, with no IEEE rounding, no
  `Infinity`/`NaN` arithmetic, no `toFixed` and no `parseFloat` of the slider.
- Every pattern radius is required to be non-zero (`Pattern.Update`'s `requires`). On a
  zero-size canvas the source would divide by zero and get `Infinity`.
- The pulse and rotation visuals are not modelled: `pulsePhase`, `currentRotation` and the
  rotation speed-up at script.js:467-468, which also divides by a possibly zero total.
  They only affect drawing. So are `decayFragments`, which the set-timer button clears but
  nothing else uses.
- Mandala.MandalaVisualizer.UpdateTimer: the `HH:MM:SS` text it writes is not an output.
  It is always `TimeFormat.ClockLabel(remainingTime)` of the state after the call, and
  `TimeFormat.ClockLabelFields`, `TimeFormat.ClockLabelAtZero` and
  `Mandala.SetTimerShowsInputs` state its properties.
- Mandala.MandalaVisualizer.DrawMandala: particles are records updated in place in the
  source. They are values here, because nothing else holds a reference to one, so the
  in-place update and the new list carry the same information.
- Particles.AdvanceEases: only the one-frame easing step is proved. The closed form of the
  way left after `n` frames (the factor to the power `n`) is not.
- The seconds-to-minutes-to-hours spawn at script.js:227-234 is modelled as written. It
  reads `baseRadius` outside the `if` block that declares it, which throws a
  `ReferenceError`. The throw happens after the first decaying seconds or minutes pattern
  has started decaying, and it ends `maintainPatterns` and the frame: no label, no next
  frame. Which spawn the authors meant is not determined by the code, so no corrected
  version is given.

## Findings

| source | as written | input that shows it | evidently intended | confidence | as-written member | corrected member |
|---|---|---|---|---|---|---|
| script.js:514-522 | the play button starts the animation only if `lastTime` is falsy, but pausing leaves `lastTime` set, and the pending frame stops because the timer is paused | a running timer with 10 s left (`lastTime` 1000): pause at 1100, frame at 1116, play at 2000. The timer says playing with 10 s left, and no frame runs | resuming playback restarts the animation, counting only the time since the click | not executed | Mandala.MandalaVisualizer.TogglePlay, Mandala.PauseThenPlayFreezes, Mandala.PauseThenPlayNeverRestarts | Mandala.MandalaVisualizer.TogglePlayResuming, Mandala.ResumeStartsFrame |
