# Miners' lamp candle: a Dafny model

This project models the Arduino sketch of the miners' lamp. The sketch animates
a NeoPixel strip as a candle flame and blows the flame out while the
accelerometer reports a "blow" gesture. The model has two parts:

- **The `Candle` flame animator** (module `Flame`). It has three modes: BURN,
  FLICKER and FLUTTER. A mode is re-drawn, with a random duration in
  [1000, 8000) ms, once MORE than its duration has passed since it was drawn;
  so a drawn mode lasts longer than its duration. The first mode is BURN with
  duration 0, so the first pass at a clock reading of 1 ms or later re-draws.
  Each mode moves the green channel one unit per tick inside the band
  `[135 - drop, 135]`. The drop is 10, 15 or 30, and a tick runs only when
  MORE than `120 / drop / 2` ms have passed since the last one. The direction reverses whenever brightness lands on a
  bound of the band. Each new colour is painted on every pixel or on one pixel,
  then pushed out with `show()`.
- **One pass of `loop()`** (module `Control`). The pass ticks the candle. It
  samples the sensor when more than 50 ms have passed since the last sample.
  When the smoothed Z reading is above the threshold, it blanks the strip,
  shows the blank frame, clears the three filters and pauses for 10000 ms.

Timestamps are `uint32_t` milliseconds (module `Timing`). Every time gate is the
wrap-safe unsigned test `now - since > span`. `Elapsed` is the `uint32_t`
subtraction, and `Exceeds` is the test.

The state lives in two classes. `Flame.Candle` holds the fields that `update`
and `fire` change, plus the pixel buffer as an `array`. `Control.Lamp` holds
the sketch's globals: the candle, the `lastFlashMillis` static and the
samples fed to the X, Y and Z running averages since each was last cleared.
The methods are proved against pure specification functions:

- `Step` is one brightness tick.
- `Walk` is n consecutive ticks.
- `Paint` is one painting pass.

The properties of the flame are lemmas about those functions: the band, the
turning points, the triangle wave and its period.

From the initial state (`_grnPx` 100, direction +1), in the case where the
first re-draw picks BURN again, BURN does not climb from 100 to 135. The first tick clamps 101 up to 125 and reverses
the direction. The second tick steps to 124, which is clamped back to 125, and
reverses again. Only then does the triangle wave 125 → 135 → 125 begin
(`BurnFirstTicks`, `BurnTriangleWave`). The blow-off pauses with a blocking
`delay`; the sketch has no non-blocking cooldown.

Inputs that come from outside the sketch are parameters of `Control.Lamp.Step`:

- the clock reading `now`;
- the two `random` results `pick` and `duration`, under the ranges `random`
  guarantees;
- the accelerometer event `r`;
- whether `Z.getAverage() > threshold` holds, as `zHigh`.

`delay(candleOffTime)` is the precondition that the next pass comes at least
10000 ms after the pause began.

## Model

| member | source | states |
|---|---|---|
| `Timing.Elapsed` | src/main.cpp:64 | the unsigned 32-bit difference `now - since`: the value in [0, 2^32) that added to `since` modulo 2^32 gives `now`; zero exactly when the two readings are equal |
| `Timing.Exceeds` | src/main.cpp:172 | the time gate `now - since > span` of lines 64, 88 and 172, taken on the wrapping difference: never true at the same instant for a non-negative span, and never true for a span of 2^32 - 1 or more |
| `Timing.ElapsedChain` | src/main.cpp:88 | wrapping differences add up modulo 2^32 across an intermediate reading |
| `Timing.Outlasts` | src/main.cpp:178-184 | a reading at most `span` old at `t0`, followed by a pause longer than `span` that does not wrap the clock, is more than `span` old afterwards |
| `Flame.ModeOf` | src/main.cpp:66 | `static_cast<CandleStates>(random(MODES_MAX_CANDLE))`: draw k of [0, 3) selects the k-th of BURN, FLICKER, FLUTTER |
| `Flame.DropOf` | src/main.cpp:71-82 | the drop each mode passes to `fire` is non-zero and at most 30 (10, 15, 30), so a valid `uint8_t` divisor |
| `Flame.FireInterval` | src/main.cpp:88 | `cycleTime / greenDropValue / 2` is the largest r with 2 * drop * r <= cycleTime |
| `Flame.Wrap8` | src/main.cpp:90 | storing `_grnPx += _direction` into a `uint8_t` gives the value in [0, 256) congruent to the sum modulo 256 |
| `Flame.ModeInterval` | src/main.cpp:71-88 | the throttle `cycleTime / greenDropValue / 2` of `fire` is 6, 4 and 2 ms for BURN, FLICKER and FLUTTER |
| `Flame.Clamp` | src/main.cpp:90 | `constrain` returns the point of [lo, hi] nearest to its argument |
| `Flame.Step` | src/main.cpp:90-94 | after one tick brightness is in `[hi - drop, hi]`; direction stays +1 or -1; it reverses exactly when the new brightness equals `hi - drop` or `hi` |
| `Flame.SnapOntoBand` | src/main.cpp:90-94 | after a switch to a narrower band, a brightness below it snaps onto the band's lower bound on the first tick and the direction reverses |
| `Flame.ClampsAtTop` | src/main.cpp:90-94 | a brightness that would step above the band is held at `hi` and the direction reverses |
| `Flame.MovesOneUnit` | src/main.cpp:90 | inside the band, a tick changes brightness by exactly one unit in the walking direction |
| `Flame.Walk` | src/main.cpp:88-94 | after any number of ticks the direction is +1 or -1; after at least one tick brightness is in the band |
| `Flame.WalkSplit` | src/main.cpp:88-94 | a + b ticks are a ticks followed by b ticks |
| `Flame.TriangleWave` | src/main.cpp:90-94 | from the bottom of the band walking up, brightness rises one unit per tick to `hi`, turns, falls one unit per tick to `hi - drop`, turns, and returns to its start after 2 * drop ticks |
| `Flame.WalkPeriodic` | src/main.cpp:90-94 | that walk is periodic with period 2 * drop ticks |
| `Flame.BurnFirstTicks` | src/main.cpp:43-94 | BURN from the initial state (100, +1, high 135): the first tick gives (125, -1), the second gives (125, +1) |
| `Flame.BurnTriangleWave` | src/main.cpp:71-94 | from the second tick on, BURN is the triangle wave with turning points exactly 125 and 135, period 20 ticks |
| `Flame.Paint` | src/main.cpp:95-106 | EVERY_PIXEL sets every pixel to the colour; SINGLE_PIXEL sets pixel `pixNum` and leaves every other pixel as it was; the length is unchanged |
| `Flame.Candle.constructor` | src/main.cpp:50-54 | the three-argument constructor: all pixels targeted, mode BURN, brightness 100, direction +1, blank buffer |
| `Flame.Candle.WithTarget` | src/main.cpp:56-60 | the five-argument constructor: the given pixel selection; mode, mode start and duration at the static zero (BURN, 0, 0); brightness 100, direction +1, last burn update 0 |
| `Flame.Candle.SetPixelColor` | src/main.cpp:100 | pixel n takes the colour and no other pixel changes |
| `Flame.Candle.Show` | src/main.cpp:107 | the buffer's current contents are appended to the frames sent to the LEDs |
| `Flame.Candle.Fire` | src/main.cpp:85-110 | past the throttle: brightness and direction become `Step` of the old ones; the colour (brightness, 255, 15) is painted as `Paint` says; `show()` runs once; the last burn update becomes `now`. Otherwise no pixel, brightness, direction, timestamp or frame changes |
| `Flame.Candle.Update` | src/main.cpp:62-83 | the mode and a duration in [1000, 7999] are re-drawn and the mode start becomes `now` exactly when `now - lastModeChange > modeDuration`, otherwise all three are unchanged; afterwards the mode has not run out; then `fire` runs with the current mode's drop and cycle 120 |
| `Control.Lamp.constructor` | src/main.cpp:119-163 | the global candle on 7 pixels from the five-argument constructor; `lastFlashMillis` 0; a blank buffer; every filter empty; the one blank frame that `setup()` shows with `candle.show()` |
| `Control.Lamp.CheckMovement` | src/main.cpp:191-199 | one sample goes into each filter, Z less the 9.6 bias |
| `Control.Lamp.BlowOffCandle` | src/main.cpp:208-216 | every pixel becomes blank, then exactly one frame (the blank one) is shown; the flame state is untouched |
| `Control.Lamp.Step` | src/main.cpp:167-189 | the candle ticks as `Update` says. The sensor is sampled and `lastFlashMillis` becomes `now` exactly when more than 50 ms have passed. When Z is high: the strip is blanked, the blank frame is the last one shown, the three filters are empty, and the pause starts at `now`. Otherwise none of this happens. Brightness and direction survive the blow-off. The pass after the pause always re-draws the mode |

## Left out

- Sensor set-up in `setup()` (only its filter clears and `candle.show()` are modelled, in `Control.Lamp.constructor`), the fatal halt when no ADXL345 answers, and the three `display…` reports: hardware initialisation and serial output only.
- All `Serial` printing, including the running averages printed in `checkMovement`.
- Driving the LED bus: `begin`, the timing of `show` and the RGBW channel order. `show()` is modelled as recording the buffer's contents, and `numPixels()` as the buffer's length. The white channel is always 0 on both paths and is not modelled.
- `SetPixelColor` requires its index to be on the strip, because the library's handling of an out-of-range index is not part of this model.
- The accelerometer register reads: a sample is an input.
- The `RunningAverage` library: its window of 5, its mean and the float comparison with `threshold` 1.0 are not part of this model. A filter is the sequence of samples fed to it since its last clear, and "Z average above threshold" is the input `zHigh`. Whether an empty filter can read above the threshold is not stated. Neither is the property that a blow-off fires once per excursion, because both depend on the library.
- `ZBias`: readings are exact reals, so float rounding of `z - 9.6` is not modelled.
- `randomSeed` and `random`: their results are inputs constrained to `random`'s ranges.
- `Flame.Candle.Fire`: models the intended single increment of `constrain(_grnPx += _direction, …)`. A `constrain` macro that evaluates its argument more than once would differ. The missing return value of the `bool` function is also not modelled.
- `Flame.Candle.Fire`: `int currentMillis` is taken as 32 bits wide, as on the boards this sketch targets. A 16-bit `int` would truncate the timestamp.
- Each pass of `loop()` reads the clock once: the separate `millis()` calls inside one pass are taken to return the same instant.
- `Flame.Candle.constructor`: the three-argument constructor leaves `_lastModeChange` and `_modeDuration` indeterminate on a non-static object. The model starts them at 0.
- `Control.Lamp.Step`: the blocking `delay(candleOffTime)` is the precondition on the next pass's clock reading. The sketch has no non-blocking cooldown.
- `Control.Lamp.Step`: the re-draw after a blow-off is stated only for pauses shorter than 2^32 - 8000 ms. A longer pause wraps the 32-bit clock, and then wrapping arithmetic no longer guarantees it.
