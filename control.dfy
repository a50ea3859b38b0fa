/** The sketch's `loop()`: tick the candle, sample the accelerometer on its
    own cadence, and blow the candle out when the smoothed Z reading is high. */
module Control {
  import opened Timing
  import opened Flame

  const PixelCount := 7
  /** `candleOffTime`: the blocking pause after a blow-off, in milliseconds. */
  const CandleOffTime := 10000
  /** The sensor is sampled when more than this many milliseconds have passed. */
  const SamplePeriod := 50
  /** The gravity bias taken off raw Z before it enters the Z filter. */
  const ZBias: real := 9.6

  /** One accelerometer event, in m/s^2. */
  datatype Reading = Reading(x: real, y: real, z: real)

  /** The sketch's globals: the `candle` instance, the `lastFlashMillis`
      static, and the samples fed to the running averages X, Y and Z since
      each was last cleared. `delaying` and `delayStart` record that the last
      iteration ended in `delay(candleOffTime)`, and when it started. */
  class Lamp {
    const candle: Candle
    var lastFlashMillis: Millis
    var xSamples: seq<real>
    var ySamples: seq<real>
    var zSamples: seq<real>
    ghost var delaying: bool
    ghost var delayStart: Millis

    ghost predicate Valid()
      reads this, candle
    {
      candle.Valid() &&
      (delaying ==> !Exceeds(delayStart, candle.lastModeChange, candle.modeDuration))
    }

    /** The state before the first `loop()`: the global candle on all
        `PIXEL_COUNT` pixels, every filter empty, and the one blank frame that
        `setup()` shows. */
    constructor ()
      ensures Valid() && fresh(candle) && fresh(candle.pixels)
      ensures candle.pixels.Length == PixelCount && candle.pixelMode == EveryPixel
      ensures candle.mode == Burn && candle.lastModeChange == 0 && candle.modeDuration == 0
      ensures candle.grnPx == InitialGreen && candle.direction == 1 && candle.lastBurnUpdate == 0
      ensures candle.pixels[..] == seq(PixelCount, _ => Blank)
      ensures candle.frames == [seq(PixelCount, _ => Blank)]
      ensures lastFlashMillis == 0 && xSamples == [] && ySamples == [] && zSamples == []
      ensures !delaying
    {
      candle := new Candle.WithTarget(PixelCount, EveryPixel, 0);
      lastFlashMillis := 0;
      xSamples, ySamples, zSamples := [], [], [];
      delaying, delayStart := false, 0;
      new;
      candle.Show();
    }

    /** `checkMovement()`: one reading goes into each filter, Z less its bias. */
    method CheckMovement(r: Reading)
      modifies this`xSamples, this`ySamples, this`zSamples
      ensures xSamples == old(xSamples) + [r.x]
      ensures ySamples == old(ySamples) + [r.y]
      ensures zSamples == old(zSamples) + [r.z - ZBias]
    {
      xSamples := xSamples + [r.x];
      ySamples := ySamples + [r.y];
      zSamples := zSamples + [r.z - ZBias];
    }

    /** `blowOffCandle()`: every pixel blanked, then one `show()`; the flame
        state itself is left alone. */
    method BlowOffCandle()
      modifies candle.pixels, candle`frames
      ensures candle.pixels[..] == Paint(old(candle.pixels[..]), EveryPixel, 0, Blank)
      ensures candle.frames == old(candle.frames) + [candle.pixels[..]]
    {
      for i := 0 to candle.pixels.Length
        invariant forall j :: 0 <= j < i ==> candle.pixels[j] == Blank
        modifies candle.pixels
      {
        candle.SetPixelColor(i, Blank);
      }
      candle.Show();
    }

    /** One pass of `loop()` at `now`. `pick` and `duration` are what
        `random` would return if the mode is re-drawn, `r` is what the
        accelerometer would report if sampled, and `zHigh` is whether
        `Z.getAverage() > threshold` after the sampling. */
    method Step(now: Millis, pick: nat, duration: int, r: Reading, zHigh: bool)
      requires Valid()
      requires pick < 3 && MinModeDuration <= duration < ModeDurationBound
      requires delaying ==> Elapsed(now, delayStart) >= CandleOffTime
      modifies this, candle, candle.pixels
      ensures Valid()
      // the candle tick
      ensures if old(Exceeds(now, candle.lastModeChange, candle.modeDuration))
              then candle.mode == ModeOf(pick) && candle.modeDuration == duration &&
                   candle.lastModeChange == now
              else candle.mode == old(candle.mode) &&
                   candle.modeDuration == old(candle.modeDuration) &&
                   candle.lastModeChange == old(candle.lastModeChange)
      ensures candle.Walked(DropOf(candle.mode), CycleTime, now)
      // after the pause of a blow-off the mode is always re-drawn
      ensures old(delaying) && Elapsed(now, old(delayStart)) < Modulus - ModeDurationBound ==>
                candle.lastModeChange == now && candle.mode == ModeOf(pick) &&
                candle.modeDuration == duration
      // what the LEDs show: the tick's frame, then the blank frame of a blow-off
      ensures var ticked := Exceeds(now, old(candle.lastBurnUpdate), ModeInterval(candle.mode));
              var lit := (candle.grnPx, candle.redPx, candle.bluePx);
              var drawn := if ticked
                           then Paint(old(candle.pixels[..]), candle.pixelMode, candle.pixNum, lit)
                           else old(candle.pixels[..]);
              var blank := Paint(drawn, EveryPixel, 0, Blank);
              candle.pixels[..] == (if zHigh then blank else drawn) &&
              candle.frames == old(candle.frames) + (if ticked then [drawn] else []) +
                                 (if zHigh then [blank] else [])
      // sampling
      ensures var sampled := old(Exceeds(now, lastFlashMillis, SamplePeriod));
              lastFlashMillis == (if sampled then now else old(lastFlashMillis)) &&
              if zHigh then xSamples == [] && ySamples == [] && zSamples == []
              else if sampled then xSamples == old(xSamples) + [r.x] &&
                                   ySamples == old(ySamples) + [r.y] &&
                                   zSamples == old(zSamples) + [r.z - ZBias]
              else xSamples == old(xSamples) && ySamples == old(ySamples) &&
                   zSamples == old(zSamples)
      // the blocking pause
      ensures delaying == zHigh && (zHigh ==> delayStart == now)
    {
      if delaying && Elapsed(now, delayStart) < Modulus - ModeDurationBound {
        Outlasts(now, delayStart, candle.lastModeChange, candle.modeDuration);
      }
      candle.Update(now, pick, duration);
      ghost var ticked := Exceeds(now, old(candle.lastBurnUpdate), ModeInterval(candle.mode));
      ghost var drawn := candle.pixels[..];
      ghost var shown := candle.frames;
      assert candle.Drawn(DropOf(candle.mode), CycleTime, now);
      assert ticked == candle.FireDue(DropOf(candle.mode), CycleTime, now);
      assert shown == old(candle.frames) + (if ticked then [drawn] else []);

      if Elapsed(now, lastFlashMillis) > SamplePeriod {
        CheckMovement(r);
        lastFlashMillis := now;
      }

      if zHigh {
        BlowOffCandle();
        assert candle.pixels[..] == Paint(drawn, EveryPixel, 0, Blank);
        xSamples, ySamples, zSamples := [], [], [];
        delaying, delayStart := true, now;
      } else {
        delaying := false;
      }
    }
  }
}
