/** The flame animator: the `Candle` NeoPixel strip, its three burning modes
    and the bounded brightness walk of its green channel. */
module Flame {
  import opened Timing

  /** `CandleStates` without the `MODES_MAX_CANDLE` sentinel. */
  datatype CandleState = Burn | Flicker | Flutter

  /** `PixelSelect`: paint the whole strip or one pixel. */
  datatype PixelSelect = EveryPixel | SinglePixel

  /** The three colour arguments of `setPixelColor`, in call order; the first
      one carries `_grnPx`. */
  type Pixel = (int, int, int)

  /** `setPixelColor(i, 0)`: every channel off. */
  const Blank: Pixel := (0, 0, 0)

  const InitialGreen := 100
  const CycleTime := 120
  /** `random(1000, 8000)` draws a mode duration in [MinModeDuration, ModeDurationBound). */
  const MinModeDuration := 1000
  const ModeDurationBound := 8000

  /** `static_cast<CandleStates>(random(MODES_MAX_CANDLE))`. */
  function ModeOf(k: nat): (m: CandleState)
    requires k < 3
    ensures m == [Burn, Flicker, Flutter][k]
  {
    if k == 0 then Burn else if k == 1 then Flicker else Flutter
  }

  /** The `greenDropValue` that `update` passes to `fire` for each mode. */
  function DropOf(m: CandleState): (r: nat)
    ensures 0 < r <= 30
  {
    match m
    case Burn => 10
    case Flicker => 15
    case Flutter => 30
  }

  /** The throttle of `fire`: `cycleTime / greenDropValue / 2` in unsigned
      integer division. */
  function FireInterval(drop: nat, cycle: nat): (r: nat)
    requires drop > 0
    ensures 2 * drop * r <= cycle < 2 * drop * (r + 1)
  {
    DivDiv(cycle, drop);
    cycle / drop / 2
  }

  /** Dividing by drop and then by 2 is dividing by 2 * drop. */
  lemma DivDiv(cycle: nat, drop: nat)
    requires drop > 0
    ensures 2 * drop * (cycle / drop / 2) <= cycle < 2 * drop * (cycle / drop / 2 + 1)
  {
    var q, p := cycle / drop, cycle / drop / 2;
    assert drop * q <= cycle < drop * (q + 1);
    assert 2 * p <= q < 2 * (p + 1);
    assert drop * (2 * p) <= drop * q;
    assert drop * (q + 1) <= drop * (2 * (p + 1));
  }

  /** The throttle of each mode: more milliseconds than this must pass between
      two brightness steps. */
  function ModeInterval(m: CandleState): (r: nat)
    ensures r == match m case Burn => 6 case Flicker => 4 case Flutter => 2
  {
    FireInterval(DropOf(m), CycleTime)
  }

  /** Storing an `int` into a `uint8_t` keeps it modulo 256. */
  function Wrap8(x: int): (r: int)
    ensures 0 <= r < 256
    ensures (x - r) % 256 == 0
  {
    x % 256
  }

  /** The distance between two integers. */
  function Dist(a: int, b: int): (r: nat)
    ensures a <= b ==> a + r == b
    ensures b <= a ==> b + r == a
  {
    if a < b then b - a else a - b
  }

  /** Arduino's `constrain(x, lo, hi)`: the point of [lo, hi] nearest to x. */
  function Clamp(x: int, lo: int, hi: int): (r: int)
    requires lo <= hi
    ensures lo <= r <= hi
    ensures forall y :: lo <= y <= hi ==> Dist(x, r) <= Dist(x, y)
  {
    if x < lo then lo else if x > hi then hi else x
  }

  /** One brightness tick of `fire` on the pair (`_grnPx`, `_direction`):
      move one unit in the walking direction, constrain to the band
      [hi - drop, hi], and reverse the direction when the result sits on a
      bound of the band. */
  function Step(g: int, d: int, hi: int, drop: int): (r: (int, int))
    requires 0 < drop
    requires d == 1 || d == -1
    ensures hi - drop <= r.0 <= hi
    ensures r.1 == 1 || r.1 == -1
    ensures r.1 == -d <==> (r.0 == hi - drop || r.0 == hi)
  {
    var g' := Clamp(Wrap8(g + d), hi - drop, hi);
    (g', if g' == hi - drop || g' == hi then -d else d)
  }

  /** A brightness already below a narrower band (after a mode change from a
      wider one) snaps onto the band's lower bound on the first tick and the
      direction reverses. */
  lemma SnapOntoBand(g: int, d: int, hi: int, drop: int)
    requires 0 < drop && (d == 1 || d == -1)
    requires 0 <= g + d < hi - drop && hi < 256
    ensures Step(g, d, hi, drop) == (hi - drop, -d)
  {
  }

  /** A brightness inside the band moves by exactly one unit in its direction. */
  lemma MovesOneUnit(g: int, d: int, hi: int, drop: int)
    requires 0 < drop && (d == 1 || d == -1)
    requires 0 <= hi - drop <= g + d <= hi < 256
    ensures Step(g, d, hi, drop).0 == g + d
  {
  }

  /** A brightness that would step above the band is held at its top and the
      direction reverses. */
  lemma ClampsAtTop(g: int, d: int, hi: int, drop: int)
    requires 0 < drop && (d == 1 || d == -1)
    requires 0 <= hi < g + d < 256
    ensures Step(g, d, hi, drop) == (hi, -d)
  {
  }

  /** n consecutive ticks of `fire` with the same drop. */
  function Walk(g: int, d: int, hi: int, drop: int, n: nat): (r: (int, int))
    requires 0 < drop
    requires d == 1 || d == -1
    ensures r.1 == 1 || r.1 == -1
    ensures n > 0 ==> hi - drop <= r.0 <= hi
  {
    if n == 0 then (g, d)
    else
      var p := Walk(g, d, hi, drop, n - 1);
      Step(p.0, p.1, hi, drop)
  }

  /** Walking a + b ticks is walking a ticks and then b more. */
  lemma {:induction false} WalkSplit(g: int, d: int, hi: int, drop: int, a: nat, b: nat)
    requires 0 < drop && (d == 1 || d == -1)
    ensures var p := Walk(g, d, hi, drop, a);
            Walk(g, d, hi, drop, a + b) == Walk(p.0, p.1, hi, drop, b)
  {
    if b > 0 {
      WalkSplit(g, d, hi, drop, a, b - 1);
    }
  }

  /** One period of the triangle wave started at the bottom of the band
      [hi - drop, hi] walking up: k ticks in, for 0 <= k <= 2 * drop. */
  function Triangle(hi: int, drop: nat, k: nat): (r: (int, int))
    requires k <= 2 * drop
    ensures hi - drop <= r.0 <= hi
  {
    if k < drop then (hi - drop + k, 1)
    else if k < 2 * drop then (hi - (k - drop), -1)
    else (hi - drop, 1)
  }

  /** From the bottom of the band walking up, brightness climbs one unit per
      tick to the top, turns there, descends one unit per tick to the bottom
      and turns again: the walk follows the triangle wave, and is back where it
      started after 2 * drop ticks. */
  lemma {:induction false} TriangleWave(hi: int, drop: nat, k: nat)
    requires 0 < drop && 1 <= hi - drop && hi < 255
    requires k <= 2 * drop
    ensures Walk(hi - drop, 1, hi, drop, k) == Triangle(hi, drop, k)
  {
    if k > 0 {
      TriangleWave(hi, drop, k - 1);
    }
  }

  /** The walk from the bottom of the band is periodic with period 2 * drop. */
  lemma {:induction false} WalkPeriodic(hi: int, drop: nat, n: nat)
    requires 0 < drop && 1 <= hi - drop && hi < 255
    ensures Walk(hi - drop, 1, hi, drop, 2 * drop + n) == Walk(hi - drop, 1, hi, drop, n)
  {
    TriangleWave(hi, drop, 2 * drop);
    WalkSplit(hi - drop, 1, hi, drop, 2 * drop, n);
  }

  /** BURN from the initial state (`_grnPx` 100, `_direction` +1, `_grnHigh`
      135): the first tick snaps brightness to 125 and reverses, the second
      re-clamps at 125 and reverses again, which leaves the walk at the bottom
      of the band walking up. */
  lemma BurnFirstTicks()
    ensures Walk(InitialGreen, 1, 135, DropOf(Burn), 1) == (125, -1)
    ensures Walk(InitialGreen, 1, 135, DropOf(Burn), 2) == (125, 1)
  {
  }

  /** From then on BURN is the triangle wave between the turning points 125
      and 135: one unit per tick, 135 reached on tick 12, 125 again on tick 22,
      and the whole pattern repeats every 20 ticks. */
  lemma {:induction false} BurnTriangleWave(n: nat)
    ensures n <= 20 ==> Walk(InitialGreen, 1, 135, DropOf(Burn), n + 2) == Triangle(135, 10, n)
    ensures Walk(InitialGreen, 1, 135, DropOf(Burn), n + 22) == Walk(InitialGreen, 1, 135, DropOf(Burn), n + 2)
  {
    BurnFirstTicks();
    WalkSplit(InitialGreen, 1, 135, 10, 2, n);
    WalkSplit(InitialGreen, 1, 135, 10, 2, 20 + n);
    if n <= 20 {
      TriangleWave(135, 10, n);
    }
    WalkPeriodic(135, 10, n);
  }

  /** What one painting pass of `fire` leaves in the strip: colour c in every
      pixel, or in pixel `num` alone with every other pixel as it was. */
  function Paint(frame: seq<Pixel>, sel: PixelSelect, num: nat, c: Pixel): (r: seq<Pixel>)
    requires sel == SinglePixel ==> num < |frame|
    ensures |r| == |frame|
    ensures sel == EveryPixel ==> forall i :: 0 <= i < |r| ==> r[i] == c
    ensures sel == SinglePixel ==> r[num] == c
    ensures sel == SinglePixel ==> forall i :: 0 <= i < |r| && i != num ==> r[i] == frame[i]
  {
    match sel
    case EveryPixel => seq(|frame|, _ => c)
    case SinglePixel => frame[num := c]
  }

  /** The `Candle` strip: an `Adafruit_NeoPixel` pixel buffer plus the flame
      state. `frames` records, in order, the buffer contents that each `show()`
      pushed to the LEDs. */
  class Candle {
    const pixels: array<Pixel>
    const pixelMode: PixelSelect
    const pixNum: nat

    var mode: CandleState
    var lastModeChange: Millis
    var modeDuration: Millis

    const redPx: int := 255
    const bluePx: int := 15
    const grnHigh: int := 135
    var grnPx: int
    var lastBurnUpdate: Millis
    var direction: int

    ghost var frames: seq<seq<Pixel>>

    ghost predicate Valid()
      reads this
    {
      (direction == 1 || direction == -1) &&
      0 <= grnPx < 256 &&
      modeDuration < ModeDurationBound &&
      (pixelMode == SinglePixel ==> pixNum < pixels.Length)
    }

    /** `Candle(count, pin, type)`: every pixel, mode BURN. */
    constructor (count: nat)
      requires count < 0x1_0000
      ensures Valid() && fresh(pixels)
      ensures pixels.Length == count && pixels[..] == seq(count, _ => Blank) && frames == []
      ensures pixelMode == EveryPixel && pixNum == 0
      ensures mode == Burn && lastModeChange == 0 && modeDuration == 0
      ensures grnPx == InitialGreen && direction == 1 && lastBurnUpdate == 0
    {
      pixels := new Pixel[count](_ => Blank);
      pixelMode, pixNum := EveryPixel, 0;
      mode, lastModeChange, modeDuration := Burn, 0, 0;
      grnPx, direction, lastBurnUpdate := InitialGreen, 1, 0;
      frames := [];
    }

    /** `Candle(count, pin, type, pixel, pixNum)`, as the global instance is
        built: mode, its start and its duration are left at the zero of static
        storage, that is BURN, 0 and 0. */
    constructor WithTarget(count: nat, pixel: PixelSelect, num: nat)
      requires count < 0x1_0000 && num < Modulus
      requires pixel == SinglePixel ==> num < count
      ensures Valid() && fresh(pixels)
      ensures pixels.Length == count && pixels[..] == seq(count, _ => Blank) && frames == []
      ensures pixelMode == pixel && pixNum == num
      ensures mode == Burn && lastModeChange == 0 && modeDuration == 0
      ensures grnPx == InitialGreen && direction == 1 && lastBurnUpdate == 0
    {
      pixels := new Pixel[count](_ => Blank);
      pixelMode, pixNum := pixel, num;
      mode, lastModeChange, modeDuration := Burn, 0, 0;
      grnPx, direction, lastBurnUpdate := InitialGreen, 1, 0;
      frames := [];
    }

    /** `setPixelColor(n, c)`: pixel n of the buffer takes colour c. */
    method SetPixelColor(n: nat, c: Pixel)
      requires n < pixels.Length
      modifies pixels
      ensures pixels[n] == c
      ensures forall i :: 0 <= i < pixels.Length && i != n ==> pixels[i] == old(pixels[i])
    {
      pixels[n] := c;
    }

    /** `show()`: the buffer as it stands goes out to the LEDs. */
    method Show()
      modifies this`frames
      ensures frames == old(frames) + [pixels[..]]
    {
      frames := frames + [pixels[..]];
    }

    /** Whether a `fire(drop, cycle)` at `now` is past its throttle. */
    twostate predicate FireDue(drop: nat, cycle: nat, now: Millis)
      requires drop > 0
    {
      old(Exceeds(now, lastBurnUpdate, FireInterval(drop, cycle)))
    }

    /** The brightness walk of `fire(drop, cycle)` at `now`: one tick of
        `Step` when past the throttle, with the time recorded; nothing otherwise. */
    twostate predicate Walked(drop: nat, cycle: nat, now: Millis)
      requires drop > 0
      reads this
    {
      (old(direction) == 1 || old(direction) == -1) &&
      if FireDue(drop, cycle, now) then
        (grnPx, direction) == Step(old(grnPx), old(direction), grnHigh, drop) &&
        lastBurnUpdate == now
      else
        grnPx == old(grnPx) && direction == old(direction) &&
        lastBurnUpdate == old(lastBurnUpdate)
    }

    /** The output of `fire(drop, cycle)` at `now`: when past the throttle, the
        new colour painted as `pixelMode` says and shown exactly once; otherwise
        neither the buffer nor the LEDs change. */
    twostate predicate Drawn(drop: nat, cycle: nat, now: Millis)
      requires drop > 0
      requires pixelMode == SinglePixel ==> pixNum < pixels.Length
      reads this, pixels
    {
      if FireDue(drop, cycle, now) then
        pixels[..] == Paint(old(pixels[..]), pixelMode, pixNum, (grnPx, redPx, bluePx)) &&
        frames == old(frames) + [pixels[..]]
      else
        pixels[..] == old(pixels[..]) && frames == old(frames)
    }

    /** `fire(greenDropValue, cycleTime)`. */
    method Fire(greenDropValue: nat, cycleTime: nat, now: Millis)
      requires Valid()
      requires 0 < greenDropValue < 256 && cycleTime < Modulus
      modifies this`grnPx, this`direction, this`lastBurnUpdate, this`frames, pixels
      ensures Valid()
      ensures Walked(greenDropValue, cycleTime, now)
      ensures Drawn(greenDropValue, cycleTime, now)
    {
      if Elapsed(now, lastBurnUpdate) > cycleTime / greenDropValue / 2 {
        grnPx := Clamp(Wrap8(grnPx + direction), grnHigh - greenDropValue, grnHigh);
        if grnPx == grnHigh - greenDropValue || grnPx == grnHigh {
          direction := -direction;
        }
        var c := (grnPx, redPx, bluePx);
        match pixelMode {
          case EveryPixel =>
            for i := 0 to pixels.Length
              invariant forall j :: 0 <= j < i ==> pixels[j] == c
              invariant forall j :: i <= j < pixels.Length ==> pixels[j] == old(pixels[j])
              modifies pixels
            {
              SetPixelColor(i, c);
            }
          case SinglePixel =>
            SetPixelColor(pixNum, c);
        }
        assert pixels[..] == Paint(old(pixels[..]), pixelMode, pixNum, c);
        Show();
        lastBurnUpdate := now;
      }
    }

    /** `update()` at `now`, with `random(MODES_MAX_CANDLE)` and
        `random(1000, 8000)` supplied as `pick` and `duration`: re-draw the
        mode when the current one has run out, then `fire` with the mode's drop. */
    method Update(now: Millis, pick: nat, duration: int)
      requires Valid()
      requires pick < 3 && MinModeDuration <= duration < ModeDurationBound
      modifies this`mode, this`lastModeChange, this`modeDuration
      modifies this`grnPx, this`direction, this`lastBurnUpdate, this`frames, pixels
      ensures Valid()
      ensures if old(Exceeds(now, lastModeChange, modeDuration))
              then mode == ModeOf(pick) && modeDuration == duration && lastModeChange == now
              else mode == old(mode) && modeDuration == old(modeDuration) &&
                   lastModeChange == old(lastModeChange)
      ensures !Exceeds(now, lastModeChange, modeDuration)
      ensures Walked(DropOf(mode), CycleTime, now)
      ensures Drawn(DropOf(mode), CycleTime, now)
    {
      if Elapsed(now, lastModeChange) > modeDuration {
        mode := ModeOf(pick);
        modeDuration := duration;
        lastModeChange := now;
      }
      match mode {
        case Burn => Fire(10, 120, now);
        case Flicker => Fire(15, 120, now);
        case Flutter => Fire(30, 120, now);
      }
    }
  }
}
