/**
 The media-clock PLL: one tick every 5 s measures the byte rate against a
 reference and steers the applied correction, by gates, holds, slews and
 corrections.
 */
module Pll {
  import opened PllControl
  import opened Basics

  const TICK: int := 5_000_000
  const SKIP_TICKS: nat := 3
  const GAP_NS: int := 20_000_000_000
  const SANITY: int := 500 * 65_536
  const BREAK: int := 30 * 65_536
  const WINDOW_TICKS: nat := 12
  const WINDOWS: nat := 3
  const CONVERGED: int := 8 * 65_536
  const CROSSED: int := 2 * 65_536
  const GUARDED: int := 5 * 65_536
  const LONG_INTERVAL: int := 120_000_000
  const ACQUIRE: int := 900_000_000
  const ACQUIRE_CAP: int := 2_700_000_000
  const TRIM_CHECK: int := 600_000_000
  const ADC_STALE: int := 15_000_000
  const ADC_SETTLE: int := 180_000_000
  const ADC_WINDOW: int := 120_000_000

  /** Least time between two samples, and least byte rate, that can be measured. */
  const MIN_NS: int := 1_000_000
  const MIN_BYTERATE: int := 1_000

  /** What the sensors give: nothing, a change of sensor, or a pair. */
  datatype Reading = NoReading | Reseed(releasesHold: bool) | Pair(bytes: int, gptp: int)

  /** The talker's ADC rate error, when fresh, and the rate the clock really runs. */
  datatype Adc = Adc(recent: bool, error: int, actual: int, tunable: bool)

  /** Everything a tick depends on besides its own state; a BTC of 0 is unknown. */
  datatype Input = Input(now: int, switched: bool, internal: bool, streamRef: bool, refValid: bool, btc: int,
                         reading: Reading, phase: bool, byterate: int, tuneOk: bool, adc: Adc)

  datatype Tuning = Tuning(interval: int, deadband: int, maxStep: nat)

  /** Whether a measured error is folded into a new target. */
  predicate Corrects(internalMode: bool, hold: bool, now: int, due: int, cumul: int, tuning: Tuning) {
    tuning.interval > 0 && !(internalMode && hold) && now >= due && Abs(cumul) > tuning.deadband
  }

  predicate InternalMode(i: Input) {
    i.internal && !i.streamRef
  }

  predicate Apart(from: int, to: int) {
    to == from || Abs(to - from) >= MIN_NS
  }

  predicate MeasurableRate(listener: int) {
    listener == 0 || listener >= MIN_BYTERATE
  }

  lemma SomethingExpected(listener: int, from: int, to: int)
    requires MeasurableRate(listener) && Apart(from, to)
    ensures to != from ==> ExpectedBytes(listener, to - from) != 0
  {
    var rate := ByterateOf(listener);
    if to != from {
      Monotone(MIN_BYTERATE, rate, Abs(to - from));
      Monotone(MIN_NS, Abs(to - from), MIN_BYTERATE);
      assert rate * (to - from) == if to > from then rate * Abs(to - from) else -(rate * Abs(to - from));
    }
  }

  function Mean(sum: int, count: nat): (m: int)
    requires count > 0
    ensures Abs(m * count - sum) < count
  {
    TruncDivIsNear(sum, count);
    TruncDiv(sum, count)
  }

  // ---- The hold breaker's windows ----------------------------------------

  function SideOf(window: int): int {
    if window > BREAK then 1 else if window < -BREAK then -1 else 0
  }

  /** How many of the last windows lie beyond the limit on one side. */
  function Trailing(windows: seq<int>): nat {
    if windows == [] then 0
    else
      var n := |windows| - 1;
      var side := SideOf(windows[n]);
      if side == 0 then 0
      else if n > 0 && SideOf(windows[n - 1]) == side then Trailing(windows[..n]) + 1
      else 1
  }

  lemma {:induction false} TrailingAreOnOneSide(windows: seq<int>, k: nat)
    requires k < Trailing(windows)
    ensures k < |windows|
    ensures SideOf(windows[|windows| - 1 - k]) == SideOf(windows[|windows| - 1]) != 0
    decreases k
  {
    if k > 0 {
      TrailingAreOnOneSide(windows[..|windows| - 1], k - 1);
    }
  }

  /** The last three windows lie beyond the limit on one side. */
  predicate FarOff(windows: seq<int>)
    requires |windows| >= WINDOWS
  {
    var n := |windows|;
    SideOf(windows[n - 3]) == SideOf(windows[n - 2]) == SideOf(windows[n - 1]) != 0
  }

  lemma FarOffTrails(windows: seq<int>)
    requires |windows| >= WINDOWS && FarOff(windows)
    ensures Trailing(windows) >= WINDOWS
  {
    var n := |windows|;
    var two, one := windows[..n - 1], windows[..n - 1][..n - 2];
    assert one[n - 3] == windows[n - 3] && two[n - 2] == windows[n - 2] && two[n - 3] == windows[n - 3];
    assert Trailing(one) >= 1;
    assert Trailing(two) == Trailing(one) + 1;
  }

  /** Three windows in a row beyond 30 ppm, all fast or all slow. */
  predicate ThreeFarOff(earlier: seq<int>, last: int)
    requires |earlier| >= 2
  {
    var a, b := earlier[|earlier| - 2], earlier[|earlier| - 1];
    || (a > 30 * 65_536 && b > 30 * 65_536 && last > 30 * 65_536)
    || (a < -30 * 65_536 && b < -30 * 65_536 && last < -30 * 65_536)
  }

  lemma FarOffIsThree(earlier: seq<int>, last: int)
    requires |earlier| >= 2
    ensures FarOff(earlier + [last]) <==> ThreeFarOff(earlier, last)
  {
  }

  /** A slew still has more than 5 ppm to go, and the reading is more than 2 ppm beyond it. */
  predicate Overshot(applied: int, target: int, reading: int) {
    && Abs(target - applied) > 5 * 65_536
    && if target > applied then reading > 2 * 65_536 else reading < -2 * 65_536
  }

  /**
   What a measured tick does with its two readings, of the window since the
   baseline and of the last tick alone.  The first beyond reason cancels.  A
   slew is cut on the second tick in a row that finds the clock beyond its
   target, told by the first reading under an internal reference and by the
   second otherwise; at rest nothing is cut.
   */
  ghost predicate Weighed(i: Input, limit: nat, a: View, crossed: nat, since: int, last: int, o: Outcome, crossedAfter: nat) {
    var beyondReason := Abs(since) > if i.streamRef then limit else 500 * 65_536;
    var over := Overshot(a.applied, a.target, if i.internal then since else last);
    && (beyondReason ==> o.Cancelled?)
    && (!beyondReason && a.applied != a.target ==>
          (o.Cancelled? <==> over && crossed >= 1) && crossedAfter == if over && !o.Cancelled? then 1 else 0)
    && (!beyondReason && a.applied == a.target ==> !o.Cancelled?)
  }

  /** An acquisition is over after 45 min, or after 15 min once within 8 ppm. */
  predicate Acquired(i: Input, correctingSince: int, since: int) {
    && i.internal && !i.streamRef && correctingSince != 0
    && (i.now - correctingSince > 2_700_000_000 || (i.now - correctingSince > 900_000_000 && Abs(since) < 8 * 65_536))
  }

  /** An error is to be corrected: beyond 2 ppm under an internal reference, else 0.5 ppm, when due and not held. */
  predicate ToCorrect(i: Input, interval: int, hold: bool, due: int, since: int) {
    && (i.internal || interval > 0) && !(i.internal && !i.streamRef && hold) && i.now >= due
    && Abs(since) > if i.internal then 2 * 65_536 else 32_768
  }

  /** A tick at rest within reason corrects exactly an error that is to be corrected, unless the talker's ADC moved the trim. */
  ghost predicate RestsOrCorrects(i: Input, limit: nat, interval: int, a: View, correctingSince: int, due: int, since: int,
                                  o: Outcome)
  {
    a.applied == a.target && Abs(since) <= (if i.streamRef then limit else 500 * 65_536) && !o.Refined? ==>
      (o.Tracked? <==> ToCorrect(i, interval, a.hold || Acquired(i, correctingSince, since), due, since))
  }

  /** Measurement starts over where a target is given up or landed on, and nowhere else. */
  predicate Restarts(o: Outcome, applied: int, target: int) {
    o.Cancelled? || (o.Slewed? && applied == target)
  }

  /** What a correction is made of, and when the next one is due. */
  predicate CorrectionOf(i: Input, interval: int, due: int, since: int, o: Outcome, dueAfter: int) {
    o.Tracked? ==>
      && o.cumul == since && ToCorrect(i, interval, false, due, since)
      && o.maxStep == (if i.internal then 5 * 65_536 else interval / 1_000_000 * 65_536)
      && dueAfter == i.now + if i.internal && interval < 120_000_000 then 120_000_000 else interval
  }

  lemma QuietIsLegal(a: View, b: View, limit: nat)
    requires b.applied == a.applied && b.target == a.target
    ensures Legal(a, b, Quiet, limit)
  {
  }

  class Servo {
    const limit: nat             // clamp of the correction, 50 to 300 ppm
    const interval: int          // between corrections, 0 for none
    const apll: bool             // whether the hardware clock can be tuned
    var applied: int
    var target: int
    var integrator: int
    var valid: bool
    var baseBytes: int
    var baseGptp: int
    var prevBytes: int
    var prevGptp: int
    var skipped: nat
    var nextTick: int
    var nextCorrection: int
    var crossedTicks: nat
    var refWasValid: bool
    var hold: bool
    var correctingSince: int
    var preloaded: bool
    var holdBtc: int
    var holdBtcKnown: bool
    var trimBtc: int
    var convergedTrim: int
    var lastTrimCheck: int
    var lastTrimValue: int
    var winBytes: int
    var winGptp: int
    var winTicks: nat
    var beyondWindows: nat
    var beyondSide: int
    var adcStart: int
    var adcLast: int
    var adcSum: int
    var adcSamples: nat
    var refineLanding: bool
    ghost var windows: seq<int>  // measured since the hold's windows last started over

    function Seen(): View
      reads this
    {
      View(applied, target, integrator, hold)
    }

    ghost predicate Valid()
      reads this
    {
      && Bounded(Seen(), limit)
      && Abs(convergedTrim) <= limit
      && interval >= 0
      && beyondWindows == Trailing(windows)
      && (beyondWindows > 0 ==> beyondSide == SideOf(windows[|windows| - 1]))
    }

    constructor (limit: nat, interval: int, apll: bool, trimBtc: int)
      requires interval >= 0
      ensures Valid() && Seen() == View(0, 0, 0, false)
    {
      this.limit, this.interval, this.apll := limit, interval, apll;
      applied, target, integrator, valid := 0, 0, 0, false;
      baseBytes, baseGptp, prevBytes, prevGptp := 0, 0, 0, 0;
      skipped, nextTick, nextCorrection, crossedTicks := 0, 0, 0, 0;
      refWasValid, hold, correctingSince, preloaded := false, false, 0, false;
      holdBtc, holdBtcKnown, this.trimBtc, convergedTrim := 0, false, trimBtc, 0;
      lastTrimCheck, lastTrimValue := 0, 0;
      winBytes, winGptp, winTicks, beyondWindows, beyondSide := 0, 0, 0, 0, 0;
      adcStart, adcLast, adcSum, adcSamples, refineLanding := 0, 0, 0, 0, false;
      windows := [];
    }

    /** A persisted trim, before streams start. */
    method PreloadTrim(trim: int, tuneOk: bool)
      requires Valid()
      modifies this`applied, this`target, this`preloaded, this`hold
      ensures Valid()
      ensures tuneOk ==> applied == target == ClampTo(trim, limit) && preloaded && hold
      ensures !tuneOk ==> applied == old(applied) && target == old(target) && hold == old(hold) && preloaded == old(preloaded)
    {
      var clamped := trim;
      if clamped > limit {
        clamped := limit;
      }
      if clamped < 0 - limit {
        clamped := 0 - limit;
      }
      if !tuneOk {
        return;
      }
      applied, target, preloaded, hold := clamped, clamped, true, true;
    }

    /** Writes a trim that moved by more than 2 ppm or was found against another BTC. */
    method PersistTrim(trim: int, btc: int)
      requires Valid() && Abs(trim) <= limit
      modifies this`convergedTrim, this`trimBtc
      ensures Valid()
      ensures var same := old(trimBtc) == btc && Abs(trim - old(convergedTrim)) <= CROSSED;
          (convergedTrim, trimBtc) == if same then old((convergedTrim, trimBtc)) else (trim, btc)
    {
      var delta := trim - convergedTrim;
      if trimBtc == btc && delta <= CROSSED && delta >= -CROSSED {
        return;
      }
      convergedTrim, trimBtc := trim, btc;
    }

    // ---- Gates -------------------------------------------------------------

    /** The windows of the hold breaker start over. */
    method StartWindowsOver()
      modifies this`winTicks, this`beyondWindows, this`windows
      ensures winTicks == 0 && beyondWindows == 0 && windows == [] && Trailing(windows) == 0
    {
      winTicks, beyondWindows := 0, 0;
      windows := [];
    }

    /** Lets a tick through while the internal reference is valid and the same. */
    method ReferenceGate(i: Input) returns (pass: bool)
      requires Valid()
      modifies this`refWasValid, this`valid, this`integrator, this`hold, this`correctingSince, this`holdBtc,
               this`holdBtcKnown, this`winTicks, this`beyondWindows, this`windows
      ensures Valid()
      ensures pass == (!i.internal || (i.refValid && (!old(refWasValid) || !old(holdBtcKnown) || old(holdBtc) == i.btc)))
      ensures hold ==> old(hold)
      ensures valid ==> pass && old(valid) && integrator == old(integrator) && hold == old(hold)
      ensures valid ==> windows == old(windows)
      // A hold survives a reference coming back only if its trim was found against it.
      ensures i.internal && i.refValid && !old(refWasValid) ==>
          hold == (old(hold) && preloaded && trimBtc != 0 && trimBtc == i.btc)
      ensures i.internal && i.refValid && old(refWasValid) ==> hold == (old(hold) && pass)
      ensures !i.internal || !i.refValid ==> hold == old(hold) && integrator == old(integrator)
      ensures i.internal && !(i.refValid && old(refWasValid) && pass) ==> !valid
      ensures pass && (i.internal ==> old(refWasValid)) ==>
          (valid, refWasValid, holdBtc, holdBtcKnown) == old((valid, refWasValid, holdBtc, holdBtcKnown))
      ensures pass && (i.internal ==> old(refWasValid)) ==> (correctingSince, winTicks) == old((correctingSince, winTicks))
      ensures valid ==> (correctingSince, winTicks) == old((correctingSince, winTicks))
    {
      hide Trailing, SideOf;
      pass := true;
      if !i.internal {
        return;
      }
      if !i.refValid {
        refWasValid, valid := false, false;
        return false;
      }
      if !refWasValid {
        var sameBtc := trimBtc != 0 && trimBtc == i.btc;
        refWasValid, holdBtcKnown := true, true;
        NewReference(i, preloaded && sameBtc);
      } else if holdBtcKnown && holdBtc != i.btc {
        NewReference(i, false);
        pass := false;
      }
    }

    /** A reference to start afresh with, holding on if the trim is its own. */
    method NewReference(i: Input, keepHold: bool)
      requires Valid()
      modifies this`valid, this`integrator, this`hold, this`correctingSince, this`holdBtc,
               this`winTicks, this`beyondWindows, this`windows
      ensures Valid() && !valid && integrator == 0 && holdBtc == i.btc
      ensures hold == (old(hold) && keepHold)
      ensures winTicks == 0 && windows == []
      ensures correctingSince == if keepHold then old(correctingSince) else i.now
    {
      integrator, holdBtc, valid := 0, i.btc, false;
      if !keepHold {
        hold, correctingSince := false, i.now;
      }
      StartWindowsOver();
    }

    /** An internal reference is noisy: longer windows, at least two minutes. */
    function TuningOf(i: Input): Tuning
      requires interval >= 0
    {
      if i.internal then Tuning(if interval < LONG_INTERVAL then LONG_INTERVAL else interval, 2 * 65_536, 5 * 65_536)
      else Tuning(interval, 32_768, interval / 1_000_000 * 65_536)
    }

    /**
     An interval of 0 is meant to fix the clock; it does so exactly while the
     reference is not the internal one, whose windows are stretched first.
     */
    lemma ClockIsFixedExactly(i: Input)
      requires interval == 0
      ensures (forall held: bool, now: int, due: int, cumul: int ::
                 !Corrects(InternalMode(i), held, now, due, cumul, TuningOf(i))) <==> !i.internal
    {
      if i.internal {
        assert Corrects(InternalMode(i), false, i.now, i.now, TuningOf(i).deadband + 1, TuningOf(i));
      }
    }

    /** Measurement starts over here. */
    method Rebase(bytes: int, gptp: int, i: Input)
      requires interval >= 0
      modifies this`baseBytes, this`baseGptp, this`nextCorrection
      ensures baseBytes == bytes && baseGptp == gptp && nextCorrection == i.now + TuningOf(i).interval
    {
      baseBytes, baseGptp, nextCorrection := bytes, gptp, i.now + TuningOf(i).interval;
    }

    // ---- Measuring ---------------------------------------------------------

    /** Takes a sample in, or starts over; what is left is to be measured. */
    method TakeSample(i: Input) returns (ready: bool, gap: bool)
      requires Valid() && i.reading.Pair?
      modifies this`valid, this`winTicks, this`baseBytes, this`baseGptp, this`prevBytes, this`prevGptp, this`skipped,
               this`nextCorrection, this`integrator, this`target
      ensures Valid() && !(ready && gap)
      ensures ready == (old(valid) && 0 <= i.reading.gptp - old(prevGptp) <= GAP_NS && old(skipped) >= SKIP_TICKS)
      ensures gap == (old(valid) && !(0 <= i.reading.gptp - old(prevGptp) <= GAP_NS))
      ensures target == if gap then applied else old(target)
      ensures ready ==> Seen() == old(Seen()) && prevGptp == old(prevGptp) && baseGptp == old(baseGptp)
      ensures ready ==> winTicks == old(winTicks) && valid && skipped == old(skipped)
      ensures ready ==> (baseBytes, prevBytes, nextCorrection) == old((baseBytes, prevBytes, nextCorrection))
      // Otherwise measurement starts over at this sample.
      ensures !ready ==> valid && baseBytes == prevBytes == i.reading.bytes && baseGptp == prevGptp == i.reading.gptp
      ensures !ready ==> skipped == if !old(valid) then 0 else if gap then old(skipped) else old(skipped) + 1
      ensures gap ==> integrator == 0
      ensures !ready && !gap ==> integrator == old(integrator)
    {
      hide Trailing, SideOf, TuningOf;
      var bytes, gptp := i.reading.bytes, i.reading.gptp;
      ready, gap := false, false;
      if !valid {
        winTicks := 0;
        Rebase(bytes, gptp, i);
        prevBytes, prevGptp, valid, skipped := bytes, gptp, true, 0;
      } else if gptp - prevGptp < 0 || gptp - prevGptp > GAP_NS {
        gap := true;
        Rebase(bytes, gptp, i);
        prevBytes, prevGptp, integrator, target := bytes, gptp, 0, applied;
      } else if skipped < SKIP_TICKS {
        skipped := skipped + 1;
        Rebase(bytes, gptp, i);
        prevBytes, prevGptp := bytes, gptp;
      } else {
        ready := true;
      }
    }

    /** Error of the window since a baseline. */
    function Error(i: Input, fromBytes: int, fromGptp: int): int
      requires i.reading.Pair? && MeasurableRate(i.byterate) && Apart(fromGptp, i.reading.gptp)
    {
      SomethingExpected(i.byterate, fromGptp, i.reading.gptp);
      ComputePpm(i.byterate, i.reading.bytes - fromBytes, i.reading.gptp - fromGptp)
    }

    /** The reading of the window since the baseline, since the last tick, and of the hold breaker's. */
    ghost function SinceBaseline(i: Input): int
      requires i.reading.Pair? && MeasurableRate(i.byterate) && Apart(baseGptp, i.reading.gptp)
      reads this`baseBytes, this`baseGptp
    {
      SomethingExpected(i.byterate, baseGptp, i.reading.gptp);
      ComputePpm(i.byterate, i.reading.bytes - baseBytes, i.reading.gptp - baseGptp)
    }

    ghost function SinceLastTick(i: Input): int
      requires i.reading.Pair? && MeasurableRate(i.byterate) && Apart(prevGptp, i.reading.gptp)
      reads this`prevBytes, this`prevGptp
    {
      SomethingExpected(i.byterate, prevGptp, i.reading.gptp);
      ComputePpm(i.byterate, i.reading.bytes - prevBytes, i.reading.gptp - prevGptp)
    }

    ghost function SinceWindow(i: Input): int
      requires i.reading.Pair? && MeasurableRate(i.byterate) && Apart(winGptp, i.reading.gptp)
      reads this`winBytes, this`winGptp
    {
      SomethingExpected(i.byterate, winGptp, i.reading.gptp);
      ComputePpm(i.byterate, i.reading.bytes - winBytes, i.reading.gptp - winGptp)
    }

    lemma WindowIsFar(i: Input)
      requires i.reading.Pair? && MeasurableRate(i.byterate) && Apart(winGptp, i.reading.gptp)
      ensures Error(i, winBytes, winGptp) == SinceWindow(i)
      ensures |windows| >= 2 ==>
          (FarOff(windows + [Error(i, winBytes, winGptp)]) <==> ThreeFarOff(windows, SinceWindow(i)))
    {
      if |windows| >= 2 {
        FarOffIsThree(windows, Error(i, winBytes, winGptp));
      }
    }

    /** Releases a hold whose trim three windows in a row found far off on one side. */
    method HoldBreaker(i: Input) returns (broken: bool)
      requires Valid() && hold && i.reading.Pair? && MeasurableRate(i.byterate) && Apart(winGptp, i.reading.gptp)
      modifies this`winBytes, this`winGptp, this`winTicks, this`beyondWindows, this`beyondSide, this`windows, this`hold,
               this`correctingSince, this`integrator, this`baseBytes, this`baseGptp, this`nextCorrection
      ensures Valid()
      ensures hold == !broken
      ensures !broken ==> integrator == old(integrator) && baseGptp == old(baseGptp) && baseBytes == old(baseBytes)
      ensures !broken ==> (nextCorrection, correctingSince) == old((nextCorrection, correctingSince))
      ensures broken <==>
          && old(winTicks) >= WINDOW_TICKS && |old(windows)| >= 2
          && FarOff(old(windows) + [old(Error(i, winBytes, winGptp))])
      // In full: each window takes 12 ticks; the hold breaks on the third in a row beyond 30 ppm on one side.
      ensures broken <==> old(winTicks) >= 12 && |old(windows)| >= 2 && ThreeFarOff(old(windows), old(SinceWindow(i)))
      ensures broken ==> correctingSince == i.now && baseBytes == i.reading.bytes && baseGptp == i.reading.gptp
      ensures !broken && old(winTicks) >= WINDOW_TICKS ==>
          windows == old(windows) + [old(Error(i, winBytes, winGptp))] && winTicks == 1
      ensures old(winTicks) < WINDOW_TICKS ==> !broken && windows == old(windows) && winTicks == old(winTicks) + 1
    {
      hide Trailing, SideOf, TuningOf, FarOff, ThreeFarOff, SinceWindow, Error, Bounded, Apart, MeasurableRate;
      WindowIsFar(i);
      broken := false;
      if winTicks == 0 {
        winBytes, winGptp := i.reading.bytes, i.reading.gptp;
      } else if winTicks >= WINDOW_TICKS {
        var window := Error(i, winBytes, winGptp);
        CountWindow(window);
        winBytes, winGptp, winTicks := i.reading.bytes, i.reading.gptp, 0;
        if beyondWindows >= WINDOWS {
          ReleaseHold(i);
          return true;
        }
      }
      winTicks := winTicks + 1;
    }

    /** A hold given up: acquire anew, from here. */
    method ReleaseHold(i: Input)
      requires Valid() && i.reading.Pair?
      modifies this`winTicks, this`beyondWindows, this`windows, this`hold,
               this`correctingSince, this`integrator, this`baseBytes, this`baseGptp, this`nextCorrection
      ensures Valid() && !hold && correctingSince == i.now && integrator == 0 && windows == [] && winTicks == 0
      ensures baseBytes == i.reading.bytes && baseGptp == i.reading.gptp
    {
      hide Trailing, SideOf, TuningOf;
      hold, correctingSince, integrator := false, i.now, 0;
      StartWindowsOver();
      Rebase(i.reading.bytes, i.reading.gptp, i);
    }

    method CountWindow(window: int)
      requires beyondWindows == Trailing(windows)
      requires beyondWindows > 0 ==> beyondSide == SideOf(windows[|windows| - 1])
      modifies this`beyondWindows, this`beyondSide, this`windows
      ensures windows == old(windows) + [window] && beyondWindows == Trailing(windows) && beyondSide == SideOf(window)
      ensures beyondWindows >= WINDOWS <==> |old(windows)| >= 2 && FarOff(windows)
    {
      var side := if window > BREAK then 1 else if window < -BREAK then -1 else 0;
      if side == 0 {
        beyondWindows := 0;
      } else if side == beyondSide {
        beyondWindows := beyondWindows + 1;
      } else {
        beyondWindows := 1;
      }
      beyondSide := side;
      ghost var before := windows;
      windows := windows + [window];
      assert windows[..|before|] == before;
      if beyondWindows >= WINDOWS {
        TrailingAreOnOneSide(windows, 1);
        TrailingAreOnOneSide(windows, 2);
      } else if |before| >= 2 && FarOff(windows) {
        FarOffTrails(windows);
      }
    }

    /** Refuses a reading beyond reason, and whatever was aimed at on its like. */
    method SanityCheck(i: Input, cumul: int) returns (rejected: bool)
      requires Valid() && i.reading.Pair?
      modifies this`baseBytes, this`baseGptp, this`integrator, this`target, this`nextCorrection
      ensures Valid()
      ensures rejected == (Abs(cumul) > if i.streamRef then limit else SANITY)
      ensures rejected ==> target == applied && integrator == 0
      ensures rejected ==> baseBytes == i.reading.bytes && baseGptp == i.reading.gptp
      ensures !rejected ==> (target, integrator, nextCorrection) == old((target, integrator, nextCorrection))
      ensures !rejected ==> (baseBytes, baseGptp) == old((baseBytes, baseGptp))
    {
      var sane: int := if i.streamRef then limit else SANITY;
      rejected := cumul > sane || cumul < -sane;
      if rejected {
        Rebase(i.reading.bytes, i.reading.gptp, i);
        integrator, target := 0, applied;
      }
    }

    // ---- Slewing -----------------------------------------------------------

    /** The clock already runs beyond where the slew still pushes it. */
    predicate Crossed(crossing: int)
      reads this`applied, this`target
    {
      if target > applied then crossing > CROSSED else crossing < -CROSSED
    }

    method Slew(i: Input, cumul: int, inst: int) returns (o: Outcome)
      requires Valid() && applied != target && i.reading.Pair?
      modifies this`applied, this`target, this`crossedTicks, this`baseBytes, this`baseGptp, this`nextCorrection,
               this`convergedTrim, this`trimBtc, this`refineLanding
      ensures Valid() && Legal(old(Seen()), Seen(), o, limit)
      ensures o.Cancelled? || o == Slewed(i.tuneOk)
      ensures o.Cancelled? <==> old(Aborts(i, cumul, inst)) && old(crossedTicks) >= 1
      ensures crossedTicks == if old(Aborts(i, cumul, inst)) && !o.Cancelled? then 1 else 0
      // Measurement starts over when the slew lands or is cut short.
      ensures applied == target ==> baseBytes == i.reading.bytes && baseGptp == i.reading.gptp
      ensures applied != target ==> (baseBytes, baseGptp) == old((baseBytes, baseGptp))
    {
      hide Trailing, SideOf, TuningOf, ClampTo, SlewMove;
      var cut := CrossingGuard(i, cumul, inst);
      if cut {
        return Cancelled;
      }
      Move(i);
      o := Slewed(i.tuneOk);
    }

    predicate Aborts(i: Input, cumul: int, inst: int)
      reads this`applied, this`target
    {
      Crossed(if i.internal then cumul else inst) && Abs(target - applied) > GUARDED
    }

    /** Cuts a slew short on its second tick in a row on the far side. */
    method CrossingGuard(i: Input, cumul: int, inst: int) returns (cut: bool)
      requires Valid() && applied != target && i.reading.Pair?
      modifies this`target, this`crossedTicks, this`baseBytes, this`baseGptp, this`nextCorrection
      ensures Valid()
      ensures cut == (old(Aborts(i, cumul, inst)) && old(crossedTicks) >= 1)
      ensures crossedTicks == if old(Aborts(i, cumul, inst)) && !cut then 1 else 0
      ensures target == if cut then applied else old(target)
      ensures cut ==> baseBytes == i.reading.bytes && baseGptp == i.reading.gptp
      ensures !cut ==> (baseBytes, baseGptp) == old((baseBytes, baseGptp))
    {
      hide Trailing, SideOf, TuningOf;
      var up := target > applied;
      var crossing := if i.internal then cumul else inst;
      var crossed := (up && crossing > CROSSED) || (!up && crossing < -CROSSED);
      var remaining := if up then target - applied else applied - target;
      cut := false;
      if crossed && remaining > GUARDED {
        crossedTicks := crossedTicks + 1;
        if crossedTicks >= 2 {
          target, crossedTicks := applied, 0;
          Rebase(i.reading.bytes, i.reading.gptp, i);
          cut := true;
        }
      } else {
        crossedTicks := 0;
      }
    }

    /** One bounded step toward the target, if the hardware takes it. */
    method Move(i: Input)
      requires Valid() && applied != target && i.reading.Pair?
      modifies this`applied, this`baseBytes, this`baseGptp, this`nextCorrection,
               this`convergedTrim, this`trimBtc, this`refineLanding
      ensures Valid()
      ensures applied == if i.tuneOk then old(applied) + SlewMove(old(applied), target) else old(applied)
      ensures applied == target ==> baseBytes == i.reading.bytes && baseGptp == i.reading.gptp
      ensures applied != target ==> (baseBytes, baseGptp) == old((baseBytes, baseGptp))
    {
      hide Trailing, SideOf, TuningOf;
      var remaining := if target > applied then target - applied else applied - target;
      var slew := target - applied;
      var slewLimit := if remaining > FAR then SLEW_FAR else SLEW_NEAR;
      if slew > slewLimit {
        slew := slewLimit;
      }
      if slew < -slewLimit {
        slew := -slewLimit;
      }
      assert slew == SlewMove(applied, target);
      hide SlewMove, ClampTo;
      if i.tuneOk {
        applied := applied + slew;
        if applied == target {
          Rebase(i.reading.bytes, i.reading.gptp, i);
          if refineLanding && hold {
            PersistTrim(applied, i.btc);
          }
          refineLanding := false;
        }
      }
    }

    // ---- Refining, holding, correcting -------------------------------------

    /** Moves a held trim by the talker's averaged ADC reading. */
    method Refine(i: Input) returns (refined: bool)
      requires Valid() && applied == target && hold
      modifies this`target, this`adcStart, this`adcLast, this`adcSum, this`adcSamples, this`refineLanding
      ensures Valid()
      ensures !refined ==> target == old(target)
      // Only over two minutes of readings that never went stale, their mean at least 1 ppm.
      ensures refined ==>
          && i.adc.recent && refineLanding && i.now - old(adcLast) <= ADC_STALE
          && old(adcStart) != 0 && i.now - old(adcStart) >= ADC_WINDOW
          && var mean := Mean(old(adcSum) + i.adc.error, old(adcSamples) + 1);
             Abs(mean) >= REFINE_MIN && target == ClampTo(i.adc.actual - ClampTo(mean, REFINE_MAX), limit)
      // And whenever that is so: readings 15 s apart at most, over 2 min and with a mean of 1 ppm.
      ensures i.adc.recent && i.now - old(adcLast) <= 15_000_000 ==>
          old(adcStart) != 0 && i.now - old(adcStart) >= 120_000_000 ==>
          Abs(Mean(old(adcSum) + i.adc.error, old(adcSamples) + 1)) >= 65_536 ==> refined
    {
      hide Trailing, SideOf, Mean;
      var resumed := i.now - adcLast > ADC_STALE;
      adcLast := i.now;
      if !i.adc.recent || resumed {
        adcStart := 0;
      }
      if i.adc.recent && adcStart == 0 {
        adcStart, adcSum, adcSamples := i.now + ADC_SETTLE, 0, 0;
      } else if i.adc.recent && i.now >= adcStart {
        adcSum, adcSamples := adcSum + i.adc.error, adcSamples + 1;
      }
      var mean := if adcSamples > 0 then Mean(adcSum, adcSamples) else 0;
      refined := i.adc.recent && adcStart != 0 && i.now - adcStart >= ADC_WINDOW && Abs(mean) >= REFINE_MIN;
      if i.adc.recent && adcStart != 0 && i.now - adcStart >= ADC_WINDOW {
        adcStart, adcSum, adcSamples := i.now, 0, 0;
      }
      if refined {
        target := ClampTo(i.adc.actual - ClampTo(mean, REFINE_MAX), limit);
        adcStart, refineLanding := 0, true;
      }
    }

    /** Latches the hold when a time-boxed acquisition is over. */
    method CloseAcquisition(i: Input, cumul: int)
      requires Valid()
      modifies this`hold
      ensures Valid()
      ensures hold == (old(hold) || (InternalMode(i) && correctingSince != 0 && applied == target
          && (i.now - correctingSince > ACQUIRE_CAP || (i.now - correctingSince > ACQUIRE && Abs(cumul) < CONVERGED))))
      ensures applied == target ==> hold == (old(hold) || Acquired(i, correctingSince, cumul))
    {
      if InternalMode(i) && !hold && correctingSince != 0 && applied == target {
        var acquiring := i.now - correctingSince;
        if (acquiring > ACQUIRE && Abs(cumul) < CONVERGED) || acquiring > ACQUIRE_CAP {
          hold := true;
        }
      }
    }

    /** Folds the measured error into a new target. */
    method Correct(i: Input, cumul: int) returns (o: Outcome)
      requires Valid() && applied == target
      modifies this`integrator, this`target, this`nextCorrection
      ensures Valid() && Legal(old(Seen()), Seen(), o, limit)
      ensures var tuning := TuningOf(i);
          o == if Corrects(InternalMode(i), hold, i.now, old(nextCorrection), cumul, tuning)
               then Tracked(cumul, tuning.maxStep) else Quiet
      ensures o.Tracked? <==> ToCorrect(i, interval, hold, old(nextCorrection), cumul)
      ensures CorrectionOf(i, interval, old(nextCorrection), cumul, o, nextCorrection)
    {
      hide Trailing, SideOf, Integrated, Correction;
      var tuning := TuningOf(i);
      o := Quiet;
      if tuning.interval > 0 && !(InternalMode(i) && hold) && i.now >= nextCorrection
        && (cumul > tuning.deadband || cumul < -tuning.deadband)
      {
        integrator := Integrated(integrator, cumul);
        target := ClampTo(applied - Correction(cumul, integrator, tuning.maxStep), limit);
        nextCorrection := i.now + tuning.interval;
        o := Tracked(cumul, tuning.maxStep);
      }
    }

    /** Every ten minutes at rest: holds and persists a trim that stays put. */
    method CheckTrim(i: Input, cumul: int)
      requires Valid()
      modifies this`lastTrimCheck, this`lastTrimValue, this`hold, this`convergedTrim, this`trimBtc
      ensures Valid()
      ensures var due := applied == target && i.now - old(lastTrimCheck) > TRIM_CHECK;
          var stable := Abs(applied - old(lastTrimValue)) < CROSSED && Abs(cumul) < CONVERGED;
          && hold == (old(hold) || (due && stable && InternalMode(i)))
          && (!(due && stable) ==> (convergedTrim, trimBtc) == old((convergedTrim, trimBtc)))
          && (due && stable ==> Abs(convergedTrim - applied) <= CROSSED && trimBtc == i.btc)
    {
      if applied == target && i.now - lastTrimCheck > TRIM_CHECK {
        var moved := applied - lastTrimValue;
        var stable := moved < CROSSED && moved > -CROSSED && Abs(cumul) < CONVERGED;
        lastTrimCheck, lastTrimValue := i.now, applied;
        if stable && InternalMode(i) && !hold {
          hold := true;
        }
        if stable {
          PersistTrim(applied, i.btc);
        }
      }
    }

    // ---- One tick ----------------------------------------------------------

    /** Samples can be told apart from the ones they are measured against. */
    ghost predicate Measurable(i: Input)
      reads this
    {
      && MeasurableRate(i.byterate)
      && (i.streamRef ==> i.internal)
      && (i.reading.Pair? ==>
            Apart(prevGptp, i.reading.gptp) && Apart(baseGptp, i.reading.gptp) && Apart(winGptp, i.reading.gptp))
    }

    /** The 12-tick window that now closes is the third in a row far off on one side of a held internal trim. */
    ghost predicate Breaks(i: Input)
      reads this`hold, this`windows, this`winTicks, this`winBytes, this`winGptp
    {
      && i.internal && !i.streamRef && hold && i.reading.Pair? && winTicks >= 12 && |windows| >= 2
      && MeasurableRate(i.byterate) && Apart(winGptp, i.reading.gptp)
      && ThreeFarOff(windows, SinceWindow(i))
    }

    /** The sensors give a sample that follows the last one closely, past the start-up skips. */
    ghost predicate Sampled(i: Input)
      reads this
    {
      && valid && skipped >= SKIP_TICKS && i.reading.Pair? && (apll || (i.streamRef && i.phase))
      && 0 <= i.reading.gptp - prevGptp <= GAP_NS
    }

    /** A due tick under the reference of the tick before, with a sample to measure. */
    ghost predicate Clean(i: Input)
      reads this
    {
      i.now >= nextTick && !i.switched && Sampled(i) && SameReference(i)
    }

    /** Reads the sensors; some outcome when the tick ends there. */
    method Sample(i: Input) returns (ended: Option<Outcome>)
      requires Valid() && Measurable(i)
      modifies this`valid, this`winTicks, this`baseBytes, this`baseGptp, this`prevBytes, this`prevGptp, this`skipped,
               this`nextCorrection, this`integrator, this`target, this`hold
      ensures Valid()
      ensures hold == (old(hold) && !(i.reading == Reseed(true) && !preloaded))
      ensures ended.Some? ==> ended.value in {Quiet, Cancelled}
      ensures target == if ended == Some(Cancelled) then applied else old(target)
      ensures ended.None? ==>
          && i.reading.Pair? && old(valid) && Seen() == old(Seen())
          && prevGptp == old(prevGptp) && baseGptp == old(baseGptp) && winTicks == old(winTicks)
          && (baseBytes, prevBytes, nextCorrection) == old((baseBytes, prevBytes, nextCorrection))
          && valid && skipped == old(skipped)
      ensures old(Sampled(i)) ==> ended.None?
      ensures !old(valid) ==> ended == Some(Quiet)
    {
      hide Trailing, SideOf, TuningOf, Measurable;
      match i.reading {
        case NoReading =>
          valid := false;
        case Reseed(releases) =>
          integrator, valid := 0, false;
          if releases && !preloaded {
            hold := false;
          }
        case Pair(_, _) =>
          if !apll && !(i.streamRef && i.phase) {
            valid := false;
          } else {
            var ready, gap := TakeSample(i);
            return if ready then None else if gap then Some(Cancelled) else Some(Quiet);
          }
      }
      ended := Some(Quiet);
    }

    lemma ErrorsAre(i: Input)
      requires Measurable(i) && i.reading.Pair?
      ensures Error(i, baseBytes, baseGptp) == SinceBaseline(i)
      ensures Error(i, prevBytes, prevGptp) == SinceLastTick(i)
      ensures Error(i, winBytes, winGptp) == SinceWindow(i)
    {
    }

    /** What a clean measurement leads to. */
    method Steer(i: Input) returns (o: Outcome, ghost broken: bool)
      requires Valid() && Measurable(i) && i.reading.Pair?
      modifies this`target, this`applied, this`crossedTicks, this`integrator, this`baseBytes, this`baseGptp, this`nextCorrection,
               this`convergedTrim, this`trimBtc, this`refineLanding, this`adcStart, this`adcLast, this`adcSum, this`adcSamples,
               this`hold, this`lastTrimCheck, this`lastTrimValue, this`prevBytes, this`prevGptp, this`winBytes,
               this`winGptp, this`winTicks, this`beyondWindows, this`beyondSide, this`windows, this`correctingSince
      ensures Valid() && Legal(old(Seen()), Seen(), o, limit)
      ensures prevGptp == i.reading.gptp && Moves(old(Seen()), o, broken, i.tuneOk)
      ensures prevBytes == i.reading.bytes
      ensures (baseBytes, baseGptp) == if broken || Restarts(o, applied, target) then (i.reading.bytes, i.reading.gptp)
                                       else old((baseBytes, baseGptp))
      ensures o.Tracked? ==> !(InternalMode(i) && old(hold))
      ensures o.Refined? ==> InternalMode(i) && apll && i.adc.recent
      ensures old(hold) && !hold ==> broken
      ensures broken <==> old(Breaks(i))
      // Which window is read for what.
      ensures !broken ==>
          Weighed(i, limit, old(Seen()), old(crossedTicks), old(SinceBaseline(i)), old(SinceLastTick(i)), o, crossedTicks)
      ensures !broken ==>
          RestsOrCorrects(i, limit, interval, old(Seen()), old(correctingSince), old(nextCorrection), old(SinceBaseline(i)), o)
      ensures o.Tracked? ==> CorrectionOf(i, interval, old(nextCorrection), old(SinceBaseline(i)), o, nextCorrection)
    {
      hide Trailing, SideOf, TuningOf, Error, Bounded, FarOff, SinceBaseline, SinceLastTick, Weighed, RestsOrCorrects,
           CorrectionOf, Legal, ThreeFarOff, SinceWindow, Apart, MeasurableRate;
      ErrorsAre(i);
      var inst, cumul := Error(i, prevBytes, prevGptp), Error(i, baseBytes, baseGptp);
      prevBytes, prevGptp := i.reading.bytes, i.reading.gptp;
      o, broken := Quiet, false;
      if InternalMode(i) && hold {
        var gaveUp := HoldBreaker(i);
        if gaveUp {
          QuietIsLegal(old(Seen()), Seen(), limit);
          broken := true;
          return;
        }
      }
      o := Judge(i, inst, cumul);
    }

    /** A reading taken for good: refused, slewed by, or acted on at rest. */
    method Judge(i: Input, inst: int, cumul: int) returns (o: Outcome)
      requires Valid() && i.reading.Pair?
      modifies this`target, this`applied, this`crossedTicks, this`integrator, this`baseBytes, this`baseGptp, this`nextCorrection,
               this`convergedTrim, this`trimBtc, this`refineLanding, this`adcStart, this`adcLast, this`adcSum, this`adcSamples,
               this`hold, this`lastTrimCheck, this`lastTrimValue
      ensures Valid() && Legal(old(Seen()), Seen(), o, limit) && Moves(old(Seen()), o, false, i.tuneOk)
      ensures o.Tracked? ==> !(InternalMode(i) && old(hold))
      ensures o.Refined? ==> InternalMode(i) && apll && i.adc.recent
      ensures old(hold) ==> hold
      ensures Weighed(i, limit, old(Seen()), old(crossedTicks), cumul, inst, o, crossedTicks)
      ensures RestsOrCorrects(i, limit, interval, old(Seen()), old(correctingSince), old(nextCorrection), cumul, o)
      ensures CorrectionOf(i, interval, old(nextCorrection), cumul, o, nextCorrection)
      ensures (baseBytes, baseGptp) == if Restarts(o, applied, target) then (i.reading.bytes, i.reading.gptp)
                                       else old((baseBytes, baseGptp))
    {
      hide Trailing, SideOf, TuningOf, Correction, Integrated, ClampTo, SlewMove, Bounded, ToCorrect, Acquired;
      var rejected := SanityCheck(i, cumul);
      if rejected {
        return Cancelled;
      }
      if applied != target {
        o := Slew(i, cumul, inst);
        return;
      }
      o := AtRest(i, cumul);
    }

    /** A tick that finds the correction where it was sent. */
    method AtRest(i: Input, cumul: int) returns (o: Outcome)
      requires Valid() && applied == target
      modifies this`target, this`adcStart, this`adcLast, this`adcSum, this`adcSamples, this`refineLanding, this`hold,
               this`integrator, this`nextCorrection, this`lastTrimCheck, this`lastTrimValue, this`convergedTrim, this`trimBtc
      ensures Valid() && Legal(old(Seen()), Seen(), o, limit)
      ensures o.Tracked? ==> !(InternalMode(i) && old(hold))
      ensures o.Refined? ==> InternalMode(i) && apll && i.adc.recent
      ensures old(hold) ==> hold
      ensures !o.Cancelled?
      ensures !o.Refined? ==>
          (o.Tracked? <==>
             ToCorrect(i, interval, old(hold) || Acquired(i, correctingSince, cumul), old(nextCorrection), cumul))
      ensures CorrectionOf(i, interval, old(nextCorrection), cumul, o, nextCorrection)
    {
      hide Trailing, SideOf, TuningOf, Correction, Integrated, ToCorrect, Acquired;
      if apll && InternalMode(i) && hold && i.adc.tunable {
        var refined := Refine(i);
        if refined {
          return Refined;
        }
      }
      CloseAcquisition(i, cumul);
      o := Correct(i, cumul);
      CheckTrim(i, cumul);
    }

    /** A sample is taken and, if it can be measured, acted on. */
    method Measure(i: Input) returns (o: Outcome, ghost broken: bool)
      requires Valid() && Measurable(i)
      modifies this`target, this`applied, this`crossedTicks, this`integrator, this`baseBytes, this`baseGptp, this`nextCorrection,
               this`convergedTrim, this`trimBtc, this`refineLanding, this`adcStart, this`adcLast, this`adcSum, this`adcSamples,
               this`hold, this`lastTrimCheck, this`lastTrimValue, this`prevBytes, this`prevGptp, this`winBytes,
               this`winGptp, this`winTicks, this`beyondWindows, this`beyondSide, this`windows, this`correctingSince,
               this`valid, this`skipped
      ensures Valid() && Legal(old(Seen()), Seen(), o, limit)
      ensures o.Tracked? ==> !(InternalMode(i) && old(hold))
      ensures o.Refined? ==> InternalMode(i) && apll && i.adc.recent
      ensures old(hold) && !hold ==> (i.reading == Reseed(true) && !preloaded) || broken
      ensures broken ==> old(Breaks(i))
      ensures old(Sampled(i)) ==> (broken <==> old(Breaks(i)))
      ensures old(Sampled(i)) ==>
          Moves(old(Seen()), o, broken, i.tuneOk) && prevGptp == i.reading.gptp && valid && skipped == old(skipped)
      ensures old(Sampled(i)) ==> prevBytes == i.reading.bytes
      ensures old(Sampled(i)) ==>
          (baseBytes, baseGptp) == if broken || Restarts(o, applied, target) then (i.reading.bytes, i.reading.gptp)
                                   else old((baseBytes, baseGptp))
      ensures old(Sampled(i)) && !broken ==>
          Weighed(i, limit, old(Seen()), old(crossedTicks), old(SinceBaseline(i)), old(SinceLastTick(i)), o, crossedTicks)
      ensures old(Sampled(i)) && !broken ==>
          RestsOrCorrects(i, limit, interval, old(Seen()), old(correctingSince), old(nextCorrection), old(SinceBaseline(i)), o)
      ensures o.Tracked? ==> i.reading.Pair?
      ensures o.Tracked? ==> CorrectionOf(i, interval, old(nextCorrection), old(SinceBaseline(i)), o, nextCorrection)
      ensures !old(valid) ==> o == Quiet && !broken && applied == old(applied) && target == old(target)
      ensures !old(valid) ==> hold == (old(hold) && !(i.reading == Reseed(true) && !preloaded))
      ensures i.reading == Reseed(true) && !preloaded ==> !hold
    {
      hide Trailing, SideOf, TuningOf, Error, Bounded, FarOff, SinceBaseline, SinceLastTick, Weighed, RestsOrCorrects,
           CorrectionOf;
      broken := false;
      var taken := Sample(i);
      if taken.Some? {
        o := taken.value;
        return;
      }
      o, broken := Steer(i);
    }

    /** The reference of the sample before is still there, and has been. */
    ghost predicate SameReference(i: Input)
      reads this
    {
      i.internal ==> i.refValid && refWasValid && (!holdBtcKnown || holdBtc == i.btc)
    }

    /** A due tick: gated by its reference, then measured. */
    method Gated(i: Input) returns (o: Outcome, ghost broken: bool)
      requires Valid() && Measurable(i)
      modifies this
      ensures Valid() && Legal(old(Seen()), Seen(), o, limit) && nextTick == old(nextTick)
      ensures o.Tracked? ==> !(InternalMode(i) && old(hold))
      ensures o.Refined? ==> InternalMode(i) && apll && i.adc.recent
      ensures old(hold) && !hold ==>
          || (i.internal && i.refValid && (!old(refWasValid) || old(holdBtc) != i.btc))
          || (i.reading == Reseed(true) && !old(preloaded))
          || broken
      ensures i.internal && i.refValid && !old(refWasValid) ==>
          hold == (old(hold) && old(preloaded) && old(trimBtc) != 0 && old(trimBtc) == i.btc)
      ensures i.internal && i.refValid && old(refWasValid) && old(holdBtcKnown) && old(holdBtc) != i.btc ==> !hold
      ensures i.internal && !i.refValid ==> hold == old(hold) && !valid
      ensures !i.internal && i.reading == Reseed(true) && !old(preloaded) ==> !hold
      ensures broken ==> old(Breaks(i))
      ensures old(Sampled(i)) && old(SameReference(i)) ==> (broken <==> old(Breaks(i)))
      ensures old(Sampled(i)) && old(SameReference(i)) ==>
          && Moves(old(Seen()), o, broken, i.tuneOk) && prevGptp == i.reading.gptp
          && valid && skipped == old(skipped) && refWasValid == old(refWasValid)
          && holdBtc == old(holdBtc) && holdBtcKnown == old(holdBtcKnown)
      ensures old(Sampled(i)) && old(SameReference(i)) ==> prevBytes == i.reading.bytes
      ensures old(Sampled(i)) && old(SameReference(i)) ==>
          (baseBytes, baseGptp) == if broken || Restarts(o, applied, target) then (i.reading.bytes, i.reading.gptp)
                                   else old((baseBytes, baseGptp))
      ensures old(Sampled(i)) && old(SameReference(i)) && !broken ==>
          Weighed(i, limit, old(Seen()), old(crossedTicks), old(SinceBaseline(i)), old(SinceLastTick(i)), o, crossedTicks)
      ensures old(Sampled(i)) && old(SameReference(i)) && !broken ==>
          RestsOrCorrects(i, limit, interval, old(Seen()), old(correctingSince), old(nextCorrection), old(SinceBaseline(i)), o)
      ensures o.Tracked? ==> i.reading.Pair?
      ensures o.Tracked? ==> CorrectionOf(i, interval, old(nextCorrection), old(SinceBaseline(i)), o, nextCorrection)
    {
      hide Trailing, SideOf, TuningOf, Error, Bounded, FarOff, Moves, Legal, SinceBaseline, SinceLastTick, Weighed,
           RestsOrCorrects, CorrectionOf, Breaks, Servo.Valid;
      broken := false;
      o := Quiet;
      var pass := ReferenceGate(i);
      if !pass {
        QuietIsLegal(old(Seen()), Seen(), limit);
        return;
      }
      ghost var measured := valid;
      o, broken := Measure(i);
      if !measured {
        QuietIsLegal(old(Seen()), Seen(), limit);
      }
    }

    method Tick(i: Input) returns (o: Outcome, ghost broken: bool)
      requires Valid() && Measurable(i)
      modifies this
      ensures Valid() && Legal(old(Seen()), Seen(), o, limit)
      ensures i.now < old(nextTick) ==> o.Quiet? && Seen() == old(Seen())
      // A held internal trim is not corrected; only the talker's ADC moves it.
      ensures o.Tracked? ==> !(InternalMode(i) && old(hold))
      ensures o.Refined? ==> InternalMode(i) && apll && i.adc.recent
      // What ends a hold: a new reference, another sensor, or three windows far off on one side.
      ensures old(hold) && !hold ==>
          || (i.internal && i.refValid && (!old(refWasValid) || old(holdBtc) != i.btc))
          || (i.reading == Reseed(true) && !old(preloaded))
          || broken
      // And each ends it: a reference that came back keeps only a preloaded trim found against it.
      ensures i.now >= old(nextTick) && i.internal && i.refValid && !old(refWasValid) ==>
          hold == (old(hold) && old(preloaded) && old(trimBtc) != 0 && old(trimBtc) == i.btc)
      ensures i.now >= old(nextTick) && i.internal && i.refValid && old(refWasValid) ==>
          old(holdBtcKnown) && old(holdBtc) != i.btc ==> !hold
      ensures i.now >= old(nextTick) && !i.internal && i.reading == Reseed(true) && !old(preloaded) ==> !hold
      ensures broken ==> old(Breaks(i))
      ensures old(Clean(i)) ==> (broken <==> old(Breaks(i)))
      // A clean tick in mid-slew moves, and leaves the next one as clean as its own input is.
      ensures old(Clean(i)) ==>
          && Moves(old(Seen()), o, broken, i.tuneOk) && nextTick == i.now + TICK && prevGptp == i.reading.gptp
          && valid && skipped == old(skipped) && refWasValid == old(refWasValid)
          && holdBtc == old(holdBtc) && holdBtcKnown == old(holdBtcKnown)
      // The window since the baseline is weighed for reason and corrected by, the last tick's cuts a slew to another's clock.
      ensures old(Clean(i)) ==> prevBytes == i.reading.bytes
      ensures old(Clean(i)) ==>
          (baseBytes, baseGptp) == if broken || Restarts(o, applied, target) then (i.reading.bytes, i.reading.gptp)
                                   else old((baseBytes, baseGptp))
      ensures old(Clean(i)) && !broken ==>
          Weighed(i, limit, old(Seen()), old(crossedTicks), old(SinceBaseline(i)), old(SinceLastTick(i)), o, crossedTicks)
      ensures old(Clean(i)) && !broken ==>
          RestsOrCorrects(i, limit, interval, old(Seen()), old(correctingSince), old(nextCorrection), old(SinceBaseline(i)), o)
      ensures o.Tracked? ==> i.reading.Pair?
      ensures o.Tracked? ==> CorrectionOf(i, interval, old(nextCorrection), old(SinceBaseline(i)), o, nextCorrection)
    {
      hide Trailing, SideOf, TuningOf, Error, Bounded, FarOff, SinceBaseline, SinceLastTick, Weighed, RestsOrCorrects,
           CorrectionOf;
      broken := false;
      o := Quiet;
      QuietIsLegal(Seen(), Seen(), limit);
      hide Legal, Moves, Breaks;
      if i.now < nextTick {
        return;
      }
      nextTick := i.now + TICK;
      if i.switched {
        valid := false;
      }
      o, broken := Gated(i);
    }
  }
}
