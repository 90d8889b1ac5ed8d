/**
 Position bookkeeping of the sample-rate converter: how far the output stands
 from the newest input, and what the running ratio still owes.

 All quantities are Q32 fractions of a frame.  A debt of a whole frame is paid
 by a walk, which moves the position one frame over WALK_FRAMES outputs.
 */
module ConverterPosition {
  import opened Basics

  const ONE: int := 0x1_0000_0000
  const WALK_FRAMES: int := 4096
  const WALK_STEP: int := 0x10_0000

  datatype Pos = Pos(frac: int, owed: int, walkStep: int, walkLeft: int, extra: int)

  const ZERO: Pos := Pos(0, 0, 0, 0, 0)

  // ---- One output --------------------------------------------------------

  function Clamped(owed: int): int {
    if owed > 4 * ONE then 4 * ONE else if owed < -4 * ONE then -4 * ONE else owed
  }

  /** Which way a walk would start: by the debt first, then the extra frames. */
  function WalkSign(p: Pos, owed: int): int {
    if owed >= ONE then 1
    else if owed <= -ONE then -1
    else if p.extra > 0 then 1
    else if p.extra < 0 then -1
    else 0
  }

  /** The position after the step for one output is chosen. */
  function Stepped(p: Pos, rate: int): Pos {
    var owed := Clamped(p.owed + rate);
    if p.walkLeft != 0 then
      p.(owed := owed, walkLeft := p.walkLeft - 1)
    else
      var sign := WalkSign(p, owed);
      if sign == 0 then
        p.(owed := owed)
      else
        var byDebt := owed >= ONE || owed <= -ONE;
        p.(owed := if byDebt then owed - sign * ONE else owed,
           extra := if byDebt then p.extra else p.extra - sign,
           walkStep := sign * WALK_STEP,
           walkLeft := WALK_FRAMES - 1)
  }

  /** The step that output takes. */
  function StepOf(p: Pos, rate: int): int {
    if p.walkLeft != 0 || WalkSign(p, Clamped(p.owed + rate)) != 0
    then Stepped(p, rate).walkStep else 0
  }

  function Advanced(p: Pos, step: int): Pos {
    p.(frac := (p.frac + ONE + step) % ONE)
  }

  function Taken(p: Pos, step: int): int {
    (p.frac + ONE + step) / ONE
  }

  /** Position after one whole output, and the inputs it took. */
  function After(p: Pos, rate: int): Pos {
    Advanced(Stepped(p, rate), StepOf(p, rate))
  }

  function Inputs(p: Pos, rate: int): int {
    Taken(Stepped(p, rate), StepOf(p, rate))
  }

  /** Chooses the step of one output, starting a walk once a frame is owed. */
  method NextStep(p: Pos, rate: int) returns (q: Pos, step: int)
    ensures q == Stepped(p, rate) && step == StepOf(p, rate)
    // In full: a walk goes on; else a whole frame of debt starts one, else an extra frame; else nothing moves.
    ensures var debt := p.owed + rate;
        var owed := if debt > 4 * ONE then 4 * ONE else if debt < -4 * ONE then -4 * ONE else debt;
        && (p.walkLeft != 0 ==> q == p.(owed := owed, walkLeft := p.walkLeft - 1) && step == p.walkStep)
        && (p.walkLeft == 0 ==>
              if owed >= ONE then q == Pos(p.frac, owed - ONE, 0x10_0000, 4095, p.extra) && step == 0x10_0000
              else if owed <= -ONE then q == Pos(p.frac, owed + ONE, -0x10_0000, 4095, p.extra) && step == -0x10_0000
              else if p.extra > 0 then q == Pos(p.frac, owed, 0x10_0000, 4095, p.extra - 1) && step == 0x10_0000
              else if p.extra < 0 then q == Pos(p.frac, owed, -0x10_0000, 4095, p.extra + 1) && step == -0x10_0000
              else q == p.(owed := owed) && step == 0)
  {
    q := p.(owed := p.owed + rate);
    if q.owed > 4 * ONE {
      q := q.(owed := 4 * ONE);
    } else if q.owed < -4 * ONE {
      q := q.(owed := -4 * ONE);
    }
    if q.walkLeft == 0 {
      var sign: int;
      if q.owed >= ONE || q.owed <= -ONE {
        sign := if q.owed > 0 then 1 else -1;
        q := q.(owed := q.owed - sign * ONE);
      } else if q.extra != 0 {
        sign := if q.extra > 0 then 1 else -1;
        q := q.(extra := q.extra - sign);
      } else {
        return q, 0;
      }
      q := q.(walkStep := sign * (ONE / WALK_FRAMES), walkLeft := WALK_FRAMES);
    }
    q := q.(walkLeft := q.walkLeft - 1);
    step := q.walkStep;
  }

  /** The inputs one output takes at this step, and the position after it. */
  method Advance(p: Pos, step: int) returns (q: Pos, taken: int)
    ensures q == Advanced(p, step) && taken == Taken(p, step)
    ensures taken * ONE + q.frac == p.frac + ONE + step && 0 <= q.frac < ONE && q == p.(frac := q.frac)
  {
    var next := p.frac + ONE + step;
    q := p.(frac := next % ONE);
    taken := next / ONE;
  }

  /** The planner: a dry run of the next outputs on a copy of the position. */
  method PlanInputs(start: Pos, outFrames: nat, rate: int) returns (inputs: int)
    ensures inputs == InputsAll(start, Const(outFrames, rate))
  {
    var p := start;
    inputs := 0;
    var frame := 0;
    while frame < outFrames
      invariant 0 <= frame <= outFrames
      invariant p == AfterAll(start, Const(frame, rate))
      invariant inputs == InputsAll(start, Const(frame, rate))
    {
      var q, step := NextStep(p, rate);
      var taken;
      p, taken := Advance(q, step);
      inputs := inputs + taken;
      frame := frame + 1;
      ConstFront(frame, rate);
    }
  }

  // ---- Many outputs, each at its own rate --------------------------------

  function AfterAll(p: Pos, rates: seq<int>): Pos {
    if rates == [] then p else After(AfterAll(p, Front(rates)), Last(rates))
  }

  function InputsAll(p: Pos, rates: seq<int>): int {
    if rates == [] then 0
    else InputsAll(p, Front(rates)) + Inputs(AfterAll(p, Front(rates)), Last(rates))
  }

  function Sum(s: seq<int>): int {
    if s == [] then 0 else Sum(Front(s)) + Last(s)
  }

  /** One call's outputs: all at the same rate. */
  function Const(n: nat, rate: int): (r: seq<int>)
    ensures |r| == n && forall i :: 0 <= i < n ==> r[i] == rate
  {
    seq(n, _ => rate)
  }

  lemma ConstFront(n: nat, rate: int)
    requires n > 0
    ensures Front(Const(n, rate)) == Const(n - 1, rate)
    ensures Last(Const(n, rate)) == rate
  {
  }

  /** Outputs may be split into calls anywhere. */
  lemma {:induction false} Split(p: Pos, a: seq<int>, b: seq<int>)
    ensures AfterAll(p, a + b) == AfterAll(AfterAll(p, a), b)
    ensures InputsAll(p, a + b) == InputsAll(p, a) + InputsAll(AfterAll(p, a), b)
    decreases |b|
  {
    if b == [] {
      assert a + b == a;
    } else {
      assert Front(a + b) == a + Front(b);
      Split(p, a, Front(b));
    }
  }

  // ---- The invariant -----------------------------------------------------

  /** Between walks the output stands on an input; during one, d steps in. */
  ghost predicate Good(p: Pos) {
    && 0 <= p.walkLeft < WALK_FRAMES
    && (p.walkLeft == 0 ==> p.frac == 0)
    && (p.walkLeft > 0 ==>
          || (p.walkStep == WALK_STEP && p.frac == (WALK_FRAMES - p.walkLeft) * WALK_STEP)
          || (p.walkStep == -WALK_STEP && p.frac == p.walkLeft * WALK_STEP))
  }

  /** The position a walk in progress has yet to cover. */
  function Unwalked(p: Pos): int {
    p.walkLeft * p.walkStep
  }

  function Total(p: Pos): int {
    p.frac + Unwalked(p) + p.owed + p.extra * ONE
  }

  /** What the clamp takes away at one output; zero unless it fires. */
  function ClampLoss(p: Pos, rate: int): int {
    p.owed + rate - Clamped(p.owed + rate)
  }

  function ClampLossAll(p: Pos, rates: seq<int>): int {
    if rates == [] then 0
    else ClampLossAll(p, Front(rates)) + ClampLoss(AfterAll(p, Front(rates)), Last(rates))
  }

  /** At some output the debt passed four frames and was cut. */
  ghost predicate ClampFires(p: Pos, rates: seq<int>) {
    exists k | 0 <= k < |rates| :: ClampLoss(AfterAll(p, rates[..k]), rates[k]) != 0
  }

  lemma UnwalkedUp(p: Pos)
    requires p.walkStep == WALK_STEP
    ensures Unwalked(p) == p.walkLeft * WALK_STEP
  {
  }

  lemma UnwalkedDown(p: Pos)
    requires p.walkStep == -WALK_STEP
    ensures Unwalked(p) == -(p.walkLeft * WALK_STEP)
  {
  }

  /** Each output keeps the invariant and conserves the total. */
  lemma OutputConserves(p: Pos, rate: int)
    requires Good(p)
    ensures Good(After(p, rate))
    ensures 0 <= Inputs(p, rate) <= 2
    ensures Inputs(p, rate) * ONE + Total(After(p, rate))
         == Total(p) + ONE + rate - ClampLoss(p, rate)
  {
    var q := Stepped(p, rate);
    var r := After(p, rate);
    if q.walkLeft == 0 && p.walkLeft == 0 {
      assert StepOf(p, rate) == 0;
      assert Unwalked(p) == 0 && Unwalked(r) == 0;
    } else if r.walkStep == WALK_STEP {
      UnwalkedUp(r);
      if p.walkLeft != 0 { UnwalkedUp(p); } else { assert Unwalked(p) == 0; }
    } else {
      UnwalkedDown(r);
      if p.walkLeft != 0 { UnwalkedDown(p); } else { assert Unwalked(p) == 0; }
    }
  }

  /**
   Conservation: over any outputs, what was taken plus what is pending grows by
   exactly one frame and the rate per output, less what the clamp cut.
   */
  lemma {:induction false} Conservation(p: Pos, rates: seq<int>)
    requires Good(p)
    ensures Good(AfterAll(p, rates))
    ensures InputsAll(p, rates) >= 0
    ensures InputsAll(p, rates) * ONE + Total(AfterAll(p, rates))
         == Total(p) + |rates| * ONE + Sum(rates) - ClampLossAll(p, rates)
    decreases |rates|
  {
    if rates != [] {
      Conservation(p, Front(rates));
      OutputConserves(AfterAll(p, Front(rates)), Last(rates));
    }
  }

  lemma {:induction false} NoClampNoLoss(p: Pos, rates: seq<int>)
    requires !ClampFires(p, rates)
    ensures ClampLossAll(p, rates) == 0
    decreases |rates|
  {
    if rates != [] {
      var front := Front(rates);
      forall k | 0 <= k < |front|
        ensures ClampLoss(AfterAll(p, front[..k]), front[k]) == 0
      {
        assert front[..k] == rates[..k];
      }
      NoClampNoLoss(p, front);
      assert rates[..|rates| - 1] == front;
    }
  }

  // ---- Rates a walk can follow -------------------------------------------

  /** Debts a converter running at followable rates can reach. */
  ghost predicate Bounded(p: Pos) {
    -(2 * ONE - p.walkLeft * WALK_STEP) <= p.owed <= 2 * ONE - p.walkLeft * WALK_STEP
  }

  ghost predicate Followable(rate: int) {
    -WALK_STEP <= rate <= WALK_STEP
  }

  lemma FollowableOutput(p: Pos, rate: int)
    requires Good(p) && Bounded(p) && Followable(rate)
    ensures Bounded(After(p, rate))
    ensures ClampLoss(p, rate) == 0
  {
  }

  lemma {:induction false} FollowableRun(p: Pos, rates: seq<int>)
    requires Good(p) && Bounded(p)
    requires forall k :: 0 <= k < |rates| ==> Followable(rates[k])
    ensures Good(AfterAll(p, rates)) && Bounded(AfterAll(p, rates))
    ensures !ClampFires(p, rates)
    decreases |rates|
  {
    if rates != [] {
      var front := Front(rates);
      FollowableRun(p, front);
      var q := AfterAll(p, front);
      OutputConserves(q, Last(rates));
      FollowableOutput(q, Last(rates));
      forall k | 0 <= k < |rates|
        ensures ClampLoss(AfterAll(p, rates[..k]), rates[k]) == 0
      {
        if k < |front| {
          assert rates[..k] == front[..k] && rates[k] == front[k];
        } else {
          assert rates[..k] == front;
        }
      }
    }
  }

  lemma {:induction false} NoExtraStays(p: Pos, rates: seq<int>)
    requires p.extra == 0
    ensures AfterAll(p, rates).extra == 0
    decreases |rates|
  {
    if rates != [] {
      NoExtraStays(p, Front(rates));
    }
  }

  lemma PendingBound(p: Pos)
    requires Good(p) && Bounded(p) && p.extra == 0
    ensures -2 * ONE <= Total(p) <= 3 * ONE
  {
    if p.walkLeft == 0 {
      assert Unwalked(p) == 0;
    } else if p.walkStep == WALK_STEP {
      UnwalkedUp(p);
    } else {
      UnwalkedDown(p);
    }
  }

  /**
   Tracking: at followable rates, from a zeroed start, the inputs taken stay
   within three frames of the outputs plus the summed rates, forever.
   */
  lemma TracksWithinThreeFrames(rates: seq<int>)
    requires forall k :: 0 <= k < |rates| ==> Followable(rates[k])
    ensures -3 * ONE <= InputsAll(ZERO, rates) * ONE - (|rates| * ONE + Sum(rates)) <= 3 * ONE
  {
    FollowableRun(ZERO, rates);
    NoClampNoLoss(ZERO, rates);
    Conservation(ZERO, rates);
    NoExtraStays(ZERO, rates);
    PendingBound(AfterAll(ZERO, rates));
  }

  // ---- Rates beyond it: the clamp is bound to fire -----------------------

  /** Debt plus the frames still to walk; a walk cannot pay a steeper rate. */
  function Backlog(p: Pos, sign: int): int {
    sign * p.owed + p.walkLeft * WALK_STEP
  }

  lemma SteepOutput(p: Pos, rate: int, sign: int)
    requires Good(p)
    requires sign == 1 || sign == -1
    requires sign * rate > WALK_STEP
    requires ClampLoss(p, rate) == 0
    ensures Backlog(After(p, rate), sign) >= Backlog(p, sign) + 1
    ensures sign * After(p, rate).owed <= 4 * ONE
  {
  }

  lemma NoClampBefore(p: Pos, rates: seq<int>, n: nat)
    requires !ClampFires(p, rates) && n < |rates|
    ensures !ClampFires(p, rates[..n]) && ClampLoss(AfterAll(p, rates[..n]), rates[n]) == 0
  {
    hide ClampLoss, AfterAll;
    assert forall k :: 0 <= k < n ==> rates[..n][..k] == rates[..k];
  }

  lemma {:induction false} SteepRun(p: Pos, n: nat, rate: int, sign: int)
    requires Good(p)
    requires sign == 1 || sign == -1
    requires sign * rate > WALK_STEP
    requires !ClampFires(p, Const(n, rate))
    ensures Good(AfterAll(p, Const(n, rate)))
    ensures Backlog(AfterAll(p, Const(n, rate)), sign) >= Backlog(p, sign) + n
    ensures n > 0 ==> sign * AfterAll(p, Const(n, rate)).owed <= 4 * ONE
    decreases n
  {
    if n > 0 {
      hide ClampFires, ClampLoss, Const, Backlog, Good, After;
      var rates, front := Const(n, rate), Const(n - 1, rate);
      ConstFront(n, rate);
      assert rates[..n - 1] == front && rates[n - 1] == rate;
      NoClampBefore(p, rates, n - 1);
      SteepRun(p, n - 1, rate, sign);
      SteepOutput(AfterAll(p, front), rate, sign);
      OutputConserves(AfterAll(p, front), rate);
    }
  }

  /** From any position, a steeper constant rate makes the clamp fire. */
  lemma SteepRateClamps(p: Pos, rate: int, sign: int) returns (n: nat)
    requires Good(p)
    requires sign == 1 || sign == -1
    requires sign * rate > WALK_STEP
    ensures ClampFires(p, Const(n, rate))
  {
    var backlog := Backlog(p, sign);
    n := if backlog >= 6 * ONE then 1 else 6 * ONE - backlog;
    if !ClampFires(p, Const(n, rate)) {
      SteepRun(p, n, rate, sign);
      assert false;
    }
  }

  /**
   The fastest ratio a walk can follow, exactly: at a constant rate the clamp
   never fires if and only if the rate is at most one frame per walk.
   */
  lemma ClampNeverFiresExactly(rate: int)
    ensures (forall n: nat :: !ClampFires(ZERO, Const(n, rate))) <==> Followable(rate)
  {
    if Followable(rate) {
      forall n: nat
        ensures !ClampFires(ZERO, Const(n, rate))
      {
        FollowableRun(ZERO, Const(n, rate));
      }
    } else {
      var sign := if rate > 0 then 1 else -1;
      var n := SteepRateClamps(ZERO, rate, sign);
      assert ClampFires(ZERO, Const(n, rate));
    }
  }

  // ---- The rate of a trim ------------------------------------------------

  /** Rate for a trim in ppm x 256: positive ppm takes the input slower. */
  function RateFromPpmQ8(ppmQ8: Int32): Int32 {
    ToInt32(TruncDiv(-(ppmQ8 * 16777216), 1000000))
  }

  /**
   Trims of up to 62500/256 = 244.14 ppm, and no larger one the 32-bit rate
   can express, give a rate the walks can follow.
   */
  lemma FollowableTrims(ppmQ8: Int32)
    requires -127_999_999 <= ppmQ8 <= 127_999_999
    ensures Followable(RateFromPpmQ8(ppmQ8)) <==> -62500 <= ppmQ8 <= 62500
  {
    var scaled := ppmQ8 * 16777216;
    var rate := TruncDiv(-scaled, 1000000);
    if ppmQ8 >= 0 {
      assert rate == -(scaled / 1000000);
    } else {
      assert rate == (-scaled) / 1000000;
    }
    assert ToInt32(rate) == rate;
  }
}
