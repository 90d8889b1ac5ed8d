/**
 The arithmetic of the media-clock control law, in ppm scaled by 65536, and
 what a run of it does to the applied correction and its target.
 */
module PllControl {
  import opened Basics

  const PPM: int := 65536
  const MAX_INTEGRATOR: int := 50 * PPM
  const SLEW_NEAR: int := PPM / 2
  const SLEW_FAR: int := 4 * PPM
  const FAR: int := 10 * PPM
  const REFINE_MAX: int := 5 * PPM
  const REFINE_MIN: int := PPM
  const FALLBACK_BYTERATE: int := 288_000

  function Abs(x: int): nat {
    if x < 0 then -x else x
  }

  function ClampTo(x: int, limit: int): (r: int)
    requires limit >= 0
    ensures -limit <= r <= limit
    ensures Abs(r) <= Abs(x) && (Abs(x) <= limit ==> r == x)
    ensures Abs(x) >= limit ==> Abs(r) == limit && (x > 0 ==> r >= 0) && (x < 0 ==> r <= 0)
  {
    if x > limit then limit else if x < -limit then -limit else x
  }

  lemma TruncDivIsNear(a: int, b: int)
    requires b > 0
    ensures Abs(TruncDiv(a, b) * b - a) < b && Abs(TruncDiv(a, b) * b) <= Abs(a)
  {
    var q, t := Abs(a) / b, TruncDiv(a, b);
    assert t == if a >= 0 then q else -q;
    hide TruncDiv;
    QuotientIsBelow(Abs(a), b);
    NegatedProduct(q, b);
    NearBy(a, b, q * b, t * b);
  }

  lemma NearBy(a: int, b: int, below: int, product: int)
    requires below <= Abs(a) < below + b && 0 <= below && product == if a >= 0 then below else -below
    ensures Abs(product - a) < b && Abs(product) <= Abs(a)
  {
  }

  lemma QuotientIsBelow(a: nat, b: nat)
    requires b > 0
    ensures 0 <= a / b * b <= a < a / b * b + b
  {
  }

  lemma NegatedProduct(q: int, b: int)
    ensures -q * b == -(q * b)
  {
  }

  function ByterateOf(listener: int): int {
    if listener == 0 then FALLBACK_BYTERATE else listener
  }

  function ExpectedBytes(listener: int, elapsed: int): int {
    TruncDiv(ByterateOf(listener) * elapsed, 1_000_000_000)
  }

  /** The rate error of a window, in scaled ppm. */
  function ComputePpm(listener: int, bytes: int, elapsed: int): int
    requires elapsed != 0 ==> ExpectedBytes(listener, elapsed) != 0
  {
    if elapsed == 0 || bytes == 0 then 0
    else
      var expected := ExpectedBytes(listener, elapsed);
      var scaled := (bytes - expected) * 1_000_000 * PPM;
      ToInt32(if expected > 0 then TruncDiv(scaled, expected) else -TruncDiv(scaled, -expected))
  }

  /** What is expected is the byte rate times the time that went by, in nanoseconds, to a byte; 288000 B/s if not told. */
  lemma ExpectedIsTheByterate(listener: int, elapsed: int)
    ensures var rate := if listener == 0 then 288_000 else listener;
        Abs(ExpectedBytes(listener, elapsed) * 1_000_000_000 - rate * elapsed) < 1_000_000_000
  {
    TruncDivIsNear(ByterateOf(listener) * elapsed, 1_000_000_000);
  }

  /** The reading is the byte error relative to what was expected, to a unit. */
  lemma PpmIsTheRateError(listener: int, bytes: int, elapsed: int)
    requires listener >= 0 && elapsed != 0 && bytes != 0 && ExpectedBytes(listener, elapsed) > 0
    requires Abs(bytes - ExpectedBytes(listener, elapsed)) * 1_000_000 * PPM < 0x8000_0000 * ExpectedBytes(listener, elapsed)
    ensures var expected := ExpectedBytes(listener, elapsed);
        Abs(ComputePpm(listener, bytes, elapsed) * expected - (bytes - expected) * 1_000_000 * PPM) < expected
  {
    var expected := ExpectedBytes(listener, elapsed);
    var scaled := (bytes - expected) * 1_000_000 * PPM;
    var q := TruncDiv(scaled, expected);
    TruncDivIsNear(scaled, expected);
    FitsWhenSmall(q, expected, 0x8000_0000);
  }

  lemma FitsWhenSmall(q: int, b: int, limit: int)
    requires b > 0 && Abs(q * b) < limit * b
    ensures -limit < q < limit
  {
    Monotone(limit, q, b);
    Monotone(q, -limit, b);
  }

  lemma Monotone(a: int, b: int, c: nat)
    ensures a <= b ==> a * c <= b * c
  {
  }

  // ---- Slewing -----------------------------------------------------------

  /** One tick's move from the applied value toward its target. */
  function SlewMove(applied: int, target: int): (move: int)
    ensures Abs(move) <= if Abs(target - applied) > FAR then SLEW_FAR else SLEW_NEAR
    ensures applied < target ==> 0 < move <= target - applied
    ensures applied > target ==> target - applied <= move < 0
    ensures applied == target ==> move == 0
  {
    ClampTo(target - applied, if Abs(target - applied) > FAR then SLEW_FAR else SLEW_NEAR)
  }

  /** Moves it takes to land. */
  function SlewTicks(remaining: nat): (n: nat)
    ensures n == 0 <==> remaining == 0
    ensures remaining <= FAR ==> 32_768 * n < remaining + 32_768
    ensures 262_144 * n <= remaining + 20 * 262_144
  {
    if remaining == 0 then 0
    else if remaining > FAR then 1 + SlewTicks(remaining - SLEW_FAR)
    else 1 + SlewTicks(if remaining > SLEW_NEAR then remaining - SLEW_NEAR else 0)
  }

  lemma OneMoveCloser(applied: int, target: int)
    requires applied != target
    ensures SlewTicks(Abs(target - (applied + SlewMove(applied, target)))) == SlewTicks(Abs(target - applied)) - 1
  {
  }

  // ---- Correcting --------------------------------------------------------

  /** A gain of 1/divisor in 16-bit fixed point, rounded down. */
  function Scaled(x: int, gain: int, divisor: int): (r: int)
    requires (gain == 2048 && divisor == 32) || (gain == 32768 && divisor == 2)
    ensures divisor * r <= x < divisor * r + divisor
  {
    if gain == 2048 then x * 2048 / 65536 else x * 32768 / 65536
  }

  /** A quarter, rounded toward zero. */
  function Quarter(x: int): (q: int)
    ensures x >= 0 ==> 4 * q <= x < 4 * q + 4
    ensures x <= 0 ==> 4 * q - 4 < x <= 4 * q
  {
    if x >= 0 then x / 4 else -((-x) / 4)
  }

  /** The integrator after one more measurement: accumulated, clamped, bled. */
  function Integrated(integrator: int, cumul: int): (i: int)
    ensures Abs(i) <= MAX_INTEGRATOR
    ensures cumul > 0 && integrator >= 0 ==> i >= integrator || i == MAX_INTEGRATOR
    ensures cumul < 0 && integrator <= 0 ==> i <= integrator || i == -MAX_INTEGRATOR
  {
    var sum := ClampTo(integrator + Scaled(cumul, 2048, 32), MAX_INTEGRATOR);
    if sum != 0 && (sum > 0) != (cumul > 0) then sum - Quarter(sum) else sum
  }

  /** How far a correction moves the target, against the measured error. */
  function Correction(cumul: int, integrator: int, maxStep: nat): (step: int)
    ensures Abs(step) <= if Abs(cumul) > 4 * maxStep then Abs(cumul) else maxStep
  {
    if Abs(cumul) > 4 * maxStep then ClampTo(cumul + integrator, Abs(cumul))
    else ClampTo(Scaled(cumul, 32768, 2) + integrator, maxStep)
  }

  /** A correction with a clean or agreeing integrator always opposes the error. */
  lemma AgreeingIntegratorOpposesError(cumul: int, integrator: int, maxStep: nat)
    requires cumul != 0 && maxStep > 0
    requires cumul > 1 ==> integrator >= 0
    requires cumul == 1 ==> integrator > 0
    requires cumul < 0 ==> integrator <= 0
    ensures cumul > 0 ==> Correction(cumul, integrator, maxStep) > 0
    ensures cumul < 0 ==> Correction(cumul, integrator, maxStep) < 0
  {
  }

  /** An integrator that agrees with the error gathers a 32nd of it, rounded down, up to 50 ppm. */
  lemma AgreeingIntegratorGathers(integrator: int, cumul: int)
    requires (integrator >= 0 && cumul > 0) || (integrator <= 0 && cumul < 0)
    requires Abs(integrator) <= 50 * 65_536
    ensures var i := Integrated(integrator, cumul);
        || cumul - 32 < 32 * (i - integrator) <= cumul
        || (Abs(i) == 50 * 65_536 && Abs(32 * integrator + cumul) > 32 * 50 * 65_536 - 32)
  {
  }

  /** A small error is taken by half, rounded down, with the integrator on top; a large one whole. */
  lemma StepIsHalfOrWhole(cumul: int, integrator: int, maxStep: nat)
    ensures var step := Correction(cumul, integrator, maxStep);
        && (Abs(cumul) <= 4 * maxStep ==>
              || cumul - 2 < 2 * (step - integrator) <= cumul
              || (Abs(step) == maxStep && Abs(cumul + 2 * integrator) >= 2 * maxStep))
        && (Abs(cumul) > 4 * maxStep ==>
              || step == cumul + integrator
              || (Abs(step) == Abs(cumul) && Abs(cumul + integrator) > Abs(cumul)))
  {
  }

  /**
   On a clock that runs at its correction plus a fixed offset, a correction
   shrinks the error and never overshoots, while the integrator holds at most
   half of it; an error far beyond the step limit is then taken whole.
   */
  lemma CorrectionShrinksTheError(offset: int, applied: int, integrator: int, maxStep: nat)
    requires maxStep > 0
    requires var error := applied + offset;
        (error > 0 ==> 0 <= 2 * integrator <= error) && (error < 0 ==> error <= 2 * integrator <= 0)
    ensures var error := applied + offset;
        var after := applied - Correction(error, integrator, maxStep) + offset;
        && (error > 1 ==> 0 <= after < error) && (error < 0 ==> error < after <= 0)
        && (Abs(error) > 4 * maxStep ==> after == 0)
  {
  }

  /** An integrator that disagrees with the error loses a quarter at every correction. */
  lemma DisagreeingIntegratorBleeds(integrator: int, cumul: int)
    requires Abs(integrator) <= MAX_INTEGRATOR && Abs(integrator) >= 4
    requires (integrator > 0 && cumul < 0) || (integrator < 0 && cumul > 0)
    requires Abs(cumul) <= Abs(integrator)
    ensures 4 * Abs(Integrated(integrator, cumul)) <= 3 * Abs(integrator) + 3
  {
  }

  // ---- Ticks -------------------------------------------------------------

  datatype View = View(applied: int, target: int, integrator: int, hold: bool)

  datatype Outcome =
    | Quiet                         // nothing measured, or nothing to do
    | Cancelled                     // a measurement invalidated the target
    | Slewed(tuned: bool)           // one move, if the hardware took it
    | Refined                       // a held trim follows the talker's ADC
    | Tracked(cumul: int, maxStep: nat)

  /** What one tick may do. */
  ghost predicate Legal(a: View, b: View, o: Outcome, limit: nat) {
    match o
    case Quiet => b.applied == a.applied && b.target == a.target
    case Cancelled => b.applied == a.applied == b.target
    case Slewed(tuned) =>
      && a.applied != a.target && b.target == a.target
      && b.applied == if tuned then a.applied + SlewMove(a.applied, a.target) else a.applied
    case Refined =>
      a.applied == a.target == b.applied && Abs(b.target) <= limit && a.hold && b.hold
    case Tracked(cumul, maxStep) =>
      && a.applied == a.target == b.applied
      && b.integrator == Integrated(a.integrator, cumul)
      && b.target == ClampTo(a.applied - Correction(cumul, b.integrator, maxStep), limit)
  }

  ghost predicate Bounded(v: View, limit: nat) {
    Abs(v.applied) <= limit && Abs(v.target) <= limit && Abs(v.integrator) <= MAX_INTEGRATOR
  }

  /** A run of ticks, by what it leaves after each. */
  ghost predicate IsRun(views: seq<View>, outcomes: seq<Outcome>, limit: nat) {
    && |views| == |outcomes| + 1
    && forall i :: 0 <= i < |outcomes| ==> Legal(views[i], views[i + 1], outcomes[i], limit)
  }

  /** The applied value and its target never leave the clamp. */
  lemma {:induction false} RunsStayInTheClamp(views: seq<View>, outcomes: seq<Outcome>, limit: nat, i: nat)
    requires IsRun(views, outcomes, limit) && i < |views|
    requires Abs(views[0].applied) <= limit && Abs(views[0].target) <= limit
    ensures Abs(views[i].applied) <= limit && Abs(views[i].target) <= limit
  {
    if i > 0 {
      RunsStayInTheClamp(views, outcomes, limit, i - 1);
      assert Legal(views[i - 1], views[i], outcomes[i - 1], limit);
    }
  }

  /** No tick moves the clock by more than 4 ppm, or by 0.5 ppm near the target. */
  lemma MovesAreSmall(a: View, b: View, o: Outcome, limit: nat)
    requires Legal(a, b, o, limit)
    ensures Abs(b.applied - a.applied) <= SLEW_FAR
    ensures Abs(a.target - a.applied) <= FAR ==> Abs(b.applied - a.applied) <= SLEW_NEAR
    ensures a.applied <= a.target ==> a.applied <= b.applied <= a.target
    ensures a.applied >= a.target ==> a.applied >= b.applied >= a.target
    ensures a.applied != a.target ==> b.target == a.target || b.target == b.applied == a.applied
  {
  }

  function TunedMoves(outcomes: seq<Outcome>): nat {
    if outcomes == [] then 0
    else TunedMoves(outcomes[..|outcomes| - 1]) +
         if outcomes[|outcomes| - 1] == Slewed(true) then 1 else 0
  }

  /**
   A slew that is not cancelled lands: after as many accepted moves as it needs
   the applied value has been at the target.
   */
  lemma {:induction false} SlewsLand(views: seq<View>, outcomes: seq<Outcome>, limit: nat, n: nat)
    requires IsRun(views, outcomes, limit) && n <= |outcomes|
    requires forall i :: 0 <= i < n ==> !outcomes[i].Cancelled?
    requires TunedMoves(outcomes[..n]) >= SlewTicks(Abs(views[0].target - views[0].applied))
    ensures exists m :: 0 <= m <= n && views[m].applied == views[m].target == views[0].target
  {
    if forall m :: 0 <= m <= n ==> views[m].applied != views[m].target {
      StillSlewing(views, outcomes, limit, n);
    } else {
      var m :| 0 <= m <= n && views[m].applied == views[m].target;
      FirstLanding(views, outcomes, limit, m);
    }
  }

  lemma {:induction false} StillSlewing(views: seq<View>, outcomes: seq<Outcome>, limit: nat, n: nat)
    requires IsRun(views, outcomes, limit) && n <= |outcomes|
    requires forall i :: 0 <= i < n ==> !outcomes[i].Cancelled?
    requires forall m :: 0 <= m <= n ==> views[m].applied != views[m].target
    ensures views[n].target == views[0].target
    ensures TunedMoves(outcomes[..n]) + SlewTicks(Abs(views[n].target - views[n].applied))
         == SlewTicks(Abs(views[0].target - views[0].applied))
  {
    hide SlewTicks, SlewMove, Correction, Integrated, ClampTo;
    if n > 0 {
      StillSlewing(views, outcomes, limit, n - 1);
      assert outcomes[..n][..n - 1] == outcomes[..n - 1];
      assert Legal(views[n - 1], views[n], outcomes[n - 1], limit);
      OneMoveCloser(views[n - 1].applied, views[n - 1].target);
    }
  }

  lemma {:induction false} FirstLanding(views: seq<View>, outcomes: seq<Outcome>, limit: nat, m: nat)
    requires IsRun(views, outcomes, limit) && m <= |outcomes|
    requires forall i :: 0 <= i < m ==> !outcomes[i].Cancelled?
    requires views[m].applied == views[m].target
    ensures exists k :: 0 <= k <= m && views[k].applied == views[k].target == views[0].target
    decreases m
  {
    if k :| 0 <= k < m && views[k].applied == views[k].target {
      FirstLanding(views, outcomes, limit, k);
    } else if m > 0 {
      StillSlewing(views, outcomes, limit, m - 1);
      assert Legal(views[m - 1], views[m], outcomes[m - 1], limit);
    }
  }

  /** A tick in mid-slew moves, as far as the hardware takes it, unless the slew is cancelled or a hold gives way. */
  ghost predicate Moves(a: View, o: Outcome, broken: bool, tuned: bool) {
    a.applied != a.target ==> broken || o.Cancelled? || o == Slewed(tuned)
  }

  /**
   A slew lands in no more clean ticks than it needs moves, when the hardware
   takes every move: unless a tick cancels it or breaks the hold, the applied
   value is at the target by then.
   */
  lemma {:induction false} SlewsLandInCleanTicks(views: seq<View>, outcomes: seq<Outcome>, broken: seq<bool>, limit: nat)
    requires IsRun(views, outcomes, limit) && |broken| == |outcomes|
    requires |outcomes| == SlewTicks(Abs(views[0].target - views[0].applied))
    requires forall i :: 0 <= i < |outcomes| ==> Moves(views[i], outcomes[i], broken[i], true)
    requires forall i :: 0 <= i < |outcomes| ==> !outcomes[i].Cancelled? && !broken[i]
    ensures exists m :: 0 <= m <= |outcomes| && views[m].applied == views[m].target == views[0].target
  {
    var n := |outcomes|;
    if forall m :: 0 <= m <= n ==> views[m].applied != views[m].target {
      AllMoved(outcomes, n);
      assert outcomes[..n] == outcomes;
      SlewsLand(views, outcomes, limit, n);
    } else {
      var m :| 0 <= m <= n && views[m].applied == views[m].target;
      FirstLanding(views, outcomes, limit, m);
    }
  }

  lemma {:induction false} AllMoved(outcomes: seq<Outcome>, n: nat)
    requires n <= |outcomes| && forall i :: 0 <= i < n ==> outcomes[i] == Slewed(true)
    ensures TunedMoves(outcomes[..n]) == n
  {
    if n > 0 {
      AllMoved(outcomes, n - 1);
      assert outcomes[..n][..n - 1] == outcomes[..n - 1];
    }
  }

  /** No slew inside the clamp needs more than this many moves. */
  lemma SlewsAreBounded(applied: int, target: int, limitPpm: nat)
    requires Abs(applied) <= limitPpm * 65_536 && Abs(target) <= limitPpm * 65_536
    ensures 2 * SlewTicks(Abs(target - applied)) <= limitPpm + 40
  {
  }
}
