/**
 The credit-based shaper of one port and class (section 8.6.8.2 of IEEE
 802.1Q-2018): a queue of frames and a credit in 1/256 octets, earned with time
 and spent by sending.

 The worker earns credit once a tick and then sends while it may; frames are
 accepted from another task at any moment.
 */
module Shaper {
  import opened Basics

  const MTU: int := 1518
  const DEPTH: nat := 64
  const CREDIT_MAX: int := MTU * 256
  const CREDIT_MIN: int := -(MTU * 256)

  /** Bit-microseconds per 1/256 octet of credit. */
  const CREDIT_DIVISOR: int := 31250

  /** Bit-microseconds per octet: 8 bits times a million. */
  const OCTET: int := 8_000_000

  datatype Frame = Frame(id: int, length: int)

  datatype State = State(slope: int, link: int, credit: int, queue: seq<Frame>,
                         accepted: seq<Frame>, sent: seq<Frame>)

  function Earned(slope: int, dt: int): int {
    TruncDiv(slope * dt, CREDIT_DIVISOR)
  }

  // ---- Steps -------------------------------------------------------------

  function Advanced(s: State, dt: int): State {
    var credit := s.credit + Earned(s.slope, dt);
    s.(credit := if credit > CREDIT_MAX then CREDIT_MAX else credit)
  }

  predicate MaySend(s: State) {
    s.queue != [] && s.credit >= 0
  }

  function SentOne(s: State): State
    requires MaySend(s)
  {
    var credit := s.credit - s.queue[0].length * 256;
    s.(queue := s.queue[1..],
       sent := s.sent + [s.queue[0]],
       credit := if credit < CREDIT_MIN then CREDIT_MIN else credit)
  }

  function Drained(s: State): State
    decreases |s.queue|
  {
    if MaySend(s) then Drained(SentOne(s)) else s
  }

  datatype Verdict = Accepted | BadLength | NotReserved | NoMemory | Full

  function Judged(s: State, f: Frame, memory: bool): Verdict {
    if f.length <= 0 || f.length > MTU then BadLength
    else if s.slope == 0 then NotReserved
    else if !memory then NoMemory
    else if |s.queue| >= DEPTH then Full
    else Accepted
  }

  function Enqueued(s: State, f: Frame, memory: bool): State {
    if Judged(s, f, memory) == Accepted
    then s.(queue := s.queue + [f], accepted := s.accepted + [f])
    else s
  }

  function SlopeSet(s: State, slope: int): State {
    if s.link > 0 && slope > s.link then s else s.(slope := slope)
  }

  // ---- The class as it is kept -------------------------------------------

  class ClassState {
    var slope: int
    var link: int
    var credit: int
    var queue: seq<Frame>
    ghost var accepted: seq<Frame>
    ghost var sent: seq<Frame>

    ghost function Abstract(): State
      reads this
    {
      State(slope, link, credit, queue, accepted, sent)
    }

    constructor (link: int)
      ensures Abstract() == State(0, link, 0, [], [], [])
      ensures Inv(Abstract())
    {
      this.link := link;
      slope, credit, queue := 0, 0, [];
      accepted, sent := [], [];
    }

    method CreditAdvance(dt: int)
      modifies this
      ensures Abstract() == Advanced(old(Abstract()), dt)
      // In full: slope times time over 31250, rounded toward zero, up to one MTU; nothing else moves.
      ensures Abstract() == old(Abstract()).(credit := credit)
      ensures var earned := old(slope) * dt;
          credit == MTU * 256 || (
            && credit < MTU * 256
            && (earned >= 0 ==> 31_250 * (credit - old(credit)) <= earned < 31_250 * (credit - old(credit)) + 31_250)
            && (earned <= 0 ==> 31_250 * (credit - old(credit)) - 31_250 < earned <= 31_250 * (credit - old(credit))))
    {
      var product := slope * dt;
      var delta := if product >= 0 then product / CREDIT_DIVISOR else -((-product) / CREDIT_DIVISOR);
      credit := credit + delta;
      if credit > CREDIT_MAX {
        credit := CREDIT_MAX;
      }
    }

    method TrySendOne() returns (sentOne: bool)
      modifies this
      ensures sentOne == old(MaySend(Abstract()))
      ensures Abstract() == if sentOne then SentOne(old(Abstract())) else old(Abstract())
      // In full: the frame at the head leaves when credit is not negative, and is paid for down to one MTU of debt.
      ensures sentOne <==> old(queue) != [] && old(credit) >= 0
      ensures sentOne ==>
          && queue == old(queue)[1..] && sent == old(sent) + [old(queue)[0]]
          && (slope, link, accepted) == old((slope, link, accepted))
          && (credit == old(credit) - old(queue)[0].length * 256
              || (credit == -(MTU * 256) && old(credit) - old(queue)[0].length * 256 < -(MTU * 256)))
      ensures !sentOne ==> Abstract() == old(Abstract())
    {
      if |queue| == 0 {
        return false;
      }
      if credit < 0 {
        return false;
      }
      var frame := queue[0];
      queue := queue[1..];
      sent := sent + [frame];
      credit := credit - frame.length * 256;
      if credit < CREDIT_MIN {
        credit := CREDIT_MIN;
      }
      return true;
    }

    /** What the worker does for this class each tick. */
    method Tick(dt: int)
      modifies this
      ensures Abstract() == Drained(Advanced(old(Abstract()), dt))
      ensures !MaySend(Abstract())
    {
      CreditAdvance(dt);
      var more := true;
      while more
        invariant Drained(Abstract()) == Drained(Advanced(old(Abstract()), dt))
        invariant !more ==> !MaySend(Abstract())
        decreases |queue|, more
      {
        more := TrySendOne();
      }
    }

    method Enqueue(f: Frame, memory: bool) returns (verdict: Verdict)
      modifies this
      ensures verdict == old(Judged(Abstract(), f, memory))
      ensures Abstract() == Enqueued(old(Abstract()), f, memory)
      // In full: a frame of 1 to 1518 octets is taken, behind all others, while there is a slope, memory and room.
      ensures verdict == Accepted <==>
          0 < f.length <= 1518 && old(slope) != 0 && memory && |old(queue)| < 64
      ensures verdict == BadLength <==> !(0 < f.length <= 1518)
      ensures verdict == NotReserved <==> 0 < f.length <= 1518 && old(slope) == 0
      ensures verdict == NoMemory <==> 0 < f.length <= 1518 && old(slope) != 0 && !memory
      ensures verdict == Accepted ==>
          Abstract() == old(Abstract()).(queue := old(queue) + [f], accepted := old(accepted) + [f])
      ensures verdict != Accepted ==> Abstract() == old(Abstract())
    {
      if f.length <= 0 || f.length > MTU {
        return BadLength;
      }
      if slope == 0 {
        return NotReserved;
      }
      if !memory {
        return NoMemory;
      }
      if |queue| >= DEPTH {
        return Full;
      }
      queue := queue + [f];
      accepted := accepted + [f];
      return Accepted;
    }

    method SetIdleSlope(newSlope: int) returns (ok: bool)
      modifies this
      ensures Abstract() == SlopeSet(old(Abstract()), newSlope)
      ensures ok <==> !(link > 0 && newSlope > link)
      ensures ok ==> Abstract() == old(Abstract()).(slope := newSlope)
      ensures !ok ==> Abstract() == old(Abstract())
    {
      if link > 0 && newSlope > link {
        return false;
      }
      slope := newSlope;
      return true;
    }
  }

  // ---- Runs: every interleaving of the worker with the other tasks -------

  datatype Event =
    | Earn(dt: nat)
    | Send
    | Offer(frame: Frame, memory: bool)
    | Slope(slope: int)

  function Apply(s: State, e: Event): State {
    match e
    case Earn(dt) => Advanced(s, dt)
    case Send => if MaySend(s) then SentOne(s) else s
    case Offer(f, memory) => Enqueued(s, f, memory)
    case Slope(slope) => SlopeSet(s, slope)
  }

  function Run(s: State, events: seq<Event>): State {
    if events == [] then s else Apply(Run(s, Front(events)), Last(events))
  }

  function Octets(frames: seq<Frame>): int {
    if frames == [] then 0 else Octets(Front(frames)) + Last(frames).length
  }

  /** What the queue keeps, whatever the slope and the credit. */
  ghost predicate QueueInv(s: State) {
    && (forall k :: 0 <= k < |s.queue| ==> 0 < s.queue[k].length <= MTU)
    && |s.queue| <= DEPTH
    && s.accepted == s.sent + s.queue
  }

  /** Everything but the slope's sign, which the setter does not check. */
  ghost predicate Inv(s: State) {
    CREDIT_MIN <= s.credit <= CREDIT_MAX && QueueInv(s)
  }

  ghost predicate SlopesNotNegative(s: State, events: seq<Event>) {
    && s.slope >= 0
    && forall k :: 0 <= k < |events| && events[k].Slope? ==> events[k].slope >= 0
  }

  /** Sending never needs the creditMin clamp: the floor is one frame down. */
  lemma SendNeverClamps(s: State)
    requires Inv(s) && MaySend(s)
    ensures SentOne(s).credit == s.credit - s.queue[0].length * 256
    ensures Inv(SentOne(s))
  {
    assert s.queue == [s.queue[0]] + s.queue[1..];
  }

  lemma StepKeepsInv(s: State, e: Event)
    requires Inv(s) && (e.Earn? ==> s.slope >= 0)
    ensures Inv(Apply(s, e))
  {
    match e
    case Earn(dt) =>
      assert s.slope * dt >= 0;
    case Send =>
      if MaySend(s) {
        SendNeverClamps(s);
      }
    case Offer(f, memory) =>
      StepKeepsQueue(s, e);
    case Slope(slope) =>
  }

  lemma {:induction false} RunKeepsInv(s: State, events: seq<Event>)
    requires Inv(s) && SlopesNotNegative(s, events)
    ensures Inv(Run(s, events)) && Run(s, events).slope >= 0
    decreases |events|
  {
    if events != [] {
      RunKeepsInv(s, Front(events));
      StepKeepsInv(Run(s, Front(events)), Last(events));
    }
  }

  lemma StepKeepsQueue(s: State, e: Event)
    requires QueueInv(s)
    ensures QueueInv(Apply(s, e))
  {
    match e
    case Earn(dt) =>
    case Send =>
      if MaySend(s) {
        assert s.queue == [s.queue[0]] + s.queue[1..];
      }
    case Offer(f, memory) =>
      assert s.accepted + [f] == s.sent + (s.queue + [f]);
    case Slope(slope) =>
  }

  /**
   Frames leave in the order they were accepted, none lost and none twice:
   what was accepted is always what was sent followed by what waits, at
   whatever slopes, negative ones too.
   */
  lemma {:induction false} FramesLeaveInOrder(s: State, events: seq<Event>)
    requires QueueInv(s)
    ensures QueueInv(Run(s, events))
    ensures Run(s, events).accepted == Run(s, events).sent + Run(s, events).queue
    decreases |events|
  {
    if events != [] {
      FramesLeaveInOrder(s, Front(events));
      StepKeepsQueue(Run(s, Front(events)), Last(events));
    }
  }

  // ---- Credit accounting -------------------------------------------------

  /** Credit one event earns, before the ceiling cuts it. */
  function EarnedBy(s: State, e: Event): int {
    if e.Earn? then Earned(s.slope, e.dt) else 0
  }

  function CutBy(s: State, e: Event): int {
    if e.Earn? then s.credit + Earned(s.slope, e.dt) - Advanced(s, e.dt).credit else 0
  }

  function EarnedAll(s: State, events: seq<Event>): int {
    if events == [] then 0
    else EarnedAll(s, Front(events)) + EarnedBy(Run(s, Front(events)), Last(events))
  }

  function CutAll(s: State, events: seq<Event>): int {
    if events == [] then 0
    else CutAll(s, Front(events)) + CutBy(Run(s, Front(events)), Last(events))
  }

  /** The reservation integrated over time, in bit-microseconds. */
  function Reserved(s: State, events: seq<Event>): int {
    if events == [] then 0
    else Reserved(s, Front(events))
         + if Last(events).Earn? then Run(s, Front(events)).slope * Last(events).dt else 0
  }

  function SentOctets(s: State, events: seq<Event>): int {
    Octets(Run(s, events).sent) - Octets(s.sent)
  }

  lemma SendSpendsCredit(s: State)
    requires Inv(s) && MaySend(s)
    ensures Octets(SentOne(s).sent) * 256 + SentOne(s).credit == Octets(s.sent) * 256 + s.credit
  {
    SendNeverClamps(s);
    assert Front(SentOne(s).sent) == s.sent;
  }

  /** Octets sent are paid for by credit, to the last 1/256 octet. */
  lemma {:induction false} CreditIsConserved(s: State, events: seq<Event>)
    requires Inv(s) && SlopesNotNegative(s, events)
    ensures SentOctets(s, events) * 256 + Run(s, events).credit
         == s.credit + EarnedAll(s, events) - CutAll(s, events)
    ensures CutAll(s, events) >= 0
    decreases |events|
  {
    if events != [] {
      CreditIsConserved(s, Front(events));
      RunKeepsInv(s, Front(events));
      var before := Run(s, Front(events));
      if Last(events).Send? && MaySend(before) {
        SendSpendsCredit(before);
      }
    }
  }

  lemma {:induction false} EarnedWithinReservation(s: State, events: seq<Event>)
    requires Inv(s) && SlopesNotNegative(s, events)
    ensures EarnedAll(s, events) * CREDIT_DIVISOR <= Reserved(s, events)
    decreases |events|
  {
    if events != [] {
      EarnedWithinReservation(s, Front(events));
      RunKeepsInv(s, Front(events));
      if Last(events).Earn? {
        EarnedRoundsDown(Run(s, Front(events)).slope, Last(events).dt);
      }
    }
  }

  lemma EarnedRoundsDown(slope: int, dt: int)
    requires slope >= 0 && dt >= 0
    ensures 0 <= Earned(slope, dt)
    ensures Earned(slope, dt) * CREDIT_DIVISOR <= slope * dt
  {
    assert slope * dt >= 0;
  }

  /**
   Upper bound: over any run, whatever arrives and however the worker is
   scheduled, a class sends at most its reservation and two MTUs.
   */
  lemma NeverExceedsReservation(s: State, events: seq<Event>)
    requires Inv(s) && SlopesNotNegative(s, events)
    ensures SentOctets(s, events) * OCTET <= 2 * MTU * OCTET + Reserved(s, events)
  {
    CreditIsConserved(s, events);
    EarnedWithinReservation(s, events);
    RunKeepsInv(s, events);
  }

  // ---- Lower bound -------------------------------------------------------

  /** The drain has stopped with frames still waiting. */
  ghost predicate Backlogged(s: State) {
    s.queue != [] && s.credit < 0
  }

  /** Each time credit is earned the class was, and stays, backlogged. */
  ghost predicate StaysBacklogged(s: State, events: seq<Event>) {
    && Backlogged(Run(s, events))
    && forall k :: 0 <= k < |events| && events[k].Earn? ==> Backlogged(Run(s, events[..k]))
  }

  /** No tick of the run earns more than so much credit. */
  ghost predicate TicksEarnAtMost(s: State, events: seq<Event>, most: int) {
    forall k :: 0 <= k < |events| && events[k].Earn? ==>
      Earned(Run(s, events[..k]).slope, events[k].dt) <= most
  }

  /**
   Where the ceiling may cut: a tick loses nothing, from every backlogged state,
   exactly when it earns at most one MTU and one unit of credit.
   */
  lemma NothingCutExactly(slope: int, dt: nat)
    requires slope >= 0
    ensures (forall s: State :: Inv(s) && Backlogged(s) && s.slope == slope ==> CutBy(s, Earn(dt)) == 0)
       <==> Earned(slope, dt) <= CREDIT_MAX + 1
  {
    if Earned(slope, dt) > CREDIT_MAX + 1 {
      var nearly := State(slope, 0, -1, [Frame(0, 1)], [Frame(0, 1)], []);
      assert Inv(nearly) && Backlogged(nearly);
      assert CutBy(nearly, Earn(dt)) > 0;
    }
  }

  lemma {:induction false} NothingCut(s: State, events: seq<Event>)
    requires Inv(s) && SlopesNotNegative(s, events)
    requires TicksEarnAtMost(s, events, CREDIT_MAX + 1)
    requires forall k :: 0 <= k < |events| && events[k].Earn? ==> Backlogged(Run(s, events[..k]))
    ensures CutAll(s, events) == 0
    decreases |events|
  {
    if events != [] {
      var front := Front(events);
      forall k | 0 <= k < |front|
        ensures front[..k] == events[..k]
      {
      }
      NothingCut(s, front);
      assert events[..|events| - 1] == front;
    }
  }

  /** At least the credit earned was sent, less one MTU. */
  ghost predicate Delivers(s: State, events: seq<Event>) {
    SentOctets(s, events) * 256 > EarnedAll(s, events) - MTU * 256
  }

  /**
   Lower bound: while a class stays backlogged and no tick earns more than one
   MTU and one unit of credit, it sends what it earned, less one MTU.
   */
  lemma DeliversReservation(s: State, events: seq<Event>)
    requires Inv(s) && SlopesNotNegative(s, events)
    requires StaysBacklogged(s, events) && TicksEarnAtMost(s, events, CREDIT_MAX + 1)
    ensures Delivers(s, events)
  {
    CreditIsConserved(s, events);
    NothingCut(s, events);
  }

  ghost predicate AlwaysDelivers(most: int) {
    forall s, events ::
      Inv(s) && SlopesNotNegative(s, events) && StaysBacklogged(s, events) && TicksEarnAtMost(s, events, most)
      ==> Delivers(s, events)
  }

  /** Three frames wait with the credit at creditMin; one unit is earned a microsecond. */
  function LateStart(): State {
    var frames := [Frame(0, MTU), Frame(1, 1), Frame(2, 1)];
    State(CREDIT_DIVISOR, 0, CREDIT_MIN, frames, frames, [])
  }

  /** A tick up to the brink, one that is a unit too long, two frames, the rest. */
  function LateTicks(): seq<Event> {
    [Earn(CREDIT_MAX - 1), Earn(CREDIT_MAX + 2), Send, Send, Earn(255)]
  }

  lemma RunUnfolds(s: State, events: seq<Event>, e: Event)
    ensures Run(s, events + [e]) == Apply(Run(s, events), e)
    ensures EarnedAll(s, events + [e]) == EarnedAll(s, events) + EarnedBy(Run(s, events), e)
  {
    assert Front(events + [e]) == events;
  }

  /** Where that run stands after its first k events. */
  function LateState(k: nat): State {
    var s := LateStart();
    var long, short := s.queue[0], s.queue[1];
    if k == 0 then s
    else if k == 1 then s.(credit := -1)
    else if k == 2 then s.(credit := CREDIT_MAX)
    else if k == 3 then s.(credit := 0, queue := [short, Frame(2, 1)], sent := [long])
    else s.(credit := if k == 4 then -256 else -1, queue := [Frame(2, 1)], sent := [long, short])
  }

  lemma {:induction false} LateRun(k: nat)
    requires k <= |LateTicks()|
    ensures Run(LateStart(), LateTicks()[..k]) == LateState(k)
    ensures EarnedAll(LateStart(), LateTicks()[..k])
         == if k == 0 then 0 else if k == 1 then CREDIT_MAX - 1
            else if k <= 4 then 2 * CREDIT_MAX + 1 else 2 * CREDIT_MAX + 256
  {
    if k > 0 {
      LateRun(k - 1);
      assert LateTicks()[..k] == LateTicks()[..k - 1] + [LateTicks()[k - 1]];
      hide Run, EarnedAll;
      RunUnfolds(LateStart(), LateTicks()[..k - 1], LateTicks()[k - 1]);
    }
  }

  lemma LateRunIsBacklogged()
    ensures Inv(LateStart()) && SlopesNotNegative(LateStart(), LateTicks())
    ensures StaysBacklogged(LateStart(), LateTicks())
    ensures TicksEarnAtMost(LateStart(), LateTicks(), CREDIT_MAX + 2)
  {
    var s, events := LateStart(), LateTicks();
    hide Run, EarnedAll;
    forall k: nat | k <= |events|
      ensures Run(s, events[..k]) == LateState(k)
    {
      LateRun(k);
    }
    assert events == events[..|events|];
  }

  /** The run with one tick a unit too long sends one MTU less than it earned. */
  lemma OneUnitTooLong()
    ensures !Delivers(LateStart(), LateTicks())
  {
    var s, events := LateStart(), LateTicks();
    hide Run, EarnedAll;
    LateRun(|events|);
    assert events == events[..|events|];
    var sent := LateState(|events|).sent;
    assert Front(sent) == [sent[0]] && Front([sent[0]]) == [];
    assert Octets(Front(sent)) == MTU;
    assert SentOctets(s, events) == MTU + 1;
  }

  /**
   The lower bound holds over every backlogged run exactly when no tick may
   earn more than one MTU and one unit of credit.
   */
  lemma DeliversExactly(most: int)
    ensures AlwaysDelivers(most) <==> most <= CREDIT_MAX + 1
  {
    if most <= CREDIT_MAX + 1 {
      forall s, events | Inv(s) && SlopesNotNegative(s, events) && StaysBacklogged(s, events)
                         && TicksEarnAtMost(s, events, most)
        ensures Delivers(s, events)
      {
        DeliversReservation(s, events);
      }
    } else {
      LateRunIsBacklogged();
      OneUnitTooLong();
      assert TicksEarnAtMost(LateStart(), LateTicks(), most);
    }
  }

  /** The worker's tick leaves a class empty or backlogged, never in between. */
  lemma {:induction false} DrainLeavesBacklog(s: State)
    requires Inv(s)
    ensures Inv(Drained(s))
    ensures Drained(s).queue != [] ==> Backlogged(Drained(s))
    ensures Octets(Drained(s).sent) * 256 + Drained(s).credit == Octets(s.sent) * 256 + s.credit
    decreases |s.queue|
  {
    if MaySend(s) {
      SendNeverClamps(s);
      SendSpendsCredit(s);
      DrainLeavesBacklog(SentOne(s));
    }
  }

  /**
   What the ceiling can cost in one tick: two MTUs are sent at most, however
   long it was.  So from every state, not only from one near the ceiling, a tick
   that reserves more than that falls short.
   */
  lemma LongTicksFallShort(s: State, dt: nat)
    requires Inv(s) && s.slope >= 0
    ensures var octets := Octets(Drained(Advanced(s, dt)).sent) - Octets(s.sent);
            && octets <= 2 * MTU
            && (s.slope * dt > 2 * MTU * OCTET ==> octets * OCTET < s.slope * dt)
  {
    StepKeepsInv(s, Earn(dt));
    DrainLeavesBacklog(Advanced(s, dt));
  }

  // ---- Slopes the setter should have refused -----------------------------

  /**
   Only the link rate is checked when a slope is set, so a negative one gets
   in.  A tick keeps the credit at or above creditMin, from everywhere it may
   stand, exactly when it does not earn a negative amount.
   */
  lemma FloorHoldsExactly(slope: int, dt: nat)
    ensures (forall s: State :: Inv(s) && s.slope == slope ==> Advanced(s, dt).credit >= CREDIT_MIN)
       <==> slope * dt > -CREDIT_DIVISOR
  {
    if slope * dt > -CREDIT_DIVISOR {
      assert Earned(slope, dt) >= 0;
    } else {
      var low := State(slope, 0, CREDIT_MIN, [], [], []);
      assert Inv(low) && Earned(slope, dt) < 0;
      assert Advanced(low, dt).credit < CREDIT_MIN;
    }
  }
}
