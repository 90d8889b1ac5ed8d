/**
 The sample-rate converter itself: a double-written ring history, and the run
 that makes output frames from input frames.

 A frame is the octets of one instant, four per slot: three of sample, most
 significant first, and a zero pad.  The history keeps the samples of both
 slots of one instant together.  The interpolation table is given.
 */
module Converter {
  import opened Basics
  import opened ConverterPosition

  const TAPS: int := 16
  const SLOTS: int := 2
  const PHASES: int := 64

  type Octet = x: int | 0 <= x < 256
  type Frame = seq<Octet>
  type Table = t: seq<int> | |t| == (PHASES + 1) * TAPS witness seq((PHASES + 1) * TAPS, _ => 0)

  /** The samples of one instant, 24 bits each in the high octets. */
  datatype Pair = Pair(left: int, right: int) {
    function At(slot: nat): int {
      if slot == 0 then left else right
    }

    function Set(slot: nat, sample: int): Pair {
      if slot == 0 then this.(left := sample) else this.(right := sample)
    }
  }

  const SILENT: Pair := Pair(0, 0)

  /** The newest TAPS instants, oldest first. */
  type Window = w: seq<Pair> | |w| == TAPS witness seq(TAPS, _ => SILENT)

  /** The slots of one call, and the slots each frame has room for. */
  datatype Format = Format(slots: nat, width: nat) {
    ghost predicate Valid() {
      slots <= SLOTS && slots <= width
    }
  }

  function Held(slots: nat, width: nat): Format {
    Format(if slots > SLOTS then SLOTS else slots, width)
  }

  ghost predicate FitsFormat(feed: seq<Frame>, fmt: Format) {
    forall k :: 0 <= k < |feed| ==> |feed[k]| == 4 * fmt.width
  }

  ghost predicate FrameFits(frame: Option<Frame>, fmt: Format) {
    frame.Some? ==> |frame.value| == 4 * fmt.width
  }

  // ---- Samples in and out ------------------------------------------------

  function Sample(frame: Frame, slot: nat): int
    requires 4 * slot + 3 <= |frame|
  {
    ToInt32((frame[4 * slot] as int) * 0x100_0000
            + (frame[4 * slot + 1] as int) * 0x1_0000
            + (frame[4 * slot + 2] as int) * 0x100)
  }

  function SampleOrSilence(frame: Option<Frame>, slot: nat): int
    requires frame.Some? ==> 4 * slot + 3 <= |frame.value|
  {
    if frame.Some? then Sample(frame.value, slot) else 0
  }

  /** The instant a push stores: slots no sample arrives for keep `old`. */
  function Incoming(oldest: Pair, frame: Option<Frame>, fmt: Format): Pair
    requires fmt.Valid() && FrameFits(frame, fmt)
  {
    Pair(if fmt.slots > 0 then SampleOrSilence(frame, 0) else oldest.left,
         if fmt.slots > 1 then SampleOrSilence(frame, 1) else oldest.right)
  }

  /** Arithmetic shift right: the quotient rounded toward minus infinity. */
  function ShiftRight(x: int, divisor: int): int
    requires divisor > 0
  {
    x / divisor
  }

  function MulHigh(lhs: int, rhs: int): int {
    ShiftRight(lhs * rhs, ONE)
  }

  function Clip(x: int): (r: int)
    ensures -0x80_0000 <= r <= 0x7f_ffff
  {
    if x > 0x7f_ffff then 0x7f_ffff else if x < -0x80_0000 then -0x80_0000 else x
  }

  /** A Q29 accumulator as one output slot: rounded, clipped, padded. */
  function SlotOctets(acc: int): (r: seq<Octet>)
    ensures |r| == 4
  {
    var sample := Clip(ShiftRight(acc + 32, 64));
    [ShiftRight(sample, 0x1_0000) % 256, ShiftRight(sample, 0x100) % 256, sample % 256, 0]
  }

  /** One tap's coefficient, interpolated between the two phases at frac. */
  function Coefficient(table: Table, frac: int, tap: int): int
    requires 0 <= frac < ONE && 0 <= tap < TAPS
  {
    var phase := frac / 0x400_0000;
    var between := (frac * 64 % ONE) / 2;
    var low := table[phase * TAPS + tap];
    var high := table[phase * TAPS + tap + TAPS];
    low + MulHigh(high - low, between) * 2
  }

  function Filtered(table: Table, window: Window, slot: nat, frac: int, taps: int): int
    requires 0 <= frac < ONE && 0 <= taps <= TAPS
  {
    if taps == 0 then 0
    else Filtered(table, window, slot, frac, taps - 1)
         + MulHigh(Coefficient(table, frac, taps - 1), window[taps - 1].At(slot))
  }

  /** On an input the centre of the window goes out as it came. */
  function Accumulated(table: Table, window: Window, slot: nat, frac: int): int
    requires 0 <= frac < ONE
  {
    if frac == 0 then ShiftRight(window[TAPS / 2 - 1].At(slot), 4)
    else Filtered(table, window, slot, frac, TAPS)
  }

  function Made(table: Table, window: Window, frac: int, fmt: Format, upto: nat): (r: Frame)
    requires 0 <= frac < ONE
    ensures |r| == 4 * upto
  {
    if upto == 0 then []
    else Made(table, window, frac, fmt, upto - 1)
         + SlotOctets(if upto - 1 < fmt.slots then Accumulated(table, window, upto - 1, frac) else 0)
  }

  // ---- Specification of pushes, priming and runs -------------------------

  datatype Conv = Conv(window: Window, pos: Pos, walks: nat)

  function Pushed(window: Window, frame: Option<Frame>, fmt: Format): Window
    requires fmt.Valid() && FrameFits(frame, fmt)
  {
    window[1..] + [Incoming(window[0], frame, fmt)]
  }

  function FrameOrSilence(feed: seq<Frame>, k: nat): Option<Frame> {
    if k < |feed| then Some(feed[k]) else None
  }

  function PushedMany(window: Window, feed: seq<Frame>, used: nat, count: nat, fmt: Format): Window
    requires fmt.Valid() && FitsFormat(feed, fmt)
  {
    if count == 0 then window
    else Pushed(PushedMany(window, feed, used, count - 1, fmt), FrameOrSilence(feed, used + count - 1), fmt)
  }

  /** Priming fills the history and puts the position back on an input. */
  function Primed(c: Conv, input: seq<Frame>, fmt: Format): Conv
    requires fmt.Valid() && FitsFormat(input, fmt)
  {
    c.(window := PushedMany(c.window, input, 0, TAPS, fmt), pos := c.pos.(frac := 0, walkLeft := 0))
  }

  datatype Progress = Progress(conv: Conv, used: nat, out: seq<Frame>)

  /** Walks started, this output's included. */
  function WalksAfter(c: Conv, rate: int): nat {
    if c.pos.walkLeft == 0 && StepOf(c.pos, rate) != 0 then c.walks + 1 else c.walks
  }

  /** One output: choose the step, take its inputs, make the frame. */
  function Output(table: Table, p: Progress, feed: seq<Frame>, rate: int, fmt: Format): (r: Progress)
    requires Good(p.conv.pos) && fmt.Valid() && FitsFormat(feed, fmt)
    ensures Good(r.conv.pos)
  {
    var c := p.conv;
    OutputConserves(c.pos, rate);
    var pos := After(c.pos, rate);
    var taken := Inputs(c.pos, rate);
    var window := PushedMany(c.window, feed, p.used, taken, fmt);
    Progress(Conv(window, pos, WalksAfter(c, rate)), p.used + taken,
             p.out + [Made(table, window, pos.frac, fmt, fmt.width)])
  }

  /** Outputs at the given rates, from the frames of one feed. */
  function Ran(table: Table, c: Conv, feed: seq<Frame>, rates: seq<int>, fmt: Format): (r: Progress)
    requires Good(c.pos) && fmt.Valid() && FitsFormat(feed, fmt)
    ensures Good(r.conv.pos)
  {
    if rates == [] then Progress(c, 0, [])
    else Output(table, Ran(table, c, feed, Front(rates), fmt), feed, Last(rates), fmt)
  }

  /** Every stage of a run at one rate. */
  ghost predicate Stages(table: Table, stages: seq<Progress>, feed: seq<Frame>, rate: int, fmt: Format)
    requires fmt.Valid() && FitsFormat(feed, fmt)
  {
    && (forall k :: 0 <= k < |stages| ==> Good(stages[k].conv.pos))
    && (forall k :: 0 < k < |stages| ==> stages[k] == Output(table, stages[k - 1], feed, rate, fmt))
  }

  lemma RanInStages(table: Table, c: Conv, feed: seq<Frame>, n: nat, rate: int, fmt: Format)
    returns (stages: seq<Progress>)
    requires Good(c.pos) && fmt.Valid() && FitsFormat(feed, fmt)
    ensures |stages| == n + 1
    ensures stages[0] == Progress(c, 0, []) && stages[n] == Ran(table, c, feed, Const(n, rate), fmt)
    ensures Stages(table, stages, feed, rate, fmt)
  {
    stages := seq(n + 1, (k: int) requires 0 <= k <= n => Ran(table, c, feed, Const(k, rate), fmt));
    forall k | 0 < k <= n
      ensures stages[k] == Output(table, stages[k - 1], feed, rate, fmt)
    {
      ConstFront(k, rate);
    }
  }

  // ---- The double-written ring -------------------------------------------

  /** Both copies agree, and the window is the TAPS instants from `at`. */
  ghost predicate Ring(ring: seq<Pair>, at: nat, window: Window) {
    && |ring| == 2 * TAPS && at < TAPS
    && ring[..TAPS] == ring[TAPS..]
    && window == ring[at..at + TAPS]
  }

  /**
   Writing an instant at both copies of one place of the ring turns the window
   by one: its oldest instant gives way to the new one.
   */
  lemma WrittenTurns(ring: seq<Pair>, after: seq<Pair>, at: nat, window: Window, instant: Pair)
    requires Ring(ring, at, window)
    requires after == ring[at := instant][at + TAPS := instant]
    ensures Ring(after, if at + 1 == TAPS then 0 else at + 1, window[1..] + [instant])
  {
    var next := if at + 1 == TAPS then 0 else at + 1;
    assert after[..TAPS] == ring[..TAPS][at := instant];
    assert after[TAPS..] == ring[TAPS..][at := instant];
    forall j | 0 <= j < TAPS
      ensures after[next..next + TAPS][j] == (window[1..] + [instant])[j]
    {
      if j < TAPS - 1 {
        assert window[1..][j] == window[j + 1] == ring[at + 1 + j];
        if next == 0 {
          assert ring[TAPS + j] == ring[TAPS..][j] == ring[..TAPS][j] == ring[j];
        }
      }
    }
  }

  // ---- The converter -----------------------------------------------------

  class Src {
    const hist: array<Pair>
    const table: Table
    var histPos: nat
    var pos: Pos
    var walks: nat
    ghost var window: Window

    ghost predicate Valid()
      reads this, hist
    {
      Ring(hist[..], histPos, window) && Good(pos)
    }

    ghost function Abstract(): Conv
      reads this
    {
      Conv(window, pos, walks)
    }

    constructor (table: Table)
      ensures Valid() && fresh(hist)
      ensures this.table == table
      ensures Abstract() == Conv(seq(TAPS, _ => SILENT), ZERO, 0)
    {
      hist := new Pair[2 * TAPS](_ => SILENT);
      histPos := 0;
      pos := ZERO;
      walks := 0;
      this.table := table;
      window := seq(TAPS, _ => SILENT);
      new;
      assert hist[..] == seq(2 * TAPS, _ => SILENT);
    }

    /** Takes one frame, or silence, into the history. */
    method Push(frame: Option<Frame>, fmt: Format)
      requires Valid() && fmt.Valid() && FrameFits(frame, fmt)
      modifies this`histPos, this`window, hist
      ensures Valid()
      ensures window == Pushed(old(window), frame, fmt)
    {
      ghost var oldest, before := hist[histPos], hist[..];
      WriteSlots(frame, fmt);
      WrittenTurns(before, hist[..], histPos, window, Incoming(oldest, frame, fmt));
      hide Ring;
      histPos := histPos + 1;
      if histPos == TAPS {
        histPos := 0;
      }
      window := Pushed(window, frame, fmt);
    }

    /** Writes the slots of one instant, at both copies of its place. */
    method WriteSlots(frame: Option<Frame>, fmt: Format)
      requires Valid() && fmt.Valid() && FrameFits(frame, fmt)
      modifies hist
      ensures var instant := Incoming(old(hist[histPos]), frame, fmt);
          hist[..] == old(hist[..])[histPos := instant][histPos + TAPS := instant]
    {
      ghost var oldest := hist[histPos];
      assert hist[..][..TAPS][histPos] == hist[..][TAPS..][histPos];
      var slot := 0;
      while slot < fmt.slots
        invariant 0 <= slot <= fmt.slots
        invariant var instant := Pair(if slot > 0 then SampleOrSilence(frame, 0) else oldest.left,
                                      if slot > 1 then SampleOrSilence(frame, 1) else oldest.right);
                  hist[..] == old(hist[..])[histPos := instant][histPos + TAPS := instant]
      {
        var sample := SampleOrSilence(frame, slot);
        hist[histPos] := hist[histPos].Set(slot, sample);
        hist[histPos + TAPS] := hist[histPos + TAPS].Set(slot, sample);
        slot := slot + 1;
      }
    }

    /** The pushes one output or a priming makes. */
    method PushTaken(input: seq<Frame>, used: nat, taken: nat, fmt: Format)
      requires Valid() && fmt.Valid() && FitsFormat(input, fmt)
      modifies this`histPos, this`window, hist
      ensures Valid()
      ensures window == PushedMany(old(window), input, used, taken, fmt)
    {
      hide Ring, Good, Pushed;
      var push := taken;
      while push > 0
        invariant 0 <= push <= taken
        invariant Valid()
        invariant window == PushedMany(old(window), input, used, taken - push, fmt)
      {
        Push(FrameOrSilence(input, used + (taken - push)), fmt);
        push := push - 1;
      }
    }

    /** Loads TAPS frames; the next output is then the one in the middle. */
    method Prime(input: seq<Frame>, slots: nat, width: nat)
      requires Valid() && Held(slots, width).Valid() && FitsFormat(input, Held(slots, width))
      requires |input| >= TAPS
      modifies this`histPos, this`window, this`pos, hist
      ensures Valid()
      ensures Abstract() == Primed(old(Abstract()), input, Held(slots, width))
    {
      PushTaken(input, 0, TAPS, Held(slots, width));
      pos := pos.(frac := 0, walkLeft := 0);
    }

    /** Owes whole frames to walks beyond those the ratio asks for. */
    method Owe(frames: int)
      requires Valid()
      modifies this`pos
      ensures Valid()
      ensures pos == old(pos).(extra := old(pos).extra + frames)
    {
      pos := pos.(extra := pos.extra + frames);
    }

    /** The centre of the window, or the filter over all of it. */
    method Accumulate(fmt: Format) returns (acc: Pair)
      requires Valid() && fmt.Valid()
      ensures fmt.slots > 0 ==> acc.left == Accumulated(table, window, 0, pos.frac)
      ensures fmt.slots > 1 ==> acc.right == Accumulated(table, window, 1, pos.frac)
    {
      if pos.frac == 0 {
        var centre := hist[histPos + TAPS / 2 - 1];
        assert centre == window[TAPS / 2 - 1];
        return Pair(ShiftRight(centre.left, 4), ShiftRight(centre.right, 4));
      }
      acc := Pair(0, 0);
      var tap := 0;
      while tap < TAPS
        invariant 0 <= tap <= TAPS
        invariant acc.left == Filtered(table, window, 0, pos.frac, tap)
        invariant fmt.slots > 1 ==> acc.right == Filtered(table, window, 1, pos.frac, tap)
      {
        var coefficient := Coefficient(table, pos.frac, tap);
        var instant := hist[histPos + tap];
        assert instant == window[tap];
        acc := acc.(left := acc.left + MulHigh(coefficient, instant.left));
        if fmt.slots > 1 {
          acc := acc.(right := acc.right + MulHigh(coefficient, instant.right));
        }
        tap := tap + 1;
      }
    }

    /** One output frame from the window as it stands. */
    method Emit(fmt: Format) returns (frame: Frame)
      requires Valid() && fmt.Valid()
      ensures frame == Made(table, window, pos.frac, fmt, fmt.width)
    {
      var acc := Accumulate(fmt);
      frame := [];
      var slot := 0;
      while slot < fmt.width
        invariant 0 <= slot <= fmt.width
        invariant frame == Made(table, window, pos.frac, fmt, slot)
      {
        frame := frame + SlotOctets(if slot < fmt.slots then acc.At(slot) else 0);
        slot := slot + 1;
      }
    }

    /** One output. */
    method RunOne(input: seq<Frame>, used: nat, rate: int, fmt: Format)
      returns (usedAfter: nat, made: Frame)
      requires Valid() && fmt.Valid() && FitsFormat(input, fmt)
      modifies this`histPos, this`window, this`pos, this`walks, hist
      ensures Valid()
      ensures pos == After(old(pos), rate) && walks == WalksAfter(old(Abstract()), rate)
      ensures walks == old(walks) + if old(pos).walkLeft == 0 && pos.walkLeft != 0 then 1 else 0
      ensures Inputs(old(pos), rate) >= 0 && usedAfter == used + Inputs(old(pos), rate)
      ensures window == PushedMany(old(window), input, used, Inputs(old(pos), rate), fmt)
      ensures made == Made(table, window, pos.frac, fmt, fmt.width)
    {
      OutputConserves(pos, rate);
      var walkWasIdle := pos.walkLeft == 0;
      var stepped, step := NextStep(pos, rate);
      if walkWasIdle && step != 0 {
        walks := walks + 1;
      }
      var after, taken := Advance(stepped, step);
      pos := after;
      PushTaken(input, used, taken, fmt);
      usedAfter := used + taken;
      made := Emit(fmt);
    }

    /** Makes outFrames outputs at one rate from the given input frames. */
    method Run(input: seq<Frame>, out: array<Frame>, outFrames: nat, rate: int, slots: nat, width: nat)
      requires Valid() && Held(slots, width).Valid() && FitsFormat(input, Held(slots, width))
      requires outFrames <= out.Length
      modifies this`histPos, this`window, this`pos, this`walks, hist, out
      ensures Valid()
      ensures Abstract()
           == Ran(table, old(Abstract()), input, Const(outFrames, rate), Held(slots, width)).conv
      ensures out[..outFrames]
           == Ran(table, old(Abstract()), input, Const(outFrames, rate), Held(slots, width)).out
      ensures out[outFrames..] == old(out[outFrames..])
    {
      var fmt := Held(slots, width);
      ghost var start := Abstract();
      ghost var stages := RanInStages(table, start, input, outFrames, rate, fmt);
      hide Ring, Good, Output, Ran;
      var used := 0;
      var frame := 0;
      while frame < outFrames
        invariant 0 <= frame <= outFrames
        invariant Valid()
        invariant stages[frame] == Progress(Abstract(), used, out[..frame])
        invariant out[outFrames..] == old(out[outFrames..])
      {
        var made;
        used, made := RunOne(input, used, rate, fmt);
        out[frame] := made;
        assert out[..frame + 1] == out[..frame] + [made];
        frame := frame + 1;
        assert stages[frame] == Output(table, stages[frame - 1], input, rate, fmt);
      }
    }
  }
}
