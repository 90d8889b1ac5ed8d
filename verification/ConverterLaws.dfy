/**
 What the converter promises: the planner and the run agree, calls may be cut
 anywhere, and between walks the audio comes through unchanged at a delay that
 counts only completed walks.
 */
module ConverterLaws {
  import opened Basics
  import opened ConverterPosition
  import opened Converter

  // ---- Planner and run ---------------------------------------------------

  /** A run ends where the dry run ended and takes what the planner counted. */
  lemma {:induction false} RunTakesWhatWasPlanned(table: Table, c: Conv, feed: seq<Frame>, rates: seq<int>, fmt: Format)
    requires Good(c.pos) && fmt.Valid() && FitsFormat(feed, fmt)
    ensures Ran(table, c, feed, rates, fmt).used == InputsAll(c.pos, rates)
    ensures Ran(table, c, feed, rates, fmt).conv.pos == AfterAll(c.pos, rates)
    ensures |Ran(table, c, feed, rates, fmt).out| == |rates|
    decreases |rates|
  {
    if rates != [] {
      RunTakesWhatWasPlanned(table, c, feed, Front(rates), fmt);
    }
  }

  lemma {:induction false} PushesIgnoreUnused(window: Window, feed: seq<Frame>, more: seq<Frame>,
                                              used: nat, count: nat, fmt: Format)
    requires fmt.Valid() && FitsFormat(feed, fmt) && FitsFormat(more, fmt)
    requires used + count <= |feed|
    ensures FitsFormat(feed + more, fmt)
    ensures PushedMany(window, feed + more, used, count, fmt) == PushedMany(window, feed, used, count, fmt)
    decreases count
  {
    if count > 0 {
      PushesIgnoreUnused(window, feed, more, used, count - 1, fmt);
      assert FrameOrSilence(feed + more, used + count - 1) == FrameOrSilence(feed, used + count - 1);
    }
  }

  lemma PlannedGrows(p: Pos, rates: seq<int>)
    requires Good(p) && rates != []
    ensures 0 <= InputsAll(p, Front(rates)) <= InputsAll(p, rates)
  {
    Conservation(p, Front(rates));
    OutputConserves(AfterAll(p, Front(rates)), Last(rates));
  }

  /** Frames past the planned ones are never looked at: no silence is pushed. */
  lemma {:induction false} PlannedFramesSuffice(table: Table, c: Conv, feed: seq<Frame>, more: seq<Frame>,
                                                rates: seq<int>, fmt: Format)
    requires Good(c.pos) && fmt.Valid() && FitsFormat(feed, fmt) && FitsFormat(more, fmt)
    requires InputsAll(c.pos, rates) <= |feed|
    ensures FitsFormat(feed + more, fmt)
    ensures Ran(table, c, feed + more, rates, fmt) == Ran(table, c, feed, rates, fmt)
    decreases |rates|
  {
    if rates != [] {
      var front := Front(rates);
      PlannedGrows(c.pos, rates);
      PlannedFramesSuffice(table, c, feed, more, front, fmt);
      RunTakesWhatWasPlanned(table, c, feed, front, fmt);
      var p := Ran(table, c, feed, front, fmt);
      OutputConserves(p.conv.pos, Last(rates));
      PushesIgnoreUnused(p.conv.window, feed, more, p.used, Inputs(p.conv.pos, Last(rates)), fmt);
    }
  }

  /**
   Planner agreement: a call given exactly the planned frames uses every one
   of them, would use no more of a longer feed, and ends where the plan did.
   */
  lemma PlannerAgrees(table: Table, c: Conv, feed: seq<Frame>, more: seq<Frame>, n: nat, rate: int, fmt: Format)
    requires Good(c.pos) && fmt.Valid() && FitsFormat(feed, fmt) && FitsFormat(more, fmt)
    requires |feed| == InputsAll(c.pos, Const(n, rate))
    ensures Ran(table, c, feed, Const(n, rate), fmt).used == |feed|
    ensures Ran(table, c, feed, Const(n, rate), fmt).conv.pos == AfterAll(c.pos, Const(n, rate))
    ensures FitsFormat(feed + more, fmt)
    ensures Ran(table, c, feed + more, Const(n, rate), fmt) == Ran(table, c, feed, Const(n, rate), fmt)
  {
    RunTakesWhatWasPlanned(table, c, feed, Const(n, rate), fmt);
    PlannedFramesSuffice(table, c, feed, more, Const(n, rate), fmt);
  }

  // ---- Frames that do not come -------------------------------------------

  /** Frames of zero octets. */
  function Silence(n: nat, fmt: Format): (frames: seq<Frame>)
    ensures |frames| == n && FitsFormat(frames, fmt)
  {
    seq(n, _ => seq(4 * fmt.width, _ => 0))
  }

  lemma SilentPush(window: Window, feed: seq<Frame>, n: nat, k: nat, fmt: Format)
    requires fmt.Valid() && FitsFormat(feed, fmt) && k < |feed| + n
    ensures FitsFormat(feed + Silence(n, fmt), fmt)
    ensures Pushed(window, FrameOrSilence(feed + Silence(n, fmt), k), fmt) == Pushed(window, FrameOrSilence(feed, k), fmt)
  {
    if k >= |feed| {
      var frame := (feed + Silence(n, fmt))[k];
      assert frame == Silence(n, fmt)[k - |feed|];
      assert fmt.slots > 0 ==> Sample(frame, 0) == 0;
      assert fmt.slots > 1 ==> Sample(frame, 1) == 0;
    }
  }

  lemma {:induction false} SilentPushes(window: Window, feed: seq<Frame>, n: nat, used: nat, count: nat, fmt: Format)
    requires fmt.Valid() && FitsFormat(feed, fmt) && used + count <= |feed| + n
    ensures FitsFormat(feed + Silence(n, fmt), fmt)
    ensures PushedMany(window, feed + Silence(n, fmt), used, count, fmt) == PushedMany(window, feed, used, count, fmt)
    decreases count
  {
    hide Pushed, FitsFormat;
    SilenceFits(feed, n, fmt);
    if count > 0 {
      SilentPushes(window, feed, n, used, count - 1, fmt);
      SilentPush(PushedMany(window, feed, used, count - 1, fmt), feed, n, used + count - 1, fmt);
    }
  }

  lemma SilenceFits(feed: seq<Frame>, n: nat, fmt: Format)
    requires FitsFormat(feed, fmt)
    ensures FitsFormat(feed + Silence(n, fmt), fmt)
  {
  }

  /** A run that lacks frames goes on as if silence came: as many zero frames as it lacks. */
  lemma {:induction false} MissingFramesAreSilent(table: Table, c: Conv, feed: seq<Frame>, n: nat, rates: seq<int>, fmt: Format)
    requires Good(c.pos) && fmt.Valid() && FitsFormat(feed, fmt)
    requires InputsAll(c.pos, rates) <= |feed| + n
    ensures FitsFormat(feed + Silence(n, fmt), fmt)
    ensures Ran(table, c, feed + Silence(n, fmt), rates, fmt) == Ran(table, c, feed, rates, fmt)
    decreases |rates|
  {
    SilenceFits(feed, n, fmt);
    if rates != [] {
      var front := Front(rates);
      PlannedGrows(c.pos, rates);
      MissingFramesAreSilent(table, c, feed, n, front, fmt);
      RunTakesWhatWasPlanned(table, c, feed, front, fmt);
      var p := Ran(table, c, feed, front, fmt);
      OutputConserves(p.conv.pos, Last(rates));
      SilentPushes(p.conv.window, feed, n, p.used, Inputs(p.conv.pos, Last(rates)), fmt);
    }
  }

  // ---- Cutting a run into calls ------------------------------------------

  lemma {:induction false} PushesShift(window: Window, feed: seq<Frame>, from: nat, used: nat, count: nat, fmt: Format)
    requires fmt.Valid() && FitsFormat(feed, fmt)
    requires from <= |feed|
    ensures PushedMany(window, feed[from..], used, count, fmt) == PushedMany(window, feed, from + used, count, fmt)
    decreases count
  {
    if count > 0 {
      PushesShift(window, feed, from, used, count - 1, fmt);
      assert FrameOrSilence(feed[from..], used + count - 1) == FrameOrSilence(feed, from + used + count - 1);
    }
  }

  /** The second part of a run, joined to the first. */
  function Joined(first: Progress, second: Progress): Progress {
    Progress(second.conv, first.used + second.used, first.out + second.out)
  }

  /** One output may take up where the frames of a first part end. */
  lemma OutputShifts(table: Table, first: Progress, p: Progress, feed: seq<Frame>, rate: int, fmt: Format)
    requires Good(p.conv.pos) && fmt.Valid() && FitsFormat(feed, fmt) && first.used <= |feed|
    ensures Output(table, Joined(first, p), feed, rate, fmt)
         == Joined(first, Output(table, p, feed[first.used..], rate, fmt))
  {
    OutputConserves(p.conv.pos, rate);
    PushesShift(p.conv.window, feed, first.used, p.used, Inputs(p.conv.pos, rate), fmt);
  }

  /**
   Running a then b on one feed is one run of both: the same frames out, the
   same state, the second part starting at the first frame the first left.
   */
  lemma {:induction false} RunsCompose(table: Table, c: Conv, feed: seq<Frame>, a: seq<int>, b: seq<int>,
                                       fmt: Format, first: Progress)
    requires Good(c.pos) && fmt.Valid() && FitsFormat(feed, fmt)
    requires first == Ran(table, c, feed, a, fmt) && first.used <= |feed|
    ensures Ran(table, c, feed, a + b, fmt)
         == Joined(first, Ran(table, first.conv, feed[first.used..], b, fmt))
    decreases |b|
  {
    var rest := feed[first.used..];
    if b == [] {
      assert a + b == a;
      assert Ran(table, first.conv, rest, b, fmt) == Progress(first.conv, 0, []);
    } else {
      assert Front(a + b) == a + Front(b) && Last(a + b) == Last(b);
      RunsCompose(table, c, feed, a, Front(b), fmt, first);
      var q := Ran(table, first.conv, rest, Front(b), fmt);
      assert Ran(table, c, feed, a + b, fmt) == Output(table, Joined(first, q), feed, Last(b), fmt);
      assert Ran(table, first.conv, rest, b, fmt) == Output(table, q, rest, Last(b), fmt);
      OutputShifts(table, first, q, feed, Last(b), fmt);
    }
  }

  /** At a fixed rate a call for n + m outputs is a call for n, then one for m. */
  lemma CallsCompose(table: Table, c: Conv, feed: seq<Frame>, n: nat, m: nat, rate: int, fmt: Format)
    requires Good(c.pos) && fmt.Valid() && FitsFormat(feed, fmt)
    requires InputsAll(c.pos, Const(n, rate)) <= |feed|
    ensures var first := Ran(table, c, feed, Const(n, rate), fmt);
            && first.used <= |feed|
            && Ran(table, c, feed, Const(n + m, rate), fmt)
                 == Joined(first, Ran(table, first.conv, feed[first.used..], Const(m, rate), fmt))
  {
    assert Const(n, rate) + Const(m, rate) == Const(n + m, rate);
    RunTakesWhatWasPlanned(table, c, feed, Const(n, rate), fmt);
    RunsCompose(table, c, feed, Const(n, rate), Const(m, rate), fmt, Ran(table, c, feed, Const(n, rate), fmt));
  }

  // ---- The window --------------------------------------------------------

  /** From place `from` the window shows the frames heard, slot by slot. */
  ghost predicate Shows(window: Window, heard: seq<Frame>, from: nat, fmt: Format)
    requires fmt.Valid() && FitsFormat(heard, fmt)
  {
    && from + TAPS <= |heard|
    && forall i, slot :: 0 <= i < TAPS && 0 <= slot < fmt.slots ==>
         window[i].At(slot) == Sample(heard[from + i], slot)
  }

  lemma PushKeepsShowing(window: Window, heard: seq<Frame>, from: nat, fmt: Format)
    requires fmt.Valid() && FitsFormat(heard, fmt)
    requires Shows(window, heard, from, fmt) && from + TAPS < |heard|
    ensures Shows(Pushed(window, Some(heard[from + TAPS]), fmt), heard, from + 1, fmt)
  {
  }

  /** The last n places of the window show the n frames pushed last. */
  ghost predicate ShowsLast(window: Window, heard: seq<Frame>, n: nat, fmt: Format)
    requires fmt.Valid() && FitsFormat(heard, fmt)
  {
    && n <= TAPS && n <= |heard|
    && forall i, slot :: 0 <= i < n && 0 <= slot < fmt.slots ==>
         window[TAPS - n + i].At(slot) == Sample(heard[i], slot)
  }

  lemma {:induction false} PrimingShows(window: Window, input: seq<Frame>, n: nat, fmt: Format)
    requires fmt.Valid() && FitsFormat(input, fmt)
    requires n <= TAPS <= |input|
    ensures ShowsLast(PushedMany(window, input, 0, n, fmt), input, n, fmt)
    decreases n
  {
    if n > 0 {
      PrimingShows(window, input, n - 1, fmt);
    }
  }

  /** Priming leaves the window showing exactly the primed frames. */
  lemma PrimedShows(c: Conv, input: seq<Frame>, fmt: Format)
    requires fmt.Valid() && FitsFormat(input, fmt) && |input| >= TAPS
    ensures Shows(Primed(c, input, fmt).window, input, 0, fmt)
    ensures Good(Primed(c, input, fmt).pos)
  {
    PrimingShows(c.window, input, TAPS, fmt);
  }

  lemma {:induction false} PushesKeepShowing(window: Window, primed: seq<Frame>, feed: seq<Frame>,
                                             used: nat, count: nat, fmt: Format)
    requires fmt.Valid() && FitsFormat(primed, fmt) && FitsFormat(feed, fmt)
    requires |primed| == TAPS && used + count <= |feed|
    requires FitsFormat(primed + feed, fmt)
    requires Shows(window, primed + feed, used, fmt)
    ensures Shows(PushedMany(window, feed, used, count, fmt), primed + feed, used + count, fmt)
    decreases count
  {
    if count > 0 {
      PushesKeepShowing(window, primed, feed, used, count - 1, fmt);
      assert (primed + feed)[used + count - 1 + TAPS] == feed[used + count - 1];
      PushKeepsShowing(PushedMany(window, feed, used, count - 1, fmt), primed + feed, used + count - 1, fmt);
    }
  }

  lemma ShowsStill(window: Window, primed: seq<Frame>, feed: seq<Frame>, fmt: Format)
    requires fmt.Valid() && FitsFormat(primed, fmt) && FitsFormat(feed, fmt) && FitsFormat(primed + feed, fmt)
    requires |primed| == TAPS && Shows(window, primed, 0, fmt)
    ensures Shows(window, primed + feed, 0, fmt)
  {
  }

  /** The last output of a run, and what it does to the window. */
  lemma RanOneMore(table: Table, c: Conv, feed: seq<Frame>, rates: seq<int>, fmt: Format)
    requires Good(c.pos) && fmt.Valid() && FitsFormat(feed, fmt) && rates != []
    ensures var p := Ran(table, c, feed, Front(rates), fmt);
        && p.conv.pos == AfterAll(c.pos, Front(rates)) && Good(p.conv.pos) && p.used == InputsAll(c.pos, Front(rates))
        && Inputs(p.conv.pos, Last(rates)) >= 0
        && InputsAll(c.pos, rates) == p.used + Inputs(p.conv.pos, Last(rates))
        && Ran(table, c, feed, rates, fmt).conv.window
             == PushedMany(p.conv.window, feed, p.used, Inputs(p.conv.pos, Last(rates)), fmt)
  {
    RunTakesWhatWasPlanned(table, c, feed, Front(rates), fmt);
    OutputConserves(Ran(table, c, feed, Front(rates), fmt).conv.pos, Last(rates));
    hide PushedMany, Made, Good, After, Inputs;
  }

  /** The window is always the newest TAPS frames heard, in order. */
  lemma {:induction false} WindowIsNewest(table: Table, c: Conv, primed: seq<Frame>, feed: seq<Frame>,
                                          rates: seq<int>, fmt: Format)
    requires Good(c.pos) && fmt.Valid() && FitsFormat(primed, fmt) && FitsFormat(feed, fmt)
    requires FitsFormat(primed + feed, fmt)
    requires |primed| == TAPS && Shows(c.window, primed, 0, fmt)
    requires InputsAll(c.pos, rates) <= |feed|
    ensures InputsAll(c.pos, rates) >= 0
    ensures Shows(Ran(table, c, feed, rates, fmt).conv.window, primed + feed, InputsAll(c.pos, rates), fmt)
    decreases |rates|
  {
    hide FitsFormat, Shows, Good, PushedMany, Output;
    Conservation(c.pos, rates);
    if rates == [] {
      ShowsStill(c.window, primed, feed, fmt);
    } else {
      hide Ran, InputsAll;
      PlannedGrows(c.pos, rates);
      WindowIsNewest(table, c, primed, feed, Front(rates), fmt);
      RanOneMore(table, c, feed, rates, fmt);
      var p := Ran(table, c, feed, Front(rates), fmt);
      PushesKeepShowing(p.conv.window, primed, feed, p.used, Inputs(p.conv.pos, Last(rates)), fmt);
    }
  }

  // ---- Completed walks ---------------------------------------------------

  /** +1 or -1 for an output that completes a walk, else 0. */
  function Landing(p: Pos, rate: int): int {
    if After(p, rate).walkLeft != 0 then 0
    else if StepOf(p, rate) > 0 then 1
    else if StepOf(p, rate) < 0 then -1
    else 0
  }

  /** Outputs after which a walk is under way that was not before. */
  function WalksBegun(p: Pos, rates: seq<int>): nat {
    if rates == [] then 0
    else WalksBegun(p, Front(rates))
         + if AfterAll(p, Front(rates)).walkLeft == 0 && AfterAll(p, rates).walkLeft != 0 then 1 else 0
  }

  /** The converter counts the walks it begins. */
  lemma {:induction false} WalksAreCounted(table: Table, c: Conv, feed: seq<Frame>, rates: seq<int>, fmt: Format)
    requires Good(c.pos) && fmt.Valid() && FitsFormat(feed, fmt)
    ensures Ran(table, c, feed, rates, fmt).conv.walks == c.walks + WalksBegun(c.pos, rates)
    decreases |rates|
  {
    if rates != [] {
      WalksAreCounted(table, c, feed, Front(rates), fmt);
      RunTakesWhatWasPlanned(table, c, feed, Front(rates), fmt);
    }
  }

  function NetWalks(p: Pos, rates: seq<int>): int {
    if rates == [] then 0
    else NetWalks(p, Front(rates)) + Landing(AfterAll(p, Front(rates)), Last(rates))
  }

  /** An input a walk toward the past has held back until it completes. */
  function HeldBack(p: Pos): int {
    if p.walkLeft > 0 && p.walkStep < 0 then 1 else 0
  }

  lemma OutputCountsWalks(p: Pos, rate: int)
    requires Good(p)
    ensures Inputs(p, rate) == 1 + Landing(p, rate) - HeldBack(After(p, rate)) + HeldBack(p)
  {
  }

  /** Inputs run ahead of outputs by the completed walks, exactly. */
  lemma {:induction false} ExcessIsNetWalks(p: Pos, rates: seq<int>)
    requires Good(p) && p.walkLeft == 0
    ensures InputsAll(p, rates) == |rates| + NetWalks(p, rates) - HeldBack(AfterAll(p, rates))
    decreases |rates|
  {
    if rates != [] {
      ExcessIsNetWalks(p, Front(rates));
      Conservation(p, Front(rates));
      OutputCountsWalks(AfterAll(p, Front(rates)), Last(rates));
    }
  }

  /** An output stands on an input exactly when no walk is under way. */
  lemma OnInputExactlyWhenIdle(p: Pos)
    requires Good(p)
    ensures p.frac == 0 <==> p.walkLeft == 0
  {
  }

  // ---- The delay law -----------------------------------------------------

  /** A frame as it goes out when nothing is done to it. */
  function PassedThrough(frame: Frame, fmt: Format, upto: nat): (r: Frame)
    requires fmt.Valid() && |frame| == 4 * fmt.width && upto <= fmt.width
    ensures |r| == 4 * upto
  {
    if upto == 0 then []
    else PassedThrough(frame, fmt, upto - 1)
         + if upto - 1 < fmt.slots
           then [frame[4 * (upto - 1)], frame[4 * (upto - 1) + 1], frame[4 * (upto - 1) + 2], 0]
           else [0, 0, 0, 0]
  }

  /** A sample that met no filter leaves with the octets it came with. */
  lemma SampleComesBack(frame: Frame, slot: nat)
    requires 4 * slot + 4 <= |frame|
    ensures SlotOctets(ShiftRight(Sample(frame, slot), 4))
         == [frame[4 * slot], frame[4 * slot + 1], frame[4 * slot + 2], 0]
  {
    var b0, b1, b2 := frame[4 * slot] as int, frame[4 * slot + 1] as int, frame[4 * slot + 2] as int;
    var high := if b0 < 128 then b0 else b0 - 256;
    var value := high * 0x1_0000 + b1 * 0x100 + b2;
    assert Sample(frame, slot) == 256 * value;
    OctetsComeBack(high, b1, b2);
  }

  lemma OctetsComeBack(high: int, b1: int, b2: int)
    requires -128 <= high < 128 && 0 <= b1 < 256 && 0 <= b2 < 256
    ensures var value := high * 0x1_0000 + b1 * 0x100 + b2;
        SlotOctets(ShiftRight(256 * value, 4)) == [if high < 0 then high + 256 else high, b1, b2, 0]
  {
    var value := high * 0x1_0000 + b1 * 0x100 + b2;
    assert ShiftRight(256 * value, 4) == 64 * value;
    assert ShiftRight(64 * value + 32, 64) == value;
    assert Clip(value) == value;
    assert ShiftRight(value, 0x1_0000) == high;
    assert ShiftRight(value, 0x100) == high * 0x100 + b1;
  }

  lemma {:induction false} CentrePassesThrough(table: Table, window: Window, frame: Frame, fmt: Format, upto: nat)
    requires fmt.Valid() && |frame| == 4 * fmt.width && upto <= fmt.width
    requires forall slot :: 0 <= slot < fmt.slots ==> window[TAPS / 2 - 1].At(slot) == Sample(frame, slot)
    ensures Made(table, window, 0, fmt, upto) == PassedThrough(frame, fmt, upto)
    decreases upto
  {
    if upto > 0 {
      CentrePassesThrough(table, window, frame, fmt, upto - 1);
      if upto - 1 < fmt.slots {
        SampleComesBack(frame, upto - 1);
      } else {
        assert SlotOctets(0) == [0, 0, 0, 0];
      }
    }
  }

  /** The m-th frame of a run is the last frame of the run cut after it. */
  lemma {:induction false} FrameOfPrefix(table: Table, c: Conv, feed: seq<Frame>, rates: seq<int>, m: nat, fmt: Format)
    requires Good(c.pos) && fmt.Valid() && FitsFormat(feed, fmt) && m < |rates|
    ensures |Ran(table, c, feed, rates, fmt).out| == |rates|
    ensures |Ran(table, c, feed, rates[..m + 1], fmt).out| == m + 1
    ensures Ran(table, c, feed, rates, fmt).out[m] == Ran(table, c, feed, rates[..m + 1], fmt).out[m]
    decreases |rates|
  {
    RunTakesWhatWasPlanned(table, c, feed, rates, fmt);
    RunTakesWhatWasPlanned(table, c, feed, rates[..m + 1], fmt);
    if m == |rates| - 1 {
      assert rates[..m + 1] == rates;
    } else {
      FrameOfPrefix(table, c, feed, Front(rates), m, fmt);
      assert Front(rates)[..m + 1] == rates[..m + 1];
      RunTakesWhatWasPlanned(table, c, feed, Front(rates), fmt);
    }
  }

  /**
   Delay law.  After priming, an output made while no walk is under way is the
   frame heard TAPS / 2 later than its own number, moved on by one frame for
   every completed walk: bit for bit in its three octets, with a zero pad.
   */
  lemma DelayLaw(table: Table, start: Conv, primed: seq<Frame>, feed: seq<Frame>,
                 rates: seq<int>, m: nat, fmt: Format)
    requires fmt.Valid() && FitsFormat(primed, fmt) && FitsFormat(feed, fmt)
    requires |primed| == TAPS && m < |rates|
    requires var pos := Primed(start, primed, fmt).pos;
             && InputsAll(pos, rates[..m + 1]) <= |feed|
             && AfterAll(pos, rates[..m + 1]).walkLeft == 0
    ensures var c := Primed(start, primed, fmt);
            var heard := primed + feed;
            var from := m + TAPS / 2 + NetWalks(c.pos, rates[..m + 1]);
            && Good(c.pos)
            && 0 <= from < |heard| && |heard[from]| == 4 * fmt.width
            && m < |Ran(table, c, feed, rates, fmt).out|
            && Ran(table, c, feed, rates, fmt).out[m] == PassedThrough(heard[from], fmt, fmt.width)
  {
    hide Ran, Made, PassedThrough, AfterAll, InputsAll, NetWalks;
    var c := Primed(start, primed, fmt);
    var heard := primed + feed;
    var prefix := rates[..m + 1];
    PrimedShows(start, primed, fmt);
    assert FitsFormat(heard, fmt);
    FrameOfPrefix(table, c, feed, rates, m, fmt);
    Conservation(c.pos, prefix);
    OnInputExactlyWhenIdle(AfterAll(c.pos, prefix));
    ExcessIsNetWalks(c.pos, prefix);
    WindowIsNewest(table, c, primed, feed, prefix, fmt);
    RunTakesWhatWasPlanned(table, c, feed, prefix, fmt);
    LastFrame(table, c, feed, prefix, fmt);
    var used := InputsAll(c.pos, prefix);
    CentrePassesThrough(table, Ran(table, c, feed, prefix, fmt).conv.window,
                        heard[used + TAPS / 2 - 1], fmt, fmt.width);
  }

  lemma LastFrame(table: Table, c: Conv, feed: seq<Frame>, rates: seq<int>, fmt: Format)
    requires Good(c.pos) && fmt.Valid() && FitsFormat(feed, fmt) && rates != []
    ensures var p := Ran(table, c, feed, rates, fmt);
            p.out != [] && Last(p.out) == Made(table, p.conv.window, p.conv.pos.frac, fmt, fmt.width)
  {
  }
}
