/**
 What the converter's filter computes: every output made between two inputs is
 the convolution of the newest sixteen with the table, interpolated between its
 two nearest phases, to within one step of the 24 bits sent.
 */
module ConverterFilter {
  import opened Basics
  import opened Converter
  import opened ConverterLaws
  import opened ConverterPosition

  /** What one phase of the table takes of a frame's fraction. */
  const STEP: int := 0x400_0000

  // ---- Octets ------------------------------------------------------------

  /** Three octets, most significant first, as a signed number. */
  function Signed24(b0: Octet, b1: Octet, b2: Octet): int {
    (if b0 < 128 then b0 as int else b0 as int - 256) * 0x1_0000 + b1 as int * 0x100 + b2 as int
  }

  /** A sample is the 24 bits of its slot, in the high octets of a word. */
  lemma SampleIsSigned24(frame: Frame, slot: nat)
    requires 4 * slot + 3 <= |frame|
    ensures Sample(frame, slot) == 256 * Signed24(frame[4 * slot], frame[4 * slot + 1], frame[4 * slot + 2])
    ensures -0x8000_0000 <= Sample(frame, slot) < 0x8000_0000
  {
  }

  /** An accumulator goes out as the nearest number of 24 bits, a tie upward. */
  lemma SlotIsNearest(acc: int)
    ensures var o := SlotOctets(acc);
        && o[3] == 0
        && var v := Signed24(o[0], o[1], o[2]);
           if acc + 32 >= 64 * 0x80_0000 then v == 0x7f_ffff
           else if acc + 32 < -64 * 0x80_0000 then v == -0x80_0000
           else -32 < 64 * v - acc <= 32
  {
    var sample := Clip(ShiftRight(acc + 32, 64));
    OctetsOf(sample);
  }

  lemma OctetsOf(v: int)
    requires -0x80_0000 <= v <= 0x7f_ffff
    ensures Signed24(ShiftRight(v, 0x1_0000) % 256, ShiftRight(v, 0x100) % 256, v % 256) == v
  {
    var high, low := v / 0x1_0000, v % 0x1_0000;
    assert v == high * 0x1_0000 + low && -128 <= high < 128;
    assert v / 0x100 == high * 0x100 + low / 0x100;
    assert (high * 0x100 + low / 0x100) % 256 == low / 0x100;
    assert v % 256 == low % 256;
    assert high % 256 == if high >= 0 then high else high + 256;
  }

  // ---- Coefficients ------------------------------------------------------

  /** A tap's weight between its two nearest phases, in units of a phase's fraction. */
  function Weight(table: Table, frac: int, tap: int): int
    requires 0 <= frac < ONE && 0 <= tap < TAPS
  {
    var phase, r := frac / STEP, frac % STEP;
    table[phase * TAPS + tap] * (STEP - r) + table[(phase + 1) * TAPS + tap] * r
  }

  /** A coefficient is the table's on a phase, and between two the interpolated one, short of it by less than 2. */
  lemma CoefficientInterpolates(table: Table, frac: int, tap: int)
    requires 0 <= frac < ONE && 0 <= tap < TAPS
    ensures frac % STEP == 0 ==> Coefficient(table, frac, tap) == table[frac / STEP * TAPS + tap]
    ensures -2 * STEP < Coefficient(table, frac, tap) * STEP - Weight(table, frac, tap) <= 0
  {
    var phase, r := frac / STEP, frac % STEP;
    assert frac * 64 % ONE == r * 64;
    var low, high := table[phase * TAPS + tap], table[(phase + 1) * TAPS + tap];
    var p := (high - low) * r;
    assert (high - low) * (r * 32) == 32 * p;
    assert MulHigh(high - low, r * 32) == 32 * p / ONE;
    assert Weight(table, frac, tap) == low * STEP + p;
  }

  // ---- The filter --------------------------------------------------------

  /** The newest sixteen samples of a slot, each by its tap's weight. */
  function Convolved(table: Table, window: Window, slot: nat, frac: int, taps: int): int
    requires 0 <= frac < ONE && 0 <= taps <= TAPS
  {
    if taps == 0 then 0
    else Convolved(table, window, slot, frac, taps - 1)
         + Weight(table, frac, taps - 1) * window[taps - 1].At(slot)
  }

  /** Samples of one word each. */
  ghost predicate Words(window: Window, slot: nat) {
    forall tap :: 0 <= tap < TAPS ==> -0x8000_0000 <= window[tap].At(slot) <= 0x8000_0000
  }

  lemma ProductRounds(c: int, w: int, x: int)
    requires -2 * STEP < c * STEP - w <= 0 && -0x8000_0000 <= x <= 0x8000_0000
    ensures -2 * STEP * ONE < MulHigh(c, x) * STEP * ONE - w * x < 2 * STEP * ONE
  {
    var err := c * STEP - w;
    var product := c * x;
    assert product * STEP == w * x + err * x by {
      assert (w + err) * x == w * x + err * x;
      assert c * x * STEP == (c * STEP) * x;
    }
    assert -2 * STEP * 0x8000_0000 <= err * x <= 2 * STEP * 0x8000_0000 by {
      ErrorTimes(-err, x);
    }
    assert product - ONE < MulHigh(c, x) * ONE <= product;
  }

  lemma ErrorTimes(e: nat, x: int)
    requires e < 2 * STEP && -0x8000_0000 <= x <= 0x8000_0000
    ensures -2 * STEP * 0x8000_0000 <= e * x <= 2 * STEP * 0x8000_0000
    ensures (0 - e) * x == -(e * x)
  {
    if x >= 0 {
      ProductMonotone(e, 2 * STEP, x, 0x8000_0000);
    } else {
      ProductMonotone(e, 2 * STEP, -x, 0x8000_0000);
    }
  }

  lemma FilteredOne(table: Table, window: Window, slot: nat, frac: int)
    requires 0 <= frac < ONE && Words(window, slot)
    ensures -2 * STEP * ONE
        < Filtered(table, window, slot, frac, 1) * STEP * ONE - Convolved(table, window, slot, frac, 1)
        < 2 * STEP * ONE
  {
    CoefficientInterpolates(table, frac, 0);
    hide Coefficient, Weight, MulHigh;
    ProductRounds(Coefficient(table, frac, 0), Weight(table, frac, 0), window[0].At(slot));
  }

  /** Each tap adds less than two units of rounding to the exact sum. */
  lemma {:induction false} FilteredIsConvolved(table: Table, window: Window, slot: nat, frac: int, taps: int)
    requires 0 <= frac < ONE && 0 < taps <= TAPS && Words(window, slot)
    ensures -2 * taps * STEP * ONE
        < Filtered(table, window, slot, frac, taps) * STEP * ONE - Convolved(table, window, slot, frac, taps)
        < 2 * taps * STEP * ONE
  {
    if taps == 1 {
      FilteredOne(table, window, slot, frac);
    } else {
      FilteredIsConvolved(table, window, slot, frac, taps - 1);
      CoefficientInterpolates(table, frac, taps - 1);
      hide Coefficient, Weight, MulHigh;
      ProductRounds(Coefficient(table, frac, taps - 1), Weight(table, frac, taps - 1), window[taps - 1].At(slot));
    }
  }

  /** The coefficients applied, before any rounding. */
  function Summed(table: Table, window: Window, slot: nat, frac: int, taps: int): int
    requires 0 <= frac < ONE && 0 <= taps <= TAPS
  {
    if taps == 0 then 0
    else Summed(table, window, slot, frac, taps - 1)
         + Coefficient(table, frac, taps - 1) * window[taps - 1].At(slot)
  }

  /** Sixteen roundings down: the filter falls short of its sum by less than 16. */
  lemma {:induction false} FilteredFallsShort(table: Table, window: Window, slot: nat, frac: int, taps: int)
    requires 0 <= frac < ONE && 0 < taps <= TAPS
    ensures 0 <= Summed(table, window, slot, frac, taps) - Filtered(table, window, slot, frac, taps) * ONE < taps * ONE
  {
    var product := Coefficient(table, frac, taps - 1) * window[taps - 1].At(slot);
    assert product - ONE < product / ONE * ONE <= product;
    if taps > 1 {
      FilteredFallsShort(table, window, slot, frac, taps - 1);
    }
  }

  // ---- Whole frames ------------------------------------------------------

  /** One of the 24-bit numbers, in units of the exact sum. */
  const UNIT: int := 64 * STEP * ONE

  /** A number sent is the exact one, off by less than one, or the outermost one short of it. */
  predicate Nearly(v: int, exact: int) {
    || -UNIT < v * UNIT - exact < UNIT
    || (v == 0x7f_ffff && exact > v * UNIT)
    || (v == -0x80_0000 && exact < v * UNIT)
  }

  lemma SlotIsConvolved(table: Table, window: Window, slot: nat, frac: int)
    requires 0 < frac < ONE && Words(window, slot)
    ensures var o := SlotOctets(Accumulated(table, window, slot, frac));
        o[3] == 0 && Nearly(Signed24(o[0], o[1], o[2]), Convolved(table, window, slot, frac, TAPS))
  {
    hide Filtered, Convolved, SlotOctets, Signed24;
    var acc, exact := Filtered(table, window, slot, frac, TAPS), Convolved(table, window, slot, frac, TAPS);
    FilteredIsConvolved(table, window, slot, frac, TAPS);
    SlotIsNearest(acc);
    assert -32 * STEP * ONE < acc * STEP * ONE - exact < 32 * STEP * ONE;
  }

  /** The slots of a frame made between two inputs. */
  ghost predicate IsFiltered(frame: Frame, table: Table, window: Window, frac: int, fmt: Format, upto: nat)
    requires 0 < frac < ONE
  {
    && |frame| == 4 * upto
    && forall slot: nat :: slot < upto ==>
         && frame[4 * slot + 3] == 0
         && var v := Signed24(frame[4 * slot], frame[4 * slot + 1], frame[4 * slot + 2]);
            if slot < fmt.slots then Nearly(v, Convolved(table, window, slot, frac, TAPS)) else v == 0
  }

  lemma {:induction false} MadeIsFiltered(table: Table, window: Window, frac: int, fmt: Format, upto: nat)
    requires 0 < frac < ONE && forall slot: nat :: slot < fmt.slots ==> Words(window, slot)
    ensures IsFiltered(Made(table, window, frac, fmt, upto), table, window, frac, fmt, upto)
    decreases upto
  {
    hide Convolved, Nearly, Accumulated, SlotOctets, Signed24, Words, IsFiltered;
    if upto == 0 {
      EmptyFrame(table, window, frac, fmt);
    } else {
      MadeIsFiltered(table, window, frac, fmt, upto - 1);
      var before := Made(table, window, frac, fmt, upto - 1);
      if upto - 1 < fmt.slots {
        SlotIsConvolved(table, window, upto - 1, frac);
      } else {
        SilentSlot();
      }
      FrameOneMore(before, SlotOctets(if upto - 1 < fmt.slots then Accumulated(table, window, upto - 1, frac) else 0),
                   table, window, frac, fmt, upto - 1);
    }
  }

  lemma EmptyFrame(table: Table, window: Window, frac: int, fmt: Format)
    requires 0 < frac < ONE
    ensures IsFiltered([], table, window, frac, fmt, 0)
  {
  }

  lemma SilentSlot()
    ensures var o := SlotOctets(0); o[3] == 0 == Signed24(o[0], o[1], o[2])
  {
    SlotIsNearest(0);
  }

  lemma FrameOneMore(frame: Frame, octets: seq<Octet>, table: Table, window: Window, frac: int, fmt: Format, slot: nat)
    requires 0 < frac < ONE && IsFiltered(frame, table, window, frac, fmt, slot) && |octets| == 4 && octets[3] == 0
    requires var v := Signed24(octets[0], octets[1], octets[2]);
        if slot < fmt.slots then Nearly(v, Convolved(table, window, slot, frac, TAPS)) else v == 0
    ensures IsFiltered(frame + octets, table, window, frac, fmt, slot + 1)
  {
    hide Convolved, Nearly, Signed24;
  }

  // ---- The filter law ----------------------------------------------------

  /** Sixteen frames of 24 bits from the given one, each by its tap's weight. */
  function Exact(table: Table, heard: seq<Frame>, from: nat, slot: nat, frac: int, taps: int): int
    requires 0 <= frac < ONE && 0 <= taps <= TAPS && from + taps <= |heard|
    requires forall k :: 0 <= k < |heard| ==> 4 * slot + 3 <= |heard[k]|
  {
    if taps == 0 then 0
    else
      var frame := heard[from + taps - 1];
      Exact(table, heard, from, slot, frac, taps - 1)
      + Weight(table, frac, taps - 1) * (256 * Signed24(frame[4 * slot], frame[4 * slot + 1], frame[4 * slot + 2]))
  }

  lemma {:induction false} ShownIsExact(table: Table, window: Window, heard: seq<Frame>, from: nat, slot: nat, frac: int,
                                        fmt: Format, taps: int)
    requires fmt.Valid() && FitsFormat(heard, fmt) && Shows(window, heard, from, fmt) && slot < fmt.slots
    requires 0 <= frac < ONE && 0 <= taps <= TAPS
    ensures forall k :: 0 <= k < |heard| ==> 4 * slot + 3 <= |heard[k]|
    ensures Convolved(table, window, slot, frac, taps) == Exact(table, heard, from, slot, frac, taps)
  {
    assert 4 * slot + 3 <= 4 * fmt.width;
    if taps > 0 {
      ShownIsExact(table, window, heard, from, slot, frac, fmt, taps - 1);
      hide Weight, Signed24, Sample;
      SampleIsSigned24(heard[from + taps - 1], slot);
      assert window[taps - 1].At(slot) == Sample(heard[from + taps - 1], slot);
    }
  }

  lemma ShownAreWords(window: Window, heard: seq<Frame>, from: nat, fmt: Format)
    requires fmt.Valid() && FitsFormat(heard, fmt) && Shows(window, heard, from, fmt)
    ensures forall slot: nat :: slot < fmt.slots ==> Words(window, slot)
  {
    forall slot: nat, tap | slot < fmt.slots && 0 <= tap < TAPS
      ensures -0x8000_0000 <= window[tap].At(slot) <= 0x8000_0000
    {
      assert window[tap].At(slot) == Sample(heard[from + tap], slot);
      SampleIsSigned24(heard[from + tap], slot);
    }
  }

  /** One slot of an output, against the frames heard. */
  ghost predicate SlotOfLaw(frame: Frame, table: Table, heard: seq<Frame>, from: nat, frac: int, slot: nat)
    requires 0 <= frac < ONE && from + TAPS <= |heard| && 4 * slot + 3 < |frame|
    requires forall k :: 0 <= k < |heard| ==> 4 * slot + 3 <= |heard[k]|
  {
    && frame[4 * slot + 3] == 0
    && Nearly(Signed24(frame[4 * slot], frame[4 * slot + 1], frame[4 * slot + 2]), Exact(table, heard, from, slot, frac, TAPS))
  }

  /**
   Filter law.  After priming, an output made while a walk is under way is, in
   every slot of the call, the convolution of the sixteen newest frames heard,
   to within one step of 24 bits or clipped; its other slots are zero.
   */
  lemma FilterLaw(table: Table, start: Conv, primed: seq<Frame>, feed: seq<Frame>,
                  rates: seq<int>, m: nat, fmt: Format)
    requires fmt.Valid() && FitsFormat(primed, fmt) && FitsFormat(feed, fmt)
    requires |primed| == TAPS && m < |rates|
    requires var pos := Primed(start, primed, fmt).pos;
             && InputsAll(pos, rates[..m + 1]) <= |feed|
             && AfterAll(pos, rates[..m + 1]).walkLeft != 0
    ensures var c, heard := Primed(start, primed, fmt), primed + feed;
            var from, frac := InputsAll(c.pos, rates[..m + 1]), AfterAll(c.pos, rates[..m + 1]).frac;
            && Good(c.pos) && FitsFormat(heard, fmt)
            && 0 <= from <= |feed| && 0 < frac < ONE
            && m < |Ran(table, c, feed, rates, fmt).out|
            && var frame := Ran(table, c, feed, rates, fmt).out[m];
               && |frame| == 4 * fmt.width
               && (forall slot: nat :: slot < fmt.slots ==> SlotOfLaw(frame, table, heard, from, frac, slot))
               && (forall slot: nat :: fmt.slots <= slot < fmt.width ==>
                     frame[4 * slot + 3] == 0 == Signed24(frame[4 * slot], frame[4 * slot + 1], frame[4 * slot + 2]))
  {
    hide Ran, Made, AfterAll, InputsAll, Exact, Convolved, Nearly, Signed24, Shows;
    var c, heard, prefix := Primed(start, primed, fmt), primed + feed, rates[..m + 1];
    PrimedShows(start, primed, fmt);
    assert FitsFormat(heard, fmt);
    FrameOfPrefix(table, c, feed, rates, m, fmt);
    Conservation(c.pos, prefix);
    OnInputExactlyWhenIdle(AfterAll(c.pos, prefix));
    WindowIsNewest(table, c, primed, feed, prefix, fmt);
    RunTakesWhatWasPlanned(table, c, feed, prefix, fmt);
    LastFrame(table, c, feed, prefix, fmt);
    var window, from, frac := Ran(table, c, feed, prefix, fmt).conv.window, InputsAll(c.pos, prefix), AfterAll(c.pos, prefix).frac;
    ShownAreWords(window, heard, from, fmt);
    hide Words;
    MadeIsFiltered(table, window, frac, fmt, fmt.width);
    forall slot: nat | slot < fmt.slots
      ensures forall k :: 0 <= k < |heard| ==> 4 * slot + 3 <= |heard[k]|
      ensures Convolved(table, window, slot, frac, TAPS) == Exact(table, heard, from, slot, frac, TAPS)
    {
      ShownIsExact(table, window, heard, from, slot, frac, fmt, TAPS);
    }
  }
}
