/**
 The listener declaration of AVB Lite: an input is declared Ready only while
 the streams this end station is Ready for stay within 75% of its link, each
 counted by its talker's TSpec.

 The code decides each input on its own, by asking itself for the decision of
 every lower-numbered input.
 */
module ListenerDeclaration {
  import opened Bandwidth
  import opened Basics

  datatype Event = AskingFailed | Ready | ReadyFailed

  datatype TSpec = TSpec(maxFrameSize: nat, maxIntervalFrames: nat)

  /**
   What an input's declaration depends on: its connection, and its talker's
   Talker Failed code and Talker Advertise TSpec, when registered.
   */
  datatype Input = Input(connected: bool, classB: bool, failed: Option<nat>, advertised: Option<TSpec>)

  const U16: nat := 0x1_0000
  const U64: nat := 0x1_0000_0000_0000_0000

  /** The declaration before the AVB Lite rules. */
  function Plain(s: Input): Event {
    if s.failed.Some? && s.failed.value != 0 then ReadyFailed
    else if s.connected && s.advertised.Some? then Ready
    else AskingFailed
  }

  /** Connected, its talker advertised and not failed. */
  predicate MayBeReady(s: Input) {
    s.connected && s.advertised.Some? && (s.failed.Some? ==> s.failed.value == 0)
  }

  /** What an input takes of the link while it is Ready: nothing until its talker advertises. */
  function Bps(s: Input): (bps: nat)
    ensures s.advertised.None? ==> bps == 0
    ensures s.advertised.Some? ==>
        var octets := (s.advertised.value.maxFrameSize + 42) * if s.advertised.value.maxIntervalFrames == 0 then 1
                                                               else s.advertised.value.maxIntervalFrames;
        bps == octets * if s.classB then 32_000 else 64_000
  {
    if s.advertised.None? then 0
    else
      var t := s.advertised.value;
      CopyBps(t.maxFrameSize, if t.maxIntervalFrames != 0 then t.maxIntervalFrames else 1, s.classB, OVERHEAD)
  }

  // ---- One greedy pass ---------------------------------------------------

  /** Bandwidth of the inputs that are Ready in a list of declarations. */
  function ReadyBps(inputs: seq<Input>, events: seq<Event>): nat
    requires |inputs| == |events|
  {
    if inputs == [] then 0
    else
      var n := |inputs| - 1;
      ReadyBps(inputs[..n], events[..n]) + if events[n] == Ready then Bps(inputs[n]) else 0
  }

  /** Inputs in index order, each Ready while it still fits. */
  function Pass(inputs: seq<Input>, budget: nat): (events: seq<Event>)
    ensures |events| == |inputs|
    ensures ReadyBps(inputs, events) <= budget
  {
    if inputs == [] then []
    else
      var n := |inputs| - 1;
      var before := Pass(inputs[..n], budget);
      var fits := ReadyBps(inputs[..n], before) + Bps(inputs[n]) <= budget;
      var own := if Plain(inputs[n]) == Ready && fits then Ready else AskingFailed;
      assert (before + [own])[..n] == before;
      before + [own]
  }

  /** Declarations an AVB Lite end station makes for all its inputs. */
  function Declared(inputs: seq<Input>, linkMbps: nat): seq<Event> {
    Pass(inputs, Budget(linkMbps))
  }

  // ---- The recursive decision --------------------------------------------

  method DeclEvent(lite: bool, inputs: seq<Input>, linkMbps: nat, index: nat) returns (event: Event)
    requires index < |inputs|
    ensures event == if lite then Declared(inputs, linkMbps)[index] else Plain(inputs[index])
    // In full: a failed talker; else Ready once connected and advertised, and in AVB Lite only within 75% of the link.
    ensures !lite ==>
        && (event == ReadyFailed <==> inputs[index].failed.Some? && inputs[index].failed.value != 0)
        && (event == Ready <==> MayBeReady(inputs[index]))
    ensures lite ==> event != ReadyFailed
    ensures lite ==> (event == Ready <==>
        && MayBeReady(inputs[index])
        && 4 * (ReadyBps(inputs[..index], Declared(inputs, linkMbps)[..index]) + Bps(inputs[index])) <= 3_000_000 * linkMbps)
    decreases index
  {
    ReadyWithinBudgetExactly(inputs, linkMbps);
    hide Bps;
    var decl := Plain(inputs[index]);
    if !lite {
      return decl;
    }
    ghost var events := Declared(inputs, linkMbps);
    DeclaredIs(inputs, linkMbps, index);
    if decl == ReadyFailed {
      return AskingFailed;
    }
    if decl != Ready {
      return decl;
    }
    var budget := linkMbps * 1_000_000 * 3 / 4;
    var readyBps := 0;
    var j := 0;
    while j <= index && j < |inputs|
      invariant j <= index + 1
      invariant readyBps == if j <= index then ReadyBps(inputs[..j], events[..j])
                            else ReadyBps(inputs[..index], events[..index]) + Bps(inputs[index])
    {
      var counts := j == index;
      if j != index {
        var lower := DeclEvent(lite, inputs, linkMbps, j);
        counts := lower == Ready;
        ReadyBpsOne(inputs, events, j);
      }
      if counts {
        readyBps := readyBps + Bps(inputs[j]);
      }
      j := j + 1;
    }
    event := if readyBps > budget then AskingFailed else decl;
  }

  lemma ReadyBpsOne(inputs: seq<Input>, events: seq<Event>, j: nat)
    requires |inputs| == |events| && j < |inputs|
    ensures ReadyBps(inputs[..j + 1], events[..j + 1]) ==
        ReadyBps(inputs[..j], events[..j]) + if events[j] == Ready then Bps(inputs[j]) else 0
  {
    assert inputs[..j + 1][..j] == inputs[..j] && events[..j + 1][..j] == events[..j];
  }

  lemma DeclaredIs(inputs: seq<Input>, linkMbps: nat, i: nat)
    requires i < |inputs|
    ensures var lower := ReadyBps(inputs[..i], Declared(inputs, linkMbps)[..i]);
        Declared(inputs, linkMbps)[i] ==
          if Plain(inputs[i]) == Ready && lower + Bps(inputs[i]) <= Budget(linkMbps) then Ready else AskingFailed
  {
    hide Bps, Plain;
    PassPrefix(inputs, Budget(linkMbps), i + 1);
    PassPrefix(inputs, Budget(linkMbps), i);
    assert inputs[..i + 1][..i] == inputs[..i];
  }

  /** Lower-numbered inputs are decided without a look at higher ones. */
  lemma {:induction false} PassPrefix(inputs: seq<Input>, budget: nat, n: nat)
    requires n <= |inputs|
    ensures Pass(inputs, budget)[..n] == Pass(inputs[..n], budget)
    decreases |inputs|
  {
    hide Bps, Plain, ReadyBps;
    if n == |inputs| {
      assert inputs[..n] == inputs;
    } else {
      var m := |inputs| - 1;
      PassPrefix(inputs[..m], budget, n);
      assert inputs[..m][..n] == inputs[..n];
    }
  }

  // ---- What the declarations promise -------------------------------------

  /** No input is ever displaced by a higher-numbered one. */
  lemma LowerInputsKeepTheirPlace(a: seq<Input>, b: seq<Input>, linkMbps: nat, i: nat)
    requires i < |a| && i < |b| && a[..i + 1] == b[..i + 1]
    ensures Declared(a, linkMbps)[i] == Declared(b, linkMbps)[i]
  {
    PassPrefix(a, Budget(linkMbps), i + 1);
    PassPrefix(b, Budget(linkMbps), i + 1);
  }

  /** A list of declarations in which every input obeys the rule of its own. */
  ghost predicate Consistent(inputs: seq<Input>, events: seq<Event>, budget: nat)
    requires |inputs| == |events|
  {
    forall i :: 0 <= i < |inputs| ==>
      events[i] == if Plain(inputs[i]) == Ready && ReadyBps(inputs[..i], events[..i]) + Bps(inputs[i]) <= budget
                   then Ready else AskingFailed
  }

  lemma ConsistentByIndex(inputs: seq<Input>, events: seq<Event>, budget: nat)
    requires |inputs| == |events| && inputs != []
    ensures var n := |inputs| - 1;
        Consistent(inputs, events, budget) <==>
          && Consistent(inputs[..n], events[..n], budget)
          && events[n] == if Plain(inputs[n]) == Ready && ReadyBps(inputs[..n], events[..n]) + Bps(inputs[n]) <= budget
                          then Ready else AskingFailed
  {
    hide Bps, Plain, ReadyBps;
    var n := |inputs| - 1;
    assert forall i :: 0 <= i < n ==> inputs[..n][..i] == inputs[..i] && events[..n][..i] == events[..i];
  }

  lemma PassByIndex(inputs: seq<Input>, budget: nat)
    requires inputs != []
    ensures var n := |inputs| - 1;
        var before := Pass(inputs[..n], budget);
        Pass(inputs, budget) == before +
          [if Plain(inputs[n]) == Ready && ReadyBps(inputs[..n], before) + Bps(inputs[n]) <= budget
           then Ready else AskingFailed]
  {
    hide Bps, Plain, ReadyBps;
  }

  /** The rule has one solution, and it is the pass. */
  lemma {:induction false} PassIsTheOnlySolution(inputs: seq<Input>, events: seq<Event>, budget: nat)
    requires |inputs| == |events|
    ensures Consistent(inputs, events, budget) <==> events == Pass(inputs, budget)
    decreases |inputs|
  {
    hide Bps, Plain, ReadyBps;
    if inputs == [] {
    } else {
      var n := |inputs| - 1;
      PassIsTheOnlySolution(inputs[..n], events[..n], budget);
      ConsistentByIndex(inputs, events, budget);
      PassByIndex(inputs, budget);
      hide Consistent, Pass;
      assert events == events[..n] + [events[n]];
    }
  }

  /** Any other choice that stays within the link. */
  ghost predicate Feasible(inputs: seq<Input>, events: seq<Event>, budget: nat)
    requires |inputs| == |events|
  {
    && (forall i :: 0 <= i < |inputs| && events[i] == Ready ==> Plain(inputs[i]) == Ready)
    && ReadyBps(inputs, events) <= budget
  }

  lemma {:induction false} ReadyBpsGrows(inputs: seq<Input>, events: seq<Event>, n: nat)
    requires |inputs| == |events| && n < |inputs|
    ensures ReadyBps(inputs, events) >=
        ReadyBps(inputs[..n], events[..n]) + if events[n] == Ready then Bps(inputs[n]) else 0
    decreases |inputs|
  {
    var m := |inputs| - 1;
    if n < m {
      ReadyBpsGrows(inputs[..m], events[..m], n);
      assert inputs[..m][..n] == inputs[..n] && events[..m][..n] == events[..n];
    }
  }

  /**
   Lower numbers come first: where any other choice within the budget first
   differs from the declared one, it turned an input away that was declared.
   */
  lemma DeclaredFavoursLowerInputs(inputs: seq<Input>, linkMbps: nat, other: seq<Event>, i: nat)
    requires |other| == |inputs| && Feasible(inputs, other, Budget(linkMbps)) && i < |inputs|
    requires forall j :: 0 <= j < i ==> (other[j] == Ready <==> Declared(inputs, linkMbps)[j] == Ready)
    requires other[i] == Ready
    ensures Declared(inputs, linkMbps)[i] == Ready
  {
    var events := Declared(inputs, linkMbps);
    PassIsTheOnlySolution(inputs, events, Budget(linkMbps));
    ReadyBpsGrows(inputs, other, i);
    SameReadySameBps(inputs[..i], events[..i], other[..i]);
  }

  lemma {:induction false} SameReadySameBps(inputs: seq<Input>, a: seq<Event>, b: seq<Event>)
    requires |inputs| == |a| == |b|
    requires forall j :: 0 <= j < |a| ==> (a[j] == Ready <==> b[j] == Ready)
    ensures ReadyBps(inputs, a) == ReadyBps(inputs, b)
  {
    if inputs != [] {
      var n := |inputs| - 1;
      SameReadySameBps(inputs[..n], a[..n], b[..n]);
    }
  }

  /** The link is never promised beyond 75%, and refusal says it would be. */
  lemma ReadyWithinBudgetExactly(inputs: seq<Input>, linkMbps: nat)
    ensures ReadyBps(inputs, Declared(inputs, linkMbps)) * 4 <= linkMbps * 3_000_000
    ensures forall i :: 0 <= i < |inputs| ==>
        var lower := ReadyBps(inputs[..i], Declared(inputs, linkMbps)[..i]);
        Declared(inputs, linkMbps)[i] == Ready <==>
          Plain(inputs[i]) == Ready && (lower + Bps(inputs[i])) * 4 <= linkMbps * 3_000_000
  {
    PassIsTheOnlySolution(inputs, Declared(inputs, linkMbps), Budget(linkMbps));
  }

  // ---- 64-bit arithmetic -------------------------------------------------

  ghost predicate WireSized(s: Input) {
    s.advertised.Some? ==> s.advertised.value.maxFrameSize < U16 && s.advertised.value.maxIntervalFrames < U16
  }

  lemma BpsBound(s: Input)
    requires WireSized(s)
    ensures Bps(s) <= (U16 - 1 + OVERHEAD) * (U16 - 1) * 8000 * 8
  {
    if s.advertised.Some? {
      var t := s.advertised.value;
      var frames := if t.maxIntervalFrames != 0 then t.maxIntervalFrames else 1;
      ProductMonotone(t.maxFrameSize + OVERHEAD, U16 - 1 + OVERHEAD, frames, U16 - 1);
    }
  }

  /** The sum the code keeps fits its 64 bits, however many inputs there are. */
  lemma {:induction false} SumFitsSixtyFourBits(inputs: seq<Input>, events: seq<Event>)
    requires |inputs| == |events| <= U16
    requires forall i :: 0 <= i < |inputs| ==> WireSized(inputs[i])
    ensures ReadyBps(inputs, events) <= |inputs| * ((U16 - 1 + OVERHEAD) * (U16 - 1) * 8000 * 8)
    ensures ReadyBps(inputs, events) < U64
  {
    if inputs != [] {
      var n := |inputs| - 1;
      SumFitsSixtyFourBits(inputs[..n], events[..n]);
      BpsBound(inputs[n]);
    }
  }
}
