/**
 Whole runs of the AVB Lite scheduler: passes, and what MSRP and ACMP do in
 between.
 */
module LiteRuns {
  import opened LiteFairness
  import opened LiteInvariant
  import opened LiteLedger
  import opened LitePlan
  import opened LiteScheduler
  import opened LiteState

  /** Streams, the lines and the book of the last pass, and its budget. */
  datatype Moment = Moment(streams: seq<Stream>, lines: seq<seq<nat>>, book: Book, budget: nat)

  ghost function Now(s: Scheduler): Moment
    reads s
  {
    Moment(s.streams, s.lines, s.lastBook, s.lastBudget)
  }

  ghost predicate SameSize(a: Moment, b: Moment) {
    |a.streams| == |b.streams| == |b.lines| == |a.book| == |b.book|
  }

  /** The link did not shrink and no copy grew. */
  ghost predicate Generous(a: Moment, b: Moment)
    requires SameSize(a, b)
  {
    a.budget <= b.budget && forall i :: 0 <= i < |a.book| ==> b.book[i].bps <= a.book[i].bps
  }

  ghost predicate IsPass(a: Moment, b: Moment) {
    SameSize(a, b) && (Generous(a, b) ==> Retained(a.streams, b.streams, b.lines))
  }

  ghost predicate IsDisturbance(a: Moment, b: Moment) {
    && SameSize(a, b) && b == a.(streams := b.streams)
    && forall i :: 0 <= i < |a.streams| ==> TicketsDistinct(a.streams[i].rows) && Disturbed(a.streams[i], b.streams[i], true)
  }

  /** A pass of the scheduler is one of a run. */
  method Pass(s: Scheduler, now: int, linkMbps: nat, given: seq<Given>)
    requires s.Valid() && s.lite && s.clock <= now && |given| == |s.streams|
    modifies s
    ensures s.Valid() && s.lite && IsPass(old(Now(s)), Now(s))
  {
    hide Kept, Disjoint, AllUpTo, OnTheWire, WireLaw, Total, Retained, LinesUpTo;
    var refusals, publications, planned, admitted, released, cut := s.Update(now, linkMbps, given);
  }

  /** So is what happens between passes. */
  method Disturbance(s: Scheduler, after: seq<Stream>)
    requires s.Valid() && s.lite && |after| == |s.streams|
    requires forall i :: 0 <= i < |s.streams| ==> Disturbed(s.streams[i], after[i], s.lite)
    modifies s`streams
    ensures s.Valid() && IsDisturbance(old(Now(s)), Now(s))
  {
    hide Disjoint, AllUpTo, OnTheWire, WireLaw, Total, LinesUpTo;
    s.Disturb(after);
  }

  /** The listener's stream is unicast, and it stands in line under its ticket. */
  ghost predicate InService(m: Moment, i: nat, t: nat) {
    && i < |m.streams| == |m.lines|
    && !m.streams[i].txMulticast && t in m.lines[i] && HasTicket(m.streams[i].rows, t)
  }

  ghost predicate HasPlace(m: Moment, i: nat, t: nat) {
    i < |m.streams| && HoldsPlace(m.streams[i].rows, t)
  }

  lemma DisturbanceKeepsPlace(a: Moment, b: Moment, i: nat, t: nat)
    requires IsDisturbance(a, b) && InService(b, i, t) && HasPlace(a, i, t)
    ensures HasPlace(b, i, t)
  {
    var before, after := a.streams[i].rows, b.streams[i].rows;
    var j :| TicketAtRow(after, j, t);
    assert SameLiteState(before, after[j]);
    var k :| IsSameLite(before, k, after[j]);
    var h :| HoldsPlaceAt(before, h, t);
    assert h == k;
    assert HoldsPlaceAt(after, j, t);
  }

  lemma PassKeepsPlace(a: Moment, b: Moment, i: nat, t: nat)
    requires IsPass(a, b) && Generous(a, b) && InService(b, i, t) && HasPlace(a, i, t)
    ensures HasPlace(b, i, t)
  {
    var h :| HoldsPlaceAt(a.streams[i].rows, h, t);
    assert RetainedIn(a.streams[i], b.streams[i], b.lines[i]);
  }

  /**
   Once admitted, admitted for good: over any run in which the link does not
   shrink, no copy grows, and the listener goes on standing in line for a
   unicast stream.
   */
  lemma {:induction false} AdmittedForGood(run: seq<Moment>, n: nat, i: nat, t: nat)
    requires n < |run|
    requires forall k :: 0 <= k < n ==>
        (IsPass(run[k], run[k + 1]) || IsDisturbance(run[k], run[k + 1])) && Generous(run[k], run[k + 1])
    requires forall k :: 0 <= k <= n ==> InService(run[k], i, t)
    requires HasPlace(run[0], i, t)
    ensures HasPlace(run[n], i, t)
  {
    if n > 0 {
      AdmittedForGood(run, n - 1, i, t);
      hide IsPass, IsDisturbance, InService, Generous, HasPlace;
      if IsPass(run[n - 1], run[n]) {
        PassKeepsPlace(run[n - 1], run[n], i, t);
      } else {
        DisturbanceKeepsPlace(run[n - 1], run[n], i, t);
      }
    }
  }

  /**
   A stream that runs multicast when AVB Lite is entered: the zero address is
   declared over its frames.
   */
  method EntryOverMulticast(now: int) returns (s: Stream, ghost log: seq<Declaration>)
    requires now >= 0
    ensures !s.declaredMulticast && s.streaming && s.mailbox == []
    ensures log == [Declaration(0, false, now, true, true)]
  {
    var idle := Stream([], false, false, false, 0, 0, false, []);
    var scheduler := new Scheduler([idle], 1);
    hide Kept, OnTheWire, WireLaw, Total, LinesUpTo, Disjoint, AllUpTo;
    scheduler.Disturb([idle.(streaming := true)]);
    scheduler.EnterLite(now);
    s, log := scheduler.streams[0], scheduler.log;
  }
}
