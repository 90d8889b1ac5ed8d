/**
 All output streams of AVB Lite together: whose tickets are whose, the book of
 copies a plan stands for, and lines from one pass to the next.
 */
module LiteState {
  import opened LiteLedger
  import opened LitePlan

  // ---- Tickets across streams --------------------------------------------

  predicate TicketAtRow(rows: seq<Row>, j: int, t: nat) {
    0 <= j < |rows| && t != 0 && rows[j].order == t
  }

  ghost predicate HasTicket(rows: seq<Row>, t: nat) {
    exists j :: TicketAtRow(rows, j, t)
  }

  /** No two streams know the same ticket. */
  ghost predicate Disjoint(streams: seq<Stream>) {
    forall i, k, t :: 0 <= i < k < |streams| && HasTicket(streams[i].rows, t) ==> !HasTicket(streams[k].rows, t)
  }

  ghost predicate AllUpTo(streams: seq<Stream>, counter: nat) {
    forall k :: 0 <= k < |streams| ==> TicketsUpTo(streams[k].rows, counter)
  }

  lemma PlannedTickets(s: Stream, t: Stream, plan: Plan, now: int, counter: nat, last: nat, fanout: nat, u: nat)
    requires Planned(s, t, plan, now, counter, last, fanout) && HasTicket(t.rows, u)
    ensures HasTicket(s.rows, u) || counter < u <= last
  {
    var j :| TicketAtRow(t.rows, j, u);
    var aged := Aged(s.rows, now);
    assert PlannedRow(aged[j], t.rows[j], now, counter, last);
    if aged[j].order != 0 {
      var i := AgedOrigin(s.rows, now, j);
      assert TicketAtRow(s.rows, i, u);
    }
  }

  lemma PlannedStaysDisjoint(streams: seq<Stream>, i: nat, t: Stream, plan: Plan, now: int, counter: nat, last: nat, fanout: nat)
    requires i < |streams| && Disjoint(streams)
    requires AllUpTo(streams, counter)
    requires Planned(streams[i], t, plan, now, counter, last, fanout)
    ensures Disjoint(streams[i := t])
    ensures AllUpTo(streams[i := t], last)
  {
    hide Planned, Ascending;
    var after := streams[i := t];
    forall u | HasTicket(t.rows, u)
      ensures forall k :: 0 <= k < |streams| && k != i ==> !HasTicket(streams[k].rows, u)
    {
      PlannedTickets(streams[i], t, plan, now, counter, last, fanout, u);
      forall k | 0 <= k < |streams| && k != i
        ensures !HasTicket(streams[k].rows, u)
      {
        NoTicketsBeyond(streams[k].rows, counter, u);
      }
    }
    forall k | 0 <= k < |streams|
      ensures TicketsUpTo(after[k].rows, last)
    {
      PlannedUpTo(streams[i], t, plan, now, counter, last, fanout);
    }
  }

  lemma NoTicketsBeyond(rows: seq<Row>, counter: nat, u: nat)
    requires TicketsUpTo(rows, counter)
    ensures u > counter ==> !HasTicket(rows, u)
  {
  }

  lemma PlannedUpTo(s: Stream, t: Stream, plan: Plan, now: int, counter: nat, last: nat, fanout: nat)
    requires Planned(s, t, plan, now, counter, last, fanout)
    ensures TicketsUpTo(t.rows, last) && counter <= last
  {
  }

  // ---- The book of a plan ------------------------------------------------

  /** A plan's order fits its stream, and a multicast stream has a first listener. */
  ghost predicate Fits(s: Stream, plan: Plan) {
    Ascending(s.rows, plan.order) && (s.txMulticast ==> plan.order != [])
  }

  /** The copies that may hold a place: one multicast copy, or the unicast ones inside the fan-out. */
  function AccountOf(s: Stream, plan: Plan, fanout: nat): Account
    requires Fits(s, plan)
  {
    Account(plan.copyBps,
      if s.txMulticast then [Copy(s.rows[plan.order[0]].order, s.multicastAdmitted)]
      else
        seq(if |plan.order| < fanout then |plan.order| else fanout, k requires 0 <= k < |plan.order| =>
          Copy(s.rows[plan.order[k]].order, s.rows[plan.order[k]].admitted)))
  }

  ghost predicate AllFit(streams: seq<Stream>, plans: seq<Plan>) {
    |plans| == |streams| && forall i :: 0 <= i < |streams| ==> Fits(streams[i], plans[i])
  }

  function BookOf(streams: seq<Stream>, plans: seq<Plan>, fanout: nat): Book
    requires AllFit(streams, plans)
  {
    seq(|streams|, i requires 0 <= i < |streams| => AccountOf(streams[i], plans[i], fanout))
  }

  lemma BookIsDistinct(streams: seq<Stream>, plans: seq<Plan>, fanout: nat)
    requires AllFit(streams, plans) && Disjoint(streams)
    ensures Distinct(BookOf(streams, plans, fanout))
  {
    var book := BookOf(streams, plans, fanout);
    forall i, k, j, l | At(book, i, k) && At(book, j, l) && TicketAt(book, i, k) == TicketAt(book, j, l)
      ensures i == j && k == l
    {
      TicketInBook(streams, plans, fanout, i, k);
      TicketInBook(streams, plans, fanout, j, l);
    }
  }

  lemma TicketInBook(streams: seq<Stream>, plans: seq<Plan>, fanout: nat, i: int, k: int)
    requires AllFit(streams, plans) && At(BookOf(streams, plans, fanout), i, k)
    ensures 0 <= i < |streams| && 0 <= k < |plans[i].order|
    ensures TicketAt(BookOf(streams, plans, fanout), i, k) == streams[i].rows[plans[i].order[k]].order
    ensures HasTicket(streams[i].rows, streams[i].rows[plans[i].order[k]].order)
  {
    assert Fits(streams[i], plans[i]);
    assert TicketAtRow(streams[i].rows, plans[i].order[k], streams[i].rows[plans[i].order[k]].order);
  }

  lemma TicketsInBookUpTo(streams: seq<Stream>, plans: seq<Plan>, fanout: nat, counter: nat)
    requires AllFit(streams, plans) && AllUpTo(streams, counter)
    ensures var book := BookOf(streams, plans, fanout); forall i, k :: At(book, i, k) ==> TicketAt(book, i, k) <= counter
  {
    var book := BookOf(streams, plans, fanout);
    forall i, k | At(book, i, k)
      ensures TicketAt(book, i, k) <= counter
    {
      TicketInBook(streams, plans, fanout, i, k);
      assert TicketsUpTo(streams[i].rows, counter) && Fits(streams[i], plans[i]);
    }
  }

  /** Gives or takes one copy's place. */
  function WithPlace(s: Stream, plan: Plan, k: int, held: bool): Stream
    requires Fits(s, plan) && 0 <= k < |plan.order|
  {
    if s.txMulticast then s.(multicastAdmitted := held)
    else s.(rows := s.rows[plan.order[k] := s.rows[plan.order[k]].(admitted := held)])
  }

  lemma WithPlaceFits(s: Stream, plan: Plan, fanout: nat, k: int, held: bool)
    requires Fits(s, plan) && 0 <= k < |AccountOf(s, plan, fanout).copies|
    ensures k < |plan.order|
    ensures var t := WithPlace(s, plan, k, held);
        && Fits(t, plan)
        && AccountOf(t, plan, fanout) == AccountOf(s, plan, fanout).(copies :=
             AccountOf(s, plan, fanout).copies[k := AccountOf(s, plan, fanout).copies[k].(held := held)])
  {
    var t := WithPlace(s, plan, k, held);
    forall a, b | 0 <= a < b < |plan.order|
      ensures plan.order[a] != plan.order[b]
    {
    }
    assert AccountOf(t, plan, fanout).copies ==
        AccountOf(s, plan, fanout).copies[k := AccountOf(s, plan, fanout).copies[k].(held := held)];
  }

  /** Changing a row's flag is changing the copy in the book. */
  lemma PlaceInBook(streams: seq<Stream>, plans: seq<Plan>, fanout: nat, i: int, k: int, held: bool)
    requires AllFit(streams, plans) && At(BookOf(streams, plans, fanout), i, k)
    ensures 0 <= i < |streams| && 0 <= k < |plans[i].order| && Fits(streams[i], plans[i])
    ensures var after := streams[i := WithPlace(streams[i], plans[i], k, held)];
        && AllFit(after, plans)
        && BookOf(after, plans, fanout) == SetHeld(BookOf(streams, plans, fanout), i, k, held)
  {
    hide AccountOf, WithPlace, Fits;
    WithPlaceFits(streams[i], plans[i], fanout, k, held);
  }

  /** Rows hold places only where the book can see it. */
  ghost predicate PlacesShown(s: Stream, plan: Plan, fanout: nat) {
    && Fits(s, plan)
    && (s.txMulticast ==> forall j :: 0 <= j < |s.rows| ==> !s.rows[j].admitted)
    && (!s.txMulticast ==> !s.multicastAdmitted)
    && (forall j :: 0 <= j < |s.rows| && s.rows[j].admitted ==> j in plan.order)
    && (forall k :: fanout <= k < |plan.order| ==> !s.rows[plan.order[k]].admitted)
  }

  lemma WithPlaceShown(s: Stream, plan: Plan, fanout: nat, k: int, held: bool)
    requires PlacesShown(s, plan, fanout) && 0 <= k < |AccountOf(s, plan, fanout).copies|
    ensures k < |plan.order|
    ensures PlacesShown(WithPlace(s, plan, k, held), plan, fanout)
  {
    WithPlaceFits(s, plan, fanout, k, held);
    assert plan.order[k] in plan.order;
    forall a, b | 0 <= a < b < |plan.order|
      ensures plan.order[a] != plan.order[b]
    {
    }
  }

  /** Streams that differ in who holds a place and in nothing else. */
  ghost predicate SameButPlaces(a: seq<Stream>, b: seq<Stream>) {
    && |a| == |b|
    && forall i :: 0 <= i < |a| ==> SameButPlace(a[i], b[i])
  }

  ghost predicate SameButPlace(a: Stream, b: Stream) {
    && |a.rows| == |b.rows|
    && b == a.(rows := b.rows, multicastAdmitted := b.multicastAdmitted)
    && forall j :: 0 <= j < |a.rows| ==> b.rows[j] == a.rows[j].(admitted := b.rows[j].admitted)
  }

  // ---- Lines -------------------------------------------------------------

  function LineOf(s: Stream, plan: Plan): seq<nat>
    requires Ascending(s.rows, plan.order)
  {
    seq(|plan.order|, k requires 0 <= k < |plan.order| => s.rows[plan.order[k]].order)
  }

  ghost predicate Rising(line: seq<nat>) {
    forall a, b :: 0 <= a < b < |line| ==> line[a] < line[b]
  }

  /** The first n tickets of a line. */
  function First(line: seq<nat>, n: nat): set<nat>
    requires n <= |line|
  {
    set a | 0 <= a < n :: line[a]
  }

  lemma {:induction false} FirstSize(line: seq<nat>, n: nat)
    requires Rising(line) && n <= |line|
    ensures |First(line, n)| == n
  {
    if n > 0 {
      FirstSize(line, n - 1);
      FirstIsBelow(line, n - 1, line[n - 1]);
      hide Rising;
      assert First(line, n) == First(line, n - 1) + {line[n - 1]};
    }
  }

  lemma FirstIsBelow(line: seq<nat>, n: nat, t: nat)
    requires Rising(line) && n < |line|
    ensures t in First(line, n) <==> t in line && t < line[n]
  {
  }

  /** Who was behind nobody new is no further back. */
  lemma NeverFurtherBack(before: seq<nat>, after: seq<nat>, p: nat, k: nat)
    requires Rising(before) && Rising(after) && p < |before| && k < |after| && before[p] == after[k]
    requires forall a :: 0 <= a < k ==> after[a] in before
    ensures k <= p
  {
    FirstSize(before, p);
    FirstSize(after, k);
    var ahead, was := First(after, k), First(before, p);
    forall t | t in ahead
      ensures t in was
    {
      FirstIsBelow(after, k, t);
      FirstIsBelow(before, p, t);
    }
    assert was == ahead + (was - ahead);
  }

  // ---- Who held a place --------------------------------------------------

  function HeldTickets(copies: seq<Copy>): set<nat> {
    set k | 0 <= k < |copies| && copies[k].held :: copies[k].ticket
  }

  lemma {:induction false} HeldTicketsCount(copies: seq<Copy>)
    ensures |HeldTickets(copies)| <= HeldIn(copies)
    ensures (forall a, b :: 0 <= a < b < |copies| ==> copies[a].ticket < copies[b].ticket) ==>
        |HeldTickets(copies)| == HeldIn(copies)
  {
    if copies != [] {
      var n := |copies| - 1;
      HeldTicketsCount(copies[..n]);
      var before := HeldTickets(copies[..n]);
      assert HeldTickets(copies) == before + if copies[n].held then {copies[n].ticket} else {};
    }
  }

  /** Holding no more than before commits no more. */
  lemma FewerHeld(a: seq<Copy>, b: seq<Copy>)
    requires forall k, l :: 0 <= k < l < |a| ==> a[k].ticket < a[l].ticket
    requires HeldTickets(a) <= HeldTickets(b)
    ensures HeldIn(a) <= HeldIn(b)
  {
    HeldTicketsCount(a);
    HeldTicketsCount(b);
    assert HeldTickets(b) == HeldTickets(a) + (HeldTickets(b) - HeldTickets(a));
  }

  /** Within the budget nothing is released. */
  lemma NothingToRelease(before: Book, after: Book, budget: nat, cut: int, newest: int)
    requires IsReleased(before, after, budget, cut) && Total(before) <= budget
    requires forall i, k :: At(before, i, k) ==> TicketAt(before, i, k) <= newest
    ensures after == before
  {
    ReleaseStarts(before, budget, newest);
    ReleasedIsUnique(before, after, cut, before, newest, budget);
  }
}
