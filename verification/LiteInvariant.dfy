/**
 What every pass of the AVB Lite scheduler keeps of a stream, given the line it
 left and the account it closed the pass before.
 */
module LiteInvariant {
  import opened LiteLedger
  import opened LitePlan
  import opened LitePublish
  import opened LiteState

  predicate IsPlace(line: seq<nat>, a: int, fanout: nat, t: nat) {
    0 <= a < |line| && a < fanout && line[a] == t
  }

  /** A ticket inside the fan-out that held a place. */
  ghost predicate HeldInLine(line: seq<nat>, account: Account, fanout: nat, t: nat) {
    t in HeldTickets(account.copies) && exists a :: IsPlace(line, a, fanout, t)
  }

  ghost predicate Kept(s: Stream, line: seq<nat>, account: Account, fanout: nat, clock: int) {
    && TicketsDistinct(s.rows) && Rising(line)
    && (forall j :: 0 <= j < |s.rows| && s.rows[j].order != 0 ==> s.rows[j].order in line)
    && (forall j :: 0 <= j < |s.rows| && s.rows[j].admitted ==>
          s.rows[j].order != 0 && !s.txMulticast && HeldInLine(line, account, fanout, s.rows[j].order))
    && (s.txMulticast ==> s.declaredMulticast && clock >= s.multicastAt)
    && (s.multicastAdmitted ==> s.txMulticast && HeldIn(account.copies) >= 1)
  }

  /** What runs, runs where its mailbox says: to addresses, or multicast once allowed. */
  predicate Flows(s: Stream) {
    s.streaming ==> (s.txMulticast <==> s.mailbox == [])
  }

  // ---- Planning ----------------------------------------------------------

  lemma {:induction false} SomebodyAsks(rows: seq<Row>) returns (j: nat)
    requires Asking(rows) > 0
    ensures j < |rows| && rows[j].order != 0
  {
    var n := |rows| - 1;
    if rows[n].order != 0 {
      j := n;
    } else {
      j := SomebodyAsks(rows[..n]);
    }
  }

  /** Where a planned row with an old ticket comes from. */
  lemma OldTicketRow(s: Stream, t: Stream, plan: Plan, now: int, counter: nat, last: nat, fanout: nat, j: nat)
    returns (i: nat)
    requires Planned(s, t, plan, now, counter, last, fanout) && j < |t.rows|
    requires 0 < t.rows[j].order <= counter
    ensures i < |s.rows| && s.rows[i].order == t.rows[j].order
    ensures Aged(s.rows, now)[j].admitted == s.rows[i].admitted
    ensures t.rows[j].admitted ==> s.rows[i].admitted
  {
    var aged := Aged(s.rows, now);
    assert PlannedRow(aged[j], t.rows[j], now, counter, last);
    i := AgedOrigin(s.rows, now, j);
    if t.rows[j].admitted {
      assert j in plan.order;
      var a :| 0 <= a < |plan.order| && plan.order[a] == j;
    }
  }

  lemma PlanShows(s: Stream, t: Stream, plan: Plan, now: int, counter: nat, last: nat, fanout: nat)
    requires Planned(s, t, plan, now, counter, last, fanout) && fanout >= 1
    requires s.txMulticast ==> s.declaredMulticast
    ensures PlacesShown(t, plan, fanout)
  {
    if t.txMulticast {
      var j := SomebodyAsks(t.rows);
      assert j in plan.order;
    }
    forall j | 0 <= j < |t.rows| && t.rows[j].admitted
      ensures j in plan.order && !t.txMulticast
    {
      assert PlannedRow(Aged(s.rows, now)[j], t.rows[j], now, counter, last);
      var a :| 0 <= a < |plan.order| && plan.order[a] == j;
    }
  }

  /** A row whose new ticket was just drawn holds no place yet. */
  lemma AdmittedIsOld(s: Stream, line: seq<nat>, account: Account, t: Stream, plan: Plan, now: int,
                      counter: nat, last: nat, fanout: nat, clock: int, j: nat)
    requires Kept(s, line, account, fanout, clock)
    requires Planned(s, t, plan, now, counter, last, fanout) && TicketsUpTo(s.rows, counter)
    requires j < |t.rows| && t.rows[j].admitted
    ensures 0 < t.rows[j].order <= counter && !s.txMulticast
    ensures HeldInLine(line, account, fanout, t.rows[j].order)
  {
    var aged := Aged(s.rows, now);
    assert PlannedRow(aged[j], t.rows[j], now, counter, last);
    assert j in plan.order;
    var a :| 0 <= a < |plan.order| && plan.order[a] == j;
    var i := AgedOrigin(s.rows, now, j);
  }

  /** Planning takes places away and gives none. */
  lemma HeldShrinks(s: Stream, line: seq<nat>, account: Account, t: Stream, plan: Plan, now: int,
                    counter: nat, last: nat, fanout: nat, clock: int)
    requires Kept(s, line, account, fanout, clock)
    requires Planned(s, t, plan, now, counter, last, fanout) && TicketsUpTo(s.rows, counter)
    requires PlacesShown(t, plan, fanout)
    ensures HeldIn(AccountOf(t, plan, fanout).copies) <= HeldIn(account.copies)
  {
    var copies := AccountOf(t, plan, fanout).copies;
    if t.txMulticast {
      assert copies[..0] == [];
      assert HeldIn(copies) == HeldIn(copies[..0]) + if copies[0].held then 1 else 0;
    } else {
      forall u | u in HeldTickets(copies)
        ensures u in HeldTickets(account.copies)
      {
        var k :| 0 <= k < |copies| && copies[k].held && copies[k].ticket == u;
        AdmittedIsOld(s, line, account, t, plan, now, counter, last, fanout, clock, plan.order[k]);
      }
      FewerHeld(copies, account.copies);
    }
  }

  /** Nobody new stands before someone who stood in line already. */
  lemma NobodyCutsIn(s: Stream, line: seq<nat>, account: Account, t: Stream, plan: Plan, now: int,
                     counter: nat, last: nat, fanout: nat, clock: int, k: nat)
    requires Kept(s, line, account, fanout, clock)
    requires Planned(s, t, plan, now, counter, last, fanout)
    requires k < |plan.order| && LineOf(t, plan)[k] <= counter
    ensures forall a :: 0 <= a <= k ==> LineOf(t, plan)[a] in line
  {
    forall a | 0 <= a <= k
      ensures LineOf(t, plan)[a] in line
    {
      assert t.rows[plan.order[a]].order <= t.rows[plan.order[k]].order;
      var i := OldTicketRow(s, t, plan, now, counter, last, fanout, plan.order[a]);
    }
  }

  /** Who held a place and still stands in line keeps it through the planning. */
  lemma PlaceSurvivesPlan(s: Stream, line: seq<nat>, account: Account, t: Stream, plan: Plan, now: int,
                          counter: nat, last: nat, fanout: nat, clock: int, i: nat, k: nat)
    requires Kept(s, line, account, fanout, clock)
    requires Planned(s, t, plan, now, counter, last, fanout) && TicketsUpTo(s.rows, counter)
    requires !t.txMulticast
    requires i < |s.rows| && s.rows[i].admitted
    requires k < |plan.order| && LineOf(t, plan)[k] == s.rows[i].order
    ensures k < fanout && t.rows[plan.order[k]].admitted
  {
    var u := s.rows[i].order;
    NobodyCutsIn(s, line, account, t, plan, now, counter, last, fanout, clock, k);
    var p :| IsPlace(line, p, fanout, u);
    LineRises(t, plan);
    NeverFurtherBack(line, LineOf(t, plan), p, k);
    var origin := OldTicketRow(s, t, plan, now, counter, last, fanout, plan.order[k]);
    assert origin == i;
  }

  lemma LineRises(t: Stream, plan: Plan)
    requires Ascending(t.rows, plan.order)
    ensures Rising(LineOf(t, plan))
  {
  }

  // ---- Admission and publication -----------------------------------------

  lemma SamePlaceSameLine(a: Stream, b: Stream, plan: Plan)
    requires SameButPlace(a, b) && InLine(a.rows, plan.order)
    ensures InLine(b.rows, plan.order) && LineOf(b, plan) == LineOf(a, plan)
    ensures TicketsDistinct(a.rows) ==> TicketsDistinct(b.rows)
  {
  }

  /** A publication leaves tickets and places as they were. */
  lemma PublishedSame(s: Stream, t: Stream, plan: Plan, fanout: nat, now: int, startOk: bool)
    requires PlacesShown(s, plan, fanout) && Published(s, t, plan, fanout, now, startOk)
    ensures |t.rows| == |s.rows|
    ensures forall j :: 0 <= j < |s.rows| ==>
        t.rows[j] == s.rows[j].(refused := t.rows[j].refused, holdUntil := t.rows[j].holdUntil)
    ensures PlacesShown(t, plan, fanout) && AccountOf(t, plan, fanout) == AccountOf(s, plan, fanout)
    ensures InLine(s.rows, plan.order) ==> InLine(t.rows, plan.order)
    ensures LineOf(t, plan) == LineOf(s, plan)
  {
    forall j | 0 <= j < |s.rows|
      ensures t.rows[j] == s.rows[j].(refused := t.rows[j].refused, holdUntil := t.rows[j].holdUntil)
    {
    }
    assert t.txMulticast == s.txMulticast && t.multicastAdmitted == s.multicastAdmitted;
    hide Published, AnsweredUpTo, Answered, CodeOf;
    assert AccountOf(t, plan, fanout).copies == AccountOf(s, plan, fanout).copies;
  }

  /** After a pass the stream is kept by the line and the account it leaves. */
  lemma PassKeeps(t: Stream, plan: Plan, fanout: nat, clock: int)
    requires PlacesShown(t, plan, fanout) && InLine(t.rows, plan.order) && TicketsDistinct(t.rows)
    requires t.txMulticast ==> t.declaredMulticast && clock >= t.multicastAt
    ensures Kept(t, LineOf(t, plan), AccountOf(t, plan, fanout), fanout, clock)
  {
    var line, account := LineOf(t, plan), AccountOf(t, plan, fanout);
    LineRises(t, plan);
    forall j | 0 <= j < |t.rows| && t.rows[j].order != 0
      ensures t.rows[j].order in line
    {
      var a :| 0 <= a < |plan.order| && plan.order[a] == j;
      assert line[a] == t.rows[j].order;
    }
    forall j | 0 <= j < |t.rows| && t.rows[j].admitted
      ensures HeldInLine(line, account, fanout, t.rows[j].order)
    {
      var a :| 0 <= a < |plan.order| && plan.order[a] == j;
      assert IsPlace(line, a, fanout, t.rows[j].order);
      assert account.copies[a].held;
    }
    if t.multicastAdmitted {
      assert account.copies[..0] == [];
      assert HeldIn(account.copies) == HeldIn(account.copies[..0]) + 1;
    }
  }

  // ---- Between passes ----------------------------------------------------

  /** What MSRP and ACMP may do to a stream between passes. */
  ghost predicate Disturbed(s: Stream, t: Stream, lite: bool) {
    && t == s.(rows := t.rows, streaming := t.streaming)
    && (lite && t.streaming ==> s.streaming)
    && TicketsDistinct(t.rows)
    && forall j :: 0 <= j < |t.rows| ==> SameLiteState(s.rows, t.rows[j])
  }

  /** A row's own AVB Lite state is not touched from outside; a new row has none. */
  ghost predicate SameLiteState(rows: seq<Row>, row: Row) {
    || (row.order == 0 && !row.refused && !row.admitted && row.holdUntil == 0)
    || (row.order != 0 && exists i :: IsSameLite(rows, i, row))
  }

  predicate IsSameLite(rows: seq<Row>, i: int, row: Row) {
    && 0 <= i < |rows| && rows[i].order == row.order && rows[i].refused == row.refused
    && rows[i].admitted == row.admitted && rows[i].holdUntil == row.holdUntil
  }

  lemma DisturbedKeeps(s: Stream, t: Stream, line: seq<nat>, account: Account, fanout: nat, clock: int, lite: bool)
    requires Kept(s, line, account, fanout, clock) && Disturbed(s, t, lite)
    ensures Kept(t, line, account, fanout, clock)
    ensures forall u :: HasTicket(t.rows, u) ==> HasTicket(s.rows, u)
    ensures lite && Flows(s) ==> Flows(t)
  {
    forall j | 0 <= j < |t.rows| && t.rows[j].order != 0
      ensures exists i :: TicketAtRow(s.rows, i, t.rows[j].order) && s.rows[i].admitted == t.rows[j].admitted
    {
      assert SameLiteState(s.rows, t.rows[j]);
      var i :| IsSameLite(s.rows, i, t.rows[j]);
      assert TicketAtRow(s.rows, i, t.rows[j].order);
    }
    forall j | 0 <= j < |t.rows| && t.rows[j].admitted
      ensures t.rows[j].order != 0
    {
      assert SameLiteState(s.rows, t.rows[j]);
    }
  }

  // ---- Declarations on the wire ------------------------------------------

  /**
   A declaration of a stream: of its multicast address or of zero, whether
   frames went out multicast at that moment, and whether it was made on
   entering AVB Lite.
   */
  datatype Declaration = Declaration(stream: nat, multicast: bool, at: int, flowing: bool, entering: bool)

  function Declare(s: Stream, i: nat, now: int, entering: bool): Declaration {
    Declaration(i, s.declaredMulticast, now, s.streaming && s.mailbox == [], entering)
  }

  ghost predicate IsDeclaredSince(log: seq<Declaration>, n: int, i: nat, at: int) {
    && 0 <= n < |log| && log[n].stream == i && log[n].multicast && log[n].at == at
    && forall m :: n < m < |log| && log[m].stream == i ==> log[m].multicast
  }

  /** The multicast address was declared then and has been declared ever since. */
  ghost predicate DeclaredSince(log: seq<Declaration>, i: nat, at: int) {
    exists n :: IsDeclaredSince(log, n, i, at)
  }

  /** Zero is declared only for a stream whose frames do not go multicast, but for the entry. */
  ghost predicate WireLaw(log: seq<Declaration>) {
    forall n :: 0 <= n < |log| && !log[n].multicast && log[n].flowing ==> log[n].entering
  }

  lemma OneDeclaration(log: seq<Declaration>, d: Declaration)
    requires WireLaw(log) && (!d.multicast && d.flowing ==> d.entering)
    ensures WireLaw(log + [d])
    ensures forall i, at :: DeclaredSince(log, i, at) && (d.stream == i ==> d.multicast) ==> DeclaredSince(log + [d], i, at)
    ensures d.multicast ==> DeclaredSince(log + [d], d.stream, d.at)
  {
    var more := log + [d];
    forall i, at | DeclaredSince(log, i, at) && (d.stream == i ==> d.multicast)
      ensures DeclaredSince(more, i, at)
    {
      var n :| IsDeclaredSince(log, n, i, at);
      assert IsDeclaredSince(more, n, i, at);
    }
    if d.multicast {
      assert IsDeclaredSince(more, |log|, d.stream, d.at);
    }
  }

  /** The declarations a pass makes: of the streams whose address changed, in order. */
  function Declarations(streams: seq<Stream>, plans: seq<Plan>, now: int, n: nat): seq<Declaration>
    requires n <= |streams| == |plans|
  {
    if n == 0 then []
    else
      Declarations(streams, plans, now, n - 1) +
      (if plans[n - 1].declarationChanged then [Declare(streams[n - 1], n - 1, now, false)] else [])
  }

  lemma {:induction false} DeclarationsKeep(log: seq<Declaration>, streams: seq<Stream>, plans: seq<Plan>, now: int, n: nat)
    requires n <= |streams| == |plans| && WireLaw(log)
    requires forall i :: 0 <= i < n ==> Flows(streams[i]) && (streams[i].txMulticast ==> streams[i].declaredMulticast)
    ensures WireLaw(log + Declarations(streams, plans, now, n))
    ensures forall i: nat, at ::
        (DeclaredSince(log, i, at) && i < |streams|
         && !(i < n && plans[i].declarationChanged && !streams[i].declaredMulticast)) ==>
        DeclaredSince(log + Declarations(streams, plans, now, n), i, at)
    ensures forall i: nat :: i < n && plans[i].declarationChanged && streams[i].declaredMulticast ==>
        DeclaredSince(log + Declarations(streams, plans, now, n), i, now)
  {
    hide DeclaredSince, WireLaw;
    if n == 0 {
      assert log + Declarations(streams, plans, now, 0) == log;
    } else {
      DeclarationsKeep(log, streams, plans, now, n - 1);
      var before := log + Declarations(streams, plans, now, n - 1);
      if plans[n - 1].declarationChanged {
        var d := Declare(streams[n - 1], n - 1, now, false);
        OneDeclaration(before, d);
        assert log + Declarations(streams, plans, now, n) == before + [d];
      } else {
        assert log + Declarations(streams, plans, now, n) == before;
      }
    }
  }

  // ---- One stream through one pass ---------------------------------------

  lemma ThroughThePass(s0: Stream, line: seq<nat>, account: Account, clock: int,
                       s1: Stream, s2: Stream, s3: Stream, plan: Plan, now: int,
                       counter: nat, last: nat, fanout: nat, startOk: bool)
    requires Kept(s0, line, account, fanout, clock) && clock <= now
    requires Planned(s0, s1, plan, now, counter, last, fanout)
    requires SameButPlace(s1, s2) && PlacesShown(s2, plan, fanout)
    requires Published(s2, s3, plan, fanout, now, startOk)
    ensures PlacesShown(s3, plan, fanout) && InLine(s3.rows, plan.order)
    ensures AccountOf(s3, plan, fanout) == AccountOf(s2, plan, fanout)
    ensures Kept(s3, LineOf(s3, plan), AccountOf(s3, plan, fanout), fanout, now)
    ensures LineOf(s3, plan) == LineOf(s1, plan)
    ensures Flows(s3) && (s3.txMulticast ==> s3.declaredMulticast)
    ensures s3.streaming ==> MailboxExact(s3, plan, fanout)
    ensures s3.declaredMulticast ==>
        if plan.declarationChanged then s3.multicastAt == now + JOIN_TIME
        else s0.declaredMulticast && s3.multicastAt == s0.multicastAt
  {
    SamePlaceSameLine(s1, s2, plan);
    PublishedSame(s2, s3, plan, fanout, now, startOk);
    if s3.streaming {
      MailboxOfARunningStream(s2, s3, plan, fanout, now, startOk);
    }
    hide Planned;
    PlannedTransmits(s0, s1, plan, now, counter, last, fanout);
    DistinctSame(s2.rows, s3.rows);
    hide MailboxExact;
    hide PlacesShown, Published, LineOf, AccountOf, Ascending;
    PassKeeps(s3, plan, fanout, now);
  }

  lemma DistinctSame(a: seq<Row>, b: seq<Row>)
    requires |a| == |b| && forall j :: 0 <= j < |a| ==> b[j].order == a[j].order
    ensures TicketsDistinct(a) ==> TicketsDistinct(b)
  {
  }

  lemma PlannedTransmits(s: Stream, t: Stream, plan: Plan, now: int, counter: nat, last: nat, fanout: nat)
    requires Planned(s, t, plan, now, counter, last, fanout)
    ensures TicketsDistinct(t.rows) && InLine(t.rows, plan.order)
    ensures t.txMulticast ==> s.declaredMulticast && t.declaredMulticast && t.multicastAt == s.multicastAt
    ensures t.txMulticast ==> s.txMulticast || now >= t.multicastAt
    ensures plan.declarationChanged == (t.declaredMulticast != s.declaredMulticast)
    ensures t.multicastAt == if t.declaredMulticast && !s.declaredMulticast then now + JOIN_TIME else s.multicastAt
  {
  }
}
