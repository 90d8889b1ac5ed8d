/**
 Planning one output stream of AVB Lite: silent listeners age out, those asking
 are put in the order they first asked, and the stream escalates to multicast
 or comes back.
 */
module LitePlan {
  import opened Basics

  const IDLE: int := 16_000_000
  const JOIN_TIME: int := 200_000

  /** A listener's row; a MAC address of 0 is not known yet, an order of 0 not asking. */
  datatype Row = Row(mac: int, ready: bool, acmp: bool, lastSeen: int,
                     order: nat, refused: bool, admitted: bool, holdUntil: int)

  datatype Stream = Stream(rows: seq<Row>, declaredMulticast: bool, txMulticast: bool, multicastAdmitted: bool,
                           multicastAt: int, startRetry: int, streaming: bool, mailbox: seq<int>)

  /** Working set of a pass: rows in order, and what was decided. */
  datatype Plan = Plan(order: seq<int>, ready: nat, escalation: bool, copyBps: nat, declarationChanged: bool)

  predicate Asks(row: Row) {
    row.ready || row.acmp
  }

  predicate Holding(row: Row, now: int) {
    row.holdUntil != 0 && now < row.holdUntil
  }

  /** Ready, refused, or keeping a place after a refusal was withdrawn. */
  predicate IsCandidate(row: Row, now: int) {
    row.mac != 0 && (Asks(row) || row.refused || Holding(row, now))
  }

  function Cleared(row: Row): Row {
    row.(order := 0, refused := false, admitted := false, holdUntil := 0)
  }

  // ---- Ageing ------------------------------------------------------------

  function AgedRow(row: Row, now: int): seq<Row> {
    if row.lastSeen == 0 then [row.(lastSeen := now)]
    else if now - row.lastSeen > IDLE then []
    else [row]
  }

  /** Rows that were refreshed in time; those never stamped start their clock. */
  function Aged(rows: seq<Row>, now: int): seq<Row> {
    if rows == [] then [] else AgedRow(rows[0], now) + Aged(rows[1..], now)
  }

  lemma AgedOne(rows: seq<Row>, j: nat, now: int)
    requires j < |rows|
    ensures Aged(rows[j..], now) == AgedRow(rows[j], now) + Aged(rows[j + 1..], now)
  {
    assert rows[j..][1..] == rows[j + 1..];
  }

  /**
   Ageing, by where each survivor stood: kept are, in their order, exactly those
   never stamped, who start their clock now, and those seen within 16 s, as they were.
   */
  ghost predicate KeepsTheSeen(kept: seq<nat>, rows: seq<Row>, from: nat, aged: seq<Row>, now: int) {
    && Picks(kept, from, |rows|) && |aged| == |kept|
    && (forall i :: from <= i < |rows| ==> (i in kept <==> rows[i].lastSeen == 0 || now - rows[i].lastSeen <= IDLE))
    && (forall j :: 0 <= j < |kept| ==> (
          && (rows[kept[j]].lastSeen == 0 ==> aged[j] == rows[kept[j]].(lastSeen := now))
          && (rows[kept[j]].lastSeen != 0 ==> aged[j] == rows[kept[j]])))
  }

  lemma {:induction false} AgedKeepsTheSeen(rows: seq<Row>, from: nat, now: int) returns (kept: seq<nat>)
    requires from <= |rows|
    ensures KeepsTheSeen(kept, rows, from, Aged(rows[from..], now), now)
    decreases |rows| - from
  {
    hide KeepsTheSeen, AgedRow;
    if from == |rows| {
      kept := [];
      NothingKept(rows, now);
    } else {
      var later := AgedKeepsTheSeen(rows, from + 1, now);
      AgedOne(rows, from, now);
      kept := if AgedRow(rows[from], now) == [] then later else [from] + later;
      KeepsOneMore(later, rows, from, Aged(rows[from + 1..], now), now);
    }
  }

  lemma NothingKept(rows: seq<Row>, now: int)
    ensures KeepsTheSeen([], rows, |rows|, Aged(rows[|rows|..], now), now)
  {
  }

  lemma KeepsOneMore(kept: seq<nat>, rows: seq<Row>, from: nat, aged: seq<Row>, now: int)
    requires from < |rows| && KeepsTheSeen(kept, rows, from + 1, aged, now)
    ensures KeepsTheSeen(if AgedRow(rows[from], now) == [] then kept else [from] + kept, rows, from,
                         AgedRow(rows[from], now) + aged, now)
  {
    PickOneMore(kept, from, |rows|);
    hide Picks;
    var more, all := [from] + kept, AgedRow(rows[from], now) + aged;
    if AgedRow(rows[from], now) == [] {
      assert all == aged;
    } else {
      forall j | 0 <= j < |more|
        ensures more[j] < |rows|
        ensures rows[more[j]].lastSeen == 0 ==> all[j] == rows[more[j]].(lastSeen := now)
        ensures rows[more[j]].lastSeen != 0 ==> all[j] == rows[more[j]]
      {
        assert j > 0 ==> more[j] == kept[j - 1] && all[j] == aged[j - 1];
      }
    }
  }

  /** Ages rows from the last to the first, as removal moves the tail up. */
  method AgeOut(rows: seq<Row>, now: int) returns (aged: seq<Row>)
    ensures aged == Aged(rows, now)
    ensures exists kept :: KeepsTheSeen(kept, rows, 0, aged, now)
    ensures forall row :: row in rows && row.lastSeen != 0 && now - row.lastSeen <= IDLE ==> row in aged
    ensures forall row :: row in aged ==> now - row.lastSeen <= IDLE
  {
    hide KeepsTheSeen;
    aged := rows;
    var j := |rows|;
    assert rows[..j] == rows;
    while j > 0
      invariant 0 <= j <= |rows|
      invariant aged == rows[..j] + Aged(rows[j..], now)
    {
      j := j - 1;
      ghost var front, tail := rows[..j], Aged(rows[j + 1..], now);
      assert rows[j..][1..] == rows[j + 1..] && rows[..j + 1] == front + [rows[j]];
      assert aged == front + [rows[j]] + tail;
      hide Aged;
      var seen := aged[j].lastSeen;
      if seen == 0 {
        aged := aged[j := aged[j].(lastSeen := now)];
        assert aged == front + AgedRow(rows[j], now) + tail;
      } else if now - seen > IDLE {
        assert aged[..j] == front && aged[j + 1..] == tail;
        aged := aged[..j] + aged[j + 1..];
      }
      AgedOne(rows, j, now);
      assert aged == front + (AgedRow(rows[j], now) + tail);
    }
    assert rows[0..] == rows;
    assert aged == Aged(rows[0..], now);
    ghost var kept := AgedKeepsTheSeen(rows, 0, now);
    SeenAreKept(kept, rows, aged, now);
  }

  lemma SeenAreKept(kept: seq<nat>, rows: seq<Row>, aged: seq<Row>, now: int)
    requires KeepsTheSeen(kept, rows, 0, aged, now)
    ensures forall row :: row in rows && row.lastSeen != 0 && now - row.lastSeen <= IDLE ==> row in aged
    ensures forall j :: 0 <= j < |aged| ==> now - aged[j].lastSeen <= IDLE
  {
    forall row | row in rows && row.lastSeen != 0 && now - row.lastSeen <= IDLE
      ensures row in aged
    {
      var i :| 0 <= i < |rows| && rows[i] == row;
      var j :| 0 <= j < |kept| && kept[j] == i;
      assert aged[j] == row;
    }
    forall j | 0 <= j < |aged|
      ensures now - aged[j].lastSeen <= IDLE
    {
      assert kept[j] in kept;
    }
  }

  // ---- Standing in line --------------------------------------------------

  ghost predicate TicketsDistinct(rows: seq<Row>) {
    forall i, j :: 0 <= i < j < |rows| && rows[i].order != 0 ==> rows[i].order != rows[j].order
  }

  /** Rows by strictly ascending ticket. */
  ghost predicate Ascending(rows: seq<Row>, order: seq<int>) {
    && (forall a :: 0 <= a < |order| ==> 0 <= order[a] < |rows| && rows[order[a]].order > 0)
    && (forall a, b :: 0 <= a < b < |order| ==> rows[order[a]].order < rows[order[b]].order)
  }

  /** Exactly the rows that hold a ticket, by strictly ascending ticket. */
  ghost predicate InLine(rows: seq<Row>, order: seq<int>) {
    && Ascending(rows, order)
    && forall j :: 0 <= j < |rows| && rows[j].order != 0 ==> j in order
  }

  /** Puts a row in line behind everyone with an earlier ticket. */
  method Insert(rows: seq<Row>, order: seq<int>, j: int) returns (r: seq<int>)
    requires Ascending(rows, order) && 0 <= j < |rows| && rows[j].order > 0
    requires forall a :: 0 <= a < |order| ==> rows[order[a]].order != rows[j].order
    ensures Ascending(rows, r)
    ensures |r| == |order| + 1 && forall x :: x in r <==> x in order || x == j
  {
    r := order + [j];
    var pos := |order|;
    while pos > 0 && rows[r[pos - 1]].order > rows[j].order
      invariant 0 <= pos <= |order| && |r| == |order| + 1
      invariant forall a :: 0 <= a < pos ==> r[a] == order[a]
      invariant forall a :: pos < a <= |order| ==> r[a] == order[a - 1]
      invariant pos < |order| ==> rows[order[pos]].order > rows[j].order
    {
      r := r[pos := r[pos - 1]];
      pos := pos - 1;
    }
    r := r[pos := j];
    assert r == order[..pos] + [j] + order[pos..];
    InsertedAt(rows, order, pos, j);
  }

  lemma InsertedAt(rows: seq<Row>, order: seq<int>, pos: nat, j: int)
    requires Ascending(rows, order) && 0 <= j < |rows| && rows[j].order > 0 && pos <= |order|
    requires pos > 0 ==> rows[order[pos - 1]].order < rows[j].order
    requires pos < |order| ==> rows[order[pos]].order > rows[j].order
    ensures var r := order[..pos] + [j] + order[pos..];
        Ascending(rows, r) && forall x :: x in r <==> x in order || x == j
  {
    var r := order[..pos] + [j] + order[pos..];
    forall a | 0 <= a < |r|
      ensures r[a] == if a < pos then order[a] else if a == pos then j else order[a - 1]
    {
    }
    forall a, b | 0 <= a < b < |r|
      ensures 0 <= r[a] < |rows| && 0 <= r[b] < |rows| && rows[r[a]].order < rows[r[b]].order
    {
      var x, y := if a < pos then a else a - 1, if b < pos then b else b - 1;
      if a == pos {
        assert rows[order[pos]].order <= rows[order[y]].order;
      } else if b == pos {
        assert rows[order[x]].order <= rows[order[pos - 1]].order;
      }
    }
    SameMembers(order, pos, j);
  }

  lemma SameMembers(order: seq<int>, pos: nat, j: int)
    requires pos <= |order|
    ensures forall x :: x in order[..pos] + [j] + order[pos..] <==> x in order || x == j
  {
    assert order == order[..pos] + order[pos..];
  }

  function Asking(rows: seq<Row>): nat {
    if rows == [] then 0
    else
      var row := rows[|rows| - 1];
      Asking(rows[..|rows| - 1]) + if row.order != 0 && Asks(row) then 1 else 0
  }

  lemma AskingOne(rows: seq<Row>, j: nat, row: Row)
    requires j < |rows|
    ensures Asking(rows[j := row][..j + 1]) == Asking(rows[..j]) + if row.order != 0 && Asks(row) then 1 else 0
  {
    assert rows[j := row][..j + 1][..j] == rows[..j];
  }

  /** What taking tickets does to a row. */
  ghost predicate Ticketed(before: Row, after: Row, now: int, counter: nat, last: nat) {
    if IsCandidate(before, now) then
      && after == before.(order := after.order)
      && after.order > 0
      && (if before.order != 0 then after.order == before.order else counter < after.order <= last)
    else after == Cleared(before)
  }

  ghost predicate TicketsUpTo(rows: seq<Row>, last: nat) {
    forall j :: 0 <= j < |rows| ==> rows[j].order <= last
  }

  /** The rows that have had their turn. */
  ghost predicate Queued(rows: seq<Row>, queued: seq<Row>, now: int, counter: nat, last: nat, j: nat) {
    && |queued| == |rows| && j <= |rows| && counter <= last
    && (forall i :: 0 <= i < j ==> Ticketed(rows[i], queued[i], now, counter, last))
    && (forall i :: j <= i < |rows| ==> queued[i] == rows[i])
    && TicketsDistinct(queued) && TicketsUpTo(queued, last)
  }

  /** The line of those that have had their turn. */
  ghost predicate Lined(queued: seq<Row>, order: seq<int>, j: nat) {
    && j <= |queued|
    && Ascending(queued, order)
    && forall x :: x in order <==> 0 <= x < j && queued[x].order != 0
  }

  lemma QueuedOne(rows: seq<Row>, queued: seq<Row>, now: int, counter: nat, last: nat, j: nat, row: Row, later: nat)
    requires Queued(rows, queued, now, counter, last, j) && j < |rows|
    requires Ticketed(rows[j], row, now, counter, later)
    requires if row.order > 0 && rows[j].order == 0 then later == last + 1 == row.order else later == last
    ensures Queued(rows, queued[j := row], now, counter, later, j + 1)
  {
    hide IsCandidate;
    var q := queued[j := row];
    forall i | 0 <= i < |q| && i != j
      ensures q[i].order != 0 ==> q[i].order != row.order
    {
      assert queued[i].order <= last;
      assert queued[j].order != 0 ==> queued[i].order == 0 || queued[i].order != queued[j].order;
    }
  }

  lemma OthersDiffer(queued: seq<Row>, order: seq<int>, j: nat)
    requires TicketsDistinct(queued) && j < |queued|
    requires forall a :: 0 <= a < |order| ==> 0 <= order[a] < j && queued[order[a]].order > 0
    ensures forall a :: 0 <= a < |order| ==> queued[order[a]].order != queued[j].order
  {
  }

  lemma LinedOne(queued: seq<Row>, order: seq<int>, j: nat, row: Row)
    requires Lined(queued, order, j) && j < |queued|
    ensures Ascending(queued[j := row], order)
    ensures forall a :: 0 <= a < |order| ==> 0 <= order[a] < j && queued[j := row][order[a]] == queued[order[a]]
    ensures row.order == 0 ==> Lined(queued[j := row], order, j + 1)
  {
    assert forall a :: 0 <= a < |order| ==> order[a] in order;
  }

  /** Everyone asking gets a ticket for life and a place in line. */
  method Queue(rows: seq<Row>, now: int, counter: nat)
    returns (queued: seq<Row>, order: seq<int>, ready: nat, last: nat)
    requires TicketsDistinct(rows) && TicketsUpTo(rows, counter)
    ensures |queued| == |rows| && counter <= last
    ensures forall j :: 0 <= j < |rows| ==> Ticketed(rows[j], queued[j], now, counter, last)
    ensures TicketsDistinct(queued) && TicketsUpTo(queued, last)
    ensures InLine(queued, order)
    ensures ready == Asking(queued)
  {
    queued, order, ready, last := rows, [], 0, counter;
    var j := 0;
    while j < |rows|
      invariant Queued(rows, queued, now, counter, last, j) && Lined(queued, order, j)
      invariant ready == Asking(queued[..j])
    {
      var row := queued[j];
      var candidate := row.mac != 0 && (Asks(row) || row.refused || Holding(row, now));
      ghost var was := last;
      if !candidate {
        row := Cleared(row);
      } else if row.order == 0 {
        last := last + 1;
        row := row.(order := last);
      }
      QueuedOne(rows, queued, now, counter, was, j, row, last);
      LinedOne(queued, order, j, row);
      OthersDiffer(queued[j := row], order, j);
      AskingOne(queued, j, row);
      hide Queued, Ascending, TicketsDistinct, TicketsUpTo, Ticketed, Asking;
      queued := queued[j := row];
      if candidate {
        order := Insert(queued, order, j);
        if Asks(row) {
          ready := ready + 1;
        }
      }
      j := j + 1;
    }
    assert queued[..j] == queued;
  }

  lemma {:induction false} AgedOrigin(rows: seq<Row>, now: int, j: nat) returns (i: nat)
    requires j < |Aged(rows, now)|
    ensures j <= i < |rows| && Aged(rows, now)[j] == rows[i].(lastSeen := Aged(rows, now)[j].lastSeen)
  {
    var front := AgedRow(rows[0], now);
    if j < |front| {
      i := 0;
    } else {
      assert Aged(rows, now)[j] == Aged(rows[1..], now)[j - |front|];
      var k := AgedOrigin(rows[1..], now, j - |front|);
      i := k + 1;
    }
  }

  lemma {:induction false} AgedKeepsTickets(rows: seq<Row>, now: int)
    requires TicketsDistinct(rows)
    ensures TicketsDistinct(Aged(rows, now))
  {
    if rows != [] {
      AgedKeepsTickets(rows[1..], now);
      var rest := Aged(rows[1..], now);
      forall j | 0 <= j < |rest| && rows[0].order != 0
        ensures rest[j].order != rows[0].order
      {
        var i := AgedOrigin(rows[1..], now, j);
        assert rows[i + 1].order == rest[j].order;
      }
    }
  }

  // ---- Escalating --------------------------------------------------------

  /** The multicast address is declared first, the frames move JoinTime later. */
  method Escalate(s: Stream, want: bool, now: int) returns (t: Stream, changed: bool)
    requires s.txMulticast ==> s.declaredMulticast
    ensures t == s.(declaredMulticast := want,
                    multicastAt := if want && !s.declaredMulticast then now + JOIN_TIME else s.multicastAt,
                    txMulticast := want && s.declaredMulticast && (s.txMulticast || now >= s.multicastAt))
    ensures changed == (want != s.declaredMulticast)
  {
    t, changed := s, false;
    if want && !s.declaredMulticast {
      t := t.(declaredMulticast := true, multicastAt := now + JOIN_TIME);
      changed := true;
    } else if !want && s.declaredMulticast {
      t := t.(declaredMulticast := false, txMulticast := false);
      changed := true;
    }
    if t.declaredMulticast && !t.txMulticast && now >= t.multicastAt {
      t := t.(txMulticast := true);
    }
  }

  /** From some place in line on, nobody holds a place in the budget. */
  method ClearPlaces(rows: seq<Row>, order: seq<int>, from: nat) returns (r: seq<Row>)
    requires Ascending(rows, order)
    ensures |r| == |rows|
    ensures forall j :: 0 <= j < |rows| ==> r[j] == rows[j].(admitted := r[j].admitted)
    ensures forall j :: 0 <= j < |rows| && j !in order ==> r[j] == rows[j]
    ensures forall a :: 0 <= a < |order| ==> r[order[a]].admitted == (rows[order[a]].admitted && a < from)
  {
    r := rows;
    var k := from;
    while k < |order|
      invariant from <= k && |r| == |rows|
      invariant forall j :: 0 <= j < |rows| ==> r[j] == rows[j].(admitted := r[j].admitted)
      invariant forall j :: 0 <= j < |rows| && j !in order ==> r[j] == rows[j]
      invariant forall a :: 0 <= a < |order| ==>
          r[order[a]].admitted == (rows[order[a]].admitted && !(from <= a < k))
    {
      assert order[k] in order;
      assert forall a :: 0 <= a < |order| && a != k ==> order[a] != order[k];
      r := r[order[k] := r[order[k]].(admitted := false)];
      k := k + 1;
    }
  }

  // ---- The plan ----------------------------------------------------------

  ghost predicate PlannedRow(before: Row, after: Row, now: int, counter: nat, last: nat) {
    if IsCandidate(before, now) then
      && after == before.(order := after.order, admitted := after.admitted)
      && after.order > 0
      && (if before.order != 0 then after.order == before.order else counter < after.order <= last)
    else after == Cleared(before)
  }

  /** What planning a stream leaves: who stands in line, and what the frames do. */
  ghost predicate Planned(s: Stream, t: Stream, plan: Plan, now: int, counter: nat, last: nat, fanout: nat) {
    var aged := Aged(s.rows, now);
    var want := plan.escalation && plan.ready > fanout;
    && |t.rows| == |aged| && counter <= last
    && (forall j :: 0 <= j < |aged| ==> PlannedRow(aged[j], t.rows[j], now, counter, last))
    && TicketsDistinct(t.rows) && TicketsUpTo(t.rows, last)
    && InLine(t.rows, plan.order)
    && plan.ready == Asking(t.rows)
    && (forall a :: 0 <= a < |plan.order| ==>
          t.rows[plan.order[a]].admitted == (aged[plan.order[a]].admitted && !t.txMulticast && a < fanout))
    && t.declaredMulticast == want
    && plan.declarationChanged == (want != s.declaredMulticast)
    && t.multicastAt == (if want && !s.declaredMulticast then now + JOIN_TIME else s.multicastAt)
    && t.txMulticast == (want && s.declaredMulticast && (s.txMulticast || now >= s.multicastAt))
    && t.multicastAdmitted == (s.multicastAdmitted && t.txMulticast)
    && (t.startRetry, t.streaming, t.mailbox) == (s.startRetry, s.streaming, s.mailbox)
  }

  method PlanStream(s: Stream, now: int, counter: nat, allowed: bool, copyBps: nat, fanout: nat)
    returns (t: Stream, plan: Plan, last: nat)
    requires TicketsDistinct(s.rows) && TicketsUpTo(s.rows, counter)
    requires s.txMulticast ==> s.declaredMulticast
    ensures Planned(s, t, plan, now, counter, last, fanout)
    ensures plan.escalation == allowed && plan.copyBps == copyBps
  {
    hide InLine, TicketsDistinct, TicketsUpTo, Ticketed, PlannedRow, Aged, Asking;
    var aged, rows, order, ready;
    aged, rows, order, ready, last := FormLine(s.rows, now, counter);
    var changed;
    assert Ascending(rows, order) by {
      LineAscends(rows, order);
    }
    t, changed := Escalate(s.(rows := rows), allowed && ready > fanout, now);
    var cleared := ClearPlaces(rows, order, if t.txMulticast then 0 else fanout);
    SameLine(rows, cleared, order);
    TicketedIsPlanned(aged, rows, cleared, now, counter, last);
    LineKeepsPlaces(aged, rows, order, now, counter, last);
    t := t.(rows := cleared, multicastAdmitted := t.multicastAdmitted && t.txMulticast);
    plan := Plan(order, ready, allowed, copyBps, changed);
  }

  method FormLine(was: seq<Row>, now: int, counter: nat)
    returns (aged: seq<Row>, rows: seq<Row>, order: seq<int>, ready: nat, last: nat)
    requires TicketsDistinct(was) && TicketsUpTo(was, counter)
    ensures aged == Aged(was, now) && |rows| == |aged| && counter <= last
    ensures forall j :: 0 <= j < |aged| ==> Ticketed(aged[j], rows[j], now, counter, last)
    ensures TicketsDistinct(rows) && TicketsUpTo(rows, last)
    ensures InLine(rows, order) && ready == Asking(rows)
  {
    hide InLine, TicketsDistinct, TicketsUpTo, Ticketed, Aged, Asking;
    aged := AgeOut(was, now);
    AgedKeepsTickets(was, now);
    AgedUpTo(was, now, counter);
    rows, order, ready, last := Queue(aged, now, counter);
  }

  lemma LineAscends(rows: seq<Row>, order: seq<int>)
    requires InLine(rows, order)
    ensures Ascending(rows, order)
    ensures forall j :: 0 <= j < |rows| && rows[j].order != 0 ==> j in order
  {
  }

  lemma LineKeepsPlaces(aged: seq<Row>, rows: seq<Row>, order: seq<int>, now: int, counter: nat, last: nat)
    requires |aged| == |rows| && InLine(rows, order)
    requires forall j :: 0 <= j < |aged| ==> Ticketed(aged[j], rows[j], now, counter, last)
    ensures forall a :: 0 <= a < |order| ==>
        0 <= order[a] < |rows| && rows[order[a]].admitted == aged[order[a]].admitted
    ensures forall j :: 0 <= j < |rows| && j !in order ==> rows[j].order == 0
  {
  }

  lemma AgedUpTo(rows: seq<Row>, now: int, counter: nat)
    requires TicketsUpTo(rows, counter)
    ensures TicketsUpTo(Aged(rows, now), counter)
  {
    forall j | 0 <= j < |Aged(rows, now)|
      ensures Aged(rows, now)[j].order <= counter
    {
      var i := AgedOrigin(rows, now, j);
    }
  }

  /** Places in the budget do not matter to the line. */
  lemma {:induction false} SameLine(rows: seq<Row>, r: seq<Row>, order: seq<int>)
    requires |r| == |rows| && forall j :: 0 <= j < |rows| ==> r[j] == rows[j].(admitted := r[j].admitted)
    ensures InLine(rows, order) ==> InLine(r, order)
    ensures TicketsDistinct(rows) ==> TicketsDistinct(r)
    ensures forall last :: TicketsUpTo(rows, last) ==> TicketsUpTo(r, last)
    ensures Asking(r) == Asking(rows)
  {
    SameAsking(rows, r);
  }

  lemma {:induction false} SameAsking(rows: seq<Row>, r: seq<Row>)
    requires |r| == |rows| && forall j :: 0 <= j < |rows| ==> r[j] == rows[j].(admitted := r[j].admitted)
    ensures Asking(r) == Asking(rows)
  {
    if rows != [] {
      SameAsking(rows[..|rows| - 1], r[..|r| - 1]);
    }
  }

  lemma TicketedIsPlanned(aged: seq<Row>, rows: seq<Row>, cleared: seq<Row>, now: int, counter: nat, last: nat)
    requires |aged| == |rows| == |cleared|
    requires forall j :: 0 <= j < |aged| ==> Ticketed(aged[j], rows[j], now, counter, last)
    requires forall j :: 0 <= j < |rows| ==> cleared[j] == rows[j].(admitted := cleared[j].admitted)
    requires forall j :: 0 <= j < |rows| && rows[j].order == 0 ==> cleared[j] == rows[j]
    ensures forall j :: 0 <= j < |aged| ==> PlannedRow(aged[j], cleared[j], now, counter, last)
  {
  }
}
