/**
 What one pass of AVB Lite owes one stream, in terms of its rows before and
 after alone: who ages out, who stands in line and where, when the stream
 escalates, who is refused and why, whose copies it sends and when it runs.
 */
module LiteCharter {
  import opened Basics
  import opened LiteInvariant
  import opened LitePlan
  import opened LitePublish
  import opened LiteState

  // ---- Counting rows -----------------------------------------------------

  /** How many rows stand in line before this one. */
  ghost function PlaceOf(rows: seq<Row>, j: int): nat
    requires 0 <= j < |rows|
  {
    |set l: int | 0 <= l < |rows| && 0 < rows[l].order < rows[j].order|
  }

  ghost function AskingRows(rows: seq<Row>): set<int> {
    set l: int | 0 <= l < |rows| && rows[l].order != 0 && (rows[l].ready || rows[l].acmp)
  }

  lemma {:induction false} AskingCountsRows(rows: seq<Row>)
    ensures Asking(rows) == |AskingRows(rows)|
  {
    if rows != [] {
      var n := |rows| - 1;
      AskingCountsRows(rows[..n]);
      assert AskingRows(rows) ==
          AskingRows(rows[..n]) + if rows[n].order != 0 && (rows[n].ready || rows[n].acmp) then {n} else {};
    }
  }

  lemma {:induction false} FirstInOrder(rows: seq<Row>, order: seq<int>, k: nat)
    requires Ascending(rows, order) && k <= |order|
    ensures |set a | 0 <= a < k :: order[a]| == k
  {
    if k > 0 {
      FirstInOrder(rows, order, k - 1);
      var before := set a | 0 <= a < k - 1 :: order[a];
      assert (set a | 0 <= a < k :: order[a]) == before + {order[k - 1]};
      assert order[k - 1] !in before;
    }
  }

  /** A row stands in line where the plan has it. */
  lemma PlaceInOrder(rows: seq<Row>, order: seq<int>, k: nat)
    requires InLine(rows, order) && k < |order|
    ensures 0 <= order[k] < |rows| && rows[order[k]].order > 0 && PlaceOf(rows, order[k]) == k
  {
    FirstInOrder(rows, order, k);
    var before := set a | 0 <= a < k :: order[a];
    forall l: int | 0 <= l < |rows| && 0 < rows[l].order < rows[order[k]].order
      ensures l in before
    {
      var a :| 0 <= a < |order| && order[a] == l;
      assert order[a] in before;
    }
    assert (set l: int | 0 <= l < |rows| && 0 < rows[l].order < rows[order[k]].order) == before;
  }

  lemma HasPlaceInOrder(rows: seq<Row>, order: seq<int>, j: int) returns (k: nat)
    requires InLine(rows, order) && 0 <= j < |rows| && rows[j].order != 0
    ensures k < |order| && order[k] == j && PlaceOf(rows, j) == k
  {
    var a :| 0 <= a < |order| && order[a] == j;
    k := a;
    PlaceInOrder(rows, order, k);
  }

  // ---- What a pass owes --------------------------------------------------

  /** A listener, its clock started if it had none. */
  predicate SameListener(was: Row, row: Row, now: int) {
    && row.mac == was.mac && row.ready == was.ready && row.acmp == was.acmp
    && row.lastSeen == if was.lastSeen == 0 then now else was.lastSeen
  }

  /** Who asks or keeps a place has a ticket, for life; anyone else has nothing. */
  predicate TicketsOwed(was: Row, row: Row, now: int, base: nat, last: nat) {
    if was.mac != 0 && (was.ready || was.acmp || was.refused || (was.holdUntil != 0 && now < was.holdUntil)) then
      row.order > 0 && if was.order != 0 then row.order == was.order else base < row.order <= last
    else
      row.order == 0 && !row.refused && !row.admitted && row.holdUntil == 0
  }

  /**
   Refused are those in line without a place in the budget, and beyond the
   fan-out of a stream that may not escalate; a refusal withdrawn keeps the
   place for 3 s.
   */
  ghost predicate AnswerOwed(was: Row, t: Stream, j: int, now: int, fanout: nat, allowed: bool)
    requires 0 <= j < |t.rows|
  {
    var row := t.rows[j];
    row.order != 0 ==>
      && row.refused == (if t.txMulticast then !t.multicastAdmitted
                         else if PlaceOf(t.rows, j) >= fanout then !allowed
                         else !row.admitted)
      && row.holdUntil == if row.refused then 0 else if was.refused then now + SLOT_HOLD else was.holdUntil
  }

  /** The rows: nobody seen within 16 s is lost, nobody idle longer stays, and each gets what it is owed. */
  ghost predicate RowsOwed(kept: seq<nat>, s: Stream, t: Stream, now: int, base: nat, last: nat, fanout: nat,
                           allowed: bool)
  {
    && Picks(kept, 0, |s.rows|) && |t.rows| == |kept|
    && (forall i :: 0 <= i < |s.rows| ==> (i in kept <==> s.rows[i].lastSeen == 0 || now - s.rows[i].lastSeen <= IDLE))
    && (forall j :: 0 <= j < |kept| ==> (
          && SameListener(s.rows[kept[j]], t.rows[j], now)
          && TicketsOwed(s.rows[kept[j]], t.rows[j], now, base, last)
          && AnswerOwed(s.rows[kept[j]], t, j, now, fanout, allowed)))
  }

  /** Multicast is declared while more ask than unicast serves; the frames follow JoinTime later. */
  ghost predicate TransportOwed(s: Stream, t: Stream, now: int, fanout: nat, allowed: bool) {
    && t.declaredMulticast == (allowed && |AskingRows(t.rows)| > fanout)
    && t.multicastAt == (if t.declaredMulticast && !s.declaredMulticast then now + JOIN_TIME else s.multicastAt)
    && t.txMulticast == (t.declaredMulticast && s.declaredMulticast && (s.txMulticast || now >= s.multicastAt))
    && (t.multicastAdmitted ==> t.txMulticast)
    && forall j :: 0 <= j < |t.rows| && t.rows[j].admitted ==>
         !t.txMulticast && t.rows[j].order != 0 && PlaceOf(t.rows, j) < fanout
  }

  /** Rows by ascending ticket, and no row but these. */
  ghost predicate InLineOrder(rows: seq<Row>, who: seq<int>, chosen: set<int>) {
    && (forall a :: 0 <= a < |who| ==> 0 <= who[a] < |rows|)
    && (forall a, b :: 0 <= a < b < |who| ==> rows[who[a]].order < rows[who[b]].order)
    && (forall j :: j in who <==> j in chosen)
  }

  ghost function RefusedRows(t: Stream): set<int> {
    set j: int | 0 <= j < |t.rows| && t.rows[j].order != 0 && t.rows[j].refused
  }

  /** Those that ask and hold a place in the budget. */
  ghost function FedRows(t: Stream): set<int> {
    set j: int | 0 <= j < |t.rows| && t.rows[j].admitted && (t.rows[j].ready || t.rows[j].acmp)
  }

  ghost function ReasonOf(t: Stream, j: int, fanout: nat): Code
    requires 0 <= j < |t.rows|
  {
    if !t.txMulticast && PlaceOf(t.rows, j) >= fanout then InsufficientBridgeResources else InsufficientBandwidth
  }

  /** The refusals sent, in line order. */
  ghost predicate RefusalsTo(who: seq<int>, t: Stream, fanout: nat, refusals: seq<(int, Code)>) {
    && InLineOrder(t.rows, who, RefusedRows(t)) && |refusals| == |who|
    && forall a :: 0 <= a < |who| ==> refusals[a] == (t.rows[who[a]].mac, ReasonOf(t, who[a], fanout))
  }

  /** The addresses sent to, in line order. */
  ghost predicate SentTo(who: seq<int>, t: Stream) {
    && InLineOrder(t.rows, who, FedRows(t)) && |t.mailbox| == |who|
    && forall a :: 0 <= a < |who| ==> t.mailbox[a] == t.rows[who[a]].mac
  }

  /** A stream runs while it serves somebody, tries to start once a second, and sends to exactly those. */
  ghost predicate ServiceOwed(s: Stream, t: Stream, now: int, startOk: bool) {
    var serving := if t.txMulticast then t.multicastAdmitted && AskingRows(t.rows) != {} else FedRows(t) != {};
    var tries := serving && !s.streaming && now >= s.startRetry;
    && t.streaming == (serving && (s.streaming || (tries && startOk)))
    && t.startRetry == (if tries then now + START_RETRY else s.startRetry)
    && (t.txMulticast ==> t.mailbox == [])
    && (!t.txMulticast && serving ==> exists who :: SentTo(who, t))
    && (!t.txMulticast && !serving ==> t.mailbox == s.mailbox)
  }

  /** All a pass owes a stream. */
  ghost predicate Owed(s: Stream, t: Stream, now: int, base: nat, last: nat, fanout: nat, allowed: bool,
                       startOk: bool, refusals: seq<(int, Code)>)
  {
    && (exists kept :: RowsOwed(kept, s, t, now, base, last, fanout, allowed))
    && TransportOwed(s, t, now, fanout, allowed)
    && (exists who :: RefusalsTo(who, t, fanout, refusals))
    && ServiceOwed(s, t, now, startOk)
  }

  // ---- A pass pays it ----------------------------------------------------

  // ---- A pass pays it ----------------------------------------------------

  /** Planned, its copies admitted, published. */
  ghost predicate Chain(s0: Stream, s1: Stream, s2: Stream, s3: Stream, plan: Plan, now: int, base: nat, last: nat,
                        fanout: nat, startOk: bool)
  {
    && Planned(s0, s1, plan, now, base, last, fanout)
    && SameButPlace(s1, s2) && PlacesShown(s2, plan, fanout)
    && Published(s2, s3, plan, fanout, now, startOk)
  }

  lemma ChainLine(s0: Stream, s1: Stream, s2: Stream, s3: Stream, plan: Plan, now: int, base: nat, last: nat,
                  fanout: nat, startOk: bool)
    requires Chain(s0, s1, s2, s3, plan, now, base, last, fanout, startOk)
    ensures |s3.rows| == |s2.rows| == |s1.rows| == |Aged(s0.rows, now)|
    ensures InLine(s3.rows, plan.order)
    ensures forall j :: 0 <= j < |s3.rows| ==>
        && s3.rows[j] == s2.rows[j].(refused := s3.rows[j].refused, holdUntil := s3.rows[j].holdUntil)
        && s2.rows[j] == s1.rows[j].(admitted := s2.rows[j].admitted)
        && PlannedRow(Aged(s0.rows, now)[j], s1.rows[j], now, base, last)
  {
    SamePlaceSameLine(s1, s2, plan);
    PublishedSame(s2, s3, plan, fanout, now, startOk);
  }

  lemma AnswerAtPlace(s: Stream, t: Stream, plan: Plan, now: int, fanout: nat, startOk: bool)
    requires PlacesShown(s, plan, fanout) && Published(s, t, plan, fanout, now, startOk)
    ensures InRange(s, plan) && |t.rows| == |s.rows|
    ensures t.txMulticast == s.txMulticast && t.multicastAdmitted == s.multicastAdmitted
    ensures forall k :: 0 <= k < |plan.order| ==>
        t.rows[plan.order[k]] == Answered(s.rows[plan.order[k]], CodeOf(s, plan, fanout, k), now)
    ensures forall j :: 0 <= j < |s.rows| && j !in plan.order ==> t.rows[j] == s.rows[j] && !s.rows[j].admitted
  {
    hide Answered, CodeOf, Served, Serving;
  }

  /** One row's way through a pass. */
  lemma RowChain(was: Row, aged: Row, r1: Row, r2: Row, r3: Row, now: int, base: nat, last: nat)
    requires aged == was.(lastSeen := if was.lastSeen == 0 then now else was.lastSeen)
    requires PlannedRow(aged, r1, now, base, last) && r2 == r1.(admitted := r2.admitted)
    requires r3 == r2.(refused := r3.refused, holdUntil := r3.holdUntil)
    requires r3.order == 0 ==> r3 == r2 && !r2.admitted
    ensures SameListener(was, r3, now) && TicketsOwed(was, r3, now, base, last)
    ensures r3.order != 0 ==> r2.refused == was.refused && r2.holdUntil == was.holdUntil
  {
  }

  /** A row's answer is the one owed to its place in line. */
  lemma RowPaid(s0: Stream, s1: Stream, s2: Stream, s3: Stream, plan: Plan, now: int, base: nat, last: nat,
                fanout: nat, startOk: bool, was: Row, j: nat)
    requires Chain(s0, s1, s2, s3, plan, now, base, last, fanout, startOk)
    requires j < |s3.rows| && j < |Aged(s0.rows, now)|
    requires Aged(s0.rows, now)[j] == was.(lastSeen := if was.lastSeen == 0 then now else was.lastSeen)
    ensures SameListener(was, s3.rows[j], now) && TicketsOwed(was, s3.rows[j], now, base, last)
    ensures AnswerOwed(was, s3, j, now, fanout, plan.escalation)
  {
    hide Planned, InLine, Ascending, Aged, PlaceOf, Published, PlacesShown, SameButPlace, PlannedRow,
         SameListener, TicketsOwed;
    ChainLine(s0, s1, s2, s3, plan, now, base, last, fanout, startOk);
    AnswerAtPlace(s2, s3, plan, now, fanout, startOk);
    LineAscends(s3.rows, plan.order);
    hide Chain;
    if s3.rows[j].order == 0 {
      OutOfLine(s3.rows, plan.order, j);
    }
    RowChain(was, Aged(s0.rows, now)[j], s1.rows[j], s2.rows[j], s3.rows[j], now, base, last);
    if s3.rows[j].order != 0 {
      var k := HasPlaceInOrder(s3.rows, plan.order, j);
    }
  }

  lemma OutOfLine(rows: seq<Row>, order: seq<int>, j: nat)
    requires Ascending(rows, order) && j < |rows| && rows[j].order == 0
    ensures j !in order
  {
  }

  lemma RowsPaid(s0: Stream, s1: Stream, s2: Stream, s3: Stream, plan: Plan, now: int, base: nat, last: nat,
                 fanout: nat, startOk: bool)
    requires Chain(s0, s1, s2, s3, plan, now, base, last, fanout, startOk)
    ensures exists kept :: RowsOwed(kept, s0, s3, now, base, last, fanout, plan.escalation)
  {
    hide Chain, Aged, SameListener, TicketsOwed, AnswerOwed, InLine, PlannedRow, Picks, KeepsTheSeen;
    ChainSize(s0, s1, s2, s3, plan, now, base, last, fanout, startOk);
    var kept := AgedKeepsTheSeen(s0.rows, 0, now);
    assert s0.rows[0..] == s0.rows;
    Survivors(kept, s0.rows, Aged(s0.rows, now), now);
    forall j: nat | j < |kept|
      ensures SameListener(s0.rows[kept[j]], s3.rows[j], now)
      ensures TicketsOwed(s0.rows[kept[j]], s3.rows[j], now, base, last)
      ensures AnswerOwed(s0.rows[kept[j]], s3, j, now, fanout, plan.escalation)
    {
      RowPaid(s0, s1, s2, s3, plan, now, base, last, fanout, startOk, s0.rows[kept[j]], j);
    }
    assert RowsOwed(kept, s0, s3, now, base, last, fanout, plan.escalation);
  }

  lemma ChainSize(s0: Stream, s1: Stream, s2: Stream, s3: Stream, plan: Plan, now: int, base: nat, last: nat,
                  fanout: nat, startOk: bool)
    requires Chain(s0, s1, s2, s3, plan, now, base, last, fanout, startOk)
    ensures |s3.rows| == |Aged(s0.rows, now)|
  {
    ChainLine(s0, s1, s2, s3, plan, now, base, last, fanout, startOk);
  }

  lemma Survivors(kept: seq<nat>, rows: seq<Row>, aged: seq<Row>, now: int)
    requires KeepsTheSeen(kept, rows, 0, aged, now)
    ensures Picks(kept, 0, |rows|) && |aged| == |kept|
    ensures forall i :: 0 <= i < |rows| ==> (i in kept <==> rows[i].lastSeen == 0 || now - rows[i].lastSeen <= IDLE)
    ensures forall j :: 0 <= j < |kept| ==> kept[j] < |rows|
    ensures forall j :: 0 <= j < |kept| ==>
        aged[j] == rows[kept[j]].(lastSeen := if rows[kept[j]].lastSeen == 0 then now else rows[kept[j]].lastSeen)
  {
  }

  lemma SameAsked(a: seq<Row>, b: seq<Row>)
    requires |a| == |b|
    requires forall j :: 0 <= j < |a| ==> b[j].order == a[j].order && b[j].ready == a[j].ready && b[j].acmp == a[j].acmp
    ensures AskingRows(b) == AskingRows(a)
  {
  }

  lemma TransportPaid(s0: Stream, s1: Stream, s2: Stream, s3: Stream, plan: Plan, now: int, base: nat, last: nat,
                      fanout: nat, startOk: bool)
    requires Chain(s0, s1, s2, s3, plan, now, base, last, fanout, startOk)
    ensures TransportOwed(s0, s3, now, fanout, plan.escalation)
    ensures |AskingRows(s3.rows)| == plan.ready
  {
    hide Aged, PlannedRow, InLine, PlaceOf, Served, AnsweredUpTo, AskingRows, Ascending, Asking;
    ChainLine(s0, s1, s2, s3, plan, now, base, last, fanout, startOk);
    AskingCountsRows(s1.rows);
    SameAsked(s1.rows, s3.rows);
    forall j | 0 <= j < |s3.rows| && s3.rows[j].admitted
      ensures !s3.txMulticast && s3.rows[j].order != 0 && PlaceOf(s3.rows, j) < fanout
    {
      assert s2.rows[j].admitted && j in plan.order;
      var k :| 0 <= k < |plan.order| && plan.order[k] == j;
      PlaceInOrder(s3.rows, plan.order, k);
    }
  }

  /** The listener at a place in line is refused as its row and place say. */
  lemma CodeAtPlace(s: Stream, t: Stream, plan: Plan, now: int, fanout: nat, startOk: bool, k: nat)
    requires InRange(s, plan) && Published(s, t, plan, fanout, now, startOk) && InLine(t.rows, plan.order)
    requires k < |plan.order|
    ensures var j, code := plan.order[k], CodeOf(s, plan, fanout, k);
        && 0 <= j < |t.rows| && t.rows[j].order != 0 && s.rows[j].mac == t.rows[j].mac
        && (t.rows[j].refused <==> code != NoFailure)
        && (t.rows[j].refused ==> code == if !t.txMulticast && PlaceOf(t.rows, j) >= fanout
                                          then InsufficientBridgeResources else InsufficientBandwidth)
  {
    PlaceInOrder(t.rows, plan.order, k);
    hide PlaceOf, Served, Refusals, InLine;
  }

  predicate Refuses(s: Stream, plan: Plan, fanout: nat, k: int)
    requires InRange(s, plan)
  {
    0 <= k < |plan.order| && CodeOf(s, plan, fanout, k) != NoFailure
  }

  /** The places in line of those refused, and of those served. */
  lemma {:induction false} RefusedPlaces(s: Stream, plan: Plan, fanout: nat, n: nat) returns (at: seq<nat>)
    requires InRange(s, plan) && n <= |plan.order|
    ensures Picks(at, 0, n) && |at| == |Refusals(s, plan, fanout, n)|
    ensures forall k :: k in at <==> k < n && Refuses(s, plan, fanout, k)
    ensures forall a :: 0 <= a < |at| ==>
        Refusals(s, plan, fanout, n)[a] == (s.rows[plan.order[at[a]]].mac, CodeOf(s, plan, fanout, at[a]))
  {
    hide CodeOf;
    at := [];
    if n > 0 {
      at := RefusedPlaces(s, plan, fanout, n - 1);
      if Refuses(s, plan, fanout, n - 1) {
        at := at + [n - 1];
      }
    }
  }

  predicate Serves(s: Stream, plan: Plan, fanout: nat, k: int)
    requires InRange(s, plan)
  {
    && 0 <= k < |plan.order| && !s.txMulticast && k < fanout
    && s.rows[plan.order[k]].admitted && (s.rows[plan.order[k]].ready || s.rows[plan.order[k]].acmp)
  }

  lemma {:induction false} ServedPlaces(s: Stream, plan: Plan, fanout: nat, n: nat) returns (at: seq<nat>)
    requires InRange(s, plan) && n <= |plan.order|
    ensures Picks(at, 0, n) && |at| == |Served(s, plan, fanout, n)|
    ensures forall k :: k in at <==> k < n && Serves(s, plan, fanout, k)
    ensures forall a :: 0 <= a < |at| ==> Served(s, plan, fanout, n)[a] == s.rows[plan.order[at[a]]].mac
  {
    at := [];
    if n > 0 {
      at := ServedPlaces(s, plan, fanout, n - 1);
      if Serves(s, plan, fanout, n - 1) {
        at := at + [n - 1];
      }
    }
  }

  function RowsAt(order: seq<int>, at: seq<nat>): seq<int>
    requires forall a :: 0 <= a < |at| ==> at[a] < |order|
  {
    seq(|at|, a requires 0 <= a < |at| => order[at[a]])
  }

  /** Places picked from the line are rows in line order. */
  lemma PickedInLine(rows: seq<Row>, order: seq<int>, at: seq<nat>, chosen: set<int>)
    requires Ascending(rows, order) && Picks(at, 0, |order|)
    requires forall k :: 0 <= k < |order| ==> (k in at <==> order[k] in chosen)
    requires forall j :: j in chosen ==> j in order
    ensures InLineOrder(rows, RowsAt(order, at), chosen)
  {
    var who := RowsAt(order, at);
    forall j | j in chosen
      ensures j in who
    {
      var k :| 0 <= k < |order| && order[k] == j;
      var a :| 0 <= a < |at| && at[a] == k;
      assert who[a] == j;
    }
    forall a | 0 <= a < |who|
      ensures who[a] in chosen
    {
      assert at[a] in at;
    }
  }

  lemma SameAsAdmitted(s: Stream, t: Stream, plan: Plan, now: int, fanout: nat, startOk: bool)
    requires PlacesShown(s, plan, fanout) && Published(s, t, plan, fanout, now, startOk)
    ensures |t.rows| == |s.rows| && t.txMulticast == s.txMulticast && Ascending(t.rows, plan.order)
    ensures forall j :: 0 <= j < |s.rows| ==>
        && t.rows[j].admitted == s.rows[j].admitted && t.rows[j].mac == s.rows[j].mac
        && t.rows[j].ready == s.rows[j].ready && t.rows[j].acmp == s.rows[j].acmp
    ensures forall j :: 0 <= j < |s.rows| && s.rows[j].admitted ==> j in plan.order && !s.txMulticast
    ensures forall k :: fanout <= k < |plan.order| ==> !s.rows[plan.order[k]].admitted
  {
    hide Answered, CodeOf, Served, Serving;
  }

  lemma RefusalsPaid(s: Stream, t: Stream, plan: Plan, now: int, fanout: nat, startOk: bool)
    requires InRange(s, plan) && Published(s, t, plan, fanout, now, startOk) && InLine(t.rows, plan.order)
    ensures exists who :: RefusalsTo(who, t, fanout, Refusals(s, plan, fanout, |plan.order|))
  {
    hide PlaceOf, Published, CodeOf, Refusals, Picks, Ascending;
    var at := RefusedPlaces(s, plan, fanout, |plan.order|);
    forall k: nat | k < |plan.order|
      ensures k in at <==> plan.order[k] in RefusedRows(t)
      ensures 0 <= plan.order[k] < |t.rows|
      ensures k in at ==> CodeOf(s, plan, fanout, k) == ReasonOf(t, plan.order[k], fanout)
      ensures s.rows[plan.order[k]].mac == t.rows[plan.order[k]].mac
    {
      CodeAtPlace(s, t, plan, now, fanout, startOk, k);
    }
    forall a | 0 <= a < |at|
      ensures at[a] < |plan.order|
    {
      assert at[a] in at;
    }
    PickedInLine(t.rows, plan.order, at, RefusedRows(t));
    hide InLine, InLineOrder;
    assert RefusalsTo(RowsAt(plan.order, at), t, fanout, Refusals(s, plan, fanout, |plan.order|));
  }

  lemma ServicePaid(s: Stream, t: Stream, plan: Plan, now: int, fanout: nat, startOk: bool)
    requires InRange(s, plan) && PlacesShown(s, plan, fanout) && Published(s, t, plan, fanout, now, startOk)
    requires plan.ready == |AskingRows(t.rows)|
    ensures ServiceOwed(s, t, now, startOk)
  {
    hide AnsweredUpTo, AskingRows, Served, SentTo, FedRows, PlacesShown;
    var who := AddressesPaid(s, t, plan, now, fanout, startOk);
    assert AskingRows(t.rows) != {} <==> |AskingRows(t.rows)| > 0;
  }

  /** The addresses gathered are those of the listeners that ask and hold a place. */
  lemma AddressesPaid(s: Stream, t: Stream, plan: Plan, now: int, fanout: nat, startOk: bool) returns (who: seq<int>)
    requires InRange(s, plan) && PlacesShown(s, plan, fanout) && Published(s, t, plan, fanout, now, startOk)
    ensures !t.txMulticast ==> (AllServed(s, plan, fanout) != [] <==> FedRows(t) != {})
    ensures !t.txMulticast && t.mailbox == AllServed(s, plan, fanout) ==> SentTo(who, t)
  {
    hide Served, Picks, Published;
    AnswerAtPlace(s, t, plan, now, fanout, startOk);
    SameAsAdmitted(s, t, plan, now, fanout, startOk);
    var at := ServedPlaces(s, plan, fanout, |plan.order|);
    forall a | 0 <= a < |at|
      ensures at[a] < |plan.order|
    {
      assert at[a] in at;
    }
    who := RowsAt(plan.order, at);
    if !t.txMulticast {
      forall k: nat | k < |plan.order|
        ensures k in at <==> plan.order[k] in FedRows(t)
      {
        assert plan.order[k] in plan.order;
      }
      PickedInLine(t.rows, plan.order, at, FedRows(t));
      if at != [] {
        assert at[0] in at;
      }
      if j :| j in FedRows(t) {
        assert j in who;
      }
    }
  }

  lemma SameService(s0: Stream, s1: Stream, s2: Stream, s3: Stream, plan: Plan, now: int, base: nat, last: nat,
                    fanout: nat, startOk: bool)
    requires Chain(s0, s1, s2, s3, plan, now, base, last, fanout, startOk) && ServiceOwed(s2, s3, now, startOk)
    ensures ServiceOwed(s0, s3, now, startOk)
  {
    hide Aged, PlannedRow, InLine, AnsweredUpTo, Serving, AllServed, AskingRows, FedRows, Asking;
    assert s2.streaming == s0.streaming && s2.startRetry == s0.startRetry && s2.mailbox == s0.mailbox;
  }

  /** A pass pays a stream what it owes it. */
  lemma PassPays(s0: Stream, s1: Stream, s2: Stream, s3: Stream, plan: Plan, now: int, base: nat, last: nat,
                 fanout: nat, startOk: bool)
    requires Chain(s0, s1, s2, s3, plan, now, base, last, fanout, startOk) && InRange(s2, plan)
    ensures Owed(s0, s3, now, base, last, fanout, plan.escalation, startOk, Refusals(s2, plan, fanout, |plan.order|))
  {
    hide Planned, InLine, Aged, PlannedRow, PlaceOf, Served, Refusals, RowsOwed, TransportOwed, RefusalsTo, ServiceOwed,
         AskingRows, Published, Ascending;
    RowsPaid(s0, s1, s2, s3, plan, now, base, last, fanout, startOk);
    TransportPaid(s0, s1, s2, s3, plan, now, base, last, fanout, startOk);
    ServicePaid(s2, s3, plan, now, fanout, startOk);
    SameService(s0, s1, s2, s3, plan, now, base, last, fanout, startOk);
    ChainLine(s0, s1, s2, s3, plan, now, base, last, fanout, startOk);
    RefusalsPaid(s2, s3, plan, now, fanout, startOk);
  }

  /** After a pass nobody is idle, so nobody idle is sent to. */
  lemma NobodyIsIdle(s: Stream, t: Stream, now: int, base: nat, last: nat, fanout: nat, allowed: bool,
                     startOk: bool, refusals: seq<(int, Code)>)
    requires Owed(s, t, now, base, last, fanout, allowed, startOk, refusals)
    ensures forall j :: 0 <= j < |t.rows| ==> now - t.rows[j].lastSeen <= IDLE
  {
    hide TransportOwed, RefusalsTo, ServiceOwed, AnswerOwed, TicketsOwed;
    var kept :| RowsOwed(kept, s, t, now, base, last, fanout, allowed);
    forall j | 0 <= j < |t.rows|
      ensures now - t.rows[j].lastSeen <= IDLE
    {
      assert kept[j] in kept && SameListener(s.rows[kept[j]], t.rows[j], now);
    }
  }
}
