/**
 Publishing one output stream of AVB Lite: listeners that cannot be served are
 refused, the addresses of those that are go to the transmit side's mailbox,
 and the stream starts or stops.
 */
module LitePublish {
  import opened LitePlan

  const SLOT_HOLD: int := 3_000_000
  const START_RETRY: int := 1_000_000

  datatype Code = NoFailure | InsufficientBandwidth | InsufficientBridgeResources

  /** Why the listener at a place in line is refused, if it is. */
  function CodeOf(s: Stream, plan: Plan, fanout: nat, k: int): Code
    requires 0 <= k < |plan.order| && 0 <= plan.order[k] < |s.rows|
  {
    if s.txMulticast then if s.multicastAdmitted then NoFailure else InsufficientBandwidth
    else if k >= fanout then if plan.escalation then NoFailure else InsufficientBridgeResources
    else if s.rows[plan.order[k]].admitted then NoFailure
    else InsufficientBandwidth
  }

  /** A refusal, or its end: the listener then keeps its place for a while. */
  function Answered(row: Row, code: Code, now: int): Row {
    row.(refused := code != NoFailure,
         holdUntil := if code != NoFailure then 0 else if row.refused then now + SLOT_HOLD else row.holdUntil)
  }

  predicate InRange(s: Stream, plan: Plan) {
    forall k :: 0 <= k < |plan.order| ==> 0 <= plan.order[k] < |s.rows|
  }

  /** Listeners served by unicast among the first n in line: ready, admitted, inside the fan-out. */
  function Served(s: Stream, plan: Plan, fanout: nat, n: nat): (das: seq<int>)
    requires InRange(s, plan) && n <= |plan.order|
    ensures |das| <= n && |das| <= fanout
  {
    if n == 0 then []
    else
      var row := s.rows[plan.order[n - 1]];
      var before := Served(s, plan, fanout, n - 1);
      if !s.txMulticast && n <= fanout && row.admitted && Asks(row) then before + [row.mac] else before
  }

  /** Refusals sent, in line order. */
  function Refusals(s: Stream, plan: Plan, fanout: nat, n: nat): seq<(int, Code)>
    requires InRange(s, plan) && n <= |plan.order|
  {
    if n == 0 then []
    else
      var code := CodeOf(s, plan, fanout, n - 1);
      Refusals(s, plan, fanout, n - 1) + if code != NoFailure then [(s.rows[plan.order[n - 1]].mac, code)] else []
  }

  function AllServed(s: Stream, plan: Plan, fanout: nat): seq<int>
    requires InRange(s, plan)
  {
    Served(s, plan, fanout, |plan.order|)
  }

  predicate Serving(s: Stream, plan: Plan, fanout: nat)
    requires InRange(s, plan)
  {
    if s.txMulticast then s.multicastAdmitted && plan.ready > 0 else AllServed(s, plan, fanout) != []
  }

  /** A refusal is sent to exactly those who get one, with its code. */
  lemma {:induction false} RefusedExactly(s: Stream, plan: Plan, fanout: nat, n: nat, mac: int, code: Code)
    requires InRange(s, plan) && n <= |plan.order|
    ensures (mac, code) in Refusals(s, plan, fanout, n) <==>
        code != NoFailure && exists k :: 0 <= k < n && s.rows[plan.order[k]].mac == mac && CodeOf(s, plan, fanout, k) == code
  {
    if n > 0 {
      RefusedExactly(s, plan, fanout, n - 1, mac, code);
    }
  }

  /** A listener inside the fan-out that is ready and holds a place. */
  predicate IsServed(s: Stream, plan: Plan, fanout: nat, n: nat, k: int, mac: int)
    requires InRange(s, plan) && n <= |plan.order|
  {
    && 0 <= k < n && k < fanout
    && s.rows[plan.order[k]].mac == mac
    && s.rows[plan.order[k]].admitted && Asks(s.rows[plan.order[k]])
  }

  ghost predicate SomeServed(s: Stream, plan: Plan, fanout: nat, n: nat, mac: int)
    requires InRange(s, plan) && n <= |plan.order|
  {
    exists k :: IsServed(s, plan, fanout, n, k, mac)
  }

  lemma SomeServedOne(s: Stream, plan: Plan, fanout: nat, n: nat, mac: int)
    requires InRange(s, plan) && 0 < n <= |plan.order|
    ensures SomeServed(s, plan, fanout, n, mac) <==>
        SomeServed(s, plan, fanout, n - 1, mac) || IsServed(s, plan, fanout, n, n - 1, mac)
  {
    if SomeServed(s, plan, fanout, n - 1, mac) {
      var k :| IsServed(s, plan, fanout, n - 1, k, mac);
      assert IsServed(s, plan, fanout, n, k, mac);
    }
    if SomeServed(s, plan, fanout, n, mac) {
      var k :| IsServed(s, plan, fanout, n, k, mac);
      assert k < n - 1 ==> IsServed(s, plan, fanout, n - 1, k, mac);
    }
  }

  /** Those served are the listeners inside the fan-out that are ready and hold a place. */
  lemma {:induction false} ServedExactly(s: Stream, plan: Plan, fanout: nat, n: nat, mac: int)
    requires InRange(s, plan) && n <= |plan.order|
    ensures mac in Served(s, plan, fanout, n) <==> !s.txMulticast && SomeServed(s, plan, fanout, n, mac)
  {
    if n > 0 {
      ServedExactly(s, plan, fanout, n - 1, mac);
      SomeServedOne(s, plan, fanout, n, mac);
    }
  }

  // ---- The rows' answers -------------------------------------------------

  ghost predicate AnsweredUpTo(s: Stream, rows: seq<Row>, plan: Plan, fanout: nat, now: int, n: nat)
    requires InRange(s, plan) && n <= |plan.order|
  {
    && |rows| == |s.rows|
    && (forall j :: 0 <= j < |rows| ==> rows[j] == s.rows[j].(refused := rows[j].refused, holdUntil := rows[j].holdUntil))
    && (forall k :: 0 <= k < |plan.order| ==>
          rows[plan.order[k]] == if k < n then Answered(s.rows[plan.order[k]], CodeOf(s, plan, fanout, k), now)
                                 else s.rows[plan.order[k]])
    && (forall j :: 0 <= j < |rows| && j !in plan.order ==> rows[j] == s.rows[j])
  }

  /** Answers everyone in line; gathers whom to serve and whom to refuse. */
  method AnswerAll(s: Stream, plan: Plan, fanout: nat, now: int)
    returns (rows: seq<Row>, das: seq<int>, refusals: seq<(int, Code)>)
    requires Ascending(s.rows, plan.order)
    ensures AnsweredUpTo(s, rows, plan, fanout, now, |plan.order|)
    ensures das == AllServed(s, plan, fanout)
    ensures refusals == Refusals(s, plan, fanout, |plan.order|)
  {
    rows, das, refusals := s.rows, [], [];
    var k := 0;
    while k < |plan.order|
      invariant 0 <= k <= |plan.order|
      invariant AnsweredUpTo(s, rows, plan, fanout, now, k)
      invariant das == Served(s, plan, fanout, k)
      invariant refusals == Refusals(s, plan, fanout, k)
    {
      var j := plan.order[k];
      AnsweredOne(s, rows, plan, fanout, now, k);
      var row, code, serve := AnswerOne(s, plan, fanout, now, k);
      hide AnsweredUpTo, Answered, CodeOf, Ascending;
      rows := rows[j := row];
      if code != NoFailure {
        refusals := refusals + [(row.mac, code)];
      }
      if serve {
        das := das + [row.mac];
      }
      k := k + 1;
    }
  }

  lemma AnsweredOne(s: Stream, rows: seq<Row>, plan: Plan, fanout: nat, now: int, k: nat)
    requires Ascending(s.rows, plan.order) && k < |plan.order| && AnsweredUpTo(s, rows, plan, fanout, now, k)
    ensures var j := plan.order[k];
        && 0 <= j < |rows| == |s.rows| && rows[j] == s.rows[j]
        && AnsweredUpTo(s, rows[j := Answered(s.rows[j], CodeOf(s, plan, fanout, k), now)], plan, fanout, now, k + 1)
  {
    hide Answered, CodeOf;
    var j := plan.order[k];
    assert j in plan.order;
    assert forall l :: 0 <= l < |plan.order| && l != k ==> plan.order[l] != j;
    AnsweredKeeps(s.rows[j], CodeOf(s, plan, fanout, k), now);
  }

  lemma AnsweredKeeps(row: Row, code: Code, now: int)
    ensures var r := Answered(row, code, now); r == row.(refused := r.refused, holdUntil := r.holdUntil)
  {
  }

  /** One listener's answer, and whether its address is to be served. */
  method AnswerOne(s: Stream, plan: Plan, fanout: nat, now: int, k: nat) returns (row: Row, code: Code, serve: bool)
    requires InRange(s, plan) && k < |plan.order|
    ensures code == CodeOf(s, plan, fanout, k)
    ensures row == Answered(s.rows[plan.order[k]], code, now)
    ensures var was := s.rows[plan.order[k]]; serve == (!s.txMulticast && k < fanout && was.admitted && Asks(was))
  {
    row, code, serve := s.rows[plan.order[k]], NoFailure, false;
    if s.txMulticast {
      if !s.multicastAdmitted {
        code := InsufficientBandwidth;
      }
    } else if k >= fanout {
      if !plan.escalation {
        code := InsufficientBridgeResources;
      }
    } else if !row.admitted {
      code := InsufficientBandwidth;
    }
    if code != NoFailure {
      row := row.(refused := true, holdUntil := 0);
    } else {
      if row.refused {
        row := row.(holdUntil := now + SLOT_HOLD);
      }
      row := row.(refused := false);
      serve := !s.txMulticast && k < fanout && Asks(row);
    }
  }

  // ---- Mailbox, start and stop -------------------------------------------

  ghost predicate Published(s: Stream, t: Stream, plan: Plan, fanout: nat, now: int, startOk: bool)
    requires InRange(s, plan)
  {
    var serving := Serving(s, plan, fanout);
    var tries := serving && !s.streaming && now >= s.startRetry;
    && AnsweredUpTo(s, t.rows, plan, fanout, now, |plan.order|)
    && t == s.(rows := t.rows,
               streaming := serving && (s.streaming || (tries && startOk)),
               startRetry := if tries then now + START_RETRY else s.startRetry,
               mailbox := if s.txMulticast then [] else if serving then AllServed(s, plan, fanout) else s.mailbox)
  }

  /** One publication to the mailbox, if any: what the transmit side will read. */
  method PublishStream(s: Stream, plan: Plan, fanout: nat, now: int, startOk: bool)
    returns (t: Stream, refusals: seq<(int, Code)>, publications: seq<seq<int>>)
    requires Ascending(s.rows, plan.order)
    ensures Published(s, t, plan, fanout, now, startOk)
    ensures refusals == Refusals(s, plan, fanout, |plan.order|)
    // Published before a stream starts, and otherwise only on change.
    ensures publications == if t.startRetry != s.startRetry || t.mailbox != s.mailbox then [t.mailbox] else []
  {
    var rows, das;
    rows, das, refusals := AnswerAll(s, plan, fanout, now);
    t, publications := s.(rows := rows), [];
    var serving := if s.txMulticast then s.multicastAdmitted && plan.ready > 0 else |das| > 0;
    if !serving && t.streaming {
      t := t.(streaming := false);
    } else if serving && !t.streaming && now >= t.startRetry {
      t := t.(startRetry := now + START_RETRY, mailbox := if s.txMulticast then [] else das);
      publications := [t.mailbox];
      t := t.(streaming := startOk);
    }
    var publish := true;
    if s.txMulticast {
      das := [];
    } else if |das| == 0 {
      publish := false;
    }
    if publish && das != t.mailbox {
      t := t.(mailbox := das);
      publications := publications + [das];
    }
  }

  /** Empty for multicast; otherwise the ready listeners inside the fan-out that hold a place, and no other. */
  ghost predicate MailboxExact(s: Stream, plan: Plan, fanout: nat) {
    && InRange(s, plan)
    && if s.txMulticast then s.mailbox == []
       else s.mailbox != [] && forall mac :: mac in s.mailbox <==> SomeServed(s, plan, fanout, |plan.order|, mac)
  }

  /** The mailbox of a stream that runs says exactly where its frames go. */
  lemma MailboxOfARunningStream(s: Stream, t: Stream, plan: Plan, fanout: nat, now: int, startOk: bool)
    requires InRange(s, plan) && Published(s, t, plan, fanout, now, startOk) && t.streaming
    ensures MailboxExact(t, plan, fanout)
  {
    if !t.txMulticast {
      forall mac
        ensures mac in t.mailbox <==> SomeServed(t, plan, fanout, |plan.order|, mac)
      {
        ServedExactly(s, plan, fanout, |plan.order|, mac);
        forall k
          ensures IsServed(s, plan, fanout, |plan.order|, k, mac) == IsServed(t, plan, fanout, |plan.order|, k, mac)
        {
        }
      }
    }
  }
}
