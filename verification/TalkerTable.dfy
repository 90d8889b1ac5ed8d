/**
 A talker stream's table of listeners under ACMP CONNECT_TX and DISCONNECT_TX,
 MSRP events, ageing and Talker declarations, and the stream ID, class and VLAN
 its listeners are told, which a new format or mode may also change.
 */
module TalkerTable {
  import opened Basics
  import LitePlan
  import opened StreamIdentity
  import opened TalkerLog

  datatype Row = Row(identity: Identity, acmp: bool, ready: bool, readyLive: bool,
                     askingFailed: bool, askingSince: int, lastSeen: int)

  datatype Status = Success | TalkerUnknownId | ControllerNotAuthorized | TalkerExclusive

  // ---- Finding rows ------------------------------------------------------

  /** The first row of a listener, or -1. */
  function FirstIdentity(rows: seq<Row>, l: Identity): (r: int)
    ensures -1 <= r < |rows| && (r >= 0 ==> rows[r].identity == l)
    ensures forall i :: 0 <= i < |rows| && (r < 0 || i < r) ==> rows[i].identity != l
  {
    if rows == [] then -1
    else
      var n := |rows| - 1;
      var r := FirstIdentity(rows[..n], l);
      if r >= 0 then r else if rows[n].identity == l then n else -1
  }

  /** The first row of an entity, or -1. */
  function FirstEntity(rows: seq<Row>, entity: int): (r: int)
    ensures -1 <= r < |rows| && (r >= 0 ==> rows[r].identity.entity == entity)
    ensures forall i :: 0 <= i < |rows| && (r < 0 || i < r) ==> rows[i].identity.entity != entity
  {
    if rows == [] then -1
    else
      var n := |rows| - 1;
      var r := FirstEntity(rows[..n], entity);
      if r >= 0 then r else if rows[n].identity.entity == entity then n else -1
  }

  predicate IsPending(row: Row) {
    !row.acmp && row.ready
  }

  /** The one row that is ready but not connected, or -1. */
  ghost predicate Sole(rows: seq<Row>, r: int) {
    if r < 0 then r == -1 && forall i :: 0 <= i < |rows| && IsPending(rows[i]) ==>
        exists j :: 0 <= j < |rows| && j != i && IsPending(rows[j])
    else r < |rows| && forall i :: 0 <= i < |rows| ==> (IsPending(rows[i]) <==> i == r)
  }

  function Connections(rows: seq<Row>): nat {
    if rows == [] then 0
    else Connections(rows[..|rows| - 1]) + if rows[|rows| - 1].acmp then 1 else 0
  }

  lemma {:induction false} ConnectionsAreRows(rows: seq<Row>)
    ensures Connections(rows) == |set i: int | 0 <= i < |rows| && rows[i].acmp|
  {
    if rows != [] {
      var n := |rows| - 1;
      ConnectionsAreRows(rows[..n]);
      assert (set i: int | 0 <= i < |rows| && rows[i].acmp)
          == (set i: int | 0 <= i < n && rows[..n][i].acmp) + if rows[n].acmp then {n} else {};
    }
  }

  predicate ConnectedAt(rows: seq<Row>, i: int, l: Identity) {
    0 <= i < |rows| && rows[i].acmp && rows[i].identity == l
  }

  ghost predicate Connected(rows: seq<Row>, l: Identity) {
    exists i :: ConnectedAt(rows, i, l)
  }

  /** No row but this one is connected. */
  ghost predicate NoOther(rows: seq<Row>, except: int) {
    forall i :: 0 <= i < |rows| && i != except ==> !rows[i].acmp
  }

  ghost predicate Distinct(rows: seq<Row>) {
    forall i, j :: 0 <= i < j < |rows| ==> rows[i].identity != rows[j].identity
  }

  // ---- Changing rows -----------------------------------------------------

  function Without(rows: seq<Row>, i: int): seq<Row> {
    if 0 <= i < |rows| then rows[..i] + rows[i + 1..] else rows
  }

  function NewRow(l: Identity): Row {
    Row(l, false, false, false, false, 0, 0)
  }

  function Unready(row: Row): Row {
    row.(ready := false, readyLive := false, askingFailed := false, askingSince := 0)
  }

  /** What a renewal leaves of the table. */
  function KeepConnected(rows: seq<Row>): seq<Row> {
    if rows == [] then []
    else (if rows[0].acmp then [Unready(rows[0])] else []) + KeepConnected(rows[1..])
  }

  /**
   A renewal, by where each row that stays stood: kept are, in their order,
   exactly the connected ones, whose readiness is forgotten.
   */
  ghost predicate KeepsTheConnected(kept: seq<nat>, before: seq<Row>, from: nat, after: seq<Row>) {
    && Picks(kept, from, |before|) && |after| == |kept|
    && (forall i :: from <= i < |before| ==> (i in kept <==> before[i].acmp))
    && (forall j :: 0 <= j < |kept| ==>
          after[j] == before[kept[j]].(ready := false, readyLive := false, askingFailed := false, askingSince := 0))
  }

  ghost predicate OnlyConnectedKept(before: seq<Row>, after: seq<Row>) {
    exists kept :: KeepsTheConnected(kept, before, 0, after)
  }

  lemma NobodyKept(rows: seq<Row>)
    ensures KeepsTheConnected([], rows, |rows|, KeepConnected(rows[|rows|..]))
  {
  }

  lemma KeepsOneMore(kept: seq<nat>, before: seq<Row>, from: nat, after: seq<Row>)
    requires from < |before| && KeepsTheConnected(kept, before, from + 1, after)
    ensures before[from].acmp ==>
        KeepsTheConnected([from] + kept, before, from, [Unready(before[from])] + after)
    ensures !before[from].acmp ==> KeepsTheConnected(kept, before, from, after)
  {
    PickOneMore(kept, from, |before|);
    hide Picks;
    if before[from].acmp {
      var more, all := [from] + kept, [Unready(before[from])] + after;
      forall j | 0 <= j < |more|
        ensures more[j] < |before|
        ensures all[j] == before[more[j]].(ready := false, readyLive := false, askingFailed := false, askingSince := 0)
      {
        assert j > 0 ==> more[j] == kept[j - 1] && all[j] == after[j - 1];
      }
    }
  }

  lemma {:induction false} KeptTheConnected(rows: seq<Row>, from: nat) returns (kept: seq<nat>)
    requires from <= |rows|
    ensures KeepsTheConnected(kept, rows, from, KeepConnected(rows[from..]))
    decreases |rows| - from
  {
    hide KeepsTheConnected, Unready;
    if from == |rows| {
      kept := [];
      NobodyKept(rows);
    } else {
      var later := KeptTheConnected(rows, from + 1);
      KeptFrom(rows, from);
      hide KeepConnected;
      KeepsOneMore(later, rows, from, KeepConnected(rows[from + 1..]));
      kept := if rows[from].acmp then [from] + later else later;
      assert [] + KeepConnected(rows[from + 1..]) == KeepConnected(rows[from + 1..]);
    }
  }

  lemma RenewalKeepsTheConnected(rows: seq<Row>)
    ensures OnlyConnectedKept(rows, KeepConnected(rows))
  {
    hide KeepsTheConnected;
    var kept := KeptTheConnected(rows, 0);
    assert rows[0..] == rows;
  }

  /** Where a connecting listener goes, and what the table becomes. */
  ghost predicate Placed(before: seq<Row>, l: Identity, max: nat, after: seq<Row>, idx: int) {
    var known := FirstIdentity(before, l);
    var entity := FirstEntity(before, l.entity);
    if known >= 0 then idx == known && after == before
    else if entity >= 0 && !before[entity].acmp then
      idx == entity && after == before[entity := before[entity].(identity := l)]
    else if !Sole(before, -1) then
      0 <= idx && Sole(before, idx) && after == before[idx := before[idx].(identity := l)]
    else if |before| >= max then idx == -1 && after == before
    else idx == |before| && after == before + [NewRow(l)]
  }

  /** Nobody before this row is the listener, or of its entity. */
  predicate IsFirstOf(rows: seq<Row>, i: int, l: Identity) {
    0 <= i < |rows| && rows[i].identity == l && forall j :: 0 <= j < i ==> rows[j].identity != l
  }

  predicate IsFirstOfEntity(rows: seq<Row>, i: int, entity: int) {
    0 <= i < |rows| && rows[i].identity.entity == entity && forall j :: 0 <= j < i ==> rows[j].identity.entity != entity
  }

  /** The only row MSRP made ready that nobody connected. */
  predicate IsOnlyPending(rows: seq<Row>, i: int) {
    0 <= i < |rows| && forall j :: 0 <= j < |rows| ==> (!rows[j].acmp && rows[j].ready <==> j == i)
  }

  /**
   A listener's own row; else the first of its entity, unless connected; else
   the only pending one; else a new one behind all others.
   */
  ghost predicate IsSeated(before: seq<Row>, l: Identity, after: seq<Row>, idx: int) {
    var mine := exists i :: IsFirstOf(before, i, l);
    var entitys := exists i :: IsFirstOfEntity(before, i, l.entity) && !before[i].acmp;
    var pending := exists i :: IsOnlyPending(before, i);
    && (mine ==> IsFirstOf(before, idx, l) && after == before)
    && (!mine && entitys ==> IsFirstOfEntity(before, idx, l.entity) && after == before[idx := before[idx].(identity := l)])
    && (!mine && !entitys && pending ==> IsOnlyPending(before, idx) && after == before[idx := before[idx].(identity := l)])
    && (!mine && !entitys && !pending ==>
          idx == |before| && after == before + [Row(l, false, false, false, false, 0, 0)])
  }

  lemma PlacedIsSeated(before: seq<Row>, l: Identity, max: nat, after: seq<Row>, idx: int)
    requires Placed(before, l, max, after, idx) && idx >= 0
    ensures IsSeated(before, l, after, idx)
  {
    var known, entity := FirstIdentity(before, l), FirstEntity(before, l.entity);
    if known >= 0 {
      assert IsFirstOf(before, known, l);
    } else if entity >= 0 && !before[entity].acmp {
      assert IsFirstOfEntity(before, entity, l.entity);
    } else if !Sole(before, -1) {
      assert IsOnlyPending(before, idx);
    } else if i :| IsOnlyPending(before, i) {
      assert IsPending(before[i]);
    }
  }

  lemma PlacedKeeps(before: seq<Row>, l: Identity, max: nat, after: seq<Row>, idx: int)
    requires Placed(before, l, max, after, idx)
    ensures idx >= 0 ==> idx < |after| && after[idx].identity == l
    ensures |after| >= |before| && (|before| <= max ==> |after| <= max)
    ensures forall i :: 0 <= i < |before| && before[i].acmp ==> after[i] == before[i]
    ensures forall i :: 0 <= i < |after| && i != idx ==> i < |before| && after[i] == before[i]
    ensures idx >= 0 && after[idx].acmp ==> idx == FirstIdentity(before, l)
    ensures Distinct(before) ==> Distinct(after)
  {
  }

  // ---- What is held is connected -----------------------------------------

  ghost predicate Tracks(rows: seq<Row>, a: Answer, log: seq<Event>) {
    && Lawful(log)
    && Latest(log) == Some(a)
    && forall l :: Held(log, l) ==> Connected(rows, l)
  }

  /** No ID is in use that was withdrawn less than 32 s ago, since the restart. */
  ghost predicate Rested(gen: nat, retired: seq<int>, log: seq<Event>, clock: int)
    requires gen < GENERATIONS && |retired| == GENERATIONS
  {
    && (forall g: nat :: g < GENERATIONS ==> 0 <= retired[g] <= clock)
    && (gen != 0 ==> clock >= REUSE)
    && (forall w :: w in Uptime(log) && w.Withdrawn? ==> w.gen < GENERATIONS && w.at <= retired[w.gen])
    && (forall w :: w in Uptime(log) && w.Withdrawn? && w.gen == gen ==> retired[gen] + REUSE <= clock)
  }

  lemma RestedOneMore(gen: nat, retired: seq<int>, log: seq<Event>, clock: int, ev: Event)
    requires gen < GENERATIONS && |retired| == GENERATIONS && Rested(gen, retired, log, clock)
    requires !ev.Withdrawn? && !ev.Booted?
    ensures Rested(gen, retired, log + [ev], clock)
  {
    UptimeOneMore(log, ev);
  }

  lemma HeldAnswered(rows: seq<Row>, after: seq<Row>, a: Answer, log: seq<Event>)
    requires Tracks(rows, a, log)
    requires forall l :: Connected(rows, l) ==> Connected(after, l)
    ensures Tracks(after, a, log)
  {
  }

  /** The stream may change while nobody else is connected. */
  lemma MayBecome(rows: seq<Row>, a: Answer, log: seq<Event>, entity: int, except: int, b: Answer)
    requires Tracks(rows, a, log) && NoOther(rows, except)
    requires 0 <= except < |rows| ==> rows[except].identity.entity == entity
    requires 0 <= except ==> forall l :: Held(log, l) ==> l.entity != entity
    ensures Tracks(rows, b, log + [Became(b)])
  {
    forall l
      ensures !Held(log, l)
    {
      assert Connected(rows, l) ==> 0 <= except && l.entity == entity;
    }
    LawfulOneMore(log, Became(b));
    OneMore(log, Became(b));
  }

  lemma TracksSilent(rows: seq<Row>, a: Answer, log: seq<Event>, ev: Event)
    requires Tracks(rows, a, log) && Permitted(log, ev)
    requires ev.Commanded? || ev.Declared? || ev.Withdrawn?
    ensures Tracks(rows, a, log + [ev])
    ensures forall l :: Held(log + [ev], l) ==> Held(log, l)
    ensures ev.Commanded? ==> forall l :: Held(log + [ev], l) ==> l.entity != ev.entity
  {
    LawfulOneMore(log, ev);
    OneMore(log, ev);
  }

  lemma {:induction false} KeptAreConnected(rows: seq<Row>)
    ensures |KeepConnected(rows)| <= |rows|
    ensures forall l :: Connected(KeepConnected(rows), l) <==> Connected(rows, l)
  {
    if rows != [] {
      KeptAreConnected(rows[1..]);
      var kept, rest := KeepConnected(rows), KeepConnected(rows[1..]);
      forall l
        ensures Connected(kept, l) <==> Connected(rows, l)
      {
        ConnectedFront(rows, l);
        if rows[0].acmp {
          assert kept[1..] == rest;
          ConnectedFront(kept, l);
        } else {
          assert kept == rest;
        }
      }
    }
  }

  lemma ConnectedFront(rows: seq<Row>, l: Identity)
    requires rows != []
    ensures Connected(rows, l) <==> (rows[0].acmp && rows[0].identity == l) || Connected(rows[1..], l)
  {
    if rows[0].acmp && rows[0].identity == l {
      assert ConnectedAt(rows, 0, l);
    }
    if i :| ConnectedAt(rows[1..], i, l) {
      assert ConnectedAt(rows, i + 1, l);
    }
    if i :| ConnectedAt(rows, i, l) && i > 0 {
      assert ConnectedAt(rows[1..], i - 1, l);
    }
  }

  lemma RestedRenewed(gen: nat, retired: seq<int>, log: seq<Event>, clock: int, next: nat, now: int, a: Answer)
    requires gen < GENERATIONS && next < GENERATIONS && next != gen && |retired| == GENERATIONS
    requires Rested(gen, retired, log, clock) && clock <= now && now - retired[next] >= REUSE
    ensures Rested(next, retired[gen := now], log + [Withdrawn(gen, now), Became(a)], now)
  {
    RenewalUptime(log, Withdrawn(gen, now), Became(a));
    hide Uptime;
    forall w | w in Uptime(log) + [Withdrawn(gen, now), Became(a)] && w.Withdrawn?
      ensures w.gen < GENERATIONS && w.at <= retired[gen := now][w.gen]
    {
      assert w in Uptime(log) || w == Withdrawn(gen, now);
    }
  }

  lemma RenewalUptime(log: seq<Event>, w: Event, b: Event)
    requires w.Withdrawn? && b.Became?
    ensures Uptime(log + [w, b]) == Uptime(log) + [w, b]
  {
    UptimeOneMore(log, w);
    UptimeOneMore(log + [w], b);
    hide Uptime;
    assert log + [w] + [b] == log + [w, b];
  }

  lemma RestedMayDeclare(gen: nat, retired: seq<int>, log: seq<Event>, clock: int, now: int)
    requires gen < GENERATIONS && |retired| == GENERATIONS && Rested(gen, retired, log, clock) && clock <= now
    ensures Permitted(log, Declared(gen, now))
    ensures Rested(gen, retired, log + [Declared(gen, now)], now)
  {
    UptimeOneMore(log, Declared(gen, now));
  }

  /** After a restart nothing is held and nothing known to be withdrawn. */
  lemma BootTracks(log: seq<Event>, a: Answer)
    requires Lawful(log)
    ensures Tracks([], a, log + [Booted(a)]) && Rested(0, [0, 0, 0, 0], log + [Booted(a)], 0)
  {
    LawfulOneMore(log, Booted(a));
    OneMore(log, Booted(a));
    UptimeOneMore(log, Booted(a));
  }

  /** A class or VLAN may be overridden whoever is connected. */
  lemma OverrideTracks(rows: seq<Row>, a: Answer, log: seq<Event>, cause: Cause, b: Answer)
    requires Tracks(rows, a, log) && b.streamId == a.streamId && (cause.NewMode? ==> b.classB == a.classB)
    ensures Tracks(rows, b, log + [Overridden(cause, b)])
    ensures forall l :: Held(log + [Overridden(cause, b)], l) ==> Held(log, l)
  {
    LawfulOneMore(log, Overridden(cause, b));
    OneMore(log, Overridden(cause, b));
  }

  // ---- Ageing ------------------------------------------------------------

  predicate Idle(row: Row, now: int) {
    row.lastSeen != 0 && now - row.lastSeen > LitePlan.IDLE
  }

  function Stamped(row: Row, now: int): Row {
    if row.lastSeen == 0 then row.(lastSeen := now) else row
  }

  /** What ageing leaves of the table. */
  function Surviving(rows: seq<Row>, now: int): seq<Row> {
    if rows == [] then []
    else (if Idle(rows[0], now) then [] else [Stamped(rows[0], now)]) + Surviving(rows[1..], now)
  }

  /** The connected listeners it drops, last row first. */
  function Departures(rows: seq<Row>, now: int): seq<Event> {
    if rows == [] then []
    else Departures(rows[1..], now) + if Idle(rows[0], now) && rows[0].acmp then [Aged(rows[0].identity)] else []
  }

  lemma NobodyAges(now: int)
    ensures Surviving([], now) == [] && Departures([], now) == []
  {
  }

  lemma SurvivingFrom(rows: seq<Row>, i: nat, now: int)
    requires i < |rows|
    ensures Surviving(rows[i..], now)
         == (if Idle(rows[i], now) then [] else [Stamped(rows[i], now)]) + Surviving(rows[i + 1..], now)
    ensures Departures(rows[i..], now)
         == Departures(rows[i + 1..], now) + if Idle(rows[i], now) && rows[i].acmp then [Aged(rows[i].identity)] else []
  {
    assert rows[i..][1..] == rows[i + 1..];
  }

  /** The table once one row has had its turn. */
  function AgedRow(rows: seq<Row>, i: nat, now: int): seq<Row>
    requires i < |rows|
  {
    if Idle(rows[i], now) then Without(rows, i) else rows[i := Stamped(rows[i], now)]
  }

  /**
   Ageing, by where each survivor stood: kept are, in their order, exactly those
   never stamped, whose clock starts now, and those seen within 16 s, as they were.
   */
  ghost predicate KeepsTheSeen(kept: seq<nat>, rows: seq<Row>, from: nat, aged: seq<Row>, now: int) {
    && Picks(kept, from, |rows|) && |aged| == |kept|
    && (forall i :: from <= i < |rows| ==>
          (i in kept <==> rows[i].lastSeen == 0 || now - rows[i].lastSeen <= LitePlan.IDLE))
    && (forall j :: 0 <= j < |kept| ==> (
          && (rows[kept[j]].lastSeen == 0 ==> aged[j] == rows[kept[j]].(lastSeen := now))
          && (rows[kept[j]].lastSeen != 0 ==> aged[j] == rows[kept[j]])))
  }

  ghost predicate OnlySeenKept(rows: seq<Row>, aged: seq<Row>, now: int) {
    exists kept :: KeepsTheSeen(kept, rows, 0, aged, now)
  }

  lemma NobodySeen(rows: seq<Row>, now: int)
    ensures KeepsTheSeen([], rows, |rows|, Surviving(rows[|rows|..], now), now)
  {
  }

  lemma SeenOneMore(kept: seq<nat>, rows: seq<Row>, from: nat, aged: seq<Row>, now: int)
    requires from < |rows| && KeepsTheSeen(kept, rows, from + 1, aged, now)
    ensures Idle(rows[from], now) ==> KeepsTheSeen(kept, rows, from, aged, now)
    ensures !Idle(rows[from], now) ==>
        KeepsTheSeen([from] + kept, rows, from, [Stamped(rows[from], now)] + aged, now)
  {
    PickOneMore(kept, from, |rows|);
    hide Picks;
    if !Idle(rows[from], now) {
      var more, all := [from] + kept, [Stamped(rows[from], now)] + aged;
      forall j | 0 <= j < |more|
        ensures more[j] < |rows|
        ensures rows[more[j]].lastSeen == 0 ==> all[j] == rows[more[j]].(lastSeen := now)
        ensures rows[more[j]].lastSeen != 0 ==> all[j] == rows[more[j]]
      {
        assert j > 0 ==> more[j] == kept[j - 1] && all[j] == aged[j - 1];
      }
    }
  }

  lemma {:induction false} SurvivorsWereSeen(rows: seq<Row>, from: nat, now: int) returns (kept: seq<nat>)
    requires from <= |rows|
    ensures KeepsTheSeen(kept, rows, from, Surviving(rows[from..], now), now)
    decreases |rows| - from
  {
    hide KeepsTheSeen, Idle, Stamped;
    if from == |rows| {
      kept := [];
      NobodySeen(rows, now);
    } else {
      var later := SurvivorsWereSeen(rows, from + 1, now);
      SurvivingFrom(rows, from, now);
      hide Surviving;
      SeenOneMore(later, rows, from, Surviving(rows[from + 1..], now), now);
      kept := if Idle(rows[from], now) then later else [from] + later;
      assert [] + Surviving(rows[from + 1..], now) == Surviving(rows[from + 1..], now);
    }
  }

  /** What ageing keeps, and whom it voids. */
  lemma AgeingKeepsTheSeen(rows: seq<Row>, now: int)
    ensures OnlySeenKept(rows, Surviving(rows, now), now)
    ensures forall l :: Aged(l) in Departures(rows, now) <==>
        exists i :: ConnectedAt(rows, i, l) && rows[i].lastSeen != 0 && now - rows[i].lastSeen > LitePlan.IDLE
  {
    hide KeepsTheSeen;
    var kept := SurvivorsWereSeen(rows, 0, now);
    assert rows[0..] == rows;
    forall l
      ensures Aged(l) in Departures(rows, now) <==>
          exists i :: ConnectedAt(rows, i, l) && rows[i].lastSeen != 0 && now - rows[i].lastSeen > LitePlan.IDLE
    {
      DepartsExactly(rows, now, l);
    }
  }

  /** A turn from the back carries ageing one row further. */
  lemma AgedFrom(before: seq<Row>, i: nat, now: int)
    requires i < |before|
    ensures var rows := before[..i + 1] + Surviving(before[i + 1..], now);
        i < |rows| && rows[i] == before[i] && AgedRow(rows, i, now) == before[..i] + Surviving(before[i..], now)
    ensures Departures(before[i..], now) == Departures(before[i + 1..], now)
              + if Idle(before[i], now) && before[i].acmp then [Aged(before[i].identity)] else []
  {
    SurvivingFrom(before, i, now);
    hide Surviving, Departures;
    var rest := Surviving(before[i + 1..], now);
    var rows := before[..i + 1] + rest;
    assert rows[i + 1..] == rest && rows[..i] == before[..i];
    if !Idle(before[i], now) {
      assert rows[i := Stamped(before[i], now)] == before[..i] + ([Stamped(before[i], now)] + rest);
    }
  }

  /** A listener's answer is voided by ageing exactly if a connected row of its own is idle. */
  lemma {:induction false} DepartsExactly(rows: seq<Row>, now: int, l: Identity)
    ensures Aged(l) in Departures(rows, now) <==> exists i :: ConnectedAt(rows, i, l) && Idle(rows[i], now)
  {
    if rows != [] {
      DepartsExactly(rows[1..], now, l);
      if i :| ConnectedAt(rows[1..], i, l) && Idle(rows[1..][i], now) {
        assert ConnectedAt(rows, i + 1, l);
      }
      if i :| ConnectedAt(rows, i, l) && Idle(rows[i], now) && i > 0 {
        assert ConnectedAt(rows[1..], i - 1, l);
      }
      if Idle(rows[0], now) && rows[0].acmp && rows[0].identity == l {
        assert ConnectedAt(rows, 0, l);
      }
    }
  }

  /** Dropping a row that is not connected costs nobody's connection. */
  lemma UnconnectedGoes(rows: seq<Row>, i: nat, a: Answer, log: seq<Event>)
    requires i < |rows| && !rows[i].acmp && Tracks(rows, a, log)
    ensures Tracks(Without(rows, i), a, log)
  {
    forall l | Connected(rows, l)
      ensures Connected(Without(rows, i), l)
    {
      var j :| ConnectedAt(rows, j, l);
      assert ConnectedAt(Without(rows, i), if i < j then j - 1 else j, l);
    }
  }

  lemma ConnectedAges(rows: seq<Row>, i: nat, a: Answer, log: seq<Event>)
    requires i < |rows| && Tracks(rows, a, log)
    ensures Tracks(Without(rows, i), a, log + [Aged(rows[i].identity)])
  {
    var gone := rows[i].identity;
    LawfulOneMore(log, Aged(gone));
    OneMore(log, Aged(gone));
    forall l | l != gone && Connected(rows, l)
      ensures Connected(Without(rows, i), l)
    {
      var j :| ConnectedAt(rows, j, l);
      assert ConnectedAt(Without(rows, i), if i < j then j - 1 else j, l);
    }
  }

  lemma StampTracks(rows: seq<Row>, i: nat, now: int, a: Answer, log: seq<Event>)
    requires i < |rows| && Tracks(rows, a, log)
    ensures Tracks(rows[i := Stamped(rows[i], now)], a, log)
  {
    var after := rows[i := Stamped(rows[i], now)];
    forall l | Connected(rows, l)
      ensures Connected(after, l)
    {
      var j :| ConnectedAt(rows, j, l);
      assert ConnectedAt(after, j, l);
    }
  }

  lemma FirstIdentityOfPrefix(rows: seq<Row>, n: nat, l: Identity)
    requires n < |rows| && FirstIdentity(rows[..n], l) == -1 && rows[n].identity == l
    ensures FirstIdentity(rows, l) == n
  {
    var r := FirstIdentity(rows, l);
    assert forall i :: 0 <= i < n ==> rows[..n][i] == rows[i];
  }

  lemma WithoutKeeps(rows: seq<Row>, i: int, entity: int)
    requires 0 <= i < |rows| ==> rows[i].identity.entity == entity
    ensures forall l: Identity :: l.entity != entity && Connected(rows, l) ==> Connected(Without(rows, i), l)
    ensures Distinct(rows) ==> Distinct(Without(rows, i))
  {
    forall l: Identity | l.entity != entity && Connected(rows, l)
      ensures Connected(Without(rows, i), l)
    {
      var j :| ConnectedAt(rows, j, l);
      assert ConnectedAt(Without(rows, i), if 0 <= i < j then j - 1 else j, l);
    }
  }

  lemma WithoutTracks(rows: seq<Row>, i: int, entity: int, a: Answer, log: seq<Event>)
    requires Tracks(rows, a, log)
    requires 0 <= i < |rows| ==> rows[i].identity.entity == entity
    requires forall l :: Held(log, l) ==> l.entity != entity
    ensures Tracks(Without(rows, i), a, log)
  {
    WithoutKeeps(rows, i, entity);
  }

  /** The table is full for a listener it does not know. */
  ghost predicate NoRoom(rows: seq<Row>, l: Identity, max: nat) {
    && |rows| >= max
    && FirstIdentity(rows, l) < 0
    && (FirstEntity(rows, l.entity) >= 0 ==> rows[FirstEntity(rows, l.entity)].acmp)
    && Sole(rows, -1)
  }

  lemma NobodyNewlyHeld(log: seq<Event>, ev: Event)
    requires !ev.Answered?
    ensures forall l :: Held(log + [ev], l) ==> Held(log, l)
  {
    OneMore(log, ev);
  }

  lemma AnsweredTracks(rows: seq<Row>, a: Answer, log: seq<Event>, l: Identity)
    requires Tracks(rows, a, log) && Connected(rows, l)
    ensures Tracks(rows, a, log + [Answered(l, a)]) && Held(log + [Answered(l, a)], l)
  {
    OneMore(log, Answered(l, a));
    LawfulOneMore(log, Answered(l, a));
  }

  /** Placing and connecting one listener's row leaves the others connected. */
  lemma ConnectedStays(before: seq<Row>, l: Identity, max: nat, placed: seq<Row>, idx: int, now: int,
                       a: Answer, log: seq<Event>)
    requires Placed(before, l, max, placed, idx) && idx >= 0 && Tracks(before, a, log)
    ensures idx < |placed|
    ensures var after := placed[idx := ConnectedRow(placed[idx], now)];
        && Tracks(after, a, log)
        && ConnectedAt(after, idx, l)
        && (forall x :: Connected(before, x) ==> Connected(after, x))
        && (NoOther(before, FirstIdentity(before, l)) ==> NoOther(after, idx))
  {
    PlacedKeeps(before, l, max, placed, idx);
    hide Placed;
    var after := placed[idx := ConnectedRow(placed[idx], now)];
    forall x | Connected(before, x)
      ensures Connected(after, x)
    {
      var i :| ConnectedAt(before, i, x);
      assert ConnectedAt(after, i, x);
    }
    HeldAnswered(before, after, a, log);
  }

  /** No entity can upset the distinctness of the rows by connecting. */
  lemma ConnectKeepsDistinct(before: seq<Row>, l: Identity, max: nat, placed: seq<Row>, idx: int, now: int)
    requires Placed(before, l, max, placed, idx) && idx >= 0 && Distinct(before)
    ensures idx < |placed|
    ensures var after := placed[idx := ConnectedRow(placed[idx], now)];
        Distinct(after) && Distinct(KeepConnected(after))
  {
    PlacedKeeps(before, l, max, placed, idx);
    var after := placed[idx := ConnectedRow(placed[idx], now)];
    forall i, j | 0 <= i < j < |after|
      ensures after[i].identity != after[j].identity
    {
      assert after[i].identity == placed[i].identity && after[j].identity == placed[j].identity;
    }
    KeptAreDistinct(after);
  }

  predicate IsRow(rows: seq<Row>, i: int, l: Identity) {
    0 <= i < |rows| && rows[i].identity == l
  }

  lemma {:induction false} KeptIsARow(rows: seq<Row>, i: nat) returns (j: nat)
    requires i < |KeepConnected(rows)|
    ensures IsRow(rows, j, KeepConnected(rows)[i].identity)
  {
    if !rows[0].acmp {
      var k := KeptIsARow(rows[1..], i);
      j := k + 1;
    } else if i == 0 {
      j := 0;
    } else {
      var k := KeptIsARow(rows[1..], i - 1);
      j := k + 1;
    }
  }

  lemma {:induction false} KeptAreDistinct(rows: seq<Row>)
    requires Distinct(rows)
    ensures Distinct(KeepConnected(rows))
  {
    if rows != [] {
      KeptAreDistinct(rows[1..]);
      var rest := KeepConnected(rows[1..]);
      forall i | 0 <= i < |rest|
        ensures rest[i].identity != rows[0].identity
      {
        var j := KeptIsARow(rows[1..], i);
        assert rows[j + 1].identity == rest[i].identity;
      }
    }
  }

  lemma NothingKept()
    ensures KeepConnected([]) == []
  {
  }

  lemma KeptFrom(rows: seq<Row>, i: nat)
    requires i < |rows|
    ensures KeepConnected(rows[i..]) == (if rows[i].acmp then [Unready(rows[i])] else []) + KeepConnected(rows[i + 1..])
  {
    assert rows[i..][1..] == rows[i + 1..];
  }

  lemma {:induction false} KeptAreUnready(rows: seq<Row>)
    ensures forall i :: 0 <= i < |KeepConnected(rows)| ==> !KeepConnected(rows)[i].ready
  {
    if rows != [] {
      KeptAreUnready(rows[1..]);
    }
  }

  function VlanOf(classB: bool, vlans: seq<int>, current: int): int {
    var mapping := if classB then 1 else 0;
    if mapping < |vlans| then vlans[mapping] else current
  }

  lemma VlanTaken(classB: bool, vlans: seq<int>, current: int)
    ensures classB && |vlans| > 1 ==> VlanOf(classB, vlans, current) == vlans[1]
    ensures !classB && |vlans| > 0 ==> VlanOf(classB, vlans, current) == vlans[0]
  {
  }

  function ConnectedRow(row: Row, now: int): Row {
    row.(acmp := true, askingFailed := false, lastSeen := now)
  }

  /** The generation a stream goes on with. */
  function NextOr(gen: nat, retired: seq<int>, now: int, forgets: seq<bool>): nat
    requires |retired| == |forgets| == GENERATIONS && gen < GENERATIONS
  {
    var next := NextGeneration(gen, 1, retired, now, forgets);
    if next.Some? then next.value else gen
  }

  // ---- The stream --------------------------------------------------------

  datatype Response = Response(status: Status, answer: Answer, connections: nat)

  /** What a CONNECT_TX finds around it. */
  datatype Surroundings = Surroundings(known: bool, locked: bool, formatClassB: Option<bool>, vlans: seq<int>,
                                       mayDeclare: bool, changeWaits: bool, forgets: seq<bool>, startOk: bool)

  /** What a declaration adds to the log. */
  ghost function Declaration(before: nat, after: nat, a: Answer, now: int): seq<Event> {
    (if after != before then [Withdrawn(before, now), Became(a)] else []) + [Declared(after, now)]
  }

  /** What a change of class by a listener adds, with the declaration that follows at once. */
  ghost function ClassFlip(b: Answer, mayDeclare: bool, before: nat, after: nat, a: Answer, now: int): seq<Event> {
    [Became(b)] + if mayDeclare then Declaration(before, after, a, now) else []
  }

  /** Retirement times once a stream has moved, if it has. */
  function Retirements(retired: seq<int>, before: nat, after: nat, now: int): seq<int>
    requires before < |retired|
  {
    if after != before then retired[before := now] else retired
  }

  /** A new format brings its class along if the old one had another, or none. */
  predicate BringsClass(former: Option<bool>, format: Option<bool>) {
    format.Some? && former != format
  }

  /** Whether a change of class may move the stream to another ID. */
  predicate Renews(s: Surroundings, lite: bool, streaming: bool) {
    s.mayDeclare && !lite && s.changeWaits && !streaming
  }

  /** The class a listener gets when it is free to choose. */
  function WantedClass(asked: bool, format: Option<bool>, wifi: bool): bool {
    (if format.Some? then format.value else asked) || wifi
  }

  class TalkerStream {
    const maxRows: nat
    const mac: seq<int>
    const uid: nat
    const wifi: bool
    var lite: bool
    var rows: seq<Row>
    var id: StreamId
    var gen: nat
    var retired: seq<int>
    var classB: bool
    var vlan: int
    var streaming: bool
    ghost var log: seq<Event>
    ghost var clock: int

    function Current(): Answer
      reads this
    {
      Answer(id, classB, vlan)
    }

    ghost predicate Shaped()
      reads this
    {
      && |mac| == 6 && uid < 64
      && gen < GENERATIONS && |retired| == GENERATIONS
      && id == IdOf(mac, uid, gen)
      && |rows| <= maxRows
    }

    ghost predicate Valid()
      reads this
    {
      && Shaped()
      && Tracks(rows, Current(), log)
      && Rested(gen, retired, log, clock)
    }

    constructor (maxRows: nat, mac: seq<int>, uid: nat, lite: bool, wifi: bool, classB: bool, vlan: int)
      requires |mac| == 6 && uid < 64
      ensures Valid() && rows == [] && id == FromMac(mac, uid) && gen == 0 && clock == 0
      ensures retired == [0, 0, 0, 0] && !streaming && this.lite == lite && this.wifi == wifi && this.maxRows == maxRows
      ensures this.classB == classB && this.vlan == vlan && log == [Booted(Current())]
    {
      this.maxRows, this.mac, this.uid, this.lite, this.wifi := maxRows, mac, uid, lite, wifi;
      rows, id, gen, retired := [], FromMac(mac, uid), 0, [0, 0, 0, 0];
      this.classB, this.vlan, streaming := classB, vlan, false;
      log, clock := [Booted(Answer(FromMac(mac, uid), classB, vlan))], 0;
      new;
      BootTracks([], Current());
      assert [] + [Booted(Current())] == log;
    }

    lemma LogIsLawful()
      requires Valid()
      ensures Lawful(log) && Latest(log) == Some(Current())
    {
    }

    /** A restart: the boot ID, no listeners, no memory of what was withdrawn when; the clock starts over. */
    method Reboot(toLite: bool, toClassB: bool, toVlan: int)
      requires Valid()
      modifies this`rows, this`id, this`gen, this`retired, this`log, this`clock, this`classB, this`vlan, this`streaming,
               this`lite
      ensures Valid() && rows == [] && id == FromMac(mac, uid) && gen == 0 && retired == [0, 0, 0, 0] && clock == 0
      ensures !streaming && lite == toLite && classB == toClassB && vlan == toVlan
      ensures log == old(log) + [Booted(Current())]
    {
      hide Tracks, Rested, Lawful;
      LogIsLawful();
      rows, id, gen, retired := [], FromMac(mac, uid), 0, [0, 0, 0, 0];
      classB, vlan, streaming, lite, clock := toClassB, toVlan, false, toLite, 0;
      BootTracks(log, Current());
      log := log + [Booted(Current())];
    }

    // ---- Stream ID ---------------------------------------------------------

    /** Whether a row other than this one is connected. */
    method AnyOther(except: int) returns (found: bool)
      ensures found == !NoOther(rows, except)
    {
      found := false;
      var i := 0;
      while i < |rows|
        invariant 0 <= i <= |rows|
        invariant forall j :: 0 <= j < i && j != except ==> !rows[j].acmp
      {
        if rows[i].acmp && i != except {
          return true;
        }
        i := i + 1;
      }
    }

    /** Rows known only from MSRP go, the others are no longer ready. */
    method PurgeReadiness()
      modifies this`rows
      ensures rows == KeepConnected(old(rows)) && OnlyConnectedKept(old(rows), rows)
    {
      hide KeepConnected, OnlyConnectedKept;
      ghost var before := rows;
      var i := |rows|;
      assert before[..i] == before && before[i..] == [];
      assert KeepConnected([]) == [] by {
        NothingKept();
      }
      while i > 0
        invariant 0 <= i <= |before|
        invariant rows == before[..i] + KeepConnected(before[i..])
      {
        i := i - 1;
        PurgeRow(i, before);
      }
      assert before[0..] == before;
      RenewalKeepsTheConnected(before);
    }

    method PurgeRow(i: nat, ghost before: seq<Row>)
      requires i < |before| && rows == before[..i + 1] + KeepConnected(before[i + 1..])
      modifies this`rows
      ensures rows == before[..i] + KeepConnected(before[i..])
    {
      ghost var front, rest := before[..i], KeepConnected(before[i + 1..]);
      KeptFrom(before, i);
      hide KeepConnected;
      assert rows == front + [before[i]] + rest;
      assert rows[..i] == front && rows[i + 1..] == rest && rows[i] == before[i];
      if !rows[i].acmp {
        RemoveRow(i);
      } else {
        rows := rows[i := Unready(rows[i])];
        assert rows == front + ([Unready(before[i])] + rest);
      }
    }

    method RemoveRow(i: int)
      modifies this`rows
      ensures rows == Without(old(rows), i)
    {
      if 0 <= i < |rows| {
        rows := rows[..i] + rows[i + 1..];
      }
    }

    lemma ClockMovesOn(now: int)
      requires Valid() && clock <= now
      ensures Rested(gen, retired, log, now)
    {
    }

    /** Moves to a stream ID nobody has seen for 32 s, when nothing would lose the stream. */
    method RenewId(except: int, now: int, forgets: seq<bool>, ghost entity: int) returns (renewed: bool)
      requires Valid() && clock <= now && |forgets| == GENERATIONS
      requires 0 <= except < |rows| ==> rows[except].identity.entity == entity
      requires 0 <= except ==> forall l :: Held(log, l) ==> l.entity != entity
      modifies this`rows, this`id, this`gen, this`retired, this`log, this`clock
      ensures Valid() && clock == now
      ensures renewed == (!streaming && NoOther(old(rows), except)
                          && NextGeneration(old(gen), 1, old(retired), now, forgets).Some?)
      ensures !renewed ==> rows == old(rows) && id == old(id) && gen == old(gen) && retired == old(retired) && log == old(log)
      ensures renewed ==>
          && gen == NextGeneration(old(gen), 1, old(retired), now, forgets).value
          && retired == old(retired)[old(gen) := now]
          && rows == KeepConnected(old(rows)) && OnlyConnectedKept(old(rows), rows)
          && log == old(log) + [Withdrawn(old(gen), now), Became(Current())]
      // It moves whenever it may, to the first ID that has rested and nobody holds.
      ensures !streaming && NoOther(old(rows), except) ==> FirstRested(old(gen), gen, old(retired), now, forgets)
    {
      ClockMovesOn(now);
      NextIsFirstRested(gen, retired, now, forgets);
      hide Tracks, Rested, IdOf, Held, NoOther, KeepConnected, Connected, Usable, OnlyConnectedKept, FirstRested;
      clock := now;
      var other := AnyOther(except);
      if streaming || other {
        return false;
      }
      var next := FindGeneration(now, forgets);
      if next.None? {
        return false;
      }
      Rests(next.value, now, forgets);
      hide NextGeneration;
      Move(next.value, except, now, entity);
      renewed := true;
    }

    lemma Rests(next: nat, now: int, forgets: seq<bool>)
      requires |retired| == |forgets| == GENERATIONS && next < GENERATIONS && Usable(next, retired, now, forgets)
      ensures now - retired[next] >= REUSE
    {
    }

    /** The next generation whose ID has rested and is held by nobody. */
    method FindGeneration(now: int, forgets: seq<bool>) returns (next: Option<nat>)
      requires gen < GENERATIONS && |retired| == |forgets| == GENERATIONS
      ensures next == NextGeneration(gen, 1, retired, now, forgets)
      ensures FirstRested(gen, if next.Some? then next.value else gen, retired, now, forgets)
    {
      NextIsFirstRested(gen, retired, now, forgets);
      hide NextGeneration, FirstRested;
      var step := 1;
      while step < GENERATIONS
        invariant 1 <= step <= GENERATIONS
        invariant NextGeneration(gen, step, retired, now, forgets) == NextGeneration(gen, 1, retired, now, forgets)
        decreases GENERATIONS - step
      {
        var candidate := (gen + step) % GENERATIONS;
        NextGenerationStep(gen, step, retired, now, forgets);
        if now - retired[candidate] >= REUSE && forgets[candidate] {
          return Some(candidate);
        }
        step := step + 1;
      }
      NextGenerationStep(gen, step, retired, now, forgets);
      next := None;
    }

    method Move(next: nat, except: int, now: int, ghost entity: int)
      requires Valid() && clock == now && next < GENERATIONS && next != gen && now - retired[next] >= REUSE
      requires NoOther(rows, except)
      requires 0 <= except < |rows| ==> rows[except].identity.entity == entity
      requires 0 <= except ==> forall l :: Held(log, l) ==> l.entity != entity
      modifies this`rows, this`id, this`gen, this`retired, this`log
      ensures Valid()
      ensures gen == next && retired == old(retired)[old(gen) := now] && rows == KeepConnected(old(rows))
      ensures OnlyConnectedKept(old(rows), rows)
      ensures log == old(log) + [Withdrawn(old(gen), now), Became(Current())]
    {
      hide Held, Lawful, Latest, IdOf, WithGeneration, OnlyConnectedKept;
      ghost var a, w := Current(), log + [Withdrawn(gen, now)];
      ghost var b := a.(streamId := WithGeneration(id, next));
      RenewedId(mac, uid, gen, next);
      TracksSilent(rows, a, log, Withdrawn(gen, now));
      MayBecome(rows, a, w, entity, except, b);
      RestedRenewed(gen, retired, log, clock, next, now, b);
      KeptAreConnected(rows);
      HeldAnswered(rows, KeepConnected(rows), b, w + [Became(b)]);
      log := log + [Withdrawn(gen, now), Became(b)];
      assert log == w + [Became(b)];
      hide Tracks, Rested;
      retired := retired[gen := now];
      gen := next;
      id := WithGeneration(id, next);
      PurgeReadiness();
    }

    /** Declares the stream, under a new ID if a change would otherwise wait. */
    method Declare(except: int, now: int, changeWaits: bool, forgets: seq<bool>, ghost entity: int)
      returns (ghost renewed: bool)
      requires Valid() && clock <= now && |forgets| == GENERATIONS
      requires 0 <= except < |rows| ==> rows[except].identity.entity == entity
      requires 0 <= except ==> forall l :: Held(log, l) ==> l.entity != entity
      modifies this`rows, this`id, this`gen, this`retired, this`log, this`clock
      ensures Valid() && clock == now
      ensures renewed == (!lite && changeWaits && !streaming && NoOther(old(rows), except)
                          && NextGeneration(old(gen), 1, old(retired), now, forgets).Some?)
      ensures !renewed ==> rows == old(rows) && id == old(id) && gen == old(gen) && retired == old(retired)
      ensures renewed ==>
          && gen == NextGeneration(old(gen), 1, old(retired), now, forgets).value
          && retired == old(retired)[old(gen) := now]
          && rows == KeepConnected(old(rows)) && OnlyConnectedKept(old(rows), rows)
      ensures renewed <==> gen != old(gen)
      ensures !lite && changeWaits && !streaming && NoOther(old(rows), except) ==>
          FirstRested(old(gen), gen, old(retired), now, forgets)
      ensures log == old(log) + Declaration(old(gen), gen, Current(), now)
    {
      hide Held, Lawful, Latest, IdOf, WithGeneration, NoOther, NextGeneration, OnlyConnectedKept, FirstRested;
      renewed := false;
      if !lite && changeWaits {
        renewed := RenewId(except, now, forgets, entity);
      }
      RestedMayDeclare(gen, retired, log, clock, now);
      TracksSilent(rows, Current(), log, Declared(gen, now));
      log := log + [Declared(gen, now)];
      clock := now;
    }

    /** The periodic declaration, under no listener's command. */
    method PeriodicDeclare(haveAddress: bool, now: int, changeWaits: bool, forgets: seq<bool>)
      requires Valid() && clock <= now && |forgets| == GENERATIONS
      modifies this`rows, this`id, this`gen, this`retired, this`log, this`clock
      ensures Valid()
      ensures !lite && !haveAddress ==>
          gen == old(gen) && rows == old(rows) && retired == old(retired) && log == old(log) && clock == old(clock)
      ensures lite || haveAddress ==> (
          && gen == (if !lite && changeWaits && !streaming && NoOther(old(rows), -1)
                     then NextOr(old(gen), old(retired), now, forgets) else old(gen))
          && rows == (if gen == old(gen) then old(rows) else KeepConnected(old(rows)))
          && retired == Retirements(old(retired), old(gen), gen, now)
          && log == old(log) + Declaration(old(gen), gen, Current(), now) && clock == now)
      // Where it moves, and when it stays.
      ensures gen != old(gen) ==> !lite && haveAddress && changeWaits && !streaming && NoOther(old(rows), -1)
      ensures !lite && haveAddress && changeWaits && !streaming && NoOther(old(rows), -1) ==>
          FirstRested(old(gen), gen, old(retired), now, forgets)
      ensures gen != old(gen) ==> OnlyConnectedKept(old(rows), rows) && retired == old(retired)[old(gen) := now]
      ensures gen == old(gen) ==> id == old(id)
      ensures forall l :: Connected(old(rows), l) ==> Connected(rows, l) && Current() == old(Current())
    {
      hide OnlyConnectedKept, FirstRested;
      if lite || haveAddress {
        ghost var before := rows;
        ghost var renewed := Declare(-1, now, changeWaits, forgets, 0);
        assert renewed ==> forall l :: !Connected(before, l);
      }
    }

    // ---- New formats and modes ---------------------------------------------

    /** A class and VLAN that come over the heads of the listeners. */
    method Override(ghost cause: Cause, wanted: bool, media: int)
      requires Valid() && (cause.NewMode? ==> wanted == classB)
      modifies this`classB, this`vlan, this`log
      ensures Valid() && classB == wanted && vlan == media
      ensures log == old(log) + [Overridden(cause, Current())]
    {
      hide Tracks;
      ghost var b := Answer(id, wanted, media);
      OverrideTracks(rows, Current(), log, cause, b);
      RestedOneMore(gen, retired, log, clock, Overridden(cause, b));
      classB, vlan := wanted, media;
      log := log + [Overridden(cause, b)];
    }

    /** SET_STREAM_FORMAT: a stopped stream takes the format, and with it another class. */
    method SetFormat(allowed: bool, format: Option<bool>, changed: bool, s: Surroundings, now: int) returns (ok: bool)
      requires Valid() && clock <= now && |s.forgets| == GENERATIONS
      modifies this`rows, this`id, this`gen, this`retired, this`log, this`clock, this`classB, this`vlan
      ensures Valid() && ok == (!streaming && allowed)
      ensures !ok ==> Current() == old(Current()) && gen == old(gen) && rows == old(rows)
      ensures !ok ==> retired == old(retired) && log == old(log) && clock == old(clock)
      ensures ok ==> classB == (if BringsClass(s.formatClassB, format) then format.value else old(classB))
      ensures ok ==> vlan == if BringsClass(s.formatClassB, format) then VlanOf(classB, s.vlans, old(vlan)) else old(vlan)
      // In full: a stopped stream takes a new format's class, with the class's VLAN if there is one.
      ensures ok && format.Some? && s.formatClassB != format ==>
          && classB == format.value
          && (classB && |s.vlans| > 1 ==> vlan == s.vlans[1]) && (!classB && |s.vlans| > 0 ==> vlan == s.vlans[0])
      ensures ok && (format.None? || s.formatClassB == format) ==> classB == old(classB) && vlan == old(vlan)
      ensures gen != old(gen) ==>
          && ok && changed && s.mayDeclare && !lite && s.changeWaits && NoOther(old(rows), -1)
          && OnlyConnectedKept(old(rows), rows) && retired == old(retired)[old(gen) := now]
      ensures ok && changed && s.mayDeclare && !lite && s.changeWaits && NoOther(old(rows), -1) ==>
          FirstRested(old(gen), gen, old(retired), now, s.forgets)
      ensures ok ==> gen == if changed && Renews(s, lite, streaming) && NoOther(old(rows), -1)
                            then NextOr(old(gen), old(retired), now, s.forgets) else old(gen)
      ensures ok ==> rows == if gen == old(gen) then old(rows) else KeepConnected(old(rows))
      ensures ok ==> retired == Retirements(old(retired), old(gen), gen, now)
      ensures ok ==> clock == if changed && s.mayDeclare then now else old(clock)
      ensures ok ==>
          log == old(log)
            + (if BringsClass(s.formatClassB, format) then [Overridden(NewFormat, Answer(old(id), classB, vlan))] else [])
            + (if changed && s.mayDeclare then Declaration(old(gen), gen, Current(), now) else [])
      ensures gen == old(gen) ==> id == old(id)
      ensures forall x :: Connected(old(rows), x) ==> Connected(rows, x) && id == old(id)
    {
      hide Tracks, Rested, IdOf, OnlyConnectedKept, FirstRested;
      if streaming || !allowed {
        return false;
      }
      if format.Some? && s.formatClassB != format {
        Override(NewFormat, format.value, VlanOf(format.value, s.vlans, vlan));
      } else {
        assert log + [] == log;
      }
      if changed && s.mayDeclare {
        ghost var before := rows;
        ghost var renewed := Declare(-1, now, s.changeWaits, s.forgets, 0);
        assert renewed ==> forall l :: !Connected(before, l);
      } else {
        assert log + [] == log;
      }
      ok := true;
    }

    /** Entering or leaving AVB Lite: the media VLAN of the mode, declared on entry. */
    method SwitchMode(enter: bool, media: seq<int>, s: Surroundings, now: int)
      requires Valid() && clock <= now && |s.forgets| == GENERATIONS && |media| == 2
      modifies this`lite, this`rows, this`id, this`gen, this`retired, this`log, this`clock, this`classB, this`vlan
      ensures Valid() && lite == enter
      ensures rows == old(rows) && id == old(id) && gen == old(gen) && retired == old(retired) && classB == old(classB)
      ensures vlan == if enter == old(lite) then old(vlan) else media[if classB then 1 else 0]
      ensures clock == if enter && !old(lite) && s.mayDeclare then now else old(clock)
      ensures log == old(log)
          + (if enter == old(lite) then [] else [Overridden(NewMode, Current())])
          + (if enter && !old(lite) && s.mayDeclare then Declaration(gen, gen, Current(), now) else [])
    {
      hide Tracks, Rested, IdOf;
      if lite != enter {
        lite := enter;
        Override(NewMode, classB, media[if classB then 1 else 0]);
        if enter && s.mayDeclare {
          ghost var renewed := Declare(-1, now, s.changeWaits, s.forgets, 0);
        } else {
          assert log + [] == log;
        }
      } else {
        assert log + [] + [] == log;
      }
    }

    // ---- Ageing in AVB Lite ------------------------------------------------

    /** Listeners that stopped refreshing go, even connected ones. */
    method AgeOut(now: int)
      requires Valid()
      modifies this`rows, this`log
      ensures Valid()
      ensures rows == if lite then Surviving(old(rows), now) else old(rows)
      ensures log == old(log) + if lite then Departures(old(rows), now) else []
      ensures lite ==> OnlySeenKept(old(rows), rows, now)
      ensures lite ==> forall l :: Aged(l) in log[|old(log)|..] <==>
          exists i :: ConnectedAt(old(rows), i, l)
            && old(rows)[i].lastSeen != 0 && now - old(rows)[i].lastSeen > LitePlan.IDLE
    {
      AgeingKeepsTheSeen(rows, now);
      hide Tracks, Rested, IdOf, Surviving, Departures, OnlySeenKept;
      assert log + [] == log;
      if !lite {
        return;
      }
      NobodyAges(now);
      ghost var before, begun := rows, log;
      var i := |rows|;
      assert before[..i] == before && before[i..] == [];
      while i > 0
        invariant 0 <= i <= |before|
        invariant Valid()
        invariant rows == before[..i] + Surviving(before[i..], now)
        invariant log == begun + Departures(before[i..], now)
      {
        i := i - 1;
        AgedFrom(before, i, now);
        AgeRow(i, now);
      }
      assert before[0..] == before;
    }

    method RemoveIdle(i: nat)
      requires Valid() && i < |rows|
      modifies this`rows, this`log
      ensures Valid() && rows == Without(old(rows), i)
      ensures log == old(log) + if old(rows)[i].acmp then [Aged(old(rows)[i].identity)] else []
    {
      hide Tracks, Rested;
      if rows[i].acmp {
        ConnectedAges(rows, i, Current(), log);
        RestedOneMore(gen, retired, log, clock, Aged(rows[i].identity));
        log := log + [Aged(rows[i].identity)];
      } else {
        UnconnectedGoes(rows, i, Current(), log);
        assert log + [] == log;
      }
      RemoveRow(i);
    }

    /** One row's turn: removed, or its clock started. */
    method AgeRow(i: nat, now: int)
      requires Valid() && i < |rows|
      modifies this`rows, this`log
      ensures Valid() && rows == AgedRow(old(rows), i, now)
      ensures log == old(log) + if Idle(old(rows)[i], now) && old(rows)[i].acmp then [Aged(old(rows)[i].identity)] else []
    {
      hide Tracks, Rested;
      if rows[i].lastSeen != 0 && now - rows[i].lastSeen > LitePlan.IDLE {
        RemoveIdle(i);
      } else {
        StampTracks(rows, i, now, Current(), log);
        rows := rows[i := Stamped(rows[i], now)];
        assert log + [] == log;
      }
    }

    // ---- ACMP commands -----------------------------------------------------

    method FindByIdentity(l: Identity) returns (r: int)
      ensures r == FirstIdentity(rows, l)
    {
      r := -1;
      var i := 0;
      while i < |rows|
        invariant 0 <= i <= |rows|
        invariant FirstIdentity(rows[..i], l) == -1
      {
        assert rows[..i + 1][..i] == rows[..i];
        if rows[i].identity == l {
          FirstIdentityOfPrefix(rows, i, l);
          return i;
        }
        i := i + 1;
      }
      assert rows[..i] == rows;
    }

    method FindByEntity(entity: int) returns (r: int)
      ensures r == FirstEntity(rows, entity)
    {
      r := -1;
      var i := 0;
      while i < |rows|
        invariant 0 <= i <= |rows|
        invariant forall j :: 0 <= j < i ==> rows[j].identity.entity != entity
      {
        if rows[i].identity.entity == entity {
          return i;
        }
        i := i + 1;
      }
    }

    /** The one row that is ready but not connected, -1 when none or several are. */
    method FindSolePending() returns (r: int)
      ensures Sole(rows, r)
    {
      r := -1;
      var i := 0;
      while i < |rows|
        invariant 0 <= i <= |rows|
        invariant -1 <= r < i
        invariant forall j :: 0 <= j < i ==> (IsPending(rows[j]) <==> j == r)
      {
        if !rows[i].acmp && rows[i].ready {
          if r != -1 {
            assert IsPending(rows[i]) && IsPending(rows[r]);
            return -1;
          }
          r := i;
        }
        i := i + 1;
      }
    }

    method FindOrAdd(l: Identity) returns (idx: int)
      requires |rows| <= maxRows
      modifies this`rows
      ensures Placed(old(rows), l, maxRows, rows, idx)
    {
      idx := FindByIdentity(l);
      if idx != -1 {
        return;
      }
      idx := FindByEntity(l.entity);
      if idx != -1 && !rows[idx].acmp {
        rows := rows[idx := rows[idx].(identity := l)];
        return;
      }
      idx := FindSolePending();
      if idx != -1 {
        rows := rows[idx := rows[idx].(identity := l)];
        return;
      }
      if |rows| >= maxRows {
        return -1;
      }
      idx := |rows|;
      rows := rows + [NewRow(l)];
    }

    method CountConnections() returns (n: nat)
      ensures n == Connections(rows) == |set i: int | 0 <= i < |rows| && rows[i].acmp|
    {
      ConnectionsAreRows(rows);
      n := 0;
      var i := 0;
      while i < |rows|
        invariant 0 <= i <= |rows|
        invariant n == Connections(rows[..i])
      {
        assert rows[..i + 1][..i] == rows[..i];
        if rows[i].acmp {
          n := n + 1;
        }
        i := i + 1;
      }
      assert rows[..i] == rows;
    }

    /** The listener's row goes, or for want of it the first of its entity. */
    method DropListener(l: Identity)
      requires Valid()
      modifies this`rows, this`log
      ensures Valid() && log == old(log) + [Commanded(l.entity)]
      ensures rows == Without(old(rows), if FirstIdentity(old(rows), l) >= 0 then FirstIdentity(old(rows), l)
                                         else FirstEntity(old(rows), l.entity))
      ensures forall x: Identity :: x.entity != l.entity && Connected(old(rows), x) ==> Connected(rows, x)
      ensures Distinct(old(rows)) ==> Distinct(rows)
    {
      hide Held, Tracks, Rested, Connected, Distinct, Without, IdOf;
      var idx := HearCommand(l);
      if idx == -1 {
        idx := FindByEntity(l.entity);
      }
      RemoveOwn(idx, l.entity);
    }

    /** A row of an entity to whom nothing is owed goes. */
    method RemoveOwn(idx: int, ghost entity: int)
      requires Valid() && -1 <= idx < |rows| && (idx >= 0 ==> rows[idx].identity.entity == entity)
      requires forall x :: Held(log, x) ==> x.entity != entity
      modifies this`rows
      ensures Valid() && rows == Without(old(rows), idx)
      ensures forall x: Identity :: x.entity != entity && Connected(old(rows), x) ==> Connected(rows, x)
      ensures Distinct(old(rows)) ==> Distinct(rows)
    {
      hide Held, Rested, IdOf;
      WithoutKeeps(rows, idx, entity);
      hide Tracks, Distinct, Connected;
      WithoutTracks(rows, idx, entity, Current(), log);
      if idx != -1 {
        RemoveRow(idx);
      }
    }

    method Disconnect(l: Identity, known: bool, locked: bool) returns (r: Response)
      requires Valid()
      modifies this`rows, this`streaming, this`log
      ensures Valid()
      ensures r.status == if !known then TalkerUnknownId else if locked then ControllerNotAuthorized else Success
      ensures r.status != Success ==> rows == old(rows) && streaming == old(streaming) && log == old(log)
      ensures r.status == Success ==>
          var i := FirstIdentity(old(rows), l);
          && rows == Without(old(rows), if i >= 0 then i else FirstEntity(old(rows), l.entity))
          && streaming == (old(streaming) && rows != [])
          && r.answer == Current() && r.connections == Connections(rows)
          && log == old(log) + [Commanded(l.entity)]
      ensures r.status == Success ==> r.connections == |set i: int | 0 <= i < |rows| && rows[i].acmp|
      ensures forall x: Identity :: x.entity != l.entity && Connected(old(rows), x) ==> Connected(rows, x)
      ensures Distinct(old(rows)) ==> Distinct(rows)
    {
      hide Tracks, Rested, Connections, Connected, Distinct, IdOf, FirstIdentity, FirstEntity, Without;
      if !known {
        return Response(TalkerUnknownId, Current(), 0);
      }
      if locked {
        return Response(ControllerNotAuthorized, Current(), 0);
      }
      DropListener(l);
      if streaming && |rows| == 0 {
        streaming := false;
      }
      var n := CountConnections();
      r := Response(Success, Current(), n);
    }

    method Connect(l: Identity, askedClassB: bool, s: Surroundings, now: int)
      returns (r: Response, ghost placed: seq<Row>, ghost at: int)
      requires Valid() && clock <= now && |s.forgets| == GENERATIONS
      modifies this`rows, this`id, this`gen, this`retired, this`log, this`clock, this`classB, this`vlan, this`streaming
      ensures Valid()
      ensures r.status == (if !s.known then TalkerUnknownId else if s.locked then ControllerNotAuthorized
                           else if NoRoom(old(rows), l, maxRows) then TalkerExclusive else Success)
      ensures r.status != Success ==> Current() == old(Current()) && rows == old(rows) && streaming == old(streaming)
      // The record of it: nothing but the refusals goes unlogged.
      ensures !s.known || s.locked ==> log == old(log)
      ensures r.status == TalkerExclusive ==> log == old(log) + [Commanded(l.entity)]
      ensures r.status == Success ==>
          log == old(log) + [Commanded(l.entity)]
            + (if classB == old(classB) then []
               else ClassFlip(Answer(old(id), classB, vlan), s.mayDeclare, old(gen), gen, Current(), now))
            + [Answered(l, Current())]
      ensures retired == if r.status == Success then Retirements(old(retired), old(gen), gen, now) else old(retired)
      ensures clock == if classB != old(classB) && s.mayDeclare then now else old(clock)
      // The answer: the stream as it is, after whatever this request changed.
      ensures r.status == Success ==>
          r.answer == Current() && r.connections == Connections(rows) && Connected(rows, l) && Held(log, l)
      // The class: the listener's to choose only while no other is connected.
      ensures r.status == Success ==>
          classB == if NoOther(old(rows), FirstIdentity(old(rows), l))
                    then WantedClass(askedClassB, s.formatClassB, wifi) else old(classB)
      // In full: alone, it gets Class B on Wi-Fi, else the class of the stream's format, else the one it asks for.
      ensures r.status == Success && !NoOther(old(rows), FirstIdentity(old(rows), l)) ==> classB == old(classB)
      ensures r.status == Success && NoOther(old(rows), FirstIdentity(old(rows), l)) ==>
          && (wifi ==> classB)
          && (!wifi && s.formatClassB.Some? ==> classB == s.formatClassB.value)
          && (!wifi && s.formatClassB.None? ==> classB == askedClassB)
      ensures classB == old(classB) ==> vlan == old(vlan) && id == old(id) && gen == old(gen)
      ensures gen == old(gen) ==> id == old(id)
      ensures classB != old(classB) ==> vlan == VlanOf(classB, s.vlans, old(vlan))
      ensures classB != old(classB) ==>
          && (classB && |s.vlans| > 1 ==> vlan == s.vlans[1]) && (!classB && |s.vlans| > 0 ==> vlan == s.vlans[0])
      // The ID: moved only together with the class, when a declaration would wait.
      ensures classB != old(classB) ==>
          gen == if Renews(s, lite, old(streaming)) then NextOr(old(gen), old(retired), now, s.forgets) else old(gen)
      ensures gen != old(gen) ==>
          && classB != old(classB) && s.mayDeclare && !lite && s.changeWaits && !old(streaming)
          && retired == old(retired)[old(gen) := now]
      ensures classB != old(classB) && s.mayDeclare && !lite && s.changeWaits && !old(streaming) ==>
          FirstRested(old(gen), gen, old(retired), now, s.forgets)
      // The table: one row placed and connected, every other as it was, but for a renewal.
      ensures r.status == Success ==> 0 <= at < |placed| && IsSeated(old(rows), l, placed, at)
      ensures r.status == Success ==>
          var connected := placed[at := placed[at].(acmp := true, askingFailed := false, lastSeen := now)];
          if gen == old(gen) then rows == connected else OnlyConnectedKept(connected, rows)
      ensures r.status == Success ==> r.connections == |set i: int | 0 <= i < |rows| && rows[i].acmp|
      ensures r.status == Success ==>
          && Placed(old(rows), l, maxRows, placed, at) && 0 <= at < |placed|
          && rows == (if gen == old(gen) then placed[at := ConnectedRow(placed[at], now)]
                      else KeepConnected(placed[at := ConnectedRow(placed[at], now)]))
      ensures r.status == Success ==>
          streaming == (old(streaming) || (!lite && s.startOk && placed[at].ready && gen == old(gen)))
      ensures forall x: Identity :: x.entity != l.entity && Connected(old(rows), x) ==> Connected(rows, x)
    {
      hide Tracks, Rested, Placed, Connected, NoOther, NoRoom, KeepConnected, Held, Connections, IdOf, Sole, ClassFlip, WantedClass, NextOr, VlanOf, Renews, FirstIdentity, FirstEntity, Retirements, OnlyConnectedKept, FirstRested,
           IsSeated;
      placed, at := rows, -1;
      if !s.known {
        return Response(TalkerUnknownId, Current(), 0), placed, at;
      }
      if s.locked {
        return Response(ControllerNotAuthorized, Current(), 0), placed, at;
      }
      var known := HearCommand(l);
      var wanted := ChooseClass(known, askedClassB, s);
      var idx;
      idx, placed := PlaceAndConnect(l, now);
      at := idx;
      if idx == -1 {
        return Response(TalkerExclusive, Current(), 0), placed, at;
      }
      SettleClass(idx, wanted, s, now, l.entity);
      StartIfReady(idx, s.startOk, placed[idx].ready, gen == old(gen));
      r := AnswerConnect(l);
      ConnectionsAreRows(rows);
    }

    /** A command that is carried out: its listener's earlier answers are void. */
    method HearCommand(l: Identity) returns (known: int)
      requires Valid()
      modifies this`log
      ensures Valid() && log == old(log) + [Commanded(l.entity)]
      ensures known == FirstIdentity(rows, l)
      ensures forall x :: Held(log, x) ==> x.entity != l.entity
    {
      TracksSilent(rows, Current(), log, Commanded(l.entity));
      RestedOneMore(gen, retired, log, clock, Commanded(l.entity));
      log := log + [Commanded(l.entity)];
      known := FindByIdentity(l);
    }

    /** The class of the request, unless other listeners hold the stream's. */
    method ChooseClass(known: int, askedClassB: bool, s: Surroundings) returns (wanted: bool)
      ensures wanted == if NoOther(rows, known) then WantedClass(askedClassB, s.formatClassB, wifi) else classB
      ensures !NoOther(rows, known) ==> wanted == classB
      ensures NoOther(rows, known) && wifi ==> wanted
      ensures NoOther(rows, known) && !wifi && s.formatClassB.Some? ==> wanted == s.formatClassB.value
      ensures NoOther(rows, known) && !wifi && s.formatClassB.None? ==> wanted == askedClassB
    {
      wanted := askedClassB;
      if s.formatClassB.Some? && s.formatClassB.value != wanted {
        wanted := s.formatClassB.value;
      }
      if wifi && !wanted {
        wanted := true;
      }
      var others := AnyOther(known);
      if others && classB != wanted {
        wanted := classB;
      }
    }

    method PlaceAndConnect(l: Identity, now: int) returns (idx: int, ghost placed: seq<Row>)
      requires Valid()
      modifies this`rows
      ensures Valid()
      ensures Placed(old(rows), l, maxRows, placed, idx) && -1 <= idx < |placed|
      ensures idx == -1 <==> NoRoom(old(rows), l, maxRows)
      ensures idx >= 0 ==> IsSeated(old(rows), l, placed, idx)
      ensures rows == if idx == -1 then old(rows) else placed[idx := ConnectedRow(placed[idx], now)]
      ensures idx >= 0 ==> ConnectedAt(rows, idx, l) && Connected(rows, l)
      ensures forall x :: Connected(old(rows), x) ==> Connected(rows, x)
      ensures idx >= 0 && NoOther(old(rows), FirstIdentity(old(rows), l)) ==> NoOther(rows, idx)
    {
      ghost var before := rows;
      idx := FindOrAdd(l);
      placed := rows;
      PlacedKeeps(before, l, maxRows, placed, idx);
      if idx == -1 {
        return;
      }
      ConnectedStays(before, l, maxRows, placed, idx, now, Current(), log);
      PlacedIsSeated(before, l, maxRows, placed, idx);
      hide Placed, Tracks, NoOther, IsSeated;
      rows := rows[idx := ConnectedRow(rows[idx], now)];
    }

    /** Starts a stream whose listener was ready before it connected. */
    method StartIfReady(idx: nat, startOk: bool, ghost ready: bool, ghost same: bool)
      requires Valid()
      requires if same then idx < |rows| && rows[idx].ready == ready
               else forall i :: 0 <= i < |rows| ==> !rows[i].ready
      modifies this`streaming
      ensures Valid()
      ensures streaming == (old(streaming) || (!lite && startOk && ready && same))
    {
      if idx < |rows| && rows[idx].ready && !streaming && !lite {
        streaming := startOk;
      }
    }

    method AnswerConnect(l: Identity) returns (r: Response)
      requires Valid() && Connected(rows, l)
      modifies this`log
      ensures Valid() && Held(log, l)
      ensures r == Response(Success, Current(), Connections(rows))
      ensures log == old(log) + [Answered(l, Current())]
    {
      var n := CountConnections();
      r := Response(Success, Current(), n);
      AnsweredTracks(rows, Current(), log, l);
      RestedOneMore(gen, retired, log, clock, Answered(l, Current()));
      log := log + [Answered(l, Current())];
    }

    /** Another class and its VLAN. */
    method TakeClass(idx: nat, wanted: bool, vlans: seq<int>, ghost entity: int)
      requires Valid()
      requires idx < |rows| && rows[idx].acmp && rows[idx].identity.entity == entity && NoOther(rows, idx)
      requires forall l :: Held(log, l) ==> l.entity != entity
      modifies this`log, this`classB, this`vlan
      ensures Valid() && classB == wanted && vlan == VlanOf(wanted, vlans, old(vlan))
      ensures log == old(log) + [Became(Current())]
      ensures forall l :: Held(log, l) ==> l.entity != entity
    {
      ghost var b := Answer(id, wanted, VlanOf(wanted, vlans, vlan));
      MayBecome(rows, Current(), log, entity, idx, b);
      RestedOneMore(gen, retired, log, clock, Became(b));
      NobodyNewlyHeld(log, Became(b));
      log := log + [Became(b)];
      hide Tracks, Rested, Held;
      classB := wanted;
      var mapping := if wanted then 1 else 0;
      if mapping < |vlans| {
        vlan := vlans[mapping];
      }
    }

    /** Another class, and at once a declaration in it. */
    method FlipClass(idx: nat, wanted: bool, s: Surroundings, now: int, ghost entity: int)
      requires Valid() && clock <= now && |s.forgets| == GENERATIONS && wanted != classB
      requires idx < |rows| && rows[idx].acmp && rows[idx].identity.entity == entity && NoOther(rows, idx)
      requires forall l :: Held(log, l) ==> l.entity != entity
      modifies this`rows, this`id, this`gen, this`retired, this`log, this`clock, this`classB, this`vlan
      ensures Valid() && classB == wanted && vlan == VlanOf(wanted, s.vlans, old(vlan))
      ensures gen == if Renews(s, lite, streaming) then NextOr(old(gen), old(retired), now, s.forgets) else old(gen)
      ensures rows == if gen == old(gen) then old(rows) else KeepConnected(old(rows))
      ensures gen == old(gen) ==> id == old(id)
      ensures retired == Retirements(old(retired), old(gen), gen, now)
      ensures clock == if s.mayDeclare then now else old(clock)
      ensures log == old(log) + ClassFlip(Answer(old(id), classB, vlan), s.mayDeclare, old(gen), gen, Current(), now)
      ensures forall x :: Connected(old(rows), x) ==> Connected(rows, x)
      ensures gen != old(gen) ==> forall i :: 0 <= i < |rows| ==> !rows[i].ready
      ensures gen != old(gen) ==>
          && s.mayDeclare && !lite && s.changeWaits && !streaming
          && OnlyConnectedKept(old(rows), rows) && retired == old(retired)[old(gen) := now]
      ensures s.mayDeclare && !lite && s.changeWaits && !streaming ==>
          FirstRested(old(gen), gen, old(retired), now, s.forgets)
    {
      hide Tracks, Rested, IdOf, Connected, Held, Declaration, OnlyConnectedKept, FirstRested;
      TakeClass(idx, wanted, s.vlans, entity);
      KeptAreConnected(rows);
      KeptAreUnready(rows);
      if s.mayDeclare {
        ghost var b := Current();
        ghost var renewed := Declare(idx, now, s.changeWaits, s.forgets, entity);
        assert log == old(log) + ([Became(b)] + Declaration(old(gen), gen, Current(), now));
      }
    }

    /** With no other listener the request sets the class. */
    method SettleClass(idx: nat, wanted: bool, s: Surroundings, now: int, ghost entity: int)
      requires Valid() && clock <= now && |s.forgets| == GENERATIONS
      requires idx < |rows| && rows[idx].acmp && rows[idx].identity.entity == entity
      requires wanted != classB ==> NoOther(rows, idx)
      requires forall l :: Held(log, l) ==> l.entity != entity
      modifies this`rows, this`id, this`gen, this`retired, this`log, this`clock, this`classB, this`vlan
      ensures Valid() && classB == wanted
      ensures vlan == if wanted == old(classB) then old(vlan) else VlanOf(wanted, s.vlans, old(vlan))
      ensures gen == if wanted != old(classB) && Renews(s, lite, streaming)
                     then NextOr(old(gen), old(retired), now, s.forgets) else old(gen)
      ensures rows == if gen == old(gen) then old(rows) else KeepConnected(old(rows))
      ensures gen == old(gen) ==> id == old(id)
      ensures retired == Retirements(old(retired), old(gen), gen, now)
      ensures clock == if wanted != old(classB) && s.mayDeclare then now else old(clock)
      ensures log == old(log)
          + if wanted == old(classB) then []
            else ClassFlip(Answer(old(id), classB, vlan), s.mayDeclare, old(gen), gen, Current(), now)
      ensures forall x :: Connected(old(rows), x) ==> Connected(rows, x)
      ensures gen != old(gen) ==> forall i :: 0 <= i < |rows| ==> !rows[i].ready
      ensures wanted != old(classB) ==>
          && (wanted && |s.vlans| > 1 ==> vlan == s.vlans[1]) && (!wanted && |s.vlans| > 0 ==> vlan == s.vlans[0])
      ensures gen != old(gen) ==>
          && wanted != old(classB) && s.mayDeclare && !lite && s.changeWaits && !streaming
          && OnlyConnectedKept(old(rows), rows) && retired == old(retired)[old(gen) := now]
      ensures wanted != old(classB) && s.mayDeclare && !lite && s.changeWaits && !streaming ==>
          FirstRested(old(gen), gen, old(retired), now, s.forgets)
    {
      VlanTaken(wanted, s.vlans, vlan);
      hide Tracks, Rested, IdOf, Held, Connected, ClassFlip, NextOr, VlanOf, Renews, NoOther, KeepConnected,
           OnlyConnectedKept, FirstRested;
      if classB != wanted {
        FlipClass(idx, wanted, s, now, entity);
      } else {
        assert log + [] == log;
      }
    }

    // ---- Environment -------------------------------------------------------

    /** MSRP events: rows come, go and change, but not those that are connected. */
    method MsrpEvents(after: seq<Row>, streams: bool)
      requires Valid() && |after| <= maxRows
      requires forall l :: Connected(rows, l) ==> Connected(after, l)
      modifies this`rows, this`streaming
      ensures Valid() && rows == after && streaming == streams && log == old(log)
    {
      HeldAnswered(rows, after, Current(), log);
      rows, streaming := after, streams;
    }
  }
}
