/**
 The controllers registered for unsolicited notifications: an array of entries,
 compacted in place, with a check timer and three sequence counters each.
 */
module Registry {
  import opened Basics
  import opened RegistryLog

  const CHECK_SPAN: int := 30_000_000
  const MAX_MSG_LEN: nat := 600

  datatype Entry = Entry(key: Key, aem: nat, mvu: nat, vu: nat, limited: bool, expires: int,
                         checkDue: int, replyDue: int, checkId: int, checksSent: nat)

  datatype Status = Success | NoResources

  function SeqOf(e: Entry, kind: Kind): nat {
    match kind
    case Aem => e.aem
    case Mvu => e.mvu
    case Vu => e.vu
  }

  function Bumped(e: Entry, kind: Kind): Entry {
    match kind
    case Aem => e.(aem := (e.aem + 1) % ID_LIMIT)
    case Mvu => e.(mvu := (e.mvu + 1) % ID_LIMIT)
    case Vu => e.(vu := (e.vu + 1) % ID_LIMIT)
  }

  function Rearmed(e: Entry, now: int, delay: int): Entry {
    e.(checkDue := now + delay, replyDue := 0, checksSent := 0)
  }

  /** One more check sent; a retry keeps the sequence ID. */
  function Checked(e: Entry, nextId: int, now: int, wait: int): Entry {
    e.(checkId := if e.checksSent == 0 then nextId else e.checkId,
       checksSent := e.checksSent + 1,
       replyDue := now + wait)
  }

  function NextId(e: Entry, nextId: int): int {
    if e.checksSent == 0 then (nextId + 1) % ID_LIMIT else nextId
  }

  predicate IsAt(entries: seq<Entry>, i: int, k: Key) {
    0 <= i < |entries| && entries[i].key == k
  }

  function KeysOf(entries: seq<Entry>): seq<Key> {
    seq(|entries|, i requires 0 <= i < |entries| => entries[i].key)
  }

  /** The entry of a controller, or -1. */
  function IndexOf(entries: seq<Entry>, k: Key): (r: int)
    ensures -1 <= r < |entries| && (r >= 0 ==> entries[r].key == k)
    ensures forall i :: 0 <= i < |entries| && (r < 0 || i < r) ==> entries[i].key != k
  {
    if entries == [] then -1
    else
      var n := |entries| - 1;
      var r := IndexOf(entries[..n], k);
      if r >= 0 then r else if entries[n].key == k then n else -1
  }

  predicate WaitsFor(e: Entry, entity: int, id: int) {
    e.replyDue != 0 && e.checkId == id && e.key.entity == entity
  }

  /** The first entry of an entity that waits for a sequence ID, or -1. */
  function FirstWaiting(entries: seq<Entry>, entity: int, id: int): (r: int)
    ensures -1 <= r < |entries| && (r >= 0 ==> WaitsFor(entries[r], entity, id))
    ensures forall i :: 0 <= i < |entries| && (r < 0 || i < r) ==> !WaitsFor(entries[i], entity, id)
  {
    if entries == [] then -1
    else
      var n := |entries| - 1;
      var r := FirstWaiting(entries[..n], entity, id);
      if r >= 0 then r else if WaitsFor(entries[n], entity, id) then n else -1
  }

  /** Every controller not already being checked is due now. */
  function AllDue(entries: seq<Entry>, now: int): seq<Entry> {
    seq(|entries|, i requires 0 <= i < |entries| =>
      if entries[i].replyDue == 0 then entries[i].(checkDue := now) else entries[i])
  }

  /** A registration: 300 s to refresh it, a check due after the delay, none under way, the sequence IDs kept. */
  predicate IsEnteredAt(i: int, was: seq<Entry>, entries: seq<Entry>, k: Key, limited: bool, now: int, delay: int) {
    && IsAt(entries, i, k)
    && (if i < |was| then was[i].key == k && entries == was[i := entries[i]] else entries == was + [entries[i]])
    && (var e, aem, mvu, vu := entries[i], if i < |was| then was[i].aem else 0, if i < |was| then was[i].mvu else 0,
                               if i < |was| then was[i].vu else 0;
        && e.limited == limited && e.expires == now + 300_000_000
        && e.checkDue == now + delay && e.replyDue == 0 && e.checksSent == 0
        && e.aem == aem && e.mvu == mvu && e.vu == vu)
  }

  /** A reply taken: the first entry of the entity that waits for the ID waits no more, and is checked anew. */
  predicate IsTakenAt(i: int, was: seq<Entry>, entries: seq<Entry>, entity: int, id: int, now: int, delay: int) {
    && 0 <= i < |was|
    && was[i].replyDue != 0 && was[i].checkId == id && was[i].key.entity == entity
    && (forall j :: 0 <= j < i ==> !(was[j].replyDue != 0 && was[j].checkId == id && was[j].key.entity == entity))
    && entries == was[i := was[i].(checkDue := now + delay, replyDue := 0, checksSent := 0)]
  }

  // ---- What the entries have to do with the log --------------------------

  ghost predicate Matches(e: Entry, log: seq<Event>, wait: int) {
    var p := Pending(log, e.key);
    && e.checksSent == |p| <= CHECK_SENDS
    && (forall a :: 0 <= a < |p| ==> p[a].id == e.checkId)
    && e.replyDue == (if p == [] then 0 else p[|p| - 1].at + wait)
    && (p != [] ==> e.replyDue > 0)
    && (forall kind :: SeqOf(e, kind) == Notes(log, e.key, kind) % ID_LIMIT)
    && LastRegistered(log, e.key) == Some((e.limited, e.expires - TIME_LIMIT))
    && e.checkDue >= CheckFrom(log, e.key)
  }

  /** The entries are those the log has registered, in the order they were entered. */
  ghost predicate Tracks(entries: seq<Entry>, log: seq<Event>, wait: int) {
    && KeysOf(entries) == Roster(log)
    && (forall i :: 0 <= i < |entries| ==> Matches(entries[i], log, wait))
  }

  /** The counter gives out the IDs the log expects. */
  ghost predicate Counted(nextId: int, log: seq<Event>) {
    && 0 <= nextId < ID_LIMIT
    && (NextCheckId(log).Some? ==> NextCheckId(log).value == nextId)
  }

  lemma StillCounted(nextId: int, log: seq<Event>, ev: Event)
    requires Counted(nextId, log) && !ev.CheckSent?
    ensures Counted(nextId, log + [ev])
  {
    CountOneMore(log, ev);
  }

  predicate About(ev: Event, k: Key) {
    if ev.Reply? then ev.credited == Some(k) else ev.key == k
  }

  /** An event that leaves the roster as it is. */
  predicate StaysPut(ev: Event) {
    !(ev.Registered? && ev.isNew) && !ev.Deregistered? && !ev.Lapsed? && !ev.Departed?
  }

  lemma OtherMatches(e: Entry, log: seq<Event>, ev: Event, wait: int)
    requires Matches(e, log, wait) && !About(ev, e.key) && !ev.Refused?
    ensures Matches(e, log + [ev], wait)
  {
    OneMore(log, ev, e.key);
  }

  lemma KeysDiffer(entries: seq<Entry>, log: seq<Event>, i: nat, j: nat, wait: int)
    requires Tracks(entries, log, wait) && NoneTwice(Roster(log)) && i < |entries| && j < |entries| && i != j
    ensures entries[i].key != entries[j].key
  {
    assert KeysOf(entries)[i] != KeysOf(entries)[j];
  }

  /** An event about one entry's controller, which stays registered. */
  lemma UpdatedTracks(entries: seq<Entry>, log: seq<Event>, i: nat, e: Entry, ev: Event, wait: int)
    requires Tracks(entries, log, wait) && NoneTwice(Roster(log)) && i < |entries| && e.key == entries[i].key
    requires (forall k :: About(ev, k) ==> k == e.key) && StaysPut(ev) && !ev.Refused?
    requires Matches(e, log + [ev], wait)
    ensures Tracks(entries[i := e], log + [ev], wait)
  {
    hide Matches, Roster;
    var after := entries[i := e];
    RosterNext(log, ev);
    forall j: nat | j < |entries|
      ensures Matches(after[j], log + [ev], wait)
    {
      if j != i {
        KeysDiffer(entries, log, i, j, wait);
        OtherMatches(entries[j], log, ev, wait);
      }
    }
    assert KeysOf(after) == KeysOf(entries);
  }

  /** An event about a controller that is not registered and stays so. */
  lemma UnrelatedTracks(entries: seq<Entry>, log: seq<Event>, ev: Event, wait: int)
    requires Tracks(entries, log, wait)
    requires ev.Command? || ev.Reply?
    requires forall i :: 0 <= i < |entries| ==> !About(ev, entries[i].key)
    ensures Tracks(entries, log + [ev], wait)
  {
    hide Matches, Roster;
    RosterNext(log, ev);
    forall i | 0 <= i < |entries|
      ensures Matches(entries[i], log + [ev], wait)
    {
      OtherMatches(entries[i], log, ev, wait);
    }
  }

  lemma RefusedMatches(e: Entry, log: seq<Event>, k: Key, now: int, wait: int)
    requires Matches(e, log, wait)
    ensures Matches(if e.replyDue == 0 then e.(checkDue := now) else e, log + [Refused(k, now)], wait)
  {
    hide Pending, Notes, LastRegistered, CheckFrom;
    OneMore(log, Refused(k, now), e.key);
  }

  /** A refusal makes every controller due that is not waited for. */
  lemma RefusedTracks(entries: seq<Entry>, log: seq<Event>, k: Key, now: int, wait: int)
    requires Tracks(entries, log, wait)
    ensures Tracks(AllDue(entries, now), log + [Refused(k, now)], wait)
  {
    hide Matches, Roster;
    var after, ev := AllDue(entries, now), Refused(k, now);
    RosterNext(log, ev);
    forall i | 0 <= i < |entries|
      ensures Matches(after[i], log + [ev], wait)
    {
      RefusedMatches(entries[i], log, k, now, wait);
    }
    assert KeysOf(after) == KeysOf(entries);
  }

  lemma KeysWithout(entries: seq<Entry>, i: nat)
    requires i < |entries| && NoneTwice(KeysOf(entries))
    ensures KeysOf(entries[..i] + entries[i + 1..]) == Without(KeysOf(entries), entries[i].key)
  {
    WithoutAt(KeysOf(entries), i);
    assert KeysOf(entries[..i] + entries[i + 1..]) == KeysOf(entries)[..i] + KeysOf(entries)[i + 1..];
  }

  lemma RemovedTracks(entries: seq<Entry>, log: seq<Event>, i: nat, ev: Event, wait: int)
    requires Tracks(entries, log, wait) && NoneTwice(Roster(log)) && i < |entries|
    requires Removes(ev, entries[i].key)
    ensures Tracks(entries[..i] + entries[i + 1..], log + [ev], wait)
  {
    hide Matches, Roster, Without, NoneTwice;
    var after := entries[..i] + entries[i + 1..];
    RosterNext(log, ev);
    KeysWithout(entries, i);
    forall j: nat | j < |after|
      ensures Matches(after[j], log + [ev], wait)
    {
      var was := if j < i then j else j + 1;
      assert after[j] == entries[was];
      KeysDiffer(entries, log, i, was, wait);
      OtherMatches(after[j], log, ev, wait);
    }
  }

  lemma AddedTracks(entries: seq<Entry>, log: seq<Event>, e: Entry, ev: Event, wait: int)
    requires Tracks(entries, log, wait)
    requires forall i :: 0 <= i < |entries| ==> entries[i].key != e.key
    requires ev.Registered? && ev.isNew && ev.key == e.key && Matches(e, log + [ev], wait)
    ensures Tracks(entries + [e], log + [ev], wait)
  {
    hide Matches, Roster;
    var after := entries + [e];
    RosterNext(log, ev);
    forall j | 0 <= j < |after|
      ensures Matches(after[j], log + [ev], wait)
    {
      if j < |entries| {
        OtherMatches(entries[j], log, ev, wait);
      }
    }
    assert KeysOf(after) == KeysOf(entries) + [e.key];
  }

  lemma NotRegistered(entries: seq<Entry>, log: seq<Event>, k: Key, wait: int, lim: Limits)
    requires Tracks(entries, log, wait) && Lawful(log, lim)
    requires forall i :: 0 <= i < |entries| ==> entries[i].key != k
    ensures LastRegistered(log, k).None? && Pending(log, k) == []
  {
    LawfulRoster(log, lim);
    assert k !in KeysOf(entries);
  }

  /** Which entry a reply goes to is which key it is credited to. */
  lemma RepliesAgree(entries: seq<Entry>, log: seq<Event>, entity: int, id: int, wait: int)
    requires Tracks(entries, log, wait)
    ensures var i := FirstWaiting(entries, entity, id);
        FirstAwaiting(log, Roster(log), entity, id) == if i < 0 then None else Some(entries[i].key)
  {
    var i := FirstWaiting(entries, entity, id);
    var keys := KeysOf(entries);
    forall j | 0 <= j < |entries|
      ensures WaitsFor(entries[j], entity, id) <==> keys[j].entity == entity && Awaits(log, keys[j], id)
    {
      assert Matches(entries[j], log, wait);
    }
    FirstAwaitingAt(log, keys, if i < 0 then |entries| else i, entity, id);
  }

  // ---- Single steps, each with what it logs ------------------------------

  lemma NotifiedMatches(e: Entry, log: seq<Event>, kind: Kind, wait: int, lim: Limits)
    requires Matches(e, log, wait)
    ensures Permitted(log, Notified(e.key, kind, SeqOf(e, kind)), lim)
    ensures Matches(Bumped(e, kind), log + [Notified(e.key, kind, SeqOf(e, kind))], wait)
  {
    hide Pending, Notes, LastRegistered, CheckFrom;
    var ev := Notified(e.key, kind, SeqOf(e, kind));
    OneMore(log, ev, e.key);
    forall other
      ensures SeqOf(Bumped(e, kind), other) == Notes(log + [ev], e.key, other) % ID_LIMIT
    {
      NextInRing(Notes(log, e.key, other));
      assert SeqOf(Bumped(e, kind), other) ==
          if other == kind then (SeqOf(e, kind) + 1) % ID_LIMIT else SeqOf(e, other);
    }
  }

  /** A check may be sent when it is due, and again when its reply is overdue. */
  predicate MayCheck(e: Entry, now: int) {
    e.checksSent < CHECK_SENDS && now >= if e.replyDue != 0 then e.replyDue else e.checkDue
  }

  lemma CheckedMatches(e: Entry, log: seq<Event>, nextId: int, now: int, wait: int, lim: Limits)
    requires Matches(e, log, wait) && MayCheck(e, now) && now >= 0 && wait == lim.wait > 0
    requires Counted(nextId, log)
    ensures var c := Checked(e, nextId, now, wait);
        var ev := CheckSent(e.key, c.checkId, now);
        Permitted(log, ev, lim) && Matches(c, log + [ev], wait) && Counted(NextId(e, nextId), log + [ev])
  {
    CountOneMore(log, CheckSent(e.key, Checked(e, nextId, now, wait).checkId, now));
    OneMore(log, CheckSent(e.key, Checked(e, nextId, now, wait).checkId, now), e.key);
  }

  lemma RearmedMatches(e: Entry, log: seq<Event>, ev: Event, now: int, delay: int, wait: int)
    requires Matches(e, log, wait) && delay >= CHECK_MIN
    requires ev == Command(e.key, now) || (ev.Reply? && ev.credited == Some(e.key) && ev.at == now)
    ensures Matches(Rearmed(e, now, delay), log + [ev], wait)
  {
    OneMore(log, ev, e.key);
  }

  function Refreshed(e: Entry, limited: bool, now: int, delay: int): Entry {
    Rearmed(e.(limited := limited, expires := now + TIME_LIMIT), now, delay)
  }

  lemma RegisteredMatches(e: Entry, log: seq<Event>, limited: bool, now: int, delay: int, wait: int, lim: Limits)
    requires Matches(e, log, wait) && delay >= CHECK_MIN
    ensures var ev := Registered(e.key, limited, now, false);
        Permitted(log, ev, lim) && Matches(Refreshed(e, limited, now, delay), log + [ev], wait)
  {
    OneMore(log, Registered(e.key, limited, now, false), e.key);
  }

  function NewEntry(k: Key, limited: bool, now: int, delay: int): Entry {
    Entry(k, 0, 0, 0, limited, now + TIME_LIMIT, now + delay, 0, 0, 0)
  }

  lemma NewMatches(k: Key, log: seq<Event>, limited: bool, now: int, delay: int, wait: int)
    requires delay >= CHECK_MIN
    ensures Matches(NewEntry(k, limited, now, delay), log + [Registered(k, limited, now, true)], wait)
  {
    OneMore(log, Registered(k, limited, now, true), k);
  }

  // ---- One tick ----------------------------------------------------------

  datatype Verdict = Keep | Check | Lapse | Depart

  function VerdictOf(e: Entry, now: int, milan: bool): Verdict {
    if e.limited && now >= e.expires then Lapse
    else if !milan then Keep
    else if e.replyDue != 0 then
      if now < e.replyDue then Keep else if e.checksSent < CHECK_SENDS then Check else Depart
    else if now >= e.checkDue then Check
    else Keep
  }

  datatype Swept = Swept(entries: seq<Entry>, nextId: int, events: seq<Event>)

  /** One entry's turn. */
  function SweptOne(s: Swept, e: Entry, now: int, milan: bool, wait: int): Swept {
    match VerdictOf(e, now, milan)
    case Keep => s.(entries := s.entries + [e])
    case Check =>
      var c := Checked(e, s.nextId, now, wait);
      Swept(s.entries + [c], NextId(e, s.nextId), s.events + [CheckSent(e.key, c.checkId, now)])
    case Lapse => s.(events := s.events + [Notified(e.key, Aem, e.aem), Lapsed(e.key, now)])
    case Depart => s.(events := s.events + [Notified(e.key, Aem, e.aem), Departed(e.key, now)])
  }

  /** Every entry's turn, once each, in order. */
  function Sweep(entries: seq<Entry>, nextId: int, now: int, milan: bool, wait: int): Swept {
    if entries == [] then Swept([], nextId, [])
    else
      var n := |entries| - 1;
      SweptOne(Sweep(entries[..n], nextId, now, milan, wait), entries[n], now, milan, wait)
  }

  predicate Due(e: Entry, now: int, milan: bool) {
    VerdictOf(e, now, milan) != Keep
  }

  /** After a tick nobody is due: no entry was skipped as others were removed. */
  lemma {:induction false} SweepLeavesNobodyDue(entries: seq<Entry>, nextId: int, now: int, milan: bool, wait: int)
    requires wait > 0 && now >= 0
    ensures forall e :: e in Sweep(entries, nextId, now, milan, wait).entries ==> !Due(e, now, milan)
  {
    if entries != [] {
      SweepLeavesNobodyDue(entries[..|entries| - 1], nextId, now, milan, wait);
    }
  }

  /** The last notification of a controller, and right after it its removal. */
  predicate IsToldAt(events: seq<Event>, n: int, e: Entry, ev: Event) {
    0 <= n < |events| - 1 && events[n] == Notified(e.key, Aem, e.aem) && events[n + 1] == ev
  }

  ghost predicate ToldAndGone(events: seq<Event>, e: Entry, ev: Event) {
    exists n :: IsToldAt(events, n, e, ev)
  }

  /** What a tick does to an entry that stays: a check if one is due, a retry keeping its ID; else nothing. */
  predicate StaysOrChecked(e: Entry, after: Entry, now: int, milan: bool, wait: int, events: seq<Event>) {
    if milan && now >= (if e.replyDue != 0 then e.replyDue else e.checkDue) then
      && after == e.(checkId := after.checkId, checksSent := e.checksSent + 1, replyDue := now + wait)
      && (e.checksSent > 0 ==> after.checkId == e.checkId)
      && CheckSent(e.key, after.checkId, now) in events
    else after == e
  }

  /**
   A tick, by where each entry that stays stood: kept are, in their order,
   exactly those whose time limit is not up and, under Milan, whose second
   check is not overdue.
   */
  ghost predicate KeepsTheCurrent(kept: seq<nat>, was: seq<Entry>, entries: seq<Entry>, now: int, milan: bool,
                                  wait: int, events: seq<Event>)
  {
    && Picks(kept, 0, |was|) && |entries| == |kept|
    && (forall i :: 0 <= i < |was| ==>
          (i in kept <==>
             && !(was[i].limited && now >= was[i].expires)
             && !(milan && was[i].replyDue != 0 && now >= was[i].replyDue && was[i].checksSent >= CHECK_SENDS)))
    && (forall j :: 0 <= j < |kept| ==> StaysOrChecked(was[kept[j]], entries[j], now, milan, wait, events))
  }

  /** The others are told, and gone: lapsed if their time limit is up, else departed. */
  ghost predicate TellsTheOthers(was: seq<Entry>, now: int, milan: bool, events: seq<Event>) {
    forall i :: 0 <= i < |was| ==>
      && (was[i].limited && now >= was[i].expires ==> ToldAndGone(events, was[i], Lapsed(was[i].key, now)))
      && (!(was[i].limited && now >= was[i].expires)
          && milan && was[i].replyDue != 0 && now >= was[i].replyDue && was[i].checksSent >= CHECK_SENDS ==>
            ToldAndGone(events, was[i], Departed(was[i].key, now)))
  }

  lemma NothingSwept(now: int, milan: bool, wait: int)
    ensures KeepsTheCurrent([], [], [], now, milan, wait, []) && TellsTheOthers([], now, milan, [])
  {
  }

  lemma ToldStays(events: seq<Event>, more: seq<Event>, e: Entry, ev: Event)
    requires ToldAndGone(events, e, ev)
    ensures ToldAndGone(events + more, e, ev)
  {
    var n :| IsToldAt(events, n, e, ev);
    assert IsToldAt(events + more, n, e, ev);
  }

  predicate Leaves(e: Entry, now: int, milan: bool) {
    || (e.limited && now >= e.expires)
    || (milan && e.replyDue != 0 && now >= e.replyDue && e.checksSent >= CHECK_SENDS)
  }

  lemma OneTurn(s: Swept, e: Entry, now: int, milan: bool, wait: int)
    ensures var t := SweptOne(s, e, now, milan, wait);
        && s.events <= t.events
        && (Leaves(e, now, milan) ==> t.entries == s.entries && ToldAndGone(t.events, e,
              if e.limited && now >= e.expires then Lapsed(e.key, now) else Departed(e.key, now)))
        && (!Leaves(e, now, milan) ==>
              && t.entries != [] && t.entries == s.entries + [Last(t.entries)]
              && StaysOrChecked(e, Last(t.entries), now, milan, wait, t.events))
  {
    var t := SweptOne(s, e, now, milan, wait);
    if Leaves(e, now, milan) {
      assert IsToldAt(t.events, |s.events|, e, t.events[|s.events| + 1]);
    }
  }

  lemma StillSo(events: seq<Event>, more: seq<Event>, e: Entry, after: Entry, now: int, milan: bool, wait: int)
    requires events <= more && StaysOrChecked(e, after, now, milan, wait, events)
    ensures StaysOrChecked(e, after, now, milan, wait, more)
  {
    assert more == events + more[|events|..];
  }

  lemma StillTold(events: seq<Event>, more: seq<Event>, e: Entry, ev: Event)
    requires events <= more && ToldAndGone(events, e, ev)
    ensures ToldAndGone(more, e, ev)
  {
    assert more == events + more[|events|..];
    ToldStays(events, more[|events|..], e, ev);
  }

  /** One more turn at the back of the list: the entry goes, or stays at the end. */
  lemma CurrentOneMore(kept: seq<nat>, was: seq<Entry>, entries: seq<Entry>, events: seq<Event>, e: Entry, c: Entry,
                       more: seq<Event>, now: int, milan: bool, wait: int)
    requires KeepsTheCurrent(kept, was, entries, now, milan, wait, events) && events <= more
    requires !Leaves(e, now, milan) ==> StaysOrChecked(e, c, now, milan, wait, more)
    ensures Leaves(e, now, milan) ==> KeepsTheCurrent(kept, was + [e], entries, now, milan, wait, more)
    ensures !Leaves(e, now, milan) ==>
        KeepsTheCurrent(kept + [|was|], was + [e], entries + [c], now, milan, wait, more)
  {
    PickLast(kept, |was|);
    hide Picks, StaysOrChecked;
    forall j | 0 <= j < |kept|
      ensures kept[j] < |was| && StaysOrChecked(was[kept[j]], entries[j], now, milan, wait, more)
    {
      assert kept[j] in kept;
      StillSo(events, more, was[kept[j]], entries[j], now, milan, wait);
    }
  }

  lemma TellsOneMore(was: seq<Entry>, s: Swept, e: Entry, now: int, milan: bool, wait: int)
    requires TellsTheOthers(was, now, milan, s.events)
    ensures TellsTheOthers(was + [e], now, milan, SweptOne(s, e, now, milan, wait).events)
  {
    OneTurn(s, e, now, milan, wait);
    hide SweptOne, StaysOrChecked, ToldAndGone;
    var t := SweptOne(s, e, now, milan, wait);
    forall i, ev | 0 <= i < |was| && ToldAndGone(s.events, was[i], ev)
      ensures ToldAndGone(t.events, was[i], ev)
    {
      StillTold(s.events, t.events, was[i], ev);
    }
  }

  lemma SweepOneMore(entries: seq<Entry>, nextId: int, now: int, milan: bool, wait: int)
    requires entries != []
    ensures Sweep(entries, nextId, now, milan, wait)
         == SweptOne(Sweep(Front(entries), nextId, now, milan, wait), Last(entries), now, milan, wait)
  {
  }

  lemma SweepOfNobody(nextId: int, now: int, milan: bool, wait: int)
    ensures Sweep([], nextId, now, milan, wait) == Swept([], nextId, [])
  {
  }

  lemma {:induction false} SweepKeepsTheCurrent(entries: seq<Entry>, nextId: int, now: int, milan: bool, wait: int)
    returns (kept: seq<nat>)
    ensures var s := Sweep(entries, nextId, now, milan, wait);
        KeepsTheCurrent(kept, entries, s.entries, now, milan, wait, s.events) && TellsTheOthers(entries, now, milan, s.events)
    decreases |entries|
  {
    hide KeepsTheCurrent, TellsTheOthers, SweptOne, Sweep, ToldAndGone, StaysOrChecked, Leaves;
    if entries == [] {
      kept := [];
      NothingSwept(now, milan, wait);
      SweepOfNobody(nextId, now, milan, wait);
    } else {
      var front, e := Front(entries), Last(entries);
      kept := SweepKeepsTheCurrent(front, nextId, now, milan, wait);
      var before := Sweep(front, nextId, now, milan, wait);
      var after := SweptOne(before, e, now, milan, wait);
      SweepOneMore(entries, nextId, now, milan, wait);
      OneTurn(before, e, now, milan, wait);
      CurrentOneMore(kept, front, before.entries, before.events, e,
                     if after.entries == [] then e else Last(after.entries), after.events, now, milan, wait);
      TellsOneMore(front, before, e, now, milan, wait);
      kept := if Leaves(e, now, milan) then kept else kept + [|front|];
      assert front + [e] == entries;
    }
  }

  /** Nobody that stays is overdue, for its time limit, a reply or a check. */
  lemma CurrentIsNotDue(kept: seq<nat>, was: seq<Entry>, entries: seq<Entry>, now: int, milan: bool, wait: int,
                        events: seq<Event>)
    requires KeepsTheCurrent(kept, was, entries, now, milan, wait, events) && wait > 0 && now >= 0
    ensures forall e :: e in entries ==> !(e.limited && now >= e.expires)
    ensures milan ==> forall e :: e in entries ==> now < if e.replyDue != 0 then e.replyDue else e.checkDue
  {
    forall j | 0 <= j < |entries|
      ensures !(entries[j].limited && now >= entries[j].expires)
      ensures milan ==> now < if entries[j].replyDue != 0 then entries[j].replyDue else entries[j].checkDue
    {
      assert kept[j] in kept && StaysOrChecked(was[kept[j]], entries[j], now, milan, wait, events);
    }
  }

  ghost predicate OnlyCurrentKept(was: seq<Entry>, entries: seq<Entry>, now: int, milan: bool, wait: int,
                                  events: seq<Event>)
  {
    exists kept :: KeepsTheCurrent(kept, was, entries, now, milan, wait, events)
  }

  lemma SweepIsRight(entries: seq<Entry>, nextId: int, now: int, milan: bool, wait: int)
    requires wait > 0 && now >= 0
    ensures var s := Sweep(entries, nextId, now, milan, wait);
        && OnlyCurrentKept(entries, s.entries, now, milan, wait, s.events)
        && TellsTheOthers(entries, now, milan, s.events)
        && (forall ev :: ev in s.events ==> IsSaid(ev, entries, now, milan))
        && (forall e :: e in s.entries ==> !(e.limited && now >= e.expires))
        && (milan ==> forall e :: e in s.entries ==> now < if e.replyDue != 0 then e.replyDue else e.checkDue)
  {
    hide Sweep, TellsTheOthers, IsSaid, KeepsTheCurrent;
    var kept := SweepKeepsTheCurrent(entries, nextId, now, milan, wait);
    SweepSaysNothingElse(entries, nextId, now, milan, wait);
    var s := Sweep(entries, nextId, now, milan, wait);
    CurrentIsNotDue(kept, entries, s.entries, now, milan, wait, s.events);
  }

  /** A tick says nothing but this: who goes is told, and checks go to those who stay and are due. */
  predicate IsSaidBy(ev: Event, e: Entry, now: int, milan: bool) {
    match ev
    case Notified(key, kind, id) => key == e.key && kind == Aem && id == e.aem && Leaves(e, now, milan)
    case Lapsed(key, at) => key == e.key && at == now && e.limited && now >= e.expires
    case Departed(key, at) =>
      && key == e.key && at == now && milan && e.replyDue != 0 && now >= e.replyDue && e.checksSent >= CHECK_SENDS
    case CheckSent(key, id, at) =>
      && key == e.key && at == now && milan && !Leaves(e, now, milan)
      && now >= if e.replyDue != 0 then e.replyDue else e.checkDue
    case _ => false
  }

  ghost predicate IsSaid(ev: Event, was: seq<Entry>, now: int, milan: bool) {
    exists i :: 0 <= i < |was| && IsSaidBy(ev, was[i], now, milan)
  }

  lemma {:induction false} SweepSaysNothingElse(entries: seq<Entry>, nextId: int, now: int, milan: bool, wait: int)
    ensures forall ev :: ev in Sweep(entries, nextId, now, milan, wait).events ==> IsSaid(ev, entries, now, milan)
    decreases |entries|
  {
    if entries != [] {
      var front, e := Front(entries), Last(entries);
      SweepSaysNothingElse(front, nextId, now, milan, wait);
      SweepOneMore(entries, nextId, now, milan, wait);
      var before := Sweep(front, nextId, now, milan, wait);
      hide Sweep;
      forall ev | ev in SweptOne(before, e, now, milan, wait).events
        ensures IsSaid(ev, entries, now, milan)
      {
        if ev in before.events {
          var i :| 0 <= i < |front| && IsSaidBy(ev, front[i], now, milan);
          assert entries[i] == front[i];
        } else {
          assert IsSaidBy(ev, entries[|front|], now, milan);
        }
      }
    }
  }

  /** The keys a tick removes, in order. */
  function RemovedKeys(events: seq<Event>): seq<Key> {
    if events == [] then []
    else
      var n := |events| - 1;
      RemovedKeys(events[..n]) +
      if events[n].Lapsed? || events[n].Departed? then [events[n].key] else []
  }

  /** A tick keeps or removes each entry, and none twice. */
  lemma {:induction false} SweepLosesNobody(entries: seq<Entry>, nextId: int, now: int, milan: bool, wait: int)
    ensures var s := Sweep(entries, nextId, now, milan, wait);
        multiset(KeysOf(s.entries)) + multiset(RemovedKeys(s.events)) == multiset(KeysOf(entries))
  {
    if entries != [] {
      var n := |entries| - 1;
      SweepLosesNobody(entries[..n], nextId, now, milan, wait);
      hide SweptOne, VerdictOf, RemovedKeys;
      SweptOneMovesOne(Sweep(entries[..n], nextId, now, milan, wait), entries[n], now, milan, wait);
      assert KeysOf(entries) == KeysOf(entries[..n]) + [entries[n].key];
    }
  }

  lemma SweptOneMovesOne(s: Swept, e: Entry, now: int, milan: bool, wait: int)
    ensures var t := SweptOne(s, e, now, milan, wait);
        multiset(KeysOf(t.entries)) + multiset(RemovedKeys(t.events))
        == multiset(KeysOf(s.entries)) + multiset(RemovedKeys(s.events)) + multiset{e.key}
  {
    match VerdictOf(e, now, milan) {
      case Keep =>
        assert KeysOf(s.entries + [e]) == KeysOf(s.entries) + [e.key];
      case Check =>
        var c := Checked(e, s.nextId, now, wait);
        assert KeysOf(s.entries + [c]) == KeysOf(s.entries) + [e.key];
        RemovedKeysOne(s.events, CheckSent(e.key, c.checkId, now));
      case Lapse =>
        RemovedKeysTwo(s.events, Notified(e.key, Aem, e.aem), Lapsed(e.key, now));
      case Depart =>
        RemovedKeysTwo(s.events, Notified(e.key, Aem, e.aem), Departed(e.key, now));
    }
  }

  lemma RemovedKeysTwo(events: seq<Event>, told: Event, gone: Event)
    requires told.Notified? && (gone.Lapsed? || gone.Departed?)
    ensures RemovedKeys(events + [told, gone]) == RemovedKeys(events) + [gone.key]
  {
    RemovedKeysOne(events, told);
    RemovedKeysOne(events + [told], gone);
    assert events + [told] + [gone] == events + [told, gone];
  }

  lemma RemovedKeysOne(events: seq<Event>, ev: Event)
    ensures RemovedKeys(events + [ev]) == RemovedKeys(events) + if ev.Lapsed? || ev.Departed? then [ev.key] else []
  {
    assert (events + [ev])[..|events|] == events;
  }

  // ---- Notifications -----------------------------------------------------

  /** Another sequence ID of one kind, and nothing else. */
  predicate CountedUp(e: Entry, after: Entry, kind: Kind) {
    match kind
    case Aem => after == e.(aem := (e.aem + 1) % ID_LIMIT)
    case Mvu => after == e.(mvu := (e.mvu + 1) % ID_LIMIT)
    case Vu => after == e.(vu := (e.vu + 1) % ID_LIMIT)
  }

  /** The requester, who is not told: an entity, and perhaps one address of it. */
  datatype Requester = Nobody | Entity(entity: int) | One(key: Key)

  predicate Skips(r: Requester, k: Key) {
    match r
    case Nobody => false
    case Entity(entity) => k.entity == entity
    case One(key) => k == key
  }

  /** The first so many are told. */
  function Partly(entries: seq<Entry>, n: nat, kind: Kind, r: Requester): seq<Entry> {
    seq(|entries|, i requires 0 <= i < |entries| =>
      if i >= n || Skips(r, entries[i].key) then entries[i] else Bumped(entries[i], kind))
  }

  function Told(entries: seq<Entry>, kind: Kind, r: Requester): seq<Entry> {
    Partly(entries, |entries|, kind, r)
  }

  function Tellings(entries: seq<Entry>, kind: Kind, r: Requester): seq<Event> {
    if entries == [] then []
    else
      var n := |entries| - 1;
      var e := entries[n];
      Tellings(entries[..n], kind, r) + if Skips(r, e.key) then [] else [Notified(e.key, kind, SeqOf(e, kind))]
  }

  lemma TellingsNone(kind: Kind, r: Requester)
    ensures Tellings([], kind, r) == []
  {
  }

  lemma TellingsOne(entries: seq<Entry>, i: nat, kind: Kind, r: Requester)
    requires i < |entries|
    ensures var e := entries[i];
        Tellings(entries[..i + 1], kind, r) ==
          Tellings(entries[..i], kind, r) + if Skips(r, e.key) then [] else [Notified(e.key, kind, SeqOf(e, kind))]
  {
    assert entries[..i + 1][..i] == entries[..i];
  }

  /** A notification goes to everyone but its requester, who keeps its count; and nothing else goes out. */
  ghost predicate TellsAllBut(r: Requester, was: seq<Entry>, entries: seq<Entry>, kind: Kind, said: seq<Event>) {
    && |entries| == |was|
    && (forall i :: 0 <= i < |was| ==>
          if r == Entity(was[i].key.entity) || r == One(was[i].key) then entries[i] == was[i]
          else CountedUp(was[i], entries[i], kind) && Notified(was[i].key, kind, SeqOf(was[i], kind)) in said)
    && (forall ev :: ev in said ==>
          ev.Notified? && ev.kind == kind && r != Entity(ev.key.entity) && r != One(ev.key))
  }

  lemma AllTold(entries: seq<Entry>, kind: Kind, r: Requester)
    ensures Partly(entries, |entries|, kind, r) == Told(entries, kind, r)
  {
  }

  lemma {:induction false} TellingsTellAllBut(entries: seq<Entry>, kind: Kind, r: Requester)
    ensures TellsAllBut(r, entries, Told(entries, kind, r), kind, Tellings(entries, kind, r))
  {
    forall i | 0 <= i < |entries| && !(r == Entity(entries[i].key.entity) || r == One(entries[i].key))
      ensures Notified(entries[i].key, kind, SeqOf(entries[i], kind)) in Tellings(entries, kind, r)
    {
      ToldOne(entries, kind, r, i);
    }
    OnlyTheOthersTold(entries, kind, r);
  }

  lemma {:induction false} ToldOne(entries: seq<Entry>, kind: Kind, r: Requester, i: nat)
    requires i < |entries| && r != Entity(entries[i].key.entity) && r != One(entries[i].key)
    ensures Notified(entries[i].key, kind, SeqOf(entries[i], kind)) in Tellings(entries, kind, r)
  {
    if i < |entries| - 1 {
      ToldOne(entries[..|entries| - 1], kind, r, i);
    }
  }

  lemma {:induction false} OnlyTheOthersTold(entries: seq<Entry>, kind: Kind, r: Requester)
    ensures forall ev :: ev in Tellings(entries, kind, r) ==>
        ev.Notified? && ev.kind == kind && r != Entity(ev.key.entity) && r != One(ev.key)
  {
    if entries != [] {
      OnlyTheOthersTold(entries[..|entries| - 1], kind, r);
    }
  }

  // ---- The list ----------------------------------------------------------

  class List {
    const capacity: nat
    const wait: int
    var entries: seq<Entry>
    var aecpSeqId: int
    ghost var log: seq<Event>

    ghost function Lim(): Limits {
      Limits(wait, capacity)
    }

    ghost predicate Valid()
      reads this
    {
      && wait > 0
      && Counted(aecpSeqId, log)
      && Tracks(entries, log, wait)
      && Lawful(log, Lim())
    }

    lemma Fits()
      requires Valid()
      ensures |entries| <= capacity && IsRoster(log, Lim())
    {
      LawfulRoster(log, Lim());
      assert |KeysOf(entries)| == |entries|;
    }

    constructor (capacity: nat, wifi: bool, firstId: int)
      requires 0 <= firstId < ID_LIMIT
      ensures Valid() && this.capacity == capacity && entries == [] && log == [] && aecpSeqId == firstId
      ensures wait == if wifi then 1_000_000 else 250_000
    {
      this.capacity := capacity;
      wait := if wifi then 1_000_000 else 250_000;
      entries, aecpSeqId, log := [], firstId, [];
    }

    lemma NobodyTwice()
      requires Valid()
      ensures forall i, j :: 0 <= i < |entries| && 0 <= j < |entries| && entries[i].key == entries[j].key ==> i == j
    {
      LawfulRoster(log, Lim());
      forall i: nat, j: nat | i < |entries| && j < |entries| && i != j
        ensures entries[i].key != entries[j].key
      {
        KeysDiffer(entries, log, i, j, wait);
      }
    }

    method Find(k: Key) returns (index: int)
      requires Valid()
      ensures index == IndexOf(entries, k)
      ensures index < 0 <==> LastRegistered(log, k).None?
    {
      Fits();
      var i := 0;
      while i < |entries|
        invariant 0 <= i <= |entries|
        invariant forall j :: 0 <= j < i ==> entries[j].key != k
      {
        if entries[i].key == k {
          assert Matches(entries[i], log, wait);
          return i;
        }
        i := i + 1;
      }
      NotRegistered(entries, log, k, wait, Lim());
      index := -1;
    }

    /** Logs an event after which one entry has changed. */
    ghost method Note(i: nat, e: Entry, ev: Event)
      requires wait > 0 && i < |entries| && e.key == entries[i].key
      requires Tracks(entries, log, wait) && Lawful(log, Lim())
      requires (forall k :: About(ev, k) ==> k == e.key) && StaysPut(ev) && !ev.Refused?
      requires Permitted(log, ev, Lim()) && Matches(e, log + [ev], wait)
      modifies this`log
      ensures log == old(log) + [ev]
      ensures Tracks(entries[i := e], log, wait) && Lawful(log, Lim())
    {
      LawfulRoster(log, Lim());
      hide Matches, Permitted, Lawful;
      UpdatedTracks(entries, log, i, e, ev, wait);
      LawfulOneMore(log, ev, Lim());
      log := log + [ev];
    }

    /** One notification to one controller, counted whether or not it leaves. */
    method SendTo(i: nat, msgLen: nat, kind: Kind)
      requires Valid() && i < |entries|
      modifies this`entries, this`log
      ensures Valid()
      ensures entries == if msgLen > MAX_MSG_LEN then old(entries)
                         else old(entries)[i := Bumped(old(entries[i]), kind)]
      ensures log == if msgLen > MAX_MSG_LEN then old(log)
                     else old(log) + [Notified(old(entries[i].key), kind, SeqOf(old(entries[i]), kind))]
    {
      if msgLen > MAX_MSG_LEN {
        return;
      }
      var e := entries[i];
      NotifiedMatches(e, log, kind, wait, Lim());
      StillCounted(aecpSeqId, log, Notified(e.key, kind, SeqOf(e, kind)));
      Note(i, Bumped(e, kind), Notified(e.key, kind, SeqOf(e, kind)));
      entries := entries[i := Bumped(e, kind)];
    }

    method TellUnlessRequester(i: nat, msgLen: nat, kind: Kind, r: Requester, ghost before: seq<Entry>)
      requires Valid() && i < |entries| == |before|
      requires entries == if msgLen > MAX_MSG_LEN then before else Partly(before, i, kind, r)
      modifies this`entries, this`log
      ensures Valid()
      ensures entries == if msgLen > MAX_MSG_LEN then before else Partly(before, i + 1, kind, r)
      ensures log == if msgLen > MAX_MSG_LEN || Skips(r, before[i].key) then old(log)
                     else old(log) + [Notified(before[i].key, kind, SeqOf(before[i], kind))]
    {
      hide Tracks, Lawful, Bumped, SeqOf, Skips, Counted;
      if !Skips(r, entries[i].key) {
        SendTo(i, msgLen, kind);
      }
      assert msgLen <= MAX_MSG_LEN ==> entries == Partly(before, i + 1, kind, r);
    }

    method Notify(msgLen: nat, kind: Kind, r: Requester)
      requires Valid()
      modifies this`entries, this`log
      ensures Valid()
      ensures entries == if msgLen > MAX_MSG_LEN then old(entries) else Told(old(entries), kind, r)
      ensures log == if msgLen > MAX_MSG_LEN then old(log) else old(log) + Tellings(old(entries), kind, r)
      ensures msgLen <= 600 ==> old(log) <= log && TellsAllBut(r, old(entries), entries, kind, log[|old(log)|..])
      ensures msgLen > 600 ==> entries == old(entries) && log == old(log)
    {
      TellingsTellAllBut(entries, kind, r);
      hide Tracks, Lawful, Tellings, Bumped, SeqOf, Skips, IsAt, Counted, TellsAllBut, Told;
      ghost var before, start := entries, log;
      var i := 0;
      assert Tellings(before[..0], kind, r) == [] by {
        TellingsNone(kind, r);
      }
      assert before == Partly(before, 0, kind, r);
      while i < |entries|
        invariant 0 <= i <= |entries| == |before|
        invariant Valid()
        invariant entries == if msgLen > MAX_MSG_LEN then before else Partly(before, i, kind, r)
        invariant log == if msgLen > MAX_MSG_LEN then start else start + Tellings(before[..i], kind, r)
      {
        TellingsOne(before, i, kind, r);
        TellUnlessRequester(i, msgLen, kind, r, before);
        i := i + 1;
      }
      assert before[..i] == before;
      AllTold(before, kind, r);
    }

    method Register(k: Key, limited: bool, now: int, delay: int) returns (status: Status)
      requires Valid() && now >= 0 && CHECK_MIN <= delay < CHECK_MIN + CHECK_SPAN
      modifies this`entries, this`log
      ensures Valid()
      ensures status == if IndexOf(old(entries), k) >= 0 || |old(entries)| < capacity then Success else NoResources
      ensures var was, i := old(entries), IndexOf(old(entries), k);
          entries == if status == NoResources then AllDue(was, now)
                     else if i >= 0 then was[i := Refreshed(was[i], limited, now, delay)]
                     else was + [NewEntry(k, limited, now, delay)]
      ensures log == old(log) + [if status == NoResources then Refused(k, now)
                                 else Registered(k, limited, now, IndexOf(old(entries), k) < 0)]
      // In full: 300 s to refresh, a check due after the delay, no check under way, the sequence IDs kept.
      ensures status == NoResources <==> |old(entries)| >= capacity && forall e :: e in old(entries) ==> e.key != k
      ensures status == NoResources ==> |entries| == |old(entries)| && forall i :: 0 <= i < |entries| ==>
          entries[i] == if old(entries[i]).replyDue == 0 then old(entries[i]).(checkDue := now) else old(entries[i])
      ensures status == Success ==> exists i :: IsEnteredAt(i, old(entries), entries, k, limited, now, delay)
    {
      var index := Find(k);
      if index < 0 {
        if |entries| >= capacity {
          Refuse(k, now);
          return NoResources;
        }
        Enter(k, limited, now, delay);
        assert IsEnteredAt(|entries| - 1, old(entries), entries, k, limited, now, delay);
      } else {
        var e := entries[index];
        assert Matches(e, log, wait);
        RegisteredMatches(e, log, limited, now, delay, wait, Lim());
        hide Matches, Tracks, Lawful, Permitted;
        StillCounted(aecpSeqId, log, Registered(k, limited, now, false));
        Note(index, Refreshed(e, limited, now, delay), Registered(k, limited, now, false));
        entries := entries[index := Refreshed(e, limited, now, delay)];
        assert IsEnteredAt(index, old(entries), entries, k, limited, now, delay);
      }
      status := Success;
    }

    /** A new entry, behind all others. */
    method Enter(k: Key, limited: bool, now: int, delay: int)
      requires Valid() && delay >= CHECK_MIN && |entries| < capacity && IndexOf(entries, k) < 0
      requires LastRegistered(log, k).None?
      modifies this`entries, this`log
      ensures Valid()
      ensures entries == old(entries) + [NewEntry(k, limited, now, delay)]
      ensures log == old(log) + [Registered(k, limited, now, true)]
    {
      ghost var ev := Registered(k, limited, now, true);
      Fits();
      assert |Roster(log)| == |KeysOf(entries)| < capacity;
      assert Permitted(log, ev, Lim());
      NewMatches(k, log, limited, now, delay, wait);
      hide Matches, Permitted, Lawful;
      AddedTracks(entries, log, NewEntry(k, limited, now, delay), ev, wait);
      LawfulOneMore(log, ev, Lim());
      StillCounted(aecpSeqId, log, ev);
      hide Tracks;
      entries := entries + [NewEntry(k, limited, now, delay)];
      log := log + [ev];
    }

    /** The list is full: whoever is not being checked is checked now. */
    method Refuse(k: Key, now: int)
      requires Valid() && |entries| >= capacity && LastRegistered(log, k).None?
      modifies this`entries, this`log
      ensures Valid() && entries == AllDue(old(entries), now) && log == old(log) + [Refused(k, now)]
    {
      ghost var before, ev := entries, Refused(k, now);
      assert |Roster(log)| == |KeysOf(entries)| >= capacity;
      assert Permitted(log, ev, Lim());
      hide Matches, Permitted, Lawful;
      RefusedTracks(entries, log, k, now, wait);
      LawfulOneMore(log, ev, Lim());
      StillCounted(aecpSeqId, log, ev);
      hide Tracks;
      CheckAllNow(now);
      log := log + [ev];
    }

    method CheckAllNow(now: int)
      modifies this`entries
      ensures entries == AllDue(old(entries), now)
    {
      ghost var before := entries;
      var i := 0;
      while i < |entries|
        invariant 0 <= i <= |entries| == |before|
        invariant forall j :: 0 <= j < |before| ==>
            entries[j] == if j < i && before[j].replyDue == 0 then before[j].(checkDue := now) else before[j]
      {
        if entries[i].replyDue == 0 {
          entries := entries[i := entries[i].(checkDue := now)];
        }
        i := i + 1;
      }
      assert entries == AllDue(before, now);
    }

    method Remove(i: nat, ghost ev: Event)
      requires Valid() && i < |entries| && Removes(ev, entries[i].key) && Permitted(log, ev, Lim())
      modifies this`entries, this`log
      ensures Valid()
      ensures entries == old(entries)[..i] + old(entries)[i + 1..]
      ensures log == old(log) + [ev]
    {
      Fits();
      hide Matches, Permitted, Lawful;
      RemovedTracks(entries, log, i, ev, wait);
      StillCounted(aecpSeqId, log, ev);
      LawfulOneMore(log, ev, Lim());
      entries := entries[..i] + entries[i + 1..];
      log := log + [ev];
    }

    method Deregister(k: Key)
      requires Valid()
      modifies this`entries, this`log
      ensures Valid()
      ensures LastRegistered(log, k).None?
      ensures var was, i := old(entries), IndexOf(old(entries), k);
          && entries == (if i < 0 then was else was[..i] + was[i + 1..])
          && log == if i < 0 then old(log) else old(log) + [Deregistered(k)]
    {
      var index := Find(k);
      if index >= 0 {
        OneMore(log, Deregistered(k), k);
        hide Tracks, Lawful;
        Remove(index, Deregistered(k));
      }
    }

    /** Any valid command restarts its controller's check timer. */
    method Heard(k: Key, now: int, delay: int)
      requires Valid() && CHECK_MIN <= delay < CHECK_MIN + CHECK_SPAN
      modifies this`entries, this`log
      ensures Valid() && log == old(log) + [Command(k, now)]
      ensures var was, i := old(entries), IndexOf(old(entries), k);
          entries == if i < 0 then was else was[i := Rearmed(was[i], now, delay)]
      ensures |entries| == |old(entries)| && forall i :: 0 <= i < |entries| ==>
          entries[i] == if old(entries)[i].key == k then old(entries)[i].(checkDue := now + delay, replyDue := 0, checksSent := 0)
                        else old(entries)[i]
    {
      StillCounted(aecpSeqId, log, Command(k, now));
      NobodyTwice();
      var index := Find(k);
      if index >= 0 {
        var e := entries[index];
        assert Matches(e, log, wait);
        RearmedMatches(e, log, Command(k, now), now, delay, wait);
        hide Matches, Tracks, Lawful;
        Note(index, Rearmed(e, now, delay), Command(k, now));
        entries := entries[index := Rearmed(e, now, delay)];
      } else {
        hide Matches;
        UnrelatedTracks(entries, log, Command(k, now), wait);
        LawfulOneMore(log, Command(k, now), Lim());
        log := log + [Command(k, now)];
      }
    }

    /** A reply goes to the first entry that waits for it. */
    method Replied(entity: int, id: int, now: int, delay: int) returns (ghost credited: Option<Key>)
      requires Valid() && CHECK_MIN <= delay < CHECK_MIN + CHECK_SPAN
      modifies this`entries, this`log
      ensures Valid() && log == old(log) + [Reply(entity, id, credited, now)]
      ensures var was, i := old(entries), FirstWaiting(old(entries), entity, id);
          && credited == (if i < 0 then None else Some(was[i].key))
          && entries == if i < 0 then was else was[i := Rearmed(was[i], now, delay)]
      ensures credited.Some? ==>
          exists i :: IsTakenAt(i, old(entries), entries, entity, id, now, delay) && credited.value == old(entries)[i].key
      ensures credited.None? ==> entries == old(entries) && forall e :: e in entries ==>
          !(e.replyDue != 0 && e.checkId == id && e.key.entity == entity)
    {
      RepliesAgree(entries, log, entity, id, wait);
      var i := FindWaiting(entity, id);
      credited := if i < 0 then None else Some(entries[i].key);
      ghost var ev := Reply(entity, id, credited, now);
      StillCounted(aecpSeqId, log, ev);
      assert Permitted(log, ev, Lim());
      if i >= 0 {
        var e := entries[i];
        assert Matches(e, log, wait);
        RearmedMatches(e, log, ev, now, delay, wait);
        hide Matches, Tracks, Lawful, Permitted;
        Note(i, Rearmed(e, now, delay), ev);
        entries := entries[i := Rearmed(e, now, delay)];
        assert IsTakenAt(i, old(entries), entries, entity, id, now, delay);
      } else {
        hide Matches, Permitted;
        UnrelatedTracks(entries, log, ev, wait);
        LawfulOneMore(log, ev, Lim());
        log := log + [ev];
      }
    }

    method FindWaiting(entity: int, id: int) returns (index: int)
      ensures index == FirstWaiting(entries, entity, id)
    {
      var i := 0;
      while i < |entries|
        invariant 0 <= i <= |entries|
        invariant forall j :: 0 <= j < i ==> !WaitsFor(entries[j], entity, id)
      {
        var e := entries[i];
        if e.replyDue != 0 && e.checkId == id && e.key.entity == entity {
          return i;
        }
        i := i + 1;
      }
      index := -1;
    }

    method SendCheck(i: nat, now: int)
      requires Valid() && i < |entries| && now >= 0 && MayCheck(entries[i], now)
      modifies this`entries, this`log, this`aecpSeqId
      ensures Valid()
      ensures aecpSeqId == NextId(old(entries[i]), old(aecpSeqId))
      ensures entries == old(entries)[i := Checked(old(entries[i]), old(aecpSeqId), now, wait)]
      ensures log == old(log) + [CheckSent(entries[i].key, entries[i].checkId, now)]
      ensures var e := old(entries[i]);
          && aecpSeqId == (if e.checksSent == 0 then (old(aecpSeqId) + 1) % 65_536 else old(aecpSeqId))
          && entries[i].checkId == (if e.checksSent == 0 then old(aecpSeqId) else e.checkId)
          && entries[i].checksSent == e.checksSent + 1 && entries[i].replyDue == now + wait
    {
      var e := entries[i];
      assert Matches(e, log, wait);
      CheckedMatches(e, log, aecpSeqId, now, wait, Lim());
      hide Matches, Tracks, Lawful, Permitted, Counted;
      var c := e;
      if e.checksSent == 0 {
        c := c.(checkId := aecpSeqId);
        aecpSeqId := (aecpSeqId + 1) % ID_LIMIT;
      }
      c := c.(checksSent := c.checksSent + 1, replyDue := now + wait);
      Note(i, c, CheckSent(e.key, c.checkId, now));
      entries := entries[i := c];
    }

    /** Lapsed and departed controllers are told and removed, others checked. */
    method Tick(now: int, milan: bool)
      requires Valid() && now >= 0
      modifies this`entries, this`log, this`aecpSeqId
      ensures Valid()
      ensures Swept(entries, aecpSeqId, log) ==
          var s := Sweep(old(entries), old(aecpSeqId), now, milan, wait);
          s.(events := old(log) + s.events)
      // In full: who stays and is checked, who is told and gone, and nothing else is said.
      ensures old(log) <= log
      ensures var said := log[|old(log)|..];
          && OnlyCurrentKept(old(entries), entries, now, milan, wait, said)
          && TellsTheOthers(old(entries), now, milan, said)
          && forall ev :: ev in said ==> IsSaid(ev, old(entries), now, milan)
      ensures forall e :: e in entries ==> !(e.limited && now >= e.expires)
      ensures milan ==> forall e :: e in entries ==> now < if e.replyDue != 0 then e.replyDue else e.checkDue
    {
      hide Tracks, Lawful, SweptOne, OnlyCurrentKept, TellsTheOthers, IsSaid;
      SweepIsRight(entries, aecpSeqId, now, milan, wait);
      ghost var before, start, first := entries, log, aecpSeqId;
      ghost var done := 0;
      var i := 0;
      assert before[0..] == before;
      while i < |entries|
        invariant Valid()
        invariant 0 <= done <= |before| && 0 <= i <= |entries|
        invariant var s := Sweep(before[..done], first, now, milan, wait);
            && entries[..i] == s.entries && entries[i..] == before[done..]
            && aecpSeqId == s.nextId && log == start + s.events
        decreases |before| - done
      {
        ghost var s := Sweep(before[..done], first, now, milan, wait);
        var e := entries[i];
        assert e == before[done] && before[..done + 1][..done] == before[..done];
        ghost var rest := before[done + 1..];
        assert before[done..][1..] == rest && entries[i + 1..] == rest;
        SweptOneFrom(s, start, e, now, milan, wait);
        var gone := Turn(i, now, milan);
        done := done + 1;
        if !gone {
          i := i + 1;
        }
      }
      assert before[..done] == before;
    }

    /** One entry's turn, in place. */
    method Turn(i: nat, now: int, milan: bool) returns (gone: bool)
      requires Valid() && now >= 0 && i < |entries|
      modifies this`entries, this`log, this`aecpSeqId
      ensures Valid()
      ensures var e := old(entries[i]);
          var s := SweptOne(Swept(old(entries)[..i], old(aecpSeqId), old(log)), e, now, milan, wait);
          && entries == s.entries + old(entries)[i + 1..]
          && |s.entries| == (if gone then i else i + 1)
          && aecpSeqId == s.nextId && log == s.events
    {
      hide Lawful, Permitted, Settles, Bumped, About;
      var e := entries[i];
      assert Matches(e, log, wait);
      hide Tracks, Matches;
      var lapsed := e.limited && now >= e.expires;
      var departed := false;
      if !lapsed && milan {
        if e.replyDue != 0 {
          if now >= e.replyDue {
            if e.checksSent < CHECK_SENDS {
              SendCheck(i, now);
            } else {
              departed := true;
            }
          }
        } else if now >= e.checkDue {
          SendCheck(i, now);
        }
      }
      gone := lapsed || departed;
      if gone {
        TellAndRemove(i, now, milan, lapsed);
      } else {
        assert entries == old(entries)[..i] + [entries[i]] + old(entries)[i + 1..];
      }
    }

    /** The last notification a controller gets, and its removal. */
    method TellAndRemove(i: nat, now: int, milan: bool, lapsed: bool)
      requires Valid() && i < |entries|
      requires VerdictOf(entries[i], now, milan) == if lapsed then Lapse else Depart
      modifies this`entries, this`log
      ensures Valid()
      ensures entries == old(entries)[..i] + old(entries)[i + 1..]
      ensures var e := old(entries[i]);
          log == old(log) + [Notified(e.key, Aem, e.aem), if lapsed then Lapsed(e.key, now) else Departed(e.key, now)]
    {
      var e := entries[i];
      assert Matches(e, log, wait);
      ghost var ev := if lapsed then Lapsed(e.key, now) else Departed(e.key, now);
      MayBeRemoved(e, log, now, milan, ev, wait, Lim());
      assert Removes(ev, e.key);
      hide Tracks, Matches, Lawful, Permitted, Counted, VerdictOf, Removes;
      Expel(i, ev);
    }

    method Expel(i: nat, ghost ev: Event)
      requires Valid() && i < |entries| && Removes(ev, entries[i].key)
      requires Permitted(log + [Notified(entries[i].key, Aem, entries[i].aem)], ev, Lim())
      modifies this`entries, this`log
      ensures Valid()
      ensures entries == old(entries)[..i] + old(entries)[i + 1..]
      ensures log == old(log) + [Notified(old(entries)[i].key, Aem, old(entries)[i].aem), ev]
    {
      hide Tracks, Lawful, Permitted, Counted, Removes;
      SendTo(i, 0, Aem);
      Remove(i, ev);
    }
  }

  lemma MayBeRemoved(e: Entry, log: seq<Event>, now: int, milan: bool, ev: Event, wait: int, lim: Limits)
    requires Matches(e, log, wait) && wait == lim.wait
    requires (VerdictOf(e, now, milan) == Lapse && ev == Lapsed(e.key, now))
      || (VerdictOf(e, now, milan) == Depart && ev == Departed(e.key, now))
    ensures Permitted(log + [Notified(e.key, Aem, e.aem)], ev, lim)
  {
    hide Pending, Notes, LastRegistered;
    OneMore(log, Notified(e.key, Aem, e.aem), e.key);
  }

  /** A turn adds to what was logged before, whatever that was. */
  lemma SweptOneFrom(s: Swept, start: seq<Event>, e: Entry, now: int, milan: bool, wait: int)
    ensures var t := SweptOne(s, e, now, milan, wait);
        SweptOne(s.(events := start + s.events), e, now, milan, wait) == t.(events := start + t.events)
  {
    var t := SweptOne(s, e, now, milan, wait);
    var u := SweptOne(s.(events := start + s.events), e, now, milan, wait);
    assert u.events == start + t.events;
  }
}
