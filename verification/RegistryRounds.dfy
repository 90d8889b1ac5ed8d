/**
 A run of the registry in which the 16-bit counter of sequence IDs comes round
 while one address of an entity waits: the list is full, and newcomers are
 refused while an earlier address answers every check by a command.
 */
module RegistryRounds {
  import opened Basics
  import opened RegistryLog
  import opened Registry
  import opened RegistrySweeps

  const EARLIER: Key := Key(1, 1)
  const LATER: Key := Key(1, 2)
  const NEWCOMER: Key := Key(3, 3)

  // ---- The run -----------------------------------------------------------

  /** So many fillers in a given state, then the two addresses. */
  ghost predicate Cast(entries: seq<Entry>, n: nat, sent: nat, due: int) {
    && |entries| == n + 2
    && (forall i :: 0 <= i < n ==> IsFiller(entries[i], sent, due))
    && entries[n].key == EARLIER && !entries[n].limited
    && entries[n + 1].key == LATER && !entries[n + 1].limited
  }

  predicate IsFiller(e: Entry, sent: nat, due: int) {
    e.key.entity == 2 && !e.limited && e.checksSent == sent && e.replyDue == due
  }

  /** Nobody is waited for; all but the earlier address are due. */
  ghost predicate AllSet(entries: seq<Entry>, n: nat) {
    && Cast(entries, n, 0, 0)
    && (forall i :: 0 <= i < n + 2 && i != n ==> entries[i].checkDue == 0)
    && entries[n].replyDue == entries[n].checksSent == 0 && entries[n].checkDue == CHECK_MIN
    && entries[n + 1].replyDue == entries[n + 1].checksSent == 0
  }

  ghost predicate NoChecks(log: seq<Event>) {
    forall m :: 0 <= m < |log| ==> !log[m].CheckSent?
  }

  /** Somebody new is registered, at the start of time. */
  method Join(list: List, k: Key)
    requires list.Valid() && |list.entries| < list.capacity && NoChecks(list.log)
    requires forall i :: 0 <= i < |list.entries| ==> list.entries[i].key != k
    modifies list
    ensures list.Valid() && NoChecks(list.log) && list.aecpSeqId == old(list.aecpSeqId)
    ensures list.entries == old(list.entries) + [NewEntry(k, false, 0, CHECK_MIN)]
  {
    hide Tracks, Lawful, Counted, Refreshed, AllDue;
    var status := list.Register(k, false, 0, CHECK_MIN);
  }

  /** The list is full: a newcomer is refused, and the earlier address is heard of. */
  method RefuseAndHear(list: List, n: nat)
    requires list.Valid() && NoChecks(list.log) && list.capacity == |list.entries| == n + 2
    requires forall i :: 0 <= i < n ==> list.entries[i] == NewEntry(Key(2, i), false, 0, CHECK_MIN)
    requires list.entries[n] == NewEntry(EARLIER, false, 0, CHECK_MIN)
    requires list.entries[n + 1] == NewEntry(LATER, false, 0, CHECK_MIN)
    modifies list
    ensures list.Valid() && NoChecks(list.log) && list.aecpSeqId == old(list.aecpSeqId) && AllSet(list.entries, n)
  {
    hide Tracks, Lawful, Counted;
    var status := list.Register(NEWCOMER, false, 0, CHECK_MIN);
    assert IndexOf(list.entries, EARLIER) == n;
    list.Heard(EARLIER, 0, CHECK_MIN);
  }

  method SetUp(n: nat, wifi: bool) returns (list: List)
    ensures fresh(list) && list.Valid() && list.capacity == n + 2
    ensures list.wait == if wifi then 1_000_000 else 250_000
    ensures AllSet(list.entries, n) && list.aecpSeqId == 0 && NoChecks(list.log)
  {
    list := new List(n + 2, wifi, 0);
    hide Tracks, Lawful, Counted, AllSet;
    var i := 0;
    while i < n
      invariant 0 <= i <= n && fresh(list) && list.Valid() && list.aecpSeqId == 0
      invariant |list.entries| == i && NoChecks(list.log)
      invariant forall j :: 0 <= j < i ==> list.entries[j] == NewEntry(Key(2, j), false, 0, CHECK_MIN)
    {
      Join(list, Key(2, i));
      i := i + 1;
    }
    Join(list, EARLIER);
    Join(list, LATER);
    RefuseAndHear(list, n);
  }

  /** What a waiting cast looks like. */
  ghost predicate Waiting(entries: seq<Entry>, n: nat, id: int, wait: int) {
    && Cast(entries, n, 1, wait)
    && entries[n].replyDue == entries[n].checksSent == 0 && entries[n].checkDue >= 0
    && entries[n + 1].replyDue == wait && entries[n + 1].checksSent == 1 && entries[n + 1].checkId == id
  }

  /** The first sweep checks every filler and the later address. */
  lemma FirstSweep(entries: seq<Entry>, n: nat, wait: int)
    requires AllSet(entries, n)
    ensures var s := Sweep(entries, 0, 0, true, wait);
        && Waiting(s.entries, n, n % ID_LIMIT, wait) && s.nextId == (n + 1) % ID_LIMIT
        && s.entries[n] == entries[n]
        && |s.events| == n + 1 && s.events[n] == CheckSent(LATER, n % ID_LIMIT, 0)
        && forall i :: 0 <= i < n ==> IsCheckOf(s.events[i], entries[i].key)
  {
    var s := Sweep(entries[..n], 0, 0, true, wait);
    SweepTwoMore(entries, n, 0, 0, wait);
    SweepChecks(entries[..n], 0, 0, wait, 0);
    NextInRing(n);
    assert VerdictOf(entries[n], 0, true) == Keep && VerdictOf(entries[n + 1], 0, true) == Check;
    hide Sweep, VerdictOf;
    forall i | 0 <= i < n
      ensures IsFiller(s.entries[i], 1, wait) && IsCheckOf(s.events[i], entries[i].key)
    {
      assert IsChecked(s.entries[i], entries[..n][i], wait) && IsCheckOf(s.events[i], entries[..n][i].key);
    }
  }

  /** Before the later address is checked, so many checks are begun, and none of its entity's. */
  ghost predicate Lead(log: seq<Event>, m: nat, n: nat) {
    && m <= |log| && Begun(log[..m]) == n
    && forall i :: 0 <= i < m && log[i].CheckSent? ==> log[i].key.entity == 2
  }

  lemma FillersBegin(start: seq<Event>, evs: seq<Event>, keys: seq<Key>)
    requires NoChecks(start) && |evs| == |keys| && NoneTwice(keys)
    requires forall i :: 0 <= i < |evs| ==> IsCheckOf(evs[i], keys[i]) && keys[i].entity == 2
    ensures Lead(start + evs, |start| + |evs|, |evs|) && Pending(start + evs, LATER) == []
    ensures Begun(start + evs) == |evs|
  {
    NoChecksYet(start);
    AllBegin(start, evs, keys);
    assert (start + evs)[..|start| + |evs|] == start + evs;
    hide Begun, Pending, NoneTwice;
  }

  lemma LeadStays(log: seq<Event>, evs: seq<Event>, m: nat, n: nat)
    requires Lead(log, m, n)
    ensures Lead(log + evs, m, n)
  {
    hide Begun;
    assert (log + evs)[..m] == log[..m];
  }

  lemma FirstBegin(start: seq<Event>, evs: seq<Event>, keys: seq<Key>, n: nat, id: int)
    requires NoChecks(start) && |evs| == n + 1 && |keys| == n && NoneTwice(keys)
    requires evs[n] == CheckSent(LATER, id, 0)
    requires forall i :: 0 <= i < n ==> IsCheckOf(evs[i], keys[i]) && keys[i].entity == 2
    ensures Begun(start + evs) == n + 1 && Lead(start + evs, |start| + n, n)
  {
    hide NoneTwice, NoChecks, Lead, Begun, Pending, NextCheckId;
    var led := start + evs[..n];
    FillersBegin(start, evs[..n], keys);
    SplitLast(start, evs, n);
    OneBegins(led, evs[n]);
    LeadStays(led, [evs[n]], |start| + n, n);
  }

  lemma FillerKeys(entries: seq<Entry>, n: nat)
    requires AllSet(entries, n) && NoneTwice(KeysOf(entries))
    ensures var keys := KeysOf(entries[..n]);
        |keys| == n && NoneTwice(keys) && forall i :: 0 <= i < n ==> keys[i] == entries[i].key && keys[i].entity == 2
  {
    assert forall i :: 0 <= i < n ==> KeysOf(entries[..n])[i] == KeysOf(entries)[i];
  }

  lemma FirstTick(start: seq<Event>, entries: seq<Entry>, n: nat, wait: int)
    requires AllSet(entries, n) && NoChecks(start) && NoneTwice(KeysOf(entries))
    ensures var s := Sweep(entries, 0, 0, true, wait);
        && Waiting(s.entries, n, n % ID_LIMIT, wait) && s.nextId == (n + 1) % ID_LIMIT
        && Begun(start + s.events) == n + 1 && Lead(start + s.events, |start| + n, n)
  {
    hide Waiting, Begun, NoChecks, Sweep, Lead, NoneTwice, KeysOf;
    FillerKeys(entries, n);
    FirstSweep(entries, n, wait);
    hide AllSet;
    FirstBegin(start, Sweep(entries, 0, 0, true, wait).events, KeysOf(entries[..n]), n, n % ID_LIMIT);
  }

  lemma KeysOnce(list: List)
    requires list.Valid()
    ensures NoneTwice(KeysOf(list.entries))
  {
    list.Fits();
  }

  /** The first tick: fillers and the later address are checked. */
  method FirstChecks(list: List, n: nat) returns (ghost m: nat)
    requires list.Valid() && AllSet(list.entries, n) && list.aecpSeqId == 0 && NoChecks(list.log)
    modifies list
    ensures list.Valid() && Waiting(list.entries, n, n % ID_LIMIT, list.wait) && list.aecpSeqId == (n + 1) % ID_LIMIT
    ensures Begun(list.log) == n + 1 && Lead(list.log, m, n)
  {
    hide List.Valid, AllSet, Waiting, Begun, NoChecks, Sweep, Lead, NoneTwice, KeysOf;
    m := |list.log| + n;
    KeysOnce(list);
    FirstTick(list.log, list.entries, n, list.wait);
    list.Tick(0, true);
  }

  // ---- The counter comes round -------------------------------------------

  function MadeDue(e: Entry): Entry {
    e.(checkDue := 0)
  }

  lemma RefusalMakesDue(entries: seq<Entry>, n: nat, id: int, wait: int)
    requires Waiting(entries, n, id, wait) && wait > 0
    ensures AllDue(entries, 0) == entries[n := MadeDue(entries[n])]
    ensures Waiting(entries[n := MadeDue(entries[n])], n, id, wait) && IndexOf(entries, NEWCOMER) < 0
  {
  }

  /** One entry's first check at the start of time. */
  function OneChecked(entries: seq<Entry>, n: nat, nextId: int, wait: int): seq<Entry>
    requires n < |entries|
  {
    entries[n := Checked(entries[n], nextId, 0, wait)]
  }

  lemma RoundVerdicts(entries: seq<Entry>, n: nat, id: int, wait: int)
    requires Waiting(entries, n, id, wait) && entries[n].checkDue == 0 && wait > 0
    ensures |entries| == n + 2 && forall i :: 0 <= i < n ==> VerdictOf(entries[..n][i], 0, true) == Keep
    ensures VerdictOf(entries[n], 0, true) == Check && VerdictOf(entries[n + 1], 0, true) == Keep
    ensures entries[n].key == EARLIER && entries[n].checksSent == 0
  {
  }

  lemma RoundSweep(entries: seq<Entry>, n: nat, id: int, nextId: int, wait: int)
    requires Waiting(entries, n, id, wait) && entries[n].checkDue == 0 && wait > 0
    ensures Sweep(entries, nextId, 0, true, wait)
         == Swept(OneChecked(entries, n, nextId, wait), (nextId + 1) % ID_LIMIT, [CheckSent(EARLIER, nextId, 0)])
  {
    RoundVerdicts(entries, n, id, wait);
    hide Sweep, VerdictOf, Waiting;
    SweepTwoMore(entries, n, nextId, 0, wait);
    SweepKeeps(entries[..n], nextId, 0, wait);
    assert entries[..n] + [Checked(entries[n], nextId, 0, wait)] + [entries[n + 1]] == OneChecked(entries, n, nextId, wait);
  }

  /** What an entry shows of its wait. */
  lemma WaitsShow(entries: seq<Entry>, log: seq<Event>, wait: int, i: nat)
    requires Tracks(entries, log, wait) && i < |entries|
    ensures entries[i].checksSent == |Pending(log, entries[i].key)|
    ensures entries[i].checksSent > 0 ==> Pending(log, entries[i].key)[0].id == entries[i].checkId
  {
    assert Matches(entries[i], log, wait);
  }

  lemma RoundTick(entries: seq<Entry>, log: seq<Event>, n: nat, id: int, nextId: int, wait: int)
    requires Tracks(entries, log, wait) && Waiting(entries, n, id, wait) && entries[n].checkDue == 0 && wait > 0
    ensures Sweep(entries, nextId, 0, true, wait)
         == Swept(OneChecked(entries, n, nextId, wait), (nextId + 1) % ID_LIMIT, [CheckSent(EARLIER, nextId, 0)])
    ensures Begun(log + [CheckSent(EARLIER, nextId, 0)]) == Begun(log) + 1
  {
    hide Tracks, Sweep, Begun, Pending, OneChecked;
    WaitsShow(entries, log, wait, n);
    RoundSweep(entries, n, id, nextId, wait);
    OneBegins(log, CheckSent(EARLIER, nextId, 0));
  }

  lemma RefusalBeginsNothing(log: seq<Event>)
    ensures Begun(log + [Refused(NEWCOMER, 0)]) == Begun(log)
  {
    CountOneMore(log, Refused(NEWCOMER, 0));
  }

  /** A newcomer is refused. */
  method RefuseOne(list: List, n: nat, id: int)
    requires list.Valid() && list.capacity == n + 2 && Waiting(list.entries, n, id, list.wait) && list.wait > 0
    modifies list
    ensures list.Valid() && list.aecpSeqId == old(list.aecpSeqId)
    ensures list.entries == old(list.entries)[n := MadeDue(old(list.entries)[n])] && Waiting(list.entries, n, id, list.wait)
    ensures list.log == old(list.log) + [Refused(NEWCOMER, 0)] && Begun(list.log) == Begun(old(list.log))
  {
    RefusalMakesDue(list.entries, n, id, list.wait);
    RefusalBeginsNothing(list.log);
    hide List.Valid, Begun, AllDue, IndexOf, Refreshed;
    var status := list.Register(NEWCOMER, false, 0, CHECK_MIN);
  }

  lemma LogIsLawful(list: List)
    requires list.Valid()
    ensures Lawful(list.log, list.Lim()) && Tracks(list.entries, list.log, list.wait)
  {
  }

  /** So the earlier address, which nobody waits for, is checked. */
  method CheckEarlier(list: List, n: nat, id: int)
    requires list.Valid() && Waiting(list.entries, n, id, list.wait) && list.wait > 0 && list.entries[n].checkDue == 0
    modifies list
    ensures list.Valid()
    ensures list.entries == OneChecked(old(list.entries), n, old(list.aecpSeqId), list.wait)
    ensures list.aecpSeqId == (old(list.aecpSeqId) + 1) % ID_LIMIT
    ensures list.log == old(list.log) + [CheckSent(EARLIER, old(list.aecpSeqId), 0)]
    ensures Begun(list.log) == Begun(old(list.log)) + 1
  {
    hide List.Valid, Tracks, Begun, Sweep, OneChecked, Waiting, Lawful;
    LogIsLawful(list);
    RoundTick(list.entries, list.log, n, id, list.aecpSeqId, list.wait);
    list.Tick(0, true);
  }

  /** Both addresses wait, under one ID. */
  ghost predicate BothWait(entries: seq<Entry>, n: nat, id: int, wait: int) {
    && Cast(entries, n, 1, wait)
    && (forall i :: n <= i < n + 2 ==>
          entries[i].checksSent == 1 && entries[i].replyDue == wait && entries[i].checkId == id)
  }

  /** One round more, and the earlier address answers by a command. */
  method RoundAnswered(list: List, n: nat, id: int)
    requires list.Valid() && list.capacity == n + 2 && Waiting(list.entries, n, id, list.wait) && list.wait > 0
    modifies list
    ensures list.Valid() && Waiting(list.entries, n, id, list.wait)
    ensures list.aecpSeqId == (old(list.aecpSeqId) + 1) % ID_LIMIT
    ensures old(list.log) <= list.log && Begun(list.log) == Begun(old(list.log)) + 1
  {
    hide List.Valid, Begun;
    RefuseOne(list, n, id);
    CheckEarlier(list, n, id);
    CommandBeginsNothing(list.log);
    assert IndexOf(list.entries, EARLIER) == n;
    list.Heard(EARLIER, 0, CHECK_MIN);
  }

  lemma CommandBeginsNothing(log: seq<Event>)
    ensures Begun(log + [Command(EARLIER, 0)]) == Begun(log)
  {
    CountOneMore(log, Command(EARLIER, 0));
  }

  /** All sequence IDs are given out while the later address waits under the first of them. */
  method Wrap(list: List, n: nat)
    requires list.Valid() && list.capacity == n + 2 && Waiting(list.entries, n, n % ID_LIMIT, list.wait) && list.wait > 0
    requires list.aecpSeqId == (n + 1) % ID_LIMIT
    modifies list
    ensures list.Valid() && BothWait(list.entries, n, n % ID_LIMIT, list.wait) && list.entries[n].checkDue >= 0
    ensures old(list.log) <= list.log && Begun(list.log) == Begun(old(list.log)) + ID_LIMIT
  {
    hide List.Valid, Begun, Waiting;
    var id := n % ID_LIMIT;
    ghost var start := list.log;
    var r := 0;
    while r < ID_LIMIT - 1
      invariant 0 <= r <= ID_LIMIT - 1
      invariant list.Valid() && Waiting(list.entries, n, id, list.wait) && list.aecpSeqId == (n + 1 + r) % ID_LIMIT
      invariant start <= list.log && Begun(list.log) == Begun(start) + r
    {
      NextInRing(n + 1 + r);
      RoundAnswered(list, n, id);
      r := r + 1;
    }
    LastRound(list, n, id);
  }

  method LastRound(list: List, n: nat, id: int)
    requires list.Valid() && list.capacity == n + 2 && Waiting(list.entries, n, id, list.wait) && list.wait > 0
    requires list.aecpSeqId == id
    modifies list
    ensures list.Valid() && BothWait(list.entries, n, id, list.wait) && list.entries[n].checkDue >= 0
    ensures old(list.log) <= list.log && Begun(list.log) == Begun(old(list.log)) + 1
  {
    hide List.Valid, Begun;
    RefuseOne(list, n, id);
    CheckEarlier(list, n, id);
  }
}
