/**
 How a reply can go astray.  Two addresses of one entity are registered, the
 list is full, and newcomers are refused so often while the later address waits
 for its reply that the 16-bit counter gives its sequence ID to the earlier one,
 which answers every check but this one by a command.  The reply to the ID is
 then the earlier one's, and the later one is taken for departed.
 */
module RegistryTwins {
  import opened Basics
  import opened RegistryLog
  import opened Registry
  import opened RegistryRounds
  import opened RegistrySweeps

  // ---- The reply, and the end --------------------------------------------

  /** The later address and the fillers wait, for a first or a second reply; the earlier one was just heard of. */
  ghost predicate Left(entries: seq<Entry>, n: nat, sent: nat, due: int) {
    && Cast(entries, n, sent, due)
    && entries[n].replyDue == entries[n].checksSent == 0 && entries[n].checkDue == CHECK_MIN
    && entries[n + 1].checksSent == sent && entries[n + 1].replyDue == due
  }

  lemma SecondSweep(entries: seq<Entry>, n: nat, nextId: int, wait: int)
    requires Left(entries, n, 1, wait) && 0 < wait < CHECK_MIN && 0 <= nextId < ID_LIMIT
    ensures var s := Sweep(entries, nextId, wait, true, wait);
        && Left(s.entries, n, 2, wait + wait) && s.nextId == nextId
        && ChecksOf(s.events, entries, n)
  {
    var s := Sweep(entries[..n], nextId, wait, true, wait);
    SweepTwoMore(entries, n, nextId, wait, wait);
    SweepChecks(entries[..n], nextId, wait, wait, 1);
    assert VerdictOf(entries[n], wait, true) == Keep && VerdictOf(entries[n + 1], wait, true) == Check;
    hide Sweep, VerdictOf;
    forall i | 0 <= i < n
      ensures IsFiller(s.entries[i], 2, wait + wait) && IsCheckOf(s.events[i], entries[i].key)
    {
      assert IsChecked(s.entries[i], entries[..n][i], wait + wait) && IsCheckOf(s.events[i], entries[..n][i].key);
    }
  }

  lemma LastSweep(entries: seq<Entry>, n: nat, nextId: int, wait: int)
    requires Left(entries, n, 2, wait + wait) && 0 < wait + wait < CHECK_MIN
    ensures Ends(Sweep(entries, nextId, wait + wait, true, wait).events, wait + wait)
  {
    SweepTwoMore(entries, n, nextId, wait + wait, wait);
    SweepDeparts(entries[..n], nextId, wait + wait, wait);
    hide Sweep;
  }

  /** From the reply to the end: nothing is begun, and the later address is not heard of. */
  lemma Suffix(log: seq<Event>, id: int, checks: seq<Event>, ends: seq<Event>, at: int)
    requires Pending(log, LATER) != [] && Owed(log, checks) && Ends(ends, at)
    ensures var all := log + ([Reply(1, id, Some(EARLIER), 0)] + checks + ends);
        && Begun(all) == Begun(log)
        && Pending(all[..|all| - 1], LATER) != [] && Pending(all[..|all| - 1], LATER)[0] == Pending(log, LATER)[0]
  {
    var evs := [Reply(1, id, Some(EARLIER), 0)] + checks + ends;
    var all := log + evs;
    hide Begun, Pending;
    NoneBegin(log, evs);
    var i := |all| - 1;
    assert all[..i][..|log|] == log;
    forall m | |log| <= m < i
      ensures !Settles(all[..i][m], LATER)
    {
      assert all[..i][m] == evs[m - |log|];
    }
    PendingStays(all[..i], LATER, |log|);
  }

  /** Both wait for the ID, and the reply to it goes to the earlier address. */
  method ReplyToEarlier(list: List, n: nat, id: int)
    requires list.Valid() && list.capacity == n + 2 && list.wait > 0 && BothWait(list.entries, n, id, list.wait)
    modifies list
    ensures list.Valid() && Left(list.entries, n, 1, list.wait) && list.aecpSeqId == old(list.aecpSeqId)
    ensures forall i :: 0 <= i < n + 2 ==> list.entries[i].key == old(list.entries)[i].key
    ensures list.log == old(list.log) + [Reply(1, id, Some(EARLIER), 0)]
  {
    hide List.Valid;
    assert FirstWaiting(list.entries, 1, id) == n;
    ghost var credited := list.Replied(1, id, 0, CHECK_MIN);
  }

  /** A check of every filler and of the later address. */
  ghost predicate ChecksOf(checks: seq<Event>, entries: seq<Entry>, n: nat) {
    && |checks| == n + 1 && |entries| == n + 2
    && forall i :: 0 <= i <= n ==> IsCheckOf(checks[i], entries[if i == n then n + 1 else i].key)
  }

  /** Farewells, the later address's last. */
  ghost predicate Ends(ends: seq<Event>, at: int) {
    && |ends| >= 2 && ends[|ends| - 1] == Departed(LATER, at) && ends[|ends| - 2].Notified?
    && forall i :: 0 <= i < |ends| - 2 ==> IsFarewell(ends[i])
  }

  /** Checks of others than the earlier address, all of them waited for. */
  ghost predicate Owed(start: seq<Event>, checks: seq<Event>) {
    forall i :: 0 <= i < |checks| ==>
      checks[i].CheckSent? && checks[i].key != EARLIER && Pending(start, checks[i].key) != []
  }

  /** After one wait everybody still waited for is checked again. */
  method CheckAgain(list: List, n: nat) returns (ghost checks: seq<Event>)
    requires list.Valid() && Left(list.entries, n, 1, list.wait) && 0 < list.wait + list.wait < CHECK_MIN
    modifies list
    ensures list.Valid() && list.log == old(list.log) + checks && ChecksOf(checks, old(list.entries), n)
    ensures Left(list.entries, n, 2, list.wait + list.wait)
  {
    IdsInRange(list);
    hide List.Valid, Sweep, Left, ChecksOf;
    SecondSweep(list.entries, n, list.aecpSeqId, list.wait);
    checks := Sweep(list.entries, list.aecpSeqId, list.wait, true, list.wait).events;
    list.Tick(list.wait, true);
  }

  /** After another the later address is taken for departed. */
  method GiveUp(list: List, n: nat) returns (ghost ends: seq<Event>)
    requires list.Valid() && Left(list.entries, n, 2, list.wait + list.wait) && 0 < list.wait + list.wait < CHECK_MIN
    modifies list
    ensures list.Valid() && list.log == old(list.log) + ends && Ends(ends, list.wait + list.wait)
  {
    hide List.Valid, Sweep, Left, Ends;
    LastSweep(list.entries, n, list.aecpSeqId, list.wait);
    ends := Sweep(list.entries, list.aecpSeqId, list.wait + list.wait, true, list.wait).events;
    list.Tick(list.wait + list.wait, true);
  }

  lemma IdsInRange(list: List)
    requires list.Valid()
    ensures 0 <= list.aecpSeqId < ID_LIMIT
  {
  }

  /** What the run shows: a departure although a matching reply came, after the shortest wait that allows it. */
  ghost predicate IsAstray(log: seq<Event>, lim: Limits) {
    && log != [] && Last(log).Departed? && Lawful(log, lim)
    && !WasSilent(log, |log| - 1, lim) && ShortWaits(log, |log| - 1, ID_LIMIT + 1)
  }

  lemma LedWaitsAreShort(log: seq<Event>, m: nat, n: nat)
    requires log != [] && Last(log).Departed? && Last(log).key == LATER
    requires Lead(log, m, n) && Begun(log) == n + 1 + ID_LIMIT
    ensures ShortWaits(log, |log| - 1, ID_LIMIT + 1)
  {
    hide Begun, BegunSince;
    forall j: nat, mac: int | j <= |log| - 1
      ensures BegunSince(log[..j], Key(1, mac)) <= ID_LIMIT + 1
    {
      LateWaitsAreShort(log, m, j, Key(1, mac));
    }
  }

  /** What followed a moment at which the later address waited for an ID, to its departure. */
  ghost predicate Followed(start: seq<Event>, log: seq<Event>, id: int, evs: seq<Event>) {
    && evs != [] && log == start + evs && evs[0] == Reply(1, id, Some(EARLIER), 0)
    && Last(log).Departed? && Last(log).key == LATER && |evs| >= 2
    && Begun(log) == Begun(start)
    && Pending(start, LATER) != [] && Pending(start, LATER)[0].id == id
    && Pending(log[..|log| - 1], LATER) != [] && Pending(log[..|log| - 1], LATER)[0] == Pending(start, LATER)[0]
  }

  lemma FollowedIsAstray(start: seq<Event>, log: seq<Event>, n: nat, m: nat, id: int, evs: seq<Event>, lim: Limits)
    requires Lawful(log, lim) && Followed(start, log, id, evs)
    requires Begun(start) == n + 1 + ID_LIMIT && Lead(start, m, n)
    ensures IsAstray(log, lim)
  {
    hide Begun, Pending, Lawful, WasSilent, ShortWaits, Lead;
    PendingIsInTheLog(start, LATER);
    LeadStays(start, evs, m, n);
    LedWaitsAreShort(log, m, n);
    assert log[|start|] == evs[0];
    NotSilent(log, |log| - 1, |start|, lim);
  }

  lemma EndFollows(start: seq<Event>, log: seq<Event>, id: int, checks: seq<Event>, ends: seq<Event>, at: int)
    requires log == start + ([Reply(1, id, Some(EARLIER), 0)] + checks + ends)
    requires Pending(start, LATER) != [] && Pending(start, LATER)[0].id == id
    requires Owed(start, checks) && Ends(ends, at)
    ensures Followed(start, log, id, [Reply(1, id, Some(EARLIER), 0)] + checks + ends)
  {
    hide Begun, Pending;
    Suffix(start, id, checks, ends, at);
  }

  lemma ChecksAreOwed(before: seq<Entry>, start: seq<Event>, wait: int, n: nat, id: int, entries: seq<Entry>,
                      checks: seq<Event>)
    requires Tracks(before, start, wait) && BothWait(before, n, id, wait) && ChecksOf(checks, entries, n)
    requires forall i :: 0 <= i < n + 2 ==> entries[i].key == before[i].key
    ensures Owed(start, checks) && Pending(start, LATER) != [] && Pending(start, LATER)[0].id == id
  {
    hide Tracks, Pending;
    WaitsShow(before, start, wait, n + 1);
    forall i: nat | i < |checks|
      ensures checks[i].CheckSent? && checks[i].key != EARLIER && Pending(start, checks[i].key) != []
    {
      var j := if i == n then n + 1 else i;
      assert IsCheckOf(checks[i], entries[j].key);
      WaitsShow(before, start, wait, j);
    }
  }

  lemma EndIsAstray(before: seq<Entry>, start: seq<Event>, wait: int, n: nat, id: int, entries: seq<Entry>, m: nat,
                    checks: seq<Event>, ends: seq<Event>, log: seq<Event>, lim: Limits)
    requires Tracks(before, start, wait) && BothWait(before, n, id, wait) && ChecksOf(checks, entries, n)
    requires Ends(ends, wait + wait) && forall i :: 0 <= i < n + 2 ==> entries[i].key == before[i].key
    requires Begun(start) == n + 1 + ID_LIMIT && Lead(start, m, n)
    requires log == start + ([Reply(1, id, Some(EARLIER), 0)] + checks + ends) && Lawful(log, lim)
    ensures IsAstray(log, lim)
  {
    hide Tracks, Lawful, Begun, Lead, Pending, IsAstray, Followed, Owed, Ends, BothWait;
    ChecksAreOwed(before, start, wait, n, id, entries, checks);
    hide ChecksOf;
    EndFollows(start, log, id, checks, ends, wait + wait);
    FollowedIsAstray(start, log, n, m, id, [Reply(1, id, Some(EARLIER), 0)] + checks + ends, lim);
  }

  /** The reply and what follows it. */
  method Finish(list: List, n: nat, id: int) returns (ghost entries: seq<Entry>, ghost checks: seq<Event>, ghost ends: seq<Event>)
    requires list.Valid() && list.capacity == n + 2 && BothWait(list.entries, n, id, list.wait)
    requires 0 < list.wait + list.wait < CHECK_MIN
    modifies list
    ensures list.Valid() && ChecksOf(checks, entries, n) && Ends(ends, list.wait + list.wait)
    ensures forall i :: 0 <= i < n + 2 ==> entries[i].key == old(list.entries)[i].key
    ensures list.log == old(list.log) + ([Reply(1, id, Some(EARLIER), 0)] + checks + ends)
  {
    ghost var start := list.log;
    hide List.Valid, Left, ChecksOf, Ends;
    ReplyToEarlier(list, n, id);
    hide BothWait;
    entries := list.entries;
    checks := CheckAgain(list, n);
    ends := GiveUp(list, n);
    Regroup(start, [Reply(1, id, Some(EARLIER), 0)], checks, ends);
  }

  lemma Regroup(a: seq<Event>, b: seq<Event>, c: seq<Event>, d: seq<Event>)
    ensures a + b + c + d == a + (b + c + d)
  {
  }

  /** A run of the list, of any size from two up, whose log is like that. */
  method ReplyGoesAstray(capacity: nat, wifi: bool) returns (list: List)
    requires capacity >= 2
    ensures fresh(list) && list.Valid() && list.capacity == capacity
    ensures list.wait == if wifi then 1_000_000 else 250_000
    ensures IsAstray(list.log, list.Lim())
  {
    hide List.Valid, Tracks, Lawful, AllSet, Waiting, Begun, NoChecks, BothWait, IsAstray;
    var n := capacity - 2;
    list := SetUp(n, wifi);
    ghost var m := FirstChecks(list, n);
    ghost var led := list.log;
    Wrap(list, n);
    assert list.log == led + list.log[|led|..];
    LeadStays(led, list.log[|led|..], m, n);
    ghost var before, start := list.entries, list.log;
    LogIsLawful(list);
    hide Lead, ChecksOf, Ends;
    ghost var entries, checks, ends := Finish(list, n, n % ID_LIMIT);
    LogIsLawful(list);
    EndIsAstray(before, start, list.wait, n, n % ID_LIMIT, entries, m, checks, ends, list.log, list.Lim());
  }

  // ---- Exactly when departed controllers were silent ---------------------

  /** In every log in which no wait of the entity sees more than so many checks begun. */
  ghost predicate AlwaysSilent(lim: Limits, most: int) {
    forall log: seq<Event>, i: nat ::
      Lawful(log, lim) && i < |log| && log[i].Departed? && ShortWaits(log, i, most) ==> WasSilent(log, i, lim)
  }

  lemma CertainlySilent(lim: Limits, most: int)
    requires most <= ID_LIMIT || lim.capacity < 2
    ensures AlwaysSilent(lim, most)
  {
    hide Lawful, WasSilent, BegunSince;
    forall log: seq<Event>, i: nat | Lawful(log, lim) && i < |log| && log[i].Departed? && ShortWaits(log, i, most)
      ensures WasSilent(log, i, lim)
    {
      if lim.capacity < 2 {
        DepartedInSilenceAlone(log, i, lim);
      } else {
        assert ShortWaits(log, i, ID_LIMIT);
        DepartedInSilenceWithinAWrap(log, i, lim);
      }
    }
  }

  lemma NotAlwaysSilent(log: seq<Event>, lim: Limits, most: int)
    requires IsAstray(log, lim) && most > ID_LIMIT
    ensures !AlwaysSilent(lim, most)
  {
    hide Lawful, WasSilent, BegunSince;
    var i := |log| - 1;
    assert ShortWaits(log, i, most);
  }

  /**
   A departed controller sent no matching reply, whatever happened, exactly if
   no wait may outlast the 65536 sequence IDs or nobody else can be registered.
   That it may fail otherwise is shown by making the run.
   */
  method DepartedInSilenceExactly(capacity: nat, wifi: bool, most: int) returns (certain: bool)
    ensures certain <==> most <= ID_LIMIT || capacity < 2
    ensures certain <==> AlwaysSilent(Limits(if wifi then 1_000_000 else 250_000, capacity), most)
  {
    hide List.Valid, AlwaysSilent, IsAstray;
    certain := most <= ID_LIMIT || capacity < 2;
    if certain {
      CertainlySilent(Limits(if wifi then 1_000_000 else 250_000, capacity), most);
    } else {
      var list := ReplyGoesAstray(capacity, wifi);
      NotAlwaysSilent(list.log, list.Lim(), most);
    }
  }
}
