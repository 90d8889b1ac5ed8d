/**
 Ticks of the registry at which whole stretches of the list have the same turn,
 and how many checks they begin.
 */
module RegistrySweeps {
  import opened Basics
  import opened RegistryLog
  import opened Registry

  // ---- Sweeps over entries that all have the same turn -------------------

  lemma {:induction false} SweepKeeps(entries: seq<Entry>, nextId: int, now: int, wait: int)
    requires forall i :: 0 <= i < |entries| ==> VerdictOf(entries[i], now, true) == Keep
    ensures Sweep(entries, nextId, now, true, wait) == Swept(entries, nextId, [])
  {
    if entries != [] {
      var n := |entries| - 1;
      SweepKeeps(entries[..n], nextId, now, wait);
      assert entries[..n] + [entries[n]] == entries;
    }
  }

  predicate IsCheckOf(ev: Event, k: Key) {
    ev.CheckSent? && ev.key == k
  }

  predicate IsChecked(after: Entry, before: Entry, due: int) {
    after == before.(checkId := after.checkId, checksSent := before.checksSent + 1, replyDue := due)
  }

  lemma {:induction false} SweepChecks(entries: seq<Entry>, nextId: int, now: int, wait: int, sent: nat)
    requires forall i :: 0 <= i < |entries| ==> VerdictOf(entries[i], now, true) == Check && entries[i].checksSent == sent
    requires 0 <= nextId < ID_LIMIT
    ensures var s := Sweep(entries, nextId, now, true, wait);
        && |s.entries| == |s.events| == |entries|
        && (forall i :: 0 <= i < |entries| ==> IsChecked(s.entries[i], entries[i], now + wait))
        && (forall i :: 0 <= i < |entries| ==> IsCheckOf(s.events[i], entries[i].key))
        && s.nextId == if sent == 0 then (nextId + |entries|) % ID_LIMIT else nextId
  {
    if entries != [] {
      var n := |entries| - 1;
      SweepChecks(entries[..n], nextId, now, wait, sent);
      NextInRing(nextId + n);
    }
  }

  /** Nothing but the last notice to a filler, and its removal. */
  predicate IsFarewell(ev: Event) {
    (ev.Notified? || ev.Departed?) && ev.key.entity == 2
  }

  lemma {:induction false} SweepDeparts(entries: seq<Entry>, nextId: int, now: int, wait: int)
    requires forall i :: 0 <= i < |entries| ==> VerdictOf(entries[i], now, true) == Depart && entries[i].key.entity == 2
    ensures var s := Sweep(entries, nextId, now, true, wait);
        s.entries == [] && s.nextId == nextId && forall ev :: ev in s.events ==> IsFarewell(ev)
  {
    if entries != [] {
      SweepDeparts(entries[..|entries| - 1], nextId, now, wait);
    }
  }

  lemma SweepTwoMore(entries: seq<Entry>, n: nat, nextId: int, now: int, wait: int)
    requires |entries| == n + 2
    ensures Sweep(entries, nextId, now, true, wait)
         == SweptOne(SweptOne(Sweep(entries[..n], nextId, now, true, wait), entries[n], now, true, wait),
                     entries[n + 1], now, true, wait)
  {
    assert entries[..n + 1][..n] == entries[..n];
  }

  // ---- Counting checks ---------------------------------------------------

  lemma {:induction false} NoChecksYet(log: seq<Event>)
    requires forall m :: 0 <= m < |log| ==> !log[m].CheckSent?
    ensures Begun(log) == 0 && NextCheckId(log) == None && forall k :: Pending(log, k) == []
  {
    if log != [] {
      NoChecksYet(log[..|log| - 1]);
    }
  }

  lemma SplitLast(start: seq<Event>, evs: seq<Event>, n: nat)
    requires |evs| == n + 1
    ensures start + evs == start + evs[..n] + [evs[n]]
  {
  }

  lemma OneBegins(log: seq<Event>, ev: Event)
    requires ev.CheckSent? && Pending(log, ev.key) == []
    ensures Begun(log + [ev]) == Begun(log) + 1
  {
    CountOneMore(log, ev);
  }

  lemma OthersWaitOn(log: seq<Event>, ev: Event)
    requires ev.CheckSent?
    ensures forall k :: k != ev.key ==> Pending(log + [ev], k) == Pending(log, k)
  {
    forall k | k != ev.key
      ensures Pending(log + [ev], k) == Pending(log, k)
    {
      OneMore(log, ev, k);
    }
  }

  /** Checks of different controllers, none of whom is waited for, are all begun. */
  lemma {:induction false} AllBegin(log: seq<Event>, evs: seq<Event>, keys: seq<Key>)
    requires |evs| == |keys| && NoneTwice(keys)
    requires forall i :: 0 <= i < |evs| ==> IsCheckOf(evs[i], keys[i]) && Pending(log, keys[i]) == []
    ensures Begun(log + evs) == Begun(log) + |evs|
    ensures forall k :: k !in keys ==> Pending(log + evs, k) == Pending(log, k)
    decreases |evs|
  {
    if evs == [] {
      assert log + evs == log;
    } else {
      hide Begun, Pending;
      var n := |evs| - 1;
      AllBegin(log, evs[..n], keys[..n]);
      assert keys[n] !in keys[..n];
      SplitLast(log, evs, n);
      OneBegins(log + evs[..n], evs[n]);
      OthersWaitOn(log + evs[..n], evs[n]);
      assert forall k :: k !in keys ==> k !in keys[..n] && k != keys[n];
    }
  }

  /** Events that only check controllers already waited for, or check nobody, begin nothing. */
  lemma {:induction false} NoneBegin(log: seq<Event>, evs: seq<Event>)
    requires forall i :: 0 <= i < |evs| && evs[i].CheckSent? ==> Pending(log, evs[i].key) != []
    requires forall i :: 0 <= i < |evs| && evs[i].CheckSent? ==> forall j :: 0 <= j < i ==> !Settles(evs[j], evs[i].key)
    ensures Begun(log + evs) == Begun(log)
    decreases |evs|
  {
    if evs == [] {
      assert log + evs == log;
    } else {
      var n := |evs| - 1;
      NoneBegin(log, evs[..n]);
      assert log + evs == log + evs[..n] + [evs[n]];
      CountOneMore(log + evs[..n], evs[n]);
      if evs[n].CheckSent? {
        var k := evs[n].key;
        assert (log + evs[..n])[..|log|] == log;
        PendingStays(log + evs[..n], k, |log|);
      }
    }
  }

  /** If the first checks of an entity come late, none of its waits sees many. */
  lemma LateWaitsAreShort(log: seq<Event>, m: nat, j: nat, k: Key)
    requires m <= |log| && j <= |log|
    requires forall i :: 0 <= i < m && log[i].CheckSent? ==> log[i].key != k
    ensures BegunSince(log[..j], k) <= Begun(log) - Begun(log[..m])
  {
    BegunGrows(log, j, |log|);
    BegunGrows(log, m, |log|);
    assert log[..|log|] == log;
    if Pending(log[..j], k) != [] {
      PendingIsInTheLog(log[..j], k);
      var first := Pending(log[..j], k)[0].index;
      assert log[..j][..first] == log[..first];
      BegunGrows(log, m, first);
    }
  }
}
