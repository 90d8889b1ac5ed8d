/**
 What the list of registered controllers promises, told as a log of what
 happened to it: registrations, commands, replies, checks sent and removals
 (sections 5.4.2.21 and 5.4.5 of Milan v1.3).
 */
module RegistryLog {
  import opened Basics

  const ID_LIMIT: nat := 0x1_0000
  const CHECK_SENDS: nat := 2
  const TIME_LIMIT: int := 300_000_000
  const CHECK_MIN: int := 30_000_000

  /** The wait for a reply, and how many controllers may be registered. */
  datatype Limits = Limits(wait: int, capacity: nat)

  /** Registrations are kept per entity and address. */
  datatype Key = Key(entity: int, mac: int)

  datatype Kind = Aem | Mvu | Vu

  datatype Event =
    | Registered(key: Key, limited: bool, at: int, isNew: bool)
    | Refused(key: Key, at: int)
    | Command(key: Key, at: int)
    | Reply(entity: int, id: int, credited: Option<Key>, at: int)
    | CheckSent(key: Key, id: int, at: int)
    | Notified(key: Key, kind: Kind, id: int)
    | Deregistered(key: Key)
    | Lapsed(key: Key, at: int)
    | Departed(key: Key, at: int)

  /** A CONTROLLER_AVAILABLE that was sent: where in the log, and when. */
  datatype Send = Send(index: nat, id: int, at: int)

  // ---- Reading the log ---------------------------------------------------

  predicate Removes(ev: Event, k: Key) {
    (ev.Deregistered? || ev.Lapsed? || ev.Departed?) && ev.key == k
  }

  /** Events after which a controller is no longer waited for. */
  predicate Settles(ev: Event, k: Key) {
    || Removes(ev, k)
    || ((ev.Registered? || ev.Command?) && ev.key == k)
    || (ev.Reply? && ev.credited == Some(k))
  }

  /** Checks sent to a controller since it was last heard of. */
  ghost function Pending(log: seq<Event>, k: Key): (p: seq<Send>) {
    if log == [] then []
    else
      var n := |log| - 1;
      var ev := log[n];
      if Settles(ev, k) then []
      else if ev.CheckSent? && ev.key == k then Pending(log[..n], k) + [Send(n, ev.id, ev.at)]
      else Pending(log[..n], k)
  }

  /** Notifications of a kind to a controller since its entry was made. */
  ghost function Notes(log: seq<Event>, k: Key, kind: Kind): nat {
    if log == [] then 0
    else
      var n := |log| - 1;
      var ev := log[n];
      if ev.Registered? && ev.key == k && ev.isNew then 0
      else Notes(log[..n], k, kind) + if ev.Notified? && ev.key == k && ev.kind == kind then 1 else 0
  }

  /** A controller's last registration, when it has one. */
  ghost function LastRegistered(log: seq<Event>, k: Key): Option<(bool, int)> {
    if log == [] then None
    else
      var n := |log| - 1;
      var ev := log[n];
      if ev.Registered? && ev.key == k then Some((ev.limited, ev.at))
      else if Removes(ev, k) then None
      else LastRegistered(log[..n], k)
  }

  /** A check that begins a wait: it takes the next sequence ID. */
  ghost predicate Begins(log: seq<Event>, ev: Event) {
    ev.CheckSent? && Pending(log, ev.key) == []
  }

  /** How many checks were begun. */
  ghost function Begun(log: seq<Event>): nat {
    if log == [] then 0
    else
      var n := |log| - 1;
      Begun(log[..n]) + if Begins(log[..n], log[n]) then 1 else 0
  }

  /** The sequence ID after the last one taken, in 16 bits. */
  ghost function NextCheckId(log: seq<Event>): Option<int> {
    if log == [] then None
    else
      var n := |log| - 1;
      if Begins(log[..n], log[n]) then Some((log[n].id + 1) % ID_LIMIT) else NextCheckId(log[..n])
  }

  lemma OneMore(log: seq<Event>, ev: Event, k: Key)
    ensures var more := log + [ev];
        && Pending(more, k) == (if Settles(ev, k) then []
                                else if ev.CheckSent? && ev.key == k then Pending(log, k) + [Send(|log|, ev.id, ev.at)]
                                else Pending(log, k))
        && LastRegistered(more, k) == (if ev.Registered? && ev.key == k then Some((ev.limited, ev.at))
                                       else if Removes(ev, k) then None
                                       else LastRegistered(log, k))
        && CheckFrom(more, k) == (if Settles(ev, k) && !Removes(ev, k) then ev.at + CHECK_MIN
                                  else if ev.Refused? && Pending(log, k) == [] then ev.at
                                  else CheckFrom(log, k))
        && forall kind :: Notes(more, k, kind) ==
             if ev.Registered? && ev.key == k && ev.isNew then 0
             else Notes(log, k, kind) + if ev.Notified? && ev.key == k && ev.kind == kind then 1 else 0
  {
    assert (log + [ev])[..|log|] == log;
  }

  lemma RosterNext(log: seq<Event>, ev: Event)
    ensures Roster(log + [ev]) == if ev.Registered? && ev.isNew then Roster(log) + [ev.key]
                                  else if ev.Deregistered? || ev.Lapsed? || ev.Departed? then Without(Roster(log), ev.key)
                                  else Roster(log)
  {
    assert (log + [ev])[..|log|] == log;
  }

  lemma CountOneMore(log: seq<Event>, ev: Event)
    ensures Begun(log + [ev]) == Begun(log) + if Begins(log, ev) then 1 else 0
    ensures NextCheckId(log + [ev]) == if Begins(log, ev) then Some((ev.id + 1) % ID_LIMIT) else NextCheckId(log)
  {
    assert (log + [ev])[..|log|] == log;
  }

  /** Those registered, in the order they were entered. */
  ghost function Roster(log: seq<Event>): seq<Key> {
    if log == [] then []
    else
      var n := |log| - 1;
      var ev := log[n];
      if ev.Registered? && ev.isNew then Roster(log[..n]) + [ev.key]
      else if ev.Deregistered? || ev.Lapsed? || ev.Departed? then Without(Roster(log[..n]), ev.key)
      else Roster(log[..n])
  }

  function Without(keys: seq<Key>, k: Key): (r: seq<Key>)
    ensures |r| <= |keys| && forall x :: x in r <==> x in keys && x != k
  {
    if keys == [] then []
    else (if keys[0] == k then [] else [keys[0]]) + Without(keys[1..], k)
  }

  ghost predicate NoneTwice(keys: seq<Key>) {
    forall i, j :: 0 <= i < j < |keys| ==> keys[i] != keys[j]
  }

  lemma {:induction false} WithoutKeepsNoneTwice(keys: seq<Key>, k: Key)
    requires NoneTwice(keys)
    ensures NoneTwice(Without(keys, k))
  {
    if keys != [] {
      WithoutKeepsNoneTwice(keys[1..], k);
      var rest := Without(keys[1..], k);
      forall j | 0 <= j < |rest|
        ensures rest[j] != keys[0]
      {
        assert rest[j] in keys[1..];
      }
    }
  }

  /** The place of a key that is there once. */
  lemma {:induction false} WithoutAt(keys: seq<Key>, i: nat)
    requires NoneTwice(keys) && i < |keys|
    ensures Without(keys, keys[i]) == keys[..i] + keys[i + 1..]
  {
    if i == 0 {
      NotThere(keys[1..], keys[0]);
      assert Without(keys, keys[0]) == [] + keys[1..] == keys[..0] + keys[1..];
    } else {
      WithoutAt(keys[1..], i - 1);
      assert keys[1..][i - 1] == keys[i] && keys[0] != keys[i];
      assert Without(keys, keys[i]) == [keys[0]] + (keys[1..][..i - 1] + keys[1..][i..]) == keys[..i] + keys[i + 1..];
    }
  }

  lemma {:induction false} NotThere(keys: seq<Key>, k: Key)
    requires k !in keys
    ensures Without(keys, k) == keys
  {
    if keys != [] {
      NotThere(keys[1..], k);
    }
  }

  /** A reply with this sequence ID is being waited for. */
  ghost predicate Awaits(log: seq<Event>, k: Key, id: int) {
    var p := Pending(log, k);
    p != [] && p[0].id == id
  }

  /** The first of an entity's addresses that waits for a sequence ID. */
  ghost function FirstAwaiting(log: seq<Event>, keys: seq<Key>, entity: int, id: int): (c: Option<Key>)
    ensures c.None? ==> forall k :: k in keys && k.entity == entity ==> !Awaits(log, k, id)
    ensures c.Some? ==> c.value in keys && c.value.entity == entity && Awaits(log, c.value, id)
  {
    if keys == [] then None
    else if keys[0].entity == entity && Awaits(log, keys[0], id) then Some(keys[0])
    else FirstAwaiting(log, keys[1..], entity, id)
  }

  predicate BeforeAt(keys: seq<Key>, i: int, j: int, a: Key, b: Key) {
    0 <= i < j < |keys| && keys[i] == a && keys[j] == b
  }

  ghost predicate Before(keys: seq<Key>, a: Key, b: Key) {
    exists i, j :: BeforeAt(keys, i, j, a, b)
  }

  lemma {:induction false} NobodyAwaitsBefore(log: seq<Event>, keys: seq<Key>, k: Key, id: int)
    requires k in keys && Awaits(log, k, id)
    ensures var c := FirstAwaiting(log, keys, k.entity, id);
        c.Some? && (c.value != k ==> Before(keys, c.value, k))
  {
    var c := FirstAwaiting(log, keys, k.entity, id).value;
    if keys[0].entity == k.entity && Awaits(log, keys[0], id) {
      if c != k {
        var j :| 0 <= j < |keys| && keys[j] == k;
        assert BeforeAt(keys, 0, j, c, k);
      }
    } else {
      NobodyAwaitsBefore(log, keys[1..], k, id);
      if c != k {
        var i, j :| BeforeAt(keys[1..], i, j, c, k);
        assert BeforeAt(keys, i + 1, j + 1, c, k);
      }
    }
  }

  /** From when on a controller may be checked: 30 s after it was heard of, or a refusal while it was not waited for. */
  ghost function CheckFrom(log: seq<Event>, k: Key): int {
    if log == [] then 0
    else
      var n := |log| - 1;
      var ev := log[n];
      if Settles(ev, k) && !Removes(ev, k) then ev.at + CHECK_MIN
      else if ev.Refused? && Pending(log[..n], k) == [] then ev.at
      else CheckFrom(log[..n], k)
  }

  // ---- The law of the log ------------------------------------------------

  /** What may happen after a log. */
  ghost predicate Permitted(log: seq<Event>, ev: Event, lim: Limits) {
    match ev
    case Registered(k, _, _, isNew) =>
      && (isNew <==> LastRegistered(log, k).None?)
      && (isNew ==> |Roster(log)| < lim.capacity)
    case Refused(k, _) => LastRegistered(log, k).None? && |Roster(log)| >= lim.capacity
    case Command(_, _) => true
    case Reply(entity, id, credited, _) => credited == FirstAwaiting(log, Roster(log), entity, id)
    case CheckSent(k, id, at) =>
      var p := Pending(log, k);
      && LastRegistered(log, k).Some?
      && |p| < CHECK_SENDS
      && (p == [] ==> 0 <= id < ID_LIMIT && (NextCheckId(log).Some? ==> id == NextCheckId(log).value))
      && (p == [] ==> at >= CheckFrom(log, k))
      && (p != [] ==> id == p[0].id && at >= p[|p| - 1].at + lim.wait)
    case Notified(k, kind, id) => LastRegistered(log, k).Some? && id == Notes(log, k, kind) % ID_LIMIT
    case Deregistered(k) => LastRegistered(log, k).Some?
    case Lapsed(k, at) =>
      var r := LastRegistered(log, k);
      r.Some? && r.value.0 && at >= r.value.1 + TIME_LIMIT
    case Departed(k, at) =>
      var p := Pending(log, k);
      && LastRegistered(log, k).Some?
      && |p| == CHECK_SENDS
      && at >= p[1].at + lim.wait
  }

  ghost predicate Lawful(log: seq<Event>, lim: Limits) {
    forall i :: 0 <= i < |log| ==> Permitted(log[..i], log[i], lim)
  }

  lemma LawfulOneMore(log: seq<Event>, ev: Event, lim: Limits)
    requires Lawful(log, lim) && Permitted(log, ev, lim)
    ensures Lawful(log + [ev], lim)
  {
    hide Permitted;
    var more := log + [ev];
    forall i | 0 <= i < |more|
      ensures Permitted(more[..i], more[i], lim)
    {
      assert more[..i] == log[..i];
      if i == |log| {
        assert log[..i] == log;
      }
    }
  }

  lemma LawfulPrefix(log: seq<Event>, j: nat, lim: Limits)
    requires Lawful(log, lim) && j <= |log|
    ensures Lawful(log[..j], lim)
  {
    assert forall m :: 0 <= m < j ==> log[..j][..m] == log[..m];
  }

  // ---- What a lawful log means -------------------------------------------

  /** The roster has everyone registered, once, and nobody else is waited for. */
  ghost predicate IsRoster(log: seq<Event>, lim: Limits) {
    && NoneTwice(Roster(log)) && |Roster(log)| <= lim.capacity
    && (forall k :: k in Roster(log) <==> LastRegistered(log, k).Some?)
    && (forall k :: k !in Roster(log) ==> Pending(log, k) == [])
  }

  lemma {:induction false} LawfulRoster(log: seq<Event>, lim: Limits)
    requires Lawful(log, lim)
    ensures IsRoster(log, lim)
    decreases |log|
  {
    if log != [] {
      var n := |log| - 1;
      LawfulPrefix(log, n, lim);
      LawfulRoster(log[..n], lim);
      assert Permitted(log[..n], log[n], lim);
      hide Lawful;
      assert log == log[..n] + [log[n]];
      RosterOneMore(log[..n], log[n], lim);
    }
  }

  lemma RosterOneMore(log: seq<Event>, ev: Event, lim: Limits)
    requires IsRoster(log, lim) && Permitted(log, ev, lim)
    ensures IsRoster(log + [ev], lim)
  {
    var more := log + [ev];
    assert more[..|log|] == log;
    WithoutKeepsNoneTwice(Roster(log), if ev.Reply? then Key(0, 0) else ev.key);
    forall k
      ensures k in Roster(more) <==> LastRegistered(more, k).Some?
      ensures k !in Roster(more) ==> Pending(more, k) == []
    {
      OneMore(log, ev, k);
    }
  }

  lemma {:induction false} PendingIsInTheLog(log: seq<Event>, k: Key)
    ensures var p := Pending(log, k);
        && (forall a :: 0 <= a < |p| ==> p[a].index < |log| && log[p[a].index] == CheckSent(k, p[a].id, p[a].at))
        && (forall a, b :: 0 <= a < b < |p| ==> p[a].index < p[b].index)
        && (p != [] ==> forall j :: p[0].index <= j < |log| ==> !Settles(log[j], k))
    decreases |log|
  {
    if log != [] {
      PendingIsInTheLog(log[..|log| - 1], k);
    }
  }

  /** When a check was sent, those before it were the ones pending. */
  lemma {:induction false} PendingBefore(log: seq<Event>, k: Key, a: nat)
    requires a < |Pending(log, k)|
    ensures Pending(log, k)[a].index < |log|
    ensures Pending(log[..Pending(log, k)[a].index], k) == Pending(log, k)[..a]
    decreases |log|
  {
    var n := |log| - 1;
    var before := Pending(log[..n], k);
    if a < |before| {
      PendingBefore(log[..n], k, a);
      var at := before[a].index;
      assert log[..n][..at] == log[..at];
      assert Pending(log, k)[..a] == before[..a];
    } else {
      assert Pending(log, k)[..a] == before;
    }
  }

  /** Two checks under one sequence ID, each given the whole wait, unanswered. */
  ghost predicate Unanswered(log: seq<Event>, i: nat, k: Key, first: nat, second: nat, lim: Limits)
    requires i < |log|
  {
    && first < second < i
    && log[first].CheckSent? && log[second].CheckSent? && log[i].Departed?
    && log[first].key == log[second].key == k
    && log[first].id == log[second].id
    && log[second].at >= log[first].at + lim.wait
    && log[i].at >= log[second].at + lim.wait
    && (forall j :: first < j < i ==> !Settles(log[j], k))
    && (forall j :: first < j < i && log[j].Reply? && log[j].entity == k.entity && log[j].id == log[first].id ==>
          CreditedBefore(log[..j], log[j], k))
  }

  /** A reply went to another address of the entity, entered before this one. */
  ghost predicate CreditedBefore(log: seq<Event>, reply: Event, k: Key)
    requires reply.Reply?
  {
    && reply.credited.Some? && reply.credited.value != k && reply.credited.value.entity == k.entity
    && Awaits(log, reply.credited.value, reply.id) && Before(Roster(log), reply.credited.value, k)
  }

  lemma ReplyWentElsewhere(log: seq<Event>, i: nat, j: nat, k: Key, lim: Limits)
    requires Lawful(log, lim) && i <= |log| && Pending(log[..i], k) != [] && Pending(log[..i], k)[0].index < j < i
    requires log[j].Reply? && log[j].entity == k.entity && log[j].id == Pending(log[..i], k)[0].id
    ensures CreditedBefore(log[..j], log[j], k)
  {
    assert Permitted(log[..j], log[j], lim);
    StillPending(log, i, k, j);
    PendingIsInTheLog(log[..i], k);
    assert !Settles(log[..i][j], k);
    LawfulPrefix(log, j, lim);
    LawfulRoster(log[..j], lim);
    hide Lawful, Pending, Roster, LastRegistered;
    NobodyAwaitsBefore(log[..j], Roster(log[..j]), k, log[j].id);
  }

  lemma TwoChecks(log: seq<Event>, i: nat, lim: Limits) returns (first: nat, second: nat)
    requires Lawful(log, lim) && i < |log| && log[i].Departed?
    ensures Unanswered(log, i, log[i].key, first, second, lim)
    ensures Pending(log[..i], log[i].key) != [] && Pending(log[..i], log[i].key)[0].index == first
    ensures Pending(log[..i], log[i].key)[0].id == log[first].id
  {
    var k := log[i].key;
    var p := Pending(log[..i], k);
    assert Permitted(log[..i], log[i], lim);
    PendingIsInTheLog(log[..i], k);
    first, second := p[0].index, p[1].index;
    PendingBefore(log[..i], k, 1);
    assert log[..i][..second] == log[..second];
    assert Permitted(log[..second], log[second], lim);
    assert p[..1][0] == p[0];
    hide Permitted, Lawful;
    forall j | first < j < i && log[j].Reply? && log[j].entity == k.entity && log[j].id == log[first].id
      ensures CreditedBefore(log[..j], log[j], k)
    {
      ReplyWentElsewhere(log, i, j, k, lim);
    }
    assert forall j :: first < j < i ==> log[..i][j] == log[j];
  }

  lemma {:induction false} StillPending(log: seq<Event>, i: nat, k: Key, j: nat)
    requires i <= |log| && Pending(log[..i], k) != [] && Pending(log[..i], k)[0].index < j <= i
    ensures Pending(log[..j], k) != [] && Pending(log[..j], k)[0] == Pending(log[..i], k)[0]
    decreases i
  {
    if j < i {
      var n := i - 1;
      assert log[..i][..n] == log[..n];
      PendingIsInTheLog(log[..n], k);
      StillPending(log, n, k, j);
    }
  }

  /**
   A controller is taken for departed only after two CONTROLLER_AVAILABLE with
   one sequence ID, each followed by its whole reply wait, with no command
   from it since the first and no matching reply; a matching reply that came
   was credited to the same entity at another address, entered before it and
   waiting under the same sequence ID.
   */
  lemma DepartedOnlyAfterTwoChecks(log: seq<Event>, i: nat, lim: Limits)
    requires Lawful(log, lim) && i < |log| && log[i].Departed?
    ensures exists first: nat, second: nat :: Unanswered(log, i, log[i].key, first, second, lim)
  {
    var first, second := TwoChecks(log, i, lim);
  }

  // ---- Two addresses of one entity ---------------------------------------

  /** Another address of the controller's entity, entered before it, waits for the very ID it waits for. */
  ghost predicate Twins(log: seq<Event>, k: Key, mac: int) {
    && mac != k.mac && Before(Roster(log), Key(k.entity, mac), k)
    && Pending(log, k) != []
    && Awaits(log, Key(k.entity, mac), Pending(log, k)[0].id)
  }

  /** Two checks unanswered, and between them and the removal no matching reply at all. */
  ghost predicate Silent(log: seq<Event>, i: nat, k: Key, first: nat, second: nat, lim: Limits)
    requires i < |log|
  {
    && Unanswered(log, i, k, first, second, lim)
    && forall j :: first < j < i && log[j].Reply? && log[j].entity == k.entity ==> log[j].id != log[first].id
  }

  ghost predicate WasSilent(log: seq<Event>, i: nat, lim: Limits)
    requires i < |log| && log[i].Departed?
  {
    exists first: nat, second: nat :: Silent(log, i, log[i].key, first, second, lim)
  }

  lemma {:induction false} UnsettledIsPending(log: seq<Event>, k: Key, m: nat) returns (a: nat)
    requires m < |log| && log[m].CheckSent? && log[m].key == k
    requires forall j :: m < j < |log| ==> !Settles(log[j], k)
    ensures a < |Pending(log, k)| && Pending(log, k)[a].index == m
    decreases |log|
  {
    var n := |log| - 1;
    if m == n {
      a := |Pending(log[..n], k)|;
    } else {
      a := UnsettledIsPending(log[..n], k, m);
    }
  }

  /** The two unanswered checks are the last two, so there is one choice of them. */
  lemma FirstIsFirstPending(log: seq<Event>, i: nat, first: nat, second: nat, lim: Limits)
    requires Lawful(log, lim) && i < |log| && log[i].Departed?
    requires Unanswered(log, i, log[i].key, first, second, lim)
    ensures Pending(log[..i], log[i].key) != [] && Pending(log[..i], log[i].key)[0].index == first
  {
    var k := log[i].key;
    assert Permitted(log[..i], log[i], lim);
    var p := Pending(log[..i], k);
    assert |p| == 2;
    hide Lawful, Permitted, Pending, Settles;
    assert forall j :: first < j < i ==> log[..i][j] == log[j];
    var a := UnsettledIsPending(log[..i], k, first);
    var b := UnsettledIsPending(log[..i], k, second);
    PendingIsInTheLog(log[..i], k);
    assert a < b;
  }

  /** A matching reply since the first check is enough to break the silence. */
  lemma NotSilent(log: seq<Event>, i: nat, j: nat, lim: Limits)
    requires Lawful(log, lim) && i < |log| && log[i].Departed?
    requires Pending(log[..i], log[i].key) != [] && Pending(log[..i], log[i].key)[0].index < j < i
    requires log[j].Reply? && log[j].entity == log[i].key.entity && log[j].id == Pending(log[..i], log[i].key)[0].id
    ensures !WasSilent(log, i, lim)
  {
    var k := log[i].key;
    PendingIsInTheLog(log[..i], k);
    forall first: nat, second: nat
      ensures !Silent(log, i, k, first, second, lim)
    {
      if Unanswered(log, i, k, first, second, lim) {
        FirstIsFirstPending(log, i, first, second, lim);
      }
    }
  }

  lemma {:induction false} PendingStays(log: seq<Event>, k: Key, j: nat)
    requires j <= |log| && Pending(log[..j], k) != [] && forall m :: j <= m < |log| ==> !Settles(log[m], k)
    ensures Pending(log, k) != [] && Pending(log, k)[0] == Pending(log[..j], k)[0]
    decreases |log|
  {
    if j < |log| {
      var n := |log| - 1;
      assert log[..n][..j] == log[..j];
      PendingStays(log[..n], k, j);
    } else {
      assert log[..j] == log;
    }
  }

  lemma CreditedToATwin(log: seq<Event>, i: nat, j: nat, k: Key, first: nat, second: nat, lim: Limits)
    requires Lawful(log, lim) && i < |log| && Unanswered(log, i, k, first, second, lim)
    requires Pending(log[..i], k) != []
    requires Pending(log[..i], k)[0].index == first && Pending(log[..i], k)[0].id == log[first].id
    requires first < j < i && log[j].Reply? && log[j].entity == k.entity
    ensures log[j].id == log[first].id ==> exists mac: int :: Twins(log[..j], k, mac)
  {
    StillPending(log, i, k, j);
    assert log[j].id == log[first].id ==> Twins(log[..j], k, log[j].credited.value.mac);
  }

  /** While no earlier address of its entity waits for the same ID, nothing came that could answer. */
  lemma DepartedInSilence(log: seq<Event>, i: nat, lim: Limits)
    requires Lawful(log, lim) && i < |log| && log[i].Departed?
    requires forall j: nat, mac: int :: j < i ==> !Twins(log[..j], log[i].key, mac)
    ensures WasSilent(log, i, lim)
  {
    var k := log[i].key;
    var first, second := TwoChecks(log, i, lim);
    forall j: nat | first < j < i && log[j].Reply? && log[j].entity == k.entity
      ensures log[j].id != log[first].id
    {
      CreditedToATwin(log, i, j, k, first, second, lim);
    }
    assert Silent(log, i, k, first, second, lim);
  }

  lemma NextInRing(n: int)
    ensures (n % ID_LIMIT + 1) % ID_LIMIT == (n + 1) % ID_LIMIT
  {
  }

  /** Sequence IDs count the checks begun. */
  lemma {:induction false} IdsCount(log: seq<Event>, a: nat, b: nat, lim: Limits)
    requires Lawful(log, lim) && a < b <= |log| && Begins(log[..a], log[a])
    ensures Begun(log[..b]) > Begun(log[..a])
    ensures NextCheckId(log[..b]) == Some((log[a].id + Begun(log[..b]) - Begun(log[..a])) % ID_LIMIT)
    decreases b
  {
    var n := b - 1;
    assert log[..b] == log[..n] + [log[n]];
    CountOneMore(log[..n], log[n]);
    assert Permitted(log[..n], log[n], lim);
    if a < n {
      IdsCount(log, a, n, lim);
      hide Begun, NextCheckId, Begins;
      NextInRing(log[a].id + Begun(log[..n]) - Begun(log[..a]));
    }
  }

  lemma {:induction false} BegunGrows(log: seq<Event>, a: nat, b: nat)
    requires a <= b <= |log|
    ensures Begun(log[..a]) <= Begun(log[..b])
    decreases b
  {
    if a < b {
      assert log[..b] == log[..b - 1] + [log[b - 1]];
      CountOneMore(log[..b - 1], log[b - 1]);
      BegunGrows(log, a, b - 1);
    }
  }

  lemma BegunCounts(log: seq<Event>, b: nat)
    requires b < |log| && Begins(log[..b], log[b])
    ensures Begun(log) > Begun(log[..b])
  {
    CountOneMore(log[..b], log[b]);
    assert log[..b + 1] == log[..b] + [log[b]];
    BegunGrows(log, b + 1, |log|);
    assert log[..|log|] == log;
  }

  lemma IdTaken(log: seq<Event>, a: nat, lim: Limits)
    requires Lawful(log, lim) && a < |log| && Begins(log[..a], log[a])
    ensures 0 <= log[a].id < ID_LIMIT
    ensures NextCheckId(log[..a]).Some? ==> log[a].id == NextCheckId(log[..a]).value
  {
    assert Permitted(log[..a], log[a], lim);
  }

  lemma WholeTurns(id: int, d: int)
    requires 0 <= id < ID_LIMIT && d > 0 && (id + d) % ID_LIMIT == id
    ensures d >= ID_LIMIT
  {
  }

  /** Between two checks begun under one sequence ID all 65536 IDs were given out. */
  lemma SameIdAfterAWrap(log: seq<Event>, a: nat, b: nat, lim: Limits)
    requires Lawful(log, lim) && a < b < |log|
    requires Begins(log[..a], log[a]) && Begins(log[..b], log[b]) && log[a].id == log[b].id
    ensures Begun(log[..b]) - Begun(log[..a]) >= ID_LIMIT
    ensures Begun(log) - Begun(log[..a]) > ID_LIMIT
  {
    hide Begun, Lawful, NextCheckId, Pending, Permitted;
    IdsCount(log, a, b, lim);
    BegunCounts(log, b);
    IdTaken(log, a, lim);
    IdTaken(log, b, lim);
    WholeTurns(log[a].id, Begun(log[..b]) - Begun(log[..a]));
  }

  lemma FirstBegins(log: seq<Event>, k: Key)
    requires Pending(log, k) != []
    ensures var p := Pending(log, k)[0];
        p.index < |log| && Begins(log[..p.index], log[p.index]) && log[p.index] == CheckSent(k, p.id, p.at)
  {
    PendingIsInTheLog(log, k);
    PendingBefore(log, k, 0);
  }

  /** Checks begun since the one a controller waits for, itself included. */
  ghost function BegunSince(log: seq<Event>, k: Key): int {
    var p := Pending(log, k);
    if p == [] || p[0].index > |log| then 0 else Begun(log) - Begun(log[..p[0].index])
  }

  /** Two addresses wait under one ID only if all 65536 IDs were given out while one of them waited. */
  lemma TwinsNeedAWrap(log: seq<Event>, k: Key, mac: int, lim: Limits)
    requires Lawful(log, lim) && Twins(log, k, mac)
    ensures BegunSince(log, k) > ID_LIMIT || BegunSince(log, Key(k.entity, mac)) > ID_LIMIT
  {
    var other := Key(k.entity, mac);
    FirstBegins(log, k);
    FirstBegins(log, other);
    var m, n := Pending(log, k)[0].index, Pending(log, other)[0].index;
    hide Lawful, Begun, Pending, Begins;
    SameIdAfterAWrap(log, if m < n then m else n, if m < n then n else m, lim);
  }

  /** No address of the entity waited so far while more than so many checks were begun, its own among them. */
  ghost predicate ShortWaits(log: seq<Event>, i: nat, most: int)
    requires i < |log| && log[i].Departed?
  {
    forall j: nat, mac: int :: j <= i ==> BegunSince(log[..j], Key(log[i].key.entity, mac)) <= most
  }

  /** While no wait outlasts the 65536 sequence IDs, no departed controller's reply went astray. */
  lemma DepartedInSilenceWithinAWrap(log: seq<Event>, i: nat, lim: Limits)
    requires Lawful(log, lim) && i < |log| && log[i].Departed? && ShortWaits(log, i, ID_LIMIT)
    ensures WasSilent(log, i, lim)
  {
    var k := log[i].key;
    forall j: nat, mac: int | j < i
      ensures !Twins(log[..j], k, mac)
    {
      LawfulPrefix(log, j, lim);
      assert BegunSince(log[..j], Key(k.entity, k.mac)) <= ID_LIMIT;
      assert BegunSince(log[..j], Key(k.entity, mac)) <= ID_LIMIT;
      NoTwinsInShortWaits(log[..j], k, mac, lim);
    }
    DepartedInSilence(log, i, lim);
  }

  lemma NoTwinsInShortWaits(log: seq<Event>, k: Key, mac: int, lim: Limits)
    requires Lawful(log, lim) && BegunSince(log, k) <= ID_LIMIT && BegunSince(log, Key(k.entity, mac)) <= ID_LIMIT
    ensures !Twins(log, k, mac)
  {
    hide BegunSince, Lawful;
    if Twins(log, k, mac) {
      TwinsNeedAWrap(log, k, mac, lim);
      assert false;
    }
  }

  /** Nor where at most one controller can be registered. */
  lemma DepartedInSilenceAlone(log: seq<Event>, i: nat, lim: Limits)
    requires Lawful(log, lim) && i < |log| && log[i].Departed? && lim.capacity < 2
    ensures WasSilent(log, i, lim)
  {
    var k := log[i].key;
    forall j: nat, mac: int | j < i
      ensures !Twins(log[..j], k, mac)
    {
      LawfulPrefix(log, j, lim);
      LawfulRoster(log[..j], lim);
    }
    DepartedInSilence(log, i, lim);
  }

  // ---- When checks are made ----------------------------------------------

  /** The last that was heard of a controller: a registration, a command or a reply of its own. */
  ghost predicate HeardAt(log: seq<Event>, i: nat, j: nat, k: Key)
    requires i < j <= |log|
  {
    && Settles(log[i], k) && !Removes(log[i], k)
    && forall m :: i < m < j ==> !Settles(log[m], k)
  }

  ghost function TimeOf(ev: Event): int {
    if ev.Notified? || ev.Deregistered? then 0 else ev.at
  }

  /** The first in a list of keys that waits, found by its place. */
  lemma {:induction false} FirstAwaitingAt(log: seq<Event>, keys: seq<Key>, i: nat, entity: int, id: int)
    requires i <= |keys|
    requires forall j :: 0 <= j < i ==> !(keys[j].entity == entity && Awaits(log, keys[j], id))
    requires i < |keys| ==> keys[i].entity == entity && Awaits(log, keys[i], id)
    ensures FirstAwaiting(log, keys, entity, id) == if i < |keys| then Some(keys[i]) else None
  {
    if i > 0 {
      FirstAwaitingAt(log, keys[1..], i - 1, entity, id);
    }
  }

  lemma {:induction false} CheckFromSince(log: seq<Event>, i: nat, j: nat, k: Key) returns (r: nat)
    requires i < j <= |log| && HeardAt(log, i, j, k)
    ensures i <= r < j
    ensures if r == i then CheckFrom(log[..j], k) == TimeOf(log[i]) + CHECK_MIN
            else log[r].Refused? && CheckFrom(log[..j], k) == TimeOf(log[r])
    decreases j
  {
    var n := j - 1;
    assert log[..j][..n] == log[..n];
    if n == i || (log[n].Refused? && Pending(log[..n], k) == []) {
      r := n;
    } else {
      r := CheckFromSince(log, i, n, k);
    }
  }

  /**
   A controller is checked no sooner than 30 s after it was last heard of,
   unless a newcomer was refused since, which happens to a full list alone.
   */
  lemma ChecksAreSpaced(log: seq<Event>, i: nat, j: nat, k: Key, lim: Limits) returns (r: nat)
    requires Lawful(log, lim) && i < j < |log| && HeardAt(log, i, j, k)
    requires log[j].CheckSent? && log[j].key == k && Begins(log[..j], log[j])
    ensures i <= r < j
    ensures if r == i then log[j].at >= TimeOf(log[i]) + CHECK_MIN
            else log[r].Refused? && log[j].at >= log[r].at && |Roster(log[..r])| >= lim.capacity
  {
    r := CheckFromSince(log, i, j, k);
    assert Permitted(log[..j], log[j], lim);
    assert Permitted(log[..r], log[r], lim);
  }

  lemma {:induction false} NotesCount(log: seq<Event>, k: Key, kind: Kind, i: nat, j: nat)
    requires i <= j <= |log|
    requires forall m :: i <= m < j ==> !(log[m].Registered? && log[m].key == k && log[m].isNew)
    requires forall m :: i <= m < j ==> !(log[m].Notified? && log[m].key == k && log[m].kind == kind)
    ensures Notes(log[..j], k, kind) == Notes(log[..i], k, kind)
    decreases j
  {
    if i < j {
      assert log[..j][..j - 1] == log[..j - 1];
      NotesCount(log, k, kind, i, j - 1);
    }
  }

  /**
   Notification sequence IDs of a kind run without gaps for as long as the
   entry lives, however often its controller registers again.
   */
  lemma NotificationsRunWithoutGaps(log: seq<Event>, k: Key, kind: Kind, i: nat, j: nat, lim: Limits)
    requires Lawful(log, lim) && i < j < |log|
    requires log[i].Notified? && log[j].Notified?
    requires log[i].key == log[j].key == k && log[i].kind == log[j].kind == kind
    requires forall m :: i < m < j ==> !(log[m].Registered? && log[m].key == k && log[m].isNew)
    requires forall m :: i < m < j ==> !(log[m].Notified? && log[m].key == k && log[m].kind == kind)
    ensures log[j].id == (log[i].id + 1) % ID_LIMIT
  {
    assert Permitted(log[..i], log[i], lim) && Permitted(log[..j], log[j], lim);
    NotesCount(log, k, kind, i + 1, j);
    assert log[..i + 1][..i] == log[..i];
  }

  /** Only a time-limited registration lapses, 300 s after it was last made. */
  lemma {:induction false} LapsedOnlyWhenOverdue(log: seq<Event>, i: nat, lim: Limits) returns (r: nat)
    requires Lawful(log, lim) && i < |log| && log[i].Lapsed?
    ensures r < i && log[r].Registered? && log[r].key == log[i].key && log[r].limited
    ensures log[i].at >= log[r].at + TIME_LIMIT
    ensures forall j :: r < j < i && log[j].Registered? ==> log[j].key != log[i].key
  {
    assert Permitted(log[..i], log[i], lim);
    r := FindRegistered(log[..i], log[i].key);
    assert forall j :: r < j < i ==> log[..i][j] == log[j];
  }

  lemma {:induction false} FindRegistered(log: seq<Event>, k: Key) returns (r: nat)
    requires LastRegistered(log, k).Some?
    ensures r < |log| && log[r].Registered? && log[r].key == k
    ensures LastRegistered(log, k) == Some((log[r].limited, log[r].at))
    ensures forall j :: r < j < |log| ==> !(log[j].Registered? && log[j].key == k)
  {
    var n := |log| - 1;
    if log[n].Registered? && log[n].key == k {
      r := n;
    } else {
      r := FindRegistered(log[..n], k);
    }
  }
}
