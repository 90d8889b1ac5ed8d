/**
 What a talker owes the listeners of a stream (section 8.2 of IEEE
 1722.1-2021), told as a log: commands as they come, what they were answered,
 and every change and declaration of the stream's ID, class and VLAN.
 */
module TalkerLog {
  import opened Basics
  import opened StreamIdentity

  /** A listener, as ACMP names it. */
  datatype Identity = Identity(entity: int, uid: int)

  /** What a connecting listener is told about the stream. */
  datatype Answer = Answer(streamId: StreamId, classB: bool, vlan: int)

  /** What rewrites a stream's class or VLAN over the heads of its listeners. */
  datatype Cause = NewFormat | NewMode

  /** Times are microseconds since the last restart. */
  datatype Event =
    | Booted(answer: Answer)
    | Commanded(entity: int)
    | Answered(listener: Identity, answer: Answer)
    | Became(answer: Answer)
    | Overridden(cause: Cause, answer: Answer)
    | Aged(listener: Identity)
    | Declared(gen: nat, at: int)
    | Withdrawn(gen: nat, at: int)

  predicate Changes(ev: Event) {
    ev.Became? || ev.Overridden? || ev.Booted?
  }

  /** After this, what a listener was told is owed to it no longer. */
  predicate Voids(ev: Event, l: Identity) {
    ev == Commanded(l.entity) || ev == Aged(l) || ev.Booted?
  }

  /** A listener was answered; since then nothing came from its entity and its row was not forgotten. */
  ghost predicate Held(log: seq<Event>, l: Identity) {
    log != [] &&
    var n := |log| - 1;
    if log[n].Answered? && log[n].listener == l then true
    else if Voids(log[n], l) then false
    else Held(log[..n], l)
  }

  /** What the stream last became. */
  ghost function Latest(log: seq<Event>): Option<Answer> {
    if log == [] then None
    else if Changes(log[|log| - 1]) then Some(log[|log| - 1].answer)
    else Latest(log[..|log| - 1])
  }

  /** What happened since the last restart. */
  ghost function Uptime(log: seq<Event>): seq<Event> {
    if log == [] then []
    else
      var n := |log| - 1;
      if log[n].Booted? then [] else Uptime(log[..n]) + [log[n]]
  }

  lemma UptimeOneMore(log: seq<Event>, ev: Event)
    ensures Uptime(log + [ev]) == if ev.Booted? then [] else Uptime(log) + [ev]
  {
    assert (log + [ev])[..|log|] == log;
  }

  ghost predicate Permitted(log: seq<Event>, ev: Event) {
    match ev
    case Booted(_) => true
    case Commanded(_) => true
    case Answered(_, answer) => Latest(log) == Some(answer)
    case Became(_) => forall l :: !Held(log, l)
    case Overridden(cause, answer) =>
      && Latest(log).Some?
      && answer.streamId == Latest(log).value.streamId
      && (cause.NewMode? ==> answer.classB == Latest(log).value.classB)
    case Aged(_) => true
    case Declared(gen, at) =>
      && (forall w :: w in Uptime(log) && w.Withdrawn? && w.gen == gen ==> at >= w.at + REUSE)
      && (gen != 0 ==> at >= REUSE)
    case Withdrawn(_, _) => true
  }

  ghost predicate Lawful(log: seq<Event>) {
    forall i :: 0 <= i < |log| ==> Permitted(log[..i], log[i])
  }

  lemma LawfulOneMore(log: seq<Event>, ev: Event)
    requires Lawful(log) && Permitted(log, ev)
    ensures Lawful(log + [ev])
  {
    hide Permitted;
    var more := log + [ev];
    forall i | 0 <= i < |more|
      ensures Permitted(more[..i], more[i])
    {
      assert more[..i] == log[..i];
      if i == |log| {
        assert log[..i] == log;
      }
    }
  }

  lemma OneMore(log: seq<Event>, ev: Event)
    ensures Latest(log + [ev]) == if Changes(ev) then Some(ev.answer) else Latest(log)
    ensures forall l :: Held(log + [ev], l) == if ev.Answered? && ev.listener == l then true
                                              else if Voids(ev, l) then false
                                              else Held(log, l)
  {
    assert (log + [ev])[..|log|] == log;
  }

  // ---- Theorems ----------------------------------------------------------

  /** The listener of an answer was not heard from up to there. */
  ghost predicate Unheard(log: seq<Event>, i: nat, j: nat)
    requires i < j <= |log| && log[i].Answered?
  {
    forall m :: i < m < j ==> log[m] != Commanded(log[i].listener.entity)
  }

  /** The row of the listener of an answer was aged out, or lost in a restart, up to there. */
  ghost predicate Forgotten(log: seq<Event>, i: nat, j: nat)
    requires i < j <= |log| && log[i].Answered?
  {
    exists m :: i < m < j && (log[m] == Aged(log[i].listener) || log[m].Booted?)
  }

  /**
   An event that may take an answer from under its listener: a new format or
   mode, a restart, or, once the row was forgotten, any change at all.
   */
  ghost predicate Disturbs(log: seq<Event>, i: nat, m: nat)
    requires i < m < |log| && log[i].Answered?
  {
    log[m].Overridden? || log[m].Booted? || (log[m].Became? && Forgotten(log, i, m))
  }

  lemma {:induction false} HeldSince(log: seq<Event>, i: nat, j: nat)
    requires i < j <= |log| && log[i].Answered? && Unheard(log, i, j) && !Forgotten(log, i, j)
    ensures Held(log[..j], log[i].listener)
    decreases j
  {
    OneMore(log[..j - 1], log[j - 1]);
    assert log[..j] == log[..j - 1] + [log[j - 1]];
    if i + 1 < j {
      HeldSince(log, i, j - 1);
    }
  }

  /** Whatever changes the stream while an answer stands is one of those events. */
  lemma ChangesDisturb(log: seq<Event>, i: nat, m: nat)
    requires Lawful(log) && i < m < |log| && log[i].Answered? && Unheard(log, i, m) && Changes(log[m])
    ensures Disturbs(log, i, m)
  {
    assert Permitted(log[..m], log[m]);
    if !Forgotten(log, i, m) {
      HeldSince(log, i, m);
    }
  }

  /** The stream is as it was answered. */
  ghost predicate IsCurrent(log: seq<Event>, i: nat, m: nat)
    requires i < m <= |log| && log[i].Answered?
  {
    Latest(log[..m]) == Some(log[i].answer)
  }

  lemma OneMoreIsCurrent(log: seq<Event>, i: nat, j: nat)
    requires Lawful(log) && i < j <= |log| && log[i].Answered?
    ensures IsCurrent(log, i, j) == if j == i + 1 then true
                                    else if Changes(log[j - 1]) then log[j - 1].answer == log[i].answer
                                    else IsCurrent(log, i, j - 1)
  {
    OneMore(log[..j - 1], log[j - 1]);
    assert log[..j] == log[..j - 1] + [log[j - 1]];
    assert Permitted(log[..j - 1], log[j - 1]);
  }

  /**
   Until its entity commands again an answer stays the stream's own exactly if
   every new format or mode, every restart, and once the row was forgotten every
   change, says the same as the answer did.
   */
  lemma {:induction false} AnswersStayCurrentExactly(log: seq<Event>, i: nat, j: nat)
    requires Lawful(log) && i < j <= |log| && log[i].Answered? && Unheard(log, i, j)
    ensures (forall m :: i < m <= j ==> IsCurrent(log, i, m))
       <==> (forall m :: i < m < j && Disturbs(log, i, m) ==> log[m].answer == log[i].answer)
    decreases j
  {
    OneMoreIsCurrent(log, i, j);
    if i + 1 < j {
      AnswersStayCurrentExactly(log, i, j - 1);
      if Changes(log[j - 1]) {
        ChangesDisturb(log, i, j - 1);
      }
      hide Lawful, IsCurrent, Forgotten, Unheard;
      assert (forall m :: i < m <= j ==> IsCurrent(log, i, m))
        <==> (forall m :: i < m <= j - 1 ==> IsCurrent(log, i, m)) && IsCurrent(log, i, j);
    }
  }

  /**
   An answer stays the stream's own until its entity commands again, its row is
   forgotten, or the stream gets a new format's class or another mode's VLAN.
   */
  lemma AnswersStayCurrent(log: seq<Event>, i: nat, j: nat)
    requires Lawful(log) && i < j <= |log| && log[i].Answered? && Unheard(log, i, j)
    requires !Forgotten(log, i, j) && forall m :: i < m < j ==> !log[m].Overridden?
    ensures Held(log[..j], log[i].listener)
    ensures Latest(log[..j]) == Some(log[i].answer)
  {
    HeldSince(log, i, j);
    AnswersStayCurrentExactly(log, i, j);
    assert IsCurrent(log, i, j);
  }

  /** New formats and modes leave the stream ID alone: it changes only once the row was forgotten. */
  lemma {:induction false} AnsweredIdStays(log: seq<Event>, i: nat, j: nat)
    requires Lawful(log) && i < j <= |log| && log[i].Answered? && Unheard(log, i, j) && !Forgotten(log, i, j)
    ensures Latest(log[..j]).Some? && Latest(log[..j]).value.streamId == log[i].answer.streamId
    decreases j
  {
    OneMore(log[..j - 1], log[j - 1]);
    assert log[..j] == log[..j - 1] + [log[j - 1]];
    assert Permitted(log[..j - 1], log[j - 1]);
    if i + 1 < j {
      AnsweredIdStays(log, i, j - 1);
      if log[j - 1].Became? {
        HeldSince(log, i, j - 1);
      }
    }
  }

  /** No restart in between. */
  ghost predicate StaysUp(log: seq<Event>, i: nat, j: nat)
    requires i < j <= |log|
  {
    forall m :: i < m < j ==> !log[m].Booted?
  }

  lemma {:induction false} StillUp(log: seq<Event>, i: nat, j: nat)
    requires i < j <= |log| && !log[i].Booted? && StaysUp(log, i, j)
    ensures log[i] in Uptime(log[..j])
    decreases j
  {
    assert log[..j] == log[..j - 1] + [log[j - 1]];
    UptimeOneMore(log[..j - 1], log[j - 1]);
    if i + 1 < j {
      StillUp(log, i, j - 1);
    }
  }

  /**
   An ID withdrawn by a renewal is not declared again by its stream until 32 s
   have passed; when a restart comes in between, not in its first 32 s, unless
   it is the ID the stream boots with.
   */
  lemma WithdrawnIdsRest(log: seq<Event>, mac: seq<int>, uid: nat, i: nat, j: nat)
    requires Lawful(log) && |mac| == 6 && uid < 64 && i < j < |log|
    requires log[i].Withdrawn? && log[j].Declared? && log[i].gen < GENERATIONS && log[j].gen < GENERATIONS
    requires IdOf(mac, uid, log[i].gen) == IdOf(mac, uid, log[j].gen)
    ensures StaysUp(log, i, j) ==> log[j].at >= log[i].at + REUSE
    ensures log[i].gen != 0 ==> log[j].at >= REUSE
  {
    SameIdSameGeneration(mac, uid, log[i].gen, log[j].gen);
    assert Permitted(log[..j], log[j]);
    if StaysUp(log, i, j) {
      StillUp(log, i, j);
    }
  }

  /** A generation is withdrawn and, after a restart, declared. */
  ghost predicate ComesBack(log: seq<Event>, i: nat, j: nat, gen: nat) {
    && i < j < |log| && !StaysUp(log, i, j)
    && log[i].Withdrawn? && log[i].gen == gen && log[j].Declared? && log[j].gen == gen
  }

  /** Only in every case after 32 s. */
  ghost predicate RestsOverRestarts(gen: nat) {
    forall log: seq<Event>, i: nat, j: nat :: Lawful(log) && ComesBack(log, i, j, gen) ==> log[j].at >= REUSE
  }

  /** The ID a stream boots with is withdrawn, and declared as soon as it boots again. */
  function Restarted(a: Answer, b: Answer): seq<Event> {
    [Booted(a), Withdrawn(0, REUSE), Became(b), Booted(a), Declared(0, 0)]
  }

  lemma RestartIsLawful(a: Answer, b: Answer)
    ensures Lawful(Restarted(a, b)) && ComesBack(Restarted(a, b), 1, 4, 0)
  {
    var log := Restarted(a, b);
    var l1, l2, l3 := [Booted(a)], [Booted(a), Withdrawn(0, REUSE)], [Booted(a), Withdrawn(0, REUSE), Became(b)];
    assert l1 == [] + [log[0]] && l2 == l1 + [log[1]] && l3 == l2 + [log[2]];
    var l4 := l3 + [log[3]];
    assert log == l4 + [log[4]] && log[3].Booted?;
    OneMore([], log[0]);
    OneMore(l1, log[1]);
    UptimeOneMore(l3, log[3]);
    assert forall l :: !Held([], l);
    hide Held, Latest, Uptime;
    LawfulOneMore([], log[0]);
    LawfulOneMore(l1, log[1]);
    LawfulOneMore(l2, log[2]);
    LawfulOneMore(l3, log[3]);
    LawfulOneMore(l4, log[4]);
  }

  /** So over restarts every ID rests but the one the stream boots with. */
  lemma RestsOverRestartsExactly(gen: nat)
    ensures RestsOverRestarts(gen) <==> gen != 0
  {
    if gen != 0 {
      forall log: seq<Event>, i: nat, j: nat | Lawful(log) && ComesBack(log, i, j, gen)
        ensures log[j].at >= REUSE
      {
        assert Permitted(log[..j], log[j]);
      }
    } else {
      var a := Answer([], false, 0);
      RestartIsLawful(a, a);
      assert Restarted(a, a)[4].at == 0;
    }
  }
}
