/**
 Runs of a talker stream that take an answer from under a connected listener:
 no command of its own, yet what it was told is no longer the stream's.
 */
module TalkerRuns {
  import opened Basics
  import opened StreamIdentity
  import opened TalkerLog
  import opened TalkerTable

  /** In an empty table a connecting listener is given the first row and a free choice of class. */
  lemma FirstRow(l: Identity, max: nat)
    requires max > 0
    ensures !NoRoom([], l, max) && NoOther([], FirstIdentity([], l))
    ensures forall placed, at :: Placed([], l, max, placed, at) ==> placed == [NewRow(l)] && at == 0
  {
    assert Sole([], -1);
  }

  /** Nothing reserved elsewhere, no format with a class of its own, Class B in VLAN 3. */
  function Plain(): Surroundings {
    Surroundings(true, false, None, [2, 3], true, false, [false, false, false, false], true)
  }

  /** The only listener of a stream connects, for the class it has. */
  method ConnectAlone(stream: TalkerStream, l: Identity, now: int) returns (told: Answer)
    requires stream.Valid() && stream.clock <= now && stream.rows == [] && stream.maxRows == 2
    requires !stream.wifi && !stream.streaming
    modifies stream
    ensures stream.Valid() && stream.lite == old(stream.lite) && !stream.streaming
    ensures stream.clock == old(stream.clock) && stream.gen == old(stream.gen)
    ensures stream.Current() == old(stream.Current()) == told && stream.rows == [ConnectedRow(NewRow(l), now)]
    ensures stream.log == old(stream.log) + [Commanded(l.entity), Answered(l, told)]
  {
    hide Tracks, Rested, IdOf, Placed, NoOther, NoRoom, Connections, Held, Connected, NextOr, VlanOf, Renews,
         KeepConnected, ClassFlip, FirstIdentity;
    FirstRow(l, 2);
    ghost var begun := stream.log;
    var r, placed, at := stream.Connect(l, stream.classB, Plain(), now);
    told := r.answer;
    assert stream.log == begun + [Commanded(l.entity)] + [] + [Answered(l, told)];
    assert stream.log == begun + [Commanded(l.entity), Answered(l, told)];
  }

  /** A stream of Class A in VLAN 2, and a listener that connects to it. */
  method FirstConnection(mac: seq<int>, lite: bool, l: Identity) returns (stream: TalkerStream, told: Answer)
    requires |mac| == 6
    ensures fresh(stream) && stream.Valid() && !stream.streaming && stream.lite == lite && !stream.wifi
    ensures stream.clock == 0 && stream.gen == 0 && stream.maxRows == 2
    ensures told == Answer(FromMac(mac, 0), false, 2) && stream.Current() == told
    ensures stream.rows == [ConnectedRow(NewRow(l), 1)]
    ensures stream.log == [Booted(told), Commanded(l.entity), Answered(l, told)]
  {
    hide Tracks, Rested, IdOf;
    stream := new TalkerStream(2, mac, 0, lite, false, false, 2);
    told := ConnectAlone(stream, l, 1);
  }

  /** A connected listener that does not stream yet: a new format changes class and VLAN. */
  method NewFormatOvertakesAnswer(mac: seq<int>, l: Identity)
    returns (told: Answer, later: Answer, ghost log: seq<Event>)
    requires |mac| == 6
    ensures told.classB != later.classB && told.vlan != later.vlan
    ensures Lawful(log) && |log| > 3 && log[2] == Answered(l, told) && Unheard(log, 2, |log|)
    ensures !Forgotten(log, 2, |log|) && Latest(log) == Some(later)
  {
    var stream;
    stream, told := FirstConnection(mac, false, l);
    var ok := stream.SetFormat(true, Some(true), true, Plain(), 2);
    stream.LogIsLawful();
    later, log := stream.Current(), stream.log;
    assert log == [Booted(told), Commanded(l.entity), Answered(l, told), Overridden(NewFormat, later), Declared(0, 2)];
  }

  /** Entering AVB Lite puts the media into another VLAN. */
  method NewModeOvertakesAnswer(mac: seq<int>, l: Identity)
    returns (told: Answer, later: Answer, ghost log: seq<Event>)
    requires |mac| == 6
    ensures told.classB == later.classB && told.vlan != later.vlan
    ensures Lawful(log) && |log| > 3 && log[2] == Answered(l, told) && Unheard(log, 2, |log|)
    ensures !Forgotten(log, 2, |log|) && Latest(log) == Some(later)
  {
    var stream;
    stream, told := FirstConnection(mac, false, l);
    stream.SwitchMode(true, [0, 0], Plain(), 2);
    stream.LogIsLawful();
    later, log := stream.Current(), stream.log;
    assert log == [Booted(told), Commanded(l.entity), Answered(l, told), Overridden(NewMode, later), Declared(0, 2)];
  }

  /** In AVB Lite a connected listener's row is aged out after 16 s without a refresh. */
  method AgedConnection(mac: seq<int>, l: Identity) returns (stream: TalkerStream, told: Answer)
    requires |mac| == 6
    ensures fresh(stream) && stream.Valid() && stream.lite && !stream.wifi && !stream.streaming && stream.maxRows == 2
    ensures stream.clock == 0 && stream.gen == 0 && stream.rows == []
    ensures stream.Current() == told && !told.classB && told.vlan == 2
    ensures stream.log == [Booted(told), Commanded(l.entity), Answered(l, told), Aged(l)]
  {
    stream, told := FirstConnection(mac, true, l);
    hide Tracks, Rested, IdOf;
    stream.AgeOut(16_000_002);
  }

  /** Another entity then chooses class and VLAN. */
  method AgedAnswerIsOvertaken(mac: seq<int>, l: Identity, other: Identity)
    returns (told: Answer, later: Answer, ghost log: seq<Event>)
    requires |mac| == 6 && other.entity != l.entity
    ensures told.classB != later.classB && told.vlan != later.vlan
    ensures Lawful(log) && |log| > 3 && log[2] == Answered(l, told) && Unheard(log, 2, |log|)
    ensures (forall m :: 2 < m < |log| ==> !log[m].Overridden?) && Latest(log) == Some(later)
  {
    hide Tracks, Rested, IdOf, Placed, NoOther, NoRoom, Connections, Held, Connected, Latest, Lawful;
    var stream;
    stream, told := AgedConnection(mac, l);
    ghost var begun := stream.log;
    FirstRow(other, 2);
    var r, placed, at := stream.Connect(other, true, Plain(), 16_000_002);
    stream.LogIsLawful();
    later, log := stream.Current(), stream.log;
    assert log == begun + [Commanded(other.entity), Became(later), Declared(0, 16_000_002), Answered(other, later)];
  }

  /** The boot ID is withdrawn by a renewal, and declared again at once after a restart. */
  method BootIdComesBackAtOnce(mac: seq<int>) returns (id: StreamId, renewed: StreamId, ghost log: seq<Event>)
    requires |mac| == 6
    ensures id == FromMac(mac, 0) && renewed == IdOf(mac, 0, 1) && renewed != id
    ensures Lawful(log) && |log| == 6 && log[1] == Withdrawn(0, REUSE) && log[4].Booted? && log[5] == Declared(0, 0)
  {
    hide Tracks, Rested, KeepConnected, Connected;
    var stream := new TalkerStream(2, mac, 0, false, false, false, 2);
    ghost var first := stream.Current();
    assert NextGeneration(0, 1, [0, 0, 0, 0], REUSE, [true, true, true, true]) == Some(1);
    stream.PeriodicDeclare(true, REUSE, true, [true, true, true, true]);
    renewed := stream.id;
    ghost var second := stream.Current();
    assert stream.log == [Booted(first), Withdrawn(0, REUSE), Became(second), Declared(1, REUSE)];
    stream.Reboot(false, false, 2);
    stream.PeriodicDeclare(true, 0, false, [true, true, true, true]);
    stream.LogIsLawful();
    id, log := stream.id, stream.log;
    SameIdSameGeneration(mac, 0, 0, 1);
  }
}
