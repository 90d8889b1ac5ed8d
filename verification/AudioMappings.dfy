/**
 The ADD_AUDIO_MAPPINGS and REMOVE_AUDIO_MAPPINGS commands on the input port
 (sections 7.4.45 and 7.4.46 of IEEE 1722.1-2021): all or none, with the
 mappings an add replaces announced as removed before the command is echoed.
 */
module AudioMappings {
  import opened Basics

  const UNMAPPED: int := 0xFFFF
  const MAX_MSG_MAPPINGS: nat := 62

  datatype Mapping = Mapping(streamIndex: int, source: int, clusterOffset: int, channel: int)

  datatype Status = Success | BadArguments | NotSupported | NoSuchDescriptor

  datatype DescriptorType = StreamPortInput | StreamPortOutput | OtherType

  /** What a command says besides its mappings. */
  datatype Header = Header(add: bool, descriptorType: DescriptorType, descriptorIndex: int,
                           count: nat, talker: bool, audioInput: bool, formatChannels: nat)

  /** A pair (source, channel), as controllers keep them. */
  type Pair = (int, int)

  function PortStatus(h: Header): Status {
    if h.descriptorIndex != 0 then NoSuchDescriptor
    else if h.descriptorType == StreamPortInput then Success
    else if h.descriptorType == StreamPortOutput && h.talker then NotSupported
    else NoSuchDescriptor
  }

  predicate ValidMapping(h: Header, channels: nat, m: Mapping) {
    && m.streamIndex == 0 && h.audioInput
    && m.clusterOffset == 0 && 0 <= m.channel < channels
    && 0 <= m.source < h.formatChannels
  }

  // ---- What a command means ----------------------------------------------

  /** Every entry is valid on its own. */
  ghost predicate AllValid(h: Header, channels: nat, entries: set<Mapping>) {
    forall m :: m in entries ==> ValidMapping(h, channels, m)
  }

  /** No cluster channel is given two sources. */
  ghost predicate OneSourceEach(entries: set<Mapping>) {
    forall m, n :: m in entries && n in entries && m.channel == n.channel ==> m.source == n.source
  }

  /** Every entry names a mapping that is there. */
  ghost predicate AllPresent(sources: seq<int>, entries: set<Mapping>) {
    forall m :: m in entries ==> 0 <= m.channel < |sources| && sources[m.channel] == m.source
  }

  /** What a command's entries must satisfy to be carried out. */
  ghost predicate Agreeable(sources: seq<int>, h: Header, entries: set<Mapping>) {
    && AllValid(h, |sources|, entries)
    && (if h.add then OneSourceEach(entries) else AllPresent(sources, entries))
  }

  ghost predicate Acceptable(sources: seq<int>, h: Header, mappings: seq<Mapping>) {
    && PortStatus(h) == Success
    && h.count <= MAX_MSG_MAPPINGS && h.count <= |mappings|
    && Agreeable(sources, h, Entries(mappings, h.count))
  }

  /**
   Every entry names stream 0 of an audio input, cluster 0, a channel of the
   port and of the stream's format; an add gives no channel two sources, and a
   remove names only mappings that are there.
   */
  ghost predicate CanBeDone(sources: seq<int>, h: Header, entries: set<Mapping>) {
    && (forall m :: m in entries ==>
          && m.streamIndex == 0 && h.audioInput && m.clusterOffset == 0
          && 0 <= m.channel < |sources| && 0 <= m.source < h.formatChannels)
    && (h.add ==> forall m, n :: m in entries && n in entries && m.channel == n.channel ==> m.source == n.source)
    && (!h.add ==> forall m :: m in entries ==> sources[m.channel] == m.source)
  }

  lemma AgreeableInFull(sources: seq<int>, h: Header, mappings: seq<Mapping>)
    ensures h.count <= |mappings| ==>
        (Agreeable(sources, h, Entries(mappings, h.count)) <==> CanBeDone(sources, h, Entries(mappings, h.count)))
  {
    hide Entries;
    if h.count <= |mappings| {
      var entries := Entries(mappings, h.count);
      forall m | m in entries
        ensures ValidMapping(h, |sources|, m) <==>
            && m.streamIndex == 0 && h.audioInput && m.clusterOffset == 0
            && 0 <= m.channel < |sources| && 0 <= m.source < h.formatChannels
      {
      }
    }
  }

  /** The first entries of a command, as many as it says it has. */
  ghost function Entries(mappings: seq<Mapping>, count: nat): set<Mapping>
    requires count <= |mappings|
  {
    set i | 0 <= i < count :: mappings[i]
  }

  ghost predicate Named(entries: set<Mapping>, channel: int) {
    exists m :: m in entries && m.channel == channel
  }

  /** The map an accepted command leaves. */
  ghost predicate Applied(before: seq<int>, after: seq<int>, add: bool, entries: set<Mapping>) {
    && |after| == |before|
    && (forall m :: m in entries && 0 <= m.channel < |after| ==>
          after[m.channel] == if add then m.source else UNMAPPED)
    && (forall c :: 0 <= c < |after| && !Named(entries, c) ==> after[c] == before[c])
  }

  /** The mappings of a map, as a controller's replica keeps them. */
  ghost function Pairs(sources: seq<int>): set<Pair> {
    set c | 0 <= c < |sources| && sources[c] != UNMAPPED :: (sources[c], c)
  }

  ghost function PairsOf(entries: set<Mapping>): set<Pair> {
    set m | m in entries :: (m.source, m.channel)
  }

  /** The mappings an add takes away from the channels it names. */
  ghost function Replaced(before: seq<int>, entries: set<Mapping>): set<Pair> {
    set m | m in entries && 0 <= m.channel < |before|
         && before[m.channel] != UNMAPPED && before[m.channel] != m.source :: (before[m.channel], m.channel)
  }

  ghost function SetOf(pairs: seq<Pair>): set<Pair> {
    set i | 0 <= i < |pairs| :: pairs[i]
  }

  // ---- What commands promise ---------------------------------------------

  /** The order and repetition of entries make no difference. */
  lemma OnlyTheSetMatters(before: seq<int>, a: seq<int>, b: seq<int>, add: bool, entries: set<Mapping>)
    requires Applied(before, a, add, entries) && Applied(before, b, add, entries)
    ensures a == b
  {
    forall c | 0 <= c < |a|
      ensures a[c] == b[c]
    {
      if Named(entries, c) {
        var m :| m in entries && m.channel == c;
        assert a[m.channel] == b[m.channel];
      }
    }
  }

  /**
   A controller's replica stays in step: the announced removal, then the
   echoed add, turn the old mappings into the new ones.
   */
  lemma ReplicaFollowsAdd(before: seq<int>, after: seq<int>, h: Header, entries: set<Mapping>)
    requires h.add && h.formatChannels <= UNMAPPED && Agreeable(before, h, entries)
    requires Applied(before, after, true, entries)
    ensures Pairs(after) == (Pairs(before) - Replaced(before, entries)) + PairsOf(entries)
    ensures Replaced(before, entries) == Pairs(before) - Pairs(after)
  {
    forall c | 0 <= c < |after|
      ensures Named(entries, c) ==> (after[c], c) in PairsOf(entries)
      ensures Named(entries, c) && before[c] != UNMAPPED && before[c] != after[c] ==>
          (before[c], c) in Replaced(before, entries)
    {
      if Named(entries, c) {
        var m :| m in entries && m.channel == c;
        assert ValidMapping(h, |before|, m);
      }
    }
    forall p
      ensures p in Pairs(after) <==> p in (Pairs(before) - Replaced(before, entries)) + PairsOf(entries)
    {
      if p in PairsOf(entries) {
        var m :| m in entries && p == (m.source, m.channel);
        assert ValidMapping(h, |before|, m);
        assert after[m.channel] == m.source;
      }
    }
    forall p
      ensures p in Replaced(before, entries) <==> p in Pairs(before) - Pairs(after)
    {
      if p in Replaced(before, entries) {
        var m :| m in entries && p == (before[m.channel], m.channel) && before[m.channel] != m.source;
        assert after[m.channel] == m.source;
      }
    }
  }

  lemma ReplicaFollowsRemove(before: seq<int>, after: seq<int>, h: Header, entries: set<Mapping>)
    requires !h.add && h.formatChannels <= UNMAPPED && Agreeable(before, h, entries)
    requires Applied(before, after, false, entries)
    ensures Pairs(after) == Pairs(before) - PairsOf(entries)
    ensures PairsOf(entries) <= Pairs(before)
  {
    forall m | m in entries
      ensures (m.source, m.channel) in Pairs(before) && after[m.channel] == UNMAPPED
    {
      assert ValidMapping(h, |before|, m);
    }
    forall p
      ensures p in Pairs(after) <==> p in Pairs(before) - PairsOf(entries)
    {
      if p in Pairs(before) && Named(entries, p.1) {
        var m :| m in entries && m.channel == p.1;
        assert (m.source, m.channel) in PairsOf(entries);
      }
    }
  }

  /** What an add put in can be removed; that restores the map it replaced nothing of. */
  lemma RemoveUndoesAddExactly(before: seq<int>, added: seq<int>, restored: seq<int>, h: Header,
                               entries: set<Mapping>)
    requires h.add && h.formatChannels <= UNMAPPED && Agreeable(before, h, entries)
    requires Applied(before, added, true, entries) && Applied(added, restored, false, entries)
    ensures Agreeable(added, h.(add := false), entries)
    ensures restored == before <==> forall m :: m in entries ==> before[m.channel] == UNMAPPED
  {
    forall m | m in entries
      ensures ValidMapping(h.(add := false), |added|, m) && added[m.channel] == m.source
      ensures restored[m.channel] == UNMAPPED
    {
      assert ValidMapping(h, |before|, m);
    }
    if forall m :: m in entries ==> before[m.channel] == UNMAPPED {
      forall c | 0 <= c < |before|
        ensures restored[c] == before[c]
      {
        if Named(entries, c) {
          var m :| m in entries && m.channel == c;
          assert restored[m.channel] == UNMAPPED == before[m.channel];
        }
      }
    }
  }

  /** The announcement has room for every replaced mapping. */
  lemma {:induction false} ReplacedIsNoLarger(before: seq<int>, entries: set<Mapping>)
    ensures |Replaced(before, entries)| <= |entries|
    decreases |entries|
  {
    if entries != {} {
      var m :| m in entries;
      var rest := entries - {m};
      ReplacedIsNoLarger(before, rest);
      var p := if 0 <= m.channel < |before| then before[m.channel] else UNMAPPED;
      assert Replaced(before, entries) <= Replaced(before, rest) + {(p, m.channel)};
      SubsetSize(Replaced(before, entries), Replaced(before, rest) + {(p, m.channel)});
    }
  }

  lemma {:induction false} EntriesAreNoMore(mappings: seq<Mapping>, count: nat)
    requires count <= |mappings|
    ensures |Entries(mappings, count)| <= count
  {
    if count > 0 {
      EntriesAreNoMore(mappings, count - 1);
      EntriesGrow(mappings, count - 1, count);
    }
  }

  // ---- Reading one entry -------------------------------------------------

  /** Where the reading stands after some entries, none of them refused. */
  ghost predicate Collected(h: Header, before: seq<int>, entries: set<Mapping>,
                            next: seq<int>, replaced: seq<int>, named: seq<int>)
  {
    && |replaced| == |named| == |before|
    && h.formatChannels <= UNMAPPED
    && Agreeable(before, h, entries)
    && Applied(before, next, h.add, entries)
    && (forall c :: 0 <= c < |before| ==>
          && replaced[c] == (if h.add && before[c] != next[c] then before[c] else UNMAPPED)
          && named[c] == (if h.add && Named(entries, c) then next[c] else UNMAPPED))
  }

  lemma NoneCollected(h: Header, before: seq<int>, replaced: seq<int>)
    requires |replaced| == |before| && forall c :: 0 <= c < |replaced| ==> replaced[c] == UNMAPPED
    requires h.formatChannels <= UNMAPPED
    ensures Collected(h, before, {}, before, replaced, replaced)
  {
    assert forall c :: !Named({}, c);
  }

  lemma RefusedAtExactly(h: Header, before: seq<int>, entries: set<Mapping>,
                         next: seq<int>, replaced: seq<int>, named: seq<int>, m: Mapping)
    requires Collected(h, before, entries, next, replaced, named)
    ensures Agreeable(before, h, entries + {m}) <==>
        && ValidMapping(h, |before|, m)
        && if h.add then named[m.channel] == UNMAPPED || named[m.channel] == m.source
           else before[m.channel] == m.source
  {
    if ValidMapping(h, |before|, m) && h.add {
      if Named(entries, m.channel) {
        var n :| n in entries && n.channel == m.channel;
        assert named[m.channel] == n.source && n.source < UNMAPPED;
        assert n in entries + {m} && m in entries + {m};
      }
    }
    assert m in entries + {m};
    assert forall n :: n in entries ==> n in entries + {m};
  }

  lemma CollectedAdd(h: Header, before: seq<int>, entries: set<Mapping>,
                     next: seq<int>, replaced: seq<int>, named: seq<int>, m: Mapping)
    requires Collected(h, before, entries, next, replaced, named) && h.add
    requires Agreeable(before, h, entries + {m})
    requires 0 <= m.channel < |before|
    ensures Collected(h, before, entries + {m}, next[m.channel := m.source],
        if before[m.channel] != UNMAPPED && before[m.channel] != m.source
        then replaced[m.channel := before[m.channel]] else replaced,
        named[m.channel := m.source])
  {
    hide ValidMapping, AllValid;
    assert m in entries + {m};
    if Named(entries, m.channel) {
      var n :| n in entries && n.channel == m.channel;
      assert n in entries + {m};
      assert n.source == m.source == next[m.channel];
    }
    forall c
      ensures Named(entries + {m}, c) <==> Named(entries, c) || c == m.channel
    {
      NamedOne(entries, m, c);
    }
  }

  lemma CollectedRemove(h: Header, before: seq<int>, entries: set<Mapping>,
                        next: seq<int>, replaced: seq<int>, named: seq<int>, m: Mapping)
    requires Collected(h, before, entries, next, replaced, named) && !h.add
    requires Agreeable(before, h, entries + {m})
    requires 0 <= m.channel < |before|
    ensures Collected(h, before, entries + {m}, next[m.channel := UNMAPPED], replaced, named)
  {
    hide ValidMapping, AllValid;
    forall c
      ensures Named(entries + {m}, c) <==> Named(entries, c) || c == m.channel
    {
      NamedOne(entries, m, c);
    }
  }

  lemma NamedOne(entries: set<Mapping>, m: Mapping, c: int)
    ensures Named(entries + {m}, c) <==> Named(entries, c) || c == m.channel
  {
    assert m in entries + {m};
    if Named(entries, c) {
      var n :| n in entries && n.channel == c;
      assert n in entries + {m};
    }
  }

  lemma MoreEntriesMoreRefusal(h: Header, before: seq<int>, some: set<Mapping>, all: set<Mapping>)
    requires some <= all && !Agreeable(before, h, some)
    ensures !Agreeable(before, h, all)
  {
  }

  lemma EntriesGrow(mappings: seq<Mapping>, i: nat, count: nat)
    requires i < count <= |mappings|
    ensures Entries(mappings, i + 1) == Entries(mappings, i) + {mappings[i]}
    ensures Entries(mappings, i + 1) <= Entries(mappings, count)
  {
  }

  // ---- The command handler -----------------------------------------------

  /** What comes of a command: its status, the REMOVE announced before it, the entries echoed. */
  datatype Outcome = Outcome(status: Status, changed: bool, note: seq<Pair>, echoed: nat)

  class InputPort {
    const inputMap: array<int>

    ghost predicate Valid()
      reads this, inputMap
    {
      forall c :: 0 <= c < inputMap.Length ==> 0 <= inputMap[c] <= UNMAPPED
    }

    constructor (channels: nat)
      ensures Valid() && fresh(inputMap) && inputMap.Length == channels
      ensures forall c :: 0 <= c < channels ==> inputMap[c] == UNMAPPED
    {
      inputMap := new int[channels](_ => UNMAPPED);
    }

    /** Reads the entries of a command into the map they would leave. */
    method Collect(h: Header, mappings: seq<Mapping>, next: array<int>, replaced: array<int>)
      returns (ok: bool)
      requires Valid() && h.count <= |mappings| && h.formatChannels <= UNMAPPED
      requires next.Length == replaced.Length == inputMap.Length
      requires next != replaced && next != inputMap && replaced != inputMap
      requires next[..] == inputMap[..] && forall c :: 0 <= c < replaced.Length ==> replaced[c] == UNMAPPED
      modifies next, replaced
      ensures ok == Agreeable(inputMap[..], h, Entries(mappings, h.count))
      ensures ok ==> Applied(inputMap[..], next[..], h.add, Entries(mappings, h.count))
      ensures ok ==> forall c :: 0 <= c < replaced.Length ==>
          replaced[c] == if h.add && inputMap[c] != next[c] then inputMap[c] else UNMAPPED
    {
      var named := new int[inputMap.Length](_ => UNMAPPED);
      ghost var before := inputMap[..];
      ghost var entries := {};
      ok := true;
      assert Entries(mappings, 0) == entries && named[..] == replaced[..];
      hide Agreeable, Applied, Entries;
      NoneCollected(h, before, replaced[..]);
      var i := 0;
      while ok && i < h.count
        invariant 0 <= i <= h.count && inputMap[..] == before
        invariant ok ==> entries == Entries(mappings, i)
        invariant ok ==> Collected(h, before, entries, next[..], replaced[..], named[..])
        invariant !ok ==> !Agreeable(before, h, Entries(mappings, h.count))
      {
        hide Collected;
        var m := mappings[i];
        EntriesGrow(mappings, i, h.count);
        RefusedAtExactly(h, before, entries, next[..], replaced[..], named[..], m);
        ok := Read(h, m, next, replaced, named, entries);
        if ok {
          entries := entries + {m};
        } else {
          MoreEntriesMoreRefusal(h, before, Entries(mappings, i + 1), Entries(mappings, h.count));
        }
        i := i + 1;
      }
    }

    /** One entry of a command. */
    method Read(h: Header, m: Mapping, next: array<int>, replaced: array<int>, named: array<int>,
                ghost entries: set<Mapping>) returns (ok: bool)
      requires next.Length == replaced.Length == named.Length == inputMap.Length
      requires next != replaced && next != named && named != replaced
      requires inputMap != next && inputMap != replaced && inputMap != named
      requires Collected(h, inputMap[..], entries, next[..], replaced[..], named[..])
      modifies next, replaced, named
      ensures ok == Agreeable(inputMap[..], h, entries + {m})
      ensures ok ==> Collected(h, inputMap[..], entries + {m}, next[..], replaced[..], named[..])
    {
      hide Collected, Agreeable;
      ghost var before := inputMap[..];
      ghost var n0, r0, d0 := next[..], replaced[..], named[..];
      RefusedAtExactly(h, before, entries, n0, r0, d0, m);
      if !ValidMapping(h, inputMap.Length, m) {
        return false;
      }
      var current := inputMap[m.channel];
      if h.add {
        if named[m.channel] != UNMAPPED && named[m.channel] != m.source {
          return false;
        }
        CollectedAdd(h, before, entries, n0, r0, d0, m);
        named[m.channel] := m.source;
        if current != UNMAPPED && current != m.source {
          replaced[m.channel] := current;
        }
        next[m.channel] := m.source;
        assert next[..] == n0[m.channel := m.source] && named[..] == d0[m.channel := m.source];
      } else {
        if current != m.source {
          return false;
        }
        CollectedRemove(h, before, entries, n0, r0, d0, m);
        next[m.channel] := UNMAPPED;
        assert next[..] == n0[m.channel := UNMAPPED];
      }
      ok := true;
    }

    method Command(h: Header, mappings: seq<Mapping>) returns (o: Outcome)
      requires Valid() && h.formatChannels <= UNMAPPED
      modifies inputMap
      ensures Valid()
      ensures o.status == if PortStatus(h) != Success then PortStatus(h)
                          else if Acceptable(old(inputMap[..]), h, mappings) then Success else BadArguments
      ensures o.changed == (inputMap[..] != old(inputMap[..]))
      ensures o.status != Success ==> !o.changed && o.note == []
      ensures o.status == Success ==> Applied(old(inputMap[..]), inputMap[..], h.add, Entries(mappings, h.count))
      ensures o.status == Success ==>
          SetOf(o.note) == if h.add then Replaced(old(inputMap[..]), Entries(mappings, h.count)) else {}
      ensures |o.note| == |SetOf(o.note)| <= MAX_MSG_MAPPINGS
      ensures o.echoed <= h.count && (o.status == Success ==> o.echoed == h.count)
      // In full: the input port 0 and no other, an output port only of a talker being known at all; all entries or none.
      ensures o.status == NotSupported <==> h.descriptorIndex == 0 && h.descriptorType == StreamPortOutput && h.talker
      ensures o.status == NoSuchDescriptor <==>
          h.descriptorIndex != 0 || (h.descriptorType != StreamPortInput && !(h.descriptorType == StreamPortOutput && h.talker))
      ensures o.status == Success <==>
          && h.descriptorIndex == 0 && h.descriptorType == StreamPortInput
          && h.count <= 62 && h.count <= |mappings|
          && CanBeDone(old(inputMap[..]), h, Entries(mappings, h.count))
      ensures forall a, b :: 0 <= a < b < |o.note| ==> o.note[a].1 < o.note[b].1
    {
      AgreeableInFull(inputMap[..], h, mappings);
      hide Agreeable, Applied, CanBeDone;
      ghost var before := inputMap[..];
      var status := PortStatus(h);
      if status == Success && (h.count > MAX_MSG_MAPPINGS || h.count > |mappings|) {
        status := BadArguments;
      }
      var next := new int[inputMap.Length](c requires 0 <= c < inputMap.Length reads inputMap => inputMap[c]);
      var replaced := new int[inputMap.Length](_ => UNMAPPED);
      assert next[..] == inputMap[..];
      if status == Success {
        var ok := Collect(h, mappings, next, replaced);
        if !ok {
          status := BadArguments;
        }
      }
      var changed := false;
      var note: seq<Pair> := [];
      if status == Success {
        changed := Differs(next);
        if changed && h.add {
          note := Note(replaced);
        }
        NoteIsWhatWasReplaced(before, next[..], replaced[..], h, mappings, changed, note);
      }
      if changed {
        NextInRange(before, next[..], h, Entries(mappings, h.count));
        Store(next);
      }
      var echoed := if h.count <= |mappings| then h.count else |mappings|;
      if echoed > MAX_MSG_MAPPINGS {
        echoed := MAX_MSG_MAPPINGS;
      }
      o := Outcome(status, changed, note, echoed);
    }

    method Differs(next: array<int>) returns (changed: bool)
      requires next.Length == inputMap.Length
      ensures changed == (next[..] != inputMap[..])
    {
      changed := false;
      var c := 0;
      while c < inputMap.Length
        invariant 0 <= c <= inputMap.Length
        invariant changed ==> next[..] != inputMap[..]
        invariant !changed ==> next[..c] == inputMap[..c]
      {
        if next[c] != inputMap[c] {
          assert next[..][c] != inputMap[..][c];
          changed := true;
        }
        c := c + 1;
      }
      assert next[..c] == next[..] && inputMap[..c] == inputMap[..];
    }

    method Store(next: array<int>)
      requires next.Length == inputMap.Length && next != inputMap
      modifies inputMap
      ensures inputMap[..] == next[..]
    {
      var c := 0;
      while c < inputMap.Length
        invariant 0 <= c <= inputMap.Length
        invariant inputMap[..c] == next[..c]
      {
        inputMap[c] := next[c];
        c := c + 1;
      }
      assert next[..c] == next[..] && inputMap[..c] == inputMap[..];
    }

    /** The mappings replaced, in channel order. */
    method Note(replaced: array<int>) returns (note: seq<Pair>)
      ensures SetOf(note) == Pairs(replaced[..]) && |note| == |SetOf(note)|
      ensures forall a, b :: 0 <= a < b < |note| ==> note[a].1 < note[b].1
    {
      hide SetOf, Pairs;
      NothingReplaced();
      note := [];
      var c := 0;
      while c < replaced.Length
        invariant 0 <= c <= replaced.Length
        invariant SetOf(note) == Pairs(replaced[..c]) && |note| == |SetOf(note)|
        invariant forall a :: 0 <= a < |note| ==> note[a].1 < c
        invariant forall a, b :: 0 <= a < b < |note| ==> note[a].1 < note[b].1
      {
        PairsOne(replaced[..c], replaced[c]);
        assert |replaced[..c]| == c;
        assert replaced[..c + 1] == replaced[..c] + [replaced[c]];
        if replaced[c] != UNMAPPED {
          SetOfOne(note, (replaced[c], c));
          note := note + [(replaced[c], c)];
        }
        c := c + 1;
      }
      assert replaced[..c] == replaced[..];
    }
  }

  lemma NothingReplaced()
    ensures SetOf([]) == Pairs([]) == {}
  {
  }

  lemma SetOfOne(pairs: seq<Pair>, p: Pair)
    ensures SetOf(pairs + [p]) == SetOf(pairs) + {p}
  {
    var more := pairs + [p];
    assert more[|pairs|] == p;
    forall i | 0 <= i < |pairs|
      ensures pairs[i] in SetOf(more)
    {
      assert more[i] == pairs[i];
    }
  }

  lemma PairsOne(sources: seq<int>, source: int)
    ensures Pairs(sources + [source]) ==
        Pairs(sources) + if source != UNMAPPED then {(source, |sources|)} else {}
    ensures (source, |sources|) !in Pairs(sources)
  {
    var more := sources + [source];
    forall p
      ensures p in Pairs(more) <==> p in Pairs(sources) || (source != UNMAPPED && p == (source, |sources|))
    {
      if p in Pairs(sources) {
        assert more[p.1] == sources[p.1];
      }
      if source != UNMAPPED {
        assert more[|sources|] == source;
      }
    }
  }

  lemma PairsLeft(before: seq<int>, next: seq<int>, replaced: seq<int>)
    requires |next| == |replaced| == |before|
    requires forall c :: 0 <= c < |replaced| ==> replaced[c] == if before[c] != next[c] then before[c] else UNMAPPED
    ensures Pairs(before) - Pairs(next) == Pairs(replaced)
  {
  }

  lemma NoteIsWhatWasReplaced(before: seq<int>, next: seq<int>, replaced: seq<int>, h: Header,
                              mappings: seq<Mapping>, changed: bool, note: seq<Pair>)
    requires |next| == |replaced| == |before| && h.formatChannels <= UNMAPPED
    requires Acceptable(before, h, mappings) && Applied(before, next, h.add, Entries(mappings, h.count))
    requires forall c :: 0 <= c < |replaced| ==>
        replaced[c] == if h.add && before[c] != next[c] then before[c] else UNMAPPED
    requires changed == (next != before)
    requires if changed && h.add then SetOf(note) == Pairs(replaced) && |note| == |SetOf(note)| else note == []
    ensures SetOf(note) == if h.add then Replaced(before, Entries(mappings, h.count)) else {}
    ensures |note| == |SetOf(note)| <= MAX_MSG_MAPPINGS
  {
    var entries := Entries(mappings, h.count);
    if h.add {
      ReplicaFollowsAdd(before, next, h, entries);
      ReplacedIsNoLarger(before, entries);
      EntriesAreNoMore(mappings, h.count);
      hide Entries, Replaced, Agreeable, Applied, Pairs;
      PairsLeft(before, next, replaced);
      if !changed {
        assert Replaced(before, entries) == {};
      }
    }
  }

  lemma NextInRange(before: seq<int>, next: seq<int>, h: Header, entries: set<Mapping>)
    requires forall c :: 0 <= c < |before| ==> 0 <= before[c] <= UNMAPPED
    requires Agreeable(before, h, entries) && Applied(before, next, h.add, entries)
    requires h.formatChannels <= UNMAPPED
    ensures |next| == |before| && forall c :: 0 <= c < |next| ==> 0 <= next[c] <= UNMAPPED
  {
    forall c | 0 <= c < |next|
      ensures 0 <= next[c] <= UNMAPPED
    {
      if Named(entries, c) {
        var m :| m in entries && m.channel == c;
        assert ValidMapping(h, |before|, m) && next[m.channel] == if h.add then m.source else UNMAPPED;
      }
    }
  }
}
