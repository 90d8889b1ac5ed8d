/**
 How much room a journal may have: its numbers have 24 bits, and every number in
 use takes an entry, so a store with fewer entries than numbers never runs out
 of them, whatever is appended and however rarely it boots.
 */
module JournalRoom {
  import opened Basics
  import opened JournalKey
  import opened Journal

  /** Numbers given out are entries taken, but for the one a full store gave in vain. */
  ghost predicate Bounded(s: State, capacity: nat) {
    && |s.store| <= capacity
    && (s.counter <= |s.store| || (|s.store| >= capacity && s.counter <= 2 * STREAMS + 1))
  }

  lemma NextKeyIsNew(s: State, stream: Stream)
    requires Sound(s) && stream.index < STREAMS
    ensures Format(stream, (s.counter + 1) % SEQ_LIMIT) !in s.store
  {
    hide Format, Canonical;
    var n := (s.counter + 1) % SEQ_LIMIT;
    assert !Has(s.store, stream, n);
  }

  lemma {:induction false} RewrittenTakesEntries(store: Store, n: nat)
    requires n <= 2 * STREAMS
    ensures Rewritten(store, n).counter <= |Rewritten(store, n).store|
    decreases n
  {
    hide Format, Parse, Newest;
    if n > 0 {
      RewrittenTakesEntries(store, n - 1);
      RewriteKeepsInv(store, n - 1);
      var t, s := Rewritten(store, n - 1), StreamAt(n - 1);
      assert !Has(t.store, s, (t.counter + 1) % SEQ_LIMIT);
    }
  }

  lemma CompactedIsBounded(store: Store, capacity: nat)
    requires |store| <= capacity
    ensures Bounded(Compacted(store), capacity)
  {
    hide Format, Parse, Newest;
    RewrittenTakesEntries(store, 2 * STREAMS);
    RewrittenSize(store, 2 * STREAMS);
    LiveKeysCount(store, 2 * STREAMS);
    LiveAndOthers(store);
  }

  /** With fewer entries than numbers an append always finds a number to use. */
  lemma AppendKeepsRoom(s: State, capacity: nat, stream: Stream, rec: Record)
    requires Sound(s) && Bounded(s, capacity) && capacity < SEQ_LIMIT
    ensures var (t, ok) := Appended(s, capacity, stream, rec);
        && Sound(t) && Bounded(t, capacity)
        && forall x :: Lookup(t.store, x) == if ok && x == stream then Some(rec) else Lookup(s.store, x)
  {
    hide Format, Parse, Compacted, Lookup, Canonical;
    if stream.index < STREAMS {
      NextKeyIsNew(s, stream);
      if Fits(s.store, Format(stream, (s.counter + 1) % SEQ_LIMIT), capacity) {
        SoundAfterSet(s, stream, rec);
      } else {
        CompactionPreservesMap(s.store);
        CompactedIsBounded(s.store, capacity);
        NextKeyIsNew(Compacted(s.store), stream);
        SoundAfterSet(Compacted(s.store), stream, rec);
      }
    }
  }

  /** The journal refines a map over every run, when the store has fewer entries than there are numbers. */
  lemma {:induction false} SmallStoreRefinesMap(s: State, capacity: nat, ops: seq<Op>, m: map<Stream, Record>)
    requires Sound(s) && Bounded(s, capacity) && Stands(s.store, m) && capacity < SEQ_LIMIT
    ensures Sound(Run(s, capacity, ops)) && Bounded(Run(s, capacity, ops), capacity)
    ensures Stands(Run(s, capacity, ops).store, Meant(s, capacity, ops, m))
    decreases |ops|
  {
    hide Format, Parse, Appended, Compacted;
    if ops != [] {
      var front, op := ops[..|ops| - 1], ops[|ops| - 1];
      SmallStoreRefinesMap(s, capacity, front, m);
      var before := Run(s, capacity, front);
      match op {
        case Append(stream, rec) =>
          AppendKeepsRoom(before, capacity, stream, rec);
        case Reboot =>
          CompactionPreservesMap(before.store);
          CompactedIsBounded(before.store, capacity);
      }
    }
  }

  // ---- A run that wraps --------------------------------------------------

  const EMPTY: State := State(map[], 0)
  const FIRST: Stream := Stream(true, 0)

  /** The same record appended over and over. */
  function Repeats(n: nat, rec: Record): seq<Op> {
    if n == 0 then [] else Repeats(n - 1, rec) + [Append(FIRST, rec)]
  }

  lemma NothingStored()
    ensures Sound(EMPTY) && Stands(EMPTY.store, map[])
  {
    forall s
      ensures Newest(EMPTY.store, s) == 0
    {
      NewestIs(EMPTY.store, s, 0);
    }
  }

  lemma OneMoreOp(ops: seq<Op>, op: Op, capacity: nat)
    ensures Run(EMPTY, capacity, ops + [op]) == Step(Run(EMPTY, capacity, ops), capacity, op)
    ensures Meant(EMPTY, capacity, ops + [op], map[])
         == if op.Append? && Appended(Run(EMPTY, capacity, ops), capacity, op.stream, op.rec).1
            then Meant(EMPTY, capacity, ops, map[])[op.stream := op.rec] else Meant(EMPTY, capacity, ops, map[])
  {
    hide Appended, Step;
    assert (ops + [op])[..|ops|] == ops;
  }

  lemma FillsOne(s: State, capacity: nat, rec: Record)
    requires Sound(s) && s.counter == |s.store| && s.counter + 1 < SEQ_LIMIT <= capacity
    ensures var t := Appended(s, capacity, FIRST, rec).0;
        Sound(t) && t.counter == |t.store| == s.counter + 1 && Lookup(t.store, FIRST) == Some(rec)
  {
    hide Format, Parse, Lookup, Canonical;
    NextKeyIsNew(s, FIRST);
    SoundAfterSet(s, FIRST, rec);
  }

  lemma {:induction false} RepeatsFill(n: nat, capacity: nat, rec: Record)
    requires n < SEQ_LIMIT <= capacity
    ensures var t := Run(EMPTY, capacity, Repeats(n, rec));
        && Sound(t) && t.counter == |t.store| == n
        && (n > 0 ==> Lookup(t.store, FIRST) == Some(rec))
  {
    hide Lookup, Sound, Appended, Meant;
    if n == 0 {
      NothingStored();
    } else {
      RepeatsFill(n - 1, capacity, rec);
      var ops := Repeats(n - 1, rec);
      OneMoreOp(ops, Append(FIRST, rec), capacity);
      FillsOne(Run(EMPTY, capacity, ops), capacity, rec);
    }
  }

  /** At the last number the next append takes number 0, which no scan reads. */
  lemma WrapIsNotReadBack(s: State, capacity: nat, former: Record, rec: Record)
    requires Sound(s) && s.counter == |s.store| == SEQ_LIMIT - 1 && capacity >= SEQ_LIMIT
    requires Lookup(s.store, FIRST) == Some(former)
    ensures Appended(s, capacity, FIRST, rec).1
    ensures Lookup(Appended(s, capacity, FIRST, rec).0.store, FIRST) == Some(former)
  {
    hide Format, Parse, Lookup, Canonical, Newest;
    NumberedUpTo(s, FIRST);
    SetTakesEffectExactly(s.store, FIRST, 0, rec);
  }

  /** 2^24 appends since boot: the last one is written, under number 0, and not read back. */
  lemma WrapLosesAnAppend(capacity: nat, former: Record, rec: Record)
    requires capacity >= SEQ_LIMIT && former != rec
    ensures var ops := Repeats(SEQ_LIMIT - 1, former) + [Append(FIRST, rec)];
        && FIRST in Meant(EMPTY, capacity, ops, map[]) && Meant(EMPTY, capacity, ops, map[])[FIRST] == rec
        && Lookup(Run(EMPTY, capacity, ops).store, FIRST) == Some(former)
  {
    hide Run, Meant, Appended, Lookup, Repeats;
    RepeatsFill(SEQ_LIMIT - 1, capacity, former);
    var ops := Repeats(SEQ_LIMIT - 1, former);
    WrapIsNotReadBack(Run(EMPTY, capacity, ops), capacity, former, rec);
    OneMoreOp(ops, Append(FIRST, rec), capacity);
  }

  /** Over every run from an empty store the journal stands for what was appended. */
  ghost predicate AlwaysRefines(capacity: nat) {
    forall ops :: Stands(Run(EMPTY, capacity, ops).store, Meant(EMPTY, capacity, ops, map[]))
  }

  /** That holds exactly if the store has fewer entries than there are numbers. */
  lemma RefinesMapExactly(capacity: nat, former: Record, rec: Record)
    requires former != rec
    ensures AlwaysRefines(capacity) <==> capacity < SEQ_LIMIT
  {
    NothingStored();
    if capacity < SEQ_LIMIT {
      forall ops
        ensures Stands(Run(EMPTY, capacity, ops).store, Meant(EMPTY, capacity, ops, map[]))
      {
        SmallStoreRefinesMap(EMPTY, capacity, ops, map[]);
      }
    } else {
      hide Run, Meant, Lookup;
      WrapLosesAnAppend(capacity, former, rec);
      var ops := Repeats(SEQ_LIMIT - 1, former) + [Append(FIRST, rec)];
      assert !Stands(Run(EMPTY, capacity, ops).store, Meant(EMPTY, capacity, ops, map[]));
    }
  }
}
