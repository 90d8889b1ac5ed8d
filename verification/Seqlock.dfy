/**
 The mailbox through which the control core hands a stream's unicast
 destination addresses to the transmit core.

 One publisher and one reader run on different cores.  Every access to shared
 memory is a step of its own, and between two barriers the accesses happen in
 any order, octet by octet, so the proofs cover every way the compiler and the
 processor may order them.  The sequence counter is a natural number: fewer
 than 2^31 publications during one read attempt is assumed.
 */
module Seqlock {
  import opened Basics

  /** Addresses one mailbox holds (the unicast fan-out limit). */
  const FANOUT: nat

  /** Octets of one destination address. */
  const ADDR_LEN: nat := 6

  type Octet = bv8

  /** What is published: a count and that many addresses, flattened. */
  datatype Value = Value(count: nat, octets: seq<Octet>) {
    ghost predicate Valid() {
      count <= FANOUT && |octets| == count * ADDR_LEN
    }
  }

  datatype Writer =
    | Resting
    | Writing(value: Value, pending: set<nat>, countPending: bool)

  datatype Reader =
    | Away
    | Called
    | Sampled(s1: nat)
    | Copying(s1: nat, n: nat, todo: set<nat>, out: seq<Octet>)
    | Done(result: Value)

  /**
   The shared words, both program counters, and the history of completed
   publications.  `since` is how many had completed when the reader called.
   */
  datatype State = State(
    seqno: nat,
    count: nat,
    cells: seq<Octet>,
    writer: Writer,
    reader: Reader,
    history: seq<Value>,
    since: nat)

  ghost predicate Init(s: State) {
    && s.seqno == 0
    && s.count == 0
    && |s.cells| == FANOUT * ADDR_LEN
    && s.writer == Resting
    && s.reader == Away
    && s.history == [Value(0, [])]
    && s.since == 0
  }

  /** The value a transmit path would use if it looked at a quiet mailbox. */
  function Published(s: State): Value
    requires s.history != []
  {
    s.history[|s.history| - 1]
  }

  // ---- Steps of the publisher -------------------------------------------

  ghost predicate BeginPublish(s: State, t: State) {
    && s.writer.Resting?
    && t.writer.Writing?
    && t.writer.value.Valid()
    && t == s.(seqno := s.seqno + 1,
               writer := Writing(t.writer.value, Indices(|t.writer.value.octets|), true))
  }

  ghost predicate StoreOctet(s: State, t: State) {
    && s.writer.Writing?
    && exists i: nat :: StoreOctetAt(s, t, i)
  }

  ghost predicate StoreOctetAt(s: State, t: State, i: nat) {
    && s.writer.Writing?
    && i in s.writer.pending
    && i < |s.cells|
    && i < |s.writer.value.octets|
    && t == s.(cells := s.cells[i := s.writer.value.octets[i]],
               writer := s.writer.(pending := s.writer.pending - {i}))
  }

  ghost predicate StoreCount(s: State, t: State) {
    && s.writer.Writing?
    && s.writer.countPending
    && t == s.(count := s.writer.value.count, writer := s.writer.(countPending := false))
  }

  ghost predicate EndPublish(s: State, t: State) {
    && s.writer.Writing?
    && s.writer.pending == {}
    && !s.writer.countPending
    && t == s.(seqno := s.seqno + 1, writer := Resting, history := s.history + [s.writer.value])
  }

  // ---- Steps of the reader ----------------------------------------------

  ghost predicate Call(s: State, t: State) {
    && s.reader.Away?
    && t == s.(reader := Called, since := |s.history|)
  }

  ghost predicate SampleSequence(s: State, t: State) {
    && s.reader.Called?
    && t == s.(reader := Sampled(s.seqno))
  }

  /** The count, held to the fan-out as the reader does before it copies. */
  ghost predicate LoadCount(s: State, t: State) {
    && s.reader.Sampled?
    && t.reader.Copying?
    && var n := if s.count > FANOUT then FANOUT else s.count;
    && |t.reader.out| == n * ADDR_LEN
    && t == s.(reader := Copying(s.reader.s1, n, Indices(n * ADDR_LEN), t.reader.out))
  }

  ghost predicate LoadOctet(s: State, t: State) {
    && s.reader.Copying?
    && exists i: nat :: LoadOctetAt(s, t, i)
  }

  ghost predicate LoadOctetAt(s: State, t: State, i: nat) {
    && s.reader.Copying?
    && i in s.reader.todo
    && i < |s.reader.out|
    && i < |s.cells|
    && t == s.(reader := s.reader.(todo := s.reader.todo - {i},
                                   out := s.reader.out[i := s.cells[i]]))
  }

  /** The second look at the counter: leave with the copy, or start over. */
  ghost predicate Recheck(s: State, t: State) {
    && s.reader.Copying?
    && s.reader.todo == {}
    && t == s.(reader := if s.reader.s1 != s.seqno || s.reader.s1 % 2 == 1
                         then Called
                         else Done(Value(s.reader.n, s.reader.out)))
  }

  ghost predicate Leave(s: State, t: State) {
    s.reader.Done? && t == s.(reader := Away)
  }

  ghost predicate Next(s: State, t: State) {
    || BeginPublish(s, t) || StoreOctet(s, t) || StoreCount(s, t) || EndPublish(s, t)
    || Call(s, t) || SampleSequence(s, t) || LoadCount(s, t) || LoadOctet(s, t)
    || Recheck(s, t) || Leave(s, t)
  }

  ghost predicate IsRun(run: seq<State>) {
    && run != []
    && Init(run[0])
    && forall k :: 0 <= k < |run| - 1 ==> Next(run[k], run[k + 1])
  }

  // ---- Invariant ---------------------------------------------------------

  /** A finished write left exactly the last published value in memory. */
  ghost predicate Stored(s: State, v: Value) {
    && v.Valid()
    && s.count == v.count
    && |v.octets| <= |s.cells|
    && forall i :: 0 <= i < |v.octets| ==> s.cells[i] == v.octets[i]
  }

  ghost predicate WriterInv(s: State) {
    && |s.cells| == FANOUT * ADDR_LEN
    && |s.history| >= 1
    && match s.writer {
      case Resting =>
        && s.seqno == 2 * (|s.history| - 1)
        && Stored(s, Published(s))
      case Writing(v, pending, countPending) =>
        && s.seqno == 2 * (|s.history| - 1) + 1
        && v.Valid()
        && |v.octets| <= |s.cells|
        && (forall i :: i in pending ==> i < |v.octets|)
        && (!countPending ==> s.count == v.count)
        && (forall i: nat :: i < |v.octets| && i !in pending ==> s.cells[i] == v.octets[i])
    }
  }

  /** Nothing was published since the first look at the counter. */
  ghost predicate Undisturbed(s: State, s1: nat) {
    s1 == s.seqno && s1 % 2 == 0
  }

  ghost predicate ReaderInv(s: State) {
    && s.since <= |s.history|
    && match s.reader {
      case Away => true
      case Called => s.since >= 1
      case Sampled(s1) => s.since >= 1 && 2 * (s.since - 1) <= s1 <= s.seqno
      case Copying(s1, n, todo, out) =>
        && s.since >= 1
        && 2 * (s.since - 1) <= s1 <= s.seqno
        && n <= FANOUT
        && |out| == n * ADDR_LEN
        && |out| <= |s.cells|
        && (Undisturbed(s, s1) ==>
              && n == s.count
              && forall i: nat :: i < |out| && i !in todo ==> out[i] == s.cells[i])
      case Done(r) =>
        && s.since >= 1
        && exists v :: s.since - 1 <= v < |s.history| && s.history[v] == r
    }
  }

  ghost predicate Inv(s: State) {
    WriterInv(s) && ReaderInv(s)
  }

  lemma InitInv(s: State)
    requires Init(s)
    ensures Inv(s)
  {
  }

  /** A resting writer is what an even, unchanged counter proves. */
  lemma UndisturbedMeansResting(s: State, s1: nat)
    requires WriterInv(s) && Undisturbed(s, s1)
    ensures s.writer.Resting?
  {
  }

  lemma WriterStepKeepsWriterInv(s: State, t: State)
    requires Inv(s)
    requires BeginPublish(s, t) || StoreOctet(s, t) || StoreCount(s, t) || EndPublish(s, t)
    ensures WriterInv(t)
  {
  }

  /** A write makes every read attempt in flight look disturbed. */
  lemma WriterStepKeepsReaderInv(s: State, t: State)
    requires Inv(s)
    requires BeginPublish(s, t) || StoreOctet(s, t) || StoreCount(s, t) || EndPublish(s, t)
    ensures ReaderInv(t)
  {
    if s.reader.Done? {
      var v :| s.since - 1 <= v < |s.history| && s.history[v] == s.reader.result;
      assert t.history[v] == s.reader.result;
    }
  }

  lemma RecheckReturnsPublished(s: State, t: State)
    requires Inv(s) && Recheck(s, t) && t.reader.Done?
    ensures t.reader.result == Published(t)
  {
    UndisturbedMeansResting(s, s.reader.s1);
    var v := Published(s);
    assert |s.reader.out| == |v.octets|;
    assert s.reader.out == v.octets;
  }

  lemma ReaderStepKeepsInv(s: State, t: State)
    requires Inv(s)
    requires || Call(s, t) || SampleSequence(s, t) || LoadCount(s, t) || LoadOctet(s, t)
             || Recheck(s, t) || Leave(s, t)
    ensures Inv(t)
  {
    if Recheck(s, t) && t.reader.Done? {
      RecheckReturnsPublished(s, t);
      assert t.history[|t.history| - 1] == t.reader.result;
    }
  }

  lemma NextKeepsInv(s: State, t: State)
    requires Inv(s) && Next(s, t)
    ensures Inv(t)
  {
    if BeginPublish(s, t) || StoreOctet(s, t) || StoreCount(s, t) || EndPublish(s, t) {
      WriterStepKeepsWriterInv(s, t);
      WriterStepKeepsReaderInv(s, t);
    } else {
      ReaderStepKeepsInv(s, t);
    }
  }

  lemma {:induction false} RunKeepsInv(run: seq<State>, k: nat)
    requires IsRun(run) && k < |run|
    ensures Inv(run[k])
    decreases k
  {
    if k == 0 {
      InitInv(run[0]);
    } else {
      RunKeepsInv(run, k - 1);
      NextKeepsInv(run[k - 1], run[k]);
    }
  }

  /**
   Main result.  In every run, at the moment a read returns, what it returns
   is the value then published, whole: the last publication completed, which
   is no older than the one in force when the reader was called.
   */
  lemma SnapshotIsOnePublishedValue(run: seq<State>, k: nat)
    requires IsRun(run) && 0 < k < |run|
    requires !run[k - 1].reader.Done? && run[k].reader.Done?
    ensures run[k].history != []
    ensures run[k].reader.result == Published(run[k])
    ensures 1 <= run[k].since <= |run[k].history|
  {
    RunKeepsInv(run, k - 1);
    RunKeepsInv(run, k);
    assert Next(run[k - 1], run[k]);
    RecheckReturnsPublished(run[k - 1], run[k]);
  }

  /**
   A read attempt is repeated only because a publication overlapped it: if
   the publisher rested from the first look at the counter to the second, the
   attempt returns.
   */
  lemma QuietAttemptReturns(s: State, t: State)
    requires Inv(s) && Recheck(s, t)
    ensures t.reader.Done? <==> s.writer.Resting? && s.reader.s1 == s.seqno
  {
    if s.reader.s1 == s.seqno && s.reader.s1 % 2 == 0 {
      UndisturbedMeansResting(s, s.reader.s1);
    }
  }
}
