/**
 The stream journal: an append-only log of one record per change, kept in a
 flash store under unique keys, compacted when the store is full and at boot.

 The store is a map from keys to records with room for a fixed number of
 entries; a write that needs a new entry fails when it is full.
 */
module Journal {
  import opened Basics
  import opened JournalKey

  type Record(==, 0, !new)

  type Store = map<string, Record>

  /** The store, and the last sequence number given out since boot. */
  datatype State = State(store: Store, counter: nat)

  // ---- What a store says about a stream ----------------------------------

  ghost predicate Has(store: Store, s: Stream, n: int) {
    s.index < STREAMS && 0 <= n < SEQ_LIMIT && Format(s, n) in store
  }

  ghost function NewestUpTo(store: Store, s: Stream, n: nat): (r: nat)
    ensures r <= n && (r > 0 ==> Has(store, s, r))
    ensures forall m :: r < m <= n ==> !Has(store, s, m)
  {
    if n == 0 then 0 else if Has(store, s, n) then n else NewestUpTo(store, s, n - 1)
  }

  /** The newest record of a stream; 0 when it has none, or only number 0. */
  ghost function Newest(store: Store, s: Stream): (r: nat)
    ensures r < SEQ_LIMIT && (r > 0 ==> Has(store, s, r))
    ensures forall m :: r < m ==> !Has(store, s, m)
  {
    NewestUpTo(store, s, SEQ_LIMIT - 1)
  }

  ghost function Lookup(store: Store, s: Stream): Option<Record> {
    if Newest(store, s) > 0 then Some(store[Format(s, Newest(store, s))]) else None
  }

  /** Every journal key is one the code formatted. */
  ghost predicate Canonical(store: Store) {
    forall k :: k in store && Parse(k).Some? ==> LowerHex(k[3..])
  }

  /** A journal the code wrote: canonical, numbered up to the counter. */
  ghost predicate Sound(s: State) {
    && Canonical(s.store)
    && s.counter < SEQ_LIMIT
    && forall t, n :: Has(s.store, t, n) ==> 0 < n <= s.counter
  }

  // ---- Specification of the operations -----------------------------------

  /** Streams in the order they are rewritten: inputs, then outputs. */
  function StreamAt(i: nat): (s: Stream)
    requires i < 2 * STREAMS
    ensures s.index < STREAMS && Place(s) == i
  {
    if i < STREAMS then Stream(true, i) else Stream(false, i - STREAMS)
  }

  function Place(s: Stream): nat {
    if s.input then s.index else STREAMS + s.index
  }

  function Others(store: Store): Store {
    map k | k in store && Parse(k).None? :: store[k]
  }

  /** Survivors of the first n streams, freshly numbered. */
  ghost function Rewritten(store: Store, n: nat): State
    requires n <= 2 * STREAMS
  {
    if n == 0 then State(Others(store), 0)
    else
      var t := Rewritten(store, n - 1);
      var s := StreamAt(n - 1);
      if Newest(store, s) == 0 then t
      else State(t.store[Format(s, (t.counter + 1) % SEQ_LIMIT) := store[Format(s, Newest(store, s))]],
                 t.counter + 1)
  }

  ghost function Compacted(store: Store): State {
    Rewritten(store, 2 * STREAMS)
  }

  predicate Fits(store: Store, key: string, capacity: nat) {
    key in store || |store| < capacity
  }

  /** The write of an append, compacting and trying once more when full. */
  ghost function Appended(s: State, capacity: nat, stream: Stream, rec: Record): (State, bool) {
    if stream.index >= STREAMS then (s, false)
    else
      var key := Format(stream, (s.counter + 1) % SEQ_LIMIT);
      if Fits(s.store, key, capacity) then (State(s.store[key := rec], s.counter + 1), true)
      else
        var t := Compacted(s.store);
        var again := Format(stream, (t.counter + 1) % SEQ_LIMIT);
        if Fits(t.store, again, capacity) then (State(t.store[again := rec], t.counter + 1), true)
        else (State(t.store, t.counter + 1), false)
  }

  // ---- Keys tell streams and records apart -------------------------------

  lemma FormatInjective(s: Stream, n: nat, t: Stream, m: nat)
    requires s.index < STREAMS && t.index < STREAMS && n < SEQ_LIMIT && m < SEQ_LIMIT
    requires Format(s, n) == Format(t, m)
    ensures s == t && n == m
  {
    ParseFormat(s, n);
    ParseFormat(t, m);
  }

  lemma CanonicalKey(store: Store, k: string)
    requires Canonical(store) && k in store && Parse(k).Some?
    ensures var p := Parse(k).value;
            && p.stream.index < STREAMS && p.seqno < SEQ_LIMIT
            && Format(p.stream, p.seqno) == k && Has(store, p.stream, p.seqno)
  {
    FormatParse(k);
  }

  lemma NewestIs(store: Store, s: Stream, n: nat)
    requires n > 0 ==> Has(store, s, n)
    requires forall m :: n < m < SEQ_LIMIT ==> !Has(store, s, m)
    ensures Newest(store, s) == n
  {
    assert Newest(store, s) >= n || n == 0;
  }

  lemma SetChangesOne(store: Store, s: Stream, n: nat, rec: Record)
    requires s.index < STREAMS && n < SEQ_LIMIT
    ensures var after := store[Format(s, n) := rec];
            && (Canonical(store) ==> Canonical(after))
            && forall t, m :: Has(after, t, m) <==> Has(store, t, m) || (t == s && m == n)
  {
    hide Format, Parse;
    ParseFormat(s, n);
    FormatParse(Format(s, n));
    var after := store[Format(s, n) := rec];
    forall t, m
      ensures Has(after, t, m) <==> Has(store, t, m) || (t == s && m == n)
    {
      if t.index < STREAMS && 0 <= m < SEQ_LIMIT && Format(t, m) == Format(s, n) {
        FormatInjective(t, m, s, n);
      }
    }
  }

  lemma OthersHoldNoRecord(store: Store)
    ensures Canonical(Others(store))
    ensures forall t, m :: !Has(Others(store), t, m)
  {
    hide Format, Parse;
    forall t, m
      ensures !Has(Others(store), t, m)
    {
      if t.index < STREAMS && 0 <= m < SEQ_LIMIT {
        ParseFormat(t, m);
      }
    }
  }

  // ---- Compaction preserves the map --------------------------------------

  /** What the rewrite has done after n streams. */
  ghost predicate RewriteInv(store: Store, n: nat, t: State) {
    && Canonical(t.store)
    && t.counter <= n <= 2 * STREAMS
    && OnlySurvivors(store, n, t)
    && AllSurvivors(store, n, t)
  }

  ghost predicate OnlySurvivors(store: Store, n: nat, t: State) {
    forall s, m :: Has(t.store, s, m) ==>
      && Place(s) < n && 0 < m <= t.counter
      && Some(t.store[Format(s, m)]) == Lookup(store, s)
  }

  ghost predicate AllSurvivors(store: Store, n: nat, t: State) {
    forall s: Stream :: s.index < STREAMS && Place(s) < n && Newest(store, s) > 0 ==>
      exists m :: Has(t.store, s, m)
  }

  lemma {:induction false} RewriteKeepsInv(store: Store, n: nat)
    requires n <= 2 * STREAMS
    ensures RewriteInv(store, n, Rewritten(store, n))
    decreases n
  {
    hide Format, Parse;
    if n == 0 {
      OthersHoldNoRecord(store);
    } else {
      RewriteKeepsInv(store, n - 1);
      RewriteOne(store, n, Rewritten(store, n - 1), Rewritten(store, n));
    }
  }

  lemma RewriteOne(store: Store, n: nat, before: State, after: State)
    requires 0 < n <= 2 * STREAMS
    requires RewriteInv(store, n - 1, before)
    requires var s := StreamAt(n - 1);
             if Newest(store, s) == 0 then after == before
             else after == State(before.store[Format(s, (before.counter + 1) % SEQ_LIMIT)
                                   := store[Format(s, Newest(store, s))]], before.counter + 1)
    ensures RewriteInv(store, n, after)
  {
    var s := StreamAt(n - 1);
    if Newest(store, s) > 0 {
      RewriteAdds(store, n, s, before, after);
    }
    forall x: Stream | x.index < STREAMS && Place(x) < n && Newest(store, x) > 0
      ensures exists m :: Has(after.store, x, m)
    {
      if x != s {
        assert Place(x) < n - 1;
      }
    }
  }

  lemma RewriteAdds(store: Store, n: nat, s: Stream, before: State, after: State)
    requires 0 < n <= 2 * STREAMS && s == StreamAt(n - 1) && Newest(store, s) > 0
    requires RewriteInv(store, n - 1, before)
    requires after == State(before.store[Format(s, (before.counter + 1) % SEQ_LIMIT)
                              := store[Format(s, Newest(store, s))]], before.counter + 1)
    ensures Canonical(after.store) && OnlySurvivors(store, n, after)
    ensures Has(after.store, s, after.counter)
    ensures forall x, m :: Has(before.store, x, m) ==> Has(after.store, x, m)
  {
    hide Format, Parse;
    var number := before.counter + 1;
    SetChangesOne(before.store, s, number, store[Format(s, Newest(store, s))]);
    forall x, m | Has(after.store, x, m)
      ensures Place(x) < n && 0 < m <= after.counter
      ensures Some(after.store[Format(x, m)]) == Lookup(store, x)
    {
      if !(x == s && m == number) {
        assert Has(before.store, x, m);
        if Format(x, m) == Format(s, number) {
          FormatInjective(x, m, s, number);
        }
      }
    }
  }

  /** Compaction keeps every stream's record and renumbers from one. */
  lemma CompactionPreservesMap(store: Store)
    ensures Sound(Compacted(store))
    ensures Compacted(store).counter <= 2 * STREAMS
    ensures forall s :: Lookup(Compacted(store).store, s) == Lookup(store, s)
  {
    hide Format, Parse;
    RewriteKeepsInv(store, 2 * STREAMS);
    var after := Compacted(store).store;
    forall s
      ensures Lookup(after, s) == Lookup(store, s)
    {
      if Newest(after, s) > 0 {
        assert Has(after, s, Newest(after, s));
      }
    }
  }

  // ---- The room compaction needs -----------------------------------------

  /** Keys of the newest records of the first n streams. */
  ghost function LiveKeys(store: Store, n: nat): set<string>
    requires n <= 2 * STREAMS
  {
    if n == 0 then {}
    else
      var s := StreamAt(n - 1);
      LiveKeys(store, n - 1) + if Newest(store, s) > 0 then {Format(s, Newest(store, s))} else {}
  }

  lemma {:induction false} LiveKeysAreRecords(store: Store, n: nat)
    requires n <= 2 * STREAMS
    ensures forall k :: k in LiveKeys(store, n) ==>
        k in store && Parse(k).Some? && Place(Parse(k).value.stream) < n
    decreases n
  {
    hide Format, Parse;
    if n > 0 {
      LiveKeysAreRecords(store, n - 1);
      var s := StreamAt(n - 1);
      if Newest(store, s) > 0 {
        ParseFormat(s, Newest(store, s));
      }
    }
  }

  lemma RewrittenCounter(store: Store, n: nat)
    requires 0 < n <= 2 * STREAMS
    ensures Rewritten(store, n).counter ==
        Rewritten(store, n - 1).counter + if Newest(store, StreamAt(n - 1)) > 0 then 1 else 0
  {
    hide Format, Parse, Newest;
  }

  lemma LiveKeyIsNew(store: Store, n: nat)
    requires 0 < n <= 2 * STREAMS && Newest(store, StreamAt(n - 1)) > 0
    ensures Format(StreamAt(n - 1), Newest(store, StreamAt(n - 1))) !in LiveKeys(store, n - 1)
  {
    LiveKeysAreRecords(store, n - 1);
    ParseFormat(StreamAt(n - 1), Newest(store, StreamAt(n - 1)));
    hide Format, Parse, Newest, LiveKeys;
  }

  lemma {:induction false} LiveKeysCount(store: Store, n: nat)
    requires n <= 2 * STREAMS
    ensures |LiveKeys(store, n)| == Rewritten(store, n).counter
    decreases n
  {
    hide Format, Parse, Newest;
    if n > 0 {
      RewrittenCounter(store, n);
      LiveKeysCount(store, n - 1);
      if Newest(store, StreamAt(n - 1)) > 0 {
        LiveKeyIsNew(store, n);
      }
    }
  }

  lemma UpdateSize(store: Store, key: string, rec: Record)
    ensures |store[key := rec]| <= |store| + 1
  {
    assert store[key := rec].Keys == store.Keys + {key};
    if key in store {
      assert store[key := rec].Keys == store.Keys;
    }
  }

  lemma {:induction false} RewrittenSize(store: Store, n: nat)
    requires n <= 2 * STREAMS
    ensures |Rewritten(store, n).store| <= |Others(store)| + Rewritten(store, n).counter
    decreases n
  {
    hide Format, Parse;
    if n > 0 {
      RewrittenSize(store, n - 1);
      var s := StreamAt(n - 1);
      var t := Rewritten(store, n - 1);
      if Newest(store, s) > 0 {
        UpdateSize(t.store, Format(s, (t.counter + 1) % SEQ_LIMIT), store[Format(s, Newest(store, s))]);
      }
    }
  }

  /** The streams among the first n that have a record. */
  ghost function LiveStreams(store: Store, n: nat): set<int>
    requires n <= 2 * STREAMS
  {
    set i: int | 0 <= i < n && Lookup(store, StreamAt(i)).Some?
  }

  lemma LiveStreamsOne(store: Store, n: nat)
    requires 0 < n <= 2 * STREAMS
    ensures LiveStreams(store, n) ==
        LiveStreams(store, n - 1) + if Newest(store, StreamAt(n - 1)) > 0 then {n - 1} else {}
    ensures n - 1 !in LiveStreams(store, n - 1)
  {
    hide Format, Parse, Newest, StreamAt;
  }

  lemma {:induction false} SurvivorsCount(store: Store, n: nat)
    requires n <= 2 * STREAMS
    ensures |LiveStreams(store, n)| == Rewritten(store, n).counter
    decreases n
  {
    hide Format, Parse, Newest, Lookup;
    if n > 0 {
      RewrittenCounter(store, n);
      SurvivorsCount(store, n - 1);
      LiveStreamsOne(store, n);
      hide LiveStreams, Rewritten, StreamAt;
    }
  }

  /** What is not the journal's, in two stores. */
  ghost predicate SameOthers(a: Store, b: Store) {
    && (forall k :: Parse(k).None? ==> (k in a <==> k in b))
    && (forall k :: Parse(k).None? && k in b ==> a[k] == b[k])
  }

  lemma RecordSparesOthers(a: Store, b: Store, s: Stream, n: nat, rec: Record)
    requires SameOthers(a, b) && s.index < STREAMS && n < SEQ_LIMIT
    ensures SameOthers(a[Format(s, n) := rec], b)
  {
    ParseFormat(s, n);
    hide Format, Parse;
  }

  lemma NewEntry(store: Store, key: string, rec: Record)
    requires key !in store
    ensures |store[key := rec]| == |store| + 1
  {
    assert store[key := rec].Keys == store.Keys + {key};
  }

  lemma NextIsFree(store: Store, n: nat, t: State, s: Stream)
    requires RewriteInv(store, n, t) && s.index < STREAMS
    ensures Format(s, (t.counter + 1) % SEQ_LIMIT) !in t.store
  {
    hide Format, Parse, Lookup;
    assert !Has(t.store, s, t.counter + 1);
  }

  lemma NothingRewritten(store: Store)
    ensures Rewritten(store, 0) == State(Others(store), 0) && SameOthers(Others(store), store)
  {
    hide Parse;
  }

  lemma RewrittenOne(store: Store, n: nat)
    requires 0 < n <= 2 * STREAMS
    ensures var s, t := StreamAt(n - 1), Rewritten(store, n - 1);
        Rewritten(store, n) ==
          if Newest(store, s) == 0 then t
          else State(t.store[Format(s, (t.counter + 1) % SEQ_LIMIT) := store[Format(s, Newest(store, s))]], t.counter + 1)
  {
    hide Format, Newest, StreamAt;
  }

  /** A rewrite leaves what is not the journal's and one record of each stream that has one. */
  lemma {:induction false} RewrittenSizeExactly(store: Store, n: nat)
    requires n <= 2 * STREAMS
    ensures |Rewritten(store, n).store| == |Others(store)| + Rewritten(store, n).counter
    ensures SameOthers(Rewritten(store, n).store, store)
    decreases n
  {
    hide Format, Parse, Newest, RewriteInv, SameOthers, Others, Rewritten, StreamAt;
    if n == 0 {
      NothingRewritten(store);
    } else {
      RewrittenSizeExactly(store, n - 1);
      RewriteKeepsInv(store, n - 1);
      RewrittenOne(store, n);
      var s, t := StreamAt(n - 1), Rewritten(store, n - 1);
      var number := (t.counter + 1) % SEQ_LIMIT;
      if Newest(store, s) > 0 {
        NextIsFree(store, n - 1, t, s);
        NewEntry(t.store, Format(s, number), store[Format(s, Newest(store, s))]);
        RecordSparesOthers(t.store, store, s, number, store[Format(s, Newest(store, s))]);
      }
    }
  }

  lemma {:induction false} LiveKeysGrow(store: Store, n: nat, m: nat)
    requires n <= m <= 2 * STREAMS
    ensures LiveKeys(store, n) <= LiveKeys(store, m)
    decreases m
  {
    if n < m {
      LiveKeysGrow(store, n, m - 1);
    }
  }

  /** A rewrite never needs more room than the erase freed. */
  lemma RewriteFits(store: Store, n: nat)
    requires n < 2 * STREAMS && Newest(store, StreamAt(n)) > 0
    ensures |Rewritten(store, n).store| < |store|
  {
    hide Format, Parse;
    RewrittenSize(store, n);
    LiveKeysCount(store, n + 1);
    assert Rewritten(store, n + 1).counter == Rewritten(store, n).counter + 1;
    LiveKeysGrow(store, n + 1, 2 * STREAMS);
    LiveAndOthers(store);
    SubsetSize(LiveKeys(store, n + 1), LiveKeys(store, 2 * STREAMS));
  }

  lemma LiveAndOthers(store: Store)
    ensures |Others(store)| + |LiveKeys(store, 2 * STREAMS)| <= |store|
  {
    LiveKeysAreRecords(store, 2 * STREAMS);
    var live := LiveKeys(store, 2 * STREAMS);
    assert Others(store).Keys !! live;
    assert Others(store).Keys + live <= store.Keys;
    SubsetSize(Others(store).Keys + live, store.Keys);
  }

  // ---- Scanning in any order ---------------------------------------------

  /** What is known of the newest records while `todo` has yet to be seen. */
  ghost predicate Scanned(store: Store, todo: set<string>, latest: seq<nat>, records: seq<Record>, top: nat) {
    && |latest| == |records| == 2 * STREAMS
    && (forall s, n :: Has(store, s, n) && Format(s, n) !in todo ==> n <= latest[Place(s)] && n <= top)
    && (forall i :: 0 <= i < 2 * STREAMS && latest[i] > 0 ==>
          Has(store, StreamAt(i), latest[i]) && records[i] == store[Format(StreamAt(i), latest[i])])
  }

  lemma ScannedOne(store: Store, todo: set<string>, latest: seq<nat>, records: seq<Record>, top: nat,
                   s: Stream, n: nat)
    requires Scanned(store, todo, latest, records, top) && Has(store, s, n)
    ensures var newer := n >= latest[Place(s)];
            Scanned(store, todo - {Format(s, n)},
                    if newer then latest[Place(s) := n] else latest,
                    if newer then records[Place(s) := store[Format(s, n)]] else records,
                    if n > top then n else top)
  {
    hide Format, Parse;
    assert StreamAt(Place(s)) == s;
    forall t, m | Has(store, t, m) && Format(t, m) !in todo - {Format(s, n)} && Format(t, m) in todo
      ensures t == s && m == n
    {
      FormatInjective(t, m, s, n);
    }
  }

  lemma ScannedAll(store: Store, latest: seq<nat>, records: seq<Record>, top: nat)
    requires Scanned(store, {}, latest, records, top)
    ensures forall i :: 0 <= i < 2 * STREAMS ==> latest[i] == Newest(store, StreamAt(i))
    ensures forall i :: 0 <= i < 2 * STREAMS && latest[i] > 0 ==>
        Some(records[i]) == Lookup(store, StreamAt(i))
  {
    forall i | 0 <= i < 2 * STREAMS
      ensures latest[i] == Newest(store, StreamAt(i))
    {
      NewestIs(store, StreamAt(i), latest[i]);
    }
  }

  // ---- The journal as it is kept -----------------------------------------

  class Flash {
    const capacity: nat
    var store: Store
    var counter: nat

    ghost function Abstract(): State
      reads this
    {
      State(store, counter)
    }

    ghost predicate Valid()
      reads this
    {
      Canonical(store) && |store| <= capacity
    }

    constructor (capacity: nat, store: Store)
      requires Canonical(store) && |store| <= capacity
      ensures Valid() && this.capacity == capacity && Abstract() == State(store, 0)
    {
      this.capacity, this.store, this.counter := capacity, store, 0;
    }

    method Set(key: string, rec: Record) returns (ok: bool)
      modifies this`store
      ensures ok == Fits(old(store), key, capacity)
      ensures store == if ok then old(store)[key := rec] else old(store)
      ensures old(|store|) <= capacity ==> |store| <= capacity
    {
      ok := key in store || |store| < capacity;
      if ok {
        ghost var before := store;
        store := store[key := rec];
        assert store.Keys == before.Keys + {key};
      }
    }

    /** Newest record of every stream, whatever order the keys come in. */
    method Scan() returns (latest: seq<nat>, records: seq<Record>, top: nat)
      requires Canonical(store)
      ensures |latest| == |records| == 2 * STREAMS
      ensures forall i :: 0 <= i < 2 * STREAMS ==> latest[i] == Newest(store, StreamAt(i))
      ensures forall i :: 0 <= i < 2 * STREAMS && latest[i] > 0 ==>
          Some(records[i]) == Lookup(store, StreamAt(i))
      ensures forall s, n :: Has(store, s, n) ==> n <= top
    {
      var none: Record := *;
      latest := seq(2 * STREAMS, _ => 0);
      records := seq(2 * STREAMS, _ => none);
      top := 0;
      var todo := store.Keys;
      while todo != {}
        invariant todo <= store.Keys
        invariant Scanned(store, todo, latest, records, top)
        decreases todo
      {
        var key :| key in todo;
        var parsed := Parse(key);
        if parsed.Some? {
          CanonicalKey(store, key);
          var s, n := parsed.value.stream, parsed.value.seqno;
          ScannedOne(store, todo, latest, records, top, s, n);
          if n > top {
            top := n;
          }
          if n >= latest[Place(s)] {
            records := records[Place(s) := store[key]];
            latest := latest[Place(s) := n];
          }
        } else {
          NotARecordKey(store, key);
        }
        todo := todo - {key};
      }
      ScannedAll(store, latest, records, top);
    }

    /** Erases every journal key, finding each victim afresh. */
    method EraseJournal()
      modifies this`store
      ensures store == Others(old(store))
    {
      var more := true;
      while more
        invariant Others(store) == Others(old(store))
        invariant !more ==> forall k :: k in store ==> Parse(k).None?
        decreases |store|, more
      {
        var victim, found := FindVictim();
        if !found {
          more := false;
        } else {
          ghost var before := store;
          store := store - {victim};
          assert store.Keys == before.Keys - {victim};
        }
      }
      assert store == Others(store);
    }

    method FindVictim() returns (victim: string, found: bool)
      ensures found ==> victim in store && Parse(victim).Some?
      ensures !found ==> forall k :: k in store ==> Parse(k).None?
    {
      victim, found := "", false;
      var todo := store.Keys;
      while todo != {}
        invariant todo <= store.Keys
        invariant forall k :: k in store && k !in todo ==> Parse(k).None?
        decreases todo
      {
        victim :| victim in todo;
        todo := todo - {victim};
        if Parse(victim).Some? {
          return victim, true;
        }
      }
    }

    /** Writes the survivors back with fresh sequence numbers. */
    method Rewrite(latest: seq<nat>, records: seq<Record>, ghost from: Store)
      requires store == Others(from) && |from| <= capacity
      requires |latest| == |records| == 2 * STREAMS
      requires forall i :: 0 <= i < 2 * STREAMS ==> latest[i] == Newest(from, StreamAt(i))
      requires forall i :: 0 <= i < 2 * STREAMS && latest[i] > 0 ==>
          Some(records[i]) == Lookup(from, StreamAt(i))
      modifies this
      ensures Abstract() == Rewritten(from, 2 * STREAMS) && |store| <= capacity
    {
      hide Format, Parse, Newest, Others;
      OthersFit(from);
      counter := 0;
      var i := 0;
      while i < 2 * STREAMS
        invariant 0 <= i <= 2 * STREAMS
        invariant Abstract() == Rewritten(from, i)
        invariant |store| <= capacity
      {
        if latest[i] > 0 {
          RewriteFits(from, i);
          assert records[i] == from[Format(StreamAt(i), latest[i])];
          counter := counter + 1;
          var _ := Set(Format(StreamAt(i), counter % SEQ_LIMIT), records[i]);
        }
        i := i + 1;
      }
    }

    method Compact()
      requires Valid()
      modifies this
      ensures Valid() && Abstract() == Compacted(old(store))
      ensures forall s :: Lookup(store, s) == Lookup(old(store), s)
      ensures counter == |LiveStreams(old(store), 2 * STREAMS)|
      ensures SameOthers(store, old(store))
    {
      RewrittenSizeExactly(store, 2 * STREAMS);
      SurvivorsCount(store, 2 * STREAMS);
      hide Format, Parse, Lookup, LiveStreams, SameOthers;
      var latest, records, _ := Scan();
      EraseJournal();
      Rewrite(latest, records, old(store));
      CompactionPreservesMap(old(store));
    }

    lemma AppendLaws(s: State, stream: Stream, rec: Record)
      ensures var (t, ok) := Appended(s, capacity, stream, rec);
          && (Sound(s) && s.counter + 1 < SEQ_LIMIT ==>
                && (ok <==> stream.index < STREAMS && |Others(s.store)| + |LiveStreams(s.store, 2 * STREAMS)| < capacity)
                && Sound(t) && forall x :: Lookup(t.store, x) == if ok && x == stream then Some(rec) else Lookup(s.store, x))
          && SameOthers(t.store, s.store)
    {
      hide Format, Parse, Appended, Lookup, LiveStreams, Others, Sound, SameOthers;
      if Sound(s) && s.counter + 1 < SEQ_LIMIT {
        AppendSucceedsExactly(s, capacity, stream, rec);
        AppendSetsOneKey(s, capacity, stream, rec);
      }
      AppendSparesOthers(s, capacity, stream, rec);
    }

    method Append(stream: Stream, rec: Record) returns (ok: bool)
      requires Valid()
      modifies this
      ensures Valid()
      ensures (Abstract(), ok) == Appended(old(Abstract()), capacity, stream, rec)
      // In full: it fails only when compaction leaves no room, and sets its stream's record or none.
      ensures old(Sound(Abstract()) && counter + 1 < SEQ_LIMIT) ==>
          (ok <==> stream.index < STREAMS && |Others(old(store))| + |LiveStreams(old(store), 2 * STREAMS)| < capacity)
      ensures old(Sound(Abstract()) && counter + 1 < SEQ_LIMIT) ==>
          Sound(Abstract()) && forall x :: Lookup(store, x) == if ok && x == stream then Some(rec) else Lookup(old(store), x)
      ensures SameOthers(store, old(store))
    {
      ghost var before := Abstract();
      AppendLaws(before, stream, rec);
      hide Format, Parse, Compacted, Sound, Lookup, LiveStreams, Others, SameOthers;
      if stream.index >= STREAMS {
        return false;
      }
      counter := counter + 1;
      SetKeepsCanonical(store, stream, counter % SEQ_LIMIT, rec);
      ok := Set(Format(stream, counter % SEQ_LIMIT), rec);
      if !ok {
        Compact();
        counter := counter + 1;
        SetKeepsCanonical(store, stream, counter % SEQ_LIMIT, rec);
        ok := Set(Format(stream, counter % SEQ_LIMIT), rec);
      }
    }

    /** Boot: the counter starts over, the records are replayed, compacted. */
    method Boot() returns (latest: seq<nat>, records: seq<Record>)
      requires Valid()
      modifies this
      ensures Valid() && Abstract() == Compacted(old(store))
      ensures forall s :: Lookup(store, s) == Lookup(old(store), s)
      ensures |latest| == |records| == 2 * STREAMS
      ensures forall i :: 0 <= i < 2 * STREAMS ==>
          (if latest[i] > 0 then Some(records[i]) else None) == Lookup(old(store), StreamAt(i))
    {
      var top;
      latest, records, top := Scan();
      counter := top;
      Compact();
    }
  }

  lemma NotARecordKey(store: Store, key: string)
    requires Parse(key).None?
    ensures forall s, n :: Has(store, s, n) ==> Format(s, n) != key
  {
    forall s, n | Has(store, s, n)
      ensures Format(s, n) != key
    {
      ParseFormat(s, n);
    }
  }

  lemma OthersFit(store: Store)
    ensures |Others(store)| <= |store|
  {
    LiveAndOthers(store);
  }

  lemma SetKeepsCanonical(store: Store, s: Stream, n: nat, rec: Record)
    requires Canonical(store) && s.index < STREAMS && n < SEQ_LIMIT
    ensures Canonical(store[Format(s, n) := rec])
  {
    SetChangesOne(store, s, n, rec);
  }

  // ---- What an append does ------------------------------------------------

  /** One more record: it is found if its number is the newest of its stream. */
  lemma SetTakesEffectExactly(store: Store, s: Stream, n: nat, rec: Record)
    requires s.index < STREAMS && n < SEQ_LIMIT
    ensures var after := store[Format(s, n) := rec];
            && (forall t :: t != s ==> Lookup(after, t) == Lookup(store, t))
            && Lookup(after, s) == if n > 0 && n >= Newest(store, s) then Some(rec) else Lookup(store, s)
  {
    hide Format, Parse;
    SetChangesOne(store, s, n, rec);
    var after := store[Format(s, n) := rec];
    forall t
      ensures Lookup(after, t) == if t == s && n > 0 && n >= Newest(store, s) then Some(rec) else Lookup(store, t)
    {
      NewestIs(after, t, if t == s && n >= Newest(store, s) then n else Newest(store, t));
      if t.index < STREAMS && Newest(store, t) > 0 && Format(t, Newest(store, t)) == Format(s, n) {
        FormatInjective(t, Newest(store, t), s, n);
      }
    }
  }

  lemma NumberedUpTo(s: State, stream: Stream)
    requires Sound(s)
    ensures Newest(s.store, stream) <= s.counter
  {
    var r := Newest(s.store, stream);
    if r > 0 {
      assert Has(s.store, stream, r);
    }
  }

  lemma SoundAfterSet(s: State, stream: Stream, rec: Record)
    requires Sound(s) && s.counter + 1 < SEQ_LIMIT && stream.index < STREAMS
    ensures var after := s.store[Format(stream, s.counter + 1) := rec];
            && Sound(State(after, s.counter + 1))
            && forall x :: Lookup(after, x) == if x == stream then Some(rec) else Lookup(s.store, x)
  {
    hide Format, Parse;
    NumberedUpTo(s, stream);
    SetTakesEffectExactly(s.store, stream, s.counter + 1, rec);
    SetChangesOne(s.store, stream, s.counter + 1, rec);
  }

  function Later(counter: nat): nat {
    if counter > 2 * STREAMS then counter + 1 else 2 * STREAMS + 1
  }

  /**
   An append sets its stream's record and no other, or fails and changes
   nothing; and it leaves a journal of which the same can be said.
   */
  lemma AppendSetsOneKey(s: State, capacity: nat, stream: Stream, rec: Record)
    requires Sound(s) && s.counter + 1 < SEQ_LIMIT
    ensures var (t, ok) := Appended(s, capacity, stream, rec);
            && Sound(t)
            && t.counter <= Later(s.counter)
            && (ok ==> stream.index < STREAMS)
            && forall x :: Lookup(t.store, x) == if ok && x == stream then Some(rec) else Lookup(s.store, x)
  {
    hide Format, Parse, Compacted, Lookup, Canonical;
    if stream.index < STREAMS {
      if Fits(s.store, Format(stream, (s.counter + 1) % SEQ_LIMIT), capacity) {
        SoundAfterSet(s, stream, rec);
      } else {
        CompactionPreservesMap(s.store);
        SoundAfterSet(Compacted(s.store), stream, rec);
      }
    }
  }

  lemma NextKeyIsNew(s: State, stream: Stream)
    requires Sound(s) && s.counter + 1 < SEQ_LIMIT && stream.index < STREAMS
    ensures Format(stream, (s.counter + 1) % SEQ_LIMIT) !in s.store
  {
    hide Format, Parse;
    assert !Has(s.store, stream, s.counter + 1);
  }

  lemma OthersAndLive(store: Store)
    ensures |Compacted(store).store| == |Others(store)| + |LiveStreams(store, 2 * STREAMS)| <= |store|
  {
    RewrittenSizeExactly(store, 2 * STREAMS);
    SurvivorsCount(store, 2 * STREAMS);
    LiveKeysCount(store, 2 * STREAMS);
    LiveAndOthers(store);
  }

  /**
   An append of a numbered stream succeeds exactly while the store has room
   for one entry more than what is not the journal's and one record of each
   stream that has one: a full store is compacted and the append tried again.
   */
  lemma AppendSucceedsExactly(s: State, capacity: nat, stream: Stream, rec: Record)
    requires Sound(s) && s.counter + 1 < SEQ_LIMIT
    ensures Appended(s, capacity, stream, rec).1 <==>
        stream.index < STREAMS && |Others(s.store)| + |LiveStreams(s.store, 2 * STREAMS)| < capacity
  {
    hide Format, Parse, Compacted, LiveStreams, Others, Sound;
    if stream.index < STREAMS {
      NextKeyIsNew(s, stream);
      CompactionPreservesMap(s.store);
      NextKeyIsNew(Compacted(s.store), stream);
      OthersAndLive(s.store);
    }
  }

  /** An append leaves what is not the journal's alone. */
  lemma AppendSparesOthers(s: State, capacity: nat, stream: Stream, rec: Record)
    ensures SameOthers(Appended(s, capacity, stream, rec).0.store, s.store)
  {
    hide Format, Parse, Rewritten, Others;
    RewrittenSizeExactly(s.store, 2 * STREAMS);
    assert SameOthers(s.store, s.store);
    hide SameOthers;
    if stream.index < STREAMS {
      RecordSparesOthers(s.store, s.store, stream, (s.counter + 1) % SEQ_LIMIT, rec);
      var t := Compacted(s.store);
      RecordSparesOthers(t.store, s.store, stream, (t.counter + 1) % SEQ_LIMIT, rec);
    }
  }

  /**
   The 24-bit number is what bounds a journal between compactions.  An append
   that finds room is read back if and only if its number did not wrap to
   zero, or it repeats the record already there.
   */
  lemma AppendReadBackExactly(s: State, capacity: nat, stream: Stream, rec: Record)
    requires Sound(s) && stream.index < STREAMS
    requires Fits(s.store, Format(stream, (s.counter + 1) % SEQ_LIMIT), capacity)
    ensures Appended(s, capacity, stream, rec).1
    ensures Lookup(Appended(s, capacity, stream, rec).0.store, stream) == Some(rec)
       <==> s.counter + 1 < SEQ_LIMIT || Lookup(s.store, stream) == Some(rec)
  {
    hide Format, Parse;
    NumberedUpTo(s, stream);
    SetTakesEffectExactly(s.store, stream, (s.counter + 1) % SEQ_LIMIT, rec);
  }

  // ---- Runs ---------------------------------------------------------------

  datatype Op = Append(stream: Stream, rec: Record) | Reboot

  ghost function Step(s: State, capacity: nat, op: Op): State {
    match op
    case Append(stream, rec) => Appended(s, capacity, stream, rec).0
    case Reboot => Compacted(s.store)
  }

  ghost function Run(s: State, capacity: nat, ops: seq<Op>): State {
    if ops == [] then s else Step(Run(s, capacity, ops[..|ops| - 1]), capacity, ops[|ops| - 1])
  }

  /** The plain map the journal stands for: appends that succeeded. */
  ghost function Meant(s: State, capacity: nat, ops: seq<Op>, m: map<Stream, Record>): map<Stream, Record> {
    if ops == [] then m
    else
      var front, op := ops[..|ops| - 1], ops[|ops| - 1];
      var before := Meant(s, capacity, front, m);
      if op.Append? && Appended(Run(s, capacity, front), capacity, op.stream, op.rec).1
      then before[op.stream := op.rec] else before
  }

  ghost predicate Stands(store: Store, m: map<Stream, Record>) {
    forall s :: Lookup(store, s) == if s in m then Some(m[s]) else None
  }

  /** Every append of the run found a number to use. */
  ghost predicate Numbered(s: State, capacity: nat, ops: seq<Op>) {
    forall k :: 0 <= k < |ops| && ops[k].Append? ==> Run(s, capacity, ops[..k]).counter + 1 < SEQ_LIMIT
  }

  /**
   The journal refines a map: over any run of appends, compactions when the
   store fills, and reboots, it stands for exactly what was appended.
   */
  lemma {:induction false} JournalRefinesMap(s: State, capacity: nat, ops: seq<Op>, m: map<Stream, Record>)
    requires Sound(s) && Stands(s.store, m)
    requires Numbered(s, capacity, ops)
    ensures Sound(Run(s, capacity, ops))
    ensures Stands(Run(s, capacity, ops).store, Meant(s, capacity, ops, m))
    decreases |ops|
  {
    hide Format, Parse, Appended, Compacted;
    if ops != [] {
      var front, op := ops[..|ops| - 1], ops[|ops| - 1];
      forall k | 0 <= k < |front|
        ensures front[..k] == ops[..k]
      {
      }
      JournalRefinesMap(s, capacity, front, m);
      var before := Run(s, capacity, front);
      match op {
        case Append(stream, rec) =>
          AppendSetsOneKey(before, capacity, stream, rec);
        case Reboot =>
          CompactionPreservesMap(before.store);
      }
    }
  }

  /** Appends since the last reboot of a run. */
  function SinceReboot(ops: seq<Op>): nat {
    if ops == [] then 0
    else if ops[|ops| - 1].Reboot? then 0
    else 1 + SinceReboot(ops[..|ops| - 1])
  }

  /**
   Compaction at boot and when full keeps the numbers of any run short: fewer
   than 2^24 appends between reboots, less one boot's worth, are all numbered.
   */
  lemma {:induction false} ShortRunsAreNumbered(s: State, capacity: nat, ops: seq<Op>)
    requires Sound(s) && s.counter <= 2 * STREAMS
    requires forall k :: 0 <= k <= |ops| ==> 2 * STREAMS + 1 + SinceReboot(ops[..k]) < SEQ_LIMIT
    ensures Numbered(s, capacity, ops) && Sound(Run(s, capacity, ops))
    ensures Run(s, capacity, ops).counter <= 2 * STREAMS + SinceReboot(ops)
    decreases |ops|
  {
    hide Format, Parse, Appended, Compacted;
    if ops != [] {
      var front, op := ops[..|ops| - 1], ops[|ops| - 1];
      assert ops == ops[..|ops|];
      forall k | 0 <= k <= |front|
        ensures front[..k] == ops[..k]
      {
      }
      ShortRunsAreNumbered(s, capacity, front);
      var before := Run(s, capacity, front);
      match op {
        case Append(stream, rec) =>
          assert SinceReboot(ops) == 1 + SinceReboot(front);
          AppendSetsOneKey(before, capacity, stream, rec);
        case Reboot =>
          CompactionPreservesMap(before.store);
      }
    }
  }
}
