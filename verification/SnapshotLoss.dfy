/**
 A run of the snapshot writer that loses an update: everything settles after
 one request and one flash write, and the write failed.
 */
module SnapshotLoss {
  import opened Basics
  import opened SnapshotWriter

  ghost predicate IsPath(run: seq<State>) {
    && run != []
    && forall k :: 0 <= k < |run| - 1 ==> Next(run[k], run[k + 1])
  }

  lemma Ahead(s: State, t: State, run: seq<State>)
    requires Next(s, t) && IsPath(run) && run[0] == t
    ensures IsPath([s] + run) && Last([s] + run) == Last(run)
  {
    hide Next;
  }

  lemma Joined(run: seq<State>, more: seq<State>)
    requires IsPath(run) && IsPath(more) && Last(run) == more[0]
    ensures IsPath(run + more[1..]) && (run + more[1..])[0] == run[0] && Last(run + more[1..]) == Last(more)
  {
    hide Next;
    var all := run + more[1..];
    forall k | 0 <= k < |all| - 1
      ensures Next(all[k], all[k + 1])
    {
      if k >= |run| - 1 {
        assert all[k] == more[k - |run| + 1] && all[k + 1] == more[k - |run| + 2];
      }
    }
  }

  /** The gather moves every cell. */
  lemma {:induction false} Gathers(s: State) returns (run: seq<State>)
    requires s.avb.Gathering? && s.avb.todo <= Indices(SIZE) && |s.buffer| == |s.avb.value| == SIZE
    requires forall i: nat :: i < SIZE && i !in s.avb.todo ==> s.buffer[i] == s.avb.value[i]
    ensures IsPath(run) && run[0] == s
    ensures Last(run) == s.(buffer := s.avb.value, avb := s.avb.(todo := {}))
    decreases |s.avb.todo|
  {
    if s.avb.todo == {} {
      assert s.buffer == s.avb.value;
      run := [s];
    } else {
      var i: nat :| i in s.avb.todo;
      var t := s.(buffer := s.buffer[i := s.avb.value[i]], avb := s.avb.(todo := s.avb.todo - {i}));
      assert GatherCellAt(s, t, i, true);
      assert Next(s, t);
      var rest := Gathers(t);
      hide Next;
      Ahead(s, t, rest);
      run := [s] + rest;
    }
  }

  /** The copy takes every cell. */
  lemma {:induction false} Copies(s: State) returns (run: seq<State>)
    requires s.task.Copying? && s.task.todo <= Indices(SIZE) && |s.buffer| == |s.task.copy| == SIZE
    requires forall i: nat :: i < SIZE && i !in s.task.todo ==> s.task.copy[i] == s.buffer[i]
    ensures IsPath(run) && run[0] == s
    ensures Last(run) == s.(task := Copying({}, s.buffer))
    decreases |s.task.todo|
  {
    if s.task.todo == {} {
      assert s.task.copy == s.buffer;
      run := [s];
    } else {
      var i: nat :| i in s.task.todo;
      var t := s.(task := Copying(s.task.todo - {i}, s.task.copy[i := s.buffer[i]]));
      assert CopyCellAt(s, t, i);
      assert Next(s, t);
      var rest := Copies(t);
      hide Next;
      Ahead(s, t, rest);
      run := [s] + rest;
    }
  }

  function Booted(value: seq<Cell>): State {
    State(value, value, Free, false, false, 0, 0, Resting, Sleeping, value, None, true)
  }

  /** Where one eager request leaves a state that had none. */
  function Marked(former: seq<Cell>, value: seq<Cell>): State {
    Booted(former).(buffer := value, latest := value, dirty := true, eagerSince := Some(0))
  }

  lemma Begins(former: seq<Cell>, value: seq<Cell>) returns (run: seq<State>)
    requires |former| == |value| == SIZE
    ensures IsPath(run) && run[0] == Booted(former)
    ensures Last(run) == Booted(former).(owner := AvbTask, avb := Gathering(value, true, Indices(SIZE)))
  {
    var s := Booted(former);
    var asked := s.(avb := Locking(value, true));
    var locked := asked.(owner := AvbTask, avb := Gathering(value, true, Indices(SIZE)));
    assert Request(s, asked) && AvbLocks(asked, locked);
    assert Next(s, asked) && Next(asked, locked);
    run := [s, asked, locked];
  }

  lemma Marks(former: seq<Cell>, value: seq<Cell>) returns (run: seq<State>)
    requires |former| == |value| == SIZE
    ensures IsPath(run) && Last(run) == Marked(former, value)
    ensures run[0] == Booted(former).(buffer := value, owner := AvbTask, avb := Gathering(value, true, {}))
  {
    var gathered := Booted(former).(buffer := value, owner := AvbTask, avb := Gathering(value, true, {}));
    var free := gathered.(owner := Free, latest := value, avb := EagerReadDirty);
    var stamp, clear, raise := free.(avb := EagerStamp), free.(avb := EagerClearLazy), free.(avb := EagerSetDirty);
    var marked := Marked(former, value);
    assert AvbUnlocks(gathered, free);
    assert Mark(free, stamp) && Mark(stamp, clear) && Mark(clear, raise) && Mark(raise, marked);
    assert Next(gathered, free) && Next(free, stamp) && Next(stamp, clear) && Next(clear, raise) && Next(raise, marked);
    hide Next;
    run := [gathered, free, stamp, clear, raise, marked];
  }

  /** The task takes the marks and the lock. */
  lemma Takes(former: seq<Cell>, value: seq<Cell>) returns (run: seq<State>)
    requires |former| == |value| == SIZE
    ensures IsPath(run) && run[0] == Marked(former, value)
    ensures Last(run) == Marked(former, value).(dirty := false, eagerSince := None, owner := PersistTask,
                                                task := Copying(Indices(SIZE), former))
  {
    var m := Marked(former, value);
    var gate, lazy, dirty := m.(task := Gate), m.(task := ClearLazy), m.(task := ClearDirty);
    var waits := dirty.(dirty := false, eagerSince := None, task := LockingCopy);
    var holds := waits.(owner := PersistTask, task := Copying(Indices(SIZE), former));
    assert Poll(m, gate) && PassGate(gate, lazy, false) && TakeMarks(lazy, dirty) && TakeMarks(dirty, waits);
    assert TaskLocks(waits, holds);
    assert Next(m, gate) && Next(gate, lazy) && Next(lazy, dirty) && Next(dirty, waits) && Next(waits, holds);
    hide Next;
    run := [m, gate, lazy, dirty, waits, holds];
  }

  /** Nothing is marked and nobody is at work, yet flash holds what was there before. */
  function Lost(former: seq<Cell>, value: seq<Cell>): State {
    Booted(former).(buffer := value, latest := value, writeOk := false)
  }

  lemma Fails(former: seq<Cell>, value: seq<Cell>) returns (run: seq<State>)
    requires |former| == |value| == SIZE
    ensures IsPath(run) && Last(run) == Lost(former, value)
    ensures run[0] == Booted(former).(buffer := value, latest := value, owner := PersistTask, task := Copying({}, value))
    ensures |run| > 2 && WriteFlash(run[|run| - 2], Last(run), false)
  {
    var full := Booted(former).(buffer := value, latest := value, owner := PersistTask, task := Copying({}, value));
    var copied := full.(owner := Free, task := Copied(value));
    assert TaskUnlocks(full, copied) && WriteFlash(copied, Lost(former, value), false);
    assert Next(full, copied) && Next(copied, Lost(former, value));
    run := [full, copied, Lost(former, value)];
  }

  /** Any two snapshots that differ: the run ends settled, with the older one in flash. */
  lemma FailedWriteLosesTheUpdate(former: seq<Cell>, value: seq<Cell>) returns (run: seq<State>)
    requires |former| == |value| == SIZE && former != value
    ensures IsRun(run) && |run| > 1 && WriteFlash(run[|run| - 2], Last(run), false)
    ensures Settled(Last(run)) && Last(run).latest == value && Last(run).flash == former
  {
    var begun := Begins(former, value);
    var gathered := Gathers(Last(begun));
    var marked := Marks(former, value);
    var taken := Takes(former, value);
    var copied := Copies(Last(taken));
    var failed := Fails(former, value);
    hide Next, WriteFlash;
    Joined(begun, gathered);
    Joined(begun + gathered[1..], marked);
    Joined(begun + gathered[1..] + marked[1..], taken);
    Joined(begun + gathered[1..] + marked[1..] + taken[1..], copied);
    var all := begun + gathered[1..] + marked[1..] + taken[1..] + copied[1..];
    Joined(all, failed);
    run := all + failed[1..];
    assert run[|run| - 2] == failed[|failed| - 2];
  }
}
