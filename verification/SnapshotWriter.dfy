/**
 The deferred snapshot writer.

 The AVB task gathers the configuration into a shared buffer under a mutex and
 marks it dirty, eagerly or lazily.  A low-priority task polls the mark, clears
 it, copies the buffer under the mutex and writes the copy to flash.  The marks
 themselves are plain words outside the mutex: every read and write of them is
 a step of its own here, and so is every cell the gather and the copy move.
 */
module SnapshotWriter {
  import opened Basics

  type Cell(==)

  /** Cells of the snapshot. */
  const SIZE: nat

  /** A dirty snapshot this old is written even while audio streams. */
  const FORCED_FLUSH: nat

  datatype Owner = Free | AvbTask | PersistTask

  /** Where the AVB task is inside a save request. */
  datatype Avb =
    | Resting
    | Locking(value: seq<Cell>, eager: bool)
    | Gathering(value: seq<Cell>, eager: bool, todo: set<nat>)
    | EagerReadDirty
    | EagerReadLazy
    | EagerStamp
    | EagerClearLazy
    | EagerSetDirty
    | LazyReadDirty
    | LazySetLazy
    | LazySetDirty

  /** Where the persist task is inside a poll. */
  datatype Task =
    | Sleeping
    | Gate
    | AgeGate
    | ClearLazy
    | ClearDirty
    | LockingCopy
    | Copying(todo: set<nat>, copy: seq<Cell>)
    | Copied(copy: seq<Cell>)

  /**
   `latest` is what the last finished gather collected; `eagerSince` is when
   the oldest eager request the persist task has not taken yet was made;
   `writeOk` says whether the last flash write succeeded.
   */
  datatype State = State(
    buffer: seq<Cell>,
    flash: seq<Cell>,
    owner: Owner,
    dirty: bool,
    lazy: bool,
    dirtySince: nat,
    now: nat,
    avb: Avb,
    task: Task,
    latest: seq<Cell>,
    eagerSince: Option<nat>,
    writeOk: bool)

  ghost predicate Init(s: State) {
    && |s.buffer| == SIZE
    && s.flash == s.buffer == s.latest
    && s.owner == Free
    && !s.dirty && !s.lazy
    && s.avb == Resting && s.task == Sleeping
    && s.eagerSince == None
    && s.dirtySince == 0
    && s.writeOk
  }

  // ---- The AVB task ------------------------------------------------------

  ghost predicate Request(s: State, t: State) {
    && s.avb.Resting?
    && t.avb.Locking?
    && |t.avb.value| == SIZE
    && t == s.(avb := t.avb)
  }

  ghost predicate AvbLocks(s: State, t: State) {
    && s.avb.Locking?
    && s.owner == Free
    && t == s.(owner := AvbTask, avb := Gathering(s.avb.value, s.avb.eager, Indices(SIZE)))
  }

  /** One cell of the buffer changes: cleared first, then given its value. */
  ghost predicate GatherCellAt(s: State, t: State, i: nat, final: bool) {
    && s.avb.Gathering?
    && i in s.avb.todo
    && i < |s.buffer| == |t.buffer| == |s.avb.value|
    && (final ==> t.buffer[i] == s.avb.value[i])
    && t == s.(buffer := s.buffer[i := t.buffer[i]],
               avb := if final then s.avb.(todo := s.avb.todo - {i}) else s.avb)
  }

  ghost predicate GatherCell(s: State, t: State) {
    exists i: nat, final: bool :: GatherCellAt(s, t, i, final)
  }

  ghost predicate AvbUnlocks(s: State, t: State) {
    && s.avb.Gathering?
    && s.avb.todo == {}
    && t == s.(owner := Free,
               latest := s.avb.value,
               avb := if s.avb.eager then EagerReadDirty else LazyReadDirty)
  }

  /** The marking half of a request: one shared word per step. */
  ghost predicate Mark(s: State, t: State) {
    match s.avb {
      case EagerReadDirty => t == s.(avb := if s.dirty then EagerReadLazy else EagerStamp)
      case EagerReadLazy => t == s.(avb := if s.lazy then EagerStamp else EagerClearLazy)
      case EagerStamp => t == s.(dirtySince := s.now, avb := EagerClearLazy)
      case EagerClearLazy => t == s.(lazy := false, avb := EagerSetDirty)
      case EagerSetDirty =>
        t == s.(dirty := true,
                eagerSince := if s.eagerSince.None? then Some(s.now) else s.eagerSince,
                avb := Resting)
      case LazyReadDirty => t == s.(avb := if s.dirty then LazySetDirty else LazySetLazy)
      case LazySetLazy => t == s.(lazy := true, avb := LazySetDirty)
      case LazySetDirty => t == s.(dirty := true, avb := Resting)
      case _ => false
    }
  }

  // ---- The persist task --------------------------------------------------

  ghost predicate Poll(s: State, t: State) {
    && s.task.Sleeping?
    && t == s.(task := if s.dirty then Gate else Sleeping)
  }

  /** Streaming or heavy ingress holds a write back; lazy marks wait it out. */
  ghost predicate PassGate(s: State, t: State, streaming: bool) {
    && s.task.Gate?
    && t == s.(task := if !streaming then ClearLazy else if s.lazy then Sleeping else AgeGate)
  }

  ghost predicate PassAgeGate(s: State, t: State) {
    && s.task.AgeGate?
    && t == s.(task := if s.now - s.dirtySince < FORCED_FLUSH then Sleeping else ClearLazy)
  }

  ghost predicate TakeMarks(s: State, t: State) {
    match s.task {
      case ClearLazy => t == s.(lazy := false, task := ClearDirty)
      case ClearDirty => t == s.(dirty := false, eagerSince := None, task := LockingCopy)
      case _ => false
    }
  }

  ghost predicate TaskLocks(s: State, t: State) {
    && s.task.LockingCopy?
    && s.owner == Free
    && t.task.Copying?
    && |t.task.copy| == SIZE
    && t == s.(owner := PersistTask, task := Copying(Indices(SIZE), t.task.copy))
  }

  ghost predicate CopyCellAt(s: State, t: State, i: nat) {
    && s.task.Copying?
    && i in s.task.todo
    && i < |s.buffer| == |s.task.copy|
    && t == s.(task := Copying(s.task.todo - {i}, s.task.copy[i := s.buffer[i]]))
  }

  ghost predicate CopyCell(s: State, t: State) {
    exists i: nat :: CopyCellAt(s, t, i)
  }

  ghost predicate TaskUnlocks(s: State, t: State) {
    && s.task.Copying?
    && s.task.todo == {}
    && t == s.(owner := Free, task := Copied(s.task.copy))
  }

  /** The flash write; its error is reported and dropped. */
  ghost predicate WriteFlash(s: State, t: State, ok: bool) {
    && s.task.Copied?
    && t == s.(flash := if ok then s.task.copy else s.flash, writeOk := ok, task := Sleeping)
  }

  ghost predicate Clock(s: State, t: State) {
    && s.now <= t.now
    && t == s.(now := t.now)
  }

  ghost predicate AvbStep(s: State, t: State) {
    Request(s, t) || AvbLocks(s, t) || GatherCell(s, t) || AvbUnlocks(s, t) || Mark(s, t)
  }

  ghost predicate TaskStep(s: State, t: State) {
    || Poll(s, t) || PassGate(s, t, true) || PassGate(s, t, false) || PassAgeGate(s, t)
    || TakeMarks(s, t) || TaskLocks(s, t) || CopyCell(s, t) || TaskUnlocks(s, t)
    || WriteFlash(s, t, true) || WriteFlash(s, t, false)
  }

  ghost predicate Next(s: State, t: State) {
    AvbStep(s, t) || TaskStep(s, t) || Clock(s, t)
  }

  ghost predicate IsRun(run: seq<State>) {
    && run != []
    && Init(run[0])
    && forall k :: 0 <= k < |run| - 1 ==> Next(run[k], run[k + 1])
  }

  // ---- Invariant ---------------------------------------------------------

  /** The AVB task has touched the buffer and has yet to set the mark. */
  ghost predicate MarkComing(s: State) {
    !s.avb.Resting? && !s.avb.Locking?
  }

  ghost predicate MutexInv(s: State) {
    && (s.owner == AvbTask <==> s.avb.Gathering?)
    && (s.owner == PersistTask <==> s.task.Copying?)
    && |s.buffer| == |s.latest| == SIZE
    && (s.avb.Locking? ==> |s.avb.value| == SIZE)
    && (s.avb.Gathering? ==>
          && |s.avb.value| == SIZE
          && forall i: nat :: i < SIZE && i !in s.avb.todo ==> s.buffer[i] == s.avb.value[i])
    && (!s.avb.Gathering? ==> s.buffer == s.latest)
  }

  ghost predicate FlashInv(s: State) {
    && s.dirtySince <= s.now
    && match s.task {
      case Sleeping => !s.dirty && !MarkComing(s) && s.writeOk ==> s.flash == s.latest
      case Gate | AgeGate | ClearLazy | ClearDirty => s.dirty
      case LockingCopy => true
      case Copying(todo, copy) =>
        && |copy| == |s.buffer| == SIZE
        && forall i: nat :: i < SIZE && i !in todo ==> copy[i] == s.buffer[i]
      case Copied(copy) => !s.dirty && !MarkComing(s) ==> copy == s.latest
    }
  }

  /** What the marks say while an eager request waits to be taken. */
  ghost predicate EagerInv(s: State) {
    && (s.eagerSince.Some? ==> s.dirty && !s.lazy && s.dirtySince <= s.eagerSince.value <= s.now)
    && (s.avb.EagerStamp? || s.avb.LazySetLazy? ==> s.eagerSince.None?)
    && (s.avb.EagerSetDirty? ==> !s.lazy)
  }

  ghost predicate Inv(s: State) {
    MutexInv(s) && FlashInv(s) && EagerInv(s)
  }

  lemma GatherCellKeepsMutex(s: State, t: State, i: nat, final: bool)
    requires MutexInv(s) && GatherCellAt(s, t, i, final)
    ensures MutexInv(t)
  {
    forall j: nat | j < SIZE && j !in t.avb.todo
      ensures t.buffer[j] == t.avb.value[j]
    {
      if j != i {
        assert j !in s.avb.todo;
      }
    }
  }

  lemma AvbStepKeepsMutex(s: State, t: State)
    requires MutexInv(s) && AvbStep(s, t)
    ensures MutexInv(t)
  {
    if AvbUnlocks(s, t) {
      assert s.buffer == s.avb.value;
    } else if GatherCell(s, t) {
      var i: nat, final: bool :| GatherCellAt(s, t, i, final);
      GatherCellKeepsMutex(s, t, i, final);
    }
  }

  /** While the gather moves cells the persist task is not copying them. */
  lemma GatherCellKeepsFlash(s: State, t: State, i: nat, final: bool)
    requires Inv(s) && GatherCellAt(s, t, i, final)
    ensures FlashInv(t) && EagerInv(t)
  {
    assert !s.task.Copying?;
  }

  lemma MarkKeepsFlash(s: State, t: State)
    requires Inv(s) && Mark(s, t)
    ensures FlashInv(t) && EagerInv(t)
  {
  }

  lemma AvbStepKeepsFlash(s: State, t: State)
    requires Inv(s) && AvbStep(s, t)
    ensures FlashInv(t) && EagerInv(t)
  {
    if GatherCell(s, t) {
      var i: nat, final: bool :| GatherCellAt(s, t, i, final);
      GatherCellKeepsFlash(s, t, i, final);
    } else if Mark(s, t) {
      MarkKeepsFlash(s, t);
    }
  }

  lemma TaskStepKeepsInv(s: State, t: State)
    requires Inv(s) && TaskStep(s, t)
    ensures Inv(t)
  {
    if TaskUnlocks(s, t) {
      assert s.task.copy == s.buffer;
    }
  }

  lemma NextKeepsInv(s: State, t: State)
    requires Inv(s) && Next(s, t)
    ensures Inv(t)
  {
    if AvbStep(s, t) {
      AvbStepKeepsMutex(s, t);
      AvbStepKeepsFlash(s, t);
    } else if TaskStep(s, t) {
      TaskStepKeepsInv(s, t);
    }
  }

  lemma {:induction false} RunKeepsInv(run: seq<State>, k: nat)
    requires IsRun(run) && k < |run|
    ensures Inv(run[k])
    decreases k
  {
    if k > 0 {
      RunKeepsInv(run, k - 1);
      NextKeepsInv(run[k - 1], run[k]);
    }
  }

  /** Both tasks are between operations and nothing is marked. */
  ghost predicate Settled(s: State) {
    !s.dirty && s.avb.Resting? && s.task.Sleeping?
  }

  /**
   No lost update: in every interleaving, a settled state whose last flash
   write succeeded has the latest gathered snapshot in flash.
   */
  lemma SettledMeansSaved(run: seq<State>, k: nat)
    requires IsRun(run) && k < |run|
    requires Settled(run[k]) && run[k].writeOk
    ensures run[k].flash == run[k].latest
  {
    RunKeepsInv(run, k);
  }

  /**
   The flash write is where an update can be lost: the mark is gone before the
   write, so a write that fails leaves the old contents behind and nothing
   asks for another.  It goes unnoticed exactly when the write would have
   changed nothing.
   */
  lemma WriteDecidesWhetherSaved(run: seq<State>, k: nat, ok: bool)
    requires IsRun(run) && 0 < k < |run|
    requires WriteFlash(run[k - 1], run[k], ok) && Settled(run[k])
    ensures run[k].flash == run[k].latest <==> ok || run[k - 1].flash == run[k].latest
  {
    hide IsRun, Inv, FlashInv, WriteFlash, Settled;
    RunKeepsInv(run, k - 1);
    WriteDecides(run[k - 1], run[k], ok);
  }

  lemma WriteDecides(s: State, t: State, ok: bool)
    requires Inv(s) && WriteFlash(s, t, ok) && Settled(t)
    ensures t.flash == t.latest <==> ok || s.flash == t.latest
  {
    assert s.task.copy == s.latest;
  }

  /**
   An eager request the persist task has not taken reads eager: it is marked
   dirty, never lazy, and its age is counted from no later than the request.
   */
  lemma UntakenEagerStaysEager(run: seq<State>, k: nat)
    requires IsRun(run) && k < |run|
    requires run[k].eagerSince.Some?
    ensures run[k].dirty && !run[k].lazy
    ensures run[k].dirtySince <= run[k].eagerSince.value
  {
    RunKeepsInv(run, k);
  }

  /** Streaming cannot hold back an eager request past the forced-flush age. */
  lemma OverdueEagerPassesTheGates(run: seq<State>, k: nat, streaming: bool)
    requires IsRun(run) && 0 < k < |run|
    requires PassGate(run[k - 1], run[k], streaming) || PassAgeGate(run[k - 1], run[k])
    requires run[k - 1].eagerSince.Some?
    requires run[k - 1].now - run[k - 1].eagerSince.value >= FORCED_FLUSH
    ensures !run[k].task.Sleeping?
    ensures PassAgeGate(run[k - 1], run[k]) ==> run[k].task.ClearLazy?
  {
    hide IsRun, Inv;
    UntakenEagerStaysEager(run, k - 1);
  }

  /** At step j the persist task met the gate while audio streamed, with an eager mark, and has weighed its age since. */
  ghost predicate MetTheGate(run: seq<State>, j: nat, k: nat) {
    && j < k < |run|
    && PassGate(run[j], run[j + 1], true) && !run[j].lazy
    && forall l :: j < l <= k ==> run[l].task.AgeGate?
  }

  ghost predicate MetTheGateBefore(run: seq<State>, k: nat) {
    exists j: nat :: MetTheGate(run, j, k)
  }

  /** How the persist task comes to weigh a mark's age, and to take a mark. */
  lemma StepToTheGates(s: State, t: State)
    requires TaskStep(s, t)
    ensures t.task.AgeGate? ==> PassGate(s, t, true) && !s.lazy
    ensures t.task.ClearLazy? ==> PassGate(s, t, false) || (s.task.AgeGate? && s.now - s.dirtySince >= FORCED_FLUSH)
  {
  }

  lemma StepOf(run: seq<State>, k: nat)
    requires IsRun(run) && 0 < k < |run|
    ensures TaskStep(run[k - 1], run[k]) || run[k].task == run[k - 1].task
  {
    assert Next(run[k - 1], run[k]);
    hide TaskStep;
  }

  lemma StartsAsleep(run: seq<State>)
    requires IsRun(run)
    ensures run != [] && run[0].task.Sleeping?
  {
  }

  lemma {:induction false} AgeGateComesFromTheGate(run: seq<State>, k: nat)
    requires IsRun(run) && k < |run| && run[k].task.AgeGate?
    ensures MetTheGateBefore(run, k)
    decreases k
  {
    hide IsRun, TaskStep, PassGate;
    StartsAsleep(run);
    StepOf(run, k);
    if run[k - 1].task.AgeGate? {
      AgeGateComesFromTheGate(run, k - 1);
      var j: nat :| MetTheGate(run, j, k - 1);
      assert MetTheGate(run, j, k);
    } else {
      StepToTheGates(run[k - 1], run[k]);
      assert MetTheGate(run, k - 1, k);
    }
  }

  /**
   A write begins only while no audio streams, or for a mark that was eager at
   the gate and is as old as the forced flush: a lazy or a young mark waits for
   the audio to end.
   */
  lemma WritesWaitForQuiet(run: seq<State>, k: nat)
    requires IsRun(run) && 0 < k < |run|
    requires run[k].task.ClearLazy? && !run[k - 1].task.ClearLazy?
    ensures PassGate(run[k - 1], run[k], false)
      || (run[k - 1].now - run[k - 1].dirtySince >= FORCED_FLUSH && MetTheGateBefore(run, k - 1))
  {
    hide IsRun, TaskStep, PassGate, MetTheGateBefore;
    StepOf(run, k);
    StepToTheGates(run[k - 1], run[k]);
    if run[k - 1].task.AgeGate? {
      AgeGateComesFromTheGate(run, k - 1);
    }
  }
}
