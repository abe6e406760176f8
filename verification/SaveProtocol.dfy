/** Threads that save blocks, change the main file and read a snapshot, all at the same time, between the making of
    one snapshot and the next. A step is one access to shared state: the map, the dat file, the main file, or the
    lock of the path. The latest snapshot was made of the version `was`, which was not empty. */
module SaveProtocol {
  import opened Base
  import opened Blocks
  import opened Store
  import opened Saving
  import Openers

  datatype Job = WriteJob(offset: nat, data: File) | TruncateJob(newsize: nat)

  /** A job with the blocks it has to save, from `first` up to but not including `end`. */
  datatype Task = Task(job: Job, first: nat, end: nat)

  /** Where a thread is. Saving block `b` goes Check, Locking, Recheck, Copy, Seek, Append, Publish; Recheck and
      CheckLocked to Publish and all reading steps after Waiting hold the lock. */
  datatype Pc =
    | Idle
    | Check(task: Task, b: nat)
    | Locking(task: Task, b: nat)
    | Recheck(task: Task, b: nat)
    | CheckLocked(task: Task, b: nat)
    | Copy(task: Task, b: nat, buf: File, done: nat)
    | Seek(task: Task, b: nat, buf: File)
    | Append(task: Task, b: nat, buf: File, at: nat)
    | Publish(task: Task, b: nat, at: nat)
    | Unlock(task: Task, ok: bool)
    | Modify(task: Task, next: nat)
    | Waiting(lo: nat, hi: nat)
    | ReadMap(lo: nat, hi: nat)
    | ReadDat(lo: nat, hi: nat, at: nat, got: File)
    | ReadMain(lo: nat, hi: nat, got: File)
    | Release(lo: nat, hi: nat, got: File)

  /** A thread with the handle it works for. */
  datatype Thread = Thread(pc: Pc, handle: nat)

  /** The written-block caches belong to handles, which threads may share. */
  datatype State = State(ov: Overlay, main: File, lock: Option<nat>, caches: seq<nat>, threads: seq<Thread>)

  predicate HoldsLock(pc: Pc) {
    pc.Recheck? || pc.CheckLocked? || pc.Copy? || pc.Seek? || pc.Append? || pc.Publish? || pc.Unlock? ||
    pc.ReadMap? || pc.ReadDat? || pc.ReadMain? || pc.Release?
  }

  /** The bytes a job must have saved before it changes the main file, clipped to the recorded size. */
  function SaveRange(job: Job, size: nat): (nat, nat) {
    match job
    case WriteJob(offset, data) => (offset, Min(offset + |data|, size))
    case TruncateJob(newsize) => (newsize, size)
  }

  /** The blocks of that range. */
  function NewTask(job: Job, size: nat): (task: Task)
    ensures task.job == job
  {
    var (lo, hi) := SaveRange(job, size);
    if lo < hi then var (first, count) := CalcBlocks(lo, hi - lo); Task(job, first, first + count) else Task(job, 0, 0)
  }

  // ---------------------------------------------------------------- steps

  function Goto(s: State, t: nat, pc: Pc): State
    requires t < |s.threads|
  {
    s.(threads := s.threads[t := s.threads[t].(pc := pc)])
  }

  function Cached(s: State, t: nat, b: nat): State
    requires t < |s.threads| && s.threads[t].handle < |s.caches|
  {
    s.(caches := s.caches[s.threads[t].handle := b + 1])
  }

  /** On to the next block, or out of the block loop. */
  function AfterBlock(task: Task, b: nat, locked: bool): Pc {
    if b + 1 < task.end then (if locked then CheckLocked(task, b + 1) else Check(task, b + 1))
    else if locked then Unlock(task, true)
    else Modify(task, 0)
  }

  /** A job begins, through any handle. */
  function Started(s: State, t: nat, job: Job, handle: nat): State
    requires t < |s.threads|
  {
    var task := NewTask(job, s.ov.size);
    var pc := if task.first < task.end then Check(task, task.first) else Modify(task, 0);
    s.(threads := s.threads[t := Thread(pc, handle)])
  }

  ghost predicate StartStep(s: State, s': State, t: nat)
    requires t < |s.threads|
  {
    || (exists job, handle: nat :: s' == Started(s, t, job, handle))
    || (exists lo: nat, hi: nat ::
          && lo < hi <= s.ov.size && BlockOf(lo) == BlockOf(hi - 1)
          && s' == Goto(s, t, Waiting(lo, hi)))
  }

  /** The state after the pointer has been published. */
  function Published(s: State, t: nat, task: Task, b: nat, at: nat): State
    requires t < |s.threads| && s.threads[t].handle < |s.caches|
  {
    Goto(Cached(s, t, b), t, AfterBlock(task, b, true)).(ov := s.ov.(ptrs := s.ov.ptrs[b := at / BL_S + 1]))
  }

  /** Steps of the block loop. Any of them may fail. */
  ghost predicate SaveStep(s: State, s': State, t: nat)
    requires t < |s.threads|
  {
    s.threads[t].handle < |s.caches| &&
    var cache := s.caches[s.threads[t].handle];
    match s.threads[t].pc
    case Check(task, b) =>
      || s' == Goto(s, t, Idle)
      || (if cache == b + 1 then s' == Goto(s, t, AfterBlock(task, b, false))
          else if Saved(s.ov, b) then s' == Goto(Cached(s, t, b), t, AfterBlock(task, b, false))
          else s' == Goto(s, t, Locking(task, b)))
    case Locking(task, b) =>
      || s' == Goto(s, t, Idle)
      || (s.lock.None? && s' == Goto(s, t, Recheck(task, b)).(lock := Some(t)))
    case Recheck(task, b) =>
      || s' == Goto(s, t, Unlock(task, false))
      || (if Saved(s.ov, b) then s' == Goto(s, t, AfterBlock(task, b, true))
          else exists buf :: |buf| == BL_S && s' == Goto(s, t, Copy(task, b, buf, 0)))
    case CheckLocked(task, b) =>
      || s' == Goto(s, t, Unlock(task, false))
      || (if cache == b + 1 then s' == Goto(s, t, AfterBlock(task, b, true))
          else if Saved(s.ov, b) then s' == Goto(Cached(s, t, b), t, AfterBlock(task, b, true))
          else exists buf :: |buf| == BL_S && s' == Goto(s, t, Copy(task, b, buf, 0)))
    case Copy(task, b, buf, done) =>
      || s' == Goto(s, t, Unlock(task, false))
      || (if done < BL_S && b * BL_S + done < |s.main|
          then |buf| == BL_S && s' == Goto(s, t, Copy(task, b, buf[done := s.main[b * BL_S + done]], done + 1))
          else s' == Goto(s, t, if done == 0 then Unlock(task, false) else Seek(task, b, buf)))
    case Seek(task, b, buf) =>
      || s' == Goto(s, t, Unlock(task, false))
      || (s.ov.dat.Some? &&
          var at := |s.ov.dat.value|;
          s' == Goto(s, t, if at % BL_S != 0 then Unlock(task, false) else Append(task, b, buf, at)))
    case Append(task, b, buf, at) =>
      s.ov.dat.Some? &&
      exists n: nat :: n <= |buf| &&
        s' == Goto(s, t, if n < |buf| then Unlock(task, false) else Publish(task, b, at))
              .(ov := s.ov.(dat := Some(s.ov.dat.value + buf[..n])))
    case Publish(task, b, at) =>
      || s' == Goto(s, t, Unlock(task, false))
      || s' == Published(s, t, task, b, at)
    case Unlock(task, ok) =>
      s' == Goto(s, t, if ok then Modify(task, 0) else Idle).(lock := None)
    case _ => false
  }

  /** The main file changes byte by byte, and the change may stop early. */
  ghost predicate ModifyStep(s: State, s': State, t: nat)
    requires t < |s.threads| && s.threads[t].pc.Modify?
  {
    var Modify(task, next) := s.threads[t].pc;
    || s' == Goto(s, t, Idle)
    || match task.job
       case WriteJob(offset, data) =>
         next < |data| && s' == Goto(s, t, Modify(task, next + 1)).(main := PWrite(s.main, offset + next, [data[next]]))
       case TruncateJob(newsize) =>
         s' == Goto(s, t, Idle).(main := Truncated(s.main, newsize))
  }

  /** Where the dat file has the byte of a saved block. */
  function DatOffset(ov: Overlay, lo: nat): nat
    requires Saved(ov, BlockOf(lo))
  {
    (Pointer(ov, BlockOf(lo)) - 1) * BL_S + lo % BL_S
  }

  /** Reading [lo, hi) of one block of the latest snapshot under the lock, byte by byte. */
  ghost predicate ReadStep(s: State, s': State, t: nat)
    requires t < |s.threads|
  {
    match s.threads[t].pc
    case Waiting(lo, hi) =>
      s.lock.None? && s' == Goto(s, t, ReadMap(lo, hi)).(lock := Some(t))
    case ReadMap(lo, hi) =>
      s' == Goto(s, t, if Saved(s.ov, BlockOf(lo)) then ReadDat(lo, hi, DatOffset(s.ov, lo), [])
                       else ReadMain(lo, hi, []))
    case ReadDat(lo, hi, at, got) =>
      s.ov.dat.Some? &&
      if lo + |got| < hi && at + |got| < |s.ov.dat.value|
      then s' == Goto(s, t, ReadDat(lo, hi, at, got + [s.ov.dat.value[at + |got|]]))
      else s' == Goto(s, t, Release(lo, hi, got))
    case ReadMain(lo, hi, got) =>
      if lo + |got| < hi && lo + |got| < |s.main| then s' == Goto(s, t, ReadMain(lo, hi, got + [s.main[lo + |got|]]))
      else s' == Goto(s, t, Release(lo, hi, got))
    case Release(lo, hi, got) =>
      s' == Goto(s, t, Idle).(lock := None)
    case _ => false
  }

  ghost predicate Next(s: State, s': State, t: nat) {
    && t < |s.threads|
    && match s.threads[t].pc
       case Idle => StartStep(s, s', t)
       case Modify(_, _) => ModifyStep(s, s', t)
       case _ => SaveStep(s, s', t) || ReadStep(s, s', t)
  }

  // ---------------------------------------------------------------- the invariant

  /** Blocks of the task before `b` are saved, and `b` is one of its blocks. */
  ghost predicate SavedUpTo(ov: Overlay, task: Task, b: nat) {
    task.first <= b < task.end && forall c | task.first <= c < b :: Saved(ov, c)
  }

  ghost predicate TaskSaved(ov: Overlay, task: Task) {
    forall c | task.first <= c < task.end :: Saved(ov, c)
  }

  /** The first `done` bytes of the buffer hold those of block `b` of the version. */
  ghost predicate Holds(buf: File, b: nat, done: nat, was: File) {
    && |buf| == BL_S
    && forall p: nat | p < |was| && BlockOf(p) == b && p % BL_S < done :: buf[p % BL_S] == was[p]
  }

  predicate HasTask(pc: Pc) {
    pc.Check? || pc.Locking? || pc.Recheck? || pc.CheckLocked? || pc.Copy? || pc.Seek? || pc.Append? || pc.Publish? ||
    pc.Unlock? || pc.Modify?
  }

  /** Blocks in the caches are saved. */
  ghost predicate CachesOk(ov: Overlay, caches: seq<nat>) {
    forall h | 0 <= h < |caches| && caches[h] > 0 :: Saved(ov, caches[h] - 1)
  }

  ghost predicate ThreadOk(ov: Overlay, was: File, pc: Pc) {
    && (HasTask(pc) ==> pc.task == NewTask(pc.task.job, ov.size))
    && match pc
       case Idle => true
       case Check(task, b) => SavedUpTo(ov, task, b)
       case Locking(task, b) => SavedUpTo(ov, task, b)
       case Recheck(task, b) => SavedUpTo(ov, task, b)
       case CheckLocked(task, b) => SavedUpTo(ov, task, b)
       case Copy(task, b, buf, done) =>
         && SavedUpTo(ov, task, b) && !Saved(ov, b) && done <= BL_S
         && Holds(buf, b, done, was)
       case Seek(task, b, buf) => SavedUpTo(ov, task, b) && !Saved(ov, b) && Holds(buf, b, BL_S, was)
       case Append(task, b, buf, at) =>
         && SavedUpTo(ov, task, b) && !Saved(ov, b) && Holds(buf, b, BL_S, was)
         && ov.dat.Some? && at == |ov.dat.value| && at % BL_S == 0
       case Publish(task, b, at) =>
         && SavedUpTo(ov, task, b) && !Saved(ov, b)
         && ov.dat.Some? && at % BL_S == 0 && at + BL_S == |ov.dat.value| && Holds(ov.dat.value[at..], b, BL_S, was)
         && forall c | Saved(ov, c) :: Pointer(ov, c) <= at / BL_S
       case Unlock(task, ok) => ok ==> TaskSaved(ov, task)
       case Modify(task, _) => TaskSaved(ov, task)
       case Waiting(lo, hi) => lo < hi <= |was| && BlockOf(lo) == BlockOf(hi - 1)
       case ReadMap(lo, hi) => lo < hi <= |was| && BlockOf(lo) == BlockOf(hi - 1)
       case ReadDat(lo, hi, at, got) =>
         && lo < hi <= |was| && BlockOf(lo) == BlockOf(hi - 1)
         && Saved(ov, BlockOf(lo)) && at == DatOffset(ov, lo) && lo + |got| <= hi && got == was[lo..lo + |got|]
       case ReadMain(lo, hi, got) =>
         && lo < hi <= |was| && BlockOf(lo) == BlockOf(hi - 1)
         && !Saved(ov, BlockOf(lo)) && lo + |got| <= hi && got == was[lo..lo + |got|]
       case Release(lo, hi, got) => lo <= hi <= |was| && got == was[lo..hi]
  }

  /** The snapshot can be read from the overlay and the main file. */
  ghost predicate SharedOk(ov: Overlay, main: File, was: File) {
    WellFormed(ov) && ov.dat.Some? && LayerOk(Some(ov), Some(was), Some(main))
  }

  ghost predicate Inv(s: State, was: File) {
    && SharedOk(s.ov, s.main, was) && CachesOk(s.ov, s.caches)
    && forall t | 0 <= t < |s.threads| ::
         && ThreadOk(s.ov, was, s.threads[t].pc)
         && (HoldsLock(s.threads[t].pc) <==> s.lock == Some(t))
  }

  // ---------------------------------------------------------------- the invariant is kept

  /** The part of the invariant that is about thread `t`. */
  ghost predicate Ready(s: State, was: File, t: nat) {
    && t < |s.threads| && ThreadOk(s.ov, was, s.threads[t].pc) && CachesOk(s.ov, s.caches)
    && (HoldsLock(s.threads[t].pc) <==> s.lock == Some(t))
  }

  /** A step of thread `t` alone that keeps its own part of the invariant and uses the lock as a lock. */
  ghost predicate OwnStep(s: State, s': State, was: File, t: nat) {
    && t < |s.threads| == |s'.threads| && s'.threads == s.threads[t := s'.threads[t]]
    && ThreadOk(s'.ov, was, s'.threads[t].pc) && CachesOk(s'.ov, s'.caches)
    && (if HoldsLock(s'.threads[t].pc) then s'.lock == Some(t) && (s.lock.None? || s.lock == Some(t))
        else s'.lock == if s.lock == Some(t) then None else s.lock)
  }

  /** It also keeps the snapshot, and touches the overlay only under the lock. */
  ghost predicate GoodStep(s: State, s': State, was: File, t: nat) {
    && OwnStep(s, s', was, t) && SharedOk(s'.ov, s'.main, was)
    && (s'.ov == s.ov || (s.lock == Some(t) && Extends(s.ov, s'.ov)))
  }

  /** What a thread relies on stays true while others only extend the overlay, and leave it alone under its lock. */
  lemma ThreadStable(ov: Overlay, ov': Overlay, was: File, pc: Pc)
    requires ThreadOk(ov, was, pc) && Extends(ov, ov') && (HoldsLock(pc) ==> ov' == ov)
    ensures ThreadOk(ov', was, pc)
  {
    assert forall c | Saved(ov, c) :: Saved(ov', c);
  }

  lemma GoodStepKeepsInv(s: State, s': State, was: File, t: nat)
    requires Inv(s, was) && GoodStep(s, s', was, t)
    ensures Inv(s', was)
  {
    forall u | 0 <= u < |s'.threads| && u != t
      ensures ThreadOk(s'.ov, was, s'.threads[u].pc) && (HoldsLock(s'.threads[u].pc) <==> s'.lock == Some(u))
    {
      assert s'.threads[u] == s.threads[u] && ThreadOk(s.ov, was, s.threads[u].pc);
      if s'.ov != s.ov {
        ThreadStable(s.ov, s'.ov, was, s.threads[u].pc);
      }
    }
  }

  /** Every block a task has to look at holds a byte below the recorded size. */
  lemma TaskBlockMeetsSize(job: Job, size: nat, b: nat)
    requires NewTask(job, size).first <= b < NewTask(job, size).end
    ensures b * BL_S < size
  {
    var (lo, hi) := SaveRange(job, size);
    CalcBlocksExact(lo, hi - lo, b);
  }

  /** Once its blocks are saved, every byte of the job's range below the recorded size is. */
  lemma TaskSavedRange(ov: Overlay, job: Job)
    requires TaskSaved(ov, NewTask(job, ov.size))
    ensures var (lo, hi) := SaveRange(job, ov.size); RangeSaved(ov, lo, hi)
  {
    var (lo, hi) := SaveRange(job, ov.size);
    if lo < hi {
      RangeOfBlocks(ov, lo, hi - lo, hi - lo);
    }
  }

  lemma AfterBlockOk(ov: Overlay, was: File, task: Task, b: nat, locked: bool)
    requires SavedUpTo(ov, task, b) && Saved(ov, b) && task == NewTask(task.job, ov.size)
    ensures ThreadOk(ov, was, AfterBlock(task, b, locked))
  {
  }

  /** Looking at a block without the lock. */
  lemma CheckStep(s: State, s': State, was: File, t: nat)
    requires Ready(s, was, t) && SaveStep(s, s', t) && s.threads[t].pc.Check?
    ensures OwnStep(s, s', was, t) && s'.ov == s.ov && s'.main == s.main
  {
    var Check(task, b) := s.threads[t].pc;
    if Saved(s.ov, b) {
      AfterBlockOk(s.ov, was, task, b, false);
    }
  }

  /** Looking at a block under the lock, again or for the first time. */
  lemma RecheckStep(s: State, s': State, was: File, t: nat)
    requires Ready(s, was, t) && SaveStep(s, s', t) && (s.threads[t].pc.Recheck? || s.threads[t].pc.CheckLocked?)
    ensures OwnStep(s, s', was, t) && s'.ov == s.ov && s'.main == s.main
  {
    var task, b := s.threads[t].pc.task, s.threads[t].pc.b;
    if Saved(s.ov, b) {
      AfterBlockOk(s.ov, was, task, b, true);
    }
  }

  /** One byte copied under the lock from an unsaved block is a byte of the version, and at the end of the main file
      nothing of the version is missing. */
  lemma CopyStep(s: State, s': State, was: File, t: nat)
    requires SharedOk(s.ov, s.main, was) && Ready(s, was, t) && s.threads[t].pc.Copy? && SaveStep(s, s', t)
    ensures GoodStep(s, s', was, t)
  {
    var Copy(task, b, buf, done) := s.threads[t].pc;
    forall p: nat | p < |was| && BlockOf(p) == b ensures ByteOf(Some(s.main), p) == Some(was[p]) {
    }
    TaskBlockMeetsSize(task.job, s.ov.size, b);
  }

  /** Bytes appended without a pointer change nothing that threads rely on. */
  lemma Appended(ov: Overlay, was: File, main: File, more: File, caches: seq<nat>, task: Task, b: nat)
    requires SharedOk(ov, main, was) && CachesOk(ov, caches) && SavedUpTo(ov, task, b)
    ensures var ov' := ov.(dat := Some(ov.dat.value + more));
            && SharedOk(ov', main, was) && Extends(ov, ov') && CachesOk(ov', caches) && SavedUpTo(ov', task, b)
            && forall c :: Pointer(ov', c) == Pointer(ov, c)
  {
    var ov' := ov.(dat := Some(ov.dat.value + more));
    assert forall c :: Pointer(ov', c) == Pointer(ov, c);
    assert forall c | Saved(ov, c) :: Saved(ov', c);
    TornAppend(ov, ov, main, 0, 0, more);
    SaveKeepsLayer(ov, ov', Some(was), main, 0, 0);
  }

  lemma AppendStep(s: State, s': State, was: File, t: nat)
    requires SharedOk(s.ov, s.main, was) && Ready(s, was, t) && s.threads[t].pc.Append? && SaveStep(s, s', t)
    ensures GoodStep(s, s', was, t)
  {
    var Append(task, b, buf, at) := s.threads[t].pc;
    var n: nat :| n <= |buf| && s'.ov == s.ov.(dat := Some(s.ov.dat.value + buf[..n])) &&
      s' == Goto(s, t, if n < |buf| then Unlock(task, false) else Publish(task, b, at)).(ov := s'.ov);
    Appended(s.ov, was, s.main, buf[..n], s.caches, task, b);
    assert s'.ov.dat.value[at..] == buf[..n];
    if n == |buf| {
      assert ThreadOk(s'.ov, was, Publish(task, b, at));
    }
  }

  /** A published pointer leads to the bytes of the version. */
  lemma PublishKeepsLayer(ov: Overlay, was: File, main: File, b: nat, at: nat)
    requires SharedOk(ov, main, was) && !Saved(ov, b)
    requires at % BL_S == 0 && at + BL_S == |ov.dat.value| && Holds(ov.dat.value[at..], b, BL_S, was)
    requires forall c | Saved(ov, c) :: Pointer(ov, c) <= at / BL_S
    ensures var ov' := ov.(ptrs := ov.ptrs[b := at / BL_S + 1]);
            Extends(ov, ov') && Saved(ov', b) && SharedOk(ov', main, was)
  {
    var ov' := ov.(ptrs := ov.ptrs[b := at / BL_S + 1]);
    assert forall c :: Pointer(ov', c) == if c == b then at / BL_S + 1 else Pointer(ov, c);
    assert WellFormed(ov') && Extends(ov, ov');
    forall p: nat | p < |was| && Saved(ov', BlockOf(p)) ensures DatByte(ov', p) == Some(was[p]) {
      if BlockOf(p) == b {
        assert ov.dat.value[at..][p % BL_S] == was[p];
      } else {
        ExtendsKeepsByte(ov, ov', p);
      }
    }
  }

  lemma PublishedSaved(ov: Overlay, ov': Overlay, caches: seq<nat>, handle: nat, task: Task, b: nat)
    requires Extends(ov, ov') && Saved(ov', b) && CachesOk(ov, caches) && handle < |caches| && SavedUpTo(ov, task, b)
    ensures CachesOk(ov', caches[handle := b + 1]) && SavedUpTo(ov', task, b)
  {
    assert forall c | Saved(ov, c) :: Saved(ov', c);
  }

  lemma PublishedGood(s: State, was: File, t: nat)
    requires SharedOk(s.ov, s.main, was) && Ready(s, was, t) && s.threads[t].pc.Publish?
    requires s.threads[t].handle < |s.caches|
    ensures var Publish(task, b, at) := s.threads[t].pc; GoodStep(s, Published(s, t, task, b, at), was, t)
  {
    var Publish(task, b, at) := s.threads[t].pc;
    var s' := Published(s, t, task, b, at);
    PublishKeepsLayer(s.ov, was, s.main, b, at);
    PublishedSaved(s.ov, s'.ov, s.caches, s.threads[t].handle, task, b);
    AfterBlockOk(s'.ov, was, task, b, true);
    assert HoldsLock(AfterBlock(task, b, true));
  }

  lemma PublishStep(s: State, s': State, was: File, t: nat)
    requires SharedOk(s.ov, s.main, was) && Ready(s, was, t) && s.threads[t].pc.Publish? && SaveStep(s, s', t)
    ensures GoodStep(s, s', was, t)
  {
    if s' != Goto(s, t, Unlock(s.threads[t].pc.task, false)) {
      PublishedGood(s, was, t);
    }
  }

  lemma LockStep(s: State, s': State, was: File, t: nat)
    requires Ready(s, was, t) && SaveStep(s, s', t)
    requires s.threads[t].pc.Locking? || s.threads[t].pc.Seek? || s.threads[t].pc.Unlock?
    requires s.ov.dat.Some?
    ensures OwnStep(s, s', was, t) && s'.ov == s.ov && s'.main == s.main
  {
  }

  lemma SaveStepGood(s: State, s': State, was: File, t: nat)
    requires SharedOk(s.ov, s.main, was) && Ready(s, was, t) && SaveStep(s, s', t)
    ensures GoodStep(s, s', was, t)
  {
    var pc := s.threads[t].pc;
    if pc.Copy? {
      CopyStep(s, s', was, t);
    } else if pc.Append? {
      AppendStep(s, s', was, t);
    } else if pc.Publish? {
      PublishStep(s, s', was, t);
    } else if pc.Check? {
      CheckStep(s, s', was, t);
    } else if pc.Recheck? || pc.CheckLocked? {
      RecheckStep(s, s', was, t);
    } else {
      LockStep(s, s', was, t);
    }
  }

  /** Changing a byte the version needs is harmless, for its block is saved. */
  lemma ModifyStepGood(s: State, s': State, was: File, t: nat)
    requires SharedOk(s.ov, s.main, was) && Ready(s, was, t) && s.threads[t].pc.Modify? && ModifyStep(s, s', t)
    ensures GoodStep(s, s', was, t)
  {
    var Modify(task, next) := s.threads[t].pc;
    var job := task.job;
    TaskSavedRange(s.ov, job);
    forall p: nat | p < s.ov.size && !Saved(s.ov, BlockOf(p)) && p < |s.main|
      ensures ByteOf(Some(s'.main), p) == ByteOf(Some(s.main), p)
    {
      if job.TruncateJob? && s'.main == Truncated(s.main, job.newsize) {
        TruncatedFrame(s.main, job.newsize, p);
      } else if job.WriteJob? && next < |job.data| {
        PWriteFrame(s.main, job.offset + next, [job.data[next]], p);
      }
    }
    ChangeKeepsLayer(s.ov, Some(was), Some(s.main), Some(s'.main));
  }

  /** The next byte a reader takes from the dat file, or from the main file, is a byte of the version. */
  lemma NextByte(ov: Overlay, main: File, was: File, lo: nat, hi: nat, n: nat)
    requires SharedOk(ov, main, was) && lo + n < hi <= |was| && BlockOf(lo) == BlockOf(hi - 1)
    ensures Saved(ov, BlockOf(lo)) ==>
              DatOffset(ov, lo) + n < |ov.dat.value| && ov.dat.value[DatOffset(ov, lo) + n] == was[lo + n]
    ensures !Saved(ov, BlockOf(lo)) ==> lo + n < |main| && main[lo + n] == was[lo + n]
    ensures was[lo..lo + n + 1] == was[lo..lo + n] + [was[lo + n]]
  {
    assert BlockOf(lo + n) == BlockOf(lo) && (lo + n) % BL_S == lo % BL_S + n;
    if Saved(ov, BlockOf(lo)) {
      assert DatByte(ov, lo + n) == Some(was[lo + n]);
    } else {
      assert ByteOf(Some(main), lo + n) == Some(was[lo + n]);
    }
  }

  lemma ReadDatStep(s: State, s': State, was: File, t: nat)
    requires SharedOk(s.ov, s.main, was) && Ready(s, was, t) && ReadStep(s, s', t) && s.threads[t].pc.ReadDat?
    ensures OwnStep(s, s', was, t) && s'.ov == s.ov && s'.main == s.main
  {
    var ReadDat(lo, hi, at, got) := s.threads[t].pc;
    if lo + |got| < hi {
      NextByte(s.ov, s.main, was, lo, hi, |got|);
    }
    ReadByteStep(s, s', was, t, s.ov.dat.value, at);
  }

  lemma ReadMainStep(s: State, s': State, was: File, t: nat)
    requires SharedOk(s.ov, s.main, was) && Ready(s, was, t) && ReadStep(s, s', t) && s.threads[t].pc.ReadMain?
    ensures OwnStep(s, s', was, t) && s'.ov == s.ov && s'.main == s.main
  {
    var ReadMain(lo, hi, got) := s.threads[t].pc;
    if lo + |got| < hi {
      NextByte(s.ov, s.main, was, lo, hi, |got|);
    }
    ReadByteStep(s, s', was, t, s.main, lo);
  }

  /** Reading on from a file that has the next byte of the version in the right place. */
  lemma ReadByteStep(s: State, s': State, was: File, t: nat, file: File, at: nat)
    requires Ready(s, was, t) && ReadStep(s, s', t)
    requires var pc := s.threads[t].pc;
             || (pc.ReadDat? && s.ov.dat == Some(file) && at == pc.at)
             || (pc.ReadMain? && s.main == file && at == pc.lo)
    requires var pc := s.threads[t].pc; var n := |pc.got|;
             pc.lo + n < pc.hi ==>
               && at + n < |file| && file[at + n] == was[pc.lo + n]
               && was[pc.lo..pc.lo + n + 1] == was[pc.lo..pc.lo + n] + [was[pc.lo + n]]
    ensures OwnStep(s, s', was, t) && s'.ov == s.ov && s'.main == s.main
  {
  }

  lemma ReadLockStep(s: State, s': State, was: File, t: nat)
    requires Ready(s, was, t) && ReadStep(s, s', t) && !s.threads[t].pc.ReadDat? && !s.threads[t].pc.ReadMain?
    ensures OwnStep(s, s', was, t) && s'.ov == s.ov && s'.main == s.main
  {
  }

  lemma StartStepGood(s: State, s': State, was: File, t: nat)
    requires s.ov.size == |was| && Ready(s, was, t) && s.threads[t].pc.Idle? && StartStep(s, s', t)
    ensures OwnStep(s, s', was, t) && s'.ov == s.ov && s'.main == s.main
  {
  }

  lemma NextGood(s: State, s': State, was: File, t: nat)
    requires Inv(s, was) && Next(s, s', t)
    ensures GoodStep(s, s', was, t)
  {
    var pc := s.threads[t].pc;
    assert Ready(s, was, t);
    if pc.Idle? {
      StartStepGood(s, s', was, t);
    } else if pc.Modify? {
      ModifyStepGood(s, s', was, t);
    } else if SaveStep(s, s', t) {
      SaveStepGood(s, s', was, t);
    } else if pc.ReadDat? {
      ReadDatStep(s, s', was, t);
    } else if pc.ReadMain? {
      ReadMainStep(s, s', was, t);
    } else {
      ReadLockStep(s, s', was, t);
    }
  }

  // ---------------------------------------------------------------- whole runs

  ghost predicate Init(s: State, was: File) {
    && SharedOk(s.ov, s.main, was) && s.lock.None?
    && (forall h | 0 <= h < |s.caches| :: s.caches[h] == 0)
    && forall t | 0 <= t < |s.threads| :: s.threads[t].pc == Idle
  }

  /** How saving begins: when the first of any number of racing openers has finished, the overlay is new, the main
      file is still the version, and threads can start from there. */
  lemma FirstOpenerStarts(run: seq<Openers.State>, was: File, n: nat, t: nat, caches: seq<nat>, threads: seq<Thread>)
    requires was != [] && Openers.IsRun(run, Some(was)) && n < |run|
    requires forall i, u | 0 <= i < n && 0 <= u < |run[i].threads| :: !run[i].threads[u].Opened?
    requires t < |run[n].threads| && run[n].threads[t].Opened?
    requires forall h | 0 <= h < |caches| :: caches[h] == 0
    requires forall u | 0 <= u < |threads| :: threads[u].pc == Idle
    ensures var header := run[n].threads[t].header;
            && run[n].main == Some(was) && run[n].mapFile == Openers.Written(header) && run[n].dat
            && Init(State(Overlay(header.existed, header.size, map[], Some([])), was, None, caches, threads), was)
  {
    Openers.HeaderTruth(run, Some(was), n, t);
    Openers.UntouchedTillOpened(run, Some(was), n);
    Openers.OpenedHasHeader(run, Some(was), n, t);
  }

  ghost predicate Follows(s: State, s': State) {
    exists t :: Next(s, s', t)
  }

  ghost predicate StepAt(run: seq<State>, n: nat)
    requires n + 1 < |run|
  {
    Follows(run[n], run[n + 1])
  }

  /** Any interleaving: each state follows from the one before by a step of some thread. */
  ghost predicate IsRun(run: seq<State>) {
    0 < |run| && forall n | 0 <= n < |run| - 1 :: StepAt(run, n)
  }

  lemma StepAtKeeps(run: seq<State>, was: File, n: nat)
    requires n + 1 < |run| && Inv(run[n], was) && StepAt(run, n)
    ensures Inv(run[n + 1], was) && Extends(run[n].ov, run[n + 1].ov)
  {
    var t :| Next(run[n], run[n + 1], t);
    NextGood(run[n], run[n + 1], was, t);
    GoodStepKeepsInv(run[n], run[n + 1], was, t);
  }

  lemma {:induction false} RunInv(run: seq<State>, was: File, i: nat)
    requires IsRun(run) && Init(run[0], was) && i < |run|
    ensures Inv(run[i], was)
  {
    if i > 0 {
      RunInv(run, was, i - 1);
      assert StepAt(run, i - 1);
      StepAtKeeps(run, was, i - 1);
    }
  }

  /** In every state of every interleaving, published pointers lead to the bytes the file had when the snapshot was
      made, unsaved blocks still have them in the main file, and no reader has seen anything else. */
  lemma ConcurrentSaveSafety(run: seq<State>, was: File, i: nat, t: nat)
    requires IsRun(run) && Init(run[0], was) && i < |run| && t < |run[i].threads|
    ensures SavedHolds(run[i].ov, was) && UnsavedShared(run[i].ov, was, Some(run[i].main))
    ensures var pc := run[i].threads[t].pc;
            pc.Release? ==> pc.lo <= pc.hi <= |was| && pc.got == was[pc.lo..pc.hi]
  {
    RunInv(run, was, i);
    InvIsSafe(run[i], was, t);
  }

  lemma InvIsSafe(s: State, was: File, t: nat)
    requires Inv(s, was) && t < |s.threads|
    ensures SavedHolds(s.ov, was) && UnsavedShared(s.ov, was, Some(s.main))
    ensures var pc := s.threads[t].pc;
            pc.Release? ==> pc.lo <= pc.hi <= |was| && pc.got == was[pc.lo..pc.hi]
  {
    assert ThreadOk(s.ov, was, s.threads[t].pc);
  }

  lemma StepExtends(run: seq<State>, was: File, n: nat)
    requires IsRun(run) && Init(run[0], was) && n + 1 < |run|
    ensures Extends(run[n].ov, run[n + 1].ov)
  {
    RunInv(run, was, n);
    assert StepAt(run, n);
    StepAtKeeps(run, was, n);
  }

  /** Pointers never change once set and the dat file only grows, from any state of a run to any later one. */
  lemma {:induction false} PointersStay(run: seq<State>, was: File, i: nat, j: nat)
    requires IsRun(run) && Init(run[0], was) && i <= j < |run|
    ensures Extends(run[i].ov, run[j].ov)
    decreases j
  {
    if i < j {
      PointersStay(run, was, i, j - 1);
      StepExtends(run, was, j - 1);
      ExtendsTwice(run[i].ov, run[j - 1].ov, run[j].ov);
    }
  }

  /** A short append stops all saving: no thread can be past the check of the size of the dat file, and none gets past
      it any more. */
  lemma NextWhenTorn(s: State, s': State, was: File, t: nat)
    requires Inv(s, was) && Next(s, s', t) && |s.ov.dat.value| % BL_S != 0
    ensures s'.ov == s.ov
  {
    assert ThreadOk(s.ov, was, s.threads[t].pc);
  }

  lemma {:induction false} TornForGood(run: seq<State>, was: File, i: nat, j: nat)
    requires IsRun(run) && Init(run[0], was) && i <= j < |run|
    requires run[i].ov.dat.Some? && |run[i].ov.dat.value| % BL_S != 0
    ensures run[j].ov == run[i].ov
    decreases j
  {
    if i < j {
      TornForGood(run, was, i, j - 1);
      RunInv(run, was, j - 1);
      assert StepAt(run, j - 1);
      var t :| Next(run[j - 1], run[j], t);
      NextWhenTorn(run[j - 1], run[j], was, t);
    }
  }

  /** So a thread that gets to change the main file after that has nothing to save that was not saved before. */
  lemma TornRefuses(run: seq<State>, was: File, i: nat, j: nat, t: nat)
    requires IsRun(run) && Init(run[0], was) && i <= j < |run| && t < |run[j].threads|
    requires run[i].ov.dat.Some? && |run[i].ov.dat.value| % BL_S != 0 && run[j].threads[t].pc.Modify?
    ensures TaskSaved(run[i].ov, run[j].threads[t].pc.task)
    ensures var (lo, hi) := SaveRange(run[j].threads[t].pc.task.job, run[i].ov.size); RangeSaved(run[i].ov, lo, hi)
  {
    TornForGood(run, was, i, j);
    RunInv(run, was, j);
    assert ThreadOk(run[j].ov, was, run[j].threads[t].pc);
    TaskSavedRange(run[i].ov, run[j].threads[t].pc.task.job);
  }

  /** So every byte of every older snapshot, too, can be looked up in every state of every interleaving. */
  lemma AllSnapshotsSafe(run: seq<State>, was: File, i: nat, layers: Layers, truth: seq<Option<File>>, k: nat, p: nat)
    requires IsRun(run) && Init(run[0], was) && i < |run|
    requires 0 < |layers| == |truth| && truth[|truth| - 1] == Some(was) && layers[|layers| - 1] == Some(run[0].ov)
    requires k < |layers| && LayersOk(layers, truth + [Some(run[0].main)], k)
    requires truth[k].Some? && p < |truth[k].value|
    ensures Lookup(layers[|layers| - 1 := Some(run[i].ov)], Some(run[i].main), k, p) == Some(truth[k].value[p])
  {
    RunInv(run, was, i);
    assert SharedOk(run[i].ov, run[i].main, was);
    LookupAfter(layers, truth, Some(run[0].main), k, p, run[i].ov, run[i].main);
  }

  lemma LookupAfter(layers: Layers, truth: seq<Option<File>>, main: Option<File>, k: nat, p: nat, ov: Overlay,
      main': File)
    requires 0 < |layers| == |truth| && k < |layers| && LayersOk(layers, truth + [main], k)
    requires LayerOk(Some(ov), truth[|truth| - 1], Some(main'))
    requires truth[k].Some? && p < |truth[k].value|
    ensures Lookup(layers[|layers| - 1 := Some(ov)], Some(main'), k, p) == Some(truth[k].value[p])
  {
    ChangeTop(layers, truth, main, k, Some(ov), Some(main'));
    LookupIsVersion(layers[|layers| - 1 := Some(ov)], truth + [Some(main')], k, p);
  }

  /** The bytes [lo, hi) of one block as a reader of snapshot `k` gets them. The maps of older snapshots do not change
      any more, and it walks through them without the lock: if the first of them with a pointer for the block is `j`,
      it reads there, and all the bytes are those of its version. */
  lemma OlderSavedRead(layers: Layers, vs: seq<Option<File>>, k: nat, j: nat, p: nat)
    requires |vs| == |layers| + 1 && k <= j < |layers| && LayersOk(layers, vs, k)
    requires vs[k].Some? && p < |vs[k].value|
    requires forall i | k <= i < j && layers[i].Some? :: !Saved(layers[i].value, BlockOf(p))
    requires layers[j].Some? && Saved(layers[j].value, BlockOf(p))
    ensures DatByte(layers[j].value, p) == Some(vs[k].value[p])
  {
    UnsavedPasses(layers, vs, k, j, p);
    assert LayerOk(layers[j], vs[j], vs[j + 1]);
  }

  /** A byte no older layer has a pointer for is the same in the version of a newer one. */
  lemma {:induction false} UnsavedPasses(layers: Layers, vs: seq<Option<File>>, k: nat, j: nat, p: nat)
    requires |vs| == |layers| + 1 && k <= j <= |layers| && LayersOk(layers, vs, k)
    requires vs[k].Some? && p < |vs[k].value|
    requires forall i | k <= i < j && layers[i].Some? :: !Saved(layers[i].value, BlockOf(p))
    ensures ByteOf(vs[j], p) == Some(vs[k].value[p])
    decreases j
  {
    if k < j {
      UnsavedPasses(layers, vs, k, j - 1, p);
      assert LayerOk(layers[j - 1], vs[j - 1], vs[j]);
    }
  }

  /** If none of them has one, the reader takes the lock at the latest layer and reads there or in the main file. It
      then has exactly the bytes of the version of its own snapshot, in every state of every interleaving. */
  lemma OlderReaderSafe(run: seq<State>, was: File, i: nat, t: nat, layers: Layers, truth: seq<Option<File>>, k: nat)
    requires IsRun(run) && Init(run[0], was) && i < |run| && t < |run[i].threads| && run[i].threads[t].pc.Release?
    requires 0 < |layers| == |truth| && truth[|truth| - 1] == Some(was) && layers[|layers| - 1] == Some(run[0].ov)
    requires k < |layers| && LayersOk(layers, truth + [Some(run[0].main)], k)
    requires var pc := run[i].threads[t].pc;
             && truth[k].Some? && pc.lo < pc.hi <= |truth[k].value|
             && forall j, p: nat | k <= j < |layers| - 1 && layers[j].Some? && pc.lo <= p < pc.hi ::
                  !Saved(layers[j].value, BlockOf(p))
    ensures var pc := run[i].threads[t].pc; pc.got == truth[k].value[pc.lo..pc.hi]
  {
    var pc := run[i].threads[t].pc;
    ConcurrentSaveSafety(run, was, i, t);
    forall p: nat | pc.lo <= p < pc.hi ensures was[p] == truth[k].value[p] {
      UnsavedPasses(layers, truth + [Some(run[0].main)], k, |layers| - 1, p);
    }
  }

  /** And such a reader can start: what it asks for lies within the version of the latest snapshot. */
  lemma OlderReaderStarts(was: File, layers: Layers, truth: seq<Option<File>>, main: Option<File>, k: nat, lo: nat,
      hi: nat)
    requires 0 < |layers| == |truth| && truth[|truth| - 1] == Some(was) && k < |layers|
              && LayersOk(layers, truth + [main], k)
    requires truth[k].Some? && lo < hi <= |truth[k].value|
    requires forall j | k <= j < |layers| - 1 && layers[j].Some? :: !Saved(layers[j].value, BlockOf(hi - 1))
    ensures hi <= |was|
  {
    UnsavedPasses(layers, truth + [main], k, |layers| - 1, hi - 1);
  }

  // ---------------------------------------------------------------- saving, writing and reading can be finished

  /** The next step of a thread if nothing fails. */
  function Advance(s: State, t: nat): State
    requires t < |s.threads| && s.threads[t].handle < |s.caches| && s.ov.dat.Some?
  {
    var cache := s.caches[s.threads[t].handle];
    match s.threads[t].pc
    case Idle => s
    case Check(task, b) =>
      if cache == b + 1 then Goto(s, t, AfterBlock(task, b, false))
      else if Saved(s.ov, b) then Goto(Cached(s, t, b), t, AfterBlock(task, b, false))
      else Goto(s, t, Locking(task, b))
    case Locking(task, b) => Goto(s, t, Recheck(task, b)).(lock := Some(t))
    case Recheck(task, b) =>
      if Saved(s.ov, b) then Goto(s, t, AfterBlock(task, b, true)) else Goto(s, t, Copy(task, b, Zeros(BL_S), 0))
    case CheckLocked(task, b) =>
      if cache == b + 1 then Goto(s, t, AfterBlock(task, b, true))
      else if Saved(s.ov, b) then Goto(Cached(s, t, b), t, AfterBlock(task, b, true))
      else Goto(s, t, Copy(task, b, Zeros(BL_S), 0))
    case Copy(task, b, buf, done) =>
      if done < BL_S && b * BL_S + done < |s.main| && done < |buf|
      then Goto(s, t, Copy(task, b, buf[done := s.main[b * BL_S + done]], done + 1))
      else Goto(s, t, Seek(task, b, buf))
    case Seek(task, b, buf) => Goto(s, t, Append(task, b, buf, |s.ov.dat.value|))
    case Append(task, b, buf, at) =>
      Goto(s, t, Publish(task, b, at)).(ov := s.ov.(dat := Some(s.ov.dat.value + buf)))
    case Publish(task, b, at) => Published(s, t, task, b, at)
    case Unlock(task, ok) => Goto(s, t, if ok then Modify(task, 0) else Idle).(lock := None)
    case Modify(task, next) =>
      (match task.job
       case WriteJob(offset, data) =>
         if next < |data|
         then Goto(s, t, Modify(task, next + 1)).(main := PWrite(s.main, offset + next, [data[next]]))
         else Goto(s, t, Idle)
       case TruncateJob(newsize) => Goto(s, t, Idle).(main := Truncated(s.main, newsize)))
    case Waiting(lo, hi) => Goto(s, t, ReadMap(lo, hi)).(lock := Some(t))
    case ReadMap(lo, hi) =>
      Goto(s, t, if Saved(s.ov, BlockOf(lo)) then ReadDat(lo, hi, DatOffset(s.ov, lo), []) else ReadMain(lo, hi, []))
    case ReadDat(lo, hi, at, got) =>
      if lo + |got| < hi && at + |got| < |s.ov.dat.value|
      then Goto(s, t, ReadDat(lo, hi, at, got + [s.ov.dat.value[at + |got|]]))
      else Goto(s, t, Release(lo, hi, got))
    case ReadMain(lo, hi, got) =>
      if lo + |got| < hi && lo + |got| < |s.main| then Goto(s, t, ReadMain(lo, hi, got + [s.main[lo + |got|]]))
      else Goto(s, t, Release(lo, hi, got))
    case Release(lo, hi, got) => Goto(s, t, Idle).(lock := None)
  }

  /** A thread with something to do, which the lock does not keep from it; the dat file takes blocks. */
  ghost predicate CanAdvance(s: State, was: File, t: nat) {
    && Inv(s, was) && t < |s.threads| && s.threads[t].handle < |s.caches| && !s.threads[t].pc.Idle?
    && (s.lock.None? || s.lock == Some(t)) && |s.ov.dat.value| % BL_S == 0
  }

  /** Copying finds at least one byte, so it ends with a block to save. */
  lemma CopyAdvances(s: State, was: File, t: nat)
    requires CanAdvance(s, was, t) && s.threads[t].pc.Copy?
    ensures Next(s, Advance(s, t), t)
  {
    var Copy(task, b, buf, done) := s.threads[t].pc;
    assert ThreadOk(s.ov, was, s.threads[t].pc);
    TaskBlockMeetsSize(task.job, s.ov.size, b);
    assert b * BL_S < |s.main| by {
      UnsavedStillThere(s.ov, was, Some(s.main), b * BL_S);
    }
  }

  lemma AppendAdvances(s: State, was: File, t: nat)
    requires CanAdvance(s, was, t) && s.threads[t].pc.Append?
    ensures Next(s, Advance(s, t), t)
  {
    var Append(task, b, buf, at) := s.threads[t].pc;
    assert buf[..|buf|] == buf;
    var s' := Advance(s, t);
    var n: nat := |buf|;
    assert n <= |buf| && s' == Goto(s, t, if n < |buf| then Unlock(task, false) else Publish(task, b, at))
                               .(ov := s.ov.(dat := Some(s.ov.dat.value + buf[..n])));
  }

  lemma SaveAdvances(s: State, was: File, t: nat)
    requires CanAdvance(s, was, t) && HasTask(s.threads[t].pc)
    ensures Next(s, Advance(s, t), t)
  {
    var pc := s.threads[t].pc;
    assert ThreadOk(s.ov, was, pc) && (HoldsLock(pc) <==> s.lock == Some(t));
    if pc.Copy? {
      CopyAdvances(s, was, t);
    } else if pc.Append? {
      AppendAdvances(s, was, t);
    } else if pc.Recheck? || pc.CheckLocked? {
      assert |Zeros(BL_S)| == BL_S;
    }
  }

  /** How far a thread is from the end of its task. */
  function Phase(pc: Pc): nat {
    if pc.Modify? then 0 else if pc.Unlock? then 1 else 2
  }

  function BlocksLeft(pc: Pc): nat
    requires HasTask(pc)
  {
    if pc.Unlock? || pc.Modify? || pc.task.end < pc.b then 0 else pc.task.end - pc.b
  }

  function Stage(pc: Pc): nat {
    match pc
    case Check(_, _) => 7
    case Locking(_, _) => 6
    case Recheck(_, _) => 5
    case CheckLocked(_, _) => 5
    case Copy(_, _, _, _) => 4
    case Seek(_, _, _) => 3
    case Append(_, _, _, _) => 2
    case Publish(_, _, _) => 1
    case _ => 0
  }

  function BytesLeft(pc: Pc): nat {
    match pc
    case Copy(_, _, _, done) => if done < BL_S then BL_S - done else 0
    case Modify(task, next) =>
      if task.job.WriteJob? && next < |task.job.data| then |task.job.data| - next else 0
    case _ => 0
  }

  /** What the main file will be when the task is done. */
  function Final(pc: Pc, main: File): File
    requires HasTask(pc)
  {
    match pc.task.job
    case TruncateJob(newsize) => Truncated(main, newsize)
    case WriteJob(offset, data) =>
      var next := if pc.Modify? && pc.next <= |data| then pc.next else if pc.Modify? then |data| else 0;
      PWrite(main, offset + next, data[next..])
  }

  /** Writing byte by byte is writing. */
  lemma WriteOneByOne(f: File, offset: nat, data: File)
    requires data != []
    ensures PWrite(PWrite(f, offset, [data[0]]), offset + 1, data[1..]) == PWrite(f, offset, data)
  {
    var one := PWrite(f, offset, [data[0]]);
    var all := PWrite(one, offset + 1, data[1..]);
    PWriteIsWritten(f, offset, [data[0]], one);
    PWriteIsWritten(one, offset + 1, data[1..], all);
    if |data| > 1 {
      forall p | offset <= p < offset + |data| ensures all[p] == data[p - offset] {
        if p == offset {
          assert one[offset..offset + 1] == [data[0]];
        } else {
          assert all[p] == all[offset + 1..offset + |data|][p - offset - 1];
        }
      }
      assert all[offset..offset + |data|] == data;
      assert IsWritten(f, offset, data, all);
    } else {
      assert data == [data[0]];
    }
    PWriteIsWritten(f, offset, data, all);
  }

  /** A thread is closer to the end of its task. */
  ghost predicate Closer(pc: Pc, pc': Pc) {
    && HasTask(pc) && HasTask(pc') && pc'.task == pc.task && (pc'.Unlock? ==> pc'.ok)
    && (Phase(pc') < Phase(pc) ||
        (Phase(pc') == Phase(pc) &&
         (BlocksLeft(pc') < BlocksLeft(pc) ||
          (BlocksLeft(pc') == BlocksLeft(pc) &&
           (Stage(pc') < Stage(pc) || (Stage(pc') == Stage(pc) && BytesLeft(pc') < BytesLeft(pc)))))))
  }

  lemma GetsCloser(s: State, was: File, t: nat)
    requires CanAdvance(s, was, t) && HasTask(s.threads[t].pc) && (s.threads[t].pc.Unlock? ==> s.threads[t].pc.ok)
    ensures var s' := Advance(s, t);
            && |s'.threads| == |s.threads| && s'.threads[t].handle == s.threads[t].handle && |s'.caches| == |s.caches|
            && (if s'.threads[t].pc.Idle? then s.threads[t].pc.Modify? else Closer(s.threads[t].pc, s'.threads[t].pc))
            && s'.ov.dat.Some? && |s'.ov.dat.value| % BL_S == 0
  {
    var pc := s.threads[t].pc;
    assert ThreadOk(s.ov, was, pc);
  }

  /** Until everything is saved, the main file waits. */
  lemma MainWaits(s: State, was: File, t: nat)
    requires CanAdvance(s, was, t) && HasTask(s.threads[t].pc) && (s.threads[t].pc.Unlock? ==> s.threads[t].pc.ok)
    requires !s.threads[t].pc.Modify?
    ensures var s', pc := Advance(s, t), s.threads[t].pc;
            && s'.main == s.main && HasTask(s'.threads[t].pc) && s'.threads[t].pc.task == pc.task
            && (s'.threads[t].pc.Modify? ==> s'.threads[t].pc.next == 0)
  {
  }

  lemma ModifyStaysFinal(s: State, was: File, t: nat)
    requires CanAdvance(s, was, t) && s.threads[t].pc.Modify?
    ensures var s', pc := Advance(s, t), s.threads[t].pc;
            if HasTask(s'.threads[t].pc) then Final(s'.threads[t].pc, s'.main) == Final(pc, s.main)
            else s'.main == Final(pc, s.main)
  {
    var Modify(task, next) := s.threads[t].pc;
    if task.job.WriteJob? {
      var WriteJob(offset, data) := task.job;
      if next < |data| {
        WriteOneByOne(s.main, offset + next, data[next..]);
        assert data[next..][1..] == data[next + 1..] && data[next..][0] == data[next];
      } else {
        assert data[|data|..] == [];
      }
    }
  }

  lemma StaysFinal(s: State, was: File, t: nat)
    requires CanAdvance(s, was, t) && HasTask(s.threads[t].pc) && (s.threads[t].pc.Unlock? ==> s.threads[t].pc.ok)
    ensures var s', pc := Advance(s, t), s.threads[t].pc;
            if HasTask(s'.threads[t].pc) then Final(s'.threads[t].pc, s'.main) == Final(pc, s.main)
            else s'.main == Final(pc, s.main)
  {
    if s.threads[t].pc.Modify? {
      ModifyStaysFinal(s, was, t);
    } else {
      MainWaits(s, was, t);
    }
  }

  ghost predicate SoloStep(run: seq<State>, t: nat, n: nat)
    requires n + 1 < |run|
  {
    Next(run[n], run[n + 1], t)
  }

  /** A run in which only thread `t` takes steps. */
  ghost predicate Solo(run: seq<State>, t: nat) {
    0 < |run| && forall n | 0 <= n < |run| - 1 :: SoloStep(run, t, n)
  }

  lemma SoloFrom(s: State, rest: seq<State>, t: nat)
    requires Solo(rest, t) && Next(s, rest[0], t)
    ensures Solo([s] + rest, t)
  {
    var run := [s] + rest;
    forall n | 0 <= n < |run| - 1 ensures SoloStep(run, t, n) {
      if n > 0 {
        assert SoloStep(rest, t, n - 1);
      }
    }
  }

  /** A thread alone finishes its task: everything it has to save is saved, and then the main file is changed. */
  lemma {:induction false} TaskFinishes(s: State, was: File, t: nat) returns (run: seq<State>)
    requires CanAdvance(s, was, t) && HasTask(s.threads[t].pc) && (s.threads[t].pc.Unlock? ==> s.threads[t].pc.ok)
    ensures Solo(run, t) && run[0] == s
    ensures var s', pc := run[|run| - 1], s.threads[t].pc;
            && |s'.threads| == |s.threads| && s'.threads[t].pc.Idle? && s'.lock.None?
            && s'.main == Final(pc, s.main) && TaskSaved(s'.ov, pc.task) && s'.ov.size == s.ov.size
    decreases Phase(s.threads[t].pc), BlocksLeft(s.threads[t].pc), Stage(s.threads[t].pc), BytesLeft(s.threads[t].pc)
  {
    var s' := Advance(s, t);
    SaveAdvances(s, was, t);
    GetsCloser(s, was, t);
    StaysFinal(s, was, t);
    NextGood(s, s', was, t);
    GoodStepKeepsInv(s, s', was, t);
    if s'.threads[t].pc.Idle? {
      run := [s, s'];
      assert SoloStep(run, t, 0);
      assert ThreadOk(s.ov, was, s.threads[t].pc) && s.lock.None?;
    } else {
      var rest := TaskFinishes(s', was, t);
      SoloFrom(s, rest, t);
      run := [s] + rest;
    }
  }

  /** Whatever other threads are in the middle of, as long as the lock is free and the dat file takes blocks, an idle
      thread can write or truncate on its own, and the main file is then changed as a whole. */
  lemma JobFinishes(s: State, was: File, t: nat, job: Job, handle: nat) returns (run: seq<State>)
    requires Inv(s, was) && t < |s.threads| && s.threads[t].pc.Idle? && s.lock.None? && |s.ov.dat.value| % BL_S == 0
    requires handle < |s.caches|
    ensures Solo(run, t) && run[0] == s
    ensures var s' := run[|run| - 1];
            && |s'.threads| == |s.threads| && s'.threads[t].pc.Idle? && s'.lock.None?
            && s'.main == (match job case WriteJob(offset, data) => PWrite(s.main, offset, data)
                                     case TruncateJob(newsize) => Truncated(s.main, newsize))
            && var (lo, hi) := SaveRange(job, s.ov.size); RangeSaved(s'.ov, lo, hi)
  {
    var s1 := Started(s, t, job, handle);
    assert StartStep(s, s1, t);
    NextGood(s, s1, was, t);
    GoodStepKeepsInv(s, s1, was, t);
    var rest := TaskFinishes(s1, was, t);
    SoloFrom(s, rest, t);
    run := [s] + rest;
    var s' := run[|run| - 1];
    assert job.WriteJob? ==> job.data[0..] == job.data;
    TaskSavedRange(s'.ov, job);
  }

  /** A reader alone gets all the bytes of the version it asked for. */
  lemma {:induction false} ReadFinishes(s: State, was: File, t: nat) returns (run: seq<State>)
    requires CanAdvance(s, was, t) && (s.threads[t].pc.ReadDat? || s.threads[t].pc.ReadMain?)
    ensures Solo(run, t) && run[0] == s
    ensures var s', pc := run[|run| - 1], s.threads[t].pc;
            && |s'.threads| == |s.threads| && pc.lo <= pc.hi <= |was|
            && s'.threads[t].pc == Release(pc.lo, pc.hi, was[pc.lo..pc.hi])
    decreases s.threads[t].pc.hi - s.threads[t].pc.lo - |s.threads[t].pc.got|
  {
    var s', pc := Advance(s, t), s.threads[t].pc;
    assert ThreadOk(s.ov, was, pc);
    if pc.lo + |pc.got| < pc.hi {
      NextByte(s.ov, s.main, was, pc.lo, pc.hi, |pc.got|);
    }
    assert Next(s, s', t);
    NextGood(s, s', was, t);
    GoodStepKeepsInv(s, s', was, t);
    if s'.threads[t].pc.Release? {
      run := [s, s'];
      assert SoloStep(run, t, 0);
      assert ThreadOk(s'.ov, was, s'.threads[t].pc);
    } else {
      var rest := ReadFinishes(s', was, t);
      SoloFrom(s, rest, t);
      run := [s] + rest;
    }
  }

  /** Taking the lock for reading, and looking into the map. */
  lemma LockedReadAdvances(s: State, was: File, t: nat)
    requires CanAdvance(s, was, t) && (s.threads[t].pc.Waiting? || s.threads[t].pc.ReadMap?)
    ensures var s', pc := Advance(s, t), s.threads[t].pc;
            && Next(s, s', t) && CanAdvance(s', was, t) && |s'.threads| == |s.threads|
            && (if pc.Waiting? then s'.threads[t].pc == ReadMap(pc.lo, pc.hi)
                else (s'.threads[t].pc.ReadDat? || s'.threads[t].pc.ReadMain?) &&
                     s'.threads[t].pc.lo == pc.lo && s'.threads[t].pc.hi == pc.hi)
  {
    var s' := Advance(s, t);
    assert ThreadOk(s.ov, was, s.threads[t].pc) && (HoldsLock(s.threads[t].pc) <==> s.lock == Some(t));
    assert ReadStep(s, s', t);
    NextGood(s, s', was, t);
    GoodStepKeepsInv(s, s', was, t);
  }

  lemma ReadStarts(s: State, was: File, t: nat, lo: nat, hi: nat)
    requires Inv(s, was) && t < |s.threads| && s.threads[t].pc.Idle? && s.lock.None? && |s.ov.dat.value| % BL_S == 0
    requires s.threads[t].handle < |s.caches| && lo < hi <= |was| && BlockOf(lo) == BlockOf(hi - 1)
    ensures var s' := Goto(s, t, Waiting(lo, hi)); Next(s, s', t) && CanAdvance(s', was, t)
  {
    var s' := Goto(s, t, Waiting(lo, hi));
    assert StartStep(s, s', t);
    NextGood(s, s', was, t);
    GoodStepKeepsInv(s, s', was, t);
  }

  lemma WaitingFinishes(s: State, was: File, t: nat) returns (run: seq<State>)
    requires CanAdvance(s, was, t) && s.threads[t].pc.Waiting?
    ensures Solo(run, t) && run[0] == s
    ensures var s', pc := run[|run| - 1], s.threads[t].pc;
            && |s'.threads| == |s.threads| && pc.lo <= pc.hi <= |was|
            && s'.threads[t].pc == Release(pc.lo, pc.hi, was[pc.lo..pc.hi])
  {
    LockedReadAdvances(s, was, t);
    var s1 := Advance(s, t);
    LockedReadAdvances(s1, was, t);
    var rest := ReadFinishes(Advance(s1, t), was, t);
    SoloFrom(s1, rest, t);
    SoloFrom(s, [s1] + rest, t);
    run := [s] + ([s1] + rest);
  }

  /** Likewise an idle thread can read any part of one block of the latest snapshot. */
  lemma ReaderFinishes(s: State, was: File, t: nat, lo: nat, hi: nat) returns (run: seq<State>)
    requires Inv(s, was) && t < |s.threads| && s.threads[t].pc.Idle? && s.lock.None? && |s.ov.dat.value| % BL_S == 0
    requires s.threads[t].handle < |s.caches| && lo < hi <= |was| && BlockOf(lo) == BlockOf(hi - 1)
    ensures Solo(run, t) && run[0] == s
    ensures var s' := run[|run| - 1];
            |s'.threads| == |s.threads| && s'.threads[t].pc == Release(lo, hi, was[lo..hi])
  {
    ReadStarts(s, was, t, lo, hi);
    var rest := WaitingFinishes(Goto(s, t, Waiting(lo, hi)), was, t);
    SoloFrom(s, rest, t);
    run := [s] + rest;
  }
}
