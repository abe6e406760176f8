/** The labelled lock table of mflock.c: LOCK_NUM mutexes that are given labels, handed over and taken back, with a
    second row of mutexes guarding changes of labels. A step is one access to shared state, so a scan of the table
    takes many steps and other threads relabel slots in between. The `want` counters only steer whether an unlocking
    thread tries to take its label back; as they are updated without atomicity, that choice is left open. */
module LockTable {
  import opened Base

  const LOCK_NUM: nat := 64

  /** The guard mutex of a label. */
  function Guard(tag: nat): nat {
    tag % LOCK_NUM
  }

  /** Where a thread is, for the label it wants or holds.
      Locking: Scan looks for the label (`guarded` once the guard is held), Found gives the guard back, Wait takes the
      mutex of the slot found, Recheck makes sure of the label; or WantGuard, then Find and Try look for a free
      slot, RecheckFree makes sure it is unlabelled, SetLabel labels it, DropGuard ends.
      Unlocking: GetGuard, ClearLabel, DropSlot, DropGuardAfter; or KeepLabel and HandOver to leave the label. */
  datatype Pc =
    | Idle
    | Scan(tag: nat, i: nat, guarded: bool)
    | Found(tag: nat, i: nat)
    | Wait(tag: nat, i: nat)
    | Recheck(tag: nat, i: nat)
    | WantGuard(tag: nat)
    | Find(tag: nat, i: nat)
    | Try(tag: nat, i: nat)
    | RecheckFree(tag: nat, i: nat)
    | SetLabel(tag: nat, i: nat)
    | DropGuard(tag: nat, i: nat)
    | Holding(tag: nat, i: nat)
    | GetGuard(tag: nat, i: nat)
    | ClearLabel(tag: nat, i: nat)
    | DropSlot(tag: nat, i: nat)
    | DropGuardAfter(tag: nat)
    | KeepLabel(tag: nat, i: nat)
    | HandOver(tag: nat, i: nat)

  /** Labels of the slots (0 for none), owners of the slot mutexes and of the guards, and the threads. */
  datatype State = State(labels: seq<nat>, owner: seq<Option<nat>>, guard: seq<Option<nat>>, threads: seq<Pc>)

  ghost predicate Shape(s: State) {
    |s.labels| == |s.owner| == |s.guard| == LOCK_NUM
  }

  // ---------------------------------------------------------------- steps

  function Goto(s: State, t: nat, pc: Pc): State
    requires t < |s.threads|
  {
    s.(threads := s.threads[t := pc])
  }

  function TakeSlot(s: State, t: nat, i: nat): State
    requires i < |s.owner|
  {
    s.(owner := s.owner[i := Some(t)])
  }

  function FreeSlot(s: State, i: nat): State
    requires i < |s.owner|
  {
    s.(owner := s.owner[i := None])
  }

  function TakeGuard(s: State, t: nat, tag: nat): State
    requires Guard(tag) < |s.guard|
  {
    s.(guard := s.guard[Guard(tag) := Some(t)])
  }

  function FreeGuard(s: State, tag: nat): State
    requires Guard(tag) < |s.guard|
  {
    s.(guard := s.guard[Guard(tag) := None])
  }

  function Relabel(s: State, i: nat, tag: nat): State
    requires i < |s.labels|
  {
    s.(labels := s.labels[i := tag])
  }

  /** A step of mflock_lock. The failed recheck goes back to scanning without giving the slot mutex back. */
  ghost predicate LockStep(s: State, s': State, t: nat)
    requires Shape(s) && t < |s.threads|
  {
    match s.threads[t]
    case Idle =>
      exists tag: nat :: tag != 0 && s' == Goto(s, t, Scan(tag, 0, false))
    case Scan(tag, i, guarded) =>
      if i < LOCK_NUM then
        s' == Goto(s, t, if s.labels[i] != tag then Scan(tag, i + 1, guarded)
                         else if guarded then Found(tag, i) else Wait(tag, i))
      else s' == Goto(s, t, if guarded then Find(tag, 0) else WantGuard(tag))
    case Found(tag, i) =>
      s' == FreeGuard(Goto(s, t, Wait(tag, i)), tag)
    case Wait(tag, i) =>
      i < LOCK_NUM && s.owner[i].None? && s' == TakeSlot(Goto(s, t, Recheck(tag, i)), t, i)
    case Recheck(tag, i) =>
      i < LOCK_NUM && s' == Goto(s, t, if s.labels[i] == tag then Holding(tag, i) else Scan(tag, 0, false))
    case WantGuard(tag) =>
      s.guard[Guard(tag)].None? && s' == TakeGuard(Goto(s, t, Scan(tag, 0, true)), t, tag)
    case Find(tag, i) =>
      if i < LOCK_NUM then s' == Goto(s, t, if s.labels[i] == 0 then Try(tag, i) else Find(tag, i + 1))
      else s' == Goto(s, t, Find(tag, 0))
    case Try(tag, i) =>
      i < LOCK_NUM &&
      if s.owner[i].None? then s' == TakeSlot(Goto(s, t, RecheckFree(tag, i)), t, i)
      else s' == Goto(s, t, Find(tag, i + 1))
    case RecheckFree(tag, i) =>
      i < LOCK_NUM &&
      if s.labels[i] == 0 then s' == Goto(s, t, SetLabel(tag, i))
      else s' == FreeSlot(Goto(s, t, Find(tag, 0)), i)
    case SetLabel(tag, i) =>
      i < LOCK_NUM && s' == Relabel(Goto(s, t, DropGuard(tag, i)), i, tag)
    case DropGuard(tag, i) =>
      s' == FreeGuard(Goto(s, t, Holding(tag, i)), tag)
    case _ => false
  }

  /** A step of mflock_unlock, called while holding a slot. */
  ghost predicate UnlockStep(s: State, s': State, t: nat)
    requires Shape(s) && t < |s.threads|
  {
    match s.threads[t]
    case Holding(tag, i) =>
      s' == Goto(s, t, GetGuard(tag, i)) || s' == Goto(s, t, HandOver(tag, i))
    case GetGuard(tag, i) =>
      // The guard is chosen by the label found in the slot
      && i < LOCK_NUM && s.guard[Guard(s.labels[i])].None?
      && (s' == TakeGuard(Goto(s, t, ClearLabel(tag, i)), t, s.labels[i])
          || s' == TakeGuard(Goto(s, t, KeepLabel(tag, i)), t, s.labels[i]))
    case ClearLabel(tag, i) =>
      i < LOCK_NUM && s' == Relabel(Goto(s, t, DropSlot(tag, i)), i, 0)
    case DropSlot(tag, i) =>
      i < LOCK_NUM && s' == FreeSlot(Goto(s, t, DropGuardAfter(tag)), i)
    case DropGuardAfter(tag) =>
      s' == FreeGuard(Goto(s, t, Idle), tag)
    case KeepLabel(tag, i) =>
      s' == FreeGuard(Goto(s, t, HandOver(tag, i)), tag)
    case HandOver(tag, i) =>
      i < LOCK_NUM && s' == FreeSlot(Goto(s, t, Idle), i)
    case _ => false
  }

  ghost predicate Next(s: State, s': State, t: nat) {
    Shape(s) && t < |s.threads| && (LockStep(s, s', t) || UnlockStep(s, s', t))
  }

  // ---------------------------------------------------------------- the invariant

  /** The slot still has the label for which it was given to the thread. */
  predicate Labelled(pc: Pc) {
    pc.DropGuard? || pc.Holding? || pc.GetGuard? || pc.ClearLabel? || pc.KeepLabel? || pc.HandOver?
  }

  /** From the moment mflock_lock labels or rechecks a slot until mflock_unlock returns. */
  predicate InSection(pc: Pc, tag: nat) {
    (Labelled(pc) || pc.DropSlot? || pc.DropGuardAfter?) && pc.tag == tag
  }

  predicate HasSlot(pc: Pc) {
    pc.Recheck? || pc.RecheckFree? || pc.SetLabel? || pc.DropGuard? || pc.Holding? || pc.GetGuard? || pc.ClearLabel? ||
    pc.DropSlot? || pc.KeepLabel? || pc.HandOver?
  }

  predicate HasGuard(pc: Pc) {
    (pc.Scan? && pc.guarded) || pc.Found? || pc.Find? || pc.Try? || pc.RecheckFree? || pc.SetLabel? || pc.DropGuard? ||
    pc.ClearLabel? || pc.DropSlot? || pc.DropGuardAfter? || pc.KeepLabel?
  }

  /** None of the first `n` slots has the label. */
  ghost predicate AbsentBelow(labels: seq<nat>, tag: nat, n: nat) {
    forall j | 0 <= j < n && j < |labels| :: labels[j] != tag
  }

  ghost predicate LabelsOk(labels: seq<nat>, pc: Pc) {
    && (!pc.Idle? ==> pc.tag != 0)
    && match pc
       case Scan(tag, i, guarded) => i <= LOCK_NUM && (guarded ==> AbsentBelow(labels, tag, i))
       case Found(_, i) => i < LOCK_NUM
       case Wait(_, i) => i < LOCK_NUM
       case Recheck(_, i) => i < LOCK_NUM
       case Find(tag, i) => i <= LOCK_NUM && AbsentBelow(labels, tag, LOCK_NUM)
       case Try(tag, i) => i < LOCK_NUM && AbsentBelow(labels, tag, LOCK_NUM)
       case RecheckFree(tag, i) => i < LOCK_NUM && AbsentBelow(labels, tag, LOCK_NUM)
       case SetLabel(tag, i) => i < LOCK_NUM && AbsentBelow(labels, tag, LOCK_NUM) && i < |labels| && labels[i] == 0
       case DropSlot(tag, i) => i < LOCK_NUM && AbsentBelow(labels, tag, LOCK_NUM)
       case Idle => true
       case WantGuard(_) => true
       case DropGuardAfter(tag) => AbsentBelow(labels, tag, LOCK_NUM)
       case _ => pc.i < LOCK_NUM && pc.i < |labels| && labels[pc.i] == pc.tag
  }

  ghost predicate ThreadOk(s: State, t: nat)
    requires Shape(s) && t < |s.threads|
  {
    var pc := s.threads[t];
    && LabelsOk(s.labels, pc)
    && (HasSlot(pc) ==> s.owner[pc.i] == Some(t))
    && (HasGuard(pc) ==> s.guard[Guard(pc.tag)] == Some(t))
  }

  ghost predicate Unique(labels: seq<nat>) {
    forall i, j | 0 <= i < j < |labels| && labels[i] != 0 :: labels[i] != labels[j]
  }

  ghost predicate Inv(s: State) {
    Shape(s) && Unique(s.labels) && forall t | 0 <= t < |s.threads| :: ThreadOk(s, t)
  }

  // ---------------------------------------------------------------- the invariant is kept

  /** What one step of thread `t` may change: labels only of a slot whose mutex and whose label's guard it has, and
      owners only by taking what is free or freeing what it has. */
  ghost predicate Confined(s: State, s': State, t: nat)
    requires Shape(s)
  {
    && Shape(s')
    && (forall i | 0 <= i < LOCK_NUM :: s'.owner[i] == s.owner[i] || s.owner[i].None? || s.owner[i] == Some(t))
    && (forall g | 0 <= g < LOCK_NUM :: s'.guard[g] == s.guard[g] || s.guard[g].None? || s.guard[g] == Some(t))
    && (forall i | 0 <= i < LOCK_NUM && s'.labels[i] != s.labels[i] ::
          s.owner[i] == Some(t) && (s'.labels[i] != 0 ==> s.guard[Guard(s'.labels[i])] == Some(t)))
    && |s'.threads| == |s.threads| && t < |s.threads|
    && forall u | 0 <= u < |s.threads| && u != t :: s'.threads[u] == s.threads[u]
  }

  /** Such a step does not disturb another thread, not even in the middle of a scan. */
  lemma OthersUndisturbed(s: State, s': State, t: nat, u: nat)
    requires Shape(s) && Confined(s, s', t) && u != t && u < |s.threads| && ThreadOk(s, u)
    ensures ThreadOk(s', u)
  {
    var pc := s.threads[u];
    if HasSlot(pc) {
      assert s'.owner[pc.i] == Some(u) && s'.labels[pc.i] == s.labels[pc.i];
    }
    if HasGuard(pc) {
      forall i | 0 <= i < LOCK_NUM && s.labels[i] != pc.tag ensures s'.labels[i] != pc.tag {
      }
    }
  }

  /** Looking at a label: scanning, rechecking, and deciding about the handover. */
  lemma LookStep(s: State, s': State, t: nat)
    requires Shape(s) && t < |s.threads| && ThreadOk(s, t) && Next(s, s', t)
    requires var pc := s.threads[t]; pc.Idle? || pc.Scan? || pc.Recheck? || pc.Find? || pc.Holding?
    ensures s' == Goto(s, t, s'.threads[t]) && ThreadOk(s', t)
  {
  }

  /** Taking the mutex of a slot, or giving it back because the slot has been labelled meanwhile. */
  lemma TakeSlotStep(s: State, s': State, t: nat)
    requires Shape(s) && t < |s.threads| && ThreadOk(s, t) && Next(s, s', t)
    requires var pc := s.threads[t]; pc.Wait? || pc.Try? || pc.RecheckFree?
    ensures Confined(s, s', t) && ThreadOk(s', t) && s'.labels == s.labels
  {
  }

  /** Giving the mutex of a slot back when unlocking. */
  lemma DropSlotStep(s: State, s': State, t: nat)
    requires Shape(s) && t < |s.threads| && ThreadOk(s, t) && Next(s, s', t)
    requires var pc := s.threads[t]; pc.DropSlot? || pc.HandOver?
    ensures Confined(s, s', t) && ThreadOk(s', t) && s'.labels == s.labels
  {
  }

  /** Taking and giving back the guard when locking. */
  lemma GuardStep(s: State, s': State, t: nat)
    requires Shape(s) && t < |s.threads| && ThreadOk(s, t) && Next(s, s', t)
    requires var pc := s.threads[t]; pc.Found? || pc.WantGuard? || pc.DropGuard?
    ensures Confined(s, s', t) && ThreadOk(s', t) && s'.labels == s.labels
  {
  }

  /** Taking and giving back the guard when unlocking. */
  lemma GuardAgainStep(s: State, s': State, t: nat)
    requires Shape(s) && t < |s.threads| && ThreadOk(s, t) && Next(s, s', t)
    requires var pc := s.threads[t]; pc.GetGuard? || pc.DropGuardAfter? || pc.KeepLabel?
    ensures Confined(s, s', t) && ThreadOk(s', t) && s'.labels == s.labels
  {
  }

  /** Giving a slot a label, and taking the label back. */
  lemma LabelStep(s: State, s': State, t: nat)
    requires Shape(s) && Unique(s.labels) && t < |s.threads| && ThreadOk(s, t) && Next(s, s', t)
    requires s.threads[t].SetLabel? || s.threads[t].ClearLabel?
    ensures Confined(s, s', t) && ThreadOk(s', t) && Unique(s'.labels)
  {
  }

  lemma NextInv(s: State, s': State, t: nat)
    requires Inv(s) && Next(s, s', t)
    ensures Inv(s')
  {
    assert ThreadOk(s, t);
    var pc := s.threads[t];
    if pc.SetLabel? || pc.ClearLabel? {
      LabelStep(s, s', t);
    } else if pc.Wait? || pc.Try? || pc.RecheckFree? {
      TakeSlotStep(s, s', t);
    } else if pc.DropSlot? || pc.HandOver? {
      DropSlotStep(s, s', t);
    } else if pc.Found? || pc.WantGuard? || pc.DropGuard? {
      GuardStep(s, s', t);
    } else if pc.GetGuard? || pc.DropGuardAfter? || pc.KeepLabel? {
      GuardAgainStep(s, s', t);
    } else {
      LookStep(s, s', t);
    }
    forall u | 0 <= u < |s'.threads| ensures ThreadOk(s', u) {
      if u != t {
        OthersUndisturbed(s, s', t, u);
      }
    }
  }

  // ---------------------------------------------------------------- whole runs

  ghost predicate Init(s: State) {
    && Shape(s)
    && (forall i | 0 <= i < LOCK_NUM :: s.labels[i] == 0 && s.owner[i].None? && s.guard[i].None?)
    && forall t | 0 <= t < |s.threads| :: s.threads[t] == Idle
  }

  ghost predicate Follows(s: State, s': State) {
    exists t :: Next(s, s', t)
  }

  ghost predicate StepAt(run: seq<State>, n: nat)
    requires n + 1 < |run|
  {
    Follows(run[n], run[n + 1])
  }

  /** Any interleaving: each state follows from the one before by a step of some thread. */
  ghost predicate IsRun(run: seq<State>) {
    0 < |run| && Init(run[0]) && forall n | 0 <= n < |run| - 1 :: StepAt(run, n)
  }

  lemma {:induction false} RunInv(run: seq<State>, n: nat)
    requires IsRun(run) && n < |run|
    ensures Inv(run[n])
  {
    if n > 0 {
      RunInv(run, n - 1);
      assert StepAt(run, n - 1);
      var t :| Next(run[n - 1], run[n], t);
      NextInv(run[n - 1], run[n], t);
    }
  }

  /** In no state of any run does a label sit in two slots. */
  lemma LabelUniqueness(run: seq<State>, n: nat, i: nat, j: nat)
    requires IsRun(run) && n < |run| && i < LOCK_NUM && j < LOCK_NUM
    ensures |run[n].labels| == LOCK_NUM
    ensures run[n].labels[i] == run[n].labels[j] != 0 ==> i == j
  {
    RunInv(run, n);
  }

  /** In every state of every run, for any number of threads, at most one thread is in the section of a label, to the
      very end of unlocking; until it takes the label back, the slot it was given has that label and is locked by it. */
  lemma MutualExclusion(run: seq<State>, n: nat, tag: nat, t: nat, u: nat)
    requires IsRun(run) && n < |run| && t < |run[n].threads| && u < |run[n].threads|
    requires InSection(run[n].threads[t], tag) && InSection(run[n].threads[u], tag)
    ensures t == u
    ensures Labelled(run[n].threads[t]) ==>
              var i := run[n].threads[t].i;
              Shape(run[n]) && i < LOCK_NUM && run[n].labels[i] == tag && run[n].owner[i] == Some(t)
  {
    RunInv(run, n);
    assert ThreadOk(run[n], t) && ThreadOk(run[n], u);
  }

  // ---------------------------------------------------------------- locking and unlocking can be finished

  ghost predicate SoloStep(run: seq<State>, t: nat, n: nat)
    requires n + 1 < |run|
  {
    Next(run[n], run[n + 1], t)
  }

  /** A run in which only thread `t` takes steps. */
  ghost predicate Solo(run: seq<State>, t: nat) {
    0 < |run| && forall n | 0 <= n < |run| - 1 :: SoloStep(run, t, n)
  }

  lemma SoloTwice(a: seq<State>, b: seq<State>, t: nat)
    requires Solo(a, t) && Solo(b, t) && a[|a| - 1] == b[0]
    ensures Solo(a + b[1..], t) && (a + b[1..])[0] == a[0] && (a + b[1..])[|a + b[1..]| - 1] == b[|b| - 1]
  {
    var c := a + b[1..];
    forall n | 0 <= n < |c| - 1 ensures SoloStep(c, t, n) {
      if n < |a| - 1 {
        assert SoloStep(a, t, n);
      } else {
        assert SoloStep(b, t, n - (|a| - 1));
      }
    }
  }

  /** Scanning past slots without the label. */
  lemma {:induction false} Scans(s: State, t: nat, tag: nat, i: nat, j: nat, guarded: bool) returns (run: seq<State>)
    requires Shape(s) && t < |s.threads| && i <= j <= LOCK_NUM && tag != 0
    requires forall k | i <= k < j :: s.labels[k] != tag
    ensures Solo(run, t) && run[0] == Goto(s, t, Scan(tag, i, guarded))
    ensures run[|run| - 1] == Goto(s, t, Scan(tag, j, guarded))
    decreases j - i
  {
    run := [Goto(s, t, Scan(tag, i, guarded))];
    if i < j {
      var rest := Scans(s, t, tag, i + 1, j, guarded);
      var step := [run[0], rest[0]];
      assert SoloStep(step, t, 0);
      SoloTwice(step, rest, t);
      run := step + rest[1..];
    }
  }

  /** Passing slots that are labelled or whose mutex is taken. */
  lemma {:induction false} Finds(s: State, t: nat, tag: nat, i: nat, j: nat) returns (run: seq<State>)
    requires Shape(s) && t < |s.threads| && i <= j <= LOCK_NUM && tag != 0
    requires forall k | i <= k < j :: s.labels[k] != 0 || s.owner[k].Some?
    ensures Solo(run, t) && run[0] == Goto(s, t, Find(tag, i)) && run[|run| - 1] == Goto(s, t, Find(tag, j))
    decreases j - i
  {
    run := [Goto(s, t, Find(tag, i))];
    if i < j {
      var rest := Finds(s, t, tag, i + 1, j);
      var step := if s.labels[i] != 0 then [run[0], rest[0]] else [run[0], Goto(s, t, Try(tag, i)), rest[0]];
      assert SoloStep(step, t, 0) && (|step| == 3 ==> SoloStep(step, t, 1));
      SoloTwice(step, rest, t);
      run := step + rest[1..];
    }
  }

  /** A label that is in the table is taken over if its mutex is free. */
  lemma TakesOver(s: State, t: nat, tag: nat, i: nat) returns (run: seq<State>)
    requires Inv(s) && t < |s.threads| && s.threads[t] == Idle && tag != 0
    requires i < LOCK_NUM && s.labels[i] == tag && s.owner[i].None?
    ensures Solo(run, t) && run[0] == s && run[|run| - 1] == TakeSlot(Goto(s, t, Holding(tag, i)), t, i)
  {
    var scan := Scans(s, t, tag, 0, i, false);
    var s3 := TakeSlot(Goto(s, t, Recheck(tag, i)), t, i);
    var tail := [Goto(s, t, Scan(tag, i, false)), Goto(s, t, Wait(tag, i)), s3,
                 TakeSlot(Goto(s, t, Holding(tag, i)), t, i)];
    assert SoloStep(tail, t, 0) && SoloStep(tail, t, 1) && SoloStep(tail, t, 2);
    SoloTwice(scan, tail, t);
    var head := [s, scan[0]];
    assert SoloStep(head, t, 0);
    SoloTwice(head, scan + tail[1..], t);
    run := head + (scan + tail[1..])[1..];
  }

  /** A label that is not in the table is put into the first slot that is free, if its guard is. */
  lemma TakesFree(s: State, t: nat, tag: nat, f: nat) returns (run: seq<State>)
    requires Inv(s) && t < |s.threads| && s.threads[t] == Idle && tag != 0
    requires AbsentBelow(s.labels, tag, LOCK_NUM) && s.guard[Guard(tag)].None?
    requires f < LOCK_NUM && s.labels[f] == 0 && s.owner[f].None?
    requires forall k | 0 <= k < f :: s.labels[k] != 0 || s.owner[k].Some?
    ensures Solo(run, t) && run[0] == s
    ensures run[|run| - 1] == Relabel(TakeSlot(Goto(s, t, Holding(tag, f)), t, f), f, tag)
  {
    var g := TakeGuard(s, t, tag);
    var scan := Scans(s, t, tag, 0, LOCK_NUM, false);
    var again := Scans(g, t, tag, 0, LOCK_NUM, true);
    var find := Finds(g, t, tag, 0, f);
    var a := [s, scan[0]];
    assert SoloStep(a, t, 0);
    SoloTwice(a, scan, t);
    a := a + scan[1..];
    var b := [a[|a| - 1], Goto(s, t, WantGuard(tag)), again[0]];
    assert SoloStep(b, t, 0) && SoloStep(b, t, 1);
    SoloTwice(a, b, t);
    a := a + b[1..];
    SoloTwice(a, again, t);
    a := a + again[1..];
    b := [a[|a| - 1], find[0]];
    assert SoloStep(b, t, 0);
    SoloTwice(a, b, t);
    a := a + b[1..];
    SoloTwice(a, find, t);
    a := a + find[1..];
    b := LabelsSlot(s, t, tag, f);
    SoloTwice(a, b, t);
    run := a + b[1..];
  }

  lemma LabelsSlot(s: State, t: nat, tag: nat, f: nat) returns (run: seq<State>)
    requires Shape(s) && t < |s.threads| && tag != 0 && s.guard[Guard(tag)].None?
    requires f < LOCK_NUM && s.labels[f] == 0 && s.owner[f].None?
    ensures Solo(run, t) && run[0] == Goto(TakeGuard(s, t, tag), t, Find(tag, f))
    ensures run[|run| - 1] == Relabel(TakeSlot(Goto(s, t, Holding(tag, f)), t, f), f, tag)
  {
    var g := TakeGuard(s, t, tag);
    var slot := TakeSlot(g, t, f);
    var done := Relabel(slot, f, tag);
    run := [Goto(g, t, Find(tag, f)), Goto(g, t, Try(tag, f)), Goto(slot, t, RecheckFree(tag, f)),
            Goto(slot, t, SetLabel(tag, f)), Goto(done, t, DropGuard(tag, f)),
            Relabel(TakeSlot(Goto(s, t, Holding(tag, f)), t, f), f, tag)];
    assert s.guard[Guard(tag) := Some(t)][Guard(tag) := None] == s.guard;
    assert SoloStep(run, t, 0) && SoloStep(run, t, 1) && SoloStep(run, t, 2);
    assert SoloStep(run, t, 3) && SoloStep(run, t, 4);
  }

  /** A thread alone can get the lock of any label: it takes over the slot that has the label if its mutex is free, and
      otherwise labels the first free slot, if its guard is free. */
  lemma LockFinishes(s: State, t: nat, tag: nat) returns (run: seq<State>)
    requires Inv(s) && t < |s.threads| && s.threads[t] == Idle && tag != 0 && s.guard[Guard(tag)].None?
    requires forall i | 0 <= i < LOCK_NUM && s.labels[i] == tag :: s.owner[i].None?
    requires exists f :: 0 <= f < LOCK_NUM && s.labels[f] == 0 && s.owner[f].None?
    ensures Solo(run, t) && run[0] == s && t < |run[|run| - 1].threads|
    ensures var s' := run[|run| - 1]; s'.threads[t].Holding? && s'.threads[t].tag == tag && s'.guard == s.guard
  {
    if i :| 0 <= i < LOCK_NUM && s.labels[i] == tag {
      run := TakesOver(s, t, tag, i);
    } else {
      var f := FirstFree(s);
      run := TakesFree(s, t, tag, f);
    }
  }

  lemma FirstFree(s: State) returns (f: nat)
    requires Shape(s) && exists f :: 0 <= f < LOCK_NUM && s.labels[f] == 0 && s.owner[f].None?
    ensures f < LOCK_NUM && s.labels[f] == 0 && s.owner[f].None?
    ensures forall k | 0 <= k < f :: s.labels[k] != 0 || s.owner[k].Some?
  {
    f := 0;
    while s.labels[f] != 0 || s.owner[f].Some?
      invariant f < LOCK_NUM && forall k | 0 <= k < f :: s.labels[k] != 0 || s.owner[k].Some?
      decreases LOCK_NUM - f
    {
      if f == LOCK_NUM - 1 {
        var g :| 0 <= g < LOCK_NUM && s.labels[g] == 0 && s.owner[g].None?;
        assert false;
      }
      f := f + 1;
    }
  }

  /** And it can give it back: with the label taken off, if the guard is free, or with the label left for others. */
  lemma UnlockFinishes(s: State, t: nat, keeps: bool) returns (run: seq<State>)
    requires Inv(s) && t < |s.threads| && s.threads[t].Holding? && (keeps || s.guard[Guard(s.threads[t].tag)].None?)
    ensures Solo(run, t) && run[0] == s && s.threads[t].i < LOCK_NUM
    ensures var i, s' := s.threads[t].i, FreeSlot(Goto(s, t, Idle), s.threads[t].i);
            run[|run| - 1] == if keeps then s' else Relabel(s', i, 0)
  {
    assert ThreadOk(s, t);
    var Holding(tag, i) := s.threads[t];
    if keeps {
      run := [s, Goto(s, t, HandOver(tag, i)), FreeSlot(Goto(s, t, Idle), i)];
      assert SoloStep(run, t, 0) && SoloStep(run, t, 1);
    } else {
      run := TakesLabelBack(s, t, tag, i);
    }
  }

  lemma TakesLabelBack(s: State, t: nat, tag: nat, i: nat) returns (run: seq<State>)
    requires Shape(s) && t < |s.threads| && s.threads[t] == Holding(tag, i) && i < LOCK_NUM && s.labels[i] == tag
    requires s.guard[Guard(tag)].None?
    ensures Solo(run, t) && run[0] == s && run[|run| - 1] == Relabel(FreeSlot(Goto(s, t, Idle), i), i, 0)
  {
    var g := TakeGuard(s, t, tag);
    var bare := Relabel(g, i, 0);
    run := [s, Goto(s, t, GetGuard(tag, i)), Goto(g, t, ClearLabel(tag, i)), Goto(bare, t, DropSlot(tag, i)),
            FreeSlot(Goto(bare, t, DropGuardAfter(tag)), i), Relabel(FreeSlot(Goto(s, t, Idle), i), i, 0)];
    assert s.guard[Guard(tag) := Some(t)][Guard(tag) := None] == s.guard;
    assert SoloStep(run, t, 0) && SoloStep(run, t, 1) && SoloStep(run, t, 2);
    assert SoloStep(run, t, 3) && SoloStep(run, t, 4);
  }
}
