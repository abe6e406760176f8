/** Threads racing to open one path for writing for the first time after a snapshot was made of the version `was`.
    One of them creates the map and records the main file in its header; only a thread that has finished opening goes
    on to change the main file. A step is one access to shared state, and any system call may fail. */
module Openers {
  import opened Base

  /** The part of the map header that says what the snapshot was made of. */
  datatype Header = Header(existed: bool, size: nat)

  function HeaderOf(f: Option<File>): Header {
    if f.Some? then Header(true, |f.value|) else Header(false, 0)
  }

  /** The map file: not there, created but without its header yet, or with its header. */
  datatype MapFile = NoMap | Empty | Written(header: Header)

  datatype Pc =
    | Idle
    | Locking
    | OpenMap
    | Stat
    | WriteHeader(header: Header)
    | Remove
    | Load
    | Unlock(header: Header)
    | Abort
    | OpenDat(header: Header)
    | Opened(header: Header)

  /** `written` counts how often a header was written. */
  datatype State = State(mapFile: MapFile, dat: bool, main: Option<File>, lock: Option<nat>, written: nat,
      threads: seq<Pc>)

  predicate HoldsLock(pc: Pc) {
    pc.OpenMap? || pc.Stat? || pc.WriteHeader? || pc.Remove? || pc.Load? || pc.Unlock? || pc.Abort?
  }

  predicate Creating(pc: Pc) {
    pc.Stat? || pc.WriteHeader? || pc.Remove?
  }

  predicate NeedsDat(header: Header) {
    header.existed && header.size > 0
  }

  function Goto(s: State, t: nat, pc: Pc): State
    requires t < |s.threads|
  {
    s.(threads := s.threads[t := pc])
  }

  ghost predicate Next(s: State, s': State, t: nat) {
    && t < |s.threads|
    && match s.threads[t]
       case Idle => s' == Goto(s, t, Locking)
       case Locking => s.lock.None? && s' == Goto(s, t, OpenMap).(lock := Some(t))
       case OpenMap =>
         || s' == Goto(s, t, Abort)
         || (if s.mapFile.NoMap? then s' == Goto(s, t, Stat).(mapFile := Empty) else s' == Goto(s, t, Load))
       case Stat => s' == Goto(s, t, Remove) || s' == Goto(s, t, WriteHeader(HeaderOf(s.main)))
       case WriteHeader(header) =>
         || s' == Goto(s, t, Remove)
         || s' == Goto(s, t, Unlock(header)).(mapFile := Written(header), written := s.written + 1)
       case Remove => s' == Goto(s, t, Abort).(mapFile := NoMap)
       case Load =>
         || s' == Goto(s, t, Abort)
         || (s.mapFile.Written? && s' == Goto(s, t, Unlock(s.mapFile.header)))
       case Unlock(header) => s' == Goto(s, t, OpenDat(header)).(lock := None)
       case Abort => s' == Goto(s, t, Idle).(lock := None)
       case OpenDat(header) =>
         || s' == Goto(s, t, Idle)
         || s' == Goto(s, t, Opened(header)).(dat := s.dat || NeedsDat(header))
       case Opened(_) => s' == Goto(s, t, Idle) || exists main' :: s' == s.(main := main')
  }

  ghost predicate ThreadOk(s: State, was: Option<File>, t: nat)
    requires t < |s.threads|
  {
    var pc := s.threads[t];
    && (HoldsLock(pc) <==> s.lock == Some(t))
    && (Creating(pc) ==> s.mapFile == Empty)
    && (pc.WriteHeader? ==> pc.header == HeaderOf(was))
    && (pc.Load? ==> s.mapFile.Written?)
    && (pc.Unlock? || pc.OpenDat? || pc.Opened? ==> s.mapFile == Written(pc.header))
    && (pc.Opened? && NeedsDat(pc.header) ==> s.dat)
  }

  ghost predicate Inv(s: State, was: Option<File>) {
    && (forall t | 0 <= t < |s.threads| :: ThreadOk(s, was, t))
    && SharedOk(s, was)
    && (s.mapFile == Empty ==> s.lock.Some? && s.lock.value < |s.threads| && Creating(s.threads[s.lock.value]))
  }

  /** What a step of thread `t` may change that others depend on. */
  ghost predicate Confined(s: State, s': State, t: nat) {
    && t < |s.threads| == |s'.threads| && s'.threads == s.threads[t := s'.threads[t]]
    && (s'.mapFile == s.mapFile || (s.lock == Some(t) && !s.mapFile.Written?))
    && (s.dat ==> s'.dat)
    && (s'.lock == s.lock || (s.lock.None? && s'.lock == Some(t)) || (s.lock == Some(t) && s'.lock.None?))
  }

  /** The part of the invariant that is not about threads. */
  ghost predicate SharedOk(s: State, was: Option<File>) {
    match s.mapFile
    case Written(header) => header == HeaderOf(was) && s.written == 1
    case _ => s.main == was && s.written == 0
  }

  /** A step of a thread that is opening or creating the map, under the lock. */
  lemma MapStep(s: State, s': State, was: Option<File>, t: nat)
    requires t < |s.threads| && ThreadOk(s, was, t) && SharedOk(s, was) && Next(s, s', t) && HoldsLock(s.threads[t])
    requires s.mapFile == Empty ==> Creating(s.threads[t])
    ensures Confined(s, s', t) && ThreadOk(s', was, t) && SharedOk(s', was)
    ensures s'.mapFile == Empty ==> s'.lock == Some(t) && Creating(s'.threads[t])
  {
  }

  /** A step without the lock: getting it, opening the dat, or changing the main file. */
  lemma FreeStep(s: State, s': State, was: Option<File>, t: nat)
    requires t < |s.threads| && ThreadOk(s, was, t) && SharedOk(s, was) && Next(s, s', t) && !HoldsLock(s.threads[t])
    requires s.mapFile == Empty ==> s.lock.Some?
    ensures Confined(s, s', t) && ThreadOk(s', was, t) && SharedOk(s', was)
    ensures s'.mapFile == Empty ==> s.mapFile == Empty && s'.lock == s.lock != Some(t)
  {
  }

  lemma NextInv(s: State, s': State, was: Option<File>, t: nat)
    requires Inv(s, was) && Next(s, s', t)
    ensures Inv(s', was)
  {
    assert ThreadOk(s, was, t);
    if HoldsLock(s.threads[t]) {
      MapStep(s, s', was, t);
    } else {
      FreeStep(s, s', was, t);
    }
    forall u | 0 <= u < |s'.threads| && u != t ensures ThreadOk(s', was, u) {
      assert s'.threads[u] == s.threads[u] && ThreadOk(s, was, u);
    }
  }

  ghost predicate Init(s: State, was: Option<File>) {
    && s.mapFile == NoMap && s.main == was && s.lock.None? && s.written == 0
    && forall t | 0 <= t < |s.threads| :: s.threads[t] == Idle
  }

  ghost predicate Follows(s: State, s': State) {
    exists t :: Next(s, s', t)
  }

  ghost predicate StepAt(run: seq<State>, n: nat)
    requires n + 1 < |run|
  {
    Follows(run[n], run[n + 1])
  }

  /** Any interleaving: each state follows from the one before by a step of some thread. */
  ghost predicate IsRun(run: seq<State>, was: Option<File>) {
    0 < |run| && Init(run[0], was) && forall n | 0 <= n < |run| - 1 :: StepAt(run, n)
  }

  lemma {:induction false} RunInv(run: seq<State>, was: Option<File>, n: nat)
    requires IsRun(run, was) && n < |run|
    ensures Inv(run[n], was)
  {
    if n > 0 {
      RunInv(run, was, n - 1);
      assert StepAt(run, n - 1);
      var t :| Next(run[n - 1], run[n], t);
      NextInv(run[n - 1], run[n], was, t);
    }
  }

  /** In every state of every interleaving at most one header has been written, and if one has, it records the
      existence and size of the file when the snapshot was made; every thread that finished opening has read that
      header and found the dat it needs; and until a header is written the main file is unchanged. */
  lemma HeaderTruth(run: seq<State>, was: Option<File>, n: nat, t: nat)
    requires IsRun(run, was) && n < |run| && t < |run[n].threads|
    ensures run[n].written <= 1 && (run[n].written == 1 <==> run[n].mapFile.Written?)
    ensures run[n].mapFile.Written? ==> run[n].mapFile.header == HeaderOf(was)
    ensures !run[n].mapFile.Written? ==> run[n].main == was
    ensures run[n].threads[t].Opened? ==>
              run[n].threads[t].header == HeaderOf(was) && (NeedsDat(HeaderOf(was)) ==> run[n].dat)
  {
    RunInv(run, was, n);
    assert ThreadOk(run[n], was, t);
  }

  /** The main file is as the snapshot found it until a thread has finished opening. */
  lemma {:induction false} UntouchedTillOpened(run: seq<State>, was: Option<File>, n: nat)
    requires IsRun(run, was) && n < |run|
    requires forall i, t | 0 <= i < n && 0 <= t < |run[i].threads| :: !run[i].threads[t].Opened?
    ensures run[n].main == was
  {
    if n > 0 {
      UntouchedTillOpened(run, was, n - 1);
      assert StepAt(run, n - 1);
      var t: nat :| Next(run[n - 1], run[n], t);
      assert !run[n - 1].threads[t].Opened?;
    }
  }

  /** A thread that has finished opening has the header that is in the map. */
  lemma OpenedHasHeader(run: seq<State>, was: Option<File>, n: nat, t: nat)
    requires IsRun(run, was) && n < |run| && t < |run[n].threads| && run[n].threads[t].Opened?
    ensures run[n].mapFile == Written(run[n].threads[t].header)
  {
    RunInv(run, was, n);
    assert ThreadOk(run[n], was, t);
  }

  // ---------------------------------------------------------------- opening can be finished

  ghost predicate SoloStep(run: seq<State>, t: nat, n: nat)
    requires n + 1 < |run|
  {
    Next(run[n], run[n + 1], t)
  }

  /** A run in which only thread `t` takes steps. */
  ghost predicate Solo(run: seq<State>, t: nat) {
    0 < |run| && forall n | 0 <= n < |run| - 1 :: SoloStep(run, t, n)
  }

  /** A thread alone makes the map. */
  lemma MapMade(s: State, was: Option<File>, t: nat) returns (run: seq<State>)
    requires t < |s.threads| && s.threads[t] == Idle && s.lock.None? && s.mapFile.NoMap? && SharedOk(s, was)
    ensures Solo(run, t) && run[0] == s
    ensures var header := HeaderOf(was);
            run[|run| - 1] == Goto(s, t, Unlock(header)).(lock := Some(t), mapFile := Written(header), written := 1)
  {
    var header := HeaderOf(was);
    var s2 := Goto(s, t, OpenMap).(lock := Some(t));
    var made := s2.(mapFile := Empty);
    run := [s, Goto(s, t, Locking), s2, Goto(made, t, Stat), Goto(made, t, WriteHeader(header)),
            Goto(s, t, Unlock(header)).(lock := Some(t), mapFile := Written(header), written := 1)];
    assert SoloStep(run, t, 0) && SoloStep(run, t, 1) && SoloStep(run, t, 2);
    assert SoloStep(run, t, 3) && SoloStep(run, t, 4);
  }

  /** A thread alone opens the map that is there. */
  lemma MapLoaded(s: State, was: Option<File>, t: nat) returns (run: seq<State>)
    requires t < |s.threads| && s.threads[t] == Idle && s.lock.None? && s.mapFile.Written? && SharedOk(s, was)
    ensures Solo(run, t) && run[0] == s
    ensures run[|run| - 1] == Goto(s, t, Unlock(HeaderOf(was))).(lock := Some(t))
  {
    var s2 := Goto(s, t, OpenMap).(lock := Some(t));
    run := [s, Goto(s, t, Locking), s2, Goto(s2, t, Load), Goto(s, t, Unlock(HeaderOf(was))).(lock := Some(t))];
    assert SoloStep(run, t, 0) && SoloStep(run, t, 1) && SoloStep(run, t, 2) && SoloStep(run, t, 3);
  }

  /** In every state of every run in which the lock is free, a thread can finish opening on its own: it makes the map if
      there is none, and has the header of the version and the dat that needs. */
  lemma OpenerFinishes(s: State, was: Option<File>, t: nat) returns (run: seq<State>)
    requires Inv(s, was) && t < |s.threads| && s.threads[t] == Idle && s.lock.None?
    ensures Solo(run, t) && run[0] == s
    ensures var s' := run[|run| - 1];
            && |s'.threads| == |s.threads| && s'.threads[t] == Opened(HeaderOf(was)) && s'.lock.None?
            && s'.mapFile == Written(HeaderOf(was)) && s'.main == s.main
            && s'.dat == (s.dat || NeedsDat(HeaderOf(was)))
  {
    assert SharedOk(s, was) && s.mapFile != Empty;
    var first;
    if s.mapFile.NoMap? {
      first := MapMade(s, was, t);
    } else {
      first := MapLoaded(s, was, t);
    }
    var header, n := HeaderOf(was), |first|;
    var s1 := Goto(first[n - 1], t, OpenDat(header)).(lock := None);
    var s2 := Goto(s1, t, Opened(header)).(dat := s.dat || NeedsDat(header));
    run := first + [s1, s2];
    forall i | 0 <= i < |run| - 1 ensures SoloStep(run, t, i) {
      if i < n - 1 {
        assert SoloStep(first, t, i);
      }
    }
  }
}
