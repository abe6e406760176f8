/** Whole runs: any sequence of operations on a path, through any number of handles, with any I/O failures. */
module Runs {
  import opened Base
  import opened Store
  import opened Saving
  import opened Steps
  import opened FileSystem

  /** Operations on handles name them by position; a position that is not in use does nothing. */
  datatype Op =
    | Open(fault: OpenFault, opens: bool)
    | Create(fault: OpenFault, io: bool)
    | Write(handle: nat, data: File, offset: nat, fault: OpenFault, written: int, io: bool)
    | Ftruncate(handle: nat, newsize: nat, fault: OpenFault, io: bool)
    | Truncate(newsize: nat, io: bool)
    | Unlink(io: bool)
    | SnCreate(succeeds: bool)
    | SnDestroy(removal: Removal)

  /** How an operation ended: it was done; it failed, and perhaps tore a save off between writing to a dat file and
      publishing the pointer; it failed after the earliest snapshot had left the list, or with damage to the only one;
      or it was done without having saved what the latest snapshot needed. */
  datatype Outcome = Done | Missed(tears: bool) | Dropped | Damaged | Harmed

  ghost predicate Good(fs: Esfs, handles: seq<Mfd>)
    reads fs, handles
  {
    && fs.Valid() && (handles != [] ==> fs.main.Some?)
    && (forall i | 0 <= i < |handles| :: fs.Tracked(handles[i]))
    && forall i, j | 0 <= i < j < |handles| :: handles[i] != handles[j]
  }

  /** What an operation does to the main file. */
  ghost predicate Effect(op: Op, out: Outcome, main: Option<File>, main': Option<File>) {
    if out != Done && out != Harmed then main' == main
    else match op
      case Open(_, _) => main.Some? && main' == main
      case Create(_, _) => main' == Some([])
      case Write(_, data, offset, _, written, _) =>
        main.Some? && 0 <= written <= |data| && main' == Some(PWrite(main.value, offset, data[..written]))
      case Ftruncate(_, newsize, _, _) => main.Some? && main' == Some(Truncated(main.value, newsize))
      case Truncate(newsize, _) => main.Some? && main' == Some(Truncated(main.value, newsize))
      case Unlink(_) => main.Some? && main' == None
      case _ => main' == main
  }

  /** Which operations can end how. */
  ghost predicate CanEnd(op: Op, out: Outcome) {
    match out
    case Done => (op.SnCreate? ==> op.succeeds) && (op.SnDestroy? ==> op.removal.Removes?)
    case Missed(tears) => (op.SnCreate? ==> !op.succeeds) && (tears ==> !op.Open? && !op.SnCreate? && !op.SnDestroy?)
    case Dropped => op.SnDestroy? && op.removal.BreaksOff?
    case Damaged => op.SnDestroy? && op.removal.BreaksOff?
    case Harmed => op.Write? || op.Ftruncate?
  }

  /** Nothing stands in the way of the operation: there is what it is to work on, no I/O call fails, and whatever has
      to be saved can be. */
  ghost predicate Smooth(fs: Esfs, handles: seq<Mfd>, op: Op)
    reads fs, handles
  {
    match op
    case Open(fault, opens) => fault == NoFault && opens && fs.main.Some?
    case Create(fault, io) => fault == NoFault && io && fs.TakesSaves()
    case Write(i, data, _, fault, written, io) =>
      i < |handles| && fs.Honest(handles[i]) && fs.CanSave(handles[i], fault) && io && 0 <= written <= |data|
    case Ftruncate(i, _, fault, io) =>
      i < |handles| && fs.Honest(handles[i]) && fs.CanSave(handles[i], fault) && io
    case Truncate(_, io) => io && fs.main.Some? && fs.TakesSaves()
    case Unlink(io) => io && fs.main.Some? && fs.TakesSaves()
    case SnCreate(succeeds) => succeeds
    case SnDestroy(removal) => fs.AnySnapshot() && removal.Removes?
  }

  /** As long as no save was torn, the dat file of the latest snapshot takes blocks. */
  lemma UntornTakesSaves(fs: Esfs)
    requires fs.Sound() && !fs.torn
    ensures WholeTop(fs.layers) && (fs.Promised() || !fs.AnySnapshot() ==> fs.TakesSaves())
  {
  }

  /** Every snapshot no removal has touched shows the file as it was when the snapshot was made: stat reports its
      existence and size, and if it had contents, opening and reading it gives exactly those. */
  ghost predicate Faithful(fs: Esfs)
    reads fs
    requires |fs.truth| == |fs.layers|
  {
    forall k | fs.intact <= k < |fs.layers| :: Shows(fs.layers, fs.main, k, fs.truth[k])
  }

  lemma ValidIsFaithful(fs: Esfs)
    requires fs.Valid()
    ensures Faithful(fs)
  {
    var layers, vs := fs.layers, fs.truth + [fs.main];
    forall k | fs.intact <= k < |layers| ensures Shows(layers, fs.main, k, fs.truth[k]) {
      GetAttrIsVersion(layers, vs, k);
      if fs.truth[k].Some? && fs.truth[k].value != [] {
        FirstFileIsVersion(layers, vs, k);
        FreshReadsFirst(layers, vs, k, 0);
      }
    }
  }

  /** A change that does not spare what the latest snapshot needs is seen there. */
  lemma HarmIsSeen(fs: Esfs, before: Option<File>)
    requires fs.Sound() && LayersOk(fs.layers, fs.truth + [before], fs.intact) && !fs.Spared(before)
    ensures !Faithful(fs)
  {
    var k := |fs.layers| - 1;
    TopOk(fs.layers, fs.truth, before, fs.intact);
    ShowsIffUnharmed(fs.layers, fs.truth[k], before, fs.main);
  }

  // ---------------------------------------------------------------- one operation

  /** Opening for writing, or creating, adds a handle when it succeeds. */
  method OpenStep(fs: Esfs, handles: seq<Mfd>, op: Op) returns (handles': seq<Mfd>, ghost out: Outcome)
    requires Good(fs, handles) && (op.Open? || op.Create?)
    modifies fs
    ensures Good(fs, handles') && fs.truth == old(fs.truth) && fs.earliest == old(fs.earliest)
              && fs.intact == old(fs.intact)
    ensures Effect(op, out, old(fs.main), fs.main) && CanEnd(op, out) && (out == Done || out.Missed?)
    ensures if out != Done then handles' == handles
            else |handles'| == |handles| + 1 && handles'[..|handles|] == handles && fresh(handles'[|handles|])
    ensures Grows(old(fs.layers), fs.layers) && fs.torn == (old(fs.torn) || out == Missed(true))
    ensures old(Smooth(fs, handles, op)) ==> out == Done
  {
    var mfd := new Mfd();
    var s;
    if op.Create? {
      s := fs.Create(mfd, op.fault, op.io);
    } else {
      s := fs.Open(mfd, op.fault, op.opens);
    }
    out := if s == Success then Done else Missed(fs.torn != old(fs.torn));
    handles' := if s == Success then handles + [mfd] else handles;
    forall j | 0 <= j < |handles| ensures fs.Tracked(handles[j]) {
      fs.HandleStays(handles[j]);
    }
  }

  /** Writing or truncating through a handle. It harms the latest snapshot only if opening the map and dat for the
      handle has failed since that snapshot was made, and then it shows. */
  method HandleStep(fs: Esfs, handles: seq<Mfd>, i: nat, op: Op) returns (harmed: bool, ghost out: Outcome)
    requires Good(fs, handles) && i < |handles| && (op.Write? || op.Ftruncate?)
    modifies fs, handles[i]
    ensures fs.Sound() && fs.truth == old(fs.truth) && fs.earliest == old(fs.earliest) && fs.intact == old(fs.intact)
    ensures harmed == (out == Harmed) && (out != Harmed ==> Good(fs, handles))
    ensures out == Harmed ==> !old(fs.Honest(handles[i])) && !Faithful(fs)
    ensures Effect(op, out, old(fs.main), fs.main) && CanEnd(op, out) && !out.Dropped? && !out.Damaged?
    ensures Grows(old(fs.layers), fs.layers) && fs.torn == (old(fs.torn) || out == Missed(true))
    ensures op.handle == i && old(Smooth(fs, handles, op)) ==> out == Done
  {
    var failed: bool;
    var before := fs.main;
    if op.Write? {
      var r := fs.Write(handles[i], op.data, op.offset, op.fault, op.written, op.io);
      failed := r.Err?;
    } else {
      var s := fs.Ftruncate(handles[i], op.newsize, op.fault, op.io);
      failed := s != Success;
    }
    harmed := !failed && !fs.Spared(before);
    out := if failed then Missed(fs.torn != old(fs.torn)) else if harmed then Harmed else Done;
    if !harmed {
      forall j | 0 <= j < |handles| && j != i ensures fs.Tracked(handles[j]) {
        fs.HandleStays(handles[j]);
      }
    } else {
      HarmIsSeen(fs, before);
    }
  }

  /** Operations by path. All handles have to be given up when the file is unlinked. */
  method PathStep(fs: Esfs, handles: seq<Mfd>, op: Op) returns (handles': seq<Mfd>, ghost out: Outcome)
    requires Good(fs, handles) && (op.Truncate? || op.Unlink? || op.SnCreate? || op.SnDestroy?)
    modifies fs
    ensures Good(fs, handles') && handles' == if op.Unlink? && out == Done then [] else handles
    ensures Effect(op, out, old(fs.main), fs.main) && CanEnd(op, out) && out != Harmed
    ensures fs.truth == old(fs.truth) + if op.SnCreate? && out == Done then [old(fs.main)] else []
    ensures fs.earliest == old(fs.earliest) + if op.SnDestroy? && (out == Done || out == Dropped) then 1 else 0
    ensures fs.intact == if out == Damaged then |fs.truth| else Max(old(fs.intact), fs.earliest)
    ensures Grows(old(fs.layers), fs.layers) && fs.torn == (old(fs.torn) || out == Missed(true))
    ensures old(Smooth(fs, handles, op)) ==> out == Done
  {
    var s;
    ghost var leaves, damages := false, false;
    match op {
      case Truncate(newsize, io) =>
        s := fs.Truncate(newsize, io);
      case Unlink(io) =>
        s := fs.Unlink(io);
      case SnCreate(succeeds) =>
        s := fs.SnCreate(succeeds);
      case SnDestroy(removal) =>
        leaves, damages := fs.Leaves(removal), fs.Damages(removal);
        var left;
        s, left := fs.SnDestroy(removal);
    }
    out := if s == Success then Done else if leaves then Dropped else if damages then Damaged
           else Missed(fs.torn != old(fs.torn));
    handles' := if op.Unlink? && s == Success then [] else handles;
    forall j | 0 <= j < |handles| ensures fs.Tracked(handles[j]) {
      fs.HandleStays(handles[j]);
    }
  }

  /** One operation. Pointers once set never change, and dat files only grow. */
  method Step(fs: Esfs, handles: seq<Mfd>, op: Op) returns (handles': seq<Mfd>, harmed: bool, ghost out: Outcome)
    requires Good(fs, handles)
    modifies fs, handles
    ensures fs.Sound() && harmed == (out == Harmed) && (out != Harmed ==> Good(fs, handles'))
    ensures out == Harmed ==>
              && !Faithful(fs) && (op.Write? || op.Ftruncate?)
              && op.handle < |handles| && !old(fs.Honest(handles[op.handle]))
    ensures forall j | 0 <= j < |handles'| :: handles'[j] in handles || fresh(handles'[j])
    ensures Effect(op, out, old(fs.main), fs.main) && CanEnd(op, out)
    ensures fs.truth == old(fs.truth) + if op.SnCreate? && out == Done then [old(fs.main)] else []
    ensures fs.earliest == old(fs.earliest) + if op.SnDestroy? && (out == Done || out == Dropped) then 1 else 0
    ensures fs.intact == if out == Damaged then |fs.truth| else Max(old(fs.intact), fs.earliest)
    ensures Grows(old(fs.layers), fs.layers) && fs.torn == (old(fs.torn) || out == Missed(true))
    ensures old(Smooth(fs, handles, op)) ==> out == Done
  {
    handles', harmed, out := handles, false, Missed(false);
    match op
    case Open(_, _) =>
      handles', out := OpenStep(fs, handles, op);
    case Create(_, _) =>
      handles', out := OpenStep(fs, handles, op);
    case Write(i, _, _, _, _, _) =>
      if i < |handles| {
        harmed, out := HandleStep(fs, handles, i, op);
      }
    case Ftruncate(i, _, _, _) =>
      if i < |handles| {
        harmed, out := HandleStep(fs, handles, i, op);
      }
    case _ =>
      handles', out := PathStep(fs, handles, op);
  }

  // ---------------------------------------------------------------- whole runs

  /** The main file and the overlays between two operations. */
  datatype Moment = Moment(main: Option<File>, layers: Layers)

  /** The main file at the moments the first `n` operations made snapshots, oldest first. */
  ghost function Made(ops: seq<Op>, outs: seq<Outcome>, at: seq<Moment>, n: nat): seq<Option<File>>
    requires n <= |ops| && n <= |outs| && n <= |at|
  {
    if n == 0 then []
    else Made(ops, outs, at, n - 1) + if ops[n - 1].SnCreate? && outs[n - 1] == Done then [at[n - 1].main] else []
  }

  /** How many snapshots left the list in the first `n` operations, with or without an error. */
  ghost function Removed(ops: seq<Op>, outs: seq<Outcome>, n: nat): nat
    requires n <= |ops| && n <= |outs|
  {
    if n == 0 then 0
    else
      var out := outs[n - 1];
      Removed(ops, outs, n - 1) + if ops[n - 1].SnDestroy? && (out == Done || out == Dropped) then 1 else 0
  }

  /** The first snapshot that no removal has touched after `n` operations. */
  ghost function Untouched(ops: seq<Op>, outs: seq<Outcome>, at: seq<Moment>, n: nat): nat
    requires n <= |ops| && n <= |outs| && n <= |at|
  {
    if n == 0 then 0
    else if outs[n - 1] == Damaged then |Made(ops, outs, at, n)|
    else Max(Untouched(ops, outs, at, n - 1), Removed(ops, outs, n))
  }

  /** Later operations do not change what earlier ones made and removed. */
  lemma {:induction false} HistoryGrows(ops: seq<Op>, outs: seq<Outcome>, at: seq<Moment>, n: nat, out: Outcome,
      now: Moment)
    requires n <= |ops| && n <= |outs| && n <= |at|
    ensures Made(ops, outs + [out], at + [now], n) == Made(ops, outs, at, n)
    ensures Removed(ops, outs + [out], n) == Removed(ops, outs, n)
    ensures Untouched(ops, outs + [out], at + [now], n) == Untouched(ops, outs, at, n)
  {
    if n > 0 {
      HistoryGrows(ops, outs, at, n - 1, out, now);
    }
  }

  /** Each operation ended as it can and had its effect; pointers never change and dat files only grow, from any
      moment to any later one. */
  ghost predicate History(ops: seq<Op>, outs: seq<Outcome>, at: seq<Moment>) {
    && |outs| <= |ops| && |at| == |outs| + 1
    && (forall i | 0 <= i < |outs| :: CanEnd(ops[i], outs[i]) && Effect(ops[i], outs[i], at[i].main, at[i + 1].main))
    && forall i, j | 0 <= i <= j < |at| :: Grows(at[i].layers, at[j].layers)
  }

  lemma HistoryStep(ops: seq<Op>, outs: seq<Outcome>, at: seq<Moment>, out: Outcome, now: Moment)
    requires History(ops, outs, at) && |outs| < |ops| && CanEnd(ops[|outs|], out)
    requires Effect(ops[|outs|], out, at[|outs|].main, now.main) && Grows(at[|outs|].layers, now.layers)
    ensures History(ops, outs + [out], at + [now])
  {
    var n, outs', at' := |outs|, outs + [out], at + [now];
    forall i, j | 0 <= i <= j < |at'| ensures Grows(at'[i].layers, at'[j].layers) {
      if i <= n < j {
        GrowsTwice(at[i].layers, at[n].layers, now.layers);
      }
    }
    forall i | 0 <= i < |outs'|
      ensures CanEnd(ops[i], outs'[i]) && Effect(ops[i], outs'[i], at'[i].main, at'[i + 1].main)
    {
      if i < n {
        assert Effect(ops[i], outs[i], at[i].main, at[i + 1].main);
      }
    }
  }

  /** What the history says about the snapshots. */
  ghost predicate Tells(ops: seq<Op>, outs: seq<Outcome>, at: seq<Moment>,
                        truth: seq<Option<File>>, earliest: nat, intact: nat, torn: bool) {
    && |outs| <= |ops| && |at| == |outs| + 1
    && truth == Made(ops, outs, at, |outs|)
    && earliest == Removed(ops, outs, |outs|) && intact == Untouched(ops, outs, at, |outs|)
    && (torn <==> Missed(true) in outs)
  }

  lemma TellsNext(ops: seq<Op>, outs: seq<Outcome>, at: seq<Moment>, out: Outcome, now: Moment,
                  truth: seq<Option<File>>, earliest: nat, intact: nat, torn: bool)
    requires Tells(ops, outs, at, truth, earliest, intact, torn) && |outs| < |ops|
    ensures var op, main := ops[|outs|], at[|outs|].main;
            var truth' := truth + if op.SnCreate? && out == Done then [main] else [];
            var earliest' := earliest + if op.SnDestroy? && (out == Done || out == Dropped) then 1 else 0;
            var intact' := if out == Damaged then |truth'| else Max(intact, earliest');
            Tells(ops, outs + [out], at + [now], truth', earliest', intact', torn || out == Missed(true))
  {
    HistoryGrows(ops, outs, at, |outs|, out, now);
  }

  /** The state is the one the history leads to. */
  ghost predicate Reached(fs: Esfs, ops: seq<Op>, outs: seq<Outcome>, at: seq<Moment>)
    reads fs
  {
    && Tells(ops, outs, at, fs.truth, fs.earliest, fs.intact, fs.torn)
    && at[|outs|] == Moment(fs.main, fs.layers)
  }

  /** Snapshot fidelity over whole runs, from a new file system with one file or none. The run goes through all the
      operations, or up to the first that harms a snapshot. `outs` says how each of them ended and `at` how things
      were before each and at the end. The snapshots are of the main file at the moments they were made; those that no
      removal has touched all show it, unless the last operation was harmful; and unless a save was torn, each dat
      file has exactly the blocks pointed to. */
  method Run(main: Option<File>, ops: seq<Op>) returns (fs: Esfs, ghost outs: seq<Outcome>, ghost at: seq<Moment>)
    ensures fresh(fs) && fs.Sound() && History(ops, outs, at) && at[0] == Moment(main, []) && Reached(fs, ops, outs, at)
    ensures forall i | 0 <= i < |outs| - 1 :: outs[i] != Harmed
    ensures |outs| < |ops| ==> |outs| > 0 && outs[|outs| - 1] == Harmed
    ensures Faithful(fs) <==> |outs| == 0 || outs[|outs| - 1] != Harmed
    ensures |outs| == 0 || outs[|outs| - 1] != Harmed ==> fs.Valid()
    ensures Missed(true) !in outs ==> AllDense(fs.layers)
  {
    fs := new Esfs(main);
    outs, at := [], [Moment(main, [])];
    var handles: seq<Mfd> := [];
    for i := 0 to |ops|
      invariant fresh(fs) && Good(fs, handles) && forall j | 0 <= j < |handles| :: fresh(handles[j])
      invariant |outs| == i && History(ops, outs, at) && at[0] == Moment(main, []) && Reached(fs, ops, outs, at)
      invariant Harmed !in outs
    {
      var harmed;
      handles, harmed, outs, at := RunStep(fs, handles, ops, outs, at, i);
      if harmed {
        return;
      }
    }
    ValidIsFaithful(fs);
  }

  /** One more operation of a run. */
  method RunStep(fs: Esfs, handles: seq<Mfd>, ops: seq<Op>, ghost outs: seq<Outcome>, ghost at: seq<Moment>, i: nat)
    returns (handles': seq<Mfd>, harmed: bool, ghost outs': seq<Outcome>, ghost at': seq<Moment>)
    requires Good(fs, handles) && i == |outs| < |ops| && History(ops, outs, at) && Reached(fs, ops, outs, at)
    modifies fs, handles
    ensures fs.Sound() && |outs'| == i + 1 && outs' == outs + [outs'[i]] && harmed == (outs'[i] == Harmed)
    ensures History(ops, outs', at') && Reached(fs, ops, outs', at') && at'[0] == at[0]
    ensures if harmed then !Faithful(fs) else Good(fs, handles')
    ensures forall j | 0 <= j < |handles'| :: handles'[j] in handles || fresh(handles'[j])
  {
    ghost var out;
    ghost var truth, earliest, intact, torn := fs.truth, fs.earliest, fs.intact, fs.torn;
    handles', harmed, out := Step(fs, handles, ops[i]);
    ghost var now := Moment(fs.main, fs.layers);
    TellsNext(ops, outs, at, out, now, truth, earliest, intact, torn);
    HistoryStep(ops, outs, at, out, now);
    outs', at' := outs + [out], at + [now];
  }

  /** Opening and reading a file that had contents gives them back, at every offset and length, unless I/O fails. */
  method ReadBack(fs: Esfs, k: nat, buf: array<Byte>, readsize: nat, readoffset: nat, io: bool) returns (r: Result<nat>)
    requires fs.Valid() && k <= |fs.layers| && readsize <= buf.Length
    modifies buf
    ensures fs.intact <= k < |fs.layers| && fs.truth[k].Some? && fs.truth[k].value != [] ==>
              && (io ==> r.Ok?)
              && (r.Ok? ==> ReadExactly(fs.truth[k].value, buf[..], readsize, readoffset, r.value))
  {
    ghost var vs := fs.truth + [fs.main];
    if fs.intact <= k < |fs.layers| && fs.truth[k].Some? && fs.truth[k].value != [] {
      FirstFileIsVersion(fs.layers, vs, k);
      FreshReadsFirst(fs.layers, vs, k, fs.snNumber);
    }
    var handle := fs.GetSnSteps(k, 0, io);
    if handle.Err? {
      return Err(handle.error);
    }
    r := fs.Read(handle.value, buf, readsize, readoffset, io);
  }

  // ---------------------------------------------------------------- a handle whose re-opening failed

  /** A file is opened for writing, a snapshot is made, and the first write fails while opening the map for it. The
      second write succeeds without saving anything: the snapshot shows the file exactly if the bytes written are
      those the file had. */
  method StaleHandle(f: File, data: File, offset: nat) returns (fs: Esfs)
    ensures fresh(fs) && fs.Sound() && fs.truth == [Some(f)] && fs.earliest == fs.intact == 0
    ensures fs.main == Some(PWrite(f, offset, data)) && fs.layers == [None]
    ensures Faithful(fs) <==> WritesSame(f, offset, data)
  {
    fs := new Esfs(Some(f));
    var mfd := new Mfd();
    var s := fs.Open(mfd, NoFault, true);
    s := fs.SnCreate(true);
    var r := fs.Write(mfd, data, offset, AtPath, |data|, true);
    assert r.Err? && mfd.snNumber == fs.snNumber && mfd.datfd == NoSn;
    r := fs.Write(mfd, data, offset, NoFault, |data|, true);
    assert data[..|data|] == data;
    UnsavedWrite(fs, f, data, offset);
  }

  lemma UnsavedWrite(fs: Esfs, f: File, data: File, offset: nat)
    requires fs.Sound() && fs.truth == [Some(f)] && fs.layers == [None] && fs.intact == 0
    requires fs.main == Some(PWrite(f, offset, data)) && LayersOk(fs.layers, fs.truth + [Some(f)], 0)
    ensures Faithful(fs) <==> WritesSame(f, offset, data)
  {
    WritesSameIff(f, offset, data);
    if fs.Spared(Some(f)) {
      assert fs.main == Some(f);
      ValidIsFaithful(fs);
    } else {
      HarmIsSeen(fs, Some(f));
    }
  }

  /** So overwriting the only byte of a file loses it. */
  method StaleHandleExample() returns (fs: Esfs)
    ensures fresh(fs) && fs.truth == [Some([0])] && fs.main == Some([1]) && fs.intact == 0 < |fs.layers| == |fs.truth|
    ensures !Faithful(fs)
  {
    fs := StaleHandle([0], [1], 0);
    assert PWrite([0], 0, [1]) == [1];
    WritesSameIff([0], 0, [1]);
  }

  // ---------------------------------------------------------------- a handle kept open in a snapshot

  /** A snapshot is made of a file, the file is opened in the snapshot, and then it is opened for writing and written
      to, without any I/O error. The snapshot still shows the file as it was, but the handle opened before reads it so
      exactly if none of its bytes was overwritten by another. */
  method KeptHandle(f: File, data: File, offset: nat) returns (fs: Esfs, h: SnHandle, r: Result<nat>)
    requires f != []
    ensures fresh(fs) && fs.Valid() && fs.truth == [Some(f)] && fs.intact == 0 && Faithful(fs)
    ensures r == Ok(|data|) && fs.main == Some(PWrite(f, offset, data))
    ensures ReadsAs(h, fs.layers, fs.main, f) <==>
            forall p: nat | p < |f| && offset <= p < offset + |data| :: data[p - offset] == f[p]
  {
    fs, h := OpenedInSnapshot(f);
    var mfd := new Mfd();
    var s := fs.Open(mfd, NoFault, true);
    r := fs.Write(mfd, data, offset, NoFault, |data|, true);
    assert data[..|data|] == data;
    ValidIsFaithful(fs);
    BlindHandle(h, fs.layers, f, data, offset);
  }

  method OpenedInSnapshot(f: File) returns (fs: Esfs, h: SnHandle)
    ensures fresh(fs) && fs.Valid() && fs.truth == [Some(f)] && fs.intact == 0
    ensures fs.layers == [None] && fs.main == Some(f)
    ensures h == OpenHandle([None], Some(f), 0, fs.snNumber)
  {
    fs := new Esfs(Some(f));
    var s := fs.SnCreate(true);
    var opening := fs.GetSnSteps(0, 0, true);
    h := opening.value;
    assert FirstFile([None], 1) == 1 == FirstFile([None], 0);
  }

  /** A handle that has no map open reads the main file. */
  lemma BlindHandle(h: SnHandle, layers: Layers, f: File, data: File, offset: nat)
    requires |layers| == 1 && h == OpenHandle([None], Some(f), 0, h.snNumber)
    ensures ReadsAs(h, layers, Some(PWrite(f, offset, data)), f) <==>
            forall p: nat | p < |f| && offset <= p < offset + |data| :: data[p - offset] == f[p]
  {
    var main' := Some(PWrite(f, offset, data));
    assert FirstFile([None], 1) == 1 == FirstFile([None], 0);
    forall p: nat | p < |f|
      ensures LookupVia(h, layers, main', p) == Some(f[p]) <==>
              !(offset <= p < offset + |data| && data[p - offset] != f[p])
    {
      WriteChanges(f, offset, data, p);
    }
  }
}
