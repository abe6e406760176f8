/** A mounted file system seen from outside: snapshots are made, removed and read by name. The list of snapshots and the
    overlays of one path, at `vpath` in the main space, go together. */
module Volume {
  import opened Base
  import opened Store
  import opened Saving
  import opened FileSystem
  import Chain
  import Paths
  import Runs

  class Mounted {
    const sn: Chain.Snapshots
    const fs: Esfs
    const vpath: string
    ghost var names: seq<string>   // the real paths of all snapshots ever made, oldest first

    ghost predicate Valid()
      reads this, sn, fs
    {
      && sn.Valid() && fs.Valid() && Paths.IsInPath(vpath) && Matching()
    }

    /** The list of snapshots has the names of the layers that are not removed, in reverse. */
    ghost predicate Matching()
      reads this, sn, fs
    {
      && |names| == |fs.layers| && fs.earliest <= |fs.layers| && |sn.live| == |fs.layers| - fs.earliest
      && (sn.isAny <==> sn.live != [])
      && forall i | 0 <= i < |sn.live| :: sn.live[i] == names[|names| - 1 - i]
    }

    /** The path is that of the file in the snapshot of layer `k`. */
    ghost predicate Names(path: string, k: nat)
      requires k < |names|
      reads this
    {
      exists id :: Paths.IsId(id) && path == Paths.SNDIR + id + vpath && names[k] == sn.snDir + id
    }

    /** The walk through the list does not give up before it gets to layer `k`. */
    ghost predicate Near(k: nat)
      reads this
    {
      k == |names| - 1 || |names| - k < Chain.MAX_SNAPSHOTS
    }

    constructor (sn: Chain.Snapshots, fs: Esfs, vpath: string)
      requires sn.Valid() && sn.live == [] && fs.Valid() && fs.layers == [] && Paths.IsInPath(vpath)
      ensures Valid() && this.sn == sn && this.fs == fs && this.vpath == vpath && names == []
    {
      this.sn, this.fs, this.vpath, names := sn, fs, vpath, [];
    }

    /** Operations on the file leave the list alone. */
    twostate lemma FileStep()
      requires old(Valid()) && fs.Valid() && unchanged(sn) && unchanged(this)
      requires |fs.layers| == |old(fs.layers)| && fs.earliest == old(fs.earliest)
      ensures Valid()
    {
    }

    /** Makes a snapshot with the given name, of the main file as it is. */
    method MakeSnapshot(id: string, io: bool) returns (s: Status)
      requires Valid() && Paths.IsId(id)
      modifies this, sn, fs
      ensures Valid() && fs.main == old(fs.main)
      ensures s == Success ==>
                && names == old(names) + [sn.snDir + id] && fs.truth == old(fs.truth) + [old(fs.main)]
                && fs.layers == old(fs.layers) + [None]
      ensures s != Success ==> names == old(names) && fs.truth == old(fs.truth) && fs.layers == old(fs.layers)
      ensures fs.earliest == old(fs.earliest) && fs.intact == old(fs.intact)
      ensures fs.snNumber == old(fs.snNumber) + if s == Success then 1 else 0
      ensures io ==>
                var path := sn.snDir + id;
                path !in old(sn.files) && path != sn.DirHid() && Chain.Hid(path) !in old(sn.files) ==> s == Success
    {
      s := sn.Create(sn.snDir + id, io);
      var _ := fs.SnCreate(s == Success);
      if s == Success {
        names := names + [sn.snDir + id];
      }
    }

    /** Removes the earliest snapshot; the parameters say what a removal that breaks off has already removed. */
    method RemoveSnapshot(mapGone: bool, datGone: bool, io: bool) returns (s: Status)
      requires Valid()
      modifies sn, fs
      ensures Valid() && fs.main == old(fs.main) && fs.truth == old(fs.truth) && fs.layers == old(fs.layers)
      ensures fs.earliest == old(fs.earliest) || fs.earliest == old(fs.earliest) + 1
      ensures s == Success ==> fs.earliest == old(fs.earliest) + 1
      ensures fs.intact == Max(old(fs.intact), fs.earliest) ||
              (s != Success && fs.earliest == old(fs.earliest) && fs.intact == |fs.layers|)
      ensures fs.snNumber == old(fs.snNumber)
      ensures io && 1 < |old(sn.live)| <= Chain.MAX_SNAPSHOTS && !old(sn.Blocked()) ==> s == Success
    {
      var begun;
      s, begun := sn.Destroy(io);
      RemoveLayer(s, begun, mapGone, datGone);
    }

    /** What the removal of a snapshot, as it went, does to the overlays. */
    method RemoveLayer(s: Status, begun: bool, mapGone: bool, datGone: bool)
      requires fs.Valid() && (begun ==> fs.AnySnapshot()) && (s == Success ==> begun)
      modifies fs
      ensures fs.Valid() && fs.main == old(fs.main) && fs.truth == old(fs.truth) && fs.layers == old(fs.layers)
      ensures fs.earliest ==
              old(fs.earliest) + if begun && (s == Success || old(fs.earliest) < |fs.layers| - 1) then 1 else 0
      ensures fs.intact == Max(old(fs.intact), fs.earliest) ||
              (s != Success && fs.earliest == old(fs.earliest) && fs.intact == |fs.layers|)
      ensures fs.snNumber == old(fs.snNumber)
    {
      var removal := if s == Success then Removes else if begun then BreaksOff(mapGone, datGone) else Refuses(s.error);
      var _, left := fs.SnDestroy(removal);
    }

    /** The layer of a snapshot of the given name, on which the walk through the list agrees. */
    lemma LayerOfName(target: string, k: nat, p: nat)
      requires Valid() && fs.earliest <= k < |names| && names[k] == target
      requires 1 <= p <= |sn.live| && sn.live[p - 1] == target
      ensures |fs.layers| - p == k
    {
      assert sn.live[|names| - 1 - k] == names[k];
    }

    /** The path leads to a name in the list, as long as the snapshot has not been removed. */
    lemma NameIsListed(path: string, k: nat)
      requires Valid() && Paths.InSnapshots(path) && fs.earliest <= k < |names| && Names(path, k)
      ensures Paths.Decompose(path).Full? && sn.snDir + Paths.Decompose(path).id == names[k]
      ensures sn.isAny && |names| - 1 - k < |sn.live| && sn.live[|names| - 1 - k] == names[k] && sn.Walk() == sn.live
    {
      var id :| Paths.IsId(id) && path == Paths.SNDIR + id + vpath && names[k] == sn.snDir + id;
      Paths.FullIffRebuilds(path, id, vpath);
    }

    /** Where a name leads: the layer of that snapshot. The path of the last snapshot removed still leads to the main
        file while there is none. */
    method Resolve(path: string, io: bool) returns (r: Result<nat>)
      requires Valid() && Paths.InSnapshots(path)
      ensures r.Ok? ==> fs.earliest <= r.value <= |fs.layers|
      ensures forall k | fs.earliest <= k < |names| && Names(path, k) ::
                (r.Ok? ==> r.value == k) && (io && Near(k) ==> r.Ok?)
    {
      var parts := Paths.Decompose(path);
      var asked := if parts.Full? then Some(sn.snDir + parts.id) else None;
      var p, steps := sn.GetPathsTo(asked, io);
      forall k | fs.earliest <= k < |names| && Names(path, k)
        ensures asked == Some(names[k]) && sn.isAny
        ensures p.Ok? ==> |fs.layers| - p.value == k
        ensures io && Near(k) ==> p.Ok?
      {
        NameIsListed(path, k);
        if p.Ok? {
          LayerOfName(names[k], k, p.value);
        }
      }
      if p.Err? {
        return Err(p.error);
      }
      return Ok(if sn.isAny then |fs.layers| - p.value else |fs.layers|);
    }

    /** Reading "/snapshots/ID/path" gives exactly the bytes the main file had when the snapshot ID was made, as long
        as no removal has touched that snapshot. */
    method Read(path: string, buf: array<Byte>, readsize: nat, readoffset: nat, io: bool) returns (r: Result<nat>)
      requires Valid() && Paths.InSnapshots(path) && readsize <= buf.Length
      modifies buf
      ensures forall k | fs.intact <= k < |names| && Names(path, k) && fs.truth[k].Some? && fs.truth[k].value != [] ::
                && (r.Ok? ==> ReadExactly(fs.truth[k].value, buf[..], readsize, readoffset, r.value))
                && (io && Near(k) ==> r.Ok?)
    {
      var layer := Resolve(path, io);
      if layer.Err? {
        return Err(layer.error);
      }
      r := Runs.ReadBack(fs, layer.value, buf, readsize, readoffset, io);
    }

    /** So does stat with its existence and size, whether or not it had contents. */
    method Stat(path: string, io: bool) returns (r: Result<nat>)
      requires Valid() && Paths.InSnapshots(path)
      ensures forall k | fs.intact <= k < |names| && Names(path, k) ::
                && (r.Ok? ==> SizeOf(fs.truth[k]) == Some(r.value))
                && (io && Near(k) ==> r == if fs.truth[k].Some? then Ok(|fs.truth[k].value|) else Err(ENOENT))
    {
      var layer := Resolve(path, io);
      if layer.Err? {
        return Err(layer.error);
      }
      if layer.value < |fs.layers| {
        r := fs.Getattr(layer.value, io);
      } else {
        r := if fs.main.Some? then Ok(|fs.main.value|) else Err(ENOENT);
      }
    }
  }

  // ---------------------------------------------------------------- whole runs

  /** Making a snapshot under a name, removing the earliest, or an operation on the file. */
  datatype Op = Make(id: string, io: bool) | Remove(mapGone: bool, datGone: bool, io: bool) | OnFile(op: Runs.Op)

  ghost predicate Effect(op: Op, out: Runs.Outcome, main: Option<File>, main': Option<File>) {
    if op.OnFile? then Runs.Effect(op.op, out, main, main') else main' == main
  }

  /** A snapshot: its real path, and the main file when it was made. */
  datatype Snapshot = Snapshot(name: string, main: Option<File>)

  /** The snapshots the first `n` operations made, oldest first. */
  ghost function Made(snDir: string, ops: seq<Op>, outs: seq<Runs.Outcome>, at: seq<Option<File>>, n: nat)
    : seq<Snapshot>
    requires n <= |ops| && n <= |outs| && n <= |at|
  {
    if n == 0 then []
    else
      Made(snDir, ops, outs, at, n - 1) +
      if ops[n - 1].Make? && outs[n - 1] == Runs.Done then [Snapshot(snDir + ops[n - 1].id, at[n - 1])] else []
  }

  /** How many snapshots left the list, with or without an error. */
  ghost function Removed(ops: seq<Op>, outs: seq<Runs.Outcome>, n: nat): nat
    requires n <= |ops| && n <= |outs|
  {
    if n == 0 then 0
    else
      var out := outs[n - 1];
      Removed(ops, outs, n - 1) + if ops[n - 1].Remove? && (out == Runs.Done || out == Runs.Dropped) then 1 else 0
  }

  /** The first snapshot that no removal has touched. */
  ghost function Untouched(snDir: string, ops: seq<Op>, outs: seq<Runs.Outcome>, at: seq<Option<File>>, n: nat): nat
    requires n <= |ops| && n <= |outs| && n <= |at|
  {
    if n == 0 then 0
    else if ops[n - 1].Remove? && outs[n - 1] == Runs.Damaged then |Made(snDir, ops, outs, at, n)|
    else Max(Untouched(snDir, ops, outs, at, n - 1), Removed(ops, outs, n))
  }

  lemma {:induction false} HistoryGrows(snDir: string, ops: seq<Op>, outs: seq<Runs.Outcome>, at: seq<Option<File>>,
                                        n: nat, out: Runs.Outcome, now: Option<File>)
    requires n <= |ops| && n <= |outs| && n <= |at|
    ensures Made(snDir, ops, outs + [out], at + [now], n) == Made(snDir, ops, outs, at, n)
    ensures Removed(ops, outs + [out], n) == Removed(ops, outs, n)
    ensures Untouched(snDir, ops, outs + [out], at + [now], n) == Untouched(snDir, ops, outs, at, n)
  {
    if n > 0 {
      HistoryGrows(snDir, ops, outs, at, n - 1, out, now);
    }
  }

  /** What the history says: every operation had its effect, and the snapshots are those made, with the names they were
      made under. */
  ghost predicate Tells(snDir: string, ops: seq<Op>, outs: seq<Runs.Outcome>, at: seq<Option<File>>,
                        names: seq<string>, truth: seq<Option<File>>, earliest: nat, intact: nat) {
    && |outs| <= |ops| && |at| == |outs| + 1
    && (forall i | 0 <= i < |outs| :: Effect(ops[i], outs[i], at[i], at[i + 1]))
    && var made := Made(snDir, ops, outs, at, |outs|);
    && |names| == |truth| == |made| && (forall k | 0 <= k < |made| :: made[k] == Snapshot(names[k], truth[k]))
    && earliest == Removed(ops, outs, |outs|) && intact == Untouched(snDir, ops, outs, at, |outs|)
  }

  lemma TellsNext(snDir: string, ops: seq<Op>, outs: seq<Runs.Outcome>, at: seq<Option<File>>, out: Runs.Outcome,
                  now: Option<File>, names: seq<string>, truth: seq<Option<File>>, earliest: nat, intact: nat)
    requires Tells(snDir, ops, outs, at, names, truth, earliest, intact) && |outs| < |ops|
    requires Effect(ops[|outs|], out, at[|outs|], now)
    ensures var op, makes := ops[|outs|], ops[|outs|].Make? && out == Runs.Done;
            var names' := names + if makes then [snDir + op.id] else [];
            var truth' := truth + if makes then [at[|outs|]] else [];
            var earliest' := earliest + if op.Remove? && (out == Runs.Done || out == Runs.Dropped) then 1 else 0;
            var intact' := if op.Remove? && out == Runs.Damaged then |truth'| else Max(intact, earliest');
            Tells(snDir, ops, outs + [out], at + [now], names', truth', earliest', intact')
  {
    HistoryGrows(snDir, ops, outs, at, |outs|, out, now);
    var outs', at' := outs + [out], at + [now];
    forall i | 0 <= i < |outs'| ensures Effect(ops[i], outs'[i], at'[i], at'[i + 1]) {
      if i < |outs| {
        assert Effect(ops[i], outs[i], at[i], at[i + 1]);
      }
    }
  }

  /** An operation on the file leaves the list alone. */
  method FileStep(v: Mounted, handles: seq<Mfd>, op: Runs.Op)
    returns (handles': seq<Mfd>, harmed: bool, ghost out: Runs.Outcome)
    requires v.Valid() && Runs.Good(v.fs, handles) && !op.SnCreate? && !op.SnDestroy?
    modifies v.fs, handles
    ensures v.fs.Sound() && harmed == (out == Runs.Harmed)
    ensures if harmed then !Runs.Faithful(v.fs) else v.Valid() && Runs.Good(v.fs, handles')
    ensures forall j | 0 <= j < |handles'| :: handles'[j] in handles || fresh(handles'[j])
    ensures Runs.Effect(op, out, old(v.fs.main), v.fs.main)
    ensures v.fs.truth == old(v.fs.truth) && v.fs.earliest == old(v.fs.earliest) && v.fs.intact == old(v.fs.intact)
  {
    handles', harmed, out := Runs.Step(v.fs, handles, op);
    if !harmed {
      v.FileStep();
    }
  }

  method MakeStep(v: Mounted, handles: seq<Mfd>, id: string, io: bool) returns (ghost out: Runs.Outcome)
    requires v.Valid() && Runs.Good(v.fs, handles)
    modifies v, v.sn, v.fs
    ensures v.Valid() && Runs.Good(v.fs, handles) && v.fs.main == old(v.fs.main) && out != Runs.Harmed
    ensures v.names == old(v.names) + if out == Runs.Done then [v.sn.snDir + id] else []
    ensures v.fs.truth == old(v.fs.truth) + if out == Runs.Done then [old(v.fs.main)] else []
    ensures v.fs.earliest == old(v.fs.earliest) && v.fs.intact == old(v.fs.intact)
  {
    out := Runs.Missed(false);
    if Paths.IsId(id) {
      var s := v.MakeSnapshot(id, io);
      out := if s == Success then Runs.Done else Runs.Missed(false);
      forall j | 0 <= j < |handles| ensures v.fs.Tracked(handles[j]) {
        v.fs.HandleStays(handles[j]);
      }
    }
  }

  method RemoveStep(v: Mounted, handles: seq<Mfd>, mapGone: bool, datGone: bool, io: bool)
    returns (ghost out: Runs.Outcome)
    requires v.Valid() && Runs.Good(v.fs, handles)
    modifies v.sn, v.fs
    ensures v.Valid() && Runs.Good(v.fs, handles) && v.fs.main == old(v.fs.main) && out != Runs.Harmed
    ensures v.fs.truth == old(v.fs.truth)
    ensures v.fs.earliest == old(v.fs.earliest) + if out == Runs.Done || out == Runs.Dropped then 1 else 0
    ensures v.fs.intact == if out == Runs.Damaged then |v.fs.truth| else Max(old(v.fs.intact), v.fs.earliest)
  {
    var s := v.RemoveSnapshot(mapGone, datGone, io);
    out := if s == Success then Runs.Done
           else if v.fs.earliest != old(v.fs.earliest) then Runs.Dropped
           else if v.fs.intact != Max(old(v.fs.intact), v.fs.earliest) then Runs.Damaged
           else Runs.Missed(false);
    forall j | 0 <= j < |handles| ensures v.fs.Tracked(handles[j]) {
      v.fs.HandleStays(handles[j]);
    }
  }

  /** One operation on the mounted file system. */
  method Step(v: Mounted, handles: seq<Mfd>, op: Op) returns (handles': seq<Mfd>, harmed: bool, ghost out: Runs.Outcome)
    requires v.Valid() && Runs.Good(v.fs, handles)
    modifies v, v.sn, v.fs, handles
    ensures v.fs.Sound() && harmed == (out == Runs.Harmed)
    ensures if harmed then !Runs.Faithful(v.fs) else v.Valid() && Runs.Good(v.fs, handles')
    ensures forall j | 0 <= j < |handles'| :: handles'[j] in handles || fresh(handles'[j])
    ensures Effect(op, out, old(v.fs.main), v.fs.main)
    ensures v.names == old(v.names) + if op.Make? && out == Runs.Done then [v.sn.snDir + op.id] else []
    ensures v.fs.truth == old(v.fs.truth) + if op.Make? && out == Runs.Done then [old(v.fs.main)] else []
    ensures v.fs.earliest ==
            old(v.fs.earliest) + if op.Remove? && (out == Runs.Done || out == Runs.Dropped) then 1 else 0
    ensures v.fs.intact ==
            if op.Remove? && out == Runs.Damaged then |v.fs.truth| else Max(old(v.fs.intact), v.fs.earliest)
  {
    handles', harmed, out := handles, false, Runs.Missed(false);
    match op
    case Make(id, io) =>
      out := MakeStep(v, handles, id, io);
    case Remove(mapGone, datGone, io) =>
      out := RemoveStep(v, handles, mapGone, datGone, io);
    case OnFile(o) =>
      if !o.SnCreate? && !o.SnDestroy? {
        handles', harmed, out := FileStep(v, handles, o);
      }
  }

  /** A new file system without snapshots. */
  method Empty(root: string, snDir: string, memory: string, vpath: string, main: Option<File>) returns (v: Mounted)
    requires memory != snDir + "/" && Paths.IsInPath(vpath)
    ensures fresh(v) && fresh(v.sn) && fresh(v.fs) && v.Valid() && v.sn.snDir == snDir && v.vpath == vpath
    ensures v.fs.main == main && v.names == [] && v.fs.truth == [] && v.fs.earliest == v.fs.intact == 0
  {
    var sn := new Chain.Snapshots(root, snDir, map[], memory, false, []);
    var fs := new Esfs(main);
    v := new Mounted(sn, fs, vpath);
  }

  /** The history ends with an operation that harmed a snapshot. */
  ghost predicate EndsInHarm(outs: seq<Runs.Outcome>) {
    outs != [] && outs[|outs| - 1] == Runs.Harmed
  }

  /** Any sequence of making and removing snapshots and operations on the file, failing anywhere, up to the first that
      harms a snapshot. `outs` says how each ended and `at` what the main file was before each and at the end. The state
      is valid afterwards, so that everything can be read by name, unless the last operation was harmful. */
  method Run(root: string, snDir: string, memory: string, vpath: string, main: Option<File>, ops: seq<Op>)
    returns (v: Mounted, harmed: bool, ghost outs: seq<Runs.Outcome>, ghost at: seq<Option<File>>)
    requires memory != snDir + "/" && Paths.IsInPath(vpath)
    ensures fresh(v) && v.sn.snDir == snDir && v.vpath == vpath && v.fs.Sound()
    ensures Tells(snDir, ops, outs, at, v.names, v.fs.truth, v.fs.earliest, v.fs.intact)
    ensures at[0] == main && at[|outs|] == v.fs.main
    ensures forall i | 0 <= i < |outs| - 1 :: outs[i] != Runs.Harmed
    ensures |outs| < |ops| ==> EndsInHarm(outs)
    ensures harmed == EndsInHarm(outs)
    ensures if harmed then !Runs.Faithful(v.fs) else v.Valid()
  {
    v := Empty(root, snDir, memory, vpath, main);
    outs, at, harmed := [], [main], false;
    var handles: seq<Mfd> := [];
    for i := 0 to |ops|
      invariant fresh(v) && fresh(v.sn) && fresh(v.fs) && forall j | 0 <= j < |handles| :: fresh(handles[j])
      invariant v.Valid() && Runs.Good(v.fs, handles) && v.sn.snDir == snDir && v.vpath == vpath
      invariant |outs| == i && Tells(snDir, ops, outs, at, v.names, v.fs.truth, v.fs.earliest, v.fs.intact)
      invariant at[0] == main && at[i] == v.fs.main
      invariant !harmed && forall j | 0 <= j < i :: outs[j] != Runs.Harmed
    {
      ghost var out;
      ghost var names, truth, earliest, intact := v.names, v.fs.truth, v.fs.earliest, v.fs.intact;
      handles, harmed, out := Step(v, handles, ops[i]);
      TellsNext(snDir, ops, outs, at, out, v.fs.main, names, truth, earliest, intact);
      outs, at := outs + [out], at + [v.fs.main];
      if harmed {
        return;
      }
    }
  }

  /** After any such run, reading "/snapshots/ID/path" gives exactly the bytes the main file had when ID was made, at
      every offset and length, as long as no removal has touched ID and the run did not end in harm; unless I/O fails,
      or there are too many snapshots since. */
  method ReadAfter(root: string, snDir: string, memory: string, vpath: string, main: Option<File>, ops: seq<Op>,
                   id: string, buf: array<Byte>, readsize: nat, readoffset: nat, io: bool)
    returns (r: Result<nat>, ghost outs: seq<Runs.Outcome>, ghost at: seq<Option<File>>)
    requires memory != snDir + "/" && Paths.IsInPath(vpath) && Paths.IsId(id) && readsize <= buf.Length
    modifies buf
    ensures |outs| <= |ops| && |at| == |outs| + 1 && at[0] == main
    ensures forall i | 0 <= i < |outs| :: Effect(ops[i], outs[i], at[i], at[i + 1])
    ensures |outs| < |ops| ==> EndsInHarm(outs)
    ensures var made := Made(snDir, ops, outs, at, |outs|);
            forall k | Untouched(snDir, ops, outs, at, |outs|) <= k < |made| && made[k].name == snDir + id ::
              !EndsInHarm(outs) && made[k].main.Some? && made[k].main.value != [] ==>
                && (r.Ok? ==> ReadExactly(made[k].main.value, buf[..], readsize, readoffset, r.value))
                && (io && (k == |made| - 1 || |made| - k < Chain.MAX_SNAPSHOTS) ==> r.Ok?)
  {
    var v, harmed;
    v, harmed, outs, at := Run(root, snDir, memory, vpath, main, ops);
    if harmed {
      return Err(EOther), outs, at;
    }
    var path := Paths.SNDIR + id + vpath;
    assert path[|Paths.SNDIR|] == id[0];
    r := v.Read(path, buf, readsize, readoffset, io);
    ghost var made := Made(snDir, ops, outs, at, |outs|);
    forall k | v.fs.intact <= k < |made| && made[k].name == snDir + id
      ensures v.Names(path, k) && v.fs.truth[k] == made[k].main
    {
      assert made[k] == Snapshot(v.names[k], v.fs.truth[k]);
    }
  }
}
