/** The list of snapshots of snapshot.c, kept in pointer files: the latest snapshot is cached in memory, and each
    snapshot but the earliest has a file next to it, named like it with ".hid" appended, that names the one before. */
module Chain {
  import opened Base

  const MAX_SNAPSHOTS: nat := 1024 * 1024

  /** What a name in the snapshots directory stands for: a directory, a pointer file, or a pointer file whose
      contents were not written in full. */
  datatype Node = Dir | Pointer(target: string) | Torn

  /** The pointer file of a snapshot. */
  function Hid(path: string): string {
    path + ".hid"
  }

  lemma HidInjective(p: string, q: string)
    requires Hid(p) == Hid(q)
    ensures p == q
  {
    assert p == Hid(p)[..|p|] && |p| == |Hid(p)| - 4;
    assert q == Hid(q)[..|q|] && |q| == |Hid(q)| - 4;
  }

  /** Each snapshot of the list is a directory, the pointer files are exactly those of the snapshots that are not the
      earliest, and each names the next older one. The earliest has none, though a snapshot may bear its name. */
  ghost predicate ChainOk(files: map<string, Node>, live: seq<string>, snDir: string) {
    && (forall j | 0 <= j < |live| :: live[j] != snDir + "/" && live[j] in files && files[live[j]] == Dir)
    && (forall i, j | 0 <= i < j < |live| :: live[i] != live[j])
    && (forall i | 0 <= i < |live| - 1 :: Linked(files, live, i))
    && (forall f | f in files && files[f] != Dir :: f == snDir + "/.hid" || HasPointer(live, f))
  }

  ghost predicate Linked(files: map<string, Node>, live: seq<string>, i: nat)
    requires i < |live| - 1
  {
    Hid(live[i]) in files && files[Hid(live[i])] == Pointer(live[i + 1])
  }

  /** `f` is the pointer file of a snapshot of the list that is not the earliest. */
  ghost predicate HasPointer(live: seq<string>, f: string) {
    exists j :: 0 <= j < |live| - 1 && f == Hid(live[j])
  }

  /** A new latest snapshot lengthens the list. */
  lemma Extended(files: map<string, Node>, live: seq<string>, snDir: string, path: string)
    requires ChainOk(files, live, snDir) && path !in files && path != snDir + "/" && path != snDir + "/.hid"
    requires live != [] ==> Hid(path) !in files
    requires snDir + "/.hid" in files ==> files[snDir + "/.hid"] != Dir
    ensures var made := if live == [] then files[path := Dir] else files[path := Dir][Hid(path) := Pointer(live[0])];
            ChainOk(made[snDir + "/.hid" := Pointer(path)], [path] + live, snDir)
  {
    var live' := [path] + live;
    var made := if live == [] then files[path := Dir] else files[path := Dir][Hid(path) := Pointer(live[0])];
    var files' := made[snDir + "/.hid" := Pointer(path)];
    forall q | q == path || q in live ensures Hid(q) != snDir + "/.hid" {
      NotDirHid(q, snDir);
    }
    forall i | 0 <= i < |live'| - 1 ensures Linked(files', live', i) {
      if i > 0 {
        assert Linked(files, live, i - 1) && live'[i] == live[i - 1] && live'[i + 1] == live[i];
        if Hid(live[i - 1]) == Hid(path) {
          HidInjective(live[i - 1], path);
        }
      }
    }
    forall f | f in files' && files'[f] != Dir ensures f == snDir + "/.hid" || HasPointer(live', f) {
      if f in files && f != snDir + "/.hid" {
        var j :| 0 <= j < |live| - 1 && f == Hid(live[j]);
        assert live'[j + 1] == live[j];
      } else if f != snDir + "/.hid" {
        assert f == Hid(live'[0]);
      }
    }
  }

  /** The pointer file to the latest snapshot is not part of the list. */
  lemma LatestIsApart(files: map<string, Node>, live: seq<string>, snDir: string, files': map<string, Node>)
    requires ChainOk(files, live, snDir) && files' - {snDir + "/.hid"} == files - {snDir + "/.hid"}
    requires snDir + "/.hid" in files ==> files[snDir + "/.hid"] != Dir
    ensures ChainOk(files', live, snDir)
  {
    var d := snDir + "/.hid";
    forall f | f != d ensures (f in files' <==> f in files) && (f in files ==> files'[f] == files[f]) {
      assert f in files' <==> f in files' - {d};
      assert f in files <==> f in files - {d};
      assert f in files ==> files[f] == (files - {d})[f] == (files' - {d})[f] == files'[f];
    }
    forall i | 0 <= i < |live| - 1 ensures Linked(files', live, i) {
      assert Linked(files, live, i);
      NotDirHid(live[i], snDir);
    }
  }

  /** Without the pointer to the earliest, the list ends one snapshot sooner, whether or not the snapshot itself is
      removed. */
  lemma Shortened(files: map<string, Node>, live: seq<string>, snDir: string, removed: set<string>)
    requires ChainOk(files, live, snDir) && |live| > 1 && removed <= {live[|live| - 1]}
    ensures ChainOk(files - {Hid(live[|live| - 2])} - removed, live[..|live| - 1], snDir)
  {
    var n, live' := |live| - 1, live[..|live| - 1];
    var files' := files - {Hid(live[n - 1])} - removed;
    assert forall j | 0 <= j < n :: live[j] != live[n];
    assert Linked(files, live, n - 1);
    forall i | 0 <= i < n - 1 ensures Linked(files', live', i) {
      assert Linked(files, live, i);
      if Hid(live[i]) == Hid(live[n - 1]) {
        HidInjective(live[i], live[n - 1]);
      }
    }
    forall f | f in files' && files'[f] != Dir ensures f == snDir + "/.hid" || HasPointer(live', f) {
      if f != snDir + "/.hid" {
        assert HasPointer(live, f);
        var j :| 0 <= j < |live| - 1 && f == Hid(live[j]);
        assert live'[j] == live[j];
      }
    }
  }

  lemma NotDirHid(path: string, snDir: string)
    requires path != snDir + "/"
    ensures Hid(path) != snDir + "/.hid"
  {
    if Hid(path) == snDir + "/.hid" {
      assert snDir + "/.hid" == Hid(snDir + "/");
      HidInjective(path, snDir + "/");
    }
  }

  datatype Reading = Missing | Unreadable(error: Errno) | Target(path: string)

  /** Reads a snapshot path from a pointer file. */
  function ReadSnDir(files: map<string, Node>, path: string): Reading {
    if path !in files then Missing
    else match files[path]
      case Dir => Unreadable(EISDIR)
      case Torn => Unreadable(EIO)
      case Pointer(target) => Target(target)
  }

  /** The snapshots visited by following pointer files from a path, at most `n` of them. */
  function Visit(files: map<string, Node>, path: string, n: nat): seq<string>
    decreases n
  {
    if n == 0 then [] else
      match ReadSnDir(files, Hid(path))
      case Target(earlier) => [path] + Visit(files, earlier, n - 1)
      case _ => [path]
  }

  /** The pointer file of the earliest snapshot cannot be read as a pointer. */
  lemma EarliestHasNoPointer(files: map<string, Node>, live: seq<string>, snDir: string)
    requires ChainOk(files, live, snDir) && live != []
    ensures ReadSnDir(files, Hid(live[|live| - 1])) ==
            if Hid(live[|live| - 1]) in files then Unreadable(EISDIR) else Missing
  {
    var last := live[|live| - 1];
    if Hid(last) in files && files[Hid(last)] != Dir {
      NotDirHid(last, snDir);
      assert HasPointer(live, Hid(last));
      var i :| 0 <= i < |live| - 1 && Hid(last) == Hid(live[i]);
      HidInjective(last, live[i]);
    }
  }

  /** Following the pointers from any snapshot visits it and every older one, once each, newest to oldest. */
  lemma {:induction false} VisitIsList(files: map<string, Node>, live: seq<string>, snDir: string, i: nat, n: nat)
    requires ChainOk(files, live, snDir) && i < |live| && |live| - i <= n
    ensures Visit(files, live[i], n) == live[i..]
    decreases n
  {
    if i < |live| - 1 {
      assert Linked(files, live, i);
      VisitIsList(files, live, snDir, i + 1, n - 1);
      assert live[i..] == [live[i]] + live[i + 1..];
    } else {
      EarliestHasNoPointer(files, live, snDir);
    }
  }

  /** A snapshot may be named like the pointer file of the earliest, and then the end of the list is not found. */
  lemma BlockedExample()
    ensures exists files, live, snDir :: ChainOk(files, live, snDir) && live != [] &&
              ReadSnDir(files, Hid(live[|live| - 1])) == Unreadable(EISDIR)
  {
    var live := ["/r/snapshots/a.hid", "/r/snapshots/a"];
    var files := map[live[0] := Dir, live[1] := Dir, Hid(live[0]) := Pointer(live[1])];
    assert Hid(live[1]) == live[0];
    assert |Hid(live[0])| == 22 && |live[0]| == 18 && |live[1]| == 14;
    assert Linked(files, live, 0);
    assert HasPointer(live, Hid(live[0]));
    assert ChainOk(files, live, "/r/snapshots");
  }

  /** What the pointer to the latest snapshot says when nothing has gone wrong. */
  function Latest(live: seq<string>): Reading {
    if live == [] then Missing else Target(live[0])
  }

  /** What it may say: the latest snapshot; nothing it can be read for, after a torn write; or it may be missing while
      there is one snapshot, after a removal that broke off. */
  ghost predicate Recorded(files: map<string, Node>, live: seq<string>, snDir: string) {
    match ReadSnDir(files, snDir + "/.hid")
    case Missing => |live| <= 1
    case Unreadable(e) => e == EIO
    case Target(path) => live != [] && path == live[0]
  }

  /** Removing what was made for a new snapshot leaves at most the pointer to the latest one torn. */
  lemma Cleaned(before: map<string, Node>, path: string, hid: string, node: Node, dirHid: string,
                after: map<string, Node>)
    requires path !in before && hid !in before && hid != dirHid && hid != path
    requires var made := before[path := Dir][hid := node];
             after == made || (path != dirHid && after == made[dirHid := Torn])
    ensures after - {hid} - {path} == before || after - {hid} - {path} == before[dirHid := Torn]
  {
  }

  /** Removing the earliest of several snapshots does not concern the pointer to the latest. */
  lemma RecordStays(files: map<string, Node>, live: seq<string>, snDir: string, removed: set<string>)
    requires ChainOk(files, live, snDir) && Recorded(files, live, snDir) && |live| > 1 && removed <= {live[|live| - 1]}
    ensures Recorded(files - {Hid(live[|live| - 2])} - removed, live[..|live| - 1], snDir)
  {
    NotDirHid(live[|live| - 2], snDir);
    assert live[|live| - 1] != snDir + "/.hid";
    assert live[..|live| - 1][0] == live[0];
  }

  datatype Earliest =
    | NoSnapshots
    | OnlyOne(path: string)
    | Several(path: string, pointer: string)
    | Broken(error: Errno)

  class Snapshots {
    const root: string
    const snDir: string
    var files: map<string, Node>
    var latDir: string
    var isAny: bool
    var snNumber: nat
    ghost var live: seq<string>   // the snapshots there are, newest first

    function DirHid(): string {
      snDir + "/.hid"
    }

    /** Real paths of snapshots are the snapshots directory, a slash and a name, which is not empty. */
    predicate IsSnapshotPath(path: string) {
      path != snDir + "/"
    }

    ghost predicate Valid()
      reads this
    {
      && (isAny <==> live != []) && (isAny ==> latDir == live[0]) && IsSnapshotPath(latDir)
      && ChainOk(files, live, snDir) && Recorded(files, live, snDir)
    }

    constructor (root: string, snDir: string, files: map<string, Node>, latDir: string, isAny: bool,
        ghost live: seq<string>)
      ensures this.root == root && this.snDir == snDir && this.files == files && this.live == live
      ensures this.latDir == latDir && this.isAny == isAny && snNumber == 0
    {
      this.root, this.snDir, this.files, this.live := root, snDir, files, live;
      this.latDir, this.isAny, snNumber := latDir, isAny, 0;
    }

    /** Mounting: the latest snapshot is read from its pointer file. Without one, there seem to be no snapshots, and the
        cached path is whatever was in memory. The list is recovered exactly if that file has what it should. */
    static method Mount(root: string, snDir: string, files: map<string, Node>, memory: string, ghost live: seq<string>)
      returns (r: Result<Snapshots>)
      requires ChainOk(files, live, snDir) && Recorded(files, live, snDir) && memory != snDir + "/"
      ensures r.Err? <==> ReadSnDir(files, snDir + "/.hid").Unreadable?
      ensures r.Ok? ==>
                && fresh(r.value) && r.value.Valid() && r.value.files == files && r.value.snDir == snDir
                && r.value.root == root
                && (r.value.live == live || r.value.live == [])
      ensures (r.Ok? && r.value.live == live) <==> ReadSnDir(files, snDir + "/.hid") == Latest(live)
    {
      match ReadSnDir(files, snDir + "/.hid") {
        case Unreadable(e) =>
          return Err(e);
        case Missing =>
          var sn := new Snapshots(root, snDir, files, memory, false, []);
          return Ok(sn);
        case Target(path) =>
          var sn := new Snapshots(root, snDir, files, path, true, live);
          return Ok(sn);
      }
    }

    /** The snapshots that walking back from the cached latest one visits. When there are none, the cache still holds
        the last one removed. */
    ghost function Walk(): (w: seq<string>)
      reads this
      ensures w != []
    {
      if isAny && live != [] then live else [latDir]
    }

    /** The walk cannot recognise its end: a snapshot is named like the pointer file of the earliest. */
    ghost predicate Blocked()
      reads this
    {
      Hid(Walk()[|Walk()| - 1]) in files
    }

    /** Following the pointer of a snapshot leads to the next older one; the earliest has no pointer, and reading it
        fails instead of finding nothing just when the walk is blocked. */
    lemma Follow(j: nat)
      requires Valid() && j < |Walk()|
      ensures j < |Walk()| - 1 ==> ReadSnDir(files, Hid(Walk()[j])) == Target(Walk()[j + 1])
      ensures j == |Walk()| - 1 ==>
                ReadSnDir(files, Hid(Walk()[j])) == if Blocked() then Unreadable(EISDIR) else Missing
    {
      if j < |Walk()| - 1 {
        assert Linked(files, live, j);
      }
      if live != [] {
        EarliestHasNoPointer(files, live, snDir);
      } else {
        NotDirHid(latDir, snDir);
      }
    }

    /** Finds the earliest snapshot and the pointer file leading to it. It succeeds exactly when the walk is not
        blocked and not too long, unless I/O fails. */
    method GetEarliest(io: bool) returns (r: Earliest)
      requires Valid()
      ensures live == [] ==> r == NoSnapshots
      ensures live != [] && |live| <= MAX_SNAPSHOTS && !Blocked() ==>
                (!io && r == Broken(EOther)) ||
                r == if |live| == 1 then OnlyOne(live[0]) else Several(live[|live| - 1], Hid(live[|live| - 2]))
      ensures live != [] && (|live| > MAX_SNAPSHOTS || Blocked()) ==> r.Broken?
    {
      if !isAny {
        return NoSnapshots;
      }
      var snPath, prev, p := latDir, "", 0;
      while p < MAX_SNAPSHOTS
        invariant 0 <= p < |live| && p <= MAX_SNAPSHOTS && snPath == live[p] && (p > 0 ==> prev == Hid(live[p - 1]))
      {
        if !io {
          if * {
            return Broken(EOther);
          }
        }
        Follow(p);
        match ReadSnDir(files, Hid(snPath)) {
          case Missing => return if p == 0 then OnlyOne(snPath) else Several(snPath, prev);
          case Unreadable(e) => return Broken(e);
          case Target(path) => snPath, prev, p := path, Hid(snPath), p + 1;
        }
      }
      return Broken(EIO);
    }

    /** The list of steps to a snapshot: the root of the main space, then the snapshots from the latest back to the one
        asked for. It is found exactly when it is on the walk and not too far back, unless I/O fails. A path outside any
        snapshot, which is None here, is refused. */
    method GetPathsTo(asked: Option<string>, io: bool) returns (r: Result<nat>, steps: array<string>)
      requires Valid()
      ensures asked.None? ==> r == Err(EFAULT)
      ensures r.Ok? ==>
                && 1 <= r.value <= |Walk()| && Some(Walk()[r.value - 1]) == asked
                && r.value < steps.Length && steps[..r.value + 1] == [root] + Walk()[..r.value]
      ensures io && asked.Some? ==>
                (r.Ok? <==>
                 exists j :: 0 <= j < |Walk()| && Walk()[j] == asked.value && (j == 0 || j + 1 < MAX_SNAPSHOTS))
      ensures io && asked.Some? && r.Err? && asked.value !in Walk() && |Walk()| + 1 < MAX_SNAPSHOTS ==>
                r == Err(if Blocked() then EISDIR else EFAULT)
    {
      if asked.None? {
        steps := new string[0];
        return Err(EFAULT), steps;
      }
      forall j | 0 <= j < |Walk()| ensures ReadSnDir(files, Hid(Walk()[j])) == Expected(Walk(), Blocked(), j) {
        Follow(j);
      }
      r, steps := WalkTo(asked.value, Walk(), Blocked(), io);
    }

    /** What reading the pointer file of the j-th snapshot of a walk gives. */
    ghost function Expected(walk: seq<string>, blocked: bool, j: nat): Reading
      requires j < |walk|
    {
      if j < |walk| - 1 then Target(walk[j + 1]) else if blocked then Unreadable(EISDIR) else Missing
    }

    method WalkTo(target: string, ghost walk: seq<string>, ghost blocked: bool, io: bool)
      returns (r: Result<nat>, steps: array<string>)
      requires walk != [] && walk[0] == latDir
      requires forall j {:trigger Expected(walk, blocked, j)} | 0 <= j < |walk| ::
                 ReadSnDir(files, Hid(walk[j])) == Expected(walk, blocked, j)
      ensures r.Ok? ==>
                && 1 <= r.value <= |walk| && walk[r.value - 1] == target
                && r.value < steps.Length && steps[..r.value + 1] == [root] + walk[..r.value]
      ensures io ==> (r.Ok? <==> exists j :: 0 <= j < |walk| && walk[j] == target && (j == 0 || j + 1 < MAX_SNAPSHOTS))
      ensures io && r.Err? && target !in walk && |walk| + 1 < MAX_SNAPSHOTS ==>
                r == Err(if blocked then EISDIR else EFAULT)
    {
      steps := new string[4];
      steps[0], steps[1] := root, latDir;
      var p := 1;
      while steps[p] != target
        invariant 1 <= p < steps.Length && p <= |walk| && (p == 1 || p < MAX_SNAPSHOTS)
        invariant fresh(steps) && steps[0] == root && forall i | 1 <= i <= p :: steps[i] == walk[i - 1]
        invariant forall j | 0 <= j < p - 1 :: walk[j] != target
        decreases MAX_SNAPSHOTS - p
      {
        if !io {
          if * {
            return Err(EOther), steps;
          }
        }
        var pointer := Hid(steps[p]);
        p := p + 1;
        if p >= steps.Length {
          steps := Doubled(steps);
        }
        if p >= MAX_SNAPSHOTS {
          return Err(EIO), steps;
        }
        assert ReadSnDir(files, pointer) == Expected(walk, blocked, p - 2);
        match ReadSnDir(files, pointer) {
          case Missing => return Err(EFAULT), steps;
          case Unreadable(e) => return Err(e), steps;
          case Target(path) => steps[p] := path;
        }
      }
      assert steps[..p + 1] == [root] + walk[..p];
      assert walk[p - 1] == target;
      return Ok(p), steps;
    }

    static method Doubled(a: array<string>) returns (b: array<string>)
      ensures fresh(b) && b.Length == 2 * a.Length && forall i | 0 <= i < a.Length :: b[i] == a[i]
    {
      b := new string[2 * a.Length];
      forall i | 0 <= i < a.Length {
        b[i] := a[i];
      }
    }

    /** Records the latest snapshot on disk and in memory. A failed write leaves the file on disk torn. */
    method SetLatest(path: string, io: bool) returns (s: Status)
      modifies this`files, this`latDir, this`isAny, this`snNumber
      ensures DirHid() in old(files) && old(files)[DirHid()] == Dir ==> s != Success && files == old(files)
      ensures s == Success ==> files == old(files)[DirHid() := Pointer(path)]
      ensures s == Success ==> latDir == path && isAny && snNumber == old(snNumber) + 1
      ensures s != Success ==> unchanged(this`latDir, this`isAny, this`snNumber)
      ensures s != Success ==> files == old(files) || files == old(files)[DirHid() := Torn]
      ensures io && !(DirHid() in old(files) && old(files)[DirHid()] == Dir) ==> s == Success
    {
      if DirHid() in files && files[DirHid()] == Dir {
        return Failed(EISDIR);
      }
      var fails: bool := *;
      if !io && fails {
        return Failed(EOther);   // opening
      }
      fails := *;
      if !io && fails {
        files := files[DirHid() := Torn];
        return Failed(EOther);   // writing
      }
      files := files[DirHid() := Pointer(path)];
      latDir, isAny, snNumber := path, true, snNumber + 1;
      return Success;
    }

    /** After cleaning up only the pointer to the latest snapshot can differ from before. */
    lemma Undone(before: map<string, Node>, live: seq<string>, after: map<string, Node>)
      requires ChainOk(before, live, snDir) && Recorded(before, live, snDir)
      requires after == before || after == before[DirHid() := Torn]
      ensures ChainOk(after, live, snDir) && Recorded(after, live, snDir)
    {
      if after != before {
        assert after - {DirHid()} == before - {DirHid()};
        LatestIsApart(before, live, snDir, after);
      }
    }

    /** Makes a snapshot: a new directory, a pointer to the latest so far if there is one, then the new latest. If
        anything fails, what was made is removed again. Without I/O errors it succeeds exactly if the name is new, is
        not that of the pointer to the latest snapshot, and has no pointer file yet when one is needed. */
    method Create(path: string, io: bool) returns (s: Status)
      requires Valid() && IsSnapshotPath(path)
      modifies this
      ensures Valid()
      ensures s == Success ==> path !in old(live) && live == [path] + old(live) && snNumber == old(snNumber) + 1
      ensures s == Success ==> ReadSnDir(files, DirHid()) == Target(path)
      ensures s != Success ==> live == old(live) && unchanged(this`latDir, this`isAny, this`snNumber)
      ensures s != Success ==> files == old(files) || files == old(files)[DirHid() := Torn]
      ensures io ==>
                (s == Success <==>
                 path !in old(files) && path != DirHid() && (old(live) != [] ==> Hid(path) !in old(files)))
    {
      if path in files {
        return Failed(EEXIST);
      }
      var fails: bool := *;
      if !io && fails {
        return Failed(EOther);   // making the directory
      }
      NotDirHid(path, snDir);
      if isAny {
        s := CreateNext(path, io);
      } else {
        s := CreateFirst(path, io);
      }
    }

    method CreateFirst(path: string, io: bool) returns (s: Status)
      requires Valid() && IsSnapshotPath(path) && path !in files && live == []
      modifies this
      ensures Valid()
      ensures s == Success ==> live == [path] && snNumber == old(snNumber) + 1
      ensures s == Success ==> ReadSnDir(files, DirHid()) == Target(path)
      ensures s != Success ==> live == old(live) && unchanged(this`latDir, this`isAny, this`snNumber)
      ensures s != Success ==> files == old(files) || files == old(files)[DirHid() := Torn]
      ensures path == DirHid() ==> s != Success
      ensures io && path != DirHid() ==> s == Success
    {
      files := files[path := Dir];
      s := SetLatest(path, io);
      if s.Failed? {
        files := files - {path};
        Undone(old(files), live, files);
        return;
      }
      Extended(old(files), live, snDir, path);
      live := [path] + live;
    }

    method CreateNext(path: string, io: bool) returns (s: Status)
      requires Valid() && IsSnapshotPath(path) && path !in files && live != [] && Hid(path) != DirHid()
      modifies this
      ensures Valid()
      ensures s == Success ==> live == [path] + old(live) && snNumber == old(snNumber) + 1
      ensures s == Success ==> ReadSnDir(files, DirHid()) == Target(path)
      ensures s != Success ==> live == old(live) && unchanged(this`latDir, this`isAny, this`snNumber)
      ensures s != Success ==> files == old(files) || files == old(files)[DirHid() := Torn]
      ensures path == DirHid() || Hid(path) in old(files) ==> s != Success
      ensures io && path != DirHid() && Hid(path) !in old(files) ==> s == Success
    {
      files := files[path := Dir];
      var hid := Hid(path);
      if hid in files {
        files := files - {path};
        assert files == old(files);
        return Failed(EEXIST);
      }
      var fails: bool := *;
      if !io && fails {
        files := files - {path};
        assert files == old(files);
        return Failed(EOther);   // writing the pointer; the file is unlinked again
      }
      files := files[hid := Pointer(latDir)];
      s := SetLatest(path, io);
      if s.Failed? {
        Cleaned(old(files), path, hid, Pointer(latDir), DirHid(), files);
        files := files - {hid} - {path};
        Undone(old(files), live, files);
        return;
      }
      Extended(old(files), live, snDir, path);
      live := [path] + live;
    }

    /** Removes the earliest snapshot: first the pointer to it, then its directory. Removing the directory may fail
        once it has `begun`; the snapshot is then still off the list, unless it was the only one. Without I/O errors it
        succeeds exactly if there is one, the end of the list can be found, and the pointer to the latest is there. */
    method Destroy(io: bool) returns (s: Status, begun: bool)
      requires Valid()
      modifies this
      ensures Valid() && unchanged(this`latDir, this`snNumber)
      ensures old(live) == [] ==> s == Failed(ENOENT) && !begun
      ensures live == if begun && (s == Success || |old(live)| > 1) then old(live)[..|old(live)| - 1] else old(live)
      ensures s == Success ==> begun
      ensures s == Success && |live| > 0 ==>
                files == old(files) - {Hid(live[|live| - 1])} - {old(live)[|old(live)| - 1]}
      ensures s == Success && |live| == 0 ==> files == old(files) - {DirHid()} - {old(live)[0]}
      ensures !begun ==> files == old(files)
      ensures old(live) != [] && (|old(live)| > MAX_SNAPSHOTS || old(Blocked())) ==> !begun
      ensures io ==>
                (s == Success <==>
                 && old(live) != [] && |old(live)| <= MAX_SNAPSHOTS && !old(Blocked())
                 && (|old(live)| == 1 ==> DirHid() in old(files)))
    {
      var earliest := GetEarliest(io);
      match earliest {
        case Broken(e) =>
          return Failed(e), false;
        case NoSnapshots =>
          return Failed(ENOENT), false;
        case OnlyOne(path) =>
          s, begun := DestroyOnly(path, io);
        case Several(path, pointer) =>
          s, begun := DestroyEarliest(path, pointer, io);
      }
    }

    method DestroyOnly(path: string, io: bool) returns (s: Status, begun: bool)
      requires Valid() && live == [path]
      modifies this`files, this`isAny, this`live
      ensures Valid() && (s == Success ==> begun) && (!begun ==> files == old(files))
      ensures if s == Success then live == [] && files == old(files) - {DirHid()} - {path} else live == [path]
      ensures io ==> (s == Success <==> DirHid() in old(files))
    {
      if DirHid() !in files {
        return Failed(ENOENT), false;
      }
      var fails: bool := *;
      if !io && fails {
        return Failed(EOther), false;   // removing the pointer
      }
      assert (files - {DirHid()}) - {DirHid()} == files - {DirHid()};
      LatestIsApart(files, live, snDir, files - {DirHid()});
      files := files - {DirHid()};
      fails := *;
      if !io && fails {
        return Failed(EOther), true;   // removing the directory
      }
      files := files - {path};
      isAny, live := false, [];
      return Success, true;
    }

    method DestroyEarliest(path: string, pointer: string, io: bool) returns (s: Status, begun: bool)
      requires Valid() && |live| > 1 && path == live[|live| - 1] && pointer == Hid(live[|live| - 2])
      modifies this`files, this`live
      ensures Valid() && (s == Success ==> begun && files == old(files) - {pointer} - {path})
      ensures if begun then live == old(live)[..|old(live)| - 1] else live == old(live) && files == old(files)
      ensures io ==> s == Success
    {
      var fails: bool := *;
      if !io && fails {
        return Failed(EOther), false;   // removing the pointer
      }
      ghost var all := files;
      Shortened(all, live, snDir, {path});
      Shortened(all, live, snDir, {});
      RecordStays(all, live, snDir, {path});
      RecordStays(all, live, snDir, {});
      files := files - {pointer};
      live := live[..|live| - 1];
      assert live[0] == old(live)[0];
      fails := *;
      if !io && fails {
        assert files == all - {pointer} - {};
        return Failed(EOther), true;   // removing the directory
      }
      files := files - {path};
      return Success, true;
    }
  }

  // ---------------------------------------------------------------- whole runs

  datatype ListOp = Make(path: string, io: bool) | Remove(io: bool)

  /** The list after `n` operations, given which of them changed it: those that made a snapshot put it in front, and
      those that removed one took the last. */
  ghost function Replay(ops: seq<ListOp>, changed: seq<bool>, n: nat): seq<string>
    requires n <= |ops| && n <= |changed|
  {
    if n == 0 then []
    else
      var before := Replay(ops, changed, n - 1);
      if !changed[n - 1] then before
      else match ops[n - 1]
        case Make(path, _) => [path] + before
        case Remove(_) => if before == [] then [] else before[..|before| - 1]
  }

  lemma {:induction false} ReplayGrows(ops: seq<ListOp>, changed: seq<bool>, n: nat, c: bool)
    requires n <= |ops| && n <= |changed|
    ensures Replay(ops, changed + [c], n) == Replay(ops, changed, n)
  {
    if n > 0 {
      ReplayGrows(ops, changed, n - 1, c);
    }
  }

  /** After any sequence of making and removing snapshots, failing anywhere, following the pointer files from the latest
      snapshot visits those made and not removed, newest first. */
  method RunList(root: string, snDir: string, memory: string, ops: seq<ListOp>)
    returns (sn: Snapshots, ghost changed: seq<bool>)
    requires memory != snDir + "/"
    ensures fresh(sn) && sn.Valid() && |changed| == |ops| && sn.live == Replay(ops, changed, |ops|)
    ensures sn.live != [] ==> Visit(sn.files, sn.latDir, |sn.live|) == sn.live
  {
    sn := new Snapshots(root, snDir, map[], memory, false, []);
    changed := [];
    for i := 0 to |ops|
      invariant fresh(sn) && sn.Valid() && sn.snDir == snDir && |changed| == i && sn.live == Replay(ops, changed, i)
    {
      ghost var before := sn.live;
      match ops[i] {
        case Make(path, io) =>
          if path != snDir + "/" {
            var s := sn.Create(path, io);
          }
        case Remove(io) =>
          var s, begun := sn.Destroy(io);
      }
      ReplayGrows(ops, changed, i, sn.live != before);
      changed := changed + [sn.live != before];
    }
    if sn.isAny {
      VisitIsList(sn.files, sn.live, snDir, 0, |sn.live|);
    }
  }

  /** One snapshot, whose removal broke off after the pointer to it had gone, is lost by mounting again. */
  method MountExample() returns (r: Result<Snapshots>, ghost live: seq<string>)
    ensures live != [] && r.Ok? && r.value.Valid() && r.value.live == []
    ensures ChainOk(r.value.files, live, r.value.snDir) && Recorded(r.value.files, live, r.value.snDir)
  {
    live := ["/r/snapshots/a"];
    var files := map["/r/snapshots/a" := Dir];
    assert |"/r/snapshots/a"| == 14 && |"/r/snapshots" + "/"| == 13 && |"/r/snapshots" + "/.hid"| == 17;
    r := Snapshots.Mount("/r", "/r/snapshots", files, "", live);
  }
}
