/** Listing a directory in a snapshot: the overlay directories from the snapshot to the latest one and the main
    directory are merged, and map headers say which names were there. */
module Listing {
  import opened Base
  import opened Store

  /** How a name in an overlay directory is presented: not at all (dat files), as it is (directories), or without
      its extension (map files). */
  datatype Shown = Hidden | AsIs | Stripped

  function FilterName(name: string): Shown {
    if |name| <= 4 then AsIs
    else if name[|name| - 4..] == ".dat" then Hidden
    else if name[|name| - 4..] == ".map" then Stripped
    else AsIs
  }

  /** A name is that of a dat file exactly if it is another name with ".dat" after it, and likewise for map files; all
      other names are directories. */
  lemma FilterNameIs(name: string)
    ensures FilterName(name) == Hidden <==> exists stem :: stem != "" && name == stem + ".dat"
    ensures FilterName(name) == Stripped <==> exists stem :: stem != "" && name == stem + ".map"
    ensures FilterName(name) == Stripped ==> name == name[..|name| - 4] + ".map" && name[..|name| - 4] != ""
  {
    if |name| > 4 {
      assert name == name[..|name| - 4] + name[|name| - 4..];
    }
    if stem :| stem != "" && name == stem + ".dat" {
      assert name[|name| - 4..] == ".dat";
    }
    if stem :| stem != "" && name == stem + ".map" {
      assert name[|name| - 4..] == ".map";
    }
  }

  /** An overlay directory: its entries in the order they are read, and the overlays whose map files they include. */
  datatype Directory = Directory(entries: seq<string>, overlays: map<string, Overlay>)

  /** The map files among the entries are exactly those of the overlays. */
  ghost predicate WellFormedDir(dir: Directory) {
    && (forall name | name in dir.overlays :: name != "" && name + ".map" in dir.entries)
    && forall e | e in dir.entries && FilterName(e) == Stripped :: e[..|e| - 4] in dir.overlays
  }

  /** The name is not that of a subdirectory of the overlay directory. */
  ghost predicate PlainIn(dir: Directory, name: string) {
    !(name in dir.entries && FilterName(name) == AsIs)
  }

  /** The name is not that of a subdirectory in any overlay from snapshot `k` on. */
  ghost predicate Plain(dirs: seq<Option<Directory>>, k: nat, name: string) {
    forall j | k <= j < |dirs| && dirs[j].Some? :: PlainIn(dirs[j].value, name)
  }

  function LayerOf(dir: Option<Directory>, name: string): Option<Overlay> {
    if dir.Some? && name in dir.value.overlays then Some(dir.value.overlays[name]) else None
  }

  /** No overlay from snapshot `k` on has a map for the name. */
  ghost predicate Mapless(dirs: seq<Option<Directory>>, k: nat, name: string) {
    forall j | k <= j < |dirs| && dirs[j].Some? :: name !in dirs[j].value.overlays
  }

  /** One of the overlays [k, j) has a subdirectory of that name. */
  ghost predicate HasSubdirectory(dirs: seq<Option<Directory>>, k: nat, j: nat, name: string) {
    exists i :: k <= i < j && i < |dirs| && dirs[i].Some? && !PlainIn(dirs[i].value, name)
  }

  /** The overlays of one name in all the directories. */
  function Column(dirs: seq<Option<Directory>>, name: string): Layers {
    seq(|dirs|, k requires 0 <= k < |dirs| => LayerOf(dirs[k], name))
  }

  /** The file is there in snapshot `k`, as stat finds it: by the first map from there on, or else in the main
      directory. The contents of the main file do not matter. */
  ghost predicate StatFinds(dirs: seq<Option<Directory>>, main: Option<seq<string>>, k: nat, name: string)
    requires k <= |dirs|
  {
    GetAttr(Column(dirs, name), if main.Some? && name in main.value then Some([]) else None, k).Some?
  }

  ghost predicate NoDuplicates(names: seq<string>) {
    forall i, j | 0 <= i < j < |names| :: names[i] != names[j]
  }

  /** What reading an overlay directory does with a name: a plain name is seen if it has a map, and listed if it is
      new and its map says that it existed; a name without a map is seen, and listed if it is new, if it is a
      subdirectory. */
  ghost predicate ReadName(dir: Directory, x: string, seen0: seq<string>, out0: seq<string>,
                           seen: seq<string>, out: seq<string>) {
    && (PlainIn(dir, x) ==>
          && (x in seen <==> x in seen0 || x in dir.overlays)
          && (x in out <==> x in out0 || (x !in seen0 && x in dir.overlays && dir.overlays[x].existed)))
    && (x !in dir.overlays ==>
          && (x in seen <==> x in seen0 || !PlainIn(dir, x))
          && (x in out <==> x in out0 || (x in seen && x !in seen0)))
  }

  /** What an entry means: the name it makes seen, if that is new, and whether it is listed. */
  ghost predicate Means(dir: Directory, e: string, seen: seq<string>, name: Option<string>, lists: bool) {
    && (name.Some? ==>
          && name.value !in seen && (!PlainIn(dir, e) ==> name.value == e)
          && (|| (name.value == e && !PlainIn(dir, e) && lists)
              || (e == name.value + ".map" && name.value in dir.overlays && lists == dir.overlays[name.value].existed)))
    && (name.None? ==> e in seen || PlainIn(dir, e))
    && (forall x | x in dir.overlays && e == x + ".map" :: if name.Some? then name.value == x else x in seen)
  }

  /** Decides what an entry means. */
  method ReadEntry(dir: Directory, e: string, seen: seq<string>) returns (name: Option<string>, lists: bool)
    requires WellFormedDir(dir) && e in dir.entries
    ensures Means(dir, e, seen, name, lists)
  {
    FilterNameIs(e);
    forall x | x in dir.overlays && e == x + ".map" ensures FilterName(e) == Stripped && e[..|e| - 4] == x {
      FilterNameIs(x + ".map");
    }
    match FilterName(e)
    case Hidden =>
      return None, false;
    case AsIs =>
      return if e in seen then None else Some(e), true;
    case Stripped =>
      var stem := e[..|e| - 4];
      return if stem in seen then None else Some(stem), dir.overlays[stem].existed;
  }

  /** How far reading an overlay directory has got with the entries `read`. */
  ghost predicate SoFar(dir: Directory, read: seq<string>, seen0: seq<string>, out0: seq<string>,
                        seen: seq<string>, out: seq<string>) {
    && NoDuplicates(out) && (forall x | x in out :: x in seen)
    && (forall x | x in seen0 :: x in seen && (x in out <==> x in out0))
    && (forall x | x in seen && x !in seen0 && PlainIn(dir, x) ::
          x in dir.overlays && (x in out <==> dir.overlays[x].existed))
    && (forall x | x in seen && x !in seen0 && x !in dir.overlays :: !PlainIn(dir, x) && x in out)
    && (forall x | x in dir.overlays && x + ".map" in read :: x in seen)
    && (forall x | x in read && !PlainIn(dir, x) :: x in seen)
  }

  lemma EntryRead(dir: Directory, read: seq<string>, e: string, seen0: seq<string>, out0: seq<string>,
                  seen: seq<string>, out: seq<string>, name: Option<string>, lists: bool)
    requires SoFar(dir, read, seen0, out0, seen, out) && Means(dir, e, seen, name, lists)
    ensures var seen' := if name.Some? then seen + [name.value] else seen;
            var out' := if name.Some? && lists then out + [name.value] else out;
            SoFar(dir, read + [e], seen0, out0, seen', out')
  {
  }

  lemma AllRead(dir: Directory, seen0: seq<string>, out0: seq<string>, seen: seq<string>, out: seq<string>)
    requires WellFormedDir(dir) && SoFar(dir, dir.entries, seen0, out0, seen, out) && forall x | x in out0 :: x in seen0
    ensures forall x :: ReadName(dir, x, seen0, out0, seen, out)
  {
  }

  /** Reads one overlay directory. A name is listed when it has not been seen before and its map says it existed; map
      files make their names seen either way. Unless `io`, reading the directory or a map may fail. */
  method ReadOverlay(dir: Directory, seen0: seq<string>, out0: seq<string>, io: bool)
    returns (ok: bool, seen: seq<string>, out: seq<string>)
    requires WellFormedDir(dir) && NoDuplicates(out0) && forall x | x in out0 :: x in seen0
    ensures io ==> ok
    ensures NoDuplicates(out) && (forall x | x in out :: x in seen)
    ensures forall x | x in seen0 :: x in seen && (x in out <==> x in out0)
    ensures ok ==> forall x :: ReadName(dir, x, seen0, out0, seen, out)
  {
    seen, out := seen0, out0;
    for i := 0 to |dir.entries|
      invariant SoFar(dir, dir.entries[..i], seen0, out0, seen, out)
    {
      var fails: bool := *;
      if !io && fails {
        return false, seen, out;
      }
      var e := dir.entries[i];
      assert dir.entries[..i + 1] == dir.entries[..i] + [e];
      var name, lists := ReadEntry(dir, e, seen);
      EntryRead(dir, dir.entries[..i], e, seen0, out0, seen, out, name, lists);
      if name.Some? {
        seen := seen + [name.value];
        if lists {
          out := out + [name.value];
        }
      }
    }
    ok := true;
    assert dir.entries[..|dir.entries|] == dir.entries;
    AllRead(dir, seen0, out0, seen, out);
  }

  /** Reads the main directory: every name not seen before is listed. */
  method ReadMainDir(entries: seq<string>, seen0: seq<string>, out0: seq<string>, io: bool)
    returns (ok: bool, out: seq<string>)
    requires NoDuplicates(out0) && forall x | x in out0 :: x in seen0
    ensures io ==> ok
    ensures NoDuplicates(out) && forall x | x in out :: x in out0 || x !in seen0
    ensures ok ==> forall x :: x in out <==> x in out0 || (x !in seen0 && x in entries)
  {
    var seen := seen0;
    out := out0;
    for i := 0 to |entries|
      invariant NoDuplicates(out) && forall x | x in out :: x in seen
      invariant forall x :: x in seen <==> x in seen0 || x in entries[..i]
      invariant forall x :: x in out <==> x in out0 || (x !in seen0 && x in entries[..i])
    {
      if !io {
        if * {
          return false, out;
        }
      }
      var e := entries[i];
      assert entries[..i + 1] == entries[..i] + [e];
      if e !in seen {
        out, seen := out + [e], seen + [e];
      }
    }
    assert entries[..|entries|] == entries;
    ok := true;
  }

  /** The verdict of the overlays [k, j) on a name: the header of the first map among them, if there is one. */
  function Verdict(dirs: seq<Option<Directory>>, k: nat, j: nat, name: string): Option<bool>
    requires k <= j <= |dirs|
  {
    if j == k then None
    else if Verdict(dirs, k, j - 1, name).Some? then Verdict(dirs, k, j - 1, name)
    else if LayerOf(dirs[j - 1], name).Some? then Some(LayerOf(dirs[j - 1], name).value.existed)
    else None
  }

  /** Stat follows the verdict, and looks further only if there is none. */
  lemma {:induction false} VerdictIsStat(dirs: seq<Option<Directory>>, main: Option<File>, k: nat, j: nat, name: string)
    requires k <= j <= |dirs|
    ensures GetAttr(Column(dirs, name), main, k).Some? <==>
            match Verdict(dirs, k, j, name) case Some(b) => b case None => GetAttr(Column(dirs, name), main, j).Some?
    ensures Verdict(dirs, k, j, name).None? ==>
              GetAttr(Column(dirs, name), main, k) == GetAttr(Column(dirs, name), main, j)
    decreases j
  {
    if k < j {
      VerdictIsStat(dirs, main, k, j - 1, name);
      assert Column(dirs, name)[j - 1] == LayerOf(dirs[j - 1], name);
    }
  }

  /** If the overlays of a name record its versions, stat finds it exactly when it was there when the snapshot was made,
      and so does the listing. */
  lemma StatIsTruth(dirs: seq<Option<Directory>>, main: Option<seq<string>>, vs: seq<Option<File>>, k: nat,
      name: string)
    requires |vs| == |dirs| + 1 && k <= |dirs| && LayersOk(Column(dirs, name), vs, k)
    requires vs[|dirs|].Some? <==> main.Some? && name in main.value
    ensures StatFinds(dirs, main, k, name) <==> vs[k].Some?
  {
    GetAttrIsVersion(Column(dirs, name), vs, k);
    VerdictIsStat(dirs, vs[|dirs|], k, |dirs|, name);
    VerdictIsStat(dirs, if main.Some? && name in main.value then Some([]) else None, k, |dirs|, name);
  }

  /** What has been seen and listed of a name after reading the overlays [k, j) agrees with their verdict. */
  ghost predicate Agrees(dirs: seq<Option<Directory>>, k: nat, j: nat, name: string, seen: seq<string>,
      out: seq<string>)
    requires k <= j <= |dirs|
  {
    && (name in seen <==> Verdict(dirs, k, j, name).Some?)
    && (name in out <==> Verdict(dirs, k, j, name) == Some(true))
  }

  /** What has been seen and listed of a name that no overlay has a map for: if it is a subdirectory of one of the
      overlays [k, j), it has been listed. */
  ghost predicate AgreesMapless(dirs: seq<Option<Directory>>, k: nat, j: nat, name: string,
                                skipped: seq<string>, seen: seq<string>, out: seq<string>) {
    && (name in seen ==> name in out || name in skipped)
    && (HasSubdirectory(dirs, k, j, name) ==> name in seen)
  }

  /** The next overlay directory has been read, if there is one. */
  ghost predicate ReadNext(dir: Option<Directory>, name: string, seen0: seq<string>, out0: seq<string>,
                           seen: seq<string>, out: seq<string>) {
    if dir.Some? then ReadName(dir.value, name, seen0, out0, seen, out) else seen == seen0 && out == out0
  }

  lemma PlainNext(dirs: seq<Option<Directory>>, k: nat, j: nat, name: string, seen0: seq<string>, out0: seq<string>,
                  seen: seq<string>, out: seq<string>)
    requires k <= j < |dirs| && Plain(dirs, k, name) && Agrees(dirs, k, j, name, seen0, out0)
    requires ReadNext(dirs[j], name, seen0, out0, seen, out)
    ensures Agrees(dirs, k, j + 1, name, seen, out)
  {
    assert dirs[j].Some? ==> PlainIn(dirs[j].value, name);
  }

  lemma MaplessNext(dirs: seq<Option<Directory>>, k: nat, j: nat, name: string, skipped: seq<string>,
                    seen0: seq<string>, out0: seq<string>, seen: seq<string>, out: seq<string>)
    requires k <= j < |dirs| && Mapless(dirs, k, name) && AgreesMapless(dirs, k, j, name, skipped, seen0, out0)
    requires ReadNext(dirs[j], name, seen0, out0, seen, out)
    ensures AgreesMapless(dirs, k, j + 1, name, skipped, seen, out)
  {
    assert HasSubdirectory(dirs, k, j + 1, name) ==>
        HasSubdirectory(dirs, k, j, name) || (dirs[j].Some? && !PlainIn(dirs[j].value, name));
  }

  /** Reads the overlay directories from snapshot `k` on. */
  method ReadOverlays(dirs: seq<Option<Directory>>, k: nat, skipped: seq<string>, io: bool)
    returns (ok: bool, seen: seq<string>, out: seq<string>)
    requires k <= |dirs| && forall j | k <= j < |dirs| && dirs[j].Some? :: WellFormedDir(dirs[j].value)
    ensures io ==> ok
    ensures NoDuplicates(out) && (forall x | x in out :: x in seen) && forall x | x in skipped :: x in seen && x !in out
    ensures ok ==> forall name | Plain(dirs, k, name) && name !in skipped :: Agrees(dirs, k, |dirs|, name, seen, out)
    ensures ok ==> forall name | Mapless(dirs, k, name) :: AgreesMapless(dirs, k, |dirs|, name, skipped, seen, out)
  {
    out, seen := [], skipped;
    for j := k to |dirs|
      invariant NoDuplicates(out) && forall x | x in out :: x in seen
      invariant forall x | x in skipped :: x in seen && x !in out
      invariant forall name | Plain(dirs, k, name) && name !in skipped :: Agrees(dirs, k, j, name, seen, out)
      invariant forall name | Mapless(dirs, k, name) :: AgreesMapless(dirs, k, j, name, skipped, seen, out)
    {
      ghost var seen0, out0 := seen, out;
      if dirs[j].Some? {
        ok, seen, out := ReadOverlay(dirs[j].value, seen, out, io);
        if !ok {
          return;
        }
      }
      forall name | Plain(dirs, k, name) && name !in skipped ensures Agrees(dirs, k, j + 1, name, seen, out) {
        assert Agrees(dirs, k, j, name, seen0, out0);
        PlainNext(dirs, k, j, name, seen0, out0, seen, out);
      }
      forall name | Mapless(dirs, k, name) ensures AgreesMapless(dirs, k, j + 1, name, skipped, seen, out) {
        assert AgreesMapless(dirs, k, j, name, skipped, seen0, out0);
        MaplessNext(dirs, k, j, name, skipped, seen0, out0, seen, out);
      }
    }
    ok := true;
  }

  /** Lists a directory as it was in snapshot `k`. Each name is listed at most once, and, unless an error breaks off
      the listing, a plain name is listed exactly when stat finds the file in that snapshot. So the names of dat and
      map files are not listed, unless they are those of files. Subdirectories of which there is no map are listed.
      The snapshots directory itself is left out of the root. */
  method SnReaddir(dirs: seq<Option<Directory>>, main: Option<seq<string>>, k: nat, skipSnapshots: bool, io: bool)
    returns (ok: bool, out: seq<string>)
    requires k <= |dirs| && forall j | k <= j < |dirs| && dirs[j].Some? :: WellFormedDir(dirs[j].value)
    ensures io ==> ok
    ensures NoDuplicates(out)
    ensures ok ==> forall name | Plain(dirs, k, name) && !(skipSnapshots && name == "snapshots") ::
              name in out <==> StatFinds(dirs, main, k, name)
    ensures ok ==> forall stem: string | stem != "" && stem + ".dat" in out :: StatFinds(dirs, main, k, stem + ".dat")
    ensures ok ==> forall stem: string | stem != "" && stem + ".map" in out :: StatFinds(dirs, main, k, stem + ".map")
    ensures ok ==> forall name | Mapless(dirs, k, name) && HasSubdirectory(dirs, k, |dirs|, name) ::
              name in out || (skipSnapshots && name == "snapshots")
    ensures skipSnapshots ==> "snapshots" !in out
  {
    var skipped := if skipSnapshots then ["snapshots"] else [];
    var seen;
    ok, seen, out := ReadOverlays(dirs, k, skipped, io);
    if !ok {
      return;
    }
    ghost var out1 := out;
    if main.Some? {
      ok, out := ReadMainDir(main.value, seen, out, io);
      if !ok {
        return;
      }
    }
    forall name | Plain(dirs, k, name) && name !in skipped ensures name in out <==> StatFinds(dirs, main, k, name) {
      assert Agrees(dirs, k, |dirs|, name, seen, out1);
      VerdictIsStat(dirs, if main.Some? && name in main.value then Some([]) else None, k, |dirs|, name);
    }
    forall stem: string | stem != ""
      ensures Plain(dirs, k, stem + ".dat") && Plain(dirs, k, stem + ".map")
      ensures stem + ".dat" !in skipped && stem + ".map" !in skipped
    {
      FilterNameIs(stem + ".dat");
      FilterNameIs(stem + ".map");
      assert (stem + ".dat")[|stem| + 3] == 't' && (stem + ".map")[|stem| + 3] == 'p';
    }
    forall name | Mapless(dirs, k, name) && HasSubdirectory(dirs, k, |dirs|, name)
      ensures name in out || (skipSnapshots && name == "snapshots")
    {
      assert AgreesMapless(dirs, k, |dirs|, name, skipped, seen, out1);
    }
  }
}
