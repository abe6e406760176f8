/** One path of the file system as values: the main file, the per-snapshot overlays, and
    what the overlays have to record about the versions of the file.

    Snapshots are numbered from the oldest; `layers[k]` is the overlay of the path in
    snapshot k, if it has a map file there. */
module Store {
  import opened Base
  import opened Blocks

  /** A map file (header and pointers) with its dat file. `size` means nothing unless `existed`.
      An absent pointer is a hole in the sparse map file and reads as 0. */
  datatype Overlay = Overlay(existed: bool, size: nat, ptrs: map<nat, nat>, dat: Option<File>)

  type Layers = seq<Option<Overlay>>

  function Pointer(ov: Overlay, b: nat): nat {
    if b in ov.ptrs then ov.ptrs[b] else 0
  }

  predicate Saved(ov: Overlay, b: nat) {
    Pointer(ov, b) != 0
  }

  /** The byte of the dat file that stands for byte `p` of the file, when its block is saved. */
  function DatByte(ov: Overlay, p: nat): Option<Byte>
    requires Saved(ov, BlockOf(p))
  {
    var at := (Pointer(ov, BlockOf(p)) - 1) * BL_S + p % BL_S;
    if ov.dat.Some? && at < |ov.dat.value| then Some(ov.dat.value[at]) else None
  }

  function ByteOf(f: Option<File>, p: nat): Option<Byte> {
    if f.Some? && p < |f.value| then Some(f.value[p]) else None
  }

  /** A dat file exists only for a file that had contents; pointers are pairwise distinct and
      name whole blocks of the dat file. */
  ghost predicate WellFormed(ov: Overlay) {
    && (ov.dat.Some? ==> ov.existed && ov.size > 0)
    && (forall b | Saved(ov, b) :: ov.dat.Some? && Pointer(ov, b) * BL_S <= |ov.dat.value|)
    && (forall b, c | Saved(ov, b) && Saved(ov, c) && b != c :: Pointer(ov, b) != Pointer(ov, c))
  }

  ghost predicate AllWellFormed(layers: Layers) {
    forall k | 0 <= k < |layers| && layers[k].Some? :: WellFormed(layers[k].value)
  }

  /** Saved blocks hold the bytes of the version `was`. */
  ghost predicate SavedHolds(ov: Overlay, was: File) {
    forall p: nat | p < |was| && Saved(ov, BlockOf(p)) :: DatByte(ov, p) == Some(was[p])
  }

  /** Bytes of `was` in unsaved blocks are still there in the version `next`. */
  ghost predicate UnsavedShared(ov: Overlay, was: File, next: Option<File>) {
    forall p: nat | p < |was| && !Saved(ov, BlockOf(p)) :: ByteOf(next, p) == Some(was[p])
  }

  /** What the overlay of a snapshot records, given the version of the file when the snapshot was
      made and the version when the next one was made (or the main file now). */
  ghost predicate LayerOk(layer: Option<Overlay>, was: Option<File>, next: Option<File>) {
    match layer
    case None => was == next
    case Some(ov) =>
      && ov.existed == was.Some?
      && (was.Some? ==> ov.size == |was.value| && SavedHolds(ov, was.value) && UnsavedShared(ov, was.value, next))
      && (was.Some? && was.value != [] && ov.dat.None? ==> was == next)
  }

  /** `vs` lists the versions at each snapshot moment and, last, the main file now. */
  ghost predicate LayersOk(layers: Layers, vs: seq<Option<File>>, from: nat)
    requires |vs| == |layers| + 1
  {
    forall k | from <= k < |layers| :: LayerOk(layers[k], vs[k], vs[k + 1])
  }

  lemma TopOk(layers: Layers, truth: seq<Option<File>>, main: Option<File>, from: nat)
    requires from < |layers| == |truth| && LayersOk(layers, truth + [main], from)
    ensures LayerOk(layers[|layers| - 1], truth[|layers| - 1], main)
  {
    var vs, n := truth + [main], |layers|;
    assert LayerOk(layers[n - 1], vs[n - 1], vs[n]);
  }

  /** Only the latest layer has to account for a change of the main file. */
  lemma ChangeTop(layers: Layers, truth: seq<Option<File>>, main: Option<File>, from: nat,
                  top': Option<Overlay>, main': Option<File>)
    requires 0 < |layers| == |truth| && LayersOk(layers, truth + [main], from)
    requires LayerOk(top', truth[|layers| - 1], main')
    ensures LayersOk(layers[|layers| - 1 := top'], truth + [main'], from)
  {
    var layers', vs, vs' := layers[|layers| - 1 := top'], truth + [main], truth + [main'];
    forall k | from <= k < |layers| ensures LayerOk(layers'[k], vs'[k], vs'[k + 1]) {
      if k < |layers| - 1 {
        assert LayerOk(layers[k], vs[k], vs[k + 1]);
      }
    }
  }

  // ---------------------------------------------------------------- reading a snapshot

  /** Byte `p` of the file as read from layer `k` on: the first newer layer whose map points
      somewhere, or else the main file. */
  function Lookup(layers: Layers, main: Option<File>, k: nat, p: nat): Option<Byte>
    requires k <= |layers|
    decreases |layers| - k
  {
    if k == |layers| then ByteOf(main, p)
    else if layers[k].Some? && Saved(layers[k].value, BlockOf(p)) then DatByte(layers[k].value, p)
    else Lookup(layers, main, k + 1, p)
  }

  /** Where a file opened in snapshot `k` is found: the first layer with a dat file, or the main file. */
  function FirstFile(layers: Layers, k: nat): (j: nat)
    requires k <= |layers|
    ensures k <= j <= |layers|
    ensures j < |layers| ==> layers[j].Some? && layers[j].value.dat.Some?
    ensures forall i | k <= i < j :: !(layers[i].Some? && layers[i].value.dat.Some?)
    decreases |layers| - k
  {
    if k < |layers| && !(layers[k].Some? && layers[k].value.dat.Some?) then FirstFile(layers, k + 1) else k
  }

  /** Size of the file in snapshot `k` as stat reports it, from the first map file found or else from the
      main file; None when the file does not exist there. */
  function GetAttr(layers: Layers, main: Option<File>, k: nat): Option<nat>
    requires k <= |layers|
    decreases |layers| - k
  {
    if k == |layers| then (if main.Some? then Some(|main.value|) else None)
    else if layers[k].Some? then (if layers[k].value.existed then Some(layers[k].value.size) else None)
    else GetAttr(layers, main, k + 1)
  }

  function SizeOf(f: Option<File>): Option<nat> {
    if f.Some? then Some(|f.value|) else None
  }

  /** Reading layer by layer gives back every byte of the version the snapshot was made of. */
  lemma {:induction false} LookupIsVersion(layers: Layers, vs: seq<Option<File>>, k: nat, p: nat)
    requires |vs| == |layers| + 1 && k <= |layers| && LayersOk(layers, vs, k)
    requires vs[k].Some? && p < |vs[k].value|
    ensures Lookup(layers, vs[|layers|], k, p) == Some(vs[k].value[p])
    decreases |layers| - k
  {
    if k < |layers| {
      assert LayerOk(layers[k], vs[k], vs[k + 1]);
      if layers[k].None? || !Saved(layers[k].value, BlockOf(p)) {
        assert ByteOf(vs[k + 1], p) == Some(vs[k].value[p]);
        LookupIsVersion(layers, vs, k + 1, p);
      }
    }
  }

  /** Existence and size by stat are those of the version the snapshot was made of, for every version. */
  lemma {:induction false} GetAttrIsVersion(layers: Layers, vs: seq<Option<File>>, k: nat)
    requires |vs| == |layers| + 1 && k <= |layers| && LayersOk(layers, vs, k)
    ensures GetAttr(layers, vs[|layers|], k) == SizeOf(vs[k])
    decreases |layers| - k
  {
    if k < |layers| {
      assert LayerOk(layers[k], vs[k], vs[k + 1]);
      GetAttrIsVersion(layers, vs, k + 1);
    }
  }

  /** Skipping layers without a dat file is harmless for a file that had contents. */
  lemma {:induction false} FirstFileIsVersion(layers: Layers, vs: seq<Option<File>>, k: nat)
    requires |vs| == |layers| + 1 && k <= |layers| && LayersOk(layers, vs, k)
    requires vs[k].Some? && vs[k].value != []
    ensures vs[FirstFile(layers, k)] == vs[k]
    decreases |layers| - k
  {
    if k < |layers| && !(layers[k].Some? && layers[k].value.dat.Some?) {
      assert LayerOk(layers[k], vs[k], vs[k + 1]);
      FirstFileIsVersion(layers, vs, k + 1);
    }
  }
}
