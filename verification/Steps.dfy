/** Handles on files inside snapshots: which maps, dats and main file a handle has open, what it reads
    through them, and when that is the version the snapshot was made of. */
module Steps {
  import opened Base
  import opened Blocks
  import opened Store
  import opened Saving

  /** `first` is the layer the file was found in, with the number of layers standing for the main file,
      or None when it was found nowhere; `size` is only set when it was found. */
  datatype SnHandle = SnHandle(snNumber: nat, current: nat, first: Option<nat>, size: nat,
                               mapOpen: seq<bool>, datOpen: seq<bool>, mainOpen: bool)

  predicate HasMap(layer: Option<Overlay>) {
    layer.Some?
  }

  predicate HasDat(layer: Option<Overlay>) {
    layer.Some? && layer.value.dat.Some?
  }

  /** The handle that opening the file in snapshot `k` gives. */
  function OpenHandle(layers: Layers, main: Option<File>, k: nat, snNumber: nat): SnHandle
    requires k <= |layers|
  {
    var j := FirstFile(layers, k);
    var n := |layers|;
    SnHandle(snNumber, k,
             if j < n || main.Some? then Some(j) else None,
             if j < n then layers[j].value.size else if main.Some? then |main.value| else 0,
             seq(n, i requires 0 <= i < n => k <= i && HasMap(layers[i])),
             seq(n, i requires 0 <= i < n => k <= i && HasDat(layers[i])),
             main.Some?)
  }

  /** Opening does not look whether the file was found anywhere. If it was not, the handle has no size, and holds
      whatever was in memory. */
  function WithMemory(h: SnHandle, memory: nat): SnHandle {
    if h.first.None? then h.(size := memory) else h
  }

  ghost predicate Fits(h: SnHandle, layers: Layers) {
    && |h.mapOpen| == |h.datOpen| == |layers| && h.current <= |layers|
    && (h.first.Some? ==> h.current <= h.first.value <= |layers|)
  }

  function LayerVia(h: SnHandle, layers: Layers, k: nat): Option<Overlay>
    requires k < |layers| == |h.mapOpen| == |h.datOpen|
  {
    if h.mapOpen[k] && layers[k].Some?
    then Some(layers[k].value.(dat := if h.datOpen[k] then layers[k].value.dat else None))
    else None
  }

  /** The layers as far as the handle has them open. */
  function LayersVia(h: SnHandle, layers: Layers): Layers
    requires |layers| == |h.mapOpen| == |h.datOpen|
  {
    seq(|layers|, k requires 0 <= k < |layers| => LayerVia(h, layers, k))
  }

  function MainVia(h: SnHandle, main: Option<File>): Option<File> {
    if h.mainOpen then main else None
  }

  /** Byte `p` of the file as read through the handle. */
  function LookupVia(h: SnHandle, layers: Layers, main: Option<File>, p: nat): Option<Byte>
    requires |layers| == |h.mapOpen| == |h.datOpen| && h.first.Some? && h.first.value <= |layers|
  {
    Lookup(LayersVia(h, layers), MainVia(h, main), h.first.value, p)
  }

  /** Reading through the handle gives exactly the bytes of `f`. */
  ghost predicate ReadsAs(h: SnHandle, layers: Layers, main: Option<File>, f: File) {
    && Fits(h, layers) && h.first.Some? && h.size == |f|
    && forall p: nat | p < |f| :: LookupVia(h, layers, main, p) == Some(f[p])
  }

  /** Part of one block in one layer: all of it is at one place in the dat, or all of it is further on. */
  lemma PieceInLayer(layers: Layers, main: Option<File>, j: nat, b: nat, within: nat, length: nat)
    requires j < |layers| && within + length <= BL_S
    ensures forall p: nat | b * BL_S + within <= p < b * BL_S + within + length ::
              Lookup(layers, main, j, p) ==
              if layers[j].Some? && Saved(layers[j].value, b)
              then ByteOf(layers[j].value.dat, (Pointer(layers[j].value, b) - 1) * BL_S + p - b * BL_S)
              else Lookup(layers, main, j + 1, p)
  {
    assert forall p: nat | b * BL_S + within <= p < b * BL_S + within + length ::
        BlockOf(p) == b && p % BL_S == p - b * BL_S;
  }

  // ---------------------------------------------------------------- freshly opened handles

  lemma {:induction false} LookupAgrees(a: Layers, b: Layers, main: Option<File>, k: nat, p: nat)
    requires |a| == |b| && k <= |a| && forall j | k <= j < |a| :: a[j] == b[j]
    ensures Lookup(a, main, k, p) == Lookup(b, main, k, p)
    decreases |a| - k
  {
    if k < |a| {
      LookupAgrees(a, b, main, k + 1, p);
    }
  }

  /** A freshly opened file reads as the version of the layer it was found in. */
  lemma FreshReadsFirst(layers: Layers, vs: seq<Option<File>>, k: nat, snNumber: nat)
    requires |vs| == |layers| + 1 && k <= |layers| && LayersOk(layers, vs, k) && AllWellFormed(layers)
    ensures var h := OpenHandle(layers, vs[|layers|], k, snNumber);
            var f := vs[FirstFile(layers, k)];
            if h.first.Some? then f.Some? && ReadsAs(h, layers, vs[|layers|], f.value) else f.None?
  {
    var n, j := |layers|, FirstFile(layers, k);
    var h := OpenHandle(layers, vs[n], k, snNumber);
    assert Fits(h, layers);
    if j < n {
      assert LayerOk(layers[j], vs[j], vs[j + 1]) && WellFormed(layers[j].value);
    }
    if h.first.Some? {
      forall p: nat | p < |vs[j].value| ensures LookupVia(h, layers, vs[n], p) == Some(vs[j].value[p]) {
        LookupAgrees(LayersVia(h, layers), layers, MainVia(h, vs[n]), j, p);
        LookupMainVia(h, layers, vs[n], j, p);
        LookupIsVersion(layers, vs, j, p);
      }
    }
  }

  lemma {:induction false} LookupMainVia(h: SnHandle, layers: Layers, main: Option<File>, k: nat, p: nat)
    requires k <= |layers| && (main.Some? ==> h.mainOpen)
    ensures Lookup(layers, MainVia(h, main), k, p) == Lookup(layers, main, k, p)
  {
    assert MainVia(h, main) == main;
  }

  /** The handle gives the version `was`: exactly its bytes, or that the file is not there. */
  ghost predicate OpensAs(h: SnHandle, layers: Layers, main: Option<File>, was: Option<File>) {
    if was.Some? then ReadsAs(h, layers, main, was.value) else h.first.None?
  }

  /** Opening a file in a snapshot is faithful exactly when stat reports contents there, or when there is no dat file
      from there on and the main file is, like the file in the snapshot, empty or missing. */
  lemma FreshFaithfulIff(layers: Layers, vs: seq<Option<File>>, k: nat, snNumber: nat)
    requires |vs| == |layers| + 1 && k <= |layers| && LayersOk(layers, vs, k) && AllWellFormed(layers)
    ensures var main := vs[|layers|];
            var attr := GetAttr(layers, main, k);
            OpensAs(OpenHandle(layers, main, k, snNumber), layers, main, vs[k]) <==>
            || (attr.Some? && attr.value > 0)
            || (FirstFile(layers, k) == |layers| && SizeOf(main) == attr)
  {
    var j := FirstFile(layers, k);
    FreshReadsFirst(layers, vs, k, snNumber);
    GetAttrIsVersion(layers, vs, k);
    if vs[k].Some? && vs[k].value != [] {
      FirstFileIsVersion(layers, vs, k);
    } else if j < |layers| {
      assert LayerOk(layers[j], vs[j], vs[j + 1]) && WellFormed(layers[j].value);
    }
  }

  /** A file that was not there when the snapshot was made opens as whatever the main file holds now. */
  lemma MissingFileOpens()
    ensures exists layers: Layers, vs: seq<Option<File>> ::
      && |vs| == |layers| + 1 && LayersOk(layers, vs, 0) && vs[0].None?
      && GetAttr(layers, vs[|layers|], 0).None?
      && ReadsAs(OpenHandle(layers, vs[|layers|], 0, 0), layers, vs[|layers|], [7])
  {
    var layers: Layers := [Some(Overlay(false, 0, map[], None))];
    var vs: seq<Option<File>> := [None, Some([7])];
    assert LayersOk(layers, vs, 0) && AllWellFormed(layers);
    FreshReadsFirst(layers, vs, 0, 0);
    assert FirstFile(layers, 0) == 1;
    assert GetAttr(layers, vs[1], 0).None?;
  }

  /** So does a file that was empty then. */
  lemma EmptyFileOpens()
    ensures exists layers: Layers, vs: seq<Option<File>> ::
      && |vs| == |layers| + 1 && LayersOk(layers, vs, 0) && vs[0] == Some([])
      && GetAttr(layers, vs[|layers|], 0) == Some(0)
      && ReadsAs(OpenHandle(layers, vs[|layers|], 0, 0), layers, vs[|layers|], [7])
  {
    var layers: Layers := [Some(Overlay(true, 0, map[], None))];
    var vs: seq<Option<File>> := [Some([]), Some([7])];
    assert LayersOk(layers, vs, 0) && AllWellFormed(layers);
    FreshReadsFirst(layers, vs, 0, 0);
    assert FirstFile(layers, 0) == 1;
    assert GetAttr(layers, vs[1], 0) == Some(0);
  }

  // ---------------------------------------------------------------- handles kept open

  /** What writers may do to the path until the next snapshot is made. */
  ghost predicate SameEpoch(layers: Layers, layers': Layers, truth: seq<Option<File>>, main': Option<File>, k: nat) {
    && |layers| == |truth| && k < |layers|
    && TopGrows(layers, layers') && AllWellFormed(layers')
    && LayersOk(layers', truth + [main'], k)
  }

  /** Some byte of the version is still read from the main file. */
  ghost predicate Exposed(layers: Layers, f: File, k: nat) {
    exists p: nat :: p < |f| && ReadFromMain(layers, k, p)
  }

  /** A lookup that ends inside a common stretch of layers does not see the rest. */
  lemma {:induction false} LookupEndsWithin(a: Layers, b: Layers, ma: Option<File>, mb: Option<File>, k: nat, i: nat,
      p: nat)
    requires k <= i < |a| && i < |b| && forall t | k <= t <= i :: a[t] == b[t]
    requires a[i].Some? && Saved(a[i].value, BlockOf(p))
    ensures Lookup(a, ma, k, p) == Lookup(b, mb, k, p)
    decreases i - k
  {
    if k < i {
      LookupEndsWithin(a, b, ma, mb, k + 1, i, p);
    }
  }

  /** A handle that had the latest dat open, or whose file is wholly saved, goes on reading the version of its
      snapshot whatever writers do meanwhile. */
  lemma KeptHandleFaithful(layers: Layers, truth: seq<Option<File>>, main: Option<File>, k: nat, snNumber: nat,
                           layers': Layers, main': Option<File>)
    requires |layers| == |truth| && k < |layers| && LayersOk(layers, truth + [main], k) && AllWellFormed(layers)
    requires truth[k].Some? && truth[k].value != []
    requires HasDat(layers[|layers| - 1]) || !Exposed(layers, truth[k].value, k)
    requires SameEpoch(layers, layers', truth, main', k)
    ensures ReadsAs(OpenHandle(layers, main, k, snNumber), layers', main', truth[k].value)
  {
    var n, j, f := |layers|, FirstFile(layers, k), truth[k].value;
    var vs, vs' := truth + [main], truth + [main'];
    var h := OpenHandle(layers, main, k, snNumber);
    FirstFileIsVersion(layers, vs, k);
    FreshReadsFirst(layers, vs, k, snNumber);
    forall p: nat | p < |f| ensures LookupVia(h, layers', main', p) == Some(f[p]) {
      KeptByte(layers, vs, k, snNumber, layers', main', p);
      assert vs'[j] == vs[j];
      LookupIsVersion(layers', vs', j, p);
    }
  }

  lemma KeptByte(layers: Layers, vs: seq<Option<File>>, k: nat, snNumber: nat, layers': Layers, main': Option<File>,
      p: nat)
    requires |layers| == |vs| - 1 && k < |layers| && LayersOk(layers, vs, k) && AllWellFormed(layers)
    requires vs[k].Some? && p < |vs[k].value| && TopGrows(layers, layers')
    requires HasDat(layers[|layers| - 1]) || !Exposed(layers, vs[k].value, k)
    ensures var h := OpenHandle(layers, vs[|layers|], k, snNumber);
            h.first.Some? && h.first.value < |layers| &&
            LookupVia(h, layers', main', p) == Lookup(layers', main', h.first.value, p)
  {
    var n, j := |layers|, FirstFile(layers, k);
    var h := OpenHandle(layers, vs[n], k, snNumber);
    var i := SavedWithin(layers, layers', vs, k, j, p);
    var via := LayersVia(h, layers');
    forall t | j <= t <= i && t < n ensures via[t] == layers'[t] {
      assert via[t] == LayerVia(h, layers', t);
    }
    if i < n {
      LookupEndsWithin(via, layers', MainVia(h, main'), main', j, i, p);
    } else {
      ClipIsEnough(layers, vs, k, p, n);
      LookupAgrees(via, layers', MainVia(h, main'), j, p);
    }
  }

  /** Where the lookup of byte `p` ends once writers have been at work: in a layer the handle of the old state
      has fully open, or in the main file, where it then ended before too. */
  lemma SavedWithin(layers: Layers, layers': Layers, vs: seq<Option<File>>, k: nat, j: nat, p: nat) returns (i: nat)
    requires |layers| == |vs| - 1 && k < |layers| && LayersOk(layers, vs, k) && AllWellFormed(layers)
    requires vs[k].Some? && p < |vs[k].value| && j == FirstFile(layers, k)
    requires TopGrows(layers, layers')
    requires HasDat(layers[|layers| - 1]) || !Exposed(layers, vs[k].value, k)
    ensures j < |layers| && j <= i <= |layers|
    ensures i < |layers| ==> layers'[i].Some? && Saved(layers'[i].value, BlockOf(p))
    ensures i >= |layers| - 1 ==> HasDat(layers[|layers| - 1])
    ensures i == |layers| ==> ReadFromMain(layers, k, p)
  {
    var n := |layers|;
    if !ReadFromMain(layers, k, p) {
      i :| k <= i < n && layers[i].Some? && Saved(layers[i].value, BlockOf(p));
      assert WellFormed(layers[i].value);
    } else {
      assert HasDat(layers[n - 1]);
      i := if Saved(layers'[n - 1].value, BlockOf(p)) then n - 1 else n;
    }
  }

  /** The overlay after the first write to a path in a new snapshot: its map and dat are made if they are
      missing, and the one block written is saved. */
  lemma FirstWrite(layer: Option<Overlay>, main: File, p: nat, x: Byte) returns (ov': Overlay)
    requires p < |main| && !HasDat(layer) && LayerOk(layer, Some(main), Some(main))
    requires layer.Some? ==> WellFormed(layer.value)
    ensures WellFormed(ov') && Saved(ov', BlockOf(p)) && LayerOk(Some(ov'), Some(main), Some(PWrite(main, p, [x])))
    ensures layer.Some? ==> Extends(layer.value, ov')
  {
    var ov := if layer.Some? then layer.value.(dat := Some([])) else Overlay(true, |main|, map[], Some([]));
    if layer.Some? {
      assert forall b :: Pointer(ov, b) == Pointer(layer.value, b);
    }
    assert forall b :: !Saved(ov, b);
    var b, block := BlockOf(p), FillFrom(main, BlockOf(p), Zeros(BL_S));
    ov' := AppendBlock(ov, b, block);
    SaveOneMore(ov, ov, main, b, b, block);
    SaveKeepsLayer(ov, ov', Some(main), main, b, b + 1);
    forall q: nat | q < |main| && q != p ensures ByteOf(Some(PWrite(main, p, [x])), q) == ByteOf(Some(main), q) {
      PWriteFrame(main, p, [x], q);
    }
    ChangeKeepsLayer(ov', Some(main), Some(main), Some(PWrite(main, p, [x])));
  }

  /** Otherwise writing one byte is enough to make the handle read something else, or fail. */
  lemma KeptHandleBreaks(layers: Layers, truth: seq<Option<File>>, main: Option<File>, k: nat, snNumber: nat)
    returns (layers': Layers, main': Option<File>, p: nat, x: Byte)
    requires |layers| == |truth| && k < |layers| && LayersOk(layers, truth + [main], k) && AllWellFormed(layers)
    requires truth[k].Some? && !HasDat(layers[|layers| - 1]) && Exposed(layers, truth[k].value, k)
    ensures SameEpoch(layers, layers', truth, main', k)
    ensures main.Some? && p < |main.value| && main' == Some(PWrite(main.value, p, [x]))
    ensures !ReadsAs(OpenHandle(layers, main, k, snNumber), layers', main', truth[k].value)
  {
    var n, f, vs := |layers|, truth[k].value, truth + [main];
    p :| p < |f| && ReadFromMain(layers, k, p);
    ClipIsEnough(layers, vs, k, p, n);
    ClipIsEnough(layers, vs, k, p, n - 1);
    assert LayerOk(layers[n - 1], vs[n - 1], vs[n]);
    assert truth[n - 1] == main;
    x := if f[p] == 0 then 1 else 0;
    var ov' := FirstWrite(layers[n - 1], main.value, p, x);
    layers' := layers[n - 1 := Some(ov')];
    main' := Some(PWrite(main.value, p, [x]));
    ChangeTop(layers, truth, main, k, Some(ov'), main');
    WriteMissed(layers, layers', main, main', k, snNumber, p);
  }

  /** The handle does not see the save, so it sees the write, or nothing. */
  lemma WriteMissed(layers: Layers, layers': Layers, main: Option<File>, main': Option<File>, k: nat, snNumber: nat,
      p: nat)
    requires |layers'| == |layers| && k < |layers| && !HasDat(layers[|layers| - 1]) && ReadFromMain(layers, k, p)
    requires layers' == layers[|layers| - 1 := layers'[|layers| - 1]] && main'.Some? && p < |main'.value|
    ensures var h := OpenHandle(layers, main, k, snNumber);
            Fits(h, layers') && (h.first.Some? ==>
              var r := LookupVia(h, layers', main', p); r.None? || r == Some(main'.value[p]))
  {
    var h := OpenHandle(layers, main, k, snNumber);
    if h.first.Some? {
      LookupMissesSave(h, layers', main', h.first.value, p);
    }
  }

  lemma {:induction false} LookupMissesSave(h: SnHandle, layers: Layers, main: Option<File>, j: nat, p: nat)
    requires |layers| == |h.mapOpen| == |h.datOpen| && j <= |layers| && 0 < |layers| && main.Some? && p < |main.value|
    requires forall t | j <= t < |layers| - 1 && layers[t].Some? :: !Saved(layers[t].value, BlockOf(p))
    requires !h.datOpen[|layers| - 1]
    ensures var r := Lookup(LayersVia(h, layers), MainVia(h, main), j, p); r.None? || r == Some(main.value[p])
    decreases |layers| - j
  {
    if j < |layers| {
      assert LayersVia(h, layers)[j] == LayerVia(h, layers, j);
      LookupMissesSave(h, layers, main, j + 1, p);
    }
  }

  /** A handle on a file with contents stays faithful until the next snapshot, whatever writers do, exactly
      when at the time of opening the latest snapshot had a dat file for it, or nothing of it was left to
      read from the main file. */
  lemma KeptFaithfulIff(layers: Layers, truth: seq<Option<File>>, main: Option<File>, k: nat, snNumber: nat)
    requires |layers| == |truth| && k < |layers| && LayersOk(layers, truth + [main], k) && AllWellFormed(layers)
    requires truth[k].Some? && truth[k].value != []
    ensures (forall layers', main' | SameEpoch(layers, layers', truth, main', k) ::
               ReadsAs(OpenHandle(layers, main, k, snNumber), layers', main', truth[k].value))
            <==> HasDat(layers[|layers| - 1]) || !Exposed(layers, truth[k].value, k)
  {
    if HasDat(layers[|layers| - 1]) || !Exposed(layers, truth[k].value, k) {
      forall layers', main' | SameEpoch(layers, layers', truth, main', k)
        ensures ReadsAs(OpenHandle(layers, main, k, snNumber), layers', main', truth[k].value)
      {
        KeptHandleFaithful(layers, truth, main, k, snNumber, layers', main');
      }
    } else {
      var layers', main', p, x := KeptHandleBreaks(layers, truth, main, k, snNumber);
    }
  }

  // ---------------------------------------------------------------- snapshots whose removal broke off

  /** Stat in snapshot `k` reports the existence and size of `was`, and opening it gives its contents if it had any. */
  ghost predicate Shows(layers: Layers, main: Option<File>, k: nat, was: Option<File>)
    requires k <= |layers|
  {
    && GetAttr(layers, main, k) == SizeOf(was)
    && (was.Some? && was.value != [] ==> ReadsAs(OpenHandle(layers, main, k, 0), layers, main, was.value))
  }

  /** What a removal that broke off leaves of an overlay. */
  function Remains(layer: Option<Overlay>, mapGone: bool, datGone: bool): Option<Overlay> {
    if mapGone || layer.None? then None
    else if datGone then Some(layer.value.(dat := None))
    else layer
  }

  /** A map or dat that was there has gone. */
  predicate Loses(layer: Option<Overlay>, mapGone: bool, datGone: bool) {
    (mapGone && layer.Some?) || (datGone && HasDat(layer))
  }

  /** The main file is still what the latest snapshot shows: as large, and the same in every saved block. */
  ghost predicate StillMain(layers: Layers, main: Option<File>)
    requires layers != []
  {
    var k := |layers| - 1;
    && SizeOf(main) == GetAttr(layers, main, k)
    && (main.Some? ==> forall p: nat | p < |main.value| :: Lookup(layers, main, k, p) == Some(main.value[p]))
  }

  lemma StillMainIff(layers: Layers, was: Option<File>, main: Option<File>)
    requires layers != [] && LayerOk(layers[|layers| - 1], was, main)
    ensures StillMain(layers, main) <==> main == was
  {
    var k := |layers| - 1;
    var top := [layers[k]];
    var vs := [was, main];
    assert LayersOk(top, vs, 0);
    GetAttrIsVersion(top, vs, 0);
    assert GetAttr(layers, main, k + 1) == GetAttr(top, main, 1);
    forall p: nat | was.Some? && p < |was.value| ensures Lookup(layers, main, k, p) == Some(was.value[p]) {
      assert Lookup(layers, main, k + 1, p) == Lookup(top, main, 1, p);
      LookupIsVersion(top, vs, 0, p);
    }
    if StillMain(layers, main) && main.Some? {
      assert forall p: nat | p < |main.value| :: main.value[p] == was.value[p];
      assert main.value == was.value;
    }
  }

  /** If the removal of the only snapshot breaks off, the snapshot goes on showing the file exactly if neither its map
      nor its dat has gone, or the main file is still what the snapshot showed. */
  lemma BrokenRemovalIff(layers: Layers, was: Option<File>, main: Option<File>, mapGone: bool, datGone: bool)
    requires layers != [] && LayerOk(layers[|layers| - 1], was, main) && AllWellFormed(layers)
    ensures var k := |layers| - 1;
            Shows(layers[k := Remains(layers[k], mapGone, datGone)], main, k, was) <==>
            !Loses(layers[k], mapGone, datGone) || StillMain(layers, main)
  {
    var k := |layers| - 1;
    var left := layers[k := Remains(layers[k], mapGone, datGone)];
    StillMainIff(layers, was, main);
    if left[k] == layers[k] {
      assert left == layers;
      LatestShows(layers, was, main);
    } else {
      assert GetAttr(left, main, k + 1) == SizeOf(main);
      RemainsOpenAsMain(left, main);
    }
  }

  /** An intact latest snapshot shows its version. */
  lemma LatestShows(layers: Layers, was: Option<File>, main: Option<File>)
    requires layers != [] && LayerOk(layers[|layers| - 1], was, main) && AllWellFormed(layers)
    ensures Shows(layers, main, |layers| - 1, was)
  {
    var k := |layers| - 1;
    var vs := seq(k, _ => None) + [was, main];
    assert LayersOk(layers, vs, k);
    GetAttrIsVersion(layers, vs, k);
    if was.Some? && was.value != [] {
      FirstFileIsVersion(layers, vs, k);
      FreshReadsFirst(layers, vs, k, 0);
    }
  }

  /** Without a dat in the latest snapshot a file opens there as the main file. */
  lemma RemainsOpenAsMain(left: Layers, main: Option<File>)
    requires left != [] && !HasDat(left[|left| - 1])
    ensures forall f ::
              ReadsAs(OpenHandle(left, main, |left| - 1, 0), left, main, f) <==> main == Some(f)
  {
    var k := |left| - 1;
    var h := OpenHandle(left, main, k, 0);
    assert FirstFile(left, k + 1) == k + 1 == FirstFile(left, k);
    forall f ensures ReadsAs(h, left, main, f) <==> main == Some(f) {
      if main.Some? {
        assert forall p: nat :: LookupVia(h, left, main, p) == ByteOf(main, p);
        if ReadsAs(h, left, main, f) {
          assert forall p: nat | p < |f| :: ByteOf(main, p) == Some(f[p]);
          assert main.value == f;
        }
      }
    }
  }

  /** Whatever was saved before a change of the main file, the latest snapshot goes on showing its version exactly if
      nothing it still needs was changed. */
  lemma ShowsIffUnharmed(layers: Layers, was: Option<File>, main: Option<File>, main': Option<File>)
    requires layers != [] && LayerOk(layers[|layers| - 1], was, main) && AllWellFormed(layers)
    ensures Shows(layers, main', |layers| - 1, was) <==> Unharmed(layers[|layers| - 1], main, main')
  {
    var k := |layers| - 1;
    LayerIffUnharmed(layers[k], was, main, main');
    if LayerOk(layers[k], was, main') {
      LatestShows(layers, was, main');
    } else if !HasDat(layers[k]) {
      assert GetAttr(layers, main', k + 1) == SizeOf(main');
      RemainsOpenAsMain(layers, main');
    } else {
      HarmShows(layers, was, main, main');
    }
  }

  lemma HarmShows(layers: Layers, was: Option<File>, main: Option<File>, main': Option<File>)
    requires layers != [] && LayerOk(layers[|layers| - 1], was, main) && AllWellFormed(layers)
    requires HasDat(layers[|layers| - 1]) && !Unharmed(layers[|layers| - 1], main, main')
    ensures !Shows(layers, main', |layers| - 1, was)
  {
    var k := |layers| - 1;
    var ov := layers[k].value;
    assert WellFormed(ov);
    var p: nat :| p < ov.size && !Saved(ov, BlockOf(p)) && ByteOf(main', p) != ByteOf(main, p);
    assert ByteOf(main, p) == Some(was.value[p]);
    var h := OpenHandle(layers, main', k, 0);
    assert LayersVia(h, layers)[k] == LayerVia(h, layers, k) == layers[k];
    assert Lookup(LayersVia(h, layers), MainVia(h, main'), k, p)
           == Lookup(LayersVia(h, layers), MainVia(h, main'), k + 1, p) == ByteOf(main', p);
  }

  /** A file that was not there when the only snapshot was made is found in it once the map has gone. */
  lemma BrokenRemovalExample()
    ensures var layers: Layers, main: Option<File> := [Some(Overlay(false, 0, map[], None))], Some([7]);
            && LayerOk(layers[0], None, main) && AllWellFormed(layers) && Shows(layers, main, 0, None)
            && !Shows([Remains(layers[0], true, true)], main, 0, None)
  {
    var layers: Layers, main: Option<File> := [Some(Overlay(false, 0, map[], None))], Some([7]);
    BrokenRemovalIff(layers, None, main, true, true);
    StillMainIff(layers, None, main);
    LatestShows(layers, None, main);
    assert layers[0 := Remains(layers[0], true, true)] == [Remains(layers[0], true, true)];
  }
}
