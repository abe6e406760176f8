/** What saving blocks may do to an overlay, what changing the main file may do to a snapshot,
    and how the two keep every snapshot intact. */
module Saving {
  import opened Base
  import opened Blocks
  import opened Store

  /** Overlays only ever gain pointers and dat bytes; the header never changes. */
  ghost predicate Extends(ov: Overlay, ov': Overlay) {
    && ov'.existed == ov.existed && ov'.size == ov.size
    && (forall b | Saved(ov, b) :: Pointer(ov', b) == Pointer(ov, b))
    && (ov.dat.Some? ==> ov'.dat.Some? && ov.dat.value <= ov'.dat.value)
  }

  /** Layers only ever appear, extend, or are added at the end. */
  ghost predicate Grows(layers: Layers, layers': Layers) {
    && |layers| <= |layers'|
    && forall k | 0 <= k < |layers| && layers[k].Some? ::
         layers'[k].Some? && Extends(layers[k].value, layers'[k].value)
  }

  /** Only the latest layer changed, and it grew. */
  ghost predicate TopGrows(layers: Layers, layers': Layers) {
    && |layers'| == |layers| && Grows(layers, layers')
    && forall k | 0 <= k < |layers| - 1 :: layers'[k] == layers[k]
  }

  /** The block has a byte from `lo` on. */
  predicate EndsAfter(b: nat, lo: nat) {
    lo < b * BL_S + BL_S
  }

  /** The block has a byte in [lo, hi). */
  predicate Meets(b: nat, lo: nat, hi: nat) {
    lo < hi && b * BL_S < hi && EndsAfter(b, lo)
  }

  /** Only blocks that meet [lo, hi) were saved. */
  ghost predicate SavesOnly(layers: Layers, layers': Layers, lo: nat, hi: nat) {
    && |layers'| == |layers|
    && forall k, b: nat | 0 <= k < |layers| && layers'[k].Some? && Saved(layers'[k].value, b) ::
         Meets(b, lo, hi) || (layers[k].Some? && Saved(layers[k].value, b))
  }

  /** No block was saved. */
  ghost predicate SavesNone(layers: Layers, layers': Layers) {
    && |layers'| == |layers|
    && forall k, b: nat | 0 <= k < |layers| && layers'[k].Some? && Saved(layers'[k].value, b) ::
         layers[k].Some? && Saved(layers[k].value, b)
  }

  /** Only blocks with a byte from `lo` on were saved. */
  ghost predicate SavesFrom(layers: Layers, layers': Layers, lo: nat) {
    && |layers'| == |layers|
    && forall k, b: nat | 0 <= k < |layers| && layers'[k].Some? && Saved(layers'[k].value, b) ::
         EndsAfter(b, lo) || (layers[k].Some? && Saved(layers[k].value, b))
  }

  lemma SavesAfterNone(a: Layers, b: Layers, c: Layers, lo: nat, hi: nat)
    requires SavesNone(a, b) && SavesOnly(b, c, lo, hi)
    ensures SavesOnly(a, c, lo, hi) && SavesFrom(a, c, lo)
  {
    forall k, p: nat | 0 <= k < |a| && c[k].Some? && Saved(c[k].value, p)
      ensures EndsAfter(p, lo) || (a[k].Some? && Saved(a[k].value, p))
    {
      assert Meets(p, lo, hi) || (b[k].Some? && Saved(b[k].value, p));
    }
  }

  /** The blocks of a range meet it. */
  lemma RangeMeets(offset: nat, size: nat, hi: nat)
    requires size > 0 && offset + size <= hi
    ensures var (first, count) := CalcBlocks(offset, size);
            forall b: nat | first <= b < first + count :: Meets(b, offset, hi)
  {
    var (first, count) := CalcBlocks(offset, size);
    forall b: nat | first <= b < first + count ensures Meets(b, offset, hi) {
      CalcBlocksExact(offset, size, b);
    }
  }

  lemma ExtendsTwice(a: Overlay, b: Overlay, c: Overlay)
    requires Extends(a, b) && Extends(b, c)
    ensures Extends(a, c)
  {
  }

  lemma GrowsTwice(a: Layers, b: Layers, c: Layers)
    requires Grows(a, b) && Grows(b, c)
    ensures Grows(a, c)
    ensures TopGrows(a, b) && TopGrows(b, c) ==> TopGrows(a, c)
  {
    forall k | 0 <= k < |a| && a[k].Some? ensures c[k].Some? && Extends(a[k].value, c[k].value) {
      ExtendsTwice(a[k].value, b[k].value, c[k].value);
    }
  }

  /** Block `b` of the dat file holds block `b` of the main file. */
  ghost predicate HoldsBlock(ov: Overlay, b: nat, main: File) {
    && Saved(ov, b)
    && forall p: nat | p < |main| && BlockOf(p) == b :: DatByte(ov, p) == Some(main[p])
  }

  /** How far a run over the blocks [first, last) got before it ended or broke off: new pointers only for
      those blocks, each one leading to a copy of the block of the main file. */
  ghost predicate SaveOutcome(ov: Overlay, ov': Overlay, main: File, first: nat, last: nat) {
    && WellFormed(ov') && Extends(ov, ov')
    && forall b: nat | Saved(ov', b) && !Saved(ov, b) :: first <= b < last && HoldsBlock(ov', b, main)
  }

  /** Every block that holds a byte of [lo, hi) below the recorded size is saved. */
  ghost predicate RangeSaved(ov: Overlay, lo: nat, hi: nat) {
    forall p: nat | lo <= p < hi && p < ov.size :: Saved(ov, BlockOf(p))
  }

  ghost predicate InUse(ov: Overlay, pointer: nat) {
    exists b: nat :: Pointer(ov, b) == pointer
  }

  /** The pointers in use are exactly 1..n for a dat file of n blocks. */
  ghost predicate Dense(ov: Overlay) {
    && WellFormed(ov) && ov.dat.Some? && |ov.dat.value| % BL_S == 0
    && forall n: nat | 1 <= n <= |ov.dat.value| / BL_S :: InUse(ov, n)
  }

  /** Every dat file there is has a pointer to each of its blocks, and nothing else. */
  ghost predicate AllDense(layers: Layers) {
    forall k | 0 <= k < |layers| && layers[k].Some? && layers[k].value.dat.Some? :: Dense(layers[k].value)
  }

  /** The effect of one complete save: append the block, then publish the pointer. */
  function AppendBlock(ov: Overlay, b: nat, block: File): Overlay
    requires ov.dat.Some?
  {
    ov.(ptrs := ov.ptrs[b := |ov.dat.value| / BL_S + 1], dat := Some(ov.dat.value + block))
  }

  /** The pointers, and the number of blocks in the dat file, after going over `n` blocks from `b` and saving each one
      whose pointer in the map is 0. */
  function SavedPtrs(ptrs: map<nat, nat>, blocks: nat, b: nat, n: nat): (map<nat, nat>, nat)
    decreases n
  {
    if n == 0 then (ptrs, blocks)
    else if b in ptrs && ptrs[b] != 0 then SavedPtrs(ptrs, blocks, b + 1, n - 1)
    else SavedPtrs(ptrs[b := blocks + 1], blocks + 1, b + 1, n - 1)
  }

  /** What pread into a buffer of one block leaves there: the bytes the file has, then what was there before. */
  function FillFrom(main: File, b: nat, buf: File): (r: File)
    requires |buf| == BL_S
    ensures |r| == BL_S
    ensures forall p: nat | p < |main| && BlockOf(p) == b :: r[p % BL_S] == main[p]
  {
    var lo := Min(b * BL_S, |main|);
    var hi := Min(b * BL_S + BL_S, |main|);
    assert forall p: nat | p < |main| && BlockOf(p) == b :: p % BL_S == p - b * BL_S;
    main[lo..hi] + buf[hi - lo..]
  }

  lemma ExtendsKeepsByte(ov: Overlay, ov': Overlay, p: nat)
    requires WellFormed(ov) && Extends(ov, ov') && Saved(ov, BlockOf(p))
    ensures Saved(ov', BlockOf(p)) && DatByte(ov', p) == DatByte(ov, p)
  {
    var at := (Pointer(ov, BlockOf(p)) - 1) * BL_S + p % BL_S;
    assert at < |ov.dat.value|;
  }

  lemma AppendBlockWellFormed(ov: Overlay, b: nat, block: File)
    requires WellFormed(ov) && ov.dat.Some? && |ov.dat.value| % BL_S == 0 && |block| == BL_S && !Saved(ov, b)
    ensures WellFormed(AppendBlock(ov, b, block)) && Extends(ov, AppendBlock(ov, b, block))
    ensures forall c | Saved(AppendBlock(ov, b, block), c) :: c == b || Saved(ov, c)
  {
    var ov' := AppendBlock(ov, b, block);
    assert forall c :: Pointer(ov', c) == if c == b then |ov.dat.value| / BL_S + 1 else Pointer(ov, c);
  }

  /** Creating the dat file changes nothing a reader depends on. */
  lemma EmptyDat(ov: Overlay, was: Option<File>, main: Option<File>)
    requires WellFormed(ov) && ov.dat.None? && ov.existed && ov.size > 0
    ensures WellFormed(ov.(dat := Some([]))) && Extends(ov, ov.(dat := Some([])))
    ensures Dense(ov.(dat := Some([])))
    ensures LayerOk(Some(ov), was, main) ==> LayerOk(Some(ov.(dat := Some([]))), was, main)
  {
    var ov' := ov.(dat := Some([]));
    assert forall b :: Pointer(ov', b) == Pointer(ov, b);
  }

  /** One more block saved carries the outcome one block further. */
  lemma SaveOneMore(ov: Overlay, cur: Overlay, main: File, first: nat, b: nat, block: File)
    requires WellFormed(ov) && SaveOutcome(ov, cur, main, first, b) && first <= b && !Saved(cur, b)
    requires cur.dat.Some? && |cur.dat.value| % BL_S == 0 && |block| == BL_S
    requires forall p: nat | p < |main| && BlockOf(p) == b :: block[p % BL_S] == main[p]
    ensures SaveOutcome(ov, AppendBlock(cur, b, block), main, first, b + 1)
  {
    var cur' := AppendBlock(cur, b, block);
    AppendBlockWellFormed(cur, b, block);
    forall c: nat | Saved(cur', c) && !Saved(ov, c)
      ensures first <= c < b + 1 && HoldsBlock(cur', c, main)
    {
      if c != b {
        forall p: nat | p < |main| && BlockOf(p) == c ensures DatByte(cur', p) == Some(main[p]) {
          ExtendsKeepsByte(cur, cur', p);
        }
      }
    }
  }

  lemma AppendBlockDense(ov: Overlay, b: nat, block: File)
    requires Dense(ov) && |block| == BL_S && !Saved(ov, b)
    ensures Dense(AppendBlock(ov, b, block))
  {
    var ov' := AppendBlock(ov, b, block);
    AppendBlockWellFormed(ov, b, block);
    forall n: nat | 1 <= n <= |ov'.dat.value| / BL_S ensures InUse(ov', n) {
      if n <= |ov.dat.value| / BL_S {
        assert InUse(ov, n);
        var c: nat :| Pointer(ov, c) == n;
        assert Pointer(ov', c) == n;
      } else {
        assert Pointer(ov', b) == n;
      }
    }
  }

  /** Saving the blocks of the clipped range saves every byte of the range below the recorded size. */
  lemma RangeOfBlocks(ov: Overlay, offset: nat, clipped: nat, size: nat)
    requires clipped > 0 && (clipped == size || ov.size <= offset + clipped)
    requires var (first, count) := CalcBlocks(offset, clipped); forall c | first <= c < first + count :: Saved(ov, c)
    ensures RangeSaved(ov, offset, offset + size)
  {
    forall p: nat | offset <= p < offset + size && p < ov.size ensures Saved(ov, BlockOf(p)) {
      CalcBlocksExact(offset, clipped, BlockOf(p));
    }
  }

  /** Bytes that reach the dat file without a pointer to them leave the overlay as good as it was. */
  lemma TornAppend(ov: Overlay, cur: Overlay, main: File, first: nat, last: nat, torn: File)
    requires WellFormed(ov) && SaveOutcome(ov, cur, main, first, last) && cur.dat.Some?
    ensures SaveOutcome(ov, cur.(dat := Some(cur.dat.value + torn)), main, first, last)
  {
    var cur' := cur.(dat := Some(cur.dat.value + torn));
    assert forall c :: Pointer(cur', c) == Pointer(cur, c);
    forall c: nat | Saved(cur', c) && !Saved(ov, c) ensures HoldsBlock(cur', c, main) {
      forall p: nat | p < |main| && BlockOf(p) == c ensures DatByte(cur', p) == Some(main[p]) {
        ExtendsKeepsByte(cur, cur', p);
      }
    }
  }

  /** Wherever saving stops, the snapshot is as readable as before. */
  lemma SaveKeepsLayer(ov: Overlay, ov': Overlay, was: Option<File>, main: File, first: nat, last: nat)
    requires WellFormed(ov) && ov.dat.Some? && LayerOk(Some(ov), was, Some(main))
              && SaveOutcome(ov, ov', main, first, last)
    ensures LayerOk(Some(ov'), was, Some(main))
  {
    forall p: nat | p < |was.value| && Saved(ov', BlockOf(p)) ensures DatByte(ov', p) == Some(was.value[p]) {
      if Saved(ov, BlockOf(p)) {
        ExtendsKeepsByte(ov, ov', p);
      } else {
        assert ByteOf(Some(main), p) == Some(was.value[p]);
        assert HoldsBlock(ov', BlockOf(p), main);
      }
    }
  }

  /** A change of the main file keeps the latest snapshot: enough that unsaved bytes below the recorded size stay as
      they are. */
  lemma ChangeKeepsLayer(ov: Overlay, was: Option<File>, main: Option<File>, main': Option<File>)
    requires LayerOk(Some(ov), was, main) && (ov.existed && ov.size > 0 ==> ov.dat.Some?)
    requires forall p: nat | p < ov.size && !Saved(ov, BlockOf(p)) && ByteOf(main, p).Some? ::
               ov.existed ==> ByteOf(main', p) == ByteOf(main, p)
    ensures LayerOk(Some(ov), was, main')
  {
    if was.Some? {
      forall p: nat | p < |was.value| && !Saved(ov, BlockOf(p)) ensures ByteOf(main', p) == Some(was.value[p]) {
        assert ByteOf(main, p) == Some(was.value[p]);
      }
    }
  }

  /** Saving into any layer keeps all layers well-formed, and saving into the latest keeps every snapshot. */
  lemma SaveKeepsLayers(layers: Layers, truth: seq<Option<File>>, main: File, from: nat, k: nat, ov': Overlay,
      first: nat, last: nat)
    requires from <= |layers| == |truth| && k < |layers| && AllWellFormed(layers)
              && LayersOk(layers, truth + [Some(main)], from)
    requires layers[k].Some? && layers[k].value.dat.Some? && SaveOutcome(layers[k].value, ov', main, first, last)
    requires from < |layers| ==> k == |layers| - 1
    ensures var layers' := layers[k := Some(ov')];
            AllWellFormed(layers') && Grows(layers, layers') && LayersOk(layers', truth + [Some(main)], from)
    ensures k == |layers| - 1 ==> TopGrows(layers, layers[k := Some(ov')])
  {
    if from < |layers| {
      TopOk(layers, truth, Some(main), from);
      SaveKeepsLayer(layers[k].value, ov', truth[k], main, first, last);
      ChangeTop(layers, truth, Some(main), from, Some(ov'), Some(main));
    }
  }

  /** How far the block loop has got at block `b`, with `n` blocks to go, since it started with `ov` at `first`. */
  ghost predicate LoopOk(ov: Overlay, cur: Overlay, main: File, first: nat, b: nat, n: nat) {
    && cur.dat.Some? && ov.dat.Some? && first <= b
    && SaveOutcome(ov, cur, main, first, b)
    && (forall c | first <= c < b :: Saved(cur, c))
    && SavedPtrs(cur.ptrs, |cur.dat.value| / BL_S, b, n) == SavedPtrs(ov.ptrs, |ov.dat.value| / BL_S, first,
        b - first + n)
    && (Dense(ov) ==> Dense(cur))
    && (|ov.dat.value| % BL_S != 0 ==> cur == ov)
  }

  lemma LoopSkips(ov: Overlay, cur: Overlay, main: File, first: nat, b: nat, n: nat)
    requires LoopOk(ov, cur, main, first, b, n) && n > 0 && Saved(cur, b)
    ensures LoopOk(ov, cur, main, first, b + 1, n - 1)
  {
  }

  lemma LoopSaves(ov: Overlay, cur: Overlay, main: File, first: nat, b: nat, n: nat, block: File)
    requires WellFormed(ov) && LoopOk(ov, cur, main, first, b, n) && n > 0 && !Saved(cur, b)
    requires |cur.dat.value| % BL_S == 0 && |block| == BL_S
    requires forall p: nat | p < |main| && BlockOf(p) == b :: block[p % BL_S] == main[p]
    ensures LoopOk(ov, AppendBlock(cur, b, block), main, first, b + 1, n - 1)
  {
    var cur' := AppendBlock(cur, b, block);
    SaveOneMore(ov, cur, main, first, b, block);
    AppendBlockWellFormed(cur, b, block);
    if Dense(ov) {
      AppendBlockDense(cur, b, block);
    }
    assert |cur'.dat.value| / BL_S == |cur.dat.value| / BL_S + 1;
    forall c | first <= c < b + 1 ensures Saved(cur', c) {
      assert c < b ==> Saved(cur, c);
    }
  }

  /** A change of the main file leaves every snapshot intact if the latest one has what it needs. */
  lemma ChangeMain(layers: Layers, truth: seq<Option<File>>, main: Option<File>, from: nat, main': Option<File>)
    requires from <= |layers| == |truth| && LayersOk(layers, truth + [main], from)
    requires from < |layers| ==>
      var top := layers[|layers| - 1];
      && top.Some? && (top.value.existed && top.value.size > 0 ==> top.value.dat.Some?)
      && forall p: nat | p < top.value.size && !Saved(top.value, BlockOf(p)) && ByteOf(main, p).Some? ::
           top.value.existed ==> ByteOf(main', p) == ByteOf(main, p)
    ensures LayersOk(layers, truth + [main'], from)
  {
    if from < |layers| {
      var n := |layers|;
      TopOk(layers, truth, main, from);
      ChangeKeepsLayer(layers[n - 1].value, truth[n - 1], main, main');
      ChangeTop(layers, truth, main, from, layers[n - 1], main');
      assert layers[n - 1 := layers[n - 1]] == layers;
    }
  }

  /** No layer from `k` on has a pointer for byte `p`, so it is read from the main file. */
  ghost predicate ReadFromMain(layers: Layers, k: nat, p: nat) {
    forall j | k <= j < |layers| && layers[j].Some? :: !Saved(layers[j].value, BlockOf(p))
  }

  /** A byte that any snapshot still reads from the main file is part of every later version, so it lies
      below the size recorded, or yet to be recorded, by the latest snapshot: clipping a save to that
      size never skips it. */
  lemma {:induction false} ClipIsEnough(layers: Layers, vs: seq<Option<File>>, k: nat, p: nat, j: nat)
    requires |vs| == |layers| + 1 && k <= j <= |layers| && LayersOk(layers, vs, k)
    requires vs[k].Some? && p < |vs[k].value| && ReadFromMain(layers, k, p)
    ensures ByteOf(vs[j], p) == Some(vs[k].value[p])
    ensures j < |layers| && layers[j].Some? ==> layers[j].value.existed && p < layers[j].value.size
    decreases j
  {
    if k < j {
      ClipIsEnough(layers, vs, k, p, j - 1);
      assert LayerOk(layers[j - 1], vs[j - 1], vs[j]);
      if layers[j - 1].Some? {
        assert !Saved(layers[j - 1].value, BlockOf(p));
      }
    }
    if j < |layers| {
      assert LayerOk(layers[j], vs[j], vs[j + 1]);
    }
  }

  /** An unsaved block that meets the recorded size is present in the main file up to that size, so the
      read that precedes a save returns at least one byte. */
  lemma UnsavedStillThere(ov: Overlay, was: File, main: Option<File>, p: nat)
    requires LayerOk(Some(ov), Some(was), main) && p < ov.size && !Saved(ov, BlockOf(p))
    ensures main.Some? && BlockOf(p) * BL_S < |main.value|
    ensures var hi := Min(BlockOf(p) * BL_S + BL_S, ov.size);
            hi <= |main.value| && main.value[BlockOf(p) * BL_S..hi] == was[BlockOf(p) * BL_S..hi]
  {
    var b := BlockOf(p);
    var hi := Min(b * BL_S + BL_S, ov.size);
    assert forall q: nat | b * BL_S <= q < hi :: BlockOf(q) == b && ByteOf(main, q) == Some(was[q]);
    assert BlockOf(hi - 1) == b && ByteOf(main, hi - 1) == Some(was[hi - 1]);
  }

  /** So no block of the clipped range that has to be saved lies past the end of the main file. */
  lemma NeverPastEnd(ov: Overlay, was: Option<File>, main: File, offset: nat, clipped: nat)
    requires LayerOk(Some(ov), was, Some(main)) && ov.existed && clipped > 0 && offset + clipped <= ov.size
    ensures var (first, count) := CalcBlocks(offset, clipped);
            forall b | first <= b < first + count && !Saved(ov, b) :: b * BL_S < |main|
  {
    var (first, count) := CalcBlocks(offset, clipped);
    forall b | first <= b < first + count && !Saved(ov, b) ensures b * BL_S < |main| {
      CalcBlocksExact(offset, clipped, b);
      var p: nat :| offset <= p < offset + clipped && BlockOf(p) == b;
      UnsavedStillThere(ov, was.value, Some(main), p);
    }
  }

  // ---------------------------------------------------------------- changes of the main file

  function Zeros(n: nat): File {
    seq(n, _ => 0)
  }

  /** pwrite: a write past the end leaves a hole of zeros; an empty write changes nothing. */
  function PWrite(f: File, offset: nat, data: File): File {
    if data == [] then f
    else if offset + |data| <= |f| then f[..offset] + data + f[offset + |data|..]
    else if offset <= |f| then f[..offset] + data
    else f + Zeros(offset - |f|) + data
  }

  function Truncated(f: File, newsize: nat): File {
    if newsize <= |f| then f[..newsize] else f + Zeros(newsize - |f|)
  }

  /** What writing `data` at an offset into `f` has to give: the data are there, what was outside their range stays, a
      gap between the old end and the data is filled with zeros, and the file is no longer than it has to be. */
  ghost predicate IsWritten(f: File, offset: nat, data: File, r: File) {
    if data == [] then r == f
    else
      && |r| == Max(|f|, offset + |data|) && r[offset..offset + |data|] == data
      && (forall p | 0 <= p < |f| && !(offset <= p < offset + |data|) :: r[p] == f[p])
      && forall p | |f| <= p < offset :: r[p] == 0
  }

  /** A write gives that, and nothing else is that. */
  lemma PWriteIsWritten(f: File, offset: nat, data: File, r: File)
    ensures IsWritten(f, offset, data, r) <==> r == PWrite(f, offset, data)
  {
    var w := PWrite(f, offset, data);
    if data != [] {
      assert w[offset..offset + |data|] == data;
      if IsWritten(f, offset, data, r) {
        forall p | 0 <= p < |r| ensures r[p] == w[p] {
          if offset <= p < offset + |data| {
            assert r[p] == r[offset..offset + |data|][p - offset];
          }
        }
      }
    }
  }

  /** What changing the size of `f` has to give: that size, the bytes that fit, and zeros after the old end. */
  ghost predicate IsResized(f: File, newsize: nat, r: File) {
    && |r| == newsize && (forall p | 0 <= p < newsize && p < |f| :: r[p] == f[p])
    && forall p | |f| <= p < newsize :: r[p] == 0
  }

  lemma TruncatedIsResized(f: File, newsize: nat, r: File)
    ensures IsResized(f, newsize, r) <==> r == Truncated(f, newsize)
  {
    if IsResized(f, newsize, r) {
      assert forall p | 0 <= p < |r| :: r[p] == Truncated(f, newsize)[p];
    }
  }

  /** A pwrite changes no byte the file already had outside the range written. */
  lemma PWriteFrame(f: File, offset: nat, data: File, p: nat)
    requires p < |f| && !(offset <= p < offset + |data|)
    ensures ByteOf(Some(PWrite(f, offset, data)), p) == Some(f[p])
  {
  }

  /** A truncation changes no byte the file already had below the new size. */
  lemma TruncatedFrame(f: File, newsize: nat, p: nat)
    requires p < |f| && p < newsize
    ensures ByteOf(Some(Truncated(f, newsize)), p) == Some(f[p])
  {
  }

  // ---------------------------------------------------------------- a snapshot made between the save and the write

  /** Everything the latest snapshot needs of [lo, hi) of the main file is in its overlay. */
  ghost predicate TopPrepared(layers: Layers, from: nat, lo: nat, hi: nat) {
    from < |layers| ==>
      var top := layers[|layers| - 1];
      && top.Some?
      && (top.value.existed && top.value.size > 0 ==> top.value.dat.Some? && RangeSaved(top.value, lo, hi))
  }

  /** The dat file of the latest snapshot is not a whole number of blocks, and something of [lo, hi) is not saved. */
  ghost predicate TornTop(layers: Layers, lo: nat, hi: nat) {
    && layers != [] && layers[|layers| - 1].Some?
    && var ov := layers[|layers| - 1].value;
    && ov.dat.Some? && |ov.dat.value| % BL_S != 0 && !RangeSaved(ov, lo, hi)
  }

  /** The same for everything from `lo` on. */
  ghost predicate TornTopFrom(layers: Layers, lo: nat) {
    layers != [] && layers[|layers| - 1].Some? && TornTop(layers, lo, layers[|layers| - 1].value.size)
  }

  /** The dat file of the latest snapshot, if there is one, is a whole number of blocks. */
  ghost predicate WholeTop(layers: Layers) {
    layers != [] && layers[|layers| - 1].Some? && layers[|layers| - 1].value.dat.Some? ==>
      |layers[|layers| - 1].value.dat.value| % BL_S == 0
  }

  /** A prepared write leaves every snapshot intact. */
  lemma PreparedWrite(layers: Layers, truth: seq<Option<File>>, main: File, from: nat, offset: nat, data: File, hi: nat)
    requires from <= |layers| == |truth| && LayersOk(layers, truth + [Some(main)], from)
    requires TopPrepared(layers, from, offset, hi) && offset + |data| <= hi
    ensures LayersOk(layers, truth + [Some(PWrite(main, offset, data))], from)
  {
    var main' := Some(PWrite(main, offset, data));
    forall p: nat | p < |main| && !(offset <= p < hi) ensures ByteOf(main', p) == ByteOf(Some(main), p) {
      PWriteFrame(main, offset, data, p);
    }
    ChangeMain(layers, truth, Some(main), from, main');
  }

  /** A snapshot without an overlay adds nothing to what is found in older ones. */
  lemma {:induction false} NewLayerUnseen(layers: Layers, main: Option<File>, k: nat, p: nat)
    requires k <= |layers|
    ensures Lookup(layers + [None], main, k, p) == Lookup(layers, main, k, p)
    ensures GetAttr(layers + [None], main, k) == GetAttr(layers, main, k)
    decreases |layers| - k
  {
    if k < |layers| {
      NewLayerUnseen(layers, main, k + 1, p);
    } else {
      assert Lookup(layers + [None], main, k, p) == Lookup(layers + [None], main, k + 1, p);
      assert GetAttr(layers + [None], main, k) == GetAttr(layers + [None], main, k + 1);
    }
  }

  /** The bytes written are those the file already had. */
  ghost predicate WritesSame(main: File, offset: nat, data: File) {
    data == [] || (offset + |data| <= |main| && main[offset..offset + |data|] == data)
  }

  lemma WritesSameIff(main: File, offset: nat, data: File)
    ensures WritesSame(main, offset, data) <==> PWrite(main, offset, data) == main
  {
    if data != [] && PWrite(main, offset, data) == main {
      assert |PWrite(main, offset, data)| == |main|;
      assert PWrite(main, offset, data)[offset..offset + |data|] == data;
    }
  }

  /** The bytes of a file that differ after a write are those overwritten by others. */
  lemma WriteChanges(main: File, offset: nat, data: File, p: nat)
    requires p < |main|
    ensures ByteOf(Some(PWrite(main, offset, data)), p) != Some(main[p]) <==>
            offset <= p < offset + |data| && data[p - offset] != main[p]
  {
  }

  /** Nothing keeps a snapshot from being made between the save and the write it was for. Older snapshots have what they
      need all the same. The new one, for which nothing was saved, shows the file as it was exactly if the bytes
      written are those the file had, and otherwise differs in exactly the bytes changed. */
  lemma SnapshotOvertakesWrite(layers: Layers, truth: seq<Option<File>>, main: File, from: nat,
                               offset: nat, data: File, n: nat)
    requires from <= |layers| == |truth| && LayersOk(layers, truth + [Some(main)], from)
    requires TopPrepared(layers, from, offset, offset + |data|) && n <= |data|
    ensures var layers', main' := layers + [None], Some(PWrite(main, offset, data[..n]));
            && (forall k | from <= k < |layers| :: GetAttr(layers', main', k) == SizeOf(truth[k]))
            && (forall k, p: nat | from <= k < |layers| && truth[k].Some? && p < |truth[k].value| ::
                  Lookup(layers', main', k, p) == Some(truth[k].value[p]))
    ensures var layers', main' := layers + [None], Some(PWrite(main, offset, data[..n]));
            (GetAttr(layers', main', |layers|) == Some(|main|) &&
             forall p: nat | p < |main| :: Lookup(layers', main', |layers|, p) == Some(main[p]))
            <==> WritesSame(main, offset, data[..n])
    ensures var layers', main' := layers + [None], Some(PWrite(main, offset, data[..n]));
            forall p: nat | p < |main| ::
              Lookup(layers', main', |layers|, p) != Some(main[p]) <==>
                  offset <= p < offset + n && data[p - offset] != main[p]
  {
    var layers', main' := layers + [None], Some(PWrite(main, offset, data[..n]));
    PreparedWrite(layers, truth, main, from, offset, data[..n], offset + |data|);
    OlderStayIntact(layers, truth, from, main');
    forall p: nat | p < |main|
      ensures Lookup(layers', main', |layers|, p) == ByteOf(main', p)
      ensures ByteOf(main', p) != Some(main[p]) <==> offset <= p < offset + n && data[p - offset] != main[p]
    {
      NewLayerUnseen(layers, main', |layers|, p);
      WriteChanges(main, offset, data[..n], p);
    }
    NewLayerUnseen(layers, main', |layers|, 0);
    WritesSameIff(main, offset, data[..n]);
    if |main'.value| == |main| && forall p: nat | p < |main| :: Lookup(layers', main', |layers|, p) == Some(main[p]) {
      assert forall p: nat | p < |main| :: ByteOf(main', p) == Some(main[p]);
      assert main'.value == main;
    }
  }

  lemma OlderStayIntact(layers: Layers, truth: seq<Option<File>>, from: nat, main: Option<File>)
    requires from <= |layers| == |truth| && LayersOk(layers, truth + [main], from)
    ensures forall k | from <= k < |layers| :: GetAttr(layers + [None], main, k) == SizeOf(truth[k])
    ensures forall k, p: nat | from <= k < |layers| && truth[k].Some? && p < |truth[k].value| ::
              Lookup(layers + [None], main, k, p) == Some(truth[k].value[p])
  {
    var vs := truth + [main];
    forall k | from <= k < |layers| ensures GetAttr(layers + [None], main, k) == SizeOf(truth[k]) {
      NewLayerUnseen(layers, main, k, 0);
      GetAttrIsVersion(layers, vs, k);
    }
    forall k, p: nat | from <= k < |layers| && truth[k].Some? && p < |truth[k].value|
      ensures Lookup(layers + [None], main, k, p) == Some(truth[k].value[p])
    {
      NewLayerUnseen(layers, main, k, p);
      LookupIsVersion(layers, vs, k, p);
    }
  }

  // ---------------------------------------------------------------- unprepared changes

  /** What the latest snapshot still needs of the main file is the same after a change. */
  predicate Unharmed(top: Option<Overlay>, main: Option<File>, main': Option<File>) {
    match top
    case None => main' == main
    case Some(ov) =>
      ov.existed ==>
        && (ov.size > 0 && ov.dat.None? ==> main' == main)
        && forall p: nat | p < ov.size && !Saved(ov, BlockOf(p)) :: ByteOf(main', p) == ByteOf(main, p)
  }

  /** Whatever was or was not saved before: a change leaves the latest snapshot intact exactly if it is unharmed. */
  lemma IntactIffUnharmed(layers: Layers, truth: seq<Option<File>>, main: Option<File>, from: nat, main': Option<File>)
    requires from < |layers| == |truth| && LayersOk(layers, truth + [main], from)
    ensures LayersOk(layers, truth + [main'], from) <==> Unharmed(layers[|layers| - 1], main, main')
  {
    var n := |layers|;
    TopOk(layers, truth, main, from);
    var top, was := layers[n - 1], truth[n - 1];
    LayerIffUnharmed(top, was, main, main');
    if LayerOk(top, was, main') {
      ChangeTop(layers, truth, main, from, top, main');
      assert layers[n - 1 := top] == layers;
    } else if LayersOk(layers, truth + [main'], from) {
      TopOk(layers, truth, main', from);
    }
  }

  lemma LayerIffUnharmed(top: Option<Overlay>, was: Option<File>, main: Option<File>, main': Option<File>)
    requires LayerOk(top, was, main)
    ensures LayerOk(top, was, main') <==> Unharmed(top, main, main')
  {
    if top.Some? && was.Some? {
      forall p: nat | p < |was.value| && !Saved(top.value, BlockOf(p)) ensures ByteOf(main, p) == Some(was.value[p]) {
      }
    }
  }

  /** When the latest snapshot has a dat file, that means: exactly if every block changed below the recorded size has
      been saved. */
  lemma ChangeIffSaved(ov: Overlay, was: File, main: Option<File>, main': Option<File>)
    requires ov.dat.Some? && LayerOk(Some(ov), Some(was), main)
    ensures LayerOk(Some(ov), Some(was), main') <==>
            forall p: nat | p < ov.size && ByteOf(main', p) != ByteOf(main, p) :: Saved(ov, BlockOf(p))
  {
    LayerIffUnharmed(Some(ov), Some(was), main, main');
  }

  /** The file had one byte when the snapshot was made after the save, and the snapshot shows another. */
  lemma OvertakingExample()
    ensures exists layers: Layers, truth, main: File, data: File ::
              && |layers| == |truth| && LayersOk(layers, truth + [Some(main)], 0)
              && TopPrepared(layers, 0, 0, |data|) && 0 < |main|
              && Lookup(layers + [None], Some(PWrite(main, 0, data)), |layers|, 0) != Some(main[0])
  {
    var layers: Layers, truth: seq<Option<File>>, main: File, data: File := [], [], [7], [8];
    assert data[..1] == data;
    SnapshotOvertakesWrite(layers, truth, main, 0, 0, data, 1);
    assert LayersOk(layers, truth + [Some(main)], 0) && TopPrepared(layers, 0, 0, |data|);
    assert Lookup(layers + [None], Some(PWrite(main, 0, data)), |layers|, 0) != Some(main[0]);
  }
}
