/** The operations of ESFS on one path: saving, writing, truncating, creating and unlinking the main file,
    making and removing snapshots, and reading files in snapshots. Any I/O call may
    fail. Where it matters which one does, a parameter says so. */
module FileSystem {
  import opened Base
  import opened Blocks
  import opened Store
  import opened Saving
  import opened Steps

  /** A file descriptor of a handle, or the reason there is none. `OpenIn(k)` refers to the file of snapshot k, also
      after that snapshot has been removed; `Closed` is the number of a descriptor closed since; `InRuins` refers to a
      file of a snapshot whose removal broke off. */
  datatype Fd = NoSn | RdOnly | NotThere | ZeroLen | OpenIn(k: nat) | Closed | InRuins

  /** The descriptor is a negative number, which says that there is nothing to save into. */
  predicate Negative(fd: Fd) {
    fd.NoSn? || fd.RdOnly? || fd.NotThere? || fd.ZeroLen?
  }

  /** Where opening the map and dat of a path fails: at closing the old ones; before the map is open; at writing the
      header, or at reading it, which leaves a header in memory that means nothing; or at opening the dat. */
  datatype OpenFault = NoFault | AtClose | AtPath | AtHeader(existed: bool, size: nat) | AtDat

  /** How removing a snapshot goes: well; not at all, because the end of the list cannot be found or the pointer
      cannot be removed; or until an error breaks off the removal of its directory, when the map and dat of the path
      may already have gone. */
  datatype Removal = Removes | Refuses(error: Errno) | BreaksOff(mapGone: bool, datGone: bool)

  /** The snapshot-related part of an open main file. `existed` and `size` cache the map header; `cache` is
      one more than the block saved or found saved last, or 0; `ready` says if the map and dat were opened without an
      error the last time this was tried. */
  class Mfd {
    var snNumber: nat
    var mapfd: Fd
    var datfd: Fd
    var existed: bool
    var size: nat
    var cache: nat
    ghost var ready: bool

    constructor ()
      ensures mapfd == RdOnly && datfd == RdOnly
    {
      mapfd, datfd := RdOnly, RdOnly;
      snNumber, existed, size, cache, ready := 0, false, 0, 0, false;
    }
  }

  /** `n` is the number of bytes a read has to return: no more than was asked for or than there are, and less than was
      asked for only at the end of the file. */
  ghost predicate IsReadCount(size: nat, readsize: nat, readoffset: nat, n: nat) {
    && n <= readsize && (n > 0 ==> readoffset + n <= size)
    && (n < readsize ==> readoffset + n >= size)
  }

  /** Reading `f` has left the right bytes, and as many as it should, at the start of a buffer. */
  ghost predicate ReadExactly(f: File, buf: seq<Byte>, readsize: nat, readoffset: nat, n: nat) {
    && IsReadCount(|f|, readsize, readoffset, n) && n <= |buf|
    && forall i | 0 <= i < n :: buf[i] == f[readoffset + i]
  }

  /** One path of a mounted file system. Snapshots below `earliest` have been removed; their overlays stay
      reachable only through descriptors opened before. Snapshots from `intact` on have not been touched by a removal.
      `truth` records the main file at every snapshot. `torn` says that a save broke off between writing to a dat file
      and publishing the pointer. */
  class Esfs {
    var main: Option<File>
    var layers: Layers
    var earliest: nat
    var intact: nat
    var snNumber: nat
    ghost var truth: seq<Option<File>>
    ghost var torn: bool

    /** All of the invariant that does not depend on the main file. */
    ghost predicate Sound()
      reads this`truth, this`layers, this`earliest, this`intact, this`torn
    {
      && |truth| == |layers| && earliest <= intact <= |layers|
      && AllWellFormed(layers) && (!torn ==> AllDense(layers))
    }

    ghost predicate Valid()
      reads this
    {
      Sound() && LayersOk(layers, truth + [main], intact)
    }

    predicate AnySnapshot()
      reads this`layers, this`earliest
    {
      earliest < |layers|
    }

    /** There is a snapshot, and no removal of the latest has begun. */
    predicate Promised()
      reads this`layers, this`intact
    {
      intact < |layers|
    }

    /** The handle's descriptors and cached values belong together. */
    ghost predicate Attached(mfd: Mfd)
      reads this`layers, mfd
    {
      match mfd.mapfd
      case OpenIn(k) =>
        && k < |layers| && layers[k].Some?
        && var ov := layers[k].value;
        && mfd.existed == ov.existed && (ov.existed ==> mfd.size == ov.size)
        && mfd.datfd == (if !ov.existed then NotThere else if ov.size == 0 then ZeroLen else OpenIn(k))
        && (mfd.datfd.OpenIn? ==> ov.dat.Some?)
        && (mfd.cache > 0 ==> Saved(ov, mfd.cache - 1))
      case Closed => false
      case fd => mfd.datfd == fd && !fd.NotThere? && !fd.ZeroLen?
    }

    /** The handle saves into the latest snapshot, or there is none to save for. */
    ghost predicate Fresh(mfd: Mfd)
      reads this`layers, this`intact, mfd
    {
      Attached(mfd) && (Promised() ==> mfd.mapfd == OpenIn(|layers| - 1))
    }

    /** What is known of every handle: if it is up to date by its number, it is fresh, provided that the map and dat
        could be opened; otherwise it has nothing open. */
    ghost predicate Tracked(mfd: Mfd)
      reads this`layers, this`intact, this`snNumber, mfd
    {
      if mfd.mapfd == RdOnly then mfd.datfd == RdOnly
      else
        && mfd.snNumber <= snNumber
        && (mfd.ready && mfd.snNumber == snNumber ==> Fresh(mfd))
        && (!mfd.ready ==> !mfd.mapfd.OpenIn? && !mfd.datfd.OpenIn?)
    }

    /** A handle for writing whose last opening of the map and dat did not fail, unless that was for an older
        snapshot. */
    ghost predicate Honest(mfd: Mfd)
      reads this`layers, this`intact, this`snNumber, mfd
    {
      Tracked(mfd) && mfd.mapfd != RdOnly && (mfd.snNumber == snNumber ==> mfd.ready)
    }

    /** A handle left alone stays what it is while layers only grow and snapshots are only made and removed. */
    twostate lemma HandleStays(mfd: Mfd)
      requires old(Tracked(mfd)) && unchanged(mfd)
      requires Grows(old(layers), layers) && old(intact) <= intact
      requires snNumber == old(snNumber) ==> |layers| == |old(layers)|
      requires old(snNumber) <= snNumber
      ensures Tracked(mfd) && (old(Honest(mfd)) ==> Honest(mfd))
    {
    }

    constructor (main: Option<File>)
      ensures Valid() && this.main == main && layers == [] && truth == [] && earliest == intact == 0 && snNumber == 0
      ensures !torn
    {
      this.main := main;
      layers, truth := [], [];
      earliest, intact, snNumber, torn := 0, 0, 0, false;
    }

    // -------------------------------------------------------------- handles on the main file

    /** Opens, and if needed creates, the map and dat of the path in the latest snapshot. On failure the number
        of the snapshot has already been noted in the handle, and what was opened is closed again. */
    method OpenSn(mfd: Mfd, fault: OpenFault) returns (s: Status)
      requires Valid() && !mfd.mapfd.OpenIn?
      modifies this`layers, mfd
      ensures Valid() && TopGrows(old(layers), layers)
      ensures !AnySnapshot() ==> s == Success && layers == old(layers) && mfd.mapfd == NoSn
      ensures mfd.snNumber == snNumber && mfd.cache == 0
      ensures s == Success ==> Fresh(mfd) && mfd.mapfd != RdOnly
      ensures s != Success ==>
                && !mfd.mapfd.OpenIn? && (mfd.mapfd == old(mfd.mapfd) || mfd.mapfd == Closed)
                && mfd.datfd == old(mfd.datfd)
      ensures mfd.ready <==> s == Success
      ensures fault == NoFault ==> s == Success
      ensures Promised() && HasDat(old(layers)[|layers| - 1]) ==> layers == old(layers)
      ensures WholeTop(old(layers)) ==> WholeTop(layers)
      ensures AnySnapshot() && fault == AtPath ==> s != Success && layers == old(layers) && mfd.mapfd == old(mfd.mapfd)
      ensures SavesNone(old(layers), layers)
    {
      mfd.ready := false;
      mfd.snNumber := snNumber;
      mfd.cache := 0;
      if !AnySnapshot() {
        mfd.mapfd, mfd.datfd := NoSn, NoSn;
        mfd.ready := true;
        return Success;
      }
      if fault == AtPath {
        return Failed(EOther);   // the path cannot be made, or the map cannot be opened
      }
      if fault.AtHeader? {
        // The header could not be written, and the map is unlinked again; or it could not be read
        mfd.existed, mfd.size := fault.existed, fault.size;
        mfd.mapfd := Closed;
        return Failed(EOther);
      }
      if Promised() {
        s := OpenLatest(mfd, fault == AtDat);
      } else {
        s := OpenRuins(mfd, fault == AtDat);
      }
    }

    /** Opens the map and then the dat of the latest snapshot; `fails` says that a dat that is needed cannot be
        opened, and then the map is closed but stays. */
    method OpenLatest(mfd: Mfd, fails: bool) returns (s: Status)
      requires Valid() && Promised() && mfd.cache == 0
      modifies this`layers, mfd`mapfd, mfd`datfd, mfd`existed, mfd`size, mfd`ready
      ensures Valid() && TopGrows(old(layers), layers)
      ensures s == Success ==> Attached(mfd) && mfd.mapfd == OpenIn(|layers| - 1)
      ensures s != Success ==> fails && mfd.mapfd == Closed && mfd.datfd == old(mfd.datfd)
      ensures mfd.ready <==> s == Success
      ensures HasDat(old(layers)[|layers| - 1]) ==> layers == old(layers)
      ensures WholeTop(old(layers)) ==> WholeTop(layers)
      ensures SavesNone(old(layers), layers)
    {
      var k := |layers| - 1;
      if layers[k].None? {
        MakeMap();
      }
      ghost var mid := layers;
      mfd.mapfd, mfd.ready := OpenIn(k), true;
      mfd.existed, mfd.size := layers[k].value.existed, layers[k].value.size;
      if !mfd.existed {
        mfd.datfd := NotThere;
      } else if mfd.size == 0 {
        mfd.datfd := ZeroLen;
      } else if fails {
        mfd.mapfd, mfd.ready := Closed, false;
        return Failed(EOther);
      } else {
        MakeDat();
        mfd.datfd := OpenIn(k);
      }
      GrowsTwice(old(layers), mid, layers);
      return Success;
    }

    /** The same for what a removal that broke off has left of the latest snapshot. */
    method OpenRuins(mfd: Mfd, fails: bool) returns (s: Status)
      requires !Promised()
      modifies mfd
      ensures mfd.snNumber == old(mfd.snNumber) && mfd.cache == old(mfd.cache)
      ensures if fails then s != Success && mfd.mapfd == Closed && mfd.datfd == old(mfd.datfd)
              else s == Success && mfd.mapfd == mfd.datfd == InRuins
      ensures mfd.ready <==> s == Success
    {
      mfd.ready := !fails;
      if fails {
        mfd.mapfd := Closed;
        return Failed(EOther);
      }
      mfd.mapfd, mfd.datfd := InRuins, InRuins;
      return Success;
    }

    /** Writes the header of a new map: the main file as it is now, which is as the snapshot found it. */
    method MakeMap()
      requires Valid() && Promised() && layers[|layers| - 1].None?
      modifies this`layers
      ensures Valid() && TopGrows(old(layers), layers)
      ensures layers[|layers| - 1].Some? && WholeTop(layers)
      ensures SavesNone(old(layers), layers)
    {
      var k := |layers| - 1;
      var ov := Overlay(main.Some?, if main.Some? then |main.value| else 0, map[], None);
      TopOk(layers, truth, main, intact);
      ChangeTop(layers, truth, main, intact, Some(ov), main);
      layers := layers[k := Some(ov)];
    }

    /** Opens the dat of the latest snapshot, creating it if necessary. */
    method MakeDat()
      requires Valid() && Promised() && layers[|layers| - 1].Some?
      requires layers[|layers| - 1].value.existed && layers[|layers| - 1].value.size > 0
      modifies this`layers
      ensures Valid() && TopGrows(old(layers), layers)
      ensures layers[|layers| - 1].Some? && layers[|layers| - 1].value.dat.Some?
      ensures HasDat(old(layers)[|layers| - 1]) ==> layers == old(layers)
      ensures WholeTop(old(layers)) ==> WholeTop(layers)
      ensures SavesNone(old(layers), layers)
    {
      var k := |layers| - 1;
      var ov := layers[k].value;
      if ov.dat.None? {
        TopOk(layers, truth, main, intact);
        EmptyDat(ov, truth[k], main);
        ChangeTop(layers, truth, main, intact, Some(ov.(dat := Some([]))), main);
        layers := layers[k := Some(ov.(dat := Some([])))];
      }
    }

    /** The handle keeps the number of a descriptor that has been closed. Closing it again fails. */
    static predicate Dangling(mfd: Mfd)
      reads mfd
    {
      mfd.mapfd == Closed || mfd.datfd == Closed
    }

    /** A handle that has to be opened for a new snapshot, and opening it fails before the map is open. */
    twostate predicate FailsEarly(mfd: Mfd, fault: OpenFault)
      reads this, mfd
    {
      AnySnapshot() && fault == AtPath && old(mfd.mapfd != RdOnly && mfd.snNumber != snNumber && !Dangling(mfd))
    }

    /** Re-opens the map and dat if a snapshot was made since the handle was opened. As the number of the snapshot is
        noted before anything can fail, after a failure the next call succeeds without having opened anything: as long
        as there is a snapshot to save for, success means a fresh handle exactly if the last opening did not fail. */
    method Validate(mfd: Mfd, fault: OpenFault) returns (s: Status)
      requires Valid() && Tracked(mfd)
      modifies this`layers, mfd
      ensures Valid() && TopGrows(old(layers), layers) && Tracked(mfd)
      ensures old(mfd.mapfd) == RdOnly || old(mfd.snNumber) == snNumber ==>
                s == Success && layers == old(layers) && unchanged(mfd)
      ensures old(mfd.mapfd) != RdOnly ==> mfd.mapfd != RdOnly
      ensures s == Success && mfd.mapfd != RdOnly ==> mfd.snNumber == snNumber
      ensures s == Success && mfd.mapfd != RdOnly && Promised() ==> (Fresh(mfd) <==> mfd.ready)
      ensures s == Success && old(mfd.mapfd) != RdOnly && old(mfd.snNumber) != snNumber ==> mfd.ready
      ensures fault == NoFault && !old(Dangling(mfd)) ==> s == Success
      ensures Promised() && HasDat(old(layers)[|layers| - 1]) ==> layers == old(layers)
      ensures WholeTop(old(layers)) ==> WholeTop(layers)
      ensures old(Dangling(mfd)) && old(mfd.mapfd) != RdOnly && old(mfd.snNumber) != snNumber ==>
                s != Success && Dangling(mfd) && mfd.snNumber == old(mfd.snNumber)
      ensures FailsEarly(mfd, fault) ==>
                && s != Success && layers == old(layers) && mfd.snNumber == snNumber && !mfd.ready
                && (Negative(old(mfd.datfd)) ==> mfd.datfd == old(mfd.datfd))
      ensures SavesNone(old(layers), layers)
    {
      if mfd.snNumber == snNumber || mfd.mapfd == RdOnly {
        return Success;
      }
      s := CloseSn(mfd, fault == AtClose);
      if s.Failed? {
        return;
      }
      s := OpenSn(mfd, fault);
    }

    /** Closes the map and dat of a handle, as far as they are open. */
    static method CloseSn(mfd: Mfd, fails: bool) returns (s: Status)
      modifies mfd`mapfd, mfd`datfd
      ensures mfd.mapfd == if Negative(old(mfd.mapfd)) then old(mfd.mapfd) else Closed
      ensures mfd.datfd == if Negative(old(mfd.datfd)) then old(mfd.datfd) else Closed
      ensures s != Success <==>
              old(Dangling(mfd)) || (fails && !(Negative(old(mfd.mapfd)) && Negative(old(mfd.datfd))))
    {
      s := if Dangling(mfd) || (fails && !(Negative(mfd.mapfd) && Negative(mfd.datfd))) then
          Failed(EOther) else Success;
      if !Negative(mfd.mapfd) {
        mfd.mapfd := Closed;
      }
      if !Negative(mfd.datfd) {
        mfd.datfd := Closed;
      }
    }

    // -------------------------------------------------------------- saving blocks

    /** Saves one block whose pointer is 0. `wrote` is what reached the dat file; `pastEnd` says that the main file has
        nothing of the block. Unless `io`, any I/O call may fail. */
    method SaveBlock(k: nat, b: nat, buf: File, io: bool)
      returns (s: Status, buf': File, ghost wrote: File, ghost pastEnd: bool)
      requires k < |layers| && layers[k].Some? && layers[k].value.dat.Some? && main.Some? && |buf| == BL_S
      modifies this`layers, this`torn
      ensures |layers| == |old(layers)| && layers == old(layers)[k := layers[k]] && |buf'| == BL_S
      ensures s == Success ==>
                && |old(layers[k].value.dat.value)| % BL_S == 0 && |wrote| == BL_S
                && layers[k] == Some(AppendBlock(old(layers[k].value), b, wrote))
                && b * BL_S < |main.value|
                && forall p: nat | p < |main.value| && BlockOf(p) == b :: wrote[p % BL_S] == main.value[p]
      ensures s != Success ==>
                && layers[k] == Some(old(layers[k].value).(dat := Some(old(layers[k].value.dat.value) + wrote)))
                && (|old(layers[k].value.dat.value)| % BL_S != 0 ==> wrote == [])
      ensures torn == (old(torn) || (s != Success && wrote != []))
      ensures pastEnd ==> s == Failed(ENXIO)
      ensures pastEnd ==> |main.value| <= b * BL_S
      ensures io && |main.value| <= b * BL_S ==> pastEnd
      ensures io ==> (s == Success <==> |old(layers[k].value.dat.value)| % BL_S == 0 && b * BL_S < |main.value|)
    {
      buf', wrote, pastEnd := buf, [], false;
      var ov := layers[k].value;
      var dat := ov.dat.value;
      assert dat + [] == dat;
      // Read the old block from the main file
      var fails: bool := *;
      if !io && fails {
        return Failed(EOther), buf', wrote, pastEnd;
      }
      if |main.value| <= b * BL_S {
        return Failed(ENXIO), buf', wrote, true;
      }
      buf' := FillFrom(main.value, b, buf);
      // Append it to the dat file, whose size must be a whole number of blocks
      fails := *;
      if !io && fails {
        return Failed(EOther), buf', wrote, pastEnd;
      }
      var datsize := |dat|;
      if datsize % BL_S != 0 {
        return Failed(EFAULT), buf', wrote, pastEnd;
      }
      var written: int := *;
      if io {
        written := BL_S;
      }
      if written < 0 {
        return Failed(EOther), buf', wrote, pastEnd;
      }
      if written < BL_S {
        wrote := buf'[..written];
        layers := layers[k := Some(ov.(dat := Some(dat + buf'[..written])))];
        torn := torn || written > 0;
        return Failed(ENXIO), buf', wrote, pastEnd;
      }
      wrote := buf';
      layers := layers[k := Some(ov.(dat := Some(dat + buf')))];
      // Publish the pointer
      fails := *;
      if !io && fails {
        torn := true;
        return Failed(EOther), buf', wrote, pastEnd;
      }
      var pointer := datsize / BL_S + 1;
      layers := layers[k := Some(layers[k].value.(ptrs := ov.ptrs[b := pointer]))];
      return Success, buf', wrote, pastEnd;
    }

    /** Saves the blocks of the byte range about to be overwritten that are not saved yet. A handle that has nothing
        open because opening failed saves nothing: it reports success if its descriptors are negative or the range is
        beyond the size in its header. For an intact snapshot the main file always has something of a block that has
        to be saved. */
    method BWrite(mfd: Mfd, writesize: nat, writeoffset: nat, io: bool) returns (s: Status, ghost pastEnd: bool)
      requires Valid() && (mfd.datfd.OpenIn? ==> Fresh(mfd) && main.Some?)
      modifies this`layers, this`torn, mfd`cache
      ensures Valid() && (old(Fresh(mfd)) ==> Fresh(mfd)) && Grows(old(layers), layers)
      ensures Promised() ==> TopGrows(old(layers), layers)
      ensures !mfd.datfd.OpenIn? ==> layers == old(layers) && torn == old(torn)
      ensures Negative(mfd.datfd) ==> s == Success && mfd.cache == old(mfd.cache)
      ensures mfd.datfd.OpenIn? ==>
                var ov, ov' := old(layers)[mfd.datfd.k].value, layers[mfd.datfd.k].value;
                && layers == old(layers)[mfd.datfd.k := Some(ov')]
                && SaveOutcome(ov, ov', main.value, BlockOf(writeoffset), BlockOf(writeoffset + writesize) + 1)
                && (s == Success ==> RangeSaved(ov', writeoffset, writeoffset + writesize))
                && ((s == Success || !torn) && Dense(ov) ==> Dense(ov'))
                && (|ov.dat.value| % BL_S != 0 ==>
                      ov' == ov && (!RangeSaved(ov, writeoffset, writeoffset + writesize) ==> s != Success))
      ensures torn == old(torn) || (torn && s != Success)
      ensures Promised() ==> !pastEnd
      ensures io && Promised() && WholeTop(old(layers)) && mfd.datfd.OpenIn? ==> s == Success
      ensures mfd.datfd == Closed && writesize > 0 && writeoffset < mfd.size ==> s != Success
      ensures SavesOnly(old(layers), layers, writeoffset, Min(writeoffset + writesize, mfd.size))
    {
      pastEnd := false;
      if Negative(mfd.datfd) || writesize == 0 {
        return Success, pastEnd;
      }
      var size := writesize;
      if writeoffset + writesize > mfd.size {
        if writeoffset >= mfd.size {
          return Success, pastEnd;
        }
        size := mfd.size - writeoffset;
      }
      if mfd.datfd == Closed {
        return Failed(EOther), pastEnd;   // reading the map
      }
      if mfd.datfd == InRuins {
        if * {
          return Failed(EOther), pastEnd;
        }
        return Success, pastEnd;
      }
      s, pastEnd := SaveRange(mfd, writesize, writeoffset, size, io);
    }

    /** Saves the clipped range into the open dat. */
    method SaveRange(mfd: Mfd, writesize: nat, writeoffset: nat, size: nat, io: bool)
      returns (s: Status, ghost pastEnd: bool)
      requires Valid() && mfd.datfd.OpenIn? && Fresh(mfd) && main.Some?
      requires 0 < size <= writesize && writeoffset + size <= mfd.size
      requires size == writesize || writeoffset + size == mfd.size
      modifies this`layers, this`torn, mfd`cache
      ensures Valid() && Fresh(mfd) && Grows(old(layers), layers)
      ensures Promised() ==> TopGrows(old(layers), layers)
      ensures var ov, ov' := old(layers)[mfd.datfd.k].value, layers[mfd.datfd.k].value;
              && layers == old(layers)[mfd.datfd.k := Some(ov')]
              && SaveOutcome(ov, ov', main.value, BlockOf(writeoffset), BlockOf(writeoffset + writesize) + 1)
              && (s == Success ==> RangeSaved(ov', writeoffset, writeoffset + writesize))
              && ((s == Success || !torn) && Dense(ov) ==> Dense(ov'))
              && (|ov.dat.value| % BL_S != 0 ==> ov' == ov)
      ensures torn == old(torn) || (torn && s != Success)
      ensures Promised() ==> !pastEnd
      ensures io && Promised() && WholeTop(old(layers)) ==> s == Success
      ensures SavesOnly(old(layers), layers, writeoffset, Min(writeoffset + writesize, mfd.size))
    {
      var k := mfd.datfd.k;
      var (first, count) := CalcBlocks(writeoffset, size);
      s, pastEnd := SaveBlocks(mfd, k, first, count, io);
      ghost var ov, ov' := old(layers)[k].value, layers[k].value;
      assert first + count <= BlockOf(writeoffset + writesize) + 1;
      SaveKeepsLayers(old(layers), truth, main.value, intact, k, ov', first, first + count);
      if s == Success {
        RangeOfBlocks(ov', writeoffset, size, writesize);
      }
      if Promised() {
        TopOk(old(layers), truth, main, intact);
        NeverPastEnd(ov, truth[k], main.value, writeoffset, size);
      }
      RangeMeets(writeoffset, size, Min(writeoffset + writesize, mfd.size));
    }

    /** The block loop: every block of [first, first + count) is saved, or the loop breaks off. With the cache it ends
        in the same pointers as a loop that reads the map for every block. */
    method SaveBlocks(mfd: Mfd, k: nat, first: nat, count: nat, io: bool) returns (s: Status, ghost pastEnd: bool)
      requires k < |layers| && layers[k].Some? && WellFormed(layers[k].value) && layers[k].value.dat.Some? && main.Some?
      requires mfd.cache > 0 ==> Saved(layers[k].value, mfd.cache - 1)
      modifies this`layers, this`torn, mfd`cache
      ensures |layers| == |old(layers)| && layers[k].Some? && layers == old(layers)[k := layers[k]]
      ensures SaveOutcome(old(layers)[k].value, layers[k].value, main.value, first, first + count)
      ensures s == Success ==> forall c | first <= c < first + count :: Saved(layers[k].value, c)
      ensures s == Success ==>
                (layers[k].value.ptrs, |layers[k].value.dat.value| / BL_S) ==
                SavedPtrs(old(layers)[k].value.ptrs, |old(layers)[k].value.dat.value| / BL_S, first, count)
      ensures torn == old(torn) || (torn && s != Success)
      ensures (s == Success || !torn) && Dense(old(layers)[k].value) ==> Dense(layers[k].value)
      ensures |old(layers)[k].value.dat.value| % BL_S != 0 ==> layers[k] == old(layers)[k]
      ensures mfd.cache > 0 ==> Saved(layers[k].value, mfd.cache - 1)
      ensures pastEnd ==>
                exists b :: first <= b < first + count && !Saved(old(layers)[k].value, b) && |main.value| <= b * BL_S
      ensures io && |old(layers)[k].value.dat.value| % BL_S == 0 ==> s == Success || pastEnd
    {
      pastEnd := false;
      var b, blocknumber := first, count;
      ghost var ov := layers[k].value;
      var buf: File := *;
      if |buf| != BL_S {
        buf := Zeros(BL_S);
      }
      while blocknumber > 0
        invariant b + blocknumber == first + count && |buf| == BL_S
        invariant |layers| == |old(layers)| && layers[k].Some? && layers == old(layers)[k := layers[k]]
        invariant LoopOk(ov, layers[k].value, main.value, first, b, blocknumber)
        invariant mfd.cache > 0 ==> Saved(layers[k].value, mfd.cache - 1)
        invariant torn == old(torn)
        invariant |ov.dat.value| % BL_S == 0 ==> |layers[k].value.dat.value| % BL_S == 0
      {
        if mfd.cache == b + 1 {
          LoopSkips(ov, layers[k].value, main.value, first, b, blocknumber);
        } else {
          s, buf, pastEnd := SaveIfUnsaved(mfd, k, b, buf, ov, first, blocknumber, io);
          if s != Success {
            return;
          }
        }
        b, blocknumber := b + 1, blocknumber - 1;
      }
      return Success, false;
    }

    /** One round of the block loop for a block that is not in the cache. */
    method SaveIfUnsaved(mfd: Mfd, k: nat, b: nat, buf: File, ghost ov: Overlay, ghost first: nat, ghost n: nat,
                         io: bool)
      returns (s: Status, buf': File, ghost pastEnd: bool)
      requires k < |layers| && layers[k].Some? && main.Some? && |buf| == BL_S && n > 0 && WellFormed(ov)
      requires LoopOk(ov, layers[k].value, main.value, first, b, n)
      requires mfd.cache > 0 ==> Saved(layers[k].value, mfd.cache - 1)
      modifies this`layers, this`torn, mfd`cache
      ensures |layers| == |old(layers)| && layers[k].Some? && layers == old(layers)[k := layers[k]] && |buf'| == BL_S
      ensures if s == Success then LoopOk(ov, layers[k].value, main.value, first, b + 1, n - 1) && torn == old(torn)
              else SaveOutcome(ov, layers[k].value, main.value, first, b)
      ensures !torn && Dense(ov) ==> Dense(layers[k].value)
      ensures old(torn) ==> torn
      ensures |ov.dat.value| % BL_S != 0 ==> layers[k] == Some(ov)
      ensures mfd.cache > 0 ==> Saved(layers[k].value, mfd.cache - 1)
      ensures pastEnd ==> s != Success && !Saved(ov, b) && |main.value| <= b * BL_S
      ensures |old(layers[k].value.dat.value)| % BL_S == 0 && s == Success ==> |layers[k].value.dat.value| % BL_S == 0
      ensures io && |old(layers[k].value.dat.value)| % BL_S == 0 ==> s == Success || |main.value| <= b * BL_S
      ensures io && s != Success && |main.value| <= b * BL_S && |old(layers[k].value.dat.value)| % BL_S == 0 ==> pastEnd
    {
      buf', pastEnd := buf, false;
      var fails: bool := *;
      if !io && fails {
        return Failed(EOther), buf', false;   // reading the map, locking or allocating
      }
      ghost var cur := layers[k].value;
      if Pointer(layers[k].value, b) != 0 {
        LoopSkips(ov, cur, main.value, first, b, n);
      } else {
        ghost var wrote;
        s, buf', wrote, pastEnd := SaveBlock(k, b, buf, io);
        if s != Success {
          TornAppend(ov, cur, main.value, first, b, wrote);
          assert cur.dat.value + [] == cur.dat.value;
          return;
        }
        LoopSaves(ov, cur, main.value, first, b, n, wrote);
        AppendBlockWellFormed(cur, b, wrote);
      }
      mfd.cache := b + 1;
      return Success, buf', false;
    }

    /** Saves what a truncation is about to cut off. */
    method BTruncate(mfd: Mfd, newsize: nat, io: bool) returns (s: Status)
      requires Valid() && (mfd.datfd.OpenIn? ==> Fresh(mfd) && main.Some?)
      modifies this`layers, this`torn, mfd`cache
      ensures Valid() && (old(Fresh(mfd)) ==> Fresh(mfd)) && Grows(old(layers), layers)
      ensures Promised() ==> TopGrows(old(layers), layers)
      ensures !mfd.datfd.OpenIn? ==> layers == old(layers)
      ensures s == Success && mfd.datfd.OpenIn? ==>
                RangeSaved(layers[mfd.datfd.k].value, newsize, layers[mfd.datfd.k].value.size)
      ensures |layers| == |old(layers)| && (torn == old(torn) || (torn && s != Success))
      ensures TornTop(old(layers), newsize, mfd.size) && mfd.datfd == OpenIn(|layers| - 1) ==>
                s != Success && layers == old(layers)
      ensures io && Promised() && WholeTop(old(layers)) && mfd.datfd.OpenIn? ==> s == Success
      ensures Negative(mfd.datfd) ==> s == Success
      ensures SavesOnly(old(layers), layers, newsize, mfd.size)
    {
      if mfd.existed && newsize < mfd.size {
        ghost var pastEnd;
        s, pastEnd := BWrite(mfd, mfd.size - newsize, newsize, io);
      } else {
        s := Success;
      }
    }

    // -------------------------------------------------------------- changing the main file

    /** Everything the latest snapshot needs of [lo, hi) of the main file is in its overlay. */
    ghost predicate Prepared(lo: nat, hi: nat)
      reads this`layers, this`intact
    {
      TopPrepared(layers, intact, lo, hi)
    }

    /** The same for everything from `lo` on. */
    ghost predicate PreparedFrom(lo: nat)
      reads this`layers, this`intact
    {
      Promised() ==> layers[|layers| - 1].Some? && Prepared(lo, layers[|layers| - 1].value.size)
    }

    /** Nothing the latest snapshot needs has been changed since the main file was `before`. */
    predicate Spared(before: Option<File>)
      reads this`layers, this`intact, this`main
    {
      Promised() ==> Unharmed(layers[|layers| - 1], before, main)
    }

    /** Nothing but an I/O error can keep the handle from saving: its old descriptors can be closed and new ones
        opened, and the dat file of the latest snapshot takes blocks. */
    ghost predicate CanSave(mfd: Mfd, fault: OpenFault)
      reads this`layers, this`intact, mfd
    {
      fault == NoFault && !Dangling(mfd) && Promised() && WholeTop(layers)
    }

    /** The first half of a write: make sure the handle is up to date, then save. */
    method SaveForWrite(mfd: Mfd, size: nat, offset: nat, fault: OpenFault, io: bool) returns (s: Status)
      requires Valid() && Tracked(mfd) && main.Some?
      modifies this`layers, this`torn, mfd
      ensures Valid() && Grows(old(layers), layers) && |layers| == |old(layers)| && Tracked(mfd)
      ensures Promised() ==> TopGrows(old(layers), layers)
      ensures old(mfd.mapfd) == RdOnly <==> mfd.mapfd == RdOnly
      ensures old(Honest(mfd)) && s == Success ==> Prepared(offset, offset + size)
      ensures old(Honest(mfd)) && (s == Success || old(mfd.snNumber) == snNumber) ==> Honest(mfd)
      ensures torn == old(torn) || (torn && s != Success)
      ensures old(Honest(mfd)) && Promised() && TornTop(old(layers), offset, offset + size) ==>
                s != Success && layers == old(layers)
      ensures old(Honest(mfd)) && old(CanSave(mfd, fault)) && io ==> s == Success
      ensures old(mfd.snNumber) == snNumber && Negative(old(mfd.datfd)) ==> s == Success && layers == old(layers)
      ensures FailsEarly(mfd, fault) ==>
                && s != Success && layers == old(layers) && mfd.snNumber == snNumber
                && (Negative(old(mfd.datfd)) ==> mfd.datfd == old(mfd.datfd))
      ensures SavesOnly(old(layers), layers, offset, Min(offset + size, mfd.size))
    {
      var valid := Validate(mfd, fault);
      ghost var mid := layers;
      s := SaveIfValid(valid, mfd, size, offset, io);
      GrowsTwice(old(layers), mid, layers);
      SavesAfterNone(old(layers), mid, layers, offset, Min(offset + size, mfd.size));
    }

    /** Saves through a handle that has passed validation. */
    method SaveIfValid(valid: Status, mfd: Mfd, size: nat, offset: nat, io: bool) returns (s: Status)
      requires Valid() && Tracked(mfd) && main.Some?
      requires valid == Success && mfd.mapfd != RdOnly ==> mfd.snNumber == snNumber
      modifies this`layers, this`torn, mfd`cache
      ensures Valid() && Grows(old(layers), layers) && |layers| == |old(layers)| && Tracked(mfd)
      ensures Promised() ==> TopGrows(old(layers), layers)
      ensures valid.Failed? ==> s == valid && layers == old(layers) && torn == old(torn)
      ensures old(Honest(mfd)) ==> Honest(mfd) && (s == Success ==> Prepared(offset, offset + size))
      ensures torn == old(torn) || (torn && s != Success)
      ensures old(Honest(mfd)) && Promised() && TornTop(old(layers), offset, offset + size) ==>
                s != Success && layers == old(layers)
      ensures valid == Success && Negative(mfd.datfd) ==> s == Success && layers == old(layers)
      ensures valid == Success && old(Honest(mfd)) && Promised() && WholeTop(old(layers)) && io ==> s == Success
      ensures SavesOnly(old(layers), layers, offset, Min(offset + size, mfd.size))
    {
      if valid.Failed? {
        return valid;
      }
      ghost var pastEnd;
      s, pastEnd := BWrite(mfd, size, offset, io);
    }

    /** Writes through any handle; `written` is what the write to the main file returns. All snapshots stay intact if
        the handle is honest, and otherwise exactly if nothing the latest one needs is changed. */
    method Write(mfd: Mfd, data: File, offset: nat, fault: OpenFault, written: int, io: bool) returns (r: Result<nat>)
      requires Valid() && Tracked(mfd) && main.Some?
      modifies this`layers, this`torn, this`main, mfd
      ensures Sound() && Grows(old(layers), layers) && |layers| == |old(layers)| && Tracked(mfd)
      ensures Promised() ==> TopGrows(old(layers), layers)
      ensures r.Ok? ==> r.value == written <= |data| && main == Some(PWrite(old(main).value, offset, data[..written]))
      ensures r.Err? ==> main == old(main)
      ensures old(mfd.mapfd) == RdOnly ==> r.Err?
      ensures LayersOk(layers, truth + [old(main)], intact) && (Valid() <==> Spared(old(main)))
      ensures old(Honest(mfd)) || r.Err? ==> Valid()
      ensures old(Honest(mfd)) && r.Ok? ==> Prepared(offset, offset + |data|)
      ensures old(Honest(mfd)) && (r.Ok? || old(mfd.snNumber) == snNumber) ==> Honest(mfd)
      ensures torn == old(torn) || (torn && r.Err?)
      ensures r.Ok? ==> main.Some? && IsWritten(old(main).value, offset, data[..r.value], main.value)
      ensures old(Honest(mfd)) && old(CanSave(mfd, fault)) && io && 0 <= written <= |data| ==> r == Ok(written)
      ensures old(Honest(mfd)) && Promised() && TornTop(old(layers), offset, offset + |data|) ==>
                r.Err? && layers == old(layers)
      ensures old(mfd.mapfd) != RdOnly && old(mfd.snNumber) == snNumber ==>
                Negative(old(mfd.datfd)) && 0 <= written <= |data| ==> r == Ok(written) && layers == old(layers)
      ensures FailsEarly(mfd, fault) ==>
                && r.Err? && layers == old(layers) && mfd.snNumber == snNumber && mfd.mapfd != RdOnly
                && (Negative(old(mfd.datfd)) ==> mfd.datfd == old(mfd.datfd))
      ensures SavesOnly(old(layers), layers, offset, Min(offset + |data|, mfd.size))
    {
      var s := SaveForWrite(mfd, |data|, offset, fault, io);
      r := FinishWrite(s, data, offset, mfd.mapfd == RdOnly, written);
    }

    /** The second half of a write, if the first did not fail. A descriptor opened read-only is refused. */
    method FinishWrite(s: Status, data: File, offset: nat, rdOnly: bool, written: int) returns (r: Result<nat>)
      requires Valid() && main.Some?
      modifies this`main
      ensures r.Ok? ==> r.value == written <= |data| && main == Some(PWrite(old(main).value, offset, data[..written]))
      ensures r.Err? ==> main == old(main)
      ensures r.Ok? <==> s == Success && !rdOnly && 0 <= written <= |data|
      ensures r.Ok? ==> main.Some? && IsWritten(old(main).value, offset, data[..r.value], main.value)
      ensures Valid() <==> Spared(old(main))
      ensures Prepared(offset, offset + |data|) || r.Err? ==> Valid()
    {
      if s.Failed? || rdOnly || written < 0 || |data| < written {
        KeepsSpared(main);
        return Err(if s.Failed? then s.error else EOther);
      }
      if Prepared(offset, offset + |data|) {
        PreparedWrite(layers, truth, main.value, intact, offset, data[..written], offset + |data|);
      }
      PWriteIsWritten(main.value, offset, data[..written], PWrite(main.value, offset, data[..written]));
      Change(PWrite(main.value, offset, data[..written]));
      return Ok(written);
    }

    /** The system call that changes the main file, after whatever has been saved. */
    method Change(f: File)
      requires Valid()
      modifies this`main
      ensures main == Some(f) && (Valid() <==> Spared(old(main)))
    {
      KeepsSpared(Some(f));
      main := Some(f);
    }

    /** A change of the main file leaves every snapshot intact exactly if it spares the latest. */
    lemma KeepsSpared(main': Option<File>)
      requires Valid()
      ensures LayersOk(layers, truth + [main'], intact) <==>
              (Promised() ==> Unharmed(layers[|layers| - 1], main, main'))
    {
      if Promised() {
        IntactIffUnharmed(layers, truth, main, intact, main');
      }
    }

    /** The first half of a truncation through a handle. */
    method SaveForTruncate(mfd: Mfd, newsize: nat, fault: OpenFault, io: bool) returns (s: Status)
      requires Valid() && Tracked(mfd) && main.Some?
      modifies this`layers, this`torn, mfd
      ensures Valid() && Grows(old(layers), layers) && |layers| == |old(layers)| && Tracked(mfd)
      ensures Promised() ==> TopGrows(old(layers), layers)
      ensures old(mfd.mapfd) == RdOnly <==> mfd.mapfd == RdOnly
      ensures old(Honest(mfd)) && s == Success ==> Honest(mfd)
      ensures old(Honest(mfd)) && s == Success ==> PreparedFrom(newsize)
      ensures old(mfd.snNumber) == snNumber && old(Honest(mfd)) ==> Honest(mfd)
      ensures torn == old(torn) || (torn && s != Success)
      ensures old(Honest(mfd)) && Promised() && TornTopFrom(old(layers), newsize) ==>
                s != Success && layers == old(layers)
      ensures old(Honest(mfd)) && old(CanSave(mfd, fault)) && io ==> s == Success
      ensures SavesOnly(old(layers), layers, newsize, mfd.size)
    {
      var valid := Validate(mfd, fault);
      ghost var mid := layers;
      s := TruncateIfValid(valid, mfd, newsize, io);
      GrowsTwice(old(layers), mid, layers);
      SavesAfterNone(old(layers), mid, layers, newsize, mfd.size);
    }

    /** Saves what would be cut off, through a handle that has passed validation. */
    method TruncateIfValid(valid: Status, mfd: Mfd, newsize: nat, io: bool) returns (s: Status)
      requires Valid() && Tracked(mfd) && main.Some?
      requires valid == Success && mfd.mapfd != RdOnly ==> mfd.snNumber == snNumber
      modifies this`layers, this`torn, mfd`cache
      ensures Valid() && Grows(old(layers), layers) && |layers| == |old(layers)| && Tracked(mfd)
      ensures Promised() ==> TopGrows(old(layers), layers)
      ensures valid.Failed? ==> s == valid && layers == old(layers) && torn == old(torn)
      ensures old(Honest(mfd)) ==> Honest(mfd)
      ensures old(Honest(mfd)) && s == Success ==> PreparedFrom(newsize)
      ensures torn == old(torn) || (torn && s != Success)
      ensures old(Honest(mfd)) && Promised() && TornTopFrom(old(layers), newsize) ==>
                s != Success && layers == old(layers)
      ensures valid == Success && old(Honest(mfd)) && Promised() && WholeTop(old(layers)) && io ==> s == Success
      ensures SavesOnly(old(layers), layers, newsize, mfd.size)
    {
      if valid.Failed? {
        return valid;
      }
      s := BTruncate(mfd, newsize, io);
    }

    /** Truncates through any handle, and keeps the snapshots as a write does. */
    method Ftruncate(mfd: Mfd, newsize: nat, fault: OpenFault, io: bool) returns (s: Status)
      requires Valid() && Tracked(mfd) && main.Some?
      modifies this`layers, this`torn, this`main, mfd
      ensures Sound() && Grows(old(layers), layers) && |layers| == |old(layers)| && Tracked(mfd)
      ensures Promised() ==> TopGrows(old(layers), layers)
      ensures main == if s == Success then Some(Truncated(old(main).value, newsize)) else old(main)
      ensures old(mfd.mapfd) == RdOnly ==> s != Success
      ensures LayersOk(layers, truth + [old(main)], intact) && (Valid() <==> Spared(old(main)))
      ensures old(Honest(mfd)) || s != Success ==> Valid()
      ensures old(Honest(mfd)) && (s == Success || old(mfd.snNumber) == snNumber) ==> Honest(mfd)
      ensures torn == old(torn) || (torn && s != Success)
      ensures old(Honest(mfd)) && Promised() && TornTopFrom(old(layers), newsize) ==>
                s != Success && layers == old(layers)
      ensures s == Success ==> main.Some? && IsResized(old(main).value, newsize, main.value)
      ensures old(Honest(mfd)) && old(CanSave(mfd, fault)) && io ==> s == Success
      ensures SavesOnly(old(layers), layers, newsize, mfd.size)
    {
      s := SaveForTruncate(mfd, newsize, fault, io);
      s := FinishTruncate(s, newsize, mfd.mapfd == RdOnly, io);
    }

    /** The second half of a truncation through a handle, if the first did not fail. */
    method FinishTruncate(saved: Status, newsize: nat, rdOnly: bool, io: bool) returns (s: Status)
      requires Valid() && main.Some?
      modifies this`main
      ensures main == if s == Success then Some(Truncated(old(main).value, newsize)) else old(main)
      ensures s == Success ==> main.Some? && IsResized(old(main).value, newsize, main.value)
      ensures saved.Failed? || rdOnly ==> s != Success
      ensures saved == Success && !rdOnly && io ==> s == Success
      ensures Valid() <==> Spared(old(main))
      ensures s != Success ==> Valid()
      ensures PreparedFrom(newsize) ==> Valid()
    {
      var fails: bool := *;
      if saved.Failed? || rdOnly || (!io && fails) {
        KeepsSpared(main);
        return if saved.Failed? then saved else Failed(EOther);
      }
      if PreparedFrom(newsize) {
        ChangeByTruncate(newsize);
      }
      TruncatedIsResized(main.value, newsize, Truncated(main.value, newsize));
      Change(Truncated(main.value, newsize));
      return Success;
    }

    /** A prepared truncation leaves every snapshot intact. */
    lemma ChangeByTruncate(newsize: nat)
      requires Valid() && main.Some?
      requires PreparedFrom(newsize)
      ensures LayersOk(layers, truth + [Some(Truncated(main.value, newsize))], intact)
    {
      var main' := Some(Truncated(main.value, newsize));
      forall p: nat | p < |main.value| && p < newsize ensures ByteOf(main', p) == ByteOf(main, p) {
        TruncatedFrame(main.value, newsize, p);
      }
      ChangeMain(layers, truth, main, intact, main');
    }

    /** There is nothing to save for, or the dat file of the latest snapshot takes blocks. */
    ghost predicate TakesSaves()
      reads this`layers, this`intact, this`earliest
    {
      !AnySnapshot() || (Promised() && WholeTop(layers))
    }

    /** Saves what truncating the main file at the path to `newsize` would cut off. */
    method OpenTruncateClose(newsize: nat, io: bool) returns (s: Status)
      requires Valid()
      modifies this`layers, this`torn
      ensures Valid() && Grows(old(layers), layers) && |layers| == |old(layers)|
      ensures Promised() ==> TopGrows(old(layers), layers)
      ensures s == Success ==> PreparedFrom(newsize)
      ensures torn == old(torn) || (torn && s != Success)
      ensures io && old(TakesSaves()) ==> s == Success
      ensures SavesFrom(old(layers), layers, newsize)
    {
      var mfd := new Mfd();
      var fault: OpenFault := *;
      if io {
        fault := NoFault;
      }
      s := OpenSn(mfd, fault);
      if s.Failed? || mfd.mapfd == NoSn || !mfd.existed {
        return;
      }
      if main.None? {
        // The main file no longer exists, so everything has been saved already
        if Promised() {
          TopOk(layers, truth, main, intact);
        }
        return;
      }
      var fails: bool := *;
      if !io && fails {
        return Failed(EOther);   // the main file cannot be opened
      }
      ghost var mid := layers;
      s := BTruncate(mfd, newsize, io);
      GrowsTwice(old(layers), mid, layers);
      SavesAfterNone(old(layers), mid, layers, newsize, mfd.size);
    }

    method Truncate(newsize: nat, io: bool) returns (s: Status)
      requires Valid()
      modifies this`layers, this`torn, this`main
      ensures Valid() && Grows(old(layers), layers) && |layers| == |old(layers)|
      ensures Promised() ==> TopGrows(old(layers), layers)
      ensures s == Success ==> old(main).Some? && main == Some(Truncated(old(main).value, newsize))
      ensures s != Success ==> main == old(main)
      ensures torn == old(torn) || (torn && s != Success)
      ensures s == Success ==> main.Some? && IsResized(old(main).value, newsize, main.value)
      ensures io && old(TakesSaves()) ==> (s == Success <==> old(main).Some?)
      ensures SavesFrom(old(layers), layers, newsize)
    {
      s := OpenTruncateClose(newsize, io);
      if s.Failed? {
        return;
      }
      if main.None? {
        return Failed(ENOENT);
      }
      var fails: bool := *;
      if !io && fails {
        return Failed(EOther);
      }
      ChangeByTruncate(newsize);
      TruncatedIsResized(main.value, newsize, Truncated(main.value, newsize));
      main := Some(Truncated(main.value, newsize));
    }

    method Unlink(io: bool) returns (s: Status)
      requires Valid()
      modifies this`layers, this`torn, this`main
      ensures Valid() && Grows(old(layers), layers) && |layers| == |old(layers)|
      ensures Promised() ==> TopGrows(old(layers), layers)
      ensures s == Success ==> old(main).Some? && main.None?
      ensures s != Success ==> main == old(main)
      ensures torn == old(torn) || (torn && s != Success)
      ensures io && old(TakesSaves()) ==> (s == Success <==> old(main).Some?)
    {
      s := OpenTruncateClose(0, io);
      if s.Failed? {
        return;
      }
      if main.None? {
        return Failed(ENOENT);
      }
      var fails: bool := *;
      if !io && fails {
        return Failed(EOther);
      }
      ChangeMain(layers, truth, main, intact, None);
      main := None;
    }

    /** Creates the file, or empties it if it is there. */
    method Create(mfd: Mfd, fault: OpenFault, io: bool) returns (s: Status)
      requires Valid() && !mfd.mapfd.OpenIn?
      modifies this`layers, this`torn, this`main, mfd
      ensures Valid() && Grows(old(layers), layers) && |layers| == |old(layers)|
      ensures Promised() ==> TopGrows(old(layers), layers)
      ensures main == if s == Success then Some([]) else old(main)
      ensures s == Success ==> Honest(mfd)
      ensures torn == old(torn) || (torn && s != Success)
      ensures io && fault == NoFault && old(TakesSaves()) ==> s == Success
    {
      s := OpenSn(mfd, fault);
      if s.Failed? {
        return;
      }
      ghost var mid := layers;
      s := EmptyOut(mfd.mapfd.InRuins? || (mfd.mapfd.OpenIn? && mfd.existed), io);
      GrowsTwice(old(layers), mid, layers);
    }

    /** Makes the main file empty, once what it held has been saved if the latest snapshot has seen it. */
    method EmptyOut(saves: bool, io: bool) returns (s: Status)
      requires Valid()
      requires !saves && Promised() ==> layers[|layers| - 1].Some? && !layers[|layers| - 1].value.existed
      modifies this`layers, this`torn, this`main
      ensures Valid() && Grows(old(layers), layers) && |layers| == |old(layers)|
      ensures Promised() ==> TopGrows(old(layers), layers)
      ensures main == if s == Success then Some([]) else old(main)
      ensures torn == old(torn) || (torn && s != Success)
      ensures io && old(TakesSaves()) ==> s == Success
    {
      if saves {
        s := OpenTruncateClose(0, io);
        if s.Failed? {
          return;
        }
      }
      var fails: bool := *;
      if !io && fails {
        return Failed(EOther);
      }
      ChangeMain(layers, truth, main, intact, Some([]));
      main := Some([]);
      return Success;
    }

    /** Opens the file for writing. The map may be made even if opening then fails; `opens` says if the main file,
        when it is there, can be opened. */
    method Open(mfd: Mfd, fault: OpenFault, opens: bool) returns (s: Status)
      requires Valid() && !mfd.mapfd.OpenIn?
      modifies this`layers, mfd
      ensures Valid() && TopGrows(old(layers), layers)
      ensures s == Success ==> main.Some? && Honest(mfd) && mfd.snNumber == snNumber
      ensures fault == NoFault && main.Some? && opens ==> s == Success
      ensures WholeTop(old(layers)) ==> WholeTop(layers)
      ensures !AnySnapshot() ==> layers == old(layers) && mfd.mapfd == NoSn
    {
      s := OpenSn(mfd, fault);
      if s.Failed? {
        return;
      }
      if main.None? {
        return Failed(ENOENT);
      }
      if !opens {
        return Failed(EOther);
      }
    }

    // -------------------------------------------------------------- making and removing snapshots

    /** A new snapshot starts without any overlay: it is the main file. */
    method SnCreate(succeeds: bool) returns (s: Status)
      requires Valid()
      modifies this`layers, this`truth, this`snNumber
      ensures Valid() && Grows(old(layers), layers) && (s == Success <==> succeeds)
      ensures s == Success ==>
                && layers == old(layers) + [None] && truth == old(truth) + [main]
                && snNumber == old(snNumber) + 1
      ensures s != Success ==> layers == old(layers) && truth == old(truth) && snNumber == old(snNumber)
    {
      if !succeeds {
        return Failed(EOther);
      }
      ghost var vs := truth + [main];
      layers, truth, snNumber := layers + [None], truth + [main], snNumber + 1;
      forall k | intact <= k < |layers| ensures LayerOk(layers[k], (truth + [main])[k], (truth + [main])[k + 1]) {
        if k < |layers| - 1 {
          assert LayerOk(old(layers)[k], vs[k], vs[k + 1]);
        }
      }
      return Success;
    }

    /** The earliest of several snapshots leaves the list before its directory is removed. */
    predicate Leaves(removal: Removal)
      reads this
    {
      AnySnapshot() && (removal.Removes? || (removal.BreaksOff? && earliest < |layers| - 1))
    }

    /** The only snapshot stays in the list when removing it breaks off, and something of the path may have gone. */
    predicate Damages(removal: Removal)
      reads this
    {
      && earliest == |layers| - 1 && removal.BreaksOff?
      && Loses(layers[earliest], removal.mapGone, removal.datGone)
    }

    /** Removes the earliest snapshot. Its files stay readable through open descriptors. When the removal of the only
        snapshot breaks off, it stays, with `left` of it for the path; it then goes on showing the file exactly if
        nothing of the path has gone, or the main file is still what it showed. */
    method SnDestroy(removal: Removal) returns (s: Status, left: Layers)
      requires Valid()
      modifies this`earliest, this`intact
      ensures Valid()
      ensures !old(AnySnapshot()) ==> s == Failed(ENOENT)
      ensures old(AnySnapshot()) ==> (s == Success <==> removal.Removes?)
      ensures old(AnySnapshot()) && removal.Refuses? ==> s == Failed(removal.error)
      ensures earliest == old(earliest) + if old(Leaves(removal)) then 1 else 0
      ensures intact == if old(Damages(removal)) then |layers| else Max(old(intact), earliest)
      ensures old(earliest) == |layers| - 1 && removal.BreaksOff? ==>
                left == layers[|layers| - 1 := Remains(layers[|layers| - 1], removal.mapGone, removal.datGone)]
      ensures !(old(earliest) == |layers| - 1 && removal.BreaksOff?) ==> left == layers
      ensures old(Promised()) && old(earliest) == |layers| - 1 && removal.BreaksOff? ==>
                (Shows(left, main, |layers| - 1, truth[|layers| - 1]) <==>
                 !old(Damages(removal)) || StillMain(layers, main))
    {
      left := layers;
      if !AnySnapshot() {
        return Failed(ENOENT), left;
      }
      if removal.Refuses? {
        return Failed(removal.error), left;
      }
      if removal.BreaksOff? && earliest == |layers| - 1 {
        var k := |layers| - 1;
        left := layers[k := Remains(layers[k], removal.mapGone, removal.datGone)];
        if Promised() {
          TopOk(layers, truth, main, intact);
          BrokenRemovalIff(layers, truth[k], main, removal.mapGone, removal.datGone);
        }
        if Loses(layers[k], removal.mapGone, removal.datGone) {
          intact := |layers|;
        }
        return Failed(EOther), left;
      }
      earliest := earliest + 1;
      intact := Max(intact, earliest);
      return if removal.Removes? then Success else Failed(EOther), left;
    }

    // -------------------------------------------------------------- reading in snapshots

    /** Existence and size of the file in snapshot `k`: the header of the first map found, or else the main file.
        Unless `io`, any I/O call may fail. What a removal that broke off has left of a snapshot may say anything. */
    method Getattr(k: nat, io: bool) returns (r: Result<nat>)
      requires Valid() && earliest <= k < |layers|
      ensures intact <= k ==>
                r == (if truth[k].Some? then Ok(|truth[k].value|) else Err(ENOENT)) || (!io && r == Err(EOther))
    {
      if k < intact {
        r := *;
        return;
      }
      GetAttrIsVersion(layers, truth + [main], k);
      var sni := |layers| - k;
      while sni > 0
        invariant 0 <= sni <= |layers| - k
        invariant GetAttr(layers, main, k) == GetAttr(layers, main, |layers| - sni)
      {
        if !io {
          if * {
            return Err(EOther);
          }
        }
        var layer := layers[|layers| - sni];
        if layer.Some? {
          return if layer.value.existed then Ok(layer.value.size) else Err(ENOENT);
        }
        sni := sni - 1;
      }
      return if main.Some? then Ok(|main.value|) else Err(ENOENT);
    }

    /** Opens the file in snapshot `k`: the maps and dats from there to the latest snapshot, and the main file. Unless
        I/O fails this is a success, also when the file is found nowhere. */
    method GetSnSteps(k: nat, memory: nat, io: bool) returns (r: Result<SnHandle>)
      requires k <= |layers|
      ensures r.Ok? ==> r.value == WithMemory(OpenHandle(layers, main, k, snNumber), memory)
      ensures io ==> r.Ok?
    {
      var n := |layers|;
      var first: Option<nat> := None;
      var size := 0;
      var mapOpen, datOpen := seq(n, _ => false), seq(n, _ => false);
      var j := k;
      while j < n
        invariant k <= j <= n && |mapOpen| == |datOpen| == n
        invariant forall i | 0 <= i < n :: mapOpen[i] == (k <= i < j && HasMap(layers[i]))
        invariant forall i | 0 <= i < n :: datOpen[i] == (k <= i < j && HasDat(layers[i]))
        invariant first.None? ==> FirstFile(layers, k) == FirstFile(layers, j) && size == 0
        invariant first.Some? ==> first.value == FirstFile(layers, k) < j && size == layers[first.value].value.size
      {
        if !io {
          if * {
            return Err(EOther);
          }
        }
        // A layer with a map but no dat is opened and skipped
        if layers[j].Some? {
          mapOpen := mapOpen[j := true];
          if layers[j].value.dat.Some? {
            datOpen := datOpen[j := true];
            if first.None? {
              first, size := Some(j), layers[j].value.size;
            }
          }
        }
        j := j + 1;
      }
      if main.Some? && first.None? {
        first, size := Some(n), |main.value|;
      }
      if first.None? {
        size := memory;
      }
      return Ok(SnHandle(snNumber, k, first, size, mapOpen, datOpen, main.Some?));
    }

    /** pread into a part of a buffer: as many bytes as the file has there. */
    static method PRead(file: File, buf: array<Byte>, to: nat, length: nat, from: nat) returns (ret: nat)
      requires to + length <= buf.Length
      modifies buf
      ensures ret == if from >= |file| then 0 else Min(length, |file| - from)
      ensures forall i | 0 <= i < buf.Length ::
                buf[i] == if to <= i < to + ret then file[from + i - to] else old(buf[i])
    {
      ret := if from >= |file| then 0 else Min(length, |file| - from);
      forall i | 0 <= i < ret {
        buf[to + i] := file[from + i];
      }
    }

    /** Reads part of one block: from the first open layer with a pointer for it, or from the main file. */
    method ReadPiece(h: SnHandle, buf: array<Byte>, b: nat, within: nat, copyto: nat, length: nat, io: bool)
      returns (s: Status)
      requires Fits(h, layers) && h.first.Some?
      requires 0 < length && within + length <= BL_S && copyto + length <= buf.Length
      modifies buf
      ensures s == Success ==> forall p: nat | b * BL_S + within <= p < b * BL_S + within + length ::
                LookupVia(h, layers, main, p) == Some(buf[copyto + p - (b * BL_S + within)])
      ensures forall i | 0 <= i < buf.Length && !(copyto <= i < copyto + length) :: buf[i] == old(buf[i])
      ensures s != Success && io ==> LookupVia(h, layers, main, b * BL_S + within + length - 1).None?
    {
      var n := |layers|;
      ghost var via, mainVia := LayersVia(h, layers), MainVia(h, main);
      var lo := b * BL_S + within;
      var sni := n - h.first.value;
      while sni > 0
        invariant 0 <= sni <= n - h.first.value && buf[..] == old(buf[..])
        invariant forall p: nat | lo <= p < lo + length ::
                  LookupVia(h, layers, main, p) == Lookup(via, mainVia, n - sni, p)
      {
        if !io {
          if * {
            return Failed(EOther);
          }
        }
        var j := n - sni;
        PieceInLayer(via, mainVia, j, b, within, length);
        assert via[j] == LayerVia(h, layers, j);
        assert via[j].Some? ==> Pointer(via[j].value, b) == Pointer(layers[j].value, b);
        if h.mapOpen[j] && layers[j].Some? && Pointer(layers[j].value, b) != 0 {
          var ov := layers[j].value;
          if !h.datOpen[j] || ov.dat.None? {
            return Failed(EOther);
          }
          var ret := PRead(ov.dat.value, buf, copyto, length, (Pointer(ov, b) - 1) * BL_S + within);
          return if ret == length then Success else Failed(ENXIO);
        }
        sni := sni - 1;
      }
      if !h.mainOpen || main.None? {
        return Failed(EOther);
      }
      var ret := PRead(main.value, buf, copyto, length, b * BL_S + within);
      return if ret == length then Success else Failed(ENXIO);
    }

    /** How many bytes a read of a file of the given size returns. */
    static function ReadLength(size: nat, readsize: nat, readoffset: nat): (n: nat)
      ensures IsReadCount(size, readsize, readoffset, n)
    {
      if readoffset >= size then 0 else Min(readsize, size - readoffset)
    }

    /** Reads from a file in a snapshot, block by block. For a file found nowhere there is no layer to look into, and
        the buffer is returned as it was. */
    method BRead(h: SnHandle, buf: array<Byte>, readsize: nat, readoffset: nat, io: bool) returns (r: Result<nat>)
      requires Fits(h, layers) && readsize <= buf.Length
      modifies buf
      ensures var length := ReadLength(h.size, readsize, readoffset);
              && (r.Ok? ==> r.value == length && IsReadCount(h.size, readsize, readoffset, r.value))
              && (h.first.None? ==> r.Ok? && buf[..] == old(buf[..]))
              && (r.Ok? && h.first.Some? ==>
                    forall p: nat | readoffset <= p < readoffset + length ::
                      LookupVia(h, layers, main, p) == Some(buf[p - readoffset]))
              && (r.Err? && io ==>
                    exists p: nat :: readoffset <= p < readoffset + length && LookupVia(h, layers, main, p).None?)
              && forall i | length <= i < buf.Length :: buf[i] == old(buf[i])
    {
      if readsize == 0 || readoffset >= h.size {
        return Ok(0);
      }
      var size := if readoffset + readsize > h.size then h.size - readoffset else readsize;
      var (blockoffset, blocknumber) := CalcBlocks(readoffset, size);
      var copyto: nat := 0;
      ghost var end := blockoffset + blocknumber;
      assert end * BL_S >= readoffset + size > (end - 1) * BL_S;
      while blocknumber > 0
        invariant blockoffset + blocknumber == end
        invariant copyto == 0 ==> blockoffset == BlockOf(readoffset) && blocknumber > 0
        invariant copyto > 0 && blocknumber > 0 ==> readoffset + copyto == blockoffset * BL_S
        invariant copyto <= size && (blocknumber == 0 ==> copyto == size)
        invariant h.first.Some? ==>
                    forall p: nat | readoffset <= p < readoffset + copyto ::
                      LookupVia(h, layers, main, p) == Some(buf[p - readoffset])
        invariant h.first.None? ==> buf[..] == old(buf[..])
        invariant forall i | size <= i < buf.Length :: buf[i] == old(buf[i])
      {
        var copylength, copyfrom := BL_S, 0;
        if copyto == 0 {
          copyfrom := readoffset - blockoffset * BL_S;
          copylength := copylength - copyfrom;
        }
        if blocknumber == 1 {
          copylength := copylength - ((blockoffset + 1) * BL_S - readoffset - size);
        }
        assert blockoffset * BL_S + copyfrom == readoffset + copyto;
        if h.first.Some? {
          var s := ReadPiece(h, buf, blockoffset, copyfrom, copyto, copylength, io);
          if s.Failed? {
            return Err(s.error);
          }
        }
        blocknumber, blockoffset, copyto := blocknumber - 1, blockoffset + 1, copyto + copylength;
      }
      return Ok(copyto);
    }

    /** Reads through a handle, which is refused once a new snapshot has been made. */
    method Read(h: SnHandle, buf: array<Byte>, readsize: nat, readoffset: nat, io: bool) returns (r: Result<nat>)
      requires h.snNumber == snNumber ==> Fits(h, layers)
      requires readsize <= buf.Length
      modifies buf
      ensures h.snNumber != snNumber ==> r == Err(EREMCHG) && buf[..] == old(buf[..])
      ensures h.snNumber == snNumber && h.first.None? ==>
                r.Ok? && IsReadCount(h.size, readsize, readoffset, r.value) && buf[..] == old(buf[..])
      ensures forall f | h.snNumber == snNumber && ReadsAs(h, layers, main, f) && (io || r.Ok?) ::
                r.Ok? && ReadExactly(f, buf[..], readsize, readoffset, r.value)
    {
      if h.snNumber != snNumber {
        return Err(EREMCHG);
      }
      r := BRead(h, buf, readsize, readoffset, io);
    }
  }
}
