/**
  The snapshot objects (snapshots.cpp): the file and bitmap of one snapshot, and the
  backend that saves every block to all live snapshots before it lets a write through.
  Methods run on their own here; SnapshotSteps has the interleavings.
*/
module Snapshots {
  import opened Flat
  import opened Strides
  import opened SnapshotBitmap
  import opened SnapshotSteps
  import opened StorageBackends

  // Between calls a snapshot is good for any source that still has the origin of each unsaved block.
  lemma SourceMoves(c: Config, sn: Snap, src: Disk, src': Disk)
    requires SnapOk(c, sn, src)
    requires forall b :: 0 <= b < c.n ==> Kept(sn, b) || Lookup(src', b, c.bs) == Lookup(src, b, c.bs)
    ensures SnapOk(c, sn, src')
  {
    hide Kept, Lookup;
    forall b | 0 <= b < c.n ensures BlockOk(c, sn, src', b) {
      assert BlockOk(c, sn, src, b);
    }
  }

  lemma TouchedByPrefix(off: nat, m: nat, size: nat, bs: nat, b: nat)
    requires 0 < bs && m <= size && Touched(off, m, bs, b)
    ensures Touched(off, size, bs, b)
  {
  }

  // A splice inside a covered range whose visited blocks are all kept.
  lemma GuardedSplice(c: Config, sn: Snap, src: Disk, src': Disk, off: nat, size: nat, data: seq<Byte>)
    requires 0 < c.bs && Sized(src, c.bs) && Sized(src', c.bs) && Spliced(src, src', c.bs, off, data)
    requires |data| <= size && Covered(off, size, c.bs) && SnapOk(c, sn, src)
    requires forall b :: b in Visited(off, size, c.bs) ==> Kept(sn, b)
    ensures SnapOk(c, sn, src')
  {
    hide SnapOk, Kept, Spliced, Touched, Lookup, Sized;
    forall b | 0 <= b < c.n
      ensures Kept(sn, b) || Lookup(src', b, c.bs) == Lookup(src, b, c.bs)
    {
      if Touched(off, |data|, c.bs, b) {
        TouchedByPrefix(off, |data|, size, c.bs, b);
        assert b in Visited(off, size, c.bs);
      } else {
        UntouchedBlock(src, src', c.bs, off, data, b);
      }
    }
    SourceMoves(c, sn, src, src');
  }

  class SnapshotState {
    const src: StorageBackend
    const n: nat
    const sparse: bool
    const bitmap: array<bv64>
    var file: Disk
    var blockWorkingOn: nat
    var copyFinished: bool
    ghost var running: bool
    ghost var failed: set<nat>
    ghost var faults: nat
    ghost const orig: Disk

    ghost function Cfg(): Config {
      Config(src.bs, n, sparse)
    }

    ghost predicate Fits()
      reads this
    {
      n <= 64 * bitmap.Length
    }

    ghost function Value(): Snap
      requires Fits()
      reads this, bitmap
    {
      Snap(Marked(bitmap[..], n), file, Nobody, blockWorkingOn, running, orig, failed)
    }

    ghost predicate Valid()
      reads this, bitmap, src`store, src
    {
      src.Valid() && Fits() && SnapOk(Cfg(), Value(), src.store)
    }

    // The bitmap has ceil(n / 64) words (see AllocationSuffices).
    constructor (src: StorageBackend, n: nat, sparse: bool)
      requires src.Valid()
      ensures Valid() && fresh(bitmap)
      ensures this.src == src && this.n == n && this.sparse == sparse
      ensures Value() == NewSnap(src.store)
    {
      this.src, this.n, this.sparse := src, n, sparse;
      this.bitmap := new bv64[(n + 63) / 64](_ => 0);
      this.file, this.blockWorkingOn, this.copyFinished, this.running := map[], 0, false, true;
      this.failed, this.faults, this.orig := {}, 0, src.store;
      new;
      NothingMarked(bitmap[..], n);
      NewSnapOk(Cfg(), src.store);
    }

    // Read a block of the source and write it to the file; with sparse files zeros are not written.
    method CopyBlock(b: nat) returns (ok: bool)
      requires src.Valid()
      modifies this`file, this`faults, src`faults
      ensures !ok ==> file == old(file) && src.faults + faults > old(src.faults + faults)
      ensures ok ==> var blk := Lookup(src.store, b, src.bs);
                     file == if sparse && blk == Zeros(src.bs) then old(file) else old(file)[b := blk]
      ensures ok ==> src.faults == old(src.faults) && faults == old(faults)
      ensures src.faults >= old(src.faults) && faults >= old(faults)
    {
      var err, blk := src.GetData(b * src.bs, src.bs);
      if err { return false; }
      SliceInBlock(src.store, src.bs, b, 0, src.bs);
      assert blk == Lookup(src.store, b, src.bs);
      if sparse && blk == Zeros(src.bs) { return true; }
      ok := *;
      if ok { file := file[b := blk]; } else { faults := faults + 1; }
    }

    // The bit first, then the copy, as one critical section: setting the bit and copying, in the terms
    // of the state machine.
    method GetSetBlockState(b: nat, ghost o: Owner) returns (ok: bool)
      requires Valid() && b < n
      modifies bitmap, this`file, this`failed, this`faults, src`faults
      ensures Valid() && Kept(Value(), b) && StillKept(old(Value()), Value())
      ensures Value() == if b in old(Value()).marked then old(Value())
                         else Copied(Cfg(), Claimed(old(Value()), b, o), b, Lookup(src.store, b, src.bs), ok)
      ensures src.faults >= old(src.faults) && faults >= old(faults)
      ensures !ok ==> src.faults + faults > old(src.faults + faults)
      ensures ok ==> src.faults == old(src.faults) && faults == old(faults)
    {
      hide SnapOk, Marked, Mask, IsSet, Lookup, HasBit, WithBit;
      ghost var was, c := Value(), Cfg();
      ghost var words := bitmap[..];
      assert b / 64 < bitmap.Length;
      ReadBit(words, b, n);
      if HasBit(bitmap[b / 64], Mask(b)) { return true; }
      ClaimedOk(c, was, src.store, b, o);
      CopiedOk(c, Claimed(was, b, o), src.store, true);
      CopiedOk(c, Claimed(was, b, o), src.store, false);
      SetBitMarks(words, b, n);
      bitmap[b / 64] := WithBit(bitmap[b / 64], Mask(b));
      assert bitmap[..] == SetBit(words, b);
      ok := CopyBlock(b);
      if !ok { failed := failed + {b}; }
    }

    // The copier, running on its own; the stop flag is raised after `rounds` blocks.  It reports that it
    // finished whether or not it saw all blocks.
    method Run(rounds: nat)
      requires Valid() && !copyFinished
      modifies bitmap, this, src`faults
      ensures Valid() && copyFinished && Finished(Cfg(), Value())
      ensures SameContent(Cfg(), file, orig) <==> MissingWereZero(Cfg(), Value(), orig)
      ensures TakesRoom(Cfg(), Value(), orig)
      ensures Complete(Cfg(), Value()) ==> forall b: nat :: b < n ==> (Missing(Value(), b) <==> b in failed)
      ensures !Complete(Cfg(), Value()) ==>
                blockWorkingOn == old(blockWorkingOn) + rounds || src.faults + faults > old(src.faults + faults)
      ensures blockWorkingOn <= old(blockWorkingOn) + rounds
    {
      hide SnapOk, Lookup, SameContent, Zeros, Missing, MissingWereZero, TakesRoom;
      assert blockWorkingOn <= n by { NextInRange(Cfg(), Value(), src.store); }
      var going, left := true, rounds;
      while left > 0 && going && blockWorkingOn < n
        invariant Valid() && blockWorkingOn <= n
        invariant going ==> src.faults >= old(src.faults) && faults >= old(faults)
        invariant going ==> blockWorkingOn + left == old(blockWorkingOn) + rounds
        invariant !going ==> src.faults + faults > old(src.faults + faults)
        invariant blockWorkingOn + left <= old(blockWorkingOn) + rounds
      {
        var ok := GetSetBlockState(blockWorkingOn, Background);
        NextMoves(Cfg(), Value(), Value().(next := blockWorkingOn + 1), src.store);
        if ok { blockWorkingOn := blockWorkingOn + 1; } else { going := false; }
        left := left - 1;
      }
      if blockWorkingOn != n {
        BreaksOff(Cfg(), Value(), src.store);
        running := false;
      }
      copyFinished := true;
      FileIsOrigin(Cfg(), Value(), src.store);
    }
  }

  lemma NextInRange(c: Config, sn: Snap, src: Disk)
    requires SnapOk(c, sn, src)
    ensures sn.next <= c.n
  {
  }

  lemma ReadBit(words: seq<bv64>, b: nat, n: nat)
    requires b < n <= 64 * |words|
    ensures b / 64 < |words| && (HasBit(words[b / 64], Mask(b)) <==> b in Marked(words, n))
  {
    hide HasBit, Mask;
    assert InWord(b, words);
  }

  // A call failed: at the source, which counted f failures before and g now, or at a snapshot.
  ghost predicate Faulted(f: nat, fs: seq<nat>, g: nat, gs: seq<nat>)
    requires |fs| == |gs|
  {
    g > f || exists i :: 0 <= i < |fs| && gs[i] > fs[i]
  }

  // No failure was forgotten.
  ghost predicate Counted(f: nat, fs: seq<nat>, g: nat, gs: seq<nat>)
    requires |fs| == |gs|
  {
    g >= f && forall i :: 0 <= i < |fs| ==> gs[i] >= fs[i]
  }

  lemma FaultedMore(f: nat, fs: seq<nat>, g: nat, gs: seq<nat>, h: nat, hs: seq<nat>, i: nat)
    requires |fs| == |gs| == |hs| && i < |fs| && hs == gs[i := hs[i]] && g <= h && gs[i] <= hs[i]
    requires Counted(f, fs, g, gs)
    ensures Counted(f, fs, h, hs)
    ensures Faulted(f, fs, h, hs) <==> Faulted(f, fs, g, gs) || h + hs[i] > g + gs[i]
  {
    if Faulted(f, fs, g, gs) && !(g > f) {
      var j :| 0 <= j < |fs| && gs[j] > fs[j];
      assert hs[j] > fs[j];
    }
  }

  // The backend in front of the source: writes pass through `sb` after all live snapshots saved them.
  class SnapshotBackend {
    const sb: StorageBackend
    const n: nat
    const sparse: bool
    var runningSnapshots: seq<SnapshotState>
    ghost var faults: nat      // snapshots whose file could not be created

    ghost function Bitmaps(): set<array<bv64>>
      reads this
    {
      set i | 0 <= i < |runningSnapshots| :: runningSnapshots[i].bitmap
    }

    // Every live snapshot belongs to this source and has a bitmap of its own.
    ghost predicate Wired()
      reads this, runningSnapshots
    {
      && (forall i :: 0 <= i < |runningSnapshots| ==>
                        && runningSnapshots[i].src == sb && runningSnapshots[i].n == n
                        && runningSnapshots[i].Fits())
      && (forall i, j :: 0 <= i < j < |runningSnapshots| ==>
                           && runningSnapshots[i] != runningSnapshots[j]
                           && runningSnapshots[i].bitmap != runningSnapshots[j].bitmap)
    }

    // All live snapshots are good: what they did not save yet is still in the source.
    ghost predicate Isolated()
      requires Wired()
      reads this, runningSnapshots, Bitmaps(), sb
    {
      sb.Valid() && forall i :: 0 <= i < |runningSnapshots| ==> runningSnapshots[i].Valid()
    }

    constructor (sb: StorageBackend, n: nat, sparse: bool)
      requires sb.Valid()
      ensures this.sb == sb && this.n == n && this.sparse == sparse
      ensures Wired() && Isolated() && runningSnapshots == [] && faults == 0
    {
      this.sb, this.n, this.sparse, this.runningSnapshots, this.faults := sb, n, sparse, [], 0;
    }

    // A new snapshot, unless its file cannot be created.
    method TriggerSnapshot() returns (r: Option<SnapshotState>)
      requires Wired() && Isolated()
      modifies this
      ensures Wired() && Isolated()
      ensures r.None? ==> runningSnapshots == old(runningSnapshots) && faults > old(faults)
      ensures r.Some? ==> runningSnapshots == old(runningSnapshots) + [r.value]
                          && r.value.Fits() && r.value.Value() == NewSnap(sb.store) && faults == old(faults)
    {
      hide SnapOk, Marked;
      var created := *;
      if !created {
        faults := faults + 1;
        return None;
      }
      var ss := new SnapshotState(sb, n, sparse);
      assert forall i :: 0 <= i < |runningSnapshots| ==> runningSnapshots[i].Valid();
      runningSnapshots := runningSnapshots + [ss];
      return Some(ss);
    }

    // Save the blocks of a byte range to one snapshot; the first failure ends the loop.
    method SaveRange(ss: SnapshotState, offset: nat, len: nat) returns (ok: bool)
      requires ss.Valid() && ss.n == n && offset + len <= n * ss.src.bs
      modifies ss.bitmap, ss`file, ss`failed, ss`faults, ss.src`faults
      ensures ss.Valid() && StillKept(old(ss.Value()), ss.Value())
      ensures ok ==> AllKept(ss.Value(), offset, len, ss.src.bs)
      ensures !ok ==> ss.src.faults + ss.faults > old(ss.src.faults + ss.faults)
      ensures ok ==> ss.src.faults == old(ss.src.faults) && ss.faults == old(ss.faults)
      ensures ss.src.faults >= old(ss.src.faults) && ss.faults >= old(ss.faults)
      ensures OnlyVisited(old(ss.Value()), ss.Value(), offset, len, ss.src.bs)
    {
      hide SnapOk, Marked, Kept, StillKept, OnlyVisited, Visited, Copied, Claimed, StridesKept, AllKept;
      ok := true;
      var o := offset;
      ghost var k := 0;
      ghost var was := ss.Value();
      NoneKept(was, offset, len, ss.src.bs);
      while ok && o < offset + len
        invariant ss.Valid() && StillKept(was, ss.Value())
        invariant ok ==> o == offset + k * ss.src.bs && StridesKept(ss.Value(), offset, k, ss.src.bs)
        invariant ok && k > 0 ==> o < offset + len + ss.src.bs
        invariant ss.src.faults >= old(ss.src.faults) && ss.faults >= old(ss.faults)
        invariant !ok ==> ss.src.faults + ss.faults > old(ss.src.faults + ss.faults)
        invariant ok ==> ss.src.faults == old(ss.src.faults) && ss.faults == old(ss.faults)
        invariant OnlyVisited(was, ss.Value(), offset, len, ss.src.bs)
        decreases ok, offset + len - o
      {
        ghost var before := ss.Value();
        var b, at := Locate(o, ss.src.bs);
        StrideInDevice(offset, k, ss.src.bs, n, o, b, at);
        ok := ss.GetSetBlockState(b, Writer(0));
        MarkedOne(ss.Cfg(), before, ss.Value(), b, Writer(0), Lookup(ss.src.store, b, ss.src.bs), ok);
        OneMoreKept(was, before, ss.Value(), offset, k, ss.src.bs, b);
        OneMoreVisited(was, before, ss.Value(), offset, len, k, ss.src.bs, b);
        o := o + ss.src.bs;
        k := k + 1;
      }
      if ok { StridesCoverVisited(ss.Value(), offset, k, ss.src.bs, len); }
    }

    ghost predicate AllSaved(offset: nat, len: nat, count: nat)
      requires Wired() && sb.Valid() && count <= |runningSnapshots|
      reads this, runningSnapshots, Bitmaps(), sb
    {
      forall i :: 0 <= i < count ==> AllKept(runningSnapshots[i].Value(), offset, len, sb.bs)
    }

    lemma SourceIsValid()
      requires Wired() && Isolated()
      ensures sb.Valid() && 0 < sb.bs
    {
    }

    // The values of all live snapshots.
    ghost function Values(): (vs: seq<Snap>)
      requires Wired()
      reads this, runningSnapshots, Bitmaps()
      ensures |vs| == |runningSnapshots|
    {
      seq(|runningSnapshots|, i requires 0 <= i < |runningSnapshots| && Wired()
                                reads this, runningSnapshots, Bitmaps() => runningSnapshots[i].Value())
    }

    // The failures that the live snapshots have counted.
    ghost function Failures(): (fs: seq<nat>)
      reads this, runningSnapshots
      ensures |fs| == |runningSnapshots|
    {
      seq(|runningSnapshots|, i requires 0 <= i < |runningSnapshots| reads this, runningSnapshots =>
        runningSnapshots[i].faults)
    }

    method SaveTo(i: nat, offset: nat, len: nat) returns (ok: bool)
      requires Wired() && Isolated() && i < |runningSnapshots| && offset + len <= n * sb.bs
      modifies runningSnapshots, Bitmaps(), sb`faults
      ensures Wired() && Isolated()
      ensures Values() == old(Values())[i := runningSnapshots[i].Value()]
      ensures Failures() == old(Failures())[i := runningSnapshots[i].faults]
      ensures ok ==> AllKept(Values()[i], offset, len, sb.bs)
      ensures ok ==> sb.faults == old(sb.faults) && Failures() == old(Failures())
      ensures !ok ==> sb.faults + Failures()[i] > old(sb.faults + Failures()[i])
      ensures sb.faults >= old(sb.faults) && Failures()[i] >= old(Failures()[i])
      ensures OnlyVisited(old(Values()[i]), Values()[i], offset, len, sb.bs)
    {
      hide AllKept, StillKept, SnapshotState.Value, SnapOk, Marked, Kept, Sized, OnlyVisited;
      ok := SaveRange(runningSnapshots[i], offset, len);
    }

    lemma SavedAll(offset: nat, len: nat)
      requires Wired() && sb.Valid() && forall i :: 0 <= i < |Values()| ==> AllKept(Values()[i], offset, len, sb.bs)
      ensures AllSaved(offset, len, |runningSnapshots|)
    {
      hide AllKept;
      forall i | 0 <= i < |runningSnapshots| ensures AllKept(runningSnapshots[i].Value(), offset, len, sb.bs) {
        assert Values()[i] == runningSnapshots[i].Value();
      }
    }

    // Save the blocks of a range to every live snapshot, whatever becomes of the others.  `unread` are the
    // snapshots that miss a block because a read of the source failed, each with a failure of its own.
    method TriggerRange(offset: nat, len: nat) returns (ok: bool, ghost unread: set<nat>)
      requires Wired() && Isolated() && offset + len <= n * sb.bs
      modifies runningSnapshots, Bitmaps(), sb`faults
      ensures Wired() && Isolated()
      ensures Counted(old(sb.faults), old(Failures()), sb.faults, Failures())
      ensures !ok <==> Faulted(old(sb.faults), old(Failures()), sb.faults, Failures())
      ensures ok ==> AllSaved(offset, len, |runningSnapshots|)
      ensures |unread| <= sb.faults - old(sb.faults)
      ensures 0 < sb.bs && SavedUpTo(|runningSnapshots|, old(Values()), Values(), old(Failures()), Failures(), unread,
                                     offset, len, sb.bs)
    {
      hide *;
      SourceIsValid();
      ok, unread := true, {};
      NothingSaved(Values(), Failures(), offset, len, sb.bs);
      NoFault(sb.faults, Failures());
      for i := 0 to |runningSnapshots|
        invariant 0 < sb.bs && Wired() && Isolated()
        invariant Counted(old(sb.faults), old(Failures()), sb.faults, Failures())
        invariant !ok <==> Faulted(old(sb.faults), old(Failures()), sb.faults, Failures())
        invariant sb.faults >= old(sb.faults) && |unread| <= sb.faults - old(sb.faults)
        invariant SavedUpTo(i, old(Values()), Values(), old(Failures()), Failures(), unread, offset, len, sb.bs)
      {
        ghost var faults0, failures0, values0 := sb.faults, Failures(), Values();
        var saved := SaveTo(i, offset, len);
        CountedUpTo(old(sb.faults), old(Failures()), faults0, failures0, i);
        FaultedMore(old(sb.faults), old(Failures()), faults0, failures0, sb.faults, Failures(), i);
        SavedOneMore(i, old(Values()), values0, Values(), old(Failures()), failures0, Failures(), unread,
                     saved, sb.faults > faults0, offset, len, sb.bs);
        if !saved { ok := false; }
        if sb.faults > faults0 { unread := unread + {i}; }
      }
      if ok {
        AllOfThem(old(sb.faults), old(Values()), Values(), old(Failures()), sb.faults, Failures(), unread,
                  offset, len, sb.bs);
        SourceIsValid();
        SavedAll(offset, len);
      }
    }

    ghost predicate GoodFor(src: Disk)
      requires Wired()
      reads this, runningSnapshots, Bitmaps()
    {
      forall i :: 0 <= i < |runningSnapshots| ==> SnapOk(runningSnapshots[i].Cfg(), runningSnapshots[i].Value(), src)
    }

    // A write into a covered range all of whose blocks are saved loses nothing.
    lemma StillIsolated(before: Disk, offset: nat, size: nat, data: seq<Byte>)
      requires Wired() && sb.Valid() && GoodFor(before) && AllSaved(offset, size, |runningSnapshots|)
      requires |data| <= size && Covered(offset, size, sb.bs)
      requires Sized(before, sb.bs) && Spliced(before, sb.store, sb.bs, offset, data)
      ensures Isolated()
    {
      hide SnapOk, Covered, Spliced, Marked, Kept;
      forall i | 0 <= i < |runningSnapshots| ensures runningSnapshots[i].Valid() {
        var ss := runningSnapshots[i];
        assert AllKept(ss.Value(), offset, size, sb.bs);
        GuardedSplice(ss.Cfg(), ss.Value(), before, sb.store, offset, size, data);
      }
    }

    // However a write into a covered range ends, all snapshots stay good; `done` bytes of the range are
    // replaced, and when the snapshots refuse the write or it succeeds these are none or all.
    method PutData(offset: nat, data: seq<Byte>) returns (err: bool, ghost done: nat)
      requires Wired() && Isolated() && offset + |data| <= n * sb.bs
      modifies runningSnapshots, Bitmaps(), sb
      ensures Wired() && sb.Valid()
      ensures Covered(offset, |data|, sb.bs) ==> Isolated()
      ensures done <= |data| && Spliced(old(sb.store), sb.store, sb.bs, offset, data[..done])
      ensures !err ==> done == |data|
      ensures err ==> done < |data| || data == []
      ensures done < |data| ==> done == 0 || (offset + done) % sb.bs == 0
      ensures err <==> Faulted(old(sb.faults), old(Failures()), sb.faults, Failures())
    {
      hide SnapOk, Marked, AllKept, Covered, Spliced;
      NothingSpliced(sb.store, sb.bs, offset, data[..0]);
      var ok;
      ghost var unread;
      ok, unread := TriggerRange(offset, |data|);
      if !ok { return true, 0; }
      ghost var before := sb.store;
      assert GoodFor(before);
      err, done := sb.PutData(offset, data);
      if Covered(offset, |data|, sb.bs) {
        StillIsolated(before, offset, |data|, data[..done]);
      }
    }

    method PutBlock(b: nat, blk: Block) returns (ok: bool)
      requires Wired() && Isolated() && b < n && |blk| == sb.bs
      modifies runningSnapshots, Bitmaps(), sb
      ensures Wired() && Isolated()
      ensures ok ==> sb.store == old(sb.store)[b := blk]
      ensures !ok ==> sb.store == old(sb.store)
      ensures !ok <==> Faulted(old(sb.faults), old(Failures()), sb.faults, Failures())
    {
      hide SnapOk, Marked, AllKept, Covered, Spliced;
      Monotone(b + 1, n, sb.bs);
      Distribute(b, 1, sb.bs);
      ghost var unread;
      ok, unread := TriggerRange(b * sb.bs, sb.bs);
      if !ok { return false; }
      ghost var before := sb.store;
      assert GoodFor(before);
      ok := sb.PutBlock(b, blk);
      if !ok { return false; }
      ModOfMultiple(b, sb.bs);
      AlignedIsCovered(b * sb.bs, sb.bs, sb.bs);
      BlockPutSplices(before, b, blk, sb.bs);
      StillIsolated(before, b * sb.bs, sb.bs, blk);
    }

    // The returned value is that of the source, which may be true for a refused trim.
    method TrimZero(offset: nat, len: nat, trim: bool) returns (ok: bool, refused: bool)
      requires Wired() && Isolated() && offset + len <= n * sb.bs
      modifies runningSnapshots, Bitmaps(), sb
      ensures Wired() && sb.Valid()
      ensures Covered(offset, len, sb.bs) ==> Isolated()
      ensures if ok && !refused then Spliced(old(sb.store), sb.store, sb.bs, offset, Zeros(len))
              else sb.store == old(sb.store)
      ensures refused ==> (ok <==> !sb.reports)
      ensures !ok || refused <==> Faulted(old(sb.faults), old(Failures()), sb.faults, Failures())
      ensures sb.trims == old(sb.trims) + if ok || refused then [Trimming(offset, len, trim)] else []
      ensures ok ==> (Spliced(old(sb.store), sb.store, sb.bs, offset, Zeros(len)) <==>
                      !refused || ZeroRange(old(sb.store), sb.bs, offset, len))
    {
      hide SnapOk, Marked, AllKept, Covered, Spliced, ZeroRange;
      refused := false;
      ghost var unread;
      ok, unread := TriggerRange(offset, len);
      if !ok { return; }
      ghost var before := sb.store;
      assert GoodFor(before);
      ok, refused := sb.TrimZero(offset, len, trim);
      if refused {
        NotZeroed(before, sb.bs, offset, len);
        assert Isolated();
        return;
      }
      if Covered(offset, len, sb.bs) {
        StillIsolated(before, offset, len, Zeros(len));
      }
    }
  }

  // A trim that was not carried out has no less effect than one that was, exactly on zeros.
  lemma NotZeroed(d: Disk, bs: nat, off: nat, len: nat)
    requires 0 < bs && Sized(d, bs)
    ensures Spliced(d, d, bs, off, Zeros(len)) <==> ZeroRange(d, bs, off, len)
  {
    if Spliced(d, d, bs, off, Zeros(len)) {
      forall k: nat | off <= k < off + len ensures ByteAt(d, bs, k) == 0 { }
    }
  }

  lemma BlockPutSplices(d: Disk, b: nat, blk: Block, bs: nat)
    requires 0 < bs && Sized(d, bs) && |blk| == bs
    ensures Sized(d[b := blk], bs) && Spliced(d, d[b := blk], bs, b * bs, blk)
  {
    PatchSplices(d, bs, b * bs, b, 0, blk);
    assert Patch(Lookup(d, b, bs), 0, blk) == blk;
  }

  ghost predicate StridesKept(sn: Snap, offset: nat, k: nat, bs: nat)
    requires 0 < bs
  {
    forall b :: offset / bs <= b < offset / bs + k ==> Kept(sn, b)
  }

  ghost predicate AllKept(sn: Snap, offset: nat, len: nat, bs: nat)
    requires 0 < bs
  {
    forall b :: b in Visited(offset, len, bs) ==> Kept(sn, b)
  }

  // The first i snapshots keep all visited blocks of a range, unless the source could not be read for
  // them or they had a failure; and no other blocks were saved.
  ghost predicate SavedUpTo(i: nat, vs: seq<Snap>, ws: seq<Snap>, fs: seq<nat>, gs: seq<nat>, unread: set<nat>,
                            offset: nat, len: nat, bs: nat)
    requires 0 < bs
  {
    && i <= |vs| == |ws| == |fs| == |gs|
    && (forall j :: j in unread ==> j < i)
    && (forall j :: 0 <= j < i ==> AllKept(ws[j], offset, len, bs) || j in unread || gs[j] > fs[j])
    && (forall j :: 0 <= j < i ==> OnlyVisited(vs[j], ws[j], offset, len, bs))
    && (forall j :: i <= j < |vs| ==> ws[j] == vs[j] && gs[j] == fs[j])
  }

  lemma NothingSaved(vs: seq<Snap>, fs: seq<nat>, offset: nat, len: nat, bs: nat)
    requires 0 < bs && |vs| == |fs|
    ensures SavedUpTo(0, vs, vs, fs, fs, {}, offset, len, bs)
  {
  }

  lemma SavedOneMore(i: nat, vs: seq<Snap>, ws: seq<Snap>, xs: seq<Snap>, fs: seq<nat>, gs: seq<nat>, hs: seq<nat>,
                     unread: set<nat>, saved: bool, missed: bool, offset: nat, len: nat, bs: nat)
    requires 0 < bs && SavedUpTo(i, vs, ws, fs, gs, unread, offset, len, bs) && i < |vs|
    requires |xs| == |vs| && |hs| == |vs| && xs == ws[i := xs[i]] && hs == gs[i := hs[i]] && hs[i] >= gs[i]
    requires OnlyVisited(ws[i], xs[i], offset, len, bs)
    requires saved ==> AllKept(xs[i], offset, len, bs)
    requires !saved ==> missed || hs[i] > gs[i]
    ensures SavedUpTo(i + 1, vs, xs, fs, hs, if missed then unread + {i} else unread, offset, len, bs)
  {
    hide AllKept, OnlyVisited;
  }

  lemma NoFault(f: nat, fs: seq<nat>)
    ensures Counted(f, fs, f, fs) && !Faulted(f, fs, f, fs)
  {
  }

  lemma CountedUpTo(f: nat, fs: seq<nat>, g: nat, gs: seq<nat>, i: nat)
    requires |fs| == |gs| && Counted(f, fs, g, gs) && i < |fs|
    ensures g >= f && gs[i] >= fs[i]
  {
  }

  // Without a failure every snapshot keeps the blocks of the range.
  lemma AllOfThem(f: nat, vs: seq<Snap>, ws: seq<Snap>, fs: seq<nat>, g: nat, gs: seq<nat>, unread: set<nat>,
                  offset: nat, len: nat, bs: nat)
    requires 0 < bs && SavedUpTo(|vs|, vs, ws, fs, gs, unread, offset, len, bs)
    requires f <= g && |unread| <= g - f && !Faulted(f, fs, g, gs)
    ensures forall i :: 0 <= i < |ws| ==> AllKept(ws[i], offset, len, bs)
  {
    hide AllKept, OnlyVisited;
    assert unread == {};
  }

  // No blocks but those of a range that the strides visit were marked.
  ghost predicate OnlyVisited(was: Snap, now: Snap, offset: nat, len: nat, bs: nat)
    requires 0 < bs
  {
    forall b :: b in now.marked ==> b in was.marked || b in Visited(offset, len, bs)
  }

  lemma MarkedOne(c: Config, was: Snap, now: Snap, b: nat, o: Owner, blk: Block, ok: bool)
    requires now == if b in was.marked then was else Copied(c, Claimed(was, b, o), b, blk, ok)
    ensures now.marked == was.marked + {b}
  {
  }

  lemma OneMoreVisited(sn: Snap, sn': Snap, sn'': Snap, offset: nat, len: nat, k: nat, bs: nat, b: nat)
    requires 0 < bs && OnlyVisited(sn, sn', offset, len, bs) && k * bs < len
    requires b == offset / bs + k && sn''.marked == sn'.marked + {b}
    ensures OnlyVisited(sn, sn'', offset, len, bs)
  {
    hide Visited;
    StrideIsLast(len, k, bs);
    InVisited(offset, len, bs);
  }

  lemma NoneKept(sn: Snap, offset: nat, len: nat, bs: nat)
    requires 0 < bs
    ensures StridesKept(sn, offset, 0, bs) && StillKept(sn, sn) && OnlyVisited(sn, sn, offset, len, bs)
  {
  }

  lemma StrideInDevice(offset: nat, k: nat, bs: nat, n: nat, o: nat, b: nat, at: nat)
    requires 0 < bs && o == offset + k * bs && o < n * bs && o == b * bs + at && at < bs
    ensures b == offset / bs + k && b < n && o + bs == offset + (k + 1) * bs
  {
    StrideBlock(offset, k, bs);
    DivRange(o, b, bs);
    DivAtLeast(o, n, bs);
    Distribute(k, 1, bs);
  }

  lemma OneMoreKept(sn: Snap, sn': Snap, sn'': Snap, offset: nat, k: nat, bs: nat, b: nat)
    requires 0 < bs && StillKept(sn, sn') && StillKept(sn', sn'')
    requires StridesKept(sn', offset, k, bs) && b == offset / bs + k && Kept(sn'', b)
    ensures StillKept(sn, sn'') && StridesKept(sn'', offset, k + 1, bs)
  {
    hide Kept;
  }

  lemma StridesCoverVisited(sn: Snap, offset: nat, k: nat, bs: nat, len: nat)
    requires 0 < bs && StridesKept(sn, offset, k, bs)
    requires len <= k * bs
    ensures AllKept(sn, offset, len, bs)
  {
    hide Kept, Visited;
    InVisited(offset, len, bs);
    StrideIsLast(len, k, bs);
  }
}
