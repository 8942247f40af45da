/**
  Byte ranges over blocks (storage_backend.cpp), and forwarding to mirrors.

  Every call that reaches a device may fail: such a call picks its outcome
  nondeterministically and counts a failure in the ghost field `faults`, so that
  "an operation fails only when a device did" can be stated.
*/
module StorageBackends {
  import opened Flat

  // A trim_zero as it was asked for: with `trim` the space is given back, without it is kept.
  datatype Trimming = Trimming(offset: nat, len: nat, trim: bool)

  class StorageBackend {
    const bs: nat
    const multi: bool        // the backend can read several blocks in one call
    const reports: bool      // trim_zero returns false when the trim is refused; the file backend's does not
    var store: Disk
    ghost var faults: nat
    ghost var trims: seq<Trimming>     // all trims asked for, in order

    ghost predicate Valid()
      reads this
    {
      0 < bs && Sized(store, bs)
    }

    constructor (bs: nat, multi: bool, reports: bool)
      requires 0 < bs
      ensures Valid() && this.bs == bs && this.multi == multi && this.reports == reports
      ensures (forall i: nat :: ByteAt(store, bs, i) == 0) && trims == []
    {
      this.bs, this.multi, this.reports, this.store, this.faults, this.trims := bs, multi, reports, map[], 0, [];
    }

    // A successful read of a block that does not exist yet yields None (a null pointer in the code).
    method GetBlock(b: nat) returns (ok: bool, blk: Option<Block>)
      requires Valid()
      modifies this`faults
      ensures ok ==> faults == old(faults) && blk == if b in store then Some(store[b]) else None
      ensures !ok ==> faults > old(faults)
    {
      ok, blk := *, None;
      if !ok { faults := faults + 1; return; }
      if b in store { blk := Some(store[b]); }
    }

    method PutBlock(b: nat, blk: Block) returns (ok: bool)
      requires Valid() && |blk| == bs
      modifies this`store, this`faults
      ensures Valid()
      ensures ok ==> store == old(store)[b := blk] && faults == old(faults)
      ensures !ok ==> store == old(store) && faults > old(faults)
    {
      ok := *;
      if ok { store := store[b := blk]; } else { faults := faults + 1; }
    }

    // The bytes of blocks b, b + 1, .., b + n - 1, read as one stretch of the device.
    method GetMultipleBlocks(b: nat, n: nat) returns (ok: bool, bytes: seq<Byte>)
      requires Valid()
      modifies this`faults
      ensures ok ==> faults == old(faults) && bytes == Slice(store, bs, b * bs, n * bs)
      ensures !ok ==> faults > old(faults)
    {
      hide Slice, Lookup;
      ok, bytes := *, [];
      if !ok { faults := faults + 1; return; }
      NothingRead(store, bs, b * bs);
      for i := 0 to n
        invariant faults == old(faults) && Valid()
        invariant bytes == Slice(store, bs, b * bs, i * bs)
      {
        NextBlock(store, bs, b, i);
        bytes := bytes + Lookup(store, b + i, bs);
      }
    }

    // Whether the bulk path is taken or not, a successful read returns exactly the requested slice.
    method GetData(offset: nat, size: nat) returns (err: bool, out: seq<Byte>)
      requires Valid()
      modifies this`faults
      ensures !err ==> out == Slice(store, bs, offset, size) && faults == old(faults)
      ensures err ==> faults > old(faults)
    {
      hide Slice, Sized, Lookup;
      err, out := false, [];
      var workOffset: nat, workSize: nat := offset, size;
      NothingRead(store, bs, offset);
      while workSize > 0
        invariant Valid() && faults == old(faults)
        invariant workSize <= size && workOffset == offset + (size - workSize)
        invariant out == Slice(store, bs, offset, size - workSize)
      {
        var b, blockOffset := Locate(workOffset, bs);
        var blocksToDo, _ := Locate(workSize, bs);
        var cur: nat, piece: seq<Byte>;
        if blockOffset == 0 && multi && blocksToDo >= 2 {
          cur := blocksToDo * bs;
          var ok, bytes := GetMultipleBlocks(b, blocksToDo);
          if !ok { return true, []; }
          piece := bytes;
        } else {
          cur := Min(workSize, bs - blockOffset);
          var ok, temp := GetBlock(b);
          if !ok { return true, []; }
          var blk := if temp.Some? then temp.value else Zeros(bs);
          PartOfBlock(store, bs, b, blockOffset, cur, blk);
          piece := blk[blockOffset..blockOffset + cur];
        }
        SliceConcat(store, bs, offset, size - workSize, cur);
        out := out + piece;
        workOffset, workSize := workOffset + cur, workSize - cur;
      }
    }

    // On success the range is replaced and nothing else; on failure a prefix of it is, and the
    // prefix ends at a block boundary.  `done` is its length.
    method PutData(offset: nat, input: seq<Byte>) returns (err: bool, ghost done: nat)
      requires Valid()
      modifies this`store, this`faults
      ensures Valid()
      ensures done <= |input|
      ensures Spliced(old(store), store, bs, offset, input[..done])
      ensures !err ==> done == |input| && faults == old(faults)
      ensures err ==> faults > old(faults) && done < |input| && (done == 0 || (offset + done) % bs == 0)
    {
      hide Spliced, PutPatched, Patch, Lookup, Sized;
      err, done := false, 0;
      var workOffset: nat, rest := offset, input;
      NothingSpliced(store, bs, offset, input[..0]);
      while |rest| > 0
        invariant Valid() && faults == old(faults)
        invariant done <= |input| && rest == input[done..] && workOffset == offset + done
        invariant done == 0 || done == |input| || EndsBlock(offset + done, bs)
        invariant Spliced(old(store), store, bs, offset, input[..done])
        decreases |rest|
      {
        var b, blockOffset := Locate(workOffset, bs);
        var cur := Min(|rest|, bs - blockOffset);
        if cur < |rest| { StepEndsBlock(workOffset, |rest|, bs, b, blockOffset); }
        var temp := Zeros(bs);
        if blockOffset == 0 && cur == bs {
          WholePatch(store, bs, b, temp, rest[..cur]);
        } else {
          var ok, got := GetBlock(b);
          if !ok { return true, done; }
          if got.Some? { temp := got.value; }
          ReadPatch(store, bs, b, temp, blockOffset, rest[..cur]);
        }
        PatchExtends(old(store), store, bs, offset, input, done, b, blockOffset, cur);
        assert rest[..cur] == input[done..done + cur];
        var ok := PutBlock(b, Patch(temp, blockOffset, rest[..cur]));
        if !ok { return true, done; }
        done := done + cur;
        workOffset, rest := workOffset + cur, rest[cur..];
      }
      assert input[..done] == input;
    }

    // Discarding a range (storage_backend_file): one call that zeroes all of it or fails.
    method Discard(offset: nat, len: nat, trim: bool) returns (err: bool)
      requires Valid()
      modifies this
      ensures Valid() && trims == old(trims) + [Trimming(offset, len, trim)]
      ensures !err ==> Spliced(old(store), store, bs, offset, Zeros(len)) && faults == old(faults)
      ensures err ==> store == old(store) && faults > old(faults)
    {
      trims := trims + [Trimming(offset, len, trim)];
      err := *;
      if err { faults := faults + 1; return; }
      var done := 0;
      while done < len
        invariant done <= len && Valid() && faults == old(faults)
        invariant trims == old(trims) + [Trimming(offset, len, trim)]
        invariant Spliced(old(store), store, bs, offset, Zeros(done))
      {
        var b, at := Locate(offset + done, bs);
        var cur := Min(len - done, bs - at);
        assert Zeros(len)[..done] == Zeros(done) && Zeros(len)[..done + cur] == Zeros(done + cur);
        assert Zeros(len)[done..done + cur] == Zeros(cur);
        PatchExtends(old(store), store, bs, offset, Zeros(len), done, b, at, cur);
        store := store[b := Patch(Lookup(store, b, bs), at, Zeros(cur))];
        done := done + cur;
      }
    }

    // trim_zero has two results: the returned value, which most callers look at, and the error.  The
    // file backend returns true whatever became of the trim.
    method TrimZero(offset: nat, len: nat, trim: bool) returns (ok: bool, refused: bool)
      requires Valid()
      modifies this
      ensures Valid() && trims == old(trims) + [Trimming(offset, len, trim)]
      ensures !refused ==> Spliced(old(store), store, bs, offset, Zeros(len)) && faults == old(faults)
      ensures refused ==> store == old(store) && faults > old(faults)
      ensures ok <==> !refused || !reports
    {
      refused := Discard(offset, len, trim);
      ok := !refused || !reports;
    }
  }

  ghost predicate EndsBlock(i: nat, bs: nat)
    requires 0 < bs
  {
    i % bs == 0
  }

  lemma NothingRead(d: Disk, bs: nat, off: nat)
    requires 0 < bs && Sized(d, bs)
    ensures Slice(d, bs, off, 0) == []
  {
  }

  lemma WholeBlock(d: Disk, bs: nat, b: nat)
    requires 0 < bs && Sized(d, bs)
    ensures Slice(d, bs, b * bs, bs) == Lookup(d, b, bs)
  {
    hide Slice;
    assert |Lookup(d, b, bs)| == bs;
    SliceInBlock(d, bs, b, 0, bs);
  }

  lemma NextPiece(d: Disk, bs: nat, off: nat, n: nat, b: nat)
    requires 0 < bs && Sized(d, bs) && off + n == b * bs
    ensures Slice(d, bs, off, n) + Lookup(d, b, bs) == Slice(d, bs, off, n + bs)
  {
    hide Slice, Lookup, Sized;
    WholeBlock(d, bs, b);
    SliceConcat(d, bs, off, n, bs);
  }

  lemma NextStart(b: nat, i: nat, bs: nat)
    ensures b * bs + i * bs == (b + i) * bs && i * bs + bs == (i + 1) * bs
  {
  }

  lemma NextBlock(d: Disk, bs: nat, b: nat, i: nat)
    requires 0 < bs && Sized(d, bs)
    ensures Slice(d, bs, b * bs, i * bs) + Lookup(d, b + i, bs) == Slice(d, bs, b * bs, (i + 1) * bs)
  {
    hide Slice, Lookup, Sized;
    NextStart(b, i, bs);
    NextPiece(d, bs, b * bs, i * bs, b + i);
  }

  // The part of a block that a read wants, and where it lies on the device.
  lemma PartOfBlock(d: Disk, bs: nat, b: nat, at: nat, n: nat, blk: Block)
    requires 0 < bs && Sized(d, bs) && at + n <= bs && blk == if b in d then d[b] else Zeros(bs)
    ensures |blk| == bs && blk[at..at + n] == Slice(d, bs, b * bs + at, n)
  {
    SliceInBlock(d, bs, b, at, n);
    hide Slice;
  }

  // The patched block is the same whether the block was read first or is replaced as a whole.
  lemma ReadPatch(d: Disk, bs: nat, b: nat, blk: Block, at: nat, data: seq<Byte>)
    requires Sized(d, bs) && at + |data| <= bs && blk == if b in d then d[b] else Zeros(bs)
    ensures |blk| == bs && d[b := Patch(blk, at, data)] == PutPatched(d, bs, b, at, data)
  {
    hide Patch;
  }

  lemma WholePatch(d: Disk, bs: nat, b: nat, blk: Block, data: seq<Byte>)
    requires Sized(d, bs) && |blk| == bs == |data|
    ensures d[b := Patch(blk, 0, data)] == PutPatched(d, bs, b, 0, data)
  {
    assert Patch(blk, 0, data) == data == Patch(Lookup(d, b, bs), 0, data);
  }

  // A primary backend and its mirrors, each with a block size of its own.
  class MirroredBackend {
    const primary: StorageBackend
    const mirrors: seq<StorageBackend>

    ghost predicate Valid()
      reads this, primary, mirrors
    {
      && primary.Valid()
      && (forall i :: 0 <= i < |mirrors| ==> mirrors[i] != primary && mirrors[i].Valid())
      && (forall i, j :: 0 <= i < j < |mirrors| ==> mirrors[i] != mirrors[j])
    }

    ghost predicate Agree()
      reads this, primary, mirrors
      requires Valid()
    {
      forall i :: 0 <= i < |mirrors| ==> SameBytes(primary.store, primary.bs, mirrors[i].store, mirrors[i].bs)
    }

    constructor (primary: StorageBackend, mirrors: seq<StorageBackend>)
      requires primary.Valid()
      requires forall i :: 0 <= i < |mirrors| ==> mirrors[i] != primary && mirrors[i].Valid()
      requires forall i, j :: 0 <= i < j < |mirrors| ==> mirrors[i] != mirrors[j]
      ensures Valid() && this.primary == primary && this.mirrors == mirrors
    {
      this.primary, this.mirrors := primary, mirrors;
    }

    // Every mirror is called: it takes the whole write, or it had a fault and took a part of it.
    method DoMirror(offset: nat, input: seq<Byte>) returns (ok: bool)
      requires Valid()
      modifies mirrors
      ensures Valid() && primary.store == old(primary.store) && primary.faults == old(primary.faults)
      ensures forall i :: 0 <= i < |mirrors| ==>
                            if mirrors[i].faults == old(mirrors[i].faults)
                            then Spliced(old(mirrors[i].store), mirrors[i].store, mirrors[i].bs, offset, input)
                            else mirrors[i].faults > old(mirrors[i].faults) &&
                                 TookPart(old(mirrors[i].store), mirrors[i].store, mirrors[i].bs, offset, input)
      ensures ok <==> forall i :: 0 <= i < |mirrors| ==> mirrors[i].faults == old(mirrors[i].faults)
    {
      hide Spliced;
      ok := true;
      for i := 0 to |mirrors|
        invariant Valid()
        invariant forall j :: i <= j < |mirrors| ==>
                                mirrors[j].store == old(mirrors[j].store) && mirrors[j].faults == old(mirrors[j].faults)
        invariant forall j :: 0 <= j < i ==>
                                if mirrors[j].faults == old(mirrors[j].faults)
                                then Spliced(old(mirrors[j].store), mirrors[j].store, mirrors[j].bs, offset, input)
                                else mirrors[j].faults > old(mirrors[j].faults) &&
                                     TookPart(old(mirrors[j].store), mirrors[j].store, mirrors[j].bs, offset, input)
        invariant ok <==> forall j :: 0 <= j < i ==> mirrors[j].faults == old(mirrors[j].faults)
      {
        ghost var done;
        var err;
        err, done := mirrors[i].PutData(offset, input);
        assert !err ==> input[..|input|] == input;
        if err { ok := false; }
      }
    }

    // Mirrors that agreed with the primary still agree after a put that reports success; a put that
    // fails on the primary leaves every mirror alone and the primary with a block-aligned prefix.
    method PutData(offset: nat, input: seq<Byte>) returns (err: bool, ghost done: nat)
      requires Valid()
      modifies primary, mirrors
      ensures Valid()
      ensures done <= |input|
      ensures Spliced(old(primary.store), primary.store, primary.bs, offset, input[..done])
      ensures !err ==> done == |input| && (old(Agree()) ==> Agree())
      ensures !err ==> forall i :: 0 <= i < |mirrors| ==>
                            Spliced(old(mirrors[i].store), mirrors[i].store, mirrors[i].bs, offset, input)
      ensures done < |input| ==>
                && err && (done == 0 || (offset + done) % primary.bs == 0)
                && forall i :: 0 <= i < |mirrors| ==> mirrors[i].store == old(mirrors[i].store)
      ensures err <==> primary.faults > old(primary.faults)
                       || exists i :: 0 <= i < |mirrors| && mirrors[i].faults > old(mirrors[i].faults)
    {
      hide Spliced, SameBytes;
      ghost var wasAgreed := Agree();
      err, done := primary.PutData(offset, input);
      assert forall i :: 0 <= i < |mirrors| ==>
                           mirrors[i].store == old(mirrors[i].store) && mirrors[i].faults == old(mirrors[i].faults);
      if err { return; }
      assert input[..done] == input;
      label mid:
      var ok := DoMirror(offset, input);
      err := !ok;
      if ok && wasAgreed {
        forall i | 0 <= i < |mirrors|
          ensures SameBytes(primary.store, primary.bs, mirrors[i].store, mirrors[i].bs)
        {
          SplicesAgree(old(primary.store), primary.store, primary.bs,
                       old(mirrors[i].store), mirrors[i].store, mirrors[i].bs, offset, input);
        }
      }
    }

    // Every mirror is called, and a mirror passes on what the trim of its backend returned.
    // `refused` are the mirrors whose trim was not carried out.
    method DoMirrorTrimZero(offset: nat, len: nat, trim: bool) returns (ok: bool, ghost refused: set<nat>)
      requires Valid()
      modifies mirrors
      ensures Valid() && primary.store == old(primary.store) && primary.faults == old(primary.faults)
      ensures primary.trims == old(primary.trims)
      ensures forall i :: 0 <= i < |mirrors| ==>
                            mirrors[i].trims == old(mirrors[i].trims) + [Trimming(offset, len, trim)]
      ensures forall i :: 0 <= i < |mirrors| ==>
                            if i in refused then mirrors[i].store == old(mirrors[i].store)
                            else Spliced(old(mirrors[i].store), mirrors[i].store, mirrors[i].bs, offset, Zeros(len))
      ensures forall i :: 0 <= i < |mirrors| ==> (i in refused <==> mirrors[i].faults > old(mirrors[i].faults))
      ensures ok <==> forall i :: 0 <= i < |mirrors| ==> i !in refused || !mirrors[i].reports
    {
      hide Spliced;
      ok, refused := true, {};
      for i := 0 to |mirrors|
        invariant Valid() && forall j :: j in refused ==> j < i
        invariant forall j :: i <= j < |mirrors| ==>
                                && mirrors[j].store == old(mirrors[j].store)
                                && mirrors[j].faults == old(mirrors[j].faults)
                                && mirrors[j].trims == old(mirrors[j].trims)
        invariant forall j :: 0 <= j < i ==>
                                if j in refused then mirrors[j].store == old(mirrors[j].store)
                                else Spliced(old(mirrors[j].store), mirrors[j].store, mirrors[j].bs, offset, Zeros(len))
        invariant forall j :: 0 <= j < i ==> (j in refused <==> mirrors[j].faults > old(mirrors[j].faults))
        invariant forall j :: 0 <= j < i ==> mirrors[j].trims == old(mirrors[j].trims) + [Trimming(offset, len, trim)]
        invariant ok <==> forall j :: 0 <= j < i ==> j !in refused || !mirrors[j].reports
      {
        var told, no := mirrors[i].TrimZero(offset, len, trim);
        if no { refused := refused + {i}; }
        if !told { ok := false; }
      }
    }

    // trim_zero of the file backend: the mirrors are called even when its own trim was refused (`err`),
    // and the returned value is theirs.  Whatever it is: a mirror that agreed with the primary still
    // does exactly when the trim was refused by both or by neither, or the range held zeros already.
    method TrimZero(offset: nat, len: nat, trim: bool) returns (ok: bool, err: bool, ghost refused: set<nat>)
      requires Valid()
      modifies primary, mirrors
      ensures Valid()
      ensures !err ==> Spliced(old(primary.store), primary.store, primary.bs, offset, Zeros(len))
      ensures err ==> primary.store == old(primary.store)
      ensures err <==> primary.faults > old(primary.faults)
      ensures primary.trims == old(primary.trims) + [Trimming(offset, len, trim)]
      ensures forall i :: 0 <= i < |mirrors| ==>
                            if i in refused then mirrors[i].store == old(mirrors[i].store)
                            else Spliced(old(mirrors[i].store), mirrors[i].store, mirrors[i].bs, offset, Zeros(len))
      ensures forall i :: 0 <= i < |mirrors| ==> (i in refused <==> mirrors[i].faults > old(mirrors[i].faults))
      ensures forall i :: 0 <= i < |mirrors| ==>
                            mirrors[i].trims == old(mirrors[i].trims) + [Trimming(offset, len, trim)]
      ensures ok <==> forall i :: 0 <= i < |mirrors| ==> i !in refused || !mirrors[i].reports
      ensures old(Agree()) ==>
                forall i :: 0 <= i < |mirrors| ==>
                              (SameBytes(primary.store, primary.bs, mirrors[i].store, mirrors[i].bs) <==>
                               (err <==> i in refused) || ZeroRange(old(primary.store), primary.bs, offset, len))
    {
      hide Spliced, SameBytes, ZeroRange;
      ghost var wasAgreed := Agree();
      err := primary.Discard(offset, len, trim);
      assert forall i :: 0 <= i < |mirrors| ==>
                           && mirrors[i].store == old(mirrors[i].store) && mirrors[i].faults == old(mirrors[i].faults)
                           && mirrors[i].trims == old(mirrors[i].trims);
      ok, refused := DoMirrorTrimZero(offset, len, trim);
      if wasAgreed {
        forall i | 0 <= i < |mirrors|
          ensures SameBytes(primary.store, primary.bs, mirrors[i].store, mirrors[i].bs) <==>
                  (err <==> i in refused) || ZeroRange(old(primary.store), primary.bs, offset, len)
        {
          TrimsAgree(old(primary.store), primary.store, primary.bs, err,
                     old(mirrors[i].store), mirrors[i].store, mirrors[i].bs, i in refused, offset, len);
        }
      }
    }
  }

  // A prefix of the data was written, all of it perhaps.
  ghost predicate TookPart(before: Disk, after: Disk, bs: nat, off: nat, data: seq<Byte>)
    requires 0 < bs && Sized(before, bs) && Sized(after, bs)
  {
    exists m :: 0 <= m <= |data| && Spliced(before, after, bs, off, data[..m])
  }

  ghost predicate ZeroRange(d: Disk, bs: nat, off: nat, len: nat)
    requires 0 < bs && Sized(d, bs)
  {
    forall k: nat :: off <= k < off + len ==> ByteAt(d, bs, k) == 0
  }

  // Zeroing a range on one of two equal devices only leaves them equal iff the range was zero.
  lemma RefusedTrim(d: Disk, bs: nat, e: Disk, e': Disk, bs': nat, off: nat, len: nat)
    requires 0 < bs && 0 < bs' && Sized(d, bs) && Sized(e, bs') && Sized(e', bs')
    requires SameBytes(d, bs, e, bs')
    requires Spliced(e, e', bs', off, Zeros(len))
    ensures SameBytes(d, bs, e', bs') <==> ZeroRange(d, bs, off, len)
  {
    if SameBytes(d, bs, e', bs') {
      forall k: nat | off <= k < off + len ensures ByteAt(d, bs, k) == 0 {
        assert ByteAt(d, bs, k) == ByteAt(e', bs', k);
      }
    }
    if ZeroRange(d, bs, off, len) {
      forall i: nat ensures ByteAt(d, bs, i) == ByteAt(e', bs', i) {
        assert ByteAt(d, bs, i) == ByteAt(e, bs', i);
      }
    }
  }

  lemma Mirrored(d: Disk, bs: nat, e: Disk, bs': nat, off: nat, len: nat)
    requires 0 < bs && 0 < bs' && Sized(d, bs) && Sized(e, bs') && SameBytes(d, bs, e, bs')
    ensures SameBytes(e, bs', d, bs) && (ZeroRange(e, bs', off, len) <==> ZeroRange(d, bs, off, len))
  {
    if ZeroRange(e, bs', off, len) {
      forall k: nat | off <= k < off + len ensures ByteAt(d, bs, k) == 0 { assert ByteAt(e, bs', k) == 0; }
    }
  }

  // One trim of two equal devices, each of which may refuse it.
  lemma TrimsAgree(d: Disk, d': Disk, bs: nat, no: bool, e: Disk, e': Disk, bs': nat, no': bool, off: nat, len: nat)
    requires 0 < bs && 0 < bs' && Sized(d, bs) && Sized(d', bs) && Sized(e, bs') && Sized(e', bs')
    requires SameBytes(d, bs, e, bs')
    requires if no then d' == d else Spliced(d, d', bs, off, Zeros(len))
    requires if no' then e' == e else Spliced(e, e', bs', off, Zeros(len))
    ensures SameBytes(d', bs, e', bs') <==> no == no' || ZeroRange(d, bs, off, len)
  {
    hide Spliced, SameBytes, ZeroRange;
    if no && !no' {
      RefusedTrim(d, bs, e, e', bs', off, len);
    } else if !no && no' {
      Mirrored(d, bs, e, bs', off, len);
      RefusedTrim(e, bs', d, d', bs, off, len);
      if SameBytes(d', bs, e, bs') { Mirrored(d', bs, e, bs', off, len); }
      if SameBytes(e, bs', d', bs) { Mirrored(e, bs', d', bs, off, len); }
    } else if !no {
      SplicesAgree(d, d', bs, e, e', bs', off, Zeros(len));
    }
  }
}
