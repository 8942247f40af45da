/**
  The tiering backend (storage_backend_tiering.cpp): reads, writes and trims over a fast
  store, a slow store and the descriptors.  A device call may fail at any point; the code
  then goes on, and the call as a whole reports failure.
*/
module Tiering {
  import opened Flat
  import opened Murmur
  import opened StorageBackends
  import opened Strides
  import opened TieringModel

  // A splice of one whole block.
  lemma SpliceIsPut(d: Disk, d': Disk, b: nat, blk: Block, bs: nat)
    requires 0 < bs && Sized(d, bs) && Sized(d', bs) && |blk| == bs && Spliced(d, d', bs, b * bs, blk)
    ensures IsPut(d, d', b, blk, bs)
  {
    hide Spliced, Sized, Lookup;
    forall x: nat ensures Lookup(d', x, bs) == if x == b then blk else Lookup(d, x, bs) {
      if x == b { SplicedBlock(d, d', b, blk, bs); } else { OtherBlock(d, d', b, blk, bs, x); }
    }
  }

  lemma SplicedBlock(d: Disk, d': Disk, b: nat, blk: Block, bs: nat)
    requires 0 < bs && Sized(d, bs) && Sized(d', bs) && |blk| == bs && Spliced(d, d', bs, b * bs, blk)
    ensures Lookup(d', b, bs) == blk
  {
    SliceInBlock(d', bs, b, 0, bs);
    assert Slice(d', bs, b * bs, bs) == blk;
  }

  lemma OtherBlock(d: Disk, d': Disk, b: nat, blk: Block, bs: nat, x: nat)
    requires 0 < bs && Sized(d, bs) && Sized(d', bs) && |blk| == bs && Spliced(d, d', bs, b * bs, blk) && x != b
    ensures Lookup(d', x, bs) == Lookup(d, x, bs)
  {
    hide Spliced, Sized, Lookup, Touched;
    if Touched(b * bs, |blk|, bs, x) { TouchedIsSelf(b, bs, x); }
    UntouchedBlock(d, d', bs, b * bs, blk, x);
  }

  lemma TouchedIsSelf(b: nat, bs: nat, x: nat)
    requires 0 < bs && Touched(b * bs, bs, bs, x)
    ensures x == b
  {
    var i :| b * bs <= i < b * bs + bs && i / bs == x;
    DivRange(i, b, bs);
  }

  method GetWhole(dev: StorageBackend, b: nat) returns (err: bool, blk: Block)
    requires dev.Valid()
    modifies dev`faults
    ensures !err ==> blk == Lookup(dev.store, b, dev.bs) && |blk| == dev.bs && dev.faults == old(dev.faults)
    ensures err ==> dev.faults > old(dev.faults)
  {
    SliceInBlock(dev.store, dev.bs, b, 0, dev.bs);
    err, blk := dev.GetData(b * dev.bs, dev.bs);
  }

  method PutWhole(dev: StorageBackend, b: nat, blk: Block) returns (err: bool)
    requires dev.Valid() && |blk| == dev.bs
    modifies dev
    ensures dev.Valid()
    ensures !err ==> IsPut(old(dev.store), dev.store, b, blk, dev.bs) && dev.faults == old(dev.faults)
    ensures err ==> dev.faults > old(dev.faults)
    ensures err ==> forall x: nat :: Lookup(dev.store, x, dev.bs) == Lookup(old(dev.store), x, dev.bs)
    ensures OnlyBlock(old(dev.store), dev.store, b, dev.bs)
  {
    hide IsPut, Lookup, Spliced, Sized;
    ghost var done;
    err, done := dev.PutData(b * dev.bs, blk);
    if err {
      AllOrNothing(b, done, dev.bs);
      NotWritten(old(dev.store), dev.store, dev.bs, b * dev.bs, blk[..done]);
    } else {
      assert blk[..|blk|] == blk;
      SpliceIsPut(old(dev.store), dev.store, b, blk, dev.bs);
      PutIsOnly(old(dev.store), dev.store, b, blk, dev.bs);
    }
  }

  lemma PutIsOnly(d: Disk, d': Disk, b: nat, blk: Block, bs: nat)
    requires IsPut(d, d', b, blk, bs)
    ensures OnlyBlock(d, d', b, bs)
  {
    hide Lookup;
  }

  // A write of one block that ends at a block boundary before its end has not begun.
  lemma AllOrNothing(b: nat, done: nat, bs: nat)
    requires done < bs && (done == 0 || (b * bs + done) % bs == 0)
    ensures done == 0
  {
    DivRange(b * bs + done, b, bs);
    assert b * bs + done == (b * bs + done) / bs * bs + (b * bs + done) % bs;
  }

  lemma NotWritten(d: Disk, d': Disk, bs: nat, off: nat, data: seq<Byte>)
    requires 0 < bs && Sized(d, bs) && Sized(d', bs) && Spliced(d, d', bs, off, data) && data == []
    ensures forall x: nat :: Lookup(d', x, bs) == Lookup(d, x, bs)
  {
    hide Spliced, Sized, Lookup;
    forall x: nat ensures Lookup(d', x, bs) == Lookup(d, x, bs) {
      UntouchedBlock(d, d', bs, off, data, x);
    }
  }

  // The search of both operations.  `oldest` is never updated, so among the descriptors that do not
  // match the last one is taken, whatever its age.
  method FindSlot(bin: Bin, h: nat) returns (slot: int, found: bool)
    requires |bin| == SLOTS
    ensures found <==> exists i :: 0 <= i < SLOTS && bin[i].hash == h
    ensures found ==> 0 <= slot < SLOTS && bin[slot].hash == h && forall i :: 0 <= i < slot ==> bin[i].hash != h
    ensures !found ==> slot == if bin[1].age < MAX_AGE then 1 else if bin[0].age < MAX_AGE then 0 else -1
  {
    slot, found := -1, false;
    var oldest := MAX_AGE;
    var i := 0;
    while i < SLOTS && !found
      invariant i <= SLOTS
      invariant !found ==> forall j :: 0 <= j < i ==> bin[j].hash != h
      invariant !found ==>
                  slot == if i == 2 && bin[1].age < MAX_AGE then 1
                          else if i >= 1 && bin[0].age < MAX_AGE then 0
                          else -1
      invariant found ==> i < SLOTS && slot == i && bin[i].hash == h && forall j :: 0 <= j < i ==> bin[j].hash != h
      decreases SLOTS - i, !found
    {
      if bin[i].hash == h {
        slot, found := i, true;
      } else {
        if bin[i].age < oldest { slot := i; }
        i := i + 1;
      }
    }
  }

  class TieringBackend {
    const fast: StorageBackend
    const slow: StorageBackend
    const n: nat
    var meta: seq<Bin>
    var age: nat
    ghost var faults: nat

    ghost function Cfg(): Config {
      Config(fast.bs, n)
    }

    ghost function Value(): Tiers
      reads this, fast`store, slow`store
    {
      Tiers(meta, fast.store, slow.store)
    }

    ghost predicate Wired()
      reads this, fast, slow
    {
      fast != slow && fast.bs == slow.bs && fast.Valid() && slow.Valid() && Shape(Cfg(), Value())
    }

    ghost predicate Valid()
      reads this, fast, slow
    {
      Wired() && Good(Cfg(), Value())
    }

    ghost function Faults(): nat
      reads this, fast, slow
    {
      fast.faults + slow.faults + faults
    }

    // Metadata that holds nothing but zeros, with `entries` bins.
    constructor (fast: StorageBackend, slow: StorageBackend, n: nat, entries: nat)
      requires fast != slow && fast.bs == slow.bs && fast.Valid() && slow.Valid()
      requires n <= ZERO_HASHED && 0 < entries
      ensures Valid() && Fresh(Cfg(), Value()) && age == 0
      ensures this.fast == fast && this.slow == slow && this.n == n
    {
      this.fast, this.slow, this.n := fast, slow, n;
      this.meta, this.age, this.faults := seq(entries, _ => [UNUSED, UNUSED]), 0, 0;
      new;
      FreshIsGood(Cfg(), Value());
    }

    method GetMeta(i: nat) returns (ok: bool, bin: Bin)
      requires i < |meta|
      modifies this`faults
      ensures ok ==> bin == meta[i] && faults == old(faults)
      ensures !ok ==> faults > old(faults)
    {
      ok, bin := *, [];
      if ok { bin := meta[i]; } else { faults := faults + 1; }
    }

    method PutMeta(i: nat, bin: Bin) returns (ok: bool)
      requires i < |meta|
      modifies this`meta, this`faults
      ensures ok ==> meta == old(meta)[i := bin] && faults == old(faults)
      ensures !ok ==> meta == old(meta) && faults > old(faults)
    {
      ok := *;
      if ok { meta := meta[i := bin]; } else { faults := faults + 1; }
    }

    // Write a dirty block back to the slow store.
    method Evict(i: nat, d: Descriptor) returns (ok: bool)
      requires Wired()
      modifies slow, fast`faults
      ensures Wired()
      ensures ok ==> if d.dirty
                     then IsPut(old(slow.store), slow.store, d.block, Lookup(fast.store, i, fast.bs), fast.bs)
                     else slow.store == old(slow.store)
      ensures if d.dirty then OnlyBlock(old(slow.store), slow.store, d.block, fast.bs)
              else slow.store == old(slow.store)
      ensures Faults() >= old(Faults()) && (ok <==> Faults() == old(Faults()))
    {
      hide IsPut, OnlyBlock, Lookup;
      if !d.dirty { return true; }
      SameIsOnly(slow.store, d.block, slow.bs);
      var err, blk := GetWhole(fast, i);
      if err { return false; }
      err := PutWhole(slow, d.block, blk);
      ok := !err;
    }

    // A block from the slow store, after the one that has to leave the bin was written back.
    method Fetch(i: nat, d: Descriptor, b: nat) returns (ok: bool, got: bool, data: Block)
      requires Wired()
      modifies slow, fast`faults
      ensures Wired() && fast.Valid() && slow.Valid()
      ensures got ==> data == Lookup(slow.store, b, fast.bs)
      ensures ok ==> got
      ensures ok ==> if d.dirty
                     then IsPut(old(slow.store), slow.store, d.block, Lookup(fast.store, i, fast.bs), fast.bs)
                     else slow.store == old(slow.store)
      ensures if d.dirty then OnlyBlock(old(slow.store), slow.store, d.block, fast.bs)
              else slow.store == old(slow.store)
      ensures Faults() >= old(Faults()) && (ok <==> Faults() == old(Faults()))
    {
      hide IsPut, Lookup, OnlyBlock, Sized;
      ok := Evict(i, d);
      var err;
      err, data := GetWhole(slow, b);
      got := !err;
      if err { ok := false; }
    }

    // As written: right when it succeeds, but see GetAnswers for what a miss leaves behind.  A call that
    // fails has touched nothing beyond the bin of the block either.
    method GetBlock(b: nat) returns (ok: bool, data: Block)
      requires Valid() && b < n && age + 1 < MAX_AGE
      modifies this, fast`faults, slow
      ensures Wired() && age == old(age) + 1
      ensures ok ==> GetStep(Cfg(), old(Value()), b, age, Value(), data)
      ensures InOwnBin(Cfg(), old(Value()), b, Value())
      ensures Faults() >= old(Faults()) && (ok <==> Faults() == old(Faults()))
    {
      hide IsPut, HashBlockNr, Lookup, Hit, BinOk, CleanOk, Sized, InOwnBin, OnlyBlock;
      ghost var c, t := Cfg(), Value();
      var h := HashOfBlock(b);
      var i := h % |meta|;
      SlotIsSecond(c, t, b);
      SameIsOnly(fast.store, i, fast.bs);
      OwnBin(c, t, b, t, meta[i]);
      age := age + 1;
      var now := age;
      var got, bin := GetMeta(i);
      if !got { return false, []; }
      var slot, found := FindSlot(bin, h);
      ok := true;
      if found {
        var err;
        err, data := GetWhole(fast, i);
        if err { ok := false; } else { bin := bin[slot := bin[slot].(age := now)]; }
      } else {
        var fetched;
        ok, fetched, data := Fetch(i, bin[slot], b);
        bin := bin[slot := if fetched then Descriptor(h, b, now, false) else bin[slot].(dirty := false)];
      }
      assert bin == [meta[i][0], bin[1]];
      var stored := PutMeta(i, bin);
      if !stored { ok := false; }
      OwnBin(c, t, b, Value(), meta[i]);
    }

    // The fast block of a bin gets new contents once the old ones, if dirty, are in the slow store.
    method Replace(i: nat, d: Descriptor, data: Block) returns (ok: bool, stored: bool)
      requires Wired() && |data| == fast.bs
      modifies fast, slow
      ensures Wired() && fast.Valid() && slow.Valid()
      ensures stored ==> IsPut(old(fast.store), fast.store, i, data, fast.bs)
      ensures OnlyBlock(old(fast.store), fast.store, i, fast.bs)
      ensures ok ==> stored
      ensures ok ==> if d.dirty
                     then IsPut(old(slow.store), slow.store, d.block, Lookup(old(fast.store), i, fast.bs), fast.bs)
                     else slow.store == old(slow.store)
      ensures if d.dirty then OnlyBlock(old(slow.store), slow.store, d.block, fast.bs)
              else slow.store == old(slow.store)
      ensures Faults() >= old(Faults()) && (ok <==> Faults() == old(Faults()))
    {
      hide IsPut, Lookup, OnlyBlock, Sized;
      ok := Evict(i, d);
      var err := PutWhole(fast, i, data);
      stored := !err;
      if err { ok := false; }
    }

    // A write.  A call that fails has touched nothing beyond the bin of the block.
    method PutBlock(b: nat, data: Block) returns (ok: bool)
      requires Wired() && b < n && age + 1 < MAX_AGE && |data| == fast.bs
      requires Valid() || (GoodBut(Cfg(), Value(), Index(Value(), b)) && Hit(Value(), b))
      modifies this, fast, slow
      ensures Wired() && age == old(age) + 1
      ensures ok ==> PutStep(Cfg(), old(Value()), b, data, age, Value())
      ensures InOwnBin(Cfg(), old(Value()), b, Value())
      ensures Faults() >= old(Faults()) && (ok <==> Faults() == old(Faults()))
    {
      hide IsPut, HashBlockNr, Lookup, Hit, BinOk, CleanOk, Sized, InOwnBin, OnlyBlock, PutStep, Evicts, WithDescriptor;
      ghost var c, t := Cfg(), Value();
      var h := HashOfBlock(b);
      var i := h % |meta|;
      SlotIsSecond(c, t, b);
      SameIsOnly(fast.store, i, fast.bs);
      OwnBin(c, t, b, t, meta[i]);
      age := age + 1;
      var now := age;
      var got, bin := GetMeta(i);
      if !got { return false; }
      var slot, found := FindSlot(bin, h);
      ok := true;
      if found && bin[slot].block == b {
        var err := PutWhole(fast, i, data);
        if err { ok := false; } else { bin := bin[slot := bin[slot].(age := now, dirty := true)]; }
      } else {
        var stored;
        ok, stored := Replace(i, bin[slot], data);
        bin := bin[slot := if stored then Descriptor(h, b, now, true) else bin[slot].(dirty := false)];
      }
      assert bin == [meta[i][0], bin[1]];
      var stored := PutMeta(i, bin);
      if !stored { ok := false; }
      OwnBin(c, t, b, Value(), meta[i]);
      if ok { PutMade(c, t, b, data, now, Value(), bin); }
    }

    ghost function Device(): (d: Disk)
      requires Wired()
      reads this, fast, slow
      ensures Sized(d, fast.bs)
    {
      ViewDiskSized(Cfg(), Value());
      ViewDisk(Cfg(), Value())
    }

    // Replace a part of one block: a whole block is written, for a part it is read first.  The stale
    // block that such a read may leave in the fast store is overwritten by the write that follows.
    method StoreInBlock(b: nat, at: nat, piece: seq<Byte>) returns (ok: bool)
      requires Valid() && b < n && at + |piece| <= fast.bs && age + 2 < MAX_AGE
      modifies this, fast, slow
      ensures Wired() && old(age) <= age <= old(age) + 2
      ensures ok ==> Valid() && Device() == PutPatched(old(Device()), fast.bs, b, at, piece)
      ensures Faults() >= old(Faults()) && (ok <==> Faults() == old(Faults()))
    {
      hide Good, GoodBut, GetStep, PutStep, View, ViewDisk, Hit, Index, HashBlockNr;
      ghost var c, t := Cfg(), Value();
      assert |Lookup(Device(), b, fast.bs)| == fast.bs;
      var blk := piece;
      if at == 0 && |piece| == fast.bs {
        assert Patch(Lookup(Device(), b, fast.bs), at, piece) == piece;
      } else {
        var got, data := GetBlock(b);
        if !got { return false; }
        GetAnswers(c, t, b, age, Value(), data);
        SameIndex(c, t, b, age, Value(), data);
        DeviceLookup(c, t, b);
        blk := Patch(data, at, piece);
      }
      ghost var mid := Value();
      ok := PutBlock(b, blk);
      if ok {
        PutIsUpdate(c, mid, b, blk, age, Value());
        ViewDiskPut(c, t, Value(), b, blk);
      }
    }

    // put_data over put_block and get_block: on success exactly the bytes of the range are replaced.
    method PutData(offset: nat, input: seq<Byte>) returns (err: bool)
      requires Valid() && offset + |input| <= n * fast.bs && age + 2 * |input| + 2 < MAX_AGE
      modifies this, fast, slow
      ensures Wired()
      ensures !err ==> Valid() && Spliced(old(Device()), Device(), fast.bs, offset, input)
      ensures Faults() >= old(Faults()) && (err <==> Faults() > old(Faults()))
    {
      hide Good, GoodBut, Spliced, ViewDisk, Shape, PutPatched;
      err := false;
      var done := 0;
      NothingSpliced(Device(), fast.bs, offset, input[..0]);
      while done < |input|
        invariant Valid() && done <= |input| && age <= old(age) + 2 * done
        invariant Spliced(old(Device()), Device(), fast.bs, offset, input[..done])
        invariant Faults() == old(Faults())
      {
        var b, at := Locate(offset + done, fast.bs);
        var cur := Min(|input| - done, fast.bs - at);
        InDevice(b, at, fast.bs, n);
        PatchExtends(old(Device()), Device(), fast.bs, offset, input, done, b, at, cur);
        var ok := StoreInBlock(b, at, input[done..done + cur]);
        if !ok { return true; }
        done := done + cur;
      }
      assert input[..done] == input;
    }

    method TrimZero(offset: nat, len: nat) returns (err: bool)
      requires Valid() && offset + len <= n * fast.bs && age + 2 * len + 2 < MAX_AGE
      modifies this, fast, slow
      ensures Wired()
      ensures !err ==> Valid() && Spliced(old(Device()), Device(), fast.bs, offset, Zeros(len))
      ensures Faults() >= old(Faults()) && (err <==> Faults() > old(Faults()))
    {
      hide Good, GoodBut, Spliced, ViewDisk, Shape, PutPatched;
      err := false;
      var workOffset: nat, workSize: nat := offset, len;
      NothingSpliced(Device(), fast.bs, offset, Zeros(len)[..0]);
      while workSize > 0
        invariant Valid() && workSize <= len && workOffset == offset + (len - workSize)
        invariant age <= old(age) + 2 * (len - workSize)
        invariant Spliced(old(Device()), Device(), fast.bs, offset, Zeros(len)[..len - workSize])
        invariant Faults() == old(Faults())
      {
        var b, at := Locate(workOffset, fast.bs);
        var cur := Min(workSize, fast.bs - at);
        ghost var done := len - workSize;
        InDevice(b, at, fast.bs, n);
        PatchExtends(old(Device()), Device(), fast.bs, offset, Zeros(len), done, b, at, cur);
        assert Zeros(len)[done..done + cur] == Zeros(cur);
        var ok := StoreInBlock(b, at, Zeros(cur));
        if !ok { return true; }
        workOffset, workSize := workOffset + cur, workSize - cur;
      }
      assert Zeros(len)[..len] == Zeros(len);
    }
  }

  lemma SameIsOnly(d: Disk, b: nat, bs: nat)
    ensures OnlyBlock(d, d, b, bs)
  {
  }

  // What the calls of a write add up to.
  lemma PutMade(c: Config, t: Tiers, b: nat, data: Block, now: nat, t': Tiers, bin: Bin)
    requires Shape(c, t) && b < c.n && |bin| == SLOTS && t'.bins == t.bins[Index(t, b) := bin]
    requires bin[0] == t.bins[Index(t, b)][0] && IsPut(t.fast, t'.fast, Index(t, b), data, c.bs)
    requires var d := t.bins[Index(t, b)][1];
             if d.hash == HashBlockNr(b) then bin[1] == d.(age := now, dirty := true) && t'.slow == t.slow
             else && bin[1] == Descriptor(HashBlockNr(b), b, now, true)
                  && if d.dirty then IsPut(t.slow, t'.slow, d.block, Lookup(t.fast, Index(t, b), c.bs), c.bs)
                     else t'.slow == t.slow
    ensures PutStep(c, t, b, data, now, t')
  {
    hide HashBlockNr, IsPut, Lookup;
    assert bin == [bin[0], bin[1]];
  }

  lemma OwnBin(c: Config, t: Tiers, b: nat, t': Tiers, bin: Bin)
    requires Shape(c, t) && b < c.n && |bin| == SLOTS && t'.bins == t.bins[Index(t, b) := bin]
    requires OnlyBlock(t.fast, t'.fast, Index(t, b), c.bs)
    requires t'.slow == t.slow || (t.bins[Index(t, b)][1].dirty &&
                                   OnlyBlock(t.slow, t'.slow, t.bins[Index(t, b)][1].block, c.bs))
    ensures InOwnBin(c, t, b, t')
  {
    hide HashBlockNr, OnlyBlock;
    if t'.slow == t.slow { SameIsOnly(t.slow, t.bins[Index(t, b)][1].block, c.bs); }
  }

  lemma InDevice(b: nat, at: nat, bs: nat, n: nat)
    requires 0 < bs && b * bs + at < n * bs
    ensures b < n
  {
    if n <= b { Monotone(n, b, bs); }
  }

  lemma DeviceLookup(c: Config, t: Tiers, b: nat)
    requires Shape(c, t) && b < c.n
    ensures Lookup(ViewDisk(c, t), b, c.bs) == View(c, t, b)
  {
    hide View;
  }

  // In a good state the search ends at the second descriptor of the bin, and it is the right one.
  lemma SlotIsSecond(c: Config, t: Tiers, b: nat)
    requires Shape(c, t) && b < c.n && GoodBut(c, t, Index(t, b))
    ensures var bin := t.bins[Index(t, b)];
            && bin[0].hash != HashBlockNr(b) && bin[1].age < MAX_AGE
            && (bin[1].hash == HashBlockNr(b) ==> bin[1].block == b)
  {
    hide HashBlockNr;
    HitMeans(c, t, Index(t, b), b);
    HashIsUsed(b);
    assert BinOk(c, t, Index(t, b));
  }
}
