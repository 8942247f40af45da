/**
  The deduplicating store over its database (storage_backend_dedup.cpp).

  Every database call may fail.  `faults` counts the failures, so that the branches for
  a corrupt data set (a missing counter, a negative or an unexpected count) can be
  shown dead: a put that reports failure had a database call fail.
*/
module Dedup {
  import opened Flat
  import opened DedupKeys
  import opened DedupTables

  class DedupStore {
    const p: Params
    var db: Database
    var backup: Database     // what end_transaction(false) returns to
    ghost var t: Tables
    ghost var faults: nat

    ghost predicate Valid()
      reads this
    {
      Good(p, t) && Holds(p, db, t)
    }

    constructor (p: Params)
      requires GoodParams(p)
      ensures Valid() && this.p == p && forall b :: Content(p, t, b) == None
    {
      this.p, t, faults := p, Tables(map[], map[], map[]), 0;
      db, backup := map[COMPRESSED := Marker(p)], map[];
      new;
      forall b: nat, h: string ensures BlockKey(b) != COMPRESSED && DataKey(h) != COMPRESSED { KeysApart(b, h, ""); }
      forall h: string ensures IsHex(h) ==> h != COMPRESSED { if IsHex(h) { KeysApart(0, h, h); } }
      assert forall h :: Users(t, h) == {};
    }

    // ------------------------------------------------------- database calls

    method DbGet(key: string) returns (ok: bool, v: Option<Value>)
      modifies this`faults
      ensures ok ==> faults == old(faults) && v == if key in db then Some(db[key]) else None
      ensures !ok ==> faults > old(faults)
    {
      ok, v := *, None;
      if !ok { faults := faults + 1; return; }
      if key in db { v := Some(db[key]); }
    }

    method DbSet(key: string, v: Value) returns (ok: bool)
      modifies this`db, this`faults
      ensures ok ==> faults == old(faults) && db == old(db)[key := v]
      ensures !ok ==> faults > old(faults)
    {
      ok := *;
      if ok { db := db[key := v]; } else { faults := faults + 1; }
    }

    // Removing a record that is not there is an error of its own.
    method DbRemove(key: string) returns (ok: bool)
      modifies this`db, this`faults
      ensures ok ==> faults == old(faults) && key in old(db) && db == old(db) - {key}
      ensures !ok ==> faults > old(faults) || key !in old(db)
    {
      ok := *;
      if !ok { faults := faults + 1; return; }
      if key !in db { return false; }
      db := db - {key};
    }

    method BeginTransaction() returns (ok: bool)
      modifies this`backup, this`faults
      ensures backup == db
      ensures !ok ==> faults > old(faults)
      ensures ok ==> faults == old(faults)
    {
      backup := db;
      ok := *;
      if !ok { faults := faults + 1; }
    }

    method Abort()
      modifies this`db
      ensures db == backup
    {
      db := backup;
    }

    // When a commit reports failure, it may or may not have happened.
    method Commit() returns (ok: bool, applied: bool)
      modifies this`db, this`faults
      ensures ok ==> applied && faults == old(faults)
      ensures !ok ==> faults > old(faults)
      ensures db == if applied then old(db) else backup
    {
      ok, applied := *, *;
      if ok { applied := true; return; }
      faults := faults + 1;
      if !applied { db := backup; }
    }

    // -------------------------------------------------------------- reading

    method GetHashForBlock(b: nat) returns (ok: bool, h: Option<string>)
      requires Valid()
      modifies this`faults
      ensures ok ==> faults == old(faults) && h == if b in t.hashOf then Some(t.hashOf[b]) else None
      ensures !ok ==> faults > old(faults)
    {
      hide Good, Holds;
      MappedRecords(p, db, t, b);
      var v;
      ok, v := DbGet(BlockKey(b));
      h := None;
      if !ok || v.None? { return; }
      if !v.value.Text? || |v.value.s| != 2 * p.hsize { assert false; }   // record of unexpected size
      h := Some(v.value.s);
    }

    // A successful read yields the last block put there, or None for a block never written.
    method GetBlockInt(b: nat) returns (ok: bool, blk: Option<Block>)
      requires Valid()
      modifies this`faults
      ensures ok ==> blk == Content(p, t, b) && faults == old(faults)
      ensures ok && b in t.hashOf ==> blk.Some?
      ensures !ok ==> faults > old(faults)
    {
      hide Good, Holds, Decode;
      MappedRecords(p, db, t, b);
      blk := None;
      var h;
      ok, h := GetHashForBlock(b);
      if !ok || h.None? { return; }
      var v;
      ok, v := DbGet(DataKey(h.value));
      if !ok { return; }
      if v.None? || !v.value.Bytes? { assert false; }   // no data for a mapped hash
      blk := Decode(p, v.value.raw);
      if blk.None? { assert false; }                    // does not decompress
    }

    // -------------------------------------------------------------- writing

    // Inside a transaction the database holds tables `u` that t has not caught up with yet.
    method DecreaseUseCount(h: string, ghost u: Tables) returns (ok: bool, n: int)
      requires Holds(p, db, u) && IsHash(p, h) && h in u.count
      modifies this`db, this`faults
      ensures ok ==> n == u.count[h] - 1 && Holds(p, db, u.(count := u.count[h := n])) && faults == old(faults)
      ensures !ok ==> faults > old(faults)
    {
      n := 0;
      var v;
      ok, v := DbGet(h);
      if !ok { return; }
      if v.None? || !v.value.Number? { assert false; }   // no use count for the hash
      n := v.value.n - 1;
      SetCounter(p, db, u, h, n);
      ok := DbSet(h, Number(n));
    }

    method GetUseCount(h: string, ghost u: Tables) returns (ok: bool, n: int)
      requires Holds(p, db, u) && IsHash(p, h)
      modifies this`faults
      ensures ok ==> n == CountOf(u, h) && faults == old(faults)
      ensures !ok ==> faults > old(faults)
    {
      n := 0;
      var v;
      ok, v := DbGet(h);
      if !ok || v.None? { return; }
      if !v.value.Number? { assert false; }
      n := v.value.n;
    }

    method IncreaseUseCount(h: string, ghost u: Tables) returns (ok: bool, n: int)
      requires Holds(p, db, u) && IsHash(p, h) && h in u.count
      modifies this`db, this`faults
      ensures ok ==> n == u.count[h] + 1 && Holds(p, db, u.(count := u.count[h := n])) && faults == old(faults)
      ensures !ok ==> faults > old(faults)
    {
      n := 0;
      var v;
      ok, v := DbGet(h);
      if !ok { return; }
      if v.None? || !v.value.Number? { assert false; }
      n := v.value.n + 1;
      SetCounter(p, db, u, h, n);
      ok := DbSet(h, Number(n));
    }

    // When block b has a hash already, that hash loses a user.  The record removed as "the block" is
    // the counter (it lives under the hash), the one removed as "the counter" is the mapping; the
    // data stays.
    method ReleaseOld(b: nat) returns (ok: bool)
      requires Valid()
      modifies this`db, this`faults
      ensures ok ==> Holds(p, db, Release(t, b)) && faults == old(faults)
      ensures !ok ==> faults > old(faults)
    {
      hide Good, Holds, Release, IsHash;
      ReleaseCases(p, t, b);
      var cur;
      ok, cur := GetHashForBlock(b);
      if !ok || cur.None? { return; }
      ok := ReleaseUse(b, cur.value);
    }

    method ReleaseUse(b: nat, h: string) returns (ok: bool)
      requires Valid() && b in t.hashOf && h == t.hashOf[b]
      modifies this`db, this`faults
      ensures ok ==> Holds(p, db, Release(t, b)) && faults == old(faults)
      ensures !ok ==> faults > old(faults)
    {
      hide Good, Holds, Release, IsHash;
      ReleaseCases(p, t, b);
      var n;
      ok, n := DecreaseUseCount(h, t);
      if !ok { return; }
      if n == 0 {
        ok := DropLastUse(b, h, t.(count := t.count[h := 0]));
      } else if n < 0 {
        assert false;   // the data set is corrupt
      }
    }

    method DropLastUse(b: nat, h: string, ghost u: Tables) returns (ok: bool)
      requires Holds(p, db, u) && IsHash(p, h) && h in u.count && b in u.hashOf
      modifies this`db, this`faults
      ensures ok ==> Holds(p, db, Tables(u.hashOf - {b}, u.count - {h}, u.body)) && faults == old(faults)
      ensures !ok ==> faults > old(faults)
    {
      HeldRecords(p, db, u, h, b);
      hide Holds;
      SetCounter(p, db, u, h, 0);
      ok := DbRemove(h);
      if !ok { return; }
      ghost var u' := u.(count := u.count - {h});
      HeldRecords(p, db, u', h, b);
      SetMapping(p, db, u', b, "");
      ok := DbRemove(BlockKey(b));
    }

    // The hash of the new data gains a user, and its data is stored when it had none.
    method AcquireNew(h: string, x: Block, ghost u: Tables) returns (ok: bool)
      requires Holds(p, db, u) && IsHash(p, h) && Positive(u)
      modifies this`db, this`faults
      ensures ok ==> Holds(p, db, Acquire(u, h, Encode(p, x))) && faults == old(faults)
      ensures !ok ==> faults > old(faults)
    {
      var n;
      ok, n := GetUseCount(h, u);
      if !ok { return; }
      if n > 0 {
        var temp;
        ok, temp := IncreaseUseCount(h, u);
        if !ok { return; }
        if temp != n + 1 { assert false; }   // new count not as expected
      } else {
        SetCounter(p, db, u, h, 1);
        ok := DbSet(h, Number(1));
        if !ok { return; }
        SetData(p, db, u.(count := u.count[h := 1]), h, Encode(p, x));
        ok := DbSet(DataKey(h), Bytes(Encode(p, x)));
      }
    }

    // One transaction.  Unless only the final commit reports failure (`applied` && !ok), a put that
    // fails changes nothing at all.
    method PutBlockInt(b: nat, x: Block) returns (ok: bool, ghost applied: bool)
      requires Valid() && |x| == p.bs
      modifies this
      ensures Valid()
      ensures t == if applied then Put(old(t), b, Hash(p, x), Encode(p, x)) else old(t)
      ensures ok ==> applied && faults == old(faults)
      ensures !applied ==> db == old(db)
      ensures !ok ==> faults > old(faults)
      ensures faults >= old(faults)
    {
      hide Good, Holds, Put, Encode, Hash, IsHash;
      applied := false;
      PutIsGood(p, t, b, x);
      ok := BeginTransaction();
      if !ok { Abort(); return; }
      ok := UpdateRecords(b, x);
      if !ok { Abort(); return; }
      var done;
      ok, done := Commit();
      applied := done;
      if done { t := Put(t, b, Hash(p, x), Encode(p, x)); }
    }

    method UpdateRecords(b: nat, x: Block) returns (ok: bool)
      requires Valid() && |x| == p.bs
      modifies this`db, this`faults
      ensures ok ==> Holds(p, db, Put(t, b, Hash(p, x), Encode(p, x))) && faults == old(faults)
      ensures !ok ==> faults > old(faults)
    {
      DecodeEncode(p, x);
      ReleaseFacts(t, b);
      hide Good, Holds, Put, Release, Acquire, Encode, IsHash;
      ok := ReleaseOld(b);
      if !ok { return; }
      var h := EncodeHex(p.digest(x));
      ok := AcquireNew(h, x, Release(t, b));
      if !ok { return; }
      MappedLast(p, db, t, b, h, x);
      ok := DbSet(BlockKey(b), Text(h));
    }

    // trim_zero.  Whole blocks are overwritten with zeros, and a put that fails there is ignored:
    // `missed` are the blocks that kept their content for that reason, each a whole block of the range
    // and each with a fault of its own, and the call may still report success.  All other bytes of the
    // range read as zero afterwards.  Only a failure at a part of a block ends the loop; `last` is where
    // that part begins.
    method TrimZero(offset: nat, len: nat, ghost known: iset<Block>)
      returns (ok: bool, ghost done: nat, ghost missed: set<nat>, ghost last: nat)
      requires Valid() && Injective(p, known) && AllKnown(p, t, known) && ClosedUnderZeroing(p, known)
      modifies this
      ensures Valid() && AllKnown(p, t, known)
      ensures done <= len && (ok ==> done == len)
      ensures 0 < p.bs && Sized(ViewOf(p, old(t)), p.bs) && Sized(ViewOf(p, t), p.bs)
      ensures ZeroedExcept(ViewOf(p, old(t)), ViewOf(p, t), p.bs, offset, done, missed)
      ensures WholeBlocks(missed, offset, done, p.bs) && |missed| <= faults - old(faults)
      ensures !ok ==> faults > old(faults) && last <= done && !WholeNext(offset + last, len - last, p.bs)
      ensures ok ==> (Spliced(ViewOf(p, old(t)), ViewOf(p, t), p.bs, offset, Zeros(len)) <==>
                      forall m :: m in missed ==> Lookup(ViewOf(p, old(t)), m, p.bs) == Zeros(p.bs))
    {
      hide Good, Holds, ViewOf, Injective, AllKnown, ClosedUnderZeroing, ZeroedExcept, Spliced, Lookup, WholeBlocks,
           Sized;
      ViewSized(p, t);
      NothingZeroed(ViewOf(p, t), p.bs, offset);
      ok, done, missed, last := true, 0, {}, 0;
      var workOffset: nat, workSize: nat := offset, len;
      while workSize > 0
        invariant Valid() && AllKnown(p, t, known) && 0 < p.bs && Sized(ViewOf(p, t), p.bs)
        invariant done + workSize == len && workOffset == offset + done
        invariant ZeroedExcept(ViewOf(p, old(t)), ViewOf(p, t), p.bs, offset, done, missed)
        invariant WholeBlocks(missed, offset, done, p.bs) && old(faults) + |missed| <= faults
      {
        var b, at := Locate(workOffset, p.bs);
        var cur := Min(workSize, p.bs - at);
        MissedAreEarlier(missed, offset, done, b, at, cur, p.bs);
        ZeroedMore(ViewOf(p, old(t)), ViewOf(p, t), p.bs, offset, done, missed, b, at, cur);
        var put;
        ghost var applied;
        put, applied := ZeroPart(b, at, cur, known);
        if !put && cur != p.bs {
          NotWholeNext(workOffset, workSize, b, at, cur, p.bs);
          last := done;
          if applied { done := done + cur; }
          ok := false;
          return;
        }
        if !applied { missed := missed + {b}; }
        done := done + cur;
        workOffset, workSize := workOffset + cur, workSize - cur;
      }
      MissedExactly(ViewOf(p, old(t)), ViewOf(p, t), p.bs, offset, len, missed);
    }

    method ZeroPart(b: nat, at: nat, cur: nat, ghost known: iset<Block>) returns (ok: bool, ghost applied: bool)
      requires Valid() && Injective(p, known) && AllKnown(p, t, known) && ClosedUnderZeroing(p, known)
      requires 0 < cur && at + cur <= p.bs && Sized(ViewOf(p, t), p.bs)
      modifies this
      ensures Valid() && AllKnown(p, t, known) && Sized(ViewOf(p, t), p.bs)
      ensures ViewOf(p, t) == if applied then PutPatched(ViewOf(p, old(t)), p.bs, b, at, Zeros(cur))
                              else ViewOf(p, old(t))
      ensures ok ==> applied
      ensures !ok ==> faults > old(faults)
      ensures faults >= old(faults)
    {
      hide Good, Holds, Put, Hash, Encode, Injective;
      ViewSized(p, t);
      applied := false;
      var temp := Zeros(p.bs);
      if cur != p.bs {
        var blk;
        ok, blk := GetBlockInt(b);
        if !ok { return; }
        if blk.Some? { temp := Patch(blk.value, at, Zeros(cur)); } else { temp := Patch(temp, at, Zeros(cur)); }
        ContentIsLookup(p, t, b);
      }
      assert temp == Patch(Lookup(ViewOf(p, t), b, p.bs), at, Zeros(cur));
      PutIsWrite(p, t, b, temp, known);
      ok, applied := PutBlockInt(b, temp);
      if applied { ViewSized(p, t); }
    }
  }

  // Zeros, and whatever zeroing part of a known content gives, are known too.
  ghost predicate ClosedUnderZeroing(p: Params, known: iset<Block>) {
    && Zeros(p.bs) in known
    && forall x: Block, at: nat, n: nat {:trigger Patch(x, at, Zeros(n))} ::
         x in known && |x| == p.bs && at + n <= p.bs ==> Patch(x, at, Zeros(n)) in known
  }

  // `after` is `before` with the bytes of the range zero, but for the blocks that were missed.
  ghost predicate ZeroedExcept(before: Disk, after: Disk, bs: nat, off: nat, len: nat, missed: set<nat>)
    requires 0 < bs && Sized(before, bs) && Sized(after, bs)
  {
    forall i: nat :: ByteAt(after, bs, i) ==
                     if off <= i < off + len && i / bs !in missed then 0 else ByteAt(before, bs, i)
  }

  // The next piece of a range is a whole block.
  ghost predicate WholeNext(off: nat, rest: nat, bs: nat)
    requires 0 < bs
  {
    off % bs == 0 && bs <= rest
  }

  lemma NotWholeNext(off: nat, rest: nat, b: nat, at: nat, cur: nat, bs: nat)
    requires off == b * bs + at && at < bs && cur == Min(rest, bs - at) && cur != bs
    ensures !WholeNext(off, rest, bs)
  {
    DivRange(off, b, bs);
    assert off == off / bs * bs + off % bs;
  }

  // Blocks that lie in the range as a whole.
  ghost predicate WholeBlocks(missed: set<nat>, off: nat, len: nat, bs: nat) {
    forall m :: m in missed ==> off <= m * bs && m * bs + bs <= off + len
  }

  lemma NothingZeroed(d: Disk, bs: nat, off: nat)
    requires 0 < bs && Sized(d, bs)
    ensures ZeroedExcept(d, d, bs, off, 0, {}) && WholeBlocks({}, off, 0, bs)
  {
  }

  lemma MissedAreEarlier(missed: set<nat>, off: nat, done: nat, b: nat, at: nat, cur: nat, bs: nat)
    requires WholeBlocks(missed, off, done, bs) && off + done == b * bs + at && at + cur <= bs && at < bs
    ensures b !in missed && forall m :: m in missed ==> m < b
    ensures WholeBlocks(missed, off, done + cur, bs)
    ensures cur == bs ==> WholeBlocks(missed + {b}, off, done + cur, bs)
  {
    forall m | m in missed ensures m < b {
      if b <= m { Monotone(b, m, bs); }
    }
  }

  // What was missed decides: the range reads as zero exactly when those blocks did before.
  lemma MissedExactly(before: Disk, after: Disk, bs: nat, off: nat, len: nat, missed: set<nat>)
    requires 0 < bs && Sized(before, bs) && Sized(after, bs)
    requires ZeroedExcept(before, after, bs, off, len, missed) && WholeBlocks(missed, off, len, bs)
    ensures Spliced(before, after, bs, off, Zeros(len)) <==>
            forall m :: m in missed ==> Lookup(before, m, bs) == Zeros(bs)
  {
    if Spliced(before, after, bs, off, Zeros(len)) {
      forall m | m in missed ensures Lookup(before, m, bs) == Zeros(bs) {
        MissedWasZero(before, after, bs, off, len, missed, m);
      }
    }
    if forall m :: m in missed ==> Lookup(before, m, bs) == Zeros(bs) {
      forall i: nat
        ensures ByteAt(after, bs, i)
           == if off <= i < off + |Zeros(len)| then Zeros(len)[i - off] else ByteAt(before, bs, i)
      {
        if i / bs in missed { assert Lookup(before, i / bs, bs) == Zeros(bs); }
      }
    }
  }

  lemma MissedWasZero(before: Disk, after: Disk, bs: nat, off: nat, len: nat, missed: set<nat>, m: nat)
    requires 0 < bs && Sized(before, bs) && Sized(after, bs) && m in missed
    requires ZeroedExcept(before, after, bs, off, len, missed) && WholeBlocks(missed, off, len, bs)
    requires Spliced(before, after, bs, off, Zeros(len))
    ensures Lookup(before, m, bs) == Zeros(bs)
  {
    var x := Lookup(before, m, bs);
    forall k | 0 <= k < bs ensures x[k] == 0 {
      var i := m * bs + k;
      DivRange(i, m, bs);
      assert i == i / bs * bs + i % bs;
      assert ByteAt(after, bs, i) == ByteAt(before, bs, i) == x[k];
      assert off <= i < off + len;
    }
  }

  // The next stretch of the range: zeroed, or missed as a whole block.
  lemma ZeroedMore(d0: Disk, d: Disk, bs: nat, off: nat, done: nat, missed: set<nat>, b: nat, at: nat, cur: nat)
    requires 0 < bs && Sized(d0, bs) && Sized(d, bs)
    requires at + cur <= bs && off + done == b * bs + at && forall m :: m in missed ==> m < b
    requires ZeroedExcept(d0, d, bs, off, done, missed)
    ensures ZeroedExcept(d0, PutPatched(d, bs, b, at, Zeros(cur)), bs, off, done + cur, missed)
    ensures cur == bs ==> ZeroedExcept(d0, d, bs, off, done + cur, missed + {b})
  {
    var after := PutPatched(d, bs, b, at, Zeros(cur));
    PatchSplices(d, bs, off + done, b, at, Zeros(cur));
    forall i: nat
      ensures ByteAt(after, bs, i) == if off <= i < off + done + cur && i / bs !in missed then 0 else ByteAt(d0, bs, i)
      ensures cur == bs ==>
                (ByteAt(d, bs, i)
                 == if off <= i < off + done + cur && i / bs !in missed + {b} then 0 else ByteAt(d0, bs, i))
    {
      DivRange(i, b, bs);
      assert ByteAt(d, bs, i) == if off <= i < off + done && i / bs !in missed then 0 else ByteAt(d0, bs, i);
    }
  }

  lemma ContentIsLookup(p: Params, t: Tables, b: nat)
    requires Good(p, t)
    ensures Content(p, t, b).Some? ==> Lookup(ViewOf(p, t), b, p.bs) == Content(p, t, b).value
    ensures Content(p, t, b).None? ==> Lookup(ViewOf(p, t), b, p.bs) == Zeros(p.bs)
  {
    if b in t.hashOf { assert BodyFits(p, t, t.hashOf[b]); }
  }

  // The records of a block.
  lemma MappedRecords(p: Params, db: Database, t: Tables, b: nat)
    requires Good(p, t) && Holds(p, db, t)
    ensures BlockKey(b) in db <==> b in t.hashOf
    ensures b in t.hashOf ==>
              var h := t.hashOf[b];
              && |h| == 2 * p.hsize && db[BlockKey(b)] == Text(h)
              && h in t.body && DataKey(h) in db && db[DataKey(h)] == Bytes(t.body[h])
              && Decode(p, t.body[h]).Some?
  {
    hide NothingElse, HoldsCounts, Conserved, GoodParams, Decode, BlockKey, DataKey;
    if b in t.hashOf { assert BodyFits(p, t, t.hashOf[b]); }
  }

  lemma HeldRecords(p: Params, db: Database, t: Tables, h: string, b: nat)
    requires Holds(p, db, t) && IsHash(p, h)
    ensures h in t.count ==> h in db
    ensures b in t.hashOf ==> BlockKey(b) in db
  {
  }

  lemma PutIsGood(p: Params, t: Tables, b: nat, x: Block)
    requires Good(p, t) && |x| == p.bs
    ensures Good(p, Put(t, b, Hash(p, x), Encode(p, x)))
  {
    PutContent(p, t, b, x);
  }

  lemma ReleaseCases(p: Params, t: Tables, b: nat)
    requires Good(p, t)
    ensures b !in t.hashOf ==> Release(t, b) == t
    ensures b in t.hashOf ==>
              var h := t.hashOf[b];
              && IsHash(p, h) && h in t.count && t.count[h] >= 1
              && Release(t, b) == if t.count[h] == 1
                                  then Tables(t.hashOf - {b}, t.count[h := 0] - {h}, t.body)
                                  else t.(count := t.count[h := t.count[h] - 1])
  {
    ReleaseFacts(t, b);
    if b in t.hashOf {
      assert BodyFits(p, t, t.hashOf[b]);
      assert t.count[t.hashOf[b] := 0] - {t.hashOf[b]} == t.count - {t.hashOf[b]};
    }
  }

  lemma MappedLast(p: Params, db: Database, t: Tables, b: nat, h: string, x: Block)
    requires Holds(p, db, Acquire(Release(t, b), h, Encode(p, x)))
    ensures Holds(p, db[BlockKey(b) := Text(h)], Put(t, b, h, Encode(p, x)))
  {
    SetMapping(p, db, Acquire(Release(t, b), h, Encode(p, x)), b, h);
  }
}
