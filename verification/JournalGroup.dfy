/**
  The single call that a commit makes to the data backend (journal.cpp:377-400): one
  range write of the buffer, or one ranged trim, stands for the entries of the group one
  by one, in whole or up to where a failure stopped it.
*/
module JournalGroup {
  import opened Flat
  import opened JournalModel
  import opened StorageBackends

  // A device that took the same splice as another reads the same.
  lemma SpliceIsUnique(d: Disk, e: Disk, f: Disk, bs: nat, off: nat, data: seq<Byte>)
    requires 0 < bs && Sized(d, bs) && Sized(e, bs) && Sized(f, bs)
    requires Spliced(d, e, bs, off, data) && Spliced(d, f, bs, off, data)
    ensures SameBytes(e, bs, f, bs)
  {
  }

  // A prefix of the buffer that ends at a block boundary is the buffer of a prefix of the group.
  lemma WholeEntries(t: nat, done: nat, bs: nat) returns (k: nat)
    requires 0 < bs && (done == 0 || (t * bs + done) % bs == 0)
    ensures done == k * bs
  {
    k := done / bs;
    if done != 0 {
      var q := (t * bs + done) / bs;
      assert t * bs + done == q * bs + (t * bs + done) % bs;
      DivRange(done, k, bs);
      Multiples(t, q, bs);
      ModOfMultiple(q - t, bs);
    }
  }

  lemma Multiples(t: nat, q: nat, bs: nat)
    requires 0 < bs && t * bs <= q * bs
    ensures t <= q && q * bs - t * bs == (q - t) * bs
  {
    if q < t { Monotone(q + 1, t, bs); }
    assert (q + 1) * bs == q * bs + bs;
  }

  lemma FewerEntries(k: nat, n: nat, bs: nat)
    requires 0 < bs && k * bs <= n * bs
    ensures k <= n
  {
    Multiples(k, n, bs);
  }

  lemma NotWrites(batch: seq<Action>)
    requires batch != [] && Grouped(batch) && !batch[0].Write?
    ensures forall a :: a in batch ==> !a.Write?
  {
    forall a | a in batch ensures !a.Write? {
      var i :| 0 <= i < |batch| && batch[i] == a;
      assert SameKind(batch[0], batch[i]);
    }
  }

  lemma EntriesWritten(d: Disk, d': Disk, batch: seq<Action>, k: nat, bs: nat)
    requires 0 < bs && Sized(d, bs) && Sized(d', bs)
    requires Sound(batch, bs) && Grouped(batch) && k <= |batch| && batch != []
    requires Spliced(d, d', bs, batch[0].target * bs, Concatenated(batch[..k], bs))
    ensures Sized(ApplyAll(d, batch[..k], bs), bs)
    ensures SameBytes(d', bs, ApplyAll(d, batch[..k], bs), bs)
  {
    ApplyAllSized(d, batch[..k], bs);
    var done := ApplyAll(d, batch[..k], bs);
    if k == 0 {
      NothingSpliced(d, bs, batch[0].target * bs, Concatenated(batch[..k], bs));
    } else {
      GroupCommitIsSequential(d, batch[..k], bs);
    }
    hide ApplyAll, Spliced, SameBytes, Concatenated;
    SpliceIsUnique(d, d', done, bs, batch[0].target * bs, Concatenated(batch[..k], bs));
  }

  // After the call the device reads as if the first k entries were carried out in order.  What the
  // commit looks at is `err`; when it sees none all entries were, unless the backend refused a trim
  // without reporting it (see JournalFaults for what follows from that).
  method PutGroup(dev: StorageBackend, batch: seq<Action>, buffer: seq<Byte>) returns (err: bool, ghost k: nat)
    requires dev.Valid() && batch != [] && Grouped(batch) && Sound(batch, dev.bs)
    requires batch[0].Write? ==> buffer == Concatenated(batch, dev.bs)
    modifies dev
    ensures dev.Valid() && k <= |batch|
    ensures dev.faults >= old(dev.faults) && (dev.faults == old(dev.faults) <==> k == |batch|)
    ensures !err <==> k == |batch| || (!batch[0].Write? && !dev.reports)
    ensures !batch[0].Write? ==> k == 0 || k == |batch|
    ensures dev.trims == old(dev.trims) + if batch[0].Write? then []
                                          else [Trimming(batch[0].target * dev.bs, |batch| * dev.bs, batch[0].Trim?)]
    ensures Sized(ApplyAll(old(dev.store), batch[..k], dev.bs), dev.bs)
    ensures SameBytes(dev.store, dev.bs, ApplyAll(old(dev.store), batch[..k], dev.bs), dev.bs)
  {
    hide Spliced, ApplyAll, Concatenated, SameBytes, Grouped, Sound;
    ConcatenatedSize(batch, dev.bs);
    assert batch[..|batch|] == batch;
    if batch[0].Write? {
      ghost var done;
      err, done := dev.PutData(batch[0].target * dev.bs, buffer);
      if err {
        k := WholeEntries(batch[0].target, done, dev.bs);
        FewerEntries(k, |batch|, dev.bs);
      } else {
        k := |batch|;
      }
      ConcatenatedPrefix(batch, k, dev.bs);
    } else {
      NotWrites(batch);
      ConcatenatedZeros(batch, dev.bs);
      var ok, refused := dev.TrimZero(batch[0].target * dev.bs, |batch| * dev.bs, batch[0].Trim?);
      err := !ok;
      k := if refused then 0 else |batch|;
      ConcatenatedPrefix(batch, 0, dev.bs);
      if refused { NothingSpliced(dev.store, dev.bs, batch[0].target * dev.bs, Concatenated(batch[..0], dev.bs)); }
    }
    EntriesWritten(old(dev.store), dev.store, batch, k, dev.bs);
  }
}
