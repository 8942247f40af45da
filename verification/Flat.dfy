/**
  Bytes, blocks and the flat byte array that every storage backend presents.

  A device is a finite map from block number to block; a block that was never
  written reads as zeros.  `Spliced` is the one meaning given to every byte-range
  update in this project: exactly the bytes of the range are replaced.
*/
module Flat {

  type Byte = bv8
  type Block = seq<Byte>
  type Disk = map<nat, Block>

  datatype Option<+T> = None | Some(value: T)

  function Zeros(n: nat): (z: Block)
    ensures |z| == n
    ensures forall i :: 0 <= i < n ==> z[i] == 0
  {
    seq(n, _ => 0)
  }

  function Min(a: nat, b: nat): nat {
    if a < b then a else b
  }

  ghost predicate Sized(d: Disk, bs: nat) {
    forall b :: b in d ==> |d[b]| == bs
  }

  // What a read of block `b` yields.
  function Lookup(d: Disk, b: nat, bs: nat): Block {
    if b in d then d[b] else Zeros(bs)
  }

  ghost function ByteAt(d: Disk, bs: nat, i: nat): Byte
    requires 0 < bs && Sized(d, bs)
  {
    Lookup(d, i / bs, bs)[i % bs]
  }

  // `after` is `before` with exactly the bytes from `off` on replaced by `data`.
  ghost predicate Spliced(before: Disk, after: Disk, bs: nat, off: nat, data: seq<Byte>)
    requires 0 < bs && Sized(before, bs) && Sized(after, bs)
  {
    forall i: nat :: ByteAt(after, bs, i) ==
                     if off <= i < off + |data| then data[i - off] else ByteAt(before, bs, i)
  }

  // Overwrite part of one block.
  function Patch(blk: Block, at: nat, data: seq<Byte>): (r: Block)
    requires at + |data| <= |blk|
    ensures |r| == |blk|
    ensures forall i :: 0 <= i < |blk| ==>
                          r[i] == if at <= i < at + |data| then data[i - at] else blk[i]
  {
    blk[..at] + data + blk[at + |data|..]
  }

  lemma Monotone(i: nat, n: nat, t: nat)
    requires i <= n
    ensures i * t <= n * t
  {
  }

  lemma DivRange(i: nat, b: nat, bs: nat)
    requires 0 < bs
    ensures i / bs == b <==> b * bs <= i < b * bs + bs
  {
    var q, r := i / bs, i % bs;
    assert i == q * bs + r;
    if q < b {
      assert (q + 1) * bs <= b * bs;
    } else if b < q {
      assert (b + 1) * bs <= q * bs;
    }
  }

  ghost function PutPatched(d: Disk, bs: nat, b: nat, at: nat, data: seq<Byte>): (after: Disk)
    requires Sized(d, bs) && at + |data| <= bs
    ensures Sized(after, bs)
  {
    d[b := Patch(Lookup(d, b, bs), at, data)]
  }

  // Storing one patched block changes exactly the patched bytes of the device.
  lemma PatchSplices(d: Disk, bs: nat, off: nat, b: nat, at: nat, data: seq<Byte>)
    requires 0 < bs && Sized(d, bs) && at + |data| <= bs && off == b * bs + at
    ensures Spliced(d, PutPatched(d, bs, b, at, data), bs, off, data)
  {
    var after := PutPatched(d, bs, b, at, data);
    forall i: nat
      ensures ByteAt(after, bs, i) ==
              if off <= i < off + |data| then data[i - off] else ByteAt(d, bs, i)
    {
      DivRange(i, b, bs);
      assert i == i / bs * bs + i % bs;
    }
  }

  lemma NothingSpliced(d: Disk, bs: nat, off: nat, data: seq<Byte>)
    requires 0 < bs && Sized(d, bs) && |data| == 0
    ensures Spliced(d, d, bs, off, data)
  {
  }

  // Two adjacent splices are one splice of the concatenation.
  lemma SplicesCompose(d0: Disk, d1: Disk, d2: Disk, bs: nat, off: nat, a: seq<Byte>, c: seq<Byte>)
    requires 0 < bs && Sized(d0, bs) && Sized(d1, bs) && Sized(d2, bs)
    requires Spliced(d0, d1, bs, off, a)
    requires Spliced(d1, d2, bs, off + |a|, c)
    ensures Spliced(d0, d2, bs, off, a + c)
  {
    forall i: nat
      ensures ByteAt(d2, bs, i) ==
              if off <= i < off + |a + c| then (a + c)[i - off] else ByteAt(d0, bs, i)
    {
      assert ByteAt(d1, bs, i) == if off <= i < off + |a| then a[i - off] else ByteAt(d0, bs, i);
    }
  }

  // One pass of a read-modify-write loop extends the replaced prefix of the input.
  lemma PatchExtends(d0: Disk, d: Disk, bs: nat, off: nat, input: seq<Byte>, done: nat, b: nat, at: nat, cur: nat)
    requires 0 < bs && Sized(d0, bs) && Sized(d, bs)
    requires done + cur <= |input| && at + cur <= bs && off + done == b * bs + at
    requires Spliced(d0, d, bs, off, input[..done])
    ensures Spliced(d0, PutPatched(d, bs, b, at, input[done..done + cur]), bs, off, input[..done + cur])
  {
    hide Spliced, PutPatched;
    var piece := input[done..done + cur];
    PatchSplices(d, bs, off + done, b, at, piece);
    assert input[..done] + piece == input[..done + cur];
    SplicesCompose(d0, d, PutPatched(d, bs, b, at, piece), bs, off, input[..done], piece);
  }

  // The bytes of a range.
  ghost function Slice(d: Disk, bs: nat, off: nat, n: nat): (r: seq<Byte>)
    requires 0 < bs && Sized(d, bs)
    ensures |r| == n
    ensures forall k :: 0 <= k < n ==> r[k] == ByteAt(d, bs, off + k)
  {
    seq(n, k requires 0 <= k < n => ByteAt(d, bs, off + k))
  }

  lemma SliceInBlock(d: Disk, bs: nat, b: nat, at: nat, n: nat)
    requires 0 < bs && Sized(d, bs) && at + n <= bs
    ensures Slice(d, bs, b * bs + at, n) == Lookup(d, b, bs)[at..at + n]
  {
    var blk := Lookup(d, b, bs)[at..at + n];
    forall k | 0 <= k < n
      ensures Slice(d, bs, b * bs + at, n)[k] == blk[k]
    {
      var i := b * bs + at + k;
      DivRange(i, b, bs);
      assert i == i / bs * bs + i % bs;
    }
  }

  lemma SliceConcat(d: Disk, bs: nat, off: nat, m: nat, n: nat)
    requires 0 < bs && Sized(d, bs)
    ensures Slice(d, bs, off, m) + Slice(d, bs, off + m, n) == Slice(d, bs, off, m + n)
  {
  }

  // A device has only one byte view after a splice: two devices that agreed before agree after,
  // whatever their block sizes.
  ghost predicate SameBytes(d: Disk, bs: nat, e: Disk, bs': nat)
    requires 0 < bs && 0 < bs' && Sized(d, bs) && Sized(e, bs')
  {
    forall i: nat :: ByteAt(d, bs, i) == ByteAt(e, bs', i)
  }

  lemma SplicesAgree(d: Disk, d': Disk, bs: nat, e: Disk, e': Disk, bs': nat, off: nat, data: seq<Byte>)
    requires 0 < bs && 0 < bs' && Sized(d, bs) && Sized(d', bs) && Sized(e, bs') && Sized(e', bs')
    requires SameBytes(d, bs, e, bs')
    requires Spliced(d, d', bs, off, data) && Spliced(e, e', bs', off, data)
    ensures SameBytes(d', bs, e', bs')
  {
    forall i: nat
      ensures ByteAt(d', bs, i) == ByteAt(e', bs', i)
    {
      assert ByteAt(d, bs, i) == ByteAt(e, bs', i);
    }
  }

  // Block number and offset inside the block, kept apart from the loops that use them.
  method Locate(off: nat, bs: nat) returns (b: nat, at: nat)
    requires 0 < bs
    ensures off == b * bs + at && at < bs
  {
    b, at := off / bs, off % bs;
  }

  // A step of a byte-range loop stops at the end of a block or of the range.
  lemma StepEndsBlock(off: nat, size: nat, bs: nat, b: nat, at: nat)
    requires at < bs && off == b * bs + at && bs - at < size
    ensures (off + (bs - at)) % bs == 0
  {
    assert off + (bs - at) == (b + 1) * bs;
    ModOfMultiple(b + 1, bs);
  }

  lemma ModOfMultiple(q: nat, bs: nat)
    requires 0 < bs
    ensures (q * bs) % bs == 0 && (q * bs) / bs == q
  {
    DivRange(q * bs, q, bs);
    assert q * bs == (q * bs) / bs * bs + (q * bs) % bs;
  }
}
