/**
  Which blocks a byte range touches, and which ones the stride loops visit that lock
  it (lock_group.cpp:54-59) or save it to snapshots (snapshots.cpp:237-238).
*/
module Strides {
  import opened Flat

  // The number of strides: size / bs, rounded up.
  function StrideCount(size: nat, bs: nat): nat
    requires 0 < bs
  {
    if size == 0 then 0 else (size - 1) / bs + 1
  }

  function Visited(offset: nat, size: nat, bs: nat): (r: seq<nat>)
    requires 0 < bs
    ensures |r| == StrideCount(size, bs)
    ensures forall k :: 0 <= k < |r| ==> r[k] == offset / bs + k
  {
    seq(StrideCount(size, bs), k => offset / bs + k)
  }

  ghost predicate Touched(offset: nat, size: nat, bs: nat, b: nat)
    requires 0 < bs
  {
    exists i {:trigger i / bs} :: offset <= i < offset + size && i / bs == b
  }

  // Every block that holds a byte of the range is visited.
  ghost predicate Covered(offset: nat, size: nat, bs: nat)
    requires 0 < bs
  {
    forall b :: Touched(offset, size, bs, b) ==> b in Visited(offset, size, bs)
  }

  lemma Distribute(a: nat, c: nat, t: nat)
    ensures (a + c) * t == a * t + c * t
  {
  }

  // Division is the adjoint of multiplication.
  lemma DivAtLeast(i: nat, b: nat, bs: nat)
    requires 0 < bs
    ensures b <= i / bs <==> b * bs <= i
  {
    var q := i / bs;
    DivRange(i, q, bs);
    if b <= q {
      Monotone(b, q, bs);
    } else {
      Monotone(q + 1, b, bs);
      Distribute(q, 1, bs);
    }
  }

  lemma StrideIsLast(size: nat, k: nat, bs: nat)
    requires 0 < bs
    ensures k * bs < size <==> k < StrideCount(size, bs)
  {
    if size > 0 { DivAtLeast(size - 1, k, bs); }
  }

  lemma StrideBlock(offset: nat, k: nat, bs: nat)
    requires 0 < bs
    ensures (offset + k * bs) / bs == offset / bs + k
  {
    var q := offset / bs;
    DivRange(offset, q, bs);
    Distribute(q, k, bs);
    DivRange(offset + k * bs, q + k, bs);
  }

  // The loop itself.
  method BlockNumbers(offset: nat, size: nat, bs: nat) returns (nrs: seq<nat>)
    requires 0 < bs
    ensures nrs == Visited(offset, size, bs)
  {
    nrs := [];
    var o := offset;
    while o < offset + size
      invariant o == offset + |nrs| * bs && |nrs| <= StrideCount(size, bs)
      invariant forall k :: 0 <= k < |nrs| ==> nrs[k] == offset / bs + k
      decreases offset + size - o
    {
      StrideBlock(offset, |nrs|, bs);
      StrideIsLast(size, |nrs|, bs);
      assert (|nrs| + 1) * bs == |nrs| * bs + bs;
      nrs := nrs + [o / bs];
      o := o + bs;
    }
    StrideIsLast(size, |nrs|, bs);
  }

  lemma VisitedIsTouched(offset: nat, size: nat, bs: nat, b: nat)
    requires 0 < bs && b in Visited(offset, size, bs)
    ensures Touched(offset, size, bs, b)
  {
    var k := b - offset / bs;
    StrideIsLast(size, k, bs);
    StrideBlock(offset, k, bs);
    assert (offset + k * bs) / bs == b;
  }

  lemma TouchedSpan(offset: nat, size: nat, bs: nat, b: nat)
    requires 0 < bs && 0 < size
    ensures Touched(offset, size, bs, b) <==> offset / bs <= b <= (offset + size - 1) / bs
  {
    var first, last := offset / bs, (offset + size - 1) / bs;
    DivAtLeast(offset, first, bs);
    if Touched(offset, size, bs, b) {
      var i :| offset <= i < offset + size && i / bs == b;
      DivAtLeast(i, first, bs);
      DivAtLeast(i, b, bs);
      DivAtLeast(offset + size - 1, b, bs);
    }
    if first <= b <= last {
      var i := if b == first then offset else b * bs;
      DivAtLeast(offset, b, bs);
      DivAtLeast(offset + size - 1, b, bs);
      if b != first { ModOfMultiple(b, bs); }
      assert i / bs == b;
    }
  }

  lemma LastBlock(offset: nat, size: nat, bs: nat)
    requires 0 < bs && 0 < size
    ensures (offset + size - 1) / bs == offset / bs + (size - 1) / bs +
            if offset % bs + (size - 1) % bs < bs then 0 else 1
  {
    var q := offset / bs + (size - 1) / bs;
    var r := offset % bs + (size - 1) % bs;
    Distribute(offset / bs, (size - 1) / bs, bs);
    Split(offset, bs);
    Split(size - 1, bs);
    Distribute(q, 1, bs);
    DivRange(offset + size - 1, q, bs);
    DivRange(offset + size - 1, q + 1, bs);
  }

  lemma Split(i: nat, bs: nat)
    requires 0 < bs
    ensures i == i / bs * bs + i % bs && i % bs < bs
  {
  }

  // The strides start at `offset`, not at a block boundary, so the last block of a range can be
  // missed.  Exactly when is decided by the two remainders.
  lemma RangeCoverage(offset: nat, size: nat, bs: nat)
    requires 0 < bs && 0 < size
    ensures Covered(offset, size, bs) <==> offset % bs + (size - 1) % bs < bs
  {
    LastBlock(offset, size, bs);
    var last := (offset + size - 1) / bs;
    forall b: nat
      ensures Touched(offset, size, bs, b) <==> offset / bs <= b <= last
    {
      TouchedSpan(offset, size, bs, b);
    }
    InVisited(offset, size, bs);
    assert Touched(offset, size, bs, last) by { TouchedSpan(offset, size, bs, last); }
  }

  lemma InVisited(offset: nat, size: nat, bs: nat)
    requires 0 < bs
    ensures forall b :: b in Visited(offset, size, bs) <==> offset / bs <= b < offset / bs + StrideCount(size, bs)
  {
    forall b | offset / bs <= b < offset / bs + StrideCount(size, bs)
      ensures b in Visited(offset, size, bs)
    {
      assert Visited(offset, size, bs)[b - offset / bs] == b;
    }
  }

  lemma AlignedIsCovered(offset: nat, size: nat, bs: nat)
    requires 0 < bs && offset % bs == 0
    ensures Covered(offset, size, bs)
  {
    if size > 0 { RangeCoverage(offset, size, bs); }
  }

  // A splice leaves the blocks that hold no byte of its range alone.
  lemma UntouchedBlock(d: Disk, d': Disk, bs: nat, off: nat, data: seq<Byte>, b: nat)
    requires 0 < bs && Sized(d, bs) && Sized(d', bs) && Spliced(d, d', bs, off, data)
    requires !Touched(off, |data|, bs, b)
    ensures Lookup(d', b, bs) == Lookup(d, b, bs)
  {
    var x, y := Lookup(d, b, bs), Lookup(d', b, bs);
    forall k | 0 <= k < bs ensures x[k] == y[k] {
      var i := b * bs + k;
      DivRange(i, b, bs);
      assert i / bs == b && i == i / bs * bs + i % bs;
      assert ByteAt(d, bs, i) == x[k] && ByteAt(d', bs, i) == y[k];
    }
  }

  lemma ModApart(a: nat, d: nat, n: nat)
    requires 0 < d < n
    ensures a % n != (a + d) % n
  {
    var q, r := a / n, a % n;
    DivRange(a, q, n);
    Distribute(q, 1, n);
    if r + d < n { DivRange(a + d, q, n); } else { DivRange(a + d, q + 1, n); }
    Split(a, n);
    Split(a + d, n);
  }

  // Among n consecutive numbers every remainder occurs.
  lemma RemainderOccurs(first: nat, l: nat, n: nat) returns (k: nat)
    requires l < n
    ensures k < n && (first + k) % n == l
  {
    var q, r := first / n, first % n;
    k := if r <= l then l - r else l + n - r;
    Split(first, n);
    Distribute(q, 1, n);
    var q' := if r <= l then q else q + 1;
    DivRange(first + k, q', n);
    Split(first + k, n);
  }

  lemma OneVisited(b: nat, bs: nat)
    requires 0 < bs
    ensures Visited(b * bs, bs, bs) == [b]
  {
    ModOfMultiple(b, bs);
    DivRange(bs - 1, 0, bs);
  }
}
