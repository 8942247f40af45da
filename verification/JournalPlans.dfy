/**
  Which entries a byte range becomes (storage_backend.cpp:238-273, journal.cpp:556-600): one for each
  block that the range touches, in order; a whole block that is to be zeroed becomes a trim or a zero
  entry, as the caller asked for.
*/
module JournalPlans {
  import opened Flat
  import opened JournalModel
  import opened Strides

  function FirstBlock(off: nat, bs: nat): nat
    requires 0 < bs
  {
    off / bs
  }

  // The number of blocks that n bytes from `off` on touch.
  ghost function BlockCount(off: nat, n: nat, bs: nat): int
    requires 0 < bs
  {
    if n == 0 then 0 else (off + n - 1) / bs - off / bs + 1
  }

  // Block b lies in the range as a whole.
  ghost predicate Whole(b: nat, off: nat, n: nat, bs: nat) {
    off <= b * bs && b * bs + bs <= off + n
  }

  ghost predicate WritePlan(p: seq<Action>, off: nat, n: nat, bs: nat)
    requires 0 < bs
  {
    && |p| == BlockCount(off, n, bs)
    && forall i :: 0 <= i < |p| ==> p[i].Write? && p[i].target == FirstBlock(off, bs) + i
  }

  ghost predicate ZeroEntry(a: Action, whole: bool, trim: bool) {
    if !whole then a.Write? else if trim then a.Trim? else a.Zero?
  }

  ghost predicate ZeroPlan(p: seq<Action>, off: nat, n: nat, bs: nat, trim: bool)
    requires 0 < bs
  {
    && |p| == BlockCount(off, n, bs)
    && forall i :: 0 <= i < |p| ==>
                     p[i].target == FirstBlock(off, bs) + i && ZeroEntry(p[i], Whole(p[i].target, off, n, bs), trim)
  }

  // An entry of each kind comes only from the operation it is for.
  lemma KindsOfPlan(p: seq<Action>, off: nat, n: nat, bs: nat, trim: bool)
    requires 0 < bs && ZeroPlan(p, off, n, bs, trim)
    ensures forall a :: a in p ==> (a.Trim? ==> trim) && (a.Zero? ==> !trim)
    ensures forall b: nat :: Whole(b, off, n, bs) ==> (if trim then Trim(b) else Zero(b)) in p
  {
    forall b: nat | Whole(b, off, n, bs) ensures (if trim then Trim(b) else Zero(b)) in p {
      WholeIsCounted(b, off, n, bs);
      assert ZeroEntry(p[b - off / bs], Whole(p[b - off / bs].target, off, n, bs), trim);
    }
  }

  lemma WholeIsCounted(b: nat, off: nat, n: nat, bs: nat)
    requires 0 < bs && Whole(b, off, n, bs)
    ensures 0 <= b - off / bs < BlockCount(off, n, bs)
  {
    var first := off / bs;
    DivAtLeast(off, first, bs);
    ModOfMultiple(b, bs);
    DivAtLeast(b * bs, first, bs);
    DivAtLeast(off + n - 1, b, bs);
  }

  ghost predicate AtBlock(i: nat, bs: nat)
    requires 0 < bs
  {
    i % bs == 0
  }

  lemma StartsBlock(i: nat, b: nat, at: nat, bs: nat)
    requires 0 < bs && i == b * bs + at && at < bs && AtBlock(i, bs)
    ensures at == 0
  {
    DivRange(i, b, bs);
    assert i == i / bs * bs + i % bs;
  }

  // A loop over a range goes on at the start of a block.
  lemma NextBlockStarts(off: nat, rest: nat, bs: nat, b: nat, at: nat, cur: nat)
    requires at < bs && off == b * bs + at && cur == Min(rest, bs - at)
    ensures cur == rest || AtBlock(off + cur, bs)
  {
    if bs - at < rest { StepEndsBlock(off, rest, bs, b, at); }
  }

  lemma NextCounted(off: nat, n: nat, b: nat, at: nat, cur: nat, bs: nat)
    requires 0 < bs && 0 < cur && at + cur <= bs && off + n == b * bs + at && (n == 0 || at == 0)
    ensures BlockCount(off, n, bs) == b - FirstBlock(off, bs) && (n == 0 ==> BlockCount(off, n, bs) == 0)
    ensures BlockCount(off, n + cur, bs) == BlockCount(off, n, bs) + 1
  {
    DivRange(off + n + cur - 1, b, bs);
    if n == 0 {
      DivRange(off, b, bs);
    } else {
      Monotone(1, b, bs);
      assert (b - 1) * bs + bs == b * bs;
      DivRange(off + n - 1, b - 1, bs);
    }
  }

  lemma WritePlanMore(p: seq<Action>, e: Action, off: nat, n: nat, b: nat, at: nat, cur: nat, bs: nat)
    requires 0 < bs && WritePlan(p, off, n, bs)
    requires 0 < cur && at + cur <= bs && off + n == b * bs + at && (n == 0 || at == 0)
    requires e.Write? && e.target == b
    ensures WritePlan(p + [e], off, n + cur, bs)
  {
    hide BlockCount, FirstBlock;
    NextCounted(off, n, b, at, cur, bs);
  }

  lemma ZeroPlanMore(p: seq<Action>, e: Action, off: nat, n: nat, b: nat, at: nat, cur: nat, bs: nat, trim: bool)
    requires 0 < bs && ZeroPlan(p, off, n, bs, trim)
    requires 0 < cur && at + cur <= bs && off + n == b * bs + at && (n == 0 || at == 0)
    requires e.target == b && ZeroEntry(e, cur == bs, trim)
    ensures ZeroPlan(p + [e], off, n + cur, bs, trim)
  {
    hide BlockCount, ZeroEntry, Whole, FirstBlock;
    NextCounted(off, n, b, at, cur, bs);
    LastWhole(off, n, b, at, cur, bs);
    var q := p + [e];
    forall i | 0 <= i < |q|
      ensures q[i].target == FirstBlock(off, bs) + i && ZeroEntry(q[i], Whole(q[i].target, off, n + cur, bs), trim)
    {
      if i < |p| { EarlierWhole(off, n, b, at, cur, bs, p[i].target); }
    }
  }

  lemma LastWhole(off: nat, n: nat, b: nat, at: nat, cur: nat, bs: nat)
    requires 0 < bs && 0 < cur && at + cur <= bs && off + n == b * bs + at && (n == 0 || at == 0)
    ensures Whole(b, off, n + cur, bs) <==> cur == bs
  {
  }

  lemma EarlierWhole(off: nat, n: nat, b: nat, at: nat, cur: nat, bs: nat, c: nat)
    requires 0 < bs && off + n == b * bs + at && (n == 0 || at == 0) && c < b
    ensures n > 0 ==> (Whole(c, off, n + cur, bs) <==> Whole(c, off, n, bs))
  {
    Monotone(c + 1, b, bs);
    assert (c + 1) * bs == c * bs + bs;
  }

  lemma EmptyPlan(off: nat, bs: nat, trim: bool)
    requires 0 < bs
    ensures WritePlan([], off, 0, bs) && ZeroPlan([], off, 0, bs, trim)
  {
  }
}
