/**
  The write-back cache of storage_backend_tiering.cpp on values: bins of two descriptors
  that share one block of the fast store, and what a read or a write makes of them.
*/
module TieringModel {
  import opened Flat
  import opened Murmur

  datatype Descriptor = Descriptor(hash: nat, block: nat, age: nat, dirty: bool)

  type Bin = seq<Descriptor>

  const SLOTS: nat := 2
  const MAX_AGE: nat := TWO64 - 1
  const UNUSED := Descriptor(0, 0, 0, false)

  // n blocks of bs bytes.
  datatype Config = Config(bs: nat, n: nat)

  datatype Tiers = Tiers(bins: seq<Bin>, fast: Disk, slow: Disk)

  ghost predicate Shape(c: Config, t: Tiers) {
    && 0 < c.bs && c.n <= ZERO_HASHED && 0 < |t.bins|
    && forall i :: 0 <= i < |t.bins| ==> |t.bins[i]| == SLOTS
  }

  ghost function Index(t: Tiers, b: nat): nat
    requires 0 < |t.bins| && b < TWO64
  {
    HashBlockNr(b) % |t.bins|
  }

  ghost predicate Hit(t: Tiers, b: nat)
    requires 0 < |t.bins| && b < TWO64
  {
    exists j :: 0 <= j < |t.bins[Index(t, b)]| && t.bins[Index(t, b)][j].hash == HashBlockNr(b)
  }

  // What the cache as a whole holds for a block.
  ghost function View(c: Config, t: Tiers, b: nat): Block
    requires 0 < |t.bins| && b < TWO64
  {
    if Hit(t, b) then Lookup(t.fast, Index(t, b), c.bs) else Lookup(t.slow, b, c.bs)
  }

  // A used descriptor stands for the block it names, in the bin of that block.
  ghost predicate Names(c: Config, t: Tiers, i: nat, d: Descriptor)
    requires 0 < |t.bins|
  {
    d.block < c.n <= ZERO_HASHED && d.hash == HashBlockNr(d.block) && i == Index(t, d.block)
  }

  ghost predicate BinOk(c: Config, t: Tiers, i: nat)
    requires i < |t.bins| && |t.bins[i]| == SLOTS
  {
    && t.bins[i][0] == UNUSED
    && t.bins[i][1].age < MAX_AGE
    && (t.bins[i][1] == UNUSED || Names(c, t, i, t.bins[i][1]))
  }

  // A block that needs no writing back is the same in both stores.
  ghost predicate CleanOk(c: Config, t: Tiers, i: nat)
    requires i < |t.bins| && |t.bins[i]| == SLOTS
  {
    t.bins[i][1] != UNUSED && !t.bins[i][1].dirty ==>
      Lookup(t.fast, i, c.bs) == Lookup(t.slow, t.bins[i][1].block, c.bs)
  }

  ghost predicate Good(c: Config, t: Tiers) {
    Shape(c, t) && forall i :: 0 <= i < |t.bins| ==> BinOk(c, t, i) && CleanOk(c, t, i)
  }

  // All of it except that the block in bin x may be stale.
  ghost predicate GoodBut(c: Config, t: Tiers, x: nat) {
    Shape(c, t) && forall i :: 0 <= i < |t.bins| ==> BinOk(c, t, i) && (i != x ==> CleanOk(c, t, i))
  }

  // ------------------------------------------------------------------- steps

  // d' is d with block b replaced, as far as reads can tell.
  ghost predicate IsPut(d: Disk, d': Disk, b: nat, blk: Block, bs: nat) {
    forall x: nat :: Lookup(d', x, bs) == if x == b then blk else Lookup(d, x, bs)
  }

  // No block but b is different.
  ghost predicate OnlyBlock(d: Disk, d': Disk, b: nat, bs: nat) {
    forall x: nat :: x != b ==> Lookup(d', x, bs) == Lookup(d, x, bs)
  }

  // A dirty block goes to the slow store before its place is reused.
  ghost predicate Evicts(c: Config, t: Tiers, i: nat, slow': Disk)
    requires i < |t.bins| && |t.bins[i]| == SLOTS
  {
    var d := t.bins[i][1];
    if d.dirty then IsPut(t.slow, slow', d.block, Lookup(t.fast, i, c.bs), c.bs) else slow' == t.slow
  }

  ghost function WithDescriptor(t: Tiers, i: nat, d: Descriptor): seq<Bin>
    requires i < |t.bins| && |t.bins[i]| == SLOTS
  {
    t.bins[i := [t.bins[i][0], d]]
  }

  // put_block, when every device call succeeds.
  ghost predicate PutStep(c: Config, t: Tiers, b: nat, data: Block, now: nat, t': Tiers)
    requires Shape(c, t) && b < c.n
  {
    var i, d := Index(t, b), t.bins[Index(t, b)][1];
    && IsPut(t.fast, t'.fast, i, data, c.bs)
    && if d.hash == HashBlockNr(b)
       then t'.bins == WithDescriptor(t, i, d.(age := now, dirty := true)) && t'.slow == t.slow
       else t'.bins == WithDescriptor(t, i, Descriptor(HashBlockNr(b), b, now, true)) && Evicts(c, t, i, t'.slow)
  }

  // get_block as written: a miss installs the descriptor and leaves the fast store as it is.
  ghost predicate GetStep(c: Config, t: Tiers, b: nat, now: nat, t': Tiers, answer: Block)
    requires Shape(c, t) && b < c.n
  {
    var i, d := Index(t, b), t.bins[Index(t, b)][1];
    && t'.fast == t.fast
    && if d.hash == HashBlockNr(b)
       then t'.bins == WithDescriptor(t, i, d.(age := now)) && t'.slow == t.slow && answer == Lookup(t.fast, i, c.bs)
       else && t'.bins == WithDescriptor(t, i, Descriptor(HashBlockNr(b), b, now, false))
            && Evicts(c, t, i, t'.slow) && answer == Lookup(t'.slow, b, c.bs)
  }

  // get_block with the missing copy into the fast store added.
  ghost predicate FilledStep(c: Config, t: Tiers, b: nat, now: nat, t': Tiers, answer: Block)
    requires Shape(c, t) && b < c.n
  {
    exists mid ::
      && GetStep(c, t, b, now, mid, answer)
      && t'.bins == mid.bins && t'.slow == mid.slow
      && if Hit(t, b) then t'.fast == t.fast else IsPut(t.fast, t'.fast, Index(t, b), answer, c.bs)
  }

  // ------------------------------------------------------------------ lemmas

  lemma HashIsUsed(b: nat)
    requires b < ZERO_HASHED
    ensures HashBlockNr(b) != 0
  {
    hide HashBlockNr;
    OnlyOneHashesToZero(b);
  }

  // When the number of bins divides 2^32 the bin of a block is decided by the lower half of its number:
  // blocks that are 2^32 apart always share a bin.
  lemma BinOfLowerHalf(t: Tiers, b: nat, c: nat)
    requires 0 < |t.bins| && TWO32 % |t.bins| == 0 && b < TWO64 && c < TWO64
    ensures Index(t, b) == HashBlockNr(b) % TWO32 % |t.bins|
    ensures b % TWO32 == c % TWO32 ==> Index(t, b) == Index(t, c)
  {
    hide HashBlockNr;
    HalvesStayApart(b, c);
    ModOfPart(HashBlockNr(b), TWO32, |t.bins|);
    ModOfPart(HashBlockNr(c), TWO32, |t.bins|);
  }

  lemma ModOfPart(h: nat, m: nat, n: nat)
    requires 0 < m && 0 < n && m % n == 0
    ensures h % n == h % m % n
  {
    var q, r, k := h / m, h % m, m / n;
    assert m == k * n && h == q * m + r;
    Regrouped(q, k, n);
    ModShift(q * k, r, n);
  }

  lemma Regrouped(q: nat, k: nat, n: nat)
    ensures q * (k * n) == q * k * n
  {
  }

  lemma ModShift(a: nat, r: nat, n: nat)
    requires 0 < n
    ensures (a * n + r) % n == r % n
  {
    var q := r / n;
    assert r == q * n + r % n;
    assert a * n + q * n == (a + q) * n;
    DivRange(a * n + r, a + q, n);
    assert a * n + r == (a * n + r) / n * n + (a * n + r) % n;
  }

  // In a good state a bin hits for the block its second descriptor names, and for no other.
  lemma HitMeans(c: Config, t: Tiers, x: nat, b: nat)
    requires GoodBut(c, t, x) && b < c.n
    ensures Hit(t, b) <==> t.bins[Index(t, b)][1].hash == HashBlockNr(b)
    ensures Hit(t, b) ==> t.bins[Index(t, b)][1] != UNUSED && t.bins[Index(t, b)][1].block == b
  {
    hide HashBlockNr;
    HashIsUsed(b);
    var i := Index(t, b);
    assert BinOk(c, t, i);
    var d := t.bins[i][1];
    if d != UNUSED { HashBlockNrInjective(d.block, b); }
  }

  // The state after either step, but for what the fast block of the bin holds.
  lemma StepGood(c: Config, t: Tiers, x: nat, b: nat, d: Descriptor, t': Tiers)
    requires GoodBut(c, t, x) && b < c.n && x == Index(t, b)
    requires t'.bins == WithDescriptor(t, x, d) && d.age < MAX_AGE
    requires d.hash == HashBlockNr(b) && d.block == b
    requires forall i :: 0 <= i < |t.bins| && i != x ==> Lookup(t'.fast, i, c.bs) == Lookup(t.fast, i, c.bs)
    requires t'.slow == t.slow || Evicts(c, t, x, t'.slow)
    ensures GoodBut(c, t', x)
  {
    hide HashBlockNr, Lookup;
    forall i | 0 <= i < |t'.bins|
      ensures |t'.bins[i]| == SLOTS && BinOk(c, t', i) && (i != x ==> CleanOk(c, t', i))
    {
      assert BinOk(c, t, i) && (i != x ==> CleanOk(c, t, i));
      assert BinOk(c, t, x);
      if i != x && t.bins[i][1] != UNUSED && t.bins[x][1] != UNUSED {
        assert Index(t, t.bins[i][1].block) == i && Index(t, t.bins[x][1].block) == x;
      }
    }
  }

  // How a step on the bin of block b shows in the view of another block y: not at all.
  lemma OtherBin(c: Config, t: Tiers, b: nat, y: nat, t': Tiers)
    requires Shape(c, t) && |t'.bins| == |t.bins| && b < c.n && y < c.n && Index(t, y) != Index(t, b)
    requires t'.bins[Index(t, y)] == t.bins[Index(t, y)]
    requires Lookup(t'.fast, Index(t, y), c.bs) == Lookup(t.fast, Index(t, y), c.bs)
    requires Lookup(t'.slow, y, c.bs) == Lookup(t.slow, y, c.bs)
    ensures View(c, t', y) == View(c, t, y)
  {
    hide HashBlockNr, Lookup;
    assert Index(t', y) == Index(t, y);
  }

  // Slow blocks of other bins are not written by an eviction from bin x.
  lemma EvictionStays(c: Config, t: Tiers, x: nat, y: nat, slow': Disk)
    requires GoodBut(c, t, x) && x < |t.bins| && y < c.n && Evicts(c, t, x, slow')
    requires Index(t, y) != x || t.bins[x][1] == UNUSED || t.bins[x][1].block != y
    ensures Lookup(slow', y, c.bs) == Lookup(t.slow, y, c.bs)
  {
    hide HashBlockNr, Lookup;
    assert BinOk(c, t, x);
  }

  // Whatever becomes of a call for block b, half done or not: it touches the bin of b, the fast block of
  // that bin, and in the slow store the block that had to leave it.
  ghost predicate InOwnBin(c: Config, t: Tiers, b: nat, t': Tiers)
    requires Shape(c, t) && b < c.n
  {
    var x := Index(t, b);
    && Shape(c, t') && |t'.bins| == |t.bins|
    && (forall i :: 0 <= i < |t.bins| && i != x ==> t'.bins[i] == t.bins[i])
    && OnlyBlock(t.fast, t'.fast, x, c.bs)
    && if t.bins[x][1].dirty then OnlyBlock(t.slow, t'.slow, t.bins[x][1].block, c.bs) else t'.slow == t.slow
  }

  // Blocks of other bins then read as before.
  lemma OtherBinsKept(c: Config, t: Tiers, b: nat, t': Tiers)
    requires Shape(c, t) && b < c.n && GoodBut(c, t, Index(t, b)) && InOwnBin(c, t, b, t')
    ensures forall y :: 0 <= y < c.n && Index(t, y) != Index(t, b) ==> View(c, t', y) == View(c, t, y)
  {
    hide HashBlockNr, Lookup, View;
    var x := Index(t, b);
    assert BinOk(c, t, x);
    forall y | 0 <= y < c.n && Index(t, y) != x ensures View(c, t', y) == View(c, t, y) {
      OtherBin(c, t, b, y, t');
    }
  }

  // The block that is evicted, or was never dirty, is in the slow store afterwards.
  lemma EvictedIsStored(c: Config, t: Tiers, x: nat, slow': Disk)
    requires Good(c, t) && x < |t.bins| && Evicts(c, t, x, slow') && t.bins[x][1] != UNUSED
    ensures Lookup(slow', t.bins[x][1].block, c.bs) == Lookup(t.fast, x, c.bs)
  {
    hide HashBlockNr, Lookup;
    assert BinOk(c, t, x) && CleanOk(c, t, x);
  }

  // A miss on block b: another block of the same bin now reads from the slow store, and reads the same.
  lemma SameBinMiss(c: Config, t: Tiers, b: nat, y: nat, d: Descriptor, t': Tiers)
    requires Good(c, t) && b < c.n && y < c.n && y != b && Index(t, y) == Index(t, b)
    requires d.hash == HashBlockNr(b) && d.block == b
    requires t'.bins == WithDescriptor(t, Index(t, b), d) && Evicts(c, t, Index(t, b), t'.slow)
    requires GoodBut(c, t', Index(t, b))
    ensures View(c, t', y) == View(c, t, y)
  {
    hide HashBlockNr, Lookup, Hit, BinOk, Names;
    var x := Index(t, b);
    HitMeans(c, t, x, y);
    HitMeans(c, t', x, y);
    if Hit(t, y) {
      EvictedIsStored(c, t, x, t'.slow);
    } else {
      MissedIsNotNamed(c, t, x, y);
      EvictionStays(c, t, x, y, t'.slow);
    }
  }

  lemma MissedIsNotNamed(c: Config, t: Tiers, x: nat, y: nat)
    requires GoodBut(c, t, x) && y < c.n && x == Index(t, y) && !Hit(t, y)
    ensures t.bins[x][1] == UNUSED || t.bins[x][1].block != y
  {
    hide HashBlockNr;
    assert BinOk(c, t, x);
  }

  // No step on block b shows in the view of any other block.
  lemma OthersUnchanged(c: Config, t: Tiers, b: nat, d: Descriptor, t': Tiers)
    requires Shape(c, t) && b < c.n && GoodBut(c, t, Index(t, b)) && GoodBut(c, t', Index(t, b))
    requires d.hash == HashBlockNr(b) && d.block == b
    requires t'.bins == WithDescriptor(t, Index(t, b), d)
    requires forall i :: 0 <= i < |t.bins| && i != Index(t, b) ==> Lookup(t'.fast, i, c.bs) == Lookup(t.fast, i, c.bs)
    requires if t.bins[Index(t, b)][1].hash == HashBlockNr(b) then t'.slow == t.slow
             else Good(c, t) && Evicts(c, t, Index(t, b), t'.slow)
    ensures forall y :: 0 <= y < c.n && y != b ==> View(c, t', y) == View(c, t, y)
  {
    hide HashBlockNr, Lookup, BinOk, CleanOk, View, Hit;
    var x := Index(t, b);
    forall y | 0 <= y < c.n && y != b ensures View(c, t', y) == View(c, t, y) {
      if Index(t, y) != x {
        if t'.slow != t.slow { EvictionStays(c, t, x, y, t'.slow); }
        OtherBin(c, t, b, y, t');
      } else if t.bins[x][1].hash == HashBlockNr(b) {
        BothMiss(c, t, b, y, t');
      } else {
        SameBinMiss(c, t, b, y, d, t');
      }
    }
  }

  lemma BothMiss(c: Config, t: Tiers, b: nat, y: nat, t': Tiers)
    requires Shape(c, t) && Shape(c, t') && |t'.bins| == |t.bins|
    requires b < c.n && y < c.n && y != b && Index(t, y) == Index(t, b)
    requires GoodBut(c, t, Index(t, b)) && GoodBut(c, t', Index(t, b)) && t'.slow == t.slow
    requires t.bins[Index(t, b)][1].hash == HashBlockNr(b) == t'.bins[Index(t, b)][1].hash
    ensures View(c, t', y) == View(c, t, y)
  {
    hide HashBlockNr, Lookup, Hit, BinOk, CleanOk;
    HashBlockNrInjective(b, y);
    HitMeans(c, t, Index(t, b), y);
    HitMeans(c, t', Index(t, b), y);
  }

  // A write changes the view of exactly one block, from any good state and also right after a read of
  // that block as the code does it.
  lemma PutIsUpdate(c: Config, t: Tiers, b: nat, data: Block, now: nat, t': Tiers)
    requires Shape(c, t) && b < c.n && now < MAX_AGE && PutStep(c, t, b, data, now, t')
    requires Good(c, t) || (GoodBut(c, t, Index(t, b)) && Hit(t, b))
    ensures Good(c, t')
    ensures forall y :: 0 <= y < c.n ==> View(c, t', y) == if y == b then data else View(c, t, y)
  {
    hide HashBlockNr, Lookup, BinOk, CleanOk, View, Hit;
    var x := Index(t, b);
    HitMeans(c, t, x, b);
    var d := t'.bins[x][1];
    StepGood(c, t, x, b, d, t');
    OthersUnchanged(c, t, b, d, t');
    HitMeans(c, t', x, b);
    ViewOfHit(c, t', b);
    DirtyIsClean(c, t', x);
  }

  lemma ViewOfHit(c: Config, t: Tiers, b: nat)
    requires 0 < |t.bins| && b < TWO64 && Hit(t, b)
    ensures View(c, t, b) == Lookup(t.fast, Index(t, b), c.bs)
  {
  }

  lemma DirtyIsClean(c: Config, t: Tiers, x: nat)
    requires GoodBut(c, t, x) && x < |t.bins|
    ensures t.bins[x][1].dirty ==> Good(c, t)
    ensures CleanOk(c, t, x) <==> Good(c, t)
  {
    hide BinOk;
  }

  // A read as written: the answer is right and no other block changes; but the block itself is kept,
  // and the cache stays good, exactly when the fast block of its bin already held the answer.
  lemma GetAnswers(c: Config, t: Tiers, b: nat, now: nat, t': Tiers, answer: Block)
    requires Good(c, t) && b < c.n && now < MAX_AGE && GetStep(c, t, b, now, t', answer)
    ensures answer == View(c, t, b)
    ensures GoodBut(c, t', Index(t, b)) && Hit(t', b)
    ensures forall y :: 0 <= y < c.n && y != b ==> View(c, t', y) == View(c, t, y)
    ensures View(c, t', b) == Lookup(t.fast, Index(t, b), c.bs)
    ensures Good(c, t') <==> View(c, t', b) == View(c, t, b)
  {
    hide HashBlockNr, Lookup, BinOk, View, Hit;
    var x := Index(t, b);
    HitMeans(c, t, x, b);
    var d := t'.bins[x][1];
    StepGood(c, t, x, b, d, t');
    OthersUnchanged(c, t, b, d, t');
    HitMeans(c, t', x, b);
    ViewOfHit(c, t', b);
    DirtyIsClean(c, t', x);
    if Hit(t, b) {
      ViewOfHit(c, t, b);
      DirtyIsClean(c, t, x);
    } else {
      MissedIsNotNamed(c, t, x, b);
      EvictionStays(c, t, x, b, t'.slow);
      ViewOfMiss(c, t, b);
    }
  }

  lemma ViewOfMiss(c: Config, t: Tiers, b: nat)
    requires 0 < |t.bins| && b < TWO64 && !Hit(t, b)
    ensures View(c, t, b) == Lookup(t.slow, b, c.bs)
  {
  }

  // With the missing copy added a read changes nothing that can be seen.
  lemma FilledKeeps(c: Config, t: Tiers, b: nat, now: nat, t': Tiers, answer: Block)
    requires Good(c, t) && b < c.n && now < MAX_AGE && FilledStep(c, t, b, now, t', answer)
    ensures answer == View(c, t, b) && Good(c, t')
    ensures forall y :: 0 <= y < c.n ==> View(c, t', y) == View(c, t, y)
  {
    hide HashBlockNr, Lookup, BinOk, View, Hit;
    var x := Index(t, b);
    var mid :| GetStep(c, t, b, now, mid, answer) && t'.bins == mid.bins && t'.slow == mid.slow
               && if Hit(t, b) then t'.fast == t.fast else IsPut(t.fast, t'.fast, x, answer, c.bs);
    GetAnswers(c, t, b, now, mid, answer);
    HitMeans(c, t, x, b);
    var d := t'.bins[x][1];
    StepGood(c, t, x, b, d, t');
    OthersUnchanged(c, t, b, d, t');
    HitMeans(c, t', x, b);
    ViewOfHit(c, t', b);
    DirtyIsClean(c, t', x);
    if Hit(t, b) {
      ViewOfHit(c, t, b);
      DirtyIsClean(c, t, x);
    } else {
      MissedIsNotNamed(c, t, x, b);
      EvictionStays(c, t, x, b, t'.slow);
      ViewOfMiss(c, t, b);
    }
  }

  // The device that the cache presents.
  ghost function ViewDisk(c: Config, t: Tiers): Disk
    requires Shape(c, t)
  {
    map b: nat | b < c.n :: View(c, t, b)
  }

  lemma ViewDiskSized(c: Config, t: Tiers)
    requires Shape(c, t) && Sized(t.fast, c.bs) && Sized(t.slow, c.bs)
    ensures Sized(ViewDisk(c, t), c.bs)
  {
    hide HashBlockNr;
  }

  lemma ViewDiskPut(c: Config, t: Tiers, t': Tiers, b: nat, data: Block)
    requires Shape(c, t) && Shape(c, t') && b < c.n
    requires forall y :: 0 <= y < c.n ==> View(c, t', y) == if y == b then data else View(c, t, y)
    ensures ViewDisk(c, t') == ViewDisk(c, t)[b := data]
  {
    hide View;
  }

  // ----------------------------------------------------------------- all runs

  // Update: a read of a block followed by a write of it, as partial writes and trims do.
  datatype Op = Put(b: nat, data: Block) | Update(b: nat, data: Block) | Get(b: nat)

  // One operation of a run.  `filled` selects the read with the missing copy added.
  ghost predicate OpStep(c: Config, t: Tiers, op: Op, filled: bool, t': Tiers, answer: Block)
    requires Shape(c, t) && op.b < c.n
  {
    match op
    case Put(b, data) => exists now :: 0 <= now < MAX_AGE && PutStep(c, t, b, data, now, t')
    case Update(b, data) => exists now, mid :: 0 <= now < MAX_AGE - 1 && Shape(c, mid)
                                               && GetStep(c, t, b, now, mid, answer)
                                               && PutStep(c, mid, b, data, now + 1, t')
    case Get(b) => exists now :: 0 <= now < MAX_AGE &&
                                 if filled then FilledStep(c, t, b, now, t', answer)
                                 else GetStep(c, t, b, now, t', answer)
  }

  // The metadata device holds nothing but zeros.
  ghost predicate Fresh(c: Config, t: Tiers) {
    Shape(c, t) && forall i :: 0 <= i < |t.bins| ==> t.bins[i] == [UNUSED, UNUSED]
  }

  datatype Run = Run(states: seq<Tiers>, ops: seq<Op>, answers: seq<Block>)

  ghost predicate IsRun(c: Config, r: Run, filled: bool) {
    && |r.states| == |r.ops| + 1 == |r.answers| + 1 && Fresh(c, r.states[0])
    && forall i :: 0 <= i < |r.ops| ==>
                     && Shape(c, r.states[i]) && r.ops[i].b < c.n
                     && OpStep(c, r.states[i], r.ops[i], filled, r.states[i + 1], r.answers[i])
  }

  // What the operations mean for a plain disk.
  ghost function Plain(d: Disk, ops: seq<Op>): Disk {
    if ops == [] then d
    else
      var before := Plain(d, ops[..|ops| - 1]);
      var op := ops[|ops| - 1];
      if op.Get? then before else before[op.b := op.data]
  }

  lemma FreshIsGood(c: Config, t: Tiers)
    requires Fresh(c, t)
    ensures Good(c, t) && forall y :: 0 <= y < c.n ==> View(c, t, y) == Lookup(t.slow, y, c.bs)
  {
    hide HashBlockNr, Lookup;
    forall y | 0 <= y < c.n ensures View(c, t, y) == Lookup(t.slow, y, c.bs) {
      HashIsUsed(y);
    }
  }

  // One operation: the answer and the effect of the same operation on a plain disk.
  lemma OpIsPlain(c: Config, t: Tiers, op: Op, filled: bool, t': Tiers, answer: Block)
    requires Good(c, t) && op.b < c.n && OpStep(c, t, op, filled, t', answer)
    requires op.Get? ==> filled
    ensures Good(c, t') && (!op.Put? ==> answer == View(c, t, op.b))
    ensures forall y :: 0 <= y < c.n ==>
                          View(c, t', y) == if y == op.b && !op.Get? then op.data else View(c, t, y)
  {
    hide HashBlockNr, Lookup, BinOk, CleanOk, View, Hit, GetStep, PutStep, FilledStep;
    match op
    case Put(b, data) =>
      var now :| 0 <= now < MAX_AGE && PutStep(c, t, b, data, now, t');
      PutIsUpdate(c, t, b, data, now, t');
    case Update(b, data) =>
      var now, mid :| 0 <= now < MAX_AGE - 1 && Shape(c, mid)
                      && GetStep(c, t, b, now, mid, answer) && PutStep(c, mid, b, data, now + 1, t');
      GetAnswers(c, t, b, now, mid, answer);
      SameIndex(c, t, b, now, mid, answer);
      PutIsUpdate(c, mid, b, data, now + 1, t');
    case Get(b) =>
      var now :| 0 <= now < MAX_AGE && FilledStep(c, t, b, now, t', answer);
      FilledKeeps(c, t, b, now, t', answer);
  }

  // A descriptor is as old as the last call for its block; a read keeps its block as dirty as it was, and a
  // write makes it dirty.
  lemma LastUse(c: Config, t: Tiers, b: nat, now: nat, t': Tiers, x: Block)
    requires Shape(c, t) && b < c.n && (GetStep(c, t, b, now, t', x) || PutStep(c, t, b, x, now, t'))
    ensures var d, d' := t.bins[Index(t, b)][1], t'.bins[Index(t, b)][1];
            && d'.age == now && d'.hash == HashBlockNr(b)
            && (PutStep(c, t, b, x, now, t') ==> d'.dirty)
            && (GetStep(c, t, b, now, t', x) ==> (d'.dirty <==> d.hash == HashBlockNr(b) && d.dirty))
    ensures forall i :: 0 <= i < |t.bins| ==> t'.bins[i][0] == t.bins[i][0]
  {
    hide HashBlockNr, Lookup, IsPut;
  }

  lemma SameIndex(c: Config, t: Tiers, b: nat, now: nat, t': Tiers, answer: Block)
    requires Shape(c, t) && b < c.n && GetStep(c, t, b, now, t', answer)
    ensures 0 < |t'.bins| && Index(t', b) == Index(t, b)
  {
  }

  // Coherence: in every run from zeroed metadata, of writes and partial writes as the code does them,
  // and of reads too once the missing copy is added, the cache is indistinguishable from a plain disk
  // that starts as the slow store.
  lemma {:induction false} EveryRunIsPlain(c: Config, r: Run, filled: bool, k: nat)
    requires IsRun(c, r, filled) && k <= |r.ops|
    requires filled || forall i :: 0 <= i < |r.ops| ==> !r.ops[i].Get?
    ensures Good(c, r.states[k])
    ensures forall y :: 0 <= y < c.n ==> View(c, r.states[k], y) == Lookup(Plain(r.states[0].slow, r.ops[..k]), y, c.bs)
    ensures k < |r.ops| && !r.ops[k].Put? ==>
              r.answers[k] == Lookup(Plain(r.states[0].slow, r.ops[..k]), r.ops[k].b, c.bs)
  {
    hide HashBlockNr, BinOk, CleanOk, View, OpStep;
    if k == 0 {
      FreshIsGood(c, r.states[0]);
      assert Plain(r.states[0].slow, r.ops[..0]) == r.states[0].slow;
    } else {
      EveryRunIsPlain(c, r, filled, k - 1);
      OpIsPlain(c, r.states[k - 1], r.ops[k - 1], filled, r.states[k - 1 + 1], r.answers[k - 1]);
      assert r.ops[..k][..k - 1] == r.ops[..k - 1] && r.ops[..k][k - 1] == r.ops[k - 1];
    }
    if k < |r.ops| {
      OpIsPlain(c, r.states[k], r.ops[k], filled, r.states[k + 1], r.answers[k]);
    }
  }

  ghost function OneBin(d: Descriptor, b: nat, data: Block): Tiers {
    Tiers([[UNUSED, d]], map[], map[b := data])
  }

  lemma OnlyIndex(d: Descriptor, b: nat, data: Block)
    requires b < TWO64
    ensures Index(OneBin(d, b, data), b) == 0
  {
    hide HashBlockNr;
  }

  lemma FirstRead(c: Config, b: nat, data: Block, h: nat, now: nat)
    requires 0 < c.bs && b < c.n <= ZERO_HASHED && h == HashBlockNr(b) && now < MAX_AGE
    ensures OpStep(c, OneBin(UNUSED, b, data), Get(b), false, OneBin(Descriptor(h, b, now, false), b, data), data)
  {
    hide HashBlockNr, Index;
    HashIsUsed(b);
    OnlyIndex(UNUSED, b, data);
    assert GetStep(c, OneBin(UNUSED, b, data), b, now, OneBin(Descriptor(h, b, now, false), b, data), data);
  }

  lemma SecondRead(c: Config, b: nat, data: Block, h: nat, was: nat, now: nat)
    requires 0 < c.bs && b < c.n <= ZERO_HASHED && h == HashBlockNr(b) && now < MAX_AGE
    ensures OpStep(c, OneBin(Descriptor(h, b, was, false), b, data), Get(b), false,
                   OneBin(Descriptor(h, b, now, false), b, data), Zeros(c.bs))
  {
    hide HashBlockNr, Index, Zeros;
    var t, t' := OneBin(Descriptor(h, b, was, false), b, data), OneBin(Descriptor(h, b, now, false), b, data);
    OnlyIndex(t.bins[0][1], b, data);
    assert GetStep(c, t, b, now, t', Zeros(c.bs));
  }

  // As written, reading a block twice is enough, whichever block it is and whatever it holds: the first
  // read answers from the slow store, the second takes what the fast store held, zeros here.
  lemma StaleRead(bs: nat, b: nat, data: Block) returns (c: Config, r: Run)
    requires 0 < bs == |data| && b < ZERO_HASHED
    ensures c.bs == bs && IsRun(c, r, false) && r.ops == [Get(b), Get(b)]
    ensures Lookup(r.states[0].slow, b, bs) == data && r.answers == [data, Zeros(bs)]
  {
    hide HashBlockNr, OpStep;
    c := Config(bs, b + 1);
    FirstRead(c, b, data, HashBlockNr(b), 1);
    SecondRead(c, b, data, HashBlockNr(b), 1, 2);
    var t0, t1 := OneBin(UNUSED, b, data), OneBin(Descriptor(HashBlockNr(b), b, 1, false), b, data);
    r := Run([t0, t1, OneBin(Descriptor(HashBlockNr(b), b, 2, false), b, data)], [Get(b), Get(b)], [data, Zeros(bs)]);
  }
}
