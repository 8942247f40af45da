/**
  Copy-on-write snapshots (snapshots.cpp) as a state machine: any number of live
  snapshots, each with a background copier, and any number of writers.  A writer first
  saves every block of its range to every snapshot and then changes the source block by
  block.  Saving a block happens in two steps under the lock of the snapshot: the bit is
  set, then the block is copied; the copy may fail.
*/
module SnapshotSteps {
  import opened Flat
  import opened Strides

  // n blocks of bs bytes; with `sparse`, blocks of zeros are left out of snapshot files.
  datatype Config = Config(bs: nat, n: nat, sparse: bool)

  datatype Range = Range(off: nat, size: nat)

  datatype Owner = Background | Writer(t: nat)

  // The lock of a snapshot, held by `owner` while it copies `block`.
  datatype Copying = Nobody | Somebody(block: nat, owner: Owner)

  // `running`: the background loop was not broken off, by a failed copy or by the stop flag; `next`: block_working_on.
  // `orig` (the source when the snapshot was triggered) and `failed` (blocks whose copy failed) are
  // kept for the statements only.
  datatype Snap = Snap(marked: set<nat>, file: Disk, copying: Copying, next: nat, running: bool,
                       orig: Disk, failed: set<nat>)

  // Guarding: `k` blocks of the range are saved to snapshot number `snap`; `broken`: one was not, and
  // the rest of the range is skipped for this snapshot; `ok`: no block failed so far.
  datatype Phase =
    | Idle
    | Guarding(range: Range, snap: nat, k: nat, broken: bool, ok: bool)
    | Storing(range: Range)

  datatype State = State(src: Disk, snaps: seq<Snap>, writers: seq<Phase>)

  datatype Step =
    | Trigger
    | Begin(t: nat, range: Range)
    | Claim(i: nat, owner: Owner)
    | Copy(i: nat, ok: bool)
    | Stop(i: nat)
    | NextSnap(t: nat)
    | Guarded(t: nat)
    | Store(t: nat, block: nat, data: Block)
    | Finish(t: nat)

  function First(c: Config, r: Range): nat
    requires 0 < c.bs
  {
    r.off / c.bs
  }

  function Count(c: Config, r: Range): nat
    requires 0 < c.bs
  {
    StrideCount(r.size, c.bs)
  }

  ghost predicate InDevice(c: Config, r: Range) {
    r.off + r.size <= c.n * c.bs
  }

  ghost predicate Writable(c: Config, r: Range, b: nat)
    requires 0 < c.bs
  {
    Touched(r.off, r.size, c.bs, b)
  }

  // The block that the loop of `o` is to save to snapshot i next.
  ghost function Wanted(c: Config, s: State, i: nat, o: Owner): Option<nat>
    requires 0 < c.bs && i < |s.snaps|
  {
    match o
    case Background =>
      if s.snaps[i].running && s.snaps[i].next < c.n then Some(s.snaps[i].next) else None
    case Writer(t) =>
      if t < |s.writers| && s.writers[t].Guarding? && s.writers[t].snap == i
         && !s.writers[t].broken && s.writers[t].k < Count(c, s.writers[t].range)
      then Some(First(c, s.writers[t].range) + s.writers[t].k) else None
  }

  ghost predicate Enabled(c: Config, s: State, st: Step)
    requires 0 < c.bs
  {
    match st
    case Trigger => forall t :: 0 <= t < |s.writers| ==> s.writers[t].Idle?
    case Begin(t, r) => t < |s.writers| && s.writers[t].Idle? && InDevice(c, r)
    case Claim(i, o) => i < |s.snaps| && s.snaps[i].copying.Nobody? && Wanted(c, s, i, o).Some?
    case Copy(i, ok) => i < |s.snaps| && s.snaps[i].copying.Somebody?
    case Stop(i) => i < |s.snaps| && s.snaps[i].running
                    && (s.snaps[i].copying.Somebody? ==> s.snaps[i].copying.owner.Writer?)
    case NextSnap(t) => t < |s.writers| && s.writers[t].Guarding? && s.writers[t].snap < |s.snaps|
                        && (s.writers[t].broken || s.writers[t].k == Count(c, s.writers[t].range))
    case Guarded(t) => t < |s.writers| && s.writers[t].Guarding? && s.writers[t].snap == |s.snaps|
    case Store(t, b, data) => t < |s.writers| && s.writers[t].Storing? && Writable(c, s.writers[t].range, b)
                              && |data| == c.bs
    case Finish(t) => t < |s.writers| && s.writers[t].Storing?
  }

  function NewSnap(src: Disk): Snap {
    Snap({}, map[], Nobody, 0, true, src, {})
  }

  // The bit of a block is set, and the lock is held until it is copied.
  function Claimed(sn: Snap, b: nat, o: Owner): Snap {
    sn.(marked := sn.marked + {b}, copying := Somebody(b, o))
  }

  // The outcome of copying block b, whose content in the source is `blk`.
  function Copied(c: Config, sn: Snap, b: nat, blk: Block, ok: bool): Snap {
    if !ok then sn.(failed := sn.failed + {b}, copying := Nobody)
    else if c.sparse && blk == Zeros(c.bs) then sn.(copying := Nobody)
    else sn.(file := sn.file[b := blk], copying := Nobody)
  }

  // The loop of `o` after block b was dealt with in snapshot i.
  ghost function Advanced(s: State, i: nat, o: Owner, ok: bool): State
    requires i < |s.snaps|
  {
    match o
    case Background =>
      var sn := s.snaps[i];
      s.(snaps := s.snaps[i := if ok then sn.(next := sn.next + 1) else sn.(running := false)])
    case Writer(t) =>
      if t < |s.writers| && s.writers[t].Guarding? then
        var w := s.writers[t];
        s.(writers := s.writers[t := if ok then w.(k := w.k + 1) else w.(broken := true, ok := false)])
      else s
  }

  ghost function WithSnap(s: State, i: nat, sn: Snap): State
    requires i < |s.snaps|
  {
    s.(snaps := s.snaps[i := sn])
  }

  ghost function WithWriter(s: State, t: nat, w: Phase): State
    requires t < |s.writers|
  {
    s.(writers := s.writers[t := w])
  }

  ghost function Do(c: Config, s: State, st: Step): State
    requires 0 < c.bs && Enabled(c, s, st)
  {
    match st
    case Trigger => s.(snaps := s.snaps + [NewSnap(s.src)])
    case Begin(t, r) => WithWriter(s, t, Guarding(r, 0, 0, false, true))
    case Claim(i, o) =>
      var b := Wanted(c, s, i, o).value;
      if b in s.snaps[i].marked then Advanced(s, i, o, true) else WithSnap(s, i, Claimed(s.snaps[i], b, o))
    case Copy(i, ok) =>
      var b, o := s.snaps[i].copying.block, s.snaps[i].copying.owner;
      Advanced(WithSnap(s, i, Copied(c, s.snaps[i], b, Lookup(s.src, b, c.bs), ok)), i, o, ok)
    case Stop(i) => WithSnap(s, i, s.snaps[i].(running := false))
    case NextSnap(t) => WithWriter(s, t, s.writers[t].(snap := s.writers[t].snap + 1, k := 0, broken := false))
    case Guarded(t) => WithWriter(s, t, if s.writers[t].ok then Storing(s.writers[t].range) else Idle)
    case Store(t, b, data) => s.(src := s.src[b := data])
    case Finish(t) => WithWriter(s, t, Idle)
  }

  // --------------------------------------------------------------- invariant

  // Marked, and not being copied at this moment.
  predicate Kept(sn: Snap, b: nat) {
    b in sn.marked && !(sn.copying.Somebody? && sn.copying.block == b)
  }

  ghost predicate BlockOk(c: Config, sn: Snap, src: Disk, b: nat) {
    && (!Kept(sn, b) ==> b !in sn.failed && Lookup(sn.file, b, c.bs) == Zeros(c.bs)
                         && Lookup(src, b, c.bs) == Lookup(sn.orig, b, c.bs))
    && (b in sn.failed ==> Lookup(sn.file, b, c.bs) == Zeros(c.bs))
    && (Kept(sn, b) && b !in sn.failed ==> Lookup(sn.file, b, c.bs) == Lookup(sn.orig, b, c.bs))
    && (b in sn.file <==> Stored(c, sn, b))
  }

  // The blocks that take room in the file: those that were copied, without zeros when it is sparse.
  ghost predicate Stored(c: Config, sn: Snap, b: nat) {
    Kept(sn, b) && b !in sn.failed && !(c.sparse && Lookup(sn.orig, b, c.bs) == Zeros(c.bs))
  }

  ghost predicate SnapOk(c: Config, sn: Snap, src: Disk) {
    && (forall b :: 0 <= b < c.n ==> BlockOk(c, sn, src, b))
    && sn.next <= c.n
    && (forall b :: 0 <= b < sn.next ==> Kept(sn, b))
    && (sn.copying.Somebody? ==> sn.copying.block in sn.marked)
  }

  // Whoever holds the lock is at the block it copies.
  ghost predicate OwnerOk(c: Config, s: State, i: nat)
    requires 0 < c.bs && i < |s.snaps|
  {
    s.snaps[i].copying.Somebody? ==> Wanted(c, s, i, s.snaps[i].copying.owner) == Some(s.snaps[i].copying.block)
  }

  ghost predicate KeptUpTo(c: Config, sn: Snap, r: Range, k: nat)
    requires 0 < c.bs
  {
    forall b :: First(c, r) <= b < First(c, r) + k ==> Kept(sn, b)
  }

  ghost predicate WriterOk(c: Config, s: State, w: Phase)
    requires 0 < c.bs
  {
    match w
    case Idle => true
    case Guarding(r, snap, k, broken, ok) =>
      && InDevice(c, r) && snap <= |s.snaps| && k <= Count(c, r) && (snap == |s.snaps| ==> k == 0)
      && (ok ==> forall i :: 0 <= i < snap ==> KeptUpTo(c, s.snaps[i], r, Count(c, r)))
      && (broken ==> !ok)
      && (ok && snap < |s.snaps| ==> KeptUpTo(c, s.snaps[snap], r, k))
    case Storing(r) =>
      InDevice(c, r) && forall i :: 0 <= i < |s.snaps| ==> KeptUpTo(c, s.snaps[i], r, Count(c, r))
  }

  ghost predicate Inv(c: Config, s: State) {
    && 0 < c.bs
    && (forall i :: 0 <= i < |s.snaps| ==> SnapOk(c, s.snaps[i], s.src) && OwnerOk(c, s, i))
    && (forall t :: 0 <= t < |s.writers| ==> WriterOk(c, s, s.writers[t]))
  }

  // ------------------------------------------------------------- each step

  // What a step may do to a snapshot without disturbing any writer: a kept block stays kept.
  ghost predicate StillKept(sn: Snap, sn': Snap) {
    forall b :: Kept(sn, b) ==> Kept(sn', b)
  }

  lemma WriterStays(c: Config, s: State, s': State, w: Phase)
    requires 0 < c.bs && WriterOk(c, s, w) && |s'.snaps| == |s.snaps|
    requires forall i :: 0 <= i < |s.snaps| ==> StillKept(s.snaps[i], s'.snaps[i])
    ensures WriterOk(c, s', w)
  {
    hide Kept, First, Count, InDevice;
    assert forall i, r, k :: 0 <= i < |s.snaps| && KeptUpTo(c, s.snaps[i], r, k) ==> KeptUpTo(c, s'.snaps[i], r, k);
  }

  lemma WantedInDevice(c: Config, s: State, i: nat, o: Owner)
    requires Inv(c, s) && i < |s.snaps| && Wanted(c, s, i, o).Some?
    ensures Wanted(c, s, i, o).value < c.n
  {
    hide SnapOk, OwnerOk, KeptUpTo;
    if o.Writer? {
      assert WriterOk(c, s, s.writers[o.t]);
      GuardInDevice(c, s.writers[o.t].range, s.writers[o.t].k);
    }
  }

  lemma GuardInDevice(c: Config, r: Range, k: nat)
    requires 0 < c.bs && InDevice(c, r) && k < Count(c, r)
    ensures First(c, r) + k < c.n
  {
    var b := First(c, r) + k;
    hide Touched;
    InVisited(r.off, r.size, c.bs);
    VisitedIsTouched(r.off, r.size, c.bs, b);
    TouchedInDevice(c, r, b);
  }

  lemma TouchedInDevice(c: Config, r: Range, b: nat)
    requires 0 < c.bs && InDevice(c, r) && Touched(r.off, r.size, c.bs, b)
    ensures b < c.n
  {
    var i :| r.off <= i < r.off + r.size && i / c.bs == b;
    DivAtLeast(i, c.n, c.bs);
  }

  lemma NewSnapOk(c: Config, src: Disk)
    ensures SnapOk(c, NewSnap(src), src)
  {
  }

  lemma TriggerKeeps(c: Config, s: State)
    requires Inv(c, s) && Enabled(c, s, Trigger)
    ensures Inv(c, Do(c, s, Trigger))
  {
    NewSnapOk(c, s.src);
    hide SnapOk;
  }

  lemma ClaimedOk(c: Config, sn: Snap, src: Disk, b: nat, o: Owner)
    requires SnapOk(c, sn, src) && sn.copying.Nobody? && b !in sn.marked
    ensures SnapOk(c, Claimed(sn, b, o), src) && StillKept(sn, Claimed(sn, b, o))
  {
    var sn' := Claimed(sn, b, o);
    hide Lookup;
    forall x ensures Kept(sn', x) == Kept(sn, x) { }
    forall x | 0 <= x < c.n ensures BlockOk(c, sn', src, x) {
      assert BlockOk(c, sn, src, x);
    }
  }

  lemma CopiedOk(c: Config, sn: Snap, src: Disk, ok: bool)
    requires SnapOk(c, sn, src) && sn.copying.Somebody?
    ensures var b := sn.copying.block; var sn' := Copied(c, sn, b, Lookup(src, b, c.bs), ok);
            SnapOk(c, sn', src) && StillKept(sn, sn') && Kept(sn', b)
  {
    var b := sn.copying.block;
    var sn' := Copied(c, sn, b, Lookup(src, b, c.bs), ok);
    forall x ensures Kept(sn', x) == (Kept(sn, x) || x == b) { }
    forall x | 0 <= x < c.n ensures BlockOk(c, sn', src, x) {
      assert BlockOk(c, sn, src, x);
    }
  }

  lemma NextMoves(c: Config, sn: Snap, sn': Snap, src: Disk)
    requires SnapOk(c, sn, src) && sn.copying.Nobody? && sn.next < c.n && Kept(sn, sn.next)
    requires sn' == sn.(next := sn.next + 1)
    ensures SnapOk(c, sn', src) && StillKept(sn, sn')
  {
    hide Lookup;
    forall x ensures Kept(sn', x) == Kept(sn, x) { }
    forall x | 0 <= x < c.n ensures BlockOk(c, sn', src, x) {
      assert BlockOk(c, sn, src, x);
    }
  }

  lemma BreaksOff(c: Config, sn: Snap, src: Disk)
    requires SnapOk(c, sn, src)
    ensures SnapOk(c, sn.(running := false), src) && StillKept(sn, sn.(running := false))
  {
    hide Lookup;
    var sn' := sn.(running := false);
    forall x ensures Kept(sn', x) == Kept(sn, x) { }
    forall x | 0 <= x < c.n ensures BlockOk(c, sn', src, x) {
      assert BlockOk(c, sn, src, x);
    }
  }

  // Moving on past a kept block.
  lemma AdvanceKeeps(c: Config, s: State, i: nat, o: Owner, ok: bool)
    requires Inv(c, s) && i < |s.snaps| && s.snaps[i].copying.Nobody?
    requires Wanted(c, s, i, o).Some? && Kept(s.snaps[i], Wanted(c, s, i, o).value)
    ensures Inv(c, Advanced(s, i, o, ok))
  {
    var s' := Advanced(s, i, o, ok);
    var b := Wanted(c, s, i, o).value;
    WantedInDevice(c, s, i, o);
    hide First, Count, InDevice, SnapOk;
    forall j | 0 <= j < |s'.snaps| ensures SnapOk(c, s'.snaps[j], s'.src) && OwnerOk(c, s', j) {
      assert SnapOk(c, s.snaps[j], s.src) && OwnerOk(c, s, j);
      if j == i && o.Background? {
        if ok { NextMoves(c, s.snaps[i], s'.snaps[i], s.src); } else { BreaksOff(c, s.snaps[i], s.src); }
      }
    }
    forall t | 0 <= t < |s'.writers| ensures WriterOk(c, s', s'.writers[t]) {
      WriterStays(c, s, s', s.writers[t]);
    }
  }

  // A step that changes one snapshot and lets its writers and its owner be.
  lemma SnapReplaced(c: Config, s: State, i: nat, sn': Snap)
    requires Inv(c, s) && i < |s.snaps|
    requires SnapOk(c, sn', s.src) && StillKept(s.snaps[i], sn')
    requires OwnerOk(c, WithSnap(s, i, sn'), i)
    ensures Inv(c, WithSnap(s, i, sn'))
  {
    var s' := WithSnap(s, i, sn');
    hide First, Count, SnapOk, KeptUpTo, Kept;
    forall j | 0 <= j < |s'.snaps| ensures SnapOk(c, s'.snaps[j], s'.src) && OwnerOk(c, s', j) {
      assert SnapOk(c, s.snaps[j], s.src) && OwnerOk(c, s, j);
    }
    forall t | 0 <= t < |s'.writers| ensures WriterOk(c, s', s'.writers[t]) {
      WriterStays(c, s, s', s.writers[t]);
    }
  }

  lemma StopKeeps(c: Config, s: State, i: nat)
    requires Inv(c, s) && Enabled(c, s, Stop(i))
    ensures Inv(c, Do(c, s, Stop(i)))
  {
    hide First, Count, SnapOk, WriterOk, StillKept;
    BreaksOff(c, s.snaps[i], s.src);
    SnapReplaced(c, s, i, s.snaps[i].(running := false));
  }

  lemma ClaimKeeps(c: Config, s: State, i: nat, o: Owner)
    requires Inv(c, s) && Enabled(c, s, Claim(i, o))
    ensures Inv(c, Do(c, s, Claim(i, o)))
  {
    hide First, Count, SnapOk, WriterOk, StillKept;
    var b := Wanted(c, s, i, o).value;
    if b in s.snaps[i].marked {
      AdvanceKeeps(c, s, i, o, true);
    } else {
      ClaimedOk(c, s.snaps[i], s.src, b, o);
      SnapReplaced(c, s, i, Claimed(s.snaps[i], b, o));
    }
  }

  lemma CopyKeeps(c: Config, s: State, i: nat, ok: bool)
    requires Inv(c, s) && Enabled(c, s, Copy(i, ok))
    ensures Inv(c, Do(c, s, Copy(i, ok)))
  {
    hide First, Count, SnapOk, WriterOk, StillKept, Kept;
    var b, o := s.snaps[i].copying.block, s.snaps[i].copying.owner;
    CopiedOk(c, s.snaps[i], s.src, ok);
    var sn' := Copied(c, s.snaps[i], b, Lookup(s.src, b, c.bs), ok);
    SnapReplaced(c, s, i, sn');
    AdvanceKeeps(c, WithSnap(s, i, sn'), i, o, ok);
  }

  // A block that every snapshot keeps may change in the source.
  lemma StoreOk(c: Config, sn: Snap, src: Disk, b: nat, data: Block)
    requires SnapOk(c, sn, src) && Kept(sn, b)
    ensures SnapOk(c, sn, src[b := data])
  {
    hide Kept;
    var src' := src[b := data];
    forall x | 0 <= x < c.n ensures BlockOk(c, sn, src', x) {
      assert BlockOk(c, sn, src, x);
    }
  }

  // A range that the strides cover is written only where it is guarded.
  lemma WritableIsGuarded(c: Config, r: Range, b: nat)
    requires 0 < c.bs && Covered(r.off, r.size, c.bs) && Writable(c, r, b)
    ensures First(c, r) <= b < First(c, r) + Count(c, r)
  {
    hide Touched;
    InVisited(r.off, r.size, c.bs);
  }

  lemma StoreKeeps(c: Config, s: State, t: nat, b: nat, data: Block)
    requires Inv(c, s) && Enabled(c, s, Store(t, b, data))
    requires Covered(s.writers[t].range.off, s.writers[t].range.size, c.bs)
    ensures Inv(c, Do(c, s, Store(t, b, data)))
  {
    WritableIsGuarded(c, s.writers[t].range, b);
    hide First, Count, SnapOk, Kept, Writable, Covered;
    var s' := Do(c, s, Store(t, b, data));
    assert WriterOk(c, s, s.writers[t]);
    forall i | 0 <= i < |s'.snaps| ensures SnapOk(c, s'.snaps[i], s'.src) && OwnerOk(c, s', i) {
      assert SnapOk(c, s.snaps[i], s.src) && OwnerOk(c, s, i);
      assert KeptUpTo(c, s.snaps[i], s.writers[t].range, Count(c, s.writers[t].range));
      StoreOk(c, s.snaps[i], s.src, b, data);
    }
    forall u | 0 <= u < |s'.writers| ensures WriterOk(c, s', s'.writers[u]) {
      WriterStays(c, s, s', s.writers[u]);
    }
  }

  // Steps of a writer that holds no lock.
  lemma WriterMoves(c: Config, s: State, t: nat, w: Phase)
    requires Inv(c, s) && t < |s.writers| && WriterOk(c, s, w)
    requires forall i :: 0 <= i < |s.snaps| && s.snaps[i].copying.Somebody? ==> s.snaps[i].copying.owner != Writer(t)
    ensures Inv(c, WithWriter(s, t, w))
  {
    hide First, Count, SnapOk, Kept, KeptUpTo, InDevice;
    var s' := WithWriter(s, t, w);
    forall i | 0 <= i < |s'.snaps| ensures SnapOk(c, s'.snaps[i], s'.src) && OwnerOk(c, s', i) {
      assert SnapOk(c, s.snaps[i], s.src) && OwnerOk(c, s, i);
    }
    forall u | 0 <= u < |s'.writers| ensures WriterOk(c, s', s'.writers[u]) {
      if u != t { assert WriterOk(c, s, s.writers[u]); }
    }
  }

  lemma NotCopying(c: Config, s: State, t: nat)
    requires Inv(c, s) && t < |s.writers|
    requires s.writers[t].Guarding? ==> s.writers[t].k == Count(c, s.writers[t].range)
                                        || s.writers[t].snap == |s.snaps| || s.writers[t].broken
    ensures forall i :: 0 <= i < |s.snaps| && s.snaps[i].copying.Somebody? ==> s.snaps[i].copying.owner != Writer(t)
  {
    hide SnapOk, WriterOk, First, Count;
    forall i | 0 <= i < |s.snaps| && s.snaps[i].copying.Somebody?
      ensures s.snaps[i].copying.owner != Writer(t)
    {
      assert OwnerOk(c, s, i);
    }
  }

  lemma WriterStepKeeps(c: Config, s: State, st: Step)
    requires Inv(c, s) && Enabled(c, s, st) && (st.Begin? || st.NextSnap? || st.Guarded? || st.Finish?)
    ensures Inv(c, Do(c, s, st))
  {
    hide First, SnapOk, OwnerOk, Kept, InDevice;
    assert WriterOk(c, s, s.writers[st.t]);
    NotCopying(c, s, st.t);
    WriterMoves(c, s, st.t, Do(c, s, st).writers[st.t]);
  }

  // The side condition under which byte ranges are safe, as a condition on one step.
  ghost predicate Safe(c: Config, st: Step)
    requires 0 < c.bs
  {
    st.Begin? ==> Covered(st.range.off, st.range.size, c.bs)
  }

  ghost predicate WriterSafe(c: Config, w: Phase)
    requires 0 < c.bs
  {
    !w.Idle? ==> Covered(w.range.off, w.range.size, c.bs)
  }

  ghost predicate AllSafe(c: Config, s: State)
    requires 0 < c.bs
  {
    forall t :: 0 <= t < |s.writers| ==> WriterSafe(c, s.writers[t])
  }

  lemma StepKeeps(c: Config, s: State, st: Step)
    requires Inv(c, s) && Enabled(c, s, st) && AllSafe(c, s)
    ensures Inv(c, Do(c, s, st))
  {
    hide Inv, Enabled, Do, Covered;
    match st
    case Trigger => TriggerKeeps(c, s);
    case Claim(i, o) => ClaimKeeps(c, s, i, o);
    case Copy(i, ok) => CopyKeeps(c, s, i, ok);
    case Stop(i) => StopKeeps(c, s, i);
    case Store(t, b, data) => StoreStepKeeps(c, s, st);
    case _ => WriterStepKeeps(c, s, st);
  }

  lemma StoreStepKeeps(c: Config, s: State, st: Step)
    requires Inv(c, s) && Enabled(c, s, st) && AllSafe(c, s) && st.Store?
    ensures Inv(c, Do(c, s, st))
  {
    hide Covered, SnapOk, OwnerOk, WriterOk;
    assert WriterSafe(c, s.writers[st.t]);
    StoreKeeps(c, s, st.t, st.block, st.data);
  }

  lemma StepStaysSafe(c: Config, s: State, st: Step)
    requires 0 < c.bs && Enabled(c, s, st) && AllSafe(c, s) && Safe(c, st)
    ensures AllSafe(c, Do(c, s, st))
  {
    hide Covered, First, Count, InDevice, Writable;
  }

  // ----------------------------------------------------------------- all runs

  ghost predicate Init(s: State) {
    s.snaps == [] && forall t :: 0 <= t < |s.writers| ==> s.writers[t].Idle?
  }

  ghost predicate Stepped(c: Config, s: State, st: Step, s': State)
    requires 0 < c.bs
  {
    Enabled(c, s, st) && s' == Do(c, s, st)
  }

  ghost predicate IsRun(c: Config, ss: seq<State>, steps: seq<Step>) {
    && 0 < c.bs && |ss| == |steps| + 1 && Init(ss[0])
    && forall i :: 0 <= i < |steps| ==> Stepped(c, ss[i], steps[i], ss[i + 1])
  }

  ghost predicate SafeSteps(c: Config, steps: seq<Step>)
    requires 0 < c.bs
  {
    forall i :: 0 <= i < |steps| ==> Safe(c, steps[i])
  }

  lemma {:induction false} EveryRunKeeps(c: Config, ss: seq<State>, steps: seq<Step>, i: nat)
    requires IsRun(c, ss, steps) && SafeSteps(c, steps) && i < |ss|
    ensures Inv(c, ss[i]) && AllSafe(c, ss[i])
  {
    hide Covered, Enabled, Do, Safe;
    if i > 0 {
      EveryRunKeeps(c, ss, steps, i - 1);
      hide Inv, AllSafe;
      assert Stepped(c, ss[i - 1], steps[i - 1], ss[i - 1 + 1]) && Safe(c, steps[i - 1]);
      StepKeeps(c, ss[i - 1], steps[i - 1]);
      StepStaysSafe(c, ss[i - 1], steps[i - 1]);
    }
  }

  // The recorded origin of a snapshot is never touched again, and snapshots do not go away.
  lemma {:induction false} OriginStays(c: Config, ss: seq<State>, steps: seq<Step>, i: nat, k: nat, j: nat)
    requires IsRun(c, ss, steps) && k <= j < |ss| && i < |ss[k].snaps|
    ensures i < |ss[j].snaps| && ss[j].snaps[i].orig == ss[k].snaps[i].orig
    decreases j - k
  {
    hide First, Count, InDevice, Writable, Lookup;
    if k < j {
      OriginStays(c, ss, steps, i, k, j - 1);
      assert Stepped(c, ss[j - 1], steps[j - 1], ss[j - 1 + 1]);
    }
  }

  // All blocks went through the background loop.
  ghost predicate Complete(c: Config, sn: Snap) {
    sn.next == c.n
  }

  ghost predicate SameContent(c: Config, d: Disk, e: Disk) {
    forall b :: 0 <= b < c.n ==> Lookup(d, b, c.bs) == Lookup(e, b, c.bs)
  }

  // The background loop has ended, with all blocks or without: copy_finished is set.
  ghost predicate Finished(c: Config, sn: Snap) {
    !sn.running || Complete(c, sn)
  }

  // The file has no copy of the block: it failed, or it was not made yet.
  ghost predicate Missing(sn: Snap, b: nat) {
    b in sn.failed || !Kept(sn, b)
  }

  ghost predicate MissingWereZero(c: Config, sn: Snap, d: Disk) {
    forall b: nat :: b < c.n && Missing(sn, b) ==> Lookup(d, b, c.bs) == Zeros(c.bs)
  }

  // A sparse file has room for exactly the copied blocks that are not zero, any other for all copied ones.
  ghost predicate TakesRoom(c: Config, sn: Snap, d: Disk) {
    forall b: nat :: b < c.n ==>
                       (b in sn.file <==> !Missing(sn, b) && !(c.sparse && Lookup(d, b, c.bs) == Zeros(c.bs)))
  }

  // The file of a snapshot, at any moment, is its origin exactly when the blocks it has no copy of were
  // zero anyway.
  lemma FileIsOrigin(c: Config, sn: Snap, src: Disk)
    requires SnapOk(c, sn, src)
    ensures SameContent(c, sn.file, sn.orig) <==> MissingWereZero(c, sn, sn.orig)
    ensures Complete(c, sn) ==> forall b: nat :: b < c.n ==> (Missing(sn, b) <==> b in sn.failed)
    ensures TakesRoom(c, sn, sn.orig)
  {
    hide Lookup, Kept;
    forall b: nat | b < c.n
      ensures Lookup(sn.file, b, c.bs) == if Missing(sn, b) then Zeros(c.bs) else Lookup(sn.orig, b, c.bs)
      ensures b in sn.file <==> !Missing(sn, b) && !(c.sparse && Lookup(sn.orig, b, c.bs) == Zeros(c.bs))
    {
      assert BlockOk(c, sn, src, b);
    }
  }

  // Isolation: in every run whose byte ranges are covered, whatever the interleaving of writers,
  // copiers and further snapshots, the file of a snapshot holds the source as it was at the moment the
  // snapshot was triggered, exactly when the blocks missing from it were zero then; and once the copier
  // saw all blocks only those whose copy failed are missing.
  lemma Isolation(c: Config, ss: seq<State>, steps: seq<Step>, k: nat, j: nat)
    requires IsRun(c, ss, steps) && SafeSteps(c, steps) && k < j < |ss| && steps[k].Trigger?
    ensures |ss[k].snaps| < |ss[j].snaps|
    ensures var sn := ss[j].snaps[|ss[k].snaps|];
            && (SameContent(c, sn.file, ss[k].src) <==> MissingWereZero(c, sn, ss[k].src))
            && (Complete(c, sn) ==> forall b: nat :: b < c.n ==> (Missing(sn, b) <==> b in sn.failed))
            && TakesRoom(c, sn, ss[k].src)
  {
    hide SnapOk, Complete, SameContent, Lookup, OwnerOk, WriterOk, AllSafe, Missing, MissingWereZero, TakesRoom;
    var i := |ss[k].snaps|;
    assert Stepped(c, ss[k], steps[k], ss[k + 1]);
    OriginStays(c, ss, steps, i, k + 1, j);
    EveryRunKeeps(c, ss, steps, j);
    var sn := ss[j].snaps[i];
    assert SnapOk(c, sn, ss[j].src);
    FileIsOrigin(c, sn, ss[j].src);
  }

  // ------------------------------------------------- what the conditions are for

  function Last<T>(s: seq<T>): T
    requires 0 < |s|
  {
    s[|s| - 1]
  }

  datatype Run = Run(states: seq<State>, steps: seq<Step>)

  ghost predicate ValidRun(c: Config, r: Run): (valid: bool)
    ensures valid ==> |r.states| > 0
  {
    IsRun(c, r.states, r.steps)
  }

  lemma StepAppended(c: Config, r: Run, st: Step, r': Run)
    requires ValidRun(c, r) && Enabled(c, Last(r.states), st)
    requires r' == Run(r.states + [Do(c, Last(r.states), st)], r.steps + [st])
    ensures ValidRun(c, r')
  {
    forall i | 0 <= i < |r'.steps| ensures Stepped(c, r'.states[i], r'.steps[i], r'.states[i + 1]) {
      if i < |r.steps| { assert Stepped(c, r.states[i], r.steps[i], r.states[i + 1]); }
    }
  }

  ghost function Extended(c: Config, r: Run, st: Step): (r': Run)
    requires ValidRun(c, r) && Enabled(c, Last(r.states), st)
    ensures ValidRun(c, r') && Last(r'.states) == Do(c, Last(r.states), st)
    ensures r.states <= r'.states && r'.steps == r.steps + [st]
  {
    var r' := Run(r.states + [Do(c, Last(r.states), st)], r.steps + [st]);
    assert IsRun(c, r'.states, r'.steps) by { StepAppended(c, r, st, r'); }
    r'
  }

  // The one snapshot of the run below, with nothing but zeros copied so far.
  ghost predicate Blank(c: Config, sn: Snap) {
    && sn.copying == Nobody && sn.running && sn.failed == {} && sn.next <= c.n
    && forall b :: Lookup(sn.file, b, c.bs) == Zeros(c.bs)
  }

  // Set the bit of block b and copy it, successfully.
  ghost function Saved(c: Config, r: Run, o: Owner): (r': Run)
    requires ValidRun(c, r) && |Last(r.states).snaps| == 1 && Last(r.states).snaps[0].copying.Nobody?
    requires Wanted(c, Last(r.states), 0, o).Some?
    ensures ValidRun(c, r') && r.states <= r'.states && r.steps <= r'.steps
    ensures var s := Last(r.states); var b := Wanted(c, s, 0, o).value; var sn := s.snaps[0];
            Last(r'.states) ==
            Advanced(if b in sn.marked then s
                     else WithSnap(s, 0, Copied(c, Claimed(sn, b, o), b, Lookup(s.src, b, c.bs), true)), 0, o, true)
  {
    hide First, Count, IsRun;
    var s := Last(r.states);
    var b := Wanted(c, s, 0, o).value;
    var r1 := Extended(c, r, Claim(0, o));
    if b in s.snaps[0].marked then r1 else Extended(c, r1, Copy(0, true))
  }

  lemma BlankStays(c: Config, sn: Snap, b: nat, o: Owner)
    requires Blank(c, sn)
    ensures var sn' := Copied(c, Claimed(sn, b, o), b, Zeros(c.bs), true);
            Blank(c, sn') && sn'.copying == Nobody && sn'.next == sn.next && sn'.marked == sn.marked + {b}
  {
    hide Zeros;
    var sn' := Copied(c, Claimed(sn, b, o), b, Zeros(c.bs), true);
    forall x ensures Lookup(sn'.file, x, c.bs) == Zeros(c.bs) {
      assert Lookup(sn.file, x, c.bs) == Zeros(c.bs);
    }
  }

  // A writer that starts on a device right after the trigger.
  lemma TriggerAndBegin(c: Config, range: Range, src: Disk) returns (r: Run)
    requires 0 < c.bs && InDevice(c, range)
    ensures ValidRun(c, r) && r.steps == [Trigger, Begin(0, range)] && |r.states| > 0
    ensures r.states[0] == State(src, [], [Idle])
    ensures Last(r.states) == State(src, [NewSnap(src)], [Guarding(range, 0, 0, false, true)])
  {
    hide First, Count, InDevice, IsRun;
    var s0 := State(src, [], [Idle]);
    EmptyRun(c, s0);
    r := Run([s0], []);
    r := Extended(c, r, Trigger);
    assert Last(r.states) == State(src, [NewSnap(src)], [Idle]);
    r := Extended(c, r, Begin(0, range));
  }

  // The writer is done with the one snapshot: it may store, or it is refused.
  lemma EndGuard(c: Config, r0: Run, range: Range, k: nat, broken: bool) returns (r: Run)
    requires ValidRun(c, r0) && |Last(r0.states).snaps| == 1
    requires Last(r0.states).writers == [Guarding(range, 0, k, broken, !broken)]
    requires broken || k == Count(c, range)
    ensures ValidRun(c, r) && r0.states <= r.states && r.steps == r0.steps + [NextSnap(0), Guarded(0)]
    ensures Last(r.states) == Last(r0.states).(writers := [if broken then Idle else Storing(range)])
  {
    hide First, Count, IsRun;
    r := Extended(c, r0, NextSnap(0));
    assert Last(r.states).writers == [Guarding(range, 1, 0, false, !broken)];
    r := Extended(c, r, Guarded(0));
  }

  // The whole guarding of a range, without failures, on an empty device.
  lemma GuardAll(c: Config, range: Range) returns (r: Run, sn: Snap)
    requires 0 < c.bs && InDevice(c, range)
    ensures ValidRun(c, r) && |r.steps| > 0 && r.steps[0].Trigger?
    ensures r.states[0].src == map[] && |r.states[0].snaps| == 0
    ensures Last(r.states) == State(map[], [sn], [Storing(range)]) && Blank(c, sn) && sn.next == 0
    ensures forall b :: b in sn.marked <==> First(c, range) <= b < First(c, range) + Count(c, range)
  {
    hide First, Count, Zeros, IsRun, InDevice, Blank, Copied;
    r := TriggerAndBegin(c, range, map[]);
    sn := NewSnap(map[]);
    NewIsBlank(c);
    for k := 0 to Count(c, range)
      invariant ValidRun(c, r) && |r.steps| > 0 && r.steps[0] == Trigger
      invariant r.states[0] == State(map[], [], [Idle])
      invariant Last(r.states) == State(map[], [sn], [Guarding(range, 0, k, false, true)])
      invariant Blank(c, sn) && sn.copying == Nobody && sn.next == 0
      invariant forall b :: b in sn.marked <==> First(c, range) <= b < First(c, range) + k
    {
      var b := First(c, range) + k;
      BlankStays(c, sn, b, Writer(0));
      r := Saved(c, r, Writer(0));
      sn := Copied(c, Claimed(sn, b, Writer(0)), b, Zeros(c.bs), true);
    }
    r := EndGuard(c, r, range, Count(c, range), false);
  }

  lemma NewIsBlank(c: Config)
    ensures Blank(c, NewSnap(map[])) && NewSnap(map[]).next == 0 && NewSnap(map[]).marked == {}
  {
  }

  // The background copier, up to block x, when the content of block `lost` has changed.
  lemma {:induction false} CopiedUpTo(c: Config, r0: Run, sn0: Snap, src: Disk, w: Phase, lost: nat, x: nat)
    returns (r: Run, sn: Snap)
    requires ValidRun(c, r0) && x <= c.n && Last(r0.states) == State(src, [sn0], [w])
    requires sn0.copying == Nobody && sn0.running && sn0.failed == {} && sn0.next == 0 && lost !in sn0.marked
    requires Lookup(src, lost, c.bs) != Zeros(c.bs)
    ensures ValidRun(c, r) && r0.states <= r.states && r0.steps <= r.steps && Last(r.states) == State(src, [sn], [w])
    ensures sn.copying == Nobody && sn.running && sn.failed == {} && sn.next == x
    ensures if lost < x then Lookup(sn.file, lost, c.bs) == Lookup(src, lost, c.bs) else lost !in sn.marked
  {
    hide IsRun, Lookup;
    if x == 0 { return r0, sn0; }
    r, sn := CopiedUpTo(c, r0, sn0, src, w, lost, x - 1);
    var b := x - 1;
    CopiedBlock(c, sn, b, lost, src);
    r := Saved(c, r, Background);
    sn := (if b in sn.marked then sn
           else Copied(c, Claimed(sn, b, Background), b, Lookup(src, b, c.bs), true)).(next := x);
  }

  lemma CopiedBlock(c: Config, sn: Snap, b: nat, lost: nat, src: Disk)
    requires sn.copying == Nobody && Lookup(src, lost, c.bs) != Zeros(c.bs)
    ensures var sn' := Copied(c, Claimed(sn, b, Background), b, Lookup(src, b, c.bs), true);
            && sn'.copying == Nobody && sn'.running == sn.running && sn'.failed == sn.failed && sn'.next == sn.next
            && sn'.marked == sn.marked + {b}
            && (b == lost ==> Lookup(sn'.file, lost, c.bs) == Lookup(src, lost, c.bs))
            && (b != lost ==> Lookup(sn'.file, lost, c.bs) == Lookup(sn.file, lost, c.bs))
  {
  }

  // A range that the strides do not cover: for every such range there is a run, without a single
  // failure, that completes a snapshot which is not the source at its trigger.
  lemma UncoveredRangeLeaks(c: Config, range: Range) returns (r: Run)
    requires 0 < c.bs && InDevice(c, range) && !Covered(range.off, range.size, c.bs)
    ensures ValidRun(c, r) && |r.steps| > 0 && r.steps[0].Trigger? && |r.states[0].snaps| == 0
    ensures |Last(r.states).snaps| == 1
    ensures var sn := Last(r.states).snaps[0];
            Complete(c, sn) && sn.failed == {} && !SameContent(c, sn.file, r.states[0].src)
  {
    var lost: nat :| Touched(range.off, range.size, c.bs, lost) && lost !in Visited(range.off, range.size, c.bs);
    TouchedInDevice(c, range, lost);
    NotGuarded(c, range, lost);
    hide First, Count, InDevice, Touched, Covered, IsRun, Blank;
    var guarded, sn0 := GuardAll(c, range);
    BlankMeans(c, sn0);
    var ones: Block := seq(c.bs, _ => 1);
    assert ones[0] != Zeros(c.bs)[0];
    var stored := Extended(c, guarded, Store(0, lost, ones));
    assert Last(stored.states) == State(map[lost := ones], [sn0], [Storing(range)]);
    var sn: Snap;
    r, sn := CopiedUpTo(c, stored, sn0, map[lost := ones], Storing(range), lost, c.n);
  }

  lemma BlankMeans(c: Config, sn: Snap)
    requires Blank(c, sn)
    ensures sn.copying == Nobody && sn.running && sn.failed == {}
  {
  }

  lemma NotGuarded(c: Config, r: Range, b: nat)
    requires 0 < c.bs && b !in Visited(r.off, r.size, c.bs)
    ensures !(First(c, r) <= b < First(c, r) + Count(c, r))
  {
    InVisited(r.off, r.size, c.bs);
  }

  // The bit is set before the copy: after one failed copy the writer is refused, but the block counts
  // as saved from then on, and the snapshot completes without it.  For every block size and content.
  lemma FailedCopyIsLost(c: Config, data: Block) returns (r: Run)
    requires 0 < c.bs == |data| && c.n == 1 && data != Zeros(c.bs)
    ensures ValidRun(c, r) && SafeSteps(c, r.steps)
    ensures |r.steps| > 0 && r.steps[0].Trigger? && r.states[0].src == map[0 := data]
    ensures |Last(r.states).snaps| == 1 && Last(r.states).writers == [Idle]
    ensures var sn := Last(r.states).snaps[0]; Complete(c, sn) && !SameContent(c, sn.file, map[0 := data])
  {
    r := RefusedWriter(c, data);
    hide First, Count, Covered, Touched, IsRun;
    r := Extended(c, r, Claim(0, Background));
    var file := Last(r.states).snaps[0].file;
    assert Lookup(file, 0, c.bs) == Zeros(c.bs) && Lookup(map[0 := data], 0, c.bs) == data;
  }

  lemma RefusedWriter(c: Config, data: Block) returns (r: Run)
    requires 0 < c.bs == |data| && c.n == 1
    ensures ValidRun(c, r) && SafeSteps(c, r.steps)
    ensures |r.steps| > 0 && r.steps[0].Trigger? && r.states[0].src == map[0 := data]
    ensures Last(r.states) ==
            State(map[0 := data], [Snap({0}, map[], Nobody, 0, true, map[0 := data], {0})], [Idle])
  {
    var range := Range(0, c.bs);
    OneVisited(0, c.bs);
    assert First(c, range) == 0 && Count(c, range) == |Visited(0, c.bs, c.bs)|;
    AlignedIsCovered(0, c.bs, c.bs);
    r := TriggerAndBegin(c, range, map[0 := data]);
    hide First, Count, Covered, Touched, IsRun, InDevice, Visited, StrideCount;
    r := FailOnce(c, r, range, data);
    r := EndGuard(c, r, range, 0, true);
  }

  lemma FailOnce(c: Config, r0: Run, range: Range, data: Block) returns (r: Run)
    requires ValidRun(c, r0) && First(c, range) == 0 && Count(c, range) == 1
    requires Last(r0.states) == State(map[0 := data], [NewSnap(map[0 := data])], [Guarding(range, 0, 0, false, true)])
    ensures ValidRun(c, r) && r0.states <= r.states && r.steps == r0.steps + [Claim(0, Writer(0)), Copy(0, false)]
    ensures Last(r.states) == State(map[0 := data], [Snap({0}, map[], Nobody, 0, true, map[0 := data], {0})],
                                    [Guarding(range, 0, 0, true, false)])
  {
    hide First, Count, IsRun;
    r := Extended(c, r0, Claim(0, Writer(0)));
    assert {} + {0 as nat} == {0};
    assert Last(r.states) == State(map[0 := data], [Claimed(NewSnap(map[0 := data]), 0, Writer(0))],
                                   [Guarding(range, 0, 0, false, true)]);
    r := Extended(c, r, Copy(0, false));
  }

  // One failed copy by the copier itself: it breaks off and the snapshot is finished, with a file that is
  // wrong for every source that is not all zeros.
  lemma BrokenOffIsWrong(c: Config, src: Disk, b: nat) returns (r: Run)
    requires 0 < c.bs && b < c.n && Lookup(src, b, c.bs) != Zeros(c.bs)
    ensures ValidRun(c, r) && SafeSteps(c, r.steps)
    ensures |r.steps| > 0 && r.steps[0].Trigger? && r.states[0].src == src && |r.states[0].snaps| == 0
    ensures |Last(r.states).snaps| == 1
    ensures var sn := Last(r.states).snaps[0];
            Finished(c, sn) && !Complete(c, sn) && sn.failed == {0} && !SameContent(c, sn.file, src)
  {
    hide First, Count, Covered, Touched, IsRun, Lookup;
    var s0 := State(src, [], []);
    EmptyRun(c, s0);
    r := Extended(c, Run([s0], []), Trigger);
    assert Last(r.states) == State(src, [NewSnap(src)], []);
    r := Extended(c, r, Claim(0, Background));
    assert {} + {0 as nat} == {0};
    assert Last(r.states) == State(src, [Claimed(NewSnap(src), 0, Background)], []);
    r := Extended(c, r, Copy(0, false));
    assert Last(r.states).snaps[0].file == map[];
    NothingThere(b, c.bs);
  }

  lemma NothingThere(b: nat, bs: nat)
    ensures Lookup(map[], b, bs) == Zeros(bs)
  {
  }

  lemma EmptyRun(c: Config, s: State)
    requires 0 < c.bs && Init(s)
    ensures ValidRun(c, Run([s], []))
  {
  }
}
