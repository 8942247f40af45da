/**
  The journal's steps, what every one of them keeps, and the theorem: over any run
  of pushes, metadata writes, commits, slot clears and crashes, the journal is a
  disk whose history can only lose a tail that no metadata write covered.
*/
module JournalSteps {
  import opened Flat
  import opened JournalModel

  datatype World = World(
    bs: nat,                        // block size
    n: nat,                         // number of slots
    slots: seq<Option<Action>>,     // journal device: None is a cleared or never used slot
    saved: Meta,                    // journal device: metadata
    data: Disk,                     // data backend
    meta: Meta,                     // memory: metadata
    cache: Cache,                   // memory: blocks with pending entries
    base: Disk,                     // history: data backend when the journal was opened
    log: seq<Action>,               // history: entries recovered when opened, then all pushed ones
    savedFrom: nat,                 // history: entries retired when the metadata was saved
    committed: nat,                 // history: entries retired from the ring
    applied: nat                    // history: entries written to the data backend
  )

  ghost predicate Layout(w: World) {
    && 0 < w.bs && 0 < w.n && |w.slots| == w.n
    && Shape(w.meta, w.n) && Shape(w.saved, w.n)
    && w.savedFrom <= w.committed <= w.applied <= |w.log|
    && w.committed + w.meta.cur == |w.log|
    && w.savedFrom + w.saved.cur <= |w.log|
    && w.committed - w.savedFrom <= w.n
    && w.meta.read == At(w.saved.read, w.committed - w.savedFrom, w.n)
    && Sized(w.base, w.bs) && Sound(w.log, w.bs)
  }

  // The m.cur slots from m.read on hold the entries of `log` from `from` on.
  ghost predicate Holds(slots: seq<Option<Action>>, m: Meta, log: seq<Action>, from: nat)
    requires Shape(m, |slots|) && from + m.cur <= |log|
  {
    forall i :: 0 <= i < m.cur ==> slots[At(m.read, i, |slots|)] == Some(log[from + i])
  }

  ghost predicate Inv(w: World) {
    && Layout(w)
    && Holds(w.slots, w.meta, w.log, w.committed)
    && Holds(w.slots, w.saved, w.log, w.savedFrom)
    && w.cache == CacheOf(w.log[w.committed..], w.bs)
    && w.data == ApplyAll(w.base, w.log[..w.applied], w.bs)
    && Distinct(w.log[w.savedFrom..w.applied])
  }

  // The disk that readers of the journal see.
  ghost function View(w: World): Disk {
    ApplyAll(w.base, w.log, w.bs)
  }

  // Entries that survive a crash for certain.
  ghost function Durable(w: World): nat {
    w.savedFrom + w.saved.cur
  }

  // ------------------------------------------------------------------- steps

  datatype Step =
    | WriteSlot(a: Action)     // push: the entry reaches the journal device
    | FinishPush(a: Action)    // push: pointers and cache are updated
    | SaveMeta                 // the metadata reaches the journal device
    | CommitBlock              // commit: one block of the group reaches the data backend
    | Retire                   // commit: pointers and cache are updated for the group
    | ClearSlot(i: nat)        // commit: a free slot is trimmed
    | Crash                    // memory is lost and the recovery loop runs

  // Between a commit's Retire and its SaveMeta the lock is held (or, if that write failed, the
  // journal refuses new work): no write-back or clear happens then.
  ghost predicate Settled(w: World) {
    w.savedFrom == w.committed
  }

  // The slot behind the write pointer is not one whose entry the saved metadata counts.  That entry
  // would be number |log| - n of the log.  So it is whenever the world is settled and the ring is not
  // full (see SettledIsUnclaimed); a push that was let through before a commit failed to save its
  // metadata may find it so or not.
  ghost predicate Unclaimed(w: World) {
    |w.log| < w.savedFrom + w.n || Durable(w) + w.n <= |w.log|
  }

  ghost predicate Enabled(w: World, st: Step)
    requires Layout(w)
  {
    match st
    case WriteSlot(a) => Unclaimed(w) && !w.meta.full && |Payload(a, w.bs)| == w.bs
    case FinishPush(a) => !w.meta.full && |Payload(a, w.bs)| == w.bs && w.slots[w.meta.write] == Some(a)
    case SaveMeta => true
    case CommitBlock => Settled(w) && w.applied < |w.log| && Grouped(w.log[w.committed..w.applied + 1])
    case Retire => Settled(w)
    case ClearSlot(i) => Settled(w) && exists k :: w.meta.cur <= k < w.n && i == At(w.meta.read, k, w.n)
    case Crash => true
  }

  function Advance(m: Meta, n: nat): Meta
    requires Shape(m, n) && !m.full
  {
    var write := if m.write + 1 == n then 0 else m.write + 1;
    Meta(m.read, write, write == m.read, m.cur + 1)
  }

  function Retreat(m: Meta, k: nat, n: nat): Meta
    requires Shape(m, n) && k <= m.cur
  {
    Meta(At(m.read, k, n), m.write, if k == 0 then m.full else false, m.cur - k)
  }

  // The recovery loop: read `count` slots from `at` on, stop at one without an intact entry.
  ghost function LoadRing(slots: seq<Option<Action>>, at: nat, count: nat): seq<Action>
    requires at < |slots|
    decreases count
  {
    if count == 0 || slots[at].None? then []
    else [slots[at].value] + LoadRing(slots, At(at, 1, |slots|), count - 1)
  }

  ghost function SlotWritten(w: World, a: Action): World
    requires w.meta.write < |w.slots|
  {
    w.(slots := w.slots[w.meta.write := Some(a)])
  }

  ghost function Pushed(w: World, a: Action): World
    requires Shape(w.meta, w.n) && !w.meta.full
  {
    w.(meta := Advance(w.meta, w.n), cache := PutInCache(w.cache, a, w.bs), log := w.log + [a])
  }

  ghost function MetaSaved(w: World): World {
    w.(saved := w.meta, savedFrom := w.committed)
  }

  ghost function BlockCommitted(w: World): World
    requires w.applied < |w.log|
  {
    w.(data := Apply(w.data, w.log[w.applied], w.bs), applied := w.applied + 1)
  }

  ghost function Retired(w: World): World
    requires Layout(w)
  {
    w.(meta := Retreat(w.meta, w.applied - w.committed, w.n), cache := CacheOf(w.log[w.applied..], w.bs),
       committed := w.applied)
  }

  ghost function SlotCleared(w: World, i: nat): World
    requires i < |w.slots|
  {
    w.(slots := w.slots[i := None])
  }

  ghost function Recovered(w: World): World
    requires w.saved.read < |w.slots|
  {
    var log := LoadRing(w.slots, w.saved.read, w.saved.cur);
    w.(meta := w.saved, cache := CacheOf(log, w.bs), base := w.data, log := log,
       savedFrom := 0, committed := 0, applied := 0)
  }

  ghost function Do(w: World, st: Step): World
    requires Layout(w) && Enabled(w, st)
  {
    match st
    case WriteSlot(a) => SlotWritten(w, a)
    case FinishPush(a) => Pushed(w, a)
    case SaveMeta => MetaSaved(w)
    case CommitBlock => BlockCommitted(w)
    case Retire => Retired(w)
    case ClearSlot(i) => SlotCleared(w, i)
    case Crash => Recovered(w)
  }

  ghost predicate StepTaken(w: World, st: Step, w': World) {
    Layout(w) && Enabled(w, st) && w' == Do(w, st)
  }

  // -------------------------------------------------------- steps keep Inv

  lemma SettledIsUnclaimed(w: World)
    requires Inv(w) && Settled(w) && !w.meta.full
    ensures Unclaimed(w)
  {
  }

  // On the saved ring the write pointer stands |log| - savedFrom places after the read pointer, once
  // around when that is N or more.
  lemma WriteOnSavedRing(w: World)
    requires Layout(w) && !w.meta.full
    ensures |w.log| - w.savedFrom < 2 * w.n
    ensures w.meta.write == if |w.log| - w.savedFrom < w.n then At(w.saved.read, |w.log| - w.savedFrom, w.n)
                            else At(w.saved.read, |w.log| - w.savedFrom - w.n, w.n)
  {
  }

  // Place j of a ring can be written when it is not one of the counted places.
  lemma HoldsElsewhere(slots: seq<Option<Action>>, m: Meta, log: seq<Action>, from: nat, j: nat, a: Action)
    requires Shape(m, |slots|) && from + m.cur <= |log| && m.cur <= j < |slots|
    requires Holds(slots, m, log, from)
    ensures At(m.read, j, |slots|) < |slots|
    ensures Holds(slots[At(m.read, j, |slots|) := Some(a)], m, log, from)
  {
  }

  // The place of the write pointer on the saved ring, when that ring does not claim it.
  lemma FreePlace(w: World) returns (j: nat)
    requires Layout(w) && !w.meta.full && Unclaimed(w)
    ensures w.saved.cur <= j < w.n && w.meta.write == At(w.saved.read, j, w.n)
    ensures w.meta.cur < w.n == |w.slots| && w.meta.write == At(w.meta.read, w.meta.cur, w.n) < w.n
  {
    WriteOnSavedRing(w);
    var d := |w.log| - w.savedFrom;
    j := if d < w.n then d else d - w.n;
  }

  lemma WriteSlotKeeps(w: World, a: Action)
    requires Inv(w) && Enabled(w, WriteSlot(a))
    ensures StepTaken(w, WriteSlot(a), SlotWritten(w, a)) && Inv(SlotWritten(w, a))
  {
    InvRings(w);
    hide Inv, Layout, Holds, At, ApplyAll, CacheOf, Distinct, Unclaimed;
    var j := FreePlace(w);
    InvBounds(w);
    HoldsElsewhere(w.slots, w.meta, w.log, w.committed, w.meta.cur, a);
    HoldsElsewhere(w.slots, w.saved, w.log, w.savedFrom, j, a);
    InvOfSlots(w, SlotWritten(w, a));
  }

  lemma InvRings(w: World)
    requires Inv(w)
    ensures Layout(w) && Holds(w.slots, w.meta, w.log, w.committed) && Holds(w.slots, w.saved, w.log, w.savedFrom)
  {
  }

  // A change of slots is harmless when both rings still hold their entries.
  lemma InvOfSlots(w: World, w': World)
    requires Inv(w) && w' == w.(slots := w'.slots) && |w'.slots| == w.n
    requires Holds(w'.slots, w.meta, w.log, w.committed) && Holds(w'.slots, w.saved, w.log, w.savedFrom)
    ensures Inv(w')
  {
    hide Holds, ApplyAll, CacheOf, Distinct;
  }

  lemma AdvanceKeepsShape(m: Meta, n: nat)
    requires Shape(m, n) && !m.full
    ensures Shape(Advance(m, n), n)
  {
  }

  lemma HoldsLonger(slots: seq<Option<Action>>, m: Meta, log: seq<Action>, log': seq<Action>, from: nat)
    requires Shape(m, |slots|) && from + m.cur <= |log| && log <= log'
    requires Holds(slots, m, log, from)
    ensures Holds(slots, m, log', from)
  {
  }

  lemma HoldsOneMore(slots: seq<Option<Action>>, m: Meta, log: seq<Action>, a: Action, from: nat)
    requires Shape(m, |slots|) && !m.full && from + m.cur == |log|
    requires Holds(slots, m, log, from) && slots[m.write] == Some(a)
    ensures Shape(Advance(m, |slots|), |slots|) && Holds(slots, Advance(m, |slots|), log + [a], from)
  {
    AdvanceKeepsShape(m, |slots|);
    var m' := Advance(m, |slots|);
    forall i | 0 <= i < m'.cur
      ensures slots[At(m'.read, i, |slots|)] == Some((log + [a])[from + i])
    {
      if i < m.cur { assert slots[At(m.read, i, |slots|)] == Some(log[from + i]); }
    }
  }

  lemma LongerTail(log: seq<Action>, a: Action, k: nat)
    requires k <= |log|
    ensures (log + [a])[k..] == log[k..] + [a] && (log + [a])[..k] == log[..k]
    ensures forall i :: 0 <= i <= k ==> (log + [a])[i..k] == log[i..k]
  {
  }

  lemma CacheOfPush(p: seq<Action>, a: Action, bs: nat)
    ensures CacheOf(p + [a], bs) == PutInCache(CacheOf(p, bs), a, bs)
  {
    assert (p + [a])[..|p|] == p;
  }

  lemma PushedLayout(w: World, a: Action)
    requires Inv(w) && Enabled(w, FinishPush(a))
    ensures StepTaken(w, FinishPush(a), Pushed(w, a)) && Layout(Pushed(w, a))
  {
    AdvanceKeepsShape(w.meta, w.n);
  }

  lemma FinishPushKeeps(w: World, a: Action)
    requires Inv(w) && Enabled(w, FinishPush(a))
    ensures StepTaken(w, FinishPush(a), Pushed(w, a)) && Inv(Pushed(w, a))
  {
    PushedLayout(w, a);
    HoldsOneMore(w.slots, w.meta, w.log, a, w.committed);
    HoldsLonger(w.slots, w.saved, w.log, w.log + [a], w.savedFrom);
    LongerTail(w.log, a, w.committed);
    LongerTail(w.log, a, w.applied);
    CacheOfPush(w.log[w.committed..], a, w.bs);
    hide Layout, Holds, CacheOf, ApplyAll, Distinct, StepTaken, Shape, Advance, PutInCache;
  }

  lemma SaveMetaKeeps(w: World)
    requires Inv(w)
    ensures StepTaken(w, SaveMeta, MetaSaved(w)) && Inv(MetaSaved(w))
  {
    var all, rest := w.log[w.savedFrom..w.applied], w.log[w.committed..w.applied];
    assert rest == all[w.committed - w.savedFrom..];
  }

  lemma ApplyNext(base: Disk, log: seq<Action>, k: nat, bs: nat)
    requires k < |log|
    ensures ApplyAll(base, log[..k + 1], bs) == Apply(ApplyAll(base, log[..k], bs), log[k], bs)
  {
    assert log[..k + 1][..k] == log[..k];
  }

  lemma CommitBlockKeeps(w: World)
    requires w.applied < |w.log| && Inv(w) && Enabled(w, CommitBlock)
    ensures StepTaken(w, CommitBlock, BlockCommitted(w)) && Inv(BlockCommitted(w))
  {
    hide Holds, CacheOf, Shape, Apply, ApplyAll, Distinct, Grouped, Sound, Sized, Enabled, StepTaken;
    CommitEnabled(w);
    ApplyNext(w.base, w.log, w.applied, w.bs);
    GroupedIsDistinct(w.log[w.committed..w.applied + 1]);
  }

  lemma CommitEnabled(w: World)
    requires w.applied < |w.log| && Layout(w) && Enabled(w, CommitBlock)
    ensures w.savedFrom == w.committed && Grouped(w.log[w.committed..w.applied + 1])
    ensures StepTaken(w, CommitBlock, BlockCommitted(w))
  {
    hide Layout, Grouped;
  }

  lemma RetreatHolds(slots: seq<Option<Action>>, m: Meta, log: seq<Action>, from: nat, k: nat)
    requires Shape(m, |slots|) && from + m.cur == |log| && k <= m.cur
    requires Holds(slots, m, log, from)
    ensures Shape(Retreat(m, k, |slots|), |slots|) && Holds(slots, Retreat(m, k, |slots|), log, from + k)
  {
    var m' := Retreat(m, k, |slots|);
    forall i | 0 <= i < m'.cur
      ensures slots[At(m'.read, i, |slots|)] == Some(log[from + k + i])
    {
      assert slots[At(m.read, k + i, |slots|)] == Some(log[from + (k + i)]);
    }
  }

  lemma RetiredLayout(w: World)
    requires Inv(w) && Settled(w)
    ensures Shape(w.meta, w.n) && |w.slots| == w.n && w.committed + w.meta.cur == |w.log|
    ensures w.committed <= w.applied <= |w.log| && Holds(w.slots, w.meta, w.log, w.committed)
    ensures Layout(w) && Layout(Retired(w))
  {
    hide Holds, CacheOf, ApplyAll, Distinct, Sound, Sized;
  }

  lemma RetireKeeps(w: World)
    requires Inv(w) && Enabled(w, Retire)
    ensures StepTaken(w, Retire, Retired(w)) && Inv(Retired(w))
  {
    hide Layout, Holds, CacheOf, ApplyAll, Distinct, Shape, Retreat;
    RetiredLayout(w);
    RetreatHolds(w.slots, w.meta, w.log, w.committed, w.applied - w.committed);
  }

  lemma ClearSlotKeeps(w: World, i: nat)
    requires Inv(w) && Enabled(w, ClearSlot(i))
    ensures StepTaken(w, ClearSlot(i), SlotCleared(w, i)) && Inv(SlotCleared(w, i))
  {
  }

  lemma {:induction false} LoadRingIsLog(slots: seq<Option<Action>>, m: Meta, log: seq<Action>, from: nat, skip: nat)
    requires Shape(m, |slots|) && from + m.cur <= |log| && skip <= m.cur && 0 < |slots|
    requires Holds(slots, m, log, from)
    ensures At(m.read, skip, |slots|) < |slots|
    ensures LoadRing(slots, At(m.read, skip, |slots|), m.cur - skip) == log[from + skip..from + m.cur]
    decreases m.cur - skip
  {
    if skip < m.cur {
      LoadRingIsLog(slots, m, log, from, skip + 1);
      assert At(At(m.read, skip, |slots|), 1, |slots|) == At(m.read, skip + 1, |slots|);
      assert log[from + skip..from + m.cur] == [log[from + skip]] + log[from + skip + 1..from + m.cur];
    }
  }

  lemma SavedRing(w: World)
    requires Inv(w)
    ensures Layout(w) && |w.slots| == w.n && Shape(w.saved, w.n) && w.saved.read < w.n && 0 < w.n
    ensures Durable(w) == w.savedFrom + w.saved.cur <= |w.log| && At(w.saved.read, 0, w.n) == w.saved.read
    ensures Holds(w.slots, w.saved, w.log, w.savedFrom)
  {
    hide Holds, CacheOf, ApplyAll, Distinct, Sound, Sized;
  }

  lemma RecoveredLog(w: World)
    requires Inv(w)
    ensures w.saved.read < |w.slots|
    ensures LoadRing(w.slots, w.saved.read, w.saved.cur) == w.log[w.savedFrom..Durable(w)]
  {
    hide Inv, Layout, Holds, LoadRing, Shape, At, Durable;
    SavedRing(w);
    LoadRingIsLog(w.slots, w.saved, w.log, w.savedFrom, 0);
  }

  lemma HoldsSuffix(slots: seq<Option<Action>>, m: Meta, log: seq<Action>, from: nat)
    requires Shape(m, |slots|) && from + m.cur <= |log|
    requires Holds(slots, m, log, from)
    ensures Holds(slots, m, log[from..from + m.cur], 0)
  {
  }

  lemma CrashKeeps(w: World)
    requires Inv(w)
    ensures StepTaken(w, Crash, Recovered(w)) && Inv(Recovered(w))
    ensures Recovered(w).log == w.log[w.savedFrom..Durable(w)]
  {
    RecoveredLog(w);
    HoldsSuffix(w.slots, w.saved, w.log, w.savedFrom);
    ApplyAllSized(w.base, w.log[..w.applied], w.bs);
    var log := w.log[w.savedFrom..Durable(w)];
    assert log[0..] == log && log[..0] == [];
  }

  lemma StepKeeps(w: World, st: Step)
    requires Inv(w) && Enabled(w, st)
    ensures Inv(Do(w, st))
  {
    match st
    case WriteSlot(a) => WriteSlotKeeps(w, a);
    case FinishPush(a) => FinishPushKeeps(w, a);
    case SaveMeta => SaveMetaKeeps(w);
    case CommitBlock => CommitBlockKeeps(w);
    case Retire => RetireKeeps(w);
    case ClearSlot(i) => ClearSlotKeeps(w, i);
    case Crash => CrashKeeps(w);
  }

  // ------------------------------------------------------------ what is seen

  // A block is pending, and then the newest pending entry decides; or it is not, and then the data
  // backend already has it.
  lemma PendingOrWritten(base: Disk, log: seq<Action>, committed: nat, applied: nat, bs: nat, b: nat)
    requires committed <= applied <= |log|
    ensures LastFor(log[committed..], b).Some? ==> LastFor(log, b) == LastFor(log[committed..], b)
    ensures LastFor(log[committed..], b).None? ==>
              Lookup(ApplyAll(base, log[..applied], bs), b, bs) == Lookup(ApplyAll(base, log, bs), b, bs)
  {
    var middle, rest := log[committed..applied], log[applied..];
    assert log[..committed] + log[committed..] == log && log[..applied] + rest == log;
    assert log[committed..] == middle + rest;
    LastForConcat(log[..committed], log[committed..], b);
    LastForConcat(log[..applied], rest, b);
    LastForConcat(middle, rest, b);
    ApplyAllAt(base, log, bs, b);
    ApplyAllAt(base, log[..applied], bs, b);
  }

  // What get_block returns.
  ghost function Reads(w: World, b: nat): Block {
    if b in w.cache then w.cache[b].data else Lookup(w.data, b, w.bs)
  }

  lemma CacheShowsView(w: World, b: nat)
    requires w.committed <= w.applied <= |w.log|
    requires w.cache == CacheOf(w.log[w.committed..], w.bs) && w.data == ApplyAll(w.base, w.log[..w.applied], w.bs)
    ensures Reads(w, b) == Lookup(View(w), b, w.bs)
  {
    CacheAt(w.log[w.committed..], w.bs, b);
    LastForIsThere(w.log[w.committed..], b);
    PendingOrWritten(w.base, w.log, w.committed, w.applied, w.bs, b);
    ApplyAllAt(w.base, w.log, w.bs, b);
  }

  // Reading through the cache sees the newest push to the block, committed or not.
  lemma ReadIsView(w: World, b: nat)
    requires Inv(w)
    ensures Reads(w, b) == Lookup(View(w), b, w.bs)
  {
    CacheShowsView(w, b);
    hide *;
  }

  function Max(a: nat, b: nat): nat {
    if a < b then b else a
  }

  lemma Cut(log: seq<Action>, i: nat, j: nat, k: nat)
    requires i <= j <= k <= |log|
    ensures log[i..j] + log[j..k] == log[i..k]
    ensures i == 0 ==> log[..j] + log[j..k] == log[..k]
  {
  }

  lemma ReplayedPrefix(base: Disk, log: seq<Action>, from: nat, upto: nat, applied: nat, bs: nat)
    requires from <= upto <= |log| && from <= applied <= |log|
    requires Distinct(log[from..applied])
    ensures ApplyAll(ApplyAll(base, log[..applied], bs), log[from..upto], bs)
         == ApplyAll(base, log[..Max(applied, upto)], bs)
  {
    var old0 := ApplyAll(base, log[..from], bs);
    ApplyAllConcat(base, log[..from], log[from..applied], bs);
    ApplyAllConcat(base, log[..from], log[from..upto], bs);
    Cut(log, 0, from, applied);
    Cut(log, 0, from, upto);
    if applied <= upto {
      Cut(log, from, applied, upto);
      ReplayFurther(old0, log[from..applied], log[applied..upto], bs);
    } else {
      Cut(log, from, upto, applied);
      Replay(old0, log[from..upto], log[upto..applied], bs);
    }
  }

  // What recovery shows is the disk after a prefix of the history: the part that the saved
  // metadata covers, or the part that reached the data backend, whichever is longer.
  lemma CrashIsPrefix(w: World)
    requires Inv(w)
    ensures View(Do(w, Crash)) == ApplyAll(w.base, w.log[..Max(w.applied, Durable(w))], w.bs)
  {
    RecoveredLog(w);
    ReplayedPrefix(w.base, w.log, w.savedFrom, Durable(w), w.applied, w.bs);
  }

  // ---------------------------------------------------- the journal as a spec

  // A disk with a history of actions of which the first `durable` survive any crash.
  datatype Spec = Spec(hist: seq<Action>, durable: nat)

  ghost predicate SpecNext(s: Spec, st: Step, s': Spec) {
    match st
    case FinishPush(a) => s' == Spec(s.hist + [a], s.durable)
    case SaveMeta => s' == Spec(s.hist, |s.hist|)
    case Crash => s.durable <= s'.durable <= |s.hist| && s'.hist == s.hist[..s'.durable]
    case _ => s' == s
  }

  ghost predicate Refines(w: World, s: Spec, origin: Disk) {
    && Durable(w) <= |w.log| && s.durable <= |s.hist|
    && w.log[Durable(w)..] == s.hist[s.durable..]
    && ApplyAll(w.base, w.log[..Durable(w)], w.bs) == ApplyAll(origin, s.hist[..s.durable], w.bs)
  }

  // Prefixes that include the durable part mean the same in both histories.
  lemma PrefixesAgree(w: World, s: Spec, origin: Disk, k: nat)
    requires Refines(w, s, origin) && Durable(w) <= k <= |w.log|
    ensures s.durable <= k - Durable(w) + s.durable <= |s.hist|
    ensures ApplyAll(w.base, w.log[..k], w.bs) == ApplyAll(origin, s.hist[..k - Durable(w) + s.durable], w.bs)
  {
    hide ApplyAll;
    SameTail(w.log, Durable(w), s.hist, s.durable, k - Durable(w));
    var tail := w.log[Durable(w)..k];
    ApplyAllConcat(w.base, w.log[..Durable(w)], tail, w.bs);
    ApplyAllConcat(origin, s.hist[..s.durable], tail, w.bs);
  }

  lemma SameTail(p: seq<Action>, m: nat, q: seq<Action>, n: nat, j: nat)
    requires m + j <= |p| && n <= |q| && p[m..] == q[n..]
    ensures n + j <= |q| && p[m..m + j] == q[n..n + j]
    ensures p[..m] + p[m..m + j] == p[..m + j] && q[..n] + p[m..m + j] == q[..n + j]
  {
    assert |p[m..]| == |q[n..]|;
    assert p[m..m + j] == p[m..][..j] && q[n..n + j] == q[n..][..j];
  }

  lemma ViewAgrees(w: World, s: Spec, origin: Disk)
    requires Refines(w, s, origin)
    ensures View(w) == ApplyAll(origin, s.hist, w.bs)
  {
    PrefixesAgree(w, s, origin, |w.log|);
    assert w.log[..|w.log|] == w.log && s.hist[..|s.hist|] == s.hist;
    assert |w.log[Durable(w)..]| == |s.hist[s.durable..]|;
  }

  lemma PushRefines(w: World, a: Action, s: Spec, origin: Disk)
    requires Inv(w) && Enabled(w, FinishPush(a)) && Refines(w, s, origin)
    ensures Refines(Do(w, FinishPush(a)), Spec(s.hist + [a], s.durable), origin)
  {
    LongerTail(w.log, a, Durable(w));
    LongerTail(s.hist, a, s.durable);
  }

  lemma SaveRefines(w: World, s: Spec, origin: Disk)
    requires Inv(w) && Refines(w, s, origin)
    ensures Refines(MetaSaved(w), Spec(s.hist, |s.hist|), origin)
  {
    hide Inv;
    InvBounds(w);
    ViewAgrees(w, s, origin);
    AllDurable(MetaSaved(w), Spec(s.hist, |s.hist|), origin);
  }

  lemma InvBounds(w: World)
    requires Inv(w)
    ensures w.savedFrom <= w.committed <= w.applied <= |w.log|
    ensures Durable(w) <= |w.log| && w.committed + w.meta.cur == |w.log|
    ensures Shape(w.meta, w.n) && Shape(w.saved, w.n)
  {
  }

  lemma AllDurable(w: World, s: Spec, origin: Disk)
    requires Durable(w) == |w.log| && s.durable == |s.hist|
    requires View(w) == ApplyAll(origin, s.hist, w.bs)
    ensures Refines(w, s, origin)
  {
    assert w.log[..|w.log|] == w.log && s.hist[..|s.hist|] == s.hist;
    assert w.log[|w.log|..] == [] == s.hist[|s.hist|..];
  }

  lemma CrashFacts(w: World)
    requires Inv(w)
    ensures var w' := Do(w, Crash); Durable(w') == |w'.log| && w'.bs == w.bs
    ensures View(Do(w, Crash)) == ApplyAll(w.base, w.log[..Max(w.applied, Durable(w))], w.bs)
  {
    RecoveredLog(w);
    CrashIsPrefix(w);
  }

  lemma CrashRefines(w: World, s: Spec, origin: Disk) returns (s': Spec)
    requires Inv(w) && Refines(w, s, origin)
    ensures SpecNext(s, Crash, s') && Refines(Do(w, Crash), s', origin)
  {
    var k := Max(w.applied, Durable(w));
    PrefixesAgree(w, s, origin, k);
    var k' := k - Durable(w) + s.durable;
    s' := Spec(s.hist[..k'], k');
    CrashFacts(w);
    AllDurable(Do(w, Crash), s', origin);
  }

  lemma SilentRefines(w: World, st: Step, s: Spec, origin: Disk)
    requires Inv(w) && Enabled(w, st) && Refines(w, s, origin)
    requires !st.FinishPush? && !st.SaveMeta? && !st.Crash?
    ensures Refines(Do(w, st), s, origin)
  {
    var w' := Do(w, st);
    assert w'.log == w.log && w'.base == w.base && w'.bs == w.bs && Durable(w') == Durable(w);
  }

  lemma StepRefines(w: World, st: Step, s: Spec, origin: Disk) returns (s': Spec)
    requires Inv(w) && Enabled(w, st) && Refines(w, s, origin)
    ensures SpecNext(s, st, s') && Refines(Do(w, st), s', origin)
  {
    match st
    case FinishPush(a) =>
      PushRefines(w, a, s, origin);
      s' := Spec(s.hist + [a], s.durable);
    case SaveMeta =>
      SaveRefines(w, s, origin);
      s' := Spec(s.hist, |s.hist|);
    case Crash =>
      s' := CrashRefines(w, s, origin);
    case _ =>
      SilentRefines(w, st, s, origin);
      s' := s;
  }

  // ws[0] --steps[0]--> ws[1] --steps[1]--> .. is a run.
  ghost predicate IsRun(ws: seq<World>, steps: seq<Step>) {
    && |ws| == |steps| + 1
    && forall i {:trigger StepTaken(ws[i], steps[i], ws[i + 1])} :: 0 <= i < |steps| ==>
         StepTaken(ws[i], steps[i], ws[i + 1])
  }

  lemma RunLength(ws: seq<World>, steps: seq<Step>)
    requires IsRun(ws, steps)
    ensures |ws| == |steps| + 1
  {
    hide StepTaken;
  }

  lemma RunGrows(ws: seq<World>, steps: seq<Step>, st: Step, w: World)
    requires IsRun(ws, steps) && StepTaken(ws[|steps|], st, w)
    ensures IsRun(ws + [w], steps + [st])
  {
    var ws', steps' := ws + [w], steps + [st];
    forall i | 0 <= i < |steps'|
      ensures StepTaken(ws'[i], steps'[i], ws'[i + 1])
    {
      if i < |steps| { assert StepTaken(ws[i], steps[i], ws[i + 1]); }
    }
  }

  ghost predicate Follows(specs: seq<Spec>, steps: seq<Step>) {
    && |specs| == |steps| + 1
    && forall i :: 0 <= i < |steps| ==> SpecNext(specs[i], steps[i], specs[i + 1])
  }

  // A journal device that was never used: all zeros, which the constructor takes for empty.
  ghost predicate Fresh(w: World) {
    && 0 < w.bs && 0 < w.n && |w.slots| == w.n
    && w.saved == w.meta == Meta(0, 0, false, 0)
    && w.cache == map[] && w.log == [] && w.base == w.data && Sized(w.data, w.bs)
    && w.savedFrom == w.committed == w.applied == 0
  }

  lemma FreshIsGood(w: World)
    requires Fresh(w)
    ensures Inv(w) && Refines(w, Spec([], 0), w.data)
  {
  }

  // A journal that was just opened: memory is what the saved metadata says.  Recovery leaves such a
  // world, and a fresh journal is one.
  ghost predicate Opened(w: World) {
    Inv(w) && w.saved == w.meta && w.savedFrom == w.committed == w.applied == 0
  }

  ghost function OpenedSpec(w: World): Spec {
    Spec(w.log, |w.log|)
  }

  lemma FreshIsOpened(w: World)
    requires Fresh(w)
    ensures Opened(w) && OpenedSpec(w) == Spec([], 0)
  {
    FreshIsGood(w);
  }

  lemma RecoveredIsOpened(w: World)
    requires Inv(w)
    ensures Opened(Do(w, Crash))
  {
    CrashKeeps(w);
  }

  lemma OpenedIsGood(w: World)
    requires Opened(w)
    ensures Good(w, OpenedSpec(w), w.data)
  {
    InvBounds(w);
    AppliedSoFar(w);
    hide Inv, ApplyAll;
    assert w.base == w.data by { NothingApplied(w.base, w.log, w.bs); }
    AllDurable(w, OpenedSpec(w), w.data);
  }

  lemma NothingApplied(base: Disk, log: seq<Action>, bs: nat)
    ensures ApplyAll(base, log[..0], bs) == base
  {
  }

  lemma AppliedSoFar(w: World)
    requires Inv(w)
    ensures w.data == ApplyAll(w.base, w.log[..w.applied], w.bs) && Distinct(w.log[w.savedFrom..w.applied])
    ensures w.savedFrom <= w.committed <= w.applied <= |w.log|
  {
  }

  ghost predicate Good(w: World, s: Spec, origin: Disk) {
    Inv(w) && Refines(w, s, origin)
  }

  lemma OneMore(w: World, st: Step, w': World, s: Spec, origin: Disk) returns (s': Spec)
    requires Good(w, s, origin) && StepTaken(w, st, w')
    ensures SpecNext(s, st, s') && Good(w', s', origin)
  {
    StepKeeps(w, st);
    s' := StepRefines(w, st, s, origin);
  }

  lemma GoodMeans(w: World, s: Spec, origin: Disk)
    ensures Good(w, s, origin) <==> Inv(w) && Refines(w, s, origin)
  {
  }

  lemma RunStep(ws: seq<World>, steps: seq<Step>, i: nat)
    requires IsRun(ws, steps) && i < |steps|
    ensures StepTaken(ws[i], steps[i], ws[i + 1])
  {
    hide StepTaken;
  }

  ghost predicate GoodUpTo(ws: seq<World>, steps: seq<Step>, specs: seq<Spec>, k: nat, origin: Disk) {
    && k < |ws| && k <= |steps| && |specs| == k + 1
    && (forall i :: 0 <= i < k ==> SpecNext(specs[i], steps[i], specs[i + 1]))
    && (forall i :: 0 <= i <= k ==> Good(ws[i], specs[i], origin))
  }

  lemma OneMoreGood(ws: seq<World>, steps: seq<Step>, specs: seq<Spec>, k: nat, origin: Disk, s: Spec)
    requires GoodUpTo(ws, steps, specs, k, origin) && k < |steps| && k + 1 < |ws|
    requires SpecNext(specs[k], steps[k], s) && Good(ws[k + 1], s, origin)
    ensures GoodUpTo(ws, steps, specs + [s], k + 1, origin)
  {
    hide SpecNext, Good;
    var specs' := specs + [s];
    assert forall i :: 0 <= i <= k ==> specs'[i] == specs[i];
  }

  lemma {:induction false} FollowRun(ws: seq<World>, steps: seq<Step>, k: nat) returns (specs: seq<Spec>)
    requires IsRun(ws, steps) && k <= |steps| && Good(ws[0], OpenedSpec(ws[0]), ws[0].data)
    ensures GoodUpTo(ws, steps, specs, k, ws[0].data) && specs[0] == OpenedSpec(ws[0])
  {
    hide SpecNext, Good, StepTaken;
    if k == 0 {
      specs := [OpenedSpec(ws[0])];
    } else {
      specs := FollowRun(ws, steps, k - 1);
      hide GoodUpTo;
      RunStep(ws, steps, k - 1);
      LastIsGood(ws, steps, specs, k - 1, ws[0].data);
      var s := OneMore(ws[k - 1], steps[k - 1], ws[k], specs[k - 1], ws[0].data);
      OneMoreGood(ws, steps, specs, k - 1, ws[0].data, s);
      specs := specs + [s];
    }
  }

  lemma LastIsGood(ws: seq<World>, steps: seq<Step>, specs: seq<Spec>, k: nat, origin: Disk)
    requires GoodUpTo(ws, steps, specs, k, origin)
    ensures |specs| == k + 1 && Good(ws[k], specs[k], origin)
  {
    hide SpecNext, Good;
  }

  lemma GoodMeansView(w: World, s: Spec, origin: Disk)
    requires Good(w, s, origin)
    ensures Inv(w) && Refines(w, s, origin) && View(w) == ApplyAll(origin, s.hist, w.bs)
  {
    GoodMeans(w, s, origin);
    ViewAgrees(w, s, origin);
  }

  // The theorem for runs, from a fresh journal or from any that was just opened: step by step the
  // journal does what the specification allows, so what it shows in any reachable state is the original
  // disk after a history of pushes from which each crash took at most a tail that no metadata write
  // covered.
  lemma EveryRun(ws: seq<World>, steps: seq<Step>) returns (specs: seq<Spec>)
    requires IsRun(ws, steps) && Opened(ws[0])
    ensures Follows(specs, steps) && specs[0] == OpenedSpec(ws[0])
    ensures forall i :: 0 <= i <= |steps| ==>
                          && Inv(ws[i]) && Refines(ws[i], specs[i], ws[0].data)
                          && View(ws[i]) == ApplyAll(ws[0].data, specs[i].hist, ws[i].bs)
  {
    hide Inv, Refines, Opened, SpecNext, StepTaken, Good, View, ApplyAll;
    OpenedIsGood(ws[0]);
    specs := FollowRun(ws, steps, |steps|);
    forall i | 0 <= i <= |steps|
      ensures Inv(ws[i]) && Refines(ws[i], specs[i], ws[0].data)
      ensures View(ws[i]) == ApplyAll(ws[0].data, specs[i].hist, ws[i].bs)
    {
      GoodMeansView(ws[i], specs[i], ws[0].data);
    }
  }

  // Without a crash nothing is lost: the view is the original disk after what was pending when the
  // journal was opened and all pushes, in order.
  ghost function Pushes(steps: seq<Step>): seq<Action> {
    if steps == [] then []
    else Pushes(steps[..|steps| - 1]) +
         if steps[|steps| - 1].FinishPush? then [steps[|steps| - 1].a] else []
  }

  lemma {:induction false} HistIsPushes(steps: seq<Step>, specs: seq<Spec>)
    requires Follows(specs, steps)
    requires forall i :: 0 <= i < |steps| ==> !steps[i].Crash?
    ensures specs[|steps|].hist == specs[0].hist + Pushes(steps)
  {
    if steps != [] {
      HistIsPushes(steps[..|steps| - 1], specs[..|steps|]);
      assert SpecNext(specs[|steps| - 1], steps[|steps| - 1], specs[|steps|]);
    }
  }

  lemma NoCrashNoLoss(ws: seq<World>, steps: seq<Step>)
    requires IsRun(ws, steps) && Opened(ws[0])
    requires forall i :: 0 <= i < |steps| ==> !steps[i].Crash?
    ensures View(ws[|steps|]) == ApplyAll(ws[0].data, ws[0].log + Pushes(steps), ws[|steps|].bs)
  {
    hide Inv, Opened, ApplyAll, View, Refines, IsRun;
    RunLength(ws, steps);
    var specs := EveryRun(ws, steps);
    HistIsPushes(steps, specs);
  }

  // A crash at any point of any run, halfway through a push or a commit included.
  lemma CrashAnywhere(ws: seq<World>, steps: seq<Step>, i: nat) returns (specs: seq<Spec>, k: nat)
    requires IsRun(ws, steps) && Opened(ws[0]) && i <= |steps|
    ensures Follows(specs, steps) && specs[0] == OpenedSpec(ws[0])
    ensures specs[i].durable <= k <= |specs[i].hist|
    ensures Layout(ws[i])
    ensures View(Recovered(ws[i])) == ApplyAll(ws[0].data, specs[i].hist[..k], ws[i].bs)
  {
    hide Inv, Layout, Refines, Opened, SpecNext, IsRun, View, ApplyAll, Recovered, Durable;
    specs := EveryRun(ws, steps);
    RunLength(ws, steps);
    k := CrashAt(ws[i], specs[i], ws[0].data);
  }

  // A crash of one world, in terms of the history.
  lemma CrashAt(w: World, s: Spec, origin: Disk) returns (k: nat)
    requires Inv(w) && Refines(w, s, origin)
    ensures s.durable <= k <= |s.hist| && Layout(w)
    ensures View(Recovered(w)) == ApplyAll(origin, s.hist[..k], w.bs)
  {
    InvRings(w);
    InvBounds(w);
    CrashIsPrefix(w);
    hide Inv, Layout, Refines, View, ApplyAll, Recovered;
    var n := Max(w.applied, Durable(w));
    PrefixesAgree(w, s, origin, n);
    k := n - Durable(w) + s.durable;
  }

  // ------------------------------------------------------------ building runs

  datatype Run = Run(worlds: seq<World>, steps: seq<Step>)

  ghost predicate GoodRun(r: Run) {
    IsRun(r.worlds, r.steps) && Inv(r.worlds[|r.steps|])
  }

  ghost function LastWorld(r: Run): (w: World)
    requires GoodRun(r)
    ensures Layout(w)
  {
    r.worlds[|r.steps|]
  }

  // One more step of a run, from a good world to a good world.
  lemma Taken(r: Run, st: Step) returns (r': Run)
    requires GoodRun(r) && Enabled(LastWorld(r), st)
    ensures GoodRun(r') && LastWorld(r') == Do(LastWorld(r), st)
    ensures |r'.worlds| > 0 && r'.worlds[0] == r.worlds[0]
  {
    var w' := Do(LastWorld(r), st);
    StepKeeps(LastWorld(r), st);
    RunGrows(r.worlds, r.steps, st, w');
    r' := Run(r.worlds + [w'], r.steps + [st]);
  }

  lemma LastOfRun(r: Run)
    requires GoodRun(r)
    ensures IsRun(r.worlds, r.steps) && LastWorld(r) == r.worlds[|r.steps|] && Inv(LastWorld(r))
  {
  }
}
