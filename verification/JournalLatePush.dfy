/**
  The one window in which the journal can lose crash safety, and exactly when it does.

  push_action tests the error flag before it waits for the lock (journal.cpp:201, 217).  A push that
  passed the test while a commit was running whose metadata write then failed (lines 408-414,
  440-444) goes on, and may take a slot whose entry the saved metadata still counts.
*/
module JournalLatePush {
  import opened Flat
  import opened JournalModel
  import opened JournalSteps

  // ------------------------------------------------- every world, every push

  // The entry that a push into a claimed slot destroys.
  ghost function Victim(w: World): (i: nat)
    requires Layout(w) && !Unclaimed(w)
    ensures w.savedFrom <= i < Durable(w) <= |w.log|
  {
    |w.log| - w.n
  }

  lemma ClaimedPlace(w: World)
    requires Layout(w) && !w.meta.full && !Unclaimed(w)
    ensures Victim(w) - w.savedFrom < w.saved.cur <= w.n
    ensures w.meta.write == At(w.saved.read, Victim(w) - w.savedFrom, w.n)
    ensures Victim(w) < w.committed
  {
    WriteOnSavedRing(w);
    hide At;
  }

  // The saved ring after the push holds the log with the late entry in place of the victim.
  lemma HoldsLate(slots: seq<Option<Action>>, m: Meta, log: seq<Action>, from: nat, d: nat, a: Action)
    requires Shape(m, |slots|) && from + m.cur <= |log| && d < m.cur
    requires Holds(slots, m, log, from)
    ensures At(m.read, d, |slots|) < |slots|
    ensures Holds(slots[At(m.read, d, |slots|) := Some(a)], m, log[from + d := a], from)
  {
  }

  lemma UpdatedSlice(log: seq<Action>, from: nat, upto: nat, i: nat, a: Action)
    requires from <= i < upto <= |log|
    ensures log[i := a][from..upto] == log[from..i] + [a] + log[i + 1..upto]
    ensures log[from..upto] == log[from..i] + [log[i]] + log[i + 1..upto]
  {
  }

  // Recovery reads the late entry in the place of the victim.
  lemma RecoveryReadsLate(w: World, a: Action)
    requires Inv(w) && !w.meta.full && !Unclaimed(w)
    ensures w.meta.write < |w.slots|
    ensures LoadRing(SlotWritten(w, a).slots, w.saved.read, w.saved.cur)
         == w.log[w.savedFrom..Victim(w)] + [a] + w.log[Victim(w) + 1..Durable(w)]
  {
    hide Inv, Holds, At, LoadRing, Layout, Unclaimed, Shape, Durable;
    SavedRing(w);
    ClaimedPlace(w);
    var v := Victim(w);
    HoldsLate(w.slots, w.saved, w.log, w.savedFrom, v - w.savedFrom, a);
    LoadRingAll(SlotWritten(w, a).slots, w.saved, w.log[v := a], w.savedFrom);
    UpdatedSlice(w.log, w.savedFrom, Durable(w), v, a);
  }

  lemma LoadRingAll(slots: seq<Option<Action>>, m: Meta, log: seq<Action>, from: nat)
    requires Shape(m, |slots|) && from + m.cur <= |log| && 0 < |slots| && m.read < |slots|
    requires Holds(slots, m, log, from)
    ensures LoadRing(slots, m.read, m.cur) == log[from..from + m.cur]
  {
    LoadRingIsLog(slots, m, log, from, 0);
    hide LoadRing;
  }

  // Storing an entry in the free ring is harmless exactly when the saved metadata does not claim the
  // slot, or claims it for an equal entry.
  lemma HarmlessExactly(w: World, a: Action)
    requires Inv(w) && !w.meta.full && |Payload(a, w.bs)| == w.bs
    ensures Inv(SlotWritten(w, a)) <==> Unclaimed(w) || w.log[Victim(w)] == a
  {
    InvRings(w);
    if Unclaimed(w) { WriteSlotKeeps(w, a); } else { HarmlessClaimed(w, a); }
    hide *;
  }

  lemma HarmlessClaimed(w: World, a: Action)
    requires Inv(w) && !w.meta.full && !Unclaimed(w)
    ensures w.meta.write < |w.slots|
    ensures Inv(SlotWritten(w, a)) <==> w.log[Victim(w)] == a
  {
    hide Inv, Layout, LoadRing, Unclaimed, Shape, Holds, Durable;
    SavedRing(w);
    RecoveryReadsLate(w, a);
    var v := Victim(w);
    UpdatedSlice(w.log, w.savedFrom, Durable(w), v, a);
    if Inv(SlotWritten(w, a)) {
      WrittenDurable(w, a);
      RecoveredLog(SlotWritten(w, a));
      SameEntry(w.log[w.savedFrom..v], a, w.log[v], w.log[v + 1..Durable(w)]);
    }
    if w.log[v] == a { SameSlot(w, a); }
  }

  lemma WrittenDurable(w: World, a: Action)
    requires w.meta.write < |w.slots|
    ensures var w' := SlotWritten(w, a);
            Durable(w') == Durable(w) && w'.saved == w.saved && w'.log == w.log && w'.savedFrom == w.savedFrom
  {
  }

  lemma SameEntry(p: seq<Action>, a: Action, e: Action, q: seq<Action>)
    ensures p + [a] + q == p + [e] + q ==> a == e
  {
    assert (p + [a] + q)[|p|] == a && (p + [e] + q)[|p|] == e;
  }

  lemma SameSlot(w: World, a: Action)
    requires Inv(w) && !w.meta.full && !Unclaimed(w) && w.log[Victim(w)] == a
    ensures Inv(SlotWritten(w, a))
  {
    InvRings(w);
    ClaimedPlace(w);
    hide Inv;
    var i := Victim(w) - w.savedFrom;
    assert w.slots[At(w.saved.read, i, w.n)] == Some(w.log[w.savedFrom + i]);
    assert SlotWritten(w, a) == w;
  }

  ghost function LatePushed(w: World, a: Action): World
    requires Layout(w) && !w.meta.full
  {
    Pushed(SlotWritten(w, a), a)
  }

  // What recovery reads depends on the slots alone.
  lemma RecoveredPush(w: World, a: Action)
    requires Layout(w) && !w.meta.full
    ensures w.saved.read < |w.slots| && w.meta.write < |w.slots|
    ensures Recovered(LatePushed(w, a)).log == LoadRing(SlotWritten(w, a).slots, w.saved.read, w.saved.cur)
    ensures View(Recovered(LatePushed(w, a))) == ApplyAll(w.data, Recovered(LatePushed(w, a)).log, w.bs)
  {
    hide LoadRing, CacheOf, PutInCache;
  }

  // Counting the entry in memory or not, a crash then recovers the saved entries exactly under the same
  // condition; else the late entry stands in the place of entry |log| - n.
  lemma RecoveredExactly(w: World, a: Action)
    requires Inv(w) && !w.meta.full && |Payload(a, w.bs)| == w.bs
    ensures Recovered(LatePushed(w, a)).log == w.log[w.savedFrom..Durable(w)] <==> Unclaimed(w) || w.log[Victim(w)] == a
    ensures !Unclaimed(w) ==>
              Recovered(LatePushed(w, a)).log == w.log[w.savedFrom..Victim(w)] + [a] + w.log[Victim(w) + 1..Durable(w)]
  {
    InvRings(w);
    RecoveredPush(w, a);
    if Unclaimed(w) { RecoveredUnclaimed(w, a); } else { RecoveredClaimed(w, a); }
    hide *;
  }

  lemma RecoveredUnclaimed(w: World, a: Action)
    requires Inv(w) && Enabled(w, WriteSlot(a))
    ensures LoadRing(SlotWritten(w, a).slots, w.saved.read, w.saved.cur) == w.log[w.savedFrom..Durable(w)]
  {
    WriteSlotKeeps(w, a);
    RecoveredLog(SlotWritten(w, a));
    hide Inv, LoadRing, Unclaimed;
  }

  lemma RecoveredClaimed(w: World, a: Action)
    requires Inv(w) && !w.meta.full && !Unclaimed(w)
    ensures var read := LoadRing(SlotWritten(w, a).slots, w.saved.read, w.saved.cur);
            && read == w.log[w.savedFrom..Victim(w)] + [a] + w.log[Victim(w) + 1..Durable(w)]
            && (read == w.log[w.savedFrom..Durable(w)] <==> w.log[Victim(w)] == a)
  {
    InvRings(w);
    RecoveryReadsLate(w, a);
    hide Inv, Layout, LoadRing, Unclaimed;
    UpdatedSlice(w.log, w.savedFrom, Durable(w), Victim(w), a);
    SameEntry(w.log[w.savedFrom..Victim(w)], a, w.log[Victim(w)], w.log[Victim(w) + 1..Durable(w)]);
  }

  lemma ReplayedLate(base: Disk, log: seq<Action>, from: nat, v: nat, upto: nat, applied: nat, a: Action, bs: nat)
    requires from <= v < upto <= |log| && v <= applied <= |log| && Distinct(log[from..applied])
    ensures ApplyAll(ApplyAll(base, log[..applied], bs), log[from..v] + [a] + log[v + 1..upto], bs)
         == ApplyAll(base, log[..applied] + [a] + log[v + 1..upto], bs)
  {
    hide ApplyAll, Distinct;
    var disk, done, rest := ApplyAll(base, log[..applied], bs), log[from..v], log[v + 1..upto];
    ReplayedPrefix(base, log, from, v, applied, bs);
    ApplyAllConcat(disk, done, [a] + rest, bs);
    ApplyAllConcat(base, log[..applied], [a] + rest, bs);
    assert done + ([a] + rest) == done + [a] + rest;
    assert log[..applied] + ([a] + rest) == log[..applied] + [a] + rest;
  }

  // What readers see then.  The saved entries before the victim change nothing, they were applied; so
  // the late entry comes before saved entries that are older than it, and without the entries that
  // were pushed between the metadata write and itself.
  lemma LateView(w: World, a: Action)
    requires Inv(w) && !w.meta.full && !Unclaimed(w)
    ensures View(Recovered(LatePushed(w, a)))
         == ApplyAll(w.base, w.log[..w.applied] + [a] + w.log[Victim(w) + 1..Durable(w)], w.bs)
  {
    hide Inv, Layout, LoadRing, Unclaimed, ApplyAll, Durable, Distinct, Shape, LatePushed, Recovered, View;
    SavedRing(w);
    ClaimedPlace(w);
    RecoveredPush(w, a);
    RecoveryReadsLate(w, a);
    AppliedSoFar(w);
    ReplayedLate(w.base, w.log, w.savedFrom, Victim(w), Durable(w), w.applied, a, w.bs);
  }

  // The block of the late push itself: it reads as an older entry when one for it lies behind the
  // victim on the saved ring.
  lemma LateBlock(w: World, a: Action)
    requires Inv(w) && !w.meta.full && !Unclaimed(w)
    ensures var behind := LastFor(w.log[Victim(w) + 1..Durable(w)], a.target);
            (Lookup(View(Recovered(LatePushed(w, a))), a.target, w.bs)
             == Payload(if behind.Some? then behind.value else a, w.bs))
  {
    LateView(w, a);
    hide Inv, Unclaimed, Recovered, LatePushed;
    var rest := w.log[Victim(w) + 1..Durable(w)];
    var p := w.log[..w.applied] + [a];
    LastForConcat(p, rest, a.target);
    assert p[|p| - 1] == a;
    ApplyAllAt(w.base, p + rest, w.bs, a.target);
  }

  // ---------------------------------------------------- is it still a prefix?

  ghost predicate SameReads(d: Disk, e: Disk, bs: nat) {
    forall b: nat :: Lookup(d, b, bs) == Lookup(e, b, bs)
  }

  // What recovery would have shown without the late push.
  ghost function Kept(w: World): Disk
    requires Inv(w)
  {
    InvBounds(w);
    ApplyAll(w.base, w.log[..Max(w.applied, Durable(w))], w.bs)
  }

  lemma AroundLate(base: Disk, log: seq<Action>, v: nat, upto: nat, applied: nat, a: Action, bs: nat)
    requires v < upto <= |log| && v < applied <= |log| && Distinct(log[v + 1..applied])
    requires LastFor(log, a.target).None?
    ensures SameReads(ApplyAll(base, log[..applied] + [a] + log[v + 1..upto], bs),
                      ApplyAll(base, log[..Max(applied, upto)], bs)[a.target := Payload(a, bs)], bs)
  {
    var rest, p := log[v + 1..upto], log[..applied];
    ReplayedPrefix(base, log, v + 1, upto, applied, bs);
    ApplyAllConcat(base, p, rest, bs);
    var kept := ApplyAll(base, p + rest, bs);
    assert kept == ApplyAll(base, log[..Max(applied, upto)], bs);
    forall b: nat
      ensures Lookup(ApplyAll(base, p + [a] + rest, bs), b, bs)
           == if b == a.target then Payload(a, bs) else Lookup(kept, b, bs)
    {
      InsertedAction(base, p, a, rest, bs, b);
      if b == a.target { NotInPart(log, v + 1, upto, b); }
    }
  }

  // An action in the middle shows on its own block when nothing follows on it, and on no other.
  lemma InsertedAction(base: Disk, p: seq<Action>, a: Action, q: seq<Action>, bs: nat, b: nat)
    ensures b == a.target && LastFor(q, b).None? ==> Lookup(ApplyAll(base, p + [a] + q, bs), b, bs) == Payload(a, bs)
    ensures b != a.target ==> Lookup(ApplyAll(base, p + [a] + q, bs), b, bs) == Lookup(ApplyAll(base, p + q, bs), b, bs)
  {
    LastForConcat(p + [a], q, b);
    LastForConcat(p, q, b);
    assert (p + [a])[..|p|] == p;
    ApplyAllAt(base, p + [a] + q, bs, b);
    ApplyAllAt(base, p + q, bs, b);
  }

  lemma NotInPart(log: seq<Action>, i: nat, j: nat, b: nat)
    requires i <= j <= |log| && LastFor(log, b).None?
    ensures LastFor(log[i..j], b).None? && LastFor(log[..j], b).None?
  {
    LastForIsThere(log, b);
    LastForIsThere(log[i..j], b);
    LastForIsThere(log[..j], b);
  }

  lemma LateOnFreshBlock(w: World, a: Action)
    requires Inv(w) && !w.meta.full && !Unclaimed(w) && LastFor(w.log, a.target).None?
    ensures SameReads(View(Recovered(LatePushed(w, a))), Kept(w)[a.target := Payload(a, w.bs)], w.bs)
  {
    hide Inv, Layout, Unclaimed, ApplyAll, LatePushed, Recovered, View, LastFor, SameReads;
    SavedRing(w);
    ClaimedPlace(w);
    LateView(w, a);
    AppliedSoFar(w);
    DistinctPart(w.log, w.savedFrom, Victim(w) + 1, w.applied);
    AroundLate(w.base, w.log, Victim(w), Durable(w), w.applied, a, w.bs);
  }

  lemma DistinctPart(log: seq<Action>, i: nat, j: nat, k: nat)
    requires i <= j <= k <= |log| && Distinct(log[i..k])
    ensures Distinct(log[j..k])
  {
    assert log[j..k] == log[i..k][j - i..];
  }

  // The disk after some prefix of the history that ends with the late push.
  ghost predicate ReadsAsPrefix(d: Disk, w: World, a: Action) {
    exists k :: 0 <= k <= |w.log| + 1 && SameReads(d, ApplyAll(w.base, (w.log + [a])[..k], w.bs), w.bs)
  }

  lemma PrefixOfReads(w: World, a: Action, seen: Disk)
    requires Inv(w) && LastFor(w.log, a.target).None? && Lookup(w.base, a.target, w.bs) != Payload(a, w.bs)
    requires SameReads(seen, Kept(w)[a.target := Payload(a, w.bs)], w.bs)
    ensures ReadsAsPrefix(seen, w, a) <==> SameReads(Kept(w), View(w), w.bs)
  {
    hide Inv, ApplyAll, LastFor;
    var kept, t, data := Kept(w), a.target, Payload(a, w.bs);
    FullHistory(w, a);
    assert (w.log + [a])[..|w.log| + 1] == w.log + [a];
    forall k | 0 <= k <= |w.log|
      ensures Lookup(ApplyAll(w.base, (w.log + [a])[..k], w.bs), t, w.bs) != data
    {
      assert (w.log + [a])[..k] == w.log[..k];
      Untouched(w.base, w.log, k, t, w.bs);
    }
    assert Lookup(seen, t, w.bs) == data by { assert Lookup(kept[t := data], t, w.bs) == data; }
    KeptAtFresh(w, t);
    forall b: nat | b != t
      ensures Lookup(seen, b, w.bs) == Lookup(kept, b, w.bs)
    {
      assert Lookup(kept[t := data], b, w.bs) == Lookup(kept, b, w.bs);
    }
  }

  // For every world and every late push that takes a claimed slot and changes a block no other entry is
  // for: what recovery shows is a prefix of the history if and only if recovery without the late push
  // would have lost nothing.  Else the late push survives entries that are older than it.
  lemma PrefixExactly(w: World, a: Action)
    requires Inv(w) && !w.meta.full && !Unclaimed(w) && LastFor(w.log, a.target).None?
    requires Lookup(w.base, a.target, w.bs) != Payload(a, w.bs)
    ensures ReadsAsPrefix(View(Recovered(LatePushed(w, a))), w, a) <==> SameReads(Kept(w), View(w), w.bs)
  {
    SavedRing(w);
    LateOnFreshBlock(w, a);
    PrefixOfReads(w, a, View(Recovered(LatePushed(w, a))));
    hide *;
  }

  lemma Untouched(base: Disk, log: seq<Action>, k: nat, t: nat, bs: nat)
    requires k <= |log| && LastFor(log, t).None?
    ensures Lookup(ApplyAll(base, log[..k], bs), t, bs) == Lookup(base, t, bs)
  {
    NotInPart(log, 0, k, t);
    ApplyAllAt(base, log[..k], bs, t);
  }

  lemma KeptAtFresh(w: World, t: nat)
    requires Inv(w) && LastFor(w.log, t).None?
    ensures Lookup(Kept(w), t, w.bs) == Lookup(View(w), t, w.bs) == Lookup(w.base, t, w.bs)
  {
    InvBounds(w);
    Untouched(w.base, w.log, Max(w.applied, Durable(w)), t, w.bs);
    Untouched(w.base, w.log, |w.log|, t, w.bs);
    assert w.log[..|w.log|] == w.log;
  }

  lemma FullHistory(w: World, a: Action)
    ensures ApplyAll(w.base, w.log + [a], w.bs) == View(w)[a.target := Payload(a, w.bs)]
  {
    assert (w.log + [a])[..|w.log|] == w.log;
  }

  // ------------------------------------------- any number of late pushes, and a save

  // All that the invariant says but for what the saved ring holds.
  ghost predicate MemoryInv(w: World) {
    && Layout(w)
    && Holds(w.slots, w.meta, w.log, w.committed)
    && w.cache == CacheOf(w.log[w.committed..], w.bs)
    && w.data == ApplyAll(w.base, w.log[..w.applied], w.bs)
    && Distinct(w.log[w.savedFrom..w.applied])
  }

  lemma MemoryHalf(w: World)
    ensures Inv(w) <==> MemoryInv(w) && Holds(w.slots, w.saved, w.log, w.savedFrom)
  {
    hide Layout, Holds, CacheOf, ApplyAll, Distinct;
  }

  ghost predicate Fit(w: World, p: seq<Action>) {
    w.meta.cur + |p| <= w.n && Sound(p, w.bs)
  }

  // One late push after the other, while there is room.
  ghost function LatePushes(w: World, p: seq<Action>): World {
    if p == [] then w
    else
      var w1 := LatePushes(w, p[..|p| - 1]);
      if Layout(w1) && !w1.meta.full then LatePushed(w1, p[|p| - 1]) else w1
  }

  // Only slots, memory and history change.
  ghost predicate SameDisk(w: World, w': World) {
    w' == w.(slots := w'.slots, meta := w'.meta, cache := w'.cache, log := w'.log)
  }

  lemma LatePushLayout(w: World, a: Action)
    requires MemoryInv(w) && w.meta.cur < w.n && |Payload(a, w.bs)| == w.bs
    ensures Layout(w) && !w.meta.full && Layout(LatePushed(w, a))
    ensures LatePushed(w, a) == w.(slots := w.slots[w.meta.write := Some(a)], meta := Advance(w.meta, w.n),
                                   cache := PutInCache(w.cache, a, w.bs), log := w.log + [a])
    ensures |w.slots| == w.n && Shape(w.meta, w.n) && w.committed + w.meta.cur == |w.log| && w.meta.write < w.n
    ensures w.meta.write == At(w.meta.read, w.meta.cur, w.n) && w.committed <= w.applied <= |w.log|
    ensures w.savedFrom <= w.committed
  {
    hide Holds, CacheOf, ApplyAll, Distinct, PutInCache;
    AdvanceKeepsShape(w.meta, w.n);
  }

  lemma LatePushKeeps(w: World, a: Action)
    requires MemoryInv(w) && w.meta.cur < w.n && |Payload(a, w.bs)| == w.bs
    ensures Layout(w) && !w.meta.full && MemoryInv(LatePushed(w, a)) && SameDisk(w, LatePushed(w, a))
    ensures LatePushed(w, a).log == w.log + [a] && LatePushed(w, a).meta.cur == w.meta.cur + 1
  {
    LatePushLayout(w, a);
    hide Layout, Holds, CacheOf, ApplyAll, Distinct, Shape, PutInCache, LatePushed, At;
    HoldsElsewhere(w.slots, w.meta, w.log, w.committed, w.meta.cur, a);
    HoldsOneMore(w.slots[w.meta.write := Some(a)], w.meta, w.log, a, w.committed);
    LongerTail(w.log, a, w.committed);
    LongerTail(w.log, a, w.applied);
    CacheOfPush(w.log[w.committed..], a, w.bs);
  }

  lemma FitLess(w: World, p: seq<Action>)
    requires Fit(w, p) && p != []
    ensures Fit(w, p[..|p| - 1]) && |Payload(p[|p| - 1], w.bs)| == w.bs && w.meta.cur + |p| <= w.n
    ensures w.log + p[..|p| - 1] + [p[|p| - 1]] == w.log + p
  {
    hide Payload;
    assert p[|p| - 1] in p;
  }

  lemma {:induction false} LatePushesKeep(w: World, p: seq<Action>)
    requires MemoryInv(w) && Fit(w, p)
    ensures var w' := LatePushes(w, p);
            && MemoryInv(w') && Layout(w') && SameDisk(w, w') && w'.log == w.log + p && w'.meta.cur == w.meta.cur + |p|
  {
    hide MemoryInv, Layout, Fit, Payload, LatePushed;
    if p == [] {
      IsLaidOut(w);
      assert w.log + p == w.log;
    } else {
      FitLess(w, p);
      LatePushesKeep(w, p[..|p| - 1]);
      LatePushKeeps(LatePushes(w, p[..|p| - 1]), p[|p| - 1]);
      IsLaidOut(LatePushes(w, p));
    }
  }

  lemma IsLaidOut(w: World)
    requires MemoryInv(w)
    ensures Layout(w)
  {
    hide Layout;
  }

  // Reading never sees anything but the newest push, however many of them were late.
  lemma LateReads(w: World, b: nat)
    requires MemoryInv(w)
    ensures Reads(w, b) == Lookup(View(w), b, w.bs)
  {
    CacheShowsView(w, b);
    hide *;
  }

  lemma SavedLayout(w: World)
    requires Layout(w)
    ensures Layout(MetaSaved(w)) && Durable(MetaSaved(w)) == |w.log|
    ensures w.savedFrom <= w.committed <= w.applied <= |w.log|
  {
    hide Sound, Sized;
  }

  // A metadata write that succeeds heals every late push before it.
  lemma SaveHeals(w: World)
    requires MemoryInv(w)
    ensures Inv(MetaSaved(w)) && Durable(MetaSaved(w)) == |w.log|
  {
    hide Inv, Layout, Holds, CacheOf, ApplyAll, Distinct, Durable;
    SavedLayout(w);
    DistinctPart(w.log, w.savedFrom, w.committed, w.applied);
    MemoryHalf(MetaSaved(w));
  }

  // To the specification, late pushes and the metadata write after them are pushes and a save: what is
  // proved of whole runs holds of what follows.
  lemma HealedRefines(w: World, p: seq<Action>, s: Spec, origin: Disk)
    requires Good(w, s, origin) && Fit(w, p)
    ensures MemoryInv(w) && Good(MetaSaved(LatePushes(w, p)), Spec(s.hist + p, |s.hist + p|), origin)
  {
    GoodMeans(w, s, origin);
    ViewAgrees(w, s, origin);
    MemoryHalf(w);
    hide Good, Inv, Refines, MemoryInv, Fit, ApplyAll;
    LatePushesKeep(w, p);
    var w' := LatePushes(w, p);
    SaveHeals(w');
    ApplyAllConcat(w.base, w.log, p, w.bs);
    ApplyAllConcat(origin, s.hist, p, w.bs);
    AllDurable(MetaSaved(w'), Spec(s.hist + p, |s.hist + p|), origin);
    GoodMeans(MetaSaved(w'), Spec(s.hist + p, |s.hist + p|), origin);
  }

  // The log as the slots have it after the late pushes p: push j took the place of entry |log| + j - n.
  ghost function Overwritten(log: seq<Action>, p: seq<Action>, n: nat): seq<Action> {
    seq(|log|, m requires 0 <= m < |log| => if |log| <= m + n < |log| + |p| then p[m + n - |log|] else log[m])
  }

  lemma OverwrittenOnce(log: seq<Action>, p: seq<Action>, n: nat)
    requires p != []
    ensures var q, m := p[..|p| - 1], |log| + |p| - 1 - n;
            (Overwritten(log, p, n)
             == if 0 <= m < |log| then Overwritten(log, q, n)[m := p[|p| - 1]] else Overwritten(log, q, n))
  {
  }

  lemma {:induction false} HoldsLatePushes(w: World, p: seq<Action>)
    requires Inv(w) && Fit(w, p)
    ensures MemoryInv(w) && Shape(w.saved, w.n) && |LatePushes(w, p).slots| == w.n && Durable(w) <= |w.log|
    ensures |Overwritten(w.log, p, w.n)| == |w.log|
    ensures Holds(LatePushes(w, p).slots, w.saved, Overwritten(w.log, p, w.n), w.savedFrom)
  {
    hide Inv, MemoryInv, Layout, Holds, Fit, LatePushes, Shape;
    MemoryHalf(w);
    InvBounds(w);
    LatePushesKeep(w, p);
    SlotCount(LatePushes(w, p));
    if p == [] {
      NothingOverwritten(w);
    } else {
      var q, a := p[..|p| - 1], p[|p| - 1];
      FitLess(w, p);
      HoldsLatePushes(w, q);
      OverwrittenOnce(w.log, p, w.n);
      LatePushesKeep(w, q);
      LastLatePush(w, p);
      LatePlace(LatePushes(w, q), w.saved, Overwritten(w.log, q, w.n), a);
    }
  }

  lemma SlotCount(w: World)
    requires Layout(w)
    ensures |w.slots| == w.n
  {
  }

  lemma NothingOverwritten(w: World)
    ensures LatePushes(w, []) == w && Overwritten(w.log, [], w.n) == w.log
  {
  }

  lemma LastLatePush(w: World, p: seq<Action>)
    requires p != [] && MemoryInv(LatePushes(w, p[..|p| - 1])) && LatePushes(w, p[..|p| - 1]).meta.cur < w.n
    requires LatePushes(w, p[..|p| - 1]).n == w.n
    ensures var w1 := LatePushes(w, p[..|p| - 1]);
            && !w1.meta.full && w1.meta.write < |w1.slots|
            && LatePushes(w, p).slots == w1.slots[w1.meta.write := Some(p[|p| - 1])]
  {
    hide Holds, CacheOf, ApplyAll, Distinct, PutInCache;
  }

  // The slot that one late push takes, on the saved ring.
  lemma LatePlace(w: World, m: Meta, log: seq<Action>, a: Action)
    requires Layout(w) && !w.meta.full && m == w.saved && |log| >= Durable(w)
    requires Holds(w.slots, m, log, w.savedFrom)
    ensures w.meta.write < |w.slots| == w.n
    ensures var i := |w.log| - w.n;
            Holds(w.slots[w.meta.write := Some(a)], m, if 0 <= i < |log| then log[i := a] else log, w.savedFrom)
  {
    hide Holds, Sound, Sized;
    WriteOnSavedRing(w);
    var d, i := |w.log| - w.savedFrom, |w.log| - w.n;
    var j := if d < w.n then d else d - w.n;
    if j < m.cur {
      HoldsLate(w.slots, m, log, w.savedFrom, j, a);
    } else {
      HoldsElsewhere(w.slots, m, log, w.savedFrom, j, a);
      if 0 <= i < |log| { HoldsBeside(w.slots[w.meta.write := Some(a)], m, log, w.savedFrom, i, a); }
    }
  }

  lemma HoldsBeside(slots: seq<Option<Action>>, m: Meta, log: seq<Action>, from: nat, i: nat, a: Action)
    requires Shape(m, |slots|) && from + m.cur <= |log| && i < |log| && !(from <= i < from + m.cur)
    requires Holds(slots, m, log, from)
    ensures Holds(slots, m, log[i := a], from)
  {
  }

  // After any number of late pushes and a crash, recovery reads the saved entries with the late ones in
  // the places they took; these are the saved entries themselves exactly when each late push took no
  // saved place or an equal entry's.
  lemma RecoveredAfterMany(w: World, p: seq<Action>)
    requires Inv(w) && Fit(w, p)
    ensures LatePushes(w, p).saved.read < |LatePushes(w, p).slots| && w.savedFrom <= Durable(w) <= |w.log|
    ensures Recovered(LatePushes(w, p)).log == Overwritten(w.log, p, w.n)[w.savedFrom..Durable(w)]
    ensures Recovered(LatePushes(w, p)).log == w.log[w.savedFrom..Durable(w)] <==>
            forall j :: 0 <= j < |p| && w.savedFrom <= |w.log| + j - w.n < Durable(w) ==>
                          p[j] == w.log[|w.log| + j - w.n]
  {
    hide Inv, MemoryInv, Layout, Holds, Fit, LatePushes, LoadRing, CacheOf, Overwritten, Shape, Durable;
    HoldsLatePushes(w, p);
    SavedRing(w);
    LatePushesKeep(w, p);
    LoadRingAll(LatePushes(w, p).slots, w.saved, Overwritten(w.log, p, w.n), w.savedFrom);
    OverwrittenPart(w.log, p, w.n, w.savedFrom, Durable(w));
  }

  lemma OverwrittenPart(log: seq<Action>, p: seq<Action>, n: nat, from: nat, upto: nat)
    requires from <= upto <= |log|
    ensures Overwritten(log, p, n)[from..upto] == log[from..upto] <==>
            forall j :: 0 <= j < |p| && from <= |log| + j - n < upto ==> p[j] == log[|log| + j - n]
  {
    var o := Overwritten(log, p, n);
    if o[from..upto] == log[from..upto] {
      forall j | 0 <= j < |p| && from <= |log| + j - n < upto
        ensures p[j] == log[|log| + j - n]
      {
        var m := |log| + j - n;
        assert o[m] == p[j] && o[from..upto][m - from] == o[m] && log[from..upto][m - from] == log[m];
      }
    }
    if forall j :: 0 <= j < |p| && from <= |log| + j - n < upto ==> p[j] == log[|log| + j - n] {
      forall m | from <= m < upto ensures o[m] == log[m] {
        if |log| <= m + n < |log| + |p| {
          var j := m + n - |log|;
          assert p[j] == log[|log| + j - n];
        }
      }
    }
  }

  // ------------------------------------------------------ a run that gets there

  function Filled(v: Byte, bs: nat): Block {
    seq(bs, _ => v)
  }

  function E1(bs: nat): Action { Write(0, Filled(1, bs)) }

  function E2(bs: nat): Action { Write(1, Filled(2, bs)) }

  function E3(bs: nat): Action { Write(5, Filled(3, bs)) }

  // A world of a device with three slots, by its ring and its history.
  ghost function Ring(bs: nat, slots: seq<Option<Action>>, saved: Meta, meta: Meta, log: seq<Action>,
                      committed: nat, applied: nat): World
    requires committed <= |log| && applied <= |log|
  {
    World(bs, 3, slots, saved, ApplyAll(map[], log[..applied], bs), meta, CacheOf(log[committed..], bs),
          map[], log, 0, committed, applied)
  }

  lemma PushedRing(bs: nat, slots: seq<Option<Action>>, saved: Meta, m: Meta, log: seq<Action>, a: Action)
    requires |slots| == 3 && Shape(m, 3) && !m.full
    ensures var w := Ring(bs, slots, saved, m, log, 0, 0);
            Pushed(SlotWritten(w, a), a) == Ring(bs, slots[m.write := Some(a)], saved, Advance(m, 3), log + [a], 0, 0)
  {
    hide CacheOf, PutInCache, ApplyAll;
    CacheOfPush(log, a, bs);
    assert log[0..] == log && (log + [a])[0..] == log + [a] && (log + [a])[..0] == log[..0];
  }

  // A push onto such a ring.
  lemma TakenPush(r: Run, bs: nat, slots: seq<Option<Action>>, saved: Meta, m: Meta, log: seq<Action>, a: Action)
    returns (r': Run)
    requires GoodRun(r) && |slots| == 3 && Shape(m, 3) && !m.full && |Payload(a, bs)| == bs && |log| < 3
    requires LastWorld(r) == Ring(bs, slots, saved, m, log, 0, 0)
    ensures GoodRun(r') && |r'.worlds| > 0 && r'.worlds[0] == r.worlds[0]
    ensures LastWorld(r') == Ring(bs, slots[m.write := Some(a)], saved, Advance(m, 3), log + [a], 0, 0)
  {
    hide GoodRun, Layout, CacheOf, ApplyAll, Advance, Durable;
    PushedRing(bs, slots, saved, m, log, a);
    r' := Taken(r, WriteSlot(a));
    r' := Taken(r', FinishPush(a));
  }

  // The data backend of such a ring takes the next entry.
  lemma TakenCommit(r: Run, bs: nat, slots: seq<Option<Action>>, saved: Meta, m: Meta, log: seq<Action>, applied: nat)
    returns (r': Run)
    requires GoodRun(r) && applied < |log| && LastWorld(r) == Ring(bs, slots, saved, m, log, 0, applied)
    requires Grouped(log[0..applied + 1])
    ensures GoodRun(r') && |r'.worlds| > 0 && r'.worlds[0] == r.worlds[0]
    ensures LastWorld(r') == Ring(bs, slots, saved, m, log, 0, applied + 1)
  {
    hide GoodRun, Layout, CacheOf, ApplyAll, Grouped, Apply;
    ApplyNext(map[], log, applied, bs);
    r' := Taken(r, CommitBlock);
  }

  // Two entries saved, a third one pushed, the first two committed and retired, and then the metadata
  // write fails.
  ghost function StaleWorld(bs: nat): World {
    Ring(bs, [Some(E1(bs)), Some(E2(bs)), Some(E3(bs))], Meta(0, 2, false, 2), Meta(2, 0, false, 1),
         [E1(bs), E2(bs), E3(bs)], 2, 2)
  }

  lemma Slots(bs: nat)
    ensures [None, None, None][0 := Some(E1(bs))] == [Some(E1(bs)), None, None]
    ensures [Some(E1(bs)), None, None][1 := Some(E2(bs))] == [Some(E1(bs)), Some(E2(bs)), None]
    ensures [Some(E1(bs)), Some(E2(bs)), None][2 := Some(E3(bs))] == [Some(E1(bs)), Some(E2(bs)), Some(E3(bs))]
    ensures [] + [E1(bs)] == [E1(bs)] && [E1(bs)] + [E2(bs)] == [E1(bs), E2(bs)]
    ensures [E1(bs), E2(bs)] + [E3(bs)] == [E1(bs), E2(bs), E3(bs)]
  {
    hide E1, E2, E3;
  }

  lemma Pointers()
    ensures Advance(Meta(0, 0, false, 0), 3) == Meta(0, 1, false, 1)
    ensures Advance(Meta(0, 1, false, 1), 3) == Meta(0, 2, false, 2)
    ensures Advance(Meta(0, 2, false, 2), 3) == Meta(0, 0, true, 3)
    ensures Retreat(Meta(0, 0, true, 3), 2, 3) == Meta(2, 0, false, 1)
  {
  }

  lemma EmptyRing(bs: nat) returns (r: Run)
    requires 0 < bs
    ensures GoodRun(r) && |r.worlds| > 0 && Fresh(r.worlds[0])
    ensures LastWorld(r) == Ring(bs, [None, None, None], Meta(0, 0, false, 0), Meta(0, 0, false, 0), [], 0, 0)
  {
    var none := Meta(0, 0, false, 0);
    var w := World(bs, 3, [None, None, None], none, map[], none, map[], map[], [], 0, 0, 0);
    FreshIsGood(w);
    r := Run([w], []);
    var log: seq<Action> := [];
    assert log[..0] == [] && log[0..] == [];
  }

  lemma FirstPush(bs: nat) returns (r: Run)
    requires 0 < bs
    ensures GoodRun(r) && |r.worlds| > 0 && Fresh(r.worlds[0])
    ensures LastWorld(r) == Ring(bs, [Some(E1(bs)), None, None], Meta(0, 0, false, 0), Meta(0, 1, false, 1),
                            [E1(bs)], 0, 0)
  {
    r := EmptyRing(bs);
    Slots(bs);
    Pointers();
    hide GoodRun, Layout, Fresh, Ring, Advance;
    r := TakenPush(r, bs, [None, None, None], Meta(0, 0, false, 0), Meta(0, 0, false, 0), [], E1(bs));
  }

  lemma SecondPush(bs: nat) returns (r: Run)
    requires 0 < bs
    ensures GoodRun(r) && |r.worlds| > 0 && Fresh(r.worlds[0])
    ensures LastWorld(r) == Ring(bs, [Some(E1(bs)), Some(E2(bs)), None], Meta(0, 2, false, 2), Meta(0, 2, false, 2),
                            [E1(bs), E2(bs)], 0, 0)
  {
    hide GoodRun, Layout, Fresh, Advance, CacheOf, ApplyAll;
    r := FirstPush(bs);
    Slots(bs);
    Pointers();
    r := TakenPush(r, bs, [Some(E1(bs)), None, None], Meta(0, 0, false, 0), Meta(0, 1, false, 1), [E1(bs)], E2(bs));
    r := Taken(r, SaveMeta);
  }

  lemma ThirdPush(bs: nat) returns (r: Run)
    requires 0 < bs
    ensures GoodRun(r) && |r.worlds| > 0 && Fresh(r.worlds[0])
    ensures LastWorld(r) == Ring(bs, [Some(E1(bs)), Some(E2(bs)), Some(E3(bs))], Meta(0, 2, false, 2),
                            Meta(0, 0, true, 3), [E1(bs), E2(bs), E3(bs)], 0, 0)
  {
    hide GoodRun, Layout, Fresh, Ring, Advance;
    r := SecondPush(bs);
    Slots(bs);
    Pointers();
    r := TakenPush(r, bs, [Some(E1(bs)), Some(E2(bs)), None], Meta(0, 2, false, 2), Meta(0, 2, false, 2),
                   [E1(bs), E2(bs)], E3(bs));
  }

  lemma GroupOfTwo(bs: nat)
    ensures Grouped([E1(bs), E2(bs), E3(bs)][0..1]) && Grouped([E1(bs), E2(bs), E3(bs)][0..2])
  {
    assert [E1(bs), E2(bs), E3(bs)][0..1] == [E1(bs)] && [E1(bs), E2(bs), E3(bs)][0..2] == [E1(bs), E2(bs)];
  }

  // For every block size a run from a fresh journal leads to a world whose next slot is claimed.
  lemma StaleWorldIsReachable(bs: nat) returns (r: Run)
    requires 0 < bs
    ensures IsRun(r.worlds, r.steps) && Fresh(r.worlds[0]) && r.worlds[|r.steps|] == StaleWorld(bs)
    ensures Inv(StaleWorld(bs)) && !StaleWorld(bs).meta.full && !Unclaimed(StaleWorld(bs))
  {
    var two, three := Meta(0, 2, false, 2), Meta(0, 0, true, 3);
    var log := [E1(bs), E2(bs), E3(bs)];
    var slots := [Some(E1(bs)), Some(E2(bs)), Some(E3(bs))];
    r := ThirdPush(bs);
    hide GoodRun, Layout, CacheOf, ApplyAll, Apply, Fresh, E1, E2, E3;
    GroupOfTwo(bs);
    r := TakenCommit(r, bs, slots, two, three, log, 0);
    r := TakenCommit(r, bs, slots, two, three, log, 1);
    r := Taken(r, Retire);
    Pointers();
    hide Retreat;
    assert LastWorld(r) == StaleWorld(bs);
    LastOfRun(r);
  }

  // There any late push to another block survives a crash that takes the third entry: no prefix.
  lemma LatePushLosesOrder(bs: nat, a: Action)
    requires 0 < bs && a.target !in {0, 1, 5} && |Payload(a, bs)| == bs && Payload(a, bs) != Zeros(bs)
    ensures Inv(StaleWorld(bs)) && !StaleWorld(bs).meta.full
    ensures !ReadsAsPrefix(View(Recovered(LatePushed(StaleWorld(bs), a))), StaleWorld(bs), a)
  {
    var w := StaleWorld(bs);
    var _ := StaleWorldIsReachable(bs);
    ThirdIsLost(bs);
    assert LastFor(w.log, a.target).None? by { LastForIsThere(w.log, a.target); }
    hide Inv, ApplyAll, Ring;
    PrefixExactly(w, a);
  }

  lemma ThirdIsLost(bs: nat)
    requires 0 < bs && Inv(StaleWorld(bs))
    ensures !SameReads(Kept(StaleWorld(bs)), View(StaleWorld(bs)), bs)
  {
    var w := StaleWorld(bs);
    var log := w.log;
    assert log[..2] == [E1(bs), E2(bs)] && log[..2][..1] == [E1(bs)] && log[..2][..0] == [];
    ApplyAllAt(map[], log[..2], bs, 5);
    ApplyAllAt(map[], log, bs, 5);
    LastForIsThere(log[..2], 5);
    assert Filled(3, bs)[0] != Zeros(bs)[0];
    assert Lookup(Kept(w), 5, bs) == Zeros(bs) && Lookup(View(w), 5, bs) == Filled(3, bs);
  }
}
