/**
  Faults that the journal does not see.  A file backend returns true when the trim of a group was
  refused (storage_backend_file.cpp:205-240), and journal.cpp:395 looks at the returned value only: the
  group is retired although it never reached the data backend.  And when a pending entry cannot be read
  while the journal is opened, loading stops and the journal goes on with what it has (journal.cpp:66-69).
*/
module JournalFaults {
  import opened Flat
  import opened JournalModel
  import opened JournalSteps

  // -------------------------------------------------------- a refused group

  // The oldest k pending entries are trims or zeroes and a commit is about to carry them out.
  ghost predicate Refusable(w: World, k: nat) {
    && Inv(w) && Settled(w) && w.applied == w.committed && k <= w.meta.cur
    && forall a :: a in Group(w, k) ==> !a.Write?
  }

  ghost function Group(w: World, k: nat): seq<Action> {
    if w.committed + k <= |w.log| then w.log[w.committed..w.committed + k] else []
  }

  ghost function Rest(w: World, k: nat): seq<Action> {
    if w.committed + k <= |w.log| then w.log[w.committed + k..] else []
  }

  // The commit goes on as if the group had been written.
  ghost function RefusedRetired(w: World, k: nat): World
    requires Refusable(w, k)
  {
    Retired(w.(applied := w.committed + k))
  }

  lemma RefusableMeans(w: World, k: nat)
    requires Refusable(w, k)
    ensures Inv(w) && w.applied == w.committed && w.committed + k <= |w.log|
    ensures Group(w, k) == w.log[w.committed..w.committed + k] && Rest(w, k) == w.log[w.committed + k..]
    ensures RefusedRetired(w, k).cache == CacheOf(Rest(w, k), w.bs) && RefusedRetired(w, k).data == w.data
  {
    hide Inv, Layout, Settled, ApplyAll, CacheOf, Retreat, Shape;
    InvBounds(w);
  }

  lemma Slices(log: seq<Action>, c: nat, k: nat)
    requires c + k <= |log|
    ensures log[c..] == log[c..c + k] + log[c + k..] && log == log[..c] + (log[c..c + k] + log[c + k..])
  {
  }

  lemma Pending(w: World, k: nat)
    requires Refusable(w, k)
    ensures w.committed <= |w.log| && w.log[w.committed..] == Group(w, k) + Rest(w, k)
    ensures w.log == w.log[..w.committed] + (Group(w, k) + Rest(w, k))
    ensures w.data == ApplyAll(w.base, w.log[..w.committed], w.bs) && Sized(w.data, w.bs)
    ensures View(w) == ApplyAll(w.data, Group(w, k) + Rest(w, k), w.bs)
    ensures RefusedRetired(w, k).cache == CacheOf(Rest(w, k), w.bs) && RefusedRetired(w, k).data == w.data
  {
    hide Refusable, RefusedRetired, Group, Rest, ApplyAll, CacheOf, Inv;
    RefusableMeans(w, k);
    AppliedSoFar(w);
    DataIsSized(w);
    Slices(w.log, w.committed, k);
    ApplyAllConcat(w.base, w.log[..w.committed], Group(w, k) + Rest(w, k), w.bs);
  }

  lemma DataIsSized(w: World)
    requires Inv(w)
    ensures Sized(w.data, w.bs)
  {
    hide ApplyAll, Holds, CacheOf, Distinct;
    ApplyAllSized(w.base, w.log[..w.applied], w.bs);
  }

  // A cache over a disk: the newest pending entry, else the disk.
  lemma CacheOverDisk(d: Disk, p: seq<Action>, bs: nat, b: nat)
    ensures (if b in CacheOf(p, bs) then CacheOf(p, bs)[b].data else Lookup(d, b, bs))
         == Lookup(ApplyAll(d, p, bs), b, bs)
    ensures Lookup(ApplyAll(d, p, bs), b, bs)
         == if LastFor(p, b).Some? then Payload(LastFor(p, b).value, bs) else Lookup(d, b, bs)
  {
    CacheAt(p, bs, b);
    LastForIsThere(p, b);
    ApplyAllAt(d, p, bs, b);
  }

  // The refused group drops out of the history: readers see what they would see had it never been pushed.
  lemma RefusedDropsOut(w: World, k: nat, b: nat)
    requires Refusable(w, k)
    ensures w.committed <= |w.log|
    ensures Reads(RefusedRetired(w, k), b) == Lookup(ApplyAll(w.base, w.log[..w.committed] + Rest(w, k), w.bs), b, w.bs)
  {
    InvBounds(w);
    Pending(w, k);
    hide Refusable, RefusedRetired, ApplyAll, CacheOf, Lookup;
    CacheOverDisk(w.data, Rest(w, k), w.bs, b);
    ApplyAllConcat(w.base, w.log[..w.committed], Rest(w, k), w.bs);
  }

  // Which blocks change for readers: those with an entry in the group, none behind it, and other data
  // than zeros in the data backend.
  lemma RefusedExactly(w: World, k: nat, b: nat)
    requires Refusable(w, k)
    ensures Reads(w, b) == Lookup(View(w), b, w.bs)
    ensures Reads(RefusedRetired(w, k), b) == Reads(w, b) <==>
            (LastFor(Group(w, k), b).Some? && LastFor(Rest(w, k), b).None? ==> Lookup(w.data, b, w.bs) == Zeros(w.bs))
  {
    ReadIsView(w, b);
    Pending(w, k);
    LastForIsThere(Group(w, k), b);
    assert LastFor(Group(w, k), b).Some? ==> !LastFor(Group(w, k), b).value.Write?;
    hide Refusable, RefusedRetired, ApplyAll, CacheOf, Lookup, Group, Rest, View, LastFor;
    LastForConcat(Group(w, k), Rest(w, k), b);
    CacheOverDisk(w.data, Group(w, k) + Rest(w, k), w.bs, b);
    CacheOverDisk(w.data, Rest(w, k), w.bs, b);
  }

  // A crash before the metadata is saved brings the group back.
  lemma RefusedThenCrash(w: World, k: nat)
    requires Refusable(w, k)
    ensures w.saved.read < |w.slots| && Recovered(RefusedRetired(w, k)) == Recovered(w)
  {
    InvRings(w);
    hide LoadRing, CacheOf;
  }

  // The same devices and the same memory, with a history that starts here.
  ghost function Rebased(w: World): World {
    w.(base := w.data, log := if w.committed <= |w.log| then w.log[w.committed..] else [],
       savedFrom := 0, committed := 0, applied := 0)
  }

  // The metadata is saved: the group is gone for good.
  ghost function RefusedSaved(w: World, k: nat): World
    requires Refusable(w, k)
  {
    Rebased(MetaSaved(RefusedRetired(w, k)))
  }

  lemma HoldsFrom(slots: seq<Option<Action>>, m: Meta, log: seq<Action>, from: nat)
    requires Shape(m, |slots|) && from + m.cur == |log| && Holds(slots, m, log, from)
    ensures Holds(slots, m, log[from..], 0)
  {
  }

  // A world by its devices and its pending entries.
  ghost function JustOpened(bs: nat, n: nat, slots: seq<Option<Action>>, m: Meta, data: Disk, log: seq<Action>): World {
    World(bs, n, slots, m, data, m, CacheOf(log, bs), data, log, 0, 0, 0)
  }

  lemma JustOpenedIsGood(bs: nat, n: nat, slots: seq<Option<Action>>, m: Meta, data: Disk, log: seq<Action>)
    requires 0 < bs && 0 < n == |slots| && Shape(m, n) && m.cur == |log| && Holds(slots, m, log, 0)
    requires Sized(data, bs) && Sound(log, bs)
    ensures Opened(JustOpened(bs, n, slots, m, data, log))
  {
    hide ApplyAll, CacheOf, Holds;
    NothingApplied(data, log, bs);
    assert log[0..] == log && At(m.read, 0, n) == m.read;
  }

  lemma RefusedFields(w: World, k: nat)
    requires Refusable(w, k)
    ensures Shape(w.meta, w.n)
    ensures RefusedSaved(w, k) == JustOpened(w.bs, w.n, w.slots, Retreat(w.meta, k, w.n), w.data, Rest(w, k))
  {
    hide Inv, Layout, Settled, ApplyAll, CacheOf, Retreat, Shape;
    RefusableMeans(w, k);
    InvBounds(w);
  }

  lemma RefusedRing(w: World, k: nat)
    requires Refusable(w, k)
    ensures var m := Retreat(w.meta, k, w.n);
            && 0 < w.bs && 0 < w.n == |w.slots| && Shape(m, w.n) && m.cur == |Rest(w, k)|
            && Holds(w.slots, m, Rest(w, k), 0) && Sound(Rest(w, k), w.bs)
  {
    InvRings(w);
    RetreatHolds(w.slots, w.meta, w.log, w.committed, k);
    HoldsFrom(w.slots, Retreat(w.meta, k, w.n), w.log, w.committed + k);
    hide Inv, Holds, Retreat;
  }

  // From there on the journal is as good as one that was just opened, so that the theorems for all runs
  // hold of what follows: only the group is missing.
  lemma RefusedIsOpened(w: World, k: nat)
    requires Refusable(w, k)
    ensures Opened(RefusedSaved(w, k)) && RefusedSaved(w, k).log == Rest(w, k) && RefusedSaved(w, k).data == w.data
    ensures View(RefusedSaved(w, k)) == ApplyAll(w.data, Rest(w, k), w.bs)
  {
    Pending(w, k);
    RefusedFields(w, k);
    RefusedRing(w, k);
    hide Refusable, Opened, RefusedSaved, ApplyAll, CacheOf, Retreat, Holds, Shape, Sound, Rest;
    JustOpenedIsGood(w.bs, w.n, w.slots, Retreat(w.meta, k, w.n), w.data, Rest(w, k));
  }

  // ------------------------------------------------- runs with refused groups

  datatype Event = Plain(st: Step) | Refused(k: nat)

  ghost predicate EventTaken(w: World, e: Event, w': World) {
    match e
    case Plain(st) => !st.Crash? && StepTaken(w, st, w')
    case Refused(k) => Refusable(w, k) && w' == RefusedSaved(w, k)
  }

  ghost predicate IsEventRun(ws: seq<World>, events: seq<Event>) {
    && |ws| == |events| + 1
    && forall i {:trigger EventTaken(ws[i], events[i], ws[i + 1])} :: 0 <= i < |events| ==>
         EventTaken(ws[i], events[i], ws[i + 1])
  }

  // A history whose last `cur` entries are pending, without the oldest k of those.
  ghost function Without(h: seq<Action>, cur: nat, k: nat): seq<Action> {
    if k <= cur <= |h| then h[..|h| - cur] + h[|h| - cur + k..] else h
  }

  ghost function HistAfter(h: seq<Action>, w: World, e: Event): seq<Action> {
    match e
    case Plain(FinishPush(a)) => h + [a]
    case Plain(_) => h
    case Refused(k) => Without(h, w.meta.cur, k)
  }

  // All pushes in order, but for the groups that were refused.
  ghost function NotRefused(h: seq<Action>, ws: seq<World>, events: seq<Event>): seq<Action>
    requires |ws| == |events| + 1
  {
    if events == [] then h
    else HistAfter(NotRefused(h, ws[..|events|], events[..|events| - 1]), ws[|events| - 1], events[|events| - 1])
  }

  // The pending entries are the end of the history, and the rest of it was retired.
  ghost predicate Tracks(w: World, h: seq<Action>, origin: Disk) {
    && Inv(w) && w.committed <= |w.log| && w.meta.cur <= |h|
    && h[|h| - w.meta.cur..] == w.log[w.committed..]
    && ApplyAll(w.base, w.log[..w.committed], w.bs) == ApplyAll(origin, h[..|h| - w.meta.cur], w.bs)
  }

  lemma TracksInv(w: World, h: seq<Action>, origin: Disk)
    requires Tracks(w, h, origin)
    ensures Inv(w) && Layout(w) && w.committed <= |w.log| && w.meta.cur <= |h|
  {
    InvRings(w);
    hide Inv, Layout;
  }

  lemma TracksFrom(w: World, h: seq<Action>, s: nat, origin: Disk)
    requires Inv(w) && s + w.meta.cur == |h| && w.committed <= |w.log|
    ensures Tracks(w, h, origin) <==>
            && h[s..] == w.log[w.committed..]
            && ApplyAll(w.base, w.log[..w.committed], w.bs) == ApplyAll(origin, h[..s], w.bs)
  {
    hide Inv, ApplyAll;
  }

  lemma TracksView(w: World, h: seq<Action>, origin: Disk)
    requires Tracks(w, h, origin)
    ensures View(w) == ApplyAll(origin, h, w.bs)
  {
    var c, s := w.committed, |h| - w.meta.cur;
    hide Inv, ApplyAll;
    assert w.log[..c] + w.log[c..] == w.log && h[..s] + h[s..] == h;
    ApplyAllConcat(w.base, w.log[..c], w.log[c..], w.bs);
    ApplyAllConcat(origin, h[..s], h[s..], w.bs);
  }

  lemma PushTracks(w: World, a: Action, h: seq<Action>, origin: Disk)
    requires Tracks(w, h, origin) && Enabled(w, FinishPush(a))
    ensures Tracks(Pushed(w, a), h + [a], origin)
  {
    FinishPushKeeps(w, a);
    hide Inv, ApplyAll, PutInCache, StepTaken;
    LongerTail(w.log, a, w.committed);
    LongerTail(h, a, |h| - w.meta.cur);
  }

  lemma SameTracks(w: World, w': World, h: seq<Action>, origin: Disk)
    requires Tracks(w, h, origin) && Inv(w')
    requires w'.bs == w.bs && w'.base == w.base && w'.log == w.log && w'.committed == w.committed
    requires w'.meta.cur == w.meta.cur
    ensures Tracks(w', h, origin)
  {
    hide Inv, ApplyAll;
  }

  // The line between what is retired and what is pending moves by d entries.
  lemma LineMoves(base: Disk, log: seq<Action>, c: nat, origin: Disk, h: seq<Action>, s: nat, d: nat, bs: nat)
    requires s <= |h| && c + d <= |log| && h[s..] == log[c..]
    requires ApplyAll(base, log[..c], bs) == ApplyAll(origin, h[..s], bs)
    ensures s + d <= |h| && h[s + d..] == log[c + d..]
    ensures ApplyAll(base, log[..c + d], bs) == ApplyAll(origin, h[..s + d], bs)
  {
    hide ApplyAll;
    SameTail(log, c, h, s, d);
    assert h[s + d..] == h[s..][d..] && log[c + d..] == log[c..][d..];
    ApplyAllConcat(base, log[..c], log[c..c + d], bs);
    ApplyAllConcat(origin, h[..s], log[c..c + d], bs);
  }

  lemma RetiredFields(w: World)
    requires Inv(w) && Enabled(w, Retire)
    ensures Inv(Retired(w)) && Retired(w).meta.cur == w.meta.cur - (w.applied - w.committed)
    ensures Retired(w).committed == w.applied && Retired(w).log == w.log && Retired(w).base == w.base
    ensures Retired(w).bs == w.bs && w.committed <= w.applied <= |w.log|
  {
    RetireKeeps(w);
    InvBounds(w);
    hide Inv, ApplyAll, CacheOf, Holds;
  }

  lemma RetireTracks(w: World, h: seq<Action>, origin: Disk)
    requires Tracks(w, h, origin) && Enabled(w, Retire)
    ensures Tracks(Retired(w), h, origin)
  {
    hide Inv, ApplyAll, Retired, Layout, Tracks, Enabled;
    TracksInv(w, h, origin);
    RetiredFields(w);
    var s := |h| - w.meta.cur;
    TracksFrom(w, h, s, origin);
    LineMoves(w.base, w.log, w.committed, origin, h, s, w.applied - w.committed, w.bs);
    TracksFrom(Retired(w), h, s + (w.applied - w.committed), origin);
  }

  lemma WithoutParts(h: seq<Action>, cur: nat, k: nat)
    requires k <= cur <= |h|
    ensures var s := |h| - cur; var h' := Without(h, cur, k);
            && |h'| == |h| - k && h'[..s] == h[..s] && h'[s..] == h[s + k..] == h[s..][k..]
  {
  }

  lemma RefusedShape(w: World, k: nat)
    requires Refusable(w, k)
    ensures var w' := RefusedSaved(w, k);
            && Inv(w') && w'.log == Rest(w, k) && w'.committed == 0 && w'.base == w.data && w'.bs == w.bs
            && w'.meta.cur == w.meta.cur - k
    ensures k <= w.meta.cur && w.committed + k <= |w.log| && Rest(w, k) == w.log[w.committed..][k..]
    ensures w.data == ApplyAll(w.base, w.log[..w.committed], w.bs)
  {
    hide Inv, ApplyAll, CacheOf, RefusedSaved, RefusedRetired, Settled;
    RefusedIsOpened(w, k);
    RefusedFields(w, k);
    RefusableMeans(w, k);
    Pending(w, k);
  }

  lemma RefusedTracks(w: World, k: nat, h: seq<Action>, origin: Disk)
    requires Tracks(w, h, origin) && Refusable(w, k)
    ensures Tracks(RefusedSaved(w, k), Without(h, w.meta.cur, k), origin)
  {
    hide Inv, Tracks, Refusable, RefusedSaved, Rest, Without, ApplyAll;
    TracksInv(w, h, origin);
    RefusedShape(w, k);
    var s := |h| - w.meta.cur;
    TracksFrom(w, h, s, origin);
    WithoutParts(h, w.meta.cur, k);
    NothingApplied(w.data, Rest(w, k), w.bs);
    assert Rest(w, k)[0..] == Rest(w, k);
    TracksFrom(RefusedSaved(w, k), Without(h, w.meta.cur, k), s, origin);
  }

  lemma EventTracks(w: World, e: Event, w': World, h: seq<Action>, origin: Disk)
    requires Tracks(w, h, origin) && EventTaken(w, e, w')
    ensures Tracks(w', HistAfter(h, w, e), origin) && w'.bs == w.bs
  {
    hide Inv, Tracks, ApplyAll, Layout, CacheOf, Retreat;
    match e
    case Refused(k) =>
      RefusedTracks(w, k, h, origin);
    case Plain(st) =>
      TracksInv(w, h, origin);
      StepKeeps(w, st);
      match st {
        case FinishPush(a) => PushTracks(w, a, h, origin);
        case Retire => RetireTracks(w, h, origin);
        case _ => SameTracks(w, w', h, origin);
      }
  }

  lemma OpenedTracks(w: World)
    requires Opened(w)
    ensures Tracks(w, w.log, w.data)
  {
    InvBounds(w);
    AppliedSoFar(w);
    hide Inv, ApplyAll;
  }

  lemma EventRunPart(ws: seq<World>, events: seq<Event>)
    requires IsEventRun(ws, events) && events != []
    ensures var k := |events| - 1;
            IsEventRun(ws[..k + 1], events[..k]) && EventTaken(ws[k], events[k], ws[k + 1]) && |ws| == k + 2
  {
    hide EventTaken;
    var k := |events| - 1;
    assert EventTaken(ws[k], events[k], ws[k + 1]);
    var ws', events' := ws[..|events|], events[..|events| - 1];
    forall i | 0 <= i < |events'| ensures EventTaken(ws'[i], events'[i], ws'[i + 1]) {
      assert EventTaken(ws[i], events[i], ws[i + 1]);
    }
  }

  lemma {:induction false} EventsTrack(ws: seq<World>, events: seq<Event>)
    requires IsEventRun(ws, events) && Opened(ws[0])
    ensures Tracks(ws[|events|], NotRefused(ws[0].log, ws, events), ws[0].data) && ws[|events|].bs == ws[0].bs
  {
    hide Opened, Tracks, EventTaken;
    if events == [] {
      OpenedTracks(ws[0]);
    } else {
      var k := |events| - 1;
      EventRunPart(ws, events);
      hide IsEventRun;
      EventsTrack(ws[..k + 1], events[..k]);
      EventTracks(ws[k], events[k], ws[k + 1], NotRefused(ws[0].log, ws[..k + 1], events[..k]), ws[0].data);
    }
  }

  // Any run without a crash, with refused groups anywhere in it: readers see the original disk after all
  // pushes in order but for those groups.
  lemma LostExactly(ws: seq<World>, events: seq<Event>, b: nat)
    requires IsEventRun(ws, events) && Opened(ws[0])
    ensures Inv(ws[|events|])
    ensures Reads(ws[|events|], b)
         == Lookup(ApplyAll(ws[0].data, NotRefused(ws[0].log, ws, events), ws[0].bs), b, ws[0].bs)
  {
    hide Inv, Opened, Tracks, ApplyAll, NotRefused, IsEventRun, Lookup, View;
    EventRunLength(ws, events);
    EventsTrack(ws, events);
    TracksInv(ws[|events|], NotRefused(ws[0].log, ws, events), ws[0].data);
    TracksView(ws[|events|], NotRefused(ws[0].log, ws, events), ws[0].data);
    ReadIsView(ws[|events|], b);
  }

  lemma EventRunLength(ws: seq<World>, events: seq<Event>)
    requires IsEventRun(ws, events)
    ensures |ws| == |events| + 1
  {
    hide EventTaken;
  }

  // ------------------------------------------------------- a run that gets there

  // The fields that the run below goes by.
  ghost predicate Stands(w: World, bs: nat, n: nat, log: seq<Action>, retired: nat) {
    && Inv(w) && w.bs == bs && w.n == n && w.log == log && w.base == map[]
    && w.savedFrom == w.committed == w.applied == retired
  }

  ghost predicate GoodFrom(r: Run, w0: World) {
    GoodRun(r) && |r.worlds| > 0 && r.worlds[0] == w0
  }

  lemma TakenFrom(r: Run, st: Step, w0: World) returns (r': Run)
    requires GoodFrom(r, w0) && Enabled(LastWorld(r), st)
    ensures GoodFrom(r', w0) && LastWorld(r') == Do(LastWorld(r), st)
  {
    hide GoodRun, Enabled, Do;
    r' := Taken(r, st);
  }

  // With an empty ring there is room for a push.
  lemma RoomToPush(w: World, bs: nat, n: nat, log: seq<Action>, a: Action)
    requires Stands(w, bs, n, log, |log|) && |Payload(a, bs)| == bs
    ensures Layout(w) && Enabled(w, WriteSlot(a)) && Enabled(SlotWritten(w, a), FinishPush(a))
    ensures Stands(Pushed(SlotWritten(w, a), a), bs, n, log + [a], |log|)
  {
    InvRings(w);
    SettledIsUnclaimed(w);
    WriteSlotKeeps(w, a);
    FinishPushKeeps(SlotWritten(w, a), a);
  }

  // A single pending entry is written back, retired and the metadata saved.
  lemma CommitOfOne(w: World, bs: nat, n: nat, a: Action)
    requires Stands(w, bs, n, [a], 0)
    ensures Layout(w) && Enabled(w, CommitBlock)
    ensures Inv(BlockCommitted(w)) && Layout(BlockCommitted(w)) && Enabled(BlockCommitted(w), Retire)
    ensures Stands(MetaSaved(Retired(BlockCommitted(w))), bs, n, [a], 1)
  {
    InvRings(w);
    CommitBlockKeeps(w);
    var w1 := BlockCommitted(w);
    InvRings(w1);
    RetireKeeps(w1);
    SaveMetaKeeps(Retired(w1));
  }

  ghost function Empty(bs: nat, n: nat): World {
    var none := Meta(0, 0, false, 0);
    World(bs, n, seq(n, _ => None), none, map[], none, map[], map[], [], 0, 0, 0)
  }

  lemma TakenPush(r: Run, w0: World, bs: nat, n: nat, log: seq<Action>, a: Action) returns (r': Run)
    requires GoodFrom(r, w0) && Stands(LastWorld(r), bs, n, log, |log|) && |Payload(a, bs)| == bs
    ensures GoodFrom(r', w0) && Stands(LastWorld(r'), bs, n, log + [a], |log|)
  {
    RoomToPush(LastWorld(r), bs, n, log, a);
    hide Stands, GoodRun, Layout, Enabled, SlotWritten, Pushed;
    r' := TakenFrom(r, WriteSlot(a), w0);
    r' := TakenFrom(r', FinishPush(a), w0);
  }

  lemma TakenCommit(r: Run, w0: World, bs: nat, n: nat, a: Action) returns (r': Run)
    requires GoodFrom(r, w0) && Stands(LastWorld(r), bs, n, [a], 0)
    ensures GoodFrom(r', w0) && Stands(LastWorld(r'), bs, n, [a], 1)
  {
    CommitOfOne(LastWorld(r), bs, n, a);
    hide Stands, GoodRun, Layout, Enabled, Retired, MetaSaved, BlockCommitted;
    r' := TakenFrom(r, CommitBlock, w0);
    r' := TakenFrom(r', Retire, w0);
    r' := TakenFrom(r', SaveMeta, w0);
  }

  // For every block size, number of slots and data: block 0 is written and committed, and then trimmed.
  lemma TrimIsPending(bs: nat, n: nat, data: Block) returns (r: Run)
    requires 0 < bs == |data| && 0 < n
    ensures GoodFrom(r, Empty(bs, n)) && Fresh(Empty(bs, n))
    ensures Stands(LastWorld(r), bs, n, [Write(0, data), Trim(0)], 1)
  {
    var w0 := Empty(bs, n);
    FreshIsGood(w0);
    r := Run([w0], []);
    assert [] + [Write(0, data)] == [Write(0, data)];
    assert [Write(0, data)] + [Trim(0)] == [Write(0, data), Trim(0)];
    hide Inv, Empty, Fresh;
    r := TakenPush(r, w0, bs, n, [], Write(0, data));
    r := TakenCommit(r, w0, bs, n, Write(0, data));
    r := TakenPush(r, w0, bs, n, [Write(0, data)], Trim(0));
  }

  // The data backend refuses that trim: the block read as zeros, and reads as the old data again.
  lemma RefusedTrimShows(bs: nat, n: nat, data: Block, w: World)
    requires 0 < bs == |data| && Stands(w, bs, n, [Write(0, data), Trim(0)], 1)
    ensures Refusable(w, 1) && Reads(w, 0) == Zeros(bs) && Reads(RefusedRetired(w, 1), 0) == data
  {
    InvBounds(w);
    AppliedSoFar(w);
    assert Group(w, 1) == [Trim(0)] && Rest(w, 1) == [];
    assert w.log[..1] == [Write(0, data)] && w.log[..1][..0] == [];
    hide Inv, RefusedRetired;
    assert Refusable(w, 1);
    Pending(w, 1);
    CacheOverDisk(w.data, [Trim(0)], bs, 0);
    ReadIsView(w, 0);
    assert [Trim(0)] + [] == [Trim(0)];
    ApplyAllAt(w.base, w.log[..1], bs, 0);
  }

  // --------------------------------------------------- a partly loaded cache

  // Only the first k pending entries were read when the journal was opened; pointers and counts are
  // those of the saved metadata all the same.
  ghost function PartlyLoaded(w: World, k: nat): World
    requires k <= |w.log|
  {
    w.(cache := CacheOf(w.log[..k], w.bs))
  }

  // Readers then see the disk without the entries behind the error; block b is right exactly when there
  // is no such entry for it, or the newest of them changes nothing.
  lemma PartlyLoadedReads(w: World, k: nat, b: nat)
    requires Opened(w) && k <= |w.log|
    ensures Reads(PartlyLoaded(w, k), b) == Lookup(ApplyAll(w.data, w.log[..k], w.bs), b, w.bs)
    ensures var unread := LastFor(w.log[k..], b);
            Reads(PartlyLoaded(w, k), b) == Lookup(View(w), b, w.bs) <==>
            (unread.Some? ==> Lookup(ApplyAll(w.data, w.log[..k], w.bs), b, w.bs) == Payload(unread.value, w.bs))
  {
    var p, q := w.log[..k], w.log[k..];
    assert p + q == w.log;
    assert w.base == w.data by { AppliedSoFar(w); NothingApplied(w.base, w.log, w.bs); }
    hide Opened, ApplyAll, CacheOf, Lookup, LastFor;
    CacheOverDisk(w.data, p, w.bs, b);
    CacheOverDisk(w.data, w.log, w.bs, b);
    LastForConcat(p, q, b);
  }

  // Of the pending entries p only the first k were loaded.  The commit thread finds all blocks of its group
  // in the cache exactly when the group does not reach beyond those; else it ends in the error branch.
  lemma MissingExactly(p: seq<Action>, k: nat, m: nat, bs: nat)
    requires k <= |p| && m <= |p| && Grouped(p[..m])
    ensures (forall i :: 0 <= i < m ==> p[i].target in CacheOf(p[..k], bs)) <==> m <= k
  {
    hide CacheOf, Grouped;
    forall i | 0 <= i < m
      ensures p[i].target in CacheOf(p[..k], bs) <==> i < k
    {
      CacheAt(p[..k], bs, p[i].target);
      LastForIsThere(p[..k], p[i].target);
      if i < k { assert p[..k][i] == p[i]; } else { NotLoaded(p, k, m, i); }
    }
    if k < m { assert p[k].target !in CacheOf(p[..k], bs); }
  }

  lemma NotLoaded(p: seq<Action>, k: nat, m: nat, i: nat)
    requires k <= i < m <= |p| && Grouped(p[..m])
    ensures forall j :: 0 <= j < k ==> p[..k][j].target != p[i].target
  {
    forall j | 0 <= j < k ensures p[..k][j].target != p[i].target {
      assert p[..m][j] == p[j] && p[..m][i] == p[i];
    }
  }

  // The cache after the entries of p are retired one by one; a block that is not there is skipped.
  ghost function Dropped(c: Cache, p: seq<Action>): Cache {
    if p == [] then c
    else
      var rest, t := Dropped(c, p[..|p| - 1]), p[|p| - 1].target;
      if t in rest && rest[t].count > 0 then DropFromCache(rest, t) else rest
  }

  // While only loaded entries are retired, what is left is the cache of the loaded entries behind them.
  lemma {:induction false} LoadedRest(p: seq<Action>, k: nat, m: nat, bs: nat)
    requires m <= k <= |p|
    ensures Dropped(CacheOf(p[..k], bs), p[..m]) == CacheOf(p[m..k], bs)
  {
    hide CacheOf;
    if m == 0 {
      assert p[0..k] == p[..k];
    } else {
      LoadedRest(p, k, m - 1, bs);
      CacheOfRest(p[m - 1..k], bs);
      assert p[m - 1..k][1..] == p[m..k] && p[..m][..m - 1] == p[..m - 1];
    }
  }
}
