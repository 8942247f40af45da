/**
  The journal as the object it is (journal.cpp): methods that update the pointers,
  the cache and the devices in place.  The ghost fields `ws` and `steps` record every
  durable write and in-memory update the methods make; `Valid` says that this record
  is a run of the step system, so that the theorems of JournalSteps hold of it,
  including a crash at any recorded point.
*/
module Journal {
  import opened Flat
  import opened JournalModel
  import opened JournalSteps
  import opened JournalFaults
  import opened JournalPlans

  // The journal device and the data backend.  They survive a crash; every access may fail.  The data
  // backend is one that reports a refused trim as a failure; for the file backend, which does not, see
  // JournalFaults.
  class Devices {
    const bs: nat
    const n: nat
    var slots: seq<Option<Action>>
    var saved: Meta
    var data: Disk
    ghost var faults: nat
    ghost var writes: nat       // writes to the journal device, of entries and metadata
    ghost var synced: nat       // how many of them an fsync covers

    constructor (bs: nat, n: nat, slots: seq<Option<Action>>, data: Disk)
      requires |slots| == n
      ensures this.bs == bs && this.n == n && this.slots == slots && this.data == data
      ensures saved == Meta(0, 0, false, 0) && writes == synced == 0
    {
      this.bs, this.n, this.slots, this.data := bs, n, slots, data;
      this.saved, this.faults, this.writes, this.synced := Meta(0, 0, false, 0), 0, 0, 0;
    }

    // None stands for a slot whose checksum does not fit its contents.
    method ReadSlot(i: nat) returns (ok: bool, e: Option<Action>)
      requires i < |slots|
      modifies this`faults
      ensures ok ==> e == slots[i] && faults == old(faults)
      ensures !ok ==> faults > old(faults)
    {
      ok, e := *, slots[i];
      if !ok { faults := faults + 1; }
    }

    method WriteSlot(i: nat, e: Action) returns (ok: bool)
      requires i < |slots|
      modifies this`slots, this`faults, this`writes
      ensures writes == old(writes) + 1
      ensures ok ==> slots == old(slots)[i := Some(e)] && faults == old(faults)
      ensures !ok ==> slots == old(slots) && faults > old(faults)
    {
      ok, writes := *, writes + 1;
      if ok { slots := slots[i := Some(e)]; } else { faults := faults + 1; }
    }

    method EraseSlot(i: nat) returns (ok: bool)
      requires i < |slots|
      modifies this`slots, this`faults
      ensures ok ==> slots == old(slots)[i := None] && faults == old(faults)
      ensures !ok ==> slots == old(slots) && faults > old(faults)
    {
      ok := *;
      if ok { slots := slots[i := None]; } else { faults := faults + 1; }
    }

    method WriteMeta(m: Meta) returns (ok: bool)
      modifies this`saved, this`faults, this`writes
      ensures writes == old(writes) + 1
      ensures ok ==> saved == m && faults == old(faults)
      ensures !ok ==> saved == old(saved) && faults > old(faults)
    {
      ok, writes := *, writes + 1;
      if ok { saved := m; } else { faults := faults + 1; }
    }

    method Sync() returns (ok: bool)
      modifies this`faults, this`synced
      ensures ok ==> faults == old(faults) && synced == writes
      ensures !ok ==> faults > old(faults) && synced == old(synced)
    {
      ok := *;
      if ok { synced := writes; } else { faults := faults + 1; }
    }

    method GetBlock(b: nat) returns (ok: bool, blk: Block)
      modifies this`faults
      ensures ok ==> blk == Lookup(data, b, bs) && faults == old(faults)
      ensures !ok ==> faults > old(faults)
    {
      ok, blk := *, Lookup(data, b, bs);
      if !ok { faults := faults + 1; }
    }

    method PutBlock(b: nat, blk: Block) returns (ok: bool)
      modifies this`data, this`faults
      ensures ok ==> data == old(data)[b := blk] && faults == old(faults)
      ensures !ok ==> data == old(data) && faults > old(faults)
    {
      ok := *;
      if ok { data := data[b := blk]; } else { faults := faults + 1; }
    }
  }

  class Journal {
    const dev: Devices
    var meta: Meta
    var dirty: nat           // changes to meta since it was last saved
    var cache: Cache
    var fatal: bool          // journal_commit_fatal_error
    var stopped: bool        // stop_flag

    ghost var base: Disk
    ghost var log: seq<Action>
    ghost var savedFrom: nat
    ghost var committed: nat
    ghost var applied: nat
    ghost var needed: nat    // the last write to the journal device that log or saved metadata depends on
    ghost var ws: seq<World>
    ghost var steps: seq<Step>

    ghost function State(): World
      reads this, dev`slots, dev`saved, dev`data
    {
      World(dev.bs, dev.n, dev.slots, dev.saved, dev.data, meta, cache, base, log, savedFrom, committed, applied)
    }

    // ws and steps are a run from a never used journal to here.
    ghost predicate Recorded()
      reads this, dev`slots, dev`saved, dev`data
    {
      IsRun(ws, steps) && Fresh(ws[0]) && ws[|steps|] == State()
    }

    // Holds between any two updates, also halfway through a commit.
    ghost predicate Consistent()
      reads this, dev`slots, dev`saved, dev`data, dev`writes, dev`synced
    {
      && Recorded() && Inv(State()) && needed <= dev.writes
      && (dirty == 0 ==> Settled(State()) && dev.saved == meta && Flushed())
    }

    // All writes that the log or the saved metadata depends on are covered by an fsync.
    ghost predicate Flushed()
      reads this, dev`synced
    {
      needed <= dev.synced
    }

    ghost predicate Valid()
      reads this, dev`slots, dev`saved, dev`data, dev`writes, dev`synced
    {
      Consistent() && (fatal || (Settled(State()) && applied == committed))
    }

    // The disk that this journal presents: the newest pushes over the disk it was opened on.
    ghost function Contents(): Disk
      reads this, dev`slots, dev`saved, dev`data
    {
      View(State())
    }

    // The record was only added to, and no failure was forgotten.
    twostate predicate Later()
      reads this, dev
    {
      && Grown(old(ws), old(steps), ws, steps)
      && old(dev.faults) <= dev.faults && old(dev.writes) <= dev.writes && old(needed) <= needed
    }

    ghost method Record(st: Step)
      requires IsRun(ws, steps) && Fresh(ws[0])
      requires StepTaken(ws[|steps|], st, State())
      modifies this`ws, this`steps
      ensures Recorded() && Grown(old(ws), old(steps), ws, steps)
      ensures ws == old(ws) + [State()] && steps == old(steps) + [st]
    {
      hide StepTaken, Fresh;
      RunGrows(ws, steps, st, State());
      ws, steps := ws + [State()], steps + [st];
    }

    // Opening a journal, never used or left behind by a crash: read the metadata, then load the
    // pending entries.  A read error ends the loading loop early, and the journal goes on with the
    // entries that were loaded until then (see JournalFaults for what that means).
    constructor (dev: Devices, ghost ws: seq<World>, ghost steps: seq<Step>)
      requires IsRun(ws, steps) && Fresh(ws[0]) && Inv(ws[|steps|])
      requires OnDevices(ws[|steps|], dev)
      modifies dev`faults
      ensures this.dev == dev && dev.faults >= old(dev.faults) && dev.n > 0 && |dev.slots| == dev.n
      ensures Shape(dev.saved, dev.n) && !fatal && !stopped && dirty == 0
      ensures exists k: nat ::
                && k <= |Recovered(ws[|steps|]).log| && State() == PartlyLoaded(Recovered(ws[|steps|]), k)
      ensures dev.faults == old(dev.faults) ==>
                && Valid() && !fatal && !stopped
                && State() == Recovered(ws[|steps|])
                && this.ws == ws + [State()] && this.steps == steps + [Crash]
    {
      hide IsRun, Fresh, LoadRing, CacheOf, Holds, ApplyAll, Distinct;
      this.dev := dev;
      meta, dirty, fatal, stopped, cache := dev.saved, 0, false, false, map[];
      base, log := dev.data, LoadRing(dev.slots, dev.saved.read, dev.saved.cur);
      savedFrom, committed, applied, needed := 0, 0, 0, 0;
      new;
      this.ws, this.steps := ws, steps;
      RunLength(ws, steps);
      ghost var k := Load();
      assert State() == PartlyLoaded(Recovered(ws[|steps|]), k);
      if dev.faults == old(dev.faults) {
        assert log[..|log|] == log;
        CrashKeeps(ws[|steps|]);
        Record(Crash);
      }
    }

    // The recovery loop loads the first k of the entries that the ring holds; all of them without an error.
    method Load() returns (ghost k: nat)
      requires Shape(meta, dev.n) && |dev.slots| == dev.n && cache == map[]
      requires log == LoadRing(dev.slots, meta.read, meta.cur)
      modifies this`cache, dev`faults
      ensures dev.faults >= old(dev.faults)
      ensures k <= |log| && cache == CacheOf(log[..k], dev.bs)
      ensures dev.faults == old(dev.faults) ==> k == |log|
    {
      hide CacheOf, PutInCache, LoadRing, NextSlot, At, Shape, Unread;
      k := 0;
      RingBounds(meta, dev.n);
      var at: nat, i: nat := meta.read, 0;
      ghost var loaded: seq<Action> := [];
      NothingLoaded(log, dev.slots, at, meta.cur, dev.bs);
      while i < meta.cur
        invariant at < dev.n && i <= meta.cur && dev.faults >= old(dev.faults)
        invariant cache == CacheOf(loaded, dev.bs)
        invariant Unread(log, loaded, dev.slots, at, meta.cur - i)
      {
        LoadOne(log, loaded, dev.slots, at, meta.cur - i);
        var ok, e := dev.ReadSlot(at);
        k := |loaded|;
        LoadedIsPrefix(log, loaded, dev.slots, at, meta.cur - i);
        if !ok || e.None? { return; }
        PutInCacheNow(e.value);
        CacheOfPush(loaded, e.value, dev.bs);
        loaded := loaded + [e.value];
        NextIsAt(at, dev.n);
        at, i := NextSlot(at, dev.n), i + 1;
      }
      LoadOne(log, loaded, dev.slots, at, 0);
      k := |log|;
      assert log[..k] == loaded;
    }

    method PutInCacheNow(a: Action)
      modifies this`cache
      ensures cache == PutInCache(old(cache), a, dev.bs)
    {
      var data := if a.Write? then a.payload else Zeros(dev.bs);
      var n := 0;
      if a.target in cache { n := cache[a.target].count; }
      n := n + 1;
      cache := cache[a.target := Cached(data, n)];
    }

    // Reading never sees anything but the newest push.
    method GetBlock(b: nat) returns (ok: bool, blk: Block)
      requires Valid()
      modifies dev`faults
      ensures Valid() && dev.faults >= old(dev.faults)
      ensures ok ==> blk == Lookup(Contents(), b, dev.bs)
      ensures !ok ==> dev.faults > old(dev.faults)
    {
      ReadIsView(State(), b);
      if b in cache {
        ok, blk := true, cache[b].data;
      } else {
        ok, blk := dev.GetBlock(b);
      }
    }

    // update_journal_meta_data: on success everything pushed so far survives a crash.
    method UpdateMeta() returns (ok: bool)
      requires Consistent()
      modifies this`dirty, this`savedFrom, this`needed, this`ws, this`steps
      modifies dev`saved, dev`faults, dev`writes, dev`synced
      ensures Consistent() && Later()
      ensures ok ==> Settled(State()) && dev.saved == meta && Durable(State()) == |log| && Flushed() && dirty == 0
      ensures !ok ==> dirty == old(dirty)
      ensures old(dirty) == 0 ==> ok && steps == old(steps) && dev.writes == old(dev.writes)
      ensures old(dirty) > 0 && ok ==> needed == dev.writes == old(dev.writes) + 1
      ensures !ok ==> dev.faults > old(dev.faults) && (Settled(State()) || savedFrom == old(savedFrom))
    {
      hide IsRun, Fresh, StepTaken, Inv, Layout, Grown, Shape;
      InvBounds(State());
      GrownRefl(ws, steps);
      if dirty == 0 { return true; }
      ok := StoreMeta();
      if !ok { return; }
      ok := dev.Sync();
      if !ok { return; }
      dirty := 0;
    }

    method StoreMeta() returns (ok: bool)
      requires Consistent() && dirty > 0
      modifies this`savedFrom, this`needed, this`ws, this`steps, dev`saved, dev`faults, dev`writes
      ensures Consistent() && Later() && dev.writes == old(dev.writes) + 1
      ensures ok ==> Settled(State()) && dev.saved == meta && Durable(State()) == |log| && needed == dev.writes
      ensures !ok ==> dev.faults > old(dev.faults) && savedFrom == old(savedFrom)
    {
      hide IsRun, Fresh, StepTaken, Inv, Layout, Grown, Shape;
      InvBounds(State());
      GrownRefl(ws, steps);
      ghost var w := State();
      SaveMetaKeeps(w);
      ok := dev.WriteMeta(meta);
      if !ok { return; }
      savedFrom, needed := committed, dev.writes;
      assert State() == MetaSaved(w);
      Record(SaveMeta);
    }

    method TransactionEnd() returns (ok: bool)
      requires Valid()
      modifies this`dirty, this`savedFrom, this`needed, this`ws, this`steps
      modifies dev`saved, dev`faults, dev`writes, dev`synced
      ensures Valid() && Later()
      ensures ok ==> Durable(State()) == |log| && Flushed() && dirty == 0
      ensures !ok ==> dev.faults > old(dev.faults)
    {
      hide Inv, IsRun, Fresh, Layout, ApplyAll;
      ok := UpdateMeta();
    }

    // push_action.  A pusher that finds the ring full waits for the commit thread, which runs then.
    method PushAction(a: Action) returns (ok: bool)
      requires Valid() && (a.Write? ==> a.payload != [])
      modifies this, dev
      ensures Valid() && base == old(base) && dev.faults >= old(dev.faults)
      ensures Grown(old(ws), old(steps), ws, steps)
      ensures ok ==> log == old(log) + [a] && !old(fatal) && !old(stopped) && !fatal && needed > old(dev.writes)
      ensures stopped == old(stopped)
      ensures !ok ==> log == old(log)
      ensures !ok ==> old(fatal) || old(stopped) || (a.Write? && |a.payload| != dev.bs) || dev.faults > old(dev.faults)
    {
      hide Inv, IsRun, Fresh, Layout, Grown, Unclaimed, IsLeading, ApplyAll, PutInCache, Recorded;
      GrownRefl(ws, steps);
      if fatal { return false; }
      if stopped { return false; }
      if a.Write? && |a.payload| != dev.bs { return false; }
      CommitThread();
      if fatal { return false; }
      ghost var ws1, steps1 := ws, steps;
      if meta.full {
        FullMeansPending(State());
        var _ := CommitOnce();
        GrownTrans(old(ws), old(steps), ws1, steps1, ws, steps);
        if fatal { return false; }
      }
      ws1, steps1 := ws, steps;
      SettledIsUnclaimed(State());
      ok := Append(a);
      GrownTrans(old(ws), old(steps), ws1, steps1, ws, steps);
    }

    // The part under the lock, for any state with room in the ring: also for a push that was let through
    // before a commit failed.  When the slot it takes is not claimed by the saved metadata the journal
    // stays consistent; otherwise the entry is stored all the same (see JournalLatePush).
    method Append(a: Action) returns (ok: bool)
      requires Consistent() && !meta.full && |Payload(a, dev.bs)| == dev.bs
      modifies dev`slots, dev`faults, dev`writes
      modifies this`meta, this`dirty, this`cache, this`log, this`needed, this`ws, this`steps
      ensures dev.faults >= old(dev.faults) && (!ok ==> dev.faults > old(dev.faults))
      ensures State() == if ok then Pushed(SlotWritten(old(State()), a), a) else old(State())
      ensures old(Unclaimed(State())) || !ok ==> Consistent() && Grown(old(ws), old(steps), ws, steps)
      ensures ok ==> log == old(log) + [a] && needed == dev.writes == old(dev.writes) + 1
    {
      hide Inv, IsRun, Fresh, StepTaken, Layout, Enabled, Unclaimed, Shape, PutInCache;
      ghost var unclaimed := Unclaimed(State());
      ok := StoreEntry(a);
      if !ok { return; }
      ghost var w := State();
      InvHasShape(old(State()));
      CountEntry(a);
      if unclaimed {
        FinishPushKeeps(w, a);
        Record(FinishPush(a));
      }
    }

    method StoreEntry(a: Action) returns (ok: bool)
      requires Consistent() && !meta.full && |Payload(a, dev.bs)| == dev.bs
      modifies dev`slots, dev`faults, dev`writes, this`ws, this`steps
      ensures dev.writes == old(dev.writes) + 1
      ensures dev.faults >= old(dev.faults) && (!ok ==> dev.faults > old(dev.faults))
      ensures meta.write < dev.n && State() == if ok then SlotWritten(old(State()), a) else old(State())
      ensures old(Unclaimed(State())) || !ok ==> Consistent() && Grown(old(ws), old(steps), ws, steps)
      ensures ok && old(Unclaimed(State())) ==> Enabled(State(), FinishPush(a))
    {
      hide Inv, IsRun, Fresh, StepTaken, Unclaimed, Sound, Sized;
      InvHasShape(State());
      ShapeFacts(meta, dev.n);
      ghost var w := State();
      GrownRefl(ws, steps);
      ok := dev.WriteSlot(meta.write, a);
      if !ok { return; }
      if Unclaimed(w) {
        WriteSlotKeeps(w, a);
        Record(WriteSlot(a));
        InvHasShape(State());
      }
    }

    // Pointers, counters and cache.
    method CountEntry(a: Action)
      requires Shape(meta, dev.n) && !meta.full
      modifies this`meta, this`dirty, this`cache, this`log, this`needed
      ensures State() == Pushed(old(State()), a) && dirty == old(dirty) + 1 && needed == dev.writes
    {
      hide Shape, PutInCache;
      AdvanceByMod(meta, dev.n);
      var write := (meta.write + 1) % dev.n;
      meta := Meta(meta.read, write, write == meta.read, meta.cur + 1);
      dirty := dirty + 1;
      if meta.cur > dev.n { assert false; }   // more elements than the journal can contain
      PutInCacheNow(a);
      log, needed := log + [a], dev.writes;
    }

    method PutBlock(b: nat, data: Block) returns (ok: bool)
      requires Valid() && |data| == dev.bs
      modifies this, dev
      ensures Valid() && base == old(base) && dev.faults >= old(dev.faults)
      ensures Grown(old(ws), old(steps), ws, steps)
      ensures log == if ok then old(log) + [Write(b, data)] else old(log)
      ensures stopped == old(stopped) && (ok ==> !fatal)
      ensures !ok ==> old(fatal) || old(stopped) || dev.faults > old(dev.faults)
    {
      hide Inv;
      InvHasShape(State());
      ok := PushAction(Write(b, data));
    }

    // Replace a part of one block: a whole block is pushed, for a part it is read first.
    method StorePart(b: nat, at: nat, piece: seq<Byte>) returns (ok: bool, ghost e: Action)
      requires Valid() && at + |piece| <= dev.bs && SizedView(Contents(), dev.bs)
      modifies this, dev
      ensures Valid() && base == old(base) && dev.faults >= old(dev.faults)
      ensures ok ==> Contents() == PutPatched(old(Contents()), dev.bs, b, at, piece)
      ensures !ok ==> Contents() == old(Contents())
      ensures e.Write? && e.target == b && log == old(log) + if ok then [e] else []
      ensures stopped == old(stopped) && (ok ==> !fatal)
      ensures !ok ==> old(fatal) || old(stopped) || dev.faults > old(dev.faults)
    {
      hide Inv, IsRun, Fresh, Layout, Grown, PutPatched, Patch, ApplyAll, Apply, Lookup;
      ghost var w := State();
      e := Write(b, piece);
      var temp := piece;
      if at == 0 && |piece| == dev.bs {
        PatchedBlock(Contents(), b, at, piece, dev.bs, piece);
      } else {
        ok, temp := GetBlock(b);
        if !ok { return; }
        PatchedBlock(Contents(), b, at, piece, dev.bs, temp);
        temp := Patch(temp, at, piece);
      }
      e := Write(b, temp);
      ok := PutBlock(b, temp);
      if ok { ViewAfter(w, e); }
    }

    // put_data: the loop over blocks, then the end of the transaction, also after a failure.  When it
    // reports success exactly the bytes of the range are replaced, and no crash takes them away again.
    method PutData(offset: nat, input: seq<Byte>) returns (ok: bool, ghost done: nat, ghost plan: seq<Action>)
      requires Valid()
      modifies this, dev
      ensures Valid() && SizedView(old(Contents()), dev.bs) && SizedView(Contents(), dev.bs)
      ensures done <= |input| && Spliced(old(Contents()), Contents(), dev.bs, offset, input[..done])
      ensures ok ==> done == |input| && Durable(State()) == |log| && Flushed()
      ensures !ok ==> old(fatal) || old(stopped) || dev.faults > old(dev.faults)
      ensures log == old(log) + plan && WritePlan(plan, offset, done, dev.bs)
    {
      hide Inv, IsRun, Fresh, Layout, Grown, Spliced, ApplyAll, PutPatched, WritePlan, AtBlock, Sized, Recorded;
      ViewIsSized(State());
      NothingSpliced(old(Contents()), dev.bs, offset, input[..0]);
      EmptyPlan(offset, dev.bs, false);
      ok, done, plan := true, 0, [];
      var workOffset: nat, rest := offset, input;
      while ok && |rest| > 0
        invariant Valid() && SizedView(Contents(), dev.bs)
        invariant done <= |input| && rest == input[done..] && workOffset == offset + done
        invariant Spliced(old(Contents()), Contents(), dev.bs, offset, input[..done])
        invariant log == old(log) + plan && WritePlan(plan, offset, done, dev.bs)
        invariant done == 0 || rest == [] || AtBlock(workOffset, dev.bs)
        invariant ok ==> (fatal ==> old(fatal)) && stopped == old(stopped)
        invariant dev.faults >= old(dev.faults)
        invariant !ok ==> old(fatal) || old(stopped) || dev.faults > old(dev.faults)
        decreases ok, |rest|
      {
        var b, at := Locate(workOffset, dev.bs);
        var cur := Flat.Min(|rest|, dev.bs - at);
        PatchExtends(old(Contents()), Contents(), dev.bs, offset, input, done, b, at, cur);
        assert rest[..cur] == input[done..done + cur];
        if done > 0 { StartsBlock(workOffset, b, at, dev.bs); }
        NextBlockStarts(workOffset, |rest|, dev.bs, b, at, cur);
        ghost var e;
        ok, e := StorePart(b, at, rest[..cur]);
        if ok {
          WritePlanMore(plan, e, offset, done, b, at, cur, dev.bs);
          plan := plan + [e];
          done := done + cur;
          workOffset, rest := workOffset + cur, rest[cur..];
        }
      }
      ghost var seen := Contents();
      var ended := TransactionEnd();
      assert Contents() == seen;
      if !ended { ok := false; }
    }

    // Trimming or zeroing a byte range: whole blocks become trim entries, the partial blocks at the
    // ends are read, patched and written.  The effect is that of writing zeros to the range.
    method TrimZero(offset: nat, len: nat, trim: bool) returns (ok: bool, ghost done: nat, ghost plan: seq<Action>)
      requires Valid()
      modifies this, dev
      ensures Valid() && SizedView(old(Contents()), dev.bs) && SizedView(Contents(), dev.bs)
      ensures done <= len && Spliced(old(Contents()), Contents(), dev.bs, offset, Zeros(done))
      ensures ok ==> done == len
      ensures !ok ==> old(fatal) || old(stopped) || dev.faults > old(dev.faults)
      ensures log == old(log) + plan && ZeroPlan(plan, offset, done, dev.bs, trim)
    {
      hide Inv, IsRun, Fresh, Layout, Grown, Spliced, ApplyAll, ZeroPlan, AtBlock, ZeroEntry, PutPatched, Sized;
      hide Recorded;
      ViewIsSized(State());
      NothingSpliced(old(Contents()), dev.bs, offset, []);
      EmptyPlan(offset, dev.bs, trim);
      ok, done, plan := true, 0, [];
      var workOffset: nat, workSize: nat := offset, len;
      while workSize > 0
        invariant Valid() && SizedView(Contents(), dev.bs)
        invariant done + workSize == len && workOffset == offset + done
        invariant Spliced(old(Contents()), Contents(), dev.bs, offset, Zeros(len)[..done])
        invariant (fatal ==> old(fatal)) && stopped == old(stopped) && dev.faults >= old(dev.faults)
        invariant log == old(log) + plan && ZeroPlan(plan, offset, done, dev.bs, trim)
        invariant done == 0 || workSize == 0 || AtBlock(workOffset, dev.bs)
      {
        var b, at := Locate(workOffset, dev.bs);
        var cur := Flat.Min(workSize, dev.bs - at);
        assert Zeros(len)[done..done + cur] == Zeros(cur);
        PatchExtends(old(Contents()), Contents(), dev.bs, offset, Zeros(len), done, b, at, cur);
        if done > 0 { StartsBlock(workOffset, b, at, dev.bs); }
        NextBlockStarts(workOffset, workSize, dev.bs, b, at, cur);
        ghost var e;
        ok, e := ZeroPart(b, at, cur, trim);
        if !ok { assert Zeros(len)[..done] == Zeros(done); return; }
        ZeroPlanMore(plan, e, offset, done, b, at, cur, dev.bs, trim);
        plan := plan + [e];
        done := done + cur;
        workOffset, workSize := workOffset + cur, workSize - cur;
      }
      assert Zeros(len)[..done] == Zeros(done);
    }

    method ZeroPart(b: nat, at: nat, cur: nat, trim: bool) returns (ok: bool, ghost e: Action)
      requires Valid() && 0 < cur && at + cur <= dev.bs && SizedView(Contents(), dev.bs)
      modifies this, dev
      ensures Valid() && base == old(base) && dev.faults >= old(dev.faults)
      ensures ok ==> Contents() == PutPatched(old(Contents()), dev.bs, b, at, Zeros(cur))
      ensures !ok ==> Contents() == old(Contents())
      ensures log == old(log) + if ok then [e] else []
      ensures e.target == b && ZeroEntry(e, cur == dev.bs, trim)
      ensures stopped == old(stopped) && (ok ==> !fatal)
      ensures !ok ==> old(fatal) || old(stopped) || dev.faults > old(dev.faults)
    {
      hide Inv, IsRun, Fresh, Layout, Grown, PutPatched, Patch, Zeros, ApplyAll, Apply, Lookup;
      if cur == dev.bs {
        ghost var w := State();
        var a := if trim then Trim(b) else Zero(b);
        e := a;
        ok := PushAction(a);
        if ok {
          ViewAfter(w, a);
          ZeroedBlock(View(w), a, dev.bs);
        }
      } else {
        ok, e := StorePart(b, at, Zeros(cur));
      }
    }

    // The gathering loop; `pending` is what the ring holds.  For write entries it also builds the buffer
    // of the single write that follows.
    method GatherFrom(ghost pending: seq<Action>) returns (ok: bool, batch: seq<Action>, buffer: seq<Byte>)
      requires 0 < |pending| <= dev.n && meta.read < dev.n && meta.write == At(meta.read, |pending|, dev.n)
      requires |dev.slots| == dev.n && InRing(dev.slots, meta.read, pending)
      modifies dev`faults
      ensures dev.faults >= old(dev.faults)
      ensures !ok ==> dev.faults > old(dev.faults)
      ensures ok ==> batch != [] && batch <= pending && Grouped(batch)
      ensures ok && batch < pending ==> !Grouped(pending[..|batch| + 1])
      ensures ok ==> BufferOf(batch, buffer, dev.bs)
    {
      hide Concatenated, Grouped, InRing;
      batch, buffer := [], [];
      NothingGathered();
      EmptyBuffer(dev.bs);
      var at: nat := meta.read;
      while true
        invariant dev.faults >= old(dev.faults)
        invariant batch < pending && Grouped(batch) && at == At(meta.read, |batch|, dev.n)
        invariant batch == [] ==> buffer == Concatenated([], dev.bs)
        invariant BufferOf(batch, buffer, dev.bs)
        decreases |pending| - |batch|
      {
        GatherStep(dev.slots, meta.read, pending, |batch|);
        var got;
        ok, got := dev.ReadSlot(at);
        if !ok { return; }
        if got.None? { assert false; }   // checksum mismatch
        var je := got.value;
        GroupGrows(batch, je);
        assert pending[..|batch| + 1] == batch + [je];
        if |batch| == 0 || (SameKind(batch[0], je) && je.target == batch[|batch| - 1].target + 1) {
          ConcatenatedPush(batch, je, dev.bs);
          if je.Write? { buffer := buffer + je.payload; }
          batch := batch + [je];
        } else {
          break;
        }
        at := (at + 1) % dev.n;
        if at == meta.write { break; }
      }
    }

    // Collect the entries that one commit merges: as many as there are of one kind on consecutive
    // blocks, starting with the oldest.
    method Gather() returns (ok: bool, batch: seq<Action>, buffer: seq<Byte>)
      requires Valid() && meta.cur > 0
      modifies dev`faults
      ensures dev.faults >= old(dev.faults)
      ensures !ok ==> dev.faults > old(dev.faults)
      ensures ok ==> BatchOf(State(), batch) && 0 < |batch| <= meta.cur && BufferOf(batch, buffer, dev.bs)
      ensures ok && |batch| < meta.cur ==> !Grouped(log[committed..committed + |batch| + 1])
    {
      PendingInRing(State());
      ghost var pending := log[committed..];
      ok, batch, buffer := GatherFrom(pending);
      if ok {
        assert batch == pending[..|batch|] == log[committed..committed + |batch|];
        if batch < pending { assert pending[..|batch| + 1] == log[committed..committed + |batch| + 1]; }
      }
    }

    // Write the group to the data backend, block by block out of the buffer or as zeros; a failure may
    // leave a part of it written.  (JournalGroup has the single range write that this is.)
    method WriteBack(batch: seq<Action>, buffer: seq<Byte>) returns (ok: bool)
      requires Valid() && applied == committed && Settled(State()) && BatchOf(State(), batch)
      requires batch != [] && BufferOf(batch, buffer, dev.bs)
      modifies dev`data, dev`faults, this`applied, this`ws, this`steps
      ensures Consistent() && Settled(State()) && Later() && committed == old(committed)
      ensures applied <= committed + |batch|
      ensures ok ==> applied == committed + |batch| && BatchOf(State(), batch)
      ensures !ok ==> dev.faults > old(dev.faults)
    {
      hide Inv, IsRun, Fresh, StepTaken, Layout, BufferOf;
      ok := true;
      for i := 0 to |batch|
        invariant Consistent() && Later()
        invariant applied == committed + i
      {
        ok := WriteBackOne(batch, buffer, i);
        if !ok { return; }
      }
    }

    method WriteBackOne(batch: seq<Action>, buffer: seq<Byte>, i: nat) returns (ok: bool)
      requires Consistent() && Settled(State()) && BatchOf(State(), batch) && i < |batch| && applied == committed + i
      requires BufferOf(batch, buffer, dev.bs)
      modifies dev`data, dev`faults, this`applied, this`ws, this`steps
      ensures Consistent() && Later()
      ensures applied == committed + if ok then i + 1 else i
      ensures !ok ==> dev.faults > old(dev.faults)
    {
      hide Inv, IsRun, Fresh, StepTaken, Layout, BatchOf, Grouped, Enabled, Do, BufferOf, Place;
      ghost var w := State();
      CommitStep(w, batch, i);
      CommitBlockKeeps(w);
      InBuffer(w, batch, buffer, i);
      var data := if batch[0].Write? then buffer[Place(i, dev.bs)..Place(i, dev.bs) + dev.bs] else Zeros(dev.bs);
      ok := dev.PutBlock(batch[0].target + i, data);
      if !ok { return; }
      applied := applied + 1;
      assert State() == BlockCommitted(w);
      Record(CommitBlock);
    }

    // Take the group out of the ring and of the cache.
    method RetireBatch(batch: seq<Action>)
      requires Consistent() && Settled(State()) && BatchOf(State(), batch) && batch != []
      requires applied == committed + |batch|
      modifies this`meta, this`dirty, this`cache, this`committed, this`ws, this`steps
      ensures Consistent() && Later() && committed == applied && savedFrom == old(savedFrom)
      ensures meta == Retreat(old(meta), |batch|, dev.n) && dirty == old(dirty) + |batch|
    {
      hide Inv, IsRun, Fresh, BatchOf, StepTaken, Layout, CacheOf, Grouped, Grown, Shape, Do;
      ghost var w := State();
      RetireKeeps(w);
      InvHasShape(w);
      BatchIsPending(w, batch);
      RetreatByMod(meta, |batch|, dev.n);
      DropBatch(batch, log[committed..]);
      meta := Meta((meta.read + |batch|) % dev.n, meta.write, false, meta.cur - |batch|);
      dirty := dirty + |batch|;
      committed := applied;
      assert State() == Retired(w);
      Record(Retire);
    }

    method DropBatch(batch: seq<Action>, ghost pending: seq<Action>)
      requires batch != [] && Grouped(batch) && batch <= pending && cache == CacheOf(pending, dev.bs)
      modifies this`cache
      ensures cache == CacheOf(pending[|batch|..], dev.bs)
    {
      var target := batch[0].target;
      for i := 0 to |batch|
        invariant target == batch[0].target + i
        invariant cache == CacheOf(pending[i..], dev.bs)
      {
        NextCached(pending, batch, i, dev.bs);
        if target !in cache { assert false; }   // block not in the RAM cache
        if cache[target].count == 1 {
          cache := cache - {target};
        } else {
          cache := cache[target := Cached(cache[target].data, cache[target].count - 1)];
        }
        target := target + 1;
      }
    }

    // One round of the commit thread: write the oldest entries that fit together to the data
    // backend, take them out of the ring, save the metadata, and clear their slots.
    method CommitOnce() returns (ghost k: nat)
      requires Valid()
      modifies this`meta, this`dirty, this`cache, this`fatal, this`savedFrom, this`committed, this`applied, this`needed
      modifies this`ws, this`steps, dev
      ensures Valid() && Later()
      ensures fatal && !old(fatal) ==> dev.faults > old(dev.faults)
      ensures old(fatal) || old(meta.cur) == 0 ==> fatal == old(fatal) && meta == old(meta)
      ensures !fatal && old(meta.cur) > 0 ==> meta.cur < old(meta.cur) && !meta.full
      ensures committed <= |log| && old(committed) + k <= |log|
      ensures !fatal && old(meta.cur) > 0 ==>
                && 0 < k && IsLeading(log[old(committed)..], k) && committed == old(committed) + k
                && dev.data == ApplyAll(old(dev.data), log[old(committed)..old(committed) + k], dev.bs)
    {
      hide Inv, IsRun, Fresh, Layout, BatchOf, BufferOf, ApplyAll, Grouped, Grown, IsLeading, Erased, ErasedAtMost;
      k := 0;
      PendingBounds(State());
      GrownRefl(ws, steps);
      if fatal || meta.cur == 0 { return; }
      var ok, batch, buffer := Gather();
      if ok {
        GatheredIsLeading(State(), batch);
        k := |batch|;
        CommitBatch(batch, buffer);
        PendingBounds(State());
      } else {
        fatal := true;
      }
    }

    // Any number of rounds: what the commit thread may do before some other call gets the lock.
    method CommitThread()
      requires Valid()
      modifies this`meta, this`dirty, this`cache, this`fatal, this`savedFrom, this`committed, this`applied, this`needed
      modifies this`ws, this`steps, dev
      ensures Valid() && Later()
      ensures fatal && !old(fatal) ==> dev.faults > old(dev.faults)
    {
      hide Inv, IsRun, Fresh, Layout, Grown;
      var rounds: nat :| true;
      GrownRefl(ws, steps);
      for i := 0 to rounds
        invariant Valid() && Later()
        invariant fatal && !old(fatal) ==> dev.faults > old(dev.faults)
      {
        ghost var ws1, steps1 := ws, steps;
        FullMeansPending(State());
        var _ := CommitOnce();
        GrownTrans(old(ws), old(steps), ws1, steps1, ws, steps);
      }
    }

    // flush_journal: wait until the commit thread has emptied the ring, then stop.  Afterwards the data
    // backend alone holds what readers of the journal saw.  (When a commit fails the code waits for
    // ever; here the method returns with `fatal` set.)
    method FlushJournal()
      requires Valid()
      modifies this`meta, this`dirty, this`cache, this`fatal, this`savedFrom, this`committed, this`applied, this`needed
      modifies this`ws, this`steps, this`stopped, dev
      ensures Valid() && Later() && Contents() == old(Contents())
      ensures fatal && !old(fatal) ==> dev.faults > old(dev.faults)
      ensures !fatal && !old(stopped) ==> stopped && meta.cur == 0 && dev.data == Contents()
      ensures fatal ==> stopped == old(stopped)
    {
      hide Inv, IsRun, Fresh, Layout, Grown, ApplyAll;
      GrownRefl(ws, steps);
      while meta.cur > 0 && !stopped && !fatal
        invariant Valid() && Later() && stopped == old(stopped)
        invariant fatal && !old(fatal) ==> dev.faults > old(dev.faults)
        decreases if fatal then 0 else meta.cur + 1
      {
        ghost var ws1, steps1 := ws, steps;
        var _ := CommitOnce();
        GrownTrans(old(ws), old(steps), ws1, steps1, ws, steps);
      }
      if !fatal && meta.cur == 0 { EmptyIsWritten(State()); }
      if !fatal { stopped := true; }
    }

    method CommitBatch(batch: seq<Action>, buffer: seq<Byte>)
      requires Valid() && !fatal && BatchOf(State(), batch) && 0 < |batch| <= meta.cur
      requires BufferOf(batch, buffer, dev.bs)
      modifies this`meta, this`dirty, this`cache, this`fatal, this`savedFrom, this`committed, this`applied, this`needed
      modifies this`ws, this`steps, dev
      ensures Valid() && Later()
      ensures fatal ==> dev.faults > old(dev.faults)
      ensures !fatal ==> meta == Retreat(old(meta), |batch|, dev.n)
      ensures !fatal ==> committed == old(committed) + |batch|
      ensures !fatal ==> dev.data == ApplyAll(old(dev.data), batch, dev.bs)
      ensures ErasedAtMost(old(dev.slots), dev.slots, old(meta.read), |batch|)
      ensures dev.faults == old(dev.faults) ==> !fatal && dev.slots == Erased(old(dev.slots), old(meta.read), |batch|)
    {
      hide Inv, IsRun, Fresh, Layout, BatchOf, Grown, Erased, ErasedAtMost, Retreat, Shape;
      ghost var ws0, steps0 := ws, steps;
      InvHasShape(State());
      NothingErased(dev.slots, meta.read, |batch|);
      ghost var w0 := State();
      var ok := WriteBack(batch, buffer);
      if !ok { fatal := true; return; }
      WrittenBack(w0, State(), batch);
      ghost var ws1, steps1 := ws, steps;
      ok := TakeOut(batch);
      GrownTrans(ws0, steps0, ws1, steps1, ws, steps);
      if !ok { fatal := true; }
    }

    // The group is in the data backend: move the pointers, save them, clear the slots.
    method TakeOut(batch: seq<Action>) returns (ok: bool)
      requires Consistent() && Settled(State()) && BatchOf(State(), batch) && 0 < |batch| <= meta.cur
      requires applied == committed + |batch| && Shape(meta, dev.n) && meta.read < dev.n == |dev.slots|
      modifies this`meta, this`dirty, this`cache, this`savedFrom, this`committed, this`needed, this`ws, this`steps, dev
      ensures Consistent() && Later() && applied == committed
      ensures ok ==> Settled(State()) && meta == Retreat(old(meta), |batch|, dev.n)
      ensures committed == old(committed) + |batch| && dev.data == old(dev.data)
      ensures ErasedAtMost(old(dev.slots), dev.slots, old(meta.read), |batch|)
      ensures dev.faults == old(dev.faults) ==> ok && dev.slots == Erased(old(dev.slots), old(meta.read), |batch|)
      ensures !ok ==> dev.faults > old(dev.faults)
    {
      hide Inv, IsRun, Fresh, Layout, BatchOf, Grown, Erased, ErasedAtMost, Retreat, Shape, FreeArc;
      NothingErased(dev.slots, meta.read, |batch|);
      ghost var ws0, steps0 := ws, steps;
      var first := meta.read;
      RingBounds(meta, dev.n);
      RetiredIsFree(first, |batch|, meta, dev.n);
      RetireBatch(batch);
      ghost var ws1, steps1 := ws, steps;
      ok := UpdateMeta();
      GrownTrans(ws0, steps0, ws1, steps1, ws, steps);
      if !ok { return; }
      ws1, steps1 := ws, steps;
      ok := ClearJournal(first, |batch|);
      GrownTrans(ws0, steps0, ws1, steps1, ws, steps);
    }

    // The slots of the group are trimmed: exactly those, wrapping around the end of the ring.  A trim that
    // was refused leaves some of them as they were, which does no harm: the journal is as consistent as
    // with all of them erased, also when the failure is not reported.
    method ClearJournal(first: nat, count: nat) returns (ok: bool)
      requires Consistent() && Settled(State()) && first < dev.n && count <= dev.n
      requires FreeArc(meta, first, count, dev.n)
      modifies dev`slots, dev`faults, this`ws, this`steps
      ensures Consistent() && Settled(State()) && Later() && |dev.slots| == dev.n
      ensures ErasedAtMost(old(dev.slots), dev.slots, first, count)
      ensures dev.faults == old(dev.faults) ==> ok && dev.slots == Erased(old(dev.slots), first, count)
      ensures !ok ==> dev.faults > old(dev.faults)
    {
      hide Inv, IsRun, Fresh, Layout, Grown, Erased, ErasedAtMost, FreeArc;
      InvHasShape(State());
      ErasedNone(dev.slots, first);
      NothingErased(dev.slots, first, count);
      GrownRefl(ws, steps);
      ok := true;
      var clean: nat, left: nat := first, count;
      while left > 0
        invariant Consistent() && Settled(State()) && Later() && |dev.slots| == dev.n
        invariant left <= count && clean == At(first, count - left, dev.n) < dev.n
        invariant ErasedAtMost(old(dev.slots), dev.slots, first, count)
        invariant dev.faults == old(dev.faults) ==> dev.slots == Erased(old(dev.slots), first, count - left)
      {
        ghost var ws1, steps1, slots1 := ws, steps, dev.slots;
        var cur := Flat.Min(dev.n - clean, left);
        SubArc(meta, first, count, count - left, cur, dev.n);
        ok := TrimSlots(clean, cur);
        GrownTrans(old(ws), old(steps), ws1, steps1, ws, steps);
        MoreErased(old(dev.slots), slots1, dev.slots, first, count, count - left, cur);
        if !ok { return; }
        ErasedMore(old(dev.slots), first, count - left, cur);
        NextArc(first, count - left, cur, clean, dev.n);
        left := left - cur;
        clean := (clean + cur) % dev.n;
      }
    }

    // One ranged trim on the journal device; a crash may come when part of it is done.  It may be refused
    // or fail halfway, and a device that is a file returns true all the same.
    method TrimSlots(from: nat, k: nat) returns (ok: bool)
      requires Consistent() && Settled(State()) && 0 < k && from + k <= dev.n
      requires FreeArc(meta, from, k, dev.n)
      modifies dev`slots, dev`faults, this`ws, this`steps
      ensures Consistent() && Later() && |dev.slots| == dev.n
      ensures Settled(State()) && ErasedAtMost(old(dev.slots), dev.slots, from, k)
      ensures dev.faults == old(dev.faults) ==> ok && dev.slots == Erased(old(dev.slots), from, k)
      ensures !ok ==> dev.faults > old(dev.faults)
    {
      hide Inv, IsRun, Fresh, Layout, Grown, Erased, ErasedAtMost, FreeArc;
      InvHasShape(State());
      ErasedNone(dev.slots, from);
      GrownRefl(ws, steps);
      ok := true;
      for i := 0 to k
        invariant Consistent() && Later() && |dev.slots| == dev.n && dev.faults == old(dev.faults) && ok
        invariant dev.slots == Erased(old(dev.slots), from, i)
      {
        PartErased(old(dev.slots), from, i, k);
        ghost var ws1, steps1 := ws, steps;
        FreeSlot(State(), from, k, i);
        var cleared := ClearOne(from + i);
        GrownTrans(old(ws), old(steps), ws1, steps1, ws, steps);
        if !cleared {
          ok := *;
          return;
        }
        ErasedOne(old(dev.slots), from, i);
      }
      PartErased(old(dev.slots), from, k, k);
    }

    method ClearOne(i: nat) returns (ok: bool)
      requires Consistent() && Enabled(State(), ClearSlot(i)) && i < |dev.slots|
      modifies dev`slots, dev`faults, this`ws, this`steps
      ensures Consistent() && Grown(old(ws), old(steps), ws, steps)
      ensures ok ==> dev.slots == old(dev.slots)[i := None] && dev.faults == old(dev.faults)
      ensures !ok ==> dev.slots == old(dev.slots) && dev.faults > old(dev.faults)
    {
      hide Inv, IsRun, Fresh, Layout, Enabled;
      ghost var w := State();
      GrownRefl(ws, steps);
      ClearSlotKeeps(w, i);
      ok := dev.EraseSlot(i);
      if !ok { return; }
      assert State() == SlotCleared(w, i);
      Record(ClearSlot(i));
    }
  }

  // How far slot j lies after slot first on the ring.
  function Dist(first: nat, j: nat, n: nat): nat
    requires first < n
  {
    if first <= j then j - first else j + n - first
  }

  // `slots` with exactly the `count` slots from `first` on erased.
  ghost function Erased(slots: seq<Option<Action>>, first: nat, count: nat): seq<Option<Action>>
    requires first < |slots|
  {
    seq(|slots|, j requires 0 <= j < |slots| => if Dist(first, j, |slots|) < count then None else slots[j])
  }

  // No pending entry lies among the `count` slots from `first` on.
  ghost predicate FreeArc(m: Meta, first: nat, count: nat, n: nat)
    requires Shape(m, n)
  {
    forall j :: 0 <= j < n && first < n && Dist(first, j, n) < count ==> Dist(m.read, j, n) >= m.cur
  }

  // `slots` with some of the `count` slots from `first` on erased, and no other.
  ghost predicate ErasedAtMost(slots: seq<Option<Action>>, slots': seq<Option<Action>>, first: nat, count: nat)
    requires first < |slots| == |slots'|
  {
    forall j :: 0 <= j < |slots| ==> slots'[j] == slots[j] || (slots'[j].None? && Dist(first, j, |slots|) < count)
  }

  lemma NothingErased(slots: seq<Option<Action>>, first: nat, count: nat)
    requires first < |slots|
    ensures ErasedAtMost(slots, slots, first, count)
  {
  }

  lemma PartErased(slots: seq<Option<Action>>, first: nat, i: nat, count: nat)
    requires first < |slots| && i <= count
    ensures ErasedAtMost(slots, Erased(slots, first, i), first, count)
  {
  }

  lemma MoreErased(s0: seq<Option<Action>>, s1: seq<Option<Action>>, s2: seq<Option<Action>>, first: nat, count: nat,
                   done: nat, k: nat)
    requires first < |s0| == |s1| == |s2| && 0 < k && done + k <= count <= |s0|
    requires At(first, done, |s0|) + k <= |s0|
    requires ErasedAtMost(s0, s1, first, count) && ErasedAtMost(s1, s2, At(first, done, |s0|), k)
    ensures ErasedAtMost(s0, s2, first, count)
  {
  }

  lemma ErasedNone(slots: seq<Option<Action>>, first: nat)
    requires first < |slots|
    ensures Erased(slots, first, 0) == slots
  {
  }

  lemma ErasedOne(slots: seq<Option<Action>>, from: nat, i: nat)
    requires from + i < |slots|
    ensures Erased(slots, from, i + 1) == Erased(slots, from, i)[from + i := None]
  {
  }

  lemma ErasedMore(slots: seq<Option<Action>>, first: nat, done: nat, k: nat)
    requires first < |slots| && done + k <= |slots| && At(first, done, |slots|) + k <= |slots|
    requires 0 < k
    ensures Erased(Erased(slots, first, done), At(first, done, |slots|), k) == Erased(slots, first, done + k)
  {
  }

  lemma SubArc(m: Meta, first: nat, count: nat, done: nat, k: nat, n: nat)
    requires Shape(m, n) && first < n && count <= n && done + k <= count && 0 < k
    requires FreeArc(m, first, count, n)
    ensures FreeArc(m, At(first, done, n), k, n)
  {
  }

  lemma NextArc(first: nat, done: nat, k: nat, clean: nat, n: nat)
    requires first < n && done + k <= n && clean == At(first, done, n) && clean + k <= n
    ensures At(first, done + k, n) == (clean + k) % n < n
  {
    AtIsMod(clean, k, n);
  }

  lemma RetiredIsFree(first: nat, k: nat, m: Meta, n: nat)
    requires Shape(m, n) && k <= m.cur && first == m.read
    ensures Shape(Retreat(m, k, n), n) && FreeArc(Retreat(m, k, n), first, k, n)
  {
  }

  lemma FreeSlot(w: World, from: nat, k: nat, i: nat)
    requires Inv(w) && Settled(w) && from + k <= w.n && i < k && FreeArc(w.meta, from, k, w.n)
    ensures Enabled(w, ClearSlot(from + i)) && Inv(SlotCleared(w, from + i))
  {
    assert Dist(from, from + i, w.n) == i;
    assert from + i == At(w.meta.read, Dist(w.meta.read, from + i, w.n), w.n);
    ClearSlotKeeps(w, from + i);
  }

  lemma GrownRefl(ws: seq<World>, steps: seq<Step>)
    ensures Grown(ws, steps, ws, steps)
  {
  }

  ghost predicate Grown(ws: seq<World>, steps: seq<Step>, ws': seq<World>, steps': seq<Step>) {
    ws <= ws' && steps <= steps'
  }

  lemma GrownTrans(ws0: seq<World>, steps0: seq<Step>, ws1: seq<World>, steps1: seq<Step>,
                   ws2: seq<World>, steps2: seq<Step>)
    requires Grown(ws0, steps0, ws1, steps1) && Grown(ws1, steps1, ws2, steps2)
    ensures Grown(ws0, steps0, ws2, steps2)
  {
  }

  // The oldest |batch| pending entries, fit to be merged.
  ghost predicate BatchOf(w: World, batch: seq<Action>) {
    && w.committed + |batch| <= |w.log|
    && batch == w.log[w.committed..w.committed + |batch|] && Grouped(batch)
  }

  lemma NothingGathered()
    ensures Grouped([])
  {
  }

  // The buffer of a group of write entries is their payloads, one after the other.
  ghost predicate BufferOf(batch: seq<Action>, buffer: seq<Byte>, bs: nat) {
    batch != [] && batch[0].Write? ==> buffer == Concatenated(batch, bs)
  }

  lemma EmptyBuffer(bs: nat)
    ensures Concatenated([], bs) == []
  {
  }

  lemma InBuffer(w: World, batch: seq<Action>, buffer: seq<Byte>, i: nat)
    requires Inv(w) && BatchOf(w, batch) && i < |batch| && BufferOf(batch, buffer, w.bs)
    ensures batch[0].Write? ==>
              && Place(i, w.bs) + w.bs <= |buffer|
              && buffer[Place(i, w.bs)..Place(i, w.bs) + w.bs] == Payload(batch[i], w.bs)
    ensures !batch[0].Write? ==> Payload(batch[i], w.bs) == Zeros(w.bs)
  {
    SoundPart(w.log, w.bs, w.committed, w.committed + |batch|);
    hide Concatenated, Zeros, Place;
    ConcatenatedAt(batch, i, w.bs);
    assert SameKind(batch[0], batch[i]);
  }

  lemma SoundPart(log: seq<Action>, bs: nat, i: nat, j: nat)
    requires Sound(log, bs) && i <= j <= |log|
    ensures Sound(log[i..j], bs)
  {
  }

  // The slots from `read` on hold the entries of `pending`.
  ghost predicate InRing(slots: seq<Option<Action>>, read: nat, pending: seq<Action>)
    requires read < |slots| && |pending| <= |slots|
  {
    forall i :: 0 <= i < |pending| ==> slots[At(read, i, |slots|)] == Some(pending[i])
  }

  // One pass of the gathering loop reads pending entry i, and the next slot is the write pointer
  // exactly when that was the last one.
  lemma GatherStep(slots: seq<Option<Action>>, read: nat, pending: seq<Action>, i: nat)
    requires read < |slots| && i < |pending| <= |slots| && InRing(slots, read, pending)
    ensures At(read, i, |slots|) < |slots| && slots[At(read, i, |slots|)] == Some(pending[i])
    ensures pending[..i + 1] == pending[..i] + [pending[i]]
    ensures var next := (At(read, i, |slots|) + 1) % |slots|;
            && next == At(read, i + 1, |slots|)
            && (next == At(read, |pending|, |slots|) <==> i + 1 == |pending|)
  {
    AtIsMod(At(read, i, |slots|), 1, |slots|);
  }

  lemma PendingInRing(w: World)
    requires Inv(w)
    ensures |w.log[w.committed..]| == w.meta.cur && InRing(w.slots, w.meta.read, w.log[w.committed..])
    ensures w.meta.write == At(w.meta.read, w.meta.cur, w.n)
  {
  }

  lemma InvHasShape(w: World)
    requires Inv(w)
    ensures Shape(w.meta, w.n) && Layout(w)
  {
  }

  ghost predicate SizedView(d: Disk, bs: nat) {
    0 < bs && Sized(d, bs)
  }

  lemma ViewIsSized(w: World)
    requires Inv(w)
    ensures SizedView(View(w), w.bs)
  {
    ApplyAllSized(w.base, w.log, w.bs);
  }

  lemma ViewAfter(w: World, a: Action)
    ensures ApplyAll(w.base, w.log + [a], w.bs) == Apply(View(w), a, w.bs)
  {
    assert (w.log + [a])[..|w.log|] == w.log;
  }

  function NextSlot(at: nat, n: nat): nat
    requires 0 < n
  {
    (at + 1) % n
  }

  lemma NextIsAt(at: nat, n: nat)
    requires at < n
    ensures NextSlot(at, n) == At(at, 1, n) < n
  {
    AtIsMod(at, 1, n);
  }

  // What remains of the log after `loaded` is in `count` slots from `at` on.
  ghost predicate Unread(log: seq<Action>, loaded: seq<Action>, slots: seq<Option<Action>>, at: nat, count: nat)
    requires at < |slots|
  {
    log == loaded + LoadRing(slots, at, count)
  }

  lemma NothingLoaded(log: seq<Action>, slots: seq<Option<Action>>, at: nat, count: nat, bs: nat)
    requires at < |slots| && log == LoadRing(slots, at, count)
    ensures Unread(log, [], slots, at, count) && CacheOf([], bs) == map[]
  {
    hide LoadRing;
    assert [] + LoadRing(slots, at, count) == LoadRing(slots, at, count);
  }

  lemma LoadedIsPrefix(log: seq<Action>, loaded: seq<Action>, slots: seq<Option<Action>>, at: nat, count: nat)
    requires at < |slots| && Unread(log, loaded, slots, at, count)
    ensures |loaded| <= |log| && log[..|loaded|] == loaded
  {
    hide LoadRing;
  }

  // Loading one slot further, or being done.
  lemma LoadOne(log: seq<Action>, loaded: seq<Action>, slots: seq<Option<Action>>, at: nat, count: nat)
    requires at < |slots| && Unread(log, loaded, slots, at, count)
    ensures count == 0 || slots[at].None? ==> log == loaded
    ensures count > 0 && slots[at].Some? ==>
              && At(at, 1, |slots|) < |slots|
              && Unread(log, loaded + [slots[at].value], slots, At(at, 1, |slots|), count - 1)
  {
    if count > 0 && slots[at].Some? {
      var rest := LoadRing(slots, At(at, 1, |slots|), count - 1);
      assert LoadRing(slots, at, count) == [slots[at].value] + rest;
      assert loaded + ([slots[at].value] + rest) == loaded + [slots[at].value] + rest;
    }
  }

  lemma RingBounds(m: Meta, n: nat)
    requires Shape(m, n)
    ensures m.read < n && m.cur <= n
  {
  }

  lemma PendingBounds(w: World)
    requires Inv(w)
    ensures w.committed <= |w.log| && w.committed + w.meta.cur == |w.log|
  {
  }

  lemma GatheredIsLeading(w: World, batch: seq<Action>)
    requires Inv(w) && BatchOf(w, batch)
    requires |batch| < w.meta.cur ==> !Grouped(w.log[w.committed..w.committed + |batch| + 1])
    ensures IsLeading(w.log[w.committed..], |batch|) && batch == w.log[w.committed..w.committed + |batch|]
  {
    PendingBounds(w);
    hide Inv, Grouped;
    var p := w.log[w.committed..];
    assert p[..|batch|] == batch;
    if |batch| < |p| { assert p[..|batch| + 1] == w.log[w.committed..w.committed + |batch| + 1]; }
  }

  // What the write-back of a group makes of the data backend.
  lemma WrittenBack(w: World, w': World, batch: seq<Action>)
    requires Inv(w) && Inv(w') && BatchOf(w, batch) && w.applied == w.committed
    requires w'.base == w.base && w'.log == w.log && w'.bs == w.bs && w'.applied == w.committed + |batch|
    ensures w'.data == ApplyAll(w.data, batch, w.bs)
  {
    hide Inv, ApplyAll, Grouped;
    AppliedSoFar(w);
    AppliedSoFar(w');
    ApplyAllConcat(w.base, w.log[..w.committed], batch, w.bs);
    assert w.log[..w.committed] + batch == w.log[..w.committed + |batch|];
  }

  lemma FullMeansPending(w: World)
    requires Inv(w)
    ensures w.meta.full ==> w.meta.cur > 0
  {
  }

  // Pushing the patched block, or all of a block at once, patches the disk.
  lemma PatchedBlock(d: Disk, b: nat, at: nat, piece: seq<Byte>, bs: nat, blk: Block)
    requires SizedView(d, bs) && at + |piece| <= bs
    ensures |Lookup(d, b, bs)| == bs
    ensures blk == Lookup(d, b, bs) ==> Apply(d, Write(b, Patch(blk, at, piece)), bs) == PutPatched(d, bs, b, at, piece)
    ensures at == 0 && |piece| == bs ==> Apply(d, Write(b, piece), bs) == PutPatched(d, bs, b, at, piece)
  {
    if at == 0 && |piece| == bs { assert Patch(Lookup(d, b, bs), 0, piece) == piece; }
    hide Patch;
  }

  lemma ZeroedBlock(d: Disk, a: Action, bs: nat)
    requires SizedView(d, bs) && !a.Write?
    ensures Apply(d, a, bs) == PutPatched(d, bs, a.target, 0, Zeros(bs))
  {
    assert Patch(Lookup(d, a.target, bs), 0, Zeros(bs)) == Zeros(bs);
  }

  lemma EmptyIsWritten(w: World)
    requires Inv(w) && w.meta.cur == 0
    ensures w.data == View(w)
  {
    assert w.log[..w.applied] == w.log;
  }

  lemma BatchIsPending(w: World, batch: seq<Action>)
    requires Inv(w) && BatchOf(w, batch) && w.applied == w.committed + |batch|
    ensures w.committed <= w.applied <= |w.log| && batch <= w.log[w.committed..] && Grouped(batch)
    ensures |batch| <= w.meta.cur && Shape(w.meta, w.n)
    ensures w.cache == CacheOf(w.log[w.committed..], w.bs)
    ensures w.log[w.committed..][|batch|..] == w.log[w.applied..]
  {
  }

  lemma CommitStep(w: World, batch: seq<Action>, i: nat)
    requires Inv(w) && Settled(w) && BatchOf(w, batch) && i < |batch| && w.applied == w.committed + i
    ensures Enabled(w, CommitBlock) && w.log[w.applied] == batch[i]
    ensures batch[i].target == batch[0].target + i
  {
    var p := w.log[w.committed..w.applied + 1];
    assert forall k :: 0 <= k < |p| ==> p[k] == batch[k];
  }

  lemma RetreatByMod(m: Meta, k: nat, n: nat)
    requires Shape(m, n) && 0 < k <= m.cur
    ensures Retreat(m, k, n) == Meta((m.read + k) % n, m.write, false, m.cur - k)
  {
    AtIsMod(m.read, k, n);
  }

  lemma NextCached(pending: seq<Action>, batch: seq<Action>, i: nat, bs: nat)
    requires batch <= pending && Grouped(batch) && i < |batch|
    ensures var c := CacheOf(pending[i..], bs);
            var t := batch[0].target + i;
            t in c && c[t].count > 0 && CacheOf(pending[i + 1..], bs) == DropFromCache(c, t)
  {
    var p := pending[i..];
    assert p[1..] == pending[i + 1..] && p[0] == batch[i];
    CacheOfRest(p, bs);
  }

  lemma AdvanceByMod(m: Meta, n: nat)
    requires Shape(m, n) && !m.full
    ensures var write := (m.write + 1) % n; Advance(m, n) == Meta(m.read, write, write == m.read, m.cur + 1)
    ensures m.cur + 1 <= n
  {
    ShapeFacts(m, n);
    AtIsMod(m.write, 1, n);
  }

  lemma GroupGrows(p: seq<Action>, a: Action)
    requires Grouped(p)
    ensures Grouped(p + [a]) <==> p == [] || (SameKind(p[0], a) && a.target == p[|p| - 1].target + 1)
  {
    var q := p + [a];
    assert q[|p|] == a;
    if p != [] { assert q[0] == p[0] && q[|p| - 1] == p[|p| - 1]; }
  }

  // A journal that was never used, before anything opened it.
  ghost function NeverUsed(dev: Devices): World
    reads dev`slots, dev`saved, dev`data
  {
    World(dev.bs, dev.n, dev.slots, dev.saved, dev.data, dev.saved, map[], dev.data, [], 0, 0, 0)
  }

  method OpenNew(dev: Devices) returns (j: Journal)
    requires 0 < dev.bs && 0 < dev.n && |dev.slots| == dev.n && Sized(dev.data, dev.bs)
    requires dev.saved == Meta(0, 0, false, 0)
    modifies dev`faults
    ensures j.dev == dev && fresh(j)
    ensures dev.faults == old(dev.faults) ==> j.Valid() && !j.fatal && j.Contents() == dev.data
  {
    FreshIsGood(NeverUsed(dev));
    j := new Journal(dev, [NeverUsed(dev)], []);
  }

  // Power loss between two calls: the new journal shows the disk after a prefix of the old one's
  // history, and that prefix includes all that the last metadata write covered.
  method PowerCycle(j: Journal) returns (j': Journal, ghost k: nat)
    requires j.Valid()
    modifies j.dev`faults
    ensures j'.dev == j.dev && fresh(j')
    ensures Durable(j.State()) <= k <= |j.log|
    ensures j.dev.faults == old(j.dev.faults) ==>
              && j'.Valid() && !j'.fatal
              && j'.Contents() == ApplyAll(j.base, j.log[..k], j.dev.bs)
              && Grown(j.ws, j.steps, j'.ws, j'.steps)
    ensures j.dev.faults == old(j.dev.faults) && Durable(j.State()) == |j.log| ==> j'.Contents() == j.Contents()
  {
    hide IsRun, Fresh, Holds, ApplyAll, LoadRing, CacheOf, Distinct;
    RunLength(j.ws, j.steps);
    InvBounds(j.State());
    CrashIsPrefix(j.State());
    k := JournalSteps.Max(j.applied, Durable(j.State()));
    assert j.log[..|j.log|] == j.log;
    j' := new Journal(j.dev, j.ws, j.steps);
  }

  // What a crash leaves of a world.
  ghost predicate OnDevices(w: World, dev: Devices)
    reads dev`slots, dev`saved, dev`data
  {
    w.bs == dev.bs && w.n == dev.n && w.slots == dev.slots && w.saved == dev.saved && w.data == dev.data
  }
}
