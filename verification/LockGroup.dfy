/**
  Striped range locking (lock_group.cpp): threads that take the mutexes of their lock
  set in ascending order, shared or private, and later release them.
*/
module LockGroup {
  import opened Strides

  // ---------------------------------------------------------------- lock sets

  ghost predicate Ascending(s: seq<nat>) {
    forall i, j :: 0 <= i < j < |s| ==> s[i] < s[j]
  }

  // The mutexes of a list of blocks: each once, in the order of a std::set.
  ghost predicate IsLockSet(s: seq<nat>, nrs: seq<nat>, n: nat)
    requires 0 < n
  {
    && Ascending(s)
    && (forall i :: 0 <= i < |nrs| ==> nrs[i] % n in s)
    && (forall l :: l in s ==> l < n && exists i {:trigger nrs[i]} :: 0 <= i < |nrs| && nrs[i] % n == l)
  }

  // The one place for x.
  lemma Inserted(s: seq<nat>, i: nat, x: nat)
    requires Ascending(s) && i <= |s|
    requires forall k :: 0 <= k < i ==> s[k] < x
    requires i < |s| ==> x < s[i]
    ensures Ascending(s[..i] + [x] + s[i..])
  {
    var r := s[..i] + [x] + s[i..];
    forall j | 0 <= j < |r| ensures r[j] == if j < i then s[j] else if j == i then x else s[j - 1] { }
  }

  lemma InsertedMembers(s: seq<nat>, i: nat, x: nat, l: nat)
    requires i <= |s|
    ensures l in s[..i] + [x] + s[i..] <==> l == x || l in s
  {
    assert s == s[..i] + s[i..];
  }

  method Insert(s: seq<nat>, x: nat) returns (r: seq<nat>)
    requires Ascending(s)
    ensures Ascending(r)
    ensures forall l :: l in r <==> l == x || l in s
  {
    hide Ascending;
    var i := 0;
    while i < |s| && s[i] < x
      invariant i <= |s| && forall k :: 0 <= k < i ==> s[k] < x
    {
      i := i + 1;
    }
    if i < |s| && s[i] == x { return s; }
    r := s[..i] + [x] + s[i..];
    Inserted(s, i, x);
    forall l ensures l in r <==> l == x || l in s { InsertedMembers(s, i, x, l); }
  }

  method NrsToLocks(nrs: seq<nat>, n: nat) returns (s: seq<nat>)
    requires 0 < n
    ensures IsLockSet(s, nrs, n)
  {
    s := [];
    for i := 0 to |nrs|
      invariant Ascending(s)
      invariant forall k :: 0 <= k < i ==> nrs[k] % n in s
      invariant forall l :: l in s ==> l < n && exists k {:trigger nrs[k]} :: 0 <= k < i && nrs[k] % n == l
    {
      s := Insert(s, nrs[i] % n);
    }
  }

  // ------------------------------------------------------------------ mutexes

  // std::shared_mutex: how many hold it shared, and whether one holds it private.
  datatype Mutex = Mutex(readers: nat, writer: bool)

  predicate Available(m: Mutex, shared: bool) {
    !m.writer && (shared || m.readers == 0)
  }

  function Take(m: Mutex, shared: bool): Mutex {
    if shared then m.(readers := m.readers + 1) else m.(writer := true)
  }

  predicate Holdable(m: Mutex, shared: bool) {
    if shared then m.readers > 0 else m.writer
  }

  function Drop(m: Mutex, shared: bool): Mutex
    requires Holdable(m, shared)
  {
    if shared then m.(readers := m.readers - 1) else m.(writer := false)
  }

  // ------------------------------------------------------------------ threads

  // Locking(k) and Unlocking(k): k mutexes of the set have been dealt with.
  datatype Phase = Idle | Locking(k: nat) | Inside | Unlocking(k: nat)

  datatype Thread = Thread(wants: seq<nat>, shared: bool, phase: Phase)

  ghost predicate Holds(t: Thread, l: nat) {
    match t.phase
    case Idle => false
    case Locking(k) => k <= |t.wants| && l in t.wants[..k]
    case Inside => l in t.wants
    case Unlocking(k) => k <= |t.wants| && l in t.wants[k..]
  }

  datatype State = State(locks: seq<Mutex>, threads: seq<Thread>)

  ghost predicate WellFormed(s: State) {
    forall t :: 0 <= t < |s.threads| ==>
                  && Ascending(s.threads[t].wants)
                  && (forall l :: l in s.threads[t].wants ==> l < |s.locks|)
                  && (s.threads[t].phase.Locking? ==> s.threads[t].phase.k <= |s.threads[t].wants|)
                  && (s.threads[t].phase.Unlocking? ==> s.threads[t].phase.k <= |s.threads[t].wants|)
  }

  ghost function Holders(s: State, l: nat, shared: bool): set<nat> {
    set t: nat | t < |s.threads| && s.threads[t].shared == shared && Holds(s.threads[t], l)
  }

  // Each mutex knows its holders, and a private holder is alone.
  ghost predicate MutexOk(s: State, l: nat)
    requires l < |s.locks|
  {
    && s.locks[l].readers == |Holders(s, l, true)|
    && (s.locks[l].writer <==> |Holders(s, l, false)| == 1)
    && |Holders(s, l, false)| <= 1
    && (s.locks[l].writer ==> s.locks[l].readers == 0)
  }

  ghost predicate Inv(s: State) {
    WellFormed(s) && forall l :: 0 <= l < |s.locks| ==> MutexOk(s, l)
  }

  // ------------------------------------------------------------------- steps

  datatype Step =
    | Begin(wants: seq<nat>, shared: bool)   // an operation on the blocks of this lock set
    | TakeNext
    | Enter
    | Leave
    | DropNext
    | Finish

  ghost predicate Enabled(s: State, t: nat, st: Step)
    requires t < |s.threads|
  {
    var th := s.threads[t];
    match st
    case Begin(wants, shared) => th.phase.Idle? && Ascending(wants) && forall l :: l in wants ==> l < |s.locks|
    case TakeNext => th.phase.Locking? && th.phase.k < |th.wants| && th.wants[th.phase.k] < |s.locks|
                     && Available(s.locks[th.wants[th.phase.k]], th.shared)
    case Enter => th.phase == Locking(|th.wants|)
    case Leave => th.phase.Inside?
    case DropNext => th.phase.Unlocking? && th.phase.k < |th.wants| && th.wants[th.phase.k] < |s.locks|
                     && Holdable(s.locks[th.wants[th.phase.k]], th.shared)
    case Finish => th.phase == Unlocking(|th.wants|)
  }

  ghost function WithThread(s: State, t: nat, th: Thread): State
    requires t < |s.threads|
  {
    s.(threads := s.threads[t := th])
  }

  ghost function Do(s: State, t: nat, st: Step): State
    requires t < |s.threads| && Enabled(s, t, st)
  {
    var th := s.threads[t];
    match st
    case Begin(wants, shared) => WithThread(s, t, Thread(wants, shared, Locking(0)))
    case TakeNext =>
      var l := th.wants[th.phase.k];
      State(s.locks[l := Take(s.locks[l], th.shared)], s.threads[t := th.(phase := Locking(th.phase.k + 1))])
    case Enter => WithThread(s, t, th.(phase := Inside))
    case Leave => WithThread(s, t, th.(phase := Unlocking(0)))
    case DropNext =>
      var l := th.wants[th.phase.k];
      State(s.locks[l := Drop(s.locks[l], th.shared)], s.threads[t := th.(phase := Unlocking(th.phase.k + 1))])
    case Finish => WithThread(s, t, th.(phase := Idle))
  }

  // A thread change that moves neither into nor out of holding any mutex.
  lemma SameHolders(s: State, s': State, t: nat, l: nat)
    requires t < |s.threads| && |s'.threads| == |s.threads|
    requires forall u :: 0 <= u < |s.threads| && u != t ==> s'.threads[u] == s.threads[u]
    requires (Holds(s'.threads[t], l) <==> Holds(s.threads[t], l))
    requires Holds(s.threads[t], l) ==> s'.threads[t].shared == s.threads[t].shared
    ensures forall sh :: Holders(s', l, sh) == Holders(s, l, sh)
  {
  }

  lemma OneHolderMore(s: State, s': State, t: nat, l: nat)
    requires t < |s.threads| && |s'.threads| == |s.threads|
    requires forall u :: 0 <= u < |s.threads| && u != t ==> s'.threads[u] == s.threads[u]
    requires Holds(s'.threads[t], l) && !Holds(s.threads[t], l) && s'.threads[t].shared == s.threads[t].shared
    ensures var sh := s.threads[t].shared;
            && Holders(s', l, sh) == Holders(s, l, sh) + {t} && t !in Holders(s, l, sh)
            && Holders(s', l, !sh) == Holders(s, l, !sh)
            && |Holders(s', l, sh)| == |Holders(s, l, sh)| + 1
  {
    var sh := s.threads[t].shared;
    assert Holders(s', l, sh) == Holders(s, l, sh) + {t};
  }

  lemma QuietKeeps(s: State, t: nat, st: Step)
    requires Inv(s) && t < |s.threads| && Enabled(s, t, st) && !st.TakeNext? && !st.DropNext?
    ensures Inv(Do(s, t, st))
  {
    var s' := Do(s, t, st);
    forall l | 0 <= l < |s.locks| ensures MutexOk(s', l) {
      assert MutexOk(s, l);
      var w := s.threads[t].wants;
      assert w[..|w|] == w && w[0..] == w;
      SameHolders(s, s', t, l);
    }
  }

  lemma TakeKeeps(s: State, t: nat)
    requires Inv(s) && t < |s.threads| && Enabled(s, t, TakeNext)
    ensures Inv(Do(s, t, TakeNext))
  {
    var s' := Do(s, t, TakeNext);
    var w, k := s.threads[t].wants, s.threads[t].phase.k;
    assert w[..k + 1] == w[..k] + [w[k]];
    forall l | 0 <= l < |s.locks| ensures MutexOk(s', l) {
      assert MutexOk(s, l);
      if l == w[k] { OneHolderMore(s, s', t, l); } else { SameHolders(s, s', t, l); }
    }
  }

  lemma DropKeeps(s: State, t: nat)
    requires Inv(s) && t < |s.threads| && Enabled(s, t, DropNext)
    ensures Inv(Do(s, t, DropNext))
  {
    var s' := Do(s, t, DropNext);
    var w, k := s.threads[t].wants, s.threads[t].phase.k;
    assert w[k..] == [w[k]] + w[k + 1..];
    forall l | 0 <= l < |s.locks| ensures MutexOk(s', l) {
      assert MutexOk(s, l);
      if l == w[k] { OneHolderMore(s', s, t, l); } else { SameHolders(s, s', t, l); }
    }
  }

  lemma StepKeeps(s: State, t: nat, st: Step)
    requires Inv(s) && t < |s.threads| && Enabled(s, t, st)
    ensures Inv(Do(s, t, st))
  {
    match st
    case TakeNext => TakeKeeps(s, t);
    case DropNext => DropKeeps(s, t);
    case _ => QuietKeeps(s, t, st);
  }

  // ------------------------------------------------------------------ safety

  lemma HolderCounts(s: State, t: nat, l: nat)
    requires Inv(s) && t < |s.threads| && l < |s.locks| && Holds(s.threads[t], l)
    ensures Holdable(s.locks[l], s.threads[t].shared)
  {
    assert MutexOk(s, l);
    assert t in Holders(s, l, s.threads[t].shared);
  }

  lemma AtMostOne(p: set<nat>, t: nat, u: nat)
    requires t in p && u in p && |p| <= 1
    ensures t == u
  {
    assert u in p - {t} ==> |p - {t}| > 0;
  }

  lemma TwoHoldersShare(s: State, t: nat, u: nat, l: nat)
    requires Inv(s) && t < |s.threads| && u < |s.threads| && t != u && l < |s.locks|
    requires Holds(s.threads[t], l) && Holds(s.threads[u], l)
    ensures s.threads[t].shared && s.threads[u].shared
  {
    assert MutexOk(s, l);
    HolderCounts(s, t, l);
    HolderCounts(s, u, l);
    var alone := Holders(s, l, false);
    if t in alone && u in alone { AtMostOne(alone, t, u); }
  }

  // Two operations whose lock sets meet, one of them private, are never inside at the same time.
  lemma Exclusion(s: State, t: nat, u: nat, l: nat)
    requires Inv(s) && t < |s.threads| && u < |s.threads| && t != u
    requires l in s.threads[t].wants && l in s.threads[u].wants
    requires !s.threads[t].shared || !s.threads[u].shared
    ensures !(s.threads[t].phase.Inside? && s.threads[u].phase.Inside?)
  {
    if s.threads[t].phase.Inside? && s.threads[u].phase.Inside? {
      TwoHoldersShare(s, t, u, l);
    }
  }

  // A range locks the mutexes of all blocks it touches when the strides cover it, and also when it
  // visits so many blocks that it takes every mutex there is.
  ghost predicate LocksEnough(off: nat, size: nat, bs: nat, n: nat)
    requires 0 < bs
  {
    Covered(off, size, bs) || n <= |Visited(off, size, bs)|
  }

  lemma TakesEveryMutex(off: nat, size: nat, bs: nat, n: nat, wants: seq<nat>, l: nat)
    requires 0 < bs && 0 < n <= |Visited(off, size, bs)| && IsLockSet(wants, Visited(off, size, bs), n) && l < n
    ensures l in wants
  {
    var k := RemainderOccurs(off / bs, l, n);
    assert Visited(off, size, bs)[k] % n == l;
  }

  lemma TouchedIsLocked(off: nat, size: nat, bs: nat, n: nat, wants: seq<nat>, b: nat)
    requires 0 < bs && 0 < n && IsLockSet(wants, Visited(off, size, bs), n)
    requires LocksEnough(off, size, bs, n) && Touched(off, size, bs, b)
    ensures b % n in wants
  {
    hide Touched;
    if !Covered(off, size, bs) { TakesEveryMutex(off, size, bs, n, wants, b % n); }
  }

  // For byte ranges: operations on overlapping ranges that lock enough exclude each other.
  lemma RangeExclusion(s: State, t: nat, u: nat, bs: nat, off: nat, size: nat, off': nat, size': nat, i: nat)
    requires Inv(s) && t < |s.threads| && u < |s.threads| && t != u && 0 < bs && 0 < |s.locks|
    requires IsLockSet(s.threads[t].wants, Visited(off, size, bs), |s.locks|)
    requires IsLockSet(s.threads[u].wants, Visited(off', size', bs), |s.locks|)
    requires off <= i < off + size && off' <= i < off' + size'
    requires LocksEnough(off, size, bs, |s.locks|) && LocksEnough(off', size', bs, |s.locks|)
    requires !s.threads[t].shared || !s.threads[u].shared
    ensures !(s.threads[t].phase.Inside? && s.threads[u].phase.Inside?)
  {
    var b := i / bs;
    assert Touched(off, size, bs, b) && Touched(off', size', bs, b);
    hide Touched, LocksEnough, IsLockSet, Inv;
    TouchedIsLocked(off, size, bs, |s.locks|, s.threads[t].wants, b);
    TouchedIsLocked(off', size', bs, |s.locks|, s.threads[u].wants, b);
    Exclusion(s, t, u, b % |s.locks|);
  }

  // ---------------------------------------------------------------- progress

  lemma WaitsAbove(t: Thread, l: nat)
    requires Ascending(t.wants) && t.phase.Locking? && t.phase.k < |t.wants| && Holds(t, l)
    ensures l < t.wants[t.phase.k]
  {
  }

  lemma SomeHolder(s: State, l: nat, shared: bool) returns (u: nat)
    requires Inv(s) && l < |s.locks| && !Available(s.locks[l], shared)
    ensures u < |s.threads| && Holds(s.threads[u], l)
  {
    assert MutexOk(s, l);
    var sh := !s.locks[l].writer;
    assert |Holders(s, l, sh)| > 0;
    u :| u in Holders(s, l, sh);
  }

  // Follow the chain of threads that wait for each other: every link waits for a higher mutex.
  lemma {:induction false} ChainEnds(s: State, t: nat) returns (u: nat, st: Step)
    requires Inv(s) && t < |s.threads| && !s.threads[t].phase.Idle?
    ensures u < |s.threads| && !s.threads[u].phase.Idle? && !st.Begin? && Enabled(s, u, st)
    decreases |s.locks| - (if s.threads[t].phase.Locking? && s.threads[t].phase.k < |s.threads[t].wants|
                           then s.threads[t].wants[s.threads[t].phase.k] else |s.locks|)
  {
    var th := s.threads[t];
    match th.phase {
      case Inside => return t, Leave;
      case Unlocking(k) =>
        if k == |th.wants| { return t, Finish; }
        assert th.wants[k] in th.wants[k..] && th.wants[k] in th.wants;
        HolderCounts(s, t, th.wants[k]);
        return t, DropNext;
      case Locking(k) =>
        if k == |th.wants| { return t, Enter; }
        assert th.wants[k] in th.wants;
        if Available(s.locks[th.wants[k]], th.shared) { return t, TakeNext; }
        var v := SomeHolder(s, th.wants[k], th.shared);
        if s.threads[v].phase.Locking? && s.threads[v].phase.k < |s.threads[v].wants| {
          WaitsAbove(s.threads[v], th.wants[k]);
        }
        u, st := ChainEnds(s, v);
    }
  }

  // ---------------------------------------------------------------- all runs

  ghost predicate Init(s: State) {
    && (forall l :: 0 <= l < |s.locks| ==> s.locks[l] == Mutex(0, false))
    && (forall t :: 0 <= t < |s.threads| ==> s.threads[t] == Thread([], false, Idle))
  }

  ghost predicate IsRun(ss: seq<State>): (r: bool)
    ensures r ==> 0 < |ss|
  {
    && 0 < |ss| && Init(ss[0])
    && forall i :: 0 <= i < |ss| - 1 ==> Stepped(ss[i], ss[i + 1])
  }

  ghost predicate Stepped(s: State, s': State) {
    exists t, st :: 0 <= t < |s.threads| && Enabled(s, t, st) && s' == Do(s, t, st)
  }

  lemma {:induction false} EveryRunKeeps(ss: seq<State>, i: nat)
    requires IsRun(ss) && i < |ss|
    ensures Inv(ss[i])
  {
    if i == 0 {
      forall l | 0 <= l < |ss[0].locks| ensures MutexOk(ss[0], l) {
        assert Holders(ss[0], l, true) == {} == Holders(ss[0], l, false);
      }
    } else {
      EveryRunKeeps(ss, i - 1);
      assert Stepped(ss[i - 1], ss[i - 1 + 1]);
      var t, st :| 0 <= t < |ss[i - 1].threads| && Enabled(ss[i - 1], t, st) && ss[i] == Do(ss[i - 1], t, st);
      StepKeeps(ss[i - 1], t, st);
    }
  }

  // Deadlock freedom: in every reachable state with an operation under way, some operation under
  // way can take a step.
  lemma NoDeadlock(ss: seq<State>, i: nat, t: nat) returns (u: nat, st: Step)
    requires IsRun(ss) && i < |ss| && t < |ss[i].threads| && !ss[i].threads[t].phase.Idle?
    ensures u < |ss[i].threads| && !ss[i].threads[u].phase.Idle? && !st.Begin? && Enabled(ss[i], u, st)
  {
    EveryRunKeeps(ss, i);
    u, st := ChainEnds(ss[i], t);
  }

  // ------------------------------------------- what the side condition is for

  ghost function Last(ss: seq<State>): State
    requires 0 < |ss|
  {
    ss[|ss| - 1]
  }

  lemma RunGrows(ss: seq<State>, s: State)
    requires IsRun(ss) && Stepped(Last(ss), s)
    ensures IsRun(ss + [s])
  {
    hide Stepped;
    var ss' := ss + [s];
    forall i | 0 <= i < |ss'| - 1 ensures Stepped(ss'[i], ss'[i + 1]) {
      if i + 1 < |ss| { assert Stepped(ss[i], ss[i + 1]); }
    }
  }

  ghost function TakenAll(locks: seq<Mutex>, s: seq<nat>, shared: bool): seq<Mutex> {
    seq(|locks|, l requires 0 <= l < |locks| => if l in s then Take(locks[l], shared) else locks[l])
  }

  ghost predicate AllAvailable(locks: seq<Mutex>, wants: seq<nat>, shared: bool) {
    forall l :: l in wants ==> l < |locks| && Available(locks[l], shared)
  }

  lemma TakenOneMore(locks: seq<Mutex>, wants: seq<nat>, k: nat, shared: bool)
    requires Ascending(wants) && k < |wants| && AllAvailable(locks, wants, shared)
    ensures var l := wants[k]; var was := TakenAll(locks, wants[..k], shared);
            && l < |locks| == |was| && Available(was[l], shared)
            && was[l := Take(was[l], shared)] == TakenAll(locks, wants[..k + 1], shared)
  {
    hide Take;
    assert wants[k] in wants && wants[..k + 1] == wants[..k] + [wants[k]];
  }

  // The first k mutexes taken, on the way into an operation by thread t.
  lemma {:induction false} TakenSoFar(ss: seq<State>, t: nat, wants: seq<nat>, shared: bool, k: nat)
    returns (r: seq<State>)
    requires IsRun(ss) && t < |Last(ss).threads| && Last(ss).threads[t].phase.Idle? && k <= |wants|
    requires Ascending(wants) && AllAvailable(Last(ss).locks, wants, shared)
    ensures IsRun(r)
    ensures Last(r) == State(TakenAll(Last(ss).locks, wants[..k], shared),
                             Last(ss).threads[t := Thread(wants, shared, Locking(k))])
  {
    hide IsRun, Take;
    if k == 0 {
      assert TakenAll(Last(ss).locks, wants[..0], shared) == Last(ss).locks;
      var s' := WithThread(Last(ss), t, Thread(wants, shared, Locking(0)));
      assert Enabled(Last(ss), t, Begin(wants, shared)) && s' == Do(Last(ss), t, Begin(wants, shared));
      assert Stepped(Last(ss), s');
      RunGrows(ss, s');
      r := ss + [s'];
    } else {
      r := TakenSoFar(ss, t, wants, shared, k - 1);
      var s := Last(r);
      TakenOneMore(Last(ss).locks, wants, k - 1, shared);
      var s' := State(TakenAll(Last(ss).locks, wants[..k], shared),
                      Last(ss).threads[t := Thread(wants, shared, Locking(k))]);
      assert Enabled(s, t, TakeNext) && s' == Do(s, t, TakeNext);
      assert Stepped(s, s');
      RunGrows(r, s');
      r := r + [s'];
    }
  }

  // A thread that finds all mutexes of its lock set available gets inside, shared or private.
  lemma GetsInside(ss: seq<State>, t: nat, wants: seq<nat>, shared: bool) returns (r: seq<State>)
    requires IsRun(ss) && t < |Last(ss).threads| && Last(ss).threads[t].phase.Idle?
    requires Ascending(wants) && AllAvailable(Last(ss).locks, wants, shared)
    ensures IsRun(r)
    ensures Last(r) == State(TakenAll(Last(ss).locks, wants, shared),
                             Last(ss).threads[t := Thread(wants, shared, Inside)])
  {
    hide IsRun, Take;
    r := TakenSoFar(ss, t, wants, shared, |wants|);
    assert wants[..|wants|] == wants;
    var s := Last(r);
    var s' := Do(s, t, Enter);
    assert Stepped(s, s');
    RunGrows(r, s');
    r := r + [s'];
  }

  // Nobody waits for a mutex without need: it is to be had exactly when nobody holds it private, and for
  // a private operation nobody shared either.
  lemma AvailableExactly(s: State, l: nat, shared: bool)
    requires Inv(s) && l < |s.locks|
    ensures Available(s.locks[l], shared) <==> Holders(s, l, false) == {} && (shared || Holders(s, l, true) == {})
  {
    hide Holds, WellFormed;
    assert MutexOk(s, l);
  }

  // n mutexes and two threads at rest.
  ghost function AtRest(n: nat): State {
    State(seq(n, _ => Mutex(0, false)), [Thread([], false, Idle), Thread([], false, Idle)])
  }

  // Shared operations do not keep each other out, whatever their lock sets have in common.
  lemma SharedTogether(n: nat, a: seq<nat>, b: seq<nat>) returns (ss: seq<State>)
    requires Ascending(a) && Ascending(b) && (forall l :: l in a ==> l < n) && (forall l :: l in b ==> l < n)
    ensures IsRun(ss) && |Last(ss).locks| == n
    ensures Last(ss).threads == [Thread(a, true, Inside), Thread(b, true, Inside)]
  {
    hide IsRun;
    StartsRun(AtRest(n));
    ss := GetsInside([AtRest(n)], 0, a, true);
    ss := GetsInside(ss, 1, b, true);
  }

  lemma LostIsNext(off: nat, size: nat, bs: nat, lost: nat)
    requires 0 < bs && 0 < size && Touched(off, size, bs, lost) && lost !in Visited(off, size, bs)
    ensures lost == off / bs + |Visited(off, size, bs)|
  {
    TouchedSpan(off, size, bs, lost);
    LastBlock(off, size, bs);
    InVisited(off, size, bs);
  }

  lemma LostIsUnlocked(off: nat, size: nat, bs: nat, lost: nat, wants: seq<nat>, n: nat)
    requires 0 < bs && 0 < n && lost == off / bs + |Visited(off, size, bs)| && |Visited(off, size, bs)| < n
    requires IsLockSet(wants, Visited(off, size, bs), n)
    ensures lost % n !in wants
  {
    var nrs := Visited(off, size, bs);
    if lost % n in wants {
      var i :| 0 <= i < |nrs| && nrs[i] % n == lost % n;
      ModApart(nrs[i], |nrs| - i, n);
    }
  }

  // Without the side condition exclusion fails, for every range that is not covered and needs fewer
  // mutexes than there are: a run leads to an operation on it and a private operation on a block that
  // holds some of its bytes both being inside.
  lemma UncoveredRangesOverlap(n: nat, bs: nat, off: nat, size: nat, wants: seq<nat>)
    returns (ss: seq<State>, lost: nat)
    requires 0 < bs && 0 < n && 0 < size && !Covered(off, size, bs) && |Visited(off, size, bs)| < n
    requires IsLockSet(wants, Visited(off, size, bs), n)
    ensures IsRun(ss) && |Last(ss).locks| == n && Touched(off, size, bs, lost)
    ensures Last(ss).threads == [Thread(wants, false, Inside), Thread([lost % n], false, Inside)]
    ensures IsLockSet([lost % n], Visited(lost * bs, bs, bs), n)
  {
    lost :| Touched(off, size, bs, lost) && lost !in Visited(off, size, bs);
    LostIsNext(off, size, bs, lost);
    LostIsUnlocked(off, size, bs, lost, wants, n);
    OneBlock(lost, bs, n);
    hide Covered, Touched, Visited, IsRun;
    StartsRun(AtRest(n));
    ss := GetsInside([AtRest(n)], 0, wants, false);
    ss := GetsInside(ss, 1, [lost % n], false);
  }

  // In some run a private operation on the range and one on block b are inside at once.
  ghost predicate Clash(ss: seq<State>, t: nat, u: nat, b: nat, n: nat, bs: nat, off: nat, size: nat)
    requires 0 < bs && 0 < n
  {
    && IsRun(ss) && |Last(ss).locks| == n && Touched(off, size, bs, b)
    && t < |Last(ss).threads| && u < |Last(ss).threads| && t != u
    && IsLockSet(Last(ss).threads[t].wants, Visited(off, size, bs), n) && !Last(ss).threads[t].shared
    && IsLockSet(Last(ss).threads[u].wants, Visited(b * bs, bs, bs), n)
    && Last(ss).threads[t].phase.Inside? && Last(ss).threads[u].phase.Inside?
  }

  // A private operation on a range keeps every operation on a block of the range out.
  ghost predicate Excludes(n: nat, bs: nat, off: nat, size: nat)
    requires 0 < bs && 0 < n
  {
    forall ss: seq<State>, t: nat, u: nat, b: nat :: !Clash(ss, t, u, b, n, bs, off, size)
  }

  lemma NoClash(ss: seq<State>, t: nat, u: nat, b: nat, n: nat, bs: nat, off: nat, size: nat)
    requires 0 < bs && 0 < n && LocksEnough(off, size, bs, n)
    ensures !Clash(ss, t, u, b, n, bs, off, size)
  {
    if Clash(ss, t, u, b, n, bs, off, size) {
      EveryRunKeeps(ss, |ss| - 1);
      OneVisited(b, bs);
      hide Touched, LocksEnough, Inv, IsRun;
      TouchedIsLocked(off, size, bs, n, Last(ss).threads[t].wants, b);
      assert Visited(b * bs, bs, bs)[0] % n in Last(ss).threads[u].wants;
      Exclusion(Last(ss), t, u, b % n);
    }
  }

  // Exactly when exclusion holds for a byte range.  `wants` is the lock set of the range.
  lemma ExclusionExactly(n: nat, bs: nat, off: nat, size: nat, wants: seq<nat>)
    requires 0 < bs && 0 < n && 0 < size && IsLockSet(wants, Visited(off, size, bs), n)
    ensures Excludes(n, bs, off, size) <==> LocksEnough(off, size, bs, n)
    ensures LocksEnough(off, size, bs, n) <==> off % bs + (size - 1) % bs < bs || n <= StrideCount(size, bs)
  {
    RangeCoverage(off, size, bs);
    hide Covered, Touched, IsLockSet, IsRun, Clash;
    if LocksEnough(off, size, bs, n) {
      forall ss: seq<State>, t: nat, u: nat, b: nat ensures !Clash(ss, t, u, b, n, bs, off, size) {
        NoClash(ss, t, u, b, n, bs, off, size);
      }
    } else {
      var ss, lost := UncoveredRangesOverlap(n, bs, off, size, wants);
      IsClash(ss, lost, n, bs, off, size, wants);
    }
  }

  lemma IsClash(ss: seq<State>, lost: nat, n: nat, bs: nat, off: nat, size: nat, wants: seq<nat>)
    requires 0 < bs && 0 < n && IsRun(ss) && |Last(ss).locks| == n && Touched(off, size, bs, lost)
    requires Last(ss).threads == [Thread(wants, false, Inside), Thread([lost % n], false, Inside)]
    requires IsLockSet(wants, Visited(off, size, bs), n) && IsLockSet([lost % n], Visited(lost * bs, bs, bs), n)
    ensures Clash(ss, 0, 1, lost, n, bs, off, size)
  {
    hide IsRun, Touched, IsLockSet;
  }

  lemma StartsRun(s: State)
    requires Init(s)
    ensures IsRun([s])
  {
  }

  lemma OneBlock(b: nat, bs: nat, n: nat)
    requires 0 < bs && 0 < n
    ensures IsLockSet([b % n], Visited(b * bs, bs, bs), n)
  {
    OneVisited(b, bs);
    assert [b][0] % n == b % n;
  }

  // ------------------------------------------------------------- the object

  // One call to one mutex.
  datatype Call = Call(mutex: nat, take: bool, shared: bool)

  // A call to every mutex of a set, in its order.
  ghost function Calls(s: seq<nat>, take: bool, shared: bool): seq<Call> {
    seq(|s|, i requires 0 <= i < |s| => Call(s[i], take, shared))
  }

  lemma NoneTaken(locks: seq<Mutex>, s: seq<nat>, shared: bool)
    ensures TakenAll(locks, s[..0], shared) == locks == TakenAll(locks, s[|s|..], shared)
    ensures Calls(s[..0], true, shared) == [] == Calls(s[..0], false, shared)
  {
  }

  lemma TakenOneLess(locks: seq<Mutex>, wants: seq<nat>, k: nat, shared: bool)
    requires Ascending(wants) && k < |wants| && AllAvailable(locks, wants, shared)
    ensures var l := wants[k]; var was := TakenAll(locks, wants[k..], shared);
            && l < |was| && Holdable(was[l], shared)
            && was[l := Drop(was[l], shared)] == TakenAll(locks, wants[k + 1..], shared)
  {
    var l := wants[k];
    assert l in wants && wants[k..] == [l] + wants[k + 1..];
    DropUndoesTake(locks[l], shared);
    hide Take, Drop;
  }

  lemma DropUndoesTake(m: Mutex, shared: bool)
    requires Available(m, shared)
    ensures Holdable(Take(m, shared), shared) && Drop(Take(m, shared), shared) == m
  {
  }

  lemma OneMoreCall(s: seq<nat>, i: nat, take: bool, shared: bool)
    requires i < |s|
    ensures Calls(s[..i], take, shared) + [Call(s[i], take, shared)] == Calls(s[..i + 1], take, shared)
  {
  }

  // lock_group itself, for one thread that gets every mutex it asks for.
  class Group {
    var locks: seq<Mutex>
    ghost var calls: seq<Call>     // all calls made, in order

    constructor (n: nat)
      ensures locks == seq(n, _ => Mutex(0, false)) && calls == []
    {
      locks, calls := seq(n, _ => Mutex(0, false)), [];
    }

    method Lock(nrs: seq<nat>, shared: bool, ghost s: seq<nat>)
      requires 0 < |locks| && IsLockSet(s, nrs, |locks|)
      requires AllAvailable(locks, s, shared)
      modifies this
      ensures locks == TakenAll(old(locks), s, shared) && calls == old(calls) + Calls(s, true, shared)
    {
      hide TakenAll, AllAvailable, Calls, Take, Available, IsLockSet, Ascending;
      var lockSet := NrsToLocks(nrs, |locks|);
      OneLockSet(s, lockSet, nrs, |locks|);
      NoneTaken(locks, lockSet, shared);
      for i := 0 to |lockSet|
        invariant calls == old(calls) + Calls(lockSet[..i], true, shared)
        invariant locks == TakenAll(old(locks), lockSet[..i], shared)
      {
        TakenOneMore(old(locks), lockSet, i, shared);
        OneMoreCall(lockSet, i, true, shared);
        locks := locks[lockSet[i] := Take(locks[lockSet[i]], shared)];
        calls := calls + [Call(lockSet[i], true, shared)];
      }
      assert lockSet[..|lockSet|] == lockSet;
    }

    // Unlocking releases exactly what locking the same blocks took.
    method Unlock(nrs: seq<nat>, shared: bool, ghost s: seq<nat>, ghost before: seq<Mutex>)
      requires 0 < |locks| && IsLockSet(s, nrs, |locks|)
      requires locks == TakenAll(before, s, shared) && AllAvailable(before, s, shared)
      modifies this
      ensures locks == before && calls == old(calls) + Calls(s, false, shared)
    {
      hide TakenAll, AllAvailable, Calls, Take, Drop, Holdable, Available, IsLockSet, Ascending;
      var lockSet := NrsToLocks(nrs, |locks|);
      OneLockSet(s, lockSet, nrs, |locks|);
      NoneTaken(before, lockSet, shared);
      assert lockSet[0..] == lockSet;
      for i := 0 to |lockSet|
        invariant calls == old(calls) + Calls(lockSet[..i], false, shared)
        invariant locks == TakenAll(before, lockSet[i..], shared)
      {
        TakenOneLess(before, lockSet, i, shared);
        OneMoreCall(lockSet, i, false, shared);
        locks := locks[lockSet[i] := Drop(locks[lockSet[i]], shared)];
        calls := calls + [Call(lockSet[i], false, shared)];
      }
      assert lockSet[..|lockSet|] == lockSet;
    }

    // Lock or unlock the blocks of a byte range.
    method UnLockBlockGroup(offset: nat, size: nat, bs: nat, doLock: bool, shared: bool,
                            ghost s: seq<nat>, ghost before: seq<Mutex>)
      requires 0 < bs && 0 < |locks| && IsLockSet(s, Visited(offset, size, bs), |locks|)
      requires |before| == |locks| && AllAvailable(before, s, shared)
      requires locks == if doLock then before else TakenAll(before, s, shared)
      modifies this
      ensures locks == if doLock then TakenAll(before, s, shared) else before
      ensures calls == old(calls) + Calls(s, doLock, shared)
    {
      hide IsLockSet, AllAvailable, TakenAll, Calls;
      var nrs := BlockNumbers(offset, size, bs);
      if doLock { Lock(nrs, shared, s); } else { Unlock(nrs, shared, s, before); }
    }
  }

  lemma SameLockSet(s: seq<nat>, s': seq<nat>, nrs: seq<nat>, n: nat, l: nat)
    requires 0 < n && IsLockSet(s, nrs, n) && IsLockSet(s', nrs, n)
    ensures l in s <==> l in s'
  {
  }

  // There is one lock set for a list of blocks, and one order to take it in.
  lemma OneLockSet(s: seq<nat>, s': seq<nat>, nrs: seq<nat>, n: nat)
    requires 0 < n && IsLockSet(s, nrs, n) && IsLockSet(s', nrs, n)
    ensures s == s'
  {
    forall l: nat ensures l in s <==> l in s' { SameLockSet(s, s', nrs, n, l); }
    hide IsLockSet;
    SameMembers(s, s');
  }

  lemma FrontMembers(s: seq<nat>, l: nat)
    requires Ascending(s) && s != []
    ensures l in s[..|s| - 1] <==> l in s && l != s[|s| - 1]
  {
  }

  lemma SomeMember(s: seq<nat>)
    ensures s == [] || exists l: nat :: l in s
  {
    if s != [] { assert s[0] in s; }
  }

  lemma {:induction false} SameMembers(s: seq<nat>, s': seq<nat>)
    requires Ascending(s) && Ascending(s') && forall l: nat :: l in s <==> l in s'
    ensures s == s'
  {
    if s == [] || s' == [] {
      SomeMember(s);
      SomeMember(s');
    } else {
      assert s[|s| - 1] in s';
      var a, b := s[|s| - 1], s'[|s'| - 1];
      assert b in s';
      assert a == b;
      var t, t' := s[..|s| - 1], s'[..|s'| - 1];
      forall l: nat ensures l in t <==> l in t' {
        FrontMembers(s, l);
        FrontMembers(s', l);
      }
      SameMembers(t, t');
    }
  }
}
