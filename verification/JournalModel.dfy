/**
  The write-ahead journal (journal.cpp) as a system of atomic durable steps.

  `World` holds what is on disk (slots, saved metadata, data backend), what is in
  memory (metadata, cache), and a history that only the proofs use.  Each `Step`
  is one durable write or one in-memory update; a crash may come between any two.
*/
module JournalModel {
  import opened Flat

  // ---------------------------------------------------------------- actions

  datatype Action = Write(target: nat, payload: Block) | Trim(target: nat) | Zero(target: nat)

  function Payload(a: Action, bs: nat): Block {
    if a.Write? then a.payload else Zeros(bs)
  }

  predicate SameKind(a: Action, b: Action) {
    a.Write? == b.Write? && a.Trim? == b.Trim?
  }

  ghost predicate Sound(p: seq<Action>, bs: nat) {
    forall a :: a in p ==> |Payload(a, bs)| == bs
  }

  ghost function Apply(d: Disk, a: Action, bs: nat): Disk {
    d[a.target := Payload(a, bs)]
  }

  // The disk after carrying out all actions in order.
  ghost function ApplyAll(d: Disk, p: seq<Action>, bs: nat): Disk {
    if p == [] then d else Apply(ApplyAll(d, p[..|p| - 1], bs), p[|p| - 1], bs)
  }

  // The newest action on block b.
  ghost function LastFor(p: seq<Action>, b: nat): Option<Action> {
    if p == [] then None
    else if p[|p| - 1].target == b then Some(p[|p| - 1])
    else LastFor(p[..|p| - 1], b)
  }

  // The number of actions on block b.
  ghost function Count(p: seq<Action>, b: nat): nat {
    if p == [] then 0 else Count(p[..|p| - 1], b) + if p[|p| - 1].target == b then 1 else 0
  }

  ghost predicate Distinct(p: seq<Action>) {
    forall i, j :: 0 <= i < j < |p| ==> p[i].target != p[j].target
  }

  // What the commit thread may merge: one kind of action on consecutive blocks.
  ghost predicate Grouped(p: seq<Action>) {
    forall i :: 0 <= i < |p| ==> SameKind(p[0], p[i]) && p[i].target == p[0].target + i
  }

  lemma {:induction false} ApplyAllAt(d: Disk, p: seq<Action>, bs: nat, b: nat)
    ensures var l := LastFor(p, b);
            && (b in ApplyAll(d, p, bs) <==> l.Some? || b in d)
            && (l.Some? ==> ApplyAll(d, p, bs)[b] == Payload(l.value, bs))
            && (l.None? && b in d ==> ApplyAll(d, p, bs)[b] == d[b])
  {
    if p != [] { ApplyAllAt(d, p[..|p| - 1], bs, b); }
  }

  lemma {:induction false} LastForConcat(p: seq<Action>, q: seq<Action>, b: nat)
    ensures LastFor(p + q, b) == if LastFor(q, b).Some? then LastFor(q, b) else LastFor(p, b)
  {
    if q == [] {
      assert p + q == p;
    } else {
      LastForConcat(p, q[..|q| - 1], b);
      assert (p + q)[..|p + q| - 1] == p + q[..|q| - 1];
    }
  }

  lemma {:induction false} CountConcat(p: seq<Action>, q: seq<Action>, b: nat)
    ensures Count(p + q, b) == Count(p, b) + Count(q, b)
  {
    if q == [] {
      assert p + q == p;
    } else {
      CountConcat(p, q[..|q| - 1], b);
      assert (p + q)[..|p + q| - 1] == p + q[..|q| - 1];
    }
  }

  lemma {:induction false} LastForIsThere(p: seq<Action>, b: nat)
    ensures LastFor(p, b).Some? <==> exists i :: 0 <= i < |p| && p[i].target == b
    ensures LastFor(p, b).Some? <==> Count(p, b) > 0
    ensures LastFor(p, b).Some? ==> LastFor(p, b).value in p && LastFor(p, b).value.target == b
  {
    if p != [] {
      var q := p[..|p| - 1];
      LastForIsThere(q, b);
      if exists i :: 0 <= i < |p| && p[i].target == b {
        var i :| 0 <= i < |p| && p[i].target == b;
        if i < |q| { assert q[i].target == b; }
      }
      if LastFor(q, b).Some? {
        var i :| 0 <= i < |q| && q[i].target == b;
        assert p[i].target == b;
      }
    }
  }

  lemma {:induction false} ApplyAllConcat(d: Disk, p: seq<Action>, q: seq<Action>, bs: nat)
    ensures ApplyAll(ApplyAll(d, p, bs), q, bs) == ApplyAll(d, p + q, bs)
  {
    if q == [] {
      assert p + q == p;
    } else {
      ApplyAllConcat(d, p, q[..|q| - 1], bs);
      assert (p + q)[..|p + q| - 1] == p + q[..|q| - 1];
    }
  }

  lemma SameNewestSameDisk(d: Disk, p: seq<Action>, q: seq<Action>, bs: nat)
    requires forall b :: LastFor(p, b) == LastFor(q, b)
    ensures ApplyAll(d, p, bs) == ApplyAll(d, q, bs)
  {
    forall b: nat
      ensures b in ApplyAll(d, p, bs) <==> b in ApplyAll(d, q, bs)
      ensures b in ApplyAll(d, p, bs) ==> ApplyAll(d, p, bs)[b] == ApplyAll(d, q, bs)[b]
    {
      ApplyAllAt(d, p, bs, b);
      ApplyAllAt(d, q, bs, b);
    }
  }

  lemma {:induction false} ApplyAllSized(d: Disk, p: seq<Action>, bs: nat)
    requires Sized(d, bs) && Sound(p, bs)
    ensures Sized(ApplyAll(d, p, bs), bs)
  {
    if p != [] { ApplyAllSized(d, p[..|p| - 1], bs); }
  }

  // Replaying entries that were applied already, wholly or in part, loses nothing: the disk is
  // the one after the longer of the two prefixes.
  lemma Replay(d: Disk, x: seq<Action>, z: seq<Action>, bs: nat)
    requires Distinct(x + z)
    ensures ApplyAll(ApplyAll(d, x + z, bs), x, bs) == ApplyAll(d, x + z, bs)
    ensures ApplyAll(ApplyAll(d, x, bs), x + z, bs) == ApplyAll(d, x + z, bs)
  {
    ApplyAllConcat(d, x + z, x, bs);
    ApplyAllConcat(d, x, x + z, bs);
    forall b
      ensures LastFor(x + z + x, b) == LastFor(x + z, b) == LastFor(x + (x + z), b)
    {
      LastForConcat(x + z, x, b);
      LastForConcat(x, x + z, b);
      LastForConcat(x, z, b);
      LastForIsThere(x, b);
      LastForIsThere(z, b);
      forall i, j | 0 <= i < |x| && 0 <= j < |z|
        ensures x[i].target != z[j].target
      {
        assert (x + z)[i] == x[i] && (x + z)[|x| + j] == z[j];
      }
    }
    SameNewestSameDisk(d, x + z + x, x + z, bs);
    SameNewestSameDisk(d, x + (x + z), x + z, bs);
  }

  // No distinctness is needed when the replay goes at least as far as the first application did.
  lemma ReplayFurther(d: Disk, x: seq<Action>, y: seq<Action>, bs: nat)
    ensures ApplyAll(ApplyAll(d, x, bs), x + y, bs) == ApplyAll(d, x + y, bs)
  {
    ApplyAllConcat(d, x, x + y, bs);
    forall b
      ensures LastFor(x + (x + y), b) == LastFor(x + y, b)
    {
      LastForConcat(x, x + y, b);
      LastForConcat(x, y, b);
    }
    SameNewestSameDisk(d, x + (x + y), x + y, bs);
  }

  // ------------------------------------------------------------ group commit

  ghost function Concatenated(p: seq<Action>, bs: nat): seq<Byte> {
    if p == [] then [] else Concatenated(p[..|p| - 1], bs) + Payload(p[|p| - 1], bs)
  }

  lemma WholeBlockSplices(d: Disk, b: nat, data: Block, bs: nat)
    requires 0 < bs && Sized(d, bs) && |data| == bs
    ensures Sized(d[b := data], bs)
    ensures Spliced(d, d[b := data], bs, b * bs, data)
  {
    assert Patch(Lookup(d, b, bs), 0, data) == data;
    assert PutPatched(d, bs, b, 0, data) == d[b := data];
    PatchSplices(d, bs, b * bs, b, 0, data);
  }

  lemma {:induction false} ConcatenatedSize(p: seq<Action>, bs: nat)
    requires Sound(p, bs)
    ensures |Concatenated(p, bs)| == |p| * bs
  {
    if p != [] {
      ConcatenatedSize(p[..|p| - 1], bs);
      assert (|p| - 1) * bs + bs == |p| * bs;
    }
  }

  lemma ConcatenatedPush(p: seq<Action>, a: Action, bs: nat)
    ensures Concatenated(p + [a], bs) == Concatenated(p, bs) + Payload(a, bs)
  {
    assert (p + [a])[..|p|] == p;
  }

  lemma Parts(x: seq<Byte>, y: seq<Byte>, i: nat, j: nat)
    requires i <= j <= |x|
    ensures (x + y)[i..j] == x[i..j] && (x + y)[|x|..|x| + |y|] == y && (x + y)[..j] == x[..j]
  {
  }

  // Where block i of a buffer starts.
  function Place(i: nat, bs: nat): nat {
    i * bs
  }

  lemma PlaceNext(i: nat, bs: nat)
    ensures Place(i, bs) + bs == Place(i + 1, bs) && Place(0, bs) == 0
  {
    assert (i + 1) * bs == i * bs + bs;
  }

  lemma PlaceOrder(i: nat, j: nat, bs: nat)
    requires i <= j
    ensures Place(i, bs) <= Place(j, bs)
  {
    Monotone(i, j, bs);
  }

  lemma ConcatenatedPlaces(p: seq<Action>, bs: nat)
    requires Sound(p, bs)
    ensures |Concatenated(p, bs)| == Place(|p|, bs)
  {
    ConcatenatedSize(p, bs);
  }

  // The buffer of a group holds the payload of its i-th entry at place i.
  lemma {:induction false} ConcatenatedAt(p: seq<Action>, i: nat, bs: nat)
    requires Sound(p, bs) && i < |p|
    ensures Place(i, bs) + bs <= |Concatenated(p, bs)| == Place(|p|, bs)
    ensures Concatenated(p, bs)[Place(i, bs)..Place(i, bs) + bs] == Payload(p[i], bs)
  {
    hide Payload, Place;
    var q := p[..|p| - 1];
    ConcatenatedPlaces(p, bs);
    ConcatenatedPlaces(q, bs);
    PlaceNext(i, bs);
    PlaceOrder(i + 1, |p|, bs);
    var front, last := Concatenated(q, bs), Payload(p[|q|], bs);
    if i < |q| {
      ConcatenatedAt(q, i, bs);
      Parts(front, last, Place(i, bs), Place(i, bs) + bs);
    } else {
      Parts(front, last, 0, 0);
    }
  }

  // The first k entries fill the first k blocks.
  lemma {:induction false} ConcatenatedPrefix(p: seq<Action>, k: nat, bs: nat)
    requires Sound(p, bs) && k <= |p|
    ensures Place(k, bs) <= |Concatenated(p, bs)| && Concatenated(p, bs)[..Place(k, bs)] == Concatenated(p[..k], bs)
  {
    hide Payload, Place;
    ConcatenatedPlaces(p, bs);
    ConcatenatedPlaces(p[..k], bs);
    PlaceOrder(k, |p|, bs);
    if k == |p| {
      assert p[..k] == p;
    } else {
      var q := p[..|p| - 1];
      ConcatenatedPrefix(q, k, bs);
      assert q[..k] == p[..k];
      Parts(Concatenated(q, bs), Payload(p[|q|], bs), 0, Place(k, bs));
    }
  }

  // A ranged trim is a write of zeros.
  lemma {:induction false} ConcatenatedZeros(p: seq<Action>, bs: nat)
    requires forall a :: a in p ==> !a.Write?
    ensures Concatenated(p, bs) == Zeros(|p| * bs)
  {
    if p != [] {
      var q := p[..|p| - 1];
      ConcatenatedZeros(q, bs);
      assert |q| * bs + bs == |p| * bs;
      assert Zeros(|q| * bs) + Zeros(bs) == Zeros(|q| * bs + bs);
    }
  }

  // One ranged write of the concatenated payloads has the effect of the entries one by one.
  lemma {:induction false} GroupCommitIsSequential(d: Disk, p: seq<Action>, bs: nat)
    requires 0 < bs && Sized(d, bs) && Sound(p, bs) && p != [] && Grouped(p)
    ensures Sized(ApplyAll(d, p, bs), bs)
    ensures Spliced(d, ApplyAll(d, p, bs), bs, p[0].target * bs, Concatenated(p, bs))
  {
    ApplyAllSized(d, p, bs);
    var q, a := p[..|p| - 1], p[|p| - 1];
    ApplyAllSized(d, q, bs);
    WholeBlockSplices(ApplyAll(d, q, bs), a.target, Payload(a, bs), bs);
    if q == [] {
      assert Concatenated(p, bs) == [] + Payload(a, bs) == Payload(a, bs);
    } else {
      GroupCommitIsSequential(d, q, bs);
      ConcatenatedSize(q, bs);
      GroupOffset(p, bs);
      SplicesCompose(d, ApplyAll(d, q, bs), ApplyAll(d, p, bs), bs, p[0].target * bs, Concatenated(q, bs),
                     Payload(a, bs));
    }
  }

  lemma GroupOffset(p: seq<Action>, bs: nat)
    requires p != [] && Grouped(p)
    ensures p[|p| - 1].target * bs == p[0].target * bs + (|p| - 1) * bs
  {
    assert p[|p| - 1].target == p[0].target + (|p| - 1);
  }

  // A group is all writes, all trims or all zeroes, never a mix, on blocks that follow each other.
  lemma GroupedExactly(p: seq<Action>)
    ensures Grouped(p) <==>
            && (|| (forall a :: a in p ==> a.Write?)
                || (forall a :: a in p ==> a.Trim?)
                || (forall a :: a in p ==> a.Zero?))
            && forall i :: 0 < i < |p| ==> p[i].target == p[i - 1].target + 1
  {
    if Grouped(p) {
      forall a | a in p ensures SameKind(p[0], a) {
        var i :| 0 <= i < |p| && p[i] == a;
      }
    }
    if forall i :: 0 < i < |p| ==> p[i].target == p[i - 1].target + 1 {
      ConsecutiveTargets(p);
    }
    if (forall a :: a in p ==> a.Write?) || (forall a :: a in p ==> a.Trim?) || (forall a :: a in p ==> a.Zero?) {
      forall i | 0 <= i < |p| ensures SameKind(p[0], p[i]) {
        assert p[0] in p && p[i] in p;
      }
    }
  }

  lemma {:induction false} ConsecutiveTargets(p: seq<Action>)
    requires forall i :: 0 < i < |p| ==> p[i].target == p[i - 1].target + 1
    ensures forall i :: 0 <= i < |p| ==> p[i].target == p[0].target + i
  {
    if |p| > 1 {
      var q := p[..|p| - 1];
      assert forall i :: 0 <= i < |q| ==> q[i] == p[i];
      ConsecutiveTargets(q);
      assert p[|q|].target == p[|q| - 1].target + 1;
    }
  }

  // The longest group at the head of the entries.
  ghost predicate IsLeading(p: seq<Action>, k: nat) {
    k <= |p| && Grouped(p[..k]) && (k < |p| ==> !Grouped(p[..k + 1]))
  }

  lemma LeadingIsUnique(p: seq<Action>, j: nat, k: nat)
    requires IsLeading(p, j) && IsLeading(p, k)
    ensures j == k
  {
    hide Grouped;
    if j < k { GroupedPrefix(p, j + 1, k); }
    if k < j { GroupedPrefix(p, k + 1, j); }
  }

  lemma GroupedPrefix(p: seq<Action>, i: nat, j: nat)
    requires i <= j <= |p|
    ensures Grouped(p[..j]) ==> Grouped(p[..i])
  {
    if Grouped(p[..j]) && i > 0 {
      assert p[..i][0] == p[..j][0];
      forall k | 0 <= k < i ensures SameKind(p[..i][0], p[..i][k]) && p[..i][k].target == p[..i][0].target + k {
        assert p[..i][k] == p[..j][k];
      }
    }
  }

  lemma GroupedIsDistinct(p: seq<Action>)
    requires Grouped(p)
    ensures Distinct(p)
  {
  }

  // -------------------------------------------------------------------- ring

  // Slot number i places after r on a ring of n slots.
  function At(r: nat, i: nat, n: nat): nat {
    if r + i < n then r + i else r + i - n
  }

  lemma AtIsMod(r: nat, i: nat, n: nat)
    requires r < n && i <= n
    ensures At(r, i, n) == (r + i) % n && At(r, i, n) < n
  {
    if r + i < n {
      DivRange(r + i, 0, n);
    } else {
      DivRange(r + i, 1, n);
    }
  }

  datatype Meta = Meta(read: nat, write: nat, full: bool, cur: nat)

  // write = (read + cur) mod n, and full says cur = n.
  predicate Shape(m: Meta, n: nat) {
    && m.read < n && m.cur <= n
    && m.write == At(m.read, m.cur, n)
    && (m.full <==> m.cur == n)
  }

  lemma ShapeFacts(m: Meta, n: nat)
    requires Shape(m, n)
    ensures m.write == (m.read + m.cur) % n && m.write < n
    ensures m.full <==> m.cur == n
    ensures m.read == m.write && !m.full <==> m.cur == 0
  {
    AtIsMod(m.read, m.cur, n);
  }

  // ------------------------------------------------------------------- cache

  datatype Cached = Cached(data: Block, count: nat)

  type Cache = map<nat, Cached>

  ghost function PutInCache(c: Cache, a: Action, bs: nat): Cache {
    c[a.target := Cached(Payload(a, bs), (if a.target in c then c[a.target].count else 0) + 1)]
  }

  ghost function DropFromCache(c: Cache, b: nat): Cache
    requires b in c && c[b].count > 0
  {
    if c[b].count == 1 then c - {b} else c[b := c[b].(count := c[b].count - 1)]
  }

  ghost function CacheOf(p: seq<Action>, bs: nat): Cache {
    if p == [] then map[] else PutInCache(CacheOf(p[..|p| - 1], bs), p[|p| - 1], bs)
  }

  // A block is cached iff an entry for it is pending; the count is the number of pending
  // entries for it and the data is that of the newest.
  lemma {:induction false} CacheAt(p: seq<Action>, bs: nat, b: nat)
    ensures b in CacheOf(p, bs) <==> Count(p, b) > 0
    ensures b in CacheOf(p, bs) ==>
              && LastFor(p, b).Some?
              && CacheOf(p, bs)[b] == Cached(Payload(LastFor(p, b).value, bs), Count(p, b))
  {
    if p != [] { CacheAt(p[..|p| - 1], bs, b); }
  }

  // Retiring the oldest pending entry is what decrementing its count does.
  lemma CacheOfRest(p: seq<Action>, bs: nat)
    requires p != []
    ensures p[0].target in CacheOf(p, bs) && CacheOf(p, bs)[p[0].target].count > 0
    ensures CacheOf(p[1..], bs) == DropFromCache(CacheOf(p, bs), p[0].target)
  {
    var c, r, t := CacheOf(p, bs), CacheOf(p[1..], bs), p[0].target;
    assert [p[0]] + p[1..] == p;
    forall b
      ensures Count(p, b) == Count(p[1..], b) + if b == t then 1 else 0
      ensures Count(p[1..], b) > 0 ==> LastFor(p, b) == LastFor(p[1..], b)
      ensures b in c <==> Count(p, b) > 0
      ensures b in r <==> Count(p[1..], b) > 0
      ensures b in c && b in r ==> c[b] == Cached(r[b].data, Count(p, b)) && r[b].count == Count(p[1..], b)
      ensures b in c ==> c[b].count == Count(p, b)
    {
      CountConcat([p[0]], p[1..], b);
      LastForConcat([p[0]], p[1..], b);
      LastForIsThere(p[1..], b);
      assert Count([p[0]], b) == if b == t then 1 else 0;
      CacheAt(p, bs, b);
      CacheAt(p[1..], bs, b);
    }
  }
}
