/**
  The deduplicating store as three typed tables: block number -> hash, hash -> use
  count, hash -> stored data.  What a put does to them, what stays true of them, how a
  reader sees them, and how one flat string-keyed database holds all three.
*/
module DedupTables {
  import opened Flat
  import opened DedupKeys

  datatype Tables = Tables(hashOf: map<nat, string>, count: map<string, int>, body: map<string, seq<Byte>>)

  // Compression.  `decompress` may fail.
  datatype Codec = Codec(name: string, compress: Block -> seq<Byte>, decompress: seq<Byte> -> Option<Block>)

  // Block size, digest size, digest function, and the optional compression.
  datatype Params = Params(bs: nat, hsize: nat, digest: Block -> seq<Byte>, codec: Option<Codec>)

  // The room that a read gives to a stored record.
  function MaxRecord(p: Params): nat {
    if p.codec.Some? then p.bs * 2 + 128 else p.bs
  }

  ghost predicate GoodParams(p: Params) {
    && 0 < p.bs && 0 < p.hsize
    && (forall x :: |p.digest(x)| == p.hsize)
    && (p.codec.Some? ==> forall x: Block :: |x| == p.bs ==>
                            && p.codec.value.decompress(p.codec.value.compress(x)) == Some(x)
                            && |p.codec.value.compress(x)| <= MaxRecord(p))
  }

  ghost function Hash(p: Params, x: Block): string {
    HexOf(p.digest(x))
  }

  ghost predicate IsHash(p: Params, h: string) {
    |h| == 2 * p.hsize && IsHex(h)
  }

  function Encode(p: Params, x: Block): seq<Byte> {
    if p.codec.Some? then p.codec.value.compress(x) else x
  }

  function Decode(p: Params, raw: seq<Byte>): Option<Block> {
    if |raw| > MaxRecord(p) then None
    else if p.codec.None? then Some(raw)
    else match p.codec.value.decompress(raw)
      case None => None
      case Some(x) => if |x| == p.bs then Some(x) else None
  }

  lemma DecodeEncode(p: Params, x: Block)
    requires GoodParams(p) && |x| == p.bs
    ensures Decode(p, Encode(p, x)) == Some(x)
    ensures IsHash(p, Hash(p, x))
  {
    HexOfIsHex(p.digest(x));
  }

  // What can be read back: without a codec any record of at most a block, with one any record of at most
  // two blocks and 128 bytes that decompresses to a block.
  lemma DecodesExactly(p: Params, raw: seq<Byte>)
    ensures Decode(p, raw).Some? <==>
            if p.codec.None? then |raw| <= p.bs
            else |raw| <= 2 * p.bs + 128 && exists x: Block :: p.codec.value.decompress(raw) == Some(x) && |x| == p.bs
    ensures Decode(p, raw).Some? ==>
              if p.codec.None? then Decode(p, raw).value == raw
              else p.codec.value.decompress(raw) == Some(Decode(p, raw).value)
  {
  }

  // ------------------------------------------------------------ conservation

  ghost function Users(t: Tables, h: string): set<nat> {
    set b | b in t.hashOf && t.hashOf[b] == h
  }

  ghost function CountOf(t: Tables, h: string): int {
    if h in t.count then t.count[h] else 0
  }

  ghost predicate Positive(t: Tables) {
    forall h :: h in t.count ==> t.count[h] > 0
  }

  // Each hash's counter is the number of blocks mapped to it, and a counter record exists iff that
  // number is positive.
  ghost predicate Conserved(t: Tables) {
    Positive(t) && forall h :: CountOf(t, h) == |Users(t, h)|
  }

  // Every mapped hash has stored data that decodes to a block with that hash.
  ghost predicate Backed(p: Params, t: Tables) {
    forall b :: b in t.hashOf ==> BodyFits(p, t, t.hashOf[b])
  }

  ghost predicate BodyFits(p: Params, t: Tables, h: string) {
    && IsHash(p, h) && h in t.body
    && Decode(p, t.body[h]).Some?
    && |Decode(p, t.body[h]).value| == p.bs
    && Hash(p, Decode(p, t.body[h]).value) == h
  }

  ghost predicate Named(p: Params, t: Tables) {
    (forall h :: h in t.count ==> IsHash(p, h)) && (forall h :: h in t.body ==> IsHash(p, h))
  }

  ghost predicate Good(p: Params, t: Tables) {
    GoodParams(p) && Conserved(t) && Backed(p, t) && Named(p, t)
  }

  // ------------------------------------------------------------------- a put

  // Overwriting: the old hash of b loses a user; with the last one its counter and the mapping go.
  ghost function Release(t: Tables, b: nat): Tables {
    if b !in t.hashOf || t.hashOf[b] !in t.count then t
    else
      var old0 := t.hashOf[b];
      var c := t.count[old0] - 1;
      if c == 0 then t.(count := t.count - {old0}, hashOf := t.hashOf - {b})
      else t.(count := t.count[old0 := c])
  }

  // The new hash gains a user; its data is stored when it had none.
  ghost function Acquire(t: Tables, h: string, raw: seq<Byte>): Tables {
    if h in t.count && t.count[h] > 0 then t.(count := t.count[h := t.count[h] + 1])
    else t.(count := t.count[h := 1], body := t.body[h := raw])
  }

  ghost function Put(t: Tables, b: nat, h: string, raw: seq<Byte>): Tables {
    var t' := Acquire(Release(t, b), h, raw);
    t'.(hashOf := t'.hashOf[b := h])
  }

  // No other block holds different content under the hash of x.
  ghost predicate NoCollision(p: Params, t: Tables, b: nat, x: Block) {
    forall c :: c in t.hashOf && c != b && t.hashOf[c] == Hash(p, x) ==> Content(p, t, c) == Some(x)
  }

  // What a read of block b yields; None when it was never written.
  ghost function Content(p: Params, t: Tables, b: nat): Option<Block> {
    if b in t.hashOf && t.hashOf[b] in t.body then Decode(p, t.body[t.hashOf[b]]) else None
  }

  lemma UsersSize(s: set<nat>, b: nat)
    ensures |s - {b}| == |s| - if b in s then 1 else 0
  {
    if b !in s { assert s - {b} == s; }
  }

  ghost predicate Maps(t: Tables, b: nat, g: string) {
    b in t.hashOf && t.hashOf[b] == g
  }

  lemma ReleaseFacts(t: Tables, b: nat)
    requires Conserved(t)
    ensures var t' := Release(t, b);
            && Positive(t')
            && (forall c :: c != b ==>
                              && (c in t'.hashOf <==> c in t.hashOf)
                              && (c in t.hashOf ==> t'.hashOf[c] == t.hashOf[c]))
            && t'.body == t.body
            && forall g :: CountOf(t', g) == CountOf(t, g) - if Maps(t, b, g) then 1 else 0
    ensures b in t.hashOf ==> t.hashOf[b] in t.count && t.count[t.hashOf[b]] >= 1
  {
    if b in t.hashOf {
      assert b in Users(t, t.hashOf[b]);
      assert CountOf(t, t.hashOf[b]) == |Users(t, t.hashOf[b])| > 0;
    }
  }

  lemma AcquireFacts(t: Tables, h: string, raw: seq<Byte>)
    requires Positive(t)
    ensures var t' := Acquire(t, h, raw);
            && Positive(t') && t'.hashOf == t.hashOf
            && (forall g :: CountOf(t', g) == CountOf(t, g) + if g == h then 1 else 0)
            && t'.body == if h in t.count then t.body else t.body[h := raw]
  {
  }

  lemma PutFacts(t: Tables, b: nat, h: string, raw: seq<Byte>)
    requires Conserved(t)
    ensures var t' := Put(t, b, h, raw);
            && Positive(t')
            && t'.hashOf == t.hashOf[b := h]
            && (forall g ::
                  CountOf(t', g) == CountOf(t, g) - (if Maps(t, b, g) then 1 else 0) + if g == h then 1 else 0)
            && t'.body == if h in Release(t, b).count then t.body else t.body[h := raw]
  {
    ReleaseFacts(t, b);
    AcquireFacts(Release(t, b), h, raw);
    hide Conserved, Acquire, CountOf, Positive;
  }

  lemma UsersOfUpdated(t: Tables, b: nat, h: string, g: string)
    ensures Users(t.(hashOf := t.hashOf[b := h]), g) == Users(t, g) - {b} + if g == h then {b} else {}
  {
  }

  // A put moves one user from the old hash to the new one, and the counters follow; also when both
  // are the same hash and its count was one.
  lemma PutConserves(t: Tables, b: nat, h: string, raw: seq<Byte>)
    requires Conserved(t)
    ensures Conserved(Put(t, b, h, raw))
  {
    PutFacts(t, b, h, raw);
    var t' := Put(t, b, h, raw);
    forall g
      ensures CountOf(t', g) == |Users(t', g)|
    {
      UsersOfUpdated(t, b, h, g);
      assert Users(t', g) == Users(t, g) - {b} + if g == h then {b} else {};
      UsersSize(Users(t, g), b);
      assert b in Users(t, g) <==> Maps(t, b, g);
    }
  }

  lemma KeptCounterHasUser(t: Tables, b: nat, h: string)
    requires Conserved(t)
    ensures h in Release(t, b).count <==> Users(t, h) - {b} != {}
  {
    ReleaseFacts(t, b);
    UsersSize(Users(t, h), b);
    assert b in Users(t, h) <==> Maps(t, b, h);
    assert CountOf(Release(t, b), h) == |Users(t, h) - {b}|;
    assert h in Release(t, b).count ==> Release(t, b).count[h] > 0;
  }

  lemma PutKeepsNames(p: Params, t: Tables, b: nat, x: Block)
    requires Good(p, t) && |x| == p.bs
    ensures Named(p, Put(t, b, Hash(p, x), Encode(p, x)))
  {
    DecodeEncode(p, x);
    PutFacts(t, b, Hash(p, x), Encode(p, x));
    hide Conserved, Backed, Decode, Encode, IsHash, Hash;
  }

  // The stored data behind every hash that block c uses, c other than b, is not touched by a put to b.
  lemma PutKeepsBody(p: Params, t: Tables, b: nat, x: Block, c: nat)
    requires Good(p, t) && |x| == p.bs && c in t.hashOf && c != b
    ensures var t' := Put(t, b, Hash(p, x), Encode(p, x));
            && c in t'.hashOf && t'.hashOf[c] == t.hashOf[c]
            && t.hashOf[c] in t'.body && t'.body[t.hashOf[c]] == t.body[t.hashOf[c]]
  {
    PutFacts(t, b, Hash(p, x), Encode(p, x));
    KeptCounterHasUser(t, b, Hash(p, x));
    assert BodyFits(p, t, t.hashOf[c]);
    hide Conserved, Decode, Encode, IsHash, Hash, Put, Release, BodyFits;
    if t.hashOf[c] == Hash(p, x) { assert c in Users(t, Hash(p, x)) - {b}; }
  }

  // The data that comes into the store is the block as it is, or compressed when there is a codec.
  lemma StoredForm(p: Params, t: Tables, b: nat, x: Block)
    requires Good(p, t) && |x| == p.bs
    ensures var t' := Put(t, b, Hash(p, x), Encode(p, x));
            t'.body == if Users(t, Hash(p, x)) - {b} != {} then t.body
                       else if p.codec.None? then t.body[Hash(p, x) := x]
                       else t.body[Hash(p, x) := p.codec.value.compress(x)]
  {
    PutFacts(t, b, Hash(p, x), Encode(p, x));
    KeptCounterHasUser(t, b, Hash(p, x));
    hide Put, Release, Conserved, Hash, Users;
  }

  lemma PutStores(p: Params, t: Tables, b: nat, x: Block)
    requires Good(p, t) && |x| == p.bs
    ensures var t' := Put(t, b, Hash(p, x), Encode(p, x));
            BodyFits(p, t', Hash(p, x)) && b in t'.hashOf && t'.hashOf[b] == Hash(p, x)
    ensures Content(p, Put(t, b, Hash(p, x), Encode(p, x)), b) == Some(x) <==> NoCollision(p, t, b, x)
  {
    var h, raw := Hash(p, x), Encode(p, x);
    var t' := Put(t, b, h, raw);
    PutFacts(t, b, h, raw);
    KeptCounterHasUser(t, b, h);
    DecodeEncode(p, x);
    if h in Release(t, b).count {
      var c :| c in Users(t, h) - {b};
      assert BodyFits(p, t, t.hashOf[c]);
      assert Content(p, t', b) == Content(p, t, c);
      forall d | d in t.hashOf && t.hashOf[d] == h
        ensures Content(p, t, d) == Content(p, t, c)
      {
      }
    } else {
      forall c | c in t.hashOf && c != b
        ensures t.hashOf[c] != h
      {
        assert c !in Users(t, h) - {b};
      }
    }
  }

  // What a put does for readers: other blocks keep their content, whatever happens to the stored
  // data; the block itself reads back exactly unless another block holds different content under
  // the same hash.
  lemma PutContent(p: Params, t: Tables, b: nat, x: Block)
    requires Good(p, t) && |x| == p.bs
    ensures var t' := Put(t, b, Hash(p, x), Encode(p, x));
            && Good(p, t')
            && (forall c :: c != b ==> Content(p, t', c) == Content(p, t, c))
            && (Content(p, t', b) == Some(x) <==> NoCollision(p, t, b, x))
  {
    var h, raw := Hash(p, x), Encode(p, x);
    var t' := Put(t, b, h, raw);
    PutConserves(t, b, h, raw);
    PutKeepsNames(p, t, b, x);
    PutStores(p, t, b, x);
    PutFacts(t, b, h, raw);
    hide Conserved, Named, Decode, Encode, Hash, IsHash, Put, NoCollision, Positive;
    forall c | c in t.hashOf && c != b
      ensures BodyFits(p, t', t'.hashOf[c]) && Content(p, t', c) == Content(p, t, c)
    {
      assert BodyFits(p, t, t.hashOf[c]);
      PutKeepsBody(p, t, b, x, c);
    }
    forall c | c in t'.hashOf
      ensures BodyFits(p, t', t'.hashOf[c])
    {
      if c == b { assert t'.hashOf[c] == h; }
    }
  }

  // --------------------------------------------------------- the flat database

  datatype Value = Number(n: int) | Text(s: string) | Bytes(raw: seq<Byte>)

  type Database = map<string, Value>

  // One string-keyed database holds the three tables: counters under the hash itself, mappings
  // under the block number's key, data under the hash's data key.
  ghost predicate HoldsMapping(db: Database, t: Tables) {
    forall b: nat :: (BlockKey(b) in db <==> b in t.hashOf) && (b in t.hashOf ==> db[BlockKey(b)] == Text(t.hashOf[b]))
  }

  ghost predicate HoldsCounts(p: Params, db: Database, t: Tables) {
    forall h :: IsHash(p, h) ==> (h in db <==> h in t.count) && (h in t.count ==> db[h] == Number(t.count[h]))
  }

  ghost predicate HoldsData(p: Params, db: Database, t: Tables) {
    forall h :: IsHash(p, h) ==>
                  && (DataKey(h) in db <==> h in t.body)
                  && (h in t.body ==> db[DataKey(h)] == Bytes(t.body[h]))
  }

  // The record that says how data is compressed.
  function Marker(p: Params): Value {
    Text(if p.codec.Some? then p.codec.value.name else "")
  }

  ghost predicate KnownKey(p: Params, k: string) {
    || k == COMPRESSED || IsHash(p, k)
    || (exists b: nat :: k == BlockKey(b))
    || (exists h :: IsHash(p, h) && k == DataKey(h))
  }

  // Besides them there is the marker and no other record.
  ghost predicate NothingElse(p: Params, db: Database) {
    && COMPRESSED in db && db[COMPRESSED] == Marker(p)
    && forall k :: k in db ==> KnownKey(p, k)
  }

  ghost predicate Holds(p: Params, db: Database, t: Tables) {
    HoldsMapping(db, t) && HoldsCounts(p, db, t) && HoldsData(p, db, t) && NothingElse(p, db)
  }

  // What the constructor demands of the marker that it finds.
  predicate FitsMarker(p: Params, found: string) {
    !((p.codec.Some? && found != p.codec.value.name) || (p.codec.None? && found != ""))
  }

  // A database is opened again exactly with the compression it was made with.
  lemma ReopenedExactly(p: Params, q: Params, db: Database, t: Tables)
    requires Holds(q, db, t)
    requires (p.codec.Some? ==> p.codec.value.name != "") && (q.codec.Some? ==> q.codec.value.name != "")
    ensures COMPRESSED in db && db[COMPRESSED].Text?
    ensures FitsMarker(p, db[COMPRESSED].s) <==>
            (p.codec.None? && q.codec.None?)
            || (p.codec.Some? && q.codec.Some? && p.codec.value.name == q.codec.value.name)
  {
  }

  // The tables determine the database.
  lemma OneDatabase(p: Params, db: Database, db': Database, t: Tables)
    requires Holds(p, db, t) && Holds(p, db', t)
    ensures db == db'
  {
    hide IsHash, BlockKey, DataKey, Marker;
    SameRecords(p, db, db', t);
    SameRecords(p, db', db, t);
  }

  lemma SameRecords(p: Params, db: Database, db': Database, t: Tables)
    requires Holds(p, db, t) && Holds(p, db', t)
    ensures forall k :: k in db ==> k in db' && db'[k] == db[k]
  {
    hide IsHash, BlockKey, DataKey, Marker;
    forall k | k in db ensures k in db' && db'[k] == db[k] {
      assert KnownKey(p, k);
      if k == COMPRESSED {
      } else if IsHash(p, k) {
      } else if b: nat :| k == BlockKey(b) {
      } else {
        var h :| IsHash(p, h) && k == DataKey(h);
      }
    }
  }

  lemma OtherRecord(p: Params, db: Database, k: string, v: Value)
    requires NothingElse(p, db) && KnownKey(p, k) && k != COMPRESSED
    ensures NothingElse(p, db[k := v]) && NothingElse(p, db - {k})
  {
    hide KnownKey, Marker;
  }

  lemma SetCounter(p: Params, db: Database, t: Tables, h: string, n: int)
    requires Holds(p, db, t) && IsHash(p, h)
    ensures Holds(p, db[h := Number(n)], t.(count := t.count[h := n]))
    ensures Holds(p, db - {h}, t.(count := t.count - {h}))
  {
    hide NothingElse, BlockKey, DataKey, IsHash;
    HashIsHex(p, h);
    forall b: nat, g: string ensures h != BlockKey(b) && h != DataKey(g) { KeysApart(b, g, h); }
    KeysApart(0, "", h);
    OtherRecord(p, db, h, Number(n));
  }

  lemma HashIsHex(p: Params, h: string)
    requires IsHash(p, h)
    ensures IsHex(h)
  {
  }

  lemma SetMapping(p: Params, db: Database, t: Tables, b: nat, h: string)
    requires Holds(p, db, t)
    ensures Holds(p, db[BlockKey(b) := Text(h)], t.(hashOf := t.hashOf[b := h]))
    ensures Holds(p, db - {BlockKey(b)}, t.(hashOf := t.hashOf - {b}))
  {
    hide NothingElse, BlockKey, DataKey, IsHash;
    forall c: nat ensures BlockKey(c) == BlockKey(b) ==> c == b {
      if BlockKey(c) == BlockKey(b) { BlockKeyInjective(b, c); }
    }
    forall g: string ensures IsHash(p, g) ==> g != BlockKey(b) {
      if IsHash(p, g) { HashIsHex(p, g); KeysApart(b, g, g); }
    }
    forall g: string ensures DataKey(g) != BlockKey(b) { KeysApart(b, g, ""); }
    KeysApart(b, "", "");
    OtherRecord(p, db, BlockKey(b), Text(h));
  }

  lemma SetData(p: Params, db: Database, t: Tables, h: string, raw: seq<Byte>)
    requires Holds(p, db, t) && IsHash(p, h)
    ensures Holds(p, db[DataKey(h) := Bytes(raw)], t.(body := t.body[h := raw]))
  {
    hide NothingElse, BlockKey, DataKey, IsHash;
    forall g: string ensures DataKey(g) == DataKey(h) ==> g == h {
      if DataKey(g) == DataKey(h) { DataKeyInjective(g, h); }
    }
    forall g: string ensures IsHash(p, g) ==> g != DataKey(h) {
      if IsHash(p, g) { HashIsHex(p, g); KeysApart(0, h, g); }
    }
    forall b: nat ensures BlockKey(b) != DataKey(h) { KeysApart(b, h, ""); }
    KeysApart(0, h, "");
    OtherRecord(p, db, DataKey(h), Bytes(raw));
  }

  // ------------------------------------------------------------- the disk view

  // Everything stored, as a disk.
  ghost function ViewOf(p: Params, t: Tables): Disk {
    map b | b in t.hashOf && Content(p, t, b).Some? :: Content(p, t, b).value
  }

  lemma ViewSized(p: Params, t: Tables)
    requires Good(p, t)
    ensures 0 < p.bs && Sized(ViewOf(p, t), p.bs)
    ensures forall b :: b in ViewOf(p, t) <==> b in t.hashOf
  {
    forall b | b in t.hashOf
      ensures Content(p, t, b).Some? && |Content(p, t, b).value| == p.bs
    {
      assert BodyFits(p, t, t.hashOf[b]);
    }
  }

  // The contents the hash is trusted on: no two of them have the same digest.
  ghost predicate Injective(p: Params, known: iset<Block>) {
    forall x, y :: x in known && y in known && p.digest(x) == p.digest(y) ==> x == y
  }

  ghost predicate AllKnown(p: Params, t: Tables, known: iset<Block>) {
    forall b :: b in ViewOf(p, t) ==> ViewOf(p, t)[b] in known
  }

  // On trusted contents a put is a plain block write.
  lemma PutIsWrite(p: Params, t: Tables, b: nat, x: Block, known: iset<Block>)
    requires Good(p, t) && |x| == p.bs && Injective(p, known) && AllKnown(p, t, known) && x in known
    ensures var t' := Put(t, b, Hash(p, x), Encode(p, x));
            Good(p, t') && AllKnown(p, t', known) && ViewOf(p, t') == ViewOf(p, t)[b := x]
  {
    PutContent(p, t, b, x);
    PutKeys(p, t, b, x);
    ViewSized(p, t);
    ViewSized(p, Put(t, b, Hash(p, x), Encode(p, x)));
    TrustedMeansNoCollision(p, t, b, x, known);
    hide Good, Put, Content, NoCollision, Hash, Encode, ViewOf, Injective;
    ViewsDiffer(p, t, Put(t, b, Hash(p, x), Encode(p, x)), b, x);
  }

  lemma PutKeys(p: Params, t: Tables, b: nat, x: Block)
    requires Good(p, t)
    ensures Put(t, b, Hash(p, x), Encode(p, x)).hashOf.Keys == t.hashOf.Keys + {b}
  {
    PutFacts(t, b, Hash(p, x), Encode(p, x));
    hide Put, Hash, Encode, Conserved;
  }

  lemma TrustedMeansNoCollision(p: Params, t: Tables, b: nat, x: Block, known: iset<Block>)
    requires Good(p, t) && Injective(p, known) && AllKnown(p, t, known) && x in known
    ensures NoCollision(p, t, b, x)
  {
    ViewSized(p, t);
    forall c | c in t.hashOf && c != b && t.hashOf[c] == Hash(p, x)
      ensures Content(p, t, c) == Some(x)
    {
      assert BodyFits(p, t, t.hashOf[c]);
      HexOfInjective(p.digest(x), p.digest(ViewOf(p, t)[c]));
    }
  }

  lemma ViewsDiffer(p: Params, t: Tables, t': Tables, b: nat, x: Block)
    requires forall c :: c in ViewOf(p, t) <==> c in t.hashOf
    requires forall c :: c in ViewOf(p, t') <==> c in t'.hashOf
    requires t'.hashOf.Keys == t.hashOf.Keys + {b}
    requires forall c :: c != b ==> Content(p, t', c) == Content(p, t, c)
    requires Content(p, t', b) == Some(x)
    ensures ViewOf(p, t') == ViewOf(p, t)[b := x]
  {
  }

  // Any run of puts from an empty store.
  ghost function PutAll(p: Params, puts: seq<(nat, Block)>): Tables {
    if puts == [] then Tables(map[], map[], map[])
    else
      var (b, x) := puts[|puts| - 1];
      Put(PutAll(p, puts[..|puts| - 1]), b, Hash(p, x), Encode(p, x))
  }

  ghost function WriteAll(puts: seq<(nat, Block)>): Disk {
    if puts == [] then map[] else WriteAll(puts[..|puts| - 1])[puts[|puts| - 1].0 := puts[|puts| - 1].1]
  }

  // After every run of puts the counters are right, all data is there, and the store reads as a
  // plain disk would that took the same writes.
  lemma {:induction false} EveryRunOfPuts(p: Params, puts: seq<(nat, Block)>, known: iset<Block>)
    requires GoodParams(p) && Injective(p, known)
    requires forall i :: 0 <= i < |puts| ==> |puts[i].1| == p.bs && puts[i].1 in known
    ensures Good(p, PutAll(p, puts)) && AllKnown(p, PutAll(p, puts), known)
    ensures ViewOf(p, PutAll(p, puts)) == WriteAll(puts)
  {
    if puts == [] {
      EmptyIsGood(p);
    } else {
      var front, last := puts[..|puts| - 1], puts[|puts| - 1];
      assert forall i :: 0 <= i < |front| ==> front[i] == puts[i];
      EveryRunOfPuts(p, front, known);
      PutIsWrite(p, PutAll(p, front), last.0, last.1, known);
    }
  }

  lemma EmptyIsGood(p: Params)
    requires GoodParams(p)
    ensures Good(p, Tables(map[], map[], map[])) && ViewOf(p, Tables(map[], map[], map[])) == map[]
  {
    assert forall h :: Users(Tables(map[], map[], map[]), h) == {};
  }
}
