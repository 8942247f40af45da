/** Numbers below 256 as bytes. */
module ByteValues {
  function Next(x: bv8): (y: bv8)
    requires x != 0xff
    ensures y as nat == x as nat + 1
  {
    x + 1
  }

  function ByteOf(n: nat): (x: bv8)
    requires n < 0x100
    ensures x as nat == n
  {
    if n == 0 then 0 else Next(ByteOf(n - 1))
  }
}

/**
  The 32-bit MurmurHash3 of hash.cpp:77-124 and the block-number hash built on it
  (storage_backend_tiering.cpp:54-64).  Every stage of the hash can be undone, so
  changing one word of a key always changes the hash.
*/
module Murmur {
  import opened ByteValues
  import opened Flat

  // ---------------------------------------------------------------- the stages

  function MulA(x: bv32): bv32 { x * 0xcc9e2d51 }

  function MulB(x: bv32): bv32 { x * 0x1b873593 }

  function Mul5Plus(x: bv32): bv32 { x * 5 + 0xe6546b64 }

  function MulC(x: bv32): bv32 { x * 0x85ebca6b }

  function MulD(x: bv32): bv32 { x * 0xc2b2ae35 }

  function RotateLeft15(x: bv32): bv32 { (x << 15) | (x >> 17) }

  function RotateLeft13(x: bv32): bv32 { (x << 13) | (x >> 19) }

  function Shift16(x: bv32): bv32 { x ^ (x >> 16) }

  function Shift13(x: bv32): bv32 { x ^ (x >> 13) }

  function Xor(x: bv32, y: bv32): bv32 { x ^ y }

  function Scramble(k: bv32): bv32 {
    MulB(RotateLeft15(MulA(k)))
  }

  function Mix(h: bv32, k: bv32): bv32 {
    Mul5Plus(RotateLeft13(Xor(h, Scramble(k))))
  }

  function Finalize(h: bv32): bv32 {
    Shift16(MulD(Shift13(MulC(Shift16(h)))))
  }

  // How each stage is undone; the factors are inverses modulo 2^32.
  function UnMulA(x: bv32): bv32 { x * 0xdee13bb1 }

  function UnMulB(x: bv32): bv32 { x * 0x56ed309b }

  function UnMul5Plus(x: bv32): bv32 { (x - 0xe6546b64) * 0xcccccccd }

  function UnMulC(x: bv32): bv32 { x * 0xa5cb9243 }

  function UnMulD(x: bv32): bv32 { x * 0x7ed1b41d }

  function UnRotate15(x: bv32): bv32 { (x << 17) | (x >> 15) }

  function UnRotate13(x: bv32): bv32 { (x << 19) | (x >> 13) }

  function UnShift13(x: bv32): bv32 { x ^ (x >> 13) ^ (x >> 26) }

  // The multiplying and shifting stages written out, and each undone on its written-out form:
  // the solver settles these products only when the stage's definition is already in place.
  lemma StagesWritten(x: bv32)
    ensures MulA(x) == x * 0xcc9e2d51 && MulB(x) == x * 0x1b873593
    ensures MulC(x) == x * 0x85ebca6b && MulD(x) == x * 0xc2b2ae35
    ensures Shift16(x) == x ^ (x >> 16) && Shift13(x) == x ^ (x >> 13)
  {
  }

  lemma WrittenStagesUndone(x: bv32)
    ensures UnMulA(x * 0xcc9e2d51) == x && UnMulB(x * 0x1b873593) == x
    ensures UnMulC(x * 0x85ebca6b) == x && UnMulD(x * 0xc2b2ae35) == x
    ensures Shift16(x ^ (x >> 16)) == x && UnShift13(x ^ (x >> 13)) == x
  {
  }

  lemma StagesUndone(x: bv32)
    ensures UnMulA(MulA(x)) == x && UnMulB(MulB(x)) == x
    ensures UnMulC(MulC(x)) == x && UnMulD(MulD(x)) == x
    ensures Shift16(Shift16(x)) == x && UnShift13(Shift13(x)) == x
  {
    hide *;
    StagesWritten(x);
    WrittenStagesUndone(x);
  }

  lemma Mul5PlusUndone(x: bv32)
    ensures UnMul5Plus(Mul5Plus(x)) == x
  {
  }

  lemma Rotate15Undone(x: bv32)
    ensures UnRotate15(RotateLeft15(x)) == x
  {
  }

  lemma Rotate13Undone(x: bv32)
    ensures UnRotate13(RotateLeft13(x)) == x
  {
  }

  lemma XorUndone(x: bv32, y: bv32)
    ensures Xor(Xor(x, y), y) == x && Xor(x, Xor(x, y)) == y
  {
  }

  lemma ScrambleUndone(k: bv32)
    ensures UnMulA(UnRotate15(UnMulB(Scramble(k)))) == k
  {
    hide MulA, MulB, RotateLeft15, UnMulA, UnMulB, UnRotate15;
    StagesUndone(k);
    Rotate15Undone(MulA(k));
    StagesUndone(RotateLeft15(MulA(k)));
  }

  lemma MixUndone(h: bv32, k: bv32)
    ensures UnRotate13(UnMul5Plus(Mix(h, k))) == Xor(h, Scramble(k))
  {
    hide Xor, Scramble, RotateLeft13, Mul5Plus, UnRotate13, UnMul5Plus;
    var x := Xor(h, Scramble(k));
    Rotate13Undone(x);
    Mul5PlusUndone(RotateLeft13(x));
  }

  lemma FinalizeUndone(h: bv32)
    ensures Shift16(UnMulC(UnShift13(UnMulD(Shift16(Finalize(h)))))) == h
  {
    hide Shift16, Shift13, UnShift13, MulC, MulD, UnMulC, UnMulD;
    var x := MulC(Shift16(h));
    StagesUndone(h);
    StagesUndone(Shift16(h));
    StagesUndone(x);
    StagesUndone(Shift13(x));
    StagesUndone(MulD(Shift13(x)));
  }

  lemma ScrambleInjective(k: bv32, j: bv32)
    ensures Scramble(k) == Scramble(j) ==> k == j
  {
    hide *;
    ScrambleUndone(k);
    ScrambleUndone(j);
  }

  lemma MixInjective(h: bv32, g: bv32, k: bv32, j: bv32)
    ensures Mix(h, k) == Mix(g, k) ==> h == g
    ensures Mix(h, k) == Mix(h, j) ==> k == j
  {
    hide *;
    MixUndone(h, k);
    MixUndone(g, k);
    MixUndone(h, j);
    XorUndone(h, Scramble(k));
    XorUndone(g, Scramble(k));
    XorUndone(h, Scramble(j));
    ScrambleInjective(k, j);
  }

  lemma FinalizeInjective(h: bv32, g: bv32)
    ensures Finalize(h) == Finalize(g) ==> h == g
  {
    hide *;
    FinalizeUndone(h);
    FinalizeUndone(g);
  }

  // ------------------------------------------------------------------ the hash

  // Four bytes, most significant first (the htonl of a loaded word).
  function Word(key: seq<Byte>, i: nat): bv32
    requires 4 * i + 4 <= |key|
  {
    FourBytes(key[4 * i], key[4 * i + 1], key[4 * i + 2], key[4 * i + 3])
  }

  function FourBytes(a: Byte, b: Byte, c: Byte, d: Byte): bv32 {
    ((a as bv32) << 24) | ((b as bv32) << 16) | ((c as bv32) << 8) | (d as bv32)
  }

  function Append(k: bv32, b: Byte): bv32 {
    (k << 8) | (b as bv32)
  }

  // At most three bytes, least significant first.
  function Tail(bytes: seq<Byte>): bv32 {
    if bytes == [] then 0 else Append(Tail(bytes[1..]), bytes[0])
  }

  ghost function Fold(key: seq<Byte>, n: nat, seed: bv32): bv32
    requires 4 * n <= |key|
  {
    if n == 0 then seed else Mix(Fold(key, n - 1, seed), Word(key, n - 1))
  }

  function Length32(len: nat): bv32 {
    (len % 0x1_0000_0000) as bv32
  }

  ghost function Hash32(key: seq<Byte>, seed: bv32): bv32 {
    var n := |key| / 4;
    Finalize(Xor(Xor(Fold(key, n, seed), Scramble(Tail(key[4 * n..]))), Length32(|key|)))
  }

  method Murmur3(key: seq<Byte>, seed: bv32) returns (h: bv32)
    ensures h == Hash32(key, seed)
  {
    hide Word, Scramble, Length32, MulC, MulD, Shift16, Shift13, Mul5Plus, RotateLeft13, Xor;
    h := seed;
    var n := |key| / 4;
    for i := 0 to n
      invariant h == Fold(key, i, seed)
    {
      var k := Word(key, i);
      h := Xor(h, Scramble(k));
      h := RotateLeft13(h);
      h := Mul5Plus(h);
    }
    var k := TailLoop(key[4 * n..]);
    h := Xor(h, Scramble(k));
    h := Xor(h, Length32(|key|));
    h := Shift16(h);
    h := MulC(h);
    h := Shift13(h);
    h := MulD(h);
    h := Shift16(h);
  }

  method TailLoop(rest: seq<Byte>) returns (k: bv32)
    ensures k == Tail(rest)
  {
    k := 0;
    for i := |rest| downto 0
      invariant k == Tail(rest[i..])
    {
      assert rest[i..][0] == rest[i] && rest[i..][1..] == rest[i + 1..];
      k := Append(k, rest[i]);
    }
    assert rest[0..] == rest;
  }

  lemma WordInjective(x: seq<Byte>, y: seq<Byte>, i: nat)
    requires |x| == |y| && 4 * i + 4 <= |x|
    ensures Word(x, i) == Word(y, i) ==> x[4 * i..4 * i + 4] == y[4 * i..4 * i + 4]
  {
    BytesDetermined(x[4 * i], x[4 * i + 1], x[4 * i + 2], x[4 * i + 3],
                    y[4 * i], y[4 * i + 1], y[4 * i + 2], y[4 * i + 3]);
  }

  lemma BytesDetermined(a: Byte, b: Byte, c: Byte, d: Byte, e: Byte, f: Byte, g: Byte, h: Byte)
    ensures FourBytes(a, b, c, d) == FourBytes(e, f, g, h) ==> a == e && b == f && c == g && d == h
  {
  }

  lemma AppendInjective(t: bv32, u: bv32, a: Byte, b: Byte)
    requires t < 0x100_0000 && u < 0x100_0000
    ensures Append(t, a) == Append(u, b) ==> t == u && a == b
  {
  }

  lemma AppendSmall(t: bv32, a: Byte)
    ensures t == 0 ==> Append(t, a) < 0x100
    ensures t < 0x100 ==> Append(t, a) < 0x1_0000
    ensures t < 0x1_0000 ==> Append(t, a) < 0x100_0000
  {
  }

  lemma {:induction false} TailSmall(x: seq<Byte>)
    ensures |x| <= 1 ==> Tail(x) < 0x100
    ensures |x| <= 2 ==> Tail(x) < 0x1_0000
    ensures |x| <= 3 ==> Tail(x) < 0x100_0000
  {
    if x != [] {
      TailSmall(x[1..]);
      AppendSmall(Tail(x[1..]), x[0]);
      hide Append;
    }
  }

  lemma {:induction false} TailInjective(x: seq<Byte>, y: seq<Byte>)
    requires |x| == |y| <= 3
    ensures Tail(x) == Tail(y) ==> x == y
  {
    hide Append;
    if x != [] {
      TailSmall(x[1..]);
      TailSmall(y[1..]);
      AppendInjective(Tail(x[1..]), Tail(y[1..]), x[0], y[0]);
      TailInjective(x[1..], y[1..]);
      assert x == [x[0]] + x[1..] && y == [y[0]] + y[1..];
    }
  }

  lemma {:induction false} FoldSame(x: seq<Byte>, y: seq<Byte>, n: nat, seed: bv32)
    requires 4 * n <= |x| && 4 * n <= |y| && forall i :: 0 <= i < n ==> Word(x, i) == Word(y, i)
    ensures Fold(x, n, seed) == Fold(y, n, seed)
  {
    if n > 0 { FoldSame(x, y, n - 1, seed); }
  }

  // One different word, and no later stage makes up for it.
  lemma {:induction false} FoldDiffers(x: seq<Byte>, y: seq<Byte>, n: nat, seed: bv32, w: nat)
    requires 4 * n <= |x| && 4 * n <= |y| && w < n
    requires forall i :: 0 <= i < n && i != w ==> Word(x, i) == Word(y, i)
    requires Word(x, w) != Word(y, w)
    ensures Fold(x, n, seed) != Fold(y, n, seed)
  {
    hide Mix, Word;
    var hx, hy := Fold(x, n - 1, seed), Fold(y, n - 1, seed);
    MixInjective(hx, hy, Word(x, n - 1), Word(y, n - 1));
    if w == n - 1 {
      FoldSame(x, y, n - 1, seed);
    } else {
      FoldDiffers(x, y, n - 1, seed, w);
    }
  }

  // Keys of one length that differ in one aligned word only.
  ghost predicate DifferInWord(x: seq<Byte>, y: seq<Byte>, w: nat) {
    && |x| == |y| && 4 * w + 4 <= |x| && x != y
    && x[..4 * w] == y[..4 * w] && x[4 * w + 4..] == y[4 * w + 4..]
  }

  // Keys of one length that differ in the bytes after the last whole word only.
  ghost predicate DifferInTail(x: seq<Byte>, y: seq<Byte>) {
    |x| == |y| && x != y && x[..|x| / 4 * 4] == y[..|x| / 4 * 4]
  }

  lemma SameOutside(x: seq<Byte>, y: seq<Byte>, i: nat, j: nat)
    requires |x| == |y| && i <= j <= |x| && x[..i] == y[..i] && x[j..] == y[j..]
    ensures forall k :: 0 <= k < |x| && !(i <= k < j) ==> x[k] == y[k]
    ensures x != y ==> x[i..j] != y[i..j]
  {
    forall k | 0 <= k < |x| && !(i <= k < j) ensures x[k] == y[k] {
      if k < i { assert x[..i][k] == y[..i][k]; } else { assert x[j..][k - j] == y[j..][k - j]; }
    }
    Reassembled(x, y, i, j);
  }

  lemma WordsOfDifferInWord(x: seq<Byte>, y: seq<Byte>, w: nat)
    requires DifferInWord(x, y, w)
    ensures Word(x, w) != Word(y, w)
    ensures forall i :: 0 <= i < |x| / 4 && i != w ==> Word(x, i) == Word(y, i)
    ensures x[|x| / 4 * 4..] == y[|x| / 4 * 4..]
  {
    hide Word;
    SameOutside(x, y, 4 * w, 4 * w + 4);
    WordInjective(x, y, w);
    forall i | 0 <= i < |x| / 4 && i != w
      ensures Word(x, i) == Word(y, i)
    {
      SameWord(x, y, i);
    }
  }

  lemma SameWord(x: seq<Byte>, y: seq<Byte>, i: nat)
    requires |x| == |y| && 4 * i + 4 <= |x|
    requires forall k :: 4 * i <= k < 4 * i + 4 ==> x[k] == y[k]
    ensures Word(x, i) == Word(y, i)
  {
  }

  lemma Reassembled(x: seq<Byte>, y: seq<Byte>, i: nat, j: nat)
    requires |x| == |y| && i <= j <= |x| && x[..i] == y[..i] && x[j..] == y[j..]
    ensures x[i..j] == y[i..j] ==> x == y
  {
    assert x == x[..i] + x[i..j] + x[j..] && y == y[..i] + y[i..j] + y[j..];
  }

  // Equal hashes of keys of one length come from equal words or tails.
  lemma Hash32Undone(x: seq<Byte>, y: seq<Byte>, seed: bv32)
    requires |x| == |y|
    ensures var n := |x| / 4;
            Hash32(x, seed) == Hash32(y, seed) ==>
              Xor(Fold(x, n, seed), Scramble(Tail(x[4 * n..]))) == Xor(Fold(y, n, seed), Scramble(Tail(y[4 * n..])))
  {
    hide Finalize, Scramble, Fold, Tail, Length32, Xor;
    var n := |x| / 4;
    var a := Xor(Fold(x, n, seed), Scramble(Tail(x[4 * n..])));
    var b := Xor(Fold(y, n, seed), Scramble(Tail(y[4 * n..])));
    FinalizeInjective(Xor(a, Length32(|x|)), Xor(b, Length32(|y|)));
    XorUndone(a, Length32(|x|));
    XorUndone(b, Length32(|y|));
  }

  // For every seed, length and position: changing one aligned word changes the hash.
  lemma OneWordChangesHash(x: seq<Byte>, y: seq<Byte>, w: nat, seed: bv32)
    requires DifferInWord(x, y, w)
    ensures Hash32(x, seed) != Hash32(y, seed)
  {
    var n := |x| / 4;
    WordsOfDifferInWord(x, y, w);
    hide Fold, Scramble, Tail, Xor, Hash32, Word;
    FoldDiffers(x, y, n, seed, w);
    Hash32Undone(x, y, seed);
    XorUndone(Fold(x, n, seed), Scramble(Tail(x[4 * n..])));
    XorUndone(Fold(y, n, seed), Scramble(Tail(y[4 * n..])));
  }

  // So does changing the bytes after the last whole word.
  lemma TailChangesHash(x: seq<Byte>, y: seq<Byte>, seed: bv32)
    requires DifferInTail(x, y)
    ensures Hash32(x, seed) != Hash32(y, seed)
  {
    hide Fold, Scramble, Tail, Xor, Hash32, Word;
    var n := |x| / 4;
    var t, u := Tail(x[4 * n..]), Tail(y[4 * n..]);
    Reassembled(x, y, 4 * n, |x|);
    assert x[4 * n..|x|] == x[4 * n..] && y[4 * n..|x|] == y[4 * n..];
    forall i | 0 <= i < n ensures Word(x, i) == Word(y, i) {
      assert forall k :: 0 <= k < 4 * n ==> x[k] == x[..4 * n][k] == y[k];
      SameWord(x, y, i);
    }
    FoldSame(x, y, n, seed);
    Hash32Undone(x, y, seed);
    XorUndone(Fold(x, n, seed), Scramble(t));
    XorUndone(Fold(y, n, seed), Scramble(u));
    ScrambleInjective(t, u);
    TailInjective(x[4 * n..], y[4 * n..]);
  }

  // ------------------------------------------------------------- known hashes

  // Values of the published algorithm: without a key, for each length of a tail, for a word, and for a
  // word with a tail.  (A word counts from its most significant byte here.)
  lemma KnownHashes()
    ensures Hash32([], 1) == 0x514e28b7
    ensures Hash32([0x21], 0) == 0x72661cf4
    ensures Hash32([0x21, 0x43], 0) == 0xa0f7b07a
    ensures Hash32([0x21, 0x43, 0x65], 0) == 0x7e4a8634
    ensures Hash32([0x87, 0x65, 0x43, 0x21], 0) == 0xf55b516b
    ensures Hash32([0x87, 0x65, 0x43, 0x21], 0x5082_edee) == 0x2362f9de
    ensures Hash32([0x87, 0x65, 0x43, 0x21, 0x21], 0) == 0x4795f3fe
  {
    hide Scramble, Finalize, Mix, Length32, Append, FourBytes, Fold, Tail, Word, Xor, Hash32;
    KnownTails();
    KnownWord();
    KnownScrambles();
    KnownMixes();
    KnownFinals();
    Lengths();
    HashOfTail([], 1, 0);
    HashOfTail([0x21], 0, 0x21);
    HashOfTail([0x21, 0x43], 0, 0x4321);
    HashOfTail([0x21, 0x43, 0x65], 0, 0x65_4321);
    HashOfWord(0x87, 0x65, 0x43, 0x21, [], 0, 0);
    HashOfWord(0x87, 0x65, 0x43, 0x21, [], 0x5082_edee, 0);
    HashOfWord(0x87, 0x65, 0x43, 0x21, [0x21], 0, 0x21);
    assert [0x87 as Byte, 0x65, 0x43, 0x21] + [] == [0x87, 0x65, 0x43, 0x21];
    assert [0x87 as Byte, 0x65, 0x43, 0x21] + [0x21] == [0x87, 0x65, 0x43, 0x21, 0x21];
  }

  lemma HashOfTail(key: seq<Byte>, seed: bv32, t: bv32)
    requires |key| < 4 && Tail(key) == t
    ensures Hash32(key, seed) == Finalize(Xor(Xor(seed, Scramble(t)), Length32(|key|)))
  {
    hide Scramble, Finalize, Length32, Tail, Xor;
    assert key[0..] == key;
  }

  lemma HashOfWord(a: Byte, b: Byte, c: Byte, d: Byte, rest: seq<Byte>, seed: bv32, t: bv32)
    requires |rest| < 4 && Tail(rest) == t
    ensures Hash32([a, b, c, d] + rest, seed)
         == Finalize(Xor(Xor(Mix(seed, FourBytes(a, b, c, d)), Scramble(t)), Length32(4 + |rest|)))
  {
    hide Scramble, Finalize, Length32, Tail, Xor, Mix, FourBytes;
    var key := [a, b, c, d] + rest;
    assert key[4..] == rest;
    assert Word(key, 0) == FourBytes(a, b, c, d);
    assert Fold(key, 0, seed) == seed && Fold(key, 1, seed) == Mix(seed, Word(key, 0));
  }

  lemma KnownTails()
    ensures Tail([]) == 0 && Tail([0x21]) == 0x21 && Tail([0x21, 0x43]) == 0x4321
    ensures Tail([0x21, 0x43, 0x65]) == 0x65_4321
  {
    assert [0x21 as Byte][1..] == [] && [0x43 as Byte][1..] == [] && [0x65 as Byte][1..] == [];
    assert [0x21 as Byte, 0x43][1..] == [0x43] && [0x43 as Byte, 0x65][1..] == [0x65];
    assert [0x21 as Byte, 0x43, 0x65][1..] == [0x43, 0x65];
  }

  lemma KnownWord()
    ensures FourBytes(0x87, 0x65, 0x43, 0x21) == 0x8765_4321
  {
  }

  lemma KnownScrambles()
    ensures Scramble(0x21) == 0xac5e5123 && Scramble(0x4321) == 0xec900b60
    ensures Scramble(0x65_4321) == 0x17a6636e && Scramble(0) == 0
    ensures Xor(Xor(0, 0xac5e5123), 1) == 0xac5e5122 && Xor(Xor(0, 0xec900b60), 2) == 0xec900b62
    ensures Xor(Xor(0, 0x17a6636e), 3) == 0x17a6636d && Xor(Xor(1, 0), 0) == 1
  {
  }

  lemma KnownMixes()
    ensures Mix(0, 0x8765_4321) == 0xbb095db4 && Mix(0x5082_edee, 0x8765_4321) == 0xe6546b64
    ensures Xor(Xor(0xbb095db4, 0), 4) == 0xbb095db0 && Xor(Xor(0xe6546b64, 0), 4) == 0xe6546b60
    ensures Xor(Xor(0xbb095db4, 0xac5e5123), 5) == 0x17570c92
  {
  }

  lemma KnownFinals()
    ensures Finalize(1) == 0x514e28b7 && Finalize(0xac5e5122) == 0x72661cf4
    ensures Finalize(0xec900b62) == 0xa0f7b07a && Finalize(0x17a6636d) == 0x7e4a8634
    ensures Finalize(0xbb095db0) == 0xf55b516b && Finalize(0xe6546b60) == 0x2362f9de
    ensures Finalize(0x17570c92) == 0x4795f3fe
  {
  }

  lemma Lengths()
    ensures Length32(0) == 0 && Length32(1) == 1 && Length32(2) == 2 && Length32(3) == 3
    ensures Length32(4) == 4 && Length32(5) == 5
  {
    Length4();
    assert 5 % 0x1_0000_0000 == 5 && 3 % 0x1_0000_0000 == 3 && 2 % 0x1_0000_0000 == 2;
    assert 1 % 0x1_0000_0000 == 1 && 0 % 0x1_0000_0000 == 0;
    assert (0 as nat) as bv32 == 0 && (1 as nat) as bv32 == 1 && (2 as nat) as bv32 == 2;
    assert (3 as nat) as bv32 == 3 && (5 as nat) as bv32 == 5;
  }

  // -------------------------------------------------------- hashing block numbers

  const SEED: bv32 := 0xEDB88320
  const TWO32: nat := 0x1_0000_0000
  const TWO64: nat := 0x1_0000_0000_0000_0000

  // The only block number whose hash is 0 (see OnlyOneHashesToZero).
  const ZERO_HASHED: nat := 0xde191fd1_de191fd1

  // The k-th digit of a 32-bit number to base 256.
  function Digit(w: nat, k: nat): (d: nat)
    requires w < TWO32 && k < 4
    ensures d < 0x100
  {
    match k
    case 0 => w % 0x100
    case 1 => w / 0x100 % 0x100
    case 2 => w / 0x1_0000 % 0x100
    case _ => w / 0x100_0000
  }

  lemma DigitsMakeNumber(w: nat)
    requires w < TWO32
    ensures w == Digit(w, 3) * 0x100_0000 + Digit(w, 2) * 0x1_0000 + Digit(w, 1) * 0x100 + Digit(w, 0)
  {
    var a, b := w / 0x100, w / 0x1_0000;
    assert w == a * 0x100 + w % 0x100;
    assert b == a / 0x100 && a == b * 0x100 + a % 0x100;
    assert w / 0x100_0000 == b / 0x100 && b == b / 0x100 * 0x100 + b % 0x100;
  }

  // A 32-bit number in memory, most significant byte first.
  function KeyOf(w: nat): (key: seq<Byte>)
    requires w < TWO32
    ensures |key| == 4
  {
    [ByteOf(Digit(w, 3)), ByteOf(Digit(w, 2)), ByteOf(Digit(w, 1)), ByteOf(Digit(w, 0))]
  }

  lemma KeyOfInjective(v: nat, w: nat)
    requires v < TWO32 && w < TWO32
    ensures KeyOf(v) == KeyOf(w) ==> v == w
  {
    hide ByteOf, Digit;
    if KeyOf(v) == KeyOf(w) {
      forall k: nat | k < 4 ensures Digit(v, k) == Digit(w, k) {
        assert KeyOf(v)[3 - k] == KeyOf(w)[3 - k];
        assert ByteOf(Digit(v, k)) == ByteOf(Digit(w, k));
      }
      DigitsMakeNumber(v);
      DigitsMakeNumber(w);
    }
  }

  ghost function WordHash(w: nat): bv32
    requires w < TWO32
  {
    Hash32(KeyOf(w), SEED)
  }

  lemma WordHashInjective(v: nat, w: nat)
    requires v < TWO32 && w < TWO32
    ensures WordHash(v) == WordHash(w) ==> v == w
  {
    hide KeyOf, Hash32;
    if v != w {
      KeyOfInjective(v, w);
      OneWordChangesHash(KeyOf(v), KeyOf(w), 0, SEED);
    }
  }

  function AsNat(x: bv32): (n: nat)
    ensures n < TWO32
  {
    x as nat
  }

  lemma AsNatInjective(x: bv32, y: bv32)
    ensures AsNat(x) == AsNat(y) ==> x == y
  {
    AsNatBack(x);
    AsNatBack(y);
  }

  lemma AsNatBack(x: bv32)
    ensures (AsNat(x) as bv32) == x
  {
  }

  ghost function HashBlockNr(b: nat): (h: nat)
    requires b < TWO64
    ensures h < TWO64
  {
    AsNat(WordHash(b / TWO32)) * TWO32 + AsNat(WordHash(b % TWO32))
  }

  method HashOfBlock(b: nat) returns (h: nat)
    requires b < TWO64
    ensures h == HashBlockNr(b)
  {
    hide Hash32, KeyOf, AsNat;
    var u := Murmur3(KeyOf(b / TWO32), SEED);
    var l := Murmur3(KeyOf(b % TWO32), SEED);
    h := AsNat(u) * TWO32 + AsNat(l);
  }

  // No two 64-bit block numbers share a hash.
  lemma HashBlockNrInjective(b: nat, c: nat)
    requires b < TWO64 && c < TWO64
    ensures HashBlockNr(b) == HashBlockNr(c) ==> b == c
  {
    hide WordHash, AsNat;
    if HashBlockNr(b) == HashBlockNr(c) {
      AsNatInjective(WordHash(b / TWO32), WordHash(c / TWO32));
      AsNatInjective(WordHash(b % TWO32), WordHash(c % TWO32));
      WordHashInjective(b / TWO32, c / TWO32);
      WordHashInjective(b % TWO32, c % TWO32);
    }
  }

  // The upper half of the hash comes from the upper half of the block number and tells it, and so the
  // lower halves.
  lemma HalvesStayApart(b: nat, c: nat)
    requires b < TWO64 && c < TWO64
    ensures HashBlockNr(b) / TWO32 == HashBlockNr(c) / TWO32 <==> b / TWO32 == c / TWO32
    ensures HashBlockNr(b) % TWO32 == HashBlockNr(c) % TWO32 <==> b % TWO32 == c % TWO32
  {
    hide WordHash, AsNat;
    HalvesOf(b);
    HalvesOf(c);
    AsNatInjective(WordHash(b / TWO32), WordHash(c / TWO32));
    AsNatInjective(WordHash(b % TWO32), WordHash(c % TWO32));
    WordHashInjective(b / TWO32, c / TWO32);
    WordHashInjective(b % TWO32, c % TWO32);
  }

  lemma HalvesOf(b: nat)
    requires b < TWO64
    ensures HashBlockNr(b) / TWO32 == AsNat(WordHash(b / TWO32))
    ensures HashBlockNr(b) % TWO32 == AsNat(WordHash(b % TWO32))
  {
    hide WordHash, AsNat;
    var u, l := AsNat(WordHash(b / TWO32)), AsNat(WordHash(b % TWO32));
    DivRange(u * TWO32 + l, u, TWO32);
  }

  lemma KeyOfZeroHashed()
    ensures KeyOf(0xde191fd1) == [0xde, 0x19, 0x1f, 0xd1]
  {
    hide ByteOf, Digit;
    DigitsZeroHashed();
    BytesZeroHashed();
  }

  lemma DigitsZeroHashed()
    ensures Digit(0xde191fd1, 3) == 0xde && Digit(0xde191fd1, 2) == 0x19
    ensures Digit(0xde191fd1, 1) == 0x1f && Digit(0xde191fd1, 0) == 0xd1
  {
  }

  lemma BytesZeroHashed()
    ensures ByteOf(0xde) == 0xde && ByteOf(0x19) == 0x19 && ByteOf(0x1f) == 0x1f && ByteOf(0xd1) == 0xd1
    ensures FourBytes(0xde, 0x19, 0x1f, 0xd1) == 0xde191fd1
  {
    hide ByteOf;
    SameByte(ByteOf(0xde), 0xde);
    SameByte(ByteOf(0x19), 0x19);
    SameByte(ByteOf(0x1f), 0x1f);
    SameByte(ByteOf(0xd1), 0xd1);
  }

  lemma SameByte(x: Byte, y: Byte)
    ensures x as nat == y as nat ==> x == y
  {
    assert (x as nat) as bv8 == x && (y as nat) as bv8 == y;
  }

  lemma ScrambleZeroHashed()
    ensures Scramble(0xde191fd1) == 0xccb9418c && Scramble(0) == 0
  {
  }

  lemma MixZeroHashed()
    ensures Mul5Plus(RotateLeft13(Xor(SEED, 0xccb9418c))) == 4
    ensures Xor(Xor(4, 0), 4) == 0
  {
  }

  lemma FinalizeZero()
    ensures Finalize(0) == 0
  {
  }

  lemma Length4()
    ensures Length32(4) == 4
  {
    assert 4 % TWO32 == 4;
    assert (4 as nat) as bv32 == 4;
  }

  lemma ZeroWord()
    ensures WordHash(0xde191fd1) == 0
  {
    hide Scramble, KeyOf, Finalize, FourBytes, Mul5Plus, RotateLeft13, Xor, Length32;
    KeyOfZeroHashed();
    BytesZeroHashed();
    ScrambleZeroHashed();
    MixZeroHashed();
    FinalizeZero();
    Length4();
    var key := KeyOf(0xde191fd1);
    assert Word(key, 0) == 0xde191fd1;
    assert Fold(key, 0, SEED) == SEED;
    assert Fold(key, 1, SEED) == 4;
    assert key[4..] == [];
  }

  // A descriptor that was never used holds hash 0; one block number, beyond the end of every device
  // whose size in bytes fits 64 bits, is mistaken for it.
  lemma OnlyOneHashesToZero(b: nat)
    requires b < TWO64
    ensures HashBlockNr(b) == 0 <==> b == ZERO_HASHED
  {
    hide WordHash, AsNat, HashBlockNr;
    ZeroHashed();
    HashBlockNrInjective(b, ZERO_HASHED);
  }

  lemma ZeroHashed()
    ensures HashBlockNr(ZERO_HASHED) == 0
  {
    hide WordHash;
    ZeroWord();
    assert ZERO_HASHED / TWO32 == 0xde191fd1 && ZERO_HASHED % TWO32 == 0xde191fd1;
  }
}
