/**
  The bitmap of a snapshot (snapshots.cpp:34-36, 73-93): 64 block flags to a word, as a
  refinement of a set of block numbers.
*/
module SnapshotBitmap {
  import opened Flat

  function NextShift(x: bv6): (y: bv6)
    requires x != 63
    ensures y as nat == x as nat + 1
  {
    x + 1
  }

  function ShiftOf(n: nat): (x: bv6)
    requires n < 64
    ensures x as nat == n
  {
    if n == 0 then 0 else NextShift(ShiftOf(n - 1))
  }

  function Bit(k: bv6): bv64 {
    (1 as bv64) << k
  }

  function Mask(b: nat): bv64 {
    Bit(ShiftOf(b % 64))
  }

  predicate HasBit(w: bv64, m: bv64) {
    w & m != 0
  }

  function WithBit(w: bv64, m: bv64): bv64 {
    w | m
  }

  lemma BitsDistinct(i: bv6, j: bv6)
    ensures ((1 as bv64) << i) & ((1 as bv64) << j) == 0 <==> i != j
  {
  }

  lemma OrDistributes(w: bv64, m: bv64, k: bv64)
    ensures (w | m) & k == (w & k) | (m & k)
    ensures w | m == 0 <==> w == 0 && m == 0
  {
  }

  lemma BitWritten(i: bv6)
    ensures Bit(i) == (1 as bv64) << i
  {
  }

  lemma WordWritten(w: bv64, m: bv64)
    ensures WithBit(w, m) == w | m && (HasBit(w, m) <==> w & m != 0)
  {
  }

  lemma BitsApart(w: bv64, i: bv6, j: bv6)
    ensures HasBit(WithBit(w, Bit(i)), Bit(j)) <==> i == j || HasBit(w, Bit(j))
  {
    hide *;
    BitsDistinct(i, j);
    BitWritten(i);
    BitWritten(j);
    WordWritten(w, Bit(i));
    WordWritten(w, Bit(j));
    WordWritten(w | Bit(i), Bit(j));
    OrDistributes(w, Bit(i), Bit(j));
    OrDistributes(w & Bit(j), Bit(i) & Bit(j), 0);
  }

  lemma NoBits(m: bv64)
    ensures !HasBit(0, m)
  {
  }

  predicate IsSet(words: seq<bv64>, b: nat)
    requires b / 64 < |words|
  {
    HasBit(words[b / 64], Mask(b))
  }

  function SetBit(words: seq<bv64>, b: nat): seq<bv64>
    requires b / 64 < |words|
  {
    words[b / 64 := WithBit(words[b / 64], Mask(b))]
  }

  ghost function Marked(words: seq<bv64>, n: nat): set<nat>
    requires n <= 64 * |words|
  {
    set b: nat | b < n && InWord(b, words) && IsSet(words, b)
  }

  ghost predicate InWord(b: nat, words: seq<bv64>) {
    b / 64 < |words|
  }

  lemma MaskOfOther(w: bv64, b: nat, c: nat)
    requires b / 64 == c / 64
    ensures HasBit(WithBit(w, Mask(b)), Mask(c)) <==> b == c || HasBit(w, Mask(c))
  {
    hide HasBit, WithBit, Bit, ShiftOf;
    BitsApart(w, ShiftOf(b % 64), ShiftOf(c % 64));
    assert ShiftOf(b % 64) == ShiftOf(c % 64) ==> b % 64 == c % 64;
  }

  // Setting the bit of a block adds that block to the set, whatever word it falls in.
  lemma SetBitMarks(words: seq<bv64>, b: nat, n: nat)
    requires b < n <= 64 * |words|
    ensures b / 64 < |words| && Marked(SetBit(words, b), n) == Marked(words, n) + {b}
  {
    hide HasBit, WithBit, Mask;
    assert b / 64 < |words|;
    var after := SetBit(words, b);
    forall c: nat | c < n
      ensures c in Marked(after, n) <==> c in Marked(words, n) + {b}
    {
      assert InWord(c, words) && InWord(c, after);
      if c / 64 == b / 64 { MaskOfOther(words[b / 64], b, c); }
    }
  }

  lemma NothingMarked(words: seq<bv64>, n: nat)
    requires n <= 64 * |words| && forall i :: 0 <= i < |words| ==> words[i] == 0
    ensures Marked(words, n) == {}
  {
    hide Mask, HasBit;
    forall b: nat | b < n ensures b !in Marked(words, n) {
      NoBits(Mask(b));
    }
  }

  function NBlocks(size: nat, bs: nat): nat
    requires 0 < bs
  {
    (size + bs - 1) / bs
  }

  function AllocatedBytes(size: nat, bs: nat): nat
    requires 0 < bs
  {
    (size + bs - 1) / (bs * 8)
  }

  // The bytes that the words of blocks 0 .. n - 1 occupy.
  function BytesUsed(n: nat): nat {
    if n == 0 then 0 else ((n - 1) / 64 + 1) * 8
  }

  lemma NestedDiv(x: nat, bs: nat)
    requires 0 < bs
    ensures x / (bs * 8) == x / bs / 8
  {
    var q := x / bs;
    var p := q / 8;
    Commuted(p, bs);
    Between(q, 8 * p, bs);
    Between(8 * p + 8, q + 1, bs);
    DivRange(x, q, bs);
    DivRange(x, p, bs * 8);
  }

  lemma Commuted(p: nat, bs: nat)
    ensures 8 * p * bs == p * (bs * 8) && (8 * p + 8) * bs == p * (bs * 8) + bs * 8
  {
  }

  lemma Between(a: nat, b: nat, bs: nat)
    ensures b <= a ==> b * bs <= a * bs
    ensures b * bs + bs == (b + 1) * bs
  {
  }

  // The constructor allocates the bitmap with a division that rounds down: the words of all blocks
  // fit exactly when the number of blocks is a multiple of 64.
  lemma AllocationSuffices(size: nat, bs: nat)
    requires 0 < bs
    ensures BytesUsed(NBlocks(size, bs)) <= AllocatedBytes(size, bs) <==> NBlocks(size, bs) % 64 == 0
  {
    NestedDiv(size + bs - 1, bs);
    Rounded(NBlocks(size, bs));
  }

  lemma Rounded(n: nat)
    ensures BytesUsed(n) <= n / 8 <==> n % 64 == 0
  {
    var q, r := n / 64, n % 64;
    DivRange(n, 8 * q + r / 8, 8);
    if n > 0 { DivRange(n - 1, if r == 0 then q - 1 else q, 64); }
  }
}
