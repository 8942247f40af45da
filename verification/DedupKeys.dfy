/**
  The keys of the deduplicating store's one flat database, and the hex form of a
  digest (hash.cpp:36-62, storage_backend_dedup.cpp:115-131).
*/
module DedupKeys {
  import opened Flat

  // ------------------------------------------------------------- hex digests

  function HexDigit(n: nat): char
    requires n < 16
  {
    if n >= 10 then 'a' + (n - 10) as char else '0' + n as char
  }

  predicate IsHexDigit(c: char) {
    '0' <= c <= '9' || 'a' <= c <= 'f'
  }

  function High(b: Byte): (n: nat)
    ensures n < 16
  {
    (b >> 4) as nat
  }

  function Low(b: Byte): (n: nat)
    ensures n < 16
  {
    (b & 15) as nat
  }

  ghost function HexOf(digest: seq<Byte>): (s: string)
    ensures |s| == 2 * |digest|
  {
    seq(2 * |digest|, i requires 0 <= i < 2 * |digest| =>
      HexDigit(if i % 2 == 0 then High(digest[i / 2]) else Low(digest[i / 2])))
  }

  ghost predicate IsHex(s: string) {
    forall i :: 0 <= i < |s| ==> IsHexDigit(s[i])
  }

  lemma HexDigitInjective(m: nat, n: nat)
    requires m < 16 && n < 16
    ensures IsHexDigit(HexDigit(m))
    ensures HexDigit(m) == HexDigit(n) ==> m == n
  {
  }

  lemma NibblesDetermine(b: Byte, c: Byte)
    requires High(b) == High(c) && Low(b) == Low(c)
    ensures b == c
  {
    assert b >> 4 == c >> 4 && b & 15 == c & 15;
  }

  lemma HexOfIsHex(digest: seq<Byte>)
    ensures IsHex(HexOf(digest))
  {
    forall i | 0 <= i < 2 * |digest|
      ensures IsHexDigit(HexOf(digest)[i])
    {
      var n := if i % 2 == 0 then High(digest[i / 2]) else Low(digest[i / 2]);
      HexDigitInjective(n, n);
    }
  }

  // Different digests have different names.
  lemma HexOfInjective(d: seq<Byte>, e: seq<Byte>)
    requires HexOf(d) == HexOf(e)
    ensures d == e
  {
    assert |HexOf(d)| == |HexOf(e)|;
    forall k | 0 <= k < |d|
      ensures d[k] == e[k]
    {
      assert HexOf(d)[2 * k] == HexOf(e)[2 * k] && HexOf(d)[2 * k + 1] == HexOf(e)[2 * k + 1];
      HexDigitInjective(High(d[k]), High(e[k]));
      HexDigitInjective(Low(d[k]), Low(e[k]));
      NibblesDetermine(d[k], e[k]);
    }
  }

  // The value that a character has as a digit.
  function DigitValue(c: char): nat
    requires IsHexDigit(c)
  {
    if c <= '9' then (c - '0') as nat else (c - 'a') as nat + 10
  }

  lemma DigitOfValue(n: nat)
    requires n < 16
    ensures IsHexDigit(HexDigit(n)) && DigitValue(HexDigit(n)) == n
  {
  }

  lemma ByteOfHalves(b: Byte)
    ensures b as nat == 16 * High(b) + Low(b)
  {
    HalvesAsBits(b);
    assert (b >> 4) as nat == b as nat / 16;
    assert (b & 15) as nat == b as nat % 16;
  }

  lemma HalvesAsBits(b: Byte)
    ensures b >> 4 == b / 16 && b & 15 == b % 16
  {
  }

  // The string is the number: two digits a byte, the upper half first.
  ghost predicate SpellsOut(s: string, digest: seq<Byte>) {
    && |s| == 2 * |digest| && IsHex(s)
    && forall i :: 0 <= i < |digest| ==>
                     digest[i] as nat == 16 * DigitValue(s[2 * i]) + DigitValue(s[2 * i + 1])
  }

  lemma HexSpellsOut(digest: seq<Byte>)
    ensures SpellsOut(HexOf(digest), digest)
  {
    HexOfIsHex(digest);
    var s := HexOf(digest);
    forall i | 0 <= i < |digest|
      ensures digest[i] as nat == 16 * DigitValue(s[2 * i]) + DigitValue(s[2 * i + 1])
    {
      assert s[2 * i] == HexDigit(High(digest[i])) && s[2 * i + 1] == HexDigit(Low(digest[i]));
      DigitOfValue(High(digest[i]));
      DigitOfValue(Low(digest[i]));
      ByteOfHalves(digest[i]);
    }
  }

  lemma HexAt(digest: seq<Byte>, i: nat)
    requires i < |digest|
    ensures HexOf(digest)[2 * i] == HexDigit(High(digest[i]))
    ensures HexOf(digest)[2 * i + 1] == HexDigit(Low(digest[i]))
  {
    hide High, Low, HexDigit;
  }

  // The loop of do_hash fills the string in place.
  method EncodeHex(digest: seq<Byte>) returns (s: string)
    ensures s == HexOf(digest) && SpellsOut(s, digest)
  {
    hide *;
    var out := new char[2 * |digest|];
    for i := 0 to |digest|
      invariant forall k :: 0 <= k < 2 * i ==> out[k] == HexOf(digest)[k]
    {
      HexAt(digest, i);
      out[i * 2 + 0] := HexDigit(High(digest[i]));
      out[i * 2 + 1] := HexDigit(Low(digest[i]));
    }
    s := out[..];
    HexSpellsOut(digest);
  }

  // ----------------------------------------------------------- block numbers

  function Decimal(n: nat): string {
    if n < 10 then ['0' + n as char] else Decimal(n / 10) + ['0' + (n % 10) as char]
  }

  ghost function ValueOf(s: string): int {
    if s == [] then 0 else 10 * ValueOf(s[..|s| - 1]) + (s[|s| - 1] as int - '0' as int)
  }

  lemma {:induction false} ValueOfDecimal(n: nat)
    ensures ValueOf(Decimal(n)) == n
  {
    var s := Decimal(n);
    if n >= 10 {
      assert s[..|s| - 1] == Decimal(n / 10);
      ValueOfDecimal(n / 10);
    }
  }

  // Decimal digits, without a leading zero.
  ghost predicate IsNumeral(s: string) {
    && s != [] && (forall i :: 0 <= i < |s| ==> '0' <= s[i] <= '9')
    && (|s| > 1 ==> s[0] != '0')
  }

  lemma {:induction false} NumeralValue(s: string)
    requires IsNumeral(s)
    ensures ValueOf(s) >= 0 && (s[0] != '0' ==> ValueOf(s) > 0)
  {
    if |s| > 1 {
      NumeralValue(s[..|s| - 1]);
    } else {
      assert s[..0] == [];
    }
  }

  lemma {:induction false} DecimalIsNumeral(n: nat)
    ensures IsNumeral(Decimal(n)) && (n > 0 ==> Decimal(n)[0] != '0')
  {
    if n >= 10 { DecimalIsNumeral(n / 10); }
  }

  lemma {:induction false} NumeralIsDecimal(s: string)
    requires IsNumeral(s)
    ensures ValueOf(s) >= 0 && s == Decimal(ValueOf(s))
  {
    NumeralValue(s);
    var front := s[..|s| - 1];
    if |s| > 1 {
      NumeralIsDecimal(front);
      NumeralValue(front);
      assert s == front + [s[|s| - 1]];
    }
  }

  // One numeral for every number.
  lemma DecimalExactly(s: string, n: nat)
    ensures s == Decimal(n) <==> IsNumeral(s) && ValueOf(s) == n
  {
    DecimalIsNumeral(n);
    ValueOfDecimal(n);
    if IsNumeral(s) { NumeralIsDecimal(s); }
  }

  // -------------------------------------------------------------------- keys

  const COMPRESSED: string := "compressed"

  function BlockKey(b: nat): string {
    "block-to-hash_" + Decimal(b)
  }

  function DataKey(hash: string): string {
    "data-block_" + hash
  }

  lemma BlockKeyInjective(b: nat, c: nat)
    requires BlockKey(b) == BlockKey(c)
    ensures b == c
  {
    assert BlockKey(b)[|"block-to-hash_"|..] == Decimal(b);
    assert BlockKey(c)[|"block-to-hash_"|..] == Decimal(c);
    ValueOfDecimal(b);
    ValueOfDecimal(c);
  }

  lemma DataKeyInjective(h: string, g: string)
    requires DataKey(h) == DataKey(g)
    ensures h == g
  {
    assert DataKey(h)[|"data-block_"|..] == h;
    assert DataKey(g)[|"data-block_"|..] == g;
  }

  // What the two keys look like.
  lemma KeysExactly(k: string, b: nat, h: string)
    ensures k == BlockKey(b) <==> "block-to-hash_" <= k && IsNumeral(k[14..]) && ValueOf(k[14..]) == b
    ensures k == DataKey(h) <==> "data-block_" <= k && k[11..] == h
  {
    if "block-to-hash_" <= k {
      DecimalExactly(k[14..], b);
      assert k == "block-to-hash_" + k[14..];
    }
    DecimalExactly(Decimal(b), b);
    assert BlockKey(b)[14..] == Decimal(b);
    if "data-block_" <= k { assert k == "data-block_" + k[11..]; }
    assert DataKey(h)[11..] == h;
  }

  // The four families of keys never meet, as long as counters live under hex names.
  lemma KeysApart(b: nat, g: string, h: string)
    requires IsHex(h)
    ensures h != BlockKey(b) && h != DataKey(g) && h != COMPRESSED
    ensures BlockKey(b) != DataKey(g) && BlockKey(b) != COMPRESSED && DataKey(g) != COMPRESSED
  {
    assert BlockKey(b)[0] == 'b' && BlockKey(b)[1] == 'l';
    assert DataKey(g)[0] == 'd' && DataKey(g)[2] == 't';
    assert COMPRESSED[0] == 'c' && COMPRESSED[1] == 'o';
    assert !IsHexDigit('l') && !IsHexDigit('t') && !IsHexDigit('o');
  }
}
