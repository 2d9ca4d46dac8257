/**
 Counting the set bits of a string: byte by byte, and 28 bytes at a time with the
 partial sums of seven words kept side by side in one.
 */
module BitCount {
  type Octet = bv8

  function N(b: bool): nat { if b then 1 else 0 }

  /** The table bitsinbyte. */
  function BitsInByte(b: Octet): nat {
    N(b & 1 == 1) + N((b >> 1) & 1 == 1) + N((b >> 2) & 1 == 1) + N((b >> 3) & 1 == 1)
    + N((b >> 4) & 1 == 1) + N((b >> 5) & 1 == 1) + N((b >> 6) & 1 == 1) + N((b >> 7) & 1 == 1)
  }

  /** The number of set bits. */
  function BitsIn(s: seq<Octet>): nat
    decreases |s|
  {
    if s == [] then 0 else BitsIn(s[..|s| - 1]) + BitsInByte(s[|s| - 1])
  }

  // ----- one word -----

  function Load(b0: Octet, b1: Octet, b2: Octet, b3: Octet): bv32 {
    (b0 as bv32) | ((b1 as bv32) << 8) | ((b2 as bv32) << 16) | ((b3 as bv32) << 24)
  }

  function Pairs(x: bv32): bv32 { x - ((x >> 1) & 0x55555555) }

  function Nibbles(x: bv32): bv32 { (x & 0x33333333) + ((x >> 2) & 0x33333333) }

  function Bytes(x: bv32): bv32 { (x + (x >> 4)) & 0x0F0F0F0F }

  /** The three steps the loop makes with each word: a count in each byte. */
  function Counts(x: bv32): bv32 { Bytes(Nibbles(Pairs(x))) }

  /** The number of bits set in the low byte, as a word and as a number. */
  function LowBits(y: bv32): bv32 {
    (y & 1) + ((y >> 1) & 1) + ((y >> 2) & 1) + ((y >> 3) & 1) + ((y >> 4) & 1) + ((y >> 5) & 1) + ((y >> 6) & 1) + ((y >> 7) & 1)
  }

  lemma {:induction false} CountsAreLowBits(x: bv32)
    ensures Counts(x) == LowBits(x) | (LowBits(x >> 8) << 8) | (LowBits(x >> 16) << 16) | (LowBits(x >> 24) << 24)
  {
  }

  lemma {:induction false} LowBitsAtMost8(y: bv32)
    ensures LowBits(y) <= 8
  {
  }

  function CountsNat(x: bv32): nat { Counts(x) as nat }

  function LowNat(x: bv32): nat { LowBits(x) as nat }

  lemma {:induction false} LowNatIsBits(y: bv32)
    ensures LowNat(y) == BitsInByte((y & 0xFF) as Octet)
  {
  }

  lemma {:induction false} PackedValue(w: bv32, a: bv32, b: bv32, c: bv32, d: bv32)
    requires a <= 8 && b <= 8 && c <= 8 && d <= 8 && w == (a | (b << 8) | (c << 16) | (d << 24))
    ensures w as int == a as int + 256 * (b as int) + 65536 * (c as int) + 16777216 * (d as int)
  {
  }

  lemma {:induction false} CountsPacked(x: bv32)
    ensures CountsNat(x) == LowNat(x) + 256 * LowNat(x >> 8) + 65536 * LowNat(x >> 16) + 16777216 * LowNat(x >> 24)
  {
    hide Counts, LowBits;
    CountsAreLowBits(x);
    LowBitsAtMost8(x);
    LowBitsAtMost8(x >> 8);
    LowBitsAtMost8(x >> 16);
    LowBitsAtMost8(x >> 24);
    var w, a, b, c, d := Counts(x), LowBits(x), LowBits(x >> 8), LowBits(x >> 16), LowBits(x >> 24);
    PackedValue(w, a, b, c, d);
  }

  lemma {:induction false} LoadedBytes(b0: Octet, b1: Octet, b2: Octet, b3: Octet)
    ensures var x := Load(b0, b1, b2, b3);
            && (x & 0xFF) as Octet == b0 && ((x >> 8) & 0xFF) as Octet == b1
            && ((x >> 16) & 0xFF) as Octet == b2 && ((x >> 24) & 0xFF) as Octet == b3
  {
  }

  /** The counts of four bytes side by side. */
  lemma {:induction false} CountsOfWord(b0: Octet, b1: Octet, b2: Octet, b3: Octet)
    ensures CountsNat(Load(b0, b1, b2, b3))
         == BitsInByte(b0) + 256 * BitsInByte(b1) + 65536 * BitsInByte(b2) + 16777216 * BitsInByte(b3)
  {
    hide *;
    var x := Load(b0, b1, b2, b3);
    LoadedBytes(b0, b1, b2, b3);
    CountsPacked(x);
    LowNatIsBits(x);
    LowNatIsBits(x >> 8);
    LowNatIsBits(x >> 16);
    LowNatIsBits(x >> 24);
  }

  // ----- seven words -----

  lemma {:induction false} ModTop(x: nat, high: nat)
    requires x < 0x1_0000_0000
    ensures (x + 0x1_0000_0000 * high) % 0x1_0000_0000 == x
  {
  }

  lemma {:induction false} DivLow(low: nat, t: nat)
    requires low < 0x100_0000
    ensures (low + 0x100_0000 * t) / 0x100_0000 == t
  {
  }

  lemma {:induction false} Product(a: nat, b: nat, c: nat, d: nat)
    ensures (a + 256 * b + 65536 * c + 16777216 * d) * 0x0101_0101
         == (a + 256 * (a + b) + 65536 * (a + b + c)) + 0x100_0000 * (a + b + c + d)
            + 0x1_0000_0000 * ((b + c + d) + 256 * (c + d) + 65536 * d)
  {
  }

  /** Multiplying adds up the four bytes in the top one, as long as nothing carries. */
  lemma {:induction false} TopByte(a: nat, b: nat, c: nat, d: nat)
    requires a <= 56 && b <= 56 && c <= 56 && d <= 56
    ensures (a + 256 * b + 65536 * c + 16777216 * d) * 0x0101_0101 % 0x1_0000_0000 / 0x100_0000 == a + b + c + d
  {
    Product(a, b, c, d);
    var low, high := a + 256 * (a + b) + 65536 * (a + b + c), (b + c + d) + 256 * (c + d) + 65536 * d;
    ModTop(low + 0x100_0000 * (a + b + c + d), high);
    DivLow(low, a + b + c + d);
  }

  /** The four counts of a word, and their sum. */
  datatype Quad = Quad(a: nat, b: nat, c: nat, d: nat) {
    function Packed(): nat { a + 256 * b + 65536 * c + 16777216 * d }
    function Sum(): nat { a + b + c + d }
    predicate AtMost(m: nat) { a <= m && b <= m && c <= m && d <= m }
    function Plus(q: Quad): Quad { Quad(a + q.a, b + q.b, c + q.c, d + q.d) }
  }

  function QuadAt(s: seq<Octet>, i: nat): Quad
    requires i + 4 <= |s|
  {
    Quad(BitsInByte(s[i]), BitsInByte(s[i + 1]), BitsInByte(s[i + 2]), BitsInByte(s[i + 3]))
  }

  /** A word of the string after the three steps. */
  function CountsAt(s: seq<Octet>, i: nat): nat
    requires i + 4 <= |s|
  {
    CountsNat(Load(s[i], s[i + 1], s[i + 2], s[i + 3]))
  }

  lemma {:induction false} WordCounts(s: seq<Octet>, i: nat)
    requires i + 4 <= |s|
    ensures CountsAt(s, i) == QuadAt(s, i).Packed() && QuadAt(s, i).AtMost(8)
    ensures BitsIn(s[..i + 4]) == BitsIn(s[..i]) + QuadAt(s, i).Sum()
  {
    hide CountsNat, Load, BitsInByte;
    CountsOfWord(s[i], s[i + 1], s[i + 2], s[i + 3]);
    BitsInNext(s, i);
    BitsInNext(s, i + 1);
    BitsInNext(s, i + 2);
    BitsInNext(s, i + 3);
    AtMost8(s[i]);
    AtMost8(s[i + 1]);
    AtMost8(s[i + 2]);
    AtMost8(s[i + 3]);
    hide BitsIn;
  }

  lemma {:induction false} BitsInNext(s: seq<Octet>, i: nat)
    requires i < |s|
    ensures BitsIn(s[..i + 1]) == BitsIn(s[..i]) + BitsInByte(s[i])
  {
    hide BitsInByte;
    assert s[..i + 1][..i] == s[..i];
  }

  lemma {:induction false} AtMost8(b: Octet)
    ensures BitsInByte(b) <= 8
  {
  }

  lemma {:induction false} NoBits()
    ensures BitsIn([]) == 0
  {
  }

  /** redisPopcount: the string starts at the given address. */
  method Popcount(s: seq<Octet>, address: nat) returns (bits: nat)
    ensures bits == BitsIn(s)
  {
    hide BitsInByte, BitsIn;
    NoBits();
    bits := 0;
    var i := 0;
    while (address + i) % 4 != 0 && i < |s|
      invariant 0 <= i <= |s| && bits == BitsIn(s[..i])
      decreases |s| - i
    {
      BitsInNext(s, i);
      bits := bits + BitsInByte(s[i]);
      i := i + 1;
    }
    while |s| - i >= 28
      invariant 0 <= i <= |s| && bits == BitsIn(s[..i])
    {
      var top := SevenWords(s, i);
      bits := bits + top;
      i := i + 28;
    }
    while i < |s|
      invariant 0 <= i <= |s| && bits == BitsIn(s[..i])
    {
      BitsInNext(s, i);
      bits := bits + BitsInByte(s[i]);
      i := i + 1;
    }
    assert s[..i] == s;
  }

  lemma {:induction false} AddQuads(q: Quad, r: Quad, k: nat)
    requires q.AtMost(8 * k) && r.AtMost(8) && k < 7
    ensures (q.Packed() + r.Packed()) % 0x1_0000_0000 == q.Plus(r).Packed()
    ensures q.Plus(r).AtMost(8 * (k + 1)) && q.Plus(r).Sum() == q.Sum() + r.Sum()
  {
    assert q.Packed() + r.Packed() == q.Plus(r).Packed();
    PackedFits(q.Plus(r));
    NoWrap(q.Plus(r).Packed());
  }

  lemma {:induction false} PackedFits(q: Quad)
    requires q.AtMost(56)
    ensures q.Packed() < 0x1_0000_0000
  {
  }

  lemma {:induction false} NoWrap(x: nat)
    requires x < 0x1_0000_0000
    ensures x % 0x1_0000_0000 == x
  {
  }

  lemma {:induction false} TopOfQuad(q: Quad)
    requires q.AtMost(56)
    ensures q.Packed() * 0x0101_0101 % 0x1_0000_0000 / 0x100_0000 == q.Sum()
  {
    TopByte(q.a, q.b, q.c, q.d);
  }

  lemma {:induction false} EmptyQuad()
    ensures Quad(0, 0, 0, 0).AtMost(0) && Quad(0, 0, 0, 0).Packed() == 0 && Quad(0, 0, 0, 0).Sum() == 0
  {
  }

  /** One round of the main loop; the sum of the words and the product are 32 bits wide. */
  method SevenWords(s: seq<Octet>, i: nat) returns (top: nat)
    requires i + 28 <= |s|
    ensures BitsIn(s[..i + 28]) == BitsIn(s[..i]) + top
  {
    hide *;
    var sum, k := 0, 0;
    ghost var q := Quad(0, 0, 0, 0);
    EmptyQuad();
    while k < 7
      invariant 0 <= k <= 7 && q.AtMost(8 * k) && sum == q.Packed() && BitsIn(s[..i + 4 * k]) == BitsIn(s[..i]) + q.Sum()
    {
      WordCounts(s, i + 4 * k);
      AddQuads(q, QuadAt(s, i + 4 * k), k);
      sum := (sum + CountsAt(s, i + 4 * k)) % 0x1_0000_0000;
      q := q.Plus(QuadAt(s, i + 4 * k));
      k := k + 1;
    }
    TopOfQuad(q);
    return sum * 0x0101_0101 % 0x1_0000_0000 / 0x100_0000;
  }
}
