/**
 Unsigned machine words as sequences of bits, least significant bit first.
 The bitwise operators of C are pointwise, the shifts move indices, and adding
 one ripples a carry, so bit tricks are transcribed operator by operator.
 */
module Words {

  const WORD_BITS := 64

  type Bits = seq<bool>

  type Word = w: Bits | |w| == WORD_BITS witness seq(WORD_BITS, _ => false)

  function Pow2(n: nat): (p: nat)
    ensures p > 0
  {
    if n == 0 then 1 else 2 * Pow2(n - 1)
  }

  lemma {:induction false} Pow2Add(m: nat, n: nat)
    ensures Pow2(m + n) == Pow2(m) * Pow2(n)
  {
    if m != 0 {
      Pow2Add(m - 1, n);
      assert 2 * (Pow2(m - 1) * Pow2(n)) == (2 * Pow2(m - 1)) * Pow2(n);
    }
  }

  /** The number a bit sequence stands for. */
  function Val(b: Bits): (n: nat)
    ensures n < Pow2(|b|)
  {
    if b == [] then 0 else (if b[0] then 1 else 0) + 2 * Val(b[1..])
  }

  /** The `size` low bits of n. */
  function BitsOf(n: nat, size: nat): (b: Bits)
    ensures |b| == size
  {
    if size == 0 then [] else [n % 2 == 1] + BitsOf(n / 2, size - 1)
  }

  lemma {:induction false} ValBitsOf(n: nat, size: nat)
    requires n < Pow2(size)
    ensures Val(BitsOf(n, size)) == n
  {
    if size != 0 {
      ValBitsOf(n / 2, size - 1);
      assert BitsOf(n, size)[1..] == BitsOf(n / 2, size - 1);
    }
  }

  lemma {:induction false} ValInjective(x: Bits, y: Bits)
    requires |x| == |y| && Val(x) == Val(y)
    ensures x == y
  {
    if x != [] {
      ValInjective(x[1..], y[1..]);
      assert x == [x[0]] + x[1..];
      assert y == [y[0]] + y[1..];
    }
  }

  lemma {:induction false} ValConcat(x: Bits, y: Bits)
    ensures Val(x + y) == Val(x) + Pow2(|x|) * Val(y)
  {
    if x == [] {
      assert x + y == y;
    } else {
      ValConcat(x[1..], y);
      assert (x + y)[1..] == x[1..] + y;
      MulTwice(Pow2(|x| - 1), Val(y));
    }
  }

  lemma {:induction false} MulTwice(a: nat, b: nat)
    ensures 2 * (a * b) == (2 * a) * b
  {
  }

  function Zeros(n: nat): (b: Bits)
    ensures |b| == n
  {
    seq(n, _ => false)
  }

  function Ones(n: nat): (b: Bits)
    ensures |b| == n
  {
    seq(n, _ => true)
  }

  lemma {:induction false} ValZeros(n: nat)
    ensures Val(Zeros(n)) == 0
  {
    if n != 0 {
      ValZeros(n - 1);
      assert Zeros(n)[1..] == Zeros(n - 1);
    }
  }

  lemma {:induction false} ValZeroIsZeros(b: Bits)
    requires Val(b) == 0
    ensures b == Zeros(|b|)
  {
    if b != [] {
      ValZeroIsZeros(b[1..]);
      assert b == [b[0]] + b[1..];
    }
  }

  lemma {:induction false} ValOnes(n: nat)
    ensures Val(Ones(n)) == Pow2(n) - 1
  {
    if n != 0 {
      ValOnes(n - 1);
      assert Ones(n)[1..] == Ones(n - 1);
    }
  }

  // ----- operators -----

  function And(x: Word, y: Word): Word { seq(WORD_BITS, i requires 0 <= i < WORD_BITS => x[i] && y[i]) }

  function Or(x: Word, y: Word): Word { seq(WORD_BITS, i requires 0 <= i < WORD_BITS => x[i] || y[i]) }

  function Xor(x: Word, y: Word): Word { seq(WORD_BITS, i requires 0 <= i < WORD_BITS => x[i] != y[i]) }

  function Not(x: Word): Word { seq(WORD_BITS, i requires 0 <= i < WORD_BITS => !x[i]) }

  function ShiftLeft(x: Word, s: nat): Word {
    seq(WORD_BITS, i requires 0 <= i < WORD_BITS => i >= s && x[i - s])
  }

  function ShiftRight(x: Word, s: nat): Word {
    seq(WORD_BITS, i requires 0 <= i < WORD_BITS => i + s < WORD_BITS && x[i + s])
  }

  /** x + 1, dropping the carry out of the top bit. */
  function Inc(b: Bits): (r: Bits)
    ensures |r| == |b|
  {
    if b == [] then [] else if b[0] then [false] + Inc(b[1..]) else [true] + b[1..]
  }

  lemma {:induction false} IncVal(b: Bits)
    ensures Val(Inc(b)) == if Val(b) + 1 == Pow2(|b|) then 0 else Val(b) + 1
  {
    if b != [] {
      IncVal(b[1..]);
      assert Inc(b)[1..] == if b[0] then Inc(b[1..]) else b[1..];
    }
  }

  /** The low bits of x + 1 depend on the low bits of x only. */
  lemma {:induction false} IncPrefix(b: Bits, k: nat)
    requires k <= |b|
    ensures Inc(b)[..k] == Inc(b[..k])
  {
    if k != 0 {
      IncPrefix(b[1..], k - 1);
      assert b[..k][1..] == b[1..][..k - 1];
      assert Inc(b)[..k] == [Inc(b)[0]] + Inc(b)[1..][..k - 1];
    }
  }

  /** A block of low ones is cleared and the carry moves past it. */
  lemma {:induction false} IncOnes(k: nat, x: Bits)
    ensures Inc(Ones(k) + x) == Zeros(k) + Inc(x)
  {
    if k == 0 {
      assert Ones(0) + x == x;
      assert Zeros(0) + Inc(x) == Inc(x);
    } else {
      IncOnes(k - 1, x);
      assert (Ones(k) + x)[1..] == Ones(k - 1) + x;
      assert [false] + (Zeros(k - 1) + Inc(x)) == Zeros(k) + Inc(x);
    }
  }

  /** sizemask of a table of 2^e buckets. */
  function Mask(e: nat): (m: Word) {
    seq(WORD_BITS, i => i < e)
  }

  /** (w & sizemask) as an array index. */
  function Index(w: Word, e: nat): (i: nat)
    ensures e <= WORD_BITS ==> i < Pow2(e)
  {
    assert e <= WORD_BITS ==> Val(And(w, Mask(e))) < Pow2(e) by {
      if e <= WORD_BITS { IndexIsPrefix(w, e); }
    }
    Val(And(w, Mask(e)))
  }

  lemma {:induction false} IndexIsPrefix(w: Word, e: nat)
    requires e <= WORD_BITS
    ensures Val(And(w, Mask(e))) == Val(w[..e])
  {
    var z := Zeros(WORD_BITS - e);
    assert And(w, Mask(e)) == w[..e] + z;
    ValConcat(w[..e], z);
    ValZeros(WORD_BITS - e);
    assert Pow2(e) * 0 == 0;
  }

  // ----- bit reversal -----

  function Reverse(b: Bits): (r: Bits)
    ensures |r| == |b|
    ensures forall i :: 0 <= i < |b| ==> r[i] == b[|b| - 1 - i]
  {
    seq(|b|, i requires 0 <= i < |b| => b[|b| - 1 - i])
  }

  /** The bit-reversed value: the order in which a scan walks the buckets. */
  function RevVal(b: Bits): (n: nat)
    ensures n < Pow2(|b|)
  {
    Val(Reverse(b))
  }

  lemma {:induction false} RevValConcat(p: Bits, q: Bits)
    ensures RevVal(p + q) == RevVal(q) + Pow2(|q|) * RevVal(p)
  {
    hide Val;
    ReverseConcat(p, q);
    ValConcat(Reverse(q), Reverse(p));
  }

  lemma {:induction false} ReverseConcat(p: Bits, q: Bits)
    ensures Reverse(p + q) == Reverse(q) + Reverse(p)
  {
  }

  lemma {:induction false} RevValInjective(x: Bits, y: Bits)
    requires |x| == |y| && RevVal(x) == RevVal(y)
    ensures x == y
  {
    ValInjective(Reverse(x), Reverse(y));
    assert x == Reverse(Reverse(x)) && y == Reverse(Reverse(y));
  }

  // ----- arithmetic -----

  lemma {:induction false} MulNonNegative(x: nat, y: nat)
    ensures x * y >= 0
  {
  }

  lemma {:induction false} MulAtLeast(d: nat, k: int)
    ensures k >= 1 ==> d * k >= d
    ensures k <= -1 ==> d * k <= 0 - d
  {
  }

  /** Numbers written in base p compare by their leading digit first. */
  lemma {:induction false} LeadingDigit(p: nat, x: nat, y: nat, r: nat, s: nat)
    requires r < p && s < p
    ensures x < y ==> r + p * x < s + p * y
    ensures r + p * x < s + p * y ==> x <= y
  {
    assert p * (y - x) == p * y - p * x;
    MulAtLeast(p, y - x);
  }

  // ----- the parallel reversal, by blocks of s bits -----

  /** n is a whole number of blocks of s bits. */
  predicate Whole(n: nat, s: nat)
    requires s > 0
  {
    n == 0 || (n >= s && Whole(n - s, s))
  }

  lemma {:induction false} WholeHalves(n: nat, s: nat)
    requires s > 0 && Whole(n, 2 * s)
    ensures Whole(n, s)
  {
    if n != 0 {
      WholeHalves(n - 2 * s, s);
      assert Whole(n - s, s);
    }
  }

  /** The blocks of s bits in reverse order. */
  function RevBlocks(v: Bits, s: nat): Bits
    requires s > 0
  {
    if |v| < s then [] else RevBlocks(v[s..], s) + v[..s]
  }

  /** The two halves of every 2s bits exchanged. */
  function SwapPairs(v: Bits, s: nat): Bits
    requires s > 0
  {
    if |v| < 2 * s then [] else (v[s..2 * s] + v[..s]) + SwapPairs(v[2 * s..], s)
  }

  lemma {:induction false} RevBlocksLength(v: Bits, s: nat)
    requires s > 0 && Whole(|v|, s)
    ensures |RevBlocks(v, s)| == |v|
    decreases |v|
  {
    if v != [] { RevBlocksLength(v[s..], s); }
  }

  lemma {:induction false} SplitConcat(x: Bits, y: Bits, s: nat)
    requires |x| >= 2 * s
    ensures (x + y)[2 * s..] == x[2 * s..] + y
    ensures (x + y)[s..2 * s] == x[s..2 * s] && (x + y)[..s] == x[..s]
  {
  }

  lemma {:induction false} SwapPairsConcat(x: Bits, y: Bits, s: nat)
    requires s > 0 && Whole(|x|, 2 * s)
    ensures SwapPairs(x + y, s) == SwapPairs(x, s) + SwapPairs(y, s)
    decreases |x|
  {
    if x == [] {
      assert x + y == y;
    } else {
      SwapPairsConcat(x[2 * s..], y, s);
      SplitConcat(x, y, s);
      var first, t, u := x[s..2 * s] + x[..s], SwapPairs(x[2 * s..], s), SwapPairs(y, s);
      assert SwapPairs(x + y, s) == first + (t + u);
      Concat3(first, t, u);
    }
  }

  /** Exchanging halves turns the reversal by 2s bits into the reversal by s bits. */
  lemma {:induction false} SwapRefines(v: Bits, s: nat)
    requires s > 0 && Whole(|v|, 2 * s)
    ensures SwapPairs(RevBlocks(v, 2 * s), s) == RevBlocks(v, s)
    decreases |v|
  {
    if v != [] {
      var rest, first := v[2 * s..], v[..2 * s];
      SwapRefines(rest, s);
      RevBlocksLength(rest, 2 * s);
      SwapPairsConcat(RevBlocks(rest, 2 * s), first, s);
      assert first[s..2 * s] == v[s..2 * s] == v[s..][..s] && first[..s] == v[..s];
      assert SwapPairs(first, s) == v[s..2 * s] + v[..s] by { assert first[2 * s..] == []; }
      assert v[s..][s..] == rest;
      Concat3(RevBlocks(rest, s), v[s..2 * s], v[..s]);
    }
  }

  lemma {:induction false} Concat3(x: Bits, y: Bits, z: Bits)
    ensures x + (y + z) == (x + y) + z
  {
  }

  lemma {:induction false} RevBlocksOfOne(v: Bits)
    ensures RevBlocks(v, 1) == Reverse(v)
    decreases |v|
  {
    if v != [] {
      RevBlocksOfOne(v[1..]);
      assert v == v[..1] + v[1..];
      ReverseConcat(v[..1], v[1..]);
      assert Reverse(v[..1]) == v[..1];
    }
  }

  /** s ones, s zeros, s ones, and so on. */
  function AltMask(n: nat, s: nat): Bits
    requires s > 0
  {
    if n < 2 * s then [] else Ones(s) + Zeros(s) + AltMask(n - 2 * s, s)
  }

  lemma {:induction false} AltMaskLength(n: nat, s: nat)
    requires s > 0 && Whole(n, 2 * s)
    ensures |AltMask(n, s)| == n
  {
    if n != 0 { AltMaskLength(n - 2 * s, s); }
  }

  /** ((v >> s) & m) | ((v << s) & ~m). */
  function MaskSwap(v: Bits, m: Bits, s: nat): (r: Bits)
    requires |m| == |v|
    ensures |r| == |v|
  {
    seq(|v|, i requires 0 <= i < |v| => (m[i] && i + s < |v| && v[i + s]) || (!m[i] && i >= s && v[i - s]))
  }

  lemma {:induction false} MaskSwapFirst(v: Bits, m: Bits, s: nat, rest: Bits)
    requires |v| >= 2 * s && m == Ones(s) + Zeros(s) + rest && |m| == |v|
    ensures MaskSwap(v, m, s)[..2 * s] == v[s..2 * s] + v[..s]
  {
  }

  lemma {:induction false} MaskSwapRest(v: Bits, m: Bits, s: nat, rest: Bits)
    requires |v| >= 2 * s && m == Ones(s) + Zeros(s) + rest && |m| == |v|
    requires forall i :: 0 <= i < |rest| && !rest[i] ==> i >= s
    ensures MaskSwap(v, m, s)[2 * s..] == MaskSwap(v[2 * s..], rest, s)
  {
    var r, r' := MaskSwap(v, m, s), MaskSwap(v[2 * s..], rest, s);
    forall i | 0 <= i < |rest| ensures r[2 * s + i] == r'[i] {
      assert m[2 * s + i] == rest[i];
    }
  }

  lemma {:induction false} MaskSwapSwaps(v: Bits, s: nat)
    requires s > 0 && Whole(|v|, 2 * s) && |AltMask(|v|, s)| == |v|
    ensures MaskSwap(v, AltMask(|v|, s), s) == SwapPairs(v, s)
    decreases |v|
  {
    if v != [] {
      var m, n := AltMask(|v|, s), |v| - 2 * s;
      AltMaskLength(n, s);
      MaskSwapSwaps(v[2 * s..], s);
      forall i | 0 <= i < n && !AltMask(n, s)[i] ensures i >= s { AltMaskStartsWithOnes(n, s, i); }
      MaskSwapFirst(v, m, s, AltMask(n, s));
      MaskSwapRest(v, m, s, AltMask(n, s));
      var r := MaskSwap(v, m, s);
      assert r == r[..2 * s] + r[2 * s..];
    }
  }

  lemma {:induction false} AltMaskStartsWithOnes(n: nat, s: nat, i: nat)
    requires s > 0 && i < |AltMask(n, s)| && !AltMask(n, s)[i]
    ensures i >= s
  {
  }

  /** m ^ (m << s). */
  function XorShift(m: Bits, s: nat): (r: Bits)
    ensures |r| == |m|
  {
    seq(|m|, i requires 0 <= i < |m| => m[i] != (i >= s && m[i - s]))
  }

  lemma {:induction false} XorShiftBlock(t: Bits, s: nat)
    ensures XorShift(Ones(2 * s) + Zeros(2 * s) + t, s) == Ones(s) + Zeros(s) + (Ones(s) + Zeros(s) + XorShift(t, s))
  {
    var m := Ones(2 * s) + Zeros(2 * s) + t;
    var r := XorShift(m, s);
    forall i | 0 <= i < |t| ensures r[4 * s + i] == XorShift(t, s)[i] {
      assert m[4 * s + i] == t[i];
    }
    assert r[4 * s..] == XorShift(t, s);
    assert r[..4 * s] == Ones(s) + Zeros(s) + (Ones(s) + Zeros(s));
    assert r == r[..4 * s] + r[4 * s..];
  }

  lemma {:induction false} XorShiftHalves(n: nat, s: nat)
    requires s > 0 && Whole(n, 4 * s)
    ensures XorShift(AltMask(n, 2 * s), s) == AltMask(n, s)
  {
    if n != 0 {
      XorShiftHalves(n - 4 * s, s);
      XorShiftBlock(AltMask(n - 4 * s, 2 * s), s);
      assert AltMask(n - 2 * s, s) == Ones(s) + Zeros(s) + AltMask(n - 4 * s, s);
    }
  }

  lemma {:induction false} FirstMask()
    ensures XorShift(Ones(WORD_BITS), 32) == AltMask(WORD_BITS, 32)
  {
    assert AltMask(WORD_BITS, 32) == Ones(32) + Zeros(32) + [];
  }

  /** The word with its blocks of s bits reversed, and the mask for the next round. */
  predicate RevState(w: Word, v: Word, mask: Word, s: nat) {
    && s in {64, 32, 16, 8, 4, 2, 1} && Whole(WORD_BITS, s) && v == RevBlocks(w, s)
    && if s == 64 then mask == Ones(WORD_BITS) else Whole(WORD_BITS, 2 * s) && mask == AltMask(WORD_BITS, s)
  }

  lemma {:induction false} RevStart(w: Word)
    ensures RevState(w, w, Not(Zeros(WORD_BITS)), WORD_BITS)
  {
    assert Not(Zeros(WORD_BITS)) == Ones(WORD_BITS);
    assert w[WORD_BITS..] == [] && w[..WORD_BITS] == w;
    assert [] + w == w;
    assert Whole(0, WORD_BITS);
  }

  lemma {:induction false} RevRoundState(w: Word, v: Word, mask: Word, s: nat)
    requires RevState(w, v, mask, s) && s > 1
    ensures var m := Xor(mask, ShiftLeft(mask, s / 2));
            RevState(w, Or(And(ShiftRight(v, s / 2), m), And(ShiftLeft(v, s / 2), Not(m))), m, s / 2)
  {
    RevRound(w, v, mask, s / 2);
  }

  /** The parallel bit reversal: exchange ever smaller halves. */
  method Rev(w: Word) returns (v: Word)
    ensures v == Reverse(w)
  {
    v := w;
    var s: nat := WORD_BITS;
    var mask: Word := Not(Zeros(WORD_BITS));
    RevStart(w);
    while s / 2 > 0
      invariant s > 0 && RevState(w, v, mask, s)
    {
      RevRoundState(w, v, mask, s);
      s := s / 2;
      mask := Xor(mask, ShiftLeft(mask, s));
      v := Or(And(ShiftRight(v, s), mask), And(ShiftLeft(v, s), Not(mask)));
    }
    RevBlocksOfOne(w);
  }

  /** One round of the reversal. */
  lemma {:induction false} RevRound(w: Word, v: Word, mask: Word, s: nat)
    requires s in {32, 16, 8, 4, 2, 1} && Whole(WORD_BITS, 2 * s) && v == RevBlocks(w, 2 * s)
    requires if s == 32 then mask == Ones(WORD_BITS) else Whole(WORD_BITS, 4 * s) && mask == AltMask(WORD_BITS, 2 * s)
    ensures Whole(WORD_BITS, s)
    ensures var m := Xor(mask, ShiftLeft(mask, s));
            && m == AltMask(WORD_BITS, s)
            && Or(And(ShiftRight(v, s), m), And(ShiftLeft(v, s), Not(m))) == RevBlocks(w, s)
  {
    WholeHalves(WORD_BITS, s);
    assert Xor(mask, ShiftLeft(mask, s)) == XorShift(mask, s);
    if s == 32 { FirstMask(); } else { XorShiftHalves(WORD_BITS, s); }
    AltMaskLength(WORD_BITS, s);
    var m: Word := AltMask(WORD_BITS, s);
    assert Or(And(ShiftRight(v, s), m), And(ShiftLeft(v, s), Not(m))) == MaskSwap(v, m, s);
    MaskSwapSwaps(v, s);
    SwapRefines(w, s);
  }
}
