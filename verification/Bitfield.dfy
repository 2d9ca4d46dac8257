/**
 Integers of any width at any bit position of a string, the most significant bit
 first, and what happens when a sum does not fit.
 */
module Bitfield {
  import opened Wrappers
  import opened Words
  import opened BitCount
  import opened BitSearch

  const TWO_63 := 0x8000_0000_0000_0000
  const TWO_64 := 0x1_0000_0000_0000_0000

  // ----- bits of a number -----

  /** v >> k. */
  function Quot(v: nat, k: nat): nat { if k == 0 then v else Quot(v, k - 1) / 2 }

  /** v & (1 << k). */
  predicate ValueBit(v: nat, k: nat) { Quot(v, k) % 2 == 1 }

  /** The low n bits of v, as v & ~(-1 << n) gives them. */
  function Low(v: nat, n: nat): int { v - Pow2(n) * Quot(v, n) }

  lemma {:induction false} QuotStep(v: nat, k: nat)
    ensures Quot(v, k) == 2 * Quot(v, k + 1) + N(ValueBit(v, k))
  {
  }

  /** The low bits are a number below 2^n, congruent to v. */
  lemma {:induction false} LowRange(v: nat, n: nat)
    ensures 0 <= Low(v, n) < Pow2(n)
  {
    if n > 0 {
      LowRange(v, n - 1);
      QuotStep(v, n - 1);
      var q := Quot(v, n);
      assert Pow2(n) * q == Pow2(n - 1) * (2 * q) by { Twice(Pow2(n - 1), q); }
      Distribute(Pow2(n - 1), 2 * q, N(ValueBit(v, n - 1)));
    }
  }

  lemma {:induction false} Twice(a: int, b: int)
    ensures 2 * a * b == a * (2 * b)
  {
  }

  lemma {:induction false} Distribute(a: int, b: int, c: int)
    ensures a * (b + c) == a * b + a * c
  {
  }

  lemma {:induction false} Negated(a: int, q: int)
    ensures a * (-q) == -(a * q)
  {
  }

  /** Two congruent numbers of the range are the same. */
  lemma {:induction false} Unique(n: nat, x: int, y: int, q: int)
    requires 0 <= x < Pow2(n) && 0 <= y < Pow2(n) && x - y == Pow2(n) * q
    ensures x == y
  {
    Negated(Pow2(n), q);
    if q >= 1 { MulAtLeast(Pow2(n), q); }
    if q <= -1 { MulAtLeast(Pow2(n), -q); }
  }

  lemma {:induction false} LowOfSmall(v: nat, n: nat)
    requires v < Pow2(n)
    ensures Low(v, n) == v
  {
    LowRange(v, n);
    Unique(n, v, Low(v, n), Quot(v, n));
  }

  // ----- fields of a string -----

  /** The unsigned integer of the given width at the given position of the zero-padded string. */
  function Field(s: seq<Octet>, offset: nat, bits: nat): nat {
    if bits == 0 then 0 else 2 * Field(s, offset, bits - 1) + N(BitAt(s, offset + bits - 1))
  }

  lemma {:induction false} FieldRange(s: seq<Octet>, offset: nat, bits: nat)
    ensures Field(s, offset, bits) < Pow2(bits)
  {
    hide BitAt;
    if bits > 0 { FieldRange(s, offset, bits - 1); }
  }

  /** A field of eight bits at a byte boundary is that byte: the first bit is the most significant. */
  lemma {:induction false} FieldOfByte(s: seq<Octet>, i: nat)
    requires i < |s|
    ensures Field(s, 8 * i, 8) == s[i] as int
  {
    hide *;
    FieldSum(s, i);
    ByteValue(s[i]);
  }

  lemma {:induction false} FieldSum(s: seq<Octet>, i: nat)
    requires i < |s|
    ensures Field(s, 8 * i, 8) == Weighed(ByteBits(s[i]))
  {
    hide ByteBits, BitAt, Field;
    BitInByte(s, i, 0);
    BitInByte(s, i, 1);
    BitInByte(s, i, 2);
    BitInByte(s, i, 3);
    BitInByte(s, i, 4);
    BitInByte(s, i, 5);
    BitInByte(s, i, 6);
    BitInByte(s, i, 7);
    FieldUnfolds(s, 8 * i);
  }

  lemma {:induction false} FieldUnfolds(s: seq<Octet>, at: nat)
    ensures Field(s, at, 8) == 128 * N(BitAt(s, at)) + 64 * N(BitAt(s, at + 1)) + 32 * N(BitAt(s, at + 2)) + 16 * N(BitAt(s, at + 3))
                               + 8 * N(BitAt(s, at + 4)) + 4 * N(BitAt(s, at + 5)) + 2 * N(BitAt(s, at + 6)) + N(BitAt(s, at + 7))
  {
    hide BitAt;
    FieldNext(s, at, 0);
    FieldNext(s, at, 1);
    FieldNext(s, at, 2);
    FieldNext(s, at, 3);
    FieldNext(s, at, 4);
    FieldNext(s, at, 5);
    FieldNext(s, at, 6);
    FieldNext(s, at, 7);
    hide Field;
  }

  lemma {:induction false} FieldNext(s: seq<Octet>, at: nat, k: nat)
    ensures Field(s, at, k + 1) == 2 * Field(s, at, k) + N(BitAt(s, at + k)) && Field(s, at, 0) == 0
  {
    hide BitAt;
  }

  /** Bit j of the field. */
  function FieldBit(s: seq<Octet>, offset: nat, j: nat): bool { BitAt(s, offset + j) }

  /** Bit j of a value of the given width, the most significant one first. */
  predicate ValueDigit(value: nat, bits: nat, j: nat)
    requires j < bits
  {
    ValueBit(value, bits - 1 - j)
  }

  /** The field depends only on its own bits. */
  lemma {:induction false} FieldSame(s: seq<Octet>, t: seq<Octet>, offset: nat, to: nat, bits: nat)
    requires forall k :: 0 <= k < bits ==> FieldBit(s, offset, k) == FieldBit(t, to, k)
    ensures Field(s, offset, bits) == Field(t, to, bits)
  {
    hide BitAt;
    if bits > 0 {
      FieldSame(s, t, offset, to, bits - 1);
      assert FieldBit(s, offset, bits - 1) == FieldBit(t, to, bits - 1);
    }
  }

  /** The bits of the field are those of the value. */
  ghost predicate Holds(s: seq<Octet>, offset: nat, bits: nat, value: nat) {
    forall j :: 0 <= j < bits ==> FieldBit(s, offset, j) == ValueDigit(value, bits, j)
  }

  lemma {:induction false} FieldStep(f: int, q: int, p: int, top: int, bit: int)
    requires f == q - p * top
    ensures 2 * f + bit == (2 * q + bit) - 2 * p * top
  {
    Twice(p, top);
    assert p * (2 * top) == 2 * (p * top);
  }

  lemma {:induction false} FieldUpTo(s: seq<Octet>, offset: nat, bits: nat, value: nat, j: nat)
    requires Holds(s, offset, bits, value) && j <= bits
    ensures Field(s, offset, j) == Quot(value, bits - j) - Pow2(j) * Quot(value, bits)
  {
    if j > 0 {
      FieldUpTo(s, offset, bits, value, j - 1);
      QuotStep(value, bits - j);
      assert FieldBit(s, offset, j - 1) == ValueDigit(value, bits, j - 1);
      FieldStep(Field(s, offset, j - 1), Quot(value, bits - (j - 1)), Pow2(j - 1), Quot(value, bits), N(ValueBit(value, bits - j)));
      hide BitAt, ValueBit, Quot;
    }
  }

  /** A field that holds the bits of a value is the value modulo 2^bits. */
  lemma {:induction false} FieldIsLow(s: seq<Octet>, offset: nat, bits: nat, value: nat)
    requires Holds(s, offset, bits, value)
    ensures Field(s, offset, bits) == Low(value, bits)
  {
    hide Holds;
    FieldUpTo(s, offset, bits, value, bits);
  }

  // ----- one bit -----

  /** Bit k of the byte cleared, then set to the given value. */
  function WithBit(b: Octet, k: nat, v: bool): Octet
    requires k < 8
  {
    (b & !MaskOf(k)) | (if v then MaskOf(k) else 0)
  }

  lemma {:induction false} MaskedBit(b: Octet, m: Octet, x: Octet, v: bool)
    requires x != 0 && (m == x || m & x == 0)
    ensures (m == x && x & (x - 1) == 0 ==> ((((b & !m) | (if v then m else 0)) & x != 0) <==> v))
    ensures m & x == 0 ==> ((((b & !m) | (if v then m else 0)) & x != 0) <==> b & x != 0)
  {
  }

  lemma {:induction false} WithBitBits(b: Octet, k: nat, v: bool)
    requires k < 8
    ensures ByteBits(WithBit(b, k, v)) == ByteBits(b)[k := v]
  {
    hide MaskOf, ByteBits;
    forall l | 0 <= l < 8 ensures ByteBits(WithBit(b, k, v))[l] == ByteBits(b)[k := v][l] {
      Masks(k, l);
      Masks(l, k);
      MaskedBit(b, MaskOf(k), MaskOf(l), v);
      ByteBitAt(b, l);
      ByteBitAt(WithBit(b, k, v), l);
    }
  }

  lemma {:induction false} BitWritten(s: seq<Octet>, pos: nat, v: bool, p: nat)
    requires pos / 8 < |s|
    ensures BitAt(s[pos / 8 := WithBit(s[pos / 8], pos % 8, v)], p) == if p == pos then v else BitAt(s, p)
  {
    hide ByteBits, WithBit;
    WithBitBits(s[pos / 8], pos % 8, v);
    if p / 8 == pos / 8 && p % 8 == pos % 8 { assert p == pos; }
  }

  // ----- storing and fetching -----

  /** setUnsignedBitfield: the field gets the bits of the value, and no other bit changes. */
  method SetUnsigned(p: array<Octet>, offset: nat, bits: nat, value: nat)
    requires offset + bits <= 8 * p.Length
    modifies p
    ensures Holds(p[..], offset, bits, value)
    ensures forall k: nat :: !(offset <= k < offset + bits) ==> BitAt(p[..], k) == BitAt(old(p[..]), k)
  {
    hide BitAt, ValueBit, WithBit, MaskOf;
    var j, at := 0, offset;
    while j < bits
      invariant 0 <= j <= bits && at == offset + j
      invariant forall i :: 0 <= i < j ==> FieldBit(p[..], offset, i) == ValueDigit(value, bits, i)
      invariant forall k: nat :: !(offset <= k < offset + j) ==> BitAt(p[..], k) == BitAt(old(p[..]), k)
    {
      var bitval := ValueBit(value, bits - 1 - j);
      ghost var before := p[..];
      forall k: nat ensures BitAt(before[at / 8 := WithBit(before[at / 8], at % 8, bitval)], k) == if k == at then bitval else BitAt(before, k) {
        BitWritten(before, at, bitval, k);
      }
      p[at / 8] := WithBit(p[at / 8], at % 8, bitval);
      assert p[..] == before[at / 8 := WithBit(before[at / 8], at % 8, bitval)];
      forall i | 0 <= i < j + 1 ensures FieldBit(p[..], offset, i) == ValueDigit(value, bits, i) {
        assert FieldBit(before, offset, i) == BitAt(before, offset + i);
      }
      j, at := j + 1, at + 1;
    }
  }

  /** getUnsignedBitfield. */
  method GetUnsigned(p: seq<Octet>, offset: nat, bits: nat) returns (value: nat)
    requires offset + bits <= 8 * |p|
    ensures value == Field(p, offset, bits)
  {
    hide BitAt;
    value := 0;
    var j := 0;
    while j < bits
      invariant 0 <= j <= bits && value == Field(p, offset, j)
    {
      value := value * 2 + N(BitAt(p, offset + j));
      j := j + 1;
    }
  }

  // ----- fetching past the end -----

  /** The window of GET: nine bytes copied, with zeros where the string has none, are enough for any field of up to 64 bits. */
  method GetPadded(src: seq<Octet>, offset: nat, bits: nat) returns (value: nat)
    requires bits <= 64
    ensures value == Field(src, offset, bits)
  {
    hide Field, BitAt, ByteBits;
    var byte := offset / 8;
    var buf := CopyWindow(src, byte);
    var inside := offset - byte * 8;
    value := GetUnsigned(buf, inside, bits);
    forall k | 0 <= k < bits ensures FieldBit(buf, inside, k) == FieldBit(src, offset, k) {
      WindowBit(src, buf, byte, inside + k);
    }
    FieldSame(buf, src, inside, offset, bits);
  }

  method CopyWindow(src: seq<Octet>, byte: nat) returns (buf: seq<Octet>)
    ensures |buf| == 9 && forall i :: 0 <= i < 9 ==> buf[i] == if i + byte < |src| then src[i + byte] else 0
  {
    buf := seq(9, _ => 0);
    var i := 0;
    while i < 9
      invariant 0 <= i <= 9 && |buf| == 9
      invariant forall k :: 0 <= k < 9 ==> buf[k] == if k < i && k + byte < |src| then src[k + byte] else 0
    {
      if i + byte >= |src| { break; }
      buf := buf[i := src[i + byte]];
      i := i + 1;
    }
  }

  lemma {:induction false} ZeroBits(k: nat)
    requires k < 8
    ensures !ByteBits(0)[k]
  {
  }

  lemma {:induction false} WindowBit(src: seq<Octet>, buf: seq<Octet>, byte: nat, at: nat)
    requires |buf| == 9 && (forall i :: 0 <= i < 9 ==> buf[i] == if i + byte < |src| then src[i + byte] else 0) && at < 72
    ensures BitAt(buf, at) == BitAt(src, byte * 8 + at)
  {
    hide ByteBits;
    ZeroBits(at % 8);
    BitInByte(src, byte + at / 8, at % 8);
    assert byte * 8 + at == 8 * (byte + at / 8) + at % 8;
  }

  // ----- ranges and machine integers -----

  datatype Policy = Wrap | Sat | Fail

  function MaxU(bits: nat): int { Pow2(bits) - 1 }

  function MaxS(bits: nat): int
    requires bits >= 1
  {
    Pow2(bits - 1) - 1
  }

  function MinS(bits: nat): int
    requires bits >= 1
  {
    -MaxS(bits) - 1
  }

  /** Conversion to uint64_t and to int64_t. */
  function U64(x: int): nat { x % TWO_64 }

  function I64(x: int): int { if U64(x) >= TWO_63 then U64(x) - TWO_64 else U64(x) }

  predicate IsInt64(x: int) { -TWO_63 <= x < TWO_63 }

  lemma {:induction false} I64Fits(x: int)
    requires IsInt64(x)
    ensures I64(x) == x
  {
  }

  lemma {:induction false} Powers()
    ensures Pow2(63) == TWO_63 && Pow2(64) == TWO_64
  {
    assert Pow2(4) == 16 by { assert Pow2(2) == 4; }
    Pow2Add(4, 4);
    Pow2Add(8, 8);
    Pow2Add(16, 16);
    Pow2Add(32, 32);
    assert Pow2(64) == 2 * Pow2(63);
    hide Pow2;
  }

  lemma {:induction false} PowerBound(bits: nat)
    requires bits <= 63
    ensures Pow2(bits) <= TWO_63 && Pow2(64) == TWO_64
  {
    hide Pow2;
    Powers();
    Pow2Add(bits, 63 - bits);
    AtLeastFactor(Pow2(bits), Pow2(63 - bits));
  }

  lemma {:induction false} AtLeastFactor(a: nat, b: nat)
    requires b > 0
    ensures a <= a * b
  {
    MulNonNegative(a, b - 1);
    Distribute(a, b - 1, 1);
  }

  function Multiple(n: nat, q: int): int { Pow2(n) * q }

  ghost predicate Congruent(n: nat, x: int, y: int) { exists q :: x - y == Multiple(n, q) }

  lemma {:induction false} CongruentWith(n: nat, x: int, y: int, q: int)
    requires x - y == Pow2(n) * q
    ensures Congruent(n, x, y)
  {
    assert x - y == Multiple(n, q);
  }

  /** Cutting off a sum that was computed in 64 bits keeps it modulo 2^bits. */
  lemma {:induction false} LowOfU64(x: int, bits: nat)
    requires bits <= 63 && -TWO_64 <= x < TWO_64
    ensures 0 <= Low(U64(x), bits) <= MaxU(bits) && Congruent(bits, Low(U64(x), bits), x)
  {
    LowRange(U64(x), bits);
    PowerBound(bits);
    Pow2Add(bits, 64 - bits);
    U64Value(x);
    hide Pow2, Quot, U64;
    var q: int := Quot(U64(x), bits);
    var up: int := if x < 0 then Pow2(64 - bits) else 0;
    Difference(Pow2(bits), up, q);
    CongruentWith(bits, Low(U64(x), bits), x, up - q);
  }

  lemma {:induction false} U64Value(x: int)
    requires -TWO_64 <= x < TWO_64
    ensures U64(x) == x + if x < 0 then TWO_64 else 0
  {
  }

  lemma {:induction false} Difference(a: int, b: int, c: int)
    ensures a * (b - c) == a * b - a * c && a * 0 == 0
  {
  }

  // ----- overflow, unsigned -----

  /** Whether the sum fits; if not, the limit the check supplies, unless the policy is to fail. */
  datatype Check = Fits | Over(limit: Option<int>) | Under(limit: Option<int>)

  /** checkUnsignedBitfieldOverflow. */
  function CheckUnsigned(value: nat, incr: int, bits: nat, p: Policy): Check {
    var max := MaxU(bits);
    var maxincr, minincr := I64(max - value), I64(0 - value);
    if value > max || (incr > 0 && incr > maxincr) then
      Over(match p case Wrap => Some(Low(U64(value + incr), bits)) case Sat => Some(max) case Fail => None)
    else if incr < 0 && incr < minincr then
      (match p case Wrap => Over(Some(Low(U64(value + incr), bits))) case Sat => Under(Some(0)) case Fail => Under(None))
    else Fits
  }

  /** For a value in range: it fits exactly when the sum is in range; otherwise the limit is the congruent value, or the bound that was crossed. */
  lemma {:induction false} UnsignedCheckIsExact(value: nat, incr: int, bits: nat, p: Policy)
    requires 1 <= bits <= 63 && value <= MaxU(bits) && IsInt64(incr)
    ensures var c, sum := CheckUnsigned(value, incr, bits, p), value + incr;
            && (c == Fits <==> 0 <= sum <= MaxU(bits))
            && (c != Fits && p == Wrap ==> c.limit.Some? && 0 <= c.limit.value <= MaxU(bits) && Congruent(bits, c.limit.value, sum))
            && (c != Fits && p == Sat ==> c.limit == Some(if sum > MaxU(bits) then MaxU(bits) else 0))
  {
    PowerBound(bits);
    I64Fits(MaxU(bits) - value);
    I64Fits(0 - value);
    LowOfU64(value + incr, bits);
    hide Low, U64, Congruent;
  }

  // ----- overflow, signed -----

  /** The low bits read as a two's complement number: the sign bit is propagated. */
  function Extended(c: nat, bits: nat): int
    requires bits >= 1
  {
    if ValueBit(c, bits - 1) then Low(c, bits) - Pow2(bits) else Low(c, bits)
  }

  /** checkSignedBitfieldOverflow, for widths below 64; maxincr and minincr are computed in 64 bits. */
  function CheckSigned(value: int, incr: int, bits: nat, p: Policy): Check
    requires bits >= 1
  {
    var max, min := MaxS(bits), MinS(bits);
    var maxincr, minincr := I64(max - value), I64(min - value);
    if value > max || incr > maxincr || (value >= 0 && incr > 0 && incr > maxincr) then
      Over(match p case Wrap => Some(Extended(U64(value + incr), bits)) case Sat => Some(max) case Fail => None)
    else if value < min || incr < minincr || (value < 0 && incr < 0 && incr < minincr) then
      (match p case Wrap => Over(Some(Extended(U64(value + incr), bits))) case Sat => Under(Some(min)) case Fail => Under(None))
    else Fits
  }

  /** The sign bit is set exactly in the upper half. */
  lemma {:induction false} ExtendedRange(c: nat, bits: nat)
    requires bits >= 1
    ensures MinS(bits) <= Extended(c, bits) <= MaxS(bits)
    ensures Extended(c, bits) == Low(c, bits) || Extended(c, bits) == Low(c, bits) - Pow2(bits)
    ensures ValueBit(c, bits - 1) <==> Low(c, bits) >= Pow2(bits - 1)
  {
    LowRange(c, bits - 1);
    QuotStep(c, bits - 1);
    var q, b := Quot(c, bits), N(ValueBit(c, bits - 1));
    Distribute(Pow2(bits - 1), 2 * q, b);
    Twice(Pow2(bits - 1), q);
  }

  lemma {:induction false} ExtendedOfU64(x: int, bits: nat)
    requires 1 <= bits <= 63 && -TWO_64 <= x < TWO_64
    ensures MinS(bits) <= Extended(U64(x), bits) <= MaxS(bits) && Congruent(bits, Extended(U64(x), bits), x)
  {
    ExtendedRange(U64(x), bits);
    LowOfU64(x, bits);
    hide Low, U64, Extended, Pow2, ValueBit;
    var q :| Low(U64(x), bits) - x == Multiple(bits, q);
    Distribute(Pow2(bits), q, -1);
    CongruentWith(bits, Extended(U64(x), bits), x, if Extended(U64(x), bits) == Low(U64(x), bits) then q else q + -1);
  }

  lemma {:induction false} SignedCheckIsExact(value: int, incr: int, bits: nat, p: Policy)
    requires 1 <= bits <= 63 && MinS(bits) <= value <= MaxS(bits) && IsInt64(incr)
    ensures var c, sum := CheckSigned(value, incr, bits, p), value + incr;
            && (c == Fits <==> MinS(bits) <= sum <= MaxS(bits))
            && (c != Fits && p == Wrap ==> c.limit.Some? && MinS(bits) <= c.limit.value <= MaxS(bits) && Congruent(bits, c.limit.value, sum))
            && (c != Fits && p == Sat ==> c.limit == Some(if sum > MaxS(bits) then MaxS(bits) else MinS(bits)))
  {
    PowerBound(bits);
    PowerBound(bits - 1);
    assert Pow2(bits) == 2 * Pow2(bits - 1);
    I64Fits(MaxS(bits) - value);
    I64Fits(MinS(bits) - value);
    ExtendedOfU64(value + incr, bits);
    hide Low, U64, Congruent, Extended, Pow2;
  }

  /**
   Setting, rather than incrementing, checks any 64-bit value. A value below the
   range saturates at the lower bound exactly when the distance to the upper bound
   fits 64 bits; if it does not, the distance wraps and the upper bound is stored.
   */
  lemma {:induction false} SetSaturatesBelowIff(value: int, bits: nat)
    requires 1 <= bits <= 63 && IsInt64(value) && value < MinS(bits)
    ensures CheckSigned(value, 0, bits, Sat) == (if MaxS(bits) - value < TWO_63 then Under(Some(MinS(bits))) else Over(Some(MaxS(bits))))
  {
    PowerBound(bits - 1);
    hide Pow2, Low, Extended;
    if MaxS(bits) - value < TWO_63 { I64Fits(MaxS(bits) - value); }
  }

  // ----- INCRBY -----

  lemma {:induction false} StoredUnsigned(s: seq<Octet>, offset: nat, bits: nat, value: nat)
    requires Holds(s, offset, bits, value) && value <= MaxU(bits)
    ensures Field(s, offset, bits) == value
  {
    hide Holds;
    FieldIsLow(s, offset, bits, value);
    LowOfSmall(value, bits);
  }

  /**
   BITFIELD INCRBY on an unsigned field: the exact sum when it fits; otherwise the
   congruent value of the range, the bound, or nothing, by policy. No other bit changes.
   */
  method IncrUnsigned(p: array<Octet>, offset: nat, bits: nat, incr: int, policy: Policy) returns (reply: Option<int>)
    requires 1 <= bits <= 63 && offset + bits <= 8 * p.Length && IsInt64(incr)
    modifies p
    ensures forall k: nat :: !(offset <= k < offset + bits) ==> BitAt(p[..], k) == BitAt(old(p[..]), k)
    ensures var sum, r := Field(old(p[..]), offset, bits) + incr, Field(p[..], offset, bits);
            if 0 <= sum <= MaxU(bits) then r == sum && reply == Some(sum)
            else match policy
              case Wrap => r <= MaxU(bits) && Congruent(bits, r, sum) && reply == Some(r)
              case Sat => r == (if sum > MaxU(bits) then MaxU(bits) else 0) && reply == Some(r)
              case Fail => p[..] == old(p[..]) && reply == None
  {
    hide Field, Holds, Congruent, CheckUnsigned, BitAt;
    var value := GetUnsigned(p[..], offset, bits);
    FieldRange(p[..], offset, bits);
    UnsignedCheckIsExact(value, incr, bits, policy);
    var c := CheckUnsigned(value, incr, bits, policy);
    if c != Fits && policy == Fail { return None; }
    var stored: nat := if c == Fits then value + incr else c.limit.value;
    SetUnsigned(p, offset, bits, stored);
    StoredUnsigned(p[..], offset, bits, stored);
    return Some(stored);
  }

  /** getSignedBitfield. */
  function SignedField(s: seq<Octet>, offset: nat, bits: nat): int
    requires bits >= 1
  {
    Extended(Field(s, offset, bits), bits)
  }

  /** A value of the range comes back: what setSignedBitfield stores, getSignedBitfield reads. */
  lemma {:induction false} StoredSigned(s: seq<Octet>, offset: nat, bits: nat, value: int)
    requires 1 <= bits <= 63 && MinS(bits) <= value <= MaxS(bits) && Holds(s, offset, bits, U64(value))
    ensures SignedField(s, offset, bits) == value
  {
    FieldIsLow(s, offset, bits, U64(value));
    PowerBound(bits);
    PowerBound(bits - 1);
    assert Pow2(bits) == 2 * Pow2(bits - 1);
    LowOfU64(value, bits);
    LowOfSmall(Field(s, offset, bits), bits);
    ExtendedRange(Field(s, offset, bits), bits);
    hide Low, U64, Field, Holds, Pow2, ValueBit;
    var f := Low(U64(value), bits);
    var q :| f - value == Multiple(bits, q);
    SameInRange(bits, f, value, q);
  }

  /** Read as two's complement, a number is the only congruent one of the signed range. */
  lemma {:induction false} SameInRange(bits: nat, f: int, value: int, q: int)
    requires bits >= 1 && Pow2(bits) == 2 * Pow2(bits - 1) && 0 <= f <= MaxU(bits) && MinS(bits) <= value <= MaxS(bits) && f - value == Pow2(bits) * q
    ensures value == if f >= Pow2(bits - 1) then f - Pow2(bits) else f
  {
    var w := if value < 0 then value + Pow2(bits) else value;
    Distribute(Pow2(bits), q, -1);
    Unique(bits, f, w, if value < 0 then q + -1 else q);
    hide Pow2;
  }

  /** BITFIELD INCRBY on a signed field. */
  method IncrSigned(p: array<Octet>, offset: nat, bits: nat, incr: int, policy: Policy) returns (reply: Option<int>)
    requires 1 <= bits <= 63 && offset + bits <= 8 * p.Length && IsInt64(incr)
    modifies p
    ensures forall k: nat :: !(offset <= k < offset + bits) ==> BitAt(p[..], k) == BitAt(old(p[..]), k)
    ensures var sum, r := SignedField(old(p[..]), offset, bits) + incr, SignedField(p[..], offset, bits);
            if MinS(bits) <= sum <= MaxS(bits) then r == sum && reply == Some(sum)
            else match policy
              case Wrap => MinS(bits) <= r <= MaxS(bits) && Congruent(bits, r, sum) && reply == Some(r)
              case Sat => r == (if sum > MaxS(bits) then MaxS(bits) else MinS(bits)) && reply == Some(r)
              case Fail => p[..] == old(p[..]) && reply == None
  {
    hide Field, Holds, Congruent, CheckSigned, BitAt, Extended, U64, Pow2;
    var f := GetUnsigned(p[..], offset, bits);
    var value := Extended(f, bits);
    ExtendedRange(f, bits);
    SignedCheckIsExact(value, incr, bits, policy);
    var c := CheckSigned(value, incr, bits, policy);
    if c != Fits && policy == Fail { return None; }
    var stored := if c == Fits then value + incr else c.limit.value;
    SetUnsigned(p, offset, bits, U64(stored));
    StoredSigned(p[..], offset, bits, stored);
    return Some(stored);
  }
}
