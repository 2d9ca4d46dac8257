/**
 Finding the first set or clear bit of a string: whole words are skipped, then one
 word is loaded with its first byte on top and searched bit by bit.
 */
module BitSearch {
  import opened BitCount

  const WORD_BYTES := 8
  const WORD_SIZE := 64

  /** The bits of a byte, the most significant one first. */
  function ByteBits(b: Octet): (r: seq<bool>)
    ensures |r| == 8
  {
    [b & 0x80 != 0, b & 0x40 != 0, b & 0x20 != 0, b & 0x10 != 0, b & 0x08 != 0, b & 0x04 != 0, b & 0x02 != 0, b & 0x01 != 0]
  }

  /** The digits of a byte, weighed. */
  function Weighed(r: seq<bool>): nat
    requires |r| == 8
  {
    128 * N(r[0]) + 64 * N(r[1]) + 32 * N(r[2]) + 16 * N(r[3]) + 8 * N(r[4]) + 4 * N(r[5]) + 2 * N(r[6]) + N(r[7])
  }

  /** The bits are the binary digits of the byte. */
  lemma {:induction false} ByteValue(b: Octet)
    ensures b as int == Weighed(ByteBits(b))
  {
  }

  /** The byte in which only bit k is set. */
  function MaskOf(k: nat): Octet
    requires k < 8
  {
    if k == 0 then 0x80 else if k == 1 then 0x40 else if k == 2 then 0x20 else if k == 3 then 0x10
    else if k == 4 then 0x08 else if k == 5 then 0x04 else if k == 6 then 0x02 else 0x01
  }

  lemma {:induction false} Masks(k: nat, l: nat)
    requires k < 8 && l < 8
    ensures MaskOf(k) != 0 && MaskOf(k) & (MaskOf(k) - 1) == 0 && (k != l ==> MaskOf(k) & MaskOf(l) == 0)
  {
  }

  lemma {:induction false} ByteBitAt(b: Octet, k: nat)
    requires k < 8
    ensures ByteBits(b)[k] == (b & MaskOf(k) != 0)
  {
  }

  /** Bit p of a string that is zero-padded on the right. */
  function BitAt(s: seq<Octet>, p: nat): bool { p / 8 < |s| && ByteBits(s[p / 8])[p % 8] }

  /** No bit before position p has the value looked for. */
  ghost predicate NoneBefore(s: seq<Octet>, bit: bool, p: nat) { forall q :: 0 <= q < p ==> BitAt(s, q) != bit }

  /** The byte that cannot hold the bit looked for: all zeros or all ones. */
  function SkipValue(bit: bool): Octet { if bit then 0 else 0xFF }

  lemma {:induction false} SkipBits(bit: bool, b: Octet)
    ensures b == SkipValue(bit) <==> forall k :: 0 <= k < 8 ==> ByteBits(b)[k] != bit
  {
    var r := ByteBits(b);
    if b != SkipValue(bit) {
      assert r[0] == bit || r[1] == bit || r[2] == bit || r[3] == bit || r[4] == bit || r[5] == bit || r[6] == bit || r[7] == bit;
    }
  }

  lemma {:induction false} BitInByte(s: seq<Octet>, i: nat, k: nat)
    requires k < 8
    ensures (8 * i + k) / 8 == i && (8 * i + k) % 8 == k
    ensures BitAt(s, 8 * i + k) == (i < |s| && ByteBits(s[i])[k])
  {
  }

  /** Skipping a byte. */
  lemma {:induction false} SkipByte(s: seq<Octet>, bit: bool, i: nat)
    requires i < |s| && s[i] == SkipValue(bit) && NoneBefore(s, bit, 8 * i)
    ensures NoneBefore(s, bit, 8 * (i + 1))
  {
    hide ByteBits, BitAt, SkipValue;
    SkipBits(bit, s[i]);
    forall q | 0 <= q < 8 * (i + 1) ensures BitAt(s, q) != bit {
      if q >= 8 * i { BitInByte(s, i, q - 8 * i); }
    }
  }

  ghost predicate AllSkip(s: seq<Octet>, bit: bool, i: nat, j: nat) {
    forall k :: i <= k < j && k < |s| ==> s[k] == SkipValue(bit)
  }

  lemma {:induction false} SkipBytes(s: seq<Octet>, bit: bool, i: nat, j: nat)
    requires i <= j <= |s| && AllSkip(s, bit, i, j) && NoneBefore(s, bit, 8 * i)
    ensures NoneBefore(s, bit, 8 * j)
    decreases j - i
  {
    hide NoneBefore;
    if i < j {
      SkipByte(s, bit, i);
      SkipBytes(s, bit, i + 1, j);
    }
  }

  /** The word loaded from byte i on: its bits are those of the padded string. */
  ghost predicate LoadedFrom(s: seq<Octet>, i: nat, word: seq<bool>) {
    |word| == WORD_SIZE && forall k :: 0 <= k < WORD_SIZE ==> word[k] == BitAt(s, 8 * i + k)
  }

  /** The loop that shifts the bytes in, with zeros once they are used up. */
  method LoadWord(s: seq<Octet>, i: nat) returns (word: seq<bool>)
    ensures LoadedFrom(s, i, word)
  {
    hide ByteBits, BitAt;
    word := seq(WORD_SIZE, _ => false);
    var j := 0;
    while j < WORD_BYTES
      invariant 0 <= j <= WORD_BYTES && |word| == WORD_SIZE
      invariant forall k :: WORD_SIZE - 8 * j <= k < WORD_SIZE ==> word[k] == BitAt(s, 8 * i + k - (WORD_SIZE - 8 * j))
    {
      var low := if i + j < |s| then ByteBits(s[i + j]) else seq(8, _ => false);
      ghost var before := word;
      word := word[8..] + low;
      forall k | WORD_SIZE - 8 * (j + 1) <= k < WORD_SIZE
        ensures word[k] == BitAt(s, 8 * i + k - (WORD_SIZE - 8 * (j + 1))) {
        if k >= WORD_SIZE - 8 {
          BitInByte(s, i + j, k - (WORD_SIZE - 8));
        } else {
          assert word[k] == before[k + 8];
        }
      }
      j := j + 1;
    }
  }

  /** The last word holds the bit looked for, or there is none. */
  lemma {:induction false} LastWord(s: seq<Octet>, bit: bool, i: nat, word: seq<bool>)
    requires i <= |s| && LoadedFrom(s, i, word) && (i + WORD_BYTES <= |s| ==> !AllSkip(s, bit, i, i + WORD_BYTES))
    requires forall k :: 0 <= k < WORD_SIZE ==> word[k] != bit
    ensures bit && i + WORD_BYTES > |s| && forall k :: i <= k < |s| ==> s[k] == 0
  {
    hide ByteBits, BitAt;
    forall b | i <= b < i + WORD_BYTES && b < |s| ensures s[b] == SkipValue(bit) {
      forall k | 0 <= k < 8 ensures ByteBits(s[b])[k] != bit {
        BitInByte(s, b, k);
        assert word[8 * (b - i) + k] == BitAt(s, 8 * i + (8 * (b - i) + k));
      }
      SkipBits(bit, s[b]);
    }
    assert i + WORD_BYTES > |s|;
    BitInByte(s, |s|, 0);
    assert word[8 * (|s| - i)] == BitAt(s, 8 * i + 8 * (|s| - i));
  }

  /**
   redisBitpos: the position of the first bit with the given value. For a set bit
   the result is -1 if there is none; for a clear one it is the first position
   after the string, since the string counts as zero-padded.
   */
  method Bitpos(s: seq<Octet>, address: nat, bit: bool) returns (pos: int)
    ensures pos == -1 <==> bit && forall q :: 0 <= q < 8 * |s| ==> !BitAt(s, q)
    ensures pos != -1 ==> 0 <= pos <= 8 * |s| && BitAt(s, pos) == bit && NoneBefore(s, bit, pos)
  {
    hide ByteBits, BitAt, AllSkip, SkipValue;
    pos := 0;
    var i := 0;
    while (address + i) % WORD_BYTES != 0 && i < |s|
      invariant 0 <= i <= |s| && pos == 8 * i && NoneBefore(s, bit, pos)
      decreases |s| - i
    {
      if s[i] != SkipValue(bit) { break; }
      SkipByte(s, bit, i);
      i, pos := i + 1, pos + 8;
    }
    while |s| - i >= WORD_BYTES
      invariant 0 <= i <= |s| && pos == 8 * i && NoneBefore(s, bit, pos)
    {
      var same := IsSkipWord(s, bit, i);
      if !same { break; }
      SkipBytes(s, bit, i, i + WORD_BYTES);
      i, pos := i + WORD_BYTES, pos + WORD_SIZE;
    }
    pos := SearchLast(s, bit, i);
  }

  /** Comparing a whole word with the skip value. */
  method IsSkipWord(s: seq<Octet>, bit: bool, i: nat) returns (same: bool)
    requires i + WORD_BYTES <= |s|
    ensures same == AllSkip(s, bit, i, i + WORD_BYTES)
  {
    var k := i;
    while k < i + WORD_BYTES
      invariant i <= k <= i + WORD_BYTES && AllSkip(s, bit, i, k)
    {
      if s[k] != SkipValue(bit) { return false; }
      k := k + 1;
    }
    return true;
  }

  /** From the last word on. The panic at the end of the function is not reached. */
  method SearchLast(s: seq<Octet>, bit: bool, i: nat) returns (pos: int)
    requires i <= |s| && NoneBefore(s, bit, 8 * i) && (i + WORD_BYTES <= |s| ==> !AllSkip(s, bit, i, i + WORD_BYTES))
    ensures pos == -1 <==> bit && forall q :: 0 <= q < 8 * |s| ==> !BitAt(s, q)
    ensures pos != -1 ==> 0 <= pos <= 8 * |s| && BitAt(s, pos) == bit && NoneBefore(s, bit, pos)
  {
    hide ByteBits, BitAt, AllSkip, SkipValue;
    var word := LoadWord(s, i);
    pos := 8 * i;
    if bit && forall k :: 0 <= k < WORD_SIZE ==> !word[k] {
      LastWord(s, bit, i, word);
      NothingThere(s, i);
      return -1;
    }
    var k := 0;
    while k < WORD_SIZE
      invariant 0 <= k <= WORD_SIZE && pos == 8 * i + k && NoneBefore(s, bit, pos)
      invariant forall j :: 0 <= j < k ==> word[j] != bit
    {
      if word[k] == bit {
        Inside(s, bit, pos);
        return;
      }
      k, pos := k + 1, pos + 1;
    }
    LastWord(s, bit, i, word);
    assert false;
  }

  lemma {:induction false} NothingThere(s: seq<Octet>, i: nat)
    requires i <= |s| && NoneBefore(s, true, 8 * i) && forall k :: i <= k < |s| ==> s[k] == 0
    ensures forall q :: 0 <= q < 8 * |s| ==> !BitAt(s, q)
  {
    assert AllSkip(s, true, i, |s|);
    SkipBytes(s, true, i, |s|);
  }

  /** A bit found is inside the string, or the first one after it. */
  lemma {:induction false} Inside(s: seq<Octet>, bit: bool, pos: nat)
    requires NoneBefore(s, bit, pos) && BitAt(s, pos) == bit
    ensures pos <= 8 * |s| && (bit ==> pos < 8 * |s|)
  {
    hide ByteBits;
    BitInByte(s, |s|, 0);
  }
}
