/**
 BITOP: the bytewise AND, OR, XOR or NOT of strings of different lengths, with a
 fast path that works on four words at a time while all strings have data.
 */
module BitOperations {
  import opened BitCount
  import opened BitSearch

  datatype Op = And | Or | Xor | Not

  const BLOCK := 32
  const FAST_KEYS := 16

  function Combine(op: Op, a: Octet, b: Octet): Octet {
    match op
    case And => a & b
    case Or => a | b
    case Xor => a ^ b
    case Not => a
  }

  /** Byte j of a string that is zero-padded on the right. */
  function Padded(s: seq<Octet>, j: nat): Octet { if j < |s| then s[j] else 0 }

  /** Byte j of the result: the operation over the first n strings, in order. */
  function Fold(op: Op, srcs: seq<seq<Octet>>, n: nat, j: nat): Octet
    requires 1 <= n <= |srcs|
    decreases n
  {
    if n == 1 then (if op == Not then !Padded(srcs[0], j) else Padded(srcs[0], j))
    else Combine(op, Fold(op, srcs, n - 1, j), Padded(srcs[n - 1], j))
  }

  ghost predicate IsMaxLength(srcs: seq<seq<Octet>>, m: nat) {
    (forall i :: 0 <= i < |srcs| ==> |srcs[i]| <= m) && (m == 0 || exists i :: 0 <= i < |srcs| && |srcs[i]| == m)
  }

  ghost predicate AllAtLeast(srcs: seq<seq<Octet>>, m: nat) { forall i :: 0 <= i < |srcs| ==> |srcs[i]| >= m }

  /** The lengths of the longest and the shortest string. */
  method Lengths(srcs: seq<seq<Octet>>) returns (maxlen: nat, minlen: nat)
    requires srcs != []
    ensures IsMaxLength(srcs, maxlen) && AllAtLeast(srcs, minlen) && minlen <= maxlen
  {
    maxlen, minlen := 0, 0;
    var j := 0;
    while j < |srcs|
      invariant 0 <= j <= |srcs| && IsMaxLength(srcs[..j], maxlen) && AllAtLeast(srcs[..j], minlen) && minlen <= maxlen
    {
      ghost var longest := maxlen;
      var n := |srcs[j]|;
      if n > maxlen { maxlen := n; }
      if j == 0 || n < minlen { minlen := n; }
      assert srcs[..j + 1] == srcs[..j] + [srcs[j]];
      MaxNext(srcs[..j], srcs[j], longest);
      j := j + 1;
    }
    assert srcs[..j] == srcs;
  }

  lemma {:induction false} MaxNext(srcs: seq<seq<Octet>>, s: seq<Octet>, m: nat)
    requires IsMaxLength(srcs, m)
    ensures IsMaxLength(srcs + [s], if |s| > m then |s| else m)
  {
    var all := srcs + [s];
    assert all[|srcs|] == s;
    if m != 0 {
      var i :| 0 <= i < |srcs| && |srcs[i]| == m;
      assert all[i] == srcs[i];
    }
  }

  // ----- bit by bit -----

  /** How many of the first n strings have bit p. */
  function HaveBit(srcs: seq<seq<Octet>>, n: nat, p: nat): nat
    requires n <= |srcs|
    decreases n
  {
    if n == 0 then 0 else HaveBit(srcs, n - 1, p) + if BitAt(srcs[n - 1], p) then 1 else 0
  }

  /** Bit p of the result: all strings have it, some string has it, an odd number of them have it, the only string has it not. */
  ghost predicate BitMeant(op: Op, srcs: seq<seq<Octet>>, n: nat, p: nat)
    requires 1 <= n <= |srcs|
  {
    match op
    case And => forall i :: 0 <= i < n ==> BitAt(srcs[i], p)
    case Or => exists i :: 0 <= i < n && BitAt(srcs[i], p)
    case Xor => HaveBit(srcs, n, p) % 2 == 1
    case Not => !BitAt(srcs[0], p)
  }

  lemma {:induction false} MaskedOps(a: Octet, b: Octet, m: Octet)
    requires m != 0 && m & (m - 1) == 0
    ensures (a & b) & m != 0 <==> a & m != 0 && b & m != 0
    ensures (a | b) & m != 0 <==> a & m != 0 || b & m != 0
    ensures (a ^ b) & m != 0 <==> (a & m != 0) != (b & m != 0)
    ensures !a & m != 0 <==> a & m == 0
  {
  }

  lemma {:induction false} CombineBits(a: Octet, b: Octet, k: nat)
    requires k < 8
    ensures ByteBits(Combine(And, a, b))[k] == (ByteBits(a)[k] && ByteBits(b)[k])
    ensures ByteBits(Combine(Or, a, b))[k] == (ByteBits(a)[k] || ByteBits(b)[k])
    ensures ByteBits(Combine(Xor, a, b))[k] == (ByteBits(a)[k] != ByteBits(b)[k])
    ensures ByteBits(!a)[k] == !ByteBits(a)[k]
  {
    hide ByteBits, MaskOf;
    Masks(k, k);
    MaskedOps(a, b, MaskOf(k));
    ByteBitAt(a, k);
    ByteBitAt(b, k);
    ByteBitAt(Combine(And, a, b), k);
    ByteBitAt(Combine(Or, a, b), k);
    ByteBitAt(Combine(Xor, a, b), k);
    ByteBitAt(!a, k);
  }

  lemma {:induction false} ZeroHasNoBit(k: nat)
    requires k < 8
    ensures !ByteBits(0)[k]
  {
  }

  lemma {:induction false} PaddedBit(s: seq<Octet>, p: nat)
    ensures ByteBits(Padded(s, p / 8))[p % 8] == BitAt(s, p)
  {
    hide ByteBits;
    ZeroHasNoBit(p % 8);
  }

  /** The fold of the bytes is, bit by bit, what the operation means. */
  lemma {:induction false} FoldMeans(op: Op, srcs: seq<seq<Octet>>, n: nat, p: nat)
    requires 1 <= n <= |srcs| && (op == Not ==> n == 1)
    ensures ByteBits(Fold(op, srcs, n, p / 8))[p % 8] == BitMeant(op, srcs, n, p)
    decreases n
  {
    hide ByteBits, Combine, BitAt, Padded;
    PaddedBit(srcs[n - 1], p);
    if n == 1 {
      CombineBits(Padded(srcs[0], p / 8), 0, p % 8);
      assert HaveBit(srcs, 1, p) == HaveBit(srcs, 0, p) + if BitAt(srcs[0], p) then 1 else 0;
    } else {
      FoldMeans(op, srcs, n - 1, p);
      CombineBits(Fold(op, srcs, n - 1, p / 8), Padded(srcs[n - 1], p / 8), p % 8);
      MeantNext(op, srcs, n, p);
    }
  }

  lemma {:induction false} MeantNext(op: Op, srcs: seq<seq<Octet>>, n: nat, p: nat)
    requires 2 <= n <= |srcs| && op != Not
    ensures BitMeant(And, srcs, n, p) == (BitMeant(And, srcs, n - 1, p) && BitAt(srcs[n - 1], p))
    ensures BitMeant(Or, srcs, n, p) == (BitMeant(Or, srcs, n - 1, p) || BitAt(srcs[n - 1], p))
    ensures BitMeant(Xor, srcs, n, p) == (BitMeant(Xor, srcs, n - 1, p) != BitAt(srcs[n - 1], p))
  {
    hide BitAt;
  }

  // ----- the fast path -----

  /** Bytes lo up to hi hold the fold of the first n strings. */
  ghost predicate Done(res: seq<Octet>, op: Op, srcs: seq<seq<Octet>>, n: nat, lo: nat, hi: nat)
    requires 1 <= n <= |srcs|
  {
    forall j :: lo <= j < hi && j < |res| ==> res[j] == Fold(op, srcs, n, j)
  }

  /** Bytes lo up to hi are those of the first string. */
  ghost predicate Copied(res: seq<Octet>, src: seq<Octet>, lo: nat, hi: nat) {
    forall j :: lo <= j < hi && j < |res| ==> j < |src| && res[j] == src[j]
  }

  /** Four words combined with those of one string. */
  method CombineBlock(res: array<Octet>, op: Op, src: seq<Octet>, j: nat)
    requires j + BLOCK <= res.Length && j + BLOCK <= |src|
    modifies res
    ensures forall k :: 0 <= k < res.Length ==> res[k] == if j <= k < j + BLOCK then Combine(op, old(res[k]), src[k]) else old(res[k])
  {
    hide Combine;
    var k := j;
    while k < j + BLOCK
      invariant j <= k <= j + BLOCK
      invariant forall i :: 0 <= i < res.Length ==> res[i] == if j <= i < k then Combine(op, old(res[i]), src[i]) else old(res[i])
    {
      res[k] := Combine(op, res[k], src[k]);
      k := k + 1;
    }
  }

  /** Four words inverted. */
  method InvertBlock(res: array<Octet>, j: nat)
    requires j + BLOCK <= res.Length
    modifies res
    ensures forall k :: 0 <= k < res.Length ==> res[k] == if j <= k < j + BLOCK then !old(res[k]) else old(res[k])
  {
    var k := j;
    while k < j + BLOCK
      invariant j <= k <= j + BLOCK
      invariant forall i :: 0 <= i < res.Length ==> res[i] == if j <= i < k then !old(res[i]) else old(res[i])
    {
      res[k] := !res[k];
      k := k + 1;
    }
  }

  lemma {:induction false} FirstFold(res: seq<Octet>, op: Op, srcs: seq<seq<Octet>>, lo: nat, hi: nat)
    requires srcs != [] && Copied(res, srcs[0], lo, hi) && op != Not
    ensures Done(res, op, srcs, 1, lo, hi)
  {
  }

  lemma {:induction false} NextFold(res: seq<Octet>, res': seq<Octet>, op: Op, srcs: seq<seq<Octet>>, n: nat, j: nat)
    requires 1 <= n < |srcs| && Done(res, op, srcs, n, j, j + BLOCK) && |res'| == |res| && j + BLOCK <= |res| && j + BLOCK <= |srcs[n]|
    requires forall k :: 0 <= k < |res| ==> res'[k] == if j <= k < j + BLOCK then Combine(op, res[k], srcs[n][k]) else res[k]
    ensures Done(res', op, srcs, n + 1, j, j + BLOCK)
  {
    hide Combine;
  }

  /** One round of the fast path. */
  method FastBlock(res: array<Octet>, op: Op, srcs: seq<seq<Octet>>, j: nat)
    requires srcs != [] && (op == Not ==> |srcs| == 1) && AllAtLeast(srcs, j + BLOCK) && j + BLOCK <= res.Length
    requires Copied(res[..], srcs[0], j, j + BLOCK)
    modifies res
    ensures Done(res[..], op, srcs, |srcs|, j, j + BLOCK)
    ensures forall k :: 0 <= k < res.Length && !(j <= k < j + BLOCK) ==> res[k] == old(res[k])
  {
    hide Combine;
    if op == Not {
      InvertBlock(res, j);
    } else {
      FirstFold(res[..], op, srcs, j, j + BLOCK);
      var i := 1;
      while i < |srcs|
        invariant 1 <= i <= |srcs| && Done(res[..], op, srcs, i, j, j + BLOCK)
        invariant forall k :: 0 <= k < res.Length && !(j <= k < j + BLOCK) ==> res[k] == old(res[k])
      {
        ghost var before := res[..];
        CombineBlock(res, op, srcs[i], j);
        NextFold(before, res[..], op, srcs, i, j);
        i := i + 1;
      }
    }
  }

  /** The fast path: how far it got. */
  method FastPath(res: array<Octet>, op: Op, srcs: seq<seq<Octet>>, minlen: nat) returns (j: nat)
    requires srcs != [] && (op == Not ==> |srcs| == 1) && AllAtLeast(srcs, minlen) && minlen <= res.Length
    modifies res
    ensures j <= minlen && Done(res[..], op, srcs, |srcs|, 0, j)
  {
    hide Fold;
    var k := 0;
    while k < minlen
      invariant 0 <= k <= minlen && Copied(res[..], srcs[0], 0, k)
    {
      res[k] := srcs[0][k];
      k := k + 1;
    }
    j := 0;
    var left := minlen;
    while left >= BLOCK
      invariant 0 <= j <= minlen && left == minlen - j && Done(res[..], op, srcs, |srcs|, 0, j)
      invariant Copied(res[..], srcs[0], j, minlen)
    {
      FastBlock(res, op, srcs, j);
      assert Done(res[..], op, srcs, |srcs|, 0, j + BLOCK);
      j, left := j + BLOCK, left - BLOCK;
    }
  }

  /** The body of the byte loop. */
  method SlowByte(op: Op, srcs: seq<seq<Octet>>, j: nat) returns (output: Octet)
    requires srcs != [] && (op == Not ==> |srcs| == 1)
    ensures output == Fold(op, srcs, |srcs|, j)
  {
    output := Padded(srcs[0], j);
    if op == Not { output := !output; }
    var i := 1;
    while i < |srcs|
      invariant 1 <= i <= |srcs| && output == Fold(op, srcs, i, j)
    {
      output := Combine(op, output, Padded(srcs[i], j));
      i := i + 1;
    }
  }

  /** The computation of bitopCommand: as long as the longest string, and every bit is what the operation means on the padded strings. */
  method BitOp(op: Op, srcs: seq<seq<Octet>>) returns (r: seq<Octet>)
    requires srcs != [] && (op == Not ==> |srcs| == 1)
    ensures IsMaxLength(srcs, |r|) && forall j :: 0 <= j < |r| ==> r[j] == Fold(op, srcs, |srcs|, j)
    ensures forall p :: 0 <= p < 8 * |r| ==> BitAt(r, p) == BitMeant(op, srcs, |srcs|, p)
  {
    hide Fold, IsMaxLength, BitMeant, ByteBits;
    var maxlen, minlen := Lengths(srcs);
    if maxlen == 0 { return []; }
    var res := new Octet[maxlen];
    var j := 0;
    if minlen >= BLOCK && |srcs| <= FAST_KEYS { j := FastPath(res, op, srcs, minlen); }
    while j < maxlen
      invariant 0 <= j <= maxlen && Done(res[..], op, srcs, |srcs|, 0, j)
    {
      var b := SlowByte(op, srcs, j);
      res[j] := b;
      j := j + 1;
    }
    r := res[..];
    forall p | 0 <= p < 8 * |r| ensures BitAt(r, p) == BitMeant(op, srcs, |srcs|, p) {
      FoldMeans(op, srcs, |srcs|, p);
    }
  }
}
