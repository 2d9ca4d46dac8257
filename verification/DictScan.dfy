/**
 The stateless scan of a dictionary that may be resized between calls. The
 cursor counts up in bit-reversed order, so the hashes already passed are those
 whose reversed value is below the reversed cursor.
 */
module DictScan {
  import opened Words
  import opened Wrappers
  import opened Tables
  import opened DictModel

  // ----- cursor arithmetic -----

  /** v = (((v | m0) + 1) & ~m0) | (v & m0): count up in the bits above the mask. */
  function Bump(v: Word, a: nat): Word
    requires a <= WORD_BITS
  {
    Or(And(Inc(Or(v, Mask(a))), Not(Mask(a))), And(v, Mask(a)))
  }

  lemma {:induction false} BumpSplits(v: Word, a: nat)
    requires a <= WORD_BITS
    ensures Bump(v, a) == v[..a] + Inc(v[a..])
  {
    assert Or(v, Mask(a)) == Ones(a) + v[a..];
    IncOnes(a, v[a..]);
    var high := Zeros(a) + Inc(v[a..]);
    assert Bump(v, a) == Or(And(high, Not(Mask(a))), And(v, Mask(a)));
  }

  /** The bits of v in b-bit positions above the a-bit mask, counted up. */
  lemma {:induction false} BumpDiff(v: Word, a: nat, b: nat)
    requires a <= b <= WORD_BITS
    ensures Bump(v, a)[..a] == v[..a]
    ensures Val(Bump(v, a)[a..b]) == if Val(v[a..b]) + 1 == Pow2(b - a) then 0 else Val(v[a..b]) + 1
  {
    BumpSplits(v, a);
    IncPrefix(v[a..], b - a);
    assert Bump(v, a)[a..b] == Inc(v[a..])[..b - a];
    assert v[a..][..b - a] == v[a..b];
    IncVal(v[a..b]);
  }

  /** v & (m0 ^ m1). */
  function DiffBits(v: Word, a: nat, b: nat): Word
    requires a <= b <= WORD_BITS
  {
    And(v, Xor(Mask(a), Mask(b)))
  }

  lemma {:induction false} DiffBitsZero(v: Word, a: nat, b: nat)
    requires a <= b <= WORD_BITS
    ensures Val(DiffBits(v, a, b)) == 0 <==> Val(v[a..b]) == 0
  {
    var d := DiffBits(v, a, b);
    assert forall i :: a <= i < b ==> d[i] == v[a..b][i - a];
    assert forall i :: 0 <= i < b - a ==> v[a..b][i] == d[a + i];
    if Val(d) == 0 {
      ValZeroIsZeros(d);
      assert v[a..b] == Zeros(b - a);
      ValZeros(b - a);
    }
    if Val(v[a..b]) == 0 {
      ValZeroIsZeros(v[a..b]);
      assert d == Zeros(WORD_BITS);
      ValZeros(WORD_BITS);
    }
  }

  /** v |= ~m0; v = rev(v); v++; v = rev(v). */
  function NextCursor(v: Word, a: nat): Word
    requires a <= WORD_BITS
  {
    Reverse(Inc(Reverse(Or(v, Not(Mask(a))))))
  }

  lemma {:induction false} NextCursorSplits(v: Word, a: nat)
    requires a <= WORD_BITS
    ensures NextCursor(v, a) == Reverse(Inc(Reverse(v[..a]))) + Zeros(WORD_BITS - a)
    ensures RevVal(NextCursor(v, a)[..a]) == if RevVal(v[..a]) + 1 == Pow2(a) then 0 else RevVal(v[..a]) + 1
  {
    var k := WORD_BITS - a;
    assert Or(v, Not(Mask(a))) == v[..a] + Ones(k);
    ReverseConcat(v[..a], Ones(k));
    assert Reverse(Ones(k)) == Ones(k);
    var x := Inc(Reverse(v[..a]));
    IncOnes(k, Reverse(v[..a]));
    ReverseConcat(Zeros(k), x);
    assert Reverse(Zeros(k)) == Zeros(k);
    assert NextCursor(v, a)[..a] == Reverse(x);
    assert Reverse(Reverse(x)) == x;
    IncVal(Reverse(v[..a]));
  }

  /** Hash w comes before cursor v in scan order. */
  predicate Passed(w: Word, v: Word) {
    RevVal(w) < RevVal(v)
  }

  lemma {:induction false} PrefixOrder(w: Word, v: Word, a: nat)
    requires a <= WORD_BITS
    ensures RevVal(w[..a]) < RevVal(v[..a]) ==> Passed(w, v)
    ensures Passed(w, v) ==> RevVal(w[..a]) <= RevVal(v[..a])
  {
    assert w == w[..a] + w[a..] && v == v[..a] + v[a..];
    RevValConcat(w[..a], w[a..]);
    RevValConcat(v[..a], v[a..]);
    LeadingDigit(Pow2(WORD_BITS - a), RevVal(w[..a]), RevVal(v[..a]), RevVal(w[a..]), RevVal(v[a..]));
  }

  /** One call moves the frontier exactly past the hashes of the bucket it is at. */
  lemma {:induction false} FrontierMoves(w: Word, v: Word, a: nat)
    requires a <= WORD_BITS
    requires NextCursor(v, a) == Zeros(WORD_BITS) || Passed(w, NextCursor(v, a))
    ensures Passed(w, v) || w[..a] == v[..a]
  {
    hide Val, Reverse, NextCursor;
    var n := NextCursor(v, a);
    NextCursorSplits(v, a);
    PrefixOrder(w, n, a);
    PrefixOrder(w, v, a);
    if n == Zeros(WORD_BITS) {
      assert n[..a] == Zeros(a);
      ZerosAreFirst(a);
    } else if RevVal(w[..a]) == RevVal(n[..a]) {
      RevValInjective(w[..a], n[..a]);
      assert w == n[..a] + w[a..] && n == n[..a] + Zeros(WORD_BITS - a);
      RevValConcat(n[..a], w[a..]);
      RevValConcat(n[..a], Zeros(WORD_BITS - a));
      ZerosAreFirst(WORD_BITS - a);
    }
    if RevVal(w[..a]) == RevVal(v[..a]) {
      RevValInjective(w[..a], v[..a]);
    }
  }

  lemma {:induction false} ZerosAreFirst(n: nat)
    ensures RevVal(Zeros(n)) == 0
  {
    assert Reverse(Zeros(n)) == Zeros(n);
    ValZeros(n);
  }

  // ----- one call -----

  /** The do-while over the expansions of the cursor in the larger table. */
  function Walk<K, V>(t: Table<K, V>, v: Word, a: nat): (r: (Chain<K, V>, Word))
    requires Shaped(t) && !t.IsNull() && a <= t.exp
    ensures r.1[..a] == v[..a]
    decreases Pow2(t.exp - a) - Val(v[a..t.exp])
  {
    var c := t.buckets[Index(v, t.exp)];
    var v' := Bump(v, a);
    BumpDiff(v, a, t.exp);
    DiffBitsZero(v', a, t.exp);
    if Val(DiffBits(v', a, t.exp)) == 0 then (c, v')
    else
      var rest := Walk(t, v', a);
      (c + rest.0, rest.1)
  }

  /** The bucket of hash w in the larger table is among the expansions walked from v. */
  predicate Walked(w: Word, v: Word, a: nat, b: nat)
    requires a <= b <= WORD_BITS
  {
    w[..a] == v[..a] && Val(w[a..b]) >= Val(v[a..b])
  }

  lemma {:induction false} WalkEmits<K(!new), V(!new)>(h: Hash<K>, t: Table<K, V>, v: Word, a: nat, e: Entry<K, V>)
    requires TableOk(h, t) && !t.IsNull() && a <= t.exp
    ensures e in Walk(t, v, a).0 <==> Holds(h, t, e) && Walked(h(e.key), v, a, t.exp)
    decreases Pow2(t.exp - a) - Val(v[a..t.exp])
  {
    var w, b := h(e.key), t.exp;
    var v' := Bump(v, a);
    BumpDiff(v, a, b);
    DiffBitsZero(v', a, b);
    SameBucket(w, v, a, b);
    HoldsAt(h, t, Index(v, b), e);
    assert Slot(h, t, e.key) == Index(w, b);
    hide TableOk, Holds, Val, Bump, Slot, Index;
    if Val(DiffBits(v', a, b)) != 0 {
      WalkEmits(h, t, v', a, e);
    }
  }

  /** Same bucket under a b-bit mask: same a low bits, and the same number in the bits above them. */
  lemma {:induction false} SameBucket(w: Word, v: Word, a: nat, b: nat)
    requires a <= b <= WORD_BITS
    ensures Index(w, b) == Index(v, b) <==> w[..a] == v[..a] && Val(w[a..b]) == Val(v[a..b])
  {
    IndexIsPrefix(w, b);
    IndexIsPrefix(v, b);
    hide Val, Pow2;
    assert v[..b] == v[..a] + v[a..b] && w[..b] == w[..a] + w[a..b];
    if Val(w[..b]) == Val(v[..b]) {
      ValInjective(w[..b], v[..b]);
      assert w[..a] == w[..b][..a] && v[..a] == v[..b][..a];
      assert w[a..b] == w[..b][a..] && v[a..b] == v[..b][a..];
    } else if w[..a] == v[..a] && Val(w[a..b]) == Val(v[a..b]) {
      ValInjective(w[a..b], v[a..b]);
    }
  }

  /** The smaller and the larger of the two tables. */
  function Smaller<K, V>(s: State<K, V>): Table<K, V> {
    if s.Rehashing() && s.ht0.Size() > s.ht1.Size() then s.ht1 else s.ht0
  }

  function Larger<K, V>(s: State<K, V>): Table<K, V> {
    if s.Rehashing() && s.ht0.Size() > s.ht1.Size() then s.ht0 else s.ht1
  }

  lemma {:induction false} Pow2Grows(m: nat, n: nat)
    ensures m < n ==> Pow2(m) < Pow2(n)
  {
    if m < n {
      Pow2Add(m, n - m);
      assert Pow2(n - m) >= 2;
      MulAtLeast(Pow2(m), Pow2(n - m) - 1);
      assert Pow2(m) * Pow2(n - m) == Pow2(m) + Pow2(m) * (Pow2(n - m) - 1);
    }
  }

  lemma {:induction false} SmallerExp<K(!new), V(!new)>(h: Hash<K>, s: State<K, V>)
    requires Ok(h, s) && s.Rehashing()
    ensures Smaller(s).exp <= Larger(s).exp
  {
    Pow2Grows(s.ht0.exp, s.ht1.exp);
    Pow2Grows(s.ht1.exp, s.ht0.exp);
  }

  lemma {:induction false} NotNull<K(!new), V(!new)>(h: Hash<K>, s: State<K, V>)
    requires Ok(h, s) && s.Used() != 0
    ensures !s.ht0.IsNull()
  {
  }

  /** dictScan: the entries handed to the callback and the cursor returned. */
  ghost function Scan<K(!new), V(!new)>(h: Hash<K>, s: State<K, V>, v: Word): (r: (Chain<K, V>, Word))
    requires Ok(h, s)
  {
    if s.Used() == 0 then ([], Zeros(WORD_BITS))
    else if !s.Rehashing() then
      NotNull(h, s);
      (s.ht0.buckets[Index(v, s.ht0.exp)], NextCursor(v, s.ht0.exp))
    else
      SmallerExp(h, s);
      var t0, t1 := Smaller(s), Larger(s);
      var w := Walk(t1, v, t0.exp);
      (t0.buckets[Index(v, t0.exp)] + w.0, NextCursor(w.1, t0.exp))
  }

  /** The cursor bits between the two masks are a block of ones starting at the smaller mask. */
  predicate BlockOfOnes(d: Bits) {
    exists m :: 0 <= m <= |d| && d == Ones(m) + Zeros(|d| - m)
  }

  /** Nothing is skipped by a call made with cursor v while s is being rehashed. */
  predicate Clean<K, V>(s: State<K, V>, v: Word) {
    s.Rehashing() ==>
      var a, b := Smaller(s).exp, Larger(s).exp;
      a <= b <= WORD_BITS && BlockOfOnes(v[a..b])
  }

  // ----- which cursors skip nothing -----

  lemma {:induction false} FirstDifference(x: Bits, y: Bits, i: nat)
    requires |x| == |y| && i < |x| && x[..i] == y[..i] && !x[i] && y[i]
    ensures RevVal(x) < RevVal(y)
  {
    hide Val;
    assert x == x[..i] + ([false] + x[i + 1..]) && y == x[..i] + ([true] + y[i + 1..]);
    RevValConcat(x[..i], [false] + x[i + 1..]);
    RevValConcat(x[..i], [true] + y[i + 1..]);
    RevValConcat([false], x[i + 1..]);
    RevValConcat([true], y[i + 1..]);
    assert Reverse([false]) == [false] && Reverse([true]) == [true];
    assert Val([false]) == 0 && Val([true]) == 1 by { ValOfOneBit(); }
  }

  lemma {:induction false} ValOfOneBit()
    ensures Val([false]) == 0 && Val([true]) == 1
  {
  }

  lemma {:induction false} FirstFalse(d: Bits) returns (i: nat)
    requires d != Ones(|d|)
    ensures i < |d| && !d[i] && d[..i] == Ones(i)
  {
    if d[0] {
      assert d == [true] + d[1..] && Ones(|d|) == [true] + Ones(|d| - 1);
      var j := FirstFalse(d[1..]);
      i := j + 1;
      assert d[..i] == [d[0]] + d[1..][..j];
    } else {
      i := 0;
    }
  }

  lemma {:induction false} ValOfBlock(m: nat, k: nat)
    ensures Val(Ones(m) + Zeros(k)) == Val(Ones(m))
  {
    ValConcat(Ones(m), Zeros(k));
    ValZeros(k);
  }

  lemma {:induction false} ValOfPrefix(d: Bits, m: nat)
    requires m <= |d|
    ensures Val(d) >= Val(d[..m])
  {
    assert d == d[..m] + d[m..];
    ValConcat(d[..m], d[m..]);
    MulNonNegative(Pow2(m), Val(d[m..]));
  }

  /** With a block of ones, every smaller expansion was passed before. */
  lemma {:induction false} BlockSkipsOnlyPassed(c: Bits, d: Bits)
    requires |c| == |d| && BlockOfOnes(c) && Val(d) < Val(c)
    ensures RevVal(d) < RevVal(c)
  {
    var m :| 0 <= m <= |c| && c == Ones(m) + Zeros(|c| - m);
    ValOfBlock(m, |c| - m);
    ValOfPrefix(d, m);
    var i := FirstFalse(d[..m]);
    assert d[..i] == d[..m][..i] == Ones(i) == c[..i];
    FirstDifference(d, c, i);
  }

  lemma {:induction false} HighestOne(c: Bits) returns (j: nat)
    requires Val(c) != 0
    ensures j < |c| && c[j] && c[j + 1..] == Zeros(|c| - j - 1) && Val(c) >= Pow2(j)
  {
    var n := |c| - 1;
    if c[n] {
      j := n;
    } else {
      assert c == c[..n] + [false];
      ValConcat(c[..n], [false]);
      j := HighestOne(c[..n]);
      assert c[j + 1..] == c[..n][j + 1..] + [false];
    }
    assert c == c[..j] + ([true] + c[j + 1..]);
    ValConcat(c[..j], [true] + c[j + 1..]);
    MulAtLeast(Pow2(j), Val([true] + c[j + 1..]));
  }

  lemma {:induction false} ZeroIsBlock(c: Bits)
    ensures Val(c) == 0 ==> BlockOfOnes(c)
  {
    if Val(c) == 0 {
      ValZeroIsZeros(c);
      assert c == Ones(0) + Zeros(|c|);
    }
  }

  lemma {:induction false} OnesBelowIsBlock(c: Bits, j: nat)
    requires j < |c| && c[j] && c[j + 1..] == Zeros(|c| - j - 1)
    ensures c[..j] == Ones(j) ==> BlockOfOnes(c)
  {
    if c[..j] == Ones(j) {
      assert c == c[..j] + [c[j]] + c[j + 1..];
      assert c == Ones(j + 1) + Zeros(|c| - (j + 1));
    }
  }

  /** Without one, some expansion still ahead in scan order is skipped. */
  lemma {:induction false} OtherwiseSkips(c: Bits) returns (d: Bits)
    requires !BlockOfOnes(c)
    ensures |d| == |c| && Val(d) < Val(c) && RevVal(c) < RevVal(d)
  {
    ZeroIsBlock(c);
    var j := HighestOne(c);
    d := Ones(j) + Zeros(|c| - j);
    ValOfBlock(j, |c| - j);
    ValOnes(j);
    OnesBelowIsBlock(c, j);
    var i := FirstFalse(c[..j]);
    assert c[..i] == c[..j][..i] == Ones(i) == d[..i];
    FirstDifference(c, d, i);
  }

  lemma {:induction false} SplitOrder(w: Word, v: Word, a: nat, b: nat)
    requires a <= b <= WORD_BITS && w[..a] == v[..a]
    ensures RevVal(w[a..b]) < RevVal(v[a..b]) ==> Passed(w, v)
    ensures RevVal(w[a..b]) > RevVal(v[a..b]) ==> !Passed(w, v)
  {
    PrefixOrder(w, v, b);
    assert w[..b] == w[..a] + w[a..b] && v[..b] == v[..a] + v[a..b];
    RevValConcat(w[..a], w[a..b]);
    RevValConcat(v[..a], v[a..b]);
  }

  /** A mid-rehash call walks every expansion not passed before iff the differing cursor bits are a block of ones. */
  lemma {:induction false} WalkSkipsNothingIff(v: Word, a: nat, b: nat)
    requires a <= b <= WORD_BITS
    ensures BlockOfOnes(v[a..b]) <==>
            forall w: Word :: w[..a] == v[..a] && !Passed(w, v) ==> Walked(w, v, a, b)
  {
    if BlockOfOnes(v[a..b]) {
      forall w: Word | w[..a] == v[..a] && !Passed(w, v) ensures Walked(w, v, a, b) {
        if Val(w[a..b]) < Val(v[a..b]) {
          BlockSkipsOnlyPassed(v[a..b], w[a..b]);
          SplitOrder(w, v, a, b);
        }
      }
    } else {
      var d := OtherwiseSkips(v[a..b]);
      var w: Word := v[..a] + d + v[b..];
      assert w[..a] == v[..a] && w[a..b] == d;
      SplitOrder(w, v, a, b);
      assert !Walked(w, v, a, b);
    }
  }

  /** Tables of 4 and 16 buckets, cursor 1010: bucket 0110 is neither passed nor walked, yet the cursor moves beyond it. */
  lemma {:induction false} ShrunkTableSkips()
    ensures var v: Word, w: Word := [false, true, false, true] + Zeros(60), [false, true, true, false] + Zeros(60);
            && !BlockOfOnes(v[2..4]) && w[..2] == v[..2]
            && !Passed(w, v) && !Walked(w, v, 2, 4) && Passed(w, NextCursor(v, 2))
  {
    var v: Word, w: Word := [false, true, false, true] + Zeros(60), [false, true, true, false] + Zeros(60);
    var lo, hi := [true, false], [false, true];
    assert lo[1..] == [false] && hi[1..] == [true] && Val(lo) == 1 && Val(hi) == 2;
    assert w[..2] == v[..2] == hi && v[2..4] == hi && w[2..4] == lo;
    assert Reverse(hi) == lo && Reverse(lo) == hi;
    assert forall m :: 0 <= m <= 2 ==> hi != Ones(m) + Zeros(2 - m);
    SplitOrder(w, v, 2, 4);
    NextCursorSplits(v, 2);
    PrefixOrder(w, NextCursor(v, 2), 2);
  }

  /** A key whose hash the frontier crosses during a call is emitted by that call. */
  lemma {:induction false} CallEmitsCrossed<K(!new), V(!new)>(h: Hash<K>, s: State<K, V>, v: Word, e: Entry<K, V>)
    requires Ok(h, s) && Held(h, s, e) && Clean(s, v) && !Passed(h(e.key), v)
    requires Scan(h, s, v).1 == Zeros(WORD_BITS) || Passed(h(e.key), Scan(h, s, v).1)
    ensures e in Scan(h, s, v).0
  {
    UsedCountsEntries(h, s, e);
    NotNull(h, s);
    NullTableOk<K, V>(h);
    hide Placed, Holds, Walk, NextCursor, Passed, Total, Index;
    var w := h(e.key);
    if s.Rehashing() {
      SmallerExp(h, s);
      var t0, t1 := Smaller(s), Larger(s);
      SameNextCursor(Walk(t1, v, t0.exp).1, v, t0.exp);
      FrontierMoves(w, v, t0.exp);
      WalkSkipsNothingIff(v, t0.exp, t1.exp);
      assert Walked(w, v, t0.exp, t1.exp);
      WalkEmits(h, t1, v, t0.exp, e);
      if Holds(h, t0, e) { EmitsBucket(h, t0, v, e); }
    } else {
      FrontierMoves(w, v, s.ht0.exp);
      EmitsBucket(h, s.ht0, v, e);
    }
  }

  lemma {:induction false} UsedCountsEntries<K(!new), V(!new)>(h: Hash<K>, s: State<K, V>, e: Entry<K, V>)
    requires Ok(h, s) && Held(h, s, e)
    ensures s.Used() != 0
  {
    hide TableOk, Holds;
    if s.ht0.used == 0 { UnusedHoldsNothing(h, s.ht0); }
    if s.ht1.used == 0 { UnusedHoldsNothing(h, s.ht1); }
  }

  /** An entry of the bucket at the cursor. */
  lemma {:induction false} EmitsBucket<K(!new), V(!new)>(h: Hash<K>, t: Table<K, V>, v: Word, e: Entry<K, V>)
    requires TableOk(h, t) && !t.IsNull() && Holds(h, t, e) && h(e.key)[..t.exp] == v[..t.exp]
    ensures Index(v, t.exp) < t.Size() && e in t.buckets[Index(v, t.exp)]
  {
    IndexIsPrefix(v, t.exp);
    IndexIsPrefix(h(e.key), t.exp);
    hide Val;
  }

  lemma {:induction false} SameNextCursor(u: Word, v: Word, a: nat)
    requires a <= WORD_BITS && u[..a] == v[..a]
    ensures NextCursor(u, a) == NextCursor(v, a)
  {
    NextCursorSplits(u, a);
    NextCursorSplits(v, a);
  }

  // ----- whole scans -----

  /** A scan: before each call the dictionary may be in any consistent state. */
  ghost predicate IsScan<K(!new), V(!new)>(h: Hash<K>, states: seq<State<K, V>>, cursors: seq<Word>) {
    && |cursors| == |states| + 1
    && cursors[0] == Zeros(WORD_BITS)
    && (forall i :: 0 <= i < |states| ==> Ok(h, states[i]))
    && (forall i :: 0 <= i < |states| ==> cursors[i + 1] == Scan(h, states[i], cursors[i]).1)
  }

  ghost predicate EmittedBefore<K(!new), V(!new)>(h: Hash<K>, states: seq<State<K, V>>, cursors: seq<Word>, k: K, n: nat)
    requires IsScan(h, states, cursors) && n <= |states|
  {
    exists i, e :: 0 <= i < n && e in Scan(h, states[i], cursors[i]).0 && e.key == k
  }

  lemma {:induction false} PassedMeansEmitted<K(!new), V(!new)>(h: Hash<K>, states: seq<State<K, V>>, cursors: seq<Word>, k: K, n: nat)
    requires IsScan(h, states, cursors) && n <= |states|
    requires forall i :: 0 <= i < |states| ==> Search(h, states[i], k).Some? && Clean(states[i], cursors[i])
    ensures Passed(h(k), cursors[n]) || (n > 0 && cursors[n] == Zeros(WORD_BITS)) ==> EmittedBefore(h, states, cursors, k, n)
  {
    if n == 0 {
      assert Reverse(Zeros(WORD_BITS)) == Zeros(WORD_BITS);
      ValZeros(WORD_BITS);
    } else {
      PassedMeansEmitted(h, states, cursors, k, n - 1);
      var s, v := states[n - 1], cursors[n - 1];
      if (Passed(h(k), cursors[n]) || cursors[n] == Zeros(WORD_BITS)) && !Passed(h(k), v) {
        var e := Search(h, s, k).value;
        SearchFinds(h, s, e);
        CallEmitsCrossed(h, s, v, e);
      }
    }
  }

  /** A key present at every call of a complete scan is emitted. */
  lemma {:induction false} ScanIsComplete<K(!new), V(!new)>(h: Hash<K>, states: seq<State<K, V>>, cursors: seq<Word>, k: K)
    requires IsScan(h, states, cursors) && states != [] && cursors[|states|] == Zeros(WORD_BITS)
    requires forall i :: 0 <= i < |states| ==> Search(h, states[i], k).Some? && Clean(states[i], cursors[i])
    ensures exists i, e :: 0 <= i < |states| && e in Scan(h, states[i], cursors[i]).0 && e.key == k
  {
    PassedMeansEmitted(h, states, cursors, k, |states|);
  }

  /** The exponent of the table whose mask a call counts in. */
  function ScanExp<K, V>(s: State<K, V>): nat { Smaller(s).exp }

  lemma {:induction false} CursorFitsMask<K(!new), V(!new)>(h: Hash<K>, s: State<K, V>, v: Word)
    requires Ok(h, s)
    ensures var a := ScanExp(s); Scan(h, s, v).1[a..] == Zeros(WORD_BITS - a)
  {
    var a := ScanExp(s);
    assert Zeros(WORD_BITS)[a..] == Zeros(WORD_BITS - a);
    if s.Used() != 0 {
      if s.Rehashing() {
        SmallerExp(h, s);
        NextCursorSplits(Walk(Larger(s), v, a).1, a);
      } else {
        NextCursorSplits(v, a);
      }
    }
  }

  /** While the smaller mask never shrinks between calls, every cursor is clean. */
  lemma {:induction false} GrowingTablesAreClean<K(!new), V(!new)>(h: Hash<K>, states: seq<State<K, V>>, cursors: seq<Word>, n: nat)
    requires IsScan(h, states, cursors) && n < |states|
    requires forall i :: 0 < i < |states| ==> ScanExp(states[i - 1]) <= ScanExp(states[i])
    ensures Clean(states[n], cursors[n])
  {
    var s, v := states[n], cursors[n];
    if s.Rehashing() {
      SmallerExp(h, s);
      var a, b := Smaller(s).exp, Larger(s).exp;
      if n != 0 {
        CursorFitsMask(h, states[n - 1], cursors[n - 1]);
        var p := ScanExp(states[n - 1]);
        assert v[a..b] == v[p..][a - p..b - p];
      }
      assert v[a..b] == Ones(0) + Zeros(b - a);
    }
  }

  /** A key present throughout a scan of tables whose smaller mask never shrinks is emitted. */
  lemma {:induction false} ScanIsCompleteWithoutShrinking<K(!new), V(!new)>(h: Hash<K>, states: seq<State<K, V>>, cursors: seq<Word>, k: K)
    requires IsScan(h, states, cursors) && states != [] && cursors[|states|] == Zeros(WORD_BITS)
    requires forall i :: 0 <= i < |states| ==> Search(h, states[i], k).Some?
    requires forall i :: 0 < i < |states| ==> ScanExp(states[i - 1]) <= ScanExp(states[i])
    ensures exists i, e :: 0 <= i < |states| && e in Scan(h, states[i], cursors[i]).0 && e.key == k
  {
    forall i | 0 <= i < |states| ensures Clean(states[i], cursors[i]) {
      GrowingTablesAreClean(h, states, cursors, i);
    }
    ScanIsComplete(h, states, cursors, k);
  }

  // ----- an unchanging table -----

  /** The cursor after n calls on a table of 2^a buckets. */
  function CursorAfter(a: nat, n: nat): Word
    requires a <= WORD_BITS
  {
    if n == 0 then Zeros(WORD_BITS) else NextCursor(CursorAfter(a, n - 1), a)
  }

  lemma {:induction false} CursorCounts(a: nat, n: nat)
    requires a <= WORD_BITS && n < Pow2(a)
    ensures RevVal(CursorAfter(a, n)[..a]) == n
  {
    hide NextCursor, RevVal;
    if n == 0 {
      RevValZeros(a);
    } else {
      CursorCounts(a, n - 1);
      NextCursorSplits(CursorAfter(a, n - 1), a);
    }
  }

  lemma {:induction false} RevValZeros(a: nat)
    requires a <= WORD_BITS
    ensures RevVal(Zeros(WORD_BITS)[..a]) == 0
  {
    assert Zeros(WORD_BITS)[..a] == Zeros(a) == Reverse(Zeros(a));
    ValZeros(a);
  }

  lemma {:induction false} WrapsToZero(a: nat)
    requires a <= WORD_BITS
    ensures CursorAfter(a, Pow2(a)) == Zeros(WORD_BITS)
  {
    hide NextCursor, RevVal;
    CursorCounts(a, Pow2(a) - 1);
    NextCursorSplits(CursorAfter(a, Pow2(a) - 1), a);
    var x := CursorAfter(a, Pow2(a));
    RevValZeros(a);
    RevValInjective(x[..a], Zeros(WORD_BITS)[..a]);
    assert x == x[..a] + x[a..];
  }

  /** Bucket b is the one visited by the nth call. */
  predicate VisitedBy(a: nat, n: nat, b: nat)
    requires a <= WORD_BITS
  {
    Index(CursorAfter(a, n), a) == b
  }

  /** The call that visits bucket b: its index with the bits reversed. */
  function VisitTime(a: nat, b: nat): (n: nat)
    requires b < Pow2(a)
    ensures n < Pow2(a)
  {
    RevVal(BitsOf(b, a))
  }

  lemma {:induction false} VisitedAtItsTime(a: nat, n: nat, b: nat)
    requires a <= WORD_BITS && n < Pow2(a) && b < Pow2(a)
    ensures VisitedBy(a, n, b) <==> n == VisitTime(a, b)
  {
    ValBitsOf(b, a);
    CursorCounts(a, n);
    IndexIsPrefix(CursorAfter(a, n), a);
    hide Val, CursorAfter, BitsOf;
    var p := CursorAfter(a, n)[..a];
    if n == VisitTime(a, b) {
      RevValInjective(p, BitsOf(b, a));
    } else if VisitedBy(a, n, b) {
      ValInjective(p, BitsOf(b, a));
    }
  }

  /** An unchanging table of 2^a buckets is scanned in exactly 2^a calls, each bucket in exactly one of them. */
  lemma {:induction false} StaticScan(a: nat)
    requires a <= WORD_BITS
    ensures CursorAfter(a, Pow2(a)) == Zeros(WORD_BITS)
    ensures forall n :: 0 < n < Pow2(a) ==> CursorAfter(a, n) != Zeros(WORD_BITS)
    ensures forall n, b :: 0 <= n < Pow2(a) && 0 <= b < Pow2(a) ==> (VisitedBy(a, n, b) <==> n == VisitTime(a, b))
  {
    WrapsToZero(a);
    forall n | 0 < n < Pow2(a) ensures CursorAfter(a, n) != Zeros(WORD_BITS) {
      CursorCounts(a, n);
      RevValZeros(a);
    }
    forall n, b | 0 <= n < Pow2(a) && 0 <= b < Pow2(a) ensures VisitedBy(a, n, b) <==> n == VisitTime(a, b) {
      VisitedAtItsTime(a, n, b);
    }
  }

  /** On an unchanging table that is not being rehashed, call n is made with that cursor. */
  lemma {:induction false} StaticCalls<K(!new), V(!new)>(h: Hash<K>, states: seq<State<K, V>>, cursors: seq<Word>, n: nat)
    requires IsScan(h, states, cursors) && n < |cursors| && states != []
    requires forall i :: 0 <= i < |states| ==> states[i] == states[0]
    requires !states[0].Rehashing() && states[0].Used() != 0
    ensures cursors[n] == CursorAfter(states[0].ht0.exp, n)
    ensures n < |states| ==> Scan(h, states[n], cursors[n]).0 == states[0].ht0.buckets[Index(cursors[n], states[0].ht0.exp)]
  {
    NotNull(h, states[0]);
    if n != 0 { StaticCalls(h, states, cursors, n - 1); }
  }

  // ----- the call as it is coded -----

  /** dictScan on the buckets: emits at the cursor, walks the expansions, then advances the reversed cursor. */
  method ScanCall<K(!new), V(!new)>(ghost h: Hash<K>, s: State<K, V>, cursor: Word) returns (emitted: Chain<K, V>, v: Word)
    requires Ok(h, s)
    ensures (emitted, v) == Scan(h, s, cursor)
  {
    emitted, v := [], cursor;
    if s.Used() == 0 {
      v := Zeros(WORD_BITS);
      return;
    }
    var a: nat := s.ht0.exp;
    if !s.Rehashing() {
      NotNull(h, s);
      emitted := s.ht0.buckets[Index(v, a)];
    } else {
      SmallerExp(h, s);
      var t0, t1 := Smaller(s), Larger(s);
      a := t0.exp;
      emitted := t0.buckets[Index(v, a)];
      ghost var first := emitted;
      ghost var all := Walk(t1, cursor, a);
      var more := true;
      while more
        invariant if more then first + all.0 == emitted + Walk(t1, v, a).0 && Walk(t1, v, a).1 == all.1
                  else first + all.0 == emitted && v == all.1
        decreases more, Pow2(t1.exp - a) - Val(v[a..t1.exp])
      {
        var c := t1.buckets[Index(v, t1.exp)];
        BumpDiff(v, a, t1.exp);
        DiffBitsZero(Bump(v, a), a, t1.exp);
        emitted := emitted + c;
        v := Bump(v, a);
        more := Val(DiffBits(v, a, t1.exp)) != 0;
      }
    }
    v := Or(v, Not(Mask(a)));
    v := Rev(v);
    v := Inc(v);
    v := Rev(v);
  }
}
