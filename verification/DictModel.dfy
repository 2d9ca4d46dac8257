/**
 The incrementally rehashed dictionary as a value: two tables, the rehash
 position and the number of running iterators. Resizing and rehashing are
 functions on that value that keep every entry.
 */
module DictModel {
  import opened Words
  import opened Wrappers
  import opened Tables

  const INITIAL_EXP := 2           // DICT_HT_INITIAL_SIZE is 4
  const FORCE_RESIZE_RATIO := 5    // dict_force_resize_ratio

  /** Sizes at or above LONG_MAX are not rounded to a power of two; tables never get there. */
  function LongMax(): (m: nat)
    ensures 4 < m < Pow2(WORD_BITS - 1)
  {
    Pow2Add(3, WORD_BITS - 4);
    assert Pow2(3) == 8;
    Pow2(WORD_BITS - 1) - 1
  }

  /** dict: nextAddr is the next unused entry address. */
  datatype State<K, V> = State(ht0: Table<K, V>, ht1: Table<K, V>, rehashidx: int, iterators: nat, nextAddr: nat) {
    predicate Rehashing() { rehashidx != -1 }
    function Used(): nat { ht0.used + ht1.used }
  }

  function Create<K, V>(): State<K, V> { State(NullTable(), NullTable(), -1, 0, 0) }

  ghost predicate Held<K(!new), V(!new)>(h: Hash<K>, s: State<K, V>, e: Entry<K, V>) {
    Holds(h, s.ht0, e) || Holds(h, s.ht1, e)
  }

  ghost predicate RehashOk<K(!new), V(!new)>(h: Hash<K>, s: State<K, V>) {
    if s.rehashidx == -1 then s.ht1 == NullTable()
    else
      && 0 <= s.rehashidx <= s.ht0.Size() && !s.ht0.IsNull() && !s.ht1.IsNull()
      && (forall i :: 0 <= i < s.rehashidx ==> s.ht0.buckets[i] == [])
      && (forall e0, e1 :: Holds(h, s.ht0, e0) && Holds(h, s.ht1, e1) ==> e0.key != e1.key)
  }

  ghost predicate Ok<K(!new), V(!new)>(h: Hash<K>, s: State<K, V>) {
    TableOk(h, s.ht0) && TableOk(h, s.ht1) && RehashOk(h, s)
  }

  /** The entry a search meets first: table 0, then table 1. */
  function Search<K(==), V>(h: Hash<K>, s: State<K, V>, k: K): (r: Option<Entry<K, V>>)
    ensures r.Some? ==> r.value.key == k
  {
    var r0 := FindChain(Bucket(h, s.ht0, k), k);
    if r0.Some? then r0 else FindChain(Bucket(h, s.ht1, k), k)
  }

  lemma {:induction false} SearchFinds<K(!new), V(!new)>(h: Hash<K>, s: State<K, V>, e: Entry<K, V>)
    requires Ok(h, s)
    ensures Held(h, s, e) <==> Search(h, s, e.key) == Some(e)
  {
    HoldsIsFound(h, s.ht0, e);
    HoldsIsFound(h, s.ht1, e);
    NullTableOk<K, V>(h);
    var r0 := FindChain(Bucket(h, s.ht0, e.key), e.key);
    if r0.Some? { HoldsIsFound(h, s.ht0, r0.value); }
  }

  /** The same entries are held by both states, so both are the same map. */
  ghost predicate SameEntries<K(!new), V(!new)>(h: Hash<K>, s: State<K, V>, s': State<K, V>) {
    forall e :: Held(h, s, e) <==> Held(h, s', e)
  }

  lemma {:induction false} CreateOk<K(!new), V(!new)>(h: Hash<K>)
    ensures Ok<K, V>(h, Create())
    ensures forall e :: !Held<K, V>(h, Create(), e)
  {
    NullTableOk<K, V>(h);
  }

  // ----- resizing -----

  /** The exponent of the first power of two from 2^e on that is at least size. */
  function NextExp(size: nat, e: nat): (r: nat)
    requires e < WORD_BITS && size < LongMax()
    ensures e <= r < WORD_BITS && Pow2(r) >= size
    ensures r == e || Pow2(r - 1) < size
    decreases WORD_BITS - e
  {
    if Pow2(e) >= size then e
    else
      assert e != WORD_BITS - 1;
      NextExp(size, e + 1)
  }

  /** dictExpand; the flag is DICT_OK. */
  function Expand<K, V>(s: State<K, V>, size: nat): (r: (State<K, V>, bool))
    requires size < LongMax()
  {
    var n := FreshTable<K, V>(NextExp(size, INITIAL_EXP));
    if s.Rehashing() || s.ht0.used > size then (s, false)
    else if n.Size() == s.ht0.Size() then (s, false)
    else if s.ht0.IsNull() then (s.(ht0 := n), true)
    else (s.(ht1 := n, rehashidx := 0), true)
  }

  lemma {:induction false} ExpandOk<K(!new), V(!new)>(h: Hash<K>, s: State<K, V>, size: nat)
    requires Ok(h, s) && size < LongMax()
    ensures Ok(h, Expand(s, size).0) && SameEntries(h, s, Expand(s, size).0)
  {
    FreshTableOk<K, V>(h, NextExp(size, INITIAL_EXP));
    NullTableOk<K, V>(h);
    if s.ht0.IsNull() && s.rehashidx == -1 { NullHoldsNothing(h, s.ht0); }
    hide TableOk, Holds, FreshTable;
  }

  lemma {:induction false} NullHoldsNothing<K(!new), V(!new)>(h: Hash<K>, t: Table<K, V>)
    requires t.IsNull()
    ensures forall x :: !Holds(h, t, x)
  {
  }

  /** _dictExpandIfNeeded. */
  function ExpandIfNeeded<K, V>(s: State<K, V>, canResize: bool): (r: (State<K, V>, bool))
    requires 2 * s.ht0.used < LongMax()
  {
    if s.Rehashing() then (s, true)
    else if s.ht0.IsNull() then Expand(s, 4)
    else if s.ht0.used >= s.ht0.Size() && (canResize || s.ht0.used / s.ht0.Size() > FORCE_RESIZE_RATIO) then
      Expand(s, s.ht0.used * 2)
    else (s, true)
  }

  /** The expansion an insertion may start never fails, and keeps the map. */
  lemma {:induction false} ExpandIfNeededOk<K(!new), V(!new)>(h: Hash<K>, s: State<K, V>, canResize: bool)
    requires Ok(h, s) && 2 * s.ht0.used < LongMax()
    ensures ExpandIfNeeded(s, canResize).1
    ensures var s' := ExpandIfNeeded(s, canResize).0;
            Ok(h, s') && SameEntries(h, s, s') && !s'.ht0.IsNull()
    ensures s.rehashidx != -1 ==> ExpandIfNeeded(s, canResize).0 == s
  {
    if s.rehashidx == -1 {
      ExpandOk(h, s, 4);
      ExpandOk(h, s, s.ht0.used * 2);
      assert s.ht0.IsNull() ==> s.ht0.used == 0;
    }
    hide Holds, Placed, Total;
  }

  // ----- incremental rehashing -----

  /** Relink the entries of a chain one by one. */
  function MoveChain<K, V>(h: Hash<K>, t: Table<K, V>, c: Chain<K, V>): (r: Table<K, V>)
    ensures r.exp == t.exp && r.Size() == t.Size() && r.used == t.used + |c|
    decreases |c|
  {
    if c == [] then t else MoveChain(h, PushEntry(h, t, c[0]), c[1..])
  }

  lemma {:induction false} MoveChainOk<K(!new), V(!new)>(h: Hash<K>, t: Table<K, V>, c: Chain<K, V>)
    requires TableOk(h, t) && !t.IsNull() && DistinctKeys(c)
    requires forall e, x :: e in c && Holds(h, t, x) ==> e.key != x.key
    ensures TableOk(h, MoveChain(h, t, c))
    ensures forall x :: Holds(h, MoveChain(h, t, c), x) <==> x in c || Holds(h, t, x)
    decreases |c|
  {
    hide TableOk, Holds;
    if c != [] {
      DistinctTail(c);
      hide DistinctKeys;
      PushEntryOk(h, t, c[0]);
      MoveChainOk(h, PushEntry(h, t, c[0]), c[1..]);
    }
  }

  /** Move the whole bucket at rehashidx and step past it. */
  function MoveBucket<K, V>(h: Hash<K>, s: State<K, V>): (r: State<K, V>)
    requires 0 <= s.rehashidx < s.ht0.Size() && s.ht0.used >= |s.ht0.buckets[s.rehashidx]|
  {
    var c := s.ht0.buckets[s.rehashidx];
    s.(ht0 := SetBucket(s.ht0, s.rehashidx, [], s.ht0.used - |c|),
       ht1 := MoveChain(h, s.ht1, c), rehashidx := s.rehashidx + 1)
  }

  lemma {:induction false} MoveBucketOk<K(!new), V(!new)>(h: Hash<K>, s: State<K, V>)
    requires Ok(h, s) && 0 <= s.rehashidx < s.ht0.Size()
    ensures s.ht0.used >= |s.ht0.buckets[s.rehashidx]|
    ensures Ok(h, MoveBucket(h, s)) && SameEntries(h, s, MoveBucket(h, s))
  {
    hide TableOk, Holds, MoveChain;
    var c := s.ht0.buckets[s.rehashidx];
    EmptyBucketOk(h, s.ht0, s.rehashidx);
    MoveChainOk(h, s.ht1, c);
  }

  /** The end of dictRehash: drop table 0 once it is empty. */
  function FinishRehash<K, V>(s: State<K, V>): (r: (State<K, V>, bool)) {
    if s.ht0.used == 0 then (s.(ht0 := s.ht1, ht1 := NullTable(), rehashidx := -1), false) else (s, true)
  }

  lemma {:induction false} FinishRehashOk<K(!new), V(!new)>(h: Hash<K>, s: State<K, V>)
    requires Ok(h, s) && s.Rehashing()
    ensures Ok(h, FinishRehash(s).0) && SameEntries(h, s, FinishRehash(s).0)
  {
    hide TableOk, Holds;
    NullTableOk<K, V>(h);
    if s.ht0.used == 0 { UnusedHoldsNothing(h, s.ht0); }
  }

  /** A non-empty table 0 still has a chain at or after rehashidx. */
  lemma {:induction false} RehashIndexInRange<K(!new), V(!new)>(h: Hash<K>, s: State<K, V>)
    requires Ok(h, s) && s.Rehashing() && s.ht0.used != 0
    ensures s.rehashidx < s.ht0.Size()
  {
    hide Holds, Placed;
    TotalZero(s.ht0.buckets);
  }

  lemma {:induction false} SkipBucketOk<K(!new), V(!new)>(h: Hash<K>, s: State<K, V>)
    requires Ok(h, s) && 0 <= s.rehashidx < s.ht0.Size() && s.ht0.buckets[s.rehashidx] == []
    ensures var s' := s.(rehashidx := s.rehashidx + 1); Ok(h, s') && SameEntries(h, s, s')
  {
    hide TableOk, Holds;
  }

  /** The loop of dictRehash, and its end: n buckets to move, visits empty buckets allowed. */
  ghost function RehashLoop<K(!new), V(!new)>(h: Hash<K>, s: State<K, V>, n: nat, visits: nat): (r: (State<K, V>, bool))
    requires Ok(h, s) && s.Rehashing() && visits > 0
    ensures Ok(h, r.0) && SameEntries(h, s, r.0)
    decreases s.ht0.Size() - s.rehashidx
  {
    hide TableOk, Holds, MoveChain;
    if n == 0 || s.ht0.used == 0 then
      FinishRehashOk(h, s);
      FinishRehash(s)
    else
      RehashIndexInRange(h, s);
      if s.ht0.buckets[s.rehashidx] == [] then
        SkipBucketOk(h, s);
        var s' := s.(rehashidx := s.rehashidx + 1);
        if visits == 1 then (s', true) else RehashLoop(h, s', n, visits - 1)
      else
        MoveBucketOk(h, s);
        RehashLoop(h, MoveBucket(h, s), n - 1, visits)
  }

  /** dictRehash; the flag says keys are left to move. */
  ghost function Rehash<K(!new), V(!new)>(h: Hash<K>, s: State<K, V>, n: nat): (r: (State<K, V>, bool))
    requires Ok(h, s)
    ensures Ok(h, r.0) && SameEntries(h, s, r.0)
  {
    if !s.Rehashing() then (s, false)
    else if n == 0 then FinishRehashOk(h, s); FinishRehash(s)
    else RehashLoop(h, s, n, n * 10)
  }

  /** _dictRehashStep. */
  ghost function RehashStep<K(!new), V(!new)>(h: Hash<K>, s: State<K, V>): (r: State<K, V>)
    requires Ok(h, s)
    ensures Ok(h, r) && SameEntries(h, s, r)
  {
    if s.iterators == 0 then Rehash(h, s, 1).0 else s
  }
}
