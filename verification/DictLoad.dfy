/**
 When the dict grows, how much a rehash call does, and what this means for whole
 runs: the keys never outgrow the buckets by more than one.
 */
module DictLoad {
  import opened Words
  import opened Wrappers
  import opened Tables
  import opened DictModel
  import opened DictMap

  // ----- when a rehash starts -----

  lemma {:induction false} RatioAboveFive(used: nat, size: nat)
    requires size > 0
    ensures used / size > 5 <==> used >= 6 * size
  {
    var q := used / size;
    assert used == size * q + used % size;
    if q >= 6 { TimesAtLeast(size, 6, q); } else { TimesAtLeast(size, q, 5); }
  }

  lemma {:induction false} TimesAtLeast(a: nat, b: nat, c: nat)
    requires b <= c
    ensures a * b <= a * c
  {
    assert a * c == a * b + a * (c - b);
  }

  /** The smallest power of two, from 4 on, that is at least n. */
  ghost predicate SmallestPower(size: nat, n: nat) {
    size >= n && exists e :: 2 <= e && size == Pow2(e) && (e == 2 || Pow2(e - 1) < n)
  }

  /**
   A table that is not being rehashed starts a rehash exactly when it holds at least
   one key per bucket and resizing is allowed, or at least six; the new table has
   the smallest power of two of buckets that is at least twice the keys.
   */
  lemma {:induction false} ExpandStartsIff<K(!new), V(!new)>(h: Hash<K>, s: State<K, V>, canResize: bool)
    requires Ok(h, s) && 2 * s.ht0.used < LongMax() && s.rehashidx == -1 && !s.ht0.IsNull()
    ensures var r, used, size := ExpandIfNeeded(s, canResize).0, s.ht0.used, s.ht0.Size();
            && (r.rehashidx != -1 <==> used >= size && (canResize || used >= 6 * size))
            && (r.rehashidx == -1 ==> r == s)
            && (r.rehashidx != -1 ==> r == s.(ht1 := r.ht1, rehashidx := 0) && r.ht1.used == 0 && SmallestPower(r.ht1.Size(), 2 * used))
  {
    RatioAboveFive(s.ht0.used, s.ht0.Size());
    ExpandIfNeededOk(h, s, canResize);
    var n := 2 * s.ht0.used;
    var e := NextExp(n, 2);
    assert Pow2(e) >= n && (e == 2 || Pow2(e - 1) < n);
    hide Ok, TableOk, Holds, LongMax, Pow2, NextExp;
  }

  /** The first insertion makes a table of four buckets. */
  lemma {:induction false} FirstTable<K(!new), V(!new)>(h: Hash<K>, s: State<K, V>, canResize: bool)
    requires Ok(h, s) && 2 * s.ht0.used < LongMax() && s.rehashidx == -1 && s.ht0.IsNull()
    ensures var r := ExpandIfNeeded(s, canResize).0;
            r == s.(ht0 := r.ht0) && r.ht0.Size() == 4 && r.ht0.used == 0 && s.ht0.used == 0
  {
    ExpandIfNeededOk(h, s, canResize);
    assert Pow2(2) == 4;
    hide Holds, Placed;
  }

  /** A refused dictExpand: a rehash is running, the size is too small, or it is the present one. */
  lemma {:induction false} ExpandRefusesIff<K, V>(s: State<K, V>, size: nat)
    requires size < LongMax()
    ensures !Expand(s, size).1 <==> s.rehashidx != -1 || s.ht0.used > size || s.ht0.Size() == Pow2(NextExp(size, 2))
    ensures !Expand(s, size).1 ==> Expand(s, size).0 == s
  {
  }

  /** Before a key is inserted a rehash is running, or there is room: one key per bucket, or six when resizing is discouraged. */
  lemma {:induction false} PrepareMakesRoom<K(!new), V(!new)>(h: Hash<K>, s: State<K, V>, canResize: bool)
    requires Ok(h, s) && Roomy(s)
    ensures var r := Prepare(h, s, canResize);
            r.rehashidx != -1 || r.ht0.used < (if canResize then 1 else 6) * r.ht0.Size()
  {
    hide Ok, LongMax, ExpandIfNeeded, RehashStep, SmallestPower, Held;
    var s1 := if s.Rehashing() then RehashStep(h, s) else s;
    SameEntriesSameMap(h, s, s1);
    ExpandIfNeededOk(h, s1, canResize);
    if s1.rehashidx == -1 {
      if s1.ht0.IsNull() { FirstTable(h, s1, canResize); } else { ExpandStartsIff(h, s1, canResize); }
    }
  }

  // ----- how much a call of dictRehash does -----

  /** The buckets from a up to b that hold entries, and those that do not. */
  function Filled<K, V>(buckets: seq<Chain<K, V>>, a: nat, b: nat): nat
    decreases b - a
  {
    if a >= b then 0 else (if a < |buckets| && buckets[a] != [] then 1 else 0) + Filled(buckets, a + 1, b)
  }

  function Empty<K, V>(buckets: seq<Chain<K, V>>, a: nat, b: nat): nat
    decreases b - a
  {
    if a >= b then 0 else (if a < |buckets| && buckets[a] == [] then 1 else 0) + Empty(buckets, a + 1, b)
  }

  lemma {:induction false} LoopWork<K(!new), V(!new)>(h: Hash<K>, s: State<K, V>, n: nat, visits: nat, buckets: seq<Chain<K, V>>)
    requires Ok(h, s) && s.Rehashing() && visits > 0 && |buckets| == s.ht0.Size()
    requires forall i :: s.rehashidx <= i < |buckets| ==> s.ht0.buckets[i] == buckets[i]
    ensures var r := RehashLoop(h, s, n, visits).0;
            r.rehashidx != -1 ==>
              && s.rehashidx <= r.rehashidx
              && Filled(buckets, s.rehashidx, r.rehashidx) <= n && Empty(buckets, s.rehashidx, r.rehashidx) <= visits
              && (Filled(buckets, s.rehashidx, r.rehashidx) == n || Empty(buckets, s.rehashidx, r.rehashidx) == visits)
    decreases s.ht0.Size() - s.rehashidx
  {
    hide TableOk, Holds, MoveChain, Held;
    if n != 0 && s.ht0.used != 0 {
      RehashIndexInRange(h, s);
      if s.ht0.buckets[s.rehashidx] == [] {
        SkipBucketOk(h, s);
        var s' := s.(rehashidx := s.rehashidx + 1);
        if visits != 1 { LoopWork(h, s', n, visits - 1, buckets); }
      } else {
        MoveBucketOk(h, s);
        LoopWork(h, MoveBucket(h, s), n - 1, visits, buckets);
      }
    }
  }

  /** A call with n that does not end the rehash moves n chains, or stops earlier after ten times n empty buckets. */
  lemma {:induction false} RehashWork<K(!new), V(!new)>(h: Hash<K>, s: State<K, V>, n: nat)
    requires Ok(h, s) && s.rehashidx != -1 && n > 0
    ensures var r, b, a := Rehash(h, s, n).0, s.ht0.buckets, s.rehashidx;
            r.rehashidx != -1 ==>
              && 0 <= a <= r.rehashidx && Filled(b, a, r.rehashidx) <= n && Empty(b, a, r.rehashidx) <= 10 * n
              && (Filled(b, a, r.rehashidx) == n || Empty(b, a, r.rehashidx) == 10 * n)
  {
    LoopWork(h, s, n, n * 10, s.ht0.buckets);
    hide TableOk, Holds, RehashLoop, Filled, Empty;
  }

  // ----- whole runs -----

  /** No more than one key above the buckets; during a rehash the buckets still to move count as keys. */
  predicate Loaded<K, V>(s: State<K, V>) {
    if s.rehashidx != -1 then s.Used() + (s.ht0.Size() - s.rehashidx) <= s.ht1.Size() + 1 else s.ht0.used <= s.ht0.Size() + 1
  }

  /** The same with room for one key more. */
  predicate HasRoom<K, V>(s: State<K, V>) {
    if s.rehashidx != -1 then s.Used() + (s.ht0.Size() - s.rehashidx) <= s.ht1.Size() else s.ht0.used <= s.ht0.Size()
  }

  lemma {:induction false} LoopSizes<K(!new), V(!new)>(h: Hash<K>, s: State<K, V>, visits: nat)
    requires Ok(h, s) && s.Rehashing() && visits > 0
    ensures var r := RehashLoop(h, s, 1, visits).0;
            if r.rehashidx != -1 then r.ht1.Size() == s.ht1.Size() else r.ht0.Size() == s.ht1.Size() && r.ht1.used == 0
    decreases s.ht0.Size() - s.rehashidx
  {
    hide TableOk, Holds, MoveChain, Held;
    if s.ht0.used != 0 {
      RehashIndexInRange(h, s);
      if s.ht0.buckets[s.rehashidx] == [] {
        SkipBucketOk(h, s);
        if visits != 1 { LoopSizes(h, s.(rehashidx := s.rehashidx + 1), visits - 1); }
      } else {
        MoveBucketOk(h, s);
      }
    }
  }

  /** A rehash step makes room for a key. */
  lemma {:induction false} StepMakesRoom<K(!new), V(!new)>(h: Hash<K>, s: State<K, V>)
    requires Ok(h, s) && Loaded(s) && s.iterators == 0 && s.rehashidx != -1
    ensures var r := RehashStep(h, s);
            && r.iterators == 0 && Loaded(r) && r.Used() == s.Used() && (r.rehashidx != -1 ==> HasRoom(r))
  {
    StepAdvances(h, s, 10);
    LoopSizes(h, s, 10);
    IndexWithin(h, s);
    hide Ok, Held, RehashLoop;
    SameEntriesSameMap(h, s, RehashStep(h, s));
  }

  lemma {:induction false} IndexWithin<K(!new), V(!new)>(h: Hash<K>, s: State<K, V>)
    requires Ok(h, s) && s.rehashidx != -1
    ensures 0 <= s.rehashidx <= s.ht0.Size()
  {
    hide TableOk, Holds;
  }

  lemma {:induction false} NoSecondTable<K(!new), V(!new)>(h: Hash<K>, s: State<K, V>)
    requires Ok(h, s) && s.rehashidx == -1
    ensures s.Used() == s.ht0.used
  {
    hide TableOk, Holds;
  }

  lemma {:induction false} PrepareHasRoom<K(!new), V(!new)>(h: Hash<K>, s: State<K, V>)
    requires Ok(h, s) && Roomy(s) && Loaded(s) && s.iterators == 0
    ensures var r := Prepare(h, s, true); HasRoom(r) && r.iterators == 0
  {
    hide Ok, LongMax, ExpandIfNeeded, RehashStep, Held, Loaded, HasRoom, SmallestPower;
    var s1 := if s.Rehashing() then RehashStep(h, s) else s;
    if s.Rehashing() { StepMakesRoom(h, s); }
    SameEntriesSameMap(h, s, s1);
    ExpandIfNeededOk(h, s1, true);
    if s1.rehashidx == -1 { GrowthHasRoom(h, s1); }
  }

  lemma {:induction false} GrowthHasRoom<K(!new), V(!new)>(h: Hash<K>, s: State<K, V>)
    requires Ok(h, s) && 2 * s.ht0.used < LongMax() && s.rehashidx == -1 && Loaded(s) && s.iterators == 0
    ensures var r := ExpandIfNeeded(s, true).0; HasRoom(r) && r.iterators == 0
  {
    hide Ok, LongMax, ExpandIfNeeded, Pow2;
    NoSecondTable(h, s);
    if s.ht0.IsNull() { FirstTable(h, s, true); } else { ExpandStartsIff(h, s, true); }
  }

  /** What a client does, with resizing allowed. */
  datatype Op<K, V> = Insertion(k: K, v: V) | Lookup(k: K) | Replacement(k: K, v: V) | Removal(k: K)

  ghost function Apply<K(!new), V(!new)>(h: Hash<K>, s: State<K, V>, op: Op<K, V>): (r: State<K, V>)
    requires Ok(h, s) && Roomy(s)
    ensures Ok(h, r)
  {
    match op
    case Insertion(k, v) => Add(h, s, k, v, true).0
    case Lookup(k) => Find(h, s, k).0
    case Replacement(k, v) => Replace(h, s, k, v, true).0
    case Removal(k) => Delete(h, s, k).0
  }

  lemma {:induction false} AddKeepsLoad<K(!new), V(!new)>(h: Hash<K>, s: State<K, V>, k: K, v: V)
    requires Ok(h, s) && Roomy(s) && Loaded(s) && s.iterators == 0
    ensures var r := Add(h, s, k, v, true).0; Loaded(r) && r.iterators == 0
  {
    hide Ok, LongMax, Prepare, Search;
    PrepareHasRoom(h, s);
  }

  lemma {:induction false} FindKeepsLoad<K(!new), V(!new)>(h: Hash<K>, s: State<K, V>, k: K)
    requires Ok(h, s) && Loaded(s) && s.iterators == 0
    ensures var r := Find(h, s, k).0; Loaded(r) && r.iterators == 0
  {
    hide Ok, RehashStep, Search, Loaded, HasRoom;
    if s.Rehashing() { StepMakesRoom(h, s); }
  }

  lemma {:induction false} StoreKeepsLoad<K(!new), V(!new)>(h: Hash<K>, s: State<K, V>, k: K, v: V)
    ensures var r := Store(h, s, k, v); (Loaded(s) ==> Loaded(r)) && r.iterators == s.iterators
  {
    hide Bucket, FindChain;
  }

  lemma {:induction false} ReplaceKeepsLoad<K(!new), V(!new)>(h: Hash<K>, s: State<K, V>, k: K, v: V)
    requires Ok(h, s) && Roomy(s) && Loaded(s) && s.iterators == 0
    ensures var r := Replace(h, s, k, v, true).0; Loaded(r) && r.iterators == 0
  {
    AddKeepsLoad(h, s, k, v);
    hide Ok, LongMax, Add, Find, Search, Store, Contents, Roomy, Loaded;
    var a := Add(h, s, k, v, true);
    if !a.1 {
      AddIsMapInsert(h, s, k, v, true);
      FindIsMapLookup(h, a.0, k);
      FindKeepsLoad(h, a.0, k);
      StoreKeepsLoad(h, Find(h, a.0, k).0, k, v);
    }
  }

  lemma {:induction false} DeleteKeepsLoad<K(!new), V(!new)>(h: Hash<K>, s: State<K, V>, k: K)
    requires Ok(h, s) && Loaded(s) && s.iterators == 0
    ensures var r := Delete(h, s, k).0; Loaded(r) && r.iterators == 0
  {
    if s.Rehashing() { StepMakesRoom(h, s); }
    hide Ok, RehashStep, Search, Bucket, FindChain, HasRoom;
    var s1 := if s.Rehashing() then RehashStep(h, s) else s;
    if Search(h, s1, k).Some? { RemoveShrinks(h, s1, k); }
  }

  lemma {:induction false} RemoveShrinks<K, V>(h: Hash<K>, s: State<K, V>, k: K)
    ensures var r := Remove(h, s, k);
            && r.ht0.Size() == s.ht0.Size() && r.ht1.Size() == s.ht1.Size() && r.rehashidx == s.rehashidx && r.iterators == s.iterators
            && r.ht0.used <= s.ht0.used && r.ht1.used <= s.ht1.used
  {
  }

  lemma {:induction false} ApplyKeepsLoad<K(!new), V(!new)>(h: Hash<K>, s: State<K, V>, op: Op<K, V>)
    requires Ok(h, s) && Roomy(s) && Loaded(s) && s.iterators == 0
    ensures var r := Apply(h, s, op); Loaded(r) && r.iterators == 0
  {
    hide Ok, LongMax, Add, Find, Replace, Delete, Loaded;
    match op
    case Insertion(k, v) => AddKeepsLoad(h, s, k, v);
    case Lookup(k) => FindKeepsLoad(h, s, k);
    case Replacement(k, v) => ReplaceKeepsLoad(h, s, k, v);
    case Removal(k) => DeleteKeepsLoad(h, s, k);
  }

  ghost predicate IsRun<K(!new), V(!new)>(h: Hash<K>, states: seq<State<K, V>>, ops: seq<Op<K, V>>) {
    && |states| == |ops| + 1 && states[0] == Create()
    && forall i :: 0 <= i < |ops| ==> Ok(h, states[i]) && Roomy(states[i]) && states[i + 1] == Apply(h, states[i], ops[i])
  }

  lemma {:induction false} RunKeepsLoad<K(!new), V(!new)>(h: Hash<K>, states: seq<State<K, V>>, ops: seq<Op<K, V>>, n: nat)
    requires IsRun(h, states, ops) && n < |states|
    ensures Ok(h, states[n]) && Loaded(states[n]) && states[n].iterators == 0
  {
    hide Ok, LongMax, Apply;
    if n == 0 {
      CreateOk<K, V>(h);
    } else {
      RunKeepsLoad(h, states, ops, n - 1);
      ApplyKeepsLoad(h, states[n - 1], ops[n - 1]);
    }
  }

  /** With resizing allowed and no iterator, whenever no rehash is running there is at most one key more than there are buckets. */
  lemma {:induction false} KeysFitBuckets<K(!new), V(!new)>(h: Hash<K>, states: seq<State<K, V>>, ops: seq<Op<K, V>>, n: nat)
    requires IsRun(h, states, ops) && n < |states| && states[n].rehashidx == -1
    ensures Ok(h, states[n]) && |Contents(h, states[n])| <= states[n].ht0.Size() + 1
  {
    hide IsRun, Ok, Contents;
    RunKeepsLoad(h, states, ops, n);
    UsedCountsKeys(h, states[n]);
    NoSecondTable(h, states[n]);
  }
}
