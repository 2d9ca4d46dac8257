/**
 The dictionary operations on the two-table value, and the proof that they are
 the operations of a finite map, whatever the state of the rehash.
 */
module DictMap {
  import opened Words
  import opened Wrappers
  import opened Tables
  import opened DictModel

  // ----- abstraction -----

  function Flat<K, V>(b: seq<Chain<K, V>>): (c: Chain<K, V>)
    ensures |c| == Total(b)
  {
    if b == [] then [] else b[0] + Flat(b[1..])
  }

  lemma {:induction false} FlatMembers<K(!new), V(!new)>(b: seq<Chain<K, V>>, e: Entry<K, V>)
    ensures e in Flat(b) <==> exists i :: 0 <= i < |b| && e in b[i]
  {
    if b != [] {
      FlatMembers(b[1..], e);
      assert forall i :: 0 <= i < |b[1..]| ==> b[1..][i] == b[i + 1];
      if i :| 0 <= i < |b| && e in b[i] && i != 0 {
        assert b[1..][i - 1] == b[i];
      }
    }
  }

  lemma {:induction false} FlatHolds<K(!new), V(!new)>(h: Hash<K>, t: Table<K, V>, e: Entry<K, V>)
    requires TableOk(h, t)
    ensures e in Flat(t.buckets) <==> Holds(h, t, e)
  {
    hide Slot;
    FlatMembers(t.buckets, e);
    if i :| 0 <= i < t.Size() && e in t.buckets[i] { HoldsAt(h, t, i, e); }
  }

  lemma {:induction false} FlatDistinct<K(!new), V(!new)>(h: Hash<K>, b: seq<Chain<K, V>>, exp: nat, from: nat)
    requires forall i :: 0 <= i < |b| ==> DistinctKeys(b[i])
    requires forall i, e :: 0 <= i < |b| && e in b[i] ==> Index(h(e.key), exp) == from + i
    ensures DistinctKeys(Flat(b))
  {
    hide Index;
    if b != [] {
      assert forall i :: 0 <= i < |b[1..]| ==> b[1..][i] == b[i + 1];
      FlatDistinct(h, b[1..], exp, from + 1);
      forall e | e in Flat(b[1..]) ensures Index(h(e.key), exp) > from {
        FlatMembers(b[1..], e);
      }
      DistinctConcat(b[0], Flat(b[1..]));
    }
  }

  lemma {:induction false} DistinctConcat<K(!new), V(!new)>(c: Chain<K, V>, d: Chain<K, V>)
    requires DistinctKeys(c) && DistinctKeys(d)
    requires forall x, y :: x in c && y in d ==> x.key != y.key
    ensures DistinctKeys(c + d)
  {
    forall i, j | 0 <= i < j < |c + d| ensures (c + d)[i].key != (c + d)[j].key {
      if i < |c| <= j { assert (c + d)[i] in c && (c + d)[j] in d; }
    }
  }

  ghost function EntriesOf<K, V>(s: State<K, V>): Chain<K, V> {
    Flat(s.ht0.buckets) + Flat(s.ht1.buckets)
  }

  lemma {:induction false} EntriesAreHeld<K(!new), V(!new)>(h: Hash<K>, s: State<K, V>, e: Entry<K, V>)
    requires Ok(h, s)
    ensures e in EntriesOf(s) <==> Held(h, s, e)
  {
    hide TableOk, Holds, Flat;
    FlatHolds(h, s.ht0, e);
    FlatHolds(h, s.ht1, e);
  }

  lemma {:induction false} EntriesDistinct<K(!new), V(!new)>(h: Hash<K>, s: State<K, V>)
    requires Ok(h, s)
    ensures DistinctKeys(EntriesOf(s))
  {
    FlatDistinct(h, s.ht0.buckets, s.ht0.exp, 0);
    FlatDistinct(h, s.ht1.buckets, s.ht1.exp, 0);
    hide TableOk, Holds, Flat, DistinctKeys;
    var f0, f1 := Flat(s.ht0.buckets), Flat(s.ht1.buckets);
    NullTableOk<K, V>(h);
    forall x, y | x in f0 && y in f1 ensures x.key != y.key {
      FlatHolds(h, s.ht0, x);
      FlatHolds(h, s.ht1, y);
    }
    DistinctConcat(f0, f1);
  }

  lemma {:induction false} KeySearched<K(!new), V(!new)>(h: Hash<K>, s: State<K, V>, k: K)
    requires Ok(h, s)
    ensures k in (set e | e in EntriesOf(s) :: e.key) <==> Search(h, s, k).Some?
  {
    hide Ok, Search, EntriesOf, Held;
    if e :| e in EntriesOf(s) && e.key == k {
      EntriesAreHeld(h, s, e);
      SearchFinds(h, s, e);
    }
    if Search(h, s, k).Some? {
      SearchFinds(h, s, Search(h, s, k).value);
      EntriesAreHeld(h, s, Search(h, s, k).value);
    }
  }

  /** The keys of the dictionary. */
  ghost function Keys<K(!new), V(!new)>(h: Hash<K>, s: State<K, V>): (keys: set<K>)
    requires Ok(h, s)
    ensures forall k :: k in keys <==> Search(h, s, k).Some?
  {
    hide Ok, Search, EntriesOf;
    assert forall k :: k in (set e | e in EntriesOf(s) :: e.key) <==> Search(h, s, k).Some? by {
      forall k ensures k in (set e | e in EntriesOf(s) :: e.key) <==> Search(h, s, k).Some? {
        KeySearched(h, s, k);
      }
    }
    set e | e in EntriesOf(s) :: e.key
  }

  /** The finite map a dictionary stands for. */
  ghost function Contents<K(!new), V(!new)>(h: Hash<K>, s: State<K, V>): (m: map<K, V>)
    requires Ok(h, s)
    ensures forall k :: k in m <==> Search(h, s, k).Some?
    ensures forall k :: k in m ==> m[k] == Search(h, s, k).value.val
  {
    hide Ok, Search;
    map k | k in Keys(h, s) :: Search(h, s, k).value.val
  }

  lemma {:induction false} KeyCount<K(!new), V(!new)>(c: Chain<K, V>)
    requires DistinctKeys(c)
    ensures |set e | e in c :: e.key| == |c|
  {
    if c != [] {
      DistinctTail(c);
      hide DistinctKeys;
      var rest := set e | e in c[1..] :: e.key;
      KeyCount(c[1..]);
      assert (set e | e in c :: e.key) == {c[0].key} + rest;
      assert c[0].key !in rest;
    }
  }

  /** dictSize is the number of keys of the map. */
  lemma {:induction false} UsedCountsKeys<K(!new), V(!new)>(h: Hash<K>, s: State<K, V>)
    requires Ok(h, s)
    ensures s.Used() == |Contents(h, s)|
  {
    EntriesDistinct(h, s);
    KeyCount(EntriesOf(s));
    assert |EntriesOf(s)| == s.Used();
    hide Ok, Search, EntriesOf, DistinctKeys;
    assert Contents(h, s).Keys == Keys(h, s);
  }

  lemma {:induction false} SearchAgrees<K(!new), V(!new)>(h: Hash<K>, s: State<K, V>, r: State<K, V>, k: K)
    requires Ok(h, s) && Ok(h, r)
    requires forall e: Entry<K, V> :: e.key == k ==> (Held(h, s, e) <==> Held(h, r, e))
    ensures Search(h, s, k) == Search(h, r, k)
  {
    hide Ok, Search, Held;
    if Search(h, s, k).Some? {
      SearchFinds(h, s, Search(h, s, k).value);
      SearchFinds(h, r, Search(h, s, k).value);
    } else if Search(h, r, k).Some? {
      SearchFinds(h, s, Search(h, r, k).value);
      SearchFinds(h, r, Search(h, r, k).value);
    }
  }

  lemma {:induction false} SameEntriesSameMap<K(!new), V(!new)>(h: Hash<K>, s: State<K, V>, s': State<K, V>)
    requires Ok(h, s) && Ok(h, s') && SameEntries(h, s, s')
    ensures forall k :: Search(h, s, k) == Search(h, s', k)
    ensures Contents(h, s) == Contents(h, s') && s.Used() == s'.Used()
  {
    hide Ok, Search, Contents, Held;
    UsedCountsKeys(h, s);
    UsedCountsKeys(h, s');
    forall k ensures Search(h, s, k) == Search(h, s', k) {
      SearchAgrees(h, s, s', k);
    }
    assert Contents(h, s) == Contents(h, s');
  }

  /** Holding one entry for k, and otherwise what s holds, is the map update. */
  lemma {:induction false} ContentsUpdated<K(!new), V(!new)>(h: Hash<K>, s: State<K, V>, r: State<K, V>, e: Entry<K, V>)
    requires Ok(h, s) && Ok(h, r)
    requires forall x :: Held(h, r, x) <==> if x.key == e.key then x == e else Held(h, s, x)
    ensures Contents(h, r) == Contents(h, s)[e.key := e.val]
  {
    hide Ok, Search, Contents, Held;
    SearchFinds(h, r, e);
    forall k | k != e.key ensures Search(h, s, k) == Search(h, r, k) {
      SearchAgrees(h, s, r, k);
    }
  }

  lemma {:induction false} ContentsRemoved<K(!new), V(!new)>(h: Hash<K>, s: State<K, V>, r: State<K, V>, k: K)
    requires Ok(h, s) && Ok(h, r)
    requires forall x :: Held(h, r, x) <==> Held(h, s, x) && x.key != k
    ensures Contents(h, r) == Contents(h, s) - {k}
  {
    hide Ok, Search, Contents, Held;
    assert Search(h, r, k).None? by {
      if Search(h, r, k).Some? { SearchFinds(h, r, Search(h, r, k).value); }
    }
    forall x | x != k ensures Search(h, s, x) == Search(h, r, x) {
      SearchAgrees(h, s, r, x);
    }
  }

  // ----- operations -----

  ghost predicate Roomy<K, V>(s: State<K, V>) {
    2 * s.Used() < LongMax()
  }

  /** The work done before an insertion looks for the key. */
  ghost function Prepare<K(!new), V(!new)>(h: Hash<K>, s: State<K, V>, canResize: bool): (r: State<K, V>)
    requires Ok(h, s) && Roomy(s)
    ensures Ok(h, r) && SameEntries(h, s, r) && !r.ht0.IsNull()
  {
    hide Ok, Held, LongMax, ExpandIfNeeded;
    var s1 := if s.Rehashing() then RehashStep(h, s) else s;
    SameEntriesSameMap(h, s, s1);
    ExpandIfNeededOk(h, s1, canResize);
    ExpandIfNeeded(s1, canResize).0
  }

  /** Insert a new entry into the table that takes insertions. */
  function Insert<K, V>(h: Hash<K>, s: State<K, V>, k: K, v: V): (r: State<K, V>) {
    var e := Entry(s.nextAddr, k, v);
    if s.Rehashing() then s.(ht1 := PushEntry(h, s.ht1, e), nextAddr := s.nextAddr + 1)
    else s.(ht0 := PushEntry(h, s.ht0, e), nextAddr := s.nextAddr + 1)
  }

  lemma {:induction false} KeyAbsent<K(!new), V(!new)>(h: Hash<K>, s: State<K, V>, k: K)
    requires Ok(h, s) && Search(h, s, k).None?
    ensures forall x :: Holds(h, s.ht0, x) ==> x.key != k
    ensures forall x :: Holds(h, s.ht1, x) ==> x.key != k
  {
    hide Ok, Search, Holds;
    forall x: Entry<K, V> | x.key == k ensures !Holds(h, s.ht0, x) && !Holds(h, s.ht1, x) { SearchFinds(h, s, x); }
  }

  lemma {:induction false} InsertOk<K(!new), V(!new)>(h: Hash<K>, s: State<K, V>, k: K, v: V)
    requires Ok(h, s) && !s.ht0.IsNull() && Search(h, s, k).None?
    ensures Ok(h, Insert(h, s, k, v))
    ensures forall e :: Held(h, Insert(h, s, k, v), e) <==> Held(h, s, e) || e == Entry(s.nextAddr, k, v)
  {
    KeyAbsent(h, s, k);
    hide TableOk, Holds, Search;
    var e := Entry(s.nextAddr, k, v);
    var t := if s.Rehashing() then s.ht1 else s.ht0;
    PushEntryOk(h, t, e);
    if s.Rehashing() {
      assert Insert(h, s, k, v).ht1 == PushEntry(h, t, e);
    } else {
      assert Insert(h, s, k, v).ht0 == PushEntry(h, t, e);
    }
    hide PushEntry;
  }

  /** dictAdd; the flag is DICT_OK. */
  ghost function Add<K(!new), V(!new)>(h: Hash<K>, s: State<K, V>, k: K, v: V, canResize: bool): (r: (State<K, V>, bool))
    requires Ok(h, s) && Roomy(s)
    ensures Ok(h, r.0)
  {
    hide Ok, Prepare, Search;
    var s1 := Prepare(h, s, canResize);
    if Search(h, s1, k).Some? then (s1, false)
    else
      InsertOk(h, s1, k, v);
      (Insert(h, s1, k, v), true)
  }

  /** Adding fails exactly when the key is present; otherwise it adds the one binding. */
  lemma {:induction false} AddIsMapInsert<K(!new), V(!new)>(h: Hash<K>, s: State<K, V>, k: K, v: V, canResize: bool)
    requires Ok(h, s) && Roomy(s)
    ensures Add(h, s, k, v, canResize).1 <==> k !in Contents(h, s)
    ensures Contents(h, Add(h, s, k, v, canResize).0) ==
            if k in Contents(h, s) then Contents(h, s) else Contents(h, s)[k := v]
  {
    hide Ok, Prepare, Search, Contents, Held, Insert;
    var s1 := Prepare(h, s, canResize);
    SameEntriesSameMap(h, s, s1);
    if Search(h, s1, k).None? {
      InsertOk(h, s1, k, v);
      InsertedMap(h, s1, k, v);
    }
  }

  lemma {:induction false} InsertedMap<K(!new), V(!new)>(h: Hash<K>, s: State<K, V>, k: K, v: V)
    requires Ok(h, s) && !s.ht0.IsNull() && Search(h, s, k).None? && Ok(h, Insert(h, s, k, v))
    ensures Contents(h, Insert(h, s, k, v)) == Contents(h, s)[k := v]
  {
    hide Ok, Search, Contents, Held, Insert;
    InsertOk(h, s, k, v);
    forall x: Entry<K, V> | x.key == k ensures !Held(h, s, x) { SearchFinds(h, s, x); }
    ContentsUpdated(h, s, Insert(h, s, k, v), Entry(s.nextAddr, k, v));
  }

  /** dictFind: the state after it, and what it found. */
  ghost function Find<K(!new), V(!new)>(h: Hash<K>, s: State<K, V>, k: K): (r: (State<K, V>, Option<V>))
    requires Ok(h, s)
    ensures Ok(h, r.0)
  {
    if s.Used() == 0 then (s, None)
    else
      var s1 := if s.Rehashing() then RehashStep(h, s) else s;
      (s1, match Search(h, s1, k) case Some(e) => Some(e.val) case None => None)
  }

  lemma {:induction false} FindIsMapLookup<K(!new), V(!new)>(h: Hash<K>, s: State<K, V>, k: K)
    requires Ok(h, s)
    ensures Contents(h, Find(h, s, k).0) == Contents(h, s)
    ensures Find(h, s, k).1 == if k in Contents(h, s) then Some(Contents(h, s)[k]) else None
  {
    hide Ok, Search, Contents, RehashStep;
    UsedCountsKeys(h, s);
    SameEntriesSameMap(h, s, if s.Rehashing() then RehashStep(h, s) else s);
  }

  /** Set the value of the entry a search finds. */
  function Store<K(==), V>(h: Hash<K>, s: State<K, V>, k: K, v: V): (r: State<K, V>) {
    if FindChain(Bucket(h, s.ht0, k), k).Some? then s.(ht0 := RevalueTable(h, s.ht0, k, v))
    else s.(ht1 := RevalueTable(h, s.ht1, k, v))
  }

  lemma {:induction false} StoreHolds<K(!new), V(!new)>(h: Hash<K>, s: State<K, V>, k: K, v: V)
    requires Ok(h, s) && Search(h, s, k).Some?
    ensures Ok(h, Store(h, s, k, v))
    ensures forall x :: Held(h, Store(h, s, k, v), x) <==>
                        if x.key == k then x == Search(h, s, k).value.(val := v) else Held(h, s, x)
  {
    hide TableOk, Holds, Bucket, FindChain, RevalueTable, UnlinkTable;
    OneTableOnly(h, s, k);
    PassedStayEmpty(h, s, k, v);
    if FindChain(Bucket(h, s.ht0, k), k).Some? {
      RevalueTableOk(h, s.ht0, k, v);
    } else {
      RevalueTableOk(h, s.ht1, k, v);
    }
  }

  /** A bucket the rehash has passed is empty, so no change to a found key touches it. */
  lemma {:induction false} PassedStayEmpty<K(!new), V(!new)>(h: Hash<K>, s: State<K, V>, k: K, v: V)
    requires Ok(h, s)
    ensures FindChain(Bucket(h, s.ht0, k), k).Some? ==>
              forall i :: 0 <= i < s.rehashidx ==> RevalueTable(h, s.ht0, k, v).buckets[i] == [] == UnlinkTable(h, s.ht0, k).buckets[i]
  {
    hide Slot, Placed, Total;
  }

  /** A key found in one table is not held by the other. */
  lemma {:induction false} OneTableOnly<K(!new), V(!new)>(h: Hash<K>, s: State<K, V>, k: K)
    requires Ok(h, s) && Search(h, s, k).Some?
    ensures var f0 := FindChain(Bucket(h, s.ht0, k), k);
            && (f0.Some? ==> Search(h, s, k) == f0 && forall x :: Holds(h, s.ht1, x) ==> x.key != k)
            && (f0.None? ==> Search(h, s, k) == FindChain(Bucket(h, s.ht1, k), k) && forall x :: Holds(h, s.ht0, x) ==> x.key != k)
  {
    NullTableOk<K, V>(h);
    var f0 := FindChain(Bucket(h, s.ht0, k), k);
    if f0.Some? { assert Holds(h, s.ht0, f0.value); }
    forall x | Holds(h, s.ht0, x) && x.key == k ensures f0.Some? { HoldsIsFound(h, s.ht0, x); }
    hide TableOk;
  }

  lemma {:induction false} StoreOk<K(!new), V(!new)>(h: Hash<K>, s: State<K, V>, k: K, v: V)
    requires Ok(h, s) && Search(h, s, k).Some?
    ensures Ok(h, Store(h, s, k, v))
    ensures Contents(h, Store(h, s, k, v)) == Contents(h, s)[k := v]
  {
    hide Ok, Search, Contents, Held, Store;
    StoreHolds(h, s, k, v);
    ContentsUpdated(h, s, Store(h, s, k, v), Search(h, s, k).value.(val := v));
  }

  /** dictReplace: true when the key was new. */
  ghost function Replace<K(!new), V(!new)>(h: Hash<K>, s: State<K, V>, k: K, v: V, canResize: bool): (r: (State<K, V>, bool))
    requires Ok(h, s) && Roomy(s)
    ensures Ok(h, r.0)
  {
    hide Ok, Search, Add, Find, Contents, Store;
    var a := Add(h, s, k, v, canResize);
    if a.1 then a
    else
      AddIsMapInsert(h, s, k, v, canResize);
      FindIsMapLookup(h, a.0, k);
      var s1 := Find(h, a.0, k).0;
      StoreOk(h, s1, k, v);
      (Store(h, s1, k, v), false)
  }

  lemma {:induction false} ReplaceIsMapUpdate<K(!new), V(!new)>(h: Hash<K>, s: State<K, V>, k: K, v: V, canResize: bool)
    requires Ok(h, s) && Roomy(s)
    ensures Contents(h, Replace(h, s, k, v, canResize).0) == Contents(h, s)[k := v]
    ensures Replace(h, s, k, v, canResize).1 <==> k !in Contents(h, s)
  {
    hide Ok, Search, Add, Find, Contents, Store;
    var a := Add(h, s, k, v, canResize);
    AddIsMapInsert(h, s, k, v, canResize);
    if !a.1 {
      FindIsMapLookup(h, a.0, k);
      StoreOk(h, Find(h, a.0, k).0, k, v);
    }
  }

  /** Unlink the entry a search finds. */
  function Remove<K(==), V>(h: Hash<K>, s: State<K, V>, k: K): (r: State<K, V>) {
    if FindChain(Bucket(h, s.ht0, k), k).Some? then s.(ht0 := UnlinkTable(h, s.ht0, k))
    else s.(ht1 := UnlinkTable(h, s.ht1, k))
  }

  lemma {:induction false} RemoveOk<K(!new), V(!new)>(h: Hash<K>, s: State<K, V>, k: K)
    requires Ok(h, s) && Search(h, s, k).Some?
    ensures Ok(h, Remove(h, s, k))
    ensures forall e :: Holds(h, Remove(h, s, k).ht0, e) <==> Holds(h, s.ht0, e) && e.key != k
    ensures forall e :: Holds(h, Remove(h, s, k).ht1, e) <==> Holds(h, s.ht1, e) && e.key != k
  {
    hide TableOk, Holds, Bucket, FindChain, UnlinkTable, RevalueTable;
    OneTableOnly(h, s, k);
    PassedStayEmpty(h, s, k, Search(h, s, k).value.val);
    if FindChain(Bucket(h, s.ht0, k), k).Some? {
      UnlinkTableOk(h, s.ht0, k);
    } else {
      UnlinkTableOk(h, s.ht1, k);
    }
  }

  /** dictDelete; the flag is DICT_OK. */
  ghost function Delete<K(!new), V(!new)>(h: Hash<K>, s: State<K, V>, k: K): (r: (State<K, V>, bool))
    requires Ok(h, s)
    ensures Ok(h, r.0)
  {
    hide Ok, Search, RehashStep, Remove;
    if s.ht0.IsNull() then (s, false)
    else
      var s1 := if s.Rehashing() then RehashStep(h, s) else s;
      if Search(h, s1, k).None? then (s1, false)
      else
        RemoveOk(h, s1, k);
        (Remove(h, s1, k), true)
  }

  lemma {:induction false} DeleteIsMapRemove<K(!new), V(!new)>(h: Hash<K>, s: State<K, V>, k: K)
    requires Ok(h, s)
    ensures Delete(h, s, k).1 <==> k in Contents(h, s)
    ensures Contents(h, Delete(h, s, k).0) == Contents(h, s) - {k}
  {
    hide Ok, Search, RehashStep, Remove, Contents, Holds;
    if s.ht0.IsNull() {
      NullIsEmpty(h, s, k);
    } else {
      var s1 := if s.Rehashing() then RehashStep(h, s) else s;
      SameEntriesSameMap(h, s, s1);
      if Search(h, s1, k).Some? {
        RemoveOk(h, s1, k);
        ContentsRemoved(h, s1, Remove(h, s1, k), k);
      }
    }
  }

  lemma {:induction false} NullIsEmpty<K(!new), V(!new)>(h: Hash<K>, s: State<K, V>, k: K)
    requires Ok(h, s) && s.ht0.IsNull()
    ensures Contents(h, s) == map[] && Contents(h, s) - {k} == map[]
  {
    UsedCountsKeys(h, s);
  }

  // ----- the rehash ends -----

  /** n single rehash steps in a row. */
  ghost function RehashSteps<K(!new), V(!new)>(h: Hash<K>, s: State<K, V>, n: nat): (r: State<K, V>)
    requires Ok(h, s)
    ensures Ok(h, r) && SameEntries(h, s, r)
    decreases n
  {
    hide Ok, RehashStep, Held;
    if n == 0 then s else RehashSteps(h, RehashStep(h, s), n - 1)
  }

  /** One step either ends the rehash or moves strictly past rehashidx. */
  lemma {:induction false} StepAdvances<K(!new), V(!new)>(h: Hash<K>, s: State<K, V>, visits: nat)
    requires Ok(h, s) && s.Rehashing() && visits > 0
    ensures var r := RehashLoop(h, s, 1, visits).0;
            && r.iterators == s.iterators
            && (r.Rehashing() ==> r.rehashidx > s.rehashidx && r.ht0.Size() == s.ht0.Size() && r.ht0.used != 0)
    decreases s.ht0.Size() - s.rehashidx
  {
    hide TableOk, Holds, MoveChain;
    if s.ht0.used != 0 {
      RehashIndexInRange(h, s);
      if s.ht0.buckets[s.rehashidx] == [] {
        SkipBucketOk(h, s);
        var s' := s.(rehashidx := s.rehashidx + 1);
        if visits != 1 { StepAdvances(h, s', visits - 1); }
      } else {
        MoveBucketOk(h, s);
      }
    }
  }

  lemma {:induction false} NotRehashingStays<K(!new), V(!new)>(h: Hash<K>, s: State<K, V>, n: nat)
    requires Ok(h, s) && !s.Rehashing()
    ensures RehashSteps(h, s, n) == s
    decreases n
  {
    hide Ok;
    if n != 0 { NotRehashingStays(h, s, n - 1); }
  }

  /** With no iterator running, a rehash is over after as many steps as table 0 has buckets. */
  lemma {:induction false} RehashEndsWithinSize<K(!new), V(!new)>(h: Hash<K>, s: State<K, V>)
    requires Ok(h, s) && s.iterators == 0
    ensures !RehashSteps(h, s, s.ht0.Size()).Rehashing()
    ensures Contents(h, RehashSteps(h, s, s.ht0.Size())) == Contents(h, s)
  {
    if s.Rehashing() { RehashEnds(h, s, s.ht0.Size()); } else { NotRehashingStays(h, s, s.ht0.Size()); }
    hide Ok, RehashSteps, Contents, Search;
    SameEntriesSameMap(h, s, RehashSteps(h, s, s.ht0.Size()));
  }

  lemma {:induction false} RehashEnds<K(!new), V(!new)>(h: Hash<K>, s: State<K, V>, n: nat)
    requires Ok(h, s) && s.iterators == 0 && s.Rehashing()
    requires n >= 1 && n >= s.ht0.Size() - s.rehashidx
    ensures !RehashSteps(h, s, n).Rehashing()
    decreases n
  {
    hide Ok, RehashLoop, Held;
    var s1 := RehashStep(h, s);
    StepAdvances(h, s, 10);
    if s1.Rehashing() {
      RehashIndexInRange(h, s1);
      RehashEnds(h, s1, n - 1);
    } else {
      NotRehashingStays(h, s1, n - 1);
    }
  }
}
