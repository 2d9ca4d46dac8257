/**
 One bucket array of the hash table: chains of entries, and the facts about
 chains and bucket counts that every operation on them relies on.
 */
module Tables {
  import opened Words
  import opened Wrappers

  /** addr stands for the address of the dictEntry: it tells two entries apart. */
  datatype Entry<K, V> = Entry(addr: nat, key: K, val: V)

  type Chain<K, V> = seq<Entry<K, V>>

  type Hash<!K> = K -> Word

  /** dictht: 2^exp buckets, or none when the table pointer is NULL. */
  datatype Table<K, V> = Table(exp: nat, buckets: seq<seq<Entry<K, V>>>, used: nat) {
    predicate IsNull() { buckets == [] }
    function Size(): nat { |buckets| }
  }

  function NullTable<K, V>(): Table<K, V> { Table(0, [], 0) }

  predicate Shaped<K, V>(t: Table<K, V>) {
    t.exp < WORD_BITS && (!t.IsNull() ==> t.Size() == Pow2(t.exp))
  }

  /** hash & sizemask. */
  function Slot<K, V>(h: Hash<K>, t: Table<K, V>, k: K): nat { Index(h(k), t.exp) }

  /** The chain a key belongs to. */
  function Bucket<K, V>(h: Hash<K>, t: Table<K, V>, k: K): Chain<K, V> {
    if Slot(h, t, k) < t.Size() then t.buckets[Slot(h, t, k)] else []
  }

  /** The first entry with key k. */
  function FindChain<K(==), V>(c: Chain<K, V>, k: K): (r: Option<Entry<K, V>>)
    ensures r.Some? ==> r.value in c && r.value.key == k
    ensures r.None? ==> forall e :: e in c ==> e.key != k
  {
    if c == [] then None else if c[0].key == k then Some(c[0]) else FindChain(c[1..], k)
  }

  ghost predicate DistinctKeys<K, V>(c: Chain<K, V>) {
    forall i, j :: 0 <= i < j < |c| ==> c[i].key != c[j].key
  }

  function Total<K, V>(b: seq<Chain<K, V>>): nat {
    if b == [] then 0 else |b[0]| + Total(b[1..])
  }

  /** Every chain has distinct keys, and every entry is in the chain its hash selects. */
  ghost predicate Placed<K(!new), V(!new)>(h: Hash<K>, t: Table<K, V>) {
    && (forall i :: 0 <= i < t.Size() ==> DistinctKeys(t.buckets[i]))
    && (forall i, e :: 0 <= i < t.Size() && e in t.buckets[i] ==> Slot(h, t, e.key) == i)
  }

  ghost predicate TableOk<K(!new), V(!new)>(h: Hash<K>, t: Table<K, V>) {
    Shaped(t) && t.used == Total(t.buckets) && Placed(h, t)
  }

  ghost predicate Holds<K(!new), V(!new)>(h: Hash<K>, t: Table<K, V>, e: Entry<K, V>) {
    e in Bucket(h, t, e.key)
  }

  // ----- counting -----

  lemma {:induction false} TotalUpdate<K, V>(b: seq<Chain<K, V>>, i: nat, c: Chain<K, V>)
    requires i < |b|
    ensures Total(b[i := c]) == Total(b) - |b[i]| + |c|
  {
    if i != 0 {
      TotalUpdate(b[1..], i - 1, c);
      assert b[i := c][1..] == b[1..][i - 1 := c];
    } else {
      assert b[i := c][1..] == b[1..];
    }
  }

  lemma {:induction false} TotalAtLeast<K, V>(b: seq<Chain<K, V>>, i: nat)
    requires i < |b|
    ensures Total(b) >= |b[i]|
  {
    if i != 0 { TotalAtLeast(b[1..], i - 1); }
  }

  lemma {:induction false} TotalZero<K, V>(b: seq<Chain<K, V>>)
    ensures Total(b) == 0 <==> forall i :: 0 <= i < |b| ==> b[i] == []
  {
    if b != [] {
      TotalZero(b[1..]);
      assert forall i :: 0 <= i < |b[1..]| ==> b[1..][i] == b[i + 1];
      assert forall i :: 1 <= i < |b| ==> b[i] == b[1..][i - 1];
    }
  }

  // ----- chains -----

  /** The chain without its first entry for k. */
  function Unlink<K(==), V>(c: Chain<K, V>, k: K): (r: Chain<K, V>) {
    if c == [] then [] else if c[0].key == k then c[1..] else [c[0]] + Unlink(c[1..], k)
  }

  lemma {:induction false} DistinctTail<K(!new), V(!new)>(c: Chain<K, V>)
    requires DistinctKeys(c) && c != []
    ensures DistinctKeys(c[1..]) && forall e :: e in c[1..] ==> e.key != c[0].key
    ensures forall e :: e in c <==> e == c[0] || e in c[1..]
  {
    assert c == [c[0]] + c[1..];
  }

  lemma {:induction false} DistinctCons<K(!new), V(!new)>(e: Entry<K, V>, c: Chain<K, V>)
    requires DistinctKeys(c) && forall x :: x in c ==> x.key != e.key
    ensures DistinctKeys([e] + c)
  {
  }

  lemma {:induction false} UnlinkRemoves<K(!new), V(!new)>(c: Chain<K, V>, k: K)
    requires DistinctKeys(c)
    ensures DistinctKeys(Unlink(c, k))
    ensures forall e :: e in Unlink(c, k) <==> e in c && e.key != k
    ensures |Unlink(c, k)| == if FindChain(c, k).Some? then |c| - 1 else |c|
  {
    if c != [] {
      DistinctTail(c);
      UnlinkRemoves(c[1..], k);
      if c[0].key != k { DistinctCons(c[0], Unlink(c[1..], k)); }
    }
  }

  /** The chain with the value of its first entry for k replaced. */
  function Revalue<K(==), V>(c: Chain<K, V>, k: K, v: V): (r: Chain<K, V>)
    ensures |r| == |c|
  {
    if c == [] then []
    else if c[0].key == k then [c[0].(val := v)] + c[1..]
    else [c[0]] + Revalue(c[1..], k, v)
  }

  lemma {:induction false} RevalueChanges<K(!new), V(!new)>(c: Chain<K, V>, k: K, v: V)
    requires DistinctKeys(c)
    ensures DistinctKeys(Revalue(c, k, v))
    ensures forall e :: e in Revalue(c, k, v) <==>
                        if e.key == k then FindChain(c, k).Some? && e == FindChain(c, k).value.(val := v) else e in c
  {
    if c != [] {
      DistinctTail(c);
      if c[0].key == k {
        DistinctCons(c[0].(val := v), c[1..]);
      } else {
        RevalueChanges(c[1..], k, v);
        DistinctCons(c[0], Revalue(c[1..], k, v));
      }
    }
  }

  lemma {:induction false} FindDistinct<K(!new), V(!new)>(c: Chain<K, V>, e: Entry<K, V>)
    requires DistinctKeys(c) && e in c
    ensures FindChain(c, e.key) == Some(e)
  {
    DistinctTail(c);
    if c[0] != e { FindDistinct(c[1..], e); }
  }

  // ----- one table -----

  lemma {:induction false} SlotInRange<K(!new), V(!new)>(h: Hash<K>, t: Table<K, V>, k: K)
    requires Shaped(t) && !t.IsNull()
    ensures Slot(h, t, k) < t.Size()
  {
  }

  /** The chains of an entry that is found, and of one that is not. */
  lemma {:induction false} HoldsIsFound<K(!new), V(!new)>(h: Hash<K>, t: Table<K, V>, e: Entry<K, V>)
    requires Placed(h, t)
    ensures Holds(h, t, e) <==> FindChain(Bucket(h, t, e.key), e.key) == Some(e)
  {
    if Holds(h, t, e) { FindDistinct(Bucket(h, t, e.key), e); }
  }

  lemma {:induction false} HoldsAt<K(!new), V(!new)>(h: Hash<K>, t: Table<K, V>, i: nat, e: Entry<K, V>)
    requires Placed(h, t) && i < t.Size()
    ensures e in t.buckets[i] <==> Holds(h, t, e) && Slot(h, t, e.key) == i
  {
  }

  function FreshTable<K, V>(e: nat): (t: Table<K, V>)
    requires e < WORD_BITS
    ensures t.exp == e && t.Size() == Pow2(e) && t.used == 0 && !t.IsNull()
    ensures forall i :: 0 <= i < t.Size() ==> t.buckets[i] == []
  {
    Table(e, seq(Pow2(e), _ => []), 0)
  }

  lemma {:induction false} FreshTableOk<K(!new), V(!new)>(h: Hash<K>, e: nat)
    requires e < WORD_BITS
    ensures TableOk<K, V>(h, FreshTable(e))
    ensures forall x: Entry<K, V> :: !Holds(h, FreshTable(e), x)
  {
    TotalZero(FreshTable<K, V>(e).buckets);
  }

  lemma {:induction false} NullTableOk<K(!new), V(!new)>(h: Hash<K>)
    ensures TableOk<K, V>(h, NullTable())
    ensures forall x: Entry<K, V> :: !Holds(h, NullTable(), x)
  {
  }

  lemma {:induction false} UnusedHoldsNothing<K(!new), V(!new)>(h: Hash<K>, t: Table<K, V>)
    requires TableOk(h, t) && t.used == 0
    ensures forall x :: !Holds(h, t, x)
  {
    TotalZero(t.buckets);
  }

  /** A table with one chain replaced. */
  function SetBucket<K, V>(t: Table<K, V>, i: nat, c: Chain<K, V>, used: nat): (r: Table<K, V>)
    ensures r.exp == t.exp && r.Size() == t.Size() && r.used == used
  {
    Table(t.exp, if i < t.Size() then t.buckets[i := c] else t.buckets, used)
  }

  /** It is consistent if the new entries have distinct keys and belong there. */
  lemma {:induction false} SetBucketOk<K(!new), V(!new)>(h: Hash<K>, t: Table<K, V>, i: nat, c: Chain<K, V>, used: nat)
    requires TableOk(h, t) && i < t.Size()
    requires DistinctKeys(c) && (forall e :: e in c ==> Slot(h, t, e.key) == i)
    requires used == t.used - |t.buckets[i]| + |c|
    ensures TableOk(h, SetBucket(t, i, c, used))
    ensures forall e :: Holds(h, SetBucket(t, i, c, used), e) <==> if Slot(h, t, e.key) == i then e in c else Holds(h, t, e)
  {
    hide Slot;
    TotalUpdate(t.buckets, i, c);
    var r := SetBucket(t, i, c, used);
    assert forall k :: Slot(h, r, k) == Slot(h, t, k) by { SameSlot(h, t, r); }
  }

  lemma {:induction false} SameSlot<K(!new), V(!new)>(h: Hash<K>, t: Table<K, V>, r: Table<K, V>)
    requires r.exp == t.exp
    ensures forall k :: Slot(h, r, k) == Slot(h, t, k)
  {
  }

  /** Link an entry in at the head of its bucket. */
  function PushEntry<K, V>(h: Hash<K>, t: Table<K, V>, e: Entry<K, V>): (r: Table<K, V>)
    ensures r.exp == t.exp && r.Size() == t.Size() && r.used == t.used + 1
  {
    SetBucket(t, Slot(h, t, e.key), [e] + Bucket(h, t, e.key), t.used + 1)
  }

  lemma {:induction false} PushEntryOk<K(!new), V(!new)>(h: Hash<K>, t: Table<K, V>, e: Entry<K, V>)
    requires TableOk(h, t) && !t.IsNull()
    requires forall x :: Holds(h, t, x) ==> x.key != e.key
    ensures TableOk(h, PushEntry(h, t, e))
    ensures forall x :: Holds(h, PushEntry(h, t, e), x) <==> x == e || Holds(h, t, x)
  {
    SlotInRange(h, t, e.key);
    hide Slot;
    var i := Slot(h, t, e.key);
    var c := t.buckets[i];
    forall x | x in c ensures x.key != e.key && Slot(h, t, x.key) == i { HoldsAt(h, t, i, x); }
    DistinctCons(e, c);
    SetBucketOk(h, t, i, [e] + c, t.used + 1);
    forall x ensures Holds(h, PushEntry(h, t, e), x) <==> x == e || Holds(h, t, x) { HoldsAt(h, t, i, x); }
  }

  /** Emptying a bucket drops the entries of that chain and no other. */
  lemma {:induction false} EmptyBucketOk<K(!new), V(!new)>(h: Hash<K>, t: Table<K, V>, i: nat)
    requires TableOk(h, t) && i < t.Size()
    ensures t.used >= |t.buckets[i]|
    ensures TableOk(h, SetBucket(t, i, [], t.used - |t.buckets[i]|))
    ensures forall e :: Holds(h, SetBucket(t, i, [], t.used - |t.buckets[i]|), e) <==> Holds(h, t, e) && e !in t.buckets[i]
    ensures DistinctKeys(t.buckets[i])
    ensures forall e :: e in t.buckets[i] ==> Holds(h, t, e)
    ensures forall e, e' :: e in t.buckets[i] && Holds(h, t, e') && e'.key == e.key ==> e' == e
  {
    hide Slot;
    TotalAtLeast(t.buckets, i);
    SetBucketOk(h, t, i, [], t.used - |t.buckets[i]|);
    forall e ensures e in t.buckets[i] <==> Holds(h, t, e) && Slot(h, t, e.key) == i { HoldsAt(h, t, i, e); }
    forall e, e' | e in t.buckets[i] && Holds(h, t, e') && e'.key == e.key ensures e' == e {
      HoldsIsFound(h, t, e);
      HoldsIsFound(h, t, e');
    }
  }

  /** The table with the value of key k replaced. */
  function RevalueTable<K(==), V>(h: Hash<K>, t: Table<K, V>, k: K, v: V): (r: Table<K, V>)
    ensures r.exp == t.exp && r.Size() == t.Size() && r.used == t.used
  {
    SetBucket(t, Slot(h, t, k), Revalue(Bucket(h, t, k), k, v), t.used)
  }

  lemma {:induction false} RevalueTableOk<K(!new), V(!new)>(h: Hash<K>, t: Table<K, V>, k: K, v: V)
    requires TableOk(h, t) && FindChain(Bucket(h, t, k), k).Some?
    ensures TableOk(h, RevalueTable(h, t, k, v))
    ensures forall e :: Holds(h, RevalueTable(h, t, k, v), e) <==>
                        if e.key == k then e == FindChain(Bucket(h, t, k), k).value.(val := v) else Holds(h, t, e)
  {
    hide Slot;
    var i, c := Slot(h, t, k), Bucket(h, t, k);
    RevalueChanges(c, k, v);
    SetBucketOk(h, t, i, Revalue(c, k, v), t.used);
    forall e ensures e in c <==> Holds(h, t, e) && Slot(h, t, e.key) == i { HoldsAt(h, t, i, e); }
  }

  /** The table with the entry of key k unlinked. */
  function UnlinkTable<K(==), V>(h: Hash<K>, t: Table<K, V>, k: K): (r: Table<K, V>)
    ensures r.exp == t.exp && r.Size() == t.Size()
  {
    SetBucket(t, Slot(h, t, k), Unlink(Bucket(h, t, k), k), if t.used > 0 then t.used - 1 else 0)
  }

  lemma {:induction false} UnlinkTableOk<K(!new), V(!new)>(h: Hash<K>, t: Table<K, V>, k: K)
    requires TableOk(h, t) && FindChain(Bucket(h, t, k), k).Some?
    ensures t.used > 0 && TableOk(h, UnlinkTable(h, t, k))
    ensures forall e :: Holds(h, UnlinkTable(h, t, k), e) <==> Holds(h, t, e) && e.key != k
  {
    hide Slot;
    var i, c := Slot(h, t, k), Bucket(h, t, k);
    TotalAtLeast(t.buckets, i);
    UnlinkRemoves(c, k);
    SetBucketOk(h, t, i, Unlink(c, k), t.used - 1);
    forall e ensures e in c <==> Holds(h, t, e) && Slot(h, t, e.key) == i { HoldsAt(h, t, i, e); }
  }
}
