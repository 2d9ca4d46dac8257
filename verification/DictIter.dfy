/**
 Safe iteration: a client walks the dictionary while adding entries, looking
 keys up, and deleting the entry it was just given.
 */
module DictIter {
  import opened Words
  import opened Wrappers
  import opened Tables
  import opened DictModel
  import opened DictMap

  /** dictIterator of a safe iterator; entries are named by address. */
  datatype Iter = Iter(table: nat, index: int, entry: Option<nat>, nextEntry: Option<nat>)

  function NewIter(): Iter { Iter(0, -1, None, None) }

  function TableAt<K, V>(s: State<K, V>, it: Iter): Table<K, V> {
    TableNo(s, it.table)
  }

  /** The part of a chain that starts at the entry with the given address. */
  function From<K, V>(c: Chain<K, V>, addr: nat): (r: Chain<K, V>)
    ensures r != [] ==> r[0].addr == addr
  {
    if c == [] then [] else if c[0].addr == addr then c else From(c[1..], addr)
  }

  function NextOf<K, V>(c: Chain<K, V>): Option<nat> {
    if |c| > 1 then Some(c[1].addr) else None
  }

  /** Following nextEntry. */
  function Pending<K, V>(s: State<K, V>, it: Iter): Chain<K, V> {
    var t := TableAt(s, it);
    if it.entry.Some? && it.nextEntry.Some? && 0 <= it.index < t.Size() then From(t.buckets[it.index], it.nextEntry.value)
    else []
  }

  /** To the next bucket, or to the first bucket of the second table. */
  function StepIter<K, V>(s: State<K, V>, it: Iter): Iter {
    if it.index + 1 >= TableAt(s, it).Size() then it.(table := 1, index := 0) else it.(index := it.index + 1)
  }

  function BucketAt<K, V>(s: State<K, V>, it: Iter): Chain<K, V> {
    if 0 <= it.index < TableAt(s, it).Size() then TableAt(s, it).buckets[it.index] else []
  }

  /** The loop of dictNext. */
  function Advance<K, V>(s: State<K, V>, it: Iter): (r: (Iter, Option<Entry<K, V>>))
    requires it.table <= 1 && it.index >= -1
    decreases 1 - it.table,
              if it.index < TableAt(s, it).Size() then TableAt(s, it).Size() - it.index else 0,
              if it.entry.Some? then 1 else 0
  {
    if it.entry.Some? then
      var c := Pending(s, it);
      if c != [] then (it.(entry := Some(c[0].addr), nextEntry := NextOf(c)), Some(c[0]))
      else Advance(s, it.(entry := None))
    else
      var index := it.index + 1;
      if index >= TableAt(s, it).Size() && !(s.Rehashing() && it.table == 0) then (it.(index := index), None)
      else
        var it' := StepIter(s, it);
        var c := BucketAt(s, it');
        if c != [] then (it'.(entry := Some(c[0].addr), nextEntry := NextOf(c)), Some(c[0]))
        else Advance(s, it')
  }

  function TableNo<K, V>(s: State<K, V>, table: nat): Table<K, V> {
    if table == 0 then s.ht0 else s.ht1
  }

  /** One turn of the loop of dictNext. */
  lemma {:induction false} AdvanceUnfolds<K, V>(s: State<K, V>, it: Iter)
    requires it.table <= 1 && it.index >= -1
    ensures it.entry.Some? ==> Advance(s, it) == Returning(s, it, Pending(s, it))
    ensures it.entry.None? && AtEnd(s, it) ==> Advance(s, it) == (it.(index := it.index + 1), None)
    ensures it.entry.None? && !AtEnd(s, it) ==> Advance(s, it) == Returning(s, StepIter(s, it), BucketAt(s, StepIter(s, it)))
  {
  }

  /** Return the first entry of a chain, or go round the loop again. */
  function Returning<K, V>(s: State<K, V>, it: Iter, c: Chain<K, V>): (r: (Iter, Option<Entry<K, V>>))
    requires it.table <= 1 && it.index >= -1
  {
    if c != [] then (it.(entry := Some(c[0].addr), nextEntry := NextOf(c)), Some(c[0])) else Advance(s, it.(entry := None))
  }

  predicate AtEnd<K, V>(s: State<K, V>, it: Iter) {
    it.index + 1 >= TableAt(s, it).Size() && !(s.Rehashing() && it.table == 0)
  }

  /** The entries in the buckets after the given one, and in the second table if that is still to come. */
  function Later<K, V>(s: State<K, V>, table: nat, index: int): Chain<K, V>
    requires index >= -1
  {
    var b := TableNo(s, table).buckets;
    Flat(if index + 1 <= |b| then b[index + 1..] else []) + (if table == 0 then Flat(s.ht1.buckets) else [])
  }

  /** The entries dictNext has still to return, in order. */
  function Remaining<K, V>(s: State<K, V>, it: Iter): Chain<K, V>
    requires it.index >= -1
  {
    Pending(s, it) + Later(s, it.table, it.index)
  }

  /** Addresses are below the next free one and tell the held entries apart. */
  ghost predicate AddrOk<K(!new), V(!new)>(h: Hash<K>, s: State<K, V>) {
    && (forall e :: Held(h, s, e) ==> e.addr < s.nextAddr)
    && (forall e, e' :: Held(h, s, e) && Held(h, s, e') && e.addr == e'.addr ==> e == e')
  }

  ghost predicate WellFormed<K(!new), V(!new)>(h: Hash<K>, s: State<K, V>) {
    Ok(h, s) && AddrOk(h, s)
  }

  ghost predicate DistinctAddrs<K, V>(c: Chain<K, V>) {
    forall i, j :: 0 <= i < j < |c| ==> c[i].addr != c[j].addr
  }

  lemma {:induction false} FromTail<K, V>(c: Chain<K, V>, i: nat)
    requires DistinctAddrs(c) && i < |c|
    ensures From(c, c[i].addr) == c[i..]
  {
    if i != 0 {
      FromTail(c[1..], i - 1);
      assert c[1..][i - 1..] == c[i..];
    }
  }

  lemma {:induction false} FromIsSuffix<K, V>(c: Chain<K, V>, addr: nat) returns (i: nat)
    ensures i <= |c| && From(c, addr) == c[i..]
  {
    if c == [] || c[0].addr == addr {
      i := 0;
    } else {
      var j := FromIsSuffix(c[1..], addr);
      i := j + 1;
      assert c[1..][j..] == c[i..];
    }
  }

  lemma {:induction false} ChainAddrs<K(!new), V(!new)>(h: Hash<K>, s: State<K, V>, it: Iter, i: nat)
    requires WellFormed(h, s) && i < TableAt(s, it).Size()
    ensures DistinctAddrs(TableAt(s, it).buckets[i])
  {
    var t := TableAt(s, it);
    var c := t.buckets[i];
    forall e | e in c ensures Held(h, s, e) { HoldsAt(h, t, i, e); }
    assert DistinctKeys(c);
    hide TableOk, Holds;
    forall x, y | 0 <= x < y < |c| ensures c[x].addr != c[y].addr {
      assert c[x] in c && c[y] in c && c[x].key != c[y].key;
    }
  }

  /** After c[0] has been returned, what is pending is the rest of the chain. */
  lemma {:induction false} PendingAfter<K(!new), V(!new)>(h: Hash<K>, s: State<K, V>, it: Iter, i: nat)
    requires WellFormed(h, s) && 0 <= it.index < TableAt(s, it).Size() && i < |TableAt(s, it).buckets[it.index]|
    ensures var c := TableAt(s, it).buckets[it.index];
            Pending(s, it.(entry := Some(c[i].addr), nextEntry := NextOf(c[i..]))) == c[i + 1..]
  {
    ChainAddrs(h, s, it, it.index);
    hide WellFormed, DistinctAddrs;
    var c := TableAt(s, it).buckets[it.index];
    if i + 1 < |c| { FromTail(c, i + 1); }
  }

  ghost predicate IterOk<K, V>(s: State<K, V>, it: Iter) {
    && it.table <= 1 && it.index >= -1 && (it.table == 1 ==> s.Rehashing())
    && (it.entry.Some? ==> it.index >= 0)
    && (it.entry.Some? && it.nextEntry.Some? ==> Pending(s, it) != [])
  }

  /** Returning the ith entry of the current chain. */
  lemma {:induction false} TakeEntry<K(!new), V(!new)>(h: Hash<K>, s: State<K, V>, it: Iter, i: nat)
    requires WellFormed(h, s) && it.table <= 1 && (it.table == 1 ==> s.Rehashing())
    requires 0 <= it.index < TableAt(s, it).Size() && i < |TableAt(s, it).buckets[it.index]|
    ensures var c := TableAt(s, it).buckets[it.index];
            var it' := it.(entry := Some(c[i].addr), nextEntry := NextOf(c[i..]));
            IterOk(s, it') && [c[i]] + Remaining(s, it') == c[i..] + Later(s, it.table, it.index)
  {
    hide WellFormed, Later;
    PendingAfter(h, s, it, i);
    var c := TableAt(s, it).buckets[it.index];
    Regroup(c[i], c[i + 1..], Later(s, it.table, it.index));
    assert [c[i]] + c[i + 1..] == c[i..];
  }

  lemma {:induction false} Regroup<T>(x: T, c: seq<T>, d: seq<T>)
    ensures [x] + (c + d) == ([x] + c) + d
  {
  }

  lemma {:induction false} Assoc<T>(a: seq<T>, b: seq<T>, c: seq<T>)
    ensures a + b + c == a + (b + c)
  {
  }

  /** Stepping to the next bucket, or to the second table. */
  lemma {:induction false} StepBucket<K(!new), V(!new)>(h: Hash<K>, s: State<K, V>, table: nat, index: int)
    requires Ok(h, s) && table <= 1 && index >= -1 && (table == 1 ==> s.Rehashing())
    ensures index + 1 < TableNo(s, table).Size() ==>
              Later(s, table, index) == TableNo(s, table).buckets[index + 1] + Later(s, table, index + 1)
    ensures index + 1 >= TableNo(s, table).Size() && table == 0 && s.Rehashing() ==>
              Later(s, table, index) == s.ht1.buckets[0] + Later(s, 1, 0)
    ensures index + 1 >= TableNo(s, table).Size() && !(table == 0 && s.Rehashing()) ==> Later(s, table, index) == []
  {
    hide TableOk, Holds;
    var b := TableNo(s, table).buckets;
    if index + 1 < |b| {
      assert b[index + 1..][1..] == b[index + 2..];
      Assoc(b[index + 1], Flat(b[index + 2..]), if table == 0 then Flat(s.ht1.buckets) else []);
    } else if table == 0 && s.Rehashing() {
      assert Flat(if index + 1 <= |b| then b[index + 1..] else []) == [];
      assert Later(s, 1, 0) == Flat(s.ht1.buckets[1..]);
    }
  }

  /** What a call of dictNext does to the remaining entries. */
  ghost predicate Taken<K, V>(s: State<K, V>, it: Iter, it': Iter, r: Option<Entry<K, V>>)
    requires it.index >= -1
  {
    && IterOk(s, it') && it'.index >= 0
    && (r.None? ==> Remaining(s, it) == [] && Remaining(s, it') == [])
    && (r.Some? ==> Remaining(s, it) == [r.value] + Remaining(s, it'))
  }

  lemma {:induction false} TakePending<K(!new), V(!new)>(h: Hash<K>, s: State<K, V>, it: Iter)
    requires WellFormed(h, s) && it.table <= 1 && it.index >= -1 && (it.table == 1 ==> s.Rehashing())
    requires it.entry.Some? && Pending(s, it) != []
    ensures var (it', r) := Advance(s, it); Taken(s, it, it', r)
  {
    hide Ok, AddrOk, Later;
    var i := FromIsSuffix(TableAt(s, it).buckets[it.index], it.nextEntry.value);
    TakeEntry(h, s, it, i);
  }

  lemma {:induction false} TakeBucket<K(!new), V(!new)>(h: Hash<K>, s: State<K, V>, it: Iter)
    requires WellFormed(h, s) && it.table <= 1 && it.index >= -1 && (it.table == 1 ==> s.Rehashing()) && it.entry.None?
    requires it.index + 1 < TableAt(s, it).Size() || (s.Rehashing() && it.table == 0)
    ensures var it' := StepIter(s, it);
            && it'.index < TableAt(s, it').Size()
            && (TableAt(s, it').buckets[it'.index] == [] ==>
                  Remaining(s, it') == Remaining(s, it) && Advance(s, it) == Advance(s, it'))
            && (TableAt(s, it').buckets[it'.index] != [] ==>
                  var (i, r) := Advance(s, it); Taken(s, it, i, r))
  {
    hide TableOk, Holds, AddrOk, Later;
    var it' := StepIter(s, it);
    StepBucket(h, s, it.table, it.index);
    var c := TableAt(s, it').buckets[it'.index];
    if c != [] {
      TakeEntry(h, s, it', 0);
      assert c[0..] == c;
    }
  }

  /** dictNext returns the first of the remaining entries and leaves the others. */
  lemma {:induction false} AdvanceTakesHead<K(!new), V(!new)>(h: Hash<K>, s: State<K, V>, it: Iter)
    requires WellFormed(h, s) && it.table <= 1 && it.index >= -1 && (it.table == 1 ==> s.Rehashing())
    ensures var (it', r) := Advance(s, it); Taken(s, it, it', r)
    decreases 1 - it.table,
              if it.index < TableAt(s, it).Size() then TableAt(s, it).Size() - it.index else 0,
              if it.entry.Some? then 1 else 0
  {
    hide TableOk, Holds, AddrOk, Later, Pending, IterOk;
    if it.entry.Some? && Pending(s, it) != [] {
      TakePending(h, s, it);
    } else if it.entry.Some? {
      DropEntry(s, it);
      AdvanceTakesHead(h, s, it.(entry := None));
    } else if it.index + 1 < TableAt(s, it).Size() || (s.Rehashing() && it.table == 0) {
      TakeBucket(h, s, it);
      var it' := StepIter(s, it);
      if TableAt(s, it').buckets[it'.index] == [] {
        AdvanceTakesHead(h, s, it');
      }
    } else {
      TakeNothing(h, s, it);
    }
  }

  lemma {:induction false} DropEntry<K, V>(s: State<K, V>, it: Iter)
    requires it.table <= 1 && it.index >= -1
    requires it.entry.Some? && Pending(s, it) == []
    ensures Remaining(s, it) == Remaining(s, it.(entry := None)) && Advance(s, it) == Advance(s, it.(entry := None))
  {
    assert [] + Later(s, it.table, it.index) == Later(s, it.table, it.index);
  }

  lemma {:induction false} TakeNothing<K(!new), V(!new)>(h: Hash<K>, s: State<K, V>, it: Iter)
    requires WellFormed(h, s) && it.table <= 1 && it.index >= -1 && (it.table == 1 ==> s.Rehashing()) && it.entry.None?
    requires it.index + 1 >= TableAt(s, it).Size() && !(s.Rehashing() && it.table == 0)
    ensures var (it', r) := Advance(s, it); Taken(s, it, it', r)
  {
    hide Ok, AddrOk, Later, TableOk, Holds;
    StepBucket(h, s, it.table, it.index);
    StepBucket(h, s, it.table, it.index + 1);
  }

  // ----- which entries remain -----

  ghost predicate LaterHolds<K(!new), V(!new)>(h: Hash<K>, s: State<K, V>, it: Iter, x: Entry<K, V>) {
    || (Holds(h, TableAt(s, it), x) && Slot(h, TableAt(s, it), x.key) > it.index)
    || (it.table == 0 && Holds(h, s.ht1, x))
  }

  lemma {:induction false} FlatFrom<K(!new), V(!new)>(h: Hash<K>, t: Table<K, V>, from: nat, x: Entry<K, V>)
    requires TableOk(h, t) && from <= t.Size()
    ensures x in Flat(t.buckets[from..]) <==> Holds(h, t, x) && Slot(h, t, x.key) >= from
  {
    hide Slot;
    var b := t.buckets[from..];
    FlatMembers(b, x);
    assert forall i :: 0 <= i < |b| ==> b[i] == t.buckets[from + i];
    if i :| 0 <= i < |b| && x in b[i] { HoldsAt(h, t, from + i, x); }
    if Holds(h, t, x) && Slot(h, t, x.key) >= from {
      assert b[Slot(h, t, x.key) - from] == t.buckets[Slot(h, t, x.key)];
    }
  }

  lemma {:induction false} RemainingMembers<K(!new), V(!new)>(h: Hash<K>, s: State<K, V>, it: Iter, x: Entry<K, V>)
    requires Ok(h, s) && it.index >= -1
    ensures x in Remaining(s, it) <==> x in Pending(s, it) || LaterHolds(h, s, it, x)
  {
    var t := TableAt(s, it);
    assert TableOk(h, t);
    if it.index + 1 <= t.Size() {
      FlatFrom(h, t, it.index + 1, x);
    } else {
      assert Holds(h, t, x) ==> Slot(h, t, x.key) <= it.index;
    }
    FlatFrom(h, s.ht1, 0, x);
    assert s.ht1.buckets[0..] == s.ht1.buckets;
    hide Ok, Holds, Flat, Slot, Pending;
  }

  lemma {:induction false} FromMembers<K(!new), V(!new)>(c: Chain<K, V>, addr: nat, x: Entry<K, V>)
    requires x in From(c, addr)
    ensures x in c
  {
    if c[0].addr != addr { FromMembers(c[1..], addr, x); }
  }

  lemma {:induction false} PendingHeld<K(!new), V(!new)>(h: Hash<K>, s: State<K, V>, it: Iter, x: Entry<K, V>)
    requires Ok(h, s) && x in Pending(s, it)
    ensures Held(h, s, x)
  {
    FromMembers(TableAt(s, it).buckets[it.index], it.nextEntry.value, x);
    HoldsAt(h, TableAt(s, it), it.index, x);
  }

  lemma {:induction false} RemainingHeld<K(!new), V(!new)>(h: Hash<K>, s: State<K, V>, it: Iter)
    requires Ok(h, s) && it.index >= -1
    ensures forall x :: x in Remaining(s, it) ==> Held(h, s, x)
  {
    forall x | x in Remaining(s, it) ensures Held(h, s, x) {
      hide Ok, Holds, Slot, Pending, Remaining;
      RemainingMembers(h, s, it, x);
      if x in Pending(s, it) { PendingHeld(h, s, it, x); }
    }
  }

  lemma {:induction false} FromUnlink<K(!new), V(!new)>(c: Chain<K, V>, k: K, addr: nat)
    requires forall x :: x in From(c, addr) ==> x.key != k
    ensures From(Unlink(c, k), addr) == From(c, addr)
    decreases |c|
  {
    if c != [] {
      if c[0].key == k {
      } else if c[0].addr == addr {
        UnlinkAbsent(c, k);
      } else {
        FromUnlink(c[1..], k, addr);
        assert Unlink(c, k)[1..] == Unlink(c[1..], k);
      }
    }
  }

  lemma {:induction false} UnlinkAbsent<K(!new), V(!new)>(c: Chain<K, V>, k: K)
    requires forall x :: x in c ==> x.key != k
    ensures Unlink(c, k) == c
  {
    if c != [] { UnlinkAbsent(c[1..], k); }
  }

  lemma {:induction false} FlatDrop<K, V>(b: seq<Chain<K, V>>, i: nat, j: nat) returns (n: nat)
    requires i < |b| && j <= |b[i]|
    ensures n <= |Flat(b)| && b[i][j..] + Flat(b[i + 1..]) == Flat(b)[n..]
  {
    if i == 0 {
      n := j;
      assert b[1..] == b[i + 1..];
      assert Flat(b)[j..] == b[0][j..] + Flat(b[1..]);
    } else {
      var m := FlatDrop(b[1..], i - 1, j);
      n := |b[0]| + m;
      assert b[1..][i - 1] == b[i] && b[1..][i..] == b[i + 1..];
      assert Flat(b)[n..] == Flat(b[1..])[m..];
    }
  }

  lemma {:induction false} SuffixOfTable<K, V>(s: State<K, V>, it: Iter) returns (n: nat)
    requires it.index >= -1
    ensures var b := TableAt(s, it).buckets;
            n <= |Flat(b)| && Pending(s, it) + Flat(if it.index + 1 <= |b| then b[it.index + 1..] else []) == Flat(b)[n..]
  {
    var b := TableAt(s, it).buckets;
    if it.index >= |b| {
      n := |Flat(b)|;
    } else if it.index == -1 {
      n := 0;
      assert b[0..] == b;
    } else {
      var j := |b[it.index]|;
      if it.entry.Some? && it.nextEntry.Some? {
        j := FromIsSuffix(b[it.index], it.nextEntry.value);
      }
      n := FlatDrop(b, it.index, j);
    }
  }

  /** What remains is an end piece of all the entries, table 0 before table 1. */
  lemma {:induction false} SuffixOfEntries<K(!new), V(!new)>(s: State<K, V>, it: Iter) returns (n: nat)
    requires it.index >= -1 && it.table <= 1
    ensures n <= |EntriesOf(s)| && Remaining(s, it) == EntriesOf(s)[n..]
  {
    hide Flat, Pending;
    var b := TableAt(s, it).buckets;
    var m := SuffixOfTable(s, it);
    var f, g := Flat(s.ht0.buckets), Flat(s.ht1.buckets);
    var rest := Flat(if it.index + 1 <= |b| then b[it.index + 1..] else []);
    if it.table == 0 {
      n := m;
      Assoc(Pending(s, it), rest, g);
      DropFirst(f, g, m);
    } else {
      n := |f| + m;
      Assoc(Pending(s, it), rest, []);
      DropSecond(f, g, m);
    }
    assert rest + [] == rest;
  }

  lemma {:induction false} DropFirst<T>(f: seq<T>, g: seq<T>, n: nat)
    requires n <= |f|
    ensures (f + g)[n..] == f[n..] + g
  {
  }

  lemma {:induction false} DropSecond<T>(f: seq<T>, g: seq<T>, n: nat)
    requires n <= |g|
    ensures (f + g)[|f| + n..] == g[n..]
  {
  }

  lemma {:induction false} RemainingDistinct<K(!new), V(!new)>(h: Hash<K>, s: State<K, V>, it: Iter)
    requires Ok(h, s) && it.index >= -1 && it.table <= 1
    ensures DistinctKeys(Remaining(s, it))
  {
    hide Ok, Remaining, EntriesOf;
    EntriesDistinct(h, s);
    var n := SuffixOfEntries(s, it);
  }

  // ----- what the client may do between calls -----

  datatype Op<K, V> = Next | Lookup(key: K) | Insertion(key: K, val: V, canResize: bool) | DeleteCurrent

  /** The dictionary, the iterator, what was returned so far, and the entry the client may delete. */
  datatype Config<K, V> = Config(s: State<K, V>, it: Iter, returned: Chain<K, V>, current: Option<Entry<K, V>>)

  function Start<K, V>(s: State<K, V>): Config<K, V> { Config(s, NewIter(), [], None) }

  ghost function Apply<K(!new), V(!new)>(h: Hash<K>, c: Config<K, V>, op: Op<K, V>): Config<K, V>
    requires Ok(h, c.s) && Roomy(c.s) && IterOk(c.s, c.it)
  {
    match op
    case Next =>
      var s1 := if c.it.index == -1 && c.it.table == 0 then c.s.(iterators := c.s.iterators + 1) else c.s;
      var (it', r) := Advance(s1, c.it);
      Config(s1, it', if r.Some? then c.returned + [r.value] else c.returned, r)
    case Lookup(k) => c.(s := Find(h, c.s, k).0)
    case Insertion(k, v, canResize) => c.(s := Add(h, c.s, k, v, canResize).0)
    case DeleteCurrent =>
      if c.current.Some? then c.(s := Delete(h, c.s, c.current.value.key).0, current := None) else c
  }

  /** What a client does between calls to the bindings: a lookup may rehash, an insertion adds a new key, and the current entry is deleted. */
  lemma {:induction false} ApplyMeans<K(!new), V(!new)>(h: Hash<K>, c: Config<K, V>, op: Op<K, V>)
    requires Ok(h, c.s) && Roomy(c.s) && IterOk(c.s, c.it) && op != Next
    ensures var r := Apply(h, c, op);
            && Ok(h, r.s) && r == c.(s := r.s, current := r.current)
            && (op.Lookup? ==> Contents(h, r.s) == Contents(h, c.s) && (c.s.Rehashing() && c.s.Used() > 0 ==> r.s == RehashStep(h, c.s)))
            && (op.Insertion? ==> Contents(h, r.s) == if op.key in Contents(h, c.s) then Contents(h, c.s) else Contents(h, c.s)[op.key := op.val])
            && (op.DeleteCurrent? ==>
                  r.current.None? && Contents(h, r.s) == if c.current.Some? then Contents(h, c.s) - {c.current.value.key} else Contents(h, c.s))
  {
    hide Ok, Roomy, IterOk, Add, Delete, Contents, Search, RehashStep, Advance;
    match op
    case Lookup(k) => FindIsMapLookup(h, c.s, k);
    case Insertion(k, v, canResize) => AddIsMapInsert(h, c.s, k, v, canResize);
    case DeleteCurrent => if c.current.Some? { DeleteIsMapRemove(h, c.s, c.current.value.key); }
  }

  /** rem is what is still to come; start is the first address not in use when the iteration began. */
  ghost predicate Progress<K(!new), V(!new)>(h: Hash<K>, s: State<K, V>, rem: Chain<K, V>, returned: Chain<K, V>,
                                             current: Option<Entry<K, V>>, start: nat)
  {
    && AddrOk(h, s) && start <= s.nextAddr && s.iterators > 0
    && DistinctAddrs(returned)
    && (forall r :: r in returned ==> r.addr < s.nextAddr)
    && (forall e, r :: e in rem && r in returned ==> e.addr != r.addr)
    && (forall e :: Held(h, s, e) && e.addr < start ==> e in returned || e in rem)
    && (current.Some? ==> current.value in returned && Held(h, s, current.value))
  }

  /** What holds after the first call of dictNext. */
  ghost predicate Inv<K(!new), V(!new)>(h: Hash<K>, c: Config<K, V>, start: nat) {
    && Ok(h, c.s) && IterOk(c.s, c.it) && c.it.index >= 0
    && Progress(h, c.s, Remaining(c.s, c.it), c.returned, c.current, start)
  }

  ghost predicate SameMembers<K(!new), V(!new)>(c: Chain<K, V>, d: Chain<K, V>) {
    forall x :: x in c <==> x in d
  }

  lemma {:induction false} ProgressSame<K(!new), V(!new)>(h: Hash<K>, s: State<K, V>, s': State<K, V>, rem: Chain<K, V>, rem': Chain<K, V>,
                                                         returned: Chain<K, V>, current: Option<Entry<K, V>>, start: nat)
    requires Progress(h, s, rem, returned, current, start) && SameEntries(h, s, s') && SameMembers(rem, rem')
    requires s'.nextAddr == s.nextAddr && s'.iterators == s.iterators
    ensures Progress(h, s', rem', returned, current, start)
  {
    hide Held;
  }

  lemma {:induction false} ProgressAdded<K(!new), V(!new)>(h: Hash<K>, s: State<K, V>, s': State<K, V>, rem: Chain<K, V>, rem': Chain<K, V>,
                                                          returned: Chain<K, V>, current: Option<Entry<K, V>>, start: nat, e: Entry<K, V>)
    requires Progress(h, s, rem, returned, current, start)
    requires e.addr == s.nextAddr && s'.nextAddr == s.nextAddr + 1 && s'.iterators == s.iterators
    requires forall x :: Held(h, s', x) <==> Held(h, s, x) || x == e
    requires forall x :: x in rem ==> x in rem'
    requires forall x :: x in rem' ==> x in rem || x == e
    ensures Progress(h, s', rem', returned, current, start)
  {
    hide Held, DistinctAddrs;
  }

  lemma {:induction false} ProgressRemoved<K(!new), V(!new)>(h: Hash<K>, s: State<K, V>, s': State<K, V>, rem: Chain<K, V>, rem': Chain<K, V>,
                                                            returned: Chain<K, V>, current: Option<Entry<K, V>>, start: nat, k: K)
    requires Progress(h, s, rem, returned, current, start)
    requires s'.nextAddr == s.nextAddr && s'.iterators == s.iterators
    requires forall x :: Held(h, s', x) <==> Held(h, s, x) && x.key != k
    requires SameMembers(rem, rem')
    ensures Progress(h, s', rem', returned, None, start)
  {
    hide Held;
  }

  lemma {:induction false} ProgressTaken<K(!new), V(!new)>(h: Hash<K>, s: State<K, V>, rem: Chain<K, V>, rem': Chain<K, V>,
                                                          returned: Chain<K, V>, current: Option<Entry<K, V>>, start: nat, e: Entry<K, V>)
    requires Progress(h, s, rem, returned, current, start)
    requires rem == [e] + rem' && DistinctKeys(rem) && forall x :: x in rem ==> Held(h, s, x)
    ensures Progress(h, s, rem', returned + [e], Some(e), start)
  {
    DistinctTail(rem);
    assert rem[1..] == rem' && rem[0] == e;
    hide Held, DistinctKeys;
    assert Held(h, s, e);
    forall x | x in rem' ensures x.addr != e.addr && x in rem && Held(h, s, x) {
    }
    assert DistinctAddrs(returned + [e]);
  }

  lemma {:induction false} CurrentIsReturned<K(!new), V(!new)>(h: Hash<K>, s: State<K, V>, rem: Chain<K, V>, returned: Chain<K, V>,
                                                              cur: Entry<K, V>, start: nat)
    requires Progress(h, s, rem, returned, Some(cur), start)
    ensures Held(h, s, cur) && cur !in rem
  {
    hide Held;
  }

  // ----- one client step -----

  lemma {:induction false} LookupKeepsInv<K(!new), V(!new)>(h: Hash<K>, c: Config<K, V>, k: K, start: nat)
    requires Inv(h, c, start) && Roomy(c.s)
    ensures Apply(h, c, Lookup(k)) == c
  {
  }

  lemma {:induction false} SameTablePending<K, V>(s: State<K, V>, s': State<K, V>, it: Iter)
    requires TableAt(s', it) == TableAt(s, it)
    ensures Pending(s', it) == Pending(s, it)
  {
  }

  lemma {:induction false} ExpandKeepsRemaining<K(!new), V(!new)>(h: Hash<K>, s: State<K, V>, it: Iter, canResize: bool)
    requires Ok(h, s) && Roomy(s) && IterOk(s, it)
    ensures var s' := ExpandIfNeeded(s, canResize).0;
            && Ok(h, s') && IterOk(s', it) && SameMembers(Remaining(s, it), Remaining(s', it)) && SameEntries(h, s, s')
            && s'.nextAddr == s.nextAddr && s'.iterators == s.iterators && !s'.ht0.IsNull()
  {
    ExpandIfNeededOk(h, s, canResize);
    ExpandChanges(h, s, it, canResize);
    hide Ok, Holds, ExpandIfNeeded, Slot, Remaining, Pending, LongMax;
    var s' := ExpandIfNeeded(s, canResize).0;
    forall x ensures x in Remaining(s', it) <==> x in Remaining(s, it) {
      RemainingMembers(h, s, it, x);
      RemainingMembers(h, s', it, x);
    }
  }

  /** An expansion adds an empty table: the iterator's chain and the entries ahead of it are the same. */
  lemma {:induction false} ExpandChanges<K(!new), V(!new)>(h: Hash<K>, s: State<K, V>, it: Iter, canResize: bool)
    requires Ok(h, s) && Roomy(s) && IterOk(s, it)
    ensures var s' := ExpandIfNeeded(s, canResize).0;
            && s'.nextAddr == s.nextAddr && s'.iterators == s.iterators && Pending(s', it) == Pending(s, it)
            && (s.Rehashing() ==> s'.Rehashing())
            && forall x :: LaterHolds(h, s', it, x) <==> LaterHolds(h, s, it, x)
  {
    ExpandIfNeededOk(h, s, canResize);
    var s' := ExpandIfNeeded(s, canResize).0;
    if s' != s {
      NullTableOk<K, V>(h);
      if s.ht0.IsNull() {
        NullHoldsNothing(h, s.ht0);
        FreshTableOk<K, V>(h, s'.ht0.exp);
      } else {
        FreshTableOk<K, V>(h, s'.ht1.exp);
        SameTablePending(s, s', it);
      }
    }
    hide TableOk, Holds, Slot;
  }

  lemma {:induction false} PendingNotNew<K(!new), V(!new)>(h: Hash<K>, s: State<K, V>, it: Iter, e: Entry<K, V>)
    requires Ok(h, s) && AddrOk(h, s) && IterOk(s, it) && e.addr == s.nextAddr
    ensures it.entry.Some? && it.nextEntry.Some? ==> it.nextEntry.value != e.addr
  {
    if it.entry.Some? && it.nextEntry.Some? {
      PendingHeld(h, s, it, Pending(s, it)[0]);
    }
  }

  /** A chain with a new entry linked in at its head, seen from a later entry. */
  lemma {:induction false} FromPushed<K, V>(c: Chain<K, V>, e: Entry<K, V>, addr: nat)
    requires e.addr != addr
    ensures From([e] + c, addr) == From(c, addr)
  {
    assert ([e] + c)[1..] == c;
  }

  lemma {:induction false} InsertKeepsPending<K(!new), V(!new)>(h: Hash<K>, s: State<K, V>, it: Iter, k: K, v: V)
    requires Ok(h, s) && AddrOk(h, s) && IterOk(s, it)
    ensures Pending(Insert(h, s, k, v), it) == Pending(s, it)
  {
    var e := Entry(s.nextAddr, k, v);
    PendingNotNew(h, s, it, e);
    var t := TableAt(s, it);
    hide Slot, Ok, AddrOk;
    if it.entry.Some? && it.nextEntry.Some? && 0 <= it.index < t.Size() {
      FromPushed(t.buckets[it.index], e, it.nextEntry.value);
    }
  }

  lemma {:induction false} InsertKeepsRemaining<K(!new), V(!new)>(h: Hash<K>, s: State<K, V>, it: Iter, k: K, v: V)
    requires Ok(h, s) && AddrOk(h, s) && IterOk(s, it) && !s.ht0.IsNull() && Search(h, s, k).None?
    ensures Ok(h, Insert(h, s, k, v)) && IterOk(Insert(h, s, k, v), it)
    ensures forall x :: Held(h, Insert(h, s, k, v), x) <==> Held(h, s, x) || x == Entry(s.nextAddr, k, v)
    ensures forall x :: x in Remaining(s, it) ==> x in Remaining(Insert(h, s, k, v), it)
    ensures forall x :: x in Remaining(Insert(h, s, k, v), it) ==> x in Remaining(s, it) || x == Entry(s.nextAddr, k, v)
  {
    var e, s' := Entry(s.nextAddr, k, v), Insert(h, s, k, v);
    InsertOk(h, s, k, v);
    InsertKeepsPending(h, s, it, k, v);
    KeyAbsent(h, s, k);
    PushEntryOk(h, if s.Rehashing() then s.ht1 else s.ht0, e);
    SameSlot(h, s.ht0, s'.ht0);
    SameSlot(h, s.ht1, s'.ht1);
    hide Ok, AddrOk, Holds, Slot, Search, PushEntry, Remaining, Pending;
    forall x ensures x in Remaining(s, it) ==> x in Remaining(s', it)
      ensures x in Remaining(s', it) ==> x in Remaining(s, it) || x == e
    {
      RemainingMembers(h, s, it, x);
      RemainingMembers(h, s', it, x);
    }
  }

  lemma {:induction false} InsertionKeepsInv<K(!new), V(!new)>(h: Hash<K>, c: Config<K, V>, k: K, v: V, canResize: bool, start: nat)
    requires Inv(h, c, start) && Roomy(c.s)
    ensures Inv(h, Apply(h, c, Insertion(k, v, canResize)), start)
  {
    hide Ok, IterOk, Held, Search, Remaining, Insert, ExpandIfNeeded, RehashStep, DistinctAddrs, LongMax;
    var s1 := ExpandIfNeeded(c.s, canResize).0;
    ExpandKeepsRemaining(h, c.s, c.it, canResize);
    ProgressSame(h, c.s, s1, Remaining(c.s, c.it), Remaining(s1, c.it), c.returned, c.current, start);
    assert Prepare(h, c.s, canResize) == s1 by { PrepareWhileIterating(h, c.s, canResize); }
    hide Prepare;
    if Search(h, s1, k).None? {
      var s2 := Insert(h, s1, k, v);
      InsertKeepsRemaining(h, s1, c.it, k, v);
      InsertFields(h, s1, k, v);
      ProgressAdded(h, s1, s2, Remaining(s1, c.it), Remaining(s2, c.it), c.returned, c.current, start, Entry(s1.nextAddr, k, v));
    }
  }

  lemma {:induction false} PrepareWhileIterating<K(!new), V(!new)>(h: Hash<K>, s: State<K, V>, canResize: bool)
    requires Ok(h, s) && Roomy(s) && s.iterators > 0
    ensures Prepare(h, s, canResize) == ExpandIfNeeded(s, canResize).0
  {
    hide Ok, ExpandIfNeeded;
  }

  lemma {:induction false} InsertFields<K(!new), V(!new)>(h: Hash<K>, s: State<K, V>, k: K, v: V)
    ensures Insert(h, s, k, v).nextAddr == s.nextAddr + 1 && Insert(h, s, k, v).iterators == s.iterators
  {
  }

  lemma {:induction false} RemoveKeepsPending<K(!new), V(!new)>(h: Hash<K>, s: State<K, V>, it: Iter, k: K)
    requires forall x :: x in Pending(s, it) ==> x.key != k
    ensures Pending(Remove(h, s, k), it) == Pending(s, it)
  {
    hide Slot, FindChain;
    var t := TableAt(s, it);
    if it.entry.Some? && it.nextEntry.Some? && 0 <= it.index < t.Size() {
      FromUnlink(t.buckets[it.index], k, it.nextEntry.value);
    }
  }

  lemma {:induction false} RemoveKeepsRemaining<K(!new), V(!new)>(h: Hash<K>, s: State<K, V>, it: Iter, cur: Entry<K, V>)
    requires Ok(h, s) && IterOk(s, it) && Held(h, s, cur) && cur !in Remaining(s, it)
    ensures Search(h, s, cur.key) == Some(cur) && Ok(h, Remove(h, s, cur.key))
    ensures forall x :: Held(h, Remove(h, s, cur.key), x) <==> Held(h, s, x) && x.key != cur.key
    ensures IterOk(Remove(h, s, cur.key), it) && SameMembers(Remaining(s, it), Remaining(Remove(h, s, cur.key), it))
  {
    var s' := Remove(h, s, cur.key);
    SearchFinds(h, s, cur);
    RemoveOk(h, s, cur.key);
    RemainingHeld(h, s, it);
    SameSlot(h, s.ht0, s'.ht0);
    SameSlot(h, s.ht1, s'.ht1);
    forall x | x in Remaining(s, it) ensures x.key != cur.key {
      hide Ok, Search, Held, Remaining;
      SearchFinds(h, s, x);
    }
    RemoveKeepsPending(h, s, it, cur.key);
    hide Ok, Holds, Slot, Search, Remove, Remaining, Pending;
    forall x ensures x in Remaining(s', it) <==> x in Remaining(s, it) {
      RemainingMembers(h, s, it, x);
      RemainingMembers(h, s', it, x);
    }
  }

  lemma {:induction false} RemoveFields<K(!new), V(!new)>(h: Hash<K>, s: State<K, V>, k: K)
    ensures Remove(h, s, k).nextAddr == s.nextAddr && Remove(h, s, k).iterators == s.iterators
    ensures Remove(h, s, k).ht0.exp == s.ht0.exp && Remove(h, s, k).ht1.exp == s.ht1.exp
    ensures Remove(h, s, k).rehashidx == s.rehashidx
  {
  }

  lemma {:induction false} DeleteKeepsInv<K(!new), V(!new)>(h: Hash<K>, c: Config<K, V>, start: nat)
    requires Inv(h, c, start) && Roomy(c.s)
    ensures Inv(h, Apply(h, c, DeleteCurrent), start)
  {
    hide Ok, IterOk, Held, Search, Remaining, Remove, DistinctAddrs, Delete, AddrOk, LongMax;
    if c.current.Some? {
      var cur := c.current.value;
      CurrentIsReturned(h, c.s, Remaining(c.s, c.it), c.returned, cur, start);
      DeleteWhileIterating(h, c.s, cur);
      RemoveKeepsRemaining(h, c.s, c.it, cur);
      RemoveFields(h, c.s, cur.key);
      var s' := Remove(h, c.s, cur.key);
      ProgressRemoved(h, c.s, s', Remaining(c.s, c.it), Remaining(s', c.it), c.returned, c.current, start, cur.key);
    }
  }

  lemma {:induction false} DeleteWhileIterating<K(!new), V(!new)>(h: Hash<K>, s: State<K, V>, cur: Entry<K, V>)
    requires Ok(h, s) && s.iterators > 0 && Held(h, s, cur)
    ensures Delete(h, s, cur.key) == (Remove(h, s, cur.key), true)
  {
    SearchFinds(h, s, cur);
    NullTableOk<K, V>(h);
    assert !s.ht0.IsNull() by {
      if s.ht0.IsNull() { NullHoldsNothing(h, s.ht0); }
    }
    hide Ok, Search, Remove;
  }

  lemma {:induction false} NextKeepsInv<K(!new), V(!new)>(h: Hash<K>, c: Config<K, V>, start: nat)
    requires Inv(h, c, start) && Roomy(c.s)
    ensures Inv(h, Apply(h, c, Next), start)
    ensures Apply(h, c, Next).current.None? ==> forall e :: Held(h, c.s, e) && e.addr < start ==> e in c.returned
  {
    hide Ok, Held, Remaining, DistinctAddrs, DistinctKeys, Advance, AddrOk, LongMax, Pending;
    AdvanceTakesHead(h, c.s, c.it);
    RemainingDistinct(h, c.s, c.it);
    RemainingHeld(h, c.s, c.it);
    var (it', r) := Advance(c.s, c.it);
    if r.Some? {
      ProgressTaken(h, c.s, Remaining(c.s, c.it), Remaining(c.s, it'), c.returned, c.current, start, r.value);
    }
  }

  /** The first call of dictNext registers the iterator and starts from the whole table. */
  lemma {:induction false} FirstNext<K(!new), V(!new)>(h: Hash<K>, s: State<K, V>)
    requires Ok(h, s) && AddrOk(h, s) && Roomy(s)
    ensures Inv(h, Apply(h, Start(s), Next), s.nextAddr)
    ensures Apply(h, Start(s), Next).current.None? ==> forall e :: !Held(h, s, e)
  {
    hide Ok, Held, Remaining, DistinctKeys, Advance, AddrOk, LongMax, Pending;
    var s1 := s.(iterators := s.iterators + 1);
    RegisterOk(h, s);
    AllRemain(h, s1);
    AdvanceTakesHead(h, s1, NewIter());
    RemainingDistinct(h, s1, NewIter());
    var all := Remaining(s1, NewIter());
    assert Progress(h, s1, all, [], None, s.nextAddr);
    var (it', r) := Advance(s1, NewIter());
    if r.Some? {
      ProgressTaken(h, s1, all, Remaining(s1, it'), [], None, s.nextAddr, r.value);
      assert [] + [r.value] == [r.value];
    }
  }

  lemma {:induction false} AllRemain<K(!new), V(!new)>(h: Hash<K>, s: State<K, V>)
    requires Ok(h, s)
    ensures forall e :: e in Remaining(s, NewIter()) <==> Held(h, s, e)
  {
    forall e ensures e in Remaining(s, NewIter()) <==> Held(h, s, e) {
      hide Ok, Holds, Slot, Remaining;
      RemainingMembers(h, s, NewIter(), e);
    }
  }

  lemma {:induction false} RegisterOk<K(!new), V(!new)>(h: Hash<K>, s: State<K, V>)
    requires Ok(h, s) && AddrOk(h, s)
    ensures var s1 := s.(iterators := s.iterators + 1);
            Ok(h, s1) && AddrOk(h, s1) && forall e :: Held(h, s1, e) <==> Held(h, s, e)
  {
    hide TableOk, Holds;
    var s1 := s.(iterators := s.iterators + 1);
    assert forall e :: Held(h, s1, e) <==> Held(h, s, e);
  }

  lemma {:induction false} StepKeepsInv<K(!new), V(!new)>(h: Hash<K>, c: Config<K, V>, op: Op<K, V>, start: nat)
    requires Inv(h, c, start) && Roomy(c.s)
    ensures Inv(h, Apply(h, c, op), start)
  {
    match op
    case Next => NextKeepsInv(h, c, start);
    case Lookup(k) => LookupKeepsInv(h, c, k, start);
    case Insertion(k, v, canResize) => InsertionKeepsInv(h, c, k, v, canResize, start);
    case DeleteCurrent => DeleteKeepsInv(h, c, start);
  }

  // ----- whole iterations -----

  /** A client run: the first call of dictNext, then any operations one after the other. */
  ghost predicate IsRun<K(!new), V(!new)>(h: Hash<K>, cs: seq<Config<K, V>>, ops: seq<Op<K, V>>) {
    && |cs| == |ops| + 1 && cs[0] == Start(cs[0].s) && AddrOk(h, cs[0].s)
    && (|ops| > 0 ==> ops[0].Next?)
    && (forall i :: 0 <= i < |cs| ==> Ok(h, cs[i].s) && Roomy(cs[i].s) && IterOk(cs[i].s, cs[i].it))
    && (forall i :: 0 <= i < |ops| ==> cs[i + 1] == Apply(h, cs[i], ops[i]))
  }

  lemma {:induction false} RunKeepsInv<K(!new), V(!new)>(h: Hash<K>, cs: seq<Config<K, V>>, ops: seq<Op<K, V>>, n: nat)
    requires IsRun(h, cs, ops) && 0 < n < |cs|
    ensures Inv(h, cs[n], cs[0].s.nextAddr)
  {
    hide Ok, IterOk, Apply, AddrOk, Inv, LongMax;
    if n == 1 {
      FirstNext(h, cs[0].s);
    } else {
      RunKeepsInv(h, cs, ops, n - 1);
      StepKeepsInv(h, cs[n - 1], ops[n - 1], cs[0].s.nextAddr);
    }
  }

  /** However the client behaves, no entry is returned twice. */
  lemma {:induction false} NeverReturnedTwice<K(!new), V(!new)>(h: Hash<K>, cs: seq<Config<K, V>>, ops: seq<Op<K, V>>, n: nat)
    requires IsRun(h, cs, ops) && n < |cs|
    ensures DistinctAddrs(cs[n].returned)
  {
    hide Ok, IterOk, Apply, AddrOk, Remaining;
    if n > 0 { RunKeepsInv(h, cs, ops, n); }
  }

  /** When dictNext returns NULL, every entry present since the start and still present has been returned. */
  lemma {:induction false} IterationIsComplete<K(!new), V(!new)>(h: Hash<K>, cs: seq<Config<K, V>>, ops: seq<Op<K, V>>, n: nat, e: Entry<K, V>)
    requires IsRun(h, cs, ops) && n < |ops| && ops[n].Next? && cs[n + 1].current.None?
    requires Held(h, cs[n].s, e) && e.addr < cs[0].s.nextAddr
    ensures e in cs[n].returned && cs[n + 1].returned == cs[n].returned
  {
    if n == 0 {
      hide Ok, IterOk, Apply, AddrOk, Inv, Held, LongMax;
      FirstNext(h, cs[0].s);
    } else {
      RunKeepsInv(h, cs, ops, n);
      NextKeepsInv(h, cs[n], cs[0].s.nextAddr);
      hide Ok, IterOk, Advance, AddrOk, Inv, Held, LongMax;
    }
  }
}
