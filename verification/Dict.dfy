/**
 The dictionary as an object: two bucket arrays updated in place, each method
 proved to do to the tables what the corresponding function does to their value.
 */
module Dict {
  import opened Words
  import opened Wrappers
  import opened Tables
  import DictModel
  import DictMap
  import DictIter

  /** _dictNextPower, for sizes below LONG_MAX: double from the initial size. */
  method NextPower(size: nat) returns (i: nat, e: nat)
    requires size < DictModel.LongMax()
    ensures e == DictModel.NextExp(size, DictModel.INITIAL_EXP) && i == Pow2(e)
    ensures i >= size && (i == 4 || i < 2 * size)
  {
    i, e := 4, DictModel.INITIAL_EXP;
    assert Pow2(1) == 2 && Pow2(2) == 4;
    while i < size
      invariant DictModel.INITIAL_EXP <= e < WORD_BITS && i == Pow2(e)
      invariant DictModel.NextExp(size, e) == DictModel.NextExp(size, DictModel.INITIAL_EXP)
      invariant i == 4 || i < 2 * size
      decreases WORD_BITS - e
    {
      if e == WORD_BITS - 1 { assert false; }
      i, e := i * 2, e + 1;
    }
  }

  /** Search one chain from its head. */
  method SearchChain<K(==), V>(c: Chain<K, V>, k: K) returns (r: Option<Entry<K, V>>)
    ensures r == FindChain(c, k)
  {
    var he := c;
    while he != []
      invariant FindChain(he, k) == FindChain(c, k)
      decreases |he|
    {
      if he[0].key == k { return Some(he[0]); }
      he := he[1..];
    }
    return None;
  }

  lemma {:induction false} LoopMoves<K(!new), V(!new)>(h: Hash<K>, s: DictModel.State<K, V>, n: nat, visits: nat)
    requires DictModel.Ok(h, s) && s.Rehashing() && visits > 0 && n > 0
    requires 0 <= s.rehashidx < s.ht0.Size() && s.ht0.buckets[s.rehashidx] != [] && s.ht0.used != 0
    ensures s.ht0.used >= |s.ht0.buckets[s.rehashidx]| && DictModel.Ok(h, DictModel.MoveBucket(h, s)) && DictModel.MoveBucket(h, s).Rehashing()
    ensures DictModel.RehashLoop(h, s, n, visits) == DictModel.RehashLoop(h, DictModel.MoveBucket(h, s), n - 1, visits)
  {
    DictModel.MoveBucketOk(h, s);
    hide TableOk, Holds, DictModel.MoveChain;
  }

  lemma {:induction false} LoopSkips<K(!new), V(!new)>(h: Hash<K>, s: DictModel.State<K, V>, n: nat, visits: nat)
    requires DictModel.Ok(h, s) && s.Rehashing() && visits > 0 && n > 0
    requires 0 <= s.rehashidx < s.ht0.Size() && s.ht0.buckets[s.rehashidx] == [] && s.ht0.used != 0
    ensures var s' := s.(rehashidx := s.rehashidx + 1);
            && DictModel.Ok(h, s') && s'.rehashidx < s'.ht0.Size()
            && DictModel.RehashLoop(h, s, n, visits) == if visits == 1 then (s', true) else DictModel.RehashLoop(h, s', n, visits - 1)
  {
    DictModel.SkipBucketOk(h, s);
    DictModel.RehashIndexInRange(h, s.(rehashidx := s.rehashidx + 1));
    hide TableOk, Holds, DictModel.MoveChain;
  }

  lemma {:induction false} LoopEnds<K(!new), V(!new)>(h: Hash<K>, s: DictModel.State<K, V>, n: nat, visits: nat)
    requires DictModel.Ok(h, s) && s.Rehashing() && visits > 0 && (n == 0 || s.ht0.used == 0)
    ensures DictModel.RehashLoop(h, s, n, visits) == DictModel.FinishRehash(s)
  {
    hide TableOk, Holds;
  }

  class Dict<K(==,!new), V(!new)> {
    const hash: Hash<K>
    var ht0: array<Chain<K, V>>
    var ht1: array<Chain<K, V>>
    var exp0: nat
    var exp1: nat
    var used0: nat
    var used1: nat
    var rehashidx: int
    var iterators: nat
    var nextAddr: nat

    function View(): DictModel.State<K, V>
      reads this, ht0, ht1
    {
      DictModel.State(Table(exp0, ht0[..], used0), Table(exp1, ht1[..], used1), rehashidx, iterators, nextAddr)
    }

    ghost predicate Valid()
      reads this, ht0, ht1
    {
      ht0 != ht1 && DictModel.Ok(hash, View())
    }

    /** The arrays in use afterwards are the old ones or new ones. */
    twostate predicate Framed()
      reads this
    {
      && (ht0 == old(ht0) || ht0 == old(ht1) || fresh(ht0))
      && (ht1 == old(ht1) || fresh(ht1))
    }

    constructor (hash: Hash<K>)
      ensures Valid() && fresh(ht0) && fresh(ht1) && this.hash == hash
      ensures View() == DictModel.Create() && DictMap.Contents(hash, View()) == map[]
    {
      this.hash := hash;
      ht0, ht1 := new Chain<K, V>[0], new Chain<K, V>[0];
      exp0, exp1, used0, used1, rehashidx, iterators, nextAddr := 0, 0, 0, 0, -1, 0, 0;
      new;
      assert View() == DictModel.Create();
      DictModel.CreateOk<K, V>(hash);
      DictMap.UsedCountsKeys(hash, View());
    }

    predicate Rehashing()
      reads this
    {
      rehashidx != -1
    }

    /** Relink every entry of one chain into the second table. */
    method MoveEntries(c: Chain<K, V>)
      requires ht0 != ht1 && Shaped(View().ht1) && ht1.Length > 0 && used0 >= |c|
      modifies this`used0, this`used1, ht1
      ensures Table(exp1, ht1[..], used1) == DictModel.MoveChain(hash, old(View()).ht1, c)
      ensures used0 == old(used0) - |c|
    {
      hide Index;
      var de := c;
      while de != []
        invariant |de| <= |c| && used0 == old(used0) - |c| + |de| && Shaped(View().ht1)
        invariant DictModel.MoveChain(hash, View().ht1, de) == DictModel.MoveChain(hash, old(View()).ht1, c)
        decreases |de|
      {
        var i := Index(hash(de[0].key), exp1);
        ghost var before := View().ht1;
        ht1[i] := [de[0]] + ht1[i];
        used0, used1 := used0 - 1, used1 + 1;
        assert View().ht1 == PushEntry(hash, before, de[0]);
        de := de[1..];
      }
    }

    /** Move the chain at rehashidx and step past it. */
    method MoveBucket()
      requires Valid() && Rehashing() && rehashidx < ht0.Length
      modifies this, ht0, ht1
      ensures ht0 == old(ht0) && ht1 == old(ht1)
      ensures old(View()).ht0.used >= |old(View()).ht0.buckets[old(rehashidx)]|
      ensures View() == DictModel.MoveBucket(hash, old(View())) && Valid()
    {
      DictModel.MoveBucketOk(hash, View());
      hide Placed, Holds, Total, DictModel.MoveChain;
      MoveEntries(ht0[rehashidx]);
      ht0[rehashidx] := [];
      rehashidx := rehashidx + 1;
      assert View() == DictModel.MoveBucket(hash, old(View()));
    }

    /** Drop the first table once it is empty. */
    method FinishRehash() returns (more: bool)
      requires Valid() && Rehashing()
      modifies this
      ensures Valid() && Framed() && (View(), more) == DictModel.FinishRehash(old(View()))
    {
      DictModel.FinishRehashOk(hash, View());
      hide TableOk, Holds;
      if used0 == 0 {
        ht0, exp0, used0 := ht1, exp1, used1;
        ht1, exp1, used1 := new Chain<K, V>[0], 0, 0;
        rehashidx := -1;
        assert View() == DictModel.FinishRehash(old(View())).0;
        return false;
      }
      return true;
    }

    /** Step over empty buckets; stopped when the allowed visits are used up. */
    method SkipEmpty(visits: nat, ghost left: nat) returns (stopped: bool, rest: nat)
      requires Valid() && Rehashing() && used0 != 0 && visits > 0 && left > 0
      modifies this`rehashidx
      ensures Valid() && Rehashing()
      ensures stopped ==> (View(), true) == DictModel.RehashLoop(hash, old(View()), left, visits)
      ensures !stopped ==> rest > 0 && rehashidx < ht0.Length && ht0[rehashidx] != []
      ensures !stopped ==> DictModel.RehashLoop(hash, View(), left, rest) == DictModel.RehashLoop(hash, old(View()), left, visits)
    {
      hide DictModel.Ok, DictModel.RehashLoop;
      rest := visits;
      RehashingIsPositive();
      DictModel.RehashIndexInRange(hash, View());
      while ht0[rehashidx] == []
        invariant Valid() && 0 <= rehashidx < ht0.Length && rest > 0
        invariant DictModel.RehashLoop(hash, View(), left, rest) == DictModel.RehashLoop(hash, old(View()), left, visits)
        decreases ht0.Length - rehashidx
      {
        ghost var s := View();
        LoopSkips(hash, s, left, rest);
        rehashidx := rehashidx + 1;
        assert View() == s.(rehashidx := s.rehashidx + 1);
        rest := rest - 1;
        if rest == 0 { return true, 0; }
      }
      return false, rest;
    }

    lemma {:induction false} RehashingIsPositive()
      requires Valid() && Rehashing()
      ensures rehashidx >= 0 && ht1.Length > 0
    {
    }

    /** dictRehash. */
    method Rehash(n: nat) returns (more: bool)
      requires Valid()
      modifies this, ht0, ht1
      ensures Valid() && Framed() && (View(), more) == DictModel.Rehash(hash, old(View()), n)
    {
      hide DictModel.Ok, DictModel.RehashLoop, DictModel.MoveBucket, DictModel.FinishRehash;
      if !Rehashing() { return false; }
      if n == 0 { more := FinishRehash(); return; }
      var visits, left := n * 10, n;
      while left > 0 && used0 != 0
        invariant Valid() && Rehashing() && ht0 == old(ht0) && ht1 == old(ht1) && visits > 0
        invariant DictModel.RehashLoop(hash, View(), left, visits) == DictModel.RehashLoop(hash, old(View()), n, n * 10)
      {
        var stopped, rest := SkipEmpty(visits, left);
        if stopped { return true; }
        visits := rest;
        RehashingIsPositive();
        ghost var s := View();
        LoopMoves(hash, s, left, visits);
        MoveBucket();
        left := left - 1;
      }
      LoopEnds(hash, View(), left, visits);
      more := FinishRehash();
    }

    /** _dictRehashStep: not while an iterator is running. */
    method RehashStep()
      requires Valid()
      modifies this, ht0, ht1
      ensures Valid() && Framed() && View() == DictModel.RehashStep(hash, old(View()))
    {
      hide DictModel.Ok, DictModel.Rehash;
      if iterators == 0 { var _ := Rehash(1); }
    }

    /** dictExpand. */
    method Expand(size: nat) returns (ok: bool)
      requires Valid() && size < DictModel.LongMax()
      modifies this
      ensures Valid() && (View(), ok) == DictModel.Expand(old(View()), size)
      ensures (ht0 == old(ht0) || fresh(ht0)) && (ht1 == old(ht1) || fresh(ht1))
    {
      DictModel.ExpandOk(hash, View(), size);
      hide DictModel.Ok, DictModel.NextExp, DictModel.LongMax, Pow2;
      var realsize, e := NextPower(size);
      if Rehashing() || used0 > size { return false; }
      if realsize == ht0.Length { return false; }
      var n := new Chain<K, V>[realsize](_ => []);
      assert n[..] == FreshTable<K, V>(e).buckets;
      if ht0.Length == 0 {
        ht0, exp0, used0 := n, e, 0;
      } else {
        ht1, exp1, used1, rehashidx := n, e, 0, 0;
      }
      assert View() == DictModel.Expand(old(View()), size).0;
      return true;
    }

    /** _dictExpandIfNeeded. */
    method ExpandIfNeeded(canResize: bool) returns (ok: bool)
      requires Valid() && 2 * used0 < DictModel.LongMax()
      modifies this
      ensures Valid() && (View(), ok) == DictModel.ExpandIfNeeded(old(View()), canResize)
      ensures (ht0 == old(ht0) || fresh(ht0)) && (ht1 == old(ht1) || fresh(ht1))
    {
      hide DictModel.Ok, DictModel.Expand, DictModel.LongMax;
      if Rehashing() { return true; }
      if ht0.Length == 0 {
        ok := Expand(4);
        return;
      }
      if used0 >= ht0.Length && (canResize || used0 / ht0.Length > DictModel.FORCE_RESIZE_RATIO) {
        ok := Expand(used0 * 2);
        return;
      }
      return true;
    }

    /** The search loop over the tables that _dictKeyIndex, dictFind and dictGenericDelete share. */
    method Lookup(k: K) returns (r: Option<Entry<K, V>>)
      requires Valid()
      ensures r == DictModel.Search(hash, View(), k)
    {
      hide Index, Placed, Total, Pow2;
      r := None;
      if ht0.Length > 0 {
        var i := Index(hash(k), exp0);
        r := SearchChain(ht0[i], k);
      }
      if r.None? && Rehashing() {
        var i := Index(hash(k), exp1);
        r := SearchChain(ht1[i], k);
      }
    }

    /** dictAdd. */
    method Add(k: K, v: V, canResize: bool) returns (ok: bool)
      requires Valid() && DictMap.Roomy(View())
      modifies this, ht0, ht1
      ensures Valid() && Framed() && (View(), ok) == DictMap.Add(hash, old(View()), k, v, canResize)
    {
      hide DictModel.Ok, DictModel.RehashStep, DictModel.ExpandIfNeeded, DictModel.Search, DictModel.LongMax, DictMap.Contents;
      DictMap.SameEntriesSameMap(hash, View(), DictModel.RehashStep(hash, View()));
      if Rehashing() { RehashStep(); }
      DictModel.ExpandIfNeededOk(hash, View(), canResize);
      ghost var s0 := View();
      var expanded := ExpandIfNeeded(canResize);
      ghost var s1 := View();
      assert s1 == DictMap.Prepare(hash, old(View()), canResize);
      var found := Lookup(k);
      if found.Some? { return false; }
      DictMap.InsertOk(hash, View(), k, v);
      Link(Entry(nextAddr, k, v));
      return true;
    }

    /** Link a new entry into the table that takes insertions. */
    method Link(e: Entry<K, V>)
      requires Valid() && e.addr == nextAddr && ht0.Length > 0
      modifies this, ht0, ht1
      ensures ht0 == old(ht0) && ht1 == old(ht1) && View() == DictMap.Insert(hash, old(View()), e.key, e.val)
    {
      hide Index, Placed, Total, Pow2;
      if Rehashing() {
        var i := Index(hash(e.key), exp1);
        ht1[i] := [e] + ht1[i];
        used1 := used1 + 1;
      } else {
        var i := Index(hash(e.key), exp0);
        ht0[i] := [e] + ht0[i];
        used0 := used0 + 1;
      }
      nextAddr := nextAddr + 1;
      assert View() == DictMap.Insert(hash, old(View()), e.key, e.val);
    }

    /** dictFind. */
    method Find(k: K) returns (r: Option<V>)
      requires Valid()
      modifies this, ht0, ht1
      ensures Valid() && Framed() && (View(), r) == DictMap.Find(hash, old(View()), k)
    {
      hide DictModel.Ok, DictModel.RehashStep, DictModel.Search;
      if used0 + used1 == 0 { return None; }
      if Rehashing() { RehashStep(); }
      var found := Lookup(k);
      return if found.Some? then Some(found.value.val) else None;
    }

    /** Replace the value in place, in the table the key was found in. */
    method SetVal(k: K, v: V)
      requires Valid() && DictModel.Search(hash, View(), k).Some?
      modifies ht0, ht1
      ensures View() == DictMap.Store(hash, old(View()), k, v)
    {
      hide Index, Placed, Total, Pow2, FindChain, Revalue;
      if ht0.Length > 0 {
        var i := Index(hash(k), exp0);
        var f := SearchChain(ht0[i], k);
        if f.Some? {
          ht0[i] := Revalue(ht0[i], k, v);
          assert View() == DictMap.Store(hash, old(View()), k, v);
          return;
        }
      }
      var i := Index(hash(k), exp1);
      if i < ht1.Length { ht1[i] := Revalue(ht1[i], k, v); }
      assert View() == DictMap.Store(hash, old(View()), k, v);
    }

    /** dictReplace. */
    method Replace(k: K, v: V, canResize: bool) returns (added: bool)
      requires Valid() && DictMap.Roomy(View())
      modifies this, ht0, ht1
      ensures Valid() && Framed() && (View(), added) == DictMap.Replace(hash, old(View()), k, v, canResize)
    {
      hide DictModel.Ok, DictModel.Search, DictModel.LongMax, DictMap.Add, DictMap.Find, DictMap.Contents, DictMap.Store;
      DictMap.AddIsMapInsert(hash, View(), k, v, canResize);
      added := Add(k, v, canResize);
      if added { return; }
      DictMap.FindIsMapLookup(hash, View(), k);
      var _ := Find(k);
      DictMap.StoreOk(hash, View(), k, v);
      SetVal(k, v);
    }

    /** Unlink the entry, in the table it was found in. */
    method UnlinkEntry(k: K)
      requires Valid() && DictModel.Search(hash, View(), k).Some?
      modifies this, ht0, ht1
      ensures ht0 == old(ht0) && ht1 == old(ht1) && View() == DictMap.Remove(hash, old(View()), k)
    {
      hide Index, Placed, Total, Pow2, FindChain, Unlink;
      if ht0.Length > 0 {
        var i := Index(hash(k), exp0);
        var f := SearchChain(ht0[i], k);
        if f.Some? {
          ht0[i] := Unlink(ht0[i], k);
          used0 := if used0 > 0 then used0 - 1 else 0;
          assert View() == DictMap.Remove(hash, old(View()), k);
          return;
        }
      }
      var i := Index(hash(k), exp1);
      if i < ht1.Length { ht1[i] := Unlink(ht1[i], k); }
      used1 := if used1 > 0 then used1 - 1 else 0;
      assert View() == DictMap.Remove(hash, old(View()), k);
    }

    /** dictDelete. */
    method Delete(k: K) returns (ok: bool)
      requires Valid()
      modifies this, ht0, ht1
      ensures Valid() && Framed() && (View(), ok) == DictMap.Delete(hash, old(View()), k)
    {
      hide DictModel.Ok, DictModel.Search, DictModel.RehashStep, DictMap.Remove;
      if ht0.Length == 0 { return false; }
      if Rehashing() { RehashStep(); }
      var found := Lookup(k);
      if found.None? { return false; }
      DictMap.RemoveOk(hash, View(), k);
      UnlinkEntry(k);
      return true;
    }
  }

  /** A safe iterator: its position, the entry last returned and the one to return next. */
  class SafeIterator<K(==,!new), V(!new)> {
    const d: Dict<K, V>
    var table: nat
    var index: int
    var entry: Option<nat>
    var nextEntry: Option<nat>

    function View(): DictIter.Iter
      reads this
    {
      DictIter.Iter(table, index, entry, nextEntry)
    }

    constructor (d: Dict<K, V>)
      ensures this.d == d && View() == DictIter.NewIter()
    {
      this.d := d;
      table, index, entry, nextEntry := 0, -1, None, None;
    }

    /** The bucket array the iterator is in. */
    function Array(): array<Chain<K, V>>
      reads this, d
    {
      if table == 0 then d.ht0 else d.ht1
    }

    /** Step to the next bucket, or to the second table; false at the end. */
    method Step() returns (more: bool)
      requires entry.None? && table <= 1 && index >= -1
      modifies this`table, this`index
      ensures more == !DictIter.AtEnd(d.View(), old(View()))
      ensures View() == if more then DictIter.StepIter(d.View(), old(View())) else old(View()).(index := old(index) + 1)
    {
      index := index + 1;
      if index >= Array().Length {
        if d.Rehashing() && table == 0 {
          table, index := 1, 0;
        } else {
          return false;
        }
      }
      return true;
    }

    /** The chain to return from: what follows the last entry, or the bucket just reached. */
    method Current(fromNext: bool) returns (c: Chain<K, V>)
      requires table <= 1 && (fromNext ==> entry.Some?)
      ensures c == if fromNext then DictIter.Pending(d.View(), View()) else DictIter.BucketAt(d.View(), View())
    {
      c := [];
      if 0 <= index < Array().Length {
        if !fromNext {
          c := Array()[index];
        } else if nextEntry.Some? {
          c := DictIter.From(Array()[index], nextEntry.value);
        }
      }
    }

    /** The position is beyond the given one, or the entry there has been dropped. */
    predicate Later(t: nat, i: int, hadEntry: bool)
      reads this, d
    {
      (hadEntry && table == t && index == i) || (table == t && i < index < Array().Length) || table > t
    }

    /** One turn of the loop: return an entry, stop, or go on from a later position. */
    method Turn() returns (more: bool, r: Option<Entry<K, V>>)
      requires table <= 1 && index >= -1
      modifies this
      ensures more ==> table <= 1 && index >= -1 && entry.None? && DictIter.Advance(d.View(), View()) == DictIter.Advance(d.View(), old(View()))
      ensures more ==> Later(old(table), old(index), old(entry).Some?)
      ensures !more ==> (View(), r) == DictIter.Advance(d.View(), old(View()))
    {
      hide DictIter.Advance, DictIter.Pending, DictIter.BucketAt, DictIter.StepIter, DictIter.AtEnd, DictIter.NextOf;
      DictIter.AdvanceUnfolds(d.View(), View());
      StepDecreases();
      more, r := true, None;
      var fromNext := entry.Some?;
      if !fromNext { more := Step(); }
      if more {
        var c := Current(fromNext);
        if c != [] {
          more, entry, nextEntry, r := false, Some(c[0].addr), DictIter.NextOf(c), Some(c[0]);
        } else {
          entry := None;
        }
      }
    }

    /** dictNext. */
    method Next() returns (r: Option<Entry<K, V>>)
      requires d.Valid() && DictIter.IterOk(d.View(), View())
      modifies this, d`iterators
      ensures d.iterators == old(d.iterators) + if old(index) == -1 && old(table) == 0 then 1 else 0
      ensures (View(), r) == DictIter.Advance(d.View(), old(View()))
    {
      if entry.None? && index == -1 && table == 0 { d.iterators := d.iterators + 1; }
      hide DictModel.Ok, DictIter.Advance, DictIter.Pending;
      ghost var s := d.View();
      ghost var goal := DictIter.Advance(s, View());
      var more := true;
      r := None;
      while more
        invariant d.View() == s && d.iterators == s.iterators
        invariant more ==> table <= 1 && index >= -1 && DictIter.Advance(s, View()) == goal
        invariant !more ==> (View(), r) == goal
        decreases more, 1 - table, if index < Array().Length then Array().Length - index else 0, if entry.Some? then 1 else 0
      {
        more, r := Turn();
      }
    }

    lemma {:induction false} StepDecreases()
      requires table <= 1 && index >= -1
      ensures var it' := DictIter.StepIter(d.View(), View());
              (it'.table == 1 && it'.index == 0) || (it'.table == table && it'.index == index + 1 && index + 1 < Array().Length)
      ensures table == 1 ==> DictIter.AtEnd(d.View(), View()) || DictIter.StepIter(d.View(), View()).index == index + 1 < Array().Length
    {
    }
  }
}
