/**
 The database updated in place: the dict, the expires, the log of what is
 propagated, and in cluster mode the slot index, which every change of the dict
 must follow.
 */
module Database {
  import opened Wrappers
  import opened AofCodec
  import opened Keyspace
  import opened KeyIndex

  class Store {
    const cluster: bool
    const slotOf: Key -> nat
    var dict: map<Key, Value>
    var expires: map<Key, int>
    var index: seq<Entry>
    var log: seq<Cmd>

    function View(): Db
      reads this
    {
      Db(dict, expires)
    }

    /** Every expire belongs to a key, and the index holds exactly the keys. */
    ghost predicate Valid()
      reads this
    {
      DbOk(View()) && (cluster ==> Indexes(index, dict.Keys, slotOf))
    }

    constructor (cluster: bool, slotOf: Key -> nat)
      ensures Valid() && View() == Db(map[], map[]) && log == [] && this.cluster == cluster && this.slotOf == slotOf
    {
      this.cluster, this.slotOf := cluster, slotOf;
      dict, expires, index, log := map[], map[], [], [];
    }

    /** slotToKeyAdd: the place in the order is found from the front. */
    method SlotToKeyAdd(k: Key)
      requires cluster && k !in dict && Indexes(index, dict.Keys, slotOf)
      modifies this`index
      ensures Indexes(index, dict.Keys + {k}, slotOf)
    {
      hide Less;
      var e: Entry := (slotOf(k), k);
      var i := 0;
      while i < |index| && Before(index[i], e)
        invariant 0 <= i <= |index| && (i > 0 ==> Before(index[i - 1], e))
      {
        i := i + 1;
      }
      if i < |index| { BeforeOrder(index[i], e, e); }
      InsertSorted(index, i, e);
      InsertIndexes(index, dict.Keys, slotOf, i, k);
      index := InsertAt(index, i, e);
    }

    /** slotToKeyDel. */
    method SlotToKeyDel(k: Key)
      requires cluster && k in dict && Indexes(index, dict.Keys, slotOf)
      modifies this`index
      ensures Indexes(index, dict.Keys - {k}, slotOf)
      ensures exists i :: 0 <= i < |old(index)| && old(index)[i].1 == k && index == RemoveAt(old(index), i)
    {
      hide Less;
      var e: Entry := (slotOf(k), k);
      assert e in index;
      var i := 0;
      while index[i] != e
        invariant 0 <= i < |index| && e in index[i..]
        decreases |index| - i
      {
        i := i + 1;
      }
      RemoveIndexes(index, dict.Keys, slotOf, i, k);
      index := RemoveAt(index, i);
    }

    /** dbAdd: its assertion is the precondition, which every caller below meets. */
    method DbAdd(k: Key, v: Value)
      requires Valid() && k !in dict
      modifies this`dict, this`index
      ensures Valid() && dict == old(dict)[k := v]
    {
      hide Indexes;
      if cluster { SlotToKeyAdd(k); }
      assert dict[k := v].Keys == dict.Keys + {k};
      dict := dict[k := v];
    }

    /** dbOverwrite: the expire time stays. */
    method DbOverwrite(k: Key, v: Value)
      requires Valid() && k in dict
      modifies this`dict
      ensures Valid() && dict == old(dict)[k := v]
    {
      assert dict[k := v].Keys == dict.Keys;
      dict := dict[k := v];
    }

    /** dbDelete. */
    method DbDelete(k: Key) returns (deleted: bool)
      requires Valid()
      modifies this`dict, this`expires, this`index
      ensures Valid() && View() == Delete(old(View()), k) && deleted == (k in old(dict))
      ensures cluster && deleted ==> exists i :: 0 <= i < |old(index)| && old(index)[i].1 == k && index == RemoveAt(old(index), i)
      ensures !deleted ==> index == old(index)
    {
      hide Indexes;
      deleted := k in dict;
      if deleted && cluster { SlotToKeyDel(k); }
      assert (dict - {k}).Keys == dict.Keys - {k} && (!deleted ==> dict - {k} == dict);
      expires := expires - {k};
      dict := dict - {k};
    }

    /** removeExpire: only for a key that exists. */
    method RemoveExpire(k: Key) returns (removed: bool)
      requires Valid() && k in dict
      modifies this`expires
      ensures Valid() && expires == old(expires) - {k} && removed == (k in old(expires))
    {
      removed := k in expires;
      expires := expires - {k};
    }

    /** expireIfNeeded on a master. */
    method ExpireNow(k: Key, now: int, loading: bool) returns (gone: bool)
      requires Valid()
      modifies this
      ensures Valid() && gone == (Expired(old(View()), k, now) && !loading)
      ensures View() == ExpireIfNeeded(old(View()), k, now, loading).db
      ensures log == old(log) + ExpireIfNeeded(old(View()), k, now, loading).log
    {
      hide Indexes;
      var when := GetExpire(View(), k);
      if when < 0 || loading || now <= when { return false; }
      log := log + [Del([k])];
      gone := DbDelete(k);
    }

    /** setKey: dbAdd is called exactly when the key is not there. */
    method StoreKey(k: Key, v: Value, now: int, loading: bool)
      requires Valid()
      modifies this
      ensures Valid() && View() == SetKey(ExpireIfNeeded(old(View()), k, now, loading).db, k, v)
      ensures log == old(log) + ExpireIfNeeded(old(View()), k, now, loading).log
    {
      hide Indexes, Expired;
      var _ := ExpireNow(k, now, loading);
      if k !in dict {
        DbAdd(k, v);
      } else {
        DbOverwrite(k, v);
      }
      var _ := RemoveExpire(k);
    }

    /** expireGenericCommand, and what it propagates. */
    method ExpireGeneric(c: Cmd, now: int, loading: bool)
      requires Valid() && c.Expire?
      modifies this
      ensures Valid() && View() == RunExpire(old(View()), c, now, loading).db && log == old(log) + RunExpire(old(View()), c, now, loading).log
    {
      hide Indexes, Expired, InMs;
      var when := InMs(c.amount, c.unit);
      if c.relative { when := when + now; }
      var _ := ExpireNow(c.key, now, loading);
      if c.key !in dict { return; }
      if when <= now && !loading {
        var deleted := DbDelete(c.key);
        assert deleted;
        log := log + [Del([c.key])];
      } else {
        expires := expires[c.key := when];
        log := log + [ExpireAt(c.key, when)];
      }
    }

    /** renameGenericCommand. */
    method RenameGeneric(c: Cmd, now: int, loading: bool)
      requires Valid() && c.Rename?
      modifies this
      ensures Valid() && View() == RunRename(old(View()), c, now, loading).db && log == old(log) + RunRename(old(View()), c, now, loading).log
    {
      hide Indexes, Expired, Moved;
      var _ := ExpireNow(c.from, now, loading);
      if c.from !in dict { return; }
      if c.from == c.to { return; }
      var value, when := dict[c.from], GetExpire(View(), c.from);
      var _ := ExpireNow(c.to, now, loading);
      if c.to in dict && c.nx { return; }
      MoveKey(c.from, c.to, value, when);
      log := log + [c];
    }

    /** The end of renameGenericCommand: the destination is free when dbAdd is called. */
    method MoveKey(from: Key, to: Key, value: Value, when: int)
      requires Valid()
      modifies this`dict, this`expires, this`index
      ensures Valid() && View() == Moved(old(View()), from, to, value, when)
    {
      hide Indexes;
      if to in dict { var _ := DbDelete(to); }
      assert View() == Delete(old(View()), to);
      DbAdd(to, value);
      if when != -1 { expires := expires[to := when]; }
      var _ := DbDelete(from);
    }

    /** countKeysInSlot. */
    method CountInSlot(slot: nat) returns (count: int)
      requires Valid() && cluster
      ensures count == |KeysInSlot(dict.Keys, slotOf, slot)|
    {
      count := CountKeysInSlot(index, dict.Keys, slotOf, slot);
    }

    /** delKeysInSlot: the entry after the deleted one takes its place in the index. */
    method DelKeysInSlot(slot: nat) returns (n: nat)
      requires Valid() && cluster
      modifies this`dict, this`expires, this`index
      ensures Valid() && n == |KeysInSlot(old(dict).Keys, slotOf, slot)|
      ensures View() == DelSet(old(View()), KeysInSlot(old(dict).Keys, slotOf, slot))
    {
      hide Indexes, Around, KeysInSlot;
      n := 0;
      IndexSorted(index, dict.Keys, slotOf);
      var first := FirstInRange(index, slot);
      ghost var keys := dict.Keys;
      ghost var all, gone := KeysInSlot(keys, slotOf, slot), {};
      assert DelSet(View(), {}) == View();
      if first < 0 {
        NoneInSlot(index, dict.Keys, slotOf, slot);
        return;
      }
      AroundStart(index, first, slot);
      while first < |index| && index[first].0 == slot
        invariant Valid() && 0 <= first <= |index| && Around(index, first, slot)
        invariant n == |gone| && gone <= all && View() == DelSet(old(View()), gone) && dict.Keys == keys - gone
        decreases |index|
      {
        var k := index[first].1;
        ghost var ix := index;
        EntryOf(index, dict.Keys, slotOf, first, keys, gone, slot);
        DelSetUnion(old(View()), gone, {k});
        SamePlace(ix, first, k, dict.Keys, slotOf);
        AroundRemove(ix, first, slot);
        var _ := DbDelete(k);
        assert index == RemoveAt(ix, first);
        gone := gone + {k};
        n := n + 1;
      }
      AroundEnd(index, first, slot, dict.Keys, slotOf);
      NoneInSlot(index, dict.Keys, slotOf, slot);
      AllGone(keys, gone, slotOf, slot);
    }
  }

  lemma {:induction false} IndexSorted(ix: seq<Entry>, keys: set<Key>, slotOf: Key -> nat)
    requires Indexes(ix, keys, slotOf)
    ensures Sorted(ix)
  {
  }

  /** The entries before first are of smaller slots, the others are not. */
  ghost predicate Around(ix: seq<Entry>, first: nat, slot: nat) {
    (forall j :: 0 <= j < |ix| && j < first ==> ix[j].0 < slot) && (forall j :: 0 <= j < |ix| && first <= j ==> ix[j].0 >= slot)
  }

  lemma {:induction false} AroundStart(ix: seq<Entry>, first: nat, slot: nat)
    requires Sorted(ix) && first < |ix| && ix[first].0 == slot && forall j :: 0 <= j < first ==> ix[j].0 < slot
    ensures Around(ix, first, slot)
  {
    forall j | first < j < |ix| ensures ix[j].0 >= slot { assert Before(ix[first], ix[j]); }
  }

  lemma {:induction false} AroundRemove(ix: seq<Entry>, first: nat, slot: nat)
    requires Around(ix, first, slot) && first < |ix|
    ensures Around(RemoveAt(ix, first), first, slot)
  {
  }

  lemma {:induction false} AroundEnd(ix: seq<Entry>, first: nat, slot: nat, keys: set<Key>, slotOf: Key -> nat)
    requires Around(ix, first, slot) && Indexes(ix, keys, slotOf) && first <= |ix| && (first < |ix| ==> ix[first].0 != slot)
    ensures forall j :: 0 <= j < |ix| ==> ix[j].0 != slot
  {
    forall j | first < j < |ix| ensures ix[j].0 != slot { assert Before(ix[first], ix[j]); }
  }

  lemma {:induction false} EntryOf(ix: seq<Entry>, now: set<Key>, slotOf: Key -> nat, i: nat, keys: set<Key>, gone: set<Key>, slot: nat)
    requires Indexes(ix, now, slotOf) && i < |ix| && ix[i].0 == slot && now == keys - gone
    ensures ix[i].1 in now && ix[i].1 in KeysInSlot(keys, slotOf, slot) && ix[i].1 !in gone
  {
  }

  lemma {:induction false} AllGone(keys: set<Key>, gone: set<Key>, slotOf: Key -> nat, slot: nat)
    requires gone <= KeysInSlot(keys, slotOf, slot) && KeysInSlot(keys - gone, slotOf, slot) == {}
    ensures gone == KeysInSlot(keys, slotOf, slot)
  {
    var all := KeysInSlot(keys, slotOf, slot);
    assert KeysInSlot(keys - gone, slotOf, slot) == all - gone;
    assert all == gone + (all - gone);
  }

  /** A key has one entry. */
  lemma {:induction false} SamePlace(ix: seq<Entry>, first: nat, k: Key, keys: set<Key>, slotOf: Key -> nat)
    requires Indexes(ix, keys, slotOf) && first < |ix| && ix[first].1 == k
    ensures forall i :: 0 <= i < |ix| && ix[i].1 == k ==> i == first
  {
    forall i | 0 <= i < |ix| && ix[i].1 == k ensures i == first {
      assert ix[i] == ix[first];
      BeforeOrder(ix[i], ix[i], ix[i]);
    }
    hide Less;
  }
}
