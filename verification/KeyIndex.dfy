/**
 The slot to keys index of a cluster node: the keys of the database ordered by hash
 slot and then by name, as the skiplist keeps them.
 */
module KeyIndex {
  import opened Wrappers
  import opened AofCodec
  import opened Keyspace

  /** A key and its hash slot. */
  type Entry = (nat, Key)

  /** The order of the names: byte by byte, a prefix first. */
  predicate Less(a: Key, b: Key)
    decreases |a|
  {
    b != [] && (a == [] || a[0] < b[0] || (a[0] == b[0] && Less(a[1..], b[1..])))
  }

  lemma {:induction false} LessIrreflexive(a: Key)
    ensures !Less(a, a)
    decreases |a|
  {
    if a != [] { LessIrreflexive(a[1..]); }
  }

  lemma {:induction false} LessTransitive(a: Key, b: Key, c: Key)
    requires Less(a, b) && Less(b, c)
    ensures Less(a, c)
    decreases |a|
  {
    if a != [] && a[0] == b[0] && b[0] == c[0] { LessTransitive(a[1..], b[1..], c[1..]); }
  }

  lemma {:induction false} LessTotal(a: Key, b: Key)
    ensures Less(a, b) || Less(b, a) || a == b
    decreases |a|
  {
    if a != [] && b != [] && a[0] == b[0] {
      LessTotal(a[1..], b[1..]);
      assert a == [a[0]] + a[1..] && b == [b[0]] + b[1..];
    }
  }

  predicate Before(x: Entry, y: Entry) { x.0 < y.0 || (x.0 == y.0 && Less(x.1, y.1)) }

  lemma {:induction false} BeforeOrder(x: Entry, y: Entry, z: Entry)
    ensures !Before(x, x)
    ensures Before(x, y) && Before(y, z) ==> Before(x, z)
    ensures Before(x, y) || Before(y, x) || x == y
  {
    LessIrreflexive(x.1);
    LessTotal(x.1, y.1);
    hide Less;
    if Before(x, y) && Before(y, z) && x.0 == z.0 { LessTransitive(x.1, y.1, z.1); }
  }

  ghost predicate Sorted(ix: seq<Entry>) { forall i, j :: 0 <= i < j < |ix| ==> Before(ix[i], ix[j]) }

  /** The index holds exactly the keys, each with its slot, in order. */
  ghost predicate Indexes(ix: seq<Entry>, keys: set<Key>, slotOf: Key -> nat) {
    && Sorted(ix)
    && (forall i :: 0 <= i < |ix| ==> ix[i].1 in keys && ix[i].0 == slotOf(ix[i].1))
    && (forall k :: k in keys ==> (slotOf(k), k) in ix)
  }

  function InsertAt(ix: seq<Entry>, i: nat, e: Entry): seq<Entry>
    requires i <= |ix|
  {
    ix[..i] + [e] + ix[i..]
  }

  function RemoveAt(ix: seq<Entry>, i: nat): seq<Entry>
    requires i < |ix|
  {
    ix[..i] + ix[i + 1..]
  }

  lemma {:induction false} InsertSorted(ix: seq<Entry>, i: nat, e: Entry)
    requires Sorted(ix) && i <= |ix| && (i > 0 ==> Before(ix[i - 1], e)) && (i < |ix| ==> Before(e, ix[i]))
    ensures Sorted(InsertAt(ix, i, e))
  {
    hide Before;
    var r := InsertAt(ix, i, e);
    forall a, b | 0 <= a < b < |r| ensures Before(r[a], r[b]) {
      if a == i && b > i + 1 { BeforeOrder(e, ix[i], ix[b - 1]); }
      if b == i && a < i - 1 { BeforeOrder(ix[a], ix[i - 1], e); }
    }
  }

  lemma {:induction false} InsertIndexes(ix: seq<Entry>, keys: set<Key>, slotOf: Key -> nat, i: nat, k: Key)
    requires Indexes(ix, keys, slotOf) && i <= |ix| && Sorted(InsertAt(ix, i, (slotOf(k), k)))
    ensures Indexes(InsertAt(ix, i, (slotOf(k), k)), keys + {k}, slotOf)
  {
    hide Sorted;
    var e, r := (slotOf(k), k), InsertAt(ix, i, (slotOf(k), k));
    assert forall x :: x in r <==> x in ix || x == e by { assert ix == ix[..i] + ix[i..]; }
    assert forall j :: 0 <= j < |r| ==> r[j] in r;
  }

  lemma {:induction false} RemoveIndexes(ix: seq<Entry>, keys: set<Key>, slotOf: Key -> nat, i: nat, k: Key)
    requires Indexes(ix, keys, slotOf) && i < |ix| && ix[i].1 == k
    ensures Indexes(RemoveAt(ix, i), keys - {k}, slotOf)
  {
    var r := RemoveAt(ix, i);
    forall j | 0 <= j < |r| ensures r[j].1 != k {
      var x := if j < i then ix[j] else ix[j + 1];
      BeforeOrder(x, ix[i], x);
      assert r[j] == x;
    }
    hide Before;
    forall x | x in keys - {k} ensures (slotOf(x), x) in r {
      var j :| 0 <= j < |ix| && ix[j] == (slotOf(x), x);
      assert r[if j < i then j else j - 1] == ix[j];
    }
  }

  // ----- ranges -----

  /** The entries of a slot are the stretch from first to last. */
  ghost predicate Stretch(ix: seq<Entry>, slot: nat, first: nat, last: nat) {
    && first <= last < |ix|
    && forall i :: 0 <= i < |ix| ==> (ix[i].0 == slot <==> first <= i <= last)
  }

  ghost function KeysInSlot(keys: set<Key>, slotOf: Key -> nat, slot: nat): set<Key> { set k | k in keys && slotOf(k) == slot }

  lemma {:induction false} DistinctKeys(part: seq<Entry>)
    requires Sorted(part) && forall i, j :: 0 <= i < |part| && 0 <= j < |part| ==> part[i].0 == part[j].0
    ensures |set x | x in part :: x.1| == |part|
    decreases |part|
  {
    var all := set x | x in part :: x.1;
    if part == [] {
      assert all == {};
    } else {
      var front, e := part[..|part| - 1], part[|part| - 1];
      DistinctKeys(front);
      assert all == (set x | x in front :: x.1) + {e.1};
      forall x | x in front ensures x.1 != e.1 {
        BeforeOrder(x, e, x);
      }
    }
  }

  /** The length of the stretch is the number of keys of the slot. */
  lemma {:induction false} StretchCounts(ix: seq<Entry>, keys: set<Key>, slotOf: Key -> nat, slot: nat, first: nat, last: nat)
    requires Indexes(ix, keys, slotOf) && Stretch(ix, slot, first, last)
    ensures |KeysInSlot(keys, slotOf, slot)| == last - first + 1
  {
    var part := ix[first..last + 1];
    DistinctKeys(part);
    hide Before;
    var all := set x | x in part :: x.1;
    forall k | k in KeysInSlot(keys, slotOf, slot) ensures k in all {
      var i :| 0 <= i < |ix| && ix[i] == (slotOf(k), k);
      assert part[i - first] == ix[i];
    }
    assert all == KeysInSlot(keys, slotOf, slot);
  }

  lemma {:induction false} NoneInSlot(ix: seq<Entry>, keys: set<Key>, slotOf: Key -> nat, slot: nat)
    requires Indexes(ix, keys, slotOf) && forall i :: 0 <= i < |ix| ==> ix[i].0 != slot
    ensures KeysInSlot(keys, slotOf, slot) == {}
  {
    forall k | k in keys ensures slotOf(k) != slot {
      assert (slotOf(k), k) in ix;
    }
  }

  /** zslFirstInRange for a single slot: its first entry, or -1. */
  method FirstInRange(ix: seq<Entry>, slot: nat) returns (i: int)
    requires Sorted(ix)
    ensures -1 <= i < |ix|
    ensures i >= 0 ==> ix[i].0 == slot && forall j :: 0 <= j < i ==> ix[j].0 < slot
    ensures i == -1 ==> forall j :: 0 <= j < |ix| ==> ix[j].0 != slot
  {
    i := 0;
    while i < |ix| && ix[i].0 < slot
      invariant 0 <= i <= |ix| && forall j :: 0 <= j < i ==> ix[j].0 < slot
    {
      i := i + 1;
    }
    if i == |ix| || ix[i].0 > slot {
      forall j | 0 <= j < |ix| ensures ix[j].0 != slot { assert i < j ==> Before(ix[i], ix[j]); }
      return -1;
    }
  }

  /** zslLastInRange for a single slot. */
  method LastInRange(ix: seq<Entry>, slot: nat) returns (i: int)
    requires Sorted(ix)
    ensures -1 <= i < |ix|
    ensures i >= 0 ==> ix[i].0 == slot && forall j :: i < j < |ix| ==> ix[j].0 > slot
    ensures i == -1 ==> forall j :: 0 <= j < |ix| ==> ix[j].0 != slot
  {
    var n := 0;
    while n < |ix| && ix[n].0 <= slot
      invariant 0 <= n <= |ix| && forall j :: 0 <= j < n ==> ix[j].0 <= slot
    {
      n := n + 1;
    }
    i := n - 1;
    forall j | n < j < |ix| ensures ix[j].0 > slot { assert Before(ix[n], ix[j]); }
    if i >= 0 && ix[i].0 < slot {
      forall j | 0 <= j < i ensures ix[j].0 != slot { assert Before(ix[j], ix[i]); }
      return -1;
    }
  }

  /** countKeysInSlot: from the ranks of the first and the last entry, the number of keys of the slot. */
  method CountKeysInSlot(ix: seq<Entry>, ghost keys: set<Key>, slotOf: Key -> nat, slot: nat) returns (count: int)
    requires Indexes(ix, keys, slotOf)
    ensures count == |KeysInSlot(keys, slotOf, slot)|
  {
    count := 0;
    var first := FirstInRange(ix, slot);
    if first >= 0 {
      var rank := first + 1;
      count := |ix| - (rank - 1);
      var last := LastInRange(ix, slot);
      if last >= 0 {
        rank := last + 1;
        count := count - (|ix| - rank);
      }
      BetweenIsSlot(ix, slot, first, last);
      StretchCounts(ix, keys, slotOf, slot, first, last);
    } else {
      NoneInSlot(ix, keys, slotOf, slot);
    }
  }

  lemma {:induction false} BetweenIsSlot(ix: seq<Entry>, slot: nat, first: int, last: int)
    requires Sorted(ix) && 0 <= first < |ix| && -1 <= last < |ix| && ix[first].0 == slot && (forall j :: 0 <= j < first ==> ix[j].0 < slot)
    requires last >= 0 ==> ix[last].0 == slot && forall j :: last < j < |ix| ==> ix[j].0 > slot
    requires last == -1 ==> forall j :: 0 <= j < |ix| ==> ix[j].0 != slot
    ensures last >= 0 && Stretch(ix, slot, first, last)
  {
    forall i | 0 <= i < |ix| ensures ix[i].0 == slot <==> first <= i <= last {
      assert first < i ==> Before(ix[first], ix[i]);
      assert i < last ==> Before(ix[i], ix[last]);
    }
  }
}
