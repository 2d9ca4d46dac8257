/**
 How a rewrite emits a list, set, sorted set or hash: RPUSH, SADD, ZADD or HMSET
 commands with a bounded number of items each, whose argument counts are written
 before the items are.
 */
module AofChunks {
  import opened Wrappers
  import opened AofCodec

  const RPUSH: seq<Byte> := [82, 80, 85, 83, 72]
  const SADD: seq<Byte> := [83, 65, 68, 68]
  const ZADD: seq<Byte> := [90, 65, 68, 68]
  const HMSET: seq<Byte> := [72, 77, 83, 69, 84]

  /** AOF_REWRITE_ITEMS_PER_CMD. */
  const ITEMS_PER_CMD := 64

  /** An item as the arguments it becomes: an element, a score and a member, or a field and a value. */
  type Item = seq<seq<Byte>>

  ghost predicate AllOfWidth(items: seq<Item>, width: nat) { forall i :: 0 <= i < |items| ==> |items[i]| == width }

  function Flat(items: seq<Item>): Command
    decreases |items|
  {
    if items == [] then [] else items[0] + Flat(items[1..])
  }

  function Min(a: nat, b: nat): nat { if a < b then a else b }

  /** The commands that rebuild the object: name, key, and up to limit items each. */
  function Chunks(name: seq<Byte>, key: seq<Byte>, items: seq<Item>, limit: nat): seq<Command>
    requires limit > 0
    decreases |items|
  {
    if items == [] then []
    else
      var n := Min(limit, |items|);
      [[name, key] + Flat(items[..n])] + Chunks(name, key, items[n..], limit)
  }

  lemma {:induction false} MinIs(a: nat, b: nat)
    ensures Min(a, b) == if b > a then a else b
  {
  }

  lemma {:induction false} FlatAppend(a: seq<Item>, b: seq<Item>)
    ensures Flat(a + b) == Flat(a) + Flat(b)
    decreases |a|
  {
    if a == [] {
      assert a + b == b;
    } else {
      FlatAppend(a[1..], b);
      assert (a + b)[1..] == a[1..] + b;
    }
  }

  lemma {:induction false} FlatLength(items: seq<Item>, width: nat)
    requires AllOfWidth(items, width)
    ensures |Flat(items)| == |items| * width
    decreases |items|
  {
    if items != [] {
      FlatLength(items[1..], width);
      assert |items| * width == width + (|items| - 1) * width;
    }
  }

  lemma {:induction false} EncodeArgsAppend(a: Command, b: Command)
    ensures EncodeArgs(a + b) == EncodeArgs(a) + EncodeArgs(b)
    decreases |a|
  {
    hide EncodeArg;
    if a == [] {
      assert a + b == b;
    } else {
      EncodeArgsAppend(a[1..], b);
      assert (a + b)[1..] == a[1..] + b;
    }
  }

  // ----- emission -----

  /** What is still to be written when item i comes next, in a command that holds count items before it. */
  ghost function Body(name: seq<Byte>, key: seq<Byte>, items: seq<Item>, limit: nat, i: nat, count: nat): seq<Byte>
    requires limit > 0 && count <= i <= |items| && count < limit
  {
    var end := Min(i - count + limit, |items|);
    EncodeArgs(Flat(items[i..end])) + EncodeAll(Chunks(name, key, items[end..], limit))
  }

  /** The same, with a command still to be opened when count is zero. */
  ghost function Rest(name: seq<Byte>, key: seq<Byte>, items: seq<Item>, limit: nat, i: nat, count: nat): seq<Byte>
    requires limit > 0 && count <= i <= |items| && count < limit
  {
    if count == 0 then EncodeAll(Chunks(name, key, items[i..], limit)) else Body(name, key, items, limit, i, count)
  }

  /** The beginning of a command: the count of what follows, the name, the key. */
  function Opening(name: seq<Byte>, key: seq<Byte>, args: nat): seq<Byte> {
    Header(STAR, 2 + args) + EncodeArg(name) + EncodeArg(key)
  }

  lemma {:induction false} OpeningIs(name: seq<Byte>, key: seq<Byte>, args: Command)
    ensures Opening(name, key, |args|) + EncodeArgs(args) == Encode([name, key] + args)
  {
    hide EncodeArg, Header;
    var all := [name, key] + args;
    assert all[1..] == [key] + args && all[1..][1..] == args;
    assert EncodeArgs(all) == EncodeArg(name) + (EncodeArg(key) + EncodeArgs(args));
    assert Header(STAR, 2 + |args|) + (EncodeArg(name) + (EncodeArg(key) + EncodeArgs(args)))
        == Header(STAR, 2 + |args|) + EncodeArg(name) + EncodeArg(key) + EncodeArgs(args);
  }

  /** Opening a command leaves its items and the later commands to be written. */
  lemma {:induction false} OpenCommand(name: seq<Byte>, key: seq<Byte>, items: seq<Item>, width: nat, limit: nat, i: nat)
    requires limit > 0 && i < |items| && AllOfWidth(items, width)
    ensures Rest(name, key, items, limit, i, 0) == Opening(name, key, Min(limit, |items| - i) * width) + Body(name, key, items, limit, i, 0)
  {
    hide Opening, EncodeArgs, Encode;
    var n := Min(limit, |items| - i);
    var head, cmd, later := items[i..][..n], [name, key] + Flat(items[i..][..n]), Chunks(name, key, items[i..][n..], limit);
    assert head == items[i..i + n] && items[i..][n..] == items[i + n..];
    FlatLength(head, width);
    OpeningIs(name, key, Flat(head));
    assert Chunks(name, key, items[i..], limit) == [cmd] + later;
    EncodeAllAppend([cmd], later);
    assert EncodeAll([cmd]) == Encode(cmd) + EncodeAll([]) == Encode(cmd);
    assert Opening(name, key, n * width) + EncodeArgs(Flat(head)) + EncodeAll(later)
        == Opening(name, key, n * width) + (EncodeArgs(Flat(head)) + EncodeAll(later));
  }

  /** Writing item i, with count items of its command out before it. */
  lemma {:induction false} WriteItem(name: seq<Byte>, key: seq<Byte>, items: seq<Item>, limit: nat, i: nat, count: nat)
    requires limit > 0 && i < |items| && count <= i && count < limit
    ensures Body(name, key, items, limit, i, count)
         == EncodeArgs(items[i]) + Rest(name, key, items, limit, i + 1, if count + 1 == limit then 0 else count + 1)
  {
    hide EncodeArgs, EncodeAll;
    var end := Min(i - count + limit, |items|);
    var later := EncodeAll(Chunks(name, key, items[end..], limit));
    var more := Flat(items[i + 1..end]);
    assert items[i..end] == [items[i]] + items[i + 1..end] && items[i..end][1..] == items[i + 1..end];
    EncodeArgsAppend(items[i], more);
    assert EncodeArgs(items[i]) + EncodeArgs(more) + later == EncodeArgs(items[i]) + (EncodeArgs(more) + later);
    if count + 1 == limit {
      assert end == i + 1 && items[i + 1..end] == [];
      NoArguments();
      assert [] + later == later;
    }
  }

  lemma {:induction false} NoArguments()
    ensures EncodeArgs([]) == []
  {
  }

  lemma {:induction false} NothingLeft(name: seq<Byte>, key: seq<Byte>, items: seq<Item>, limit: nat, count: nat)
    requires limit > 0 && count <= |items| && count < limit
    ensures Rest(name, key, items, limit, |items|, count) == []
  {
    var n := |items|;
    assert items[n..] == [] && items[n..n] == [];
  }

  lemma {:induction false} RestAtStart(name: seq<Byte>, key: seq<Byte>, items: seq<Item>, limit: nat)
    requires limit > 0
    ensures Rest(name, key, items, limit, 0, 0) == EncodeAll(Chunks(name, key, items, limit))
  {
    assert items[0..] == items;
  }

  lemma {:induction false} RestInside(name: seq<Byte>, key: seq<Byte>, items: seq<Item>, limit: nat, i: nat, count: nat)
    requires 0 < count <= i <= |items| && count < limit
    ensures Rest(name, key, items, limit, i, count) == Body(name, key, items, limit, i, count)
  {
  }

  /**
   rewriteListObject and its three siblings: the bytes written are the encoding of
   the chunked commands, so every declared count is the number of arguments that
   follow it.
   */
  method RewriteObject(name: seq<Byte>, key: seq<Byte>, items: seq<Item>, width: nat, limit: nat) returns (out: seq<Byte>)
    requires limit > 0 && AllOfWidth(items, width)
    ensures out == EncodeAll(Chunks(name, key, items, limit))
  {
    hide *;
    out := [];
    var count, left := 0, |items|;
    var i := 0;
    ghost var all := EncodeAll(Chunks(name, key, items, limit));
    RestAtStart(name, key, items, limit);
    assert [] + all == all;
    while i < |items|
      invariant 0 <= i <= |items| && left == |items| - i && 0 <= count <= i && count < limit
      invariant out + Rest(name, key, items, limit, i, count) == all
    {
      if count == 0 {
        OpenCommand(name, key, items, width, limit, i);
        var cmdItems := if left > limit then limit else left;
        MinIs(limit, left);
        assert out + (Opening(name, key, cmdItems * width) + Body(name, key, items, limit, i, 0))
            == out + Opening(name, key, cmdItems * width) + Body(name, key, items, limit, i, 0);
        out := out + Opening(name, key, cmdItems * width);
      }
      if count > 0 { RestInside(name, key, items, limit, i, count); }
      WriteItem(name, key, items, limit, i, count);
      ghost var rest := Rest(name, key, items, limit, i + 1, if count + 1 == limit then 0 else count + 1);
      assert out + (EncodeArgs(items[i]) + rest) == out + EncodeArgs(items[i]) + rest;
      out := out + EncodeArgs(items[i]);
      count := count + 1;
      if count == limit { count := 0; }
      left := left - 1;
      i := i + 1;
    }
    NothingLeft(name, key, items, limit, count);
    assert out + [] == out;
  }

  // ----- replay -----

  /** What a command of the given name gives to the given key. */
  function Given(word: seq<Byte>, key: seq<Byte>, c: Command): Command {
    if |c| >= 2 && c[0] == word && c[1] == key then c[2..] else []
  }

  /** All items the commands give to the key, in order. */
  function Payload(word: seq<Byte>, key: seq<Byte>, cmds: seq<Command>): Command
    decreases |cmds|
  {
    if cmds == [] then [] else Given(word, key, cmds[0]) + Payload(word, key, cmds[1..])
  }

  lemma {:induction false} GivenIsRest(word: seq<Byte>, key: seq<Byte>, rest: Command)
    ensures Given(word, key, [word, key] + rest) == rest
  {
    assert ([word, key] + rest)[2..] == rest;
  }

  lemma {:induction false} PayloadOfMore(word: seq<Byte>, key: seq<Byte>, first: Command, rest: seq<Command>)
    ensures Payload(word, key, [first] + rest) == Given(word, key, first) + Payload(word, key, rest)
  {
    hide Given;
    assert ([first] + rest)[1..] == rest;
  }

  lemma {:induction false} PayloadIsAll(name: seq<Byte>, key: seq<Byte>, items: seq<Item>, limit: nat)
    requires limit > 0
    ensures Payload(name, key, Chunks(name, key, items, limit)) == Flat(items)
    decreases |items|
  {
    if items == [] {
      assert Flat(items) == [];
    } else {
      hide Given, Payload, Flat;
      var n := Min(limit, |items|);
      var first, rest := [name, key] + Flat(items[..n]), Chunks(name, key, items[n..], limit);
      assert Chunks(name, key, items, limit) == [first] + rest;
      PayloadOfMore(name, key, first, rest);
      GivenIsRest(name, key, Flat(items[..n]));
      PayloadIsAll(name, key, items[n..], limit);
      FlatAppend(items[..n], items[n..]);
      assert items[..n] + items[n..] == items;
    }
  }

  /** No command is longer than the limit allows, and none is empty. */
  lemma {:induction false} ChunksAreBounded(name: seq<Byte>, key: seq<Byte>, items: seq<Item>, width: nat, limit: nat, i: nat)
    requires limit > 0 && AllOfWidth(items, width) && i < |Chunks(name, key, items, limit)|
    ensures var c := Chunks(name, key, items, limit)[i];
            |c| >= 2 && c[0] == name && c[1] == key && 2 + width <= |c| <= 2 + limit * width
    decreases |items|
  {
    var n := Min(limit, |items|);
    FlatLength(items[..n], width);
    MulMonotone(1, n, width);
    MulMonotone(n, limit, width);
    if i > 0 { ChunksAreBounded(name, key, items[n..], width, limit, i - 1); }
  }

  lemma {:induction false} MulMonotone(a: nat, b: nat, c: nat)
    requires a <= b
    ensures a * c <= b * c
  {
    assert b * c == a * c + (b - a) * c;
  }

  /** The list at the key after the commands: those named RPUSH append. */
  function RunRpush(key: seq<Byte>, list: seq<seq<Byte>>, cmds: seq<Command>): seq<seq<Byte>>
    decreases |cmds|
  {
    if cmds == [] then list else RunRpush(key, list + Given([82, 80, 85, 83, 72], key, cmds[0]), cmds[1..])
  }

  /** The set at the key after the commands: those named SADD insert. */
  function RunSadd(key: seq<Byte>, members: set<seq<Byte>>, cmds: seq<Command>): set<seq<Byte>>
    decreases |cmds|
  {
    if cmds == [] then members else RunSadd(key, members + (set x | x in Given([83, 65, 68, 68], key, cmds[0])), cmds[1..])
  }

  /** The arguments in pairs, first to second; a later pair replaces an earlier one. */
  function SetPairs(m: map<seq<Byte>, seq<Byte>>, args: Command): map<seq<Byte>, seq<Byte>>
    decreases |args|
  {
    if |args| < 2 then m else SetPairs(m[args[0] := args[1]], args[2..])
  }

  /** The hash at the key after the commands: those named HMSET set fields to values. */
  function RunHmset(key: seq<Byte>, m: map<seq<Byte>, seq<Byte>>, cmds: seq<Command>): map<seq<Byte>, seq<Byte>>
    decreases |cmds|
  {
    if cmds == [] then m else RunHmset(key, SetPairs(m, Given([72, 77, 83, 69, 84], key, cmds[0])), cmds[1..])
  }

  function Swapped(args: Command): Command
    decreases |args|
  {
    if |args| < 2 then [] else [args[1], args[0]] + Swapped(args[2..])
  }

  /** The sorted set at the key after the commands, from member to score: those named ZADD have the score first. */
  function RunZadd(key: seq<Byte>, m: map<seq<Byte>, seq<Byte>>, cmds: seq<Command>): map<seq<Byte>, seq<Byte>>
    decreases |cmds|
  {
    if cmds == [] then m else RunZadd(key, SetPairs(m, Swapped(Given([90, 65, 68, 68], key, cmds[0]))), cmds[1..])
  }

  lemma {:induction false} RpushIsPayload(key: seq<Byte>, list: seq<seq<Byte>>, cmds: seq<Command>)
    ensures RunRpush(key, list, cmds) == list + Payload(RPUSH, key, cmds)
    decreases |cmds|
  {
    if cmds != [] { RpushIsPayload(key, list + Given(RPUSH, key, cmds[0]), cmds[1..]); }
  }

  lemma {:induction false} SaddIsPayload(key: seq<Byte>, members: set<seq<Byte>>, cmds: seq<Command>)
    ensures RunSadd(key, members, cmds) == members + set x | x in Payload(SADD, key, cmds)
    decreases |cmds|
  {
    if cmds != [] { SaddIsPayload(key, members + (set x | x in Given(SADD, key, cmds[0])), cmds[1..]); }
  }

  /** Replaying the RPUSH commands gives the list, element by element. */
  lemma {:induction false} ListIsRebuilt(key: seq<Byte>, list: seq<seq<Byte>>, items: seq<Item>, limit: nat)
    requires limit > 0 && |items| == |list| && forall i :: 0 <= i < |list| ==> items[i] == [list[i]]
    ensures RunRpush(key, [], Chunks(RPUSH, key, items, limit)) == list
  {
    PayloadIsAll(RPUSH, key, items, limit);
    RpushIsPayload(key, [], Chunks(RPUSH, key, items, limit));
    Singles(list, items);
  }

  lemma {:induction false} Singles(list: seq<seq<Byte>>, items: seq<Item>)
    requires |items| == |list| && forall i :: 0 <= i < |list| ==> items[i] == [list[i]]
    ensures Flat(items) == list
    decreases |list|
  {
    if list != [] {
      Singles(list[1..], items[1..]);
      assert [list[0]] + list[1..] == list;
    }
  }

  /** Replaying the SADD commands gives the set, in whatever order it was iterated. */
  lemma {:induction false} SetIsRebuilt(key: seq<Byte>, order: seq<seq<Byte>>, items: seq<Item>, limit: nat)
    requires limit > 0 && |items| == |order| && forall i :: 0 <= i < |order| ==> items[i] == [order[i]]
    ensures RunSadd(key, {}, Chunks(SADD, key, items, limit)) == set x | x in order
  {
    PayloadIsAll(SADD, key, items, limit);
    SaddIsPayload(key, {}, Chunks(SADD, key, items, limit));
    Singles(order, items);
  }

  lemma {:induction false} SetPairsAppend(m: map<seq<Byte>, seq<Byte>>, a: Command, b: Command)
    requires |a| % 2 == 0
    ensures SetPairs(m, a + b) == SetPairs(SetPairs(m, a), b)
    decreases |a|
  {
    if |a| == 0 {
      assert a + b == b;
    } else {
      SetPairsAppend(m[a[0] := a[1]], a[2..], b);
      assert (a + b)[2..] == a[2..] + b;
    }
  }

  lemma {:induction false} HmsetChunks(m: map<seq<Byte>, seq<Byte>>, key: seq<Byte>, items: seq<Item>, limit: nat)
    requires limit > 0 && AllOfWidth(items, 2)
    ensures RunHmset(key, m, Chunks(HMSET, key, items, limit)) == SetPairs(m, Flat(items))
    decreases |items|
  {
    hide Given;
    if items != [] {
      var n := Min(limit, |items|);
      FlatLength(items[..n], 2);
      FlatAppend(items[..n], items[n..]);
      assert items[..n] + items[n..] == items;
      GivenIsRest(HMSET, key, Flat(items[..n]));
      SetPairsAppend(m, Flat(items[..n]), Flat(items[n..]));
      HmsetChunks(SetPairs(m, Flat(items[..n])), key, items[n..], limit);
    }
  }

  function Turned(items: seq<Item>): (r: seq<Item>)
    requires forall i :: 0 <= i < |items| ==> |items[i]| == 2
    ensures |r| == |items| && forall i :: 0 <= i < |items| ==> r[i] == [items[i][1], items[i][0]]
  {
    seq(|items|, i requires 0 <= i < |items| => [items[i][1], items[i][0]])
  }

  lemma {:induction false} SwappedFlat(items: seq<Item>)
    requires AllOfWidth(items, 2)
    ensures Swapped(Flat(items)) == Flat(Turned(items))
    decreases |items|
  {
    if items != [] {
      SwappedFlat(items[1..]);
      assert Turned(items)[1..] == Turned(items[1..]);
      assert Flat(items)[2..] == Flat(items[1..]);
    }
  }

  lemma {:induction false} ZaddChunks(m: map<seq<Byte>, seq<Byte>>, key: seq<Byte>, items: seq<Item>, limit: nat)
    requires limit > 0 && AllOfWidth(items, 2)
    ensures RunZadd(key, m, Chunks(ZADD, key, items, limit)) == SetPairs(m, Flat(Turned(items)))
    decreases |items|
  {
    hide Given;
    if items != [] {
      var n := Min(limit, |items|);
      var a, b := items[..n], items[n..];
      SwappedFlat(a);
      FlatLength(Turned(a), 2);
      FlatAppend(Turned(a), Turned(b));
      assert Turned(a) + Turned(b) == Turned(items);
      GivenIsRest(ZADD, key, Flat(a));
      SetPairsAppend(m, Flat(Turned(a)), Flat(Turned(b)));
      ZaddChunks(SetPairs(m, Flat(Turned(a))), key, b, limit);
    }
  }

  /** The items list the entries of the map, each key once. */
  ghost predicate Lists(items: seq<Item>, m: map<seq<Byte>, seq<Byte>>) {
    && AllOfWidth(items, 2)
    && (forall i, j :: 0 <= i < j < |items| ==> items[i][0] != items[j][0])
    && (forall i :: 0 <= i < |items| ==> items[i][0] in m && m[items[i][0]] == items[i][1])
    && (forall k :: k in m ==> exists i :: 0 <= i < |items| && items[i][0] == k)
  }

  lemma {:induction false} PairsSet(items: seq<Item>, base: map<seq<Byte>, seq<Byte>>, k: seq<Byte>)
    requires AllOfWidth(items, 2) && forall i, j :: 0 <= i < j < |items| ==> items[i][0] != items[j][0]
    ensures (k in SetPairs(base, Flat(items))) <==> (k in base || exists i :: 0 <= i < |items| && items[i][0] == k)
    ensures (forall i :: 0 <= i < |items| ==> items[i][0] != k) && k in base ==> SetPairs(base, Flat(items))[k] == base[k]
    ensures forall i :: 0 <= i < |items| && items[i][0] == k ==> k in SetPairs(base, Flat(items)) && SetPairs(base, Flat(items))[k] == items[i][1]
    decreases |items|
  {
    if items != [] {
      var base' := base[items[0][0] := items[0][1]];
      PairsSet(items[1..], base', k);
      assert Flat(items)[2..] == Flat(items[1..]) && Flat(items)[0] == items[0][0] && Flat(items)[1] == items[0][1];
      assert forall i :: 0 < i < |items| ==> items[i] == items[1..][i - 1];
      assert forall i :: 0 <= i < |items| - 1 ==> items[1..][i] == items[i + 1];
    }
  }

  lemma {:induction false} PairsGiveMap(items: seq<Item>, m: map<seq<Byte>, seq<Byte>>)
    requires Lists(items, m)
    ensures SetPairs(map[], Flat(items)) == m
  {
    hide SetPairs, Flat;
    var r := SetPairs(map[], Flat(items));
    forall k ensures (k in r <==> k in m) && (k in m ==> r[k] == m[k]) { PairsSet(items, map[], k); }
  }

  /** Replaying the HMSET commands gives the hash, in whatever order its fields were iterated. */
  lemma {:induction false} HashIsRebuilt(key: seq<Byte>, hash: map<seq<Byte>, seq<Byte>>, items: seq<Item>, limit: nat)
    requires limit > 0 && Lists(items, hash)
    ensures RunHmset(key, map[], Chunks(HMSET, key, items, limit)) == hash
  {
    HmsetChunks(map[], key, items, limit);
    PairsGiveMap(items, hash);
  }

  /** Replaying the ZADD commands, which have the score before the member, gives the sorted set. */
  lemma {:induction false} SortedSetIsRebuilt(key: seq<Byte>, scores: map<seq<Byte>, seq<Byte>>, items: seq<Item>, limit: nat)
    requires limit > 0 && AllOfWidth(items, 2) && Lists(Turned(items), scores)
    ensures RunZadd(key, map[], Chunks(ZADD, key, items, limit)) == scores
  {
    ZaddChunks(map[], key, items, limit);
    PairsGiveMap(Turned(items), scores);
  }

  // ----- the four functions -----

  /** Elements as items, and pairs as items. */
  function Ones(elements: seq<seq<Byte>>): (r: seq<Item>)
    ensures |r| == |elements| && forall i :: 0 <= i < |elements| ==> r[i] == [elements[i]]
  {
    seq(|elements|, i requires 0 <= i < |elements| => [elements[i]])
  }

  function Twos(pairs: seq<(seq<Byte>, seq<Byte>)>): (r: seq<Item>)
    ensures |r| == |pairs| && forall i :: 0 <= i < |pairs| ==> r[i] == [pairs[i].0, pairs[i].1]
  {
    seq(|pairs|, i requires 0 <= i < |pairs| => [pairs[i].0, pairs[i].1])
  }

  /** The commands of the four functions. */
  function ListCommands(key: seq<Byte>, list: seq<seq<Byte>>): seq<Command> { Chunks(RPUSH, key, Ones(list), ITEMS_PER_CMD) }

  function SetCommands(key: seq<Byte>, order: seq<seq<Byte>>): seq<Command> { Chunks(SADD, key, Ones(order), ITEMS_PER_CMD) }

  function SortedSetCommands(key: seq<Byte>, pairs: seq<(seq<Byte>, seq<Byte>)>): seq<Command> { Chunks(ZADD, key, Twos(pairs), ITEMS_PER_CMD) }

  function HashCommands(key: seq<Byte>, pairs: seq<(seq<Byte>, seq<Byte>)>): seq<Command> { Chunks(HMSET, key, Twos(pairs), ITEMS_PER_CMD) }

  /** No command has more arguments than that. */
  ghost predicate AtMost(cmds: seq<Command>, n: nat) { forall i :: 0 <= i < |cmds| ==> |cmds[i]| <= n }

  /** rewriteListObject: commands that rebuild the list, with at most 64 elements each. */
  method RewriteList(key: seq<Byte>, list: seq<seq<Byte>>) returns (out: seq<Byte>)
    ensures var cmds := ListCommands(key, list); out == EncodeAll(cmds) && RunRpush(key, [], cmds) == list && AtMost(cmds, 66)
  {
    out := RewriteObject(RPUSH, key, Ones(list), 1, ITEMS_PER_CMD);
    ListIsRebuilt(key, list, Ones(list), ITEMS_PER_CMD);
    AllBounded(RPUSH, key, Ones(list), 1);
  }

  /** rewriteSetObject: the members in the order of the iteration. */
  method RewriteSet(key: seq<Byte>, order: seq<seq<Byte>>) returns (out: seq<Byte>)
    ensures var cmds := SetCommands(key, order); out == EncodeAll(cmds) && RunSadd(key, {}, cmds) == (set x | x in order) && AtMost(cmds, 66)
  {
    out := RewriteObject(SADD, key, Ones(order), 1, ITEMS_PER_CMD);
    SetIsRebuilt(key, order, Ones(order), ITEMS_PER_CMD);
    AllBounded(SADD, key, Ones(order), 1);
  }

  /** rewriteSortedSetObject: scores and members, the score first. */
  method RewriteSortedSet(key: seq<Byte>, pairs: seq<(seq<Byte>, seq<Byte>)>, ghost scores: map<seq<Byte>, seq<Byte>>) returns (out: seq<Byte>)
    requires Lists(Turned(Twos(pairs)), scores)
    ensures var cmds := SortedSetCommands(key, pairs); out == EncodeAll(cmds) && RunZadd(key, map[], cmds) == scores && AtMost(cmds, 130)
  {
    out := RewriteObject(ZADD, key, Twos(pairs), 2, ITEMS_PER_CMD);
    SortedSetIsRebuilt(key, scores, Twos(pairs), ITEMS_PER_CMD);
    AllBounded(ZADD, key, Twos(pairs), 2);
  }

  /** rewriteHashObject: fields and values. */
  method RewriteHash(key: seq<Byte>, pairs: seq<(seq<Byte>, seq<Byte>)>, ghost hash: map<seq<Byte>, seq<Byte>>) returns (out: seq<Byte>)
    requires Lists(Twos(pairs), hash)
    ensures var cmds := HashCommands(key, pairs); out == EncodeAll(cmds) && RunHmset(key, map[], cmds) == hash && AtMost(cmds, 130)
  {
    out := RewriteObject(HMSET, key, Twos(pairs), 2, ITEMS_PER_CMD);
    HashIsRebuilt(key, hash, Twos(pairs), ITEMS_PER_CMD);
    AllBounded(HMSET, key, Twos(pairs), 2);
  }

  lemma {:induction false} AllBounded(name: seq<Byte>, key: seq<Byte>, items: seq<Item>, width: nat)
    requires AllOfWidth(items, width)
    ensures AtMost(Chunks(name, key, items, ITEMS_PER_CMD), 2 + 64 * width)
  {
    hide Chunks;
    var cmds := Chunks(name, key, items, ITEMS_PER_CMD);
    forall i | 0 <= i < |cmds| ensures |cmds[i]| <= 2 + 64 * width { ChunksAreBounded(name, key, items, width, ITEMS_PER_CMD, i); }
  }
}
