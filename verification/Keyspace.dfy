/**
 One database with its expires, the commands that change it, and what each of them
 puts into the log; and the replay of that log at startup, where nothing expires.
 Each command reads the clock once.
 */
module Keyspace {
  import opened Wrappers
  import opened AofCodec

  type Key = seq<Byte>
  type Value = seq<Byte>

  datatype Db = Db(dict: map<Key, Value>, expires: map<Key, int>)

  datatype Unit = Seconds | Milliseconds

  /** NX and XX of SET. */
  datatype Condition = Always | IfAbsent | IfPresent

  /** EXPIRE, PEXPIRE, EXPIREAT, PEXPIREAT: a unit, and whether the time is relative. */
  datatype Cmd =
    | Set(key: Key, value: Value, cond: Condition, ttl: Option<int>, unit: Unit)
    | Setex(key: Key, amount: int, unit: Unit, value: Value)
    | Append(key: Key, value: Value)
    | Del(keys: seq<Key>)
    | Expire(key: Key, amount: int, unit: Unit, relative: bool)
    | Persist(key: Key)
    | Rename(from: Key, to: Key, nx: bool)
    | Get(key: Key)
    | Cycle(key: Key)    // the active expire cycle tries this key

  /** Every key with an expire time exists. */
  ghost predicate DbOk(db: Db) { db.expires.Keys <= db.dict.Keys }

  function InMs(amount: int, unit: Unit): int { if unit == Seconds then amount * 1000 else amount }

  // ----- the operations of db.c -----

  function Delete(db: Db, k: Key): (r: Db)
    ensures DbOk(db) ==> DbOk(r)
  {
    Db(db.dict - {k}, db.expires - {k})
  }

  /** setKey, once the key has been looked up: the value is set, the expire time is gone. */
  function SetKey(db: Db, k: Key, v: Value): (r: Db)
    ensures DbOk(db) ==> DbOk(r)
  {
    Db(db.dict[k := v], db.expires - {k})
  }

  function SetExpire(db: Db, k: Key, when: int): (r: Db)
    ensures DbOk(db) && k in db.dict ==> DbOk(r)
  {
    db.(expires := db.expires[k := when])
  }

  /** getExpire: -1 stands for none. */
  function GetExpire(db: Db, k: Key): int { if k in db.expires then db.expires[k] else -1 }

  predicate Expired(db: Db, k: Key, now: int) { GetExpire(db, k) >= 0 && now > GetExpire(db, k) }

  /** A new database and what went into the log. */
  datatype Effect = Effect(db: Db, log: seq<Cmd>)

  function Then(e: Effect, db: Db, cmds: seq<Cmd>): Effect { Effect(db, e.log + cmds) }

  /** expireIfNeeded on a master: the deletion is logged before it is done; nothing expires while loading. */
  function ExpireIfNeeded(db: Db, k: Key, now: int, loading: bool): (e: Effect)
    ensures DbOk(db) ==> DbOk(e.db)
    ensures !loading ==> !Expired(e.db, k, now)
  {
    if Expired(db, k, now) && !loading then Effect(Delete(db, k), [Del([k])]) else Effect(db, [])
  }

  // ----- the commands -----

  /** The log form of a PEXPIREAT. */
  function ExpireAt(k: Key, when: int): Cmd { Expire(k, when, Milliseconds, false) }

  function RunSet(db: Db, c: Cmd, now: int, loading: bool): Effect
    requires c.Set?
  {
    if c.ttl.Some? && c.ttl.value <= 0 then Effect(db, [])
    else
      var e := ExpireIfNeeded(db, c.key, now, loading);
      var present := c.key in e.db.dict;
      if (c.cond == IfAbsent && present) || (c.cond == IfPresent && !present) then e
      else
        var d := SetKey(e.db, c.key, c.value);
        Then(e, if c.ttl.Some? then SetExpire(d, c.key, now + InMs(c.ttl.value, c.unit)) else d, [c])
  }

  /** SETEX and PSETEX are logged as a SET and a PEXPIREAT. */
  function RunSetex(db: Db, c: Cmd, now: int, loading: bool): Effect
    requires c.Setex?
  {
    if c.amount <= 0 then Effect(db, [])
    else
      var e := ExpireIfNeeded(db, c.key, now, loading);
      var when := now + InMs(c.amount, c.unit);
      Then(e, SetExpire(SetKey(e.db, c.key, c.value), c.key, when), [Set(c.key, c.value, Always, None, Seconds), ExpireAt(c.key, when)])
  }

  function RunAppend(db: Db, c: Cmd, now: int, loading: bool): Effect
    requires c.Append?
  {
    var e := ExpireIfNeeded(db, c.key, now, loading);
    var v := if c.key in e.db.dict then e.db.dict[c.key] + c.value else c.value;
    Then(e, e.db.(dict := e.db.dict[c.key := v]), [c])
  }

  /** The keys of DEL one by one: each expires or is deleted; whether any was deleted. */
  function RunDels(db: Db, keys: seq<Key>, now: int, loading: bool): (Effect, bool)
    decreases |keys|
  {
    if keys == [] then (Effect(db, []), false)
    else
      var e := ExpireIfNeeded(db, keys[0], now, loading);
      var deleted := keys[0] in e.db.dict;
      var (rest, more) := RunDels(Delete(e.db, keys[0]), keys[1..], now, loading);
      (Effect(rest.db, e.log + rest.log), deleted || more)
  }

  function RunDel(db: Db, c: Cmd, now: int, loading: bool): Effect
    requires c.Del?
  {
    var (e, deleted) := RunDels(db, c.keys, now, loading);
    Then(e, e.db, if deleted then [c] else [])
  }

  /** A time in the past deletes the key, and is logged as DEL, unless we are loading; any other is logged as PEXPIREAT. */
  function RunExpire(db: Db, c: Cmd, now: int, loading: bool): Effect
    requires c.Expire?
  {
    var when := InMs(c.amount, c.unit) + if c.relative then now else 0;
    var e := ExpireIfNeeded(db, c.key, now, loading);
    if c.key !in e.db.dict then e
    else if when <= now && !loading then Then(e, Delete(e.db, c.key), [Del([c.key])])
    else Then(e, SetExpire(e.db, c.key, when), [ExpireAt(c.key, when)])
  }

  /** PERSIST looks at the dict without expiring the key first. */
  function RunPersist(db: Db, c: Cmd): Effect
    requires c.Persist?
  {
    if c.key in db.dict && c.key in db.expires then Effect(db.(expires := db.expires - {c.key}), [c]) else Effect(db, [])
  }

  /** The value and expire time of one key moved to another, whatever that was. */
  function Moved(db: Db, from: Key, to: Key, value: Value, when: int): (r: Db)
    ensures DbOk(db) ==> DbOk(r)
  {
    var d := Delete(db, to);
    var d' := d.(dict := d.dict[to := value]);
    Delete(if when != -1 then SetExpire(d', to, when) else d', from)
  }

  function RunRename(db: Db, c: Cmd, now: int, loading: bool): Effect
    requires c.Rename?
  {
    var e := ExpireIfNeeded(db, c.from, now, loading);
    if c.from !in e.db.dict || c.from == c.to then e
    else
      var value, when := e.db.dict[c.from], GetExpire(e.db, c.from);
      var f := ExpireIfNeeded(e.db, c.to, now, loading);
      if c.to in f.db.dict && c.nx then Then(e, f.db, f.log)
      else Then(e, Moved(f.db, c.from, c.to, value, when), f.log + [c])
  }

  function Exec(db: Db, c: Cmd, now: int, loading: bool): Effect {
    match c
    case Set(_, _, _, _, _) => RunSet(db, c, now, loading)
    case Setex(_, _, _, _) => RunSetex(db, c, now, loading)
    case Append(_, _) => RunAppend(db, c, now, loading)
    case Del(_) => RunDel(db, c, now, loading)
    case Expire(_, _, _, _) => RunExpire(db, c, now, loading)
    case Persist(_) => RunPersist(db, c)
    case Rename(_, _, _) => RunRename(db, c, now, loading)
    case Get(k) => ExpireIfNeeded(db, k, now, loading)
    case Cycle(k) => if k in db.expires && now > db.expires[k] && !loading then Effect(Delete(db, k), [Del([k])]) else Effect(db, [])
  }

  /** The log run at startup, at the given time, which is the same for all commands. */
  function Replay(db: Db, log: seq<Cmd>, now: int): Db
    decreases |log|
  {
    if log == [] then db else Replay(Exec(db, log[0], now, true).db, log[1..], now)
  }

  // ----- what the commands do to the keys they name, and to the others -----

  /** What a client sees of a key: its value and when it is due. */
  function Look(db: Db, k: Key): Option<(Value, int)> { if k in db.dict then Some((db.dict[k], GetExpire(db, k))) else None }

  /** The same at a given time: a key that is due is as good as gone. */
  function LookAt(db: Db, k: Key, now: int): Option<(Value, int)> { if Expired(db, k, now) then None else Look(db, k) }

  function KeysOf(c: Cmd): set<Key> {
    match c
    case Del(keys) => (set k | k in keys)
    case Rename(from, to, _) => {from, to}
    case _ => {c.key}
  }

  /** No command touches a key it does not name. */
  lemma {:induction false} OthersUntouched(db: Db, c: Cmd, now: int, loading: bool, k: Key)
    requires DbOk(db) && k !in KeysOf(c)
    ensures Look(Exec(db, c, now, loading).db, k) == Look(db, k)
  {
    hide Replay, Expired, InMs;
    if c.Del? {
      var _ := DelsAre(db, c.keys, now, loading, db, 0);
      hide RunDels;
    }
  }

  /** SET: the new value, with the new expire time or none, or nothing changes for the client. */
  lemma {:induction false} SetMeans(db: Db, c: Cmd, now: int)
    requires DbOk(db) && c.Set? && (c.ttl.Some? ==> c.ttl.value > 0) && now >= 0
    ensures var seen, r := LookAt(db, c.key, now), Exec(db, c, now, false).db;
            LookAt(r, c.key, now) == (if (c.cond == IfAbsent && seen.Some?) || (c.cond == IfPresent && seen.None?) then seen
                                      else if c.ttl.None? then Some((c.value, -1))
                                      else if c.unit == Seconds then Some((c.value, now + 1000 * c.ttl.value))
                                      else Some((c.value, now + c.ttl.value)))
  {
  }

  /** APPEND puts the new bytes after the old ones and keeps the expire time. */
  lemma {:induction false} AppendMeans(db: Db, c: Cmd, now: int)
    requires DbOk(db) && c.Append?
    ensures LookAt(Exec(db, c, now, false).db, c.key, now)
         == match LookAt(db, c.key, now) case None => Some((c.value, -1)) case Some(x) => Some((x.0 + c.value, x.1))
  {
  }

  /** EXPIRE and its variants: an existing key keeps its value and is due at the given time, or is gone at once. */
  lemma {:induction false} ExpireMeans(db: Db, c: Cmd, now: int)
    requires DbOk(db) && c.Expire? && now >= 0
    ensures var seen, when := LookAt(db, c.key, now), (if c.unit == Seconds then 1000 * c.amount else c.amount) + (if c.relative then now else 0);
            LookAt(Exec(db, c, now, false).db, c.key, now) == if seen.None? || when <= now then None else Some((seen.value.0, when))
  {
  }

  /** A second is a thousand milliseconds: EXPIRE and PEXPIRE, EXPIREAT and PEXPIREAT, SETEX and PSETEX, database and log. */
  lemma {:induction false} SecondsAreThousands(db: Db, k: Key, v: Value, cond: Condition, amount: int, relative: bool, now: int, loading: bool)
    ensures Exec(db, Expire(k, amount, Seconds, relative), now, loading) == Exec(db, Expire(k, 1000 * amount, Milliseconds, relative), now, loading)
    ensures Exec(db, Setex(k, amount, Seconds, v), now, loading) == Exec(db, Setex(k, 1000 * amount, Milliseconds, v), now, loading)
    ensures var s, ms := Exec(db, Set(k, v, cond, Some(amount), Seconds), now, loading), Exec(db, Set(k, v, cond, Some(1000 * amount), Milliseconds), now, loading);
            s.db == ms.db
  {
  }

  /** Lazy expiry deletes a key, and logs the deletion, exactly when its time has passed and we are not loading. */
  lemma {:induction false} ExpiryMeans(db: Db, k: Key, now: int, loading: bool)
    ensures var e := ExpireIfNeeded(db, k, now, loading);
            if k in db.expires && 0 <= db.expires[k] < now && !loading
            then e.db == Db(db.dict - {k}, db.expires - {k}) && e.log == [Del([k])]
            else e == Effect(db, [])
  {
  }

  /** RENAME: the destination gets the value and the expire time, and the source is gone. */
  lemma {:induction false} RenameMeans(db: Db, c: Cmd, now: int)
    requires DbOk(db) && c.Rename? && c.from != c.to
    ensures var src, dst, r := LookAt(db, c.from, now), LookAt(db, c.to, now), Exec(db, c, now, false).db;
            if src.None? || (c.nx && dst.Some?) then LookAt(r, c.from, now) == src && LookAt(r, c.to, now) == dst
            else LookAt(r, c.from, now) == None && LookAt(r, c.to, now) == src
  {
  }

  /** SETEX and PSETEX: the value, due after the given time; nothing for a time that is not positive. */
  lemma {:induction false} SetexMeans(db: Db, c: Cmd, now: int)
    requires DbOk(db) && c.Setex? && now >= 0
    ensures var seen, r := LookAt(db, c.key, now), Exec(db, c, now, false).db;
            LookAt(r, c.key, now) == (if c.amount <= 0 then seen
                                      else if c.unit == Seconds then Some((c.value, now + 1000 * c.amount))
                                      else Some((c.value, now + c.amount)))
  {
  }

  /** PERSIST makes the key stay, with its value, even one that was due but not yet deleted. */
  lemma {:induction false} PersistMeans(db: Db, c: Cmd, now: int)
    requires DbOk(db) && c.Persist?
    ensures var r := Exec(db, c, now, false).db;
            if c.key in db.dict then Look(r, c.key) == Some((db.dict[c.key], -1)) else Look(r, c.key) == None
  {
  }

  /** The expire cycle deletes a key exactly when it is due. */
  lemma {:induction false} CycleMeans(db: Db, c: Cmd, now: int)
    requires DbOk(db) && c.Cycle? && c.key in db.expires
    ensures Look(Exec(db, c, now, false).db, c.key) == if now > db.expires[c.key] then None else Look(db, c.key)
  {
  }

  /** DEL leaves none of its keys, and GET none that is due. */
  lemma {:induction false} DelMeans(db: Db, c: Cmd, now: int, k: Key)
    requires DbOk(db) && ((c.Del? && k in c.keys) || (c.Get? && c.key == k && Expired(db, k, now)))
    ensures Look(Exec(db, c, now, false).db, k) == None
  {
    hide Replay;
    if c.Del? { var _ := DelsAre(db, c.keys, now, false, db, 0); }
  }

  /** The log entry of a lazy expiry. */
  function DelIfDue(db: Db, k: Key, now: int): seq<Cmd> {
    if k in db.expires && 0 <= db.expires[k] < now then [Del([k])] else []
  }

  /** A command that names one key is logged after the expiry of the key, in absolute time, and only if it was carried out. */
  lemma {:induction false} LogMeans(db: Db, c: Cmd, now: int)
    requires DbOk(db) && !c.Del? && !c.Rename?
    ensures var log, first, seen := Exec(db, c, now, false).log, DelIfDue(db, c.key, now), LookAt(db, c.key, now);
            match c
            case Set(k, v, cond, ttl, _) =>
              if ttl.Some? && ttl.value <= 0 then log == []
              else if (cond == IfAbsent && seen.Some?) || (cond == IfPresent && seen.None?) then log == first
              else log == first + [c]
            case Setex(k, n, unit, v) =>
              if n <= 0 then log == []
              else log == first + [Set(k, v, Always, None, Seconds), Expire(k, now + (if unit == Seconds then 1000 * n else n), Milliseconds, false)]
            case Append(k, v) => log == first + [c]
            case Expire(k, n, unit, relative) =>
              var when := (if unit == Seconds then 1000 * n else n) + if relative then now else 0;
              if seen.None? then log == first
              else if when <= now then log == first + [Del([k])]
              else log == first + [Expire(k, when, Milliseconds, false)]
            case Persist(k) => if k in db.expires then log == [c] else log == []
            case Get(k) => log == first
            case Cycle(k) => if k in db.expires && now > db.expires[k] then log == [Del([k])] else log == []
  {
  }

  /** RENAME is logged after the expiries of its keys, and only if it was carried out. */
  lemma {:induction false} RenameLogMeans(db: Db, c: Cmd, now: int)
    requires DbOk(db) && c.Rename? && c.from != c.to
    ensures var log, src, dst := Exec(db, c, now, false).log, LookAt(db, c.from, now), LookAt(db, c.to, now);
            if src.None? then log == DelIfDue(db, c.from, now)
            else if c.nx && dst.Some? then log == []
            else log == DelIfDue(db, c.to, now) + [c]
  {
  }

  /** DEL is logged after the expiries of its keys, and only if one of them was there. */
  lemma {:induction false} DelLogMeans(db: Db, c: Cmd, now: int)
    requires DbOk(db) && c.Del?
    ensures Exec(db, c, now, false).log ==
              RunDels(db, c.keys, now, false).0.log + if exists k :: k in c.keys && LookAt(db, k, now).Some? then [c] else []
  {
    DeletedIff(db, c.keys, now);
    hide RunDels, LookAt;
  }

  lemma {:induction false} DeletedIff(db: Db, keys: seq<Key>, now: int)
    requires DbOk(db)
    ensures RunDels(db, keys, now, false).1 <==> exists k :: k in keys && LookAt(db, k, now).Some?
    decreases |keys|
  {
    if keys != [] {
      var d := Delete(ExpireIfNeeded(db, keys[0], now, false).db, keys[0]);
      DeletedIff(d, keys[1..], now);
      assert RunDels(db, keys, now, false).1 == (keys[0] in ExpireIfNeeded(db, keys[0], now, false).db.dict || RunDels(d, keys[1..], now, false).1);
      OneDeleted(db, keys[0], now, keys[0]);
      hide RunDels, ExpireIfNeeded, Delete, LookAt;
      forall k ensures LookAt(d, k, now) == if k == keys[0] then None else LookAt(db, k, now) { OneDeleted(db, keys[0], now, k); }
      if k :| k in keys[1..] && LookAt(d, k, now).Some? { assert k in keys && LookAt(db, k, now).Some?; }
      if k :| k in keys && LookAt(db, k, now).Some? { assert k == keys[0] || (k in keys[1..] && LookAt(d, k, now).Some?); }
    }
  }

  lemma {:induction false} OneDeleted(db: Db, key: Key, now: int, k: Key)
    requires DbOk(db)
    ensures var e := ExpireIfNeeded(db, key, now, false);
            && (key in e.db.dict <==> LookAt(db, key, now).Some?)
            && LookAt(Delete(e.db, key), k, now) == if k == key then None else LookAt(db, k, now)
  {
  }

  // ----- replay -----

  lemma {:induction false} ReplayAppend(db: Db, a: seq<Cmd>, b: seq<Cmd>, now: int)
    ensures Replay(db, a + b, now) == Replay(Replay(db, a, now), b, now)
    decreases |a|
  {
    hide Exec;
    if a == [] {
      assert a + b == b;
    } else {
      ReplayAppend(Exec(db, a[0], now, true).db, a[1..], b, now);
      assert (a + b)[1..] == a[1..] + b;
    }
  }

  lemma {:induction false} ReplayOne(db: Db, c: Cmd, now: int)
    ensures Replay(db, [c], now) == Exec(db, c, now, true).db
  {
    hide Exec;
    assert [c][1..] == [];
  }

  lemma {:induction false} ReplayDelOne(db: Db, k: Key, now: int)
    ensures Replay(db, [Del([k])], now) == Delete(db, k)
  {
    ReplayOne(db, Del([k]), now);
    assert RunDels(db, [k], now, true).0.db == RunDels(Delete(db, k), [], now, true).0.db by { assert [k][1..] == []; }
  }

  /** Replaying what expireIfNeeded logged does what it did. */
  lemma {:induction false} ReplayExpiry(db: Db, k: Key, now: int, at: int)
    ensures var e := ExpireIfNeeded(db, k, now, false); Replay(db, e.log, at) == e.db
  {
    ReplayDelOne(db, k, at);
    hide Exec;
  }

  lemma {:induction false} ReplayExpiryThen(db: Db, k: Key, now: int, at: int, more: seq<Cmd>)
    ensures var e := ExpireIfNeeded(db, k, now, false); Replay(db, e.log + more, at) == Replay(e.db, more, at)
  {
    hide Exec, Expired;
    var e := ExpireIfNeeded(db, k, now, false);
    ReplayExpiry(db, k, now, at);
    ReplayAppend(db, e.log, more, at);
  }

  // ----- each command -----

  /** A SET with EX or PX that is carried out: it is logged as it was given, with a relative time. */
  predicate LogsRelativeTime(db: Db, c: Cmd, now: int) {
    && c.Set? && c.ttl.Some? && c.ttl.value > 0
    && var present := c.key in ExpireIfNeeded(db, c.key, now, false).db.dict;
       !(c.cond == IfAbsent && present) && !(c.cond == IfPresent && !present)
  }

  lemma {:induction false} SetReplays(db: Db, c: Cmd, now: int, at: int)
    requires c.Set?
    ensures var e := RunSet(db, c, now, false);
            Replay(db, e.log, at) == e.db <==> !LogsRelativeTime(db, c, now) || at == now
  {
    var e := ExpireIfNeeded(db, c.key, now, false);
    ReplayExpiryThen(db, c.key, now, at, [c]);
    ReplayExpiry(db, c.key, now, at);
    ReplayOne(e.db, c, at);
    hide Replay, InMs;
    var d := SetKey(e.db, c.key, c.value);
    if LogsRelativeTime(db, c, now) {
      var ms := InMs(c.ttl.value, c.unit);
      assert SetExpire(d, c.key, at + ms).expires[c.key] == at + ms && SetExpire(d, c.key, now + ms).expires[c.key] == now + ms;
    }
  }

  lemma {:induction false} SetexReplays(db: Db, c: Cmd, now: int, at: int)
    requires c.Setex?
    ensures var e := RunSetex(db, c, now, false); Replay(db, e.log, at) == e.db
  {
    hide Replay, InMs, Expired;
    var e := ExpireIfNeeded(db, c.key, now, false);
    var setting, timing := Set(c.key, c.value, Always, None, Seconds), ExpireAt(c.key, now + InMs(c.amount, c.unit));
    ReplayExpiryThen(db, c.key, now, at, [setting, timing]);
    assert [setting, timing] == [setting] + [timing];
    ReplayAppend(e.db, [setting], [timing], at);
    ReplayOne(e.db, setting, at);
    var d := SetKey(e.db, c.key, c.value);
    ReplayOne(d, timing, at);
    ExpireAtLoads(d, c.key, now + InMs(c.amount, c.unit), at);
    ReplayNothing(db, at);
  }

  lemma {:induction false} ReplayNothing(db: Db, at: int)
    ensures Replay(db, [], at) == db
  {
  }

  /** While loading, a PEXPIREAT sets the time it says, past or not. */
  lemma {:induction false} ExpireAtLoads(db: Db, k: Key, when: int, at: int)
    requires k in db.dict
    ensures Exec(db, ExpireAt(k, when), at, true).db == SetExpire(db, k, when)
  {
  }

  lemma {:induction false} AppendReplays(db: Db, c: Cmd, now: int, at: int)
    requires c.Append?
    ensures var e := RunAppend(db, c, now, false); Replay(db, e.log, at) == e.db
  {
    hide Replay;
    ReplayExpiryThen(db, c.key, now, at, [c]);
    ReplayOne(ExpireIfNeeded(db, c.key, now, false).db, c, at);
  }

  lemma {:induction false} ExpireReplays(db: Db, c: Cmd, now: int, at: int)
    requires c.Expire?
    ensures var e := RunExpire(db, c, now, false); Replay(db, e.log, at) == e.db
  {
    hide Replay, Exec, InMs;
    var e := ExpireIfNeeded(db, c.key, now, false);
    var when := InMs(c.amount, c.unit) + if c.relative then now else 0;
    ReplayExpiry(db, c.key, now, at);
    if c.key in e.db.dict {
      if when <= now {
        ReplayExpiryThen(db, c.key, now, at, [Del([c.key])]);
        ReplayDelOne(e.db, c.key, at);
      } else {
        ReplayExpiryThen(db, c.key, now, at, [ExpireAt(c.key, when)]);
        ReplayOne(e.db, ExpireAt(c.key, when), at);
        ExpireAtLoads(e.db, c.key, when, at);
      }
    }
  }

  lemma {:induction false} PersistReplays(db: Db, c: Cmd, at: int)
    requires c.Persist?
    ensures var e := RunPersist(db, c); Replay(db, e.log, at) == e.db
  {
    ReplayOne(db, c, at);
    ReplayNothing(db, at);
    hide Replay;
  }

  lemma {:induction false} RenameReplays(db: Db, c: Cmd, now: int, at: int)
    requires c.Rename?
    ensures var e := RunRename(db, c, now, false); Replay(db, e.log, at) == e.db
  {
    hide Replay, Exec, Expired;
    var e := ExpireIfNeeded(db, c.from, now, false);
    ReplayExpiry(db, c.from, now, at);
    if c.from in e.db.dict && c.from != c.to {
      var f := ExpireIfNeeded(e.db, c.to, now, false);
      ReplayExpiryThen(db, c.from, now, at, f.log);
      ReplayExpiry(e.db, c.to, now, at);
      if !(c.to in f.db.dict && c.nx) {
        ReplayExpiryThen(db, c.from, now, at, f.log + [c]);
        ReplayExpiryThen(e.db, c.to, now, at, [c]);
        ReplayOne(f.db, c, at);
        RenameLoads(db, c, now, at);
      }
    }
  }

  /** While loading, the rename does what it did: the keys it looks at had not expired then. */
  lemma {:induction false} RenameLoads(db: Db, c: Cmd, now: int, at: int)
    requires c.Rename?
    requires var e := ExpireIfNeeded(db, c.from, now, false);
             c.from in e.db.dict && c.from != c.to && !(c.to in ExpireIfNeeded(e.db, c.to, now, false).db.dict && c.nx)
    ensures var e := ExpireIfNeeded(db, c.from, now, false);
            Exec(ExpireIfNeeded(e.db, c.to, now, false).db, c, at, true).db == RunRename(db, c, now, false).db
  {
    hide Replay;
    var e := ExpireIfNeeded(db, c.from, now, false);
    var f := ExpireIfNeeded(e.db, c.to, now, false);
    assert f.db.dict[c.from] == e.db.dict[c.from] && GetExpire(f.db, c.from) == GetExpire(e.db, c.from);
  }

  // ----- DEL -----

  function DelSet(db: Db, keys: set<Key>): Db { Db(db.dict - keys, db.expires - keys) }

  lemma {:induction false} DelSetUnion(db: Db, a: set<Key>, b: set<Key>)
    ensures DelSet(DelSet(db, a), b) == DelSet(db, a + b)
  {
  }

  lemma {:induction false} KeysAre(keys: seq<Key>)
    requires keys != []
    ensures (set k | k in keys) == {keys[0]} + set k | k in keys[1..]
  {
  }

  /** What a DEL does, what it logs on the way, and that replaying the latter removes the keys that had expired. */
  lemma {:induction false} DelsAre(db: Db, keys: seq<Key>, now: int, loading: bool, d: Db, at: int) returns (expired: set<Key>)
    ensures var (e, deleted) := RunDels(db, keys, now, loading);
            var all := set k | k in keys;
            && e.db == DelSet(db, all) && expired <= all && Replay(d, e.log, at) == DelSet(d, expired)
            && (!deleted ==> forall k :: k in all ==> k in expired || k !in db.dict)
    decreases |keys|
  {
    hide Replay, Expired;
    if keys == [] {
      expired := {};
      ReplayNothing(d, at);
    } else {
      var k := keys[0];
      var e := ExpireIfNeeded(db, k, now, loading);
      var due := if Expired(db, k, now) && !loading then {k} else {};
      ReplayDelOne(d, k, at);
      ReplayNothing(d, at);
      assert Replay(d, e.log, at) == DelSet(d, due);
      var later := DelsAre(Delete(e.db, k), keys[1..], now, loading, DelSet(d, due), at);
      ReplayAppend(d, e.log, RunDels(Delete(e.db, k), keys[1..], now, loading).0.log, at);
      KeysAre(keys);
      expired := due + later;
      DelSetUnion(d, due, later);
      DelSetUnion(db, {k}, set x | x in keys[1..]);
      assert Delete(e.db, k) == DelSet(db, {k});
    }
  }

  lemma {:induction false} DelReplays(db: Db, c: Cmd, now: int, at: int)
    requires c.Del? && DbOk(db)
    ensures var e := RunDel(db, c, now, false); Replay(db, e.log, at) == e.db
  {
    hide Replay, RunDels;
    var all := set k | k in c.keys;
    var expired := DelsAre(db, c.keys, now, false, db, at);
    var (e, deleted) := RunDels(db, c.keys, now, false);
    ReplayAppend(db, e.log, [c], at);
    ReplayOne(DelSet(db, expired), c, at);
    var _ := DelsAre(DelSet(db, expired), c.keys, at, true, db, at);
    DelSetUnion(db, expired, all);
    assert expired + all == all;
    if !deleted {
      assert DelSet(db, expired) == DelSet(db, all);
      assert e.log + [] == e.log;
    }
  }

  // ----- whole runs -----

  /** Replaying what a command logged gives the database it left, at any time, unless it logged a relative time: then only at the same time. */
  lemma {:induction false} CommandReplaysIff(db: Db, c: Cmd, now: int, at: int)
    requires DbOk(db)
    ensures var e := Exec(db, c, now, false);
            Replay(db, e.log, at) == e.db <==> !LogsRelativeTime(db, c, now) || at == now
  {
    hide Replay, RunSet, RunSetex, RunAppend, RunDel, RunExpire, RunPersist, RunRename;
    match c
    case Set(_, _, _, _, _) => SetReplays(db, c, now, at);
    case Setex(_, _, _, _) => SetexReplays(db, c, now, at);
    case Append(_, _) => AppendReplays(db, c, now, at);
    case Del(_) => DelReplays(db, c, now, at);
    case Expire(_, _, _, _) => ExpireReplays(db, c, now, at);
    case Persist(_) => PersistReplays(db, c, at);
    case Rename(_, _, _) => RenameReplays(db, c, now, at);
    case Get(k) => ReplayExpiry(db, k, now, at);
    case Cycle(k) =>
      ReplayDelOne(db, k, at);
      ReplayNothing(db, at);
  }

  lemma {:induction false} ExecKeepsOk(db: Db, c: Cmd, now: int, loading: bool)
    requires DbOk(db)
    ensures DbOk(Exec(db, c, now, loading).db)
  {
    hide Replay;
    if c.Del? { var _ := DelsAre(db, c.keys, now, loading, db, 0); }
  }

  /** The databases of a run: one command after the other, each at its own time. */
  function RunAll(db: Db, cmds: seq<(Cmd, int)>): Effect
    decreases |cmds|
  {
    if cmds == [] then Effect(db, [])
    else
      var e := RunAll(db, cmds[..|cmds| - 1]);
      var (c, now) := cmds[|cmds| - 1];
      var f := Exec(e.db, c, now, false);
      Effect(f.db, e.log + f.log)
  }

  /** No command of the run logs a relative time. */
  ghost predicate AllAbsolute(db: Db, cmds: seq<(Cmd, int)>) {
    forall i :: 0 <= i < |cmds| ==> !LogsRelativeTime(RunAll(db, cmds[..i]).db, cmds[i].0, cmds[i].1)
  }

  /**
   Replay is deterministic under expiry: for any commands at any times, replaying
   the log at any later or earlier time gives the same keys, values and expires,
   as long as no SET with EX or PX was carried out.
   */
  lemma {:induction false} LogReplays(db: Db, cmds: seq<(Cmd, int)>, at: int)
    requires DbOk(db) && AllAbsolute(db, cmds)
    ensures var e := RunAll(db, cmds); DbOk(e.db) && Replay(db, e.log, at) == e.db
    decreases |cmds|
  {
    hide Exec, Replay, LogsRelativeTime;
    if cmds == [] {
      ReplayNothing(db, at);
    } else {
      var front := cmds[..|cmds| - 1];
      assert forall i :: 0 <= i < |front| ==> front[..i] == cmds[..i];
      LogReplays(db, front, at);
      var e := RunAll(db, front);
      var (c, now) := cmds[|cmds| - 1];
      ExecKeepsOk(e.db, c, now, false);
      CommandReplaysIff(e.db, c, now, at);
      ReplayAppend(db, e.log, Exec(e.db, c, now, false).log, at);
    }
  }

  /** Why: SET k v PX 100 at time 1000, reloaded at time 5000, is due at 5100 instead of 1100. */
  lemma {:induction false} RelativeTimeDrifts(k: Key, v: Value)
    ensures var e := Exec(Db(map[], map[]), Set(k, v, Always, Some(100), Milliseconds), 1000, false);
            var d := Replay(Db(map[], map[]), e.log, 5000);
            e.db.expires == map[k := 1100] && d.expires == map[k := 5100]
  {
    var c := Set(k, v, Always, Some(100), Milliseconds);
    assert Exec(Db(map[], map[]), c, 1000, false).log == [c];
    ReplayOne(Db(map[], map[]), c, 5000);
  }

  // ----- a clock that moves while the log is loaded -----

  /** The command does not ask for the time when it is run during loading. */
  predicate TimeFree(c: Cmd) { !(c.Set? && c.ttl.Some?) && !c.Setex? && !(c.Expire? && c.relative) }

  ghost predicate AllTimeFree(log: seq<Cmd>) { forall i :: 0 <= i < |log| ==> TimeFree(log[i]) }

  /** The log run at startup, each command at its own time. */
  function ReplayTimed(db: Db, log: seq<Cmd>, times: seq<int>): Db
    requires |times| == |log|
    decreases |log|
  {
    if log == [] then db else ReplayTimed(Exec(db, log[0], times[0], true).db, log[1..], times[1..])
  }

  lemma {:induction false} LoadsTheSame(db: Db, c: Cmd, t: int, u: int)
    requires TimeFree(c)
    ensures Exec(db, c, t, true).db == Exec(db, c, u, true).db
  {
    hide Replay, Expired;
    if c.Del? {
      var _ := DelsAre(db, c.keys, t, true, db, 0);
      var _ := DelsAre(db, c.keys, u, true, db, 0);
    }
  }

  lemma {:induction false} TimesDoNotMatter(db: Db, log: seq<Cmd>, times: seq<int>, at: int)
    requires AllTimeFree(log) && |times| == |log|
    ensures ReplayTimed(db, log, times) == Replay(db, log, at)
    decreases |log|
  {
    hide Exec, TimeFree;
    if log != [] {
      LoadsTheSame(db, log[0], times[0], at);
      TimesDoNotMatter(Exec(db, log[0], times[0], true).db, log[1..], times[1..], at);
    }
  }

  lemma {:induction false} DelsTimeFree(db: Db, keys: seq<Key>, now: int)
    ensures AllTimeFree(RunDels(db, keys, now, false).0.log)
    decreases |keys|
  {
    hide Expired;
    if keys != [] { DelsTimeFree(Delete(ExpireIfNeeded(db, keys[0], now, false).db, keys[0]), keys[1..], now); }
  }

  lemma {:induction false} LogIsTimeFree(db: Db, c: Cmd, now: int)
    requires !LogsRelativeTime(db, c, now)
    ensures AllTimeFree(Exec(db, c, now, false).log)
  {
    if c.Del? { DelsTimeFree(db, c.keys, now); }
    hide RunDels, Expired, InMs;
  }

  lemma {:induction false} RunIsTimeFree(db: Db, cmds: seq<(Cmd, int)>)
    requires AllAbsolute(db, cmds)
    ensures AllTimeFree(RunAll(db, cmds).log)
    decreases |cmds|
  {
    hide Exec, LogsRelativeTime, TimeFree;
    if cmds != [] {
      var front := cmds[..|cmds| - 1];
      assert forall i :: 0 <= i < |front| ==> front[..i] == cmds[..i];
      RunIsTimeFree(db, front);
      LogIsTimeFree(RunAll(db, front).db, cmds[|cmds| - 1].0, cmds[|cmds| - 1].1);
    }
  }

  /** The same with a clock that moves in any way while the log is loaded. */
  lemma {:induction false} LogReplaysAtAnyTimes(db: Db, cmds: seq<(Cmd, int)>, times: seq<int>)
    requires DbOk(db) && AllAbsolute(db, cmds) && |times| == |RunAll(db, cmds).log|
    ensures ReplayTimed(db, RunAll(db, cmds).log, times) == RunAll(db, cmds).db
  {
    hide RunAll, Replay, ReplayTimed, AllAbsolute;
    LogReplays(db, cmds, 0);
    RunIsTimeFree(db, cmds);
    TimesDoNotMatter(db, RunAll(db, cmds).log, times, 0);
  }
}
