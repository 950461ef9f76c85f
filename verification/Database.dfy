/** The database object: two maps and a log, and the executors that change them step by step. */
module Database {
  import opened Strconv
  import opened Commands
  import opened Slots
  import opened Engine

  const TWO32: nat := 0x1_0000_0000

  class DB {
    var data: map<Bytes, Value>
    var ttlMap: map<Bytes, int>
    /** The expire jobs that wait in the time wheel, and their times. */
    var jobs: map<Bytes, int>
    var versionMap: map<Bytes, nat>
    var aof: seq<Line>

    constructor ()
      ensures Snapshot() == NO_DATA && versionMap == map[] && aof == [] && jobs == map[]
    {
      data, ttlMap, jobs, versionMap, aof := map[], map[], map[], map[], [];
    }

    ghost function Snapshot(): Db
      reads this`data, this`ttlMap
    {
      Db(data, ttlMap)
    }

    /** Only keys with a deadline have a job, and while the deadline has not passed the job waits for it. */
    ghost predicate Armed(now: int)
      reads this`ttlMap, this`jobs
    {
      && jobs.Keys <= ttlMap.Keys
      && forall k :: k in ttlMap && now <= ttlMap[k] ==> k in jobs && jobs[k] == ttlMap[k]
    }

    /** Nothing has happened that takes the job from a deadline, whatever the time is. */
    twostate predicate KeepsJobs()
      reads this
    {
      forall now :: old(Armed(now)) ==> Armed(now)
    }

    /** The object has done what the outcome says to one key. */
    twostate predicate Ran(key: Bytes, out: Outcome, answer: Answer)
      reads this
    {
      && Snapshot() == PutSlot(old(Snapshot()), key, out.slot)
      && aof == old(aof) + out.log
      && answer == out.answer
    }

    twostate predicate Got(r: Result, answer: Answer)
      reads this
    {
      Snapshot() == r.db && aof == old(aof) + r.log && answer == r.answer
    }

    ghost function Before(key: Bytes): Slot
      reads this`data, this`ttlMap
    {
      At(Snapshot(), key)
    }

    /* ---- the maps ---- */

    method Remove(key: Bytes)
      modifies this`data, this`ttlMap, this`jobs
      ensures Snapshot() == PutSlot(old(Snapshot()), key, EMPTY) && jobs == old(jobs) - {key} && KeepsJobs()
    {
      data := data - {key};
      ttlMap := ttlMap - {key};
      jobs := jobs - {key};
    }

    /** `IsExpired`: an expired key is removed. */
    method IsExpired(key: Bytes, now: int) returns (expired: bool)
      modifies this`data, this`ttlMap, this`jobs
      ensures expired <==> Expired(old(Before(key)).deadline, now)
      ensures Snapshot() == if expired then PutSlot(old(Snapshot()), key, EMPTY) else old(Snapshot())
      ensures old(Armed(now)) ==> Armed(now)
    {
      if key !in ttlMap { return false; }
      expired := now > ttlMap[key];
      if expired { Remove(key); }
    }

    method GetEntity(key: Bytes, now: int) returns (entity: Option<Value>)
      modifies this`data, this`ttlMap, this`jobs
      ensures Snapshot() == PutSlot(old(Snapshot()), key, Seen(old(Before(key)), now))
      ensures entity == Seen(old(Before(key)), now).value
      ensures old(Armed(now)) ==> Armed(now)
    {
      PutBack(Snapshot(), key, EMPTY);
      if key !in data { return None; }
      var expired := IsExpired(key, now);
      if expired { return None; }
      return Some(data[key]);
    }

    method PutEntity(key: Bytes, value: Value)
      modifies this`data
      ensures Snapshot() == PutSlot(old(Snapshot()), key, old(Before(key)).(value := Some(value)))
    {
      KeepTtl(key, value);
      data := data[key := value];
    }

    lemma KeepTtl(key: Bytes, value: Value)
      ensures Db(data[key := value], ttlMap) == PutSlot(Snapshot(), key, Before(key).(value := Some(value)))
    {
      SameSlots(Db(data[key := value], ttlMap), PutSlot(Snapshot(), key, Before(key).(value := Some(value))));
    }

    method PutIfAbsent(key: Bytes, value: Value) returns (result: int)
      modifies this`data
      ensures result == if old(Before(key)).value.None? then 1 else 0
      ensures Snapshot() == if result == 1 then PutSlot(old(Snapshot()), key, old(Before(key)).(value := Some(value)))
                            else old(Snapshot())
    {
      if key in data { return 0; }
      PutEntity(key, value);
      return 1;
    }

    method PutIfExists(key: Bytes, value: Value) returns (result: int)
      modifies this`data
      ensures result == if old(Before(key)).value.Some? then 1 else 0
      ensures Snapshot() == if result == 1 then PutSlot(old(Snapshot()), key, old(Before(key)).(value := Some(value)))
                            else old(Snapshot())
    {
      if key !in data { return 0; }
      PutEntity(key, value);
      return 1;
    }

    /** A deadline in the past gets no job, and leaves the job of an earlier deadline where it is. */
    method Expire(key: Bytes, expireTime: int, now: int)
      modifies this`ttlMap, this`jobs
      ensures Snapshot() == PutSlot(old(Snapshot()), key, old(Before(key)).(deadline := Some(expireTime)))
      ensures jobs == if now <= expireTime then old(jobs)[key := expireTime] else old(jobs)
      ensures old(Armed(now)) ==> Armed(now)
    {
      ghost var before := Snapshot();
      ttlMap := ttlMap[key := expireTime];
      if now <= expireTime { jobs := jobs[key := expireTime]; }
      SameSlots(Snapshot(), PutSlot(before, key, At(before, key).(deadline := Some(expireTime))));
    }

    method Persist(key: Bytes)
      modifies this`ttlMap, this`jobs
      ensures Snapshot() == PutSlot(old(Snapshot()), key, old(Before(key)).(deadline := None)) && jobs == old(jobs) - {key}
      ensures KeepsJobs()
    {
      ghost var before := Snapshot();
      ttlMap := ttlMap - {key};
      jobs := jobs - {key};
      SameSlots(Snapshot(), PutSlot(before, key, At(before, key).(deadline := None)));
    }

    /** The wheel starts the job. If the deadline has not passed, the key stays and has no job any more. */
    method FireExpire(key: Bytes, now: int)
      modifies this`data, this`ttlMap, this`jobs
      ensures Snapshot() == Fired(old(Snapshot()), key, now) && jobs == old(jobs) - {key}
      ensures old(Armed(now)) ==> (Armed(now) <==> key !in ttlMap)
    {
      jobs := jobs - {key};
      if key !in ttlMap { return; }
      var expired := now > ttlMap[key];
      if expired { Remove(key); }
    }

    method AddAof(line: Line)
      modifies this`aof
      ensures aof == old(aof) + [line]
    {
      aof := aof + [line];
    }

    /** Two lines logged one after the other. */
    method AddTwo(first: Line, second: Line)
      modifies this`aof
      ensures aof == old(aof) + [first, second]
    {
      aof := aof + [first];
      aof := aof + [second];
    }

    /** `getAsString`. */
    method GetAsString(key: Bytes, now: int) returns (bytes: Answer)
      modifies this`data, this`ttlMap, this`jobs
      ensures Snapshot() == PutSlot(old(Snapshot()), key, Seen(old(Before(key)), now))
      ensures bytes == GetString(Seen(old(Before(key)), now))
      ensures old(Armed(now)) ==> Armed(now)
    {
      var entity := GetEntity(key, now);
      match entity {
        case None => return NoValue;
        case Some(value) => return if value.Str? then Bulk(value.bytes) else Failed(WrongType);
      }
    }

    /* ---- strings ---- */

    method ExecSet(args: seq<Bytes>, now: int) returns (r: Answer)
      requires |args| >= 2
      modifies this`data, this`ttlMap, this`jobs, this`aof
      ensures Ran(args[0], RunSet(old(Before(args[0])), args, now), r)
      ensures old(Armed(now)) ==> Armed(now)
    {
      var key := args[0];
      ghost var db, s := Snapshot(), Before(key);
      PutBack(db, key, EMPTY);
      var policy, ttl := Upsert, 0;
      var i := 2;
      while i < |args|
        invariant i >= 2 && ParseSet(args, i, policy, ttl) == ParseSet(args, 2, Upsert, 0)
        decreases |args| - i
      {
        var arg := Upper(args[i]);
        if arg == "NX" {
          if policy.Update? { return Failed(Syntax); }
          policy := Insert;
        } else if arg == "XX" {
          if policy.Insert? { return Failed(Syntax); }
          policy := Update;
        } else if arg == "EX" || arg == "PX" {
          if ttl != 0 || i + 1 >= |args| { return Failed(Syntax); }
          var ttlArg := ParseInt64(args[i + 1]);
          if ttlArg.None? { return Failed(Syntax); }
          if ttlArg.value <= 0 { return Failed(InvalidExpire); }
          ttl := Wrap64(ttlArg.value * if arg == "EX" then 1000 else 1);
          i := i + 1;
        } else {
          return Failed(Syntax);
        }
        i := i + 1;
      }
      r := Store(args, policy, ttl, now);
    }

    /** The second half of SET. */
    method Store(args: seq<Bytes>, policy: Policy, ttl: int, now: int) returns (r: Answer)
      requires |args| >= 2 && ParseSet(args, 2, Upsert, 0) == Options(policy, ttl)
      modifies this`data, this`ttlMap, this`jobs, this`aof
      ensures Ran(args[0], RunSet(old(Before(args[0])), args, now), r)
      ensures old(Armed(now)) ==> Armed(now)
    {
      var key, entity := args[0], Str(args[1]);
      ghost var db, s := Snapshot(), Before(key);
      PutBack(db, key, EMPTY);
      var result := 1;
      match policy {
        case Upsert => PutEntity(key, entity);
        case Insert => result := PutIfAbsent(key, entity);
        case Update => result := PutIfExists(key, entity);
      }
      if result == 0 { return NoValue; }
      ghost var written := s.(value := Some(entity));
      if ttl != 0 {
        var expireTime := Deadline(now, ttl);
        Expire(key, expireTime, now);
        PutTwice(db, key, written, written.(deadline := Some(expireTime)));
        AddTwo(Line(Set, [args[0], args[1]]), ExpireLine(key, expireTime));
      } else {
        Persist(key);
        PutTwice(db, key, written, written.(deadline := None));
        AddAof(Line(Set, args));
      }
      return Ok;
    }

    method ExecSetNX(args: seq<Bytes>) returns (r: Answer)
      requires |args| == 2
      modifies this`data, this`aof
      ensures Ran(args[0], RunSetNX(old(Before(args[0])), args), r)
    {
      PutBack(Snapshot(), args[0], EMPTY);
      var result := PutIfAbsent(args[0], Str(args[1]));
      AddAof(Line(SetNX, args));
      return Int(result);
    }

    /** `execSetEX` and `execPSetEX`, which differ in the unit. */
    method ExecSetEX(args: seq<Bytes>, now: int, unit: int) returns (r: Answer)
      requires |args| == 3
      modifies this`data, this`ttlMap, this`jobs, this`aof
      ensures Ran(args[0], RunSetEX(old(Before(args[0])), args, now, unit), r)
      ensures old(Armed(now)) ==> Armed(now)
    {
      var key := args[0];
      ghost var db, s := Snapshot(), Before(key);
      PutBack(db, key, EMPTY);
      var ttlArg := ParseInt64(args[1]);
      if ttlArg.None? { return Failed(Syntax); }
      if ttlArg.value <= 0 { return Failed(InvalidExpire); }
      PutEntity(key, Str(args[2]));
      var expireTime := Deadline(now, Wrap64(ttlArg.value * unit));
      Expire(key, expireTime, now);
      PutTwice(db, key, s.(value := Some(Str(args[2]))), Slot(Some(Str(args[2])), Some(expireTime)));
      AddTwo(Line(SetEX, args), ExpireLine(key, expireTime));
      return Ok;
    }

    method ExecGet(args: seq<Bytes>, now: int) returns (r: Answer)
      requires |args| == 1
      modifies this`data, this`ttlMap, this`jobs
      ensures Ran(args[0], Nothing(Seen(old(Before(args[0])), now), GetString(Seen(old(Before(args[0])), now))), r)
      ensures old(Armed(now)) ==> Armed(now)
    {
      r := GetAsString(args[0], now);
    }

    method ExecGetEX(args: seq<Bytes>, now: int) returns (r: Answer)
      requires |args| >= 1
      modifies this`data, this`ttlMap, this`jobs, this`aof
      ensures Ran(args[0], RunGetEX(Seen(old(Before(args[0])), now), args, now), r)
      ensures old(Armed(now)) ==> Armed(now)
    {
      var key := args[0];
      ghost var db, s := Snapshot(), Seen(Before(key), now);
      var bytes := GetAsString(key, now);
      if !bytes.Bulk? { return bytes; }
      var ttl, failure, persisted := ReadOptions(args, now, db, s);
      if failure.Some? { return Failed(failure.value); }
      if |args| > 1 { SetTtl(key, ttl, now, db, if persisted then s.(deadline := None) else s); }
      return bytes;
    }

    /** The option loop of GETEX. */
    method ReadOptions(args: seq<Bytes>, now: int, ghost db: Db, ghost s: Slot)
      returns (ttl: int, failure: Option<Failure>, ghost persisted: bool)
      requires |args| >= 1 && Snapshot() == PutSlot(db, args[0], s)
      modifies this`ttlMap, this`jobs
      ensures ParseGetEx(args, 1, 0, false)
           == if failure.Some? then BadGetEx(failure.value, persisted) else GetExOptions(ttl, persisted)
      ensures Snapshot() == PutSlot(db, args[0], if persisted then s.(deadline := None) else s)
      ensures old(Armed(now)) ==> Armed(now)
    {
      ttl, failure, persisted := 0, None, false;
      var i := 1;
      while i < |args|
        invariant i >= 1 && ParseGetEx(args, i, ttl, persisted) == ParseGetEx(args, 1, 0, false)
        invariant Snapshot() == PutSlot(db, args[0], if persisted then s.(deadline := None) else s)
        invariant failure.None? && (old(Armed(now)) ==> Armed(now))
        decreases |args| - i
      {
        var arg := Upper(args[i]);
        if arg == "EX" || arg == "PX" {
          if ttl != 0 || i + 1 >= |args| { return ttl, Some(Syntax), persisted; }
          var ttlArg := ParseInt64(args[i + 1]);
          if ttlArg.None? { return ttl, Some(Syntax), persisted; }
          if ttlArg.value <= 0 { return ttl, Some(InvalidExpire), persisted; }
          ttl := Wrap64(ttlArg.value * if arg == "EX" then 1000 else 1);
          i := i + 1;
        } else if arg == "PERSIST" {
          if ttl != 0 { return ttl, Some(Syntax), persisted; }
          ghost var was := if persisted then s.(deadline := None) else s;
          Persist(args[0]);
          PutTwice(db, args[0], was, s.(deadline := None));
          persisted := true;
        }
        i := i + 1;
      }
    }

    /** The last part of GETEX with options. */
    method SetTtl(key: Bytes, ttl: int, now: int, ghost db: Db, ghost s: Slot)
      requires Snapshot() == PutSlot(db, key, s)
      modifies this`ttlMap, this`jobs, this`aof
      ensures Snapshot() == PutSlot(db, key, s.(deadline := if ttl != 0 then Some(Deadline(now, ttl)) else None))
      ensures aof == old(aof) + [if ttl != 0 then ExpireLine(key, Deadline(now, ttl)) else Line(Op.Persist, [key])]
      ensures old(Armed(now)) ==> Armed(now)
    {
      if ttl != 0 {
        var expireTime := Deadline(now, ttl);
        Expire(key, expireTime, now);
        PutTwice(db, key, s, s.(deadline := Some(expireTime)));
        AddAof(ExpireLine(key, expireTime));
      } else {
        Persist(key);
        PutTwice(db, key, s, s.(deadline := None));
        AddAof(Line(Op.Persist, [key]));
      }
    }

    method ExecGetSet(args: seq<Bytes>, now: int) returns (r: Answer)
      requires |args| == 2
      modifies this`data, this`ttlMap, this`jobs, this`aof
      ensures Ran(args[0], RunGetSet(Seen(old(Before(args[0])), now), args), r)
      ensures old(Armed(now)) ==> Armed(now)
    {
      var key := args[0];
      ghost var db, s := Snapshot(), Seen(Before(key), now);
      r := GetAsString(key, now);
      if r.Failed? { return; }
      PutEntity(key, Str(args[1]));
      PutTwice(db, key, s, s.(value := Some(Str(args[1]))));
      Persist(key);
      PutTwice(db, key, s.(value := Some(Str(args[1]))), Slot(Some(Str(args[1])), None));
      AddAof(Line(Set, args));
    }

    method ExecGetDel(args: seq<Bytes>, now: int) returns (r: Answer)
      requires |args| == 1
      modifies this`data, this`ttlMap, this`jobs, this`aof
      ensures Ran(args[0], RunGetDel(Seen(old(Before(args[0])), now), args), r)
      ensures old(Armed(now)) ==> Armed(now)
    {
      ghost var db, s := Snapshot(), Seen(Before(args[0]), now);
      r := GetAsString(args[0], now);
      if !r.Bulk? { return; }
      Remove(args[0]);
      PutTwice(db, args[0], s, EMPTY);
      AddAof(Line(Del, args));
    }

    /** `execIncr`, `execIncrBy`, `execDecr` and `execDecrBy` once the delta is known. */
    method ExecAdd(line: Line, key: Bytes, delta: int, first: Bytes, now: int) returns (r: Answer)
      modifies this`data, this`ttlMap, this`jobs, this`aof
      ensures Ran(key, RunAdd(Seen(old(Before(key)), now), line, delta, first), r)
      ensures old(Armed(now)) ==> Armed(now)
    {
      ghost var db, s := Snapshot(), Seen(Before(key), now);
      var bytes := GetAsString(key, now);
      if bytes.Failed? { return bytes; }
      var next: Bytes := first;
      if bytes.Bulk? {
        var val := ParseInt64(bytes.bytes);
        if val.None? { return Failed(NotInteger); }
        next := FormatInt(Wrap64(val.value + delta));
        r := Int(Wrap64(val.value + delta));
      } else {
        r := Int(Wrap64(delta));
      }
      PutEntity(key, Str(next));
      PutTwice(db, key, s, s.(value := Some(Str(next))));
      AddAof(line);
    }

    method ExecAddBy(line: Line, now: int) returns (r: Answer)
      requires line.op in {IncrBy, DecrBy} && |line.args| == 2
      modifies this`data, this`ttlMap, this`jobs, this`aof
      ensures Ran(line.args[0], if ParseInt64(line.args[1]).None? then Nothing(old(Before(line.args[0])), Failed(NotInteger))
                                else RunAddBy(Seen(old(Before(line.args[0])), now), line), r)
      ensures old(Armed(now)) ==> Armed(now)
    {
      PutBack(Snapshot(), line.args[0], EMPTY);
      var delta := ParseInt64(line.args[1]);
      if delta.None? { return Failed(NotInteger); }
      if line.op.DecrBy? {
        r := ExecAdd(line, line.args[0], -delta.value, FormatInt(Wrap64(-delta.value)), now);
      } else {
        r := ExecAdd(line, line.args[0], delta.value, line.args[1], now);
      }
    }

    method ExecAppend(args: seq<Bytes>, now: int) returns (r: Answer)
      requires |args| == 2
      modifies this`data, this`ttlMap, this`jobs, this`aof
      ensures Ran(args[0], RunAppend(Seen(old(Before(args[0])), now), args), r)
      ensures old(Armed(now)) ==> Armed(now)
    {
      ghost var db, s := Snapshot(), Seen(Before(args[0]), now);
      r := GetAsString(args[0], now);
      if r.Failed? { return; }
      var bytes := (if r.Bulk? then r.bytes else []) + args[1];
      assert [] + args[1] == args[1];
      PutEntity(args[0], Str(bytes));
      PutTwice(db, args[0], s, s.(value := Some(Str(bytes))));
      AddAof(Line(Append, args));
      return Int(|bytes|);
    }

    /* ---- hashes ---- */

    /** `getOrInitDict`: the new dictionary is in the database before the first field is. */
    method GetOrInitDict(key: Bytes, now: int) returns (fields: Option<map<Bytes, Field>>)
      modifies this`data, this`ttlMap, this`jobs
      ensures var s := Seen(old(Before(key)), now);
              && (fields.None? <==> !HashOrNone(s))
              && (fields.Some? ==> fields.value == Fields(s))
              && Snapshot() == PutSlot(old(Snapshot()), key, if s.value.None? then s.(value := Some(Hash(map[]))) else s)
      ensures old(Armed(now)) ==> Armed(now)
    {
      ghost var db, s := Snapshot(), Seen(Before(key), now);
      var entity := GetEntity(key, now);
      match entity {
        case None =>
          PutEntity(key, Hash(map[]));
          PutTwice(db, key, s, s.(value := Some(Hash(map[]))));
          return Some(map[]);
        case Some(value) => return if value.Hash? then Some(value.fields) else None;
      }
    }

    /** Put into the dictionary of a key. */
    method PutFields(key: Bytes, fields: map<Bytes, Field>, ghost db: Db, ghost was: Slot)
      requires Snapshot() == PutSlot(db, key, was)
      modifies this`data
      ensures Snapshot() == PutSlot(db, key, was.(value := Some(Hash(fields))))
    {
      PutEntity(key, Hash(fields));
      PutTwice(db, key, was, was.(value := Some(Hash(fields))));
    }

    method ExecHSet(args: seq<Bytes>, now: int) returns (r: Answer)
      requires |args| == 3
      modifies this`data, this`ttlMap, this`jobs, this`aof
      ensures Ran(args[0], RunHSet(Seen(old(Before(args[0])), now), args), r)
      ensures old(Armed(now)) ==> Armed(now)
    {
      ghost var db, s := Snapshot(), Seen(Before(args[0]), now);
      var d := GetOrInitDict(args[0], now);
      if d.None? { return Failed(WrongType); }
      PutFields(args[0], d.value[args[1] := Text(args[2])], db, if s.value.None? then s.(value := Some(Hash(map[]))) else s);
      AddAof(Line(HSet, args));
      return Int(if args[1] in d.value then 0 else 1);
    }

    method ExecHSetNX(args: seq<Bytes>, now: int) returns (r: Answer)
      requires |args| == 3
      modifies this`data, this`ttlMap, this`jobs, this`aof
      ensures Ran(args[0], RunHSetNX(Seen(old(Before(args[0])), now), args), r)
      ensures old(Armed(now)) ==> Armed(now)
    {
      ghost var db, s := Snapshot(), Seen(Before(args[0]), now);
      var d := GetOrInitDict(args[0], now);
      if d.None? { return Failed(WrongType); }
      if args[1] in d.value { return Int(0); }
      PutFields(args[0], d.value[args[1] := Raw(args[2])], db, if s.value.None? then s.(value := Some(Hash(map[]))) else s);
      AddAof(Line(HSetNX, args));
      return Int(1);
    }

    method ExecHGet(args: seq<Bytes>, now: int) returns (r: Answer)
      requires |args| >= 2
      modifies this`data, this`ttlMap, this`jobs
      ensures Ran(args[0], Nothing(Seen(old(Before(args[0])), now), RunHGet(Seen(old(Before(args[0])), now), args)), r)
      ensures old(Armed(now)) ==> Armed(now)
    {
      var entity := GetEntity(args[0], now);
      if entity.None? { return NoValue; }
      if !entity.value.Hash? { return Failed(WrongType); }
      var d := entity.value.fields;
      return if args[1] in d && d[args[1]].Raw? then Bulk(d[args[1]].bytes) else NoValue;
    }

    /** The loop of HDEL. */
    method RemoveFields(d: map<Bytes, Field>, fields: seq<Bytes>) returns (left: map<Bytes, Field>, deleted: nat)
      ensures left == d - SetOf(fields) && deleted == CountRemoved(d, fields)
    {
      left, deleted := d, 0;
      for i := 0 to |fields|
        invariant left == d - SetOf(fields[..i])
        invariant deleted + CountRemoved(left, fields[i..]) == CountRemoved(d, fields)
      {
        assert fields[i..][0] == fields[i] && fields[i..][1..] == fields[i + 1..];
        assert SetOf(fields[..i + 1]) == SetOf(fields[..i]) + {fields[i]};
        deleted := deleted + if fields[i] in left then 1 else 0;
        left := left - {fields[i]};
      }
      assert fields[..|fields|] == fields;
    }

    method ExecHDel(args: seq<Bytes>, now: int) returns (r: Answer)
      requires |args| >= 2
      modifies this`data, this`ttlMap, this`jobs, this`aof
      ensures Ran(args[0], RunHDel(Seen(old(Before(args[0])), now), args), r)
      ensures old(Armed(now)) ==> Armed(now)
    {
      var key := args[0];
      ghost var db, s := Snapshot(), Seen(Before(key), now);
      var entity := GetEntity(key, now);
      if entity.None? { return Int(0); }
      if !entity.value.Hash? { return Failed(WrongType); }
      var left, deleted := RemoveFields(entity.value.fields, args[1..]);
      PutFields(key, left, db, s);
      if left == map[] {
        Remove(key);
        PutTwice(db, key, s.(value := Some(Hash(left))), EMPTY);
      }
      if deleted > 0 { AddAof(Line(HDel, args)); }
      return Int(deleted);
    }

    /** The loop of HMSET. */
    method PutAll(d: map<Bytes, Field>, args: seq<Bytes>) returns (fields: map<Bytes, Field>)
      requires |args| % 2 == 1
      ensures fields == PutPairs(d, args, 1)
    {
      fields := d;
      for i := 0 to (|args| - 1) / 2
        invariant PutPairs(fields, args, 2 * i + 1) == PutPairs(d, args, 1)
      {
        fields := fields[args[2 * i + 1] := Raw(args[2 * i + 2])];
      }
    }

    method ExecHMSet(args: seq<Bytes>, now: int) returns (r: Answer)
      requires |args| >= 3
      modifies this`data, this`ttlMap, this`jobs, this`aof
      ensures Ran(args[0], if |args| % 2 != 1 then Nothing(old(Before(args[0])), Failed(Syntax))
                           else RunHMSet(Seen(old(Before(args[0])), now), args), r)
      ensures old(Armed(now)) ==> Armed(now)
    {
      ghost var db, s := Snapshot(), Seen(Before(args[0]), now);
      PutBack(db, args[0], EMPTY);
      if |args| % 2 != 1 { return Failed(Syntax); }
      var d := GetOrInitDict(args[0], now);
      if d.None? { return Failed(WrongType); }
      var fields := PutAll(d.value, args);
      PutFields(args[0], fields, db, if s.value.None? then s.(value := Some(Hash(map[]))) else s);
      AddAof(Line(HMSet, args));
      return Ok;
    }

    method AddToField(d: map<Bytes, Field>, field: Bytes, delta: int, first: Bytes) returns (r: Answer)
      ensures r == Incremented(d, field, delta, first)
    {
      if field !in d { return Bulk(first); }
      if d[field].Text? { return Panicked; }
      var val := ParseInt64(d[field].bytes);
      if val.None? { return Failed(HashNotInteger); }
      return Bulk(FormatInt(Wrap64(val.value + delta)));
    }

    method ExecHIncrBy(args: seq<Bytes>, now: int) returns (r: Answer)
      requires |args| == 3
      modifies this`data, this`ttlMap, this`jobs, this`aof
      ensures Ran(args[0], if ParseInt64(args[2]).None? then Nothing(old(Before(args[0])), Failed(NotInteger))
                           else RunHIncrBy(Seen(old(Before(args[0])), now), args), r)
      ensures old(Armed(now)) ==> Armed(now)
    {
      PutBack(Snapshot(), args[0], EMPTY);
      var delta := ParseInt64(args[2]);
      if delta.None? { return Failed(NotInteger); }
      r := AddInHash(args, delta.value, now);
    }

    method AddInHash(args: seq<Bytes>, delta: int, now: int) returns (r: Answer)
      requires |args| == 3 && ParseInt64(args[2]) == Some(delta)
      modifies this`data, this`ttlMap, this`jobs, this`aof
      ensures Ran(args[0], RunHIncrBy(Seen(old(Before(args[0])), now), args), r)
      ensures old(Armed(now)) ==> Armed(now)
    {
      ghost var db, s := Snapshot(), Seen(Before(args[0]), now);
      var d := GetOrInitDict(args[0], now);
      if d.None? { return Failed(WrongType); }
      r := AddToField(d.value, args[1], delta, args[2]);
      if !r.Bulk? { return; }
      PutFields(args[0], d.value[args[1] := Raw(r.bytes)], db, if s.value.None? then s.(value := Some(Hash(map[]))) else s);
      AddAof(Line(HIncrBy, args));
    }

    /* ---- lists ---- */

    method PutItems(key: Bytes, items: seq<Bytes>, ghost db: Db, ghost was: Slot)
      requires Snapshot() == PutSlot(db, key, was)
      modifies this`data
      ensures Snapshot() == PutSlot(db, key, was.(value := Some(List(items))))
    {
      PutEntity(key, List(items));
      PutTwice(db, key, was, was.(value := Some(List(items))));
    }

    /** The loop of LPUSH and LPUSHX: each value goes to the head. */
    method InsertAll(items: seq<Bytes>, values: seq<Bytes>) returns (l: seq<Bytes>)
      ensures l == PushLeft(items, values)
    {
      l := items;
      for i := 0 to |values|
        invariant PushLeft(l, values[i..]) == PushLeft(items, values)
      {
        assert values[i..][0] == values[i] && values[i..][1..] == values[i + 1..];
        l := [values[i]] + l;
      }
    }

    /** The loop of RPUSH and RPUSHX: each value goes to the end. */
    method AddAll(items: seq<Bytes>, values: seq<Bytes>) returns (l: seq<Bytes>)
      ensures l == items + values
    {
      l := items;
      for i := 0 to |values|
        invariant l == items + values[..i]
      {
        assert values[..i + 1] == values[..i] + [values[i]];
        l := l + [values[i]];
      }
      assert values[..|values|] == values;
    }

    /** LPUSH and RPUSH, which create the list, and LPUSHX and RPUSHX, which do not. */
    method ExecPush(line: Line, key: Bytes, values: seq<Bytes>, left: bool, create: bool, now: int) returns (r: Answer)
      modifies this`data, this`ttlMap, this`jobs, this`aof
      ensures Ran(key, RunPush(Seen(old(Before(key)), now), line, values, left, create), r)
      ensures old(Armed(now)) ==> Armed(now)
    {
      ghost var db, s := Snapshot(), Seen(Before(key), now);
      var entity := GetEntity(key, now);
      if entity.Some? && !entity.value.List? { return Failed(WrongType); }
      if entity.None? && !create { return Int(0); }
      var items := if entity.None? then [] else entity.value.items;
      if left { items := InsertAll(items, values); } else { items := AddAll(items, values); }
      PutItems(key, items, db, s);
      AddAof(line);
      return Int(|items|);
    }

    method ExecPop(line: Line, key: Bytes, left: bool, now: int) returns (r: Answer)
      modifies this`data, this`ttlMap, this`jobs, this`aof
      ensures Ran(key, RunPop(Seen(old(Before(key)), now), line, left), r)
      ensures old(Armed(now)) ==> Armed(now)
    {
      ghost var db, s := Snapshot(), Seen(Before(key), now);
      var entity := GetEntity(key, now);
      if entity.None? { return NoValue; }
      if !entity.value.List? { return Failed(WrongType); }
      var l := entity.value.items;
      if |l| == 0 && left { return Panicked; }
      var rest := if |l| == 0 then [] else if left then l[1..] else l[..|l| - 1];
      r := if |l| == 0 then NoValue else if left then Bulk(l[0]) else Bulk(l[|l| - 1]);
      PutItems(key, rest, db, s);
      if |rest| == 0 {
        Remove(key);
        PutTwice(db, key, s.(value := Some(List(rest))), EMPTY);
      }
      AddAof(line);
    }

    method ExecLSet(args: seq<Bytes>, now: int) returns (r: Answer)
      requires |args| == 3
      modifies this`data, this`ttlMap, this`jobs, this`aof
      ensures Ran(args[0], if ParseInt64(args[1]).None? then Nothing(old(Before(args[0])), Failed(NotInteger))
                           else RunLSet(Seen(old(Before(args[0])), now), args), r)
      ensures old(Armed(now)) ==> Armed(now)
    {
      ghost var db, s := Snapshot(), Seen(Before(args[0]), now);
      PutBack(db, args[0], EMPTY);
      var arg := ParseInt64(args[1]);
      if arg.None? { return Failed(NotInteger); }
      var index := arg.value;
      var entity := GetEntity(args[0], now);
      if entity.None? { return Failed(NoSuchKey); }
      if !entity.value.List? { return Failed(WrongType); }
      var l := entity.value.items;
      if index < -|l| {
        return Failed(OutOfRange);
      } else if index < 0 {
        index := |l| + index;
      } else if index >= |l| {
        return Failed(OutOfRange);
      }
      PutItems(args[0], l[index := args[2]], db, s);
      AddAof(Line(LSet, args));
      return Ok;
    }

    /* ---- deadlines ---- */

    /** The four EXPIRE commands. */
    method ExecExpire(line: Line, now: int) returns (r: Answer)
      requires line.op in {Op.Expire, ExpireAt, PExpire, PExpireAt} && |line.args| == 2
      modifies this`data, this`ttlMap, this`jobs, this`aof
      ensures Ran(line.args[0], if ParseInt64(line.args[1]).None? then Nothing(old(Before(line.args[0])), Failed(NotInteger))
                                else RunExpire(Seen(old(Before(line.args[0])), now), line, now), r)
      ensures old(Armed(now)) ==> Armed(now)
    {
      var key := line.args[0];
      ghost var db, s := Snapshot(), Seen(Before(key), now);
      PutBack(db, key, EMPTY);
      var arg := ParseInt64(line.args[1]);
      if arg.None? { return Failed(NotInteger); }
      var entity := GetEntity(key, now);
      if entity.None? { return Int(0); }
      var expireAt := ExpireTime(line.op, arg.value, now);
      Expire(key, expireAt, now);
      PutTwice(db, key, s, s.(deadline := Some(expireAt)));
      AddAof(ExpireLine(key, expireAt));
      return Int(1);
    }

    method ExecPersist(args: seq<Bytes>, now: int) returns (r: Answer)
      requires |args| == 1
      modifies this`data, this`ttlMap, this`jobs, this`aof
      ensures Ran(args[0], RunPersist(Seen(old(Before(args[0])), now), args), r)
      ensures old(Armed(now)) ==> Armed(now)
    {
      var key := args[0];
      ghost var db, s := Snapshot(), Seen(Before(key), now);
      var entity := GetEntity(key, now);
      if entity.None? { return Int(0); }
      assert At(Snapshot(), key) == s;
      if key !in ttlMap { return Int(0); }
      Persist(key);
      PutTwice(db, key, s, s.(deadline := None));
      AddAof(Line(Op.Persist, args));
      return Int(1);
    }

    /* ---- several keys ---- */

    method RemoveKeys(keys: seq<Bytes>) returns (deleted: nat)
      modifies this`data, this`ttlMap, this`jobs
      ensures (Snapshot(), deleted) == Removes(old(Snapshot()), keys) && KeepsJobs()
    {
      deleted := 0;
      for i := 0 to |keys|
        invariant KeepsJobs()
        invariant var (db, n) := Removes(Snapshot(), keys[i..]); (db, deleted + n) == Removes(old(Snapshot()), keys)
      {
        assert keys[i..][0] == keys[i] && keys[i..][1..] == keys[i + 1..];
        if keys[i] in data {
          Remove(keys[i]);
          deleted := deleted + 1;
        }
      }
    }

    method ExecDel(line: Line) returns (r: Answer)
      modifies this`data, this`ttlMap, this`jobs, this`aof
      ensures Got(RunDel(old(Snapshot()), line), r) && KeepsJobs()
    {
      var deleted := RemoveKeys(line.args);
      if deleted > 0 { AddAof(line); }
      return Int(deleted);
    }

    method ExecExists(keys: seq<Bytes>, now: int) returns (r: Answer)
      modifies this`data, this`ttlMap, this`jobs
      ensures var (db, n) := CountSeen(old(Snapshot()), keys, now); Snapshot() == db && r == Int(n)
      ensures old(Armed(now)) ==> Armed(now)
    {
      var result := 0;
      for i := 0 to |keys|
        invariant old(Armed(now)) ==> Armed(now)
        invariant var (db, n) := CountSeen(Snapshot(), keys[i..], now);
                  (db, result + n) == CountSeen(old(Snapshot()), keys, now)
      {
        assert keys[i..][0] == keys[i] && keys[i..][1..] == keys[i + 1..];
        ghost var seen := Look(Snapshot(), keys[i], now);
        var entity := GetEntity(keys[i], now);
        assert entity.Some? <==> keys[i] in seen.data by { assert entity == At(seen, keys[i]).value; }
        if entity.Some? { result := result + 1; }
      }
      return Int(result);
    }

    /** The loop of MSET and MSETNX that writes. */
    method PutEntities(args: seq<Bytes>)
      modifies this`data
      ensures Snapshot() == PutValues(old(Snapshot()), args, 0)
    {
      for i := 0 to |args| / 2
        invariant PutValues(Snapshot(), args, 2 * i) == PutValues(old(Snapshot()), args, 0)
      {
        PutEntity(args[2 * i], Str(args[2 * i + 1]));
      }
    }

    method ExecMSet(line: Line) returns (r: Answer)
      modifies this`data, this`aof
      ensures Got(RunMSet(old(Snapshot()), line), r)
    {
      if |line.args| % 2 != 0 { return Failed(Syntax); }
      PutEntities(line.args);
      AddAof(line);
      return Ok;
    }

    /** The loop of MSETNX that looks. */
    method AnyExists(keys: seq<Bytes>, now: int) returns (found: bool)
      modifies this`data, this`ttlMap, this`jobs
      ensures (Snapshot(), found) == FindAny(old(Snapshot()), keys, now)
      ensures old(Armed(now)) ==> Armed(now)
    {
      for i := 0 to |keys|
        invariant old(Armed(now)) ==> Armed(now)
        invariant FindAny(Snapshot(), keys[i..], now) == FindAny(old(Snapshot()), keys, now)
      {
        assert keys[i..][0] == keys[i] && keys[i..][1..] == keys[i + 1..];
        ghost var seen := Look(Snapshot(), keys[i], now);
        var entity := GetEntity(keys[i], now);
        assert entity.Some? <==> keys[i] in seen.data by { assert entity == At(seen, keys[i]).value; }
        if entity.Some? { return true; }
      }
      return false;
    }

    method ExecMSetNX(line: Line, now: int) returns (r: Answer)
      modifies this`data, this`ttlMap, this`jobs, this`aof
      ensures Got(RunMSetNX(old(Snapshot()), line, now), r)
      ensures old(Armed(now)) ==> Armed(now)
    {
      if |line.args| % 2 != 0 { return Failed(Syntax); }
      var found := AnyExists(EvenArgs(line.args), now);
      if found { return Int(0); }
      PutEntities(line.args);
      AddAof(line);
      return Int(1);
    }

    method ExecRename(line: Line, now: int) returns (r: Answer)
      requires |line.args| == 2
      modifies this`data, this`ttlMap, this`jobs, this`aof
      ensures Got(RunRename(old(Snapshot()), line, now), r)
      ensures old(Armed(now)) ==> Armed(now)
    {
      var src, dest := line.args[0], line.args[1];
      ghost var s := Seen(Before(src), now);
      var entity := GetEntity(src, now);
      assert At(Snapshot(), src) == s;
      if entity.None? { return Failed(NoSuchKey); }
      var rawTtl := if src in ttlMap then Some(ttlMap[src]) else None;
      assert rawTtl == s.deadline;
      PutEntity(dest, entity.value);
      Remove(src);
      if rawTtl.Some? { MoveTtl(src, dest, rawTtl.value, now); }
      AddAof(line);
      return Ok;
    }

    /** Persist the source and the destination, then give the destination the deadline. */
    method MoveTtl(src: Bytes, dest: Bytes, expireTime: int, now: int)
      requires Before(src).deadline.None? || src == dest
      modifies this`ttlMap, this`jobs
      ensures Snapshot() == PutSlot(old(Snapshot()), dest, old(Before(dest)).(deadline := Some(expireTime)))
      ensures old(Armed(now)) ==> Armed(now)
    {
      ghost var db, d := Snapshot(), Before(dest);
      Persist(src);
      if src != dest { PutBack(db, src, EMPTY); }
      ghost var mid := Snapshot();
      assert At(mid, dest) == if src == dest then d.(deadline := None) else d;
      Persist(dest);
      PutTwice(mid, dest, d.(deadline := None), d.(deadline := Some(expireTime)));
      Expire(dest, expireTime, now);
      if src == dest { PutTwice(db, dest, d.(deadline := None), d.(deadline := Some(expireTime))); }
    }

    method ExecRenameNX(line: Line, now: int) returns (r: Answer)
      requires |line.args| == 2
      modifies this`data, this`ttlMap, this`jobs, this`aof
      ensures Got(RunRenameNX(old(Snapshot()), line, now), r)
      ensures old(Armed(now)) ==> Armed(now)
    {
      var src, dest := line.args[0], line.args[1];
      ghost var seen := Look(Snapshot(), dest, now);
      var entity := GetEntity(dest, now);
      assert entity == At(seen, dest).value;
      if entity.Some? { return Int(0); }
      ghost var s := Seen(Before(src), now);
      entity := GetEntity(src, now);
      assert At(Snapshot(), src) == s;
      if entity.None? { return Failed(NoSuchKey); }
      var rawTtl := if src in ttlMap then Some(ttlMap[src]) else None;
      assert rawTtl == s.deadline;
      r := MoveFresh(line, src, dest, entity.value, rawTtl, now);
    }

    /** The second half of RENAMENX. */
    method MoveFresh(line: Line, src: Bytes, dest: Bytes, value: Value, rawTtl: Option<int>, now: int) returns (r: Answer)
      requires src != dest && src in data && dest !in data
      modifies this`data, this`ttlMap, this`jobs, this`aof
      ensures r == Int(1) && aof == old(aof) + [line] && (old(Armed(now)) ==> Armed(now))
      ensures var cleared := Removes(old(Snapshot()), [src, dest]).0;
              var moved := PutSlot(cleared, dest, At(cleared, dest).(value := Some(value)));
              Snapshot() == if rawTtl.Some? then PutSlot(moved, dest, At(moved, dest).(deadline := rawTtl)) else moved
    {
      ghost var cleared := Removes(Snapshot(), [src, dest]).0;
      var none: seq<Bytes> := [];
      assert [src, dest][1..] == [dest] && [dest][1..] == none;
      ghost var gone := Engine.Remove(Snapshot(), src);
      assert dest !in gone.data && Removes(gone, none) == (gone, 0);
      assert Removes(gone, [dest]) == (gone, 0);
      assert cleared == gone;
      var n := RemoveKeys([src, dest]);
      assert Before(src) == EMPTY;
      PutEntity(dest, value);
      assert Before(src) == EMPTY;
      if rawTtl.Some? { MoveTtl(src, dest, rawTtl.value, now); }
      AddAof(line);
      return Int(1);
    }

    method ExecRPopLPush(line: Line, now: int) returns (r: Answer)
      requires |line.args| == 2
      modifies this`data, this`ttlMap, this`jobs, this`aof
      ensures Got(RunRPopLPush(old(Snapshot()), line, now), r)
      ensures old(Armed(now)) ==> Armed(now)
    {
      var src, dest := line.args[0], line.args[1];
      ghost var one := Look(Snapshot(), src, now);
      var source := GetEntity(src, now);
      assert source == At(one, src).value;
      if source.None? { return NoValue; }
      if !source.value.List? { return Failed(WrongType); }
      ghost var both := Look(one, dest, now);
      var target := GetEntity(dest, now);
      assert target == At(both, dest).value;
      if target.Some? && !target.value.List? { return Failed(WrongType); }
      var l := source.value.items;
      if |l| == 0 { return Panicked; }
      var val := l[|l| - 1];
      if src == dest {
        PutEntity(src, List([val] + l[..|l| - 1]));
      } else {
        Shift(src, dest, l, if target.None? then [] else target.value.items, At(one, src));
      }
      AddAof(line);
      return Bulk(val);
    }

    /** Pop from one list and push on another. */
    method Shift(src: Bytes, dest: Bytes, l: seq<Bytes>, items: seq<Bytes>, ghost s: Slot)
      requires src != dest && |l| > 0 && Before(src) == s
      modifies this`data, this`ttlMap, this`jobs
      ensures var pushed := PutSlot(old(Snapshot()), dest, old(Before(dest)).(value := Some(List([l[|l| - 1]] + items))));
              Snapshot() == PutSlot(pushed, src, WithItems(s, l[..|l| - 1]))
      ensures KeepsJobs()
    {
      PutEntity(dest, List([l[|l| - 1]] + items));
      if |l| == 1 {
        Remove(src);
      } else {
        PutEntity(src, List(l[..|l| - 1]));
      }
    }

    /* ---- dispatch ---- */

    method ExecString(line: Line, now: int) returns (r: Answer)
      requires StringOp(line.op) && ArityFits(line)
      modifies this`data, this`ttlMap, this`jobs, this`aof
      ensures Ran(line.args[0], RunString(old(Before(line.args[0])), line, now), r)
      ensures old(Armed(now)) ==> Armed(now)
    {
      var args := line.args;
      match line.op {
        case Set => r := ExecSet(args, now);
        case SetNX => r := ExecSetNX(args);
        case SetEX => r := ExecSetEX(args, now, 1000);
        case PSetEX => r := ExecSetEX(args, now, 1);
        case Get => r := ExecGet(args, now);
        case GetEX => r := ExecGetEX(args, now);
        case GetSet => r := ExecGetSet(args, now);
        case GetDel => r := ExecGetDel(args, now);
        case Incr => r := ExecAdd(line, args[0], 1, "1", now);
        case Decr => r := ExecAdd(line, args[0], -1, "-1", now);
        case IncrBy => r := ExecAddBy(line, now);
        case DecrBy => r := ExecAddBy(line, now);
        case Append => r := ExecAppend(args, now);
      }
    }

    method ExecHash(line: Line, now: int) returns (r: Answer)
      requires HashOp(line.op) && ArityFits(line)
      modifies this`data, this`ttlMap, this`jobs, this`aof
      ensures Ran(line.args[0], RunHash(old(Before(line.args[0])), line, now), r)
      ensures old(Armed(now)) ==> Armed(now)
    {
      var args := line.args;
      match line.op {
        case HSet => r := ExecHSet(args, now);
        case HSetNX => r := ExecHSetNX(args, now);
        case HGet => r := ExecHGet(args, now);
        case HDel => r := ExecHDel(args, now);
        case HMSet => r := ExecHMSet(args, now);
        case HIncrBy => r := ExecHIncrBy(args, now);
      }
    }

    method ExecList(line: Line, now: int) returns (r: Answer)
      requires ListOp(line.op) && ArityFits(line)
      modifies this`data, this`ttlMap, this`jobs, this`aof
      ensures Ran(line.args[0], RunList(old(Before(line.args[0])), line, now), r)
      ensures old(Armed(now)) ==> Armed(now)
    {
      var args := line.args;
      match line.op {
        case LPush => r := ExecPush(line, args[0], args[1..], true, true, now);
        case LPushX => r := ExecPush(line, args[0], args[1..], true, false, now);
        case RPush => r := ExecPush(line, args[0], args[1..], false, true, now);
        case RPushX => r := ExecPush(line, args[0], args[1..], false, false, now);
        case LPop => r := ExecPop(line, args[0], true, now);
        case RPop => r := ExecPop(line, args[0], false, now);
        case LSet => r := ExecLSet(args, now);
      }
    }

    method ExecTime(line: Line, now: int) returns (r: Answer)
      requires TimeOp(line.op) && ArityFits(line)
      modifies this`data, this`ttlMap, this`jobs, this`aof
      ensures Ran(line.args[0], RunTime(old(Before(line.args[0])), line, now), r)
      ensures old(Armed(now)) ==> Armed(now)
    {
      if line.op.Persist? {
        r := ExecPersist(line.args, now);
      } else {
        r := ExecExpire(line, now);
      }
    }

    method ExecSeveral(line: Line, now: int) returns (r: Answer)
      requires !OneKey(line.op) && ArityFits(line)
      modifies this`data, this`ttlMap, this`jobs, this`aof
      ensures Got(ExecMany(old(Snapshot()), line, now), r)
      ensures old(Armed(now)) ==> Armed(now)
    {
      match line.op {
        case MSet => r := ExecMSet(line);
        case MSetNX => r := ExecMSetNX(line, now);
        case Del => r := ExecDel(line);
        case Exists => r := ExecExists(line.args, now);
        case Rename => r := ExecRename(line, now);
        case RenameNX => r := ExecRenameNX(line, now);
        case RPopLPush => r := ExecRPopLPush(line, now);
      }
    }

    /** `execWithLock`. */
    method ExecWithLock(line: Line, now: int) returns (r: Answer)
      modifies this`data, this`ttlMap, this`jobs, this`aof
      ensures Got(Exec(old(Snapshot()), line, now), r)
      ensures old(Armed(now)) ==> Armed(now)
    {
      if !ArityFits(line) { return Failed(ArgNum); }
      if StringOp(line.op) {
        r := ExecString(line, now);
      } else if HashOp(line.op) {
        r := ExecHash(line, now);
      } else if ListOp(line.op) {
        r := ExecList(line, now);
      } else if TimeOp(line.op) {
        r := ExecTime(line, now);
      } else {
        r := ExecSeveral(line, now);
      }
    }
  }
}
