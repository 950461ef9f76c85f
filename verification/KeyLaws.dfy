/** Keys as their users know them: what is counted, which deadlines are set, and where a renamed value is found. */
module KeyLaws {
  import opened Strconv
  import opened Commands
  import opened Slots
  import opened Engine

  /** DEL answers how many different keys it has taken away; the others stay. */
  lemma DelLaw(db: Db, line: Line, now: int)
    requires line.op.Del? && ArityFits(line)
    ensures var gone, r := (set k | k in line.args && k in db.data), Exec(db, line, now);
            && r.answer == Int(|gone|)
            && forall k :: At(r.db, k) == if k in gone then EMPTY else At(db, k)
  {
    RemovesLaw(db, line.args);
  }

  lemma {:induction false} RemovesLaw(db: Db, keys: seq<Bytes>)
    ensures var gone, r := (set k | k in keys && k in db.data), Removes(db, keys);
            r.1 == |gone| && forall k :: At(r.0, k) == if k in gone then EMPTY else At(db, k)
    decreases |keys|
  {
    if |keys| > 0 {
      var key, rest := keys[0], keys[1..];
      assert keys == [key] + rest;
      var gone := set k | k in keys && k in db.data;
      if key in db.data {
        var next := Remove(db, key);
        RemovesLaw(next, rest);
        StillThere(db, key);
        var more := set k | k in rest && k in next.data;
        assert gone == more + {key} && key !in more;
      } else {
        RemovesLaw(db, rest);
        assert gone == set k | k in rest && k in db.data;
      }
    }
  }

  lemma StillThere(db: Db, key: Bytes)
    ensures forall k :: k in Remove(db, key).data <==> k in db.data && k != key
  {
  }

  /** EXISTS answers how many of the names stand for a value, a name as often as it is given, and changes nothing. */
  lemma ExistsLaw(db: Db, line: Line, now: int)
    requires line.op.Exists? && ArityFits(line) && Alive(db, Keys(line), now)
    ensures Exec(db, line, now) == Result(db, Int(|set i | 0 <= i < |line.args| && line.args[i] in db.data|), [])
  {
    assert Keys(line) == SetOf(line.args);
    CountSeenLaw(db, line.args, now);
  }

  function Places(db: Db, keys: seq<Bytes>): set<int> {
    set i | 0 <= i < |keys| && keys[i] in db.data
  }

  lemma {:induction false} CountSeenLaw(db: Db, keys: seq<Bytes>, now: int)
    requires Alive(db, SetOf(keys), now)
    ensures CountSeen(db, keys, now) == (db, |Places(db, keys)|)
    decreases |keys|
  {
    if |keys| == 0 {
      assert Places(db, keys) == {};
    } else {
      var front, last := keys[..|keys| - 1], keys[|keys| - 1];
      assert keys == front + [last];
      assert forall k :: k in front ==> k in SetOf(keys);
      CountSeenLaw(db, front, now);
      CountSeenEnd(db, front, last, SetOf(keys), now);
      PlacesEnd(db, front, last);
    }
  }

  lemma {:induction false} CountSeenEnd(db: Db, keys: seq<Bytes>, last: Bytes, all: set<Bytes>, now: int)
    requires Alive(db, all, now) && last in all && forall k :: k in keys ==> k in all
    ensures CountSeen(db, keys + [last], now).0 == db
    ensures CountSeen(db, keys + [last], now).1 == CountSeen(db, keys, now).1 + if last in db.data then 1 else 0
    decreases |keys|
  {
    if |keys| == 0 {
      AliveSlots(db, all, now, last);
      assert keys + [last] == [last] && [last][1..] == [];
    } else {
      AliveSlots(db, all, now, keys[0]);
      assert (keys + [last])[1..] == keys[1..] + [last];
      CountSeenEnd(db, keys[1..], last, all, now);
    }
  }

  lemma PlacesEnd(db: Db, keys: seq<Bytes>, last: Bytes)
    ensures |Places(db, keys + [last])| == |Places(db, keys)| + if last in db.data then 1 else 0
  {
    var before, after := Places(db, keys), Places(db, keys + [last]);
    assert |keys| !in before;
    if last in db.data { assert after == before + {|keys|}; } else { assert after == before; }
  }

  /* ---- kinds ---- */

  /** The commands that need a value of their own kind, when their numbers are numbers. */
  predicate NeedsKind(line: Line)
    requires ArityFits(line)
  {
    match line.op
    case Get | GetEX | GetSet | GetDel | Incr | Decr | Append => true
    case IncrBy | DecrBy | LSet => ParseInt64(line.args[1]).Some?
    case HSet | HSetNX | HGet | HDel => true
    case HMSet => |line.args| % 2 == 1
    case HIncrBy => ParseInt64(line.args[2]).Some?
    case LPush | LPushX | RPush | RPushX | LPop | RPop => true
    case _ => false
  }

  predicate OfKind(op: Op, v: Value) {
    (StringOp(op) && v.Str?) || (HashOp(op) && v.Hash?) || (ListOp(op) && v.List?)
  }

  /** On a living value of another kind they say so and change nothing. */
  lemma WrongKind(s: Slot, line: Line, now: int)
    requires ArityFits(line) && NeedsKind(line) && !Expired(s.deadline, now)
    requires s.value.Some? && !OfKind(line.op, s.value.value)
    ensures RunOne(s, line, now) == Outcome(s, Failed(WrongType), [])
  {
  }

  /* ---- deadlines ---- */

  /** The time that the line names: after a number of seconds or milliseconds, or at one. */
  function TimeNamed(op: Op, n: int, now: int): int
    requires op in {Expire, ExpireAt, PExpire, PExpireAt}
  {
    if op.Expire? then now + 1000 * n else if op.PExpire? then now + n else if op.ExpireAt? then 1000 * n else n
  }

  /** A duration or a time of fewer than 292 years, or a Unix time that Go can hold. */
  predicate Holdable(op: Op, n: int) {
    if op.ExpireAt? then n + UNIX_TO_INTERNAL <= MAX_INT64
    else if op.Expire? then -MAX_MILLIS <= 1000 * n <= MAX_MILLIS else -MAX_MILLIS <= n <= MAX_MILLIS
  }

  /** The four EXPIRE commands set that time, and say whether there was something to set it for. */
  lemma ExpireLaw(s: Slot, line: Line, n: int, now: int)
    requires line.op in {Expire, ExpireAt, PExpire, PExpireAt} && ArityFits(line) && !Expired(s.deadline, now)
    requires ParseInt64(line.args[1]) == Some(n) && Holdable(line.op, n)
    ensures var r := RunOne(s, line, now);
            if s.value.None? then r.answer == Int(0) && r.slot == s
            else r.answer == Int(1) && r.slot == s.(deadline := Some(TimeNamed(line.op, n, now)))
  {
    TimeLaw(line.op, n, now);
  }

  lemma TimeLaw(op: Op, n: int, now: int)
    requires op in {Expire, ExpireAt, PExpire, PExpireAt} && MIN_INT64 <= n && Holdable(op, n)
    ensures ExpireTime(op, n, now) == TimeNamed(op, n, now)
  {
  }

  /** PERSIST takes the deadline away, and says whether there was one. */
  lemma PersistLaw(s: Slot, key: Bytes, now: int)
    requires Sound(s) && !Expired(s.deadline, now)
    ensures RunOne(s, Line(Persist, [key]), now).answer == Int(if s.deadline.Some? then 1 else 0)
    ensures RunOne(s, Line(Persist, [key]), now).slot == s.(deadline := None)
  {
  }

  /* ---- renaming ---- */

  /** What is at the new key after a move: the value, and its deadline, or else the one given. */
  function Arrived(src: Slot, other: Option<int>): Slot {
    Slot(src.value, if src.deadline.Some? then src.deadline else other)
  }

  /** RENAME moves a value over what was at the new key; a value without a deadline takes over the one it finds there. */
  lemma RenameLaw(db: Db, src: Bytes, dest: Bytes, now: int)
    requires src != dest && Alive(db, {src, dest}, now)
    ensures var r := Exec(db, Line(Rename, [src, dest]), now);
            if At(db, src).value.None? then r.answer == Failed(NoSuchKey) && r.db == db
            else
              && r.answer == Ok && At(r.db, src) == EMPTY && At(r.db, dest) == Arrived(At(db, src), At(db, dest).deadline)
              && forall k :: k != src && k != dest ==> At(r.db, k) == At(db, k)
  {
    AliveSlots(db, {src, dest}, now, src);
  }

  /** RENAMENX moves only to a key that holds nothing, and says so. */
  lemma RenameNXLaw(db: Db, src: Bytes, dest: Bytes, now: int)
    requires Alive(db, {src, dest}, now) && Sound(At(db, dest))
    ensures var r := Exec(db, Line(RenameNX, [src, dest]), now);
            if At(db, dest).value.Some? then r.answer == Int(0) && r.db == db
            else if At(db, src).value.None? then r.answer == Failed(NoSuchKey) && r.db == db
            else
              && r.answer == Int(1) && At(r.db, src) == EMPTY && At(r.db, dest) == At(db, src)
              && forall k :: k != src && k != dest ==> At(r.db, k) == At(db, k)
  {
    AliveSlots(db, {src, dest}, now, src);
    AliveSlots(db, {src, dest}, now, dest);
    if At(db, dest).value.None? && At(db, src).value.Some? { TwoRemoved(db, src, dest); }
  }

  lemma TwoRemoved(db: Db, src: Bytes, dest: Bytes)
    requires src in db.data && dest !in db.data
    ensures Removes(db, [src, dest]).0 == Remove(db, src)
  {
    var keys := [src, dest];
    StillThere(db, src);
    assert keys[1..] == [dest] && [dest][1..] == [];
    assert Removes(Remove(db, src), [dest]).0 == Remove(db, src);
  }
}
