/** The append-only log: executing the logged lines again rebuilds the database. */
module Replay {
  import opened Strconv
  import opened Commands
  import opened Slots
  import opened Engine
  import opened Undo
  import opened Rollback
  import opened RollbackCases
  import opened RollbackLists
  import opened Multi
  import opened Footprint

  /**
   * SETEX and PSETEX log a line SETEX with their own argument, which counts seconds from the moment of the replay,
   * and the deadline after it. The key must outlive that moment for the deadline to find it.
   */
  predicate Timely(line: Line, clock: int)
    requires ArityFits(line) && line.op in {SetEX, PSetEX}
  {
    var ttl := ParseInt64(line.args[1]);
    ttl.Some? && ttl.value > 0 ==> clock <= Deadline(clock, Wrap64(ttl.value * 1000))
  }

  predicate LeaksSlot(s: Slot, line: Line)
    requires ArityFits(line)
  {
    && line.op.GetEX? && s.value.Some? && s.value.value.Str? && s.deadline.Some?
    && ParseGetEx(line.args, 1, 0, false).BadGetEx? && ParseGetEx(line.args, 1, 0, false).persisted
  }

  /** The command sets a deadline that cannot be printed. */
  predicate FarDeadline(s: Slot, line: Line, now: int)
    requires ArityFits(line)
  {
    var args := line.args;
    match line.op
    case Set => FarSet(s, ParseSet(args, 2, Upsert, 0), now)
    case SetEX => FarTtl(ParseInt64(args[1]), 1000, now)
    case PSetEX => FarTtl(ParseInt64(args[1]), 1, now)
    case GetEX => GetString(s).Bulk? && FarGetEx(ParseGetEx(args, 1, 0, false), now)
    case Expire | ExpireAt | PExpire | PExpireAt =>
      s.value.Some? && ParseInt64(args[1]).Some? && !Dated(Some(NewDeadline(line, now)))
    case _ => false
  }

  predicate FarSet(s: Slot, options: Options, now: int) {
    && options.Options? && options.ttl != 0 && !Dated(Some(Deadline(now, options.ttl)))
    && (options.policy.Insert? ==> s.value.None?) && (options.policy.Update? ==> s.value.Some?)
  }

  predicate FarTtl(ttl: Option<int>, unit: int, now: int) {
    ttl.Some? && ttl.value > 0 && !Dated(Some(Deadline(now, Wrap64(ttl.value * unit))))
  }

  predicate FarGetEx(options: GetExOptions, now: int) {
    options.GetExOptions? && options.ttl != 0 && !Dated(Some(Deadline(now, options.ttl)))
  }

  /**
   * What a caller can check: the log of the command, executed at `now`, does at the clock of the replay what the
   * command did.
   */
  predicate Recorded(db: Db, line: Line, now: int, clock: int)
    requires ArityFits(line)
  {
    && !PersistLeaks(db, line) && !FarDeadline(At(db, line.args[0]), line, now)
    && (line.op in {SetEX, PSetEX} ==> Timely(line, clock))
  }

  ghost predicate Replays(db: Db, line: Line, now: int, clock: int) {
    var r := Exec(db, line, now);
    ExecAll(db, r.log, clock) == r.db
  }

  /* ---- commands on one key ---- */

  lemma RunsNone(s: Slot, key: Bytes, now: int)
    ensures AllOnKey([], key) && RunAll(s, [], key, now) == s
  {
  }

  lemma RunsDouble(s: Slot, a: Line, b: Line, key: Bytes, now: int)
    requires OnKey(a, key) && OnKey(b, key)
    ensures AllOnKey([a, b], key) && RunAll(s, [a, b], key, now) == RunOne(RunOne(s, a, now).slot, b, now).slot
  {
    assert [a, b][1..] == [b];
    RunsOne(RunOne(s, a, now).slot, b, key, now);
  }

  lemma SetExReplays(s: Slot, line: Line, now: int, clock: int)
    requires line.op in {SetEX, PSetEX} && ArityFits(line)
    ensures var r := RunOne(s, line, now);
            AllOnKey(r.log, line.args[0]) && (RunAll(s, r.log, line.args[0], clock) == r.slot
                                         <==> Timely(line, clock) && !FarDeadline(s, line, now))
  {
    var key, ttl := line.args[0], ParseInt64(line.args[1]);
    if ttl.Some? && ttl.value > 0 {
      SetExLog(s, line, now);
      SetExLogRuns(s, line.args, RunOne(s, line, now).slot.deadline.value, clock);
    } else {
      RunsNone(s, key, clock);
    }
  }

  lemma SetExLog(s: Slot, line: Line, now: int)
    requires line.op in {SetEX, PSetEX} && ArityFits(line)
    requires ParseInt64(line.args[1]).Some? && ParseInt64(line.args[1]).value > 0
    ensures var r := RunOne(s, line, now);
            && r.slot.value == Some(Str(line.args[2])) && r.slot.deadline.Some?
            && (Dated(r.slot.deadline) <==> !FarDeadline(s, line, now))
            && r.log == [Line(SetEX, line.args), ExpireLine(line.args[0], r.slot.deadline.value)]
  {
  }

  /** The two logged lines: the deadline is set again if the key outlives the moment of the replay. */
  lemma SetExLogRuns(s: Slot, args: seq<Bytes>, deadline: int, clock: int)
    requires ArityFits(Line(SetEX, args))
    requires ParseInt64(args[1]).Some? && ParseInt64(args[1]).value > 0
    ensures var first := Line(SetEX, args);
            var log := [first, ExpireLine(args[0], deadline)];
            && AllOnKey(log, args[0])
            && (RunAll(s, log, args[0], clock) == Slot(Some(Str(args[2])), Some(deadline))
                <==> Timely(first, clock) && Dated(Some(deadline)))
  {
    var first := Line(SetEX, args);
    SetExAgain(s, first, clock);
    ExpireLineOn(RunOne(s, first, clock).slot, args[0], deadline, clock);
    RunsDouble(s, first, ExpireLine(args[0], deadline), args[0], clock);
  }

  lemma SetExAgain(s: Slot, line: Line, clock: int)
    requires line.op.SetEX? && ArityFits(line) && ParseInt64(line.args[1]).Some? && ParseInt64(line.args[1]).value > 0
    ensures RunOne(s, line, clock).slot
         == Slot(Some(Str(line.args[2])), Some(Deadline(clock, Wrap64(ParseInt64(line.args[1]).value * 1000))))
  {
  }

  lemma SetReplays(s: Slot, line: Line, now: int, clock: int)
    requires line.op.Set? && ArityFits(line)
    ensures var r := RunOne(s, line, now);
            && AllOnKey(r.log, line.args[0])
            && (RunAll(s, r.log, line.args[0], clock) == r.slot <==> !FarDeadline(s, line, now))
  {
    var key, value, r := line.args[0], line.args[1], RunOne(s, line, now);
    if |r.log| == 2 {
      SetRuns(s, key, value, clock);
      ExpireLineOn(Slot(Some(Str(value)), None), key, r.slot.deadline.value, clock);
      RunsDouble(s, r.log[0], r.log[1], key, clock);
    } else if |r.log| == 1 {
      RunsOne(s, line, key, clock);
    } else {
      RunsNone(s, key, clock);
    }
  }

  lemma GetExReplays(s: Slot, line: Line, now: int, clock: int)
    requires line.op.GetEX? && ArityFits(line) && Seen(s, now) == s && Seen(s, clock) == s && Sound(s)
    ensures var r := RunOne(s, line, now);
            AllOnKey(r.log, line.args[0]) && (RunAll(s, r.log, line.args[0], clock) == r.slot
                                         <==> !LeaksSlot(s, line) && !FarDeadline(s, line, now))
  {
    var key, r := line.args[0], RunOne(s, line, now);
    if |r.log| == 0 {
      RunsNone(s, key, clock);
    } else {
      if r.log[0].op.PExpireAt? { ExpireLineOn(s, key, r.slot.deadline.value, clock); }
      RunsOne(s, r.log[0], key, clock);
    }
  }

  /** The string commands that log themselves, or a plain SET. */
  lemma PlainReplays(s: Slot, line: Line, now: int, clock: int)
    requires StringOp(line.op) && line.op !in {Set, SetEX, PSetEX, GetEX, GetDel} && ArityFits(line)
    requires Seen(s, now) == s && Seen(s, clock) == s
    ensures var r := RunOne(s, line, now);
            AllOnKey(r.log, line.args[0]) && RunAll(s, r.log, line.args[0], clock) == r.slot
  {
    var key, r := line.args[0], RunOne(s, line, now);
    if |r.log| == 0 {
      RunsNone(s, key, clock);
    } else {
      RunsOne(s, r.log[0], key, clock);
      if line.op.GetSet? { SetRuns(s, key, line.args[1], clock); }
    }
  }

  lemma {:induction false} NoneRemoved(m: map<Bytes, Field>, fields: seq<Bytes>)
    requires CountRemoved(m, fields) == 0
    ensures m - SetOf(fields) == m
    decreases |fields|
  {
    if |fields| > 0 {
      assert m - {fields[0]} == m;
      NoneRemoved(m, fields[1..]);
      assert fields == [fields[0]] + fields[1..];
    }
  }

  lemma HashReplays(s: Slot, line: Line, now: int, clock: int)
    requires HashOp(line.op) && ArityFits(line) && Seen(s, now) == s && Seen(s, clock) == s && Sound(s)
    ensures var r := RunOne(s, line, now);
            AllOnKey(r.log, line.args[0]) && RunAll(s, r.log, line.args[0], clock) == r.slot
  {
    var key, r := line.args[0], RunOne(s, line, now);
    if |r.log| == 0 {
      RunsNone(s, key, clock);
      if line.op.HDel? && IsHash(s) { NoneRemoved(Fields(s), line.args[1..]); }
    } else {
      RunsOne(s, line, key, clock);
    }
  }

  lemma ListReplays(s: Slot, line: Line, now: int, clock: int)
    requires ListOp(line.op) && ArityFits(line) && Seen(s, now) == s && Seen(s, clock) == s
    ensures var r := RunOne(s, line, now);
            AllOnKey(r.log, line.args[0]) && RunAll(s, r.log, line.args[0], clock) == r.slot
  {
    var key, r := line.args[0], RunOne(s, line, now);
    if |r.log| == 0 { RunsNone(s, key, clock); } else { RunsOne(s, line, key, clock); }
  }

  lemma TimeReplays(s: Slot, line: Line, now: int, clock: int)
    requires TimeOp(line.op) && ArityFits(line) && Seen(s, now) == s && Seen(s, clock) == s
    ensures var r := RunOne(s, line, now);
            && AllOnKey(r.log, line.args[0])
            && (RunAll(s, r.log, line.args[0], clock) == r.slot <==> !FarDeadline(s, line, now))
  {
    var key, r := line.args[0], RunOne(s, line, now);
    if |r.log| == 0 {
      RunsNone(s, key, clock);
    } else {
      if !line.op.Persist? { ExpireLineOn(s, key, r.slot.deadline.value, clock); }
      RunsOne(s, r.log[0], key, clock);
    }
  }

  lemma OneReplays(db: Db, line: Line, now: int, clock: int)
    requires OneKey(line.op) && !line.op.GetDel? && ArityFits(line) && SoundDb(db) && Alive(db, Keys(line), now) && Alive(db, Keys(line), clock)
    ensures Replays(db, line, now, clock) <==> Recorded(db, line, now, clock)
  {
    var key, s := line.args[0], At(db, line.args[0]);
    AliveArgs(db, line, now, 0);
    AliveArgs(db, line, clock, 0);
    assert Sound(s);
    var r := RunOne(s, line, now);
    if line.op in {SetEX, PSetEX} { SetExReplays(s, line, now, clock); }
    else if line.op.Set? { SetReplays(s, line, now, clock); }
    else if line.op.GetEX? { GetExReplays(s, line, now, clock); }
    else if StringOp(line.op) { PlainReplays(s, line, now, clock); }
    else if HashOp(line.op) { HashReplays(s, line, now, clock); }
    else if ListOp(line.op) { ListReplays(s, line, now, clock); }
    else { TimeReplays(s, line, now, clock); }
    SlotReplays(db, line, now, clock);
  }

  lemma SlotReplays(db: Db, line: Line, now: int, clock: int)
    requires OneKey(line.op) && ArityFits(line)
    requires AllOnKey(RunOne(At(db, line.args[0]), line, now).log, line.args[0])
    ensures var key, s := line.args[0], At(db, line.args[0]);
            var r := RunOne(s, line, now);
            Replays(db, line, now, clock) <==> RunAll(s, r.log, key, clock) == r.slot
  {
    var key, s := line.args[0], At(db, line.args[0]);
    var r := RunOne(s, line, now);
    PutBack(db, key, s);
    ExecAllOnKey(db, s, r.log, key, clock);
    assert At(PutSlot(db, key, RunAll(s, r.log, key, clock)), key) == RunAll(s, r.log, key, clock);
    assert At(PutSlot(db, key, r.slot), key) == r.slot;
  }

  lemma GetDelReplays(db: Db, line: Line, now: int, clock: int)
    requires line.op.GetDel? && ArityFits(line) && SoundDb(db) && Alive(db, Keys(line), now)
    ensures Replays(db, line, now, clock)
  {
    var key, s := line.args[0], At(db, line.args[0]);
    AliveArgs(db, line, now, 0);
    PutBack(db, key, s);
    assert line.args == [key];
    if GetString(s).Bulk? { ExecSingle(db, Line(Del, [key]), clock); DelOne(db, key, clock); }
  }

  lemma ExecSingle(db: Db, line: Line, now: int)
    ensures ExecAll(db, [line], now) == Exec(db, line, now).db
  {
    assert [line][1..] == [];
    assert ExecAll(Exec(db, line, now).db, [], now) == Exec(db, line, now).db;
  }

  /* ---- commands on several keys ---- */

  lemma {:induction false} RemovesNone(db: Db, keys: seq<Bytes>)
    requires Removes(db, keys).1 == 0
    ensures Removes(db, keys).0 == db
    decreases |keys|
  {
    if |keys| > 0 { RemovesNone(db, keys[1..]); }
  }

  lemma {:induction false} FindAnyAlive(db: Db, keys: seq<Bytes>, now: int)
    requires Alive(db, SetOf(keys), now)
    ensures FindAny(db, keys, now) == (db, exists i :: 0 <= i < |keys| && keys[i] in db.data)
    decreases |keys|
  {
    if |keys| > 0 {
      AliveSlots(db, SetOf(keys), now, keys[0]);
      FindAnyAlive(db, keys[1..], now);
      assert (exists i :: 0 <= i < |keys| && keys[i] in db.data)
        <==> keys[0] in db.data || exists i :: 0 <= i < |keys[1..]| && keys[1..][i] in db.data by {
        if i :| 0 < i < |keys| && keys[i] in db.data { assert keys[1..][i - 1] in db.data; }
      }
    }
  }

  lemma ManyReplays(db: Db, line: Line, now: int, clock: int)
    requires !OneKey(line.op) && ArityFits(line) && Alive(db, Keys(line), now) && Alive(db, Keys(line), clock)
    ensures Replays(db, line, now, clock)
  {
    var r := Exec(db, line, now);
    AliveArgs(db, line, now, 0);
    AliveArgs(db, line, clock, 0);
    if line.op in {Rename, RenameNX, RPopLPush} {
      AliveArgs(db, line, now, 1);
      AliveArgs(db, line, clock, 1);
    } else if line.op.MSetNX? {
      FindAnyAlive(db, EvenArgs(line.args), now);
      FindAnyAlive(db, EvenArgs(line.args), clock);
    } else if line.op.Exists? {
      CountSeenLooks(db, line.args, now);
      forall k ensures At(r.db, k) == At(db, k) {
        if k in line.args { AliveSlots(db, Keys(line), now, k); }
      }
      SameSlots(r.db, db);
    } else if line.op.Del? {
      if r.log == [] { RemovesNone(db, line.args); }
    }
    if r.log != [] { ExecSingle(db, line, clock); }
  }

  /** The log of a command does at the clock what the command did, if and only if it was recorded. */
  lemma LogReplays(db: Db, line: Line, now: int, clock: int)
    requires ArityFits(line) && SoundDb(db) && Alive(db, Keys(line), now) && Alive(db, Keys(line), clock)
    ensures Replays(db, line, now, clock) <==> Recorded(db, line, now, clock)
  {
    if line.op.GetDel? {
      GetDelReplays(db, line, now, clock);
    } else if OneKey(line.op) {
      OneReplays(db, line, now, clock);
    } else {
      ManyReplays(db, line, now, clock);
    }
  }

  lemma NanosWrapOnce(ms: int)
    requires MAX_MILLIS < ms <= 2 * MAX_MILLIS
    ensures Nanos(ms) < 0
  {
  }

  /**
   * A deadline after the year 2262: the key lives on in the database and is expired at once when the file is loaded,
   * because the printed nanoseconds have wrapped around.
   */
  lemma FarDeadlineIsLost(db: Db, line: Line, deadline: int, now: int, clock: nat)
    requires line.op.Expire? && ArityFits(line) && ParseInt64(line.args[1]).Some?
    requires At(db, line.args[0]).value.Some? && Alive(db, Keys(line), now) && Alive(db, Keys(line), clock)
    requires deadline == now + ParseInt64(line.args[1]).value * 1000
    requires 0 <= now <= MAX_MILLIS && deadline - now <= MAX_MILLIS < deadline
    ensures var key, r := line.args[0], Exec(db, line, now);
            && At(r.db, key) == At(db, key).(deadline := Some(deadline))
            && Expired(At(ExecAll(db, r.log, clock), key).deadline, clock)
  {
    AliveArgs(db, line, clock, 0);
    ExpireRan(db, line, deadline, now);
    FarLineExpires(db, Exec(db, line, now).log, line.args[0], deadline, clock);
  }

  lemma ExpireRan(db: Db, line: Line, deadline: int, now: int)
    requires line.op.Expire? && ArityFits(line) && ParseInt64(line.args[1]).Some?
    requires At(db, line.args[0]).value.Some? && Alive(db, Keys(line), now)
    requires deadline == now + ParseInt64(line.args[1]).value * 1000 && -MAX_MILLIS <= deadline - now <= MAX_MILLIS
    ensures var key, r := line.args[0], Exec(db, line, now);
            && At(r.db, key) == At(db, key).(deadline := Some(deadline)) && r.log == [ExpireLine(key, deadline)]
  {
    AliveArgs(db, line, now, 0);
    ExpireSets(At(db, line.args[0]), line, now);
  }

  lemma FarLineExpires(db: Db, log: seq<Line>, key: Bytes, deadline: int, clock: nat)
    requires At(db, key).value.Some? && !Expired(At(db, key).deadline, clock) && MAX_MILLIS < deadline <= 2 * MAX_MILLIS
    requires log == [ExpireLine(key, deadline)]
    ensures Expired(At(ExecAll(db, log, clock), key).deadline, clock)
  {
    ExecSingle(db, log[0], clock);
    NanosWrapOnce(deadline);
    ExpireLineOn(At(db, key), key, deadline, clock);
  }

  lemma ExpireSets(s: Slot, line: Line, now: int)
    requires line.op.Expire? && ArityFits(line) && ParseInt64(line.args[1]).Some?
    requires s.value.Some? && Seen(s, now) == s
    requires -MAX_MILLIS <= ParseInt64(line.args[1]).value * 1000 <= MAX_MILLIS
    ensures var deadline := now + ParseInt64(line.args[1]).value * 1000;
            RunOne(s, line, now) == Outcome(s.(deadline := Some(deadline)), Int(1), [ExpireLine(line.args[0], deadline)])
  {
  }
}
