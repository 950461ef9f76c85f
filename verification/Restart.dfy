/** Loading the file after deadlines have passed: when the clock of the replay shows. */
module Restart {
  import opened Strconv
  import opened Commands
  import opened Slots
  import opened Engine
  import opened Marshal
  import opened Undo
  import opened Rollback
  import opened RollbackCases
  import opened RollbackLists
  import opened Multi
  import opened Footprint
  import opened Replay

  /** The log of these commands does not look at what the key holds. */
  predicate Overwrites(op: Op) {
    op in {Set, SetNX, SetEX, PSetEX, GetSet, GetDel}
  }

  /** The command takes the last field or element out, and the key goes. */
  predicate Empties(s: Slot, line: Line)
    requires ArityFits(line)
  {
    || (line.op in {LPop, RPop} && IsList(s) && |Items(s)| == 1)
    || (line.op.HDel? && IsHash(s) && Fields(s).Keys <= SetOf(line.args[1..]))
  }

  /** What a command does to a key does not need the key to be alive at the replay. */
  predicate Withstands(s: Slot, line: Line, now: int)
    requires OneKey(line.op) && ArityFits(line)
  {
    Overwrites(line.op) || Empties(s, line) || RunOne(s, line, now).log == []
  }

  /* ---- what is logged, on a slot that has expired by then ---- */

  lemma DeadlineLater(s: Slot, key: Bytes, deadline: Option<int>, clock: int)
    requires s.value.Some? && Expired(s.deadline, clock)
    ensures AllOnKey([TtlLine(key, deadline)], key) && RunAll(s, [TtlLine(key, deadline)], key, clock) == EMPTY
  {
    TtlLineOn(s, key, deadline, clock);
    RunsOne(s, TtlLine(key, deadline), key, clock);
  }

  /** These commands keep the deadline that the key has. */
  predicate Keeps(op: Op) {
    op in {Incr, IncrBy, Decr, DecrBy, Append}
  }

  lemma Kept(s: Slot, line: Line, now: int)
    requires Keeps(line.op) && ArityFits(line) && RunOne(s, line, now).log != []
    ensures RunOne(s, line, now).log == [line] && RunOne(s, line, now).slot.deadline == Seen(s, now).deadline
  {
  }

  lemma KeptLater(s: Slot, line: Line, now: int, clock: int)
    requires Keeps(line.op) && ArityFits(line) && s.value.Some? && Expired(s.deadline, clock)
    requires RunOne(s, line, now).log != []
    ensures RunOne(s, line, clock).slot.deadline.None?
  {
  }

  lemma GetExLater(s: Slot, line: Line, now: int, clock: int)
    requires line.op.GetEX? && ArityFits(line) && s.value.Some?
    requires !Expired(s.deadline, now) && Expired(s.deadline, clock) && RunOne(s, line, now).log != []
    ensures var r := RunOne(s, line, now);
            && (exists d :: r.log == [TtlLine(line.args[0], d)])
            && r.slot.value.Some?
  {
    var r := RunOne(s, line, now);
    assert r.log == [TtlLine(line.args[0], r.slot.deadline)];
  }

  lemma StringLater(s: Slot, line: Line, now: int, clock: int)
    requires StringOp(line.op) && !Overwrites(line.op) && ArityFits(line) && s.value.Some?
    requires !Expired(s.deadline, now) && Expired(s.deadline, clock) && RunOne(s, line, now).log != []
    ensures var r := RunOne(s, line, now);
            AllOnKey(r.log, line.args[0]) && RunAll(s, r.log, line.args[0], clock) != r.slot
  {
    var key, r := line.args[0], RunOne(s, line, now);
    if line.op.GetEX? {
      GetExLater(s, line, now, clock);
      var d :| r.log == [TtlLine(key, d)];
      DeadlineLater(s, key, d, clock);
    } else {
      assert Keeps(line.op);
      Kept(s, line, now);
      KeptLater(s, line, now, clock);
      RunsOne(s, line, key, clock);
    }
  }

  lemma HashRuns(s: Slot, line: Line, now: int)
    requires HashOp(line.op) && ArityFits(line) && Sound(s) && s.value.Some? && !Expired(s.deadline, now)
    requires RunOne(s, line, now).log != []
    ensures var r := RunOne(s, line, now);
            && r.log == [line] && IsHash(s)
            && r.slot == (if Empties(s, line) then EMPTY else r.slot)
            && (!Empties(s, line) ==> r.slot.deadline == s.deadline && r.slot.value.Some?)
  {
    if line.op.HDel? {
      var m, gone := Fields(s), SetOf(line.args[1..]);
      assert m - gone == map[] <==> m.Keys <= gone by {
        if m - gone == map[] { forall f | f in m ensures f in gone { assert f !in m - gone; } }
      }
    }
  }

  lemma HashLater(s: Slot, line: Line, now: int, clock: int)
    requires HashOp(line.op) && ArityFits(line) && Sound(s) && s.value.Some?
    requires !Expired(s.deadline, now) && Expired(s.deadline, clock) && RunOne(s, line, now).log != []
    ensures var r := RunOne(s, line, now);
            && AllOnKey(r.log, line.args[0])
            && (RunAll(s, r.log, line.args[0], clock) == r.slot <==> Empties(s, line))
  {
    HashRuns(s, line, now);
    HashOnNothing(s, line, now, clock);
    RunsOne(s, line, line.args[0], clock);
  }

  lemma HashOnNothing(s: Slot, line: Line, now: int, clock: int)
    requires HashOp(line.op) && ArityFits(line) && s.value.Some? && Expired(s.deadline, clock)
    requires RunOne(s, line, now).log != []
    ensures RunOne(s, line, clock).slot.deadline.None?
    ensures line.op.HDel? ==> RunOne(s, line, clock).slot == EMPTY
  {
  }

  lemma ListLater(s: Slot, line: Line, now: int, clock: int)
    requires ListOp(line.op) && ArityFits(line) && Sound(s) && s.value.Some?
    requires !Expired(s.deadline, now) && Expired(s.deadline, clock) && RunOne(s, line, now).log != []
    ensures var r := RunOne(s, line, now);
            && AllOnKey(r.log, line.args[0])
            && (RunAll(s, r.log, line.args[0], clock) == r.slot <==> Empties(s, line))
  {
    RunsOne(s, line, line.args[0], clock);
  }

  lemma TimeLater(s: Slot, line: Line, now: int, clock: int)
    requires TimeOp(line.op) && ArityFits(line) && s.value.Some?
    requires !Expired(s.deadline, now) && Expired(s.deadline, clock) && RunOne(s, line, now).log != []
    ensures var r := RunOne(s, line, now);
            AllOnKey(r.log, line.args[0]) && RunAll(s, r.log, line.args[0], clock) != r.slot
  {
    var key, r := line.args[0], RunOne(s, line, now);
    assert r.log == [TtlLine(key, r.slot.deadline)] by {
      if line.op.Persist? { assert line.args == [key]; }
    }
    DeadlineLater(s, key, r.slot.deadline, clock);
  }

  /* ---- the clock of the replay ---- */

  lemma OverwritesLater(s: Slot, line: Line, now: int, clock: int)
    requires Overwrites(line.op) && !line.op.GetDel? && ArityFits(line) && Seen(s, now) == s && s.value.Some?
    ensures var r := RunOne(s, line, now);
            && AllOnKey(r.log, line.args[0])
            && (RunAll(s, r.log, line.args[0], clock) == r.slot
                <==> !FarDeadline(s, line, now) && (line.op in {SetEX, PSetEX} ==> Timely(line, clock)))
  {
    var key, r := line.args[0], RunOne(s, line, now);
    if line.op in {SetEX, PSetEX} {
      SetExReplays(s, line, now, clock);
    } else if line.op.Set? {
      SetReplays(s, line, now, clock);
    } else if |r.log| == 0 {
      RunsNone(s, key, clock);
    } else {
      RunsOne(s, r.log[0], key, clock);
      if line.op.GetSet? { SetRuns(s, key, line.args[1], clock); }
    }
  }

  lemma UnloggedLater(s: Slot, line: Line, now: int, clock: int)
    requires OneKey(line.op) && !Overwrites(line.op) && ArityFits(line) && Sound(s) && s.value.Some?
    requires Seen(s, now) == s && RunOne(s, line, now).log == []
    ensures AllOnKey([], line.args[0])
    ensures RunAll(s, [], line.args[0], clock) == RunOne(s, line, now).slot <==> !LeaksSlot(s, line)
  {
    RunsNone(s, line.args[0], clock);
    if line.op.HDel? && IsHash(s) { NoneRemoved(Fields(s), line.args[1..]); }
  }

  /**
   * A command on a key that is alive when it runs and expired when its log is replayed: the log still does what the
   * command did exactly when it was recorded and does not need the key, or takes the last of it away.
   */
  lemma LateReplay(db: Db, line: Line, now: int, clock: int)
    requires OneKey(line.op) && ArityFits(line) && SoundDb(db) && At(db, line.args[0]).value.Some?
    requires !Expired(At(db, line.args[0]).deadline, now) && Expired(At(db, line.args[0]).deadline, clock)
    ensures Replays(db, line, now, clock)
       <==> Recorded(db, line, now, clock) && Withstands(At(db, line.args[0]), line, now)
  {
    var key, s := line.args[0], At(db, line.args[0]);
    assert Sound(s) && Keys(line) == {key};
    var r := RunOne(s, line, now);
    if line.op.GetDel? {
      GetDelReplays(db, line, now, clock);
    } else {
      if Overwrites(line.op) { OverwritesLater(s, line, now, clock); }
      else if r.log == [] { UnloggedLater(s, line, now, clock); }
      else if StringOp(line.op) { StringLater(s, line, now, clock); }
      else if HashOp(line.op) { HashLater(s, line, now, clock); }
      else if ListOp(line.op) { ListLater(s, line, now, clock); }
      else { TimeLater(s, line, now, clock); }
      SlotReplays(db, line, now, clock);
    }
  }

  /** The exact condition at any clock, for a command whose key is alive when it runs. */
  lemma ReplaysAtClock(db: Db, line: Line, now: int, clock: int)
    requires OneKey(line.op) && ArityFits(line) && SoundDb(db) && Alive(db, Keys(line), now)
    ensures var s := At(db, line.args[0]);
            Replays(db, line, now, clock)
            <==> Recorded(db, line, now, clock) && (Expired(s.deadline, clock) ==> Withstands(s, line, now))
  {
    var s := At(db, line.args[0]);
    assert Sound(s) && Keys(line) == {line.args[0]};
    if Expired(s.deadline, clock) { LateReplay(db, line, now, clock); } else { LogReplays(db, line, now, clock); }
  }

  /** INCR of a key with a deadline, replayed after the deadline: the count starts anew, and for good. */
  lemma CountStartsOver(db: Db, key: Bytes, n: int, deadline: int, now: int, clock: int)
    requires At(db, key) == Slot(Some(Str(FormatInt(n))), Some(deadline)) && MIN_INT64 <= n < MAX_INT64
    requires now <= deadline < clock
    ensures var r := Exec(db, Line(Incr, [key]), now);
            && At(r.db, key) == Slot(Some(Str(FormatInt(n + 1))), Some(deadline))
            && At(ExecAll(db, r.log, clock), key) == Slot(Some(Str("1")), None)
  {
    var incr := Line(Incr, [key]);
    ParseFormatInt(n);
    assert RunOne(At(db, key), incr, now) == Outcome(Slot(Some(Str(FormatInt(n + 1))), Some(deadline)), Int(n + 1), [incr]);
    ExecSingle(db, incr, clock);
    var one: Bytes := "1";
    assert RunOne(At(db, key), incr, clock).slot == Slot(Some(Str(one)), None);
  }

  /**
   * SETNX does not look whether the key that is there has expired. Where the live database has removed the key, it
   * sets it; the replay, which has not, leaves the expired value, and the new one is lost.
   */
  lemma SetNXIsLost(live: Db, loaded: Db, key: Bytes, value: Bytes, now: int, clock: int)
    requires At(live, key) == EMPTY && At(loaded, key).value.Some? && Expired(At(loaded, key).deadline, clock)
    ensures var r := Exec(live, Line(SetNX, [key, value]), now);
            && At(r.db, key) == Slot(Some(Str(value)), None) && r.answer == Int(1)
            && Seen(At(ExecAll(loaded, r.log, clock), key), clock) == EMPTY
  {
    var setnx := Line(SetNX, [key, value]);
    assert RunOne(EMPTY, setnx, now) == Outcome(Slot(Some(Str(value)), None), Int(1), [setnx]);
    ExecSingle(loaded, setnx, clock);
    assert RunOne(At(loaded, key), setnx, clock).slot == At(loaded, key);
  }
}
