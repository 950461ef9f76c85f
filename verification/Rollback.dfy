/** An undo log restores the database exactly when the command is undoable. */
module Rollback {
  import opened Strconv
  import opened Commands
  import opened Slots
  import opened Engine
  import opened Marshal
  import opened Undo

  /* ---- soundness of slots is kept ---- */

  lemma {:induction false} PushLeftIs(l: seq<Bytes>, values: seq<Bytes>)
    ensures |PushLeft(l, values)| == |l| + |values| && PushLeft(l, values)[|values|..] == l
    decreases |values|
  {
    if |values| > 0 {
      PushLeftIs([values[0]] + l, values[1..]);
      var n := |values| - 1;
      assert PushLeft(l, values)[n..] == [values[0]] + l;
      assert PushLeft(l, values)[n + 1..] == PushLeft(l, values)[n..][1..];
    }
  }

  lemma {:induction false} PutPairsGrows(m: map<Bytes, Field>, args: seq<Bytes>, i: nat)
    ensures m.Keys <= PutPairs(m, args, i).Keys
    ensures i + 1 < |args| ==> args[i] in PutPairs(m, args, i)
    decreases |args| - i
  {
    if i + 1 < |args| { PutPairsGrows(m[args[i] := Raw(args[i + 1])], args, i + 2); }
  }

  lemma RunStringSound(s: Slot, line: Line, now: int)
    requires StringOp(line.op) && ArityFits(line) && Sound(s)
    ensures Sound(RunString(s, line, now).slot)
  {
  }

  lemma RunHashSound(s: Slot, line: Line, now: int)
    requires HashOp(line.op) && ArityFits(line) && Sound(s)
    ensures Sound(RunHash(s, line, now).slot)
  {
    var seen, args := Seen(s, now), line.args;
    if line.op.HMSet? && HashOrNone(seen) { PutPairsGrows(Fields(seen), args, 1); }
  }

  lemma RunListSound(s: Slot, line: Line, now: int)
    requires ListOp(line.op) && ArityFits(line) && Sound(s)
    ensures Sound(RunList(s, line, now).slot)
  {
    var seen, args := Seen(s, now), line.args;
    if line.op in {LPush, LPushX} && ListOrNone(seen) { PushLeftIs(Items(seen), args[1..]); }
  }

  lemma RunOneSound(s: Slot, line: Line, now: int)
    requires OneKey(line.op) && ArityFits(line) && Sound(s)
    ensures Sound(RunOne(s, line, now).slot)
  {
    if StringOp(line.op) {
      RunStringSound(s, line, now);
    } else if HashOp(line.op) {
      RunHashSound(s, line, now);
    } else if ListOp(line.op) {
      RunListSound(s, line, now);
    }
  }

  /* ---- the log of one key ---- */

  /** What the log keeps of a deadline. */
  function Printed(deadline: Option<int>): (r: Option<int>)
    ensures r == deadline <==> Dated(deadline)
  {
    if deadline.Some? then Some(Nanos(deadline.value)) else None
  }

  function DumpedSlot(s: Slot): Slot {
    if s.value.None? then s else Slot(Some(Dumped(s.value.value)), Printed(s.deadline))
  }

  lemma DumpedSlotSame(s: Slot)
    requires !IsList(s)
    ensures DumpedSlot(s) == s <==> Dumpable(s)
  {
    if s.value.Some? { DumpedIsSame(s.value.value); }
  }

  lemma DelOne(db: Db, key: Bytes, now: int)
    requires Sound(At(db, key))
    ensures Exec(db, Line(Del, [key]), now).db == Remove(db, key)
  {
    if key !in db.data { PutBack(db, key, EMPTY); }
    assert [key][1..] == [];
    assert Removes(Remove(db, key), []) == (Remove(db, key), 0);
  }

  lemma SetRuns(s: Slot, key: Bytes, bytes: Bytes, now: int)
    ensures RunOne(s, Line(Set, [key, bytes]), now) == Outcome(Slot(Some(Str(bytes)), None), Ok, [Line(Set, [key, bytes])])
  {
    assert ParseSet([key, bytes], 2, Upsert, 0) == Options(Upsert, 0);
  }

  lemma HashLineRuns(key: Bytes, m: map<Bytes, Field>, now: int)
    requires m != map[]
    ensures var line := EntityToCmd(key, Hash(m)).value;
            && ArityFits(line) && line.args[0] == key
            && RunOne(EMPTY, line, now) == Outcome(Slot(Some(Dumped(Hash(m))), None), Ok, [line])
  {
    var order := FieldOrder(m.Keys);
    AnyOrderRebuilds(m, order, key);
    assert order != [] by { var f :| f in m; assert f in SetOf(order); }
    assert EntityToCmd(key, Hash(m)).value == Line(HMSet, [key] + Pairs(m, order));
    HMSetRuns([key] + Pairs(m, order), now);
  }

  lemma HMSetRuns(args: seq<Bytes>, now: int)
    requires |args| >= 3 && |args| % 2 == 1
    ensures var line := Line(HMSet, args);
            && ArityFits(line)
            && RunOne(EMPTY, line, now) == Outcome(Slot(Some(Hash(PutPairs(map[], args, 1))), None), Ok, [line])
  {
  }

  /** EntityToCmd on an absent key puts the dumped value there. */
  lemma DumpLineRuns(key: Bytes, value: Value, now: int)
    requires !value.List? && (value.Hash? ==> value.fields != map[])
    ensures var line := EntityToCmd(key, value).value;
            && ArityFits(line) && line.args[0] == key
            && RunOne(EMPTY, line, now) == Outcome(Slot(Some(Dumped(value)), None), Ok, [line])
  {
    if value.Hash? { HashLineRuns(key, value.fields, now); } else { SetRuns(EMPTY, key, value.bytes, now); }
  }

  lemma DumpLine(db: Db, key: Bytes, value: Value, now: int)
    requires At(db, key) == EMPTY && !value.List? && (value.Hash? ==> value.fields != map[])
    ensures var line := EntityToCmd(key, value).value;
            Exec(db, line, now) == Result(PutSlot(db, key, Slot(Some(Dumped(value)), None)), Ok, [line])
  {
    DumpLineRuns(key, value, now);
  }

  lemma TtlLineRuns(s: Slot, key: Bytes, deadline: Option<int>, now: int)
    requires s.value.Some? && s.deadline.None?
    ensures RunOne(s, TtlLine(key, deadline), now).slot == s.(deadline := Printed(deadline))
  {
    if deadline.Some? { ParseFormatInt(Nanos(deadline.value)); }
  }

  lemma TtlLineSets(db: Db, key: Bytes, deadline: Option<int>, now: int)
    requires At(db, key).value.Some? && At(db, key).deadline.None?
    ensures Exec(db, TtlLine(key, deadline), now).db == PutSlot(db, key, At(db, key).(deadline := Printed(deadline)))
  {
    TtlLineRuns(At(db, key), key, deadline, now);
  }

  /** The undo log of a key puts back what the key held, as far as EntityToCmd keeps it. */
  lemma UndoKeySets(db: Db, key: Bytes, s: Slot, now: int)
    requires Sound(At(db, key)) && Sound(s) && !IsList(s)
    ensures UndoKey(key, s).Some? && ExecAll(db, UndoKey(key, s).value, now) == PutSlot(db, key, DumpedSlot(s))
  {
    var lines := UndoKey(key, s).value;
    var removed := Remove(db, key);
    DelOne(db, key, now);
    if s.value.None? {
      assert lines[1..] == [];
      assert ExecAll(removed, [], now) == removed;
    } else {
      DumpLine(removed, key, s.value.value, now);
      var written := PutSlot(removed, key, Slot(Some(Dumped(s.value.value)), None));
      TtlLineSets(written, key, s.deadline, now);
      PutTwice(db, key, EMPTY, Slot(Some(Dumped(s.value.value)), None));
      PutTwice(db, key, Slot(Some(Dumped(s.value.value)), None), DumpedSlot(s));
      assert lines[1..][0] == EntityToCmd(key, s.value.value).value && lines[1..][1..] == [TtlLine(key, s.deadline)];
      RunThree(db, lines, now);
    }
  }

  lemma RunThree(db: Db, lines: seq<Line>, now: int)
    requires |lines| == 3
    ensures ExecAll(db, lines, now) == Exec(Exec(Exec(db, lines[0], now).db, lines[1], now).db, lines[2], now).db
  {
    assert lines[1..][1..] == [lines[2]] && lines[1..][0] == lines[1];
    var two := Exec(Exec(db, lines[0], now).db, lines[1], now).db;
    assert ExecAll(two, [lines[2]], now) == ExecAll(Exec(two, lines[2], now).db, [], now);
  }

  /* ---- lines on one key ---- */

  predicate OnKey(line: Line, key: Bytes) {
    OneKey(line.op) && ArityFits(line) && line.args[0] == key
  }

  predicate AllOnKey(lines: seq<Line>, key: Bytes) {
    forall i :: 0 <= i < |lines| ==> OnKey(lines[i], key)
  }

  function RunAll(s: Slot, lines: seq<Line>, key: Bytes, now: int): Slot
    requires AllOnKey(lines, key)
    decreases |lines|
  {
    if |lines| == 0 then s
    else
      assert OnKey(lines[0], key);
      RunAll(RunOne(s, lines[0], now).slot, lines[1..], key, now)
  }

  lemma RunsOne(s: Slot, line: Line, key: Bytes, now: int)
    requires OnKey(line, key)
    ensures AllOnKey([line], key) && RunAll(s, [line], key, now) == RunOne(s, line, now).slot
  {
    var next := RunOne(s, line, now).slot;
    assert [line][1..] == [];
    assert RunAll(next, [], key, now) == next;
  }

  lemma {:induction false} ExecAllOnKey(db: Db, s: Slot, lines: seq<Line>, key: Bytes, now: int)
    requires AllOnKey(lines, key)
    ensures ExecAll(PutSlot(db, key, s), lines, now) == PutSlot(db, key, RunAll(s, lines, key, now))
    decreases |lines|
  {
    if |lines| > 0 {
      assert OnKey(lines[0], key);
      var next := RunOne(s, lines[0], now).slot;
      PutTwice(db, key, s, next);
      ExecAllOnKey(db, next, lines[1..], key, now);
    }
  }

  /** For a command on one key and an undo log on that key, it is the slot that counts. */
  lemma RestoresSlot(db: Db, line: Line, lines: seq<Line>, now: int)
    requires Alive(db, Keys(line), now) && OneKey(line.op) && ArityFits(line)
    requires UndoLog(db, line, now) == (db, Some(lines)) && AllOnKey(lines, line.args[0])
    ensures Restores(db, line, now)
       <==> RunAll(RunOne(At(db, line.args[0]), line, now).slot, lines, line.args[0], now) == At(db, line.args[0])
  {
    var key, s := line.args[0], At(db, line.args[0]);
    var after := RunOne(s, line, now).slot;
    var back := RunAll(after, lines, key, now);
    ExecAllOnKey(db, after, lines, key, now);
    PutBack(db, key, after);
    assert At(PutSlot(db, key, back), key) == back;
  }

  /* ---- rollbackFirstKey ---- */

  lemma UndoKeysOfOne(db: Db, key: Bytes, now: int)
    requires Alive(db, {key}, now)
    ensures UndoKeys(db, [key], now) == (db, UndoKey(key, At(db, key)))
  {
    AliveSlots(db, {key}, now, key);
    assert [key][1..] == [];
    var lines := UndoKey(key, At(db, key));
    assert lines.Some? ==> lines.value + [] == lines.value;
  }

  lemma FirstKeyRestores(db: Db, line: Line, now: int)
    requires StringOp(line.op) && !line.op.Get? && ArityFits(line)
    requires Sound(At(db, line.args[0])) && Alive(db, Keys(line), now)
    ensures Restores(db, line, now) <==> Dumpable(At(db, line.args[0]))
  {
    var key, s := line.args[0], At(db, line.args[0]);
    ArgDeclared(line, 0);
    UndoKeysOfOne(db, key, now);
    if !IsList(s) {
      var after := RunOne(s, line, now).slot;
      RunOneSound(s, line, now);
      UndoKeySets(PutSlot(db, key, after), key, s, now);
      PutTwice(db, key, after, DumpedSlot(s));
      DumpedSlotSame(s);
      PutBack(db, key, after);
      assert At(PutSlot(db, key, DumpedSlot(s)), key) == DumpedSlot(s);
    }
  }
}
