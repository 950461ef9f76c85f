/** The undo logs of the remaining commands, case by case, and the theorem for every command. */
module RollbackCases {
  import opened Strconv
  import opened Commands
  import opened Slots
  import opened Engine
  import opened Marshal
  import opened Undo
  import opened Rollback
  import opened Footprint

  /* ---- rollbackGivenKeys on several keys ---- */

  lemma {:induction false} UndoKeysLog(db: Db, keys: seq<Bytes>, now: int)
    requires Alive(db, SetOf(keys), now)
    ensures UndoKeys(db, keys, now).0 == db
    ensures UndoKeys(db, keys, now).1.Some? <==> forall i :: 0 <= i < |keys| ==> !IsList(At(db, keys[i]))
    decreases |keys|
  {
    if |keys| > 0 {
      AliveSlots(db, SetOf(keys), now, keys[0]);
      UndoKeysLog(db, keys[1..], now);
      assert forall i :: 0 < i < |keys| ==> keys[i] == keys[1..][i - 1];
      assert (forall i :: 0 <= i < |keys| ==> !IsList(At(db, keys[i])))
        <==> !IsList(At(db, keys[0])) && forall i :: 0 <= i < |keys| - 1 ==> !IsList(At(db, keys[1..][i]));
    }
  }

  /** The log of several keys puts back what they held, and touches nothing else. */
  lemma {:induction false} UndoKeysSet(x: Db, db: Db, keys: seq<Bytes>, now: int)
    requires Alive(db, SetOf(keys), now) && SoundDb(db) && SoundDb(x) && UndoKeys(db, keys, now).1.Some?
    ensures var back := ExecAll(x, UndoKeys(db, keys, now).1.value, now);
            forall k :: At(back, k) == if k in keys then DumpedSlot(At(db, k)) else At(x, k)
    decreases |keys|
  {
    if |keys| > 0 {
      var key := keys[0];
      AliveSlots(db, SetOf(keys), now, key);
      var first, rest := UndoKey(key, At(db, key)).value, UndoKeys(db, keys[1..], now).1.value;
      UndoKeySets(x, key, At(db, key), now);
      var y := PutSlot(x, key, DumpedSlot(At(db, key)));
      DumpedSlotSound(At(db, key));
      UndoKeysSet(y, db, keys[1..], now);
      ExecAllAppend(x, first, rest, now);
      assert keys == [key] + keys[1..];
    }
  }

  lemma DumpedSlotSound(s: Slot)
    requires Sound(s)
    ensures Sound(DumpedSlot(s))
  {
    if IsHash(s) {
      var m := s.value.value.fields;
      var f :| f in m;
      assert f in Dumped(s.value.value).fields;
    }
  }

  /** A command that changes these keys only is undone exactly when all of them can be dumped. */
  lemma KeysRestore(db: Db, line: Line, keys: seq<Bytes>, now: int)
    requires ArityFits(line) && Alive(db, Keys(line), now) && SoundDb(db) && SoundDb(Exec(db, line, now).db)
    requires UndoLog(db, line, now) == UndoKeys(db, keys, now) && Keys(line) == SetOf(keys)
    ensures Restores(db, line, now) <==> forall i :: 0 <= i < |keys| ==> Dumpable(At(db, keys[i]))
  {
    UndoKeysLog(db, keys, now);
    if UndoKeys(db, keys, now).1.Some? {
      var after := Exec(db, line, now).db;
      var back := ExecAll(after, UndoKeys(db, keys, now).1.value, now);
      UndoKeysSet(after, db, keys, now);
      ExecIsLocal(db, db, line, now);
      if forall i :: 0 <= i < |keys| ==> Dumpable(At(db, keys[i])) {
        forall k ensures At(back, k) == At(db, k) {
          if k in keys { DumpedSlotSame(At(db, k)); }
        }
        SameSlots(back, db);
      } else {
        var i :| 0 <= i < |keys| && !Dumpable(At(db, keys[i]));
        DumpedSlotSame(At(db, keys[i]));
        assert At(back, keys[i]) != At(db, keys[i]);
      }
    }
  }

  /** The log of a key also puts it back where a deadline was left without a value. */
  lemma OrphanUndone(x: Db, key: Bytes, s: Slot, now: int)
    requires At(x, key) == Slot(None, s.deadline) && s.value.Some? && s.deadline.Some? && Sound(s) && !IsList(s)
    requires !Expired(s.deadline, now)
    ensures UndoKey(key, s).Some? && ExecAll(x, UndoKey(key, s).value, now) == PutSlot(x, key, DumpedSlot(s))
  {
    var lines, value := UndoKey(key, s).value, s.value.value;
    NothingToDelete(x, key, now);
    LineOnOrphan(key, value, s.deadline, now);
    var first := Slot(Some(Dumped(value)), if value.Hash? then s.deadline else None);
    DeadlineAgain(PutSlot(x, key, first), key, s.deadline.value, now);
    PutTwice(x, key, first, DumpedSlot(s));
    RunThree(x, lines, now);
  }

  lemma NothingToDelete(x: Db, key: Bytes, now: int)
    requires key !in x.data
    ensures Exec(x, Line(Del, [key]), now).db == x
  {
    var none: seq<Bytes> := [];
    assert [key][1..] == none;
    assert Removes(x, none) == (x, 0);
  }

  lemma LineOnOrphan(key: Bytes, value: Value, deadline: Option<int>, now: int)
    requires !value.List? && (value.Hash? ==> value.fields != map[])
    ensures EntityToCmd(key, value).Some?
    ensures var line := EntityToCmd(key, value).value;
            && ArityFits(line) && OneKey(line.op) && line.args[0] == key
            && RunOne(Slot(None, deadline), line, now).slot == Slot(Some(Dumped(value)), if value.Hash? then deadline else None)
  {
    DumpLineRuns(key, value, now);
    if value.Str? { SetRuns(Slot(None, deadline), key, value.bytes, now); }
  }

  lemma DeadlineAgain(db: Db, key: Bytes, deadline: int, now: int)
    requires At(db, key).value.Some?
    requires !Expired(At(db, key).deadline, now)
    ensures Exec(db, ExpireLine(key, deadline), now).db == PutSlot(db, key, At(db, key).(deadline := Some(Nanos(deadline))))
  {
    ParseFormatInt(Nanos(deadline));
  }

  /* ---- soundness is kept ---- */

  lemma {:induction false} RemovesSound(db: Db, keys: seq<Bytes>)
    requires SoundDb(db)
    ensures SoundDb(Removes(db, keys).0)
    decreases |keys|
  {
    if |keys| > 0 { RemovesSound(if keys[0] in db.data then Remove(db, keys[0]) else db, keys[1..]); }
  }

  lemma {:induction false} CountSeenSound(db: Db, keys: seq<Bytes>, now: int)
    requires SoundDb(db)
    ensures SoundDb(CountSeen(db, keys, now).0)
    decreases |keys|
  {
    if |keys| > 0 { CountSeenSound(Look(db, keys[0], now), keys[1..], now); }
  }

  lemma {:induction false} FindAnySound(db: Db, keys: seq<Bytes>, now: int)
    requires SoundDb(db)
    ensures SoundDb(FindAny(db, keys, now).0)
    decreases |keys|
  {
    if |keys| > 0 { FindAnySound(Look(db, keys[0], now), keys[1..], now); }
  }

  lemma {:induction false} PutValuesSound(db: Db, args: seq<Bytes>, i: nat)
    requires SoundDb(db)
    ensures SoundDb(PutValues(db, args, i))
    decreases |args| - i
  {
    if i + 1 < |args| {
      assert Sound(At(db, args[i]));
      PutValuesSound(PutSlot(db, args[i], At(db, args[i]).(value := Some(Str(args[i + 1])))), args, i + 2);
    }
  }

  predicate RenamesToItself(db: Db, line: Line) {
    line.op.Rename? && ArityFits(line) && line.args[0] == line.args[1] && At(db, line.args[0]).deadline.Some?
  }

  /** RENAME of a key with a deadline to itself, when the deadline has not passed. */
  predicate Orphans(db: Db, line: Line, now: int) {
    RenamesToItself(db, line) && !Expired(At(db, line.args[0]).deadline, now)
  }

  /** What such a RENAME leaves: the value is gone and the deadline is not. An expired key is merely removed. */
  lemma RenameToItself(db: Db, line: Line, now: int)
    requires RenamesToItself(db, line) && At(db, line.args[0]).value.Some?
    ensures var key, r := line.args[0], Exec(db, line, now);
            if Orphans(db, line, now) then r.db == PutSlot(db, key, Slot(None, At(db, key).deadline)) && r.answer == Ok
            else r.db == Remove(db, key) && r.answer == Failed(NoSuchKey)
  {
    var key, r := line.args[0], Exec(db, line, now);
    SameSlots(r.db, if Orphans(db, line, now) then PutSlot(db, key, Slot(None, At(db, key).deadline)) else Remove(db, key));
  }

  lemma RenameSound(db: Db, line: Line, now: int)
    requires SoundDb(db) && line.op.Rename? && ArityFits(line)
    ensures SoundDb(RunRename(db, line, now).db) <==> !Orphans(db, line, now)
  {
    assert Sound(At(db, line.args[0])) && Sound(At(db, line.args[1]));
    if RenamesToItself(db, line) {
      RenameToItself(db, line, now);
      assert Orphans(db, line, now) ==> !Sound(At(RunRename(db, line, now).db, line.args[0]));
    }
  }

  lemma RenameNXSound(db: Db, line: Line, now: int)
    requires SoundDb(db) && line.op.RenameNX? && ArityFits(line)
    ensures SoundDb(RunRenameNX(db, line, now).db)
  {
    var src, dest := line.args[0], line.args[1];
    var both := Look(Look(db, dest, now), src, now);
    assert Sound(At(both, src)) && Sound(At(both, dest));
    RemovesSound(both, [src, dest]);
    assert Sound(At(Removes(both, [src, dest]).0, dest));
  }

  lemma RPopLPushSound(db: Db, line: Line, now: int)
    requires SoundDb(db) && line.op.RPopLPush? && ArityFits(line)
    ensures SoundDb(RunRPopLPush(db, line, now).db)
  {
    var src, dest := line.args[0], line.args[1];
    var both := Look(Look(db, src, now), dest, now);
    assert Sound(At(both, src)) && Sound(At(both, dest));
    assert SoundDb(both) && SoundDb(Look(db, src, now));
    var s, d, r := At(Look(db, src, now), src), At(both, dest), RunRPopLPush(db, line, now);
    if r.answer.Bulk? {
      var l := Items(s);
      forall k ensures Sound(At(r.db, k)) {
        assert At(r.db, k) == if k == src && src == dest then s.(value := Some(List([l[|l| - 1]] + l[..|l| - 1])))
                              else if k == src then WithItems(s, l[..|l| - 1])
                              else if k == dest then d.(value := Some(List([l[|l| - 1]] + Items(d))))
                              else At(both, k);
      }
    }
  }

  /** A command keeps the database sound exactly when it does not rename a living key with a deadline to itself. */
  lemma ExecSound(db: Db, line: Line, now: int)
    requires SoundDb(db)
    ensures SoundDb(Exec(db, line, now).db) <==> !Orphans(db, line, now)
  {
    if ArityFits(line) {
      var args := line.args;
      if OneKey(line.op) {
        assert Sound(At(db, args[0]));
        RunOneSound(At(db, args[0]), line, now);
      } else {
        match line.op
        case MSet => PutValuesSound(db, args, 0);
        case MSetNX => FindAnySound(db, EvenArgs(args), now); PutValuesSound(FindAny(db, EvenArgs(args), now).0, args, 0);
        case Del => RemovesSound(db, args);
        case Exists => CountSeenSound(db, args, now);
        case Rename => RenameSound(db, line, now);
        case RenameNX => RenameNXSound(db, line, now);
        case RPopLPush => RPopLPushSound(db, line, now);
      }
    }
  }

  /* ---- hashes ---- */

  function HashSlot(m: map<Bytes, Field>, deadline: Option<int>): Slot {
    if m == map[] then EMPTY else Slot(Some(Hash(m)), deadline)
  }

  /** What rollbackHashFields makes of the fields `cur`, when it was computed from m. */
  function Restored(cur: map<Bytes, Field>, m: map<Bytes, Field>, fields: seq<Bytes>): map<Bytes, Field>
    decreases |fields|
  {
    if |fields| == 0 then cur
    else
      var f := fields[0];
      Restored(if f in m then cur[f := Text(FieldBytes(m[f]))] else cur - {f}, m, fields[1..])
  }

  lemma {:induction false} RestoredFields(cur: map<Bytes, Field>, m: map<Bytes, Field>, fields: seq<Bytes>)
    ensures var r := Restored(cur, m, fields);
            forall f ::
              && (f in fields ==> (f in r <==> f in m) && (f in m ==> r[f] == Text(FieldBytes(m[f]))))
              && (f !in fields ==> (f in r <==> f in cur) && (f in cur ==> r[f] == cur[f]))
    decreases |fields|
  {
    if |fields| > 0 {
      var f := fields[0];
      RestoredFields(if f in m then cur[f := Text(FieldBytes(m[f]))] else cur - {f}, m, fields[1..]);
      assert fields == [f] + fields[1..];
    }
  }

  lemma HSetRuns(s: Slot, key: Bytes, f: Bytes, v: Bytes, now: int)
    requires HashOrNone(s) && !Expired(s.deadline, now)
    ensures RunOne(s, Line(HSet, [key, f, v]), now).slot == s.(value := Some(Hash(Fields(s)[f := Text(v)])))
  {
  }

  lemma HDelRuns(s: Slot, key: Bytes, f: Bytes, now: int)
    requires IsHash(s) && !Expired(s.deadline, now)
    ensures RunOne(s, Line(HDel, [key, f]), now).slot == HashSlot(Fields(s) - {f}, s.deadline)
  {
    assert [key, f][1..] == [f];
    assert SetOf([f]) == {f};
  }

  lemma HDelOnNothing(key: Bytes, f: Bytes, now: int)
    ensures RunOne(EMPTY, Line(HDel, [key, f]), now).slot == EMPTY
  {
  }

  /** The lines of rollbackHashFields, run where a field of m is left or nothing at all. */
  lemma {:induction false} UndoFieldsRun(cur: map<Bytes, Field>, deadline: Option<int>, m: map<Bytes, Field>, key: Bytes,
                                         fields: seq<Bytes>, now: int)
    requires cur.Keys * m.Keys != {} || cur == map[]
    requires !Expired(deadline, now)
    ensures var lines := seq(|fields|, i requires 0 <= i < |fields| => UndoField(key, m, fields[i]));
            && AllOnKey(lines, key)
            && RunAll(HashSlot(cur, deadline), lines, key, now)
            == HashSlot(Restored(cur, m, fields), if cur == map[] then None else deadline)
    decreases |fields|
  {
    if |fields| > 0 {
      var f, rest := fields[0], fields[1..];
      var lines := seq(|fields|, i requires 0 <= i < |fields| => UndoField(key, m, fields[i]));
      var later := seq(|rest|, i requires 0 <= i < |rest| => UndoField(key, m, rest[i]));
      assert lines[1..] == later;
      var next := if f in m then cur[f := Text(FieldBytes(m[f]))] else cur - {f};
      var s := HashSlot(cur, deadline);
      if f in m {
        HSetRuns(s, key, f, FieldBytes(m[f]), now);
        assert f in next.Keys * m.Keys;
      } else if cur != map[] {
        HDelRuns(s, key, f, now);
        assert next.Keys * m.Keys == cur.Keys * m.Keys;
      } else {
        HDelOnNothing(key, f, now);
      }
      var left := if cur == map[] then None else deadline;
      assert OnKey(lines[0], key);
      assert RunOne(s, lines[0], now).slot == HashSlot(next, left);
      UndoFieldsRun(next, left, m, key, rest, now);
    }
  }

  /** What the writing hash commands do to the fields of a hash. */
  ghost predicate HashStep(m: map<Bytes, Field>, now: map<Bytes, Field>, touched: seq<Bytes>, deletes: bool) {
    && (forall f :: f !in touched ==> (f in now <==> f in m) && (f in m ==> now[f] == m[f]))
    && (if deletes then forall f :: f in touched ==> f !in now else m.Keys <= now.Keys)
  }

  predicate HashWrite(op: Op) {
    op in {HSet, HSetNX, HIncrBy, HDel, HMSet}
  }

  predicate Succeeded(answer: Answer) {
    !answer.Failed? && !answer.Panicked?
  }

  lemma {:induction false} PutPairsStep(m: map<Bytes, Field>, args: seq<Bytes>, i: nat)
    requires i % 2 == 1
    ensures var r := PutPairs(m, args, i);
            && m.Keys <= r.Keys
            && forall f :: (forall j :: i <= j < |args| - 1 && j % 2 == 1 ==> args[j] != f) ==>
                 (f in r <==> f in m) && (f in m ==> r[f] == m[f])
    decreases |args| - i
  {
    if i + 1 < |args| { PutPairsStep(m[args[i] := Raw(args[i + 1])], args, i + 2); }
  }

  lemma HMSetStep(s: Slot, line: Line, now: int)
    requires line.op.HMSet? && ArityFits(line) && IsHash(s) && Seen(s, now) == s && |line.args| % 2 == 1
    ensures var after := RunHash(s, line, now).slot;
            && IsHash(after) && after.deadline == s.deadline
            && HashStep(Fields(s), Fields(after), Touched(line), false)
  {
    var args, touched := line.args, Touched(line);
    PutPairsStep(Fields(s), args, 1);
    forall f, j | f !in touched && 1 <= j < |args| - 1 && j % 2 == 1 ensures args[j] != f {
      assert touched[(j - 1) / 2] == args[1..][2 * ((j - 1) / 2)] == args[j];
    }
  }

  lemma HDelStep(s: Slot, line: Line, now: int)
    requires line.op.HDel? && ArityFits(line) && IsHash(s) && Seen(s, now) == s
    ensures RunHash(s, line, now).slot == HashSlot(Fields(s) - SetOf(Touched(line)), s.deadline)
  {
  }

  lemma HashForward(s: Slot, line: Line, now: int) returns (m1: map<Bytes, Field>)
    requires HashWrite(line.op) && ArityFits(line) && IsHash(s) && Sound(s) && !Expired(s.deadline, now)
    requires Succeeded(RunHash(s, line, now).answer)
    ensures RunHash(s, line, now).slot == HashSlot(m1, s.deadline)
    ensures HashStep(Fields(s), m1, Touched(line), line.op.HDel?)
  {
    if line.op.HDel? {
      HDelStep(s, line, now);
      m1 := Fields(s) - SetOf(Touched(line));
    } else {
      if line.op.HMSet? { HMSetStep(s, line, now); }
      var after := RunHash(s, line, now).slot;
      m1 := Fields(after);
      var f :| f in Fields(s);
      assert f in m1;
    }
  }

  /** The hash is back exactly under the condition. */
  lemma FieldsBack(s: Slot, line: Line, m1: map<Bytes, Field>)
    requires HashWrite(line.op) && ArityFits(line) && IsHash(s) && Sound(s)
    requires HashStep(Fields(s), m1, Touched(line), line.op.HDel?)
    ensures m1.Keys * Fields(s).Keys != {} || m1 == map[]
    ensures HashSlot(Restored(m1, Fields(s), Touched(line)), if m1 == map[] then None else s.deadline) == s
       <==> FieldsUndoable(s, line)
  {
    var m, touched := Fields(s), Touched(line);
    var r := Restored(m1, m, touched);
    RestoredFields(m1, m, touched);
    assert r.Keys == m.Keys;
    assert forall f :: f in SetOf(touched) <==> f in touched;
    if m1 != map[] {
      var f :| f in m1;
      if line.op.HDel? { assert f in m1.Keys * m.Keys; } else { var g :| g in m; assert g in m1.Keys * m.Keys; }
    } else {
      assert line.op.HDel?;
      assert forall f :: f in m ==> f in touched;
    }
    if forall f :: f in touched && f in m ==> m[f] == Text([]) {
      assert r == m;
    } else {
      var f :| f in touched && f in m && m[f] != Text([]);
      assert r[f] != m[f];
    }
    if line.op.HDel? && m.Keys <= SetOf(touched) { assert m1.Keys == {}; assert m1 == map[]; }
  }

  lemma HashRestores(db: Db, line: Line, now: int)
    requires HashWrite(line.op) && ArityFits(line) && SoundDb(db) && Alive(db, Keys(line), now)
    requires Succeeded(Exec(db, line, now).answer)
    ensures Restores(db, line, now) <==> FieldsUndoable(At(db, line.args[0]), line)
  {
    var key, s, touched := line.args[0], At(db, line.args[0]), Touched(line);
    AliveArgs(db, line, now, 0);
    assert Sound(s);
    if s.value.None? {
      var after := RunOne(s, line, now).slot;
      RunOneSound(s, line, now);
      DelOne(PutSlot(db, key, after), key, now);
      PutTwice(db, key, after, EMPTY);
      PutBack(db, key, after);
      assert [Line(Del, [key])][1..] == [];
      assert ExecAll(db, [], now) == db;
    } else {
      var m1 := HashForward(s, line, now);
      FieldsBack(s, line, m1);
      UndoFieldsRun(m1, s.deadline, Fields(s), key, touched, now);
      RestoresSlot(db, line, UndoFields(key, s, touched), now);
    }
  }
}
