/** EXEC: the queue runs, or everything that it did is taken back. */
module Multi {
  import opened Strconv
  import opened Commands
  import opened Slots
  import opened Engine
  import opened Undo
  import opened Rollback
  import opened RollbackCases
  import opened RollbackLists
  import opened Footprint

  datatype Ending = Through | Stopped | Crashed

  /** What running a queue leaves: the replies and the undo logs of the commands that succeeded. */
  datatype Stage = Stage(db: Db, log: seq<Line>, answers: seq<Answer>, undos: seq<seq<Line>>, ending: Ending)

  /** The first loop of ExecMulti. A panic goes up to the connection and leaves the database as it is. */
  function Forward(db: Db, lines: seq<Line>, now: int): Stage
    requires forall i :: 0 <= i < |lines| ==> ArityFits(lines[i])
    decreases |lines|
  {
    if |lines| == 0 then Stage(db, [], [], [], Through)
    else
      var undo := UndoLog(db, lines[0], now);
      if undo.1.None? then Stage(undo.0, [], [], [], Crashed)
      else
        var r := Exec(undo.0, lines[0], now);
        if r.answer.Panicked? then Stage(r.db, r.log, [], [], Crashed)
        else if r.answer.Failed? then Stage(r.db, r.log, [], [], Stopped)
        else
          var rest := Forward(r.db, lines[1..], now);
          Stage(rest.db, r.log + rest.log, [r.answer] + rest.answers, [undo.1.value] + rest.undos, rest.ending)
  }

  /** The second loop: the undo logs from the last to the first. */
  function UndoAll(db: Db, undos: seq<seq<Line>>, now: int): Db
    decreases |undos|
  {
    if |undos| == 0 then db
    else UndoAll(ExecAll(db, undos[|undos| - 1], now), undos[..|undos| - 1], now)
  }

  /** What the second loop logs. */
  function UndoAllLog(db: Db, undos: seq<seq<Line>>, now: int): seq<Line>
    decreases |undos|
  {
    if |undos| == 0 then []
    else
      var last := undos[|undos| - 1];
      LogOf(db, last, now) + UndoAllLog(ExecAll(db, last, now), undos[..|undos| - 1], now)
  }

  datatype Verdict = Committed(answers: seq<Answer>) | Aborted | Broken

  datatype MultiResult = MultiResult(db: Db, log: seq<Line>, verdict: Verdict)

  /** ExecMulti after the watch check. */
  function RunMulti(db: Db, lines: seq<Line>, now: int): MultiResult
    requires forall i :: 0 <= i < |lines| ==> ArityFits(lines[i])
  {
    var stage := Forward(db, lines, now);
    match stage.ending
    case Through => MultiResult(stage.db, stage.log, Committed(stage.answers))
    case Stopped =>
      MultiResult(UndoAll(stage.db, stage.undos, now), stage.log + UndoAllLog(stage.db, stage.undos, now), Aborted)
    case Crashed => MultiResult(stage.db, stage.log, Broken)
  }

  /* ---- when an abort restores everything ---- */

  /** GETEX with PERSIST and then a mistake: the deadline is gone all the same. */
  predicate PersistLeaks(db: Db, line: Line) {
    && line.op.GetEX? && ArityFits(line)
    && var s := At(db, line.args[0]);
       s.value.Some? && s.value.value.Str? && s.deadline.Some? &&
       ParseGetEx(line.args, 1, 0, false).BadGetEx? && ParseGetEx(line.args, 1, 0, false).persisted
  }

  /** The keys whose whole value the undo log wants to write down. */
  function DumpedKeys(line: Line): seq<Bytes>
    requires ArityFits(line)
  {
    if line.op in {Get, HGet, Exists, RPopLPush} then []
    else if StringOp(line.op) then [line.args[0]]
    else if OneKey(line.op) then []
    else if line.op in {MSet, MSetNX} then EvenArgs(line.args)
    else if line.op.Del? then line.args
    else [line.args[0], line.args[1]]
  }

  predicate ListAmong(db: Db, keys: seq<Bytes>) {
    exists i :: 0 <= i < |keys| && IsList(At(db, keys[i]))
  }

  /** GetUndoLogs panics exactly when a list would have to be written down. */
  lemma UndoLogExists(db: Db, line: Line, now: int)
    requires ArityFits(line) && Alive(db, Keys(line), now)
    ensures UndoLog(db, line, now).1.Some? <==> !ListAmong(db, DumpedKeys(line))
    ensures UndoLog(db, line, now).1.Some? ==> UndoLog(db, line, now).0 == db
  {
    AliveArgs(db, line, now, 0);
    if OneKey(line.op) && !StringOp(line.op) {
      UndoOneExists(db, line, now);
    } else if line.op !in {Get, HGet, Exists, RPopLPush} {
      DumpedDeclared(line);
      UndoOfKeys(db, line, now);
      UndoKeysLog(db, DumpedKeys(line), now);
    } else {
      UndoOfFew(db, line, now);
    }
  }

  lemma UndoOfKeys(db: Db, line: Line, now: int)
    requires ArityFits(line) && (!OneKey(line.op) || StringOp(line.op)) && line.op !in {Get, HGet, Exists, RPopLPush}
    ensures UndoLog(db, line, now) == UndoKeys(db, DumpedKeys(line), now)
  {
  }

  lemma UndoOfFew(db: Db, line: Line, now: int)
    requires ArityFits(line) && line.op in {Get, HGet, Exists, RPopLPush} && Look(db, line.args[0], now) == db
    ensures UndoLog(db, line, now).1.Some? && UndoLog(db, line, now).0 == db && DumpedKeys(line) == []
  {
  }

  lemma UndoOneExists(db: Db, line: Line, now: int)
    requires OneKey(line.op) && !StringOp(line.op) && ArityFits(line) && Look(db, line.args[0], now) == db
    ensures UndoLog(db, line, now).1.Some? && UndoLog(db, line, now).0 == db && DumpedKeys(line) == []
  {
  }

  lemma DumpedDeclared(line: Line)
    requires ArityFits(line)
    ensures SetOf(DumpedKeys(line)) <= Keys(line)
  {
    ArgDeclared(line, 0);
    if line.op in {Rename, RenameNX} { ArgDeclared(line, 1); }
  }

  lemma OneFailsClean(db: Db, line: Line, now: int)
    requires OneKey(line.op) && !line.op.GetEX? && ArityFits(line) && Alive(db, Keys(line), now) && Exec(db, line, now).answer.Failed?
    ensures Exec(db, line, now).db == db
  {
    AliveArgs(db, line, now, 0);
    PutBack(db, line.args[0], EMPTY);
    OneFails(At(db, line.args[0]), line, now);
  }

  lemma OneFails(s: Slot, line: Line, now: int)
    requires OneKey(line.op) && !line.op.GetEX? && ArityFits(line) && Seen(s, now) == s
    requires RunOne(s, line, now).answer.Failed?
    ensures RunOne(s, line, now).slot == s
  {
  }

  lemma ManyFailsClean(db: Db, line: Line, now: int)
    requires !OneKey(line.op) && ArityFits(line) && Alive(db, Keys(line), now) && Exec(db, line, now).answer.Failed?
    ensures Exec(db, line, now).db == db
  {
    AliveArgs(db, line, now, 0);
    if line.op in {Rename, RenameNX, RPopLPush} { AliveArgs(db, line, now, 1); }
  }

  /** A failing command changes nothing, but for that GETEX. */
  lemma FailsClean(db: Db, line: Line, now: int)
    requires ArityFits(line) && Alive(db, Keys(line), now) && Exec(db, line, now).answer.Failed?
    ensures Exec(db, line, now).db == db <==> !PersistLeaks(db, line)
  {
    if line.op.GetEX? {
      var key, s := line.args[0], At(db, line.args[0]);
      AliveArgs(db, line, now, 0);
      PutBack(db, key, EMPTY);
      assert At(PutSlot(db, key, s.(deadline := None)), key) == s.(deadline := None);
    } else if OneKey(line.op) {
      OneFailsClean(db, line, now);
    } else {
      ManyFailsClean(db, line, now);
    }
  }

  /** HINCRBY of a field that HSET stored: the executor expects bytes. */
  predicate Trips(db: Db, line: Line) {
    && line.op.HIncrBy? && ArityFits(line) && ParseInt64(line.args[2]).Some?
    && var s := At(db, line.args[0]);
       IsHash(s) && line.args[1] in Fields(s) && Fields(s)[line.args[1]].Text?
  }

  lemma PanicsIff(db: Db, line: Line, now: int)
    requires ArityFits(line) && SoundDb(db) && Alive(db, Keys(line), now)
    ensures Exec(db, line, now).answer.Panicked? <==> Trips(db, line)
  {
    AliveArgs(db, line, now, 0);
    assert Sound(At(db, line.args[0]));
    if OneKey(line.op) {
      OnePanicsIff(At(db, line.args[0]), line, now);
    } else if line.op.RPopLPush? {
      AliveArgs(db, line, now, 1);
    }
  }

  lemma OnePanicsIff(s: Slot, line: Line, now: int)
    requires OneKey(line.op) && ArityFits(line) && Sound(s) && Seen(s, now) == s
    ensures RunOne(s, line, now).answer.Panicked?
       <==> line.op.HIncrBy? && ParseInt64(line.args[2]).Some? && IsHash(s)
            && line.args[1] in Fields(s) && Fields(s)[line.args[1]].Text?
  {
  }

  /** The queue keeps to what undo logs can take back, command by command, until it ends or a command fails. */
  ghost predicate Reversible(db: Db, lines: seq<Line>, now: int)
    requires forall i :: 0 <= i < |lines| ==> ArityFits(lines[i])
    decreases |lines|
  {
    |lines| == 0 ||
    var line := lines[0];
    var r := Exec(db, line, now);
    && Alive(db, Keys(line), now) && !Orphans(db, line, now) && !ListAmong(db, DumpedKeys(line)) && !Trips(db, line)
    && if r.answer.Failed? then !PersistLeaks(db, line)
       else Undoable(db, line, now) && Reversible(r.db, lines[1..], now)
  }

  /** An EXEC that aborts leaves every value and every deadline as before. */
  lemma {:induction false} AbortRestores(db: Db, lines: seq<Line>, now: int)
    requires forall i :: 0 <= i < |lines| ==> ArityFits(lines[i])
    requires SoundDb(db) && Reversible(db, lines, now)
    ensures var stage := Forward(db, lines, now);
            !stage.ending.Crashed? && (stage.ending.Stopped? ==> UndoAll(stage.db, stage.undos, now) == db)
    decreases |lines|
  {
    if |lines| > 0 {
      var line := lines[0];
      var r := Exec(db, line, now);
      UndoLogExists(db, line, now);
      PanicsIff(db, line, now);
      if r.answer.Failed? {
        FailsClean(db, line, now);
      } else {
        ExecSound(db, line, now);
        UndoRestores(db, line, now);
        AbortRestores(r.db, lines[1..], now);
        var stage, rest := Forward(db, lines, now), Forward(r.db, lines[1..], now);
        UndoAllFirst(rest.db, UndoLog(db, line, now).1.value, rest.undos, now);
      }
    }
  }

  /** The log of the first command runs last. */
  lemma {:induction false} UndoAllFirst(db: Db, first: seq<Line>, undos: seq<seq<Line>>, now: int)
    ensures UndoAll(db, [first] + undos, now) == ExecAll(UndoAll(db, undos, now), first, now)
    decreases |undos|
  {
    var all := [first] + undos;
    if |undos| == 0 {
      assert all == [first] && all[..0] == [];
      assert UndoAll(ExecAll(db, first, now), [], now) == ExecAll(db, first, now);
    } else {
      assert all[|all| - 1] == undos[|undos| - 1] && all[..|all| - 1] == [first] + undos[..|undos| - 1];
      UndoAllFirst(ExecAll(db, undos[|undos| - 1], now), first, undos[..|undos| - 1], now);
    }
  }

  /**
   * Not every aborted queue has to be reversible: LPOP of the last element of a list with a deadline cannot be undone
   * alone, but when an EXPIRE of the same queue had set the deadline, its undo log takes away what LPOP's left wrong.
   */
  lemma BadUndosCancel(db: Db, expire: Line, pop: Line, bad: Line, now: int)
    requires expire.op.Expire? && pop.op.LPop? && bad.op.Rename? && ArityFits(expire) && ArityFits(pop) && ArityFits(bad)
    requires var key := pop.args[0]; expire.args[0] == key && bad.args == [key, key]
    requires SoundDb(db) && IsList(At(db, pop.args[0]))
    requires |Items(At(db, pop.args[0]))| == 1 && At(db, pop.args[0]).deadline.None?
    requires ParseInt64(expire.args[1]).Some? && now <= NewDeadline(expire, now)
    ensures var queue := [expire, pop, bad];
            var stage := Forward(db, queue, now);
            !Reversible(db, queue, now) && stage.ending.Stopped? && UndoAll(stage.db, stage.undos, now) == db
  {
    var key, x := pop.args[0], Items(At(db, pop.args[0]))[0];
    var one := PutSlot(db, key, At(db, key).(deadline := Some(NewDeadline(expire, now))));
    ExpiringOne(db, expire, now);
    PoppingLast(one, pop, now);
    LastOfLimited(one, pop, now);
    IrreversiblePop(db, one, expire, pop, bad, now);
    var two := PutSlot(one, key, EMPTY);
    ForwardTwo(db, one, two, expire, pop, bad, now);
    PushedBack(db, two, key, x, now);
  }

  lemma LastOfLimited(db: Db, pop: Line, now: int)
    requires pop.op.LPop? && ArityFits(pop) && IsList(At(db, pop.args[0])) && |Items(At(db, pop.args[0]))| == 1
    requires At(db, pop.args[0]).deadline.Some?
    ensures !Undoable(db, pop, now)
  {
  }

  lemma ForwardTwo(db: Db, one: Db, two: Db, expire: Line, pop: Line, bad: Line, now: int)
    requires ArityFits(expire) && ArityFits(pop) && bad.op.Rename? && ArityFits(bad) && bad.args[0] == bad.args[1]
    requires UndoLog(db, expire, now).0 == db && UndoLog(db, expire, now).1.Some? && Exec(db, expire, now).db == one
    requires UndoLog(one, pop, now).0 == one && UndoLog(one, pop, now).1.Some? && Exec(one, pop, now).db == two
    requires Succeeded(Exec(db, expire, now).answer) && Succeeded(Exec(one, pop, now).answer)
    requires At(two, bad.args[0]) == EMPTY
    ensures var stage := Forward(db, [expire, pop, bad], now);
            && stage.db == two && stage.ending == Stopped
            && stage.undos == [UndoLog(db, expire, now).1.value, UndoLog(one, pop, now).1.value]
  {
    RenamingNothing(two, bad, now);
    ForwardOne(db, expire, [pop, bad], now);
    ForwardOne(one, pop, [bad], now);
    assert [expire] + [pop, bad] == [expire, pop, bad] && [pop] + [bad] == [pop, bad];
  }

  lemma ForwardOne(db: Db, line: Line, rest: seq<Line>, now: int)
    requires ArityFits(line) && forall i :: 0 <= i < |rest| ==> ArityFits(rest[i])
    requires UndoLog(db, line, now).0 == db && UndoLog(db, line, now).1.Some? && Succeeded(Exec(db, line, now).answer)
    ensures var r := Exec(db, line, now);
            var stage, next := Forward(db, [line] + rest, now), Forward(r.db, rest, now);
            && stage.db == next.db && stage.ending == next.ending
            && stage.undos == [UndoLog(db, line, now).1.value] + next.undos
  {
    assert ([line] + rest)[1..] == rest;
  }

  lemma IrreversiblePop(db: Db, one: Db, expire: Line, pop: Line, bad: Line, now: int)
    requires ArityFits(expire) && ArityFits(pop) && ArityFits(bad)
    requires Exec(db, expire, now).db == one && Succeeded(Exec(db, expire, now).answer)
    requires !Undoable(one, pop, now) && Succeeded(Exec(one, pop, now).answer)
    ensures !Reversible(db, [expire, pop, bad], now)
  {
    assert [expire, pop, bad][1..] == [pop, bad];
  }

  lemma ExpiringOne(db: Db, expire: Line, now: int)
    requires expire.op.Expire? && ArityFits(expire) && ParseInt64(expire.args[1]).Some?
    requires At(db, expire.args[0]).value.Some? && At(db, expire.args[0]).deadline.None?
    ensures var key, r := expire.args[0], Exec(db, expire, now);
            && r.db == PutSlot(db, key, At(db, key).(deadline := Some(NewDeadline(expire, now))))
            && Succeeded(r.answer) && UndoLog(db, expire, now) == (db, Some([Line(Persist, [key])]))
  {
  }

  lemma PoppingLast(db: Db, pop: Line, now: int)
    requires pop.op.LPop? && ArityFits(pop) && IsList(At(db, pop.args[0])) && |Items(At(db, pop.args[0]))| == 1
    requires !Expired(At(db, pop.args[0]).deadline, now)
    ensures var key, x := pop.args[0], Items(At(db, pop.args[0]))[0];
            && Exec(db, pop, now).db == PutSlot(db, key, EMPTY) && Succeeded(Exec(db, pop, now).answer)
            && UndoLog(db, pop, now) == (db, Some([PushLine(key, x, true)]))
  {
    var key, l := pop.args[0], Items(At(db, pop.args[0]));
    PutBack(db, key, EMPTY);
    assert l[1..] == [];
  }

  lemma RenamingNothing(db: Db, bad: Line, now: int)
    requires bad.op.Rename? && ArityFits(bad) && bad.args[0] == bad.args[1] && At(db, bad.args[0]) == EMPTY
    ensures Exec(db, bad, now) == Result(db, Failed(NoSuchKey), [])
    ensures UndoLog(db, bad, now).0 == db && UndoLog(db, bad, now).1.Some?
  {
    var key := bad.args[0];
    PutBack(db, key, EMPTY);
    var none: seq<Bytes> := [];
    assert [key, key][1..] == [key] && [key][1..] == none;
    assert UndoKeys(db, none, now) == (db, Some([]));
    assert UndoKeys(db, [key], now).0 == db && UndoKeys(db, [key], now).1.Some?;
  }

  lemma PushedSlot(key: Bytes, x: Bytes, now: int)
    ensures RunOne(EMPTY, PushLine(key, x, true), now).slot == Slot(Some(List([x])), None)
    ensures RunOne(Slot(Some(List([x])), None), Line(Persist, [key]), now).slot == Slot(Some(List([x])), None)
  {
    PushRuns([], None, key, x, true, now);
    var none: seq<Bytes> := [];
    assert ListSlot(none, None) == EMPTY && [x] + none == [x];
  }

  lemma PushedBack(db: Db, gone: Db, key: Bytes, x: Bytes, now: int)
    requires IsList(At(db, key)) && Items(At(db, key)) == [x] && At(db, key).deadline.None? && At(gone, key) == EMPTY
    requires forall k :: k != key ==> At(gone, k) == At(db, k)
    ensures UndoAll(gone, [[Line(Persist, [key])], [PushLine(key, x, true)]], now) == db
  {
    var push, persist := PushLine(key, x, true), Line(Persist, [key]);
    PushedSlot(key, x, now);
    SameSlots(Exec(gone, push, now).db, db);
    PutBack(db, key, EMPTY);
    ExecAllOne(gone, push, now);
    ExecAllOne(db, persist, now);
    assert [[push]][..0] == [];
    assert UndoAll(db, [], now) == db;
    UndoAllFirst(gone, [persist], [[push]], now);
    assert [[persist]] + [[push]] == [[persist], [push]];
  }

  /** A list that an undo log has to write down breaks EXEC: what the queue has done so far stays. */
  lemma CrashKeepsEffects(db: Db, line: Line, list: Bytes, rest: seq<Line>, now: int)
    requires ArityFits(line) && (forall i :: 0 <= i < |rest| ==> ArityFits(rest[i])) && Alive(db, Keys(line), now)
    requires !ListAmong(db, DumpedKeys(line)) && Succeeded(Exec(db, line, now).answer)
    requires IsList(At(Exec(db, line, now).db, list)) && !Expired(At(Exec(db, line, now).db, list).deadline, now)
    ensures var result := RunMulti(db, [line, Line(Del, [list])] + rest, now);
            result.verdict == Broken && result.db == Exec(db, line, now).db
  {
    var del := Line(Del, [list]);
    UndoLogExists(db, line, now);
    assert [line, del] + rest == [line] + ([del] + rest);
    CrashAtOnce(Exec(db, line, now).db, list, rest, now);
    ForwardOne(db, line, [del] + rest, now);
    BrokenMulti(db, [line, del] + rest, now);
  }

  lemma BrokenMulti(db: Db, lines: seq<Line>, now: int)
    requires (forall i :: 0 <= i < |lines| ==> ArityFits(lines[i])) && Forward(db, lines, now).ending.Crashed?
    ensures RunMulti(db, lines, now).verdict == Broken && RunMulti(db, lines, now).db == Forward(db, lines, now).db
  {
  }

  lemma CrashAtOnce(db: Db, list: Bytes, rest: seq<Line>, now: int)
    requires IsList(At(db, list)) && !Expired(At(db, list).deadline, now) && forall i :: 0 <= i < |rest| ==> ArityFits(rest[i])
    ensures Forward(db, [Line(Del, [list])] + rest, now) == Stage(db, [], [], [], Crashed)
  {
    NoLogForList(db, list, now);
  }

  lemma NoLogForList(db: Db, list: Bytes, now: int)
    requires IsList(At(db, list)) && !Expired(At(db, list).deadline, now)
    ensures UndoLog(db, Line(Del, [list]), now) == (db, None)
  {
    var del := Line(Del, [list]);
    assert Keys(del) == {list};
    UndoLogExists(db, del, now);
    assert DumpedKeys(del)[0] == list;
    PutBack(db, list, EMPTY);
  }

  /* ---- undo commands do not panic ---- */

  predicate UndoOp(op: Op) {
    op in {Del, Set, HMSet, HSet, HDel, LPush, RPush, LPop, RPop, LSet, Persist, PExpireAt}
  }

  predicate AllUndoOps(lines: seq<Line>) {
    forall i :: 0 <= i < |lines| ==> UndoOp(lines[i].op)
  }

  lemma {:induction false} UndoKeysOps(db: Db, keys: seq<Bytes>, now: int)
    requires UndoKeys(db, keys, now).1.Some?
    ensures AllUndoOps(UndoKeys(db, keys, now).1.value)
    decreases |keys|
  {
    if |keys| > 0 {
      var seen := Look(db, keys[0], now);
      UndoKeysOps(seen, keys[1..], now);
      var first, rest := UndoKey(keys[0], At(seen, keys[0])).value, UndoKeys(seen, keys[1..], now).1.value;
      assert AllUndoOps(first);
      assert UndoKeys(db, keys, now).1.value == first + rest;
    }
  }

  lemma UndoOneOps(db: Db, line: Line, now: int)
    requires ArityFits(line) && OneKey(line.op) && !StringOp(line.op) && UndoLog(db, line, now).1.Some?
    ensures AllUndoOps(UndoLog(db, line, now).1.value)
  {
  }

  lemma UndoLogOps(db: Db, line: Line, now: int)
    requires ArityFits(line) && UndoLog(db, line, now).1.Some?
    ensures AllUndoOps(UndoLog(db, line, now).1.value)
  {
    if OneKey(line.op) && !StringOp(line.op) {
      UndoOneOps(db, line, now);
    } else if line.op !in {Get, HGet, Exists, RPopLPush} {
      UndoKeysOps(db, DumpedKeys(line), now);
    }
  }

  lemma UndoOpCalm(db: Db, line: Line, now: int)
    requires SoundDb(db) && UndoOp(line.op)
    ensures !Exec(db, line, now).answer.Panicked? && SoundDb(Exec(db, line, now).db)
  {
    ExecSound(db, line, now);
    if ArityFits(line) && OneKey(line.op) {
      assert Sound(At(db, line.args[0]));
      OneCalm(At(db, line.args[0]), line, now);
    }
  }

  lemma OneCalm(s: Slot, line: Line, now: int)
    requires OneKey(line.op) && UndoOp(line.op) && ArityFits(line) && Sound(s)
    ensures !RunOne(s, line, now).answer.Panicked?
  {
  }

  /** None of the lines panics, one executed after the other. */
  predicate Calm(db: Db, lines: seq<Line>, now: int)
    decreases |lines|
  {
    |lines| > 0 ==> !Exec(db, lines[0], now).answer.Panicked? && Calm(Exec(db, lines[0], now).db, lines[1..], now)
  }

  lemma {:induction false} UndoOpsCalm(db: Db, lines: seq<Line>, now: int)
    requires SoundDb(db) && AllUndoOps(lines)
    ensures Calm(db, lines, now)
    decreases |lines|
  {
    if |lines| > 0 {
      UndoOpCalm(db, lines[0], now);
      UndoOpsCalm(Exec(db, lines[0], now).db, lines[1..], now);
    }
  }

  /** An undo log, whenever it was taken, executes on a sound database without a panic. */
  lemma UndoNeverPanics(db: Db, line: Line, now: int, later: Db, at: int)
    requires ArityFits(line) && UndoLog(db, line, now).1.Some? && SoundDb(later)
    ensures Calm(later, UndoLog(db, line, now).1.value, at)
  {
    UndoLogOps(db, line, now);
    UndoOpsCalm(later, UndoLog(db, line, now).1.value, at);
  }
}
