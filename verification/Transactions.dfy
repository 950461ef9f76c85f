/** EXEC on the database object: undo logs, the two loops of ExecMulti, and the version counters. */
module Transactions {
  import opened Strconv
  import opened Commands
  import opened Slots
  import opened Engine
  import opened Marshal
  import opened Undo
  import opened Multi
  import opened Footprint
  import opened Database

  /* ---- undo logs ---- */

  /** `rollbackGivenKeys`. */
  method RollbackGivenKeys(db: DB, keys: seq<Bytes>, now: int) returns (undo: Option<seq<Line>>)
    modifies db`data, db`ttlMap, db`jobs
    ensures (db.Snapshot(), undo) == UndoKeys(old(db.Snapshot()), keys, now)
    ensures old(db.Armed(now)) ==> db.Armed(now)
  {
    var lines: seq<Line> := [];
    ghost var start := db.Snapshot();
    ghost var whole := UndoKeys(start, keys, now);
    assert keys[0..] == keys && (whole.1.Some? ==> [] + whole.1.value == whole.1.value);
    for i := 0 to |keys|
      invariant old(db.Armed(now)) ==> db.Armed(now)
      invariant var rest := UndoKeys(db.Snapshot(), keys[i..], now);
                UndoKeys(start, keys, now) == (rest.0, if rest.1.None? then None else Some(lines + rest.1.value))
    {
      assert keys[i..][0] == keys[i] && keys[i..][1..] == keys[i + 1..];
      ghost var seen := Look(db.Snapshot(), keys[i], now);
      var entity := db.GetEntity(keys[i], now);
      var s := Slot(entity, if keys[i] in db.ttlMap then Some(db.ttlMap[keys[i]]) else None);
      assert s == At(seen, keys[i]);
      var one := UndoKey(keys[i], s);
      if one.None? { return None; }
      lines := Concat(lines, one.value, UndoKeys(seen, keys[i + 1..], now).1);
    }
    assert lines + [] == lines;
    return Some(lines);
  }

  /** Append, and note that appending the rest comes to the same. */
  method Concat(lines: seq<Line>, more: seq<Line>, ghost rest: Option<seq<Line>>) returns (all: seq<Line>)
    ensures all == lines + more
    ensures rest.Some? ==> all + rest.value == lines + (more + rest.value)
  {
    all := lines + more;
  }

  /** `rollbackHashFields`. */
  method RollbackHashFields(db: DB, key: Bytes, fields: seq<Bytes>, now: int) returns (lines: seq<Line>)
    modifies db`data, db`ttlMap, db`jobs
    ensures db.Snapshot() == Look(old(db.Snapshot()), key, now)
    ensures lines == UndoFields(key, Seen(At(old(db.Snapshot()), key), now), fields)
    ensures old(db.Armed(now)) ==> db.Armed(now)
  {
    var entity := db.GetEntity(key, now);
    lines := [];
    if entity.None? { return [Line(Del, [key])]; }
    if !entity.value.Hash? { return; }
    var m := entity.value.fields;
    for i := 0 to |fields|
      invariant lines == seq(i, j requires 0 <= j < i => UndoField(key, m, fields[j]))
    {
      if fields[i] !in m {
        lines := lines + [Line(HDel, [key, fields[i]])];
      } else {
        lines := lines + [Line(HSet, [key, fields[i], FieldBytes(m[fields[i]])])];
      }
    }
  }

  /** The undo functions of the list commands. */
  method UndoListLog(db: DB, line: Line, now: int) returns (lines: seq<Line>)
    requires ListOp(line.op) && ArityFits(line)
    modifies db`data, db`ttlMap, db`jobs
    ensures db.Snapshot()
         == if UndoLooks(line) then Look(old(db.Snapshot()), line.args[0], now) else old(db.Snapshot())
    ensures lines == UndoList(Seen(At(old(db.Snapshot()), line.args[0]), now), line)
    ensures old(db.Armed(now)) ==> db.Armed(now)
  {
    var key := line.args[0];
    if line.op in {LPush, LPushX, RPush, RPushX} {
      lines := [];
      var pop := Line(if line.op in {LPush, LPushX} then LPop else RPop, [key]);
      for i := 0 to |line.args| - 1
        invariant lines == Repeat(pop, i)
      {
        lines := lines + [pop];
      }
      return;
    }
    if line.op.LSet? && ParseInt64(line.args[1]).None? { return []; }
    ghost var s := Seen(At(db.Snapshot(), key), now);
    var entity := db.GetEntity(key, now);
    if entity.None? || !entity.value.List? { return []; }
    var l := entity.value.items;
    if line.op.LSet? {
      var k := IndexIn(l, ParseInt64(line.args[1]).value);
      return if k.None? then [] else [Line(LSet, [key, line.args[1], l[k.value]])];
    }
    if |l| == 0 { return []; }
    return [if line.op.LPop? then Line(LPush, [key, l[0]]) else Line(RPush, [key, l[|l| - 1]])];
  }

  /** `GetUndoLogs`; None stands for the panic. */
  method GetUndoLogs(db: DB, line: Line, now: int) returns (undo: Option<seq<Line>>)
    requires ArityFits(line)
    modifies db`data, db`ttlMap, db`jobs
    ensures (db.Snapshot(), undo) == UndoLog(old(db.Snapshot()), line, now)
    ensures old(db.Armed(now)) ==> db.Armed(now)
  {
    var args := line.args;
    if line.op in {Get, HGet} {
      return Some([]);
    } else if StringOp(line.op) {
      undo := RollbackGivenKeys(db, [args[0]], now);
    } else if HashOp(line.op) {
      var lines := RollbackHashFields(db, args[0], Touched(line), now);
      return Some(lines);
    } else if ListOp(line.op) {
      var lines := UndoListLog(db, line, now);
      return Some(lines);
    } else if TimeOp(line.op) {
      return Some([TtlLine(args[0], if args[0] in db.ttlMap then Some(db.ttlMap[args[0]]) else None)]);
    } else {
      undo := UndoSeveral(db, line, now);
    }
  }

  method UndoSeveral(db: DB, line: Line, now: int) returns (undo: Option<seq<Line>>)
    requires !OneKey(line.op) && ArityFits(line)
    modifies db`data, db`ttlMap, db`jobs
    ensures (db.Snapshot(), undo) == UndoMany(old(db.Snapshot()), line, now)
    ensures old(db.Armed(now)) ==> db.Armed(now)
  {
    var args := line.args;
    match line.op {
      case Exists => return Some([]);
      case MSet => undo := RollbackGivenKeys(db, EvenArgs(args), now);
      case MSetNX => undo := RollbackGivenKeys(db, EvenArgs(args), now);
      case Del => undo := RollbackGivenKeys(db, args, now);
      case Rename => undo := RollbackGivenKeys(db, [args[0], args[1]], now);
      case RenameNX => undo := RollbackGivenKeys(db, [args[0], args[1]], now);
      case RPopLPush =>
        ghost var s := Seen(At(db.Snapshot(), args[0]), now);
        var entity := db.GetEntity(args[0], now);
        if entity.None? || !entity.value.List? || |entity.value.items| == 0 { return Some([]); }
        var l := entity.value.items;
        return Some([Line(RPush, [args[0], l[|l| - 1]])] + [Line(LPop, [args[1]])]);
    }
  }

  /* ---- ExecMulti ---- */

  ghost predicate AllFit(lines: seq<Line>) {
    forall i :: 0 <= i < |lines| ==> ArityFits(lines[i])
  }

  /** How far the first loop has come: what is left of the queue gives what the whole queue gives. */
  ghost predicate SoFar(start: Db, lines: seq<Line>, done: Stage, i: nat, now: int)
    requires AllFit(lines) && i <= |lines|
  {
    var rest := Forward(done.db, lines[i..], now);
    Forward(start, lines, now)
    == Stage(rest.db, done.log + rest.log, done.answers + rest.answers, done.undos + rest.undos, rest.ending)
  }

  lemma SoFarStarts(start: Db, lines: seq<Line>, now: int)
    requires AllFit(lines)
    ensures SoFar(start, lines, Stage(start, [], [], [], Through), 0, now)
  {
    assert lines[0..] == lines;
    var all := Forward(start, lines, now);
    assert [] + all.log == all.log && [] + all.answers == all.answers && [] + all.undos == all.undos;
  }

  lemma SoFarStep(start: Db, lines: seq<Line>, i: nat, done: Stage, undo: seq<Line>, r: Result, now: int)
    requires AllFit(lines) && i < |lines| && SoFar(start, lines, done, i, now)
    requires UndoLog(done.db, lines[i], now).1 == Some(undo) && r == Exec(UndoLog(done.db, lines[i], now).0, lines[i], now)
    requires !r.answer.Panicked? && !r.answer.Failed?
    ensures SoFar(start, lines, Stage(r.db, done.log + r.log, done.answers + [r.answer], done.undos + [undo], Through), i + 1, now)
  {
    assert lines[i..][0] == lines[i] && lines[i..][1..] == lines[i + 1..];
    var rest := Forward(r.db, lines[i + 1..], now);
    Regroup(done.log, r.log, rest.log);
    Regroup(done.answers, [r.answer], rest.answers);
    Regroup(done.undos, [undo], rest.undos);
  }

  /** The queue ends with this command, one way or the other. */
  lemma SoFarStops(start: Db, lines: seq<Line>, i: nat, done: Stage, now: int)
    requires AllFit(lines) && i < |lines| && SoFar(start, lines, done, i, now)
    ensures var undo := UndoLog(done.db, lines[i], now);
            var r := Exec(undo.0, lines[i], now);
            && (undo.1.None? ==> Forward(start, lines, now) == Stage(undo.0, done.log, done.answers, done.undos, Crashed))
            && (undo.1.Some? && (r.answer.Panicked? || r.answer.Failed?) ==>
                  Forward(start, lines, now) == Stage(r.db, done.log + r.log, done.answers, done.undos,
                                                      if r.answer.Panicked? then Crashed else Stopped))
  {
    assert lines[i..][0] == lines[i];
    NothingMore(done.answers);
    NothingMore(done.undos);
    NothingMore(done.log);
  }

  lemma SoFarEnds(start: Db, lines: seq<Line>, done: Stage, now: int)
    requires AllFit(lines) && SoFar(start, lines, done, |lines|, now)
    ensures Forward(start, lines, now) == Stage(done.db, done.log, done.answers, done.undos, Through)
  {
    NothingMore(done.answers);
    NothingMore(done.undos);
    NothingMore(done.log);
  }

  /** One turn: the undo log first, then the command. */
  method RunNext(db: DB, line: Line, now: int) returns (undo: Option<seq<Line>>, result: Answer)
    requires ArityFits(line)
    modifies db`data, db`ttlMap, db`jobs, db`aof
    ensures var log := UndoLog(old(db.Snapshot()), line, now);
            var r := Exec(log.0, line, now);
            && undo == log.1
            && (undo.None? ==> db.Snapshot() == log.0 && db.aof == old(db.aof))
            && (undo.Some? ==> db.Snapshot() == r.db && db.aof == old(db.aof) + r.log && result == r.answer)
    ensures old(db.Armed(now)) ==> db.Armed(now)
  {
    result := Panicked;
    undo := GetUndoLogs(db, line, now);
    if undo.Some? { result := db.ExecWithLock(line, now); }
  }

  /** The first loop. An undo log is taken before each command, and dropped again for the one that fails. */
  method RunQueue(db: DB, lines: seq<Line>, now: int)
    returns (results: seq<Answer>, undoCmdLines: seq<seq<Line>>, ending: Ending)
    requires AllFit(lines)
    modifies db`data, db`ttlMap, db`jobs, db`aof
    ensures var stage := Forward(old(db.Snapshot()), lines, now);
            && db.Snapshot() == stage.db && db.aof == old(db.aof) + stage.log
            && results == stage.answers && undoCmdLines == stage.undos && ending == stage.ending
    ensures old(db.Armed(now)) ==> db.Armed(now)
  {
    ghost var start, before := db.Snapshot(), db.aof;
    ghost var log: seq<Line> := [];
    results, undoCmdLines := [], [];
    SoFarStarts(start, lines, now);
    var i := 0;
    while i < |lines|
      invariant old(db.Armed(now)) ==> db.Armed(now)
      invariant i <= |lines| && db.aof == before + log
      invariant SoFar(start, lines, Stage(db.Snapshot(), log, results, undoCmdLines, Through), i, now)
    {
      ghost var cur := db.Snapshot();
      ghost var done := Stage(cur, log, results, undoCmdLines, Through);
      SoFarStops(start, lines, i, done, now);
      ghost var r := Exec(UndoLog(cur, lines[i], now).0, lines[i], now);
      Regroup(before, log, r.log);
      var undo, result := RunNext(db, lines[i], now);
      if undo.None? { return results, undoCmdLines, Crashed; }
      undoCmdLines := undoCmdLines + [undo.value];
      if result.Panicked? || result.Failed? {
        undoCmdLines := undoCmdLines[..|undoCmdLines| - 1];
        return results, undoCmdLines, if result.Panicked? then Crashed else Stopped;
      }
      SoFarStep(start, lines, i, done, undo.value, r, now);
      results := results + [result];
      log := log + r.log;
      i := i + 1;
    }
    SoFarEnds(start, lines, Stage(db.Snapshot(), log, results, undoCmdLines, Through), now);
    return results, undoCmdLines, Through;
  }

  /** One undo log, from head to tail. */
  method RunUndo(db: DB, lines: seq<Line>, now: int)
    modifies db`data, db`ttlMap, db`jobs, db`aof
    ensures db.Snapshot() == ExecAll(old(db.Snapshot()), lines, now)
    ensures db.aof == old(db.aof) + LogOf(old(db.Snapshot()), lines, now)
    ensures old(db.Armed(now)) ==> db.Armed(now)
  {
    ghost var start, before := db.Snapshot(), db.aof;
    var i := 0;
    while i < |lines|
      invariant old(db.Armed(now)) ==> db.Armed(now)
      invariant i <= |lines| && ExecAll(db.Snapshot(), lines[i..], now) == ExecAll(start, lines, now)
      invariant db.aof + LogOf(db.Snapshot(), lines[i..], now) == before + LogOf(start, lines, now)
    {
      assert lines[i..][0] == lines[i] && lines[i..][1..] == lines[i + 1..];
      ghost var r := Exec(db.Snapshot(), lines[i], now);
      ghost var aof, rest := db.aof, LogOf(r.db, lines[i + 1..], now);
      Regroup(aof, r.log, rest);
      var result := db.ExecWithLock(lines[i], now);
      i := i + 1;
    }
    NothingMore(db.aof);
  }

  /** The second loop, from the last undo log to the first. */
  method RunUndos(db: DB, undos: seq<seq<Line>>, now: int)
    modifies db`data, db`ttlMap, db`jobs, db`aof
    ensures db.Snapshot() == UndoAll(old(db.Snapshot()), undos, now)
    ensures db.aof == old(db.aof) + UndoAllLog(old(db.Snapshot()), undos, now)
    ensures old(db.Armed(now)) ==> db.Armed(now)
  {
    ghost var start, before := db.Snapshot(), db.aof;
    var i := |undos|;
    assert undos[..i] == undos;
    while i > 0
      invariant old(db.Armed(now)) ==> db.Armed(now)
      invariant 0 <= i <= |undos| && UndoAll(db.Snapshot(), undos[..i], now) == UndoAll(start, undos, now)
      invariant db.aof + UndoAllLog(db.Snapshot(), undos[..i], now) == before + UndoAllLog(start, undos, now)
    {
      ghost var all, last := undos[..i], undos[i - 1];
      assert all[|all| - 1] == last && all[..|all| - 1] == undos[..i - 1];
      ghost var aof, log := db.aof, LogOf(db.Snapshot(), last, now);
      ghost var rest := UndoAllLog(ExecAll(db.Snapshot(), last, now), undos[..i - 1], now);
      Regroup(aof, log, rest);
      i := i - 1;
      RunUndo(db, undos[i], now);
    }
    NothingMore(db.aof);
  }

  /* ---- versions ---- */

  function Version(versions: map<Bytes, nat>, key: Bytes): nat {
    if key in versions then versions[key] else 0
  }

  function Stepped(versions: map<Bytes, nat>, key: Bytes): map<Bytes, nat> {
    versions[key := (Version(versions, key) + 1) % TWO32]
  }

  /** `addVersion`: a uint32 counter for each key, one step for each time that the key is named. */
  function AddVersions(versions: map<Bytes, nat>, keys: seq<Bytes>): map<Bytes, nat>
    decreases |keys|
  {
    if |keys| == 0 then versions
    else AddVersions(Stepped(versions, keys[0]), keys[1..])
  }

  method AddVersion(db: DB, keys: seq<Bytes>)
    modifies db`versionMap
    ensures db.versionMap == AddVersions(old(db.versionMap), keys)
  {
    for i := 0 to |keys|
      invariant AddVersions(db.versionMap, keys[i..]) == AddVersions(old(db.versionMap), keys)
    {
      assert keys[i..][0] == keys[i] && keys[i..][1..] == keys[i + 1..];
      var versionCode := Version(db.versionMap, keys[i]);
      db.versionMap := db.versionMap[keys[i] := (versionCode + 1) % TWO32];
    }
  }

  predicate WatchingChanged(versions: map<Bytes, nat>, watching: map<Bytes, nat>) {
    exists k :: k in watching && watching[k] != Version(versions, k)
  }

  method IsWatchingChanged(db: DB, watching: map<Bytes, nat>) returns (changed: bool)
    ensures changed <==> WatchingChanged(db.versionMap, watching)
  {
    var left := watching.Keys;
    while left != {}
      invariant left <= watching.Keys
      invariant forall k :: k in watching && k !in left ==> watching[k] == Version(db.versionMap, k)
    {
      var key :| key in left;
      if watching[key] != Version(db.versionMap, key) { return true; }
      left := left - {key};
    }
    return false;
  }

  /** The write keys of a queue, as its prepare functions name them. */
  function QueueWrites(lines: seq<Line>): seq<Bytes>
    requires AllFit(lines)
  {
    if |lines| == 0 then [] else Prepare(lines[0]).write + QueueWrites(lines[1..])
  }

  function QueueReads(lines: seq<Line>): seq<Bytes>
    requires AllFit(lines)
  {
    if |lines| == 0 then [] else Prepare(lines[0]).read + QueueReads(lines[1..])
  }

  /** The first loop over the queue: the keys to lock, and the write keys to count. */
  method PrepareQueue(lines: seq<Line>) returns (writeKeys: seq<Bytes>, readKeys: seq<Bytes>)
    requires AllFit(lines)
    ensures writeKeys == QueueWrites(lines) && readKeys == QueueReads(lines)
  {
    writeKeys, readKeys := [], [];
    for i := 0 to |lines|
      invariant writeKeys + QueueWrites(lines[i..]) == QueueWrites(lines)
      invariant readKeys + QueueReads(lines[i..]) == QueueReads(lines)
    {
      assert lines[i..][0] == lines[i] && lines[i..][1..] == lines[i + 1..];
      var declared := Prepare(lines[i]);
      Regroup(writeKeys, declared.write, QueueWrites(lines[i + 1..]));
      Regroup(readKeys, declared.read, QueueReads(lines[i + 1..]));
      writeKeys, readKeys := writeKeys + declared.write, readKeys + declared.read;
    }
    NothingMore(writeKeys);
    NothingMore(readKeys);
  }

  /** The batch of a queue covers every key that one of its commands depends on or writes. */
  lemma {:induction false} BatchCovers(lines: seq<Line>, i: nat)
    requires AllFit(lines) && i < |lines|
    ensures Writes(lines[i]) <= SetOf(QueueWrites(lines))
    ensures Keys(lines[i]) <= SetOf(QueueWrites(lines)) + SetOf(QueueReads(lines))
    decreases |lines|
  {
    SetOfParts(Prepare(lines[0]).write, QueueWrites(lines[1..]));
    SetOfParts(Prepare(lines[0]).read, QueueReads(lines[1..]));
    if i > 0 { BatchCovers(lines[1..], i - 1); }
  }

  lemma SetOfParts(a: seq<Bytes>, b: seq<Bytes>)
    ensures SetOf(a + b) == SetOf(a) + SetOf(b)
  {
  }

  datatype TxReply = Reply(answer: Answer) | Queued | Results(answers: seq<Answer>) | WatchFailed | ExecAbort | Unknown

  /** `ExecMulti`. Its locks cover the write and read keys of the queue and the watched keys. */
  method ExecMulti(db: DB, watching: map<Bytes, nat>, lines: seq<Line>, now: int) returns (r: TxReply)
    requires AllFit(lines)
    modifies db
    ensures WatchingChanged(old(db.versionMap), watching) ==>
      r == WatchFailed && db.Snapshot() == old(db.Snapshot()) && db.aof == old(db.aof) && db.versionMap == old(db.versionMap)
    ensures !WatchingChanged(old(db.versionMap), watching) ==>
      var m := RunMulti(old(db.Snapshot()), lines, now);
      && db.Snapshot() == m.db && db.aof == old(db.aof) + m.log && r == ReplyOf(m.verdict)
      && db.versionMap == if m.verdict.Committed? then AddVersions(old(db.versionMap), QueueWrites(lines)) else old(db.versionMap)
    ensures old(db.Armed(now)) ==> db.Armed(now)
  {
    var writeKeys, readKeys := PrepareQueue(lines);
    var changed := IsWatchingChanged(db, watching);
    if changed { return WatchFailed; }
    ghost var before, stage := db.aof, Forward(db.Snapshot(), lines, now);
    var results, undoCmdLines, ending := RunQueue(db, lines, now);
    match ending {
      case Through =>
        AddVersion(db, writeKeys);
        return Results(results);
      case Crashed =>
        return Unknown;
      case Stopped =>
        ghost var log := UndoAllLog(stage.db, stage.undos, now);
        Regroup(before, stage.log, log);
        RunUndos(db, undoCmdLines, now);
        return ExecAbort;
    }
  }

  /** A panic reaches the server, which answers with an unknown error. */
  function ReplyOf(verdict: Verdict): TxReply {
    match verdict
    case Committed(answers) => Results(answers)
    case Aborted => ExecAbort
    case Broken => Unknown
  }
}
