/** What runs under one batch of locks: a command, an expire job, or a transaction; and the keys it depends on. */
module Jobs {
  import opened Strconv
  import opened Commands
  import opened Slots
  import opened Engine
  import opened Undo
  import opened RollbackCases
  import opened Multi
  import opened Footprint
  import opened Transactions
  import WatchValues

  /* ---- undo logs are local ---- */

  lemma {:induction false} UndoKeysLocal(a: Db, b: Db, names: seq<Bytes>, now: int, keys: set<Bytes>)
    requires Agree(a, b, keys) && Within(names, keys)
    ensures UndoKeys(a, names, now).1 == UndoKeys(b, names, now).1
    ensures Agree(UndoKeys(a, names, now).0, UndoKeys(b, names, now).0, keys)
    ensures SameOutside(UndoKeys(a, names, now).0, a, keys)
    decreases |names|
  {
    if |names| > 0 {
      assert At(a, names[0]) == At(b, names[0]);
      UndoKeysLocal(Look(a, names[0], now), Look(b, names[0], now), names[1..], now, keys);
    }
  }

  ghost predicate SameUndo(a: Db, x: (Db, Option<seq<Line>>), y: (Db, Option<seq<Line>>), keys: set<Bytes>) {
    x.1 == y.1 && Agree(x.0, y.0, keys) && SameOutside(x.0, a, keys)
  }

  lemma UndoOneLocal(a: Db, b: Db, line: Line, now: int)
    requires ArityFits(line) && OneKey(line.op) && !StringOp(line.op) && At(a, line.args[0]) == At(b, line.args[0])
    ensures SameUndo(a, UndoLog(a, line, now), UndoLog(b, line, now), {line.args[0]})
  {
  }

  lemma DumpedWithin(line: Line)
    requires ArityFits(line)
    ensures Within(DumpedKeys(line), Keys(line))
  {
    DumpedDeclared(line);
    forall i | 0 <= i < |DumpedKeys(line)| ensures DumpedKeys(line)[i] in Keys(line) {
      assert DumpedKeys(line)[i] in SetOf(DumpedKeys(line));
    }
  }

  lemma UndoMoveLocal(a: Db, b: Db, line: Line, now: int)
    requires line.op.RPopLPush? && ArityFits(line) && At(a, line.args[0]) == At(b, line.args[0])
    ensures var x, y := UndoLog(a, line, now), UndoLog(b, line, now);
            x.1 == y.1 && x.0 == Look(a, line.args[0], now) && y.0 == Look(b, line.args[0], now)
  {
  }

  lemma UndoIsLocal(a: Db, b: Db, line: Line, now: int)
    requires ArityFits(line) && Agree(a, b, Keys(line))
    ensures SameUndo(a, UndoLog(a, line, now), UndoLog(b, line, now), Keys(line))
  {
    ArgDeclared(line, 0);
    assert At(a, line.args[0]) == At(b, line.args[0]);
    if OneKey(line.op) && !StringOp(line.op) {
      assert Keys(line) == {line.args[0]};
      UndoOneLocal(a, b, line, now);
    } else if line.op.RPopLPush? {
      UndoMoveLocal(a, b, line, now);
    } else if line.op !in {Get, HGet, Exists} {
      DumpedWithin(line);
      UndoOfKeys(a, line, now);
      UndoOfKeys(b, line, now);
      UndoKeysLocal(a, b, DumpedKeys(line), now, Keys(line));
    }
  }

  predicate AllWithin(lines: seq<Line>, keys: set<Bytes>) {
    forall i :: 0 <= i < |lines| ==> Keys(lines[i]) <= keys
  }

  lemma {:induction false} UndoKeysWithin(db: Db, names: seq<Bytes>, now: int, keys: set<Bytes>)
    requires Within(names, keys) && UndoKeys(db, names, now).1.Some?
    ensures AllWithin(UndoKeys(db, names, now).1.value, keys)
    decreases |names|
  {
    if |names| > 0 {
      UndoKeysWithin(Look(db, names[0], now), names[1..], now, keys);
      UndoKeyWithin(names[0], Seen(At(db, names[0]), now));
    }
  }

  lemma UndoKeyWithin(key: Bytes, s: Slot)
    requires UndoKey(key, s).Some?
    ensures AllWithin(UndoKey(key, s).value, {key})
  {
    var lines := UndoKey(key, s).value;
    forall i | 0 <= i < |lines| ensures Keys(lines[i]) <= {key} { }
  }

  lemma OneKeyWithin(line: Line, key: Bytes)
    requires OneKey(line.op) && |line.args| > 0 && line.args[0] == key
    ensures Keys(line) <= {key}
  {
  }

  lemma UndoOneWithin(db: Db, line: Line, now: int)
    requires ArityFits(line) && OneKey(line.op) && !StringOp(line.op) && UndoLog(db, line, now).1.Some?
    ensures AllWithin(UndoLog(db, line, now).1.value, {line.args[0]})
  {
    var key, lines := line.args[0], UndoLog(db, line, now).1.value;
    forall i | 0 <= i < |lines| ensures Keys(lines[i]) <= {key} {
      OneOfUndo(db, line, now, i);
      if OneKey(lines[i].op) { OneKeyWithin(lines[i], key); }
    }
  }

  lemma OneOfUndo(db: Db, line: Line, now: int, i: nat)
    requires ArityFits(line) && OneKey(line.op) && !StringOp(line.op) && UndoLog(db, line, now).1.Some?
    requires i < |UndoLog(db, line, now).1.value|
    ensures var undo := UndoLog(db, line, now).1.value[i];
            && (OneKey(undo.op) || undo.op.Del?) && |undo.args| > 0 && undo.args[0] == line.args[0]
            && (undo.op.Del? ==> |undo.args| == 1)
  {
  }

  lemma UndoLogWithin(db: Db, line: Line, now: int)
    requires ArityFits(line) && UndoLog(db, line, now).1.Some?
    ensures AllWithin(UndoLog(db, line, now).1.value, Keys(line))
  {
    ArgDeclared(line, 0);
    if OneKey(line.op) && !StringOp(line.op) {
      UndoOneWithin(db, line, now);
    } else if line.op.RPopLPush? {
      ArgDeclared(line, 1);
      var lines := UndoLog(db, line, now).1.value;
      forall i | 0 <= i < |lines| ensures Keys(lines[i]) <= Keys(line) {
        OneKeyWithin(lines[i], line.args[if i == 0 then 0 else 1]);
      }
    } else if line.op !in {Get, HGet, Exists} {
      DumpedWithin(line);
      UndoKeysWithin(db, DumpedKeys(line), now, Keys(line));
    }
  }

  /* ---- lines, one after the other ---- */

  /** A command within a larger set of keys. */
  lemma ExecWithin(a: Db, b: Db, line: Line, now: int, keys: set<Bytes>)
    requires Agree(a, b, keys) && Keys(line) <= keys
    ensures LocalResults(a, Exec(a, line, now), Exec(b, line, now), keys)
  {
    ExecIsLocal(a, b, line, now);
    ExecIsLocal(b, a, line, now);
    forall k | k in keys ensures At(Exec(a, line, now).db, k) == At(Exec(b, line, now).db, k) {
      if k !in Keys(line) { assert At(Exec(a, line, now).db, k) == At(a, k) == At(b, k); }
    }
  }

  lemma {:induction false} ExecAllWithin(a: Db, b: Db, lines: seq<Line>, now: int, keys: set<Bytes>)
    requires Agree(a, b, keys) && AllWithin(lines, keys)
    ensures LogOf(a, lines, now) == LogOf(b, lines, now)
    ensures Agree(ExecAll(a, lines, now), ExecAll(b, lines, now), keys) && SameOutside(ExecAll(a, lines, now), a, keys)
    decreases |lines|
  {
    if |lines| > 0 {
      assert Keys(lines[0]) <= keys;
      ExecWithin(a, b, lines[0], now, keys);
      ExecAllWithin(Exec(a, lines[0], now).db, Exec(b, lines[0], now).db, lines[1..], now, keys);
    }
  }

  /* ---- transactions ---- */

  ghost predicate LocalStages(a: Db, x: Stage, y: Stage, keys: set<Bytes>) {
    && x.log == y.log && x.answers == y.answers && x.undos == y.undos && x.ending == y.ending
    && Agree(x.db, y.db, keys) && SameOutside(x.db, a, keys)
    && forall i :: 0 <= i < |x.undos| ==> AllWithin(x.undos[i], keys)
  }

  lemma UndoWithin(a: Db, b: Db, line: Line, now: int, keys: set<Bytes>)
    requires ArityFits(line) && Agree(a, b, keys) && Keys(line) <= keys
    ensures var x, y := UndoLog(a, line, now), UndoLog(b, line, now);
            && x.1 == y.1 && Agree(x.0, y.0, keys) && SameOutside(x.0, a, keys)
            && (x.1.Some? ==> AllWithin(x.1.value, keys))
  {
    var x, y := UndoLog(a, line, now), UndoLog(b, line, now);
    UndoIsLocal(a, b, line, now);
    UndoIsLocal(b, a, line, now);
    forall k | k in keys ensures At(x.0, k) == At(y.0, k) {
      if k !in Keys(line) { assert At(x.0, k) == At(a, k) == At(b, k) == At(y.0, k); }
    }
    if x.1.Some? { UndoLogWithin(a, line, now); }
  }

  lemma {:induction false} ForwardLocal(a: Db, b: Db, lines: seq<Line>, now: int, keys: set<Bytes>)
    requires AllFit(lines) && Agree(a, b, keys) && AllWithin(lines, keys)
    ensures LocalStages(a, Forward(a, lines, now), Forward(b, lines, now), keys)
    decreases |lines|
  {
    if |lines| > 0 {
      var x, y := UndoLog(a, lines[0], now), UndoLog(b, lines[0], now);
      UndoWithin(a, b, lines[0], now, keys);
      ExecWithin(x.0, y.0, lines[0], now, keys);
      var r, q := Exec(x.0, lines[0], now), Exec(y.0, lines[0], now);
      if x.1.Some? && Succeeded(r.answer) { ForwardLocal(r.db, q.db, lines[1..], now, keys); }
    }
  }

  lemma {:induction false} UndoAllLocal(a: Db, b: Db, undos: seq<seq<Line>>, now: int, keys: set<Bytes>)
    requires Agree(a, b, keys) && forall i :: 0 <= i < |undos| ==> AllWithin(undos[i], keys)
    ensures UndoAllLog(a, undos, now) == UndoAllLog(b, undos, now)
    ensures Agree(UndoAll(a, undos, now), UndoAll(b, undos, now), keys) && SameOutside(UndoAll(a, undos, now), a, keys)
    decreases |undos|
  {
    if |undos| > 0 {
      var last := undos[|undos| - 1];
      ExecAllWithin(a, b, last, now, keys);
      UndoAllLocal(ExecAll(a, last, now), ExecAll(b, last, now), undos[..|undos| - 1], now, keys);
    }
  }

  /** A transaction depends on the keys of its queue only, and changes no other, aborted or not. */
  lemma MultiIsLocal(a: Db, b: Db, lines: seq<Line>, now: int, keys: set<Bytes>)
    requires AllFit(lines) && Agree(a, b, keys) && AllWithin(lines, keys)
    ensures var x, y := RunMulti(a, lines, now), RunMulti(b, lines, now);
            x.log == y.log && x.verdict == y.verdict && Agree(x.db, y.db, keys) && SameOutside(x.db, a, keys)
  {
    var x, y := Forward(a, lines, now), Forward(b, lines, now);
    ForwardLocal(a, b, lines, now, keys);
    if x.ending.Stopped? { UndoAllLocal(x.db, y.db, x.undos, now, keys); }
  }

  /* ---- jobs ---- */

  /** A command, the expire job of a key, or a transaction that has passed its watch check, with the keys it watches. */
  datatype Job = Single(line: Line) | Expiry(key: Bytes) | Batch(lines: seq<Line>, watched: seq<Bytes>)

  ghost predicate Fits(job: Job) {
    match job
    case Single(line) => ArityFits(line)
    case Expiry(_) => true
    case Batch(lines, _) => AllFit(lines)
  }

  /** The keys that are locked for writing. */
  function WriteKeys(job: Job): seq<Bytes>
    requires Fits(job)
  {
    match job
    case Single(line) => Prepare(line).write
    case Expiry(key) => [key]
    case Batch(lines, _) => QueueWrites(lines)
  }

  /** The keys that are locked for reading. */
  function ReadKeys(job: Job): seq<Bytes>
    requires Fits(job)
  {
    match job
    case Single(line) => Prepare(line).read
    case Expiry(_) => []
    case Batch(lines, watched) => QueueReads(lines) + watched
  }

  function Locked(job: Job): set<Bytes>
    requires Fits(job)
  {
    SetOf(WriteKeys(job)) + SetOf(ReadKeys(job))
  }

  datatype Said = Answered(answer: Answer) | Silent | Ended(verdict: Verdict)

  datatype Effect = Effect(db: Db, said: Said, log: seq<Line>)

  function RunJob(db: Db, job: Job, now: int): Effect
    requires Fits(job)
  {
    match job
    case Single(line) =>
      var r := Exec(db, line, now);
      Effect(r.db, Answered(r.answer), r.log)
    case Expiry(key) => Effect(Fired(db, key, now), Silent, [])
    case Batch(lines, _) =>
      var r := RunMulti(db, lines, now);
      Effect(r.db, Ended(r.verdict), r.log)
  }

  ghost predicate LocalEffects(a: Db, x: Effect, y: Effect, keys: set<Bytes>) {
    x.said == y.said && x.log == y.log && Agree(x.db, y.db, keys) && SameOutside(x.db, a, keys)
  }

  lemma {:induction false} QueueWithin(lines: seq<Line>)
    requires AllFit(lines)
    ensures AllWithin(lines, SetOf(QueueWrites(lines)) + SetOf(QueueReads(lines)))
  {
    forall i | 0 <= i < |lines| ensures Keys(lines[i]) <= SetOf(QueueWrites(lines)) + SetOf(QueueReads(lines)) {
      BatchCovers(lines, i);
    }
  }

  /** A job depends on the keys it locks only, and changes no other. */
  lemma JobIsLocal(a: Db, b: Db, job: Job, now: int)
    requires Fits(job) && Agree(a, b, Locked(job))
    ensures LocalEffects(a, RunJob(a, job, now), RunJob(b, job, now), Locked(job))
  {
    match job {
      case Single(line) => assert Locked(job) == Keys(line); ExecIsLocal(a, b, line, now);
      case Expiry(key) => assert key in SetOf([key]); assert At(a, key) == At(b, key);
      case Batch(lines, watched) =>
        QueueWithin(lines);
        MoreReads(QueueReads(lines), watched);
        assert AllWithin(lines, Locked(job));
        MultiIsLocal(a, b, lines, now, Locked(job));
    }
  }

  lemma MoreReads(a: seq<Bytes>, b: seq<Bytes>)
    ensures SetOf(a) <= SetOf(a + b)
  {
  }

  /** The job changes nothing that it has not locked for writing. */
  ghost predicate Keeps(db: Db, job: Job, now: int)
    requires Fits(job)
  {
    SameOutside(RunJob(db, job, now).db, db, SetOf(WriteKeys(job)))
  }

  /** For a command that is so exactly when it is quiet, and for an expire job always. */
  lemma KeepsIff(db: Db, job: Job, now: int)
    requires Fits(job) && !job.Batch?
    ensures Keeps(db, job, now) <==> (job.Single? ==> Quiet(db, job.line, now))
  {
    match job {
      case Single(line) => WritesDeclared(db, line, now);
      case Expiry(key) => assert key in SetOf([key]);
    }
  }

  /** For a transaction it is enough that it spares, as its commands do, every key that it has locked for reading only. */
  lemma BatchKeeps(db: Db, job: Job, now: int)
    requires job.Batch? && Fits(job)
    requires forall k :: k in Locked(job) && k !in SetOf(WriteKeys(job)) ==> WatchValues.ExecSpares(db, job.lines, k, now)
    ensures Keeps(db, job, now)
  {
    JobIsLocal(db, db, job, now);
    forall k | k !in SetOf(WriteKeys(job)) ensures At(RunJob(db, job, now).db, k) == At(db, k) {
      if k in Locked(job) { WatchValues.MultiSpares(db, job.lines, k, now); }
    }
  }
}
