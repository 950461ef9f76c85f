/** The value of a watched key: what keeps it, and what a passing EXEC says about it. */
module WatchValues {
  import opened Strconv
  import opened Commands
  import opened Slots
  import opened Engine
  import opened Undo
  import opened Multi
  import opened Footprint
  import opened RollbackCases
  import opened Transactions
  import opened Watch

  /** The command does not declare to write the key, does not move it away, and does not find it expired. */
  predicate Spares(db: Db, line: Line, key: Bytes, now: int) {
    && key !in Writes(line) && !(Moves(db, line, now) && line.args[0] == key)
    && (key in Keys(line) ==> !Expired(At(db, key).deadline, now))
  }

  lemma CommandSpares(db: Db, line: Line, key: Bytes, now: int)
    requires Spares(db, line, key, now)
    ensures At(Exec(db, line, now).db, key) == At(db, key)
  {
    ExecIsLocal(db, db, line, now);
    if line.op !in {Exists, Get, HGet, Rename, RenameNX} {
      assert Keys(line) == Writes(line);
    } else if key in Keys(line) {
      if line.op.Exists? {
        CountSeenLooks(db, line.args, now);
      } else if line.op in {Get, HGet} {
        OneReadWrites(db, line, now);
      } else {
        RenameKeys(line);
        if line.op.Rename? { RenameWrites(db, line, now); } else { RenameNXWrites(db, line, now); }
      }
    }
  }

  lemma {:induction false} UndoKeysLook(db: Db, keys: seq<Bytes>, key: Bytes, now: int)
    requires key in keys ==> !Expired(At(db, key).deadline, now)
    ensures At(UndoKeys(db, keys, now).0, key) == At(db, key)
    decreases |keys|
  {
    if |keys| > 0 { UndoKeysLook(Look(db, keys[0], now), keys[1..], key, now); }
  }

  /** GetUndoLogs looks at declared keys only. */
  lemma UndoLogSpares(db: Db, line: Line, key: Bytes, now: int)
    requires ArityFits(line) && (key in Keys(line) ==> !Expired(At(db, key).deadline, now))
    ensures At(UndoLog(db, line, now).0, key) == At(db, key)
  {
    DumpedDeclared(line);
    ArgDeclared(line, 0);
    assert forall k :: k in DumpedKeys(line) ==> k in SetOf(DumpedKeys(line));
    UndoKeysLook(db, DumpedKeys(line), key, now);
  }

  /** Every command of the queue that comes to be executed spares the key. */
  predicate QueueSpares(db: Db, queue: seq<Line>, key: Bytes, now: int)
    requires AllFit(queue)
    decreases |queue|
  {
    |queue| > 0 ==>
      var undo := UndoLog(db, queue[0], now);
      var r := Exec(undo.0, queue[0], now);
      && (key in Keys(queue[0]) ==> !Expired(At(db, key).deadline, now)) && Spares(undo.0, queue[0], key, now)
      && (undo.1.Some? && Succeeded(r.answer) ==> QueueSpares(r.db, queue[1..], key, now))
  }

  lemma {:induction false} ForwardSpares(db: Db, queue: seq<Line>, key: Bytes, now: int)
    requires AllFit(queue) && QueueSpares(db, queue, key, now)
    ensures At(Forward(db, queue, now).db, key) == At(db, key)
    decreases |queue|
  {
    if |queue| > 0 {
      var undo := UndoLog(db, queue[0], now);
      var r := Exec(undo.0, queue[0], now);
      UndoLogSpares(db, queue[0], key, now);
      CommandSpares(undo.0, queue[0], key, now);
      if undo.1.Some? && Succeeded(r.answer) { ForwardSpares(r.db, queue[1..], key, now); }
    }
  }

  /* ---- runs that spare a key ---- */

  /** EXEC gets to run its queue. */
  predicate Runs(s: Server, i: nat, req: Request)
    requires i < |s.conns|
  {
    && req == ExecReq(0) && s.conns[i].multiState && s.conns[i].txErrors == 0
    && !WatchingChanged(s.shared.versions, s.conns[i].watching)
  }

  /** A transaction that is aborted can be taken back; one that is not, spares the key. */
  ghost predicate ExecSpares(db: Db, queue: seq<Line>, key: Bytes, now: int)
    requires AllFit(queue)
  {
    if Forward(db, queue, now).ending.Stopped? then SoundDb(db) && Reversible(db, queue, now) else QueueSpares(db, queue, key, now)
  }

  ghost predicate SparesKey(s: Server, e: Event, key: Bytes)
    requires Enabled(s, e)
  {
    match e
    case Ask(i, req, now) => Runs(s, i, req) ==> ExecSpares(s.shared.db, s.conns[i].queue, key, now)
    case CountKeys(_, _) => true
    case Execute(i, now) => Spares(s.shared.db, s.running[i].value.line, key, now)
  }

  lemma MultiSpares(db: Db, queue: seq<Line>, key: Bytes, now: int)
    requires AllFit(queue) && ExecSpares(db, queue, key, now)
    ensures At(RunMulti(db, queue, now).db, key) == At(db, key)
  {
    if Forward(db, queue, now).ending.Stopped? {
      AbortRestores(db, queue, now);
    } else {
      ForwardSpares(db, queue, key, now);
    }
  }

  lemma SparedByStep(s: Server, e: Event, key: Bytes)
    requires Enabled(s, e) && SparesKey(s, e, key)
    ensures At(Next(s, e).shared.db, key) == At(s.shared.db, key)
  {
    match e {
      case Ask(i, req, now) => if Runs(s, i, req) { MultiSpares(s.shared.db, s.conns[i].queue, key, now); }
      case CountKeys(_, _) =>
      case Execute(i, now) => CommandSpares(s.shared.db, s.running[i].value.line, key, now);
    }
  }

  ghost predicate RunSpares(s: Server, events: seq<Event>, key: Bytes)
    requires Run(s, events)
    decreases |events|
  {
    |events| > 0 ==> SparesKey(s, events[0], key) && RunSpares(Next(s, events[0]), events[1..], key)
  }

  /** Over every run whose events spare a key, its value and its deadline stay what they were, say when it was watched. */
  lemma {:induction false} SparedByRun(s: Server, events: seq<Event>, key: Bytes)
    requires Run(s, events) && RunSpares(s, events, key)
    ensures At(End(s, events).shared.db, key) == At(s.shared.db, key)
    decreases |events|
  {
    if |events| > 0 {
      SparedByStep(s, events[0], key);
      SparedByRun(Next(s, events[0]), events[1..], key);
    }
  }

  /* ---- what a passing EXEC says ---- */

  /** Whoever changes the key without naming it: a RENAME of it, a look at it when it has expired, an EXEC that fails. */
  ghost predicate Candid(s: Server, e: Event, key: Bytes)
    requires Enabled(s, e)
  {
    match e
    case Ask(i, req, now) =>
      Runs(s, i, req) ==>
        || (Forward(s.shared.db, s.conns[i].queue, now).ending.Through? && key in QueueWrites(s.conns[i].queue))
        || ExecSpares(s.shared.db, s.conns[i].queue, key, now)
    case CountKeys(_, _) => true
    case Execute(i, now) =>
      var line := s.running[i].value.line;
      key in Writes(line) || Spares(s.shared.db, line, key, now)
  }

  ghost predicate RunCandid(s: Server, events: seq<Event>, key: Bytes)
    requires Run(s, events)
    decreases |events|
  {
    |events| > 0 ==> Candid(s, events[0], key) && RunCandid(Next(s, events[0]), events[1..], key)
  }

  /** No command that names the key has been counted and waits to be executed. */
  ghost predicate NonePending(s: Server, key: Bytes) {
    forall c :: 0 <= c < |s.running| && s.running[c].Some? ==> key !in Writes(s.running[c].value.line)
  }

  lemma NamesGrow(s: Server, e: Event)
    requires Enabled(s, e)
    ensures |Next(s, e).writes| >= |s.writes| && Next(s, e).writes[..|s.writes|] == s.writes
  {
  }

  lemma {:induction false} NamesGrowOver(s: Server, events: seq<Event>)
    requires Run(s, events)
    ensures |End(s, events).writes| >= |s.writes| && End(s, events).writes[..|s.writes|] == s.writes
    decreases |events|
  {
    if |events| > 0 {
      var next := Next(s, events[0]);
      NamesGrow(s, events[0]);
      NamesGrowOver(next, events[1..]);
      assert s.writes == next.writes[..|s.writes|] == End(s, events).writes[..|next.writes|][..|s.writes|];
    }
  }

  /** A step that names the key adds it to the history. */
  lemma UnnamedStep(s: Server, e: Event, key: Bytes)
    requires Enabled(s, e) && NonePending(s, key) && Candid(s, e, key) && key !in Next(s, e).writes[|s.writes|..]
    ensures SparesKey(s, e, key) && NonePending(Next(s, e), key)
  {
    var next := Next(s, e);
    match e {
      case Ask(i, req, now) =>
        var r := Handle(s.shared, s.conns[i], req, now);
        assert next.writes[|s.writes|..] == r.named;
      case CountKeys(i, line) =>
        assert next.writes[|s.writes|..] == Prepare(line).write;
      case Execute(i, now) =>
    }
  }

  lemma {:induction false} UnnamedSpares(s: Server, events: seq<Event>, key: Bytes)
    requires Run(s, events) && NonePending(s, key) && RunCandid(s, events, key)
    requires |s.writes| <= |End(s, events).writes| && key !in End(s, events).writes[|s.writes|..]
    ensures RunSpares(s, events, key)
    decreases |events|
  {
    if |events| > 0 {
      var next, end := Next(s, events[0]), End(s, events);
      NamesGrow(s, events[0]);
      NamesGrowOver(next, events[1..]);
      NotBetween(s.writes, next.writes, end.writes, key);
      UnnamedStep(s, events[0], key);
      UnnamedSpares(next, events[1..], key);
    }
  }

  lemma NotBetween(a: seq<Bytes>, b: seq<Bytes>, c: seq<Bytes>, key: Bytes)
    requires |a| <= |b| <= |c| && c[..|b|] == b && key !in c[|a|..]
    ensures key !in b[|a|..] && key !in c[|b|..]
  {
    forall x | x in b[|a|..] ensures x in c[|a|..] {
      var i :| 0 <= i < |b| - |a| && b[|a|..][i] == x;
      assert c[|a|..][i] == c[..|b|][|a| + i];
    }
    forall x | x in c[|b|..] ensures x in c[|a|..] {
      var i :| 0 <= i < |c| - |b| && c[|b|..][i] == x;
      assert c[|a|..][|b| - |a| + i] == x;
    }
  }

  /**
   * A connection has just watched a key, no counted command that names it is waiting, and in the run that follows
   * nobody changes the key without naming it. If EXEC then passes the watch check, and the counters have not come full
   * circle, the key holds what it held when it was watched, value and deadline.
   */
  lemma WatchedIsKept(s: Server, events: seq<Event>, i: nat, key: Bytes, now: int)
    requires Inv(s) && Run(s, events) && NonePending(s, key) && RunCandid(s, events, key)
    requires var end := End(s, events);
             && Ready(end, i) && i < |end.marks| && Short(end, i) && Passes(end, i, now)
             && key in end.marks[i] && end.marks[i][key] == |s.writes|
    ensures At(End(s, events).shared.db, key) == At(s.shared.db, key)
  {
    var end := End(s, events);
    RunKeepsInv(s, events);
    WatchGuards(end, i, now);
    NoFullCircle(end.writes[|s.writes|..], key);
    UnnamedSpares(s, events, key);
    SparedByRun(s, events, key);
  }
}
