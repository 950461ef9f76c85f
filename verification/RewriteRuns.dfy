/** Runs of appends with rewrites among them: what the file replays to. */
module RewriteRuns {
  import opened Strconv
  import opened Commands
  import opened Slots
  import opened Engine
  import opened RollbackCases
  import opened History
  import opened AofFile
  import opened Rewrite
  import Parser
  import Resp

  /** A rewrite between its steps: `pre` records were in the file when it started. */
  datatype Pending = Idle | Started(pre: nat) | Dumped(pre: nat, dump: seq<Record>)

  /** The records in the file, and all the commands that were ever appended. */
  datatype World = World(records: seq<Record>, pending: Pending, history: seq<Commands.Line>)

  const EMPTY_FILE := World([], Idle, [])

  datatype Event = Append(line: Commands.Line) | Start | Do(clock: int) | Finish

  /** What LoadAof gets to see: the first part of the file, but all of it when that part is empty. */
  function LoadedPart(w: World): seq<Record>
    requires w.pending.Started? && w.pending.pre <= |w.records|
  {
    if w.pending.pre == 0 then w.records else w.records[..w.pending.pre]
  }

  predicate Possible(w: World, e: Event) {
    match e
    case Append(_) => true
    case Start => w.pending.Idle?
    case Do(_) => w.pending.Started? && w.pending.pre <= |w.records|
    case Finish => w.pending.Dumped? && w.pending.pre <= |w.records|
  }

  function Next(w: World, e: Event, databases: nat): World
    requires Possible(w, e)
  {
    match e
    case Append(line) => w.(records := w.records + [Command(line)], history := w.history + [line])
    case Start => w.(pending := Started(|w.records|))
    case Do(clock) =>
      w.(pending := Dumped(w.pending.pre, RewriteFrom(0, databases, Loaded(LoadedPart(w), databases, clock))))
    case Finish =>
      w.(records := w.pending.dump + [Select(0)] + w.records[w.pending.pre..] + [Select(0)], pending := Idle)
  }

  function Replayed(records: seq<Record>, clock: int): Db {
    ExecAll(NO_DATA, Lines(records), clock)
  }

  /* ---- the records are the bytes ---- */

  lemma FileParts(records: seq<Record>, pre: nat)
    requires pre <= |records|
    ensures var size := |FileOf(records[..pre])|;
            && size <= |FileOf(records)|
            && FileOf(records)[..size] == FileOf(records[..pre]) && FileOf(records)[size..] == FileOf(records[pre..])
            && (size == 0 <==> pre == 0)
  {
    assert records == records[..pre] + records[pre..];
    FileAppend(records[..pre], records[pre..]);
    if pre > 0 { SomeBytes(records[..pre]); } else { assert FileOf([]) == []; }
  }

  lemma SomeBytes(records: seq<Record>)
    requires records != []
    ensures |FileOf(records)| > 0
  {
    var last := |records| - 1;
    assert records == records[..last] + [records[last]];
    FileAppend(records[..last], [records[last]]);
    OneMessage(records[last]);
    PrintedNotEmpty(ToArgs(Words(records[last])));
  }

  lemma PrintedNotEmpty(args: seq<Resp.Arg>)
    ensures |Resp.Print(Resp.MultiBulkReply(args))| > 0
  {
  }

  /** DoRewrite loads the bytes of that part of the file. */
  lemma DoFollows(w: World, clock: int)
    requires Possible(w, Do(clock))
    ensures var file, size := FileOf(w.records), |FileOf(w.records[..w.pending.pre])|;
            var part := if 0 < size < |file| then file[..size] else file;
            ApplyAll(NO_DATA, Parser.Parse(part, Parser.INIT), clock) == Reloaded(LoadedPart(w), clock)
  {
    var pre := w.pending.pre;
    var file, size := FileOf(w.records), |FileOf(w.records[..pre])|;
    FileParts(w.records, pre);
    if size == |file| {
      assert file[..size] == file;
    }
  }

  /** FinishRewrite leaves the file of the next records. */
  lemma FinishFollows(w: World, databases: nat)
    requires Possible(w, Finish)
    ensures var size := |FileOf(w.records[..w.pending.pre])|;
            && size <= |FileOf(w.records)|
            && FileOf(Next(w, Finish, databases).records)
            == FileOf(w.pending.dump) + FileOf([Select(0)]) + FileOf(w.records)[size..] + FileOf([Select(0)])
  {
    var dump, rest := w.pending.dump, w.records[w.pending.pre..];
    FileParts(w.records, w.pending.pre);
    FileAppend(dump, [Select(0)]);
    FileAppend(dump + [Select(0)], rest);
    FileAppend(dump + [Select(0)] + rest, [Select(0)]);
  }

  /** The methods of the handler take one file to the next, byte for byte, as the steps say. */
  method RewriteOnce(h: Handler, w: World, before: seq<Commands.Line>, during: seq<Commands.Line>, databases: nat, clock: int)
    returns (ghost end: World)
    requires w.pending.Idle? && h.aofFile == FileOf(w.records) && h.currentDB == 0
    modifies h
    ensures h.currentDB == 0 && h.aofFile == FileOf(end.records)
    ensures Possible(w, Start)
    ensures var started := AppendAll(Next(w, Start, databases), before);
            && Possible(started, Do(clock))
            && var dumped := AppendAll(Next(started, Do(clock), databases), during);
               Possible(dumped, Finish) && end == Next(dumped, Finish, databases)
  {
    var ctx := h.StartRewrite();
    ghost var started := AppendAll(Next(w, Start, databases), before);
    Appends(h, before, w);
    assert started.records == w.records + AsRecords(before);
    assert started.records[..|w.records|] == w.records;
    DoFollows(started, clock);
    ctx := h.DoRewrite(ctx, databases, clock);
    ghost var next := Next(started, Do(clock), databases);
    assert ctx.tmpFile == FileOf(next.pending.dump);
    Appends(h, during, started);
    ghost var dumped := AppendAll(next, during);
    assert dumped.records[..|w.records|] == w.records;
    FinishFollows(dumped, databases);
    h.FinishRewrite(ctx);
    end := Next(dumped, Finish, databases);
  }

  function AsRecords(lines: seq<Commands.Line>): (r: seq<Record>)
    ensures |r| == |lines| && forall i :: 0 <= i < |lines| ==> r[i] == Command(lines[i])
  {
    seq(|lines|, i requires 0 <= i < |lines| => Command(lines[i]))
  }

  function AppendAll(w: World, lines: seq<Commands.Line>): World {
    w.(records := w.records + AsRecords(lines), history := w.history + lines)
  }

  lemma OneMoreRecord(lines: seq<Commands.Line>, i: nat)
    requires i < |lines|
    ensures AsRecords(lines[..i + 1]) == AsRecords(lines[..i]) + [Command(lines[i])]
  {
  }

  method Appends(h: Handler, lines: seq<Commands.Line>, ghost w: World)
    requires h.aofFile == FileOf(w.records) && h.currentDB == 0
    modifies h
    ensures h.aofFile == FileOf(AppendAll(w, lines).records) && h.currentDB == 0
  {
    NothingMore(w.records);
    assert AsRecords(lines[..0]) == [];
    for i := 0 to |lines|
      invariant h.aofFile == FileOf(w.records + AsRecords(lines[..i])) && h.currentDB == 0
    {
      OneMoreRecord(lines, i);
      Regroup(w.records, AsRecords(lines[..i]), [Command(lines[i])]);
      FileAppend(w.records + AsRecords(lines[..i]), [Command(lines[i])]);
      h.HandleAof(0, lines[i]);
    }
    assert lines[..|lines|] == lines;
  }

  /* ---- the file keeps replaying to the live database ---- */

  lemma ReplayedAppend(a: seq<Record>, b: seq<Record>, clock: int)
    ensures Replayed(a + b, clock) == ExecAll(Replayed(a, clock), Lines(b), clock)
  {
    LinesAppend(a, b);
    ExecAllAppend(NO_DATA, Lines(a), Lines(b), clock);
  }

  /** The SELECT lines that FinishRewrite writes do nothing. */
  lemma MarksDoNothing(dump: seq<Record>, rest: seq<Record>, clock: int)
    ensures Replayed(dump + [Select(0)] + rest + [Select(0)], clock) == ExecAll(Replayed(dump, clock), Lines(rest), clock)
  {
    var mark := [Select(0)];
    assert Lines(mark) == Lines(mark[1..]) == [];
    ReplayedAppend(dump, mark, clock);
    ReplayedAppend(dump + mark, rest, clock);
    ReplayedAppend(dump + mark + rest, mark, clock);
  }

  lemma FinishReplays(w: World, databases: nat, clock: int)
    requires Possible(w, Finish)
    ensures Replayed(Next(w, Finish, databases).records, clock)
         == ExecAll(Replayed(w.pending.dump, clock), Lines(w.records[w.pending.pre..]), clock)
  {
    MarksDoNothing(w.pending.dump, w.records[w.pending.pre..], clock);
  }

  /** The file beside the database that lives: what it has executed, and how much of that when a rewrite started. */
  datatype Live = Live(file: World, steps: seq<Step>, before: nat)

  const NEW_LIVE := Live(EMPTY_FILE, [], 0)

  datatype LiveEvent = Execute(step: Step) | StartRewrite | DoRewrite(clock: int) | FinishRewrite

  function Database(steps: seq<Step>): Db {
    RunDb(NO_DATA, steps)
  }

  /**
   * What a caller can check before DoRewrite: there is a database to load into, nothing was appended to a file that
   * was empty when the rewrite started, no record to be loaded has an argument that the parser takes for a length, and
   * what had been executed then is replayable now and can be dumped.
   */
  ghost predicate CanRewrite(l: Live, databases: nat, clock: int)
    requires l.file.pending.Started? && l.file.pending.pre <= |l.file.records| && l.before <= |l.steps|
  {
    && databases > 0 && AllWritable(LoadedPart(l.file)) && (l.file.pending.pre == 0 ==> l.file.records == [])
    && Replayable(NO_DATA, l.steps[..l.before], clock) && AllDumpable(Database(l.steps[..l.before]))
  }

  ghost predicate LivePossible(l: Live, e: LiveEvent, databases: nat) {
    match e
    case Execute(_) => true
    case StartRewrite => l.file.pending.Idle?
    case DoRewrite(clock) => Possible(l.file, Do(clock)) && l.before <= |l.steps| && CanRewrite(l, databases, clock)
    case FinishRewrite => Possible(l.file, Finish)
  }

  /** A step appends what its command logs. */
  ghost function LiveNext(l: Live, e: LiveEvent, databases: nat): Live
    requires LivePossible(l, e, databases)
  {
    match e
    case Execute(step) =>
      Live(AppendAll(l.file, Exec(Database(l.steps), step.line, step.now).log), l.steps + [step], l.before)
    case StartRewrite => Live(Next(l.file, Start, databases), l.steps, |l.steps|)
    case DoRewrite(clock) => l.(file := Next(l.file, Do(clock), databases))
    case FinishRewrite => l.(file := Next(l.file, Finish, databases))
  }

  /** At every clock at which the steps can be replayed, the records rebuild the database of the steps. */
  ghost predicate Rebuilds(records: seq<Record>, steps: seq<Step>) {
    forall clock :: Replayable(NO_DATA, steps, clock) ==> Replayed(records, clock) == Database(steps)
  }

  /** The records after the first `pre` are the log of the steps after the first `before`. */
  ghost predicate Since(records: seq<Record>, pre: nat, steps: seq<Step>, before: nat) {
    && pre <= |records| && before <= |steps|
    && records[pre..] == AsRecords(RunLog(Database(steps[..before]), steps[before..]))
    && Rebuilds(records[..pre], steps[..before])
  }

  ghost predicate DumpIs(dump: seq<Record>, db: Db) {
    forall clock :: Replayed(dump, clock) == db
  }

  ghost predicate Inv(l: Live) {
    && Rebuilds(l.file.records, l.steps)
    && (!l.file.pending.Idle? ==> Since(l.file.records, l.file.pending.pre, l.steps, l.before))
    && (l.file.pending.Dumped? ==> DumpIs(l.file.pending.dump, Database(l.steps[..l.before])))
  }

  lemma {:induction false} ReplayableParts(db: Db, a: seq<Step>, b: seq<Step>, clock: int)
    requires SoundDb(db) && Replayable(db, a + b, clock)
    ensures Replayable(db, a, clock) && Replayable(RunDb(db, a), b, clock) && SoundDb(RunDb(db, a))
    decreases |a|
  {
    if |a| == 0 {
      assert a + b == b;
    } else {
      assert (a + b)[1..] == a[1..] + b && (a + b)[0] == a[0];
      ExecSound(db, a[0].line, a[0].now);
      ReplayableParts(Exec(db, a[0].line, a[0].now).db, a[1..], b, clock);
    }
  }

  lemma {:induction false} RunAppend(db: Db, a: seq<Step>, b: seq<Step>)
    ensures RunDb(db, a + b) == RunDb(RunDb(db, a), b)
    ensures RunLog(db, a + b) == RunLog(db, a) + RunLog(RunDb(db, a), b)
    decreases |a|
  {
    if |a| == 0 {
      assert a + b == b;
    } else {
      assert (a + b)[1..] == a[1..] + b && (a + b)[0] == a[0];
      var r := Exec(db, a[0].line, a[0].now);
      RunAppend(r.db, a[1..], b);
      Regroup(r.log, RunLog(r.db, a[1..]), RunLog(RunDb(r.db, a[1..]), b));
    }
  }

  /** Records that rebuild the first steps, with the log of the others behind them, rebuild them all. */
  lemma LogBehind(base: seq<Record>, a: seq<Step>, b: seq<Step>, clock: int)
    requires Replayable(NO_DATA, a + b, clock) && Replayed(base, clock) == Database(a)
    ensures Replayed(base + AsRecords(RunLog(Database(a), b)), clock) == Database(a + b)
  {
    ReplayableParts(NO_DATA, a, b, clock);
    RunAppend(NO_DATA, a, b);
    ReplayRebuilds(Database(a), b, clock);
    LinesOfCommands(RunLog(Database(a), b));
    ReplayedAppend(base, AsRecords(RunLog(Database(a), b)), clock);
  }

  lemma OneStepLog(db: Db, step: Step)
    ensures RunLog(db, [step]) == Exec(db, step.line, step.now).log
  {
    var r := Exec(db, step.line, step.now);
    assert [step][1..] == [];
    assert RunLog(r.db, []) == [];
    NothingMore(r.log);
  }

  lemma AsRecordsAppend(a: seq<Commands.Line>, b: seq<Commands.Line>)
    ensures AsRecords(a + b) == AsRecords(a) + AsRecords(b)
  {
  }

  lemma ExecuteRebuilds(records: seq<Record>, steps: seq<Step>, step: Step)
    requires Rebuilds(records, steps)
    ensures Rebuilds(records + AsRecords(Exec(Database(steps), step.line, step.now).log), steps + [step])
  {
    OneStepLog(Database(steps), step);
    forall clock | Replayable(NO_DATA, steps + [step], clock)
      ensures Replayed(records + AsRecords(Exec(Database(steps), step.line, step.now).log), clock) == Database(steps + [step])
    {
      ReplayableParts(NO_DATA, steps, [step], clock);
      LogBehind(records, steps, [step], clock);
    }
  }

  lemma ExecuteSince(records: seq<Record>, pre: nat, steps: seq<Step>, before: nat, step: Step)
    requires Since(records, pre, steps, before)
    ensures Since(records + AsRecords(Exec(Database(steps), step.line, step.now).log), pre, steps + [step], before)
  {
    var log := Exec(Database(steps), step.line, step.now).log;
    var first, rest := steps[..before], steps[before..];
    MoreBehind(steps, [step], before);
    MoreBehind(records, AsRecords(log), pre);
    LaterLog(first, rest, step);
    assert first + rest == steps;
  }

  lemma MoreBehind<T>(s: seq<T>, more: seq<T>, n: nat)
    requires n <= |s|
    ensures (s + more)[..n] == s[..n] && (s + more)[n..] == s[n..] + more
  {
  }

  lemma LaterLog(first: seq<Step>, rest: seq<Step>, step: Step)
    ensures AsRecords(RunLog(Database(first), rest + [step]))
         == AsRecords(RunLog(Database(first), rest)) + AsRecords(Exec(Database(first + rest), step.line, step.now).log)
  {
    RunAppend(NO_DATA, first, rest);
    RunAppend(Database(first), rest, [step]);
    OneStepLog(Database(first + rest), step);
    AsRecordsAppend(RunLog(Database(first), rest), Exec(Database(first + rest), step.line, step.now).log);
  }

  lemma ExecuteKeepsInv(l: Live, step: Step, databases: nat)
    requires Inv(l)
    ensures Inv(LiveNext(l, Execute(step), databases))
  {
    ExecuteRebuilds(l.file.records, l.steps, step);
    if !l.file.pending.Idle? {
      ExecuteSince(l.file.records, l.file.pending.pre, l.steps, l.before, step);
      assert (l.steps + [step])[..l.before] == l.steps[..l.before];
    }
  }

  lemma StartKeepsInv(l: Live, databases: nat)
    requires Inv(l) && l.file.pending.Idle?
    ensures Inv(LiveNext(l, StartRewrite, databases))
  {
    var records, steps := l.file.records, l.steps;
    WholeOf(records);
    WholeOf(steps);
    assert RunLog(Database(steps), []) == [] && AsRecords([]) == [];
  }

  lemma DoKeepsInv(l: Live, doClock: int, databases: nat)
    requires Inv(l) && LivePossible(l, DoRewrite(doClock), databases)
    ensures Inv(LiveNext(l, DoRewrite(doClock), databases))
  {
    var w, first := l.file, l.steps[..l.before];
    var loaded := Loaded(LoadedPart(w), databases, doClock);
    FileLoads(NO_DATA, LoadedPart(w), doClock);
    assert LoadedPart(w) == w.records[..w.pending.pre];
    assert first + [] == first;
    ReplayableParts(NO_DATA, first, [], doClock);
    var dump := LiveNext(l, DoRewrite(doClock), databases).file.pending.dump;
    forall clock ensures Replayed(dump, clock) == loaded {
      DumpRebuilds(databases, loaded, clock);
    }
  }

  lemma FinishKeepsInv(l: Live, databases: nat)
    requires Inv(l) && LivePossible(l, FinishRewrite, databases)
    ensures Inv(LiveNext(l, FinishRewrite, databases))
  {
    var w, first, rest := l.file, l.steps[..l.before], l.steps[l.before..];
    assert first + rest == l.steps;
    forall clock | Replayable(NO_DATA, l.steps, clock)
      ensures Replayed(Next(w, Finish, databases).records, clock) == Database(l.steps)
    {
      FinishReplays(w, databases, clock);
      LogBehind(w.pending.dump, first, rest, clock);
      ReplayedAppend(w.pending.dump, w.records[w.pending.pre..], clock);
    }
  }

  ghost predicate Run(l: Live, events: seq<LiveEvent>, databases: nat)
    decreases |events|
  {
    |events| == 0 || (LivePossible(l, events[0], databases) && Run(LiveNext(l, events[0], databases), events[1..], databases))
  }

  ghost function End(l: Live, events: seq<LiveEvent>, databases: nat): Live
    requires Run(l, events, databases)
    decreases |events|
  {
    if |events| == 0 then l else End(LiveNext(l, events[0], databases), events[1..], databases)
  }

  lemma {:induction false} RunKeepsInv(l: Live, events: seq<LiveEvent>, databases: nat)
    requires Inv(l) && Run(l, events, databases)
    ensures Inv(End(l, events, databases))
    decreases |events|
  {
    if |events| > 0 {
      match events[0] {
        case Execute(step) => ExecuteKeepsInv(l, step, databases);
        case StartRewrite => StartKeepsInv(l, databases);
        case DoRewrite(clock) => DoKeepsInv(l, clock, databases);
        case FinishRewrite => FinishKeepsInv(l, databases);
      }
      RunKeepsInv(LiveNext(l, events[0], databases), events[1..], databases);
    }
  }

  /**
   * Commands are executed and logged, and rewrites start, load, dump and finish among them, in any order. Whenever
   * the steps can be replayed, loading the file gives exactly the live database.
   */
  lemma RewriteIsTransparent(events: seq<LiveEvent>, databases: nat, clock: int)
    requires Run(NEW_LIVE, events, databases) && AllWritable(End(NEW_LIVE, events, databases).file.records)
    requires Replayable(NO_DATA, End(NEW_LIVE, events, databases).steps, clock)
    ensures var end := End(NEW_LIVE, events, databases);
            Reloaded(end.file.records, clock) == Database(end.steps)
  {
    var end := End(NEW_LIVE, events, databases);
    NothingYet();
    RunKeepsInv(NEW_LIVE, events, databases);
    FileLoads(NO_DATA, end.file.records, clock);
  }

  lemma NothingYet()
    ensures Inv(NEW_LIVE)
  {
    forall clock ensures Replayed([], clock) == NO_DATA {
      assert Lines([]) == [];
    }
  }

  lemma WholeOf<T>(s: seq<T>)
    ensures s[..|s|] == s && s[|s|..] == []
  {
  }

  lemma {:induction false} LinesOfCommands(lines: seq<Commands.Line>)
    ensures Lines(AsRecords(lines)) == lines
  {
    if |lines| > 0 {
      assert AsRecords(lines)[1..] == AsRecords(lines[1..]);
      LinesOfCommands(lines[1..]);
    }
  }
}
