/** Whole runs: commands and transactions at their own times, and the log that they leave. */
module History {
  import opened Strconv
  import opened Commands
  import opened Slots
  import opened Engine
  import opened Undo
  import opened Multi
  import opened Replay
  import opened Restart
  import opened RollbackCases

  /**
   * The keys of a command are alive when it runs. They are alive at the clock of the replay as well, or the command
   * does not need its key then; and every command is recorded.
   */
  ghost predicate Replayable(db: Db, steps: seq<Step>, clock: int)
    decreases |steps|
  {
    |steps| > 0 ==>
      var line, now := steps[0].line, steps[0].now;
      && (ArityFits(line) ==>
            && Recorded(db, line, now, clock) && !Orphans(db, line, now)
            && Alive(db, Keys(line), now) && (Alive(db, Keys(line), clock) || LateToo(db, line, now)))
      && Replayable(Exec(db, line, now).db, steps[1..], clock)
  }

  predicate LateToo(db: Db, line: Line, now: int)
    requires ArityFits(line)
  {
    OneKey(line.op) && Withstands(At(db, line.args[0]), line, now)
  }

  /** Replaying the log of a run gives the database of the run, values and deadlines. */
  lemma {:induction false} ReplayRebuilds(db: Db, steps: seq<Step>, clock: int)
    requires SoundDb(db) && Replayable(db, steps, clock)
    ensures ExecAll(db, RunLog(db, steps), clock) == RunDb(db, steps)
    decreases |steps|
  {
    if |steps| > 0 {
      var line, now := steps[0].line, steps[0].now;
      var r := Exec(db, line, now);
      if ArityFits(line) { StepReplays(db, line, now, clock); }
      assert Replays(db, line, now, clock);
      ExecSound(db, line, now);
      ReplayRebuilds(r.db, steps[1..], clock);
      ExecAllAppend(db, r.log, RunLog(r.db, steps[1..]), clock);
    }
  }

  lemma StepReplays(db: Db, line: Line, now: int, clock: int)
    requires ArityFits(line) && SoundDb(db) && Recorded(db, line, now, clock)
    requires Alive(db, Keys(line), now) && (Alive(db, Keys(line), clock) || LateToo(db, line, now))
    ensures Replays(db, line, now, clock)
  {
    if Alive(db, Keys(line), clock) { LogReplays(db, line, now, clock); } else { ReplaysAtClock(db, line, now, clock); }
  }

  /** From an empty database: the file alone rebuilds the state. */
  lemma ReplayFromEmpty(steps: seq<Step>, clock: int)
    requires Replayable(NO_DATA, steps, clock)
    ensures ExecAll(NO_DATA, RunLog(NO_DATA, steps), clock) == RunDb(NO_DATA, steps)
  {
    assert SoundDb(NO_DATA);
    ReplayRebuilds(NO_DATA, steps, clock);
  }

  /* ---- a transaction is a run ---- */

  /** The lines that the first loop executes: up to the first that does not succeed. */
  function Executed(db: Db, lines: seq<Line>, now: int): seq<Line>
    requires forall i :: 0 <= i < |lines| ==> ArityFits(lines[i])
    decreases |lines|
  {
    if |lines| == 0 || UndoLog(db, lines[0], now).1.None? then []
    else
      var r := Exec(db, lines[0], now);
      if Succeeded(r.answer) then [lines[0]] + Executed(r.db, lines[1..], now) else [lines[0]]
  }

  function Backwards(undos: seq<seq<Line>>): seq<Line>
    decreases |undos|
  {
    if |undos| == 0 then [] else undos[|undos| - 1] + Backwards(undos[..|undos| - 1])
  }

  /** All that EXEC executes. */
  function Trace(db: Db, lines: seq<Line>, now: int): seq<Line>
    requires forall i :: 0 <= i < |lines| ==> ArityFits(lines[i])
  {
    var stage := Forward(db, lines, now);
    Executed(db, lines, now) + if stage.ending.Stopped? then Backwards(stage.undos) else []
  }

  ghost predicate AliveAlong(db: Db, lines: seq<Line>, now: int)
    decreases |lines|
  {
    |lines| > 0 ==> Alive(db, Keys(lines[0]), now) && AliveAlong(Exec(db, lines[0], now).db, lines[1..], now)
  }

  lemma {:induction false} ForwardIsExecuted(db: Db, lines: seq<Line>, now: int)
    requires (forall i :: 0 <= i < |lines| ==> ArityFits(lines[i])) && AliveAlong(db, lines, now)
    ensures var stage, trace := Forward(db, lines, now), Executed(db, lines, now);
            stage.db == ExecAll(db, trace, now) && stage.log == LogOf(db, trace, now)
    decreases |lines|
  {
    if |lines| > 0 && UndoLog(db, lines[0], now).1.Some? {
      UndoLogExists(db, lines[0], now);
      var r := Exec(db, lines[0], now);
      if Succeeded(r.answer) {
        ForwardIsExecuted(r.db, lines[1..], now);
        assert Executed(db, lines, now)[1..] == Executed(r.db, lines[1..], now);
      } else {
        assert [lines[0]][1..] == [];
        assert ExecAll(r.db, [], now) == r.db && LogOf(r.db, [], now) == [];
      }
    } else if |lines| > 0 {
      UndoLogLooks(db, lines[0], now);
    }
  }

  lemma UndoLogLooks(db: Db, line: Line, now: int)
    requires ArityFits(line) && Alive(db, Keys(line), now)
    ensures UndoLog(db, line, now).0 == db
  {
    AliveArgs(db, line, now, 0);
    DumpedDeclared(line);
    UndoKeysLog(db, DumpedKeys(line), now);
  }

  lemma {:induction false} LogOfAppend(db: Db, first: seq<Line>, second: seq<Line>, now: int)
    ensures LogOf(db, first + second, now) == LogOf(db, first, now) + LogOf(ExecAll(db, first, now), second, now)
    decreases |first|
  {
    if |first| == 0 {
      assert first + second == second;
    } else {
      assert (first + second)[1..] == first[1..] + second;
      LogOfAppend(Exec(db, first[0], now).db, first[1..], second, now);
    }
  }

  lemma {:induction false} UndoAllIsBackwards(db: Db, undos: seq<seq<Line>>, now: int)
    ensures UndoAll(db, undos, now) == ExecAll(db, Backwards(undos), now)
    ensures UndoAllLog(db, undos, now) == LogOf(db, Backwards(undos), now)
    decreases |undos|
  {
    if |undos| > 0 {
      var last, others := undos[|undos| - 1], undos[..|undos| - 1];
      UndoAllIsBackwards(ExecAll(db, last, now), others, now);
      ExecAllAppend(db, last, Backwards(others), now);
      LogOfAppend(db, last, Backwards(others), now);
    }
  }

  /** EXEC does and logs what its commands do and log, undo commands included. */
  lemma MultiIsTrace(db: Db, lines: seq<Line>, now: int)
    requires (forall i :: 0 <= i < |lines| ==> ArityFits(lines[i])) && AliveAlong(db, lines, now)
    ensures var r, trace := RunMulti(db, lines, now), Trace(db, lines, now);
            r.db == ExecAll(db, trace, now) && r.log == LogOf(db, trace, now)
  {
    var stage, first := Forward(db, lines, now), Executed(db, lines, now);
    ForwardIsExecuted(db, lines, now);
    UndoAllIsBackwards(stage.db, stage.undos, now);
    ExecAllAppend(db, first, Backwards(stage.undos), now);
    LogOfAppend(db, first, Backwards(stage.undos), now);
    assert first + [] == first;
  }

  /** The steps of lines at one time. */
  function StepsAt(lines: seq<Line>, now: int): (steps: seq<Step>)
    ensures |steps| == |lines|
  {
    seq(|lines|, i requires 0 <= i < |lines| => Step(lines[i], now))
  }

  lemma {:induction false} StepsAtRun(db: Db, lines: seq<Line>, now: int)
    ensures RunDb(db, StepsAt(lines, now)) == ExecAll(db, lines, now)
    ensures RunLog(db, StepsAt(lines, now)) == LogOf(db, lines, now)
    decreases |lines|
  {
    if |lines| > 0 {
      assert StepsAt(lines, now)[1..] == StepsAt(lines[1..], now);
      StepsAtRun(Exec(db, lines[0], now).db, lines[1..], now);
    }
  }

  /** The log of a transaction, aborted or not, replays to its result. */
  lemma MultiReplays(db: Db, lines: seq<Line>, now: int, clock: int)
    requires (forall i :: 0 <= i < |lines| ==> ArityFits(lines[i])) && AliveAlong(db, lines, now)
    requires SoundDb(db) && Replayable(db, StepsAt(Trace(db, lines, now), now), clock)
    ensures ExecAll(db, RunMulti(db, lines, now).log, clock) == RunMulti(db, lines, now).db
  {
    var trace := Trace(db, lines, now);
    MultiIsTrace(db, lines, now);
    StepsAtRun(db, trace, now);
    ReplayRebuilds(db, StepsAt(trace, now), clock);
  }
}
