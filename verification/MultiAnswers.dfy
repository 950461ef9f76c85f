/** What EXEC answers: the replies of the queued commands, in their order; and when it answers anything else. */
module MultiAnswers {
  import opened Strconv
  import opened Commands
  import opened Slots
  import opened Engine
  import opened Undo
  import opened RollbackCases
  import opened Multi
  import opened Footprint
  import opened History
  import opened Transactions
  import opened Watch

  /** Every command finds its keys alive, no list has to be written down, and every command succeeds. */
  ghost predicate GoesThrough(db: Db, lines: seq<Line>, now: int)
    requires AllFit(lines)
    decreases |lines|
  {
    |lines| > 0 ==>
      && !ListAmong(db, DumpedKeys(lines[0])) && Succeeded(Exec(db, lines[0], now).answer)
      && GoesThrough(Exec(db, lines[0], now).db, lines[1..], now)
  }

  lemma {:induction false} ForwardAnswers(db: Db, lines: seq<Line>, now: int)
    requires AllFit(lines) && AliveAlong(db, lines, now)
    ensures var stage := Forward(db, lines, now);
            && (stage.ending.Through? <==> GoesThrough(db, lines, now))
            && (stage.ending.Through? ==> stage.db == ExecAll(db, lines, now) && stage.answers == AnswersOf(db, lines, now))
    decreases |lines|
  {
    if |lines| > 0 {
      UndoLogExists(db, lines[0], now);
      var r := Exec(db, lines[0], now);
      if UndoLog(db, lines[0], now).1.Some? && Succeeded(r.answer) { ForwardAnswers(r.db, lines[1..], now); }
    }
  }

  /** EXEC on living keys commits exactly when every command goes through, and then answers with all their replies. */
  lemma CommittedAnswers(db: Db, lines: seq<Line>, now: int)
    requires AllFit(lines) && AliveAlong(db, lines, now)
    ensures var m := RunMulti(db, lines, now);
            && (m.verdict.Committed? <==> GoesThrough(db, lines, now))
            && (m.verdict.Committed? ==>
                  && m.db == ExecAll(db, lines, now) && |m.verdict.answers| == |lines|
                  && forall i :: 0 <= i < |lines| ==>
                       m.verdict.answers[i] == Exec(ExecAll(db, lines[..i], now), lines[i], now).answer)
  {
    ForwardAnswers(db, lines, now);
    forall i | 0 <= i < |lines|
      ensures |AnswersOf(db, lines, now)| == |lines|
      ensures AnswersOf(db, lines, now)[i] == Exec(ExecAll(db, lines[..i], now), lines[i], now).answer
    {
      AnswerAt(db, lines, now, i);
    }
  }

  /** The connection after it has sent these lines one by one. */
  function SendAll(shared: Shared, conn: Conn, lines: seq<Line>, now: int): (c: Conn)
    requires AllFit(conn.queue) && AllFit(lines)
    ensures AllFit(c.queue)
    decreases |lines|
  {
    if |lines| == 0 then conn else SendAll(shared, Sent(shared, conn, lines[0], now), lines[1..], now)
  }

  function Sent(shared: Shared, conn: Conn, line: Line, now: int): (c: Conn)
    requires AllFit(conn.queue) && ArityFits(line)
    ensures AllFit(c.queue)
  {
    Handle(shared, conn, CommandReq(line), now).conn
  }

  lemma {:induction false} SendQueues(shared: Shared, conn: Conn, lines: seq<Line>, now: int)
    requires AllFit(conn.queue) && AllFit(lines) && conn.multiState
    ensures SendAll(shared, conn, lines, now) == conn.(queue := conn.queue + lines)
    decreases |lines|
  {
    if |lines| == 0 {
      NothingMore(conn.queue);
    } else {
      SendQueues(shared, Sent(shared, conn, lines[0], now), lines[1..], now);
      Regroup(conn.queue, [lines[0]], lines[1..]);
      assert [lines[0]] + lines[1..] == lines;
    }
  }

  /**
   * MULTI, some commands, and EXEC, on a connection without errors whose watched keys have not changed: the commands
   * take effect one after the other at EXEC, and its reply holds their replies, one for each, in order. The connection
   * is then out of the transaction, with an empty queue and nothing watched.
   */
  lemma SessionAnswers(shared: Shared, conn: Conn, lines: seq<Line>, now: int)
    requires !conn.multiState && conn.queue == [] && conn.txErrors == 0 && !WatchingChanged(shared.versions, conn.watching)
    requires AllFit(lines) && AliveAlong(shared.db, lines, now) && GoesThrough(shared.db, lines, now)
    ensures var multi := Handle(shared, conn, MultiReq(0), now).conn;
            var e := Handle(shared, SendAll(shared, multi, lines, now), ExecReq(0), now);
            && e.notice == Normal(Results(AnswersOf(shared.db, lines, now)))
            && e.shared.db == ExecAll(shared.db, lines, now)
            && e.conn == conn.(watching := map[])
  {
    var multi := Handle(shared, conn, MultiReq(0), now).conn;
    SendQueues(shared, multi, lines, now);
    assert [] + lines == lines;
    ForwardAnswers(shared.db, lines, now);
  }

  /** Some command fails on living keys after all before it have gone through. */
  ghost predicate Stops(db: Db, lines: seq<Line>, now: int)
    requires AllFit(lines)
    decreases |lines|
  {
    |lines| > 0 && !ListAmong(db, DumpedKeys(lines[0])) &&
    var r := Exec(db, lines[0], now);
    r.answer.Failed? || (Succeeded(r.answer) && Stops(r.db, lines[1..], now))
  }

  lemma {:induction false} ForwardStops(db: Db, lines: seq<Line>, now: int)
    requires AllFit(lines) && AliveAlong(db, lines, now)
    ensures Forward(db, lines, now).ending.Stopped? <==> Stops(db, lines, now)
    decreases |lines|
  {
    if |lines| > 0 {
      UndoLogExists(db, lines[0], now);
      var r := Exec(db, lines[0], now);
      if UndoLog(db, lines[0], now).1.Some? && Succeeded(r.answer) { ForwardStops(r.db, lines[1..], now); }
    }
  }

  /**
   * The answer of EXEC with a queue on living keys, without errors, and with nothing watched changed: the replies when
   * all go through, a refusal when a command fails, and an unknown error in the rest, which is a panic. In every case
   * the transaction is over.
   */
  lemma ExecAnswers(shared: Shared, conn: Conn, now: int)
    requires conn.multiState && conn.txErrors == 0 && !WatchingChanged(shared.versions, conn.watching)
    requires AllFit(conn.queue) && AliveAlong(shared.db, conn.queue, now)
    ensures var e := Handle(shared, conn, ExecReq(0), now);
            && e.notice == Normal(if GoesThrough(shared.db, conn.queue, now) then Results(AnswersOf(shared.db, conn.queue, now))
                                  else if Stops(shared.db, conn.queue, now) then ExecAbort else Unknown)
            && e.conn == Conn(false, [], map[], 0)
  {
    ForwardAnswers(shared.db, conn.queue, now);
    ForwardStops(shared.db, conn.queue, now);
  }

  /** DISCARD instead of EXEC: no command has had an effect, and nothing is watched any more. */
  lemma DiscardForgets(shared: Shared, conn: Conn, lines: seq<Line>, now: int)
    requires !conn.multiState && conn.queue == [] && AllFit(lines)
    ensures var multi := Handle(shared, conn, MultiReq(0), now).conn;
            var e := Handle(shared, SendAll(shared, multi, lines, now), DiscardReq(0), now);
            e == Effect(shared, conn.(watching := map[]), OkNotice, [], [])
  {
    SendQueues(shared, Handle(shared, conn, MultiReq(0), now).conn, lines, now);
  }

  /** A line that cannot be queued makes the EXEC after it refuse, whatever else is queued. */
  lemma BadLineRefuses(shared: Shared, conn: Conn, bad: Request, lines: seq<Line>, now: int)
    requires conn.multiState && AllFit(conn.queue) && AllFit(lines)
    requires bad.UnknownReq? || (bad.CommandReq? && !ArityFits(bad.line))
    ensures var after := SendAll(shared, Handle(shared, conn, bad, now).conn, lines, now);
            var e := Handle(shared, after, ExecReq(0), now);
            e.notice == Normal(ExecAbort) && e.shared == shared
  {
    SendQueues(shared, Handle(shared, conn, bad, now).conn, lines, now);
  }

  /** A GET, HGET or EXISTS by anybody changes no version, so that no EXEC of another connection is refused for it. */
  lemma ReadersSpareWatches(shared: Shared, conn: Conn, line: Line, now: int)
    requires AllFit(conn.queue) && line.op in {Get, HGet, Exists}
    ensures Handle(shared, conn, CommandReq(line), now).shared.versions == shared.versions
  {
    if ArityFits(line) { NamesNothing(line); }
  }

  lemma NamesNothing(line: Line)
    requires line.op in {Get, HGet, Exists} && ArityFits(line)
    ensures Prepare(line).write == []
  {
  }

  /** Sent from any other state of the connection, EXEC changes no value and says why. */
  lemma OtherExecs(shared: Shared, conn: Conn, now: int)
    requires AllFit(conn.queue)
    ensures var e := Handle(shared, conn, ExecReq(0), now);
            && (!conn.multiState ==> e.notice == WithoutMulti && e.shared == shared && e.conn == conn)
            && (conn.multiState && conn.txErrors > 0 ==>
                  e.notice == Normal(ExecAbort) && e.shared == shared && e.conn == Conn(false, [], map[], conn.txErrors))
            && (conn.multiState && conn.txErrors == 0 && WatchingChanged(shared.versions, conn.watching) ==>
                  e.notice == Normal(WatchFailed) && e.shared == shared && e.conn == Conn(false, [], map[], 0))
  {
  }
}
