/** Which writes a passing EXEC has not noticed: all watched keys and all writes together. */
module WatchHistory {
  import opened Strconv
  import opened Commands
  import opened Slots
  import opened Engine
  import opened Transactions
  import opened Watch

  /** Position p of the history belongs to these names. */
  predicate Spans(names: seq<Bytes>, at: nat, p: nat) {
    at <= p < at + |names|
  }

  predicate InDone(s: Server, p: nat, j: nat) {
    j < |s.done| && Spans(s.done[j].names, s.done[j].at, p)
  }

  predicate IsRunning(s: Server, c: nat) {
    c < |s.running| && s.running[c].Some? && ArityFits(s.running[c].value.line)
  }

  function RunningNames(s: Server, c: nat): seq<Bytes>
    requires IsRunning(s, c)
  {
    Prepare(s.running[c].value.line).write
  }

  predicate InRunning(s: Server, p: nat, c: nat) {
    IsRunning(s, c) && Spans(RunningNames(s, c), s.running[c].value.at, p)
  }

  ghost predicate Held(s: Server, p: nat) {
    (exists j: nat :: InDone(s, p, j)) || (exists c: nat :: InRunning(s, p, c))
  }

  /** Every counted name is one of a write that has been executed or is going to be. */
  ghost predicate Accounted(s: Server) {
    forall p :: 0 <= p < |s.writes| ==> Held(s, p)
  }

  predicate DoneFirst(s: Server, i: nat, k: Bytes, j: nat)
    requires i < |s.marks| && k in s.marks[i] && j < |s.done|
  {
    s.done[j].at + |s.done[j].names| <= s.marks[i][k]
  }

  /** What had been executed at a watch had been counted then. */
  ghost predicate CountedFirst(s: Server) {
    forall i, k, j | 0 <= i < |s.marks| && i < |s.doneMarks| && k in s.marks[i] && k in s.doneMarks[i]
      && 0 <= j < s.doneMarks[i][k] && j < |s.done| :: DoneFirst(s, i, k, j)
  }

  ghost predicate Whole(s: Server) {
    Inv(s) && Accounted(s) && CountedFirst(s)
  }

  lemma StartIsWhole(n: nat)
    ensures Whole(Start(n))
  {
    StartSatisfiesInv(n);
  }

  lemma AskAccounts(s: Server, i: nat, req: Request, now: int)
    requires Whole(s) && Enabled(s, Ask(i, req, now))
    ensures Accounted(Next(s, Ask(i, req, now)))
  {
    var e, t := Handle(s.shared, s.conns[i], req, now), Next(s, Ask(i, req, now));
    forall p | 0 <= p < |t.writes| ensures Held(t, p) {
      if p < |s.writes| {
        assert Held(s, p);
        if j: nat :| InDone(s, p, j) { assert InDone(t, p, j); }
        else if c: nat :| InRunning(s, p, c) { assert InRunning(t, p, c); }
      } else {
        assert InDone(t, p, |s.done|);
      }
    }
  }

  lemma CountAccounts(s: Server, i: nat, line: Line)
    requires Whole(s) && Enabled(s, CountKeys(i, line))
    ensures Accounted(Next(s, CountKeys(i, line)))
  {
    var t := Next(s, CountKeys(i, line));
    forall p | 0 <= p < |t.writes| ensures Held(t, p) {
      if p < |s.writes| {
        assert Held(s, p);
        if j: nat :| InDone(s, p, j) { assert InDone(t, p, j); }
        else if c: nat :| InRunning(s, p, c) { assert InRunning(t, p, c); }
      } else {
        assert InRunning(t, p, i);
      }
    }
  }

  lemma ExecuteAccounts(s: Server, i: nat, now: int)
    requires Whole(s) && Enabled(s, Execute(i, now))
    ensures Accounted(Next(s, Execute(i, now)))
  {
    var t := Next(s, Execute(i, now));
    forall p | 0 <= p < |t.writes| ensures Held(t, p) {
      assert Held(s, p);
      if j: nat :| InDone(s, p, j) { assert InDone(t, p, j); }
      else if c: nat :| InRunning(s, p, c) {
        if c == i { assert InDone(t, p, |s.done|); } else { assert InRunning(t, p, c); }
      }
    }
  }

  lemma AskCountsFirst(s: Server, i: nat, req: Request, now: int)
    requires Whole(s) && Enabled(s, Ask(i, req, now))
    ensures CountedFirst(Next(s, Ask(i, req, now)))
  {
    var e, t := Handle(s.shared, s.conns[i], req, now), Next(s, Ask(i, req, now));
    OwnMarks(s, i, req, now);
    forall c, k, j | 0 <= c < |t.marks| && c < |t.doneMarks| && k in t.marks[c] && k in t.doneMarks[c]
      && 0 <= j < t.doneMarks[c][k] && j < |t.done|
      ensures DoneFirst(t, c, k, j)
    {
      if c != i || (k in s.marks[i] && t.marks[i][k] == s.marks[i][k] && t.doneMarks[i][k] == s.doneMarks[i][k]) {
        DoneInRange(s, c, k);
        assert DoneFirst(s, c, k, j);
      } else {
        assert Placed(s.done[j].names, s.done[j].at, s.writes, s.marks);
      }
    }
  }

  lemma DoneInRange(s: Server, c: nat, k: Bytes)
    requires Inv(s) && c < |s.marks| && k in s.marks[c]
    ensures k in s.doneMarks[c] && s.doneMarks[c][k] <= |s.done|
  {
    assert DoneMarked(s.marks[c], s.doneMarks[c], s.done);
  }

  /** A connection keeps both of its marks for a key, or makes both anew. */
  lemma OwnMarks(s: Server, i: nat, req: Request, now: int)
    requires Whole(s) && Enabled(s, Ask(i, req, now))
    ensures var t := Next(s, Ask(i, req, now));
            forall k :: k in t.marks[i] ==>
              || (t.marks[i][k] == |s.writes| && (k in t.doneMarks[i] ==> t.doneMarks[i][k] <= |s.done|))
              || (k in s.marks[i] && t.marks[i][k] == s.marks[i][k] && (k in t.doneMarks[i] ==>
                    k in s.doneMarks[i] && t.doneMarks[i][k] == s.doneMarks[i][k]))
  {
    assert DoneMarked(s.marks[i], s.doneMarks[i], s.done);
    if req.WatchReq? {
      MarkAllMarks(s.marks[i], req.keys, |s.writes|);
      MarkAllMarks(s.doneMarks[i], req.keys, |s.done|);
    }
  }

  lemma CountCountsFirst(s: Server, i: nat, line: Line)
    requires Whole(s) && Enabled(s, CountKeys(i, line))
    ensures CountedFirst(Next(s, CountKeys(i, line)))
  {
    var t := Next(s, CountKeys(i, line));
    forall c, k, j | 0 <= c < |t.marks| && c < |t.doneMarks| && k in t.marks[c] && k in t.doneMarks[c]
      && 0 <= j < t.doneMarks[c][k] && j < |t.done|
      ensures DoneFirst(t, c, k, j)
    {
      assert DoneFirst(s, c, k, j);
    }
  }

  lemma ExecuteCountsFirst(s: Server, i: nat, now: int)
    requires Whole(s) && Enabled(s, Execute(i, now))
    ensures CountedFirst(Next(s, Execute(i, now)))
  {
    var t := Next(s, Execute(i, now));
    forall c, k, j | 0 <= c < |t.marks| && c < |t.doneMarks| && k in t.marks[c] && k in t.doneMarks[c]
      && 0 <= j < t.doneMarks[c][k] && j < |t.done|
      ensures DoneFirst(t, c, k, j)
    {
      DoneInRange(s, c, k);
      assert DoneFirst(s, c, k, j);
    }
  }

  lemma StepKeepsWhole(s: Server, e: Event)
    requires Whole(s) && Enabled(s, e)
    ensures Whole(Next(s, e))
  {
    match e {
      case Ask(i, req, now) => AskKeepsInv(s, i, req, now); AskAccounts(s, i, req, now); AskCountsFirst(s, i, req, now);
      case CountKeys(i, line) => CountKeepsInv(s, i, line); CountAccounts(s, i, line); CountCountsFirst(s, i, line);
      case Execute(i, now) => ExecuteKeepsInv(s, i, now); ExecuteAccounts(s, i, now); ExecuteCountsFirst(s, i, now);
    }
  }

  lemma {:induction false} RunKeepsWhole(s: Server, events: seq<Event>)
    requires Whole(s) && Run(s, events)
    ensures Whole(End(s, events))
    decreases |events|
  {
    if |events| > 0 {
      StepKeepsWhole(s, events[0]);
      RunKeepsWhole(Next(s, events[0]), events[1..]);
    }
  }

  /* ---- what EXEC has noticed ---- */

  /** A command that has been counted after the watch and not been executed. */
  predicate PendingSince(s: Server, i: nat, k: Bytes, c: nat)
    requires i < |s.marks| && k in s.marks[i]
  {
    IsRunning(s, c) && k in RunningNames(s, c) && s.running[c].value.at + |RunningNames(s, c)| > s.marks[i][k]
  }

  /** All writes of the key that were executed since the watch had been counted before it, and none is on its way. */
  ghost predicate AllBefore(s: Server, i: nat, k: Bytes)
    requires i < |s.marks| && k in s.marks[i]
  {
    && (forall j: nat :: ExecutedSince(s, i, k, j) ==> CountedBefore(s, i, k, j))
    && (forall c: nat :: !PendingSince(s, i, k, c))
  }

  lemma BeforeMeansUnnamed(s: Server, i: nat, k: Bytes)
    requires Whole(s) && i < |s.marks| && k in s.marks[i] && s.marks[i][k] <= |s.writes| && AllBefore(s, i, k)
    ensures k !in s.writes[s.marks[i][k]..]
  {
    var mark := s.marks[i][k];
    forall p: nat | mark <= p < |s.writes| ensures s.writes[p] != k {
      if s.writes[p] == k { NamedIsLate(s, i, k, p); }
    }
    NotSince(s.writes, mark, k);
  }

  /** A name behind the mark is one of a write that was executed since and not counted before, or of one on its way. */
  lemma NamedIsLate(s: Server, i: nat, k: Bytes, p: nat)
    requires Whole(s) && i < |s.marks| && k in s.marks[i] && s.marks[i][k] <= p < |s.writes| && s.writes[p] == k
    ensures !AllBefore(s, i, k)
  {
    assert Held(s, p);
    if j: nat :| InDone(s, p, j) {
      DoneIsLate(s, i, k, p, j);
    } else if c: nat :| InRunning(s, p, c) {
      RunningIsLate(s, i, k, p, c);
    }
  }

  lemma DoneIsLate(s: Server, i: nat, k: Bytes, p: nat, j: nat)
    requires Whole(s) && i < |s.marks| && k in s.marks[i] && s.marks[i][k] <= p < |s.writes| && s.writes[p] == k
    requires InDone(s, p, j)
    ensures ExecutedSince(s, i, k, j) && !CountedBefore(s, i, k, j)
  {
    DoneNames(s, p, j);
    DoneInRange(s, i, k);
    assert j < s.doneMarks[i][k] ==> DoneFirst(s, i, k, j);
  }

  lemma RunningIsLate(s: Server, i: nat, k: Bytes, p: nat, c: nat)
    requires Whole(s) && i < |s.marks| && k in s.marks[i] && s.marks[i][k] <= p < |s.writes| && s.writes[p] == k
    requires InRunning(s, p, c)
    ensures PendingSince(s, i, k, c)
  {
    RunningNamed(s, p, c);
  }

  lemma DoneNames(s: Server, p: nat, j: nat)
    requires Inv(s) && p < |s.writes| && InDone(s, p, j)
    ensures s.writes[p] in s.done[j].names
  {
    var e := s.done[j];
    assert Placed(e.names, e.at, s.writes, s.marks);
    assert s.writes[e.at..e.at + |e.names|][p - e.at] == s.writes[p];
  }

  lemma RunningNamed(s: Server, p: nat, c: nat)
    requires Inv(s) && p < |s.writes| && InRunning(s, p, c)
    ensures s.writes[p] in RunningNames(s, c)
  {
    var names, at := RunningNames(s, c), s.running[c].value.at;
    assert Placed(names, at, s.writes, s.marks);
    assert s.writes[at..at + |names|][p - at] == s.writes[p];
  }

  lemma UnnamedMeansBefore(s: Server, i: nat, k: Bytes)
    requires Whole(s) && i < |s.marks| && k in s.marks[i] && s.marks[i][k] <= |s.writes|
    requires k !in s.writes[s.marks[i][k]..]
    ensures AllBefore(s, i, k)
  {
    forall j: nat | ExecutedSince(s, i, k, j) ensures CountedBefore(s, i, k, j) {
      if !CountedBefore(s, i, k, j) { LateIsNamed(s, i, k, s.done[j].names, s.done[j].at); }
    }
    forall c: nat ensures !PendingSince(s, i, k, c) {
      if PendingSince(s, i, k, c) { LateIsNamed(s, i, k, RunningNames(s, c), s.running[c].value.at); }
    }
  }

  lemma LateIsNamed(s: Server, i: nat, k: Bytes, names: seq<Bytes>, at: nat)
    requires i < |s.marks| && k in s.marks[i] && k in names && Placed(names, at, s.writes, s.marks)
    requires at + |names| > s.marks[i][k]
    ensures k in s.writes[s.marks[i][k]..]
  {
    NamedSince(s.writes, s.marks[i][k], names, at, k);
  }

  /**
   * From a fresh server, over every run: short of a full circle, EXEC passes the watch check exactly when for every
   * watched key all writes executed since the watch had been counted before it, and none is counted and waiting.
   */
  lemma PassesIffAllBefore(n: nat, events: seq<Event>, i: nat, now: int)
    requires Run(Start(n), events)
    ensures var s := End(Start(n), events);
            Ready(s, i) && i < |s.marks| && Short(s, i) ==>
              (Passes(s, i, now) <==> forall k :: k in s.marks[i] ==> AllBefore(s, i, k))
  {
    StartIsWhole(n);
    RunKeepsWhole(Start(n), events);
    WatchIsExact(n, events, i, now);
    var s := End(Start(n), events);
    if Ready(s, i) && i < |s.marks| && Short(s, i) {
      forall k | k in s.marks[i] ensures k !in s.writes[s.marks[i][k]..] <==> AllBefore(s, i, k) {
        if k !in s.writes[s.marks[i][k]..] { UnnamedMeansBefore(s, i, k); }
        if AllBefore(s, i, k) { BeforeMeansUnnamed(s, i, k); }
      }
    }
  }
}
