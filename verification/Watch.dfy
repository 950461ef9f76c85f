/** Connections with MULTI, WATCH and EXEC: what the watch check guards, over every interleaving of connections. */
module Watch {
  import opened Strconv
  import opened Commands
  import opened Slots
  import opened Engine
  import opened Multi
  import opened Footprint
  import opened RollbackCases
  import opened History
  import opened Database
  import opened Transactions

  /** A request after the table lookup; `extra` counts arguments that a control command should not have. */
  datatype Request =
    | MultiReq(extra: nat) | DiscardReq(extra: nat) | ExecReq(extra: nat)
    | WatchReq(keys: seq<Bytes>) | CommandReq(line: Line) | UnknownReq

  datatype Conn = Conn(multiState: bool, queue: seq<Line>, watching: map<Bytes, nat>, txErrors: nat)

  const NEW_CONN := Conn(false, [], map[], 0)

  datatype Shared = Shared(db: Db, versions: map<Bytes, nat>)

  datatype Notice = OkNotice | NestedMulti | WithoutMulti | BadArity | UnknownName | Normal(reply: TxReply)

  /** What a request does; `named` are the keys whose versions it steps. */
  datatype Effect = Effect(shared: Shared, conn: Conn, notice: Notice, log: seq<Line>, named: seq<Bytes>)

  /** Leaving the transaction state forgets the queue and the watched keys, but not the errors. */
  function Reset(conn: Conn): Conn {
    conn.(multiState := false, queue := [], watching := map[])
  }

  /** `Watch`: the version of each key as it is now. */
  function WatchAll(watching: map<Bytes, nat>, versions: map<Bytes, nat>, keys: seq<Bytes>): map<Bytes, nat>
    decreases |keys|
  {
    if |keys| == 0 then watching else WatchAll(watching[keys[0] := Version(versions, keys[0])], versions, keys[1..])
  }

  /** `execMulti`. */
  function RunExec(shared: Shared, conn: Conn, now: int): Effect
    requires AllFit(conn.queue)
  {
    if !conn.multiState then Effect(shared, conn, WithoutMulti, [], [])
    else if conn.txErrors > 0 then Effect(shared, Reset(conn), Normal(ExecAbort), [], [])
    else if WatchingChanged(shared.versions, conn.watching) then Effect(shared, Reset(conn), Normal(WatchFailed), [], [])
    else
      var m := RunMulti(shared.db, conn.queue, now);
      var named := if m.verdict.Committed? then QueueWrites(conn.queue) else [];
      Effect(Shared(m.db, AddVersions(shared.versions, named)), Reset(conn), Normal(ReplyOf(m.verdict)), m.log, named)
  }

  /** `execNormalCommand`. */
  function RunNormal(shared: Shared, conn: Conn, line: Line, now: int): Effect {
    if !ArityFits(line) then Effect(shared, conn, BadArity, [], [])
    else
      var r := Exec(shared.db, line, now);
      var named := Prepare(line).write;
      Effect(Shared(r.db, AddVersions(shared.versions, named)), conn, Normal(Reply(r.answer)), r.log, named)
  }

  /** `DB.Exec`. WATCH is taken up even between MULTI and EXEC. */
  function Handle(shared: Shared, conn: Conn, req: Request, now: int): Effect
    requires AllFit(conn.queue)
  {
    match req
    case MultiReq(extra) =>
      if extra > 0 then Effect(shared, conn, BadArity, [], [])
      else if conn.multiState then Effect(shared, conn, NestedMulti, [], [])
      else Effect(shared, conn.(multiState := true), OkNotice, [], [])
    case DiscardReq(extra) =>
      if extra > 0 then Effect(shared, conn, BadArity, [], [])
      else if !conn.multiState then Effect(shared, conn, WithoutMulti, [], [])
      else Effect(shared, Reset(conn), OkNotice, [], [])
    case ExecReq(extra) =>
      if extra > 0 then Effect(shared, conn, BadArity, [], []) else RunExec(shared, conn, now)
    case WatchReq(keys) =>
      if |keys| == 0 then Effect(shared, conn, BadArity, [], [])
      else Effect(shared, conn.(watching := WatchAll(conn.watching, shared.versions, keys)), OkNotice, [], [])
    case CommandReq(line) =>
      if !conn.multiState then RunNormal(shared, conn, line, now)
      else if !ArityFits(line) then Effect(shared, conn.(txErrors := conn.txErrors + 1), BadArity, [], [])
      else Effect(shared, conn.(queue := conn.queue + [line]), Normal(Queued), [], [])
    case UnknownReq =>
      Effect(shared, if conn.multiState then conn.(txErrors := conn.txErrors + 1) else conn, UnknownName, [], [])
  }

  /* ---- the connection object ---- */

  class Connection {
    var multiState: bool
    var queue: seq<Line>
    var watching: map<Bytes, nat>
    var txErrors: nat

    constructor ()
      ensures State() == NEW_CONN
    {
      multiState, queue, watching, txErrors := false, [], map[], 0;
    }

    ghost function State(): Conn
      reads this
    {
      Conn(multiState, queue, watching, txErrors)
    }

    method SetMultiState(state: bool)
      modifies this
      ensures State() == if state then old(State()).(multiState := true) else Reset(old(State()))
    {
      if !state { watching, queue := map[], []; }
      multiState := state;
    }
  }

  /** The database and one connection have done what the effect says. */
  twostate predicate Done(db: DB, c: Connection, e: Effect, notice: Notice)
    reads db, c
  {
    && db.Snapshot() == e.shared.db && db.versionMap == e.shared.versions && db.aof == old(db.aof) + e.log
    && c.State() == e.conn && notice == e.notice
  }

  method WatchKeys(db: DB, c: Connection, keys: seq<Bytes>)
    modifies c`watching
    ensures c.watching == WatchAll(old(c.watching), db.versionMap, keys)
  {
    for i := 0 to |keys|
      invariant WatchAll(c.watching, db.versionMap, keys[i..]) == WatchAll(old(c.watching), db.versionMap, keys)
    {
      assert keys[i..][0] == keys[i] && keys[i..][1..] == keys[i + 1..];
      c.watching := c.watching[keys[i] := Version(db.versionMap, keys[i])];
    }
  }

  method ExecTransaction(db: DB, c: Connection, now: int) returns (notice: Notice)
    requires AllFit(c.queue)
    modifies db, c
    ensures Done(db, c, RunExec(Shared(old(db.Snapshot()), old(db.versionMap)), old(c.State()), now), notice)
    ensures old(db.Armed(now)) ==> db.Armed(now)
  {
    NothingMore(db.aof);
    if !c.multiState { return WithoutMulti; }
    if c.txErrors > 0 {
      c.SetMultiState(false);
      return Normal(ExecAbort);
    }
    var r := ExecMulti(db, c.watching, c.queue, now);
    c.SetMultiState(false);
    return Normal(r);
  }

  method ExecNormalCommand(db: DB, c: Connection, line: Line, now: int) returns (notice: Notice)
    modifies db
    ensures Done(db, c, RunNormal(Shared(old(db.Snapshot()), old(db.versionMap)), old(c.State()), line, now), notice)
    ensures old(db.Armed(now)) ==> db.Armed(now)
  {
    NothingMore(db.aof);
    if !ArityFits(line) { return BadArity; }
    AddVersion(db, Prepare(line).write);
    var r := db.ExecWithLock(line, now);
    return Normal(Reply(r));
  }

  method EnqueueCmd(c: Connection, line: Line) returns (notice: Notice)
    modifies c
    ensures var was := old(c.State());
            if ArityFits(line) then c.State() == was.(queue := was.queue + [line]) && notice == Normal(Queued)
            else c.State() == was.(txErrors := was.txErrors + 1) && notice == BadArity
  {
    if !ArityFits(line) {
      c.txErrors := c.txErrors + 1;
      return BadArity;
    }
    c.queue := c.queue + [line];
    return Normal(Queued);
  }

  /** `DB.Exec`. */
  method ExecRequest(db: DB, c: Connection, req: Request, now: int) returns (notice: Notice)
    requires AllFit(c.queue)
    modifies db, c
    ensures Done(db, c, Handle(Shared(old(db.Snapshot()), old(db.versionMap)), old(c.State()), req, now), notice)
    ensures old(db.Armed(now)) ==> db.Armed(now)
  {
    NothingMore(db.aof);
    match req {
      case MultiReq(extra) =>
        if extra > 0 { return BadArity; }
        if c.multiState { return NestedMulti; }
        c.SetMultiState(true);
        return OkNotice;
      case DiscardReq(extra) =>
        if extra > 0 { return BadArity; }
        if !c.multiState { return WithoutMulti; }
        c.SetMultiState(false);
        return OkNotice;
      case ExecReq(extra) =>
        if extra > 0 { return BadArity; }
        notice := ExecTransaction(db, c, now);
      case WatchReq(keys) =>
        if |keys| == 0 { return BadArity; }
        WatchKeys(db, c, keys);
        return OkNotice;
      case CommandReq(line) =>
        if c.multiState { notice := EnqueueCmd(c, line); } else { notice := ExecNormalCommand(db, c, line, now); }
      case UnknownReq =>
        if c.multiState { c.txErrors := c.txErrors + 1; }
        return UnknownName;
    }
  }

  /* ---- all connections together ---- */

  /** How often a key has been named. */
  function Count(names: seq<Bytes>, key: Bytes): (n: nat)
    ensures n <= |names|
  {
    if |names| == 0 then 0 else (if names[|names| - 1] == key then 1 else 0) + Count(names[..|names| - 1], key)
  }

  /** A normal command between the counting of its keys and its execution; `at` is where its names stand in `writes`. */
  datatype Running = Running(line: Line, at: nat)

  /** The names of a write that has been executed, and where they stand in `writes`. */
  datatype Executed = Executed(names: seq<Bytes>, at: nat)

  /**
   * `writes` is the history of counted names and `done` that of executed writes; `marks` and `doneMarks` say how long
   * either was when a connection last watched a key. A connection does nothing else while its command is running.
   */
  datatype Server = Server(shared: Shared, conns: seq<Conn>, running: seq<Option<Running>>,
                           writes: seq<Bytes>, marks: seq<map<Bytes, nat>>,
                           done: seq<Executed>, doneMarks: seq<map<Bytes, nat>>)

  function Start(n: nat): Server {
    Server(Shared(NO_DATA, map[]), seq(n, i => NEW_CONN), seq(n, i => None), [], seq(n, i => map[]), [], seq(n, i => map[]))
  }

  function MarkAll(marks: map<Bytes, nat>, keys: seq<Bytes>, at: nat): map<Bytes, nat>
    decreases |keys|
  {
    if |keys| == 0 then marks else MarkAll(marks[keys[0] := at], keys[1..], at)
  }

  /** Marks follow the watched keys. */
  function NextMarks(marks: map<Bytes, nat>, req: Request, e: Effect, at: nat): map<Bytes, nat> {
    if req.WatchReq? then MarkAll(marks, req.keys, at) else map k | k in marks && k in e.conn.watching :: marks[k]
  }

  /** Connection i sends a request, or its normal command is counted, or executed. */
  datatype Event = Ask(i: nat, req: Request, now: int) | CountKeys(i: nat, line: Line) | Execute(i: nat, now: int)

  predicate Shaped(s: Server) {
    |s.conns| == |s.running| == |s.marks| == |s.doneMarks|
  }

  ghost predicate Enabled(s: Server, e: Event) {
    && Shaped(s) && e.i < |s.conns|
    && match e
       case Ask(i, req, _) =>
         && s.running[i].None? && AllFit(s.conns[i].queue)
         && !(req.CommandReq? && !s.conns[i].multiState && ArityFits(req.line))
       case CountKeys(i, line) => s.running[i].None? && !s.conns[i].multiState && ArityFits(line)
       case Execute(i, _) => s.running[i].Some? && ArityFits(s.running[i].value.line)
  }

  ghost function Next(s: Server, e: Event): Server
    requires Enabled(s, e)
  {
    match e
    case Ask(i, req, now) =>
      var r := Handle(s.shared, s.conns[i], req, now);
      Server(r.shared, s.conns[i := r.conn], s.running,
             s.writes + r.named, s.marks[i := NextMarks(s.marks[i], req, r, |s.writes|)],
             if r.named == [] then s.done else s.done + [Executed(r.named, |s.writes|)],
             s.doneMarks[i := NextMarks(s.doneMarks[i], req, r, |s.done|)])
    case CountKeys(i, line) =>
      var names := Prepare(line).write;
      s.(shared := s.shared.(versions := AddVersions(s.shared.versions, names)), writes := s.writes + names,
         running := s.running[i := Some(Running(line, |s.writes|))])
    case Execute(i, now) =>
      var r := s.running[i].value;
      s.(shared := s.shared.(db := Exec(s.shared.db, r.line, now).db), running := s.running[i := None],
         done := s.done + [Executed(Prepare(r.line).write, r.at)])
  }

  /** Counting and executing without a step between them is what the command does. */
  lemma TwoHalves(s: Server, i: nat, line: Line, now: int)
    requires Enabled(s, CountKeys(i, line)) && AllFit(s.conns[i].queue)
    ensures Enabled(Next(s, CountKeys(i, line)), Execute(i, now))
    ensures var both, whole := Next(Next(s, CountKeys(i, line)), Execute(i, now)), Handle(s.shared, s.conns[i], CommandReq(line), now);
            both.shared == whole.shared && both.writes == s.writes + whole.named && both.conns == s.conns
  {
  }

  /** The watched version of a key is the number of times that it had been named then. */
  ghost predicate Marked(conn: Conn, marks: map<Bytes, nat>, writes: seq<Bytes>) {
    && AllFit(conn.queue) && marks.Keys == conn.watching.Keys
    && forall k :: k in marks ==> marks[k] <= |writes| && conn.watching[k] == Count(writes[..marks[k]], k) % TWO32
  }

  ghost predicate Counted(versions: map<Bytes, nat>, writes: seq<Bytes>) {
    forall k :: Version(versions, k) == Count(writes, k) % TWO32
  }

  /** The names of a write stand together, and no watch falls between them. */
  ghost predicate Placed(names: seq<Bytes>, at: nat, writes: seq<Bytes>, marks: seq<map<Bytes, nat>>) {
    && at + |names| <= |writes| && writes[at..at + |names|] == names
    && forall i, k :: 0 <= i < |marks| && k in marks[i] ==> at + |names| <= marks[i][k] || marks[i][k] <= at
  }

  ghost predicate AllPlaced(s: Server) {
    && (forall j :: 0 <= j < |s.done| ==> Placed(s.done[j].names, s.done[j].at, s.writes, s.marks))
    && (forall i :: 0 <= i < |s.running| && s.running[i].Some? ==>
          ArityFits(s.running[i].value.line)
          && Placed(Prepare(s.running[i].value.line).write, s.running[i].value.at, s.writes, s.marks))
  }

  /** Both marks are of the watched keys. */
  ghost predicate DoneMarked(marks: map<Bytes, nat>, doneMarks: map<Bytes, nat>, done: seq<Executed>) {
    doneMarks.Keys == marks.Keys && forall k :: k in doneMarks ==> doneMarks[k] <= |done|
  }

  ghost predicate Inv(s: Server) {
    && Shaped(s) && Counted(s.shared.versions, s.writes) && AllPlaced(s)
    && (forall i :: 0 <= i < |s.conns| ==> Marked(s.conns[i], s.marks[i], s.writes))
    && (forall i :: 0 <= i < |s.conns| ==> DoneMarked(s.marks[i], s.doneMarks[i], s.done))
  }

  lemma StartSatisfiesInv(n: nat)
    ensures Inv(Start(n))
  {
  }

  lemma {:induction false} CountAppend(a: seq<Bytes>, b: seq<Bytes>, key: Bytes)
    ensures Count(a + b, key) == Count(a, key) + Count(b, key)
    decreases |b|
  {
    if |b| == 0 {
      assert a + b == a;
    } else {
      var last := |b| - 1;
      assert (a + b)[|a + b| - 1] == b[last] && (a + b)[..|a + b| - 1] == a + b[..last];
      CountAppend(a, b[..last], key);
    }
  }

  lemma CountOne(name: Bytes, key: Bytes)
    ensures Count([name], key) == if name == key then 1 else 0
  {
    var none: seq<Bytes> := [];
    assert [name][..0] == none && Count(none, key) == 0;
  }

  lemma {:induction false} CountZero(names: seq<Bytes>, key: Bytes)
    ensures Count(names, key) == 0 <==> key !in names
  {
    if |names| > 0 {
      CountZero(names[..|names| - 1], key);
      assert names == names[..|names| - 1] + [names[|names| - 1]];
    }
  }

  lemma NextMod(n: nat)
    ensures (n % TWO32 + 1) % TWO32 == (n + 1) % TWO32
  {
  }

  lemma OneCounted(versions: map<Bytes, nat>, writes: seq<Bytes>, key: Bytes)
    requires Counted(versions, writes)
    ensures Counted(Stepped(versions, key), writes + [key])
  {
    NextMod(Count(writes, key));
    forall k ensures Count(writes + [key], k) == Count(writes, k) + if k == key then 1 else 0 {
      CountAppend(writes, [key], k);
      CountOne(key, k);
    }
  }

  lemma {:induction false} AddVersionsCounts(versions: map<Bytes, nat>, writes: seq<Bytes>, keys: seq<Bytes>)
    requires Counted(versions, writes)
    ensures Counted(AddVersions(versions, keys), writes + keys)
    decreases |keys|
  {
    if |keys| == 0 {
      assert writes + keys == writes;
    } else {
      assert writes + keys == (writes + [keys[0]]) + keys[1..];
      OneCounted(versions, writes, keys[0]);
      AddVersionsCounts(Stepped(versions, keys[0]), writes + [keys[0]], keys[1..]);
    }
  }

  lemma {:induction false} WatchMarks(watching: map<Bytes, nat>, marks: map<Bytes, nat>, versions: map<Bytes, nat>,
                                      keys: seq<Bytes>, writes: seq<Bytes>, conn: Conn)
    requires Counted(versions, writes) && Marked(conn.(watching := watching), marks, writes)
    ensures Marked(conn.(watching := WatchAll(watching, versions, keys)), MarkAll(marks, keys, |writes|), writes)
    decreases |keys|
  {
    if |keys| > 0 {
      assert writes[..|writes|] == writes;
      WatchMarks(watching[keys[0] := Version(versions, keys[0])], marks[keys[0] := |writes|], versions, keys[1..], writes, conn);
    }
  }

  /** More named keys do not change where a key was marked. */
  lemma MarkedStays(conn: Conn, marks: map<Bytes, nat>, writes: seq<Bytes>, more: seq<Bytes>)
    requires Marked(conn, marks, writes)
    ensures Marked(conn, marks, writes + more)
  {
    forall k | k in marks ensures (writes + more)[..marks[k]] == writes[..marks[k]] {
    }
  }

  lemma OwnStep(s: Server, i: nat, req: Request, now: int)
    requires Inv(s) && i < |s.conns|
    ensures var e := Handle(s.shared, s.conns[i], req, now);
            && Marked(e.conn, NextMarks(s.marks[i], req, e, |s.writes|), s.writes)
            && DoneMarked(NextMarks(s.marks[i], req, e, |s.writes|), NextMarks(s.doneMarks[i], req, e, |s.done|), s.done)
  {
    var conn, marks, doneMarks := s.conns[i], s.marks[i], s.doneMarks[i];
    assert Marked(conn, marks, s.writes) && DoneMarked(marks, doneMarks, s.done);
    var e := Handle(s.shared, conn, req, now);
    if req.WatchReq? {
      assert conn.(watching := conn.watching) == conn;
      WatchMarks(conn.watching, marks, s.shared.versions, req.keys, s.writes, conn);
      MarkAllMarks(marks, req.keys, |s.writes|);
      MarkAllMarks(doneMarks, req.keys, |s.done|);
    } else if e.conn.watching == conn.watching {
      SameMarks(marks, req, e, |s.writes|);
      SameMarks(doneMarks, req, e, |s.done|);
    } else {
      assert e.conn == Reset(conn);
      assert NextMarks(marks, req, e, |s.writes|) == map[] == NextMarks(doneMarks, req, e, |s.done|);
    }
  }

  lemma SameMarks(marks: map<Bytes, nat>, req: Request, e: Effect, at: nat)
    requires !req.WatchReq? && marks.Keys <= e.conn.watching.Keys
    ensures NextMarks(marks, req, e, at) == marks
  {
  }

  lemma {:induction false} MarkAllMarks(marks: map<Bytes, nat>, keys: seq<Bytes>, at: nat)
    ensures MarkAll(marks, keys, at).Keys == marks.Keys + set k | k in keys
    ensures forall k :: k in MarkAll(marks, keys, at) ==> MarkAll(marks, keys, at)[k] == if k in keys then at else marks[k]
    decreases |keys|
  {
    if |keys| > 0 {
      MarkAllMarks(marks[keys[0] := at], keys[1..], at);
      assert keys == [keys[0]] + keys[1..];
    }
  }

  /** Writes stay placed when more is counted. */
  lemma StaysPlaced(names: seq<Bytes>, at: nat, writes: seq<Bytes>, more: seq<Bytes>, marks: seq<map<Bytes, nat>>)
    requires Placed(names, at, writes, marks)
    ensures Placed(names, at, writes + more, marks)
  {
    assert (writes + more)[at..at + |names|] == writes[at..at + |names|];
  }

  /** ... and when a connection marks keys at the end of the history, or forgets marks. */
  lemma PlacedForMarks(names: seq<Bytes>, at: nat, writes: seq<Bytes>, marks: seq<map<Bytes, nat>>, i: nat, mine: map<Bytes, nat>)
    requires Placed(names, at, writes, marks) && i < |marks|
    requires forall k :: k in mine ==> mine[k] == |writes| || (k in marks[i] && mine[k] == marks[i][k])
    ensures Placed(names, at, writes, marks[i := mine])
  {
  }

  /** The newest names. */
  lemma PlacedLast(names: seq<Bytes>, writes: seq<Bytes>, marks: seq<map<Bytes, nat>>)
    requires forall i, k :: 0 <= i < |marks| && k in marks[i] ==> marks[i][k] <= |writes|
    ensures Placed(names, |writes|, writes + names, marks)
  {
  }

  lemma MarksFromHandle(s: Server, i: nat, req: Request, now: int)
    requires Inv(s) && i < |s.conns|
    ensures var e := Handle(s.shared, s.conns[i], req, now);
            var mine := NextMarks(s.marks[i], req, e, |s.writes|);
            forall k :: k in mine ==> mine[k] == |s.writes| || (k in s.marks[i] && mine[k] == s.marks[i][k])
  {
    assert Marked(s.conns[i], s.marks[i], s.writes);
    if req.WatchReq? { MarkAllMarks(s.marks[i], req.keys, |s.writes|); }
  }

  lemma MarksInRange(s: Server)
    requires Inv(s)
    ensures forall i, k :: 0 <= i < |s.marks| && k in s.marks[i] ==> s.marks[i][k] <= |s.writes|
  {
    forall i, k | 0 <= i < |s.marks| && k in s.marks[i] ensures s.marks[i][k] <= |s.writes| {
      assert Marked(s.conns[i], s.marks[i], s.writes);
    }
  }

  /** Every request of every connection keeps the invariant; in particular every queued line has a valid arity. */
  lemma AskKeepsInv(s: Server, i: nat, req: Request, now: int)
    requires Inv(s) && Enabled(s, Ask(i, req, now))
    ensures Inv(Next(s, Ask(i, req, now)))
  {
    var e := Handle(s.shared, s.conns[i], req, now);
    var next := Next(s, Ask(i, req, now));
    OwnStep(s, i, req, now);
    AddVersionsCounts(s.shared.versions, s.writes, e.named);
    assert e.shared.versions == AddVersions(s.shared.versions, e.named);
    AskKeepsPlaces(s, i, req, now);
    forall j | 0 <= j < |next.conns|
      ensures Marked(next.conns[j], next.marks[j], next.writes) && DoneMarked(next.marks[j], next.doneMarks[j], next.done)
    {
      assert Marked(s.conns[j], s.marks[j], s.writes) && DoneMarked(s.marks[j], s.doneMarks[j], s.done);
      MarkedStays(next.conns[j], next.marks[j], s.writes, e.named);
    }
  }

  lemma AskKeepsPlaces(s: Server, i: nat, req: Request, now: int)
    requires Inv(s) && Enabled(s, Ask(i, req, now))
    ensures AllPlaced(Next(s, Ask(i, req, now)))
  {
    var e := Handle(s.shared, s.conns[i], req, now);
    var next := Next(s, Ask(i, req, now));
    var mine := NextMarks(s.marks[i], req, e, |s.writes|);
    MarksFromHandle(s, i, req, now);
    MarksInRange(s);
    forall j | 0 <= j < |next.done| ensures Placed(next.done[j].names, next.done[j].at, next.writes, next.marks) {
      if j < |s.done| {
        PlacedForMarks(s.done[j].names, s.done[j].at, s.writes, s.marks, i, mine);
        StaysPlaced(s.done[j].names, s.done[j].at, s.writes, e.named, next.marks);
      } else {
        PlacedLast(e.named, s.writes, next.marks);
      }
    }
    forall j | 0 <= j < |next.running| && next.running[j].Some?
      ensures ArityFits(next.running[j].value.line)
      ensures Placed(Prepare(next.running[j].value.line).write, next.running[j].value.at, next.writes, next.marks)
    {
      var r := s.running[j].value;
      PlacedForMarks(Prepare(r.line).write, r.at, s.writes, s.marks, i, mine);
      StaysPlaced(Prepare(r.line).write, r.at, s.writes, e.named, next.marks);
    }
  }

  lemma CountKeepsInv(s: Server, i: nat, line: Line)
    requires Inv(s) && Enabled(s, CountKeys(i, line))
    ensures Inv(Next(s, CountKeys(i, line)))
  {
    var names, next := Prepare(line).write, Next(s, CountKeys(i, line));
    AddVersionsCounts(s.shared.versions, s.writes, names);
    MarksInRange(s);
    PlacedLast(names, s.writes, s.marks);
    forall j | 0 <= j < |next.done| ensures Placed(next.done[j].names, next.done[j].at, next.writes, next.marks) {
      StaysPlaced(s.done[j].names, s.done[j].at, s.writes, names, s.marks);
    }
    forall j | 0 <= j < |next.running| && next.running[j].Some?
      ensures ArityFits(next.running[j].value.line)
      ensures Placed(Prepare(next.running[j].value.line).write, next.running[j].value.at, next.writes, next.marks)
    {
      if j != i { StaysPlaced(Prepare(s.running[j].value.line).write, s.running[j].value.at, s.writes, names, s.marks); }
    }
    forall j | 0 <= j < |next.conns| ensures Marked(next.conns[j], next.marks[j], next.writes) {
      assert Marked(s.conns[j], s.marks[j], s.writes);
      MarkedStays(next.conns[j], next.marks[j], s.writes, names);
    }
  }

  lemma ExecuteKeepsInv(s: Server, i: nat, now: int)
    requires Inv(s) && Enabled(s, Execute(i, now))
    ensures Inv(Next(s, Execute(i, now)))
  {
    var next := Next(s, Execute(i, now));
    forall j | 0 <= j < |next.conns| ensures DoneMarked(next.marks[j], next.doneMarks[j], next.done) {
      assert DoneMarked(s.marks[j], s.doneMarks[j], s.done);
    }
  }

  ghost predicate Run(s: Server, events: seq<Event>)
    decreases |events|
  {
    |events| == 0 || (Enabled(s, events[0]) && Run(Next(s, events[0]), events[1..]))
  }

  ghost function End(s: Server, events: seq<Event>): Server
    requires Run(s, events)
    decreases |events|
  {
    if |events| == 0 then s else End(Next(s, events[0]), events[1..])
  }

  lemma {:induction false} RunKeepsInv(s: Server, events: seq<Event>)
    requires Inv(s) && Run(s, events)
    ensures Inv(End(s, events))
    decreases |events|
  {
    if |events| > 0 {
      match events[0] {
        case Ask(i, req, now) => AskKeepsInv(s, i, req, now);
        case CountKeys(i, line) => CountKeepsInv(s, i, line);
        case Execute(i, now) => ExecuteKeepsInv(s, i, now);
      }
      RunKeepsInv(Next(s, events[0]), events[1..]);
    }
  }

  /** The connection can send EXEC and has not made an error. */
  ghost predicate Ready(s: Server, i: nat) {
    i < |s.conns| && s.conns[i].multiState && s.conns[i].txErrors == 0 && AllFit(s.conns[i].queue)
  }

  /** The watch check lets it through. */
  ghost predicate Passes(s: Server, i: nat, now: int)
    requires Ready(s, i)
  {
    Handle(s.shared, s.conns[i], ExecReq(0), now).notice != Normal(WatchFailed)
  }

  /** The times that a key has been named since the connection last watched it. */
  function Since(s: Server, i: nat, key: Bytes): nat
    requires i < |s.marks| && key in s.marks[i] && s.marks[i][key] <= |s.writes|
  {
    Count(s.writes[s.marks[i][key]..], key)
  }

  lemma SinceIsVersionGap(s: Server, i: nat, key: Bytes)
    requires Inv(s) && i < |s.conns| && key in s.conns[i].watching
    ensures Marked(s.conns[i], s.marks[i], s.writes) && key in s.marks[i] && s.marks[i][key] <= |s.writes|
    ensures s.conns[i].watching[key] == Version(s.shared.versions, key) <==> Since(s, i, key) % TWO32 == 0
  {
    assert Marked(s.conns[i], s.marks[i], s.writes);
    CountGap(s.writes, s.marks[i][key], key);
  }

  lemma CountGap(writes: seq<Bytes>, mark: nat, key: Bytes)
    requires mark <= |writes|
    ensures Count(writes[..mark], key) % TWO32 == Count(writes, key) % TWO32 <==> Count(writes[mark..], key) % TWO32 == 0
  {
    assert writes == writes[..mark] + writes[mark..];
    CountAppend(writes[..mark], writes[mark..], key);
    GapMod(Count(writes[..mark], key), Count(writes[mark..], key));
  }

  lemma GapMod(a: nat, b: nat)
    ensures a % TWO32 == (a + b) % TWO32 <==> b % TWO32 == 0
  {
  }

  /** EXEC passes the watch check exactly when no watched key was counted, but for multiples of 2^32 times. */
  lemma WatchGuards(s: Server, i: nat, now: int)
    requires Inv(s) && Ready(s, i)
    ensures s.marks[i].Keys == s.conns[i].watching.Keys && forall k :: k in s.marks[i] ==> s.marks[i][k] <= |s.writes|
    ensures Passes(s, i, now) <==> forall k :: k in s.marks[i] ==> Since(s, i, k) % TWO32 == 0
  {
    assert Marked(s.conns[i], s.marks[i], s.writes);
    forall k | k in s.marks[i]
      ensures s.conns[i].watching[k] == Version(s.shared.versions, k) <==> Since(s, i, k) % TWO32 == 0
    {
      SinceIsVersionGap(s, i, k);
    }
  }

  lemma NoFullCircle(names: seq<Bytes>, key: Bytes)
    requires |names| < TWO32
    ensures Count(names, key) % TWO32 == 0 <==> key !in names
  {
    CountZero(names, key);
  }

  /** The history since each watch is shorter than a full circle of the counters. */
  ghost predicate Short(s: Server, i: nat)
    requires i < |s.marks|
  {
    forall k :: k in s.marks[i] ==> s.marks[i][k] <= |s.writes| < s.marks[i][k] + TWO32
  }

  /**
   * From a fresh server, over every run: short of a full circle, EXEC passes the watch check exactly when no watched
   * key has been counted since it was watched.
   */
  lemma WatchIsExact(n: nat, events: seq<Event>, i: nat, now: int)
    requires Run(Start(n), events)
    ensures var s := End(Start(n), events);
            Ready(s, i) && i < |s.marks| && Short(s, i) ==>
              (Passes(s, i, now) <==> forall k :: k in s.marks[i] ==> k !in s.writes[s.marks[i][k]..])
  {
    StartSatisfiesInv(n);
    RunKeepsInv(Start(n), events);
    var s := End(Start(n), events);
    if Ready(s, i) && i < |s.marks| && Short(s, i) {
      WatchGuards(s, i, now);
      forall k | k in s.marks[i] ensures Since(s, i, k) % TWO32 == 0 <==> k !in s.writes[s.marks[i][k]..] {
        NoFullCircle(s.writes[s.marks[i][k]..], k);
      }
    }
  }

  /** The j-th write was executed after connection i last watched the key, which it names. */
  predicate ExecutedSince(s: Server, i: nat, key: Bytes, j: nat) {
    i < |s.doneMarks| && key in s.doneMarks[i] && s.doneMarks[i][key] <= j < |s.done| && key in s.done[j].names
  }

  predicate CountedBefore(s: Server, i: nat, key: Bytes, j: nat)
    requires i < |s.marks| && key in s.marks[i] && j < |s.done|
  {
    s.done[j].at + |s.done[j].names| <= s.marks[i][key]
  }

  /** No other write that names the key has been counted since the watch. */
  ghost predicate OnlyWrite(s: Server, i: nat, key: Bytes, j: nat)
    requires i < |s.marks| && key in s.marks[i] && j < |s.done|
  {
    forall p :: s.marks[i][key] <= p < |s.writes| && s.writes[p] == key ==>
      s.done[j].at <= p < s.done[j].at + |s.done[j].names|
  }

  /** A write that was counted before the watch, and no other, leaves the key's version as it was watched. */
  lemma VersionTells(s: Server, i: nat, key: Bytes, j: nat)
    requires Inv(s) && i < |s.marks| && Short(s, i) && ExecutedSince(s, i, key, j) && key in s.marks[i]
    ensures Since(s, i, key) % TWO32 == 0 ==> CountedBefore(s, i, key, j)
    ensures OnlyWrite(s, i, key, j) && CountedBefore(s, i, key, j) ==> Since(s, i, key) % TWO32 == 0
  {
    var e, mark := s.done[j], s.marks[i][key];
    assert Placed(e.names, e.at, s.writes, s.marks);
    NoFullCircle(s.writes[mark..], key);
    if CountedBefore(s, i, key, j) {
      if OnlyWrite(s, i, key, j) { NotSince(s.writes, mark, key); }
    } else {
      NamedSince(s.writes, mark, e.names, e.at, key);
    }
  }

  lemma NamedSince(writes: seq<Bytes>, mark: nat, names: seq<Bytes>, at: nat, key: Bytes)
    requires mark <= at && at + |names| <= |writes| && writes[at..at + |names|] == names && key in names
    ensures key in writes[mark..]
  {
    var x :| 0 <= x < |names| && names[x] == key;
    assert writes[at..at + |names|][x] == writes[at + x];
    assert writes[mark..][at + x - mark] == writes[at + x];
  }

  /**
   * A write executed since the watch escapes a passing EXEC exactly when it had been counted before the watch: one that
   * was counted later makes the check fail, and one that was counted before does not.
   */
  lemma EscapesIffCountedBefore(s: Server, i: nat, now: int, key: Bytes, j: nat)
    requires Inv(s) && Ready(s, i) && i < |s.marks| && Short(s, i) && ExecutedSince(s, i, key, j)
    ensures key in s.marks[i]
    ensures Passes(s, i, now) ==> CountedBefore(s, i, key, j)
    ensures OnlyWrite(s, i, key, j) && s.marks[i].Keys == {key} ==> (Passes(s, i, now) <==> CountedBefore(s, i, key, j))
  {
    assert DoneMarked(s.marks[i], s.doneMarks[i], s.done);
    WatchGuards(s, i, now);
    VersionTells(s, i, key, j);
  }

  lemma NotSince(writes: seq<Bytes>, mark: nat, key: Bytes)
    requires mark <= |writes| && forall p :: mark <= p < |writes| ==> writes[p] != key
    ensures key !in writes[mark..]
  {
  }

  /** Errors while queueing are never forgotten: the connection can commit no transaction any more. */
  lemma ErrorsStick(shared: Shared, conn: Conn, req: Request, now: int)
    requires AllFit(conn.queue)
    ensures var e := Handle(shared, conn, req, now);
            && conn.txErrors <= e.conn.txErrors
            && (conn.txErrors > 0 && req == ExecReq(0) && conn.multiState ==> e.notice == Normal(ExecAbort) && e.shared == shared)
  {
  }

  /** A connection with an error stays without a commit over every run. */
  lemma {:induction false} ErrorsStickForever(s: Server, events: seq<Event>, i: nat)
    requires Run(s, events) && i < |s.conns| && s.conns[i].txErrors > 0
    ensures i < |End(s, events).conns| && End(s, events).conns[i].txErrors > 0
    decreases |events|
  {
    if |events| > 0 {
      if events[0].Ask? { ErrorsStick(s.shared, s.conns[events[0].i], events[0].req, events[0].now); }
      ErrorsStickForever(Next(s, events[0]), events[1..], i);
    }
  }

  /**
   * The version is stepped before the command takes its locks. A connection that watches in between sees the new
   * version and the old value: the command then changes the key, and EXEC does not notice.
   */
  lemma VersionRunsAhead(shared: Shared, line: Line, key: Bytes, queue: seq<Line>, now: int)
    requires ArityFits(line) && key in Prepare(line).write && AllFit(queue)
    ensures var stepped := shared.(versions := AddVersions(shared.versions, Prepare(line).write));
            var conn := Handle(stepped, Conn(true, queue, map[], 0), WatchReq([key]), now).conn;
            var written := stepped.(db := Exec(stepped.db, line, now).db);
            Handle(written, conn, ExecReq(0), now).notice == Normal(ReplyOf(RunMulti(written.db, queue, now).verdict))
  {
    var versions := AddVersions(shared.versions, Prepare(line).write);
    var none: seq<Bytes> := [];
    assert [key][1..] == none;
    assert WatchAll(map[], versions, [key]) == WatchAll(map[key := Version(versions, key)], versions, none);
    assert !WatchingChanged(versions, map[key := Version(versions, key)]);
  }
}
