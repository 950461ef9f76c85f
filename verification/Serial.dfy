/** Commands, expire jobs and transactions that run at the same time under the key locks take effect one by one. */
module Serial {
  import opened Strconv
  import opened Commands
  import opened Slots
  import opened Engine
  import opened Footprint
  import opened Multi
  import opened Transactions
  import opened Jobs
  import Locks
  import LockProtocol

  /** Neither job writes a key that the other one locks. */
  ghost predicate Compatible(a: Job, b: Job)
    requires Fits(a) && Fits(b)
  {
    SetOf(WriteKeys(a)) !! Locked(b) && SetOf(WriteKeys(b)) !! Locked(a)
  }

  lemma SharedKeySharesMutex(table: Locks.LockTable, a: seq<Bytes>, b: seq<Bytes>)
    requires 0 < table.tableSize && table.IndexSet(a) !! table.IndexSet(b)
    ensures SetOf(a) !! SetOf(b)
  {
    forall k | k in SetOf(a) ensures table.IndexOf(k) in table.IndexSet(a) {
      var i :| 0 <= i < |a| && a[i] == k;
    }
    forall k | k in SetOf(b) ensures table.IndexOf(k) in table.IndexSet(b) {
      var i :| 0 <= i < |b| && b[i] == k;
    }
  }

  /** The batch of mutexes of a job. */
  ghost predicate BatchOf(table: Locks.LockTable, job: Job, plan: seq<Locks.Op>)
    requires 0 < table.tableSize && Fits(job)
  {
    Locks.IsPlan(plan, table.IndexSet(WriteKeys(job)), table.IndexSet(ReadKeys(job)))
  }

  /** Two jobs that hold all their mutexes at the same time are compatible, hash collisions or not. */
  lemma HeldTogetherCompatible(table: Locks.LockTable, s: seq<LockProtocol.Thread>, x: nat, y: nat, a: Job, b: Job)
    requires 0 < table.tableSize && Fits(a) && Fits(b)
    requires LockProtocol.Inv(s) && x < |s| && y < |s| && x != y
    requires s[x].held == |s[x].plan| && s[y].held == |s[y].plan|
    requires BatchOf(table, a, s[x].plan) && BatchOf(table, b, s[y].plan)
    ensures Compatible(a, b)
  {
    var wa, ra := table.IndexSet(WriteKeys(a)), table.IndexSet(ReadKeys(a));
    var wb, rb := table.IndexSet(WriteKeys(b)), table.IndexSet(ReadKeys(b));
    LockProtocol.HeldTogether(s, x, y, wa, ra, wb, rb);
    LockProtocol.HeldTogether(s, y, x, wb, rb, wa, ra);
    SharedKeySharesMutex(table, WriteKeys(a), WriteKeys(b));
    SharedKeySharesMutex(table, WriteKeys(a), ReadKeys(b));
    SharedKeySharesMutex(table, WriteKeys(b), ReadKeys(a));
  }

  /** What was executed, and when. */
  datatype Task = Task(job: Job, now: int)

  function RunTasks(db: Db, tasks: seq<Task>): Db
    requires forall i :: 0 <= i < |tasks| ==> Fits(tasks[i].job)
    decreases |tasks|
  {
    if |tasks| == 0 then db else RunTasks(RunJob(db, tasks[0].job, tasks[0].now).db, tasks[1..])
  }

  function LogTasks(db: Db, tasks: seq<Task>): seq<Line>
    requires forall i :: 0 <= i < |tasks| ==> Fits(tasks[i].job)
    decreases |tasks|
  {
    if |tasks| == 0 then []
    else
      var r := RunJob(db, tasks[0].job, tasks[0].now);
      r.log + LogTasks(r.db, tasks[1..])
  }

  /** The replies of tasks executed one after the other. */
  function SaidBy(db: Db, tasks: seq<Task>): seq<Said>
    requires forall i :: 0 <= i < |tasks| ==> Fits(tasks[i].job)
    decreases |tasks|
  {
    if |tasks| == 0 then []
    else
      var r := RunJob(db, tasks[0].job, tasks[0].now);
      [r.said] + SaidBy(r.db, tasks[1..])
  }

  /**
   * A thread that has its locks looks at the clock and reads what its job needs (it keeps a copy of the database
   * as it was), and writes the results back at some later moment.
   */
  datatype Thread = Waiting(job: Job) | Running(job: Job, now: int, read: Db) | Finished(job: Job, said: Said)

  /** `order`, `tasks` and `replies` record the threads that have written back, what they executed, and the replies. */
  datatype System = System(db: Db, log: seq<Line>, threads: seq<Thread>, locks: seq<LockProtocol.Thread>,
                           order: seq<nat>, tasks: seq<Task>, replies: seq<Said>)

  /** The written keys of a result put into the database. */
  function WriteBack(db: Db, result: Db, keys: set<Bytes>): Db {
    Db((db.data - keys) + (map k | k in result.data && k in keys :: result.data[k]),
       (db.ttl - keys) + (map k | k in result.ttl && k in keys :: result.ttl[k]))
  }

  /** A call on a mutex of the batch, or one of the two halves of the job. */
  datatype Event = Call(i: nat, action: LockProtocol.Action) | Load(i: nat, now: int) | Commit(i: nat)

  predicate HasLocks(t: LockProtocol.Thread) {
    t.held == |t.plan| && !t.releasing
  }

  /** The locks are taken before the job and given back after it. */
  ghost predicate Enabled(s: System, e: Event) {
    && e.i < |s.threads| == |s.locks| && Fits(s.threads[e.i].job)
    && match e
       case Call(i, action) => LockProtocol.Enabled(s.locks, i, action) && (action.Turn? ==> s.threads[i].Finished?)
       case Load(i, now) => s.threads[i].Waiting? && HasLocks(s.locks[i]) && Keeps(s.db, s.threads[i].job, now)
       case Commit(i) => s.threads[i].Running?
  }

  ghost function Next(s: System, e: Event): System
    requires Enabled(s, e)
  {
    match e
    case Call(i, action) => s.(locks := LockProtocol.Next(s.locks, i, action))
    case Load(i, now) => s.(threads := s.threads[i := Running(s.threads[i].job, now, s.db)])
    case Commit(i) =>
      var t := s.threads[i];
      var r := RunJob(t.read, t.job, t.now);
      System(WriteBack(s.db, r.db, SetOf(WriteKeys(t.job))), s.log + r.log, s.threads[i := Finished(t.job, r.said)], s.locks,
             s.order + [i], s.tasks + [Task(t.job, t.now)], s.replies + [r.said])
  }

  /** What a running thread has read is still there, and its job would still change nothing else. */
  ghost predicate Current(db: Db, t: Thread) {
    t.Running? ==> Fits(t.job) && Agree(db, t.read, Locked(t.job)) && Keeps(t.read, t.job, t.now)
  }

  /** The thread works through the one batch that covers its job, and has all of it while the job runs. */
  ghost predicate Planned(table: Locks.LockTable, t: Thread, lock: LockProtocol.Thread) {
    && 0 < table.tableSize && Fits(t.job) && lock.todo == [] && BatchOf(table, t.job, lock.plan)
    && (t.Running? ==> HasLocks(lock))
  }

  /** The threads that have finished are those in the order, with the replies that were given there. */
  ghost predicate Recorded(s: System) {
    && |s.order| == |s.tasks| == |s.replies|
    && (forall i, j :: 0 <= i < j < |s.order| ==> s.order[i] != s.order[j])
    && (forall k :: 0 <= k < |s.order| ==>
          s.order[k] < |s.threads| && s.threads[s.order[k]] == Finished(s.tasks[k].job, s.replies[k]))
    && (forall i :: 0 <= i < |s.threads| && s.threads[i].Finished? ==> i in s.order)
  }

  ghost predicate AllFitting(tasks: seq<Task>) {
    forall i :: 0 <= i < |tasks| ==> Fits(tasks[i].job)
  }

  /** The database, the log and the replies are those of the recorded tasks, one after the other. */
  ghost predicate Executed(start: Db, s: System) {
    && AllFitting(s.tasks)
    && s.db == RunTasks(start, s.tasks) && s.log == LogTasks(start, s.tasks) && s.replies == SaidBy(start, s.tasks)
  }

  ghost predicate Inv(table: Locks.LockTable, start: Db, s: System) {
    && |s.locks| == |s.threads| && LockProtocol.Inv(s.locks) && Executed(start, s) && Recorded(s)
    && forall i :: 0 <= i < |s.threads| ==> Current(s.db, s.threads[i]) && Planned(table, s.threads[i], s.locks[i])
  }

  lemma {:induction false} OneMore(start: Db, tasks: seq<Task>, task: Task)
    requires AllFitting(tasks) && Fits(task.job)
    ensures var r := RunJob(RunTasks(start, tasks), task.job, task.now);
            && AllFitting(tasks + [task])
            && RunTasks(start, tasks + [task]) == r.db
            && LogTasks(start, tasks + [task]) == LogTasks(start, tasks) + r.log
            && SaidBy(start, tasks + [task]) == SaidBy(start, tasks) + [r.said]
    decreases |tasks|
  {
    var all := tasks + [task];
    if |tasks| == 0 {
      assert all == [task];
      JustOne(start, task);
    } else {
      assert all[1..] == tasks[1..] + [task] && all[0] == tasks[0];
      var r := RunJob(start, tasks[0].job, tasks[0].now);
      var end := RunJob(RunTasks(r.db, tasks[1..]), task.job, task.now);
      OneMore(r.db, tasks[1..], task);
      Regroup(r.log, LogTasks(r.db, tasks[1..]), end.log);
      Regroup([r.said], SaidBy(r.db, tasks[1..]), [end.said]);
    }
  }

  lemma JustOne(db: Db, task: Task)
    requires Fits(task.job)
    ensures RunTasks(db, [task]) == RunJob(db, task.job, task.now).db
    ensures LogTasks(db, [task]) == [] + RunJob(db, task.job, task.now).log
    ensures SaidBy(db, [task]) == [] + [RunJob(db, task.job, task.now).said]
  {
    var after := RunJob(db, task.job, task.now).db;
    assert [task][1..] == [];
    assert RunTasks(after, []) == after && LogTasks(after, []) == [] && SaidBy(after, []) == [];
  }

  lemma WriteBackSlots(db: Db, result: Db, keys: set<Bytes>, k: Bytes)
    ensures At(WriteBack(db, result, keys), k) == if k in keys then At(result, k) else At(db, k)
  {
  }

  /** Writing back is executing the job now. */
  lemma WriteBackExecutes(db: Db, job: Job, read: Db, now: int)
    requires Fits(job) && Agree(db, read, Locked(job)) && Keeps(read, job, now)
    ensures var r := RunJob(read, job, now);
            RunJob(db, job, now) == Effect(WriteBack(db, r.db, SetOf(WriteKeys(job))), r.said, r.log)
  {
    var r, keys := RunJob(read, job, now), SetOf(WriteKeys(job));
    JobIsLocal(read, db, job, now);
    JobIsLocal(db, read, job, now);
    var back, whole := WriteBack(db, r.db, keys), RunJob(db, job, now).db;
    forall k ensures At(back, k) == At(whole, k) {
      WriteBackSlots(db, r.db, keys, k);
      assert k !in keys ==> At(r.db, k) == At(read, k);
    }
    SameSlots(back, whole);
  }

  /** A job leaves alone what another running thread has read. */
  lemma StaysCurrent(before: Db, after: Db, job: Job, t: Thread)
    requires Fits(job) && SameOutside(after, before, SetOf(WriteKeys(job))) && Current(before, t)
    requires t.Running? ==> Compatible(job, t.job)
    ensures Current(after, t)
  {
  }

  lemma CallKeepsInv(table: Locks.LockTable, start: Db, s: System, i: nat, action: LockProtocol.Action)
    requires Inv(table, start, s) && Enabled(s, Call(i, action))
    ensures Inv(table, start, Next(s, Call(i, action)))
  {
    var next := Next(s, Call(i, action));
    LockProtocol.StepKeepsInv(s.locks, i, action);
    forall j | 0 <= j < |next.threads| ensures Planned(table, next.threads[j], next.locks[j]) {
      assert Planned(table, s.threads[j], s.locks[j]);
    }
  }

  lemma LoadKeepsInv(table: Locks.LockTable, start: Db, s: System, i: nat, now: int)
    requires Inv(table, start, s) && Enabled(s, Load(i, now))
    ensures Inv(table, start, Next(s, Load(i, now)))
  {
    var next := Next(s, Load(i, now));
    forall j | 0 <= j < |next.threads|
      ensures Current(next.db, next.threads[j]) && Planned(table, next.threads[j], next.locks[j])
    {
      assert Current(s.db, s.threads[j]) && Planned(table, s.threads[j], s.locks[j]);
    }
  }

  /** Two jobs that run at the same time hold their batches together. */
  lemma RunningTogether(table: Locks.LockTable, start: Db, s: System, i: nat, j: nat)
    requires Inv(table, start, s) && i < |s.threads| && j < |s.threads| && i != j
    requires s.threads[i].Running? && s.threads[j].Running?
    ensures Fits(s.threads[i].job) && Fits(s.threads[j].job) && Compatible(s.threads[i].job, s.threads[j].job)
  {
    assert Planned(table, s.threads[i], s.locks[i]) && Planned(table, s.threads[j], s.locks[j]);
    HeldTogetherCompatible(table, s.locks, i, j, s.threads[i].job, s.threads[j].job);
  }

  lemma CommitRecords(s: System, i: nat)
    requires Recorded(s) && Enabled(s, Commit(i))
    ensures Recorded(Next(s, Commit(i)))
  {
    var next := Next(s, Commit(i));
    forall j | 0 <= j < |next.threads| && next.threads[j].Finished? ensures j in next.order {
      if j == i { assert next.order[|s.order|] == i; } else { assert j in s.order; }
    }
  }

  lemma CommitExecutes(start: Db, s: System, i: nat)
    requires Executed(start, s) && Enabled(s, Commit(i)) && Current(s.db, s.threads[i])
    ensures Executed(start, Next(s, Commit(i)))
    ensures SameOutside(Next(s, Commit(i)).db, s.db, SetOf(WriteKeys(s.threads[i].job)))
  {
    var t := s.threads[i];
    WriteBackExecutes(s.db, t.job, t.read, t.now);
    OneMore(start, s.tasks, Task(t.job, t.now));
    forall k ensures k !in SetOf(WriteKeys(t.job)) ==> At(Next(s, Commit(i)).db, k) == At(s.db, k) {
      WriteBackSlots(s.db, RunJob(t.read, t.job, t.now).db, SetOf(WriteKeys(t.job)), k);
    }
  }

  lemma CommitKeepsInv(table: Locks.LockTable, start: Db, s: System, i: nat)
    requires Inv(table, start, s) && Enabled(s, Commit(i))
    ensures Inv(table, start, Next(s, Commit(i)))
  {
    var next := Next(s, Commit(i));
    CommitRecords(s, i);
    CommitExecutes(start, s, i);
    forall j | 0 <= j < |next.threads|
      ensures Current(next.db, next.threads[j]) && Planned(table, next.threads[j], next.locks[j])
    {
      assert Current(s.db, s.threads[j]) && Planned(table, s.threads[j], s.locks[j]);
      if j != i && s.threads[j].Running? { RunningTogether(table, start, s, i, j); }
      if j != i { StaysCurrent(s.db, next.db, s.threads[i].job, s.threads[j]); }
    }
  }

  /** Every thread waits with the batch of its job before it, and nothing has happened. */
  ghost predicate Begins(table: Locks.LockTable, s: System) {
    && s.log == [] && s.order == [] && s.tasks == [] && s.replies == [] && |s.locks| == |s.threads|
    && (forall i :: 0 <= i < |s.locks| ==> LockProtocol.Start(s.locks[i]))
    && forall i :: 0 <= i < |s.threads| ==> s.threads[i].Waiting? && Planned(table, s.threads[i], s.locks[i])
  }

  ghost predicate Run(s: System, events: seq<Event>)
    decreases |events|
  {
    |events| == 0 || (Enabled(s, events[0]) && Run(Next(s, events[0]), events[1..]))
  }

  ghost function Outcomes(s: System, events: seq<Event>): System
    requires Run(s, events)
    decreases |events|
  {
    if |events| == 0 then s else Outcomes(Next(s, events[0]), events[1..])
  }

  lemma {:induction false} RunKeepsInv(table: Locks.LockTable, start: Db, s: System, events: seq<Event>)
    requires Inv(table, start, s) && Run(s, events)
    ensures Inv(table, start, Outcomes(s, events))
    decreases |events|
  {
    if |events| > 0 {
      match events[0] {
        case Call(i, action) => CallKeepsInv(table, start, s, i, action);
        case Load(i, now) => LoadKeepsInv(table, start, s, i, now);
        case Commit(i) => CommitKeepsInv(table, start, s, i);
      }
      RunKeepsInv(table, start, Next(s, events[0]), events[1..]);
    }
  }

  /**
   * Every interleaving of lock calls, reads and writes of commands, expire jobs and transactions gives the database,
   * the log and the replies of running them one by one, each at its own time; and each thread has got its own reply.
   */
  lemma Serialises(table: Locks.LockTable, s: System, events: seq<Event>)
    requires Begins(table, s) && Run(s, events)
    ensures Executed(s.db, Outcomes(s, events)) && Recorded(Outcomes(s, events))
  {
    LockProtocol.StartSatisfiesInv(s.locks);
    RunKeepsInv(table, s.db, s, events);
  }

  /** Compatible jobs that keep to what they have locked commute, replies and all, at whatever time either runs. */
  lemma Commute(db: Db, a: Job, nowA: int, b: Job, nowB: int)
    requires Fits(a) && Fits(b) && Compatible(a, b) && Keeps(db, a, nowA) && Keeps(db, b, nowB)
    ensures var ra, rb := RunJob(db, a, nowA), RunJob(db, b, nowB);
            && RunJob(ra.db, b, nowB).db == RunJob(rb.db, a, nowA).db
            && RunJob(ra.db, b, nowB).said == rb.said && RunJob(rb.db, a, nowA).said == ra.said
            && RunJob(ra.db, b, nowB).log == rb.log && RunJob(rb.db, a, nowA).log == ra.log
  {
    var ra, rb := RunJob(db, a, nowA), RunJob(db, b, nowB);
    WriteBackExecutes(ra.db, b, db, nowB);
    WriteBackExecutes(rb.db, a, db, nowA);
    var x, y := RunJob(ra.db, b, nowB).db, RunJob(rb.db, a, nowA).db;
    forall k ensures At(x, k) == At(y, k) {
      WriteBackSlots(ra.db, rb.db, SetOf(WriteKeys(b)), k);
      WriteBackSlots(rb.db, ra.db, SetOf(WriteKeys(a)), k);
    }
    SameSlots(x, y);
  }

  /** GET, HGET and EXISTS lock for reading only: they can all hold one key at the same time. */
  lemma ReadersShare(a: Line, b: Line)
    requires a.op in {Get, HGet, Exists} && b.op in {Get, HGet, Exists} && ArityFits(a) && ArityFits(b)
    ensures Compatible(Single(a), Single(b)) && Locked(Single(a)) == Keys(a)
  {
  }

  /* ---- RENAME ---- */

  /** RENAME does not keep to its locks: next to a GET of its source, which the locks allow, the order shows. */
  lemma RenameDoesNotCommute(src: Bytes, dest: Bytes, v: Bytes, now: int)
    requires src != dest
    ensures var db, a, b := PutSlot(NO_DATA, src, Slot(Some(Str(v)), None)), Line(Rename, [src, dest]), Line(Get, [src]);
            && Compatible(Single(a), Single(b))
            && Exec(db, b, now).answer == Bulk(v) && Exec(Exec(db, a, now).db, b, now).answer == NoValue
  {
    var db, a, b := PutSlot(NO_DATA, src, Slot(Some(Str(v)), None)), Line(Rename, [src, dest]), Line(Get, [src]);
    SourceMoves(db, a, now);
    GetAnswers(db, src, now);
    GetAnswers(Exec(db, a, now).db, src, now);
  }

  lemma SourceMoves(db: Db, line: Line, now: int)
    requires line.op.Rename? && ArityFits(line) && line.args[0] != line.args[1]
    requires At(db, line.args[0]).value.Some? && At(db, line.args[0]).deadline.None?
    ensures At(Exec(db, line, now).db, line.args[0]) == EMPTY
    ensures Compatible(Single(line), Single(Line(Get, [line.args[0]])))
  {
    RenameWrites(db, line, now);
    assert RunRename(db, line, now).answer == Ok;
  }

  lemma GetAnswers(db: Db, key: Bytes, now: int)
    ensures Exec(db, Line(Get, [key]), now).answer == GetString(Seen(At(db, key), now))
  {
  }

  /**
   * Two RENAMEs of one key to different keys hold their locks together. When both read the key before either removes
   * it, both succeed and the value is there twice; one after the other, the second one fails.
   */
  lemma RenamesDuplicate(db: Db, src: Bytes, one: Bytes, two: Bytes, now: int)
    requires src != one && src != two && one != two
    requires At(db, src).value.Some? && !Expired(At(db, src).deadline, now)
    ensures var a, b := Line(Rename, [src, one]), Line(Rename, [src, two]);
            var ra, rb := Exec(db, a, now), Exec(db, b, now);
            var both := WriteBack(ra.db, rb.db, Keys(b));
            && Compatible(Single(a), Single(b)) && ra.answer == Ok && rb.answer == Ok
            && At(both, one).value == At(both, two).value == At(db, src).value && At(both, src) == EMPTY
            && Exec(ra.db, b, now).answer == Failed(NoSuchKey) && Exec(rb.db, a, now).answer == Failed(NoSuchKey)
  {
    var a, b := Line(Rename, [src, one]), Line(Rename, [src, two]);
    RenamesApart(src, one, two);
    RenamedTo(db, src, one, now);
    RenamedTo(db, src, two, now);
    NothingToRename(Exec(db, a, now).db, b, now);
    NothingToRename(Exec(db, b, now).db, a, now);
    ExecIsLocal(db, db, b, now);
    RenameKeys(b);
    forall k { WriteBackSlots(Exec(db, a, now).db, Exec(db, b, now).db, Keys(b), k); }
  }

  lemma RenamesApart(src: Bytes, one: Bytes, two: Bytes)
    requires src != one && src != two && one != two
    ensures Compatible(Single(Line(Rename, [src, one])), Single(Line(Rename, [src, two])))
  {
  }

  lemma RenamedTo(db: Db, src: Bytes, dest: Bytes, now: int)
    requires src != dest && At(db, src).value.Some? && !Expired(At(db, src).deadline, now)
    ensures var r := Exec(db, Line(Rename, [src, dest]), now);
            r.answer == Ok && At(r.db, src) == EMPTY && At(r.db, dest).value == At(db, src).value
  {
  }

  lemma NothingToRename(db: Db, line: Line, now: int)
    requires line.op.Rename? && ArityFits(line) && At(db, line.args[0]) == EMPTY
    ensures Exec(db, line, now).answer == Failed(NoSuchKey)
  {
  }
}
