/** The database as a value, and the effect of every command on it. */
module Engine {
  import opened Strconv
  import opened Commands
  import opened Slots

  /** The data and the TTL map. */
  datatype Db = Db(data: map<Bytes, Value>, ttl: map<Bytes, int>)

  const NO_DATA := Db(map[], map[])

  function At(db: Db, key: Bytes): Slot {
    Slot(if key in db.data then Some(db.data[key]) else None, if key in db.ttl then Some(db.ttl[key]) else None)
  }

  function PutSlot(db: Db, key: Bytes, s: Slot): (r: Db)
    ensures At(r, key) == s
    ensures forall k :: k != key ==> At(r, k) == At(db, k)
  {
    Db(if s.value.Some? then db.data[key := s.value.value] else db.data - {key},
       if s.deadline.Some? then db.ttl[key := s.deadline.value] else db.ttl - {key})
  }

  /** Two databases with the same slots are the same. */
  lemma SameSlots(a: Db, b: Db)
    requires forall k :: At(a, k) == At(b, k)
    ensures a == b
  {
    forall k ensures k in a.data <==> k in b.data { assert At(a, k) == At(b, k); }
    forall k ensures k in a.ttl <==> k in b.ttl { assert At(a, k) == At(b, k); }
    forall k | k in a.data ensures a.data[k] == b.data[k] { assert At(a, k) == At(b, k); }
    forall k | k in a.ttl ensures a.ttl[k] == b.ttl[k] { assert At(a, k) == At(b, k); }
    assert a.data == b.data;
    assert a.ttl == b.ttl;
  }

  lemma PutBack(db: Db, key: Bytes, s: Slot)
    ensures PutSlot(db, key, At(db, key)) == db
    ensures PutSlot(PutSlot(db, key, s), key, At(db, key)) == db
  {
    SameSlots(PutSlot(db, key, At(db, key)), db);
    SameSlots(PutSlot(PutSlot(db, key, s), key, At(db, key)), db);
  }

  lemma PutTwice(db: Db, key: Bytes, s: Slot, t: Slot)
    ensures PutSlot(PutSlot(db, key, s), key, t) == PutSlot(db, key, t)
  {
    SameSlots(PutSlot(PutSlot(db, key, s), key, t), PutSlot(db, key, t));
  }

  lemma PutsCommute(db: Db, k1: Bytes, s1: Slot, k2: Bytes, s2: Slot)
    requires k1 != k2
    ensures PutSlot(PutSlot(db, k1, s1), k2, s2) == PutSlot(PutSlot(db, k2, s2), k1, s1)
  {
    SameSlots(PutSlot(PutSlot(db, k1, s1), k2, s2), PutSlot(PutSlot(db, k2, s2), k1, s1));
  }

  datatype Result = Result(db: Db, answer: Answer, log: seq<Line>)

  /** `GetEntity` on the database. */
  function Look(db: Db, key: Bytes, now: int): Db {
    PutSlot(db, key, Seen(At(db, key), now))
  }

  /** `Remove`. */
  function Remove(db: Db, key: Bytes): Db {
    PutSlot(db, key, EMPTY)
  }

  /** `Removes`: only keys with a value are removed; expired ones count too. */
  function Removes(db: Db, keys: seq<Bytes>): (Db, nat)
    decreases |keys|
  {
    if |keys| == 0 then (db, 0)
    else if keys[0] in db.data then
      var rest := Removes(Remove(db, keys[0]), keys[1..]);
      (rest.0, rest.1 + 1)
    else Removes(db, keys[1..])
  }

  function RunDel(db: Db, line: Line): Result {
    var r := Removes(db, line.args);
    Result(r.0, Int(r.1), if r.1 > 0 then [line] else [])
  }

  /** The loop of EXISTS; expired keys are removed on the way. */
  function CountSeen(db: Db, keys: seq<Bytes>, now: int): (Db, nat)
    decreases |keys|
  {
    if |keys| == 0 then (db, 0)
    else
      var seen := Look(db, keys[0], now);
      var rest := CountSeen(seen, keys[1..], now);
      (rest.0, rest.1 + if keys[0] in seen.data then 1 else 0)
  }

  /** The loop of MSET from index i on; deadlines stay. */
  function PutValues(db: Db, args: seq<Bytes>, i: nat): Db
    decreases |args| - i
  {
    if i + 1 >= |args| then db
    else PutValues(PutSlot(db, args[i], At(db, args[i]).(value := Some(Str(args[i + 1])))), args, i + 2)
  }

  function RunMSet(db: Db, line: Line): Result {
    if |line.args| % 2 != 0 then Result(db, Failed(Syntax), [])
    else Result(PutValues(db, line.args, 0), Ok, [line])
  }

  /** The first loop of MSETNX stops at a key that exists. */
  function FindAny(db: Db, keys: seq<Bytes>, now: int): (Db, bool)
    decreases |keys|
  {
    if |keys| == 0 then (db, false)
    else
      var seen := Look(db, keys[0], now);
      if keys[0] in seen.data then (seen, true) else FindAny(seen, keys[1..], now)
  }

  function RunMSetNX(db: Db, line: Line, now: int): Result {
    if |line.args| % 2 != 0 then Result(db, Failed(Syntax), [])
    else
      var found := FindAny(db, EvenArgs(line.args), now);
      if found.1 then Result(found.0, Int(0), []) else Result(PutValues(found.0, line.args, 0), Int(1), [line])
  }

  /** RENAME: without a deadline of its own the value takes over the one of the destination. */
  function RunRename(db: Db, line: Line, now: int): Result
    requires |line.args| == 2
  {
    var src, dest := line.args[0], line.args[1];
    var seen := Look(db, src, now);
    var s := At(seen, src);
    if s.value.None? then Result(seen, Failed(NoSuchKey), [])
    else
      var moved := Remove(PutSlot(seen, dest, At(seen, dest).(value := s.value)), src);
      Result(if s.deadline.Some? then PutSlot(moved, dest, At(moved, dest).(deadline := s.deadline)) else moved,
             Ok, [line])
  }

  function RunRenameNX(db: Db, line: Line, now: int): Result
    requires |line.args| == 2
  {
    var src, dest := line.args[0], line.args[1];
    var seen := Look(db, dest, now);
    if dest in seen.data then Result(seen, Int(0), [])
    else
      var both := Look(seen, src, now);
      var s := At(both, src);
      if s.value.None? then Result(both, Failed(NoSuchKey), [])
      else
        var cleared := Removes(both, [src, dest]).0;
        var moved := PutSlot(cleared, dest, At(cleared, dest).(value := s.value));
        Result(if s.deadline.Some? then PutSlot(moved, dest, At(moved, dest).(deadline := s.deadline)) else moved,
               Int(1), [line])
  }

  /** RPOPLPUSH; the source and the destination may be one list. */
  function RunRPopLPush(db: Db, line: Line, now: int): Result
    requires |line.args| == 2
  {
    var src, dest := line.args[0], line.args[1];
    var one := Look(db, src, now);
    var s := At(one, src);
    if s.value.None? then Result(one, NoValue, [])
    else if !IsList(s) then Result(one, Failed(WrongType), [])
    else
      var both := Look(one, dest, now);
      var d := At(both, dest);
      if !ListOrNone(d) then Result(both, Failed(WrongType), [])
      else if |Items(s)| == 0 then Result(both, Panicked, [])
      else
        var l := Items(s);
        var last := l[|l| - 1];
        if src == dest then
          Result(PutSlot(both, src, s.(value := Some(List([last] + l[..|l| - 1])))), Bulk(last), [line])
        else
          var pushed := PutSlot(both, dest, d.(value := Some(List([last] + Items(d)))));
          Result(PutSlot(pushed, src, WithItems(s, l[..|l| - 1])), Bulk(last), [line])
  }

  function ExecOne(db: Db, line: Line, now: int): Result
    requires OneKey(line.op) && ArityFits(line)
  {
    var r := RunOne(At(db, line.args[0]), line, now);
    Result(PutSlot(db, line.args[0], r.slot), r.answer, r.log)
  }

  function ExecMany(db: Db, line: Line, now: int): Result
    requires !OneKey(line.op) && ArityFits(line)
  {
    match line.op
    case MSet => RunMSet(db, line)
    case MSetNX => RunMSetNX(db, line, now)
    case Del => RunDel(db, line)
    case Exists => var r := CountSeen(db, line.args, now); Result(r.0, Int(r.1), [])
    case Rename => RunRename(db, line, now)
    case RenameNX => RunRenameNX(db, line, now)
    case RPopLPush => RunRPopLPush(db, line, now)
  }

  /** `execWithLock`: the effect of a command line. */
  function Exec(db: Db, line: Line, now: int): Result {
    if !ArityFits(line) then Result(db, Failed(ArgNum), [])
    else if OneKey(line.op) then ExecOne(db, line, now)
    else ExecMany(db, line, now)
  }

  /** A command on one key answers what its executor says, which is all that the key gets and all that changes. */
  lemma OneKeyExec(db: Db, line: Line, now: int)
    requires OneKey(line.op) && ArityFits(line)
    ensures var key, r, o := line.args[0], Exec(db, line, now), RunOne(At(db, line.args[0]), line, now);
            && r.answer == o.answer && r.log == o.log && At(r.db, key) == o.slot
            && forall k :: k != key ==> At(r.db, k) == At(db, k)
  {
  }

  /** Lines executed one after the other. */
  function ExecAll(db: Db, lines: seq<Line>, now: int): Db
    decreases |lines|
  {
    if |lines| == 0 then db else ExecAll(Exec(db, lines[0], now).db, lines[1..], now)
  }

  /** What they log. */
  function LogOf(db: Db, lines: seq<Line>, now: int): seq<Line>
    decreases |lines|
  {
    if |lines| == 0 then []
    else Exec(db, lines[0], now).log + LogOf(Exec(db, lines[0], now).db, lines[1..], now)
  }

  /** The replies of lines executed one after the other. */
  function AnswersOf(db: Db, lines: seq<Line>, now: int): seq<Answer>
    decreases |lines|
  {
    if |lines| == 0 then []
    else [Exec(db, lines[0], now).answer] + AnswersOf(Exec(db, lines[0], now).db, lines[1..], now)
  }

  lemma {:induction false} AnswerAt(db: Db, lines: seq<Line>, now: int, i: nat)
    requires i < |lines|
    ensures |AnswersOf(db, lines, now)| == |lines|
    ensures AnswersOf(db, lines, now)[i] == Exec(ExecAll(db, lines[..i], now), lines[i], now).answer
    decreases |lines|
  {
    var next := Exec(db, lines[0], now).db;
    if |lines| > 1 {
      AnswerAt(next, lines[1..], now, if i == 0 then 0 else i - 1);
    } else {
      assert lines[1..] == [];
    }
    if i > 0 {
      assert lines[..i][0] == lines[0] && lines[..i][1..] == lines[1..][..i - 1];
    } else {
      assert lines[..0] == [];
    }
  }

  lemma ExecAllOne(db: Db, line: Line, now: int)
    ensures ExecAll(db, [line], now) == Exec(db, line, now).db
  {
    assert [line][1..] == [];
    assert ExecAll(Exec(db, line, now).db, [], now) == Exec(db, line, now).db;
  }

  lemma {:induction false} ExecAllAppend(db: Db, first: seq<Line>, second: seq<Line>, now: int)
    ensures ExecAll(db, first + second, now) == ExecAll(ExecAll(db, first, now), second, now)
    decreases |first|
  {
    if |first| == 0 {
      assert first + second == second;
    } else {
      assert (first + second)[1..] == first[1..] + second;
      ExecAllAppend(Exec(db, first[0], now).db, first[1..], second, now);
    }
  }

  /** A command line executed at a time. */
  datatype Step = Step(line: Line, now: int)

  function RunDb(db: Db, steps: seq<Step>): Db
    decreases |steps|
  {
    if |steps| == 0 then db else RunDb(Exec(db, steps[0].line, steps[0].now).db, steps[1..])
  }

  function RunLog(db: Db, steps: seq<Step>): seq<Line>
    decreases |steps|
  {
    if |steps| == 0 then []
    else
      var r := Exec(db, steps[0].line, steps[0].now);
      r.log + RunLog(r.db, steps[1..])
  }

  /** The keys that the command declares; its locks cover them. */
  function Keys(line: Line): set<Bytes> {
    if ArityFits(line) then SetOf(Prepare(line).write) + SetOf(Prepare(line).read) else {}
  }

  /** None of these keys has a deadline that has passed. */
  ghost predicate Alive(db: Db, keys: set<Bytes>, now: int) {
    forall k :: k in keys ==> !Expired(At(db, k).deadline, now)
  }

  lemma AliveSlots(db: Db, keys: set<Bytes>, now: int, key: Bytes)
    requires Alive(db, keys, now) && key in keys
    ensures !Expired(At(db, key).deadline, now) && Seen(At(db, key), now) == At(db, key) && Look(db, key, now) == db
  {
    PutBack(db, key, EMPTY);
  }

  /** The keys among the arguments of a command. */
  lemma AliveArgs(db: Db, line: Line, now: int, i: nat)
    requires ArityFits(line) && Alive(db, Keys(line), now) && (i == 0 || (i == 1 && line.op in {Rename, RenameNX, RPopLPush}))
    ensures var key := line.args[i];
            && key in Keys(line) && !Expired(At(db, key).deadline, now)
            && Seen(At(db, key), now) == At(db, key) && Look(db, key, now) == db
  {
    ArgDeclared(line, i);
    AliveSlots(db, Keys(line), now, line.args[i]);
  }

  lemma ArgDeclared(line: Line, i: nat)
    requires ArityFits(line) && (i == 0 || (i == 1 && line.op in {Rename, RenameNX, RPopLPush}))
    ensures line.args[i] in Keys(line)
  {
    var declared := Prepare(line);
    if line.op in {MSet, MSetNX} { assert EvenArgs(line.args)[0] == line.args[0]; }
    assert line.args[i] in declared.write + declared.read;
  }

  /** The job that the time wheel runs for a deadline: it looks again, and removes the key only if it is time. */
  function Fired(db: Db, key: Bytes, now: int): Db {
    if Expired(At(db, key).deadline, now) then Remove(db, key) else db
  }

  /** No reader can tell whether the job has run: a key is seen after it exactly as before. */
  lemma FiredUnseen(db: Db, key: Bytes, k: Bytes, now: int)
    ensures Seen(At(Fired(db, key, now), k), now).value == Seen(At(db, k), now).value
    ensures Expired(At(db, k).deadline, now) || At(Fired(db, key, now), k) == At(db, k)
  {
  }

  /** What holds of every slot: no container is empty, and a deadline has a value. */
  predicate Sound(s: Slot) {
    && (s.value.None? ==> s.deadline.None?)
    && (s.value.Some? && s.value.value.Hash? ==> s.value.value.fields != map[])
    && (s.value.Some? && s.value.value.List? ==> s.value.value.items != [])
  }

  ghost predicate SoundDb(db: Db) {
    forall k :: Sound(At(db, k))
  }
}
