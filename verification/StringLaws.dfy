/** Strings as their users know them: what a command answers about the old value, and what a GET finds after it. */
module StringLaws {
  import opened Strconv
  import opened Commands
  import opened Slots
  import opened Engine

  predicate Living(s: Slot, now: int) {
    !Expired(s.deadline, now)
  }

  predicate HoldsString(s: Slot) {
    s.value.Some? && s.value.value.Str?
  }

  /** What GET answers for the slot. */
  function Got(s: Slot, key: Bytes, now: int): Answer {
    RunOne(s, Line(Get, [key]), now).answer
  }

  /** GET answers the bytes; nothing for a key that is not there or has expired; an error for another kind of value. */
  lemma GetLaw(s: Slot, key: Bytes, now: int)
    ensures Living(s, now) ==> RunOne(s, Line(Get, [key]), now).slot == s
    ensures s.value.None? || !Living(s, now) ==> Got(s, key, now) == NoValue
    ensures Living(s, now) && HoldsString(s) ==> Got(s, key, now) == Bulk(s.value.value.bytes)
    ensures Living(s, now) && s.value.Some? && !HoldsString(s) ==> Got(s, key, now) == Failed(WrongType)
  {
  }

  /** SETNX stores exactly when there is nothing, and says 1 then. */
  lemma SetNXLaw(s: Slot, key: Bytes, value: Bytes, now: int)
    requires Sound(s)
    ensures var r := RunOne(s, Line(SetNX, [key, value]), now);
            if s.value.Some? then r.answer == Int(0) && r.slot == s
            else r.answer == Int(1) && r.slot == Slot(Some(Str(value)), None) && Got(r.slot, key, now) == Bulk(value)
  {
  }

  /** SETEX counts seconds and PSETEX milliseconds from now on; whatever was there goes. */
  lemma SetEXLaw(s: Slot, line: Line, n: int, now: int)
    requires line.op in {SetEX, PSetEX} && ArityFits(line) && ParseInt64(line.args[1]) == Some(n)
    ensures n <= 0 ==> RunOne(s, line, now) == Outcome(s, Failed(InvalidExpire), [])
    ensures var length, r := if line.op.SetEX? then 1000 * n else n, RunOne(s, line, now);
            0 < length <= MAX_MILLIS ==> r.answer == Ok && r.slot == Slot(Some(Str(line.args[2])), Some(now + length))
  {
  }

  /** A value that was stored for a while is found up to that time, that millisecond included, and not after it. */
  lemma SetEXLives(s: Slot, line: Line, n: int, now: int, later: int)
    requires line.op in {SetEX, PSetEX} && ArityFits(line) && ParseInt64(line.args[1]) == Some(n)
    requires 0 < (if line.op.SetEX? then 1000 * n else n) <= MAX_MILLIS
    ensures var length, after := if line.op.SetEX? then 1000 * n else n, RunOne(s, line, now).slot;
            Got(after, line.args[0], later) == if later - now <= length then Bulk(line.args[2]) else NoValue
  {
    SetEXLaw(s, line, n, now);
    GetLaw(RunOne(s, line, now).slot, line.args[0], later);
  }

  /** GETSET answers the old value, and the new one stays for good. */
  lemma GetSetLaw(s: Slot, key: Bytes, value: Bytes, now: int)
    requires Living(s, now)
    ensures var r := RunOne(s, Line(GetSet, [key, value]), now);
            && r.answer == Got(s, key, now)
            && r.slot == if s.value.Some? && !HoldsString(s) then s else Slot(Some(Str(value)), None)
  {
  }

  /** GETDEL answers the value and takes it away. */
  lemma GetDelLaw(s: Slot, key: Bytes, now: int)
    requires Living(s, now)
    ensures var r := RunOne(s, Line(GetDel, [key]), now);
            && r.answer == Got(s, key, now)
            && r.slot == if HoldsString(s) then EMPTY else s
  {
  }

  /** GETEX answers the value; with EX or PX it stays for that long, with PERSIST for good, with no option as long as before. */
  lemma GetEXLaw(s: Slot, key: Bytes, word: Bytes, duration: Bytes, n: int, now: int)
    requires Living(s, now) && HoldsString(s) && ParseInt64(duration) == Some(n)
    ensures var r := RunOne(s, Line(GetEX, [key]), now);
            r.answer == Got(s, key, now) && r.slot == s
    ensures var r := RunOne(s, Line(GetEX, [key, word, duration]), now);
            var length := if Upper(word) == EX then 1000 * n else n;
            Upper(word) in {EX, PX} && 0 < length <= MAX_MILLIS ==>
              r.answer == Got(s, key, now) && r.slot == s.(deadline := Some(now + length))
    ensures var r := RunOne(s, Line(GetEX, [key, word]), now);
            Upper(word) == PERSIST ==> r.answer == Got(s, key, now) && r.slot == s.(deadline := None)
  {
    TimedGetEX(key, word, duration, n);
    PersistGetEX(key, word);
  }

  const EX: Bytes := "EX"
  const PX: Bytes := "PX"
  const PERSIST: Bytes := "PERSIST"

  lemma TimedGetEX(key: Bytes, word: Bytes, duration: Bytes, n: int)
    requires ParseInt64(duration) == Some(n)
    ensures var length := if Upper(word) == EX then 1000 * n else n;
            Upper(word) in {EX, PX} && 0 < length <= MAX_MILLIS ==>
              ParseGetEx([key, word, duration], 1, 0, false) == GetExOptions(length, false)
  {
    var args := [key, word, duration];
    if Upper(word) in {EX, PX} && n > 0 {
      assert ParseGetEx(args, 1, 0, false) == ParseGetEx(args, 3, Wrap64(n * if Upper(word) == EX then 1000 else 1), false);
    }
  }

  lemma PersistGetEX(key: Bytes, word: Bytes)
    ensures Upper(word) == PERSIST ==> ParseGetEx([key, word], 1, 0, false) == GetExOptions(0, true)
  {
    var args := [key, word];
    if Upper(word) == PERSIST { assert ParseGetEx(args, 1, 0, false) == ParseGetEx(args, 2, 0, true); }
  }

  /* ---- counters ---- */

  /** The line adds this much. */
  predicate Adds(line: Line, change: int) {
    match line.op
    case Incr => |line.args| == 1 && change == 1
    case Decr => |line.args| == 1 && change == -1
    case IncrBy => |line.args| == 2 && ParseInt64(line.args[1]) == Some(change)
    case DecrBy => |line.args| == 2 && ParseInt64(line.args[1]) == Some(-change)
    case _ => false
  }

  /** The number that the slot holds. A key that is not there counts from zero. */
  function Number(s: Slot): Option<int> {
    match s.value
    case None => Some(0)
    case Some(Str(bytes)) => ParseInt64(bytes)
    case Some(_) => None
  }

  /** The text of the number v; the first value of INCRBY is the argument as it was written. */
  function TextOf(s: Slot, line: Line, v: int): Bytes {
    if s.value.None? && line.op.IncrBy? && |line.args| == 2 then line.args[1] else FormatInt(v)
  }

  /** The four counters add, in int64, answer the number and store its text; a value that is no number stays. */
  lemma CounterLaw(s: Slot, line: Line, change: int, now: int)
    requires Adds(line, change) && Living(s, now)
    ensures var r := RunOne(s, line, now);
            if Number(s).Some? then
              && r.answer.Int? && WrapsTo(Number(s).value + change, r.answer.n)
              && r.slot == s.(value := Some(Str(TextOf(s, line, r.answer.n))))
            else r.answer.Failed? && r.slot == s
  {
    CounterRuns(s, line, change, now);
    AddRuns(s, line, change, FirstBytes(line, change));
    if Number(s).Some? {
      NumberIsInt64(s);
      ChangeIsSmall(line, change);
      WrapLaw(Number(s).value + change);
    }
  }

  lemma NumberIsInt64(s: Slot)
    requires Number(s).Some?
    ensures MIN_INT64 <= Number(s).value <= MAX_INT64
  {
  }

  lemma ChangeIsSmall(line: Line, change: int)
    requires Adds(line, change)
    ensures MIN_INT64 <= change <= MAX_INT64 + 1
  {
  }

  function FirstBytes(line: Line, change: int): Bytes
    requires Adds(line, change)
  {
    if line.op.IncrBy? then line.args[1] else FormatInt(Wrap64(change))
  }

  lemma CounterRuns(s: Slot, line: Line, change: int, now: int)
    requires Adds(line, change) && Living(s, now)
    ensures RunOne(s, line, now) == RunAdd(s, line, change, FirstBytes(line, change))
  {
    var one: Bytes, minusOne: Bytes := "1", "-1";
    assert FormatInt(1) == one && FormatInt(-1) == minusOne;
  }

  lemma AddRuns(s: Slot, line: Line, change: int, first: Bytes)
    ensures var r := RunAdd(s, line, change, first);
            if Number(s).Some? then
              var v := Wrap64(Number(s).value + change);
              r == Outcome(s.(value := Some(Str(if s.value.None? then first else FormatInt(v)))), Int(v), [line])
            else r.answer.Failed? && r.slot == s
  {
  }

  /** The text is read as the number, so that the next counter goes on from it. */
  lemma TextReads(s: Slot, line: Line, change: int, v: int)
    requires Adds(line, change) && Number(s).Some? && WrapsTo(Number(s).value + change, v)
    ensures ParseInt64(TextOf(s, line, v)) == Some(v)
  {
    if !(s.value.None? && line.op.IncrBy?) { ParseFormatInt(v); }
  }

  predicate Counted(s: Slot, n: int, r: Outcome) {
    r.answer.Int? && WrapsTo(n, r.answer.n) && r.slot.value.Some? && Number(r.slot) == Some(r.answer.n) && r.slot.deadline == s.deadline
  }

  lemma Counts(s: Slot, line: Line, change: int, now: int)
    requires Adds(line, change) && Living(s, now) && Number(s).Some?
    ensures Counted(s, Number(s).value + change, RunOne(s, line, now))
  {
    CounterLaw(s, line, change, now);
    TextReads(s, line, change, RunOne(s, line, now).answer.n);
  }

  /** A line that takes away what another added undoes it, also after an overflow: DECR undoes INCR, DECRBY n INCRBY n. */
  lemma DownUndoesUp(s: Slot, up: Line, down: Line, n: int, m: int, now: int)
    requires Adds(up, n) && Adds(down, m) && n + m == 0 && Living(s, now) && Number(s).Some?
    ensures var r := RunOne(RunOne(s, up, now).slot, down, now);
            r.answer == Int(Number(s).value) && Number(r.slot) == Number(s) && r.slot.deadline == s.deadline
  {
    Counts(s, up, n, now);
    Lowers(s, RunOne(s, up, now), down, n, m, now);
  }

  lemma Lowers(s: Slot, up: Outcome, down: Line, n: int, m: int, now: int)
    requires Number(s).Some? && Counted(s, Number(s).value + n, up) && Adds(down, m) && n + m == 0 && Living(s, now)
    ensures var r := RunOne(up.slot, down, now);
            r.answer == Int(Number(s).value) && Number(r.slot) == Number(s) && r.slot.deadline == s.deadline
  {
    Counts(up.slot, down, m, now);
    BackAgain(s, up, RunOne(up.slot, down, now), n, m);
  }

  lemma BackAgain(s: Slot, up: Outcome, down: Outcome, n: int, m: int)
    requires Number(s).Some? && Counted(s, Number(s).value + n, up) && n + m == 0
    requires Counted(up.slot, Number(up.slot).value + m, down)
    ensures down.answer == Int(Number(s).value) && Number(down.slot) == Number(s) && down.slot.deadline == s.deadline
  {
    NumberIsInt64(s);
    AddedAndTaken(Number(s).value, n, m, up.answer.n, down.answer.n);
  }

  /** APPEND puts the bytes at the end, answers the length, and keeps the deadline. */
  lemma AppendLaw(s: Slot, key: Bytes, more: Bytes, now: int)
    requires Living(s, now)
    ensures var r := RunOne(s, Line(Append, [key, more]), now);
            && (HoldsString(s) ==> Got(r.slot, key, now) == Bulk(s.value.value.bytes + more) && r.slot.deadline == s.deadline)
            && (s.value.None? ==> Got(r.slot, key, now) == Bulk(more) && r.slot.deadline == s.deadline)
            && (HoldsString(r.slot) ==> r.answer == Int(|r.slot.value.value.bytes|))
            && (s.value.Some? && !HoldsString(s) ==> r.answer == Failed(WrongType) && r.slot == s)
  {
  }

  /* ---- several keys ---- */

  /** Pair i is the last one that names the key. */
  predicate LastPair(args: seq<Bytes>, key: Bytes, i: nat) {
    && i < |args| / 2 && args[2 * i] == key
    && forall j :: i < j < |args| / 2 ==> args[2 * j] != key
  }

  predicate Named(args: seq<Bytes>, key: Bytes) {
    exists i :: 0 <= i < |args| / 2 && args[2 * i] == key
  }

  /** The value of the last pair that names the key stays. */
  lemma {:induction false} PutValuesLaw(db: Db, args: seq<Bytes>, at: nat, key: Bytes, i: nat)
    requires LastPair(args, key, i) && at <= 2 * i && at % 2 == 0
    ensures At(PutValues(db, args, at), key) == At(db, key).(value := Some(Str(args[2 * i + 1])))
    decreases |args| - at
  {
    var next := PutSlot(db, args[at], At(db, args[at]).(value := Some(Str(args[at + 1]))));
    if at == 2 * i { PutValuesOther(next, args, at + 2, key); } else { PutValuesLaw(next, args, at + 2, key, i); }
  }

  lemma {:induction false} PutValuesOther(db: Db, args: seq<Bytes>, at: nat, key: Bytes)
    requires at % 2 == 0 && forall j :: at / 2 <= j < |args| / 2 ==> args[2 * j] != key
    ensures At(PutValues(db, args, at), key) == At(db, key)
    decreases |args| - at
  {
    if at + 1 < |args| {
      assert args[2 * (at / 2)] != key;
      PutValuesOther(PutSlot(db, args[at], At(db, args[at]).(value := Some(Str(args[at + 1])))), args, at + 2, key);
    }
  }

  /** MSET: the last value given for a key is the one it has; its deadline and every other key stay. */
  lemma MSetLaw(db: Db, line: Line, now: int)
    requires line.op.MSet? && ArityFits(line) && |line.args| % 2 == 0
    ensures var r := Exec(db, line, now);
            && r.answer == Ok
            && (forall key, i: nat :: LastPair(line.args, key, i) ==> At(r.db, key) == At(db, key).(value := Some(Str(line.args[2 * i + 1]))))
            && (forall key :: !Named(line.args, key) ==> At(r.db, key) == At(db, key))
  {
    PutAll(db, line.args);
  }

  lemma PutAll(db: Db, args: seq<Bytes>)
    ensures forall key, i: nat :: LastPair(args, key, i) ==>
              At(PutValues(db, args, 0), key) == At(db, key).(value := Some(Str(args[2 * i + 1])))
    ensures forall key :: !Named(args, key) ==> At(PutValues(db, args, 0), key) == At(db, key)
  {
    forall key, i: nat | LastPair(args, key, i)
      ensures At(PutValues(db, args, 0), key) == At(db, key).(value := Some(Str(args[2 * i + 1])))
    {
      PutValuesLaw(db, args, 0, key, i);
    }
    forall key | !Named(args, key) ensures At(PutValues(db, args, 0), key) == At(db, key) {
      PutValuesOther(db, args, 0, key);
    }
  }

  /** MSETNX: one key that is there is enough to change nothing; otherwise it does what MSET does. */
  lemma MSetNXLaw(db: Db, line: Line, now: int)
    requires line.op.MSetNX? && ArityFits(line) && |line.args| % 2 == 0 && Alive(db, Keys(line), now)
    ensures var r := Exec(db, line, now);
            if exists key :: Named(line.args, key) && At(db, key).value.Some? then r.answer == Int(0) && r.db == db
            else r.answer == Int(1) && r.db == Exec(db, Line(MSet, line.args), now).db
  {
    var keys := EvenArgs(line.args);
    forall key ensures Named(line.args, key) <==> key in keys { NamedIsKey(line.args, key); }
    assert Keys(line) == SetOf(keys) + SetOf([]);
    FindsAny(db, keys, now);
  }

  lemma NamedIsKey(args: seq<Bytes>, key: Bytes)
    ensures Named(args, key) <==> key in EvenArgs(args)
  {
    if Named(args, key) {
      var i :| 0 <= i < |args| / 2 && args[2 * i] == key;
      assert EvenArgs(args)[i] == key;
    }
  }

  lemma {:induction false} FindsAny(db: Db, keys: seq<Bytes>, now: int)
    requires Alive(db, SetOf(keys), now)
    ensures FindAny(db, keys, now) == (db, exists key :: key in keys && At(db, key).value.Some?)
    decreases |keys|
  {
    if |keys| > 0 {
      AliveSlots(db, SetOf(keys), now, keys[0]);
      assert forall k :: k in keys[1..] ==> k in SetOf(keys);
      FindsAny(db, keys[1..], now);
      assert keys == [keys[0]] + keys[1..];
    }
  }
}
