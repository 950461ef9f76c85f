/** Undo logs, and when running them restores the database. */
module Undo {
  import opened Strconv
  import opened Commands
  import opened Slots
  import opened Engine
  import opened Marshal

  /** `toTTLCmd`. */
  function TtlLine(key: Bytes, deadline: Option<int>): Line {
    match deadline
    case None => Line(Persist, [key])
    case Some(d) => ExpireLine(key, d)
  }

  /** One turn of `rollbackGivenKeys`. For a list there is no command, and the code trips over that. */
  function UndoKey(key: Bytes, s: Slot): Option<seq<Line>> {
    if s.value.None? then Some([Line(Del, [key])])
    else match EntityToCmd(key, s.value.value)
      case None => None
      case Some(line) => Some([Line(Del, [key]), line, TtlLine(key, s.deadline)])
  }

  /** `rollbackGivenKeys`; expired keys are removed on the way. */
  function UndoKeys(db: Db, keys: seq<Bytes>, now: int): (Db, Option<seq<Line>>)
    decreases |keys|
  {
    if |keys| == 0 then (db, Some([]))
    else
      var seen := Look(db, keys[0], now);
      var first := UndoKey(keys[0], At(seen, keys[0]));
      if first.None? then (seen, None)
      else
        var rest := UndoKeys(seen, keys[1..], now);
        (rest.0, if rest.1.None? then None else Some(first.value + rest.1.value))
  }

  function UndoField(key: Bytes, m: map<Bytes, Field>, f: Bytes): Line {
    if f in m then Line(HSet, [key, f, FieldBytes(m[f])]) else Line(HDel, [key, f])
  }

  /** `rollbackHashFields`, for a key that has been seen. */
  function UndoFields(key: Bytes, s: Slot, fields: seq<Bytes>): (lines: seq<Line>)
  {
    if s.value.None? then [Line(Del, [key])]
    else if !IsHash(s) then []
    else seq(|fields|, i requires 0 <= i < |fields| => UndoField(key, Fields(s), fields[i]))
  }

  /** The fields that HMSET names. */
  function OddArgs(args: seq<Bytes>): seq<Bytes>
    requires |args| > 0
  {
    EvenArgs(args[1..])
  }

  function Touched(line: Line): seq<Bytes>
    requires ArityFits(line) && line.op in {HSet, HSetNX, HIncrBy, HDel, HMSet}
  {
    if line.op.HDel? then line.args[1..] else if line.op.HMSet? then OddArgs(line.args) else [line.args[1]]
  }

  function Repeat(line: Line, n: nat): seq<Line> {
    seq(n, i => line)
  }

  /** The undo of LPOP and RPOP, and the first line of the one of RPOPLPUSH. */
  function UndoPop(key: Bytes, s: Slot, left: bool): seq<Line> {
    if !IsList(s) || Items(s) == [] then []
    else if left then [Line(LPush, [key, Items(s)[0]])]
    else [Line(RPush, [key, Items(s)[|Items(s)| - 1]])]
  }

  function UndoLSet(s: Slot, args: seq<Bytes>): seq<Line>
    requires |args| == 3
  {
    match ParseInt64(args[1])
    case None => []
    case Some(index) =>
      if !IsList(s) || IndexIn(Items(s), index).None? then []
      else [Line(LSet, [args[0], args[1], Items(s)[IndexIn(Items(s), index).value]])]
  }

  function UndoList(s: Slot, line: Line): seq<Line>
    requires ListOp(line.op) && ArityFits(line)
  {
    var key, n := line.args[0], |line.args| - 1;
    match line.op
    case LPush | LPushX => Repeat(Line(LPop, [key]), n)
    case RPush | RPushX => Repeat(Line(RPop, [key]), n)
    case LPop => UndoPop(key, s, true)
    case RPop => UndoPop(key, s, false)
    case LSet => UndoLSet(s, line.args)
  }

  /** The undo functions of the list commands that look at the key; LSET does so once its index is an integer. */
  predicate UndoLooks(line: Line)
    requires ListOp(line.op) && ArityFits(line)
  {
    line.op in {LPop, RPop} || (line.op.LSet? && ParseInt64(line.args[1]).Some?)
  }

  function UndoMany(db: Db, line: Line, now: int): (Db, Option<seq<Line>>)
    requires !OneKey(line.op) && ArityFits(line)
  {
    var args := line.args;
    match line.op
    case Exists => (db, Some([]))
    case MSet | MSetNX => UndoKeys(db, EvenArgs(args), now)
    case Del => UndoKeys(db, args, now)
    case Rename | RenameNX => UndoKeys(db, [args[0], args[1]], now)
    case RPopLPush =>
      var pop := UndoPop(args[0], Seen(At(db, args[0]), now), false);
      (Look(db, args[0], now), Some(if pop == [] then [] else pop + [Line(LPop, [args[1]])]))
  }

  /** `GetUndoLogs`: the lines, or None where it panics. Looking at a key may already remove it. */
  function UndoLog(db: Db, line: Line, now: int): (Db, Option<seq<Line>>)
    requires ArityFits(line)
  {
    var args := line.args;
    if line.op in {Get, HGet} then (db, Some([]))
    else if StringOp(line.op) then UndoKeys(db, [args[0]], now)
    else if HashOp(line.op) then
      (Look(db, args[0], now), Some(UndoFields(args[0], Seen(At(db, args[0]), now), Touched(line))))
    else if ListOp(line.op) then
      (if UndoLooks(line) then Look(db, args[0], now) else db, Some(UndoList(Seen(At(db, args[0]), now), line)))
    else if TimeOp(line.op) then (db, Some([TtlLine(args[0], At(db, args[0]).deadline)]))
    else UndoMany(db, line, now)
  }

  /* ---- when an undo log restores what was there ---- */

  predicate Dumpable(s: Slot) {
    s.value.None? || (DumpableValue(s.value.value) && Dated(s.deadline))
  }

  /** The deadline that a command of the EXPIRE family sets. */
  function NewDeadline(line: Line, now: int): int
    requires ArityFits(line) && line.op in {Expire, ExpireAt, PExpire, PExpireAt} && ParseInt64(line.args[1]).Some?
  {
    ExpireTime(line.op, ParseInt64(line.args[1]).value, now)
  }

  /** A hash survives the undo when the touched fields were absent, or are the one Go string that undo can write. */
  predicate FieldsUndoable(s: Slot, line: Line)
    requires ArityFits(line) && line.op in {HSet, HSetNX, HIncrBy, HDel, HMSet}
  {
    IsHash(s) ==>
      && (forall f :: f in Touched(line) && f in Fields(s) ==> Fields(s)[f] == Text([]))
      && (line.op.HDel? && Fields(s).Keys <= SetOf(Touched(line)) ==> s.deadline.None?)
  }

  predicate PopUndoable(s: Slot) {
    IsList(s) && |Items(s)| == 1 ==> s.deadline.None?
  }

  /** What a caller can check before the command: its undo log will restore the database. */
  predicate Undoable(db: Db, line: Line, now: int)
    requires ArityFits(line)
  {
    var args, s := line.args, At(db, line.args[0]);
    match line.op
    case Persist => Dated(s.deadline)
    case Get | HGet | Exists | LSet | LPush | LPushX | RPush | RPushX => true
    case MSet | MSetNX => forall i :: 0 <= i < |EvenArgs(args)| ==> Dumpable(At(db, EvenArgs(args)[i]))
    case Del => forall i :: 0 <= i < |args| ==> Dumpable(At(db, args[i]))
    case Rename | RenameNX => Dumpable(At(db, args[0])) && Dumpable(At(db, args[1]))
    case HSet | HSetNX | HIncrBy | HDel | HMSet => FieldsUndoable(s, line)
    case LPop | RPop => PopUndoable(s)
    case RPopLPush => args[0] == args[1] || PopUndoable(s)
    case Expire | ExpireAt | PExpire | PExpireAt =>
      s.value.Some? ==> Dated(s.deadline) && (ParseInt64(args[1]).Some? ==> now <= NewDeadline(line, now))
    case _ => Dumpable(s)
  }

  /** The undo log is there, and running it after the command leads back. */
  ghost predicate Restores(db: Db, line: Line, now: int)
    requires ArityFits(line)
  {
    var undo := UndoLog(db, line, now);
    undo.1.Some? && ExecAll(Exec(undo.0, line, now).db, undo.1.value, now) == db
  }
}
