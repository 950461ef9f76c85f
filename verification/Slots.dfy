/** The values of a database, and the executors of the commands on one key. */
module Slots {
  import opened Strconv
  import opened Commands

  /** HSET stores a Go string, the other hash commands store bytes. Readers expect bytes. */
  datatype Field = Raw(bytes: Bytes) | Text(chars: Bytes)

  datatype Value = Str(bytes: Bytes) | Hash(fields: map<Bytes, Field>) | List(items: seq<Bytes>)

  /** What the data and the TTL map hold for one key. A deadline without a value is possible: RENAME k k. */
  datatype Slot = Slot(value: Option<Value>, deadline: Option<int>)

  const EMPTY := Slot(None, None)

  datatype Failure =
    | Syntax | WrongType | NotInteger | HashNotInteger | InvalidExpire | NoSuchKey | OutOfRange | ArgNum

  /** A reply; `NoValue` is the null bulk, `Panicked` a panic of the executor. */
  datatype Answer = Ok | Int(n: int) | Bulk(bytes: Bytes) | NoValue | Failed(why: Failure) | Panicked

  datatype Outcome = Outcome(slot: Slot, answer: Answer, log: seq<Line>)

  /** A reply without any effect. */
  function Nothing(s: Slot, answer: Answer): Outcome {
    Outcome(s, answer, [])
  }

  predicate Expired(deadline: Option<int>, now: int) {
    deadline.Some? && now > deadline.value
  }

  /** `GetEntity`: an expired key is removed on sight. */
  function Seen(s: Slot, now: int): (r: Slot)
    ensures r == s || r == EMPTY
    ensures !Expired(s.deadline, now) ==> r == s
  {
    if s.value.Some? && Expired(s.deadline, now) then EMPTY else s
  }

  /** The milliseconds that int64 nanoseconds can hold: 292 years. */
  const MAX_MILLIS := 9_223_372_036_854

  /** Milliseconds turned into int64 nanoseconds and back, which is what is left of a duration, or of a time that is printed. */
  function Nanos(ms: int): (r: int)
    ensures -MAX_MILLIS <= r <= MAX_MILLIS
    ensures r == ms <==> -MAX_MILLIS <= ms <= MAX_MILLIS
  {
    var ns := Wrap64(ms * 1_000_000);
    if ns < 0 then -(-ns / 1_000_000) else ns / 1_000_000
  }

  /** `time.Now().Add(ttl)`. The sum of a time and a duration does not wrap. */
  function Deadline(now: int, ttl: int): int {
    now + Nanos(ttl)
  }

  /** A deadline that is the same after it has been printed: one before the year 2262. */
  predicate Dated(deadline: Option<int>) {
    deadline.Some? ==> -MAX_MILLIS <= deadline.value <= MAX_MILLIS
  }

  /** `MakeExpireCmd`, which prints nanoseconds. */
  function ExpireLine(key: Bytes, deadline: int): Line {
    Line(PExpireAt, [key, FormatInt(Nanos(deadline))])
  }

  function UpperChar(c: Byte): Byte {
    if 'a' <= c <= 'z' then (c as int - 32) as char else c
  }

  function Upper(s: Bytes): (r: Bytes)
    ensures |r| == |s| && forall i :: 0 <= i < |s| ==> r[i] == UpperChar(s[i])
  {
    seq(|s|, i requires 0 <= i < |s| => UpperChar(s[i]))
  }

  /* ---- strings ---- */

  datatype Policy = Upsert | Insert | Update

  datatype Options = Options(policy: Policy, ttl: int) | Bad(why: Failure)

  /** The argument of EX or PX at i + 1, in milliseconds. */
  function ParseTtl(args: seq<Bytes>, i: nat, ttl: int, unit: int): Options {
    if ttl != 0 || i + 1 >= |args| then Bad(Syntax)
    else match ParseInt64(args[i + 1])
      case None => Bad(Syntax)
      case Some(n) => if n <= 0 then Bad(InvalidExpire) else Options(Upsert, Wrap64(n * unit))
  }

  /** The option loop of SET from index i on. A TTL of 0 is no TTL. */
  function ParseSet(args: seq<Bytes>, i: nat, policy: Policy, ttl: int): Options
    decreases |args| - i
  {
    if i >= |args| then Options(policy, ttl)
    else
      var arg := Upper(args[i]);
      if arg == "NX" then (if policy.Update? then Bad(Syntax) else ParseSet(args, i + 1, Insert, ttl))
      else if arg == "XX" then (if policy.Insert? then Bad(Syntax) else ParseSet(args, i + 1, Update, ttl))
      else if arg == "EX" || arg == "PX" then
        var t := ParseTtl(args, i, ttl, if arg == "EX" then 1000 else 1);
        if t.Bad? then t else ParseSet(args, i + 2, policy, t.ttl)
      else Bad(Syntax)
  }

  function RunSet(s: Slot, args: seq<Bytes>, now: int): Outcome
    requires |args| >= 2
  {
    match ParseSet(args, 2, Upsert, 0)
    case Bad(why) => Nothing(s, Failed(why))
    case Options(policy, ttl) =>
      if (policy.Insert? && s.value.Some?) || (policy.Update? && s.value.None?) then Nothing(s, NoValue)
      else if ttl != 0 then
        Outcome(Slot(Some(Str(args[1])), Some(Deadline(now, ttl))), Ok,
                [Line(Set, [args[0], args[1]]), ExpireLine(args[0], Deadline(now, ttl))])
      else
        Outcome(Slot(Some(Str(args[1])), None), Ok, [Line(Set, args)])
  }

  function RunSetNX(s: Slot, args: seq<Bytes>): Outcome
    requires |args| == 2
  {
    var isNew := s.value.None?;
    Outcome(if isNew then s.(value := Some(Str(args[1]))) else s, Int(if isNew then 1 else 0), [Line(SetNX, args)])
  }

  /** SETEX and PSETEX; both log a line that says SETEX. */
  function RunSetEX(s: Slot, args: seq<Bytes>, now: int, unit: int): Outcome
    requires |args| == 3
  {
    match ParseInt64(args[1])
    case None => Nothing(s, Failed(Syntax))
    case Some(n) =>
      if n <= 0 then Nothing(s, Failed(InvalidExpire))
      else
        var deadline := Deadline(now, Wrap64(n * unit));
        Outcome(Slot(Some(Str(args[2])), Some(deadline)), Ok, [Line(SetEX, args), ExpireLine(args[0], deadline)])
  }

  /** `getAsString`, after the key has been seen. */
  function GetString(s: Slot): Answer {
    match s.value
    case None => NoValue
    case Some(Str(bytes)) => Bulk(bytes)
    case Some(_) => Failed(WrongType)
  }

  datatype GetExOptions = GetExOptions(ttl: int, persisted: bool) | BadGetEx(why: Failure, persisted: bool)

  /** The option loop of GETEX. PERSIST takes effect at once; words that are not options are passed over. */
  function ParseGetEx(args: seq<Bytes>, i: nat, ttl: int, persisted: bool): GetExOptions
    decreases |args| - i
  {
    if i >= |args| then GetExOptions(ttl, persisted)
    else
      var arg := Upper(args[i]);
      if arg == "EX" || arg == "PX" then
        var t := ParseTtl(args, i, ttl, if arg == "EX" then 1000 else 1);
        if t.Bad? then BadGetEx(t.why, persisted) else ParseGetEx(args, i + 2, t.ttl, persisted)
      else if arg == "PERSIST" then
        if ttl != 0 then BadGetEx(Syntax, persisted) else ParseGetEx(args, i + 1, ttl, true)
      else ParseGetEx(args, i + 1, ttl, persisted)
  }

  function RunGetEX(s: Slot, args: seq<Bytes>, now: int): Outcome
    requires |args| >= 1
  {
    if !GetString(s).Bulk? then Nothing(s, GetString(s))
    else match ParseGetEx(args, 1, 0, false)
      case BadGetEx(why, persisted) => Nothing(if persisted then s.(deadline := None) else s, Failed(why))
      case GetExOptions(ttl, persisted) =>
        if |args| == 1 then Nothing(s, GetString(s))
        else if ttl != 0 then
          Outcome(s.(deadline := Some(Deadline(now, ttl))), GetString(s), [ExpireLine(args[0], Deadline(now, ttl))])
        else
          Outcome(s.(deadline := None), GetString(s), [Line(Persist, [args[0]])])
  }

  function RunGetSet(s: Slot, args: seq<Bytes>): Outcome
    requires |args| == 2
  {
    if GetString(s).Failed? then Nothing(s, GetString(s))
    else Outcome(Slot(Some(Str(args[1])), None), GetString(s), [Line(Set, args)])
  }

  function RunGetDel(s: Slot, args: seq<Bytes>): Outcome {
    if !GetString(s).Bulk? then Nothing(s, GetString(s)) else Outcome(EMPTY, GetString(s), [Line(Del, args)])
  }

  /** INCR, INCRBY, DECR and DECRBY: add in int64, or start with `first`. */
  function RunAdd(s: Slot, line: Line, delta: int, first: Bytes): Outcome {
    match GetString(s)
    case Failed(why) => Nothing(s, Failed(why))
    case Bulk(bytes) =>
      (match ParseInt64(bytes)
       case None => Nothing(s, Failed(NotInteger))
       case Some(n) => Outcome(s.(value := Some(Str(FormatInt(Wrap64(n + delta))))), Int(Wrap64(n + delta)), [line]))
    case _ => Outcome(s.(value := Some(Str(first))), Int(Wrap64(delta)), [line])
  }

  function RunAddBy(s: Slot, line: Line): Outcome
    requires |line.args| == 2
  {
    match ParseInt64(line.args[1])
    case None => Nothing(s, Failed(NotInteger))
    case Some(delta) =>
      if line.op.DecrBy? then RunAdd(s, line, -delta, FormatInt(Wrap64(-delta))) else RunAdd(s, line, delta, line.args[1])
  }

  function RunAppend(s: Slot, args: seq<Bytes>): Outcome
    requires |args| == 2
  {
    if GetString(s).Failed? then Nothing(s, GetString(s))
    else
      var bytes := if s.value.Some? then s.value.value.bytes + args[1] else args[1];
      Outcome(s.(value := Some(Str(bytes))), Int(|bytes|), [Line(Append, args)])
  }

  /* ---- hashes ---- */

  predicate IsHash(s: Slot) {
    s.value.Some? && s.value.value.Hash?
  }

  /** `getOrInitDict` may go on. */
  predicate HashOrNone(s: Slot) {
    s.value.None? || s.value.value.Hash?
  }

  function Fields(s: Slot): map<Bytes, Field>
    requires HashOrNone(s)
  {
    if s.value.None? then map[] else s.value.value.fields
  }

  function RunHSet(s: Slot, args: seq<Bytes>): Outcome
    requires |args| == 3
  {
    if !HashOrNone(s) then Nothing(s, Failed(WrongType))
    else Outcome(s.(value := Some(Hash(Fields(s)[args[1] := Text(args[2])]))),
                 Int(if args[1] in Fields(s) then 0 else 1), [Line(HSet, args)])
  }

  /** The empty dictionary that a failing HSETNX or HINCRBY would leave behind cannot arise: a new one has no field. */
  function RunHSetNX(s: Slot, args: seq<Bytes>): Outcome
    requires |args| == 3
  {
    if !HashOrNone(s) then Nothing(s, Failed(WrongType))
    else if args[1] in Fields(s) then Nothing(s, Int(0))
    else Outcome(s.(value := Some(Hash(Fields(s)[args[1] := Raw(args[2])]))), Int(1), [Line(HSetNX, args)])
  }

  function RunHGet(s: Slot, args: seq<Bytes>): Answer
    requires |args| >= 2
  {
    if s.value.None? then NoValue
    else if !IsHash(s) then Failed(WrongType)
    else if args[1] in Fields(s) && Fields(s)[args[1]].Raw? then Bulk(Fields(s)[args[1]].bytes)
    else NoValue
  }

  /** Remove the fields one by one and count the ones that were there. */
  function CountRemoved(m: map<Bytes, Field>, fields: seq<Bytes>): (n: nat)
    decreases |fields|
  {
    if |fields| == 0 then 0
    else (if fields[0] in m then 1 else 0) + CountRemoved(m - {fields[0]}, fields[1..])
  }

  function SetOf(names: seq<Bytes>): set<Bytes> {
    set f | f in names
  }

  function RunHDel(s: Slot, args: seq<Bytes>): Outcome
    requires |args| >= 2
  {
    if s.value.None? then Nothing(s, Int(0))
    else if !IsHash(s) then Nothing(s, Failed(WrongType))
    else
      var n := CountRemoved(Fields(s), args[1..]);
      var left := Fields(s) - SetOf(args[1..]);
      Outcome(if left == map[] then EMPTY else s.(value := Some(Hash(left))), Int(n),
              if n > 0 then [Line(HDel, args)] else [])
  }

  /** The field and value pairs from index i on. */
  function PutPairs(m: map<Bytes, Field>, args: seq<Bytes>, i: nat): map<Bytes, Field>
    decreases |args| - i
  {
    if i + 1 >= |args| then m else PutPairs(m[args[i] := Raw(args[i + 1])], args, i + 2)
  }

  function RunHMSet(s: Slot, args: seq<Bytes>): Outcome
    requires |args| >= 3
  {
    if |args| % 2 != 1 then Nothing(s, Failed(Syntax))
    else if !HashOrNone(s) then Nothing(s, Failed(WrongType))
    else Outcome(s.(value := Some(Hash(PutPairs(Fields(s), args, 1)))), Ok, [Line(HMSet, args)])
  }

  /** The new bytes of a field. A field that HSET stored is not bytes: the type assertion panics. */
  function Incremented(m: map<Bytes, Field>, field: Bytes, delta: int, first: Bytes): Answer {
    if field !in m then Bulk(first)
    else match m[field]
      case Text(_) => Panicked
      case Raw(bytes) => match ParseInt64(bytes)
        case None => Failed(HashNotInteger)
        case Some(n) => Bulk(FormatInt(Wrap64(n + delta)))
  }

  function RunHIncrBy(s: Slot, args: seq<Bytes>): Outcome
    requires |args| == 3
  {
    match ParseInt64(args[2])
    case None => Nothing(s, Failed(NotInteger))
    case Some(delta) =>
      if !HashOrNone(s) then Nothing(s, Failed(WrongType))
      else
        var sum := Incremented(Fields(s), args[1], delta, args[2]);
        if !sum.Bulk? then Nothing(s, sum)
        else Outcome(s.(value := Some(Hash(Fields(s)[args[1] := Raw(sum.bytes)]))), sum, [Line(HIncrBy, args)])
  }

  /* ---- lists ---- */

  predicate IsList(s: Slot) {
    s.value.Some? && s.value.value.List?
  }

  predicate ListOrNone(s: Slot) {
    s.value.None? || s.value.value.List?
  }

  function Items(s: Slot): seq<Bytes>
    requires ListOrNone(s)
  {
    if s.value.None? then [] else s.value.value.items
  }

  /** Push values one by one at the head. */
  function PushLeft(l: seq<Bytes>, values: seq<Bytes>): seq<Bytes>
    decreases |values|
  {
    if |values| == 0 then l else PushLeft([values[0]] + l, values[1..])
  }

  function RunPush(s: Slot, line: Line, values: seq<Bytes>, left: bool, create: bool): Outcome {
    if !ListOrNone(s) then Nothing(s, Failed(WrongType))
    else if s.value.None? && !create then Nothing(s, Int(0))
    else
      var l := if left then PushLeft(Items(s), values) else Items(s) + values;
      Outcome(s.(value := Some(List(l))), Int(|l|), [line])
  }

  /** A list that has been emptied goes away, and its deadline with it. */
  function WithItems(s: Slot, l: seq<Bytes>): Slot {
    if l == [] then EMPTY else s.(value := Some(List(l)))
  }

  /** LPOP and RPOP. No list in the database is empty. */
  function RunPop(s: Slot, line: Line, left: bool): Outcome {
    if s.value.None? then Nothing(s, NoValue)
    else if !IsList(s) then Nothing(s, Failed(WrongType))
    else
      var l := Items(s);
      if |l| == 0 then (if left then Nothing(s, Panicked) else Outcome(EMPTY, NoValue, [line]))
      else if left then Outcome(WithItems(s, l[1..]), Bulk(l[0]), [line])
      else Outcome(WithItems(s, l[..|l| - 1]), Bulk(l[|l| - 1]), [line])
  }

  /** The place of an index, which counts from the end when it is negative. */
  function IndexIn(l: seq<Bytes>, index: int): Option<nat> {
    if 0 <= index < |l| then Some(index) else if -|l| <= index < 0 then Some(|l| + index) else None
  }

  function RunLSet(s: Slot, args: seq<Bytes>): Outcome
    requires |args| == 3
  {
    match ParseInt64(args[1])
    case None => Nothing(s, Failed(NotInteger))
    case Some(index) =>
      if s.value.None? then Nothing(s, Failed(NoSuchKey))
      else if !IsList(s) then Nothing(s, Failed(WrongType))
      else match IndexIn(Items(s), index)
        case None => Nothing(s, Failed(OutOfRange))
        case Some(k) => Outcome(s.(value := Some(List(Items(s)[k := args[2]]))), Ok, [Line(LSet, args)])
  }

  /* ---- deadlines ---- */

  /** Seconds between the zero time of Go and the Unix epoch. */
  const UNIX_TO_INTERNAL := 62_135_596_800

  /** `time.Unix(sec, 0)`, which counts int64 seconds from the zero time. */
  function UnixTime(sec: int): int {
    (Wrap64(sec + UNIX_TO_INTERNAL) - UNIX_TO_INTERNAL) * 1000
  }

  /** The time that an EXPIRE command sets. */
  function ExpireTime(op: Op, n: int, now: int): int
    requires op in {Expire, ExpireAt, PExpire, PExpireAt}
  {
    match op
    case Expire => Deadline(now, n * 1000)
    case ExpireAt => UnixTime(n)
    case PExpire => Deadline(now, n)
    case PExpireAt => Nanos(n)
  }

  function RunExpire(s: Slot, line: Line, now: int): Outcome
    requires line.op in {Expire, ExpireAt, PExpire, PExpireAt} && |line.args| == 2
  {
    match ParseInt64(line.args[1])
    case None => Nothing(s, Failed(NotInteger))
    case Some(n) =>
      if s.value.None? then Nothing(s, Int(0))
      else
        var deadline := ExpireTime(line.op, n, now);
        Outcome(s.(deadline := Some(deadline)), Int(1), [ExpireLine(line.args[0], deadline)])
  }

  function RunPersist(s: Slot, args: seq<Bytes>): Outcome {
    if s.value.None? || s.deadline.None? then Nothing(s, Int(0))
    else Outcome(s.(deadline := None), Int(1), [Line(Persist, args)])
  }

  function RunString(s: Slot, line: Line, now: int): Outcome
    requires StringOp(line.op) && ArityFits(line)
  {
    var args, seen := line.args, Seen(s, now);
    match line.op
    case Set => RunSet(s, args, now)
    case SetNX => RunSetNX(s, args)
    case SetEX => RunSetEX(s, args, now, 1000)
    case PSetEX => RunSetEX(s, args, now, 1)
    case Get => Nothing(seen, GetString(seen))
    case GetEX => RunGetEX(seen, args, now)
    case GetSet => RunGetSet(seen, args)
    case GetDel => RunGetDel(seen, args)
    case Incr => RunAdd(seen, line, 1, "1")
    case Decr => RunAdd(seen, line, -1, "-1")
    case IncrBy => if ParseInt64(args[1]).None? then Nothing(s, Failed(NotInteger)) else RunAddBy(seen, line)
    case DecrBy => if ParseInt64(args[1]).None? then Nothing(s, Failed(NotInteger)) else RunAddBy(seen, line)
    case Append => RunAppend(seen, args)
  }

  function RunHash(s: Slot, line: Line, now: int): Outcome
    requires HashOp(line.op) && ArityFits(line)
  {
    var args, seen := line.args, Seen(s, now);
    match line.op
    case HSet => RunHSet(seen, args)
    case HSetNX => RunHSetNX(seen, args)
    case HGet => Nothing(seen, RunHGet(seen, args))
    case HDel => RunHDel(seen, args)
    case HMSet => if |args| % 2 != 1 then Nothing(s, Failed(Syntax)) else RunHMSet(seen, args)
    case HIncrBy => if ParseInt64(args[2]).None? then Nothing(s, Failed(NotInteger)) else RunHIncrBy(seen, args)
  }

  function RunList(s: Slot, line: Line, now: int): Outcome
    requires ListOp(line.op) && ArityFits(line)
  {
    var args, seen := line.args, Seen(s, now);
    match line.op
    case LPush => RunPush(seen, line, args[1..], true, true)
    case LPushX => RunPush(seen, line, args[1..], true, false)
    case RPush => RunPush(seen, line, args[1..], false, true)
    case RPushX => RunPush(seen, line, args[1..], false, false)
    case LPop => RunPop(seen, line, true)
    case RPop => RunPop(seen, line, false)
    case LSet => if ParseInt64(args[1]).None? then Nothing(s, Failed(NotInteger)) else RunLSet(seen, args)
  }

  function RunTime(s: Slot, line: Line, now: int): Outcome
    requires TimeOp(line.op) && ArityFits(line)
  {
    var args, seen := line.args, Seen(s, now);
    if line.op.Persist? then RunPersist(seen, args)
    else if ParseInt64(args[1]).None? then Nothing(s, Failed(NotInteger))
    else RunExpire(seen, line, now)
  }

  /** The executor of a command on one key. */
  function RunOne(s: Slot, line: Line, now: int): Outcome
    requires OneKey(line.op) && ArityFits(line)
  {
    if StringOp(line.op) then RunString(s, line, now)
    else if HashOp(line.op) then RunHash(s, line, now)
    else if ListOp(line.op) then RunList(s, line, now)
    else RunTime(s, line, now)
  }
}
