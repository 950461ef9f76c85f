/** Command lines after the table lookup, and the keys that each command declares. */
module Commands {
  import opened Strconv

  datatype Op =
    | Set | SetNX | SetEX | PSetEX | MSet | MSetNX | Get | GetEX | GetSet | GetDel
    | Incr | IncrBy | Decr | DecrBy | Append
    | HSet | HSetNX | HGet | HDel | HMSet | HIncrBy
    | LPush | LPushX | RPush | RPushX | LPop | RPop | RPopLPush | LSet
    | Del | Exists | Rename | RenameNX | Expire | ExpireAt | PExpire | PExpireAt | Persist

  datatype Line = Line(op: Op, args: seq<Bytes>)

  /** The registered arity; it counts the command name, and a negative one is a minimum. HGET is registered twice. */
  function Arity(op: Op): int {
    match op
    case Incr | Decr | Get | GetDel | LPop | RPop | Persist => 2
    case SetNX | GetSet | IncrBy | DecrBy | Append | RPopLPush => 3
    case Rename | RenameNX | Expire | ExpireAt | PExpire | PExpireAt => 3
    case SetEX | PSetEX | HSet | HSetNX | HIncrBy | LSet => 4
    case GetEX | Del | Exists => -2
    case Set | MSet | MSetNX | HGet | HDel | LPush | LPushX | RPush | RPushX => -3
    case HMSet => -4
  }

  /** `validateArity`. */
  predicate ArityFits(line: Line) {
    var n := |line.args| + 1;
    if Arity(line.op) >= 0 then n == Arity(line.op) else n >= -Arity(line.op)
  }

  datatype Declared = Declared(write: seq<Bytes>, read: seq<Bytes>)

  /** The arguments at even positions: `prepareMSet` drops a last key without a value. */
  function EvenArgs(args: seq<Bytes>): (keys: seq<Bytes>)
    ensures |keys| == |args| / 2
    ensures forall i :: 0 <= i < |keys| ==> keys[i] == args[2 * i]
  {
    seq(|args| / 2, i requires 0 <= i < |args| / 2 => args[2 * i])
  }

  /** `prepare`: the keys that a command is said to write and to read. */
  function Prepare(line: Line): Declared
    requires ArityFits(line)
  {
    var args := line.args;
    match line.op
    case Get | HGet => Declared([], [args[0]])
    case Exists => Declared([], args)
    case Del => Declared(args, [])
    case MSet | MSetNX => Declared(EvenArgs(args), [])
    case RPopLPush => Declared([args[0], args[1]], [])
    case Rename | RenameNX => Declared([args[1]], [args[0]])
    case _ => Declared([args[0]], [])
  }

  predicate StringOp(op: Op) {
    match op
    case Set | SetNX | SetEX | PSetEX | Get | GetEX | GetSet | GetDel => true
    case Incr | IncrBy | Decr | DecrBy | Append => true
    case _ => false
  }

  predicate HashOp(op: Op) {
    match op
    case HSet | HSetNX | HGet | HDel | HMSet | HIncrBy => true
    case _ => false
  }

  predicate ListOp(op: Op) {
    match op
    case LPush | LPushX | RPush | RPushX | LPop | RPop | LSet => true
    case _ => false
  }

  predicate TimeOp(op: Op) {
    match op
    case Expire | ExpireAt | PExpire | PExpireAt | Persist => true
    case _ => false
  }

  /** The commands that look at one key only. */
  predicate OneKey(op: Op) {
    StringOp(op) || HashOp(op) || ListOp(op) || TimeOp(op)
  }
}
