/** The names of the commands, as they stand first in a command line. */
module Names {
  import opened Strconv
  import opened Commands

  /** The registered name, in lower case. */
  function Name(op: Op): Bytes {
    match op
    case Set => "set"
    case SetNX => "setnx"
    case SetEX => "setex"
    case PSetEX => "psetex"
    case MSet => "mset"
    case MSetNX => "msetnx"
    case Get => "get"
    case GetEX => "getex"
    case GetSet => "getset"
    case GetDel => "getdel"
    case Incr => "incr"
    case IncrBy => "incrby"
    case Decr => "decr"
    case DecrBy => "decrby"
    case Append => "append"
    case HSet => "hset"
    case HSetNX => "hsetnx"
    case HGet => "hget"
    case HDel => "hdel"
    case HMSet => "hmset"
    case HIncrBy => "hincrby"
    case LPush => "lpush"
    case LPushX => "lpushx"
    case RPush => "rpush"
    case RPushX => "rpushx"
    case LPop => "lpop"
    case RPop => "rpop"
    case RPopLPush => "rpoplpush"
    case LSet => "lset"
    case Del => "del"
    case Exists => "exists"
    case Rename => "rename"
    case RenameNX => "renamenx"
    case Expire => "expire"
    case ExpireAt => "expireat"
    case PExpire => "pexpire"
    case PExpireAt => "pexpireat"
    case Persist => "persist"
  }

  /** The only command of the table that a name of this shape can be. */
  function Candidate(name: Bytes): Option<Op>
    requires |name| >= 3
  {
    var a, b, d := name[0], name[1], if |name| > 3 then name[3] else ' ';
    if |name| == 3 then
      (if a == 's' then Some(Set)
       else if a == 'g' then Some(Get)
       else if a == 'd' then Some(Del)
       else None)
    else if |name| == 4 then
      (if a == 'm' then Some(MSet)
       else if a == 'i' then Some(Incr)
       else if a == 'd' then Some(Decr)
       else if a == 'h' && b == 's' then Some(HSet)
       else if b == 'g' then Some(HGet)
       else if b == 'd' then Some(HDel)
       else if a == 'l' && b == 'p' then Some(LPop)
       else if a == 'r' then Some(RPop)
       else if a == 'l' && b == 's' then Some(LSet)
       else None)
    else if |name| == 5 then
      (if d == 'n' then Some(SetNX)
       else if a == 's' && d == 'e' then Some(SetEX)
       else if a == 'g' then Some(GetEX)
       else if a == 'h' then Some(HMSet)
       else if a == 'l' then Some(LPush)
       else if a == 'r' then Some(RPush)
       else None)
    else if |name| == 6 then
      (if a == 'p' then Some(PSetEX)
       else if a == 'm' then Some(MSetNX)
       else if a == 'g' && d == 's' then Some(GetSet)
       else if d == 'd' then Some(GetDel)
       else if a == 'i' then Some(IncrBy)
       else if a == 'd' then Some(DecrBy)
       else if a == 'a' then Some(Append)
       else if a == 'h' then Some(HSetNX)
       else if a == 'l' then Some(LPushX)
       else if a == 'r' && b == 'p' then Some(RPushX)
       else if a == 'e' && d == 's' then Some(Exists)
       else if d == 'a' then Some(Rename)
       else if d == 'i' then Some(Expire)
       else None)
    else if |name| == 7 then
      (if a == 'h' then Some(HIncrBy)
       else if d == 'p' then Some(PExpire)
       else if d == 's' then Some(Persist)
       else None)
    else if |name| == 8 then
      (if a == 'r' then Some(RenameNX)
       else if a == 'e' then Some(ExpireAt)
       else None)
    else if |name| == 9 then
      (if a == 'r' then Some(RPopLPush)
       else if a == 'p' then Some(PExpireAt)
       else None)
    else None
  }

  /** The table lookup. */
  function Lookup(name: Bytes): (op: Option<Op>)
    ensures op.Some? ==> Name(op.value) == name
  {
    if |name| < 3 then None
    else
      var c := Candidate(name);
      if c.Some? && Name(c.value) == name then c else None
  }

  /** The lookup finds every command by its name, and no name belongs to two commands. */
  lemma LookupFinds(name: Bytes, op: Op)
    ensures Lookup(name) == Some(op) <==> Name(op) == name
  {
    NameIsCandidate(op);
  }

  lemma NameIsCandidate(op: Op)
    ensures 3 <= |Name(op)| <= 9 && Candidate(Name(op)) == Some(op) && Name(op)[0] != '$'
  {
  }

  function LowerChar(c: Byte): Byte {
    if 'A' <= c <= 'Z' then (c as int + 32) as char else c
  }

  /** `strings.ToLower`, for ASCII. */
  function Lower(s: Bytes): (r: Bytes)
    ensures |r| == |s| && forall i :: 0 <= i < |s| ==> r[i] == LowerChar(s[i])
  {
    seq(|s|, i requires 0 <= i < |s| => LowerChar(s[i]))
  }

  lemma NameIsLower(op: Op)
    ensures Lower(Name(op)) == Name(op)
  {
    var n := Name(op);
    assert |n| <= 9;
    forall i | 0 <= i < |n| ensures LowerChar(n[i]) == n[i] {
      NameCharIsLower(op, i);
    }
  }

  lemma NameCharIsLower(op: Op, i: nat)
    requires i < |Name(op)|
    ensures 'a' <= Name(op)[i] <= 'z'
  {
  }

  /** The word, in capital or small letters. */
  predicate Spells(word: Bytes, name: Bytes) {
    |word| == |name| && forall i :: 0 <= i < |word| ==> word[i] == name[i] || word[i] as int + 32 == name[i] as int
  }

  /** A command is found by its name in capital or small letters, and by nothing else. */
  lemma LookupAnyCase(word: Bytes, op: Op)
    ensures Lookup(Lower(word)) == Some(op) <==> Spells(word, Name(op))
  {
    LookupFinds(Lower(word), op);
    forall i | 0 <= i < |Name(op)| ensures 'a' <= Name(op)[i] <= 'z' { NameCharIsLower(op, i); }
    LowerSpells(word, Name(op));
  }

  lemma LowerSpells(word: Bytes, name: Bytes)
    requires forall i :: 0 <= i < |name| ==> 'a' <= name[i] <= 'z'
    ensures Lower(word) == name <==> Spells(word, name)
  {
    if Spells(word, name) { assert Lower(word) == name; }
  }
}
