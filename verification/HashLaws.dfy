/** Hashes as their users know them: what a command answers about a field, and what an HGET finds after it. */
module HashLaws {
  import opened Strconv
  import opened Commands
  import opened Slots
  import opened Engine

  predicate LivingHash(s: Slot, now: int) {
    HashOrNone(s) && !Expired(s.deadline, now)
  }

  /** What HGET answers for a field. */
  function FieldGot(s: Slot, key: Bytes, field: Bytes, now: int): Answer {
    RunOne(s, Line(HGet, [key, field]), now).answer
  }

  /** HGET finds the bytes of a field, but nothing where HSET has left a Go string, and changes nothing. */
  lemma HGetLaw(s: Slot, key: Bytes, field: Bytes, now: int)
    requires LivingHash(s, now)
    ensures RunOne(s, Line(HGet, [key, field]), now).slot == s
    ensures FieldGot(s, key, field, now)
         == if field in Fields(s) && Fields(s)[field].Raw? then Bulk(Fields(s)[field].bytes) else NoValue
  {
  }

  /** That field alone is another. */
  predicate OneField(s: Slot, field: Bytes, f: Field, after: Slot) {
    && IsHash(after) && HashOrNone(s) && after.deadline == s.deadline
    && field in Fields(after) && Fields(after)[field] == f
    && Fields(after).Keys == Fields(s).Keys + {field}
    && forall g :: g in Fields(s) && g != field ==> Fields(after)[g] == Fields(s)[g]
  }

  /** HSET says 1 for a new field and 0 for one that was there, and what it stores is not what HGET looks for. */
  lemma HSetLaw(s: Slot, key: Bytes, field: Bytes, value: Bytes, now: int)
    requires LivingHash(s, now)
    ensures var r := RunOne(s, Line(HSet, [key, field, value]), now);
            && r.answer == Int(if field in Fields(s) then 0 else 1)
            && OneField(s, field, Text(value), r.slot) && FieldGot(r.slot, key, field, now) == NoValue
  {
  }

  /** HSETNX stores a new field, which HGET then finds, and leaves one that was there. */
  lemma HSetNXLaw(s: Slot, key: Bytes, field: Bytes, value: Bytes, now: int)
    requires LivingHash(s, now)
    ensures var r := RunOne(s, Line(HSetNX, [key, field, value]), now);
            if field in Fields(s) then r.answer == Int(0) && r.slot == s
            else r.answer == Int(1) && OneField(s, field, Raw(value), r.slot) && FieldGot(r.slot, key, field, now) == Bulk(value)
  {
  }

  /** The number that a field holds. A field that is not there counts from zero. */
  function NumberIn(m: map<Bytes, Field>, field: Bytes): Option<int> {
    if field !in m then Some(0)
    else match m[field]
      case Raw(bytes) => ParseInt64(bytes)
      case Text(_) => None
  }

  function FieldNumber(s: Slot, field: Bytes): Option<int>
    requires HashOrNone(s)
  {
    NumberIn(Fields(s), field)
  }

  /** The field alone has these bytes now, and they are answered. */
  predicate Written(s: Slot, field: Bytes, bytes: Bytes, r: Outcome) {
    r.answer == Bulk(bytes) && OneField(s, field, Raw(bytes), r.slot)
  }

  /** The text of the sum v; the first one is the argument as it was written. */
  function SumText(m: map<Bytes, Field>, field: Bytes, change: Bytes, v: int): Bytes {
    if field in m then FormatInt(v) else change
  }

  /** The int64 that the sum overflows to is answered, as text, and stored; or there is no number and nothing changes. */
  predicate Summed(s: Slot, field: Bytes, change: Bytes, n: int, r: Outcome)
    requires HashOrNone(s)
  {
    var summed :=
      if FieldNumber(s, field).Some? then
        var v := Wrap64(FieldNumber(s, field).value + n);
        WrapsTo(FieldNumber(s, field).value + n, v) && Written(s, field, SumText(Fields(s), field, change, v), r)
      else (r.answer == Panicked || r.answer == Failed(HashNotInteger)) && r.slot == s;
    summed
  }

  /** HINCRBY adds, in int64, and answers the text of the sum, which HGET then finds. A field that is no number stays. */
  lemma HIncrByLaw(s: Slot, key: Bytes, field: Bytes, change: Bytes, n: int, now: int)
    requires LivingHash(s, now) && ParseInt64(change) == Some(n)
    ensures var r := RunOne(s, Line(HIncrBy, [key, field, change]), now);
            && Summed(s, field, change, n, r)
            && (r.answer.Bulk? ==> FieldGot(r.slot, key, field, now) == r.answer)
  {
    HIncrByRuns(s, key, field, change, now);
    SumLaw(s, field, change, n, RunOne(s, Line(HIncrBy, [key, field, change]), now));
    HIncrByFound(s, key, field, change, now);
  }

  lemma SumLaw(s: Slot, field: Bytes, change: Bytes, n: int, r: Outcome)
    requires HashOrNone(s) && ParseInt64(change) == Some(n)
    requires var sum := Incremented(Fields(s), field, n, change);
             if sum.Bulk? then Written(s, field, sum.bytes, r) else r.answer == sum && r.slot == s
    ensures Summed(s, field, change, n, r)
  {
    SumCases(Fields(s), field, n, change);
    if FieldNumber(s, field).Some? { SumWraps(Fields(s), field, change, n); }
  }

  lemma HIncrByFound(s: Slot, key: Bytes, field: Bytes, change: Bytes, now: int)
    requires LivingHash(s, now) && ParseInt64(change).Some?
    ensures var r := RunOne(s, Line(HIncrBy, [key, field, change]), now);
            r.answer.Bulk? ==> FieldGot(r.slot, key, field, now) == r.answer
  {
    HIncrByRuns(s, key, field, change, now);
    var r := RunOne(s, Line(HIncrBy, [key, field, change]), now);
    if r.answer.Bulk? { WrittenIsFound(s, key, field, r.answer.bytes, r, now); }
  }

  lemma SumWraps(m: map<Bytes, Field>, field: Bytes, change: Bytes, n: int)
    requires NumberIn(m, field).Some? && ParseInt64(change) == Some(n)
    ensures WrapsTo(NumberIn(m, field).value + n, Wrap64(NumberIn(m, field).value + n))
  {
    FieldInt64(m, field);
    WrapLaw(NumberIn(m, field).value + n);
  }

  lemma WrittenIsFound(s: Slot, key: Bytes, field: Bytes, bytes: Bytes, r: Outcome, now: int)
    requires LivingHash(s, now) && Written(s, field, bytes, r)
    ensures FieldGot(r.slot, key, field, now) == r.answer
  {
    HGetLaw(r.slot, key, field, now);
  }

  lemma HIncrByRuns(s: Slot, key: Bytes, field: Bytes, change: Bytes, now: int)
    requires LivingHash(s, now) && ParseInt64(change).Some?
    ensures var r, sum := RunOne(s, Line(HIncrBy, [key, field, change]), now),
                          Incremented(Fields(s), field, ParseInt64(change).value, change);
            if sum.Bulk? then Written(s, field, sum.bytes, r) else r.answer == sum && r.slot == s
  {
  }

  lemma SumCases(m: map<Bytes, Field>, field: Bytes, n: int, change: Bytes)
    ensures var number, sum := NumberIn(m, field), Incremented(m, field, n, change);
            if number.Some? then sum == Bulk(SumText(m, field, change, Wrap64(number.value + n)))
            else sum == Panicked || sum == Failed(HashNotInteger)
  {
  }

  lemma FieldInt64(m: map<Bytes, Field>, field: Bytes)
    requires NumberIn(m, field).Some?
    ensures MIN_INT64 <= NumberIn(m, field).value <= MAX_INT64
  {
  }

  /** The text is read as the sum, so that the next HINCRBY goes on from it. */
  lemma SumReads(m: map<Bytes, Field>, field: Bytes, change: Bytes, n: int, v: int)
    requires ParseInt64(change) == Some(n) && NumberIn(m, field).Some? && WrapsTo(NumberIn(m, field).value + n, v)
    ensures NumberIn(m[field := Raw(SumText(m, field, change, v))], field) == Some(v)
  {
    if field in m { ParseFormatInt(v); }
  }

  /* ---- several fields ---- */

  /** HDEL answers how many different fields it has taken away; the others stay, and a hash without fields goes. */
  lemma HDelLaw(s: Slot, line: Line, now: int)
    requires line.op.HDel? && ArityFits(line) && LivingHash(s, now) && Sound(s)
    ensures var named, r := (set f | f in line.args[1..]), RunOne(s, line, now);
            && HashOrNone(r.slot) && r.answer == Int(|Fields(s).Keys * named|) && Fields(r.slot) == Fields(s) - named
            && r.slot.deadline == if Fields(r.slot) == map[] then None else s.deadline
  {
    HDelRuns(s, line, now);
    RemovedCount(Fields(s), line.args[1..]);
    NamesAre(line.args[1..]);
  }

  lemma NamesAre(names: seq<Bytes>)
    ensures SetOf(names) == set f | f in names
  {
  }

  lemma HDelRuns(s: Slot, line: Line, now: int)
    requires line.op.HDel? && ArityFits(line) && LivingHash(s, now) && Sound(s)
    ensures var r, left := RunOne(s, line, now), Fields(s) - SetOf(line.args[1..]);
            && HashOrNone(r.slot) && Fields(r.slot) == left && r.slot.deadline == (if left == map[] then None else s.deadline)
            && r.answer == Int(CountRemoved(Fields(s), line.args[1..]))
  {
    if s.value.None? { NothingRemoved(line.args[1..]); }
  }

  lemma {:induction false} NothingRemoved(fields: seq<Bytes>)
    ensures CountRemoved(map[], fields) == 0
    decreases |fields|
  {
    var none: map<Bytes, Field> := map[];
    if |fields| > 0 {
      NothingRemoved(fields[1..]);
      assert none - {fields[0]} == none;
    }
  }

  lemma {:induction false} RemovedCount(m: map<Bytes, Field>, fields: seq<Bytes>)
    ensures CountRemoved(m, fields) == |m.Keys * SetOf(fields)|
    decreases |fields|
  {
    if |fields| == 0 {
      assert m.Keys * SetOf(fields) == {};
    } else {
      RemovedCount(m - {fields[0]}, fields[1..]);
      OneLess(m.Keys, (m - {fields[0]}).Keys, fields);
    }
  }

  lemma OneLess(keys: set<Bytes>, rest: set<Bytes>, fields: seq<Bytes>)
    requires |fields| > 0 && rest == keys - {fields[0]}
    ensures |keys * SetOf(fields)| == |rest * SetOf(fields[1..])| + if fields[0] in keys then 1 else 0
  {
    var more := rest * SetOf(fields[1..]);
    assert fields == [fields[0]] + fields[1..] && fields[0] !in more;
    if fields[0] in keys { assert keys * SetOf(fields) == more + {fields[0]}; }
    else { assert keys * SetOf(fields) == more; }
  }

  /** Pair i after the key is the last one that names the field. */
  predicate LastField(args: seq<Bytes>, field: Bytes, i: nat) {
    && i < (|args| - 1) / 2 && args[2 * i + 1] == field
    && forall j :: i < j < (|args| - 1) / 2 ==> args[2 * j + 1] != field
  }

  predicate NamesField(args: seq<Bytes>, field: Bytes) {
    exists i :: 0 <= i < (|args| - 1) / 2 && args[2 * i + 1] == field
  }

  predicate Same(m: map<Bytes, Field>, after: map<Bytes, Field>, field: Bytes) {
    (field in after <==> field in m) && (field in m ==> after[field] == m[field])
  }

  lemma {:induction false} PutPairsLaw(m: map<Bytes, Field>, args: seq<Bytes>, at: nat, field: Bytes, i: nat)
    requires LastField(args, field, i) && at <= 2 * i + 1 && at % 2 == 1
    ensures field in PutPairs(m, args, at) && PutPairs(m, args, at)[field] == Raw(args[2 * i + 2])
    decreases |args| - at
  {
    var next := m[args[at] := Raw(args[at + 1])];
    if at == 2 * i + 1 { PutPairsOther(next, args, at + 2, field); } else { PutPairsLaw(next, args, at + 2, field, i); }
  }

  lemma {:induction false} PutPairsOther(m: map<Bytes, Field>, args: seq<Bytes>, at: nat, field: Bytes)
    requires at % 2 == 1 && forall j :: at / 2 <= j < (|args| - 1) / 2 ==> args[2 * j + 1] != field
    ensures Same(m, PutPairs(m, args, at), field)
    decreases |args| - at
  {
    if at + 1 < |args| {
      assert args[2 * (at / 2) + 1] != field;
      PutPairsOther(m[args[at] := Raw(args[at + 1])], args, at + 2, field);
    }
  }

  /** HMSET: the last value given for a field is the one that HGET finds; every other field, and the deadline, stay. */
  lemma HMSetLaw(s: Slot, line: Line, now: int)
    requires line.op.HMSet? && ArityFits(line) && |line.args| % 2 == 1 && LivingHash(s, now)
    ensures var r := RunOne(s, line, now);
            && r.answer == Ok && IsHash(r.slot) && r.slot.deadline == s.deadline
            && (forall field, i: nat :: LastField(line.args, field, i) ==>
                  FieldGot(r.slot, line.args[0], field, now) == Bulk(line.args[2 * i + 2]))
            && (forall field :: !NamesField(line.args, field) ==> Same(Fields(s), Fields(r.slot), field))
  {
    var r, after := RunOne(s, line, now), PutPairs(Fields(s), line.args, 1);
    HMSetRuns(s, line, now);
    forall field, i: nat | LastField(line.args, field, i)
      ensures FieldGot(r.slot, line.args[0], field, now) == Bulk(line.args[2 * i + 2])
    {
      PutPairsLaw(Fields(s), line.args, 1, field, i);
      HGetLaw(r.slot, line.args[0], field, now);
    }
    forall field | !NamesField(line.args, field) ensures Same(Fields(s), Fields(r.slot), field) {
      PutPairsOther(Fields(s), line.args, 1, field);
    }
  }

  lemma HMSetRuns(s: Slot, line: Line, now: int)
    requires line.op.HMSet? && ArityFits(line) && |line.args| % 2 == 1 && LivingHash(s, now)
    ensures var r := RunOne(s, line, now);
            r.answer == Ok && IsHash(r.slot) && r.slot.deadline == s.deadline
            && Fields(r.slot) == PutPairs(Fields(s), line.args, 1)
  {
  }
}
