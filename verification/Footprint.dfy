/** The keys that a command depends on and changes, and the commands that therefore commute. */
module Footprint {
  import opened Strconv
  import opened Commands
  import opened Slots
  import opened Engine

  ghost predicate Agree(a: Db, b: Db, keys: set<Bytes>) {
    forall k :: k in keys ==> At(a, k) == At(b, k)
  }

  /** Nothing but these keys differs. */
  ghost predicate SameOutside(a: Db, b: Db, keys: set<Bytes>) {
    forall k :: k !in keys ==> At(a, k) == At(b, k)
  }

  predicate Within(names: seq<Bytes>, keys: set<Bytes>) {
    forall i :: 0 <= i < |names| ==> names[i] in keys
  }

  /* ---- the loops over keys are local ---- */

  lemma {:induction false} RemovesLocal(a: Db, b: Db, names: seq<Bytes>, keys: set<Bytes>)
    requires Agree(a, b, keys) && Within(names, keys)
    ensures Removes(a, names).1 == Removes(b, names).1
    ensures Agree(Removes(a, names).0, Removes(b, names).0, keys) && SameOutside(Removes(a, names).0, a, keys)
    decreases |names|
  {
    if |names| > 0 {
      assert At(a, names[0]) == At(b, names[0]);
      var removing := names[0] in a.data;
      RemovesLocal(if removing then Remove(a, names[0]) else a, if removing then Remove(b, names[0]) else b, names[1..], keys);
    }
  }

  lemma {:induction false} CountSeenLocal(a: Db, b: Db, names: seq<Bytes>, now: int, keys: set<Bytes>)
    requires Agree(a, b, keys) && Within(names, keys)
    ensures CountSeen(a, names, now).1 == CountSeen(b, names, now).1
    ensures Agree(CountSeen(a, names, now).0, CountSeen(b, names, now).0, keys)
    ensures SameOutside(CountSeen(a, names, now).0, a, keys)
    decreases |names|
  {
    if |names| > 0 {
      assert At(a, names[0]) == At(b, names[0]);
      CountSeenLocal(Look(a, names[0], now), Look(b, names[0], now), names[1..], now, keys);
    }
  }

  lemma {:induction false} PutValuesLocal(a: Db, b: Db, args: seq<Bytes>, i: nat, keys: set<Bytes>)
    requires Agree(a, b, keys) && i % 2 == 0 && forall j :: i <= j < |args| - 1 && j % 2 == 0 ==> args[j] in keys
    ensures Agree(PutValues(a, args, i), PutValues(b, args, i), keys) && SameOutside(PutValues(a, args, i), a, keys)
    decreases |args| - i
  {
    if i + 1 < |args| {
      assert At(a, args[i]) == At(b, args[i]);
      var s := At(a, args[i]).(value := Some(Str(args[i + 1])));
      PutValuesLocal(PutSlot(a, args[i], s), PutSlot(b, args[i], s), args, i + 2, keys);
    }
  }

  lemma {:induction false} FindAnyLocal(a: Db, b: Db, names: seq<Bytes>, now: int, keys: set<Bytes>)
    requires Agree(a, b, keys) && Within(names, keys)
    ensures FindAny(a, names, now).1 == FindAny(b, names, now).1
    ensures Agree(FindAny(a, names, now).0, FindAny(b, names, now).0, keys)
    ensures SameOutside(FindAny(a, names, now).0, a, keys)
    decreases |names|
  {
    if |names| > 0 {
      assert At(a, names[0]) == At(b, names[0]);
      if names[0] !in Look(a, names[0], now).data {
        FindAnyLocal(Look(a, names[0], now), Look(b, names[0], now), names[1..], now, keys);
      }
    }
  }

  /* ---- every command is local ---- */

  ghost predicate LocalResults(a: Db, ra: Result, rb: Result, keys: set<Bytes>) {
    ra.answer == rb.answer && ra.log == rb.log && Agree(ra.db, rb.db, keys) && SameOutside(ra.db, a, keys)
  }

  lemma EvenArgsAre(args: seq<Bytes>)
    ensures forall j :: 0 <= j < |args| - 1 && j % 2 == 0 ==> args[j] in SetOf(EvenArgs(args))
  {
    forall j | 0 <= j < |args| - 1 && j % 2 == 0 ensures args[j] in SetOf(EvenArgs(args)) {
      assert args[j] == EvenArgs(args)[j / 2];
    }
  }

  lemma MSetLocal(a: Db, b: Db, line: Line, now: int, keys: set<Bytes>)
    requires line.op in {MSet, MSetNX} && ArityFits(line) && keys == SetOf(EvenArgs(line.args)) && Agree(a, b, keys)
    ensures LocalResults(a, ExecMany(a, line, now), ExecMany(b, line, now), keys)
  {
    EvenArgsAre(line.args);
    if line.op.MSet? {
      PutValuesLocal(a, b, line.args, 0, keys);
    } else {
      FindAnyLocal(a, b, EvenArgs(line.args), now, keys);
      PutValuesLocal(FindAny(a, EvenArgs(line.args), now).0, FindAny(b, EvenArgs(line.args), now).0, line.args, 0, keys);
    }
  }

  lemma RenameLocal(a: Db, b: Db, line: Line, now: int, keys: set<Bytes>)
    requires line.op.Rename? && ArityFits(line) && keys == {line.args[0], line.args[1]} && Agree(a, b, keys)
    ensures LocalResults(a, RunRename(a, line, now), RunRename(b, line, now), keys)
  {
    assert At(a, line.args[0]) == At(b, line.args[0]);
  }

  lemma RenameNXLocal(a: Db, b: Db, line: Line, now: int, keys: set<Bytes>)
    requires line.op.RenameNX? && ArityFits(line) && keys == {line.args[0], line.args[1]} && Agree(a, b, keys)
    ensures LocalResults(a, RunRenameNX(a, line, now), RunRenameNX(b, line, now), keys)
  {
    var src, dest := line.args[0], line.args[1];
    var seenA, seenB := Look(a, dest, now), Look(b, dest, now);
    assert At(seenA, dest) == At(seenB, dest);
    assert At(seenA, src) == At(seenB, src);
    var bothA, bothB := Look(seenA, src, now), Look(seenB, src, now);
    RemovesLocal(bothA, bothB, [src, dest], keys);
  }

  lemma RPopLPushLocal(a: Db, b: Db, line: Line, now: int, keys: set<Bytes>)
    requires line.op.RPopLPush? && ArityFits(line) && keys == {line.args[0], line.args[1]} && Agree(a, b, keys)
    ensures LocalResults(a, RunRPopLPush(a, line, now), RunRPopLPush(b, line, now), keys)
  {
    var src, dest := line.args[0], line.args[1];
    var oneA, oneB := Look(a, src, now), Look(b, src, now);
    assert At(oneA, src) == At(oneB, src);
    assert At(Look(oneA, dest, now), dest) == At(Look(oneB, dest, now), dest);
    var ra, rb := RunRPopLPush(a, line, now), RunRPopLPush(b, line, now);
    assert ra.answer == rb.answer && ra.log == rb.log;
    assert Agree(ra.db, rb.db, keys);
    assert SameOutside(ra.db, a, keys);
  }

  /** A command depends on its declared keys only, and changes no other. */
  lemma ExecIsLocal(a: Db, b: Db, line: Line, now: int)
    requires Agree(a, b, Keys(line))
    ensures LocalResults(a, Exec(a, line, now), Exec(b, line, now), Keys(line))
  {
    var keys := Keys(line);
    if ArityFits(line) {
      if OneKey(line.op) {
        assert keys == {line.args[0]};
        assert At(a, line.args[0]) == At(b, line.args[0]);
      } else {
        match line.op
        case MSet => MSetLocal(a, b, line, now, keys);
        case MSetNX => MSetLocal(a, b, line, now, keys);
        case Del => RemovesLocal(a, b, line.args, keys);
        case Exists => CountSeenLocal(a, b, line.args, now, keys);
        case Rename => assert keys == {line.args[0], line.args[1]}; RenameLocal(a, b, line, now, keys);
        case RenameNX => assert keys == {line.args[0], line.args[1]}; RenameNXLocal(a, b, line, now, keys);
        case RPopLPush => assert keys == {line.args[0], line.args[1]}; RPopLPushLocal(a, b, line, now, keys);
      }
    }
  }

  /* ---- only the declared write keys change ---- */

  function Writes(line: Line): set<Bytes> {
    if ArityFits(line) then SetOf(Prepare(line).write) else {}
  }

  /** RENAME and RENAMENX declare the source as a key they read, and remove it. */
  predicate Moves(db: Db, line: Line, now: int) {
    && line.op in {Rename, RenameNX} && ArityFits(line) && line.args[0] != line.args[1]
    && Seen(At(db, line.args[0]), now).value.Some? && (line.op.RenameNX? ==> Free(db, line.args[1], now))
  }

  predicate Free(db: Db, key: Bytes, now: int) {
    Seen(At(db, key), now).value.None?
  }

  /** A key that is only read is not removed on sight. */
  ghost predicate ReadsNothingExpired(db: Db, line: Line, now: int) {
    forall k :: k in Keys(line) && k !in Writes(line) ==> Seen(At(db, k), now) == At(db, k)
  }

  /** What a caller can check: nothing is renamed, and no read-only key has expired, but RENAMENX may not get to look. */
  ghost predicate Quiet(db: Db, line: Line, now: int) {
    && !Moves(db, line, now)
    && (ReadsNothingExpired(db, line, now) || (line.op.RenameNX? && ArityFits(line) && !Free(db, line.args[1], now)))
  }

  lemma {:induction false} CountSeenLooks(db: Db, names: seq<Bytes>, now: int)
    ensures forall k :: At(CountSeen(db, names, now).0, k) == if k in names then Seen(At(db, k), now) else At(db, k)
    decreases |names|
  {
    if |names| > 0 {
      CountSeenLooks(Look(db, names[0], now), names[1..], now);
      assert names == [names[0]] + names[1..];
    }
  }

  lemma RenameWrites(db: Db, line: Line, now: int)
    requires line.op.Rename? && ArityFits(line) && line.args[0] != line.args[1]
    ensures var src, r := line.args[0], RunRename(db, line, now);
            && (r.answer == Ok <==> Moves(db, line, now))
            && (Moves(db, line, now) ==> At(db, src).value.Some? && At(r.db, src) == EMPTY)
            && (!Moves(db, line, now) ==> At(r.db, src) == Seen(At(db, src), now))
  {
  }

  lemma RenameNXWrites(db: Db, line: Line, now: int)
    requires line.op.RenameNX? && ArityFits(line) && line.args[0] != line.args[1]
    ensures var src, r := line.args[0], RunRenameNX(db, line, now);
            && (r.answer == Int(1) <==> Moves(db, line, now))
            && (r.answer == Int(0) <==> !Free(db, line.args[1], now))
            && (Moves(db, line, now) ==> At(db, src).value.Some? && At(r.db, src) == EMPTY)
            && (!Free(db, line.args[1], now) ==> At(r.db, src) == At(db, src))
            && (Free(db, line.args[1], now) && !Moves(db, line, now) ==> At(r.db, src) == Seen(At(db, src), now))
  {
    var src, dest := line.args[0], line.args[1];
    var seen := Look(db, dest, now);
    var both := Look(seen, src, now);
    if dest !in seen.data && src in both.data {
      var none: seq<Bytes> := [];
      assert [src, dest][1..] == [dest] && [dest][1..] == none;
      assert Removes(Remove(both, src), none) == (Remove(both, src), 0);
      assert Removes(both, [src, dest]).0 == Remove(both, src);
    }
  }

  lemma RenamesDeclared(db: Db, line: Line, now: int)
    requires line.op in {Rename, RenameNX} && ArityFits(line)
    ensures SameOutside(Exec(db, line, now).db, db, Writes(line)) <==> Quiet(db, line, now)
  {
    ExecIsLocal(db, db, line, now);
    RenameKeys(line);
    if line.args[0] == line.args[1] {
      assert Keys(line) == Writes(line);
    } else {
      SourceDecides(db, Exec(db, line, now).db, line);
      if line.op.Rename? { RenameWrites(db, line, now); } else { RenameNXWrites(db, line, now); }
      OnlySourceRead(db, line, now);
    }
  }

  lemma RenameKeys(line: Line)
    requires line.op in {Rename, RenameNX} && ArityFits(line)
    ensures Writes(line) == {line.args[1]} && Keys(line) == {line.args[0], line.args[1]}
  {
    assert SetOf([line.args[0]]) == {line.args[0]} && SetOf([line.args[1]]) == {line.args[1]};
  }

  lemma SourceDecides(db: Db, after: Db, line: Line)
    requires line.op in {Rename, RenameNX} && ArityFits(line) && line.args[0] != line.args[1]
    requires SameOutside(after, db, Keys(line))
    ensures SameOutside(after, db, Writes(line)) <==> At(after, line.args[0]) == At(db, line.args[0])
  {
    RenameKeys(line);
  }

  lemma OnlySourceRead(db: Db, line: Line, now: int)
    requires line.op in {Rename, RenameNX} && ArityFits(line) && line.args[0] != line.args[1]
    ensures ReadsNothingExpired(db, line, now) <==> Seen(At(db, line.args[0]), now) == At(db, line.args[0])
  {
    RenameKeys(line);
  }

  /** A command changes a key that it did not declare for writing exactly when it renames, or reads an expired key. */
  lemma WritesDeclared(db: Db, line: Line, now: int)
    ensures SameOutside(Exec(db, line, now).db, db, Writes(line)) <==> Quiet(db, line, now)
  {
    ExecIsLocal(db, db, line, now);
    if ArityFits(line) {
      var read := Prepare(line).read;
      if line.op.Exists? {
        CountSeenLooks(db, line.args, now);
        assert forall k :: k in SetOf(line.args) <==> k in line.args;
      } else if line.op in {Get, HGet} {
        OneReadWrites(db, line, now);
      } else if line.op in {Rename, RenameNX} {
        RenamesDeclared(db, line, now);
      } else {
        assert Keys(line) == Writes(line);
      }
    }
  }

  lemma OneReadWrites(db: Db, line: Line, now: int)
    requires line.op in {Get, HGet} && ArityFits(line)
    ensures At(Exec(db, line, now).db, line.args[0]) == Seen(At(db, line.args[0]), now)
    ensures Keys(line) == {line.args[0]} && Writes(line) == {}
  {
  }
}