/** The undo logs of the list and deadline commands, and the theorem for every command. */
module RollbackLists {
  import opened Strconv
  import opened Commands
  import opened Slots
  import opened Engine
  import opened Undo
  import opened Rollback
  import opened RollbackCases
  import opened Footprint

  function ListSlot(l: seq<Bytes>, deadline: Option<int>): Slot {
    if l == [] then EMPTY else Slot(Some(List(l)), deadline)
  }

  function PopLine(key: Bytes, left: bool): Line {
    Line(if left then LPop else RPop, [key])
  }

  function PushLine(key: Bytes, value: Bytes, left: bool): Line {
    Line(if left then LPush else RPush, [key, value])
  }

  /** A list without its first or its last n elements. */
  function Shorter(l: seq<Bytes>, n: nat, left: bool): seq<Bytes>
    requires n <= |l|
  {
    if left then l[n..] else l[..|l| - n]
  }

  lemma PopRuns(l: seq<Bytes>, deadline: Option<int>, key: Bytes, left: bool, now: int)
    requires l != [] && !Expired(deadline, now)
    ensures RunOne(ListSlot(l, deadline), PopLine(key, left), now).slot == ListSlot(Shorter(l, 1, left), deadline)
  {
  }

  lemma PopOnNothing(key: Bytes, left: bool, now: int)
    ensures RunOne(EMPTY, PopLine(key, left), now).slot == EMPTY
  {
  }

  lemma PushRuns(l: seq<Bytes>, deadline: Option<int>, key: Bytes, value: Bytes, left: bool, now: int)
    requires !Expired(deadline, now) && (l == [] ==> deadline.None?)
    ensures RunOne(ListSlot(l, deadline), PushLine(key, value, left), now).slot
         == Slot(Some(List(if left then [value] + l else l + [value])), deadline)
  {
    assert [key, value][1..] == [value];
    assert PushLeft(l, [value]) == PushLeft([value] + l, []) == [value] + l;
  }

  lemma {:induction false} PopsRun(l: seq<Bytes>, deadline: Option<int>, key: Bytes, left: bool, n: nat, now: int)
    requires n <= |l| || l == []
    requires !Expired(deadline, now)
    ensures AllOnKey(Repeat(PopLine(key, left), n), key)
    ensures RunAll(ListSlot(l, deadline), Repeat(PopLine(key, left), n), key, now)
         == if l == [] then EMPTY else ListSlot(Shorter(l, n, left), deadline)
    decreases n
  {
    var lines := Repeat(PopLine(key, left), n);
    if n > 0 {
      assert lines[1..] == Repeat(PopLine(key, left), n - 1);
      assert OnKey(lines[0], key);
      if l == [] {
        PopOnNothing(key, left, now);
        PopsRun(l, deadline, key, left, n - 1, now);
      } else {
        PopRuns(l, deadline, key, left, now);
        var rest := Shorter(l, 1, left);
        PopsRun(rest, deadline, key, left, n - 1, now);
        if rest != [] { assert Shorter(rest, n - 1, left) == Shorter(l, n, left); }
      }
    } else {
      assert l != [] ==> Shorter(l, 0, left) == l;
    }
  }

  /** The slot after a push: nothing on nothing, or a list from which as many pops lead back. */
  predicate Pushed(after: Slot, s: Slot, line: Line)
    requires ArityFits(line) && |line.args| > 0 && ListOrNone(s)
  {
    var n, left := |line.args| - 1, line.op in {LPush, LPushX};
    var pushed :=
      || (after == s == EMPTY)
      || (IsList(after) && after.deadline == s.deadline && |Items(after)| == n + |Items(s)| > 0
          && Shorter(Items(after), n, left) == Items(s));
    pushed
  }

  lemma PushesRun(s: Slot, line: Line, now: int)
    requires line.op in {LPush, LPushX, RPush, RPushX} && ArityFits(line)
    requires ListOrNone(s) && Sound(s) && !Expired(s.deadline, now)
    ensures Pushed(RunOne(s, line, now).slot, s, line)
  {
    PushLeftIs(Items(s), line.args[1..]);
  }

  /** A list command and its undo log touch one slot. */
  lemma ListRestores(db: Db, line: Line, now: int)
    requires ListOp(line.op) && ArityFits(line) && Alive(db, Keys(line), now)
    requires AllOnKey(UndoList(At(db, line.args[0]), line), line.args[0])
    ensures var s := At(db, line.args[0]);
            Restores(db, line, now) <==> RunAll(RunOne(s, line, now).slot, UndoList(s, line), line.args[0], now) == s
  {
    AliveArgs(db, line, now, 0);
    RestoresSlot(db, line, UndoList(At(db, line.args[0]), line), now);
  }

  lemma PushAnswers(s: Slot, line: Line, now: int)
    requires line.op in {LPush, LPushX, RPush, RPushX} && ArityFits(line) && !Expired(s.deadline, now)
    requires Succeeded(RunOne(s, line, now).answer)
    ensures ListOrNone(s)
  {
  }

  lemma PushUndo(s: Slot, line: Line)
    requires line.op in {LPush, LPushX, RPush, RPushX} && ArityFits(line)
    ensures UndoList(s, line) == Repeat(PopLine(line.args[0], line.op in {LPush, LPushX}), |line.args| - 1)
  {
  }

  /** Popping as often as there were values pushed. */
  lemma PopPushed(after: Slot, s: Slot, key: Bytes, n: nat, left: bool, now: int)
    requires Sound(s) && ListOrNone(s) && !Expired(s.deadline, now)
    requires (after == s == EMPTY)
          || (IsList(after) && after.deadline == s.deadline && |Items(after)| == n + |Items(s)| > 0
              && Shorter(Items(after), n, left) == Items(s))
    ensures AllOnKey(Repeat(PopLine(key, left), n), key)
    ensures RunAll(after, Repeat(PopLine(key, left), n), key, now) == s
  {
    var l := if IsList(after) then Items(after) else [];
    assert after == ListSlot(l, s.deadline);
    PopsRun(l, s.deadline, key, left, n, now);
  }

  lemma PushBack(s: Slot, line: Line, now: int)
    requires line.op in {LPush, LPushX, RPush, RPushX} && ArityFits(line) && Sound(s) && !Expired(s.deadline, now)
    requires Succeeded(RunOne(s, line, now).answer)
    ensures AllOnKey(UndoList(s, line), line.args[0])
    ensures RunAll(RunOne(s, line, now).slot, UndoList(s, line), line.args[0], now) == s
  {
    PushAnswers(s, line, now);
    PushesRun(s, line, now);
    PushTaken(RunOne(s, line, now).slot, s, line, now);
  }

  lemma PushTaken(after: Slot, s: Slot, line: Line, now: int)
    requires line.op in {LPush, LPushX, RPush, RPushX} && ArityFits(line)
    requires Sound(s) && ListOrNone(s) && !Expired(s.deadline, now) && Pushed(after, s, line)
    ensures AllOnKey(UndoList(s, line), line.args[0]) && RunAll(after, UndoList(s, line), line.args[0], now) == s
  {
    PushUndo(s, line);
    PopPushed(after, s, line.args[0], |line.args| - 1, line.op in {LPush, LPushX}, now);
  }

  lemma PushOn(l: seq<Bytes>, deadline: Option<int>, key: Bytes, value: Bytes, left: bool, now: int)
    requires !Expired(deadline, now)
    ensures AllOnKey([PushLine(key, value, left)], key)
    ensures RunAll(ListSlot(l, deadline), [PushLine(key, value, left)], key, now)
         == Slot(Some(List(if left then [value] + l else l + [value])), if l == [] then None else deadline)
  {
    PushRuns(l, if l == [] then None else deadline, key, value, left, now);
    RunsOne(ListSlot(l, deadline), PushLine(key, value, left), key, now);
  }

  lemma PopThenPush(l: seq<Bytes>, deadline: Option<int>, key: Bytes, left: bool, now: int)
    requires l != [] && !Expired(deadline, now)
    ensures var value := if left then l[0] else l[|l| - 1];
            && AllOnKey([PushLine(key, value, left)], key)
            && RunAll(RunOne(ListSlot(l, deadline), PopLine(key, left), now).slot, [PushLine(key, value, left)], key, now)
            == Slot(Some(List(l)), if |l| == 1 then None else deadline)
  {
    PopRuns(l, deadline, key, left, now);
    var rest, value := Shorter(l, 1, left), if left then l[0] else l[|l| - 1];
    assert (if left then [value] + rest else rest + [value]) == l;
    PushOn(rest, deadline, key, value, left, now);
  }

  lemma PopUndo(s: Slot, line: Line)
    requires line.op in {LPop, RPop} && ArityFits(line) && ListOrNone(s) && Sound(s)
    ensures line == PopLine(line.args[0], line.op.LPop?)
    ensures UndoList(s, line)
         == if s.value.None? then []
            else var l, left := Items(s), line.op.LPop?;
              [PushLine(line.args[0], if left then l[0] else l[|l| - 1], left)]
  {
  }

  lemma PopBack(s: Slot, line: Line, now: int)
    requires line.op in {LPop, RPop} && ArityFits(line) && Sound(s) && !Expired(s.deadline, now)
    requires ListOrNone(s)
    ensures AllOnKey(UndoList(s, line), line.args[0])
    ensures RunAll(RunOne(s, line, now).slot, UndoList(s, line), line.args[0], now) == s <==> PopUndoable(s)
  {
    PopUndo(s, line);
    if s.value.None? {
      PopOnNothing(line.args[0], line.op.LPop?, now);
    } else {
      assert s == ListSlot(Items(s), s.deadline);
      PopThenPush(Items(s), s.deadline, line.args[0], line.op.LPop?, now);
    }
  }

  lemma PopAnswers(s: Slot, line: Line, now: int)
    requires line.op in {LPop, RPop} && ArityFits(line) && !Expired(s.deadline, now)
    requires Succeeded(RunOne(s, line, now).answer)
    ensures ListOrNone(s)
  {
  }

  lemma LSetRuns(s: Slot, key: Bytes, arg: Bytes, value: Bytes, now: int)
    requires IsList(s) && !Expired(s.deadline, now) && ParseInt64(arg).Some?
    requires IndexIn(Items(s), ParseInt64(arg).value).Some?
    ensures RunOne(s, Line(LSet, [key, arg, value]), now).slot
         == s.(value := Some(List(Items(s)[IndexIn(Items(s), ParseInt64(arg).value).value := value])))
  {
  }

  lemma LSetBack(s: Slot, line: Line, now: int)
    requires line.op.LSet? && ArityFits(line) && !Expired(s.deadline, now)
    requires Succeeded(RunOne(s, line, now).answer)
    ensures AllOnKey(UndoList(s, line), line.args[0])
    ensures RunAll(RunOne(s, line, now).slot, UndoList(s, line), line.args[0], now) == s
  {
    var key, arg := line.args[0], line.args[1];
    var k := IndexIn(Items(s), ParseInt64(arg).value).value;
    assert line == Line(LSet, [key, arg, line.args[2]]);
    LSetRuns(s, key, arg, line.args[2], now);
    var after := RunOne(s, line, now).slot;
    LSetRuns(after, key, arg, Items(s)[k], now);
    RunsOne(after, Line(LSet, [key, arg, Items(s)[k]]), key, now);
    assert Items(after)[k := Items(s)[k]] == Items(s);
  }

  lemma AllListsRestore(db: Db, line: Line, now: int)
    requires ListOp(line.op) && ArityFits(line) && SoundDb(db) && Alive(db, Keys(line), now)
    requires Succeeded(RunOne(At(db, line.args[0]), line, now).answer)
    ensures Restores(db, line, now) <==> (line.op in {LPop, RPop} ==> PopUndoable(At(db, line.args[0])))
  {
    var s := At(db, line.args[0]);
    AliveArgs(db, line, now, 0);
    assert Sound(s);
    if line.op.LSet? {
      LSetBack(s, line, now);
    } else if line.op in {LPop, RPop} {
      PopAnswers(s, line, now);
      PopBack(s, line, now);
    } else {
      PushBack(s, line, now);
    }
    ListRestores(db, line, now);
  }

  /* ---- deadlines ---- */

  lemma TtlLineOn(s: Slot, key: Bytes, deadline: Option<int>, now: int)
    ensures RunOne(s, TtlLine(key, deadline), now).slot
         == if Seen(s, now).value.Some? then Seen(s, now).(deadline := Printed(deadline)) else Seen(s, now)
  {
    if deadline.Some? { ExpireLineOn(s, key, deadline.value, now); } else { PersistLineOn(s, key, now); }
  }

  /** A logged deadline is set again, if the key is still there. */
  lemma ExpireLineOn(s: Slot, key: Bytes, deadline: int, now: int)
    ensures RunOne(s, ExpireLine(key, deadline), now).slot
         == if Seen(s, now).value.Some? then Seen(s, now).(deadline := Some(Nanos(deadline))) else Seen(s, now)
  {
    ParseFormatInt(Nanos(deadline));
  }

  lemma PersistLineOn(s: Slot, key: Bytes, now: int)
    ensures RunOne(s, Line(Persist, [key]), now).slot
         == if Seen(s, now).value.Some? then Seen(s, now).(deadline := None) else Seen(s, now)
  {
  }

  lemma TimeRuns(s: Slot, line: Line, now: int)
    requires TimeOp(line.op) && ArityFits(line) && !Expired(s.deadline, now) && Succeeded(RunOne(s, line, now).answer)
    ensures !line.op.Persist? ==> ParseInt64(line.args[1]).Some?
    ensures RunOne(s, line, now).slot
         == if s.value.None? then s
            else s.(deadline := if line.op.Persist? then None else Some(NewDeadline(line, now)))
  {
  }

  lemma TimeBack(s: Slot, line: Line, now: int)
    requires TimeOp(line.op) && ArityFits(line) && Sound(s) && !Expired(s.deadline, now)
    requires Succeeded(RunOne(s, line, now).answer)
    ensures AllOnKey([TtlLine(line.args[0], s.deadline)], line.args[0])
    ensures RunAll(RunOne(s, line, now).slot, [TtlLine(line.args[0], s.deadline)], line.args[0], now) == s
       <==> (s.value.Some? ==> Dated(s.deadline) && (line.op.Persist? || now <= NewDeadline(line, now)))
  {
    TimeRuns(s, line, now);
    var after := RunOne(s, line, now).slot;
    TtlLineOn(after, line.args[0], s.deadline, now);
    RunsOne(after, TtlLine(line.args[0], s.deadline), line.args[0], now);
  }

  lemma TimeRestores(db: Db, line: Line, now: int)
    requires TimeOp(line.op) && ArityFits(line) && SoundDb(db) && Alive(db, Keys(line), now)
    requires Succeeded(RunOne(At(db, line.args[0]), line, now).answer)
    ensures !line.op.Persist? ==> ParseInt64(line.args[1]).Some?
    ensures Restores(db, line, now) <==>
      (At(db, line.args[0]).value.Some? ==>
         Dated(At(db, line.args[0]).deadline) && (line.op.Persist? || now <= NewDeadline(line, now)))
  {
    AliveArgs(db, line, now, 0);
    var s := At(db, line.args[0]);
    assert Sound(s);
    TimeRuns(s, line, now);
    TimeBack(s, line, now);
    RestoresSlot(db, line, [TtlLine(line.args[0], s.deadline)], now);
  }

  /* ---- RPOPLPUSH ---- */

  lemma MoveRuns(db: Db, line: Line, now: int)
    requires line.op.RPopLPush? && ArityFits(line) && SoundDb(db) && Alive(db, Keys(line), now)
    requires Succeeded(Exec(db, line, now).answer) && IsList(At(db, line.args[0]))
    ensures var src, dest, l := line.args[0], line.args[1], Items(At(db, line.args[0]));
            var last, d := l[|l| - 1], At(db, dest);
            && ListOrNone(d)
            && Exec(db, line, now).db
            == if src == dest then PutSlot(db, src, d.(value := Some(List([last] + l[..|l| - 1]))))
               else PutSlot(PutSlot(db, dest, Slot(Some(List([last] + Items(d))), d.deadline)), src,
                            ListSlot(l[..|l| - 1], At(db, src).deadline))
  {
    AliveArgs(db, line, now, 0);
    AliveArgs(db, line, now, 1);
    assert Sound(At(db, line.args[0]));
  }

  lemma RunTwo(db: Db, a: Line, b: Line, now: int)
    ensures ExecAll(db, [a, b], now) == Exec(Exec(db, a, now).db, b, now).db
  {
    assert [a, b][1..] == [b] && [b][1..] == [];
    var one := Exec(db, a, now).db;
    assert ExecAll(Exec(one, b, now).db, [], now) == Exec(one, b, now).db;
  }

  lemma MoveUndo(db: Db, line: Line, now: int)
    requires line.op.RPopLPush? && ArityFits(line) && Alive(db, Keys(line), now)
    requires IsList(At(db, line.args[0])) && Items(At(db, line.args[0])) != []
    ensures var src, l := line.args[0], Items(At(db, line.args[0]));
            UndoLog(db, line, now) == (db, Some([PushLine(src, l[|l| - 1], false), PopLine(line.args[1], true)]))
  {
    var src, l := line.args[0], Items(At(db, line.args[0]));
    AliveArgs(db, line, now, 0);
    assert [PushLine(src, l[|l| - 1], false)] + [PopLine(line.args[1], true)]
        == [PushLine(src, l[|l| - 1], false), PopLine(line.args[1], true)];
  }

  lemma ExecPut(db: Db, key: Bytes, s: Slot, line: Line, now: int)
    requires OnKey(line, key)
    ensures Exec(PutSlot(db, key, s), line, now).db == PutSlot(db, key, RunOne(s, line, now).slot)
  {
    PutTwice(db, key, s, RunOne(s, line, now).slot);
  }

  /** One line on a key and one line on another. */
  lemma TwoKeys(db: Db, src: Bytes, dest: Bytes, s: Slot, d: Slot, first: Line, second: Line, now: int)
    requires src != dest && OnKey(first, src) && OnKey(second, dest)
    requires RunOne(d, second, now).slot == At(db, dest)
    ensures ExecAll(PutSlot(PutSlot(db, dest, d), src, s), [first, second], now)
         == PutSlot(db, src, RunOne(s, first, now).slot)
  {
    var after := RunOne(s, first, now).slot;
    var base := PutSlot(db, src, after);
    RunTwo(PutSlot(PutSlot(db, dest, d), src, s), first, second, now);
    ExecPut(PutSlot(db, dest, d), src, s, first, now);
    PutsCommute(db, dest, d, src, after);
    ExecPut(base, dest, d, second, now);
    PutBack(base, dest, At(db, dest));
  }

  lemma TwoOnKey(db: Db, key: Bytes, s: Slot, first: Line, second: Line, now: int)
    requires OnKey(first, key) && OnKey(second, key)
    ensures ExecAll(PutSlot(db, key, s), [first, second], now)
         == PutSlot(db, key, RunOne(RunOne(s, first, now).slot, second, now).slot)
  {
    RunTwo(PutSlot(db, key, s), first, second, now);
    ExecPut(db, key, s, first, now);
    ExecPut(db, key, RunOne(s, first, now).slot, second, now);
  }

  /** RPOPLPUSH on one list turns it round. */
  lemma TurnBack(db: Db, src: Bytes, now: int)
    requires IsList(At(db, src)) && Items(At(db, src)) != [] && !Expired(At(db, src).deadline, now)
    ensures var s, l := At(db, src), Items(At(db, src));
            var last := l[|l| - 1];
            var turned := PutSlot(db, src, s.(value := Some(List([last] + l[..|l| - 1]))));
            ExecAll(turned, [PushLine(src, last, false), PopLine(src, true)], now) == db
  {
    var s, l := At(db, src), Items(At(db, src));
    var last, rest := l[|l| - 1], l[..|l| - 1];
    var turned := [last] + rest;
    var push, pop := PushLine(src, last, false), PopLine(src, true);
    var one, two := ListSlot(turned, s.deadline), ListSlot(turned + [last], s.deadline);
    PushRuns(turned, s.deadline, src, last, false, now);
    PopRuns(turned + [last], s.deadline, src, true, now);
    assert (turned + [last])[1..] == rest + [last] == l;
    TwoOnKey(db, src, one, push, pop, now);
    PutBack(db, src, one);
  }

  /** Between two lists, everything is back but the deadline of a source that was emptied. */
  lemma GiveBack(db: Db, src: Bytes, dest: Bytes, now: int)
    requires src != dest && IsList(At(db, src)) && Items(At(db, src)) != []
    requires !Expired(At(db, src).deadline, now) && !Expired(At(db, dest).deadline, now)
    requires ListOrNone(At(db, dest)) && Sound(At(db, dest))
    ensures var s, d, l := At(db, src), At(db, dest), Items(At(db, src));
            var last, rest := l[|l| - 1], l[..|l| - 1];
            var moved := PutSlot(PutSlot(db, dest, Slot(Some(List([last] + Items(d))), d.deadline)), src,
                                 ListSlot(rest, s.deadline));
            ExecAll(moved, [PushLine(src, last, false), PopLine(dest, true)], now)
            == PutSlot(db, src, s.(deadline := if rest == [] then None else s.deadline))
  {
    var s, d, l := At(db, src), At(db, dest), Items(At(db, src));
    var last, rest := l[|l| - 1], l[..|l| - 1];
    GivenBack(s, src, now);
    PopPushedOne(d, last, dest, now);
    ListLines(src, dest, last);
    TwoKeys(db, src, dest, ListSlot(rest, s.deadline), Slot(Some(List([last] + Items(d))), d.deadline),
            PushLine(src, last, false), PopLine(dest, true), now);
  }

  lemma ListLines(src: Bytes, dest: Bytes, value: Bytes)
    ensures OnKey(PushLine(src, value, false), src) && OnKey(PopLine(dest, true), dest)
  {
  }

  lemma GivenBack(s: Slot, src: Bytes, now: int)
    requires IsList(s) && Items(s) != [] && !Expired(s.deadline, now)
    ensures var l := Items(s);
            var last, rest := l[|l| - 1], l[..|l| - 1];
            RunOne(ListSlot(rest, s.deadline), PushLine(src, last, false), now).slot
            == s.(deadline := if rest == [] then None else s.deadline)
  {
    var l := Items(s);
    var last, rest := l[|l| - 1], l[..|l| - 1];
    PushRuns(rest, if rest == [] then None else s.deadline, src, last, false, now);
    assert rest + [last] == l;
  }

  lemma PopPushedOne(d: Slot, last: Bytes, dest: Bytes, now: int)
    requires ListOrNone(d) && Sound(d) && !Expired(d.deadline, now)
    ensures RunOne(Slot(Some(List([last] + Items(d))), d.deadline), PopLine(dest, true), now).slot == d
  {
    PopRuns([last] + Items(d), d.deadline, dest, true, now);
    assert ([last] + Items(d))[1..] == Items(d);
  }

  lemma MoveRestores(db: Db, line: Line, now: int)
    requires line.op.RPopLPush? && ArityFits(line) && SoundDb(db) && Alive(db, Keys(line), now)
    requires Succeeded(Exec(db, line, now).answer) && IsList(At(db, line.args[0]))
    ensures Restores(db, line, now) <==> (line.args[0] == line.args[1] || PopUndoable(At(db, line.args[0])))
  {
    var src, dest := line.args[0], line.args[1];
    var s, d := At(db, src), At(db, dest);
    assert Sound(s) && Sound(d);
    AliveArgs(db, line, now, 0);
    AliveArgs(db, line, now, 1);
    MoveRuns(db, line, now);
    MoveUndo(db, line, now);
    if src == dest {
      TurnBack(db, src, now);
    } else {
      GiveBack(db, src, dest, now);
      PutBack(db, src, s);
      assert At(PutSlot(db, src, s.(deadline := None)), src) == s.(deadline := None);
    }
  }

  lemma MoveNothingRestores(db: Db, line: Line, now: int)
    requires line.op.RPopLPush? && ArityFits(line) && Alive(db, Keys(line), now)
    requires Succeeded(Exec(db, line, now).answer) && !IsList(At(db, line.args[0]))
    ensures Restores(db, line, now)
  {
    AliveArgs(db, line, now, 0);
  }

  /* ---- every command ---- */

  lemma ReadRestores(db: Db, line: Line, now: int)
    requires line.op in {Get, HGet, Exists} && ArityFits(line) && Alive(db, Keys(line), now)
    ensures Restores(db, line, now)
  {
    var after := Exec(db, line, now).db;
    forall k ensures At(after, k) == At(db, k) {
      ExecIsLocal(db, db, line, now);
      if k in Keys(line) {
        AliveSlots(db, Keys(line), now, k);
        if line.op.Exists? { CountSeenLooks(db, line.args, now); } else { OneReadWrites(db, line, now); }
      }
    }
    SameSlots(after, db);
    assert ExecAll(db, [], now) == db;
  }

  /** The deadline that RENAME leaves without a value is no hindrance: the key is put back all the same. */
  lemma SelfRenameRestores(db: Db, line: Line, now: int)
    requires SoundDb(db) && Alive(db, Keys(line), now) && Orphans(db, line, now)
    ensures Restores(db, line, now) <==> Dumpable(At(db, line.args[0]))
  {
    var key, s := line.args[0], At(db, line.args[0]);
    assert Sound(s);
    RenameToItself(db, line, now);
    SelfRenameLog(db, line, now);
    if !IsList(s) {
      ArgDeclared(line, 0);
      SelfRenameUndone(db, Exec(db, line, now).db, key, now);
      DumpedBack(db, key);
    }
  }

  lemma SelfRenameLog(db: Db, line: Line, now: int)
    requires Alive(db, Keys(line), now) && Orphans(db, line, now)
    ensures var key := line.args[0];
            && UndoLog(db, line, now) == UndoKeys(db, [key, key], now)
            && (UndoLog(db, line, now).1.Some? <==> !IsList(At(db, key)))
            && UndoLog(db, line, now).0 == db
  {
    var key := line.args[0];
    assert line.args == [key, key];
    ArgDeclared(line, 0);
    UndoKeysLog(db, [key, key], now);
    assert [key, key][0] == key;
  }

  lemma DumpedBack(db: Db, key: Bytes)
    requires !IsList(At(db, key))
    ensures PutSlot(db, key, DumpedSlot(At(db, key))) == db <==> Dumpable(At(db, key))
  {
    var s := At(db, key);
    DumpedSlotSame(s);
    PutBack(db, key, s);
    assert At(PutSlot(db, key, DumpedSlot(s)), key) == DumpedSlot(s);
  }

  lemma SelfRenameUndone(db: Db, after: Db, key: Bytes, now: int)
    requires SoundDb(db) && Alive(db, {key}, now) && At(db, key).deadline.Some? && !IsList(At(db, key))
    requires after == PutSlot(db, key, Slot(None, At(db, key).deadline)) && UndoKeys(db, [key, key], now).1.Some?
    ensures ExecAll(after, UndoKeys(db, [key, key], now).1.value, now) == PutSlot(db, key, DumpedSlot(At(db, key)))
  {
    var s := At(db, key);
    assert Sound(s);
    AliveSlots(db, {key}, now, key);
    var first, rest := UndoKey(key, s).value, UndoKeys(db, [key], now).1.value;
    assert [key, key][1..] == [key];
    var y := PutSlot(after, key, DumpedSlot(s));
    PutTwice(db, key, Slot(None, s.deadline), DumpedSlot(s));
    OrphanUndone(after, key, s, now);
    DumpedSlotSound(s);
    ExecAllAppend(after, first, rest, now);
    UndoKeysSet(y, db, [key], now);
    SameSlots(ExecAll(y, rest, now), y);
  }

  lemma ManyRestores(db: Db, line: Line, now: int)
    requires !OneKey(line.op) && !line.op.Exists? && ArityFits(line) && SoundDb(db) && Alive(db, Keys(line), now)
    requires Succeeded(Exec(db, line, now).answer)
    ensures Restores(db, line, now) <==> Undoable(db, line, now)
  {
    var args := line.args;
    ExecSound(db, line, now);
    if Orphans(db, line, now) {
      SelfRenameRestores(db, line, now);
    } else if line.op.RPopLPush? {
      if IsList(At(db, args[0])) { MoveRestores(db, line, now); } else { MoveNothingRestores(db, line, now); }
    } else if line.op in {Rename, RenameNX} {
      assert SetOf([args[0], args[1]]) == {args[0], args[1]};
      assert Keys(line) == {args[0], args[1]};
      KeysRestore(db, line, [args[0], args[1]], now);
    } else if line.op.Del? {
      KeysRestore(db, line, args, now);
    } else {
      KeysRestore(db, line, EvenArgs(args), now);
    }
  }

  /** The undo log of a command that succeeded restores the database if and only if the command was undoable. */
  lemma UndoRestores(db: Db, line: Line, now: int)
    requires ArityFits(line) && SoundDb(db) && Alive(db, Keys(line), now)
    requires Succeeded(Exec(db, line, now).answer)
    ensures Restores(db, line, now) <==> Undoable(db, line, now)
  {
    var key := line.args[0];
    if line.op in {Get, HGet, Exists} {
      ReadRestores(db, line, now);
    } else if StringOp(line.op) {
      assert Sound(At(db, key));
      FirstKeyRestores(db, line, now);
    } else if HashOp(line.op) {
      HashRestores(db, line, now);
    } else if ListOp(line.op) {
      AllListsRestore(db, line, now);
    } else if TimeOp(line.op) {
      TimeRestores(db, line, now);
    } else {
      ManyRestores(db, line, now);
    }
  }
}
