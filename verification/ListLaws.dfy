/** Lists as their users know them: in what order values come out again. */
module ListLaws {
  import opened Strconv
  import opened Commands
  import opened Slots
  import opened Engine

  /* ---- pushing ---- */

  /** After a push at the head the last value is first, and the old list follows. */
  lemma {:induction false} PushLeftOrder(l: seq<Bytes>, values: seq<Bytes>)
    ensures var r := PushLeft(l, values);
            && |r| == |values| + |l|
            && (forall i :: 0 <= i < |values| ==> r[i] == values[|values| - 1 - i])
            && r[|values|..] == l
    decreases |values|
  {
    if |values| > 0 {
      var r, n := PushLeft(l, values), |values|;
      PushLeftOrder([values[0]] + l, values[1..]);
      assert r[n - 1..] == [values[0]] + l;
      assert r[n - 1] == r[n - 1..][0];
      assert r[n..] == r[n - 1..][1..];
      forall i | 0 <= i < n - 1 ensures r[i] == values[n - 1 - i] {
        assert values[1..][n - 2 - i] == values[n - 1 - i];
      }
    }
  }

  predicate LivingList(db: Db, key: Bytes, now: int) {
    ListOrNone(At(db, key)) && !Expired(At(db, key).deadline, now) && (At(db, key).value.None? ==> At(db, key).deadline.None?)
  }

  function ItemsAt(db: Db, key: Bytes): seq<Bytes>
    requires ListOrNone(At(db, key))
  {
    Items(At(db, key))
  }

  predicate Pushes(line: Line) {
    line.op in {LPush, LPushX, RPush, RPushX} && ArityFits(line)
  }

  /** At the head the values stand in front, the last one first; at the tail they stand behind, in their order. */
  predicate Pushed(was: seq<Bytes>, values: seq<Bytes>, left: bool, l: seq<Bytes>) {
    && |l| == |was| + |values|
    && (left ==> l[|values|..] == was && forall i :: 0 <= i < |values| ==> l[i] == values[|values| - 1 - i])
    && (!left ==> l[..|was|] == was && forall i :: 0 <= i < |values| ==> l[|was| + i] == values[i])
  }

  lemma PushOnSlot(s: Slot, line: Line, values: seq<Bytes>, left: bool, create: bool)
    requires ListOrNone(s) && (s.value.Some? || create)
    ensures var r := RunPush(s, line, values, left, create);
            && r.slot.value.Some? && ListOrNone(r.slot) && r.slot.deadline == s.deadline
            && r.answer == Int(|Items(r.slot)|) && Pushed(Items(s), values, left, Items(r.slot))
  {
    PushLeftOrder(Items(s), values);
  }

  /** LPUSH and RPUSH, and their X forms on a list that is there. */
  lemma PushOrder(db: Db, line: Line, now: int)
    requires Pushes(line) && LivingList(db, line.args[0], now)
    requires line.op in {LPushX, RPushX} ==> At(db, line.args[0]).value.Some?
    ensures var key, values, r := line.args[0], line.args[1..], Exec(db, line, now);
            && LivingList(r.db, key, now) && At(r.db, key).deadline == At(db, key).deadline
            && r.answer == Int(|ItemsAt(r.db, key)|)
            && Pushed(ItemsAt(db, key), values, line.op in {LPush, LPushX}, ItemsAt(r.db, key))
  {
    var left, create := line.op in {LPush, LPushX}, line.op in {LPush, RPush};
    PushRuns(At(db, line.args[0]), line, now);
    PushOnSlot(At(db, line.args[0]), line, line.args[1..], left, create);
    OneKeyExec(db, line, now);
  }

  lemma PushRuns(s: Slot, line: Line, now: int)
    requires Pushes(line) && !Expired(s.deadline, now)
    ensures RunOne(s, line, now) == RunPush(s, line, line.args[1..], line.op in {LPush, LPushX}, line.op in {LPush, RPush})
  {
  }

  /** The X forms do nothing to a key that is not there. */
  lemma PushXOnNothing(db: Db, line: Line, now: int)
    requires Pushes(line) && line.op in {LPushX, RPushX} && At(db, line.args[0]) == EMPTY
    ensures Exec(db, line, now) == Result(db, Int(0), [])
  {
    PutBack(db, line.args[0], EMPTY);
  }

  /* ---- popping ---- */

  function PopLine(key: Bytes, left: bool): Line {
    Line(if left then LPop else RPop, [key])
  }

  function Pops(key: Bytes, left: bool, n: nat): (lines: seq<Line>)
    ensures |lines| == n
  {
    seq(n, i => PopLine(key, left))
  }

  /** What n pops answer: the first values, or the last ones backward. */
  function Popped(l: seq<Bytes>, left: bool, n: nat): seq<Answer>
    requires n <= |l|
  {
    seq(n, i requires 0 <= i < n => Bulk(if left then l[i] else l[|l| - 1 - i]))
  }

  lemma OnePop(db: Db, key: Bytes, left: bool, now: int)
    requires LivingList(db, key, now) && ItemsAt(db, key) != []
    ensures var l, r := ItemsAt(db, key), Exec(db, PopLine(key, left), now);
            && r.answer == Bulk(if left then l[0] else l[|l| - 1])
            && LivingList(r.db, key, now)
            && ItemsAt(r.db, key) == if left then l[1..] else l[..|l| - 1]
  {
  }

  /** LPOP takes from the front and RPOP from the back, value by value. */
  lemma {:induction false} PopOrder(db: Db, key: Bytes, left: bool, n: nat, now: int)
    requires LivingList(db, key, now) && n <= |ItemsAt(db, key)|
    ensures AnswersOf(db, Pops(key, left, n), now) == Popped(ItemsAt(db, key), left, n)
    decreases n
  {
    if n > 0 {
      OnePop(db, key, left, now);
      PopOrder(Exec(db, PopLine(key, left), now).db, key, left, n - 1, now);
      FirstAnswer(db, PopLine(key, left), Pops(key, left, n), now);
      MorePops(key, left, n);
      PoppedStep(ItemsAt(db, key), left, n);
    }
  }

  lemma FirstAnswer(db: Db, line: Line, lines: seq<Line>, now: int)
    requires |lines| > 0 && lines[0] == line
    ensures AnswersOf(db, lines, now) == [Exec(db, line, now).answer] + AnswersOf(Exec(db, line, now).db, lines[1..], now)
  {
  }

  lemma MorePops(key: Bytes, left: bool, n: nat)
    requires n > 0
    ensures Pops(key, left, n)[0] == PopLine(key, left) && Pops(key, left, n)[1..] == Pops(key, left, n - 1)
  {
  }

  lemma PoppedStep(l: seq<Bytes>, left: bool, n: nat)
    requires 0 < n <= |l|
    ensures Popped(l, left, n)
         == [Bulk(if left then l[0] else l[|l| - 1])] + Popped(if left then l[1..] else l[..|l| - 1], left, n - 1)
  {
  }

  function AsBulks(values: seq<Bytes>, backward: bool): seq<Answer> {
    seq(|values|, i requires 0 <= i < |values| => Bulk(values[if backward then |values| - 1 - i else i]))
  }

  /**
   * Values pushed at one end and taken from the same end come out last first, whatever was in the list; on a new key,
   * taken from the other end, they come out first to last.
   */
  lemma StackAndQueue(db: Db, line: Line, left: bool, now: int)
    requires line.op == (if left then LPush else RPush) && ArityFits(line) && LivingList(db, line.args[0], now)
    ensures var key, values, after := line.args[0], line.args[1..], Exec(db, line, now).db;
            && AnswersOf(after, Pops(key, left, |values|), now) == AsBulks(values, true)
            && (At(db, key).value.None? ==> AnswersOf(after, Pops(key, !left, |values|), now) == AsBulks(values, false))
  {
    PushOrder(db, line, now);
    PopsOfPushed(Exec(db, line, now).db, line.args[0], ItemsAt(db, line.args[0]), line.args[1..], left, now);
  }

  lemma PopsOfPushed(db: Db, key: Bytes, was: seq<Bytes>, values: seq<Bytes>, left: bool, now: int)
    requires LivingList(db, key, now) && Pushed(was, values, left, ItemsAt(db, key))
    ensures AnswersOf(db, Pops(key, left, |values|), now) == AsBulks(values, true)
    ensures was == [] ==> AnswersOf(db, Pops(key, !left, |values|), now) == AsBulks(values, false)
  {
    PopOrder(db, key, left, |values|, now);
    PopOrder(db, key, !left, |values|, now);
    PoppedAfterPush(was, ItemsAt(db, key), values, left);
  }

  /** The same about the sequences. */
  lemma PoppedAfterPush(was: seq<Bytes>, l: seq<Bytes>, values: seq<Bytes>, left: bool)
    requires Pushed(was, values, left, l)
    ensures Popped(l, left, |values|) == AsBulks(values, true)
    ensures was == [] ==> Popped(l, !left, |values|) == AsBulks(values, false)
  {
    forall i | 0 <= i < |values| ensures Popped(l, left, |values|)[i] == AsBulks(values, true)[i] {
      assert !left ==> l[|l| - 1 - i] == l[|was| + (|values| - 1 - i)];
    }
    if was == [] {
      forall i | 0 <= i < |values| ensures Popped(l, !left, |values|)[i] == AsBulks(values, false)[i] {
        assert left ==> l[|l| - 1 - i] == values[i];
      }
    }
  }

  /** A list that has been emptied is gone, and its deadline too; a pop of nothing answers nothing. */
  lemma LastPop(db: Db, key: Bytes, left: bool, now: int)
    requires LivingList(db, key, now) && |ItemsAt(db, key)| == 1
    ensures var r := Exec(db, PopLine(key, left), now);
            At(r.db, key) == EMPTY && Exec(r.db, PopLine(key, left), now).answer == NoValue
  {
  }

  /* ---- LSET and RPOPLPUSH ---- */

  /** An index counts from the front, or from the back when it is negative. */
  lemma IndexLaw(l: seq<Bytes>, index: int)
    ensures index < -|l| || index >= |l| ==> IndexIn(l, index) == None
    ensures forall k: nat :: k < |l| ==> IndexIn(l, k) == Some(k) && IndexIn(l, k - |l|) == Some(k)
  {
  }

  /** LSET with an index changes that element only, and answers OK; out of range it is an error and nothing changes. */
  lemma SetElement(db: Db, key: Bytes, index: int, value: Bytes, now: int)
    requires LivingList(db, key, now) && At(db, key).value.Some? && MIN_INT64 <= index <= MAX_INT64
    ensures var l, r := ItemsAt(db, key), Exec(db, Line(LSet, [key, FormatInt(index), value]), now);
            if -|l| <= index < |l| then
              var k := if index < 0 then |l| + index else index;
              && r.answer == Ok && LivingList(r.db, key, now) && |ItemsAt(r.db, key)| == |l| && ItemsAt(r.db, key)[k] == value
              && forall j :: 0 <= j < |l| && j != k ==> ItemsAt(r.db, key)[j] == l[j]
            else r.answer == Failed(OutOfRange) && r.db == db
  {
    ParseFormatInt(index);
    PutBack(db, key, EMPTY);
  }

  /** The value leaves the end of one list, is answered, and is the first of the other. */
  lemma MoveOrder(db: Db, src: Bytes, dest: Bytes, now: int)
    requires LivingList(db, src, now) && LivingList(db, dest, now) && ItemsAt(db, src) != []
    ensures var l, r := ItemsAt(db, src), Exec(db, Line(RPopLPush, [src, dest]), now);
            && r.answer == Exec(db, PopLine(src, false), now).answer
            && LivingList(r.db, dest, now) && Exec(r.db, PopLine(dest, true), now).answer == r.answer
            && (src != dest ==>
                  && LivingList(r.db, src, now) && ItemsAt(r.db, src) == l[..|l| - 1]
                  && ItemsAt(r.db, dest) == [l[|l| - 1]] + ItemsAt(db, dest))
            && (src == dest ==> ItemsAt(r.db, src) == [l[|l| - 1]] + l[..|l| - 1])
  {
    OnePop(db, src, false, now);
    Moved(db, src, dest, now);
    OnePop(Exec(db, Line(RPopLPush, [src, dest]), now).db, dest, true, now);
  }

  lemma Moved(db: Db, src: Bytes, dest: Bytes, now: int)
    requires LivingList(db, src, now) && LivingList(db, dest, now) && ItemsAt(db, src) != []
    ensures var l, r := ItemsAt(db, src), Exec(db, Line(RPopLPush, [src, dest]), now);
            && r.answer == Bulk(l[|l| - 1]) && LivingList(r.db, dest, now) && LivingList(r.db, src, now)
            && (src != dest ==> ItemsAt(r.db, src) == l[..|l| - 1] && ItemsAt(r.db, dest) == [l[|l| - 1]] + ItemsAt(db, dest))
            && (src == dest ==> ItemsAt(r.db, src) == [l[|l| - 1]] + l[..|l| - 1])
  {
    PutBack(db, src, EMPTY);
    PutBack(db, dest, EMPTY);
  }
}
