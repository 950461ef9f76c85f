/** Any number of threads running batches of lock calls against one table of `sync.RWMutex`. */
module LockProtocol {
  import opened Locks

  /**
   * A thread works through its current plan: `held` calls are in force, a pending writer has announced itself on
   * the next mutex and keeps new readers out, and a releasing thread gives the plan back from its end.
   */
  datatype Thread = Thread(plan: seq<Op>, held: nat, pending: bool, releasing: bool, todo: seq<seq<Op>>)

  predicate Increasing(plan: seq<Op>) {
    forall i, j :: 0 <= i < j < |plan| ==> plan[i].index < plan[j].index
  }

  predicate ThreadOK(t: Thread) {
    && Increasing(t.plan) && (forall i :: 0 <= i < |t.todo| ==> Increasing(t.todo[i]))
    && t.held <= |t.plan|
    && (t.pending ==> !t.releasing && t.held < |t.plan| && t.plan[t.held].write)
  }

  predicate Start(t: Thread) {
    ThreadOK(t) && t.held == 0 && !t.pending && !t.releasing
  }

  predicate Finished(t: Thread) {
    t.releasing && t.held == 0 && |t.todo| == 0
  }

  predicate Holds(t: Thread, index: nat) {
    exists k :: 0 <= k < t.held && k < |t.plan| && t.plan[k].index == index
  }

  predicate HoldsWrite(t: Thread, index: nat) {
    exists k :: 0 <= k < t.held && k < |t.plan| && t.plan[k] == Op(index, true)
  }

  predicate Announced(t: Thread, index: nat) {
    t.pending && t.held < |t.plan| && t.plan[t.held].index == index
  }

  /** The thread whose calls block readers of the mutex, and other writers. */
  predicate WriterSlot(t: Thread, index: nat) {
    HoldsWrite(t, index) || Announced(t, index)
  }

  predicate Wanting(t: Thread) {
    !t.releasing && t.held < |t.plan|
  }

  datatype Action = Announce | Lock | RLock | Turn | Unlock | NextBatch

  /** The next call of the thread is this one. */
  predicate Possible(t: Thread, action: Action) {
    match action
    case Announce => Wanting(t) && t.plan[t.held].write && !t.pending
    case Lock => Wanting(t) && t.plan[t.held].write && t.pending
    case RLock => Wanting(t) && !t.plan[t.held].write
    case Turn => !t.releasing && t.held == |t.plan|
    case Unlock => t.releasing && t.held > 0
    case NextBatch => t.releasing && t.held == 0 && |t.todo| > 0
  }

  /** The mutex lets it happen. */
  predicate Enabled(s: seq<Thread>, a: nat, action: Action) {
    && a < |s|
    && Possible(s[a], action)
    && (action.Announce? || action.RLock? ==>
          forall b :: 0 <= b < |s| && b != a ==> !WriterSlot(s[b], s[a].plan[s[a].held].index))
    && (action.Lock? ==>
          forall b :: 0 <= b < |s| && b != a ==> !Holds(s[b], s[a].plan[s[a].held].index))
  }

  function Advance(t: Thread, action: Action): Thread
    requires Possible(t, action)
  {
    match action
    case Announce => t.(pending := true)
    case Lock => t.(held := t.held + 1, pending := false)
    case RLock => t.(held := t.held + 1)
    case Turn => t.(releasing := true)
    case Unlock => t.(held := t.held - 1)
    case NextBatch => Thread(t.todo[0], 0, false, false, t.todo[1..])
  }

  function Next(s: seq<Thread>, a: nat, action: Action): seq<Thread>
    requires a < |s| && Possible(s[a], action)
  {
    s[a := Advance(s[a], action)]
  }

  /** Of two threads, one that keeps readers out of a mutex is its only writer, and once writing it is alone. */
  predicate Apart(t: Thread, u: Thread, i: nat) {
    WriterSlot(t, i) ==> !WriterSlot(u, i) && (HoldsWrite(t, i) ==> !Holds(u, i))
  }

  ghost predicate Exclusive(s: seq<Thread>) {
    forall a, b, i: nat :: 0 <= a < |s| && 0 <= b < |s| && a != b ==> Apart(s[a], s[b], i)
  }

  ghost predicate Inv(s: seq<Thread>) {
    (forall a :: 0 <= a < |s| ==> ThreadOK(s[a])) && Exclusive(s)
  }

  lemma StartSatisfiesInv(s: seq<Thread>)
    requires forall a :: 0 <= a < |s| ==> Start(s[a])
    ensures Inv(s)
  {
  }

  /** The mutex that the next call of the thread is about. */
  predicate Aims(t: Thread, i: nat) {
    Wanting(t) && t.plan[t.held].index == i
  }

  /** What one action changes in the mutexes of its own thread. */
  lemma OwnEffect(t: Thread, action: Action, i: nat)
    requires ThreadOK(t) && Possible(t, action)
    ensures ThreadOK(Advance(t, action))
    ensures Holds(Advance(t, action), i) ==> Holds(t, i) || ((action.Lock? || action.RLock?) && Aims(t, i))
    ensures HoldsWrite(Advance(t, action), i) ==> HoldsWrite(t, i) || (action.Lock? && Aims(t, i))
    ensures Announced(Advance(t, action), i) ==> Announced(t, i) || (action.Announce? && Aims(t, i))
  {
  }

  /** An action keeps its thread apart from any other that the table did not object to. */
  lemma StaysApart(t: Thread, action: Action, u: Thread, i: nat)
    requires ThreadOK(t) && Possible(t, action) && Apart(t, u, i) && Apart(u, t, i)
    requires (action.Announce? || action.RLock?) && Aims(t, i) ==> !WriterSlot(u, i)
    requires action.Lock? && Aims(t, i) ==> !Holds(u, i)
    ensures Apart(Advance(t, action), u, i) && Apart(u, Advance(t, action), i)
  {
    OwnEffect(t, action, i);
    assert action.Lock? && Aims(t, i) ==> Announced(t, i);
    assert HoldsWrite(u, i) ==> Holds(u, i);
  }

  lemma StepKeepsInv(s: seq<Thread>, a: nat, action: Action)
    requires Inv(s) && Enabled(s, a, action)
    ensures Inv(Next(s, a, action))
  {
    var next := Next(s, a, action);
    OwnEffect(s[a], action, 0);
    forall x, y, i: nat | 0 <= x < |next| && 0 <= y < |next| && x != y ensures Apart(next[x], next[y], i) {
      assert Apart(s[x], s[y], i) && Apart(s[y], s[x], i);
      if x == a {
        StaysApart(s[a], action, s[y], i);
      } else if y == a {
        StaysApart(s[a], action, s[x], i);
      }
    }
  }

  /** Two commands that hold their whole batches at once share no mutex that either of them writes. */
  lemma HeldTogether(s: seq<Thread>, a: nat, b: nat, writesA: set<nat>, readsA: set<nat>, writesB: set<nat>, readsB: set<nat>)
    requires Inv(s) && a < |s| && b < |s| && a != b
    requires s[a].held == |s[a].plan| && s[b].held == |s[b].plan|
    requires IsPlan(s[a].plan, writesA, readsA) && IsPlan(s[b].plan, writesB, readsB)
    ensures writesA !! writesB + readsB
  {
    forall i | i in writesA ensures i !in writesB + readsB {
      var k :| 0 <= k < |s[a].plan| && s[a].plan[k].index == i;
      assert s[a].plan[k] == Op(i, true);
      assert Apart(s[a], s[b], i) && HoldsWrite(s[a], i);
    }
  }

  // ---- Progress ----

  function Bound(plan: seq<Op>): (n: nat)
    ensures forall k :: 0 <= k < |plan| ==> plan[k].index < n
  {
    if |plan| == 0 then 0 else
      var rest := Bound(plan[1..]);
      assert forall k :: 1 <= k < |plan| ==> plan[k] == plan[1..][k - 1];
      if plan[0].index < rest then rest else plan[0].index + 1
  }

  function TableBound(s: seq<Thread>): (n: nat)
    ensures forall a, k :: 0 <= a < |s| && 0 <= k < |s[a].plan| ==> s[a].plan[k].index < n
  {
    if |s| == 0 then 0 else
      var first, rest := Bound(s[0].plan), TableBound(s[1..]);
      assert forall a :: 1 <= a < |s| ==> s[a] == s[1..][a - 1];
      if first < rest then rest else first
  }

  /** From a blocked thread, follow whoever blocks it: the indices wanted grow, so somebody can move. */
  lemma {:induction false} SomeoneCanMove(s: seq<Thread>, a: nat, n: nat) returns (b: nat, action: Action)
    requires Inv(s) && a < |s| && !Finished(s[a])
    requires forall x, k :: 0 <= x < |s| && 0 <= k < |s[x].plan| ==> s[x].plan[k].index < n
    ensures Enabled(s, b, action)
    decreases if Wanting(s[a]) then n - s[a].plan[s[a].held].index else 0, if s[a].pending then 0 else 1
  {
    var t := s[a];
    b := a;
    if !Wanting(t) {
      action := if !t.releasing then Turn else if t.held > 0 then Unlock else NextBatch;
    } else {
      action := if !t.plan[t.held].write then RLock else if t.pending then Lock else Announce;
      if !Enabled(s, a, action) {
        var i := t.plan[t.held].index;
        var c :| 0 <= c < |s| && c != a && (if action.Lock? then Holds(s[c], i) else WriterSlot(s[c], i));
        assert HoldsWrite(s[c], i) ==> Holds(s[c], i);
        if Wanting(s[c]) && Holds(s[c], i) {
          assert s[c].plan[s[c].held].index > i;
        }
        b, action := SomeoneCanMove(s, c, n);
      }
    }
  }

  /** No deadlock: as long as a thread is unfinished, some thread can take a step. */
  lemma NoDeadlock(s: seq<Thread>, a: nat) returns (b: nat, action: Action)
    requires Inv(s) && a < |s| && !Finished(s[a])
    ensures Enabled(s, b, action)
  {
    b, action := SomeoneCanMove(s, a, TableBound(s));
  }

  // ---- Runs ----

  function BatchWork(plan: seq<Op>): nat {
    3 * |plan| + 2
  }

  function TodoWork(todo: seq<seq<Op>>): nat {
    if |todo| == 0 then 0 else BatchWork(todo[0]) + TodoWork(todo[1..])
  }

  function ThreadWork(t: Thread): int {
    TodoWork(t.todo) +
    (if t.releasing then t.held else 2 * (|t.plan| - t.held) + |t.plan| + 1 - (if t.pending then 1 else 0))
  }

  function Work(s: seq<Thread>): int {
    if |s| == 0 then 0 else ThreadWork(s[0]) + Work(s[1..])
  }

  lemma {:induction false} WorkNotNegative(s: seq<Thread>)
    requires forall a :: 0 <= a < |s| ==> ThreadOK(s[a])
    ensures Work(s) >= 0
  {
    if |s| > 0 { WorkNotNegative(s[1..]); }
  }

  lemma {:induction false} WorkFalls(s: seq<Thread>, a: nat, t: Thread)
    requires a < |s| && ThreadWork(t) < ThreadWork(s[a])
    ensures Work(s[a := t]) < Work(s)
  {
    if a == 0 {
      assert s[a := t][1..] == s[1..];
    } else {
      assert s[a := t][1..] == s[1..][a - 1 := t];
      WorkFalls(s[1..], a - 1, t);
    }
  }

  ghost predicate Steps(s: seq<Thread>, next: seq<Thread>) {
    exists a: nat, action :: Enabled(s, a, action) && next == Next(s, a, action)
  }

  /** A run: at each step some thread makes a call that the table allows. */
  ghost predicate Run(states: seq<seq<Thread>>) {
    && |states| > 0
    && (forall a :: 0 <= a < |states[0]| ==> Start(states[0][a]))
    && forall k :: 0 <= k < |states| - 1 ==> Steps(states[k], states[k + 1])
  }

  /** In every state of every run the locks are exclusive, and each step uses up work. */
  lemma {:induction false} RunKeepsInv(states: seq<seq<Thread>>)
    requires Run(states)
    ensures Inv(states[|states| - 1])
    ensures Work(states[|states| - 1]) + |states| - 1 <= Work(states[0])
  {
    if |states| == 1 {
      StartSatisfiesInv(states[0]);
    } else {
      var before, last := states[..|states| - 1], states[|states| - 1];
      forall k | 0 <= k < |before| - 1 ensures Steps(before[k], before[k + 1]) {
        assert Steps(states[k], states[k + 1]);
      }
      RunKeepsInv(before);
      var s := states[|states| - 2];
      assert s == before[|before| - 1] && Steps(s, states[|states| - 2 + 1]);
      var a: nat, action :| Enabled(s, a, action) && last == Next(s, a, action);
      StepKeepsInv(s, a, action);
      WorkFalls(s, a, Advance(s[a], action));
    }
  }

  /** Every run ends, and one that cannot be continued has finished all its threads with no lock held. */
  lemma EveryRunCompletes(states: seq<seq<Thread>>)
    requires Run(states)
    ensures |states| <= Work(states[0]) + 1
    ensures var last := states[|states| - 1];
            (forall a, action :: !Enabled(last, a, action)) ==> forall a :: 0 <= a < |last| ==> Finished(last[a])
  {
    RunKeepsInv(states);
    var last := states[|states| - 1];
    WorkNotNegative(last);
    if a :| 0 <= a < |last| && !Finished(last[a]) {
      var b, action := NoDeadlock(last, a);
    }
  }
}
