/** The wheel keeps exact deadlines: it refines a set of jobs, each with a number of ticks left. */
module Deadlines {
  import opened Strconv
  import opened TimeWheel

  datatype Deadline = Deadline(id: nat, key: Bytes, job: nat, left: int)

  /** The element is in that slot. */
  predicate At(w: Wheel, s: nat, e: Entry) {
    s < |w.slots| && e in w.slots[s]
  }

  /** Turns still to wait, in ticks. */
  function Left(w: Wheel, s: nat, e: Entry): int {
    e.task.circle * |w.slots| + Ahead(w.pos, s, |w.slots|)
  }

  function View(w: Wheel, s: nat, e: Entry): Deadline {
    Deadline(e.id, e.task.key, e.task.job, Left(w, s, e))
  }

  /** The wheel as a set of deadlines. */
  function Pending(w: Wheel): set<Deadline> {
    set s, e | 0 <= s < |w.slots| && e in w.slots[s] :: View(w, s, e)
  }

  /** One element for each id and for each non-empty key, found through the location map. */
  ghost predicate Inv(w: Wheel) {
    && Shaped(w)
    && (forall s :: 0 <= s < |w.slots| ==> DistinctIds(w.slots[s]))
    && (forall s, e :: At(w, s, e) ==> e.id < w.nextId)
    && (forall s, e, t, f :: At(w, s, e) && At(w, t, f) && e.id == f.id ==> s == t && e == f)
    && (forall s, e :: At(w, s, e) && e.task.key != [] ==>
          e.task.key in w.locations && w.locations[e.task.key] == Location(s, e.id))
    && (forall k :: k in w.locations && k != [] ==>
          exists e :: At(w, w.locations[k].slotIndex, e) && e.id == w.locations[k].id && e.task.key == k)
  }

  // ---- What the list operations leave ----

  lemma {:induction false} WithoutMembers(list: seq<Entry>, id: nat)
    ensures forall e :: e in Without(list, id) <==> e in list && e.id != id
    ensures DistinctIds(list) ==> DistinctIds(Without(list, id))
  {
    if |list| > 0 {
      WithoutMembers(list[1..], id);
      assert list == [list[0]] + list[1..];
      var rest := Without(list[1..], id);
      assert forall i :: 0 <= i < |rest| ==> rest[i] in list[1..];
    }
  }

  lemma {:induction false} DueMembers(list: seq<Entry>)
    ensures forall e :: e in Due(list) <==> e in list && e.task.circle == 0
    ensures DistinctIds(list) ==> DistinctIds(Due(list))
  {
    if |list| > 0 {
      DueMembers(list[1..]);
      assert list == [list[0]] + list[1..];
      var rest := Due(list[1..]);
      assert forall i :: 0 <= i < |rest| ==> rest[i] in list[1..];
    }
  }

  lemma {:induction false} KeptMembers(list: seq<Entry>)
    ensures forall e :: e in Kept(list) <==> Farther(e) in list
    ensures DistinctIds(list) ==> DistinctIds(Kept(list))
  {
    if |list| > 0 {
      KeptMembers(list[1..]);
      assert list == [list[0]] + list[1..];
      var rest := Kept(list[1..]);
      assert forall i :: 0 <= i < |rest| ==> rest[i] in rest && Farther(rest[i]) in list[1..];
      if list[0].task.circle > 0 {
        assert Farther(Nearer(list[0])) == list[0];
        assert Kept(list) == [Nearer(list[0])] + rest;
      }
    }
  }

  // ---- The simple machine: a set of deadlines ----

  datatype Event = AddJob(intervals: nat, key: Bytes, job: nat) | RemoveJob(key: Bytes) | TickTock

  datatype Board = Board(pending: set<Deadline>, nextId: nat)

  function Drop(pending: set<Deadline>, key: Bytes): set<Deadline> {
    if key == [] then pending else set x | x in pending && x.key != key
  }

  function Post(b: Board, event: Event): Board {
    match event
    case AddJob(intervals, key, job) =>
      Board(Drop(b.pending, key) + {Deadline(b.nextId, key, job, intervals)}, b.nextId + 1)
    case RemoveJob(key) => b.(pending := Drop(b.pending, key))
    case TickTock => b.(pending := set x | x in b.pending && x.left > 0 :: x.(left := x.left - 1))
  }

  function Started(b: Board, event: Event): set<nat> {
    if event.TickTock? then set x | x in b.pending && x.left == 0 :: x.id else {}
  }

  /** One event on the wheel. `RemoveJob` ignores the empty key. */
  function Turn(w: Wheel, event: Event): (r: Wheel)
    requires Shaped(w)
    ensures Shaped(r)
  {
    match event
    case AddJob(intervals, key, job) => Added(w, intervals, key, job)
    case RemoveJob(key) => if key == [] then w else Removed(w, key)
    case TickTock => Ticked(w)
  }

  function StartedOnWheel(w: Wheel, event: Event): seq<Entry>
    requires Shaped(w)
  {
    if event.TickTock? then Due(w.slots[w.pos]) else []
  }

  // ---- Removing ----

  lemma RemovedAt(w: Wheel, key: Bytes, s: nat, e: Entry)
    requires Inv(w) && key != []
    ensures At(Removed(w, key), s, e) <==> At(w, s, e) && e.task.key != key
  {
    if key in w.locations {
      var loc := w.locations[key];
      var x :| At(w, loc.slotIndex, x) && x.id == loc.id && x.task.key == key;
      WithoutMembers(w.slots[loc.slotIndex], loc.id);
      assert At(w, s, e) && e.id == loc.id ==> e == x;
      assert At(w, s, e) && e.task.key == key ==> s == loc.slotIndex && e.id == loc.id;
    }
  }

  lemma RemoveRefines(w: Wheel, key: Bytes)
    requires Inv(w) && key != []
    ensures Inv(Removed(w, key)) && Pending(Removed(w, key)) == Drop(Pending(w), key)
  {
    var r := Removed(w, key);
    forall s: nat, e ensures At(r, s, e) <==> At(w, s, e) && e.task.key != key {
      RemovedAt(w, key, s, e);
    }
    if key in w.locations {
      WithoutMembers(w.slots[w.locations[key].slotIndex], w.locations[key].id);
    }
    forall k | k in r.locations && k != []
      ensures exists e :: At(r, r.locations[k].slotIndex, e) && e.id == r.locations[k].id && e.task.key == k
    {
      var e :| At(w, w.locations[k].slotIndex, e) && e.id == w.locations[k].id && e.task.key == k;
      assert At(r, r.locations[k].slotIndex, e);
    }
    forall x ensures x in Pending(r) <==> x in Drop(Pending(w), key) {
      InPending(w, x);
      InPending(r, x);
      assert forall s, e :: View(r, s, e) == View(w, s, e);
    }
  }

  /** A deadline is pending when some element shows it. */
  ghost predicate Shows(w: Wheel, x: Deadline) {
    exists s, e :: At(w, s, e) && View(w, s, e) == x
  }

  lemma InPending(w: Wheel, x: Deadline)
    ensures x in Pending(w) <==> Shows(w, x)
  {
    if x in Pending(w) {
      var s, e :| 0 <= s < |w.slots| && e in w.slots[s] && x == View(w, s, e);
      assert At(w, s, e);
    }
  }

  // ---- Adding ----

  lemma {:induction false} WithoutAppend(list: seq<Entry>, e: Entry, id: nat)
    requires e.id != id
    ensures Without(list + [e], id) == Without(list, id) + [e]
  {
    if |list| > 0 {
      WithoutAppend(list[1..], e, id);
      assert (list + [e])[1..] == list[1..] + [e];
    }
  }

  function Push(w: Wheel, slot: nat, e: Entry): Wheel
    requires slot < |w.slots|
  {
    w.(slots := w.slots[slot := w.slots[slot] + [e]], nextId := w.nextId + 1,
       locations := w.locations[e.task.key := Location(slot, e.id)])
  }

  /** Putting the new element in before clearing the old one of its key makes no difference. */
  lemma AddedIsPush(w: Wheel, intervals: nat, key: Bytes, job: nat)
    requires Inv(w)
    ensures Added(w, intervals, key, job)
         == Push(if key == [] then w else Removed(w, key), (w.pos + intervals) % |w.slots|,
                 Entry(w.nextId, Task(intervals / |w.slots|, key, job)))
  {
    if key != [] && key in w.locations {
      var slot := (w.pos + intervals) % |w.slots|;
      var e := Entry(w.nextId, Task(intervals / |w.slots|, key, job));
      var loc := w.locations[key];
      var x :| At(w, loc.slotIndex, x) && x.id == loc.id;
      WithoutAppend(w.slots[slot], e, loc.id);
      var pushed := w.(slots := w.slots[slot := w.slots[slot] + [e]], nextId := w.nextId + 1);
      assert Removed(pushed, key).slots == Removed(w, key).slots[slot := Removed(w, key).slots[slot] + [e]];
    }
  }

  lemma AppendDistinct(list: seq<Entry>, e: Entry)
    ensures DistinctIds(list) && (forall f :: f in list ==> f.id != e.id) ==> DistinctIds(list + [e])
  {
  }

  lemma PushedAt(w: Wheel, slot: nat, e: Entry)
    requires slot < |w.slots|
    ensures forall s, f :: At(Push(w, slot, e), s, f) <==> At(w, s, f) || (s == slot && f == e)
  {
  }

  lemma PushRefines(w: Wheel, slot: nat, e: Entry)
    requires Inv(w) && slot < |w.slots| && e.id == w.nextId
    requires e.task.key != [] ==> forall s, f :: At(w, s, f) ==> f.task.key != e.task.key
    ensures Inv(Push(w, slot, e)) && Pending(Push(w, slot, e)) == Pending(w) + {View(w, slot, e)}
  {
    var r := Push(w, slot, e);
    PushedAt(w, slot, e);
    AppendDistinct(w.slots[slot], e);
    forall f | f in w.slots[slot] ensures f.id != e.id { assert At(w, slot, f); }
    forall s | 0 <= s < |r.slots| ensures DistinctIds(r.slots[s]) {
      assert DistinctIds(w.slots[s]);
    }
    forall k | k in r.locations && k != []
      ensures exists f :: At(r, r.locations[k].slotIndex, f) && f.id == r.locations[k].id && f.task.key == k
    {
      if k == e.task.key {
        assert At(r, slot, e);
      } else {
        var f :| At(w, w.locations[k].slotIndex, f) && f.id == w.locations[k].id && f.task.key == k;
        assert At(r, r.locations[k].slotIndex, f);
      }
    }
    PushPending(w, slot, e);
  }

  lemma PushPending(w: Wheel, slot: nat, e: Entry)
    requires slot < |w.slots|
    ensures Pending(Push(w, slot, e)) == Pending(w) + {View(w, slot, e)}
  {
    var r := Push(w, slot, e);
    assert forall s, f :: At(r, s, f) <==> At(w, s, f) || (s == slot && f == e);
    assert forall s, f :: View(r, s, f) == View(w, s, f);
    forall x ensures x in Pending(r) <==> x in Pending(w) + {View(w, slot, e)} {
      InPending(w, x);
      InPending(r, x);
      assert At(r, slot, e);
    }
  }

  lemma AddRefines(w: Wheel, intervals: nat, key: Bytes, job: nat)
    requires Inv(w)
    ensures Inv(Added(w, intervals, key, job))
    ensures Pending(Added(w, intervals, key, job)) == Drop(Pending(w), key) + {Deadline(w.nextId, key, job, intervals)}
  {
    var base := if key == [] then w else Removed(w, key);
    var slot := (w.pos + intervals) % |w.slots|;
    var e := Entry(w.nextId, Task(intervals / |w.slots|, key, job));
    AddedIsPush(w, intervals, key, job);
    if key != [] {
      RemoveRefines(w, key);
      forall s: nat, f | At(base, s, f) ensures f.task.key != key {
        RemovedAt(w, key, s, f);
      }
    }
    PushRefines(base, slot, e);
    OffsetAhead(w.pos, intervals, |w.slots|);
  }

  // ---- Ticking ----

  lemma TickedAt(w: Wheel, s: nat, e: Entry)
    requires Inv(w)
    ensures At(Ticked(w), s, e) <==> (if s == w.pos then At(w, s, Farther(e)) else At(w, s, e))
  {
    KeptMembers(w.slots[w.pos]);
  }

  /** The element a tick leaves comes from this one. */
  function Before(w: Wheel, s: nat, e: Entry): Entry {
    if s == w.pos then Farther(e) else e
  }

  lemma OneTickLess(w: Wheel, s: nat, e: Entry)
    requires Inv(w) && At(Ticked(w), s, e)
    ensures At(w, s, Before(w, s, e))
    ensures View(Ticked(w), s, e) == View(w, s, Before(w, s, e)).(left := View(w, s, Before(w, s, e)).left - 1)
    ensures View(Ticked(w), s, e).left >= 0
  {
    TickedAt(w, s, e);
    var n := |w.slots|;
    assert (e.task.circle + 1) * n == e.task.circle * n + n;
    assert e.task.circle * n >= 0;
  }

  /** Exactly the jobs with no tick left are due. */
  lemma DueIsZero(w: Wheel, s: nat, e: Entry)
    requires Inv(w) && At(w, s, e)
    ensures Left(w, s, e) >= 0
    ensures Left(w, s, e) == 0 <==> s == w.pos && e.task.circle == 0
  {
    var n := |w.slots|;
    if e.task.circle > 0 {
      assert e.task.circle * n >= n;
    }
  }

  lemma TickedElements(w: Wheel)
    requires Inv(w)
    ensures var r := Ticked(w);
            && (forall s :: 0 <= s < |r.slots| ==> DistinctIds(r.slots[s]))
            && (forall s, e :: At(r, s, e) ==> e.id < r.nextId)
            && (forall s, e, t, f :: At(r, s, e) && At(r, t, f) && e.id == f.id ==> s == t && e == f)
  {
    var r := Ticked(w);
    KeptMembers(w.slots[w.pos]);
    forall s: nat, e | At(r, s, e) ensures At(w, s, Before(w, s, e)) { TickedAt(w, s, e); }
    forall s: nat, e, t: nat, f | At(r, s, e) && At(r, t, f) && e.id == f.id ensures s == t && e == f {
      assert At(w, s, Before(w, s, e)) && At(w, t, Before(w, t, f));
    }
  }

  /** The key of an element that stays is not the key of one that goes. */
  lemma TickKeepsKey(w: Wheel, s: nat, e: Entry)
    requires Inv(w) && At(Ticked(w), s, e) && e.task.key != []
    ensures e.task.key in Ticked(w).locations && Ticked(w).locations[e.task.key] == Location(s, e.id)
  {
    TickedAt(w, s, e);
    var f := Before(w, s, e);
    assert At(w, s, f) && f.task.key == e.task.key;
    DueMembers(w.slots[w.pos]);
    forall d | d in Due(w.slots[w.pos]) ensures d.task.key != e.task.key {
      assert At(w, w.pos, d);
    }
  }

  lemma TickLocates(w: Wheel, k: Bytes) returns (e: Entry)
    requires Inv(w) && k in Ticked(w).locations && k != []
    ensures At(Ticked(w), w.locations[k].slotIndex, e) && e.id == w.locations[k].id && e.task.key == k
  {
    var loc := w.locations[k];
    e :| At(w, loc.slotIndex, e) && e.id == loc.id && e.task.key == k;
    if loc.slotIndex == w.pos {
      DueMembers(w.slots[w.pos]);
      assert e !in Due(w.slots[w.pos]);
      assert Farther(Nearer(e)) == e;
      e := Nearer(e);
    }
    TickedAt(w, loc.slotIndex, e);
  }

  lemma TickKeepsInv(w: Wheel)
    requires Inv(w)
    ensures Inv(Ticked(w))
  {
    var r := Ticked(w);
    TickedElements(w);
    forall s: nat, e | At(r, s, e) && e.task.key != []
      ensures e.task.key in r.locations && r.locations[e.task.key] == Location(s, e.id)
    {
      TickKeepsKey(w, s, e);
    }
    forall k | k in r.locations && k != []
      ensures exists e :: At(r, r.locations[k].slotIndex, e) && e.id == r.locations[k].id && e.task.key == k
    {
      var e := TickLocates(w, k);
    }
  }

  lemma TickPending(w: Wheel)
    requires Inv(w)
    ensures Pending(Ticked(w)) == set x | x in Pending(w) && x.left > 0 :: x.(left := x.left - 1)
  {
    var r := Ticked(w);
    forall y ensures y in Pending(r) <==> y.left >= 0 && y.(left := y.left + 1) in Pending(w) {
      var x := y.(left := y.left + 1);
      InPending(r, y);
      InPending(w, x);
      if Shows(r, y) {
        var s: nat, e :| At(r, s, e) && View(r, s, e) == y;
        OneTickLess(w, s, e);
      }
      if y.left >= 0 && Shows(w, x) {
        var s: nat, f :| At(w, s, f) && View(w, s, f) == x;
        DueIsZero(w, s, f);
        var e := if s == w.pos then Nearer(f) else f;
        assert Before(w, s, e) == f;
        TickedAt(w, s, e);
        OneTickLess(w, s, e);
        assert At(r, s, e) && View(r, s, e) == y;
      }
    }
    var expected := set x | x in Pending(w) && x.left > 0 :: x.(left := x.left - 1);
    forall y ensures y in Pending(r) <==> y in expected {
      if y in expected {
        var x :| x in Pending(w) && x.left > 0 && y == x.(left := x.left - 1);
        assert y.(left := y.left + 1) == x;
      }
      var x := y.(left := y.left + 1);
      assert x.(left := x.left - 1) == y;
    }
  }

  lemma TickStarts(w: Wheel)
    requires Inv(w)
    ensures (set e | e in Due(w.slots[w.pos]) :: e.id) == (set x | x in Pending(w) && x.left == 0 :: x.id)
    ensures DistinctIds(Due(w.slots[w.pos]))
  {
    DueMembers(w.slots[w.pos]);
    var started := set e | e in Due(w.slots[w.pos]) :: e.id;
    var zero := set x | x in Pending(w) && x.left == 0 :: x.id;
    forall id | id in started ensures id in zero {
      var e :| e in Due(w.slots[w.pos]) && e.id == id;
      assert At(w, w.pos, e);
      InPending(w, View(w, w.pos, e));
      DueIsZero(w, w.pos, e);
    }
    forall id | id in zero ensures id in started {
      var x :| x in Pending(w) && x.left == 0 && x.id == id;
      InPending(w, x);
      var s: nat, e :| At(w, s, e) && View(w, s, e) == x;
      DueIsZero(w, s, e);
    }
  }

  // ---- The wheel refines the board ----

  function BoardOf(w: Wheel): Board {
    Board(Pending(w), w.nextId)
  }

  /** Every event does to the wheel what it does to the set of deadlines, and starts the same jobs once each. */
  lemma WheelRefinesBoard(w: Wheel, event: Event)
    requires Inv(w)
    ensures Inv(Turn(w, event)) && BoardOf(Turn(w, event)) == Post(BoardOf(w), event)
    ensures (set e | e in StartedOnWheel(w, event) :: e.id) == Started(BoardOf(w), event)
    ensures DistinctIds(StartedOnWheel(w, event))
  {
    match event {
      case AddJob(intervals, key, job) => AddRefines(w, intervals, key, job);
      case RemoveJob(key) => if key != [] { RemoveRefines(w, key); }
      case TickTock => TickKeepsInv(w); TickPending(w); TickStarts(w);
    }
  }

  lemma EmptyWheel(n: nat)
    requires n > 0
    ensures Inv(NewWheel(n)) && BoardOf(NewWheel(n)) == Board({}, 0)
  {
  }

  // ---- Runs ----

  /** The tick numbers at which the job with this id is started, counting ticks from n. */
  function Firings(w: Wheel, events: seq<Event>, id: nat, n: nat): seq<nat>
    requires Shaped(w)
    decreases |events|
  {
    if |events| == 0 then []
    else
      var now := n + (if events[0].TickTock? then 1 else 0);
      Times(StartedOnWheel(w, events[0]), id, now) + Firings(Turn(w, events[0]), events[1..], id, now)
  }

  /** `now`, once for each element of the list with this id. */
  function Times(started: seq<Entry>, id: nat, now: nat): seq<nat> {
    if |started| == 0 then []
    else (if started[0].id == id then [now] else []) + Times(started[1..], id, now)
  }

  function Ticks(events: seq<Event>): nat {
    if |events| == 0 then 0 else (if events[0].TickTock? then 1 else 0) + Ticks(events[1..])
  }

  /** The event takes the jobs of a key off the wheel. */
  predicate Cancels(event: Event, key: Bytes) {
    key != [] && (event == RemoveJob(key) || (event.AddJob? && event.key == key))
  }

  lemma {:induction false} TimesOf(started: seq<Entry>, id: nat, now: nat)
    requires DistinctIds(started)
    ensures Times(started, id, now) == if exists e :: e in started && e.id == id then [now] else []
  {
    if |started| > 0 {
      TimesOf(started[1..], id, now);
      assert started == [started[0]] + started[1..];
      if started[0].id == id {
        assert forall e :: e in started[1..] ==> e.id != id;
      }
    }
  }

  /** The same, read off the board. */
  function BoardFirings(b: Board, events: seq<Event>, id: nat, n: nat): seq<nat>
    decreases |events|
  {
    if |events| == 0 then []
    else
      var now := n + (if events[0].TickTock? then 1 else 0);
      (if id in Started(b, events[0]) then [now] else []) + BoardFirings(Post(b, events[0]), events[1..], id, now)
  }

  lemma {:induction false} FiringsRefine(w: Wheel, events: seq<Event>, id: nat, n: nat)
    requires Inv(w)
    ensures Firings(w, events, id, n) == BoardFirings(BoardOf(w), events, id, n)
    decreases |events|
  {
    if |events| > 0 {
      WheelRefinesBoard(w, events[0]);
      var started, now := StartedOnWheel(w, events[0]), n + (if events[0].TickTock? then 1 else 0);
      TimesOf(started, id, now);
      assert id in (set e | e in started :: e.id) <==> exists e :: e in started && e.id == id;
      FiringsRefine(Turn(w, events[0]), events[1..], id, now);
    }
  }

  ghost predicate Sound(b: Board) {
    && (forall x :: x in b.pending ==> x.id < b.nextId && x.left >= 0)
    && (forall x, y :: x in b.pending && y in b.pending && x.id == y.id ==> x == y)
  }

  lemma BoardIsSound(w: Wheel)
    requires Inv(w)
    ensures Sound(BoardOf(w))
  {
    forall x | x in Pending(w)
      ensures x.id < w.nextId && x.left >= 0 && forall y :: y in Pending(w) && x.id == y.id ==> x == y
    {
      InPending(w, x);
      var s: nat, e :| At(w, s, e) && View(w, s, e) == x;
      DueIsZero(w, s, e);
      forall y | y in Pending(w) && y.id == x.id ensures y == x {
        InPending(w, y);
        var t: nat, f :| At(w, t, f) && View(w, t, f) == y;
      }
    }
  }

  lemma PostKeepsSound(b: Board, event: Event)
    requires Sound(b)
    ensures Sound(Post(b, event)) && Post(b, event).nextId >= b.nextId
  {
  }

  /** A job that is not on the board and whose id is used up never starts. */
  lemma {:induction false} GoneForGood(b: Board, events: seq<Event>, id: nat, n: nat)
    requires Sound(b) && id < b.nextId && forall x :: x in b.pending ==> x.id != id
    ensures BoardFirings(b, events, id, n) == []
    decreases |events|
  {
    if |events| > 0 {
      PostKeepsSound(b, events[0]);
      GoneForGood(Post(b, events[0]), events[1..], id, n + (if events[0].TickTock? then 1 else 0));
    }
  }

  /** What an event leaves of a waiting job that it neither cancels nor starts. */
  function Waited(x: Deadline, event: Event): Deadline {
    if event.TickTock? then x.(left := x.left - 1) else x
  }

  lemma StillWaiting(b: Board, event: Event, x: Deadline)
    requires Sound(b) && x in b.pending && !Cancels(event, x.key)
    requires event.TickTock? ==> x.left > 0
    ensures Waited(x, event) in Post(b, event).pending && x.id !in Started(b, event)
  {
  }

  lemma {:induction false} BoardDeadline(b: Board, events: seq<Event>, x: Deadline, n: nat)
    requires Sound(b) && x in b.pending
    requires forall i :: 0 <= i < |events| ==> !Cancels(events[i], x.key)
    ensures BoardFirings(b, events, x.id, n) == if Ticks(events) > x.left then [n + x.left + 1] else []
    decreases |events|
  {
    if |events| > 0 {
      var event := events[0];
      var now := n + (if event.TickTock? then 1 else 0);
      PostKeepsSound(b, event);
      assert !Cancels(events[0], x.key);
      if event.TickTock? && x.left == 0 {
        assert x.id in Started(b, event);
        GoneForGood(Post(b, event), events[1..], x.id, now);
      } else {
        StillWaiting(b, event, x);
        BoardDeadline(Post(b, event), events[1..], Waited(x, event), now);
      }
    }
  }

  lemma {:induction false} BoardCancelled(b: Board, events: seq<Event>, x: Deadline, n: nat, k: nat)
    requires Sound(b) && x in b.pending
    requires k < |events| && Cancels(events[k], x.key) && Ticks(events[..k]) <= x.left
    requires forall i :: 0 <= i < k ==> !Cancels(events[i], x.key)
    ensures BoardFirings(b, events, x.id, n) == []
    decreases |events|
  {
    var event := events[0];
    var now := n + (if event.TickTock? then 1 else 0);
    PostKeepsSound(b, event);
    if k == 0 {
      GoneForGood(Post(b, event), events[1..], x.id, now);
    } else {
      assert events[..k][1..] == events[1..][..k - 1];
      assert !Cancels(events[0], x.key);
      StillWaiting(b, event, x);
      BoardCancelled(Post(b, event), events[1..], Waited(x, event), now, k - 1);
    }
  }

  lemma WaitingJobRuns(w: Wheel, x: Deadline, events: seq<Event>)
    requires Inv(w) && x in Pending(w)
    requires forall i :: 0 <= i < |events| ==> !Cancels(events[i], x.key)
    ensures Firings(w, events, x.id, 0) == if Ticks(events) > x.left then [x.left + 1] else []
  {
    BoardIsSound(w);
    FiringsRefine(w, events, x.id, 0);
    BoardRuns(BoardOf(w), events, x);
  }

  lemma BoardRuns(b: Board, events: seq<Event>, x: Deadline)
    requires Sound(b) && x in b.pending
    requires forall i :: 0 <= i < |events| ==> !Cancels(events[i], x.key)
    ensures BoardFirings(b, events, x.id, 0) == if Ticks(events) > x.left then [x.left + 1] else []
  {
    BoardDeadline(b, events, x, 0);
  }

  lemma WaitingJobCancelled(w: Wheel, x: Deadline, events: seq<Event>, k: nat)
    requires Inv(w) && x in Pending(w)
    requires k < |events| && Cancels(events[k], x.key) && Ticks(events[..k]) <= x.left
    requires forall i :: 0 <= i < k ==> !Cancels(events[i], x.key)
    ensures Firings(w, events, x.id, 0) == []
  {
    BoardIsSound(w);
    FiringsRefine(w, events, x.id, 0);
    BoardCancelled(BoardOf(w), events, x, 0, k);
  }

  /**
   * Exact deadline: over any run that does not remove or replace its key, a job added with d whole intervals of
   * delay starts on tick d + 1 and at no other time.
   */
  lemma ExactDeadline(w: Wheel, d: nat, key: Bytes, job: nat, events: seq<Event>)
    requires Inv(w) && forall i :: 0 <= i < |events| ==> !Cancels(events[i], key)
    ensures Firings(Added(w, d, key, job), events, w.nextId, 0) == if Ticks(events) > d then [d + 1] else []
  {
    AddRefines(w, d, key, job);
    WaitingJobRuns(Added(w, d, key, job), Deadline(w.nextId, key, job, d), events);
  }

  /** A job whose key is removed or replaced before its tick never starts. */
  lemma CancelledInTime(w: Wheel, d: nat, key: Bytes, job: nat, events: seq<Event>, k: nat)
    requires Inv(w) && k < |events| && Cancels(events[k], key) && Ticks(events[..k]) <= d
    requires forall i :: 0 <= i < k ==> !Cancels(events[i], key)
    ensures Firings(Added(w, d, key, job), events, w.nextId, 0) == []
  {
    AddRefines(w, d, key, job);
    WaitingJobCancelled(Added(w, d, key, job), Deadline(w.nextId, key, job, d), events, k);
  }

  // ---- From a new wheel on ----

  function TurnAll(w: Wheel, events: seq<Event>): (r: Wheel)
    requires Shaped(w)
    ensures Shaped(r)
    decreases |events|
  {
    if |events| == 0 then w else TurnAll(Turn(w, events[0]), events[1..])
  }

  function NewWheel(n: nat): Wheel {
    Wheel(seq(n, i => []), map[], 0, 0)
  }

  lemma {:induction false} RunKeepsInv(w: Wheel, events: seq<Event>)
    requires Inv(w)
    ensures Inv(TurnAll(w, events))
    decreases |events|
  {
    if |events| > 0 {
      WheelRefinesBoard(w, events[0]);
      RunKeepsInv(Turn(w, events[0]), events[1..]);
    }
  }

  /** Whatever has happened to a wheel since it was made, the next job starts on its tick. */
  lemma ExactFromTheStart(n: nat, before: seq<Event>, d: nat, key: Bytes, job: nat, events: seq<Event>)
    requires n > 0 && forall i :: 0 <= i < |events| ==> !Cancels(events[i], key)
    ensures var w := TurnAll(NewWheel(n), before);
            Firings(Added(w, d, key, job), events, w.nextId, 0) == if Ticks(events) > d then [d + 1] else []
  {
    EmptyWheel(n);
    RunKeepsInv(NewWheel(n), before);
    ExactDeadline(TurnAll(NewWheel(n), before), d, key, job, events);
  }
}
