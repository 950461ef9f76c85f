/** The time wheel: slots of tasks with circle counters, and the map that finds the element of a key. */
module TimeWheel {
  import opened Strconv

  const SECOND: nat := 1_000_000_000

  /** The job is a name for the closure. */
  datatype Task = Task(circle: nat, key: Bytes, job: nat)

  /** A list element; the id stands for its address. */
  datatype Entry = Entry(id: nat, task: Task)

  datatype Location = Location(slotIndex: nat, id: nat)

  datatype Wheel = Wheel(slots: seq<seq<Entry>>, locations: map<Bytes, Location>, pos: nat, nextId: nat)

  /** Entries of one list have different addresses. */
  predicate DistinctIds(list: seq<Entry>) {
    forall i, j :: 0 <= i < j < |list| ==> list[i].id != list[j].id
  }

  /** `list.Remove`. */
  function Without(list: seq<Entry>, id: nat): seq<Entry> {
    if |list| == 0 then []
    else if list[0].id == id then Without(list[1..], id) else [list[0]] + Without(list[1..], id)
  }

  /** A task that has waited one more turn of the wheel. */
  function Nearer(e: Entry): Entry
    requires e.task.circle > 0
  {
    e.(task := e.task.(circle := e.task.circle - 1))
  }

  function Farther(e: Entry): Entry {
    e.(task := e.task.(circle := e.task.circle + 1))
  }

  /** The tasks that one scan leaves in a slot. */
  function Kept(list: seq<Entry>): seq<Entry> {
    if |list| == 0 then []
    else if list[0].task.circle > 0 then [Nearer(list[0])] + Kept(list[1..]) else Kept(list[1..])
  }

  /** The tasks that one scan starts, in list order. */
  function Due(list: seq<Entry>): seq<Entry> {
    if |list| == 0 then []
    else if list[0].task.circle > 0 then Due(list[1..]) else [list[0]] + Due(list[1..])
  }

  function KeysOf(list: seq<Entry>): set<Bytes> {
    set e | e in list && e.task.key != [] :: e.task.key
  }

  predicate Shaped(w: Wheel) {
    |w.slots| > 0 && w.pos < |w.slots|
  }

  /** What `removeTask` leaves. */
  function Removed(w: Wheel, key: Bytes): (r: Wheel)
    ensures |r.slots| == |w.slots| && r.pos == w.pos && r.nextId == w.nextId
  {
    if key in w.locations && w.locations[key].slotIndex < |w.slots| then
      var loc := w.locations[key];
      w.(slots := w.slots[loc.slotIndex := Without(w.slots[loc.slotIndex], loc.id)], locations := w.locations - {key})
    else w
  }

  /** What `addTask` leaves, for a delay of so many whole intervals. */
  function Added(w: Wheel, intervals: nat, key: Bytes, job: nat): (r: Wheel)
    requires Shaped(w)
    ensures Shaped(r) && |r.slots| == |w.slots|
  {
    var slot := (w.pos + intervals) % |w.slots|;
    var e := Entry(w.nextId, Task(intervals / |w.slots|, key, job));
    var pushed := w.(slots := w.slots[slot := w.slots[slot] + [e]], nextId := w.nextId + 1);
    var cleared := if key != [] then Removed(pushed, key) else pushed;
    cleared.(locations := cleared.locations[key := Location(slot, e.id)])
  }

  /** What `tickHandler` leaves, with its scan as part of the same step. */
  function Ticked(w: Wheel): (r: Wheel)
    requires Shaped(w)
    ensures Shaped(r) && |r.slots| == |w.slots|
  {
    w.(slots := w.slots[w.pos := Kept(w.slots[w.pos])],
       locations := w.locations - KeysOf(Due(w.slots[w.pos])),
       pos := if w.pos == |w.slots| - 1 then 0 else w.pos + 1)
  }

  class TimeWheel {
    const interval: nat      // nanoseconds
    const slotNum: nat
    const slots: array<seq<Entry>>
    var locationMap: map<Bytes, Location>
    var currentPos: nat
    var nextId: nat          // the next fresh list element

    ghost predicate Ready()
      reads this, slots
    {
      slots.Length == slotNum && Shaped(State()) && interval > 0
        && forall k :: k in locationMap ==> locationMap[k].slotIndex < slotNum
    }

    function State(): Wheel
      reads this, slots
    {
      Wheel(slots[..], locationMap, currentPos, nextId)
    }

    constructor (interval: nat, slotNum: nat)
      requires interval > 0 && slotNum > 0
      ensures Ready() && fresh(slots) && this.interval == interval && this.slotNum == slotNum
      ensures State() == Wheel(seq(slotNum, i => []), map[], 0, 0)
    {
      this.interval, this.slotNum := interval, slotNum;
      slots := new seq<Entry>[slotNum](i => []);
      locationMap, currentPos, nextId := map[], 0, 0;
    }

    /**
     * `getPositionAndCircle`: how far, in slots and whole turns, a delay in nanoseconds reaches. With an interval
     * below one second it divides by zero.
     */
    method GetPositionAndCircle(d: nat) returns (pos: nat, circle: nat, panicked: bool)
      requires Ready()
      ensures pos < slotNum && (panicked <==> interval < SECOND)
      ensures !panicked ==>
        && circle * slotNum + Ahead(currentPos, pos, slotNum) == (d / SECOND) / (interval / SECOND)
        && pos == (currentPos + (d / SECOND) / (interval / SECOND)) % slotNum
        && circle == (d / SECOND) / (interval / SECOND) / slotNum
    {
      var delaySeconds := d / SECOND;
      var intervalSeconds := interval / SECOND;
      panicked := intervalSeconds == 0;
      if panicked { return 0, 0, true; }
      circle := delaySeconds / intervalSeconds / slotNum;
      pos := (currentPos + delaySeconds / intervalSeconds) % slotNum;
      OffsetAhead(currentPos, delaySeconds / intervalSeconds, slotNum);
    }

    method RemoveTask(key: Bytes)
      requires Ready()
      modifies this`locationMap, slots
      ensures Ready() && State() == Removed(old(State()), key)
    {
      if key in locationMap {
        var loc := locationMap[key];
        slots[loc.slotIndex] := Without(slots[loc.slotIndex], loc.id);
        locationMap := locationMap - {key};
      }
    }

    method AddTask(delay: nat, key: Bytes, job: nat) returns (panicked: bool)
      requires Ready()
      modifies this`locationMap, this`nextId, slots
      ensures Ready() && (panicked <==> interval < SECOND)
      ensures panicked ==> State() == old(State())
      ensures !panicked ==> State() == Added(old(State()), (delay / SECOND) / (interval / SECOND), key, job)
    {
      var pos, circle;
      pos, circle, panicked := GetPositionAndCircle(delay);
      if panicked { return; }
      var id := nextId;
      nextId := nextId + 1;
      slots[pos] := slots[pos] + [Entry(id, Task(circle, key, job))];
      if key != [] {
        if key in locationMap {
          RemoveTask(key);
        }
      }
      locationMap := locationMap[key := Location(pos, id)];
    }

    method TickHandler() returns (started: seq<Entry>)
      requires Ready()
      modifies this`locationMap, this`currentPos, slots
      ensures Ready() && State() == Ticked(old(State()))
      ensures started == Due(old(slots[currentPos]))
    {
      var pos := currentPos;
      if currentPos == slotNum - 1 { currentPos := 0; } else { currentPos := currentPos + 1; }
      started := ScanAndRunTask(pos);
    }

    method ScanAndRunTask(slot: nat) returns (started: seq<Entry>)
      requires Ready() && slot < slotNum
      modifies this`locationMap, slots
      ensures slots[..] == old(slots[..])[slot := Kept(old(slots[slot]))]
      ensures locationMap == old(locationMap) - KeysOf(Due(old(slots[slot])))
      ensures started == Due(old(slots[slot]))
    {
      ghost var list := slots[slot];
      var left: seq<Entry> := [];     // the elements already passed and left in the list
      var e := slots[slot];           // the elements from the cursor on
      started := [];
      assert left + e == e;
      while |e| > 0
        invariant left + Kept(e) == Kept(list) && started + Due(e) == Due(list)
        invariant slots[..] == old(slots[..])[slot := left + e]
        invariant locationMap == old(locationMap) - KeysOf(started)
      {
        var task := e[0].task;
        if task.circle > 0 {
          var next := left + [e[0].(task := task.(circle := task.circle - 1))];
          assert next + Kept(e[1..]) == left + Kept(e);
          left := next;
          slots[slot] := left + e[1..];
        } else {
          assert (started + [e[0]]) + Due(e[1..]) == started + Due(e);
          KeysOfAppend(started, e[0]);
          started := started + [e[0]];
          slots[slot] := left + e[1..];
          if task.key != [] {
            locationMap := locationMap - {task.key};
          }
        }
        e := e[1..];
      }
      assert left + [] == left && started + [] == started;
    }
  }

  lemma KeysOfAppend(list: seq<Entry>, e: Entry)
    ensures KeysOf(list + [e]) == KeysOf(list) + (if e.task.key != [] then {e.task.key} else {})
  {
    forall k ensures k in KeysOf(list + [e]) <==> k in KeysOf(list) || (e.task.key != [] && k == e.task.key) {
      assert forall x :: x in list + [e] <==> x in list || x == e;
    }
  }

  /** The slots from one position forward to another, round the wheel. */
  function Ahead(pos: nat, slot: nat, n: nat): int {
    if slot >= pos then slot - pos else slot + n - pos
  }

  lemma OffsetAhead(pos: nat, d: nat, n: nat)
    requires pos < n
    ensures d / n * n + Ahead(pos, (pos + d) % n, n) == d
  {
    var q, r := d / n, d % n;
    var wraps := if pos + r < n then 0 else 1;
    assert (q + wraps) * n == q * n + wraps * n;
    ModuloUnique(pos + d, n, q + wraps, pos + r - wraps * n);
  }

  lemma ModuloUnique(a: int, n: nat, q: int, r: int)
    requires n > 0 && a == q * n + r && 0 <= r < n
    ensures a % n == r
  {
    var d := q - a / n;
    assert d * n == q * n - a / n * n;
    if d >= 1 { MultipleIsFar(d, n); } else if d <= -1 { MultipleIsFar(-d, n); }
  }

  lemma MultipleIsFar(d: int, n: nat)
    requires d >= 1
    ensures d * n >= n && -d * n == -(d * n)
  {
  }
}
