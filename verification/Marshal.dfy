/** A value written back as commands: `EntityToCmd` and `MakeExpireCmd`. */
module Marshal {
  import opened Strconv
  import opened Elements
  import opened Commands
  import opened Slots
  import opened Engine

  lemma {:induction false} LeastExists(s: set<Bytes>) returns (f: Bytes)
    requires s != {}
    ensures f in s && forall g :: g in s ==> g == f || LessBytes(f, g)
    decreases |s|
  {
    var e :| e in s;
    if s == {e} { return e; }
    f := LeastExists(s - {e});
    LessBytesTotal(e, f);
    if LessBytes(e, f) {
      forall g | g in s ensures g == e || LessBytes(e, g) { LessBytesTransitive(e, f, g); }
      f := e;
    }
  }

  lemma LeastIsOne(s: set<Bytes>)
    requires s != {}
    ensures exists f :: f in s && forall g :: g in s ==> g == f || LessBytes(f, g)
    ensures forall f, g :: f in s && g in s && LessBytes(f, g) ==> !LessBytes(g, f)
  {
    var f := LeastExists(s);
    forall f, g ensures LessBytes(f, g) ==> !LessBytes(g, f) { LessBytesTotal(f, g); }
  }

  function Least(s: set<Bytes>): (f: Bytes)
    requires s != {}
    ensures f in s
  {
    LeastIsOne(s);
    var f :| f in s && forall g :: g in s ==> g == f || LessBytes(f, g);
    f
  }

  /**
   * The order in which a hash is visited. Go's map order is not fixed; the model takes the ascending one, and
   * `AnyOrderRebuilds` shows that the order makes no difference.
   */
  function FieldOrder(names: set<Bytes>): (order: seq<Bytes>)
    ensures SetOf(order) == names
  {
    if names == {} then []
    else
      var f, rest := Least(names), FieldOrder(names - {Least(names)});
      assert forall g :: g in [f] + rest <==> g == f || g in SetOf(rest);
      [f] + rest
  }

  /** Only bytes are written; anything else becomes nothing. */
  function FieldBytes(f: Field): Bytes {
    if f.Raw? then f.bytes else []
  }

  function Pairs(m: map<Bytes, Field>, order: seq<Bytes>): (args: seq<Bytes>)
    requires SetOf(order) <= m.Keys
    ensures |args| == 2 * |order|
  {
    if |order| == 0 then []
    else
      assert order[0] in SetOf(order) && SetOf(order[1..]) <= SetOf(order);
      [order[0], FieldBytes(m[order[0]])] + Pairs(m, order[1..])
  }

  /** `EntityToCmd`: nothing is made of a list. */
  function EntityToCmd(key: Bytes, value: Value): Option<Line> {
    match value
    case Str(bytes) => Some(Line(Set, [key, bytes]))
    case Hash(m) => Some(Line(HMSet, [key] + Pairs(m, FieldOrder(m.Keys))))
    case List(_) => None
  }

  /** What EntityToCmd keeps of a value. */
  function Dumped(value: Value): Value {
    match value
    case Hash(m) => Hash(map f | f in m :: Raw(FieldBytes(m[f])))
    case _ => value
  }

  predicate DumpableValue(value: Value) {
    match value
    case Str(_) => true
    case Hash(m) => forall f :: f in m ==> m[f].Raw?
    case List(_) => false
  }

  lemma DumpedIsSame(value: Value)
    ensures DumpableValue(value) <==> !value.List? && Dumped(value) == value
  {
    if value.Hash? {
      var m, d := value.fields, Dumped(value).fields;
      assert DumpableValue(value) ==> d == m;
      forall f | f in m && d == m ensures m[f].Raw? { assert d[f] == m[f]; }
    }
  }

  /** The pairs of a listing of all fields, in any order, put the dumped hash together. */
  lemma AnyOrderRebuilds(m: map<Bytes, Field>, order: seq<Bytes>, key: Bytes)
    requires SetOf(order) == m.Keys
    ensures PutPairs(map[], [key] + Pairs(m, order), 1) == Dumped(Hash(m)).fields
  {
    PairsPut(m, order, map[], [key] + Pairs(m, order), 1);
    var built := PutPairs(map[], [key] + Pairs(m, order), 1);
    forall f ensures f in built <==> f in m { assert f in order <==> f in SetOf(order); }
  }

  lemma {:induction false} PairsPut(m: map<Bytes, Field>, order: seq<Bytes>, start: map<Bytes, Field>, args: seq<Bytes>, i: nat)
    requires SetOf(order) <= m.Keys && i <= |args| && args[i..] == Pairs(m, order)
    ensures var built := PutPairs(start, args, i);
            forall f :: (f in built <==> f in start || f in order) &&
              (f in order ==> f in m && built[f] == Raw(FieldBytes(m[f]))) &&
              (f in start && f !in order ==> built[f] == start[f])
    decreases |order|
  {
    if |order| > 0 {
      assert order[0] in SetOf(order) && SetOf(order[1..]) <= SetOf(order);
      var pairs := Pairs(m, order);
      assert args[i] == args[i..][0] == order[0] && args[i + 1] == args[i..][1];
      assert args[i + 2..] == args[i..][2..] == Pairs(m, order[1..]);
      PairsPut(m, order[1..], start[args[i] := Raw(args[i + 1])], args, i + 2);
      assert order == [order[0]] + order[1..];
    }
  }

  /** `hashToCmd`, which visits the fields and fills an array. */
  method HashToCmd(key: Bytes, m: map<Bytes, Field>) returns (line: Line)
    ensures Some(line) == EntityToCmd(key, Hash(m))
  {
    var args: seq<Bytes> := [key];
    var left := m.Keys;
    while left != {}
      invariant left <= m.Keys
      invariant [key] + Pairs(m, FieldOrder(m.Keys)) == args + Pairs(m, FieldOrder(left))
    {
      var field := Least(left);
      ghost var order := FieldOrder(left);
      assert order[0] == field && order[1..] == FieldOrder(left - {field});
      ghost var rest := Pairs(m, order[1..]);
      assert args + ([field, FieldBytes(m[field])] + rest) == (args + [field, FieldBytes(m[field])]) + rest;
      args := args + [field, FieldBytes(m[field])];
      left := left - {field};
    }
    assert args + [] == args;
    return Line(HMSet, args);
  }
}
