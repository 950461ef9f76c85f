/** The skip list with spans. */
module SkipList {
  import opened Strconv
  import opened Elements
  import opened SkipSpans
  import opened Borders

  datatype Level = Level(forward: Node?, span: int)

  /** `bits.Len64`. */
  function BitLength(k: nat): (n: nat)
    ensures n == 0 <==> k == 0
  {
    if k == 0 then 0 else 1 + BitLength(k / 2)
  }

  /** `randomLevel`, for the random number k below 2^16 - 1. */
  function RandomLevel(k: nat): int {
    MAX_LEVEL - BitLength(k) + 1
  }

  lemma {:induction false} BitLengthBound(k: nat, bits: nat, limit: nat)
    requires k < limit && limit == Power2(bits)
    ensures BitLength(k) <= bits
  {
    if k > 0 { BitLengthBound(k / 2, bits - 1, Power2(bits - 1)); }
  }

  function Power2(n: nat): (r: nat)
    ensures r > 0
  {
    if n == 0 then 1 else 2 * Power2(n - 1)
  }

  /** The level is one the header has, except for the draw 0. */
  lemma RandomLevelFits(k: nat)
    requires k < 0xFFFF
    ensures 1 <= RandomLevel(k) <= MAX_LEVEL <==> k != 0
  {
    assert Power2(4) == 16;
    assert Power2(8) == 256;
    assert Power2(12) == 4096;
    assert Power2(16) == 0x1_0000;
    BitLengthBound(k, 16, 0x1_0000);
  }

  lemma {:induction false} BitLengthLaw(k: nat, bits: nat)
    ensures BitLength(k) <= bits <==> k < Power2(bits)
  {
    if k > 0 && bits > 0 { BitLengthLaw(k / 2, bits - 1); }
  }

  /** Each level is reached by half of the draws that reach the one below: 2^16 - 1 of them reach level 1. */
  lemma LevelsHalve(k: nat, h: nat)
    requires 1 <= h <= MAX_LEVEL
    ensures RandomLevel(k) >= h <==> k < Power2(MAX_LEVEL + 1 - h)
  {
    BitLengthLaw(k, MAX_LEVEL + 1 - h);
  }

  class Node {
    const element: Element
    var backward: Node?
    var level: seq<Level>

    constructor (height: nat, element: Element)
      ensures this.element == element && backward == null && level == seq(height, i => Level(null, 0))
    {
      this.element, backward, level := element, null, seq(height, i => Level(null, 0));
    }
  }

  predicate DistinctNodes(nodes: seq<Node>) {
    forall i, j :: 0 <= i < j < |nodes| ==> nodes[i] != nodes[j]
  }

  function Clamp(x: int, lo: int, hi: int): int {
    if x < lo then lo else if x > hi then hi else x
  }

  /** How many elements from index lo on are within the upper border and the limit. */
  function Taken(s: seq<Element>, lo: nat, max: ScoreBorder, limit: int): (n: nat)
    requires lo <= |s|
    ensures lo + n <= |s|
  {
    var all := if lo < HighCut(s, max) then HighCut(s, max) - lo else 0;
    if 0 < limit < all then limit else all
  }

  /** The elements after the cut have been taken from s. */
  ghost predicate TakenSoFar(s: seq<Element>, cut: nat, removed: seq<Element>, now: seq<Element>) {
    cut + |removed| <= |s| && removed == s[cut..cut + |removed|] && now == s[..cut] + s[cut + |removed|..]
  }

  ghost predicate AllMore(removed: seq<Element>, more: (int, Element) -> bool) {
    forall k :: 0 <= k < |removed| ==> more(k, removed[k])
  }

  lemma OneMore(removed: seq<Element>, e: Element, more: (int, Element) -> bool)
    requires AllMore(removed, more) && more(|removed|, e)
    ensures AllMore(removed + [e], more)
  {
  }

  /** ... as long as the condition held, and no longer. */
  ghost predicate TakenWhile(s: seq<Element>, cut: nat, removed: seq<Element>, more: (int, Element) -> bool) {
    && cut + |removed| <= |s|
    && AllMore(removed, more)
    && (cut + |removed| < |s| ==> !more(|removed|, s[cut + |removed|]))
  }

  lemma TakeNone(s: seq<Element>, cut: nat)
    requires cut <= |s|
    ensures TakenSoFar(s, cut, [], s)
  {
  }

  lemma TakeOne(s: seq<Element>, cut: nat, removed: seq<Element>, now: seq<Element>)
    requires TakenSoFar(s, cut, removed, now) && cut < |now|
    ensures TakenSoFar(s, cut, removed + [now[cut]], now[..cut] + now[cut + 1..])
    ensures cut + |removed| < |s| && now[cut] == s[cut + |removed|]
  {
  }

  /** The loop of RemoveRangeByScore takes what is within the border and the limit. */
  lemma TakenWhileWithin(s: seq<Element>, lo: nat, max: ScoreBorder, limit: int, removed: seq<Element>, more: (int, Element) -> bool)
    requires Ascending(s) && lo + |removed| <= |s| && removed == s[lo..lo + |removed|] && TakenWhile(s, lo, removed, more)
    requires forall n, e :: more(n, e) <==> Greater(max, e.score) && (limit <= 0 || n < limit)
    ensures |removed| == Taken(s, lo, max, limit)
  {
    CutsDivide(s, max, max);
    var n, all := |removed|, Taken(s, lo, max, limit);
    if n > 0 { assert more(n - 1, removed[n - 1]); }
  }

  /** The loop of RemoveRangeByRank stops at the rank given. */
  lemma TakenWhileBelow(s: seq<Element>, cut: nat, i: int, stop: int, removed: seq<Element>, more: (int, Element) -> bool)
    requires cut <= |s| && TakenWhile(s, cut, removed, more) && i == cut + 1
    requires forall n, e :: more(n, e) <==> i + n < stop
    ensures cut + |removed| == Clamp(stop - 1, cut, |s|)
  {
    var n := |removed|;
    if n > 0 { assert more(n - 1, removed[n - 1]); }
  }

  /** What the level l of the node at rank i must hold. */
  function LevelAt(nodes: seq<Node>, spans: Spans, i: nat, l: nat): Level
    requires |nodes| == |spans| && i < |spans| && l < |spans[i]|
  {
    Level(if Leads(spans, i, l) then nodes[i + spans[i][l]] else null, spans[i][l])
  }

  predicate TowerIn(nodes: seq<Node>, spans: Spans, i: nat)
    requires |nodes| == |spans| && i < |nodes|
    reads nodes[i..i + 1]`level
  {
    |nodes[i].level| == |spans[i]| && forall l :: 0 <= l < |spans[i]| ==> nodes[i].level[l] == LevelAt(nodes, spans, i, l)
  }

  predicate BackAt(nodes: seq<Node>, i: nat)
    requires i < |nodes|
    reads nodes[i..i + 1]`backward
  {
    nodes[i].backward == if i <= 1 then null else nodes[i - 1]
  }

  function ElementsOf(nodes: seq<Node>): (r: seq<Element>)
    ensures |r| == |nodes|
    ensures forall i :: 0 <= i < |nodes| ==> r[i] == nodes[i].element
  {
    seq(|nodes|, i requires 0 <= i < |nodes| => nodes[i].element)
  }

  /** A raised header points where it did. */
  lemma RaisedPointers(nodes: seq<Node>, spans: Spans, level: nat, height: nat)
    requires WellSpanned(spans, level) && |nodes| == |spans| && level <= height <= MAX_LEVEL
    ensures var raised := spans[0 := RaiseTower(spans[0], level, height, |spans| - 1)];
            forall i, l :: 0 <= i < |spans| && 0 <= l < |spans[i]| ==>
              |raised[i]| == |spans[i]| && LevelAt(nodes, raised, i, l).forward == LevelAt(nodes, spans, i, l).forward
  {
  }

  lemma RaisedPreds(spans: Spans, rank: seq<nat>, rank': seq<nat>, level: nat, height: nat, cut: nat)
    requires WellSpanned(spans, level) && level <= height <= MAX_LEVEL && cut < |spans|
    requires |rank| == level && ArePreds(spans, rank, cut) && rank' == rank + seq(height - level, i => 0)
    ensures ArePreds(spans[0 := RaiseTower(spans[0], level, height, |spans| - 1)], rank', cut)
  {
    var raised := spans[0 := RaiseTower(spans[0], level, height, |spans| - 1)];
    forall l | 0 <= l < height ensures IsPred(raised, l, rank'[l], cut) {
      if l < level { assert IsPred(spans, l, rank[l], cut); }
    }
  }

  /** What the level l of the node at rank k holds when the levels below i have been linked to the new node. */
  function LevelLinked(nodes: seq<Node>, spans: Spans, k: nat, l: nat, rank: seq<nat>, cut: nat, height: nat,
                       node: Node, i: nat): Level
    requires |nodes| == |spans| && k < |spans| && l < |spans[k]|
  {
    var before := LevelAt(nodes, spans, k, l);
    if l < i && l < |rank| && rank[l] == k
    then Level(if l < height then node else before.forward, SpanAfterInsert(before.span, k, l, rank, cut, height))
    else before
  }

  function InsertNode(nodes: seq<Node>, cut: nat, node: Node): (r: seq<Node>)
    requires cut < |nodes|
    ensures |r| == |nodes| + 1 && r[cut + 1] == node
    ensures forall i :: 0 <= i <= cut ==> r[i] == nodes[i]
    ensures forall i :: cut + 1 < i < |r| ==> r[i] == nodes[i - 1]
  {
    nodes[..cut + 1] + [node] + nodes[cut + 1..]
  }

  lemma DistinctAfterInsert(nodes: seq<Node>, cut: nat, node: Node)
    requires cut < |nodes| && DistinctNodes(nodes) && node !in nodes
    ensures DistinctNodes(InsertNode(nodes, cut, node))
  {
  }

  lemma ElementsAfterInsert(nodes: seq<Node>, cut: nat, node: Node)
    requires cut < |nodes|
    ensures var s := ElementsOf(nodes)[1..];
            ElementsOf(InsertNode(nodes, cut, node))[1..] == s[..cut] + [node.element] + s[cut..]
  {
  }

  /** The other backward pointers are right as they are. */
  lemma BackwardShifted(before: seq<Node>, cut: nat, node: Node, i: nat)
    requires cut < |before| && forall k :: 1 <= k < |before| ==> BackAt(before, k)
    requires 1 <= i <= |before| && i != cut + 1 && i != cut + 2
    ensures BackAt(InsertNode(before, cut, node), i)
  {
    assert BackAt(before, if i <= cut then i else i - 1);
  }

  /** The linked levels of an old node are the exact ones of the longer list. */
  lemma OldNodeLinked(nodes: seq<Node>, spans: Spans, level: nat, rank: seq<nat>, cut: nat, height: nat, node: Node, i: nat, l: nat)
    requires WellSpanned(spans, level) && |nodes| == |spans| && 1 <= height <= level == |rank|
    requires cut < |spans| && ArePreds(spans, rank, cut) && i < |spans| && l < |spans[i]|
    ensures l < |InsertSpans(spans, rank, cut, height)[ShiftUp(i, cut)]|
    ensures LevelLinked(nodes, spans, i, l, rank, cut, height, node, level)
         == LevelAt(InsertNode(nodes, cut, node), InsertSpans(spans, rank, cut, height), ShiftUp(i, cut), l)
  {
    var r, i' := InsertSpans(spans, rank, cut, height), ShiftUp(i, cut);
    InsertSpanValue(spans, level, rank, cut, height, i, l);
    if l < level {
      InsertLeads(spans, level, rank, cut, height, i, l);
    } else {
      InsertKeeps(spans, level, rank, cut, height);
      assert !Leads(spans, i, l) && !Leads(r, i', l);
    }
  }

  lemma NewNodeLinked(nodes: seq<Node>, spans: Spans, level: nat, rank: seq<nat>, cut: nat, height: nat, node: Node, l: nat)
    requires WellSpanned(spans, level) && |nodes| == |spans| && 1 <= height <= level == |rank|
    requires cut < |spans| && ArePreds(spans, rank, cut) && l < height
    ensures Level(LevelAt(nodes, spans, rank[l], l).forward, spans[rank[l]][l] - (cut - rank[l]))
         == LevelAt(InsertNode(nodes, cut, node), InsertSpans(spans, rank, cut, height), cut + 1, l)
  {
    NewNodeLeads(spans, level, rank, cut, height, l);
  }

  /** In an ascending list there is a place for every new element. */
  lemma {:induction false} PlaceFor(nodes: seq<Node>, e: Element) returns (cut: nat)
    requires |nodes| > 0 && Ascending(ElementsOf(nodes)[1..])
    ensures cut < |nodes|
    ensures forall i :: 1 <= i < |nodes| ==> (Below(nodes[i].element, e) <==> i <= cut)
    decreases |nodes|
  {
    if |nodes| == 1 {
      cut := 0;
    } else {
      var shorter, last := nodes[..|nodes| - 1], nodes[|nodes| - 1];
      var all := ElementsOf(nodes)[1..];
      assert ElementsOf(shorter)[1..] == all[..|all| - 1];
      if Below(last.element, e) {
        cut := |nodes| - 1;
        forall i | 1 <= i < |nodes| ensures Below(nodes[i].element, e) {
          assert nodes[i].element == all[i - 1] && last.element == all[|all| - 1];
          BelowTransitive(nodes[i].element, last.element, e);
        }
      } else {
        cut := PlaceFor(shorter, e);
      }
    }
  }

  /** The same place, with the element itself on the near side. */
  lemma PlaceUpTo(nodes: seq<Node>, e: Element) returns (cut: nat)
    requires |nodes| > 0 && Ascending(ElementsOf(nodes)[1..])
    ensures cut < |nodes|
    ensures forall i :: 1 <= i < |nodes| ==> (nodes[i].element == e || Below(nodes[i].element, e) <==> i <= cut)
  {
    var s := ElementsOf(nodes)[1..];
    cut := PlaceFor(nodes, e);
    if cut + 1 < |nodes| && nodes[cut + 1].element == e {
      cut := cut + 1;
      forall i | cut < i < |nodes| ensures !Below(nodes[i].element, e) && nodes[i].element != e {
        assert Below(s[cut - 1], s[i - 1]);
        BelowTotal(e, nodes[i].element);
      }
    } else {
      forall i | cut + 1 < i < |nodes| ensures nodes[i].element != e {
        assert Below(s[cut], s[i - 1]);
      }
    }
    BelowTotal(e, e);
  }

  lemma InsertAscending(s: seq<Element>, cut: nat, e: Element)
    requires Ascending(s) && cut <= |s| && e !in s
    requires forall i :: 0 <= i < |s| ==> (Below(s[i], e) <==> i < cut)
    ensures Ascending(s[..cut] + [e] + s[cut..])
  {
    forall i | cut <= i < |s| ensures Below(e, s[i]) {
      BelowTotal(e, s[i]);
    }
  }

  lemma FewerPreds(spans: Spans, rank: seq<nat>, cut: nat, lower: nat, level: nat)
    requires lower <= level <= |rank| && ArePreds(spans, rank[..level], cut)
    ensures ArePreds(spans, rank[..lower], cut)
  {
    forall l | 0 <= l < lower ensures IsPred(spans, l, rank[..lower][l], cut) {
      assert IsPred(spans, l, rank[..level][l], cut);
    }
  }

  /** What the level l of the node at rank k holds when the node after rank `cut` is off the levels below i. */
  function LevelUnlinked(nodes: seq<Node>, spans: Spans, k: nat, l: nat, rank: seq<nat>, cut: nat, i: nat): Level
    requires |nodes| == |spans| && cut + 1 < |nodes| && k < |spans| && l < |spans[k]|
  {
    var before := LevelAt(nodes, spans, k, l);
    if l < i && l < |rank| && rank[l] == k
    then Level(if l < |spans[cut + 1]| then LevelAt(nodes, spans, cut + 1, l).forward else before.forward,
               SpanAfterRemove(before.span, k, l, rank, spans[cut + 1]))
    else before
  }

  function RemoveAt(nodes: seq<Node>, cut: nat): (r: seq<Node>)
    requires cut + 1 < |nodes|
    ensures |r| == |nodes| - 1
    ensures forall i :: 0 <= i <= cut ==> r[i] == nodes[i]
    ensures forall i :: cut < i < |r| ==> r[i] == nodes[i + 1]
  {
    nodes[..cut + 1] + nodes[cut + 2..]
  }

  lemma PredUnlinked(nodes: seq<Node>, spans: Spans, level: nat, rank: seq<nat>, cut: nat, l: nat)
    requires WellSpanned(spans, level) && |nodes| == |spans| && |rank| == level && l < level
    requires cut + 1 < |spans| && ArePreds(spans, rank, cut)
    ensures l < |RemoveSpans(spans, rank, cut)[rank[l]]|
    ensures LevelUnlinked(nodes, spans, rank[l], l, rank, cut, level)
         == LevelAt(RemoveAt(nodes, cut), RemoveSpans(spans, rank, cut), rank[l], l)
  {
    RemoveSpanValue(spans, rank, cut, rank[l], l);
    RemoveLeadsPred(spans, level, rank, cut, l);
  }

  lemma OtherUnlinked(nodes: seq<Node>, spans: Spans, level: nat, rank: seq<nat>, cut: nat, i: nat, l: nat)
    requires WellSpanned(spans, level) && |nodes| == |spans| && |rank| == level && l < level
    requires cut + 1 < |spans| && ArePreds(spans, rank, cut)
    requires i < |spans| && i != cut + 1 && l < |spans[i]| && i != rank[l]
    ensures l < |RemoveSpans(spans, rank, cut)[ShiftDown(i, cut)]|
    ensures LevelAt(nodes, spans, i, l)
         == LevelAt(RemoveAt(nodes, cut), RemoveSpans(spans, rank, cut), ShiftDown(i, cut), l)
  {
    RemoveSpanValue(spans, rank, cut, i, l);
    RemoveLeadsOther(spans, level, rank, cut, i, l);
  }

  lemma KeptNodeUnlinked(nodes: seq<Node>, spans: Spans, level: nat, rank: seq<nat>, cut: nat, i: nat, l: nat)
    requires WellSpanned(spans, level) && |nodes| == |spans| && |rank| == level
    requires cut + 1 < |spans| && ArePreds(spans, rank, cut)
    requires i < |spans| && i != cut + 1 && l < |spans[i]|
    ensures l < |RemoveSpans(spans, rank, cut)[ShiftDown(i, cut)]|
    ensures LevelUnlinked(nodes, spans, i, l, rank, cut, level)
         == LevelAt(RemoveAt(nodes, cut), RemoveSpans(spans, rank, cut), ShiftDown(i, cut), l)
  {
    if l >= level {
      RemoveSpanValue(spans, rank, cut, i, l);
      RemoveKeeps(spans, level, rank, cut);
    } else if i == rank[l] {
      PredUnlinked(nodes, spans, level, rank, cut, l);
    } else {
      OtherUnlinked(nodes, spans, level, rank, cut, i, l);
    }
  }

  lemma NodesAfterRemove(nodes: seq<Node>, cut: nat)
    requires cut + 1 < |nodes|
    ensures (set n | n in RemoveAt(nodes, cut)) <= (set n | n in nodes)
  {
  }

  lemma DistinctAfterRemove(nodes: seq<Node>, cut: nat)
    requires cut + 1 < |nodes| && DistinctNodes(nodes)
    ensures DistinctNodes(RemoveAt(nodes, cut)) && nodes[cut + 1] !in RemoveAt(nodes, cut)
  {
  }

  lemma ElementsAfterRemove(nodes: seq<Node>, cut: nat)
    requires cut + 1 < |nodes| && Ascending(ElementsOf(nodes)[1..])
    ensures var s := ElementsOf(nodes)[1..];
            ElementsOf(RemoveAt(nodes, cut))[1..] == s[..cut] + s[cut + 1..]
    ensures Ascending(ElementsOf(RemoveAt(nodes, cut))[1..])
  {
    var s := ElementsOf(nodes)[1..];
    assert Ascending(s[..cut] + s[cut + 1..]);
    assert ElementsOf(RemoveAt(nodes, cut))[1..] == s[..cut] + s[cut + 1..];
  }

  lemma BackwardUnshifted(before: seq<Node>, cut: nat, i: nat)
    requires cut + 1 < |before| && forall k :: 1 <= k < |before| ==> BackAt(before, k)
    requires 1 <= i < |before| - 1 && i != cut + 1
    ensures BackAt(RemoveAt(before, cut), i)
  {
    assert BackAt(before, if i <= cut then i else i + 1);
  }

  class SkipList {
    const header: Node
    var tail: Node?
    var length: int
    var level: nat

    ghost var nodes: seq<Node>   // the header, then the nodes of level 0
    ghost var spans: Spans

    ghost predicate TowerAt(i: nat)
      requires |nodes| == |spans| && i < |nodes|
      reads this`nodes, this`spans, nodes[i..i + 1]`level
    {
      TowerIn(nodes, spans, i)
    }

    /** Every level of every node holds the exact span and pointer. */
    ghost predicate Linked()
      reads this`nodes, this`spans, this`level, nodes`level
    {
      var n := |nodes|;
      var linked :=
        && WellSpanned(spans, level)
        && |spans| == n && nodes[0] == header && header.element.member == []
        && (forall i :: 0 <= i < n ==> TowerAt(i));
      linked
    }

    /** The backward pointers mirror level 0, and the tail and the length are right. */
    ghost predicate Mirrored()
      reads this`nodes, this`tail, this`length, nodes`backward
    {
      var n := |nodes|;
      var mirrored :=
        && n > 0
        && (forall i :: 1 <= i < n ==> BackAt(nodes, i))
        && tail == (if n == 1 then null else nodes[n - 1])
        && length == n - 1;
      mirrored
    }

    ghost predicate Valid()
      reads this, nodes
    {
      var valid := Linked() && Mirrored() && DistinctNodes(nodes) && Ascending(ElementsOf(nodes)[1..]);
      valid
    }

    /** The elements in order. */
    ghost function Contents(): seq<Element>
      requires |nodes| > 0
      reads this`nodes
    {
      ElementsOf(nodes)[1..]
    }

    ghost function NodeSet(): set<Node>
      reads this`nodes
    {
      set n | n in nodes
    }

    constructor ()
      ensures Valid() && fresh(nodes) && Contents() == []
    {
      var h := new Node(MAX_LEVEL, Element([], 0.0));
      header := h;
      level, length, tail := 1, 0, null;
      nodes := [h];
      spans := [seq(MAX_LEVEL, i => 0)];
    }

    lemma ValidIsAscending()
      requires Valid()
      ensures |nodes| > 0 && Ascending(Contents())
    {
    }

    /** The nodes up to rank `cut` are the ones for which the condition holds. */
    ghost predicate CutAt(before: Element -> bool, cut: nat)
      reads this`nodes
    {
      cut < |nodes| && forall i :: 1 <= i < |nodes| ==> (before(nodes[i].element) <==> i <= cut)
    }

    lemma LevelHolds(i: nat, l: nat)
      requires Linked() && i < |nodes| && l < |spans[i]|
      ensures |nodes[i].level| == |spans[i]| && nodes[i].level[l] == LevelAt(nodes, spans, i, l)
    {
      assert TowerAt(i);
    }

    /** One level of a search: go forward while the condition holds. */
    method Walk(start: Node, from: nat, i: nat, before: Element -> bool, ghost cut: nat) returns (node: Node, r: nat)
      requires Linked() && CutAt(before, cut) && i < level
      requires from <= cut && start == nodes[from] && |spans[from]| > i
      ensures IsPred(spans, i, r, cut) && node == nodes[r] && from <= r
    {
      node, r := start, from;
      LevelHolds(r, i);
      while node.level[i].forward != null && before(node.level[i].forward.element)
        invariant from <= r <= cut && node == nodes[r] && |spans[r]| == |node.level| > i
        invariant node.level[i] == LevelAt(nodes, spans, r, i)
        decreases cut - r
      {
        r := r + node.level[i].span;
        node := node.level[i].forward;
        LevelHolds(r, i);
      }
      LastIsPred(spans, level, i, r, cut);
    }

    /**
     * The search that insert, remove and the score searches share: on each level, from the top, go forward while
     * the condition holds, and note the last node and its rank.
     */
    method Descend(before: Element -> bool, ghost cut: nat) returns (update: seq<Node>, rank: seq<nat>)
      requires Valid() && CutAt(before, cut)
      ensures |update| == |rank| == level && ArePreds(spans, rank, cut) && rank[0] == cut
      ensures forall l :: 0 <= l < level ==> update[l] == nodes[rank[l]]
    {
      update, rank := seq(level, i => header), seq(level, i => 0);
      var node, i := header, level;
      var r: nat := 0;
      while i > 0
        invariant 0 <= i <= level && |update| == |rank| == level
        invariant r <= cut && node == nodes[r] && |spans[r]| >= i
        invariant forall l :: i <= l < level ==> IsPred(spans, l, rank[l], cut) && update[l] == nodes[rank[l]]
      {
        i := i - 1;
        node, r := Walk(node, r, i, before, cut);
        update, rank := update[i := node], rank[i := r];
      }
      PredOnGround(spans, level, rank[0], cut);
    }

    /** The loop over the new levels of insert, on the header. */
    method RaiseHeader(height: nat)
      requires level <= height <= MAX_LEVEL && |header.level| == MAX_LEVEL
      modifies header`level
      ensures |header.level| == MAX_LEVEL
      ensures forall l :: 0 <= l < MAX_LEVEL ==>
        header.level[l] == if level <= l < height then Level(old(header.level[l].forward), length) else old(header.level[l])
    {
      var i := level;
      while i < height
        invariant level <= i <= height && |header.level| == MAX_LEVEL
        invariant forall l :: 0 <= l < MAX_LEVEL ==>
          header.level[l] == if level <= l < i then Level(old(header.level[l].forward), length) else old(header.level[l])
      {
        header.level := header.level[i := Level(header.level[i].forward, length)];
        i := i + 1;
      }
    }

    /** The new levels of insert: the header alone is on them. */
    method RaiseLevel(update: seq<Node>, rank: seq<nat>, height: nat, ghost cut: nat)
      returns (update': seq<Node>, rank': seq<nat>)
      requires Linked() && level < height <= MAX_LEVEL && length == |nodes| - 1 && cut < |nodes|
      requires forall k :: 1 <= k < |nodes| ==> nodes[k] != header
      requires |update| == |rank| == level && ArePreds(spans, rank, cut)
      requires forall l :: 0 <= l < level ==> update[l] == nodes[rank[l]]
      modifies this`level, this`spans, header`level
      ensures Linked() && level == height && |spans| == old(|spans|)
      ensures |update'| == |rank'| == level && ArePreds(spans, rank', cut) && rank <= rank'
      ensures forall l :: 0 <= l < level ==> update'[l] == nodes[rank'[l]]
    {
      update' := update + seq(height - level, i => header);
      rank' := rank + seq(height - level, i => 0);
      ghost var raised := spans[0 := RaiseTower(spans[0], level, height, length)];
      RaiseKeeps(spans, level, height);
      RaisedPointers(nodes, spans, level, height);
      RaisedPreds(spans, rank, rank', level, height, cut);
      assert TowerAt(0);
      RaiseHeader(height);
      level := height;
      forall k | 0 <= k < |nodes|
        ensures |nodes[k].level| == |raised[k]|
        ensures forall l :: 0 <= l < |raised[k]| ==> nodes[k].level[l] == LevelAt(nodes, raised, k, l)
      {
        assert old(TowerAt(k));
      }
      spans := raised;
    }

    /** The node noted for each level has that level. */
    ghost predicate Noted(update: seq<Node>, rank: seq<nat>)
      reads this
    {
      |update| == |rank| && |nodes| == |spans| &&
      forall l :: 0 <= l < |update| ==> rank[l] < |nodes| && l < |spans[rank[l]]| && update[l] == nodes[rank[l]]
    }

    /** The towers when the levels below i have been linked to the new node. */
    ghost predicate LinkedUpTo(rank: seq<nat>, cut: nat, height: nat, node: Node, i: nat)
      requires |nodes| == |spans|
      reads this, nodes
    {
      && (forall k :: 0 <= k < |nodes| ==> |nodes[k].level| == |spans[k]|)
      && (forall k, l :: 0 <= k < |nodes| && 0 <= l < |spans[k]| ==>
            nodes[k].level[l] == LevelLinked(nodes, spans, k, l, rank, cut, height, node, i))
    }

    /** One turn of either loop: the level i of the noted node changes and nothing else. */
    method SetLevel(at: Node, i: nat, value: Level, rank: seq<nat>, ghost cut: nat, ghost height: nat, ghost node: Node)
      requires DistinctNodes(nodes) && |nodes| == |spans| && i < |rank| && rank[i] < |nodes| && at == nodes[rank[i]]
      requires i < |spans[rank[i]]| && LinkedUpTo(rank, cut, height, node, i)
      requires value == LevelLinked(nodes, spans, rank[i], i, rank, cut, height, node, i + 1)
      modifies at`level
      ensures LinkedUpTo(rank, cut, height, node, i + 1)
    {
      at.level := at.level[i := value];
    }

    /** The loop of insert that links the new node on its own levels. */
    method LinkLevels(node: Node, update: seq<Node>, rank: seq<nat>, height: nat, ghost cut: nat)
      requires DistinctNodes(nodes) && node !in nodes && |node.level| == height
      requires Noted(update, rank) && 1 <= height <= |rank| && rank[0] == cut && LinkedUpTo(rank, cut, height, node, 0)
      modifies node`level, nodes`level
      ensures |node.level| == height && LinkedUpTo(rank, cut, height, node, height)
      ensures forall l :: 0 <= l < height ==>
        node.level[l] == Level(LevelAt(nodes, spans, rank[l], l).forward, spans[rank[l]][l] - (cut - rank[l]))
    {
      for i := 0 to height
        invariant |node.level| == height && LinkedUpTo(rank, cut, height, node, i)
        invariant forall l :: 0 <= l < i ==>
          node.level[l] == Level(LevelAt(nodes, spans, rank[l], l).forward, spans[rank[l]][l] - (cut - rank[l]))
      {
        var before := update[i].level[i];
        var crossed := rank[0] as int - rank[i];
        node.level := node.level[i := Level(before.forward, before.span - crossed)];
        SetLevel(update[i], i, Level(node, crossed + 1), rank, cut, height, node);
      }
    }

    /** The loop of insert that lengthens the spans over the new node on the levels above it. */
    method StretchLevels(ghost node: Node, update: seq<Node>, rank: seq<nat>, height: nat, ghost cut: nat)
      requires DistinctNodes(nodes)
      requires Noted(update, rank) && height <= |rank| && LinkedUpTo(rank, cut, height, node, height)
      modifies nodes`level
      ensures LinkedUpTo(rank, cut, height, node, |rank|)
    {
      for i := height to |rank|
        invariant LinkedUpTo(rank, cut, height, node, i)
      {
        var before := update[i].level[i];
        SetLevel(update[i], i, before.(span := before.span + 1), rank, cut, height, node);
      }
    }

    lemma NothingLinked(rank: seq<nat>, cut: nat, height: nat, node: Node)
      requires Linked()
      ensures LinkedUpTo(rank, cut, height, node, 0)
    {
      forall k | 0 <= k < |nodes|
        ensures |nodes[k].level| == |spans[k]|
        ensures forall l :: 0 <= l < |spans[k]| ==> nodes[k].level[l] == LevelAt(nodes, spans, k, l)
      {
        assert TowerAt(k);
      }
    }

    /** Linking and stretching put the node after rank `cut` on all levels. */
    method LinkAll(node: Node, update: seq<Node>, rank: seq<nat>, height: nat, ghost cut: nat)
      requires DistinctNodes(nodes) && node !in nodes && |node.level| == height
      requires Noted(update, rank) && 1 <= height <= |rank| && rank[0] == cut && LinkedUpTo(rank, cut, height, node, 0)
      modifies node`level, nodes`level
      ensures |node.level| == height && LinkedUpTo(rank, cut, height, node, |rank|)
      ensures forall l :: 0 <= l < height ==>
        node.level[l] == Level(LevelAt(nodes, spans, rank[l], l).forward, spans[rank[l]][l] - (cut - rank[l]))
    {
      LinkLevels(node, update, rank, height, cut);
      StretchLevels(node, update, rank, height, cut);
    }

    /** The new node's tower is exact in the longer list once all levels are linked. */
    lemma NewTower(node: Node, rank: seq<nat>, height: nat, cut: nat)
      requires WellSpanned(spans, level) && |nodes| == |spans| && 1 <= height <= level == |rank| && |node.level| == height
      requires cut < |nodes| && ArePreds(spans, rank, cut)
      requires forall l :: 0 <= l < height ==>
        node.level[l] == Level(LevelAt(nodes, spans, rank[l], l).forward, spans[rank[l]][l] - (cut - rank[l]))
      ensures TowerIn(InsertNode(nodes, cut, node), InsertSpans(spans, rank, cut, height), cut + 1)
    {
      InsertHeights(spans, rank, cut, height);
      forall l | 0 <= l < height {
        NewNodeLinked(nodes, spans, level, rank, cut, height, node, l);
      }
    }

    /** ... and so are the towers of the other nodes. */
    lemma OldTower(node: Node, rank: seq<nat>, height: nat, cut: nat, k: nat)
      requires WellSpanned(spans, level) && |nodes| == |spans| && 1 <= height <= level == |rank|
      requires cut < |nodes| && ArePreds(spans, rank, cut) && LinkedUpTo(rank, cut, height, node, level) && k < |nodes|
      ensures TowerIn(InsertNode(nodes, cut, node), InsertSpans(spans, rank, cut, height), ShiftUp(k, cut))
    {
      InsertHeights(spans, rank, cut, height);
      assert InsertNode(nodes, cut, node)[ShiftUp(k, cut)] == nodes[k];
      forall l | 0 <= l < |spans[k]| {
        OldNodeLinked(nodes, spans, level, rank, cut, height, node, k, l);
      }
    }

    /** The part of insert that links: the list is exact again, with the node at rank cut + 1. */
    method LinkIn(node: Node, update: seq<Node>, rank: seq<nat>, height: nat, ghost cut: nat)
      requires Linked() && DistinctNodes(nodes) && node !in nodes && |node.level| == height && 1 <= height <= level
      requires |update| == |rank| == level && cut < |nodes| && ArePreds(spans, rank, cut) && rank[0] == cut
      requires forall l :: 0 <= l < level ==> update[l] == nodes[rank[l]]
      modifies this`nodes, this`spans, node`level, nodes`level
      ensures Linked() && nodes == InsertNode(old(nodes), cut, node) && |spans[cut + 1]| == height
    {
      PredsNoted(update, rank, cut);
      NothingLinked(rank, cut, height, node);
      LinkAll(node, update, rank, height, cut);
      LinkedTowers(node, rank, height, cut);
      nodes, spans := InsertNode(nodes, cut, node), InsertSpans(spans, rank, cut, height);
    }

    lemma PredsNoted(update: seq<Node>, rank: seq<nat>, cut: nat)
      requires |nodes| == |spans| && |update| == |rank| && ArePreds(spans, rank, cut)
      requires forall l :: 0 <= l < |rank| ==> rank[l] < |nodes| && update[l] == nodes[rank[l]]
      ensures Noted(update, rank)
    {
      assert forall l :: 0 <= l < |rank| ==> IsPred(spans, l, rank[l], cut);
    }

    lemma AnyTower(node: Node, rank: seq<nat>, height: nat, cut: nat, i: nat)
      requires WellSpanned(spans, level) && |nodes| == |spans| && 1 <= height <= level == |rank| && |node.level| == height
      requires cut < |nodes| && ArePreds(spans, rank, cut) && LinkedUpTo(rank, cut, height, node, level) && i <= |nodes|
      requires forall l :: 0 <= l < height ==>
        node.level[l] == Level(LevelAt(nodes, spans, rank[l], l).forward, spans[rank[l]][l] - (cut - rank[l]))
      ensures TowerIn(InsertNode(nodes, cut, node), InsertSpans(spans, rank, cut, height), i)
    {
      if i == cut + 1 {
        NewTower(node, rank, height, cut);
      } else {
        OldTower(node, rank, height, cut, if i <= cut then i else i - 1);
      }
    }

    /** The longer list is exact once all levels are linked. */
    lemma LinkedTowers(node: Node, rank: seq<nat>, height: nat, cut: nat)
      requires WellSpanned(spans, level) && |nodes| == |spans| && 1 <= height <= level == |rank| && |node.level| == height
      requires cut < |nodes| && ArePreds(spans, rank, cut) && LinkedUpTo(rank, cut, height, node, level)
      requires forall l :: 0 <= l < height ==>
        node.level[l] == Level(LevelAt(nodes, spans, rank[l], l).forward, spans[rank[l]][l] - (cut - rank[l]))
      ensures var after, afterSpans := InsertNode(nodes, cut, node), InsertSpans(spans, rank, cut, height);
              && WellSpanned(afterSpans, level) && |afterSpans| == |after| && |afterSpans[cut + 1]| == height
              && forall i :: 0 <= i < |after| ==> TowerIn(after, afterSpans, i)
    {
      InsertKeeps(spans, level, rank, cut, height);
      InsertHeights(spans, rank, cut, height);
      forall i | 0 <= i <= |nodes| {
        AnyTower(node, rank, height, cut, i);
      }
    }

    /** The backward pointers around the new node, the tail and the length. */
    method LinkBackward(node: Node, previous: Node, ghost cut: nat)
      requires DistinctNodes(nodes) && cut + 1 < |nodes| && nodes[0] == header
      requires node == nodes[cut + 1] && previous == nodes[cut] && |node.level| > 0
      requires node.level[0].forward == if cut + 2 < |nodes| then nodes[cut + 2] else null
      requires forall i :: 1 <= i < |nodes| && i != cut + 1 && i != cut + 2 ==> BackAt(nodes, i)
      requires cut + 2 < |nodes| ==> tail == nodes[|nodes| - 1]
      requires length == |nodes| - 2
      modifies this`tail, this`length, nodes`backward
      ensures Mirrored()
    {
      if previous == header { node.backward := null; } else { node.backward := previous; }
      if node.level[0].forward != null { node.level[0].forward.backward := node; } else { tail := node; }
      length := length + 1;
    }

    /** On level 0 every node points at the next. */
    lemma GroundLevel(i: nat)
      requires Linked() && i < |nodes|
      ensures |spans[i]| > 0
      ensures LevelAt(nodes, spans, i, 0).forward == if i + 1 < |nodes| then nodes[i + 1] else null
    {
      assert i + 1 < |nodes| ==> |spans[i + 1]| >= 1;
      assert SpanOK(spans, i, 0);
    }

    /** The second half of insert: the new node goes in after rank `cut`, on all its levels and backward. */
    method PutIn(node: Node, update: seq<Node>, rank: seq<nat>, height: nat, ghost cut: nat)
      requires Linked() && Mirrored() && DistinctNodes(nodes)
      requires node !in nodes && |node.level| == height && 1 <= height <= level
      requires |update| == |rank| == level && cut < |nodes| && ArePreds(spans, rank, cut) && rank[0] == cut
      requires forall l :: 0 <= l < level ==> update[l] == nodes[rank[l]]
      modifies this`nodes, this`spans, this`tail, this`length, nodes, node
      ensures Linked() && Mirrored() && DistinctNodes(nodes) && nodes == InsertNode(old(nodes), cut, node)
    {
      ghost var before := nodes;
      LinkIn(node, update, rank, height, cut);
      DistinctAfterInsert(before, cut, node);
      LevelHolds(cut + 1, 0);
      GroundLevel(cut + 1);
      forall i | 1 <= i < |nodes| && i != cut + 1 && i != cut + 2 ensures BackAt(nodes, i) {
        BackwardShifted(before, cut, node, i);
      }
      LinkBackward(node, update[0], cut);
    }

    /** `insert`, for a node of the given height. */
    method Insert(member: Bytes, score: real, height: nat) returns (node: Node, ghost cut: nat)
      requires Valid() && 1 <= height <= MAX_LEVEL && Element(member, score) !in Contents()
      modifies this, nodes
      ensures Valid() && fresh(node) && cut < |old(nodes)| && nodes == InsertNode(old(nodes), cut, node)
      ensures Contents() == old(Contents())[..cut] + [Element(member, score)] + old(Contents())[cut..]
    {
      var e := Element(member, score);
      cut := PlaceFor(nodes, e);
      InsertAscending(Contents(), cut, e);
      var update, rank := Search(e, height, cut);
      node := new Node(height, e);
      PutInOrder(node, update, rank, height, cut);
    }

    /** The first half of insert: note the nodes after which the element goes, on as many levels as it needs. */
    method Search(e: Element, height: nat, ghost cut: nat) returns (update: seq<Node>, rank: seq<nat>)
      requires Valid() && 1 <= height <= MAX_LEVEL && CutAt(x => Below(x, e), cut)
      modifies this`level, this`spans, header`level
      ensures Linked() && Mirrored() && height <= level
      ensures |update| == |rank| == level && cut < |nodes| && ArePreds(spans, rank, cut) && rank[0] == cut
      ensures forall l :: 0 <= l < level ==> update[l] == nodes[rank[l]]
    {
      update, rank := Descend(x => Below(x, e), cut);
      if height > level {
        update, rank := RaiseLevel(update, rank, height, cut);
      }
    }

    method PutInOrder(node: Node, update: seq<Node>, rank: seq<nat>, height: nat, ghost cut: nat)
      requires Linked() && Mirrored() && DistinctNodes(nodes)
      requires node !in nodes && |node.level| == height && 1 <= height <= level
      requires |update| == |rank| == level && cut < |nodes| && ArePreds(spans, rank, cut) && rank[0] == cut
      requires forall l :: 0 <= l < level ==> update[l] == nodes[rank[l]]
      requires Ascending(Contents()[..cut] + [node.element] + Contents()[cut..])
      modifies this`nodes, this`spans, this`tail, this`length, nodes, node
      ensures Valid() && nodes == InsertNode(old(nodes), cut, node)
      ensures Contents() == old(Contents())[..cut] + [node.element] + old(Contents())[cut..]
    {
      ElementsAfterInsert(nodes, cut, node);
      PutIn(node, update, rank, height, cut);
    }

    /** The towers when the node after rank `cut` is off the levels below i. */
    ghost predicate UnlinkedUpTo(rank: seq<nat>, cut: nat, i: nat)
      requires |nodes| == |spans| && cut + 1 < |nodes|
      reads this`nodes, this`spans, nodes`level
    {
      && (forall k :: 0 <= k < |nodes| ==> |nodes[k].level| == |spans[k]|)
      && (forall k, l :: 0 <= k < |nodes| && 0 <= l < |spans[k]| ==>
            nodes[k].level[l] == LevelUnlinked(nodes, spans, k, l, rank, cut, i))
    }

    lemma NothingUnlinked(rank: seq<nat>, cut: nat)
      requires Linked() && cut + 1 < |nodes|
      ensures UnlinkedUpTo(rank, cut, 0)
    {
      forall k | 0 <= k < |nodes|
        ensures |nodes[k].level| == |spans[k]|
        ensures forall l :: 0 <= l < |spans[k]| ==> nodes[k].level[l] == LevelAt(nodes, spans, k, l)
      {
        assert TowerAt(k);
      }
    }

    /** The first loop of removeNode. */
    method UnlinkLevels(target: Node, update: seq<Node>, rank: seq<nat>, ghost cut: nat)
      requires DistinctNodes(nodes) && Noted(update, rank) && cut + 1 < |nodes| && target == nodes[cut + 1]
      requires forall l :: 0 <= l < |rank| ==> rank[l] <= cut
      requires forall l :: 0 <= l < |rank| ==>
        (LevelAt(nodes, spans, rank[l], l).forward == target <==> l < |spans[cut + 1]|)
      requires UnlinkedUpTo(rank, cut, 0)
      modifies nodes`level
      ensures UnlinkedUpTo(rank, cut, |rank|) && target.level == old(target.level)
    {
      for i := 0 to |rank|
        invariant UnlinkedUpTo(rank, cut, i) && target.level == old(target.level)
      {
        var before := update[i].level[i];
        var after := before.(span := before.span - 1);
        if before.forward == target {
          after := Level(target.level[i].forward, before.span + (target.level[i].span - 1));
        }
        UnlinkLevel(update[i], i, after, rank, cut);
      }
    }

    /** One turn of the loop. */
    method UnlinkLevel(at: Node, i: nat, value: Level, rank: seq<nat>, ghost cut: nat)
      requires DistinctNodes(nodes) && |nodes| == |spans| && cut + 1 < |nodes|
      requires i < |rank| && rank[i] < |nodes| && at == nodes[rank[i]]
      requires i < |spans[rank[i]]| && UnlinkedUpTo(rank, cut, i)
      requires value == LevelUnlinked(nodes, spans, rank[i], i, rank, cut, i + 1)
      modifies at`level
      ensures UnlinkedUpTo(rank, cut, i + 1)
    {
      at.level := at.level[i := value];
    }

    lemma UnlinkedTower(rank: seq<nat>, cut: nat, i: nat)
      requires WellSpanned(spans, level) && |nodes| == |spans| && |rank| == level
      requires cut + 1 < |nodes| && ArePreds(spans, rank, cut) && UnlinkedUpTo(rank, cut, level) && i < |nodes| - 1
      ensures TowerIn(RemoveAt(nodes, cut), RemoveSpans(spans, rank, cut), i)
    {
      KeptTower(rank, cut, if i <= cut then i else i + 1);
    }

    lemma KeptTower(rank: seq<nat>, cut: nat, k: nat)
      requires WellSpanned(spans, level) && |nodes| == |spans| && |rank| == level
      requires cut + 1 < |nodes| && ArePreds(spans, rank, cut) && UnlinkedUpTo(rank, cut, level)
      requires k < |nodes| && k != cut + 1
      ensures TowerIn(RemoveAt(nodes, cut), RemoveSpans(spans, rank, cut), ShiftDown(k, cut))
    {
      RemoveHeights(spans, rank, cut);
      assert RemoveAt(nodes, cut)[ShiftDown(k, cut)] == nodes[k];
      forall l | 0 <= l < |spans[k]| {
        KeptNodeUnlinked(nodes, spans, level, rank, cut, k, l);
      }
    }

    /** The predecessors that point at the node after them are those on its own levels. */
    lemma PredsPointAt(rank: seq<nat>, cut: nat)
      requires WellSpanned(spans, level) && |nodes| == |spans| && |rank| == level && DistinctNodes(nodes)
      requires cut + 1 < |nodes| && ArePreds(spans, rank, cut)
      ensures forall l :: 0 <= l < level ==> rank[l] <= cut && l < |spans[rank[l]]|
      ensures forall l :: 0 <= l < level ==>
        (LevelAt(nodes, spans, rank[l], l).forward == nodes[cut + 1] <==> l < |spans[cut + 1]|)
    {
      forall l | 0 <= l < level
        ensures rank[l] <= cut && l < |spans[rank[l]]|
        ensures LevelAt(nodes, spans, rank[l], l).forward == nodes[cut + 1] <==> l < |spans[cut + 1]|
      {
        PredPointsAt(spans, level, l, rank[l], cut);
      }
    }

    /** The part of removeNode that unlinks: the list is exact again, without the node. */
    method TakeOut(target: Node, update: seq<Node>, rank: seq<nat>, ghost cut: nat)
      requires Linked() && DistinctNodes(nodes) && cut + 1 < |nodes| && target == nodes[cut + 1]
      requires |update| == |rank| == level && ArePreds(spans, rank, cut)
      requires forall l :: 0 <= l < level ==> update[l] == nodes[rank[l]]
      modifies this`nodes, this`spans, nodes`level
      ensures Linked() && nodes == RemoveAt(old(nodes), cut) && ArePreds(spans, rank, cut)
      ensures target.level == old(target.level)
    {
      PredsPointAt(rank, cut);
      NothingUnlinked(rank, cut);
      PredsNoted(update, rank, cut);
      UnlinkLevels(target, update, rank, cut);
      UnlinkedTowers(rank, cut);
      nodes, spans := RemoveAt(nodes, cut), RemoveSpans(spans, rank, cut);
      TowersLinked();
    }

    lemma TowersLinked()
      requires WellSpanned(spans, level) && |spans| == |nodes| && |nodes| > 0
      requires nodes[0] == header && header.element.member == []
      requires forall i :: 0 <= i < |nodes| ==> TowerIn(nodes, spans, i)
      ensures Linked()
    {
      forall i | 0 <= i < |nodes| ensures TowerAt(i) { assert TowerIn(nodes, spans, i); }
    }

    /** The shorter list is exact once all levels are unlinked, and the predecessors stay. */
    lemma UnlinkedTowers(rank: seq<nat>, cut: nat)
      requires WellSpanned(spans, level) && |nodes| == |spans| && |rank| == level
      requires cut + 1 < |nodes| && ArePreds(spans, rank, cut) && UnlinkedUpTo(rank, cut, level)
      ensures var after, afterSpans := RemoveAt(nodes, cut), RemoveSpans(spans, rank, cut);
              && WellSpanned(afterSpans, level) && |afterSpans| == |after| && ArePreds(afterSpans, rank, cut)
              && forall i :: 0 <= i < |after| ==> TowerIn(after, afterSpans, i)
    {
      RemoveKeeps(spans, level, rank, cut);
      RemoveKeepsPreds(spans, rank, cut);
      forall i | 0 <= i < |nodes| - 1 {
        UnlinkedTower(rank, cut, i);
      }
    }

    /** The backward pointer over the removed node, the tail. */
    method UnlinkBackward(target: Node, ghost cut: nat)
      requires DistinctNodes(nodes) && cut < |nodes| && target !in nodes && |target.level| > 0
      requires target.level[0].forward == if cut + 1 < |nodes| then nodes[cut + 1] else null
      requires target.backward == if cut == 0 then null else nodes[cut]
      requires forall i :: 1 <= i < |nodes| && i != cut + 1 ==> BackAt(nodes, i)
      requires cut + 1 < |nodes| ==> tail == nodes[|nodes| - 1]
      requires length == |nodes|
      modifies this`tail, this`length, nodes`backward
      ensures Mirrored()
    {
      if target.level[0].forward != null {
        target.level[0].forward.backward := target.backward;
      } else {
        tail := target.backward;
      }
      length := length - 1;
    }

    /** The second loop of removeNode. */
    method LowerLevel()
      requires Linked()
      modifies this`level
      ensures Linked() && level <= old(level)
    {
      LevelHolds(0, level - 1);
      while level > 1 && header.level[level - 1].forward == null
        invariant 1 <= level <= old(level) && Linked()
      {
        LevelHolds(0, level - 1);
        LowerKeeps(spans, level);
        level := level - 1;
      }
    }

    /** The node leaves all its levels and the backward chain. */
    method Unhook(target: Node, update: seq<Node>, rank: seq<nat>, ghost cut: nat)
      requires Linked() && Mirrored() && DistinctNodes(nodes) && cut + 1 < |nodes| && target == nodes[cut + 1]
      requires |update| == |rank| == level && ArePreds(spans, rank, cut)
      requires forall l :: 0 <= l < level ==> update[l] == nodes[rank[l]]
      modifies this`nodes, this`spans, this`tail, this`length, nodes
      ensures Linked() && Mirrored() && DistinctNodes(nodes) && nodes == RemoveAt(old(nodes), cut)
      ensures ArePreds(spans, rank, cut)
    {
      ghost var before := nodes;
      LevelHolds(cut + 1, 0);
      GroundLevel(cut + 1);
      assert BackAt(before, cut + 1);
      DistinctAfterRemove(before, cut);
      TakeOut(target, update, rank, cut);
      forall i | 1 <= i < |nodes| && i != cut + 1 ensures BackAt(nodes, i) {
        BackwardUnshifted(before, cut, i);
      }
      UnlinkBackward(target, cut);
    }

    /** `removeNode`; the noted nodes stay the predecessors, so that the next node can be removed with them. */
    method RemoveNode(target: Node, update: seq<Node>, rank: seq<nat>, ghost cut: nat)
      requires Valid() && cut + 1 < |nodes| && target == nodes[cut + 1]
      requires level <= |update| == |rank| && ArePreds(spans, rank[..level], cut)
      requires forall l :: 0 <= l < level ==> update[l] == nodes[rank[l]]
      modifies this`nodes, this`spans, this`tail, this`length, this`level, NodeSet()
      ensures Valid() && nodes == RemoveAt(old(nodes), cut) && level <= old(level) && NodeSet() <= old(NodeSet())
      ensures ArePreds(spans, rank[..level], cut)
      ensures Contents() == old(Contents())[..cut] + old(Contents())[cut + 1..]
    {
      ElementsAfterRemove(nodes, cut);
      NodesAfterRemove(nodes, cut);
      ghost var was := level;
      Unhook(target, update[..level], rank[..level], cut);
      LowerLevel();
      FewerPreds(spans, rank, cut, level, was);
    }

    /** `remove`. */
    method Remove(member: Bytes, score: real) returns (found: bool)
      requires Valid()
      modifies this`nodes, this`spans, this`tail, this`length, this`level, NodeSet()
      ensures Valid() && NodeSet() <= old(NodeSet())
      ensures found <==> Element(member, score) in old(Contents())
      ensures Contents() == Erase(old(Contents()), Element(member, score))
    {
      var e := Element(member, score);
      ghost var cut := PlaceFor(nodes, e);
      ghost var before := Contents();
      var update, rank := Descend(x => Below(x, e), cut);
      LevelHolds(cut, 0);
      GroundLevel(cut);
      OnlyPlaceOf(e, cut);
      var node := update[0].level[0].forward;
      if node != null && score == node.element.score && node.element.member == member {
        EraseAt(before, cut);
        RemoveNode(node, update, rank, cut);
        return true;
      }
      EraseAbsent(before, e);
      return false;
    }

    /** If the element is in the list at all, it is the first one not below itself. */
    lemma OnlyPlaceOf(e: Element, cut: nat)
      requires Valid() && cut < |nodes|
      requires forall i :: 1 <= i < |nodes| ==> (Below(nodes[i].element, e) <==> i <= cut)
      ensures e in Contents() <==> cut + 1 < |nodes| && nodes[cut + 1].element == e
    {
      if e in Contents() {
        var i :| 0 <= i < |Contents()| && Contents()[i] == e;
        assert nodes[i + 1].element == e;
        BelowTotal(e, e);
        var first := if cut < |Contents()| then Contents()[cut] else e;
        assert cut < i ==> Below(first, e);
      }
    }

    /** None of the first k nodes is on the top level. */
    ghost predicate AllShort(k: nat)
      reads this
    {
      forall j :: 1 <= j <= k && j < |spans| ==> |spans[j]| < level
    }

    /**
     * `getRank`: on each level go forward up to the element itself, then compare names; the header's name is empty.
     * `cut` is the rank of the last element not above the one asked for.
     */
    method GetRank(member: Bytes, score: real) returns (found: bool, rank: nat, ghost cut: nat)
      requires Valid()
      ensures UpTo(Element(member, score), cut) && rank <= cut
      ensures found <==> nodes[rank].element.member == member
      ensures !found ==> rank == cut
      ensures member == [] ==> (rank == 0 <==> AllShort(cut))
    {
      var e := Element(member, score);
      var before := x => x == e || Below(x, e);
      cut := PlaceUpTo(nodes, e);
      var x, i := header, level;
      rank := 0;
      while i > 0
        invariant 0 <= i <= level && rank <= cut && x == nodes[rank] && |spans[rank]| >= i
        invariant i == 0 ==> rank == cut
        invariant i < level ==> nodes[rank].element.member != member
        invariant i < level && member == [] ==> rank > 0 && !AllShort(cut)
      {
        ghost var top := i == level;
        i := i - 1;
        x, rank := Walk(x, rank, i, before, cut);
        if i == 0 { PredOnGround(spans, level, rank, cut); }
        assert top ==> (rank == 0 <==> AllShort(cut)) by {
          if top { TopPred(rank, cut); }
        }
        if x.element.member == member {
          return true, rank, cut;
        }
      }
      return false, rank, cut;
    }

    lemma TopPred(rank: nat, cut: nat)
      requires WellSpanned(spans, level) && IsPred(spans, level - 1, rank, cut)
      ensures rank == 0 <==> AllShort(cut)
    {
      assert rank > 0 ==> |spans[rank]| >= level;
    }

    /** The nodes up to rank `cut` are the ones not above e. */
    ghost predicate UpTo(e: Element, cut: nat)
      reads this`nodes
    {
      cut < |nodes| && forall i :: 1 <= i < |nodes| ==> (nodes[i].element == e || Below(nodes[i].element, e) <==> i <= cut)
    }

    /** An element of the list is the last one not above itself. */
    lemma StoredAt(e: Element, cut: nat, k: nat)
      requires Valid() && UpTo(e, cut) && k < |Contents()| && Contents()[k] == e
      ensures k + 1 == cut
    {
      assert nodes[k + 1].element == e;
      BelowTotal(e, nodes[cut].element);
      var last := if cut > 0 then Contents()[cut - 1] else e;
      assert cut > 0 ==> last == nodes[cut].element;
    }

    /** `getByRank`: the node of that rank, the header for rank 0, nothing beyond the ends. */
    method GetByRank(rank: int) returns (node: Node?)
      requires Valid()
      ensures node == if 0 <= rank < |nodes| then nodes[rank] else null
    {
      var n, l := header, level;
      var i: nat := 0;
      while l > 0
        invariant 0 <= l <= level && i < |nodes| && n == nodes[i] && |spans[i]| >= l
        invariant i == 0 || i <= rank
        invariant l < level ==> i != rank
        invariant l == 0 ==> i == |nodes| - 1 || i > rank || i + 1 > rank
      {
        l := l - 1;
        n, i := WalkRanks(n, i, l, rank + 1);
        if i == rank { return n; }
        if l == 0 { GroundLevel(i); }
      }
      return null;
    }

    /** One level of a search by rank: go forward while the next rank is below the limit. */
    method WalkRanks(start: Node, from: nat, l: nat, limit: int) returns (node: Node, i: nat)
      requires Linked() && l < level && from < |nodes| && start == nodes[from] && |spans[from]| > l
      ensures i < |nodes| && node == nodes[i] && |spans[i]| > l && from <= i && (i == from || i < limit)
      ensures Leads(spans, i, l) ==> i + spans[i][l] >= limit
    {
      node, i := start, from;
      LevelHolds(i, l);
      while node.level[l].forward != null && i + node.level[l].span < limit
        invariant i < |nodes| && node == nodes[i] && |spans[i]| == |node.level| > l && from <= i && (i == from || i < limit)
        invariant node.level[l] == LevelAt(nodes, spans, i, l)
        decreases |nodes| - i
      {
        i := i + node.level[l].span;
        node := node.level[l].forward;
        LevelHolds(i, l);
      }
    }

    /** The search of RemoveRangeByRank: the nodes of rank below `start` stay behind. */
    method DescendRanks(start: int, ghost cut: nat) returns (update: seq<Node>, rank: seq<nat>)
      requires Valid() && cut == Clamp(start - 1, 0, |nodes| - 1)
      ensures |update| == |rank| == level && ArePreds(spans, rank, cut) && rank[0] == cut
      ensures forall l :: 0 <= l < level ==> update[l] == nodes[rank[l]]
    {
      update, rank := seq(level, i => header), seq(level, i => 0);
      var node, l := header, level;
      var r: nat := 0;
      while l > 0
        invariant 0 <= l <= level && |update| == |rank| == level
        invariant r <= cut && node == nodes[r] && |spans[r]| >= l
        invariant forall j :: l <= j < level ==> IsPred(spans, j, rank[j], cut) && update[j] == nodes[rank[j]]
      {
        l := l - 1;
        node, r := WalkRanks(node, r, l, start);
        LastIsPred(spans, level, l, r, cut);
        update, rank := update[l := node], rank[l := r];
      }
      PredOnGround(spans, level, rank[0], cut);
    }

    /** The noted nodes are the predecessors of the place after rank `cut`, where `node` stands. */
    ghost predicate Removing(update: seq<Node>, rank: seq<nat>, cut: nat, node: Node?)
      requires |nodes| == |spans|
      reads this`nodes, this`spans, this`level
    {
      var n := |nodes|;
      && cut < n && level <= |update| == |rank| && ArePreds(spans, rank[..level], cut)
      && (forall l :: 0 <= l < level ==> rank[l] <= cut && update[l] == nodes[rank[l]])
      && node == if cut + 1 < n then nodes[cut + 1] else null
    }

    /** What both removal loops start from. */
    lemma StartRemoving(update: seq<Node>, rank: seq<nat>, cut: nat, node: Node?)
      requires Valid() && |update| == |rank| == level && cut < |nodes| && ArePreds(spans, rank, cut)
      requires forall l :: 0 <= l < level ==> update[l] == nodes[rank[l]]
      requires node == if cut + 1 < |nodes| then nodes[cut + 1] else null
      ensures Removing(update, rank, cut, node) && |Contents()| == |nodes| - 1
      ensures node == null <==> |Contents()| <= cut
      ensures node != null ==> node.element == Contents()[cut]
    {
      forall l | 0 <= l < level ensures rank[l] <= cut {
        assert IsPred(spans, l, rank[l], cut);
      }
      assert rank[..level] == rank;
    }

    /** The first node to look at for removal. */
    method NextNoted(update: seq<Node>, rank: seq<nat>, ghost cut: nat) returns (node: Node?)
      requires Valid() && |update| == |rank| == level && cut < |nodes| && ArePreds(spans, rank, cut) && rank[0] == cut
      requires forall l :: 0 <= l < level ==> update[l] == nodes[rank[l]]
      ensures Removing(update, rank, cut, node) && |Contents()| == |nodes| - 1
      ensures node == null <==> |Contents()| <= cut
      ensures node != null ==> node.element == Contents()[cut]
    {
      LevelHolds(cut, 0);
      GroundLevel(cut);
      node := update[0].level[0].forward;
      StartRemoving(update, rank, cut, node);
    }

    /** One turn of either removal loop: note the next node, then remove this one. */
    method TakeNext(node: Node, update: seq<Node>, rank: seq<nat>, ghost cut: nat) returns (e: Element, next: Node?)
      requires Valid() && Removing(update, rank, cut, node)
      modifies this`nodes, this`spans, this`tail, this`length, this`level, NodeSet()
      ensures Valid() && Removing(update, rank, cut, next) && NodeSet() <= old(NodeSet())
      ensures cut < |old(Contents())| && e == old(Contents())[cut]
      ensures Contents() == old(Contents())[..cut] + old(Contents())[cut + 1..]
      ensures next == null <==> |Contents()| <= cut
      ensures next != null ==> next.element == Contents()[cut]
    {
      LevelHolds(cut + 1, 0);
      GroundLevel(cut + 1);
      next := node.level[0].forward;
      e := node.element;
      RemoveNode(node, update, rank, cut);
    }

    /** Both removal loops: from the first node on, as long as `more` holds of the number removed and the next element. */
    method TakeWhile(first: Node?, update: seq<Node>, rank: seq<nat>, more: (int, Element) -> bool, ghost cut: nat)
      returns (removed: seq<Element>)
      requires Valid() && Removing(update, rank, cut, first) && cut <= |Contents()|
      requires first == null <==> |Contents()| <= cut
      requires first != null ==> first.element == Contents()[cut]
      modifies this`nodes, this`spans, this`tail, this`length, this`level, NodeSet()
      ensures Valid() && NodeSet() <= old(NodeSet())
      ensures TakenSoFar(old(Contents()), cut, removed, Contents())
      ensures TakenWhile(old(Contents()), cut, removed, more)
    {
      ghost var s := Contents();
      removed := [];
      var node := first;
      TakeNone(s, cut);
      while node != null && more(|removed|, node.element)
        invariant Valid() && Removing(update, rank, cut, node) && NodeSet() <= old(NodeSet())
        invariant node == null <==> |Contents()| <= cut
        invariant node != null ==> node.element == Contents()[cut]
        invariant TakenSoFar(s, cut, removed, Contents())
        invariant AllMore(removed, more)
        decreases |s| - |removed|
      {
        ghost var now := Contents();
        TakeOne(s, cut, removed, now);
        OneMore(removed, now[cut], more);
        var e;
        e, node := TakeNext(node, update, rank, cut);
        removed := removed + [e];
      }
    }

    /** `RemoveRangeByRank`, with ranks from 1, the start included and the stop not. */
    method RemoveRangeByRank(start: int, stop: int) returns (removed: seq<Element>)
      requires Valid()
      modifies this`nodes, this`spans, this`tail, this`length, this`level, NodeSet()
      ensures Valid() && NodeSet() <= old(NodeSet())
      ensures var lo := Clamp(start - 1, 0, |old(Contents())|);
              && TakenSoFar(old(Contents()), lo, removed, Contents())
              && lo + |removed| == Clamp(stop - 1, lo, |old(Contents())|)
    {
      ghost var cut := Clamp(start - 1, 0, |nodes| - 1);
      var update, rank := DescendRanks(start, cut);
      var node := NextNoted(update, rank, cut);
      var i := rank[0] + 1;
      var more := (n: int, e: Element) => i + n < stop;
      ghost var s := Contents();
      removed := TakeWhile(node, update, rank, more, cut);
      TakenWhileBelow(s, cut, i, stop, removed, more);
    }

    /** `RemoveRangeByScore`; a limit that is not positive is none. */
    method RemoveRangeByScore(min: ScoreBorder, max: ScoreBorder, limit: int) returns (removed: seq<Element>)
      requires Valid()
      modifies this`nodes, this`spans, this`tail, this`length, this`level, NodeSet()
      ensures Valid() && NodeSet() <= old(NodeSet())
      ensures var lo := LowCut(old(Contents()), min);
              && TakenSoFar(old(Contents()), lo, removed, Contents())
              && |removed| == Taken(old(Contents()), lo, max, limit)
    {
      ghost var s := Contents();
      ghost var lo := LowCut(s, min);
      CutsDivide(s, min, max);
      assert forall i :: 1 <= i < |nodes| ==> nodes[i].element == s[i - 1];
      var update, rank := Descend((x: Element) => !Less(min, x.score), lo);
      var node := NextNoted(update, rank, lo);
      var more := (n: int, e: Element) => Greater(max, e.score) && (limit <= 0 || n < limit);
      removed := TakeWhile(node, update, rank, more, lo);
      TakenWhileWithin(s, lo, max, limit, removed, more);
    }

    /** `hasInRange`. */
    method HasInRange(min: ScoreBorder, max: ScoreBorder) returns (b: bool)
      requires Valid()
      ensures var s := Contents();
              b <==> !LooksEmpty(min, max) && |s| > 0 && Less(min, s[|s| - 1].score) && Greater(max, s[0].score)
    {
      if LooksEmpty(min, max) { return false; }
      LevelHolds(0, 0);
      GroundLevel(0);
      var first := header.level[0].forward;
      if first == null || tail == null { return false; }
      return Less(min, tail.element.score) && Greater(max, first.element.score);
    }

    /** `getFirstInScoreRange`: the node at the lower cut, unless the borders only look empty. */
    method GetFirstInScoreRange(min: ScoreBorder, max: ScoreBorder) returns (n: Node?)
      requires Valid()
      ensures var lo := LowCut(Contents(), min);
              n == if !LooksEmpty(min, max) && lo < HighCut(Contents(), max) then nodes[lo + 1] else null
    {
      ghost var s := Contents();
      ghost var lo := LowCut(s, min);
      CutsDivide(s, min, max);
      assert forall i :: 1 <= i < |nodes| ==> nodes[i].element == s[i - 1];
      var some := HasInRange(min, max);
      if !some { return null; }
      var update, rank := Descend((x: Element) => !Less(min, x.score), lo);
      LevelHolds(lo, 0);
      GroundLevel(lo);
      n := update[0].level[0].forward;
      if !Greater(max, n.element.score) { return null; }
    }

    /** `getLastInScoreRange`. */
    method GetLastInScoreRange(min: ScoreBorder, max: ScoreBorder) returns (n: Node?)
      requires Valid()
      ensures var hi := HighCut(Contents(), max);
              n == if !LooksEmpty(min, max) && LowCut(Contents(), min) < hi then nodes[hi] else null
    {
      ghost var s := Contents();
      ghost var hi := HighCut(s, max);
      CutsDivide(s, min, max);
      assert forall i :: 1 <= i < |nodes| ==> nodes[i].element == s[i - 1];
      var some := HasInRange(min, max);
      if !some { return null; }
      var update, rank := Descend((x: Element) => Greater(max, x.score), hi);
      n := update[0];
      if !Less(min, n.element.score) { return null; }
    }
  }
}
