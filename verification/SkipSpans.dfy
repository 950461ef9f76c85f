/**
 * The spans of a skip list, without its pointers. Entry i is the tower of the node at rank i, the header at rank 0;
 * its length is the height of the node, and each span leads to the next node of at least that height, or to the end.
 */
module SkipSpans {

  const MAX_LEVEL: nat := 16

  type Spans = seq<seq<int>>

  /** The span reaches the next node taller than l, or the last node when there is none. */
  predicate SpanOK(spans: Spans, i: nat, l: nat)
    requires i < |spans| && l < |spans[i]|
  {
    var s := spans[i][l];
    && 0 <= s && i + s < |spans|
    && (forall j :: i < j < i + s ==> |spans[j]| <= l)
    && ((s > 0 && |spans[i + s]| > l) || i + s == |spans| - 1)
  }

  predicate WellSpanned(spans: Spans, level: nat) {
    var n := |spans|;
    && 1 <= level <= MAX_LEVEL
    && n > 0 && |spans[0]| == MAX_LEVEL
    && (forall i :: 1 <= i < n ==> 1 <= |spans[i]| <= level)
    && (forall i, l :: 0 <= i < n && 0 <= l < |spans[i]| && l < level ==> SpanOK(spans, i, l))
  }

  /** The rank of the node that the pointer at level l of node i leads to, if any. */
  predicate Leads(spans: Spans, i: nat, l: nat)
    requires i < |spans| && l < |spans[i]|
  {
    var s := spans[i][l];
    s > 0 && i + s < |spans| && |spans[i + s]| > l
  }

  /** The last node, among the first `cut` and the header, that is taller than l. */
  predicate IsPred(spans: Spans, l: nat, k: nat, cut: nat) {
    k <= cut < |spans| && |spans[k]| > l && forall j :: k < j <= cut ==> |spans[j]| <= l
  }

  predicate ArePreds(spans: Spans, ranks: seq<nat>, cut: nat) {
    forall l :: 0 <= l < |ranks| ==> IsPred(spans, l, ranks[l], cut)
  }

  /** Where a level is left: the pointer leads nowhere, or past the cut. */
  lemma LastIsPred(spans: Spans, level: nat, l: nat, k: nat, cut: nat)
    requires WellSpanned(spans, level) && l < level && k <= cut < |spans| && l < |spans[k]|
    requires Leads(spans, k, l) ==> k + spans[k][l] > cut
    ensures IsPred(spans, l, k, cut)
  {
    assert SpanOK(spans, k, l);
  }

  lemma PredOnGround(spans: Spans, level: nat, k: nat, cut: nat)
    requires WellSpanned(spans, level) && IsPred(spans, 0, k, cut)
    ensures k == cut
  {
    var height := |spans[cut]|;
    assert cut > 0 ==> height >= 1;
  }

  /** A span from before the last tall node stops at it or earlier. */
  lemma SpanStopsAtPred(spans: Spans, level: nat, l: nat, k: nat, cut: nat, i: nat)
    requires WellSpanned(spans, level) && l < level && IsPred(spans, l, k, cut)
    requires i < |spans| && l < |spans[i]| && i <= cut && i != k
    ensures i < k && Leads(spans, i, l) && i + spans[i][l] <= k
  {
    assert SpanOK(spans, i, l);
  }

  /** A span from the last tall node jumps over the rest of the first `cut`. */
  lemma SpanFromPred(spans: Spans, level: nat, l: nat, k: nat, cut: nat)
    requires WellSpanned(spans, level) && l < level && IsPred(spans, l, k, cut)
    ensures Leads(spans, k, l) ==> k + spans[k][l] > cut
    ensures !Leads(spans, k, l) ==> k + spans[k][l] == |spans| - 1
  {
    assert SpanOK(spans, k, l);
  }

  // ---- Raising the level ----

  function RaiseTower(tower: seq<int>, level: nat, h: nat, length: int): (r: seq<int>)
    requires level <= h <= |tower|
    ensures |r| == |tower|
    ensures forall l :: 0 <= l < |r| ==> r[l] == if level <= l < h then length else tower[l]
  {
    tower[..level] + seq(h - level, i => length) + tower[h..]
  }

  lemma RaiseKeeps(spans: Spans, level: nat, h: nat)
    requires WellSpanned(spans, level) && level <= h <= MAX_LEVEL
    ensures WellSpanned(spans[0 := RaiseTower(spans[0], level, h, |spans| - 1)], h)
  {
    var raised := spans[0 := RaiseTower(spans[0], level, h, |spans| - 1)];
    forall i, l | 0 <= i < |raised| && 0 <= l < |raised[i]| && l < h ensures SpanOK(raised, i, l) {
      if l < level {
        assert SpanOK(spans, i, l);
      }
    }
  }

  // ---- Inserting ----

  /** What becomes of one span when a node of height h is put in after rank `cut`. */
  function SpanAfterInsert(span: int, k: nat, l: nat, ranks: seq<nat>, cut: nat, h: nat): int {
    if l < |ranks| && ranks[l] == k then (if l < h then cut - k + 1 else span + 1) else span
  }

  function TowerAfterInsert(tower: seq<int>, k: nat, ranks: seq<nat>, cut: nat, h: nat): (r: seq<int>)
    ensures |r| == |tower|
  {
    seq(|tower|, l requires 0 <= l < |tower| => SpanAfterInsert(tower[l], k, l, ranks, cut, h))
  }

  function NewTower(spans: Spans, ranks: seq<nat>, cut: nat, h: nat): (r: seq<int>)
    requires h <= |ranks| && ArePreds(spans, ranks, cut)
    ensures |r| == h
  {
    seq(h, l requires 0 <= l < h => spans[ranks[l]][l] - (cut - ranks[l]))
  }

  function InsertSpans(spans: Spans, ranks: seq<nat>, cut: nat, h: nat): (r: Spans)
    requires cut < |spans| && h <= |ranks| && ArePreds(spans, ranks, cut)
    ensures |r| == |spans| + 1
    ensures forall i :: 0 <= i <= cut ==> r[i] == TowerAfterInsert(spans[i], i, ranks, cut, h)
    ensures r[cut + 1] == NewTower(spans, ranks, cut, h)
    ensures forall i :: cut + 1 < i <= |spans| ==> r[i] == spans[i - 1]
  {
    seq(cut + 1, i requires 0 <= i < cut + 1 => TowerAfterInsert(spans[i], i, ranks, cut, h))
      + [NewTower(spans, ranks, cut, h)] + spans[cut + 1..]
  }

  function ShiftUp(i: nat, cut: nat): nat {
    if i <= cut then i else i + 1
  }

  lemma InsertHeights(spans: Spans, ranks: seq<nat>, cut: nat, h: nat)
    requires cut < |spans| && h <= |ranks| && ArePreds(spans, ranks, cut)
    ensures var r := InsertSpans(spans, ranks, cut, h);
            && |r[cut + 1]| == h
            && (forall j :: 0 <= j <= cut ==> |r[j]| == |spans[j]|)
            && (forall j :: cut + 1 < j < |r| ==> |r[j]| == |spans[j - 1]|)
  {
  }

  lemma InsertSpanOfPred(spans: Spans, level: nat, ranks: seq<nat>, cut: nat, h: nat, l: nat)
    requires WellSpanned(spans, level) && 1 <= h <= level && |ranks| == level
    requires cut < |spans| && ArePreds(spans, ranks, cut) && l < level
    ensures SpanOK(InsertSpans(spans, ranks, cut, h), ranks[l], l)
    ensures l < h ==> SpanOK(InsertSpans(spans, ranks, cut, h), cut + 1, l)
  {
    var r, k := InsertSpans(spans, ranks, cut, h), ranks[l];
    InsertHeights(spans, ranks, cut, h);
    SpanFromPred(spans, level, l, k, cut);
    var s := spans[k][l];
    assert SpanOK(spans, k, l);
    forall j | cut + 1 < j < k + s + 1 ensures |r[j]| <= l {
      assert |r[j]| == |spans[j - 1]|;
    }
    assert forall j :: k < j <= cut ==> |r[j]| <= l;
    if l < h {
      assert r[k][l] == cut - k + 1;
      assert r[cut + 1][l] == s - (cut - k);
    } else {
      assert r[k][l] == s + 1;
    }
  }

  lemma InsertSpanBefore(spans: Spans, level: nat, ranks: seq<nat>, cut: nat, h: nat, i: nat, l: nat)
    requires WellSpanned(spans, level) && 1 <= h <= level && |ranks| == level
    requires cut < |spans| && ArePreds(spans, ranks, cut)
    requires i <= cut && l < level && l < |spans[i]| && i != ranks[l]
    ensures SpanOK(InsertSpans(spans, ranks, cut, h), i, l)
  {
    var r := InsertSpans(spans, ranks, cut, h);
    InsertHeights(spans, ranks, cut, h);
    assert SpanOK(spans, i, l);
    SpanStopsAtPred(spans, level, l, ranks[l], cut, i);
    assert r[i][l] == spans[i][l];
    assert forall j :: i < j < i + spans[i][l] ==> |r[j]| == |spans[j]|;
  }

  lemma InsertSpanAfter(spans: Spans, level: nat, ranks: seq<nat>, cut: nat, h: nat, i: nat, l: nat)
    requires WellSpanned(spans, level) && 1 <= h <= level && |ranks| == level
    requires cut < |spans| && ArePreds(spans, ranks, cut)
    requires cut < i < |spans| && l < level && l < |spans[i]|
    ensures SpanOK(InsertSpans(spans, ranks, cut, h), i + 1, l)
  {
    var r := InsertSpans(spans, ranks, cut, h);
    assert SpanOK(spans, i, l);
    assert r[i + 1] == spans[i];
    forall j | i + 1 < j < i + 1 + spans[i][l] ensures |r[j]| <= l {
      assert r[j] == spans[j - 1];
    }
  }

  lemma InsertSpanOfOther(spans: Spans, level: nat, ranks: seq<nat>, cut: nat, h: nat, i: nat, l: nat)
    requires WellSpanned(spans, level) && 1 <= h <= level && |ranks| == level
    requires cut < |spans| && ArePreds(spans, ranks, cut)
    requires i < |spans| && l < level && l < |spans[i]| && i != ranks[l]
    ensures SpanOK(InsertSpans(spans, ranks, cut, h), ShiftUp(i, cut), l)
  {
    if i <= cut {
      InsertSpanBefore(spans, level, ranks, cut, h, i, l);
    } else {
      InsertSpanAfter(spans, level, ranks, cut, h, i, l);
    }
  }

  lemma InsertKeeps(spans: Spans, level: nat, ranks: seq<nat>, cut: nat, h: nat)
    requires WellSpanned(spans, level) && 1 <= h <= level && |ranks| == level
    requires cut < |spans| && ArePreds(spans, ranks, cut)
    ensures WellSpanned(InsertSpans(spans, ranks, cut, h), level)
  {
    var r := InsertSpans(spans, ranks, cut, h);
    forall i, l | 0 <= i < |r| && 0 <= l < |r[i]| && l < level ensures SpanOK(r, i, l) {
      if i == cut + 1 || i == ranks[l] {
        InsertSpanOfPred(spans, level, ranks, cut, h, l);
      } else {
        InsertSpanOfOther(spans, level, ranks, cut, h, if i <= cut then i else i - 1, l);
      }
    }
  }

  /** The span of a node that was there before. */
  lemma InsertSpanValue(spans: Spans, level: nat, ranks: seq<nat>, cut: nat, h: nat, i: nat, l: nat)
    requires cut < |spans| && h <= |ranks| == level && ArePreds(spans, ranks, cut)
    requires i < |spans| && l < |spans[i]|
    ensures var r := InsertSpans(spans, ranks, cut, h);
            var i' := ShiftUp(i, cut);
            |r[i']| == |spans[i]| && r[i'][l] == SpanAfterInsert(spans[i][l], i, l, ranks, cut, h)
  {
    assert l < level ==> IsPred(spans, l, ranks[l], cut);
  }

  /** Where the pointers lead after an insertion, for a node that was there before. */
  lemma InsertLeads(spans: Spans, level: nat, ranks: seq<nat>, cut: nat, h: nat, i: nat, l: nat)
    requires WellSpanned(spans, level) && 1 <= h <= level && |ranks| == level
    requires cut < |spans| && ArePreds(spans, ranks, cut)
    requires i < |spans| && l < |spans[i]| && l < level
    ensures var r := InsertSpans(spans, ranks, cut, h);
            var i' := ShiftUp(i, cut);
            && l < |r[i']|
            && (i == ranks[l] && l < h ==> Leads(r, i', l) && i' + r[i'][l] == cut + 1)
            && (i != ranks[l] || l >= h ==>
                  && (Leads(r, i', l) <==> Leads(spans, i, l))
                  && (Leads(spans, i, l) ==> i' + r[i'][l] == ShiftUp(i + spans[i][l], cut)))
  {
    if i == ranks[l] {
      LeadsFromPred(spans, level, ranks, cut, h, l);
    } else if i <= cut {
      LeadsFromBefore(spans, level, ranks, cut, h, i, l);
    } else {
      LeadsFromAfter(spans, level, ranks, cut, h, i, l);
    }
  }

  lemma LeadsFromPred(spans: Spans, level: nat, ranks: seq<nat>, cut: nat, h: nat, l: nat)
    requires WellSpanned(spans, level) && 1 <= h <= level && |ranks| == level
    requires cut < |spans| && ArePreds(spans, ranks, cut) && l < level
    ensures var r, k := InsertSpans(spans, ranks, cut, h), ranks[l];
            && k <= cut && l < |r[k]|
            && (l < h ==> Leads(r, k, l) && k + r[k][l] == cut + 1)
            && (l >= h ==>
                  && (Leads(r, k, l) <==> Leads(spans, k, l))
                  && (Leads(spans, k, l) ==> k + r[k][l] == ShiftUp(k + spans[k][l], cut)))
  {
    var r, k := InsertSpans(spans, ranks, cut, h), ranks[l];
    SpanFromPred(spans, level, l, k, cut);
    assert SpanOK(spans, k, l);
    SpanInserted(spans, ranks, cut, h, k, l);
    if l >= h && Leads(spans, k, l) { assert r[k + spans[k][l] + 1] == spans[k + spans[k][l]]; }
  }

  lemma LeadsFromBefore(spans: Spans, level: nat, ranks: seq<nat>, cut: nat, h: nat, i: nat, l: nat)
    requires WellSpanned(spans, level) && 1 <= h <= level && |ranks| == level
    requires cut < |spans| && ArePreds(spans, ranks, cut) && l < level && i <= cut && l < |spans[i]| && i != ranks[l]
    ensures var r := InsertSpans(spans, ranks, cut, h);
            && l < |r[i]| && (Leads(r, i, l) <==> Leads(spans, i, l))
            && (Leads(spans, i, l) ==> i + r[i][l] == ShiftUp(i + spans[i][l], cut))
  {
    SpanStopsAtPred(spans, level, l, ranks[l], cut, i);
    SpanInserted(spans, ranks, cut, h, i, l);
    InsertHeights(spans, ranks, cut, h);
  }

  lemma LeadsFromAfter(spans: Spans, level: nat, ranks: seq<nat>, cut: nat, h: nat, i: nat, l: nat)
    requires WellSpanned(spans, level) && 1 <= h <= level && |ranks| == level
    requires cut < i < |spans| && ArePreds(spans, ranks, cut) && l < level && l < |spans[i]|
    ensures var r := InsertSpans(spans, ranks, cut, h);
            && l < |r[i + 1]| && (Leads(r, i + 1, l) <==> Leads(spans, i, l))
            && (Leads(spans, i, l) ==> i + 1 + r[i + 1][l] == ShiftUp(i + spans[i][l], cut))
  {
    var r := InsertSpans(spans, ranks, cut, h);
    assert SpanOK(spans, i, l);
    assert r[i + 1] == spans[i];
    if Leads(spans, i, l) { assert r[i + spans[i][l] + 1] == spans[i + spans[i][l]]; }
  }

  lemma SpanInserted(spans: Spans, ranks: seq<nat>, cut: nat, h: nat, i: nat, l: nat)
    requires cut < |spans| && h <= |ranks| && ArePreds(spans, ranks, cut) && i <= cut && l < |spans[i]| && l < |ranks|
    ensures var r := InsertSpans(spans, ranks, cut, h);
            && l < |r[i]|
            && r[i][l] == if i != ranks[l] then spans[i][l] else if l < h then cut + 1 - i else spans[i][l] + 1
  {
  }

  /** Where the pointers of the new node lead: to where its predecessor's did. */
  lemma NewNodeLeads(spans: Spans, level: nat, ranks: seq<nat>, cut: nat, h: nat, l: nat)
    requires WellSpanned(spans, level) && 1 <= h <= level && |ranks| == level
    requires cut < |spans| && ArePreds(spans, ranks, cut) && l < h
    ensures var r := InsertSpans(spans, ranks, cut, h);
            var k := ranks[l];
            && (Leads(r, cut + 1, l) <==> Leads(spans, k, l))
            && (Leads(spans, k, l) ==> cut + 1 + r[cut + 1][l] == ShiftUp(k + spans[k][l], cut))
  {
    SpanFromPred(spans, level, l, ranks[l], cut);
    assert SpanOK(spans, ranks[l], l);
  }

  // ---- Removing ----

  /** What becomes of one span when the node at rank cut + 1, with this tower, is taken out. */
  function SpanAfterRemove(span: int, k: nat, l: nat, ranks: seq<nat>, gone: seq<int>): int {
    if l < |ranks| && ranks[l] == k then (if l < |gone| then span + gone[l] - 1 else span - 1) else span
  }

  function TowerAfterRemove(tower: seq<int>, k: nat, ranks: seq<nat>, gone: seq<int>): (r: seq<int>)
    ensures |r| == |tower|
  {
    seq(|tower|, l requires 0 <= l < |tower| => SpanAfterRemove(tower[l], k, l, ranks, gone))
  }

  function RemoveSpans(spans: Spans, ranks: seq<nat>, cut: nat): (r: Spans)
    requires cut + 1 < |spans|
    ensures |r| == |spans| - 1
    ensures forall i :: 0 <= i <= cut ==> r[i] == TowerAfterRemove(spans[i], i, ranks, spans[cut + 1])
    ensures forall i :: cut < i < |r| ==> r[i] == spans[i + 1]
  {
    seq(cut + 1, i requires 0 <= i < cut + 1 => TowerAfterRemove(spans[i], i, ranks, spans[cut + 1])) + spans[cut + 2..]
  }

  function ShiftDown(i: nat, cut: nat): nat {
    if i <= cut + 1 then i else i - 1
  }

  /** Exactly the predecessors of a node point at it, and only on its own levels. */
  lemma PredPointsAt(spans: Spans, level: nat, l: nat, k: nat, cut: nat)
    requires WellSpanned(spans, level) && l < level && IsPred(spans, l, k, cut) && cut + 1 < |spans|
    ensures (Leads(spans, k, l) && k + spans[k][l] == cut + 1) <==> l < |spans[cut + 1]|
  {
    assert SpanOK(spans, k, l);
  }

  lemma RemoveHeights(spans: Spans, ranks: seq<nat>, cut: nat)
    requires cut + 1 < |spans|
    ensures var r := RemoveSpans(spans, ranks, cut);
            && (forall j :: 0 <= j <= cut ==> |r[j]| == |spans[j]|)
            && (forall j :: cut < j < |r| ==> |r[j]| == |spans[j + 1]|)
  {
  }

  /** Where the pointer of a predecessor leads once the node is gone. */
  lemma RemoveLeadsPred(spans: Spans, level: nat, ranks: seq<nat>, cut: nat, l: nat)
    requires WellSpanned(spans, level) && |ranks| == level && l < level
    requires cut + 1 < |spans| && ArePreds(spans, ranks, cut)
    ensures var r := RemoveSpans(spans, ranks, cut);
            var k := ranks[l];
            && SpanOK(r, k, l)
            && (l < |spans[cut + 1]| ==>
                  && (Leads(r, k, l) <==> Leads(spans, cut + 1, l))
                  && (Leads(r, k, l) ==> k + r[k][l] == cut + 1 + spans[cut + 1][l] - 1))
            && (l >= |spans[cut + 1]| ==>
                  && (Leads(r, k, l) <==> Leads(spans, k, l))
                  && (Leads(r, k, l) ==> k + r[k][l] == k + spans[k][l] - 1 && k + spans[k][l] > cut + 1))
  {
    var r, k := RemoveSpans(spans, ranks, cut), ranks[l];
    RemoveHeights(spans, ranks, cut);
    SpanFromPred(spans, level, l, k, cut);
    assert SpanOK(spans, k, l);
    assert forall j :: k < j <= cut ==> |r[j]| <= l;
    var gone := spans[cut + 1];
    if l < |gone| {
      assert SpanOK(spans, cut + 1, l);
      PredPointsAt(spans, level, l, k, cut);
      assert r[k][l] == cut - k + gone[l];
      forall j | cut < j < cut + gone[l] ensures |r[j]| <= l {
        assert |r[j]| == |spans[j + 1]|;
      }
    } else {
      assert r[k][l] == spans[k][l] - 1;
      forall j | cut < j < k + spans[k][l] - 1 ensures |r[j]| <= l {
        assert |r[j]| == |spans[j + 1]|;
      }
    }
  }

  /** Other pointers lead where they led. */
  lemma RemoveLeadsOther(spans: Spans, level: nat, ranks: seq<nat>, cut: nat, i: nat, l: nat)
    requires WellSpanned(spans, level) && |ranks| == level && l < level
    requires cut + 1 < |spans| && ArePreds(spans, ranks, cut)
    requires i < |spans| && i != cut + 1 && l < |spans[i]| && i != ranks[l]
    ensures var r := RemoveSpans(spans, ranks, cut);
            var i' := ShiftDown(i, cut);
            && l < |r[i']| && SpanOK(r, i', l)
            && (Leads(r, i', l) <==> Leads(spans, i, l))
            && (Leads(r, i', l) ==> i' + r[i'][l] == ShiftDown(i + spans[i][l], cut) && i + spans[i][l] != cut + 1)
  {
    var r := RemoveSpans(spans, ranks, cut);
    RemoveHeights(spans, ranks, cut);
    assert SpanOK(spans, i, l);
    if i <= cut {
      SpanStopsAtPred(spans, level, l, ranks[l], cut, i);
      assert r[i][l] == spans[i][l];
      assert forall j :: i < j < i + spans[i][l] ==> |r[j]| == |spans[j]|;
    } else {
      assert r[i - 1] == spans[i];
      forall j | i - 1 < j < i - 1 + spans[i][l] ensures |r[j]| <= l {
        assert |r[j]| == |spans[j + 1]|;
      }
    }
  }

  lemma RemoveKeeps(spans: Spans, level: nat, ranks: seq<nat>, cut: nat)
    requires WellSpanned(spans, level) && |ranks| == level
    requires cut + 1 < |spans| && ArePreds(spans, ranks, cut)
    ensures WellSpanned(RemoveSpans(spans, ranks, cut), level)
  {
    var r := RemoveSpans(spans, ranks, cut);
    forall i, l | 0 <= i < |r| && 0 <= l < |r[i]| && l < level ensures SpanOK(r, i, l) {
      if i == ranks[l] {
        RemoveLeadsPred(spans, level, ranks, cut, l);
      } else {
        RemoveLeadsOther(spans, level, ranks, cut, if i <= cut then i else i + 1, l);
      }
    }
  }

  lemma RemoveKeepsPreds(spans: Spans, ranks: seq<nat>, cut: nat)
    requires cut + 1 < |spans| && ArePreds(spans, ranks, cut)
    ensures ArePreds(RemoveSpans(spans, ranks, cut), ranks, cut)
  {
    RemoveHeights(spans, ranks, cut);
    forall l | 0 <= l < |ranks| ensures IsPred(RemoveSpans(spans, ranks, cut), l, ranks[l], cut) {
      assert IsPred(spans, l, ranks[l], cut);
    }
  }

  /** The span of a node that stays. */
  lemma RemoveSpanValue(spans: Spans, ranks: seq<nat>, cut: nat, i: nat, l: nat)
    requires cut + 1 < |spans| && ArePreds(spans, ranks, cut)
    requires i < |spans| && i != cut + 1 && l < |spans[i]|
    ensures var r := RemoveSpans(spans, ranks, cut);
            var i' := ShiftDown(i, cut);
            |r[i']| == |spans[i]| && r[i'][l] == SpanAfterRemove(spans[i][l], i, l, ranks, spans[cut + 1])
  {
    assert l < |ranks| ==> IsPred(spans, l, ranks[l], cut);
  }

  // ---- Lowering the level ----

  /** When the header leads nowhere on the top level, no node reaches it. */
  lemma LowerKeeps(spans: Spans, level: nat)
    requires WellSpanned(spans, level) && level > 1 && !Leads(spans, 0, level - 1)
    ensures WellSpanned(spans, level - 1)
  {
    assert SpanOK(spans, 0, level - 1);
  }
}
