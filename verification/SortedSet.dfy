/** The sorted set: a dictionary and a skip list that hold the same elements. */
module SortedSet {
  import opened Strconv
  import opened Elements
  import opened Borders
  import opened BorderLaws
  import opened SkipList

  /** The dictionary and the list hold the same elements; so no member is in the list twice. */
  ghost predicate Agree(dict: map<Bytes, Element>, s: seq<Element>) {
    var keyed := forall m :: m in dict ==> dict[m].member == m;
    keyed && forall e :: e in s <==> e.member in dict && dict[e.member] == e
  }

  lemma AgreedMembersDistinct(dict: map<Bytes, Element>, s: seq<Element>)
    requires Agree(dict, s) && Ascending(s)
    ensures DistinctMembers(s)
  {
    forall i, j | 0 <= i < j < |s| ensures s[i].member != s[j].member {
      BelowTotal(s[i], s[j]);
      assert s[i] in s && s[j] in s && Below(s[i], s[j]);
    }
  }

  /** Every known member has its place in the sequence, and no other. */
  lemma PlaceOf(dict: map<Bytes, Element>, s: seq<Element>, member: Bytes) returns (k: nat)
    requires Agree(dict, s) && Ascending(s) && member in dict
    ensures k < |s| && s[k] == dict[member] && member == s[k].member
    ensures forall i :: 0 <= i < |s| && s[i].member == member ==> i == k
  {
    assert dict[member] in s;
    k :| 0 <= k < |s| && s[k] == dict[member];
    AgreedMembersDistinct(dict, s);
  }

  lemma OthersOf(dict: map<Bytes, Element>, s: seq<Element>, member: Bytes)
    requires Agree(dict, s)
    ensures EraseMember(s, member) == if member in dict then Erase(s, dict[member]) else s
  {
    if member in dict { EraseOnly(s, dict[member]); } else { EraseUnknown(s, member); }
  }

  /** The list after an insert; unless it panicked the dictionary agrees with it. */
  ghost predicate Entered(dict: map<Bytes, Element>, others: seq<Element>, e: Element, panicked: bool, now: seq<Element>) {
    var entered := (Agree(dict, now) <==> !panicked) && now == if panicked then others else Enter(others, e);
    entered
  }

  function Members(s: seq<Element>): set<Bytes> {
    set e | e in s :: e.member
  }

  /** A block taken out of an ascending sequence and the rest share nothing. */
  lemma TakenApart(s: seq<Element>, cut: nat, removed: seq<Element>, now: seq<Element>, e: Element)
    requires Ascending(s) && TakenSoFar(s, cut, removed, now)
    ensures e in s <==> e in removed || e in now
    ensures !(e in removed && e in now)
  {
    var n := |removed|;
    assert s == s[..cut] + removed + s[cut + n..];
    BelowTotal(e, e);
    forall i, j | 0 <= i < n && 0 <= j < |now| ensures removed[i] != now[j] {
      var k := if j < cut then j else j + n;
      assert now[j] == s[k] && removed[i] == s[cut + i];
      BelowTotal(s[k], s[k]);
    }
  }

  /** Taking a block out of both keeps them in agreement. */
  lemma AgreeAfterTaking(dict: map<Bytes, Element>, s: seq<Element>, cut: nat, removed: seq<Element>, now: seq<Element>)
    requires Agree(dict, s) && Ascending(s) && TakenSoFar(s, cut, removed, now)
    ensures Agree(dict - Members(removed), now)
  {
    var left := dict - Members(removed);
    forall e ensures e in now <==> e.member in left && left[e.member] == e {
      TakenApart(s, cut, removed, now, e);
      if e in s && e.member in Members(removed) {
        var x :| x in removed && x.member == e.member;
        TakenApart(s, cut, removed, now, x);
        assert x == e;
      }
    }
  }

  lemma AgreeAfterErasing(dict: map<Bytes, Element>, s: seq<Element>, member: Bytes)
    requires Agree(dict, s) && Ascending(s) && member in dict
    ensures Agree(dict - {member}, Erase(s, dict[member]))
  {
    forall e { EraseMembership(s, dict[member], e); }
  }

  lemma {:induction false} EraseMembership(s: seq<Element>, x: Element, e: Element)
    ensures e in Erase(s, x) <==> e in s && e != x
  {
    if |s| > 0 { EraseMembership(s[1..], x, e); }
  }

  /** What Add comes to: the other elements and the new one, or the others alone, agree with the dictionary or not. */
  lemma AddedAgrees(was: map<Bytes, Element>, s: seq<Element>, known: Option<Element>, e: Element)
    requires Agree(was, s) && Ascending(s)
    requires known == if e.member in was then Some(was[e.member]) else None
    ensures var others := EraseMember(s, e.member);
            && others == (if known.Some? then Erase(s, known.value) else s) && e !in others
            && Agree(was[e.member := e], Enter(others, e)) && !Agree(was[e.member := e], others)
            && (known.Some? && known.value.score == e.score ==> Enter(others, e) == s)
  {
    OthersOf(was, s, e.member);
    OthersAre(was, s, e.member);
    EnteredAgree(was, EraseMember(s, e.member), e);
    if e.member in was && was[e.member].score == e.score {
      assert was[e.member] in s;
      EnterBack(s, e);
    }
  }

  lemma OthersAre(was: map<Bytes, Element>, s: seq<Element>, member: Bytes)
    requires Agree(was, s)
    ensures Agree(was - {member}, EraseMember(s, member))
  {
    OthersOf(was, s, member);
    if member in was {
      forall x { EraseMembership(s, was[member], x); }
    } else {
      NothingToForget(was, member);
    }
  }

  lemma EnteredAgree(was: map<Bytes, Element>, others: seq<Element>, e: Element)
    requires Agree(was - {e.member}, others)
    ensures e !in others && Agree(was[e.member := e], Enter(others, e)) && !Agree(was[e.member := e], others)
  {
    var now, all := was[e.member := e], Enter(others, e);
    assert forall m :: m in now ==> now[m].member == m by {
      assert forall m :: m in was && m != e.member ==> m in was - {e.member};
    }
    forall x ensures x in all <==> x.member in now && now[x.member] == x {
      EnteredElement(was, others, e, x);
    }
    assert e !in others && e.member in now && now[e.member] == e;
  }

  lemma EnteredElement(was: map<Bytes, Element>, others: seq<Element>, e: Element, x: Element)
    requires x in others <==> x.member in was && x.member != e.member && was[x.member] == x
    ensures x in Enter(others, e) <==> (if x.member == e.member then x == e else x.member in was && was[x.member] == x)
  {
    EnterMembership(others, e, x);
  }

  lemma {:induction false} EnterMembership(s: seq<Element>, e: Element, x: Element)
    ensures x in Enter(s, e) <==> x in s || x == e
  {
    if |s| > 0 && Below(s[0], e) {
      EnterMembership(s[1..], e, x);
      assert s == [s[0]] + s[1..];
    }
  }

  function Backward(s: seq<Element>): (r: seq<Element>)
    ensures |r| == |s| && forall i :: 0 <= i < |s| ==> r[i] == s[|s| - 1 - i]
  {
    seq(|s|, i requires 0 <= i < |s| => s[|s| - 1 - i])
  }

  function Directed(s: seq<Element>, desc: bool): seq<Element> {
    if desc then Backward(s) else s
  }

  /** The elements met from the place `start` (counted from 1) on, forward or backward. */
  function WalkFrom(s: seq<Element>, start: nat, desc: bool): seq<Element>
    requires 1 <= start <= |s|
  {
    if desc then Backward(s[..start]) else s[start - 1..]
  }

  function StepAt(start: nat, desc: bool, j: nat): int {
    if desc then start - j else start + j
  }

  lemma WalkMeets(s: seq<Element>, start: nat, desc: bool, j: nat)
    requires 1 <= start <= |s|
    ensures j < |WalkFrom(s, start, desc)| <==> 1 <= StepAt(start, desc, j) <= |s|
    ensures j < |WalkFrom(s, start, desc)| ==> WalkFrom(s, start, desc)[j] == s[StepAt(start, desc, j) - 1]
  {
    if desc {
      var taken := s[..start];
      assert j < start ==> Backward(taken)[j] == taken[start - 1 - j];
    }
  }

  /** The whole sequence, or the reversed one, from an index on is a walk. */
  lemma WalkOfRange(s: seq<Element>, start: nat, stop: nat, desc: bool)
    requires start < |s| && start <= stop <= |s|
    ensures var place := if desc then |s| - start else start + 1;
            && stop - start <= |WalkFrom(s, place, desc)|
            && WalkFrom(s, place, desc)[..stop - start] == Directed(s, desc)[start..stop]
  {
    var place := if desc then |s| - start else start + 1;
    var w, all := WalkFrom(s, place, desc), Directed(s, desc);
    assert |w| == |s| - start;
    forall i | 0 <= i < stop - start ensures w[i] == all[start + i] {
      WalkMeets(s, place, desc, i);
    }
    var n := stop - start;
    assert w[..n] == all[start..stop];
  }

  /** What is left when the matches are taken are the elements that do not lie between the borders. */
  lemma OthersStay(s: seq<Element>, min: ScoreBorder, max: ScoreBorder, now: seq<Element>)
    requires Ascending(s) && TakenSoFar(s, LowCut(s, min), Matches(s, min, max), now)
    ensures forall x :: x in now <==> x in s && !Between(min, max, x.score)
  {
    MatchesHold(s, min, max);
    forall x ensures x in now <==> x in s && !Between(min, max, x.score) {
      TakenApart(s, LowCut(s, min), Matches(s, min, max), now, x);
    }
  }

  /** Ascending, or descending. */
  ghost predicate InOrder(s: seq<Element>, desc: bool) {
    forall i, j :: 0 <= i < j < |s| ==> if desc then Below(s[j], s[i]) else Below(s[i], s[j])
  }

  lemma DirectedInOrder(s: seq<Element>, desc: bool)
    requires Ascending(s)
    ensures InOrder(Directed(s, desc), desc)
  {
  }

  /** The rank of an element in a direction is its place in the sequence of that direction. */
  lemma RankIsPlace(s: seq<Element>, k: nat, desc: bool)
    requires k < |s|
    ensures var rank := RankAt(|s|, k, false, desc);
            0 <= rank < |s| && Directed(s, desc)[rank] == s[k]
  {
  }

  /** The window begins at the offset and is as long as the limit and the matches allow. */
  lemma WindowIs(m: seq<Element>, offset: int, limit: int)
    ensures var w := Window(m, offset, limit);
            && (offset < 0 || limit == 0 || offset >= |m| ==> w == [])
            && (0 <= offset < |m| && limit != 0 ==>
                  && |w| == (if 0 < limit < |m| - offset then limit else |m| - offset)
                  && forall j :: 0 <= j < |w| ==> w[j] == m[offset + j])
  {
  }

  /** Without offset and limit the answer is in order and holds the elements between the borders, and no others. */
  lemma WholeRange(s: seq<Element>, min: ScoreBorder, max: ScoreBorder, limit: int, desc: bool, slice: seq<Element>)
    requires Ascending(s) && limit < 0 && !Hides(s, min, max, 0, limit) && RangeAnswer(s, min, max, 0, limit, desc, slice)
    ensures InOrder(slice, desc) && forall x :: x in slice <==> x in s && Between(min, max, x.score)
  {
    var m := Matches(s, min, max);
    MatchesAreBlock(s, min, max);
    MatchesHold(s, min, max);
    MatchesAscend(s, min, max);
    DirectedInOrder(m, desc);
    DirectedHolds(m, desc);
    assert Directed(m, desc)[0..] == Directed(m, desc);
    assert !Overruns(s, min, max, 0, limit, desc);
  }

  lemma MatchesAscend(s: seq<Element>, min: ScoreBorder, max: ScoreBorder)
    requires Ascending(s)
    ensures Ascending(Matches(s, min, max))
  {
    MatchesAreBlock(s, min, max);
  }

  lemma DirectedHolds(s: seq<Element>, desc: bool)
    ensures forall x :: x in Directed(s, desc) <==> x in s
  {
    var d := Directed(s, desc);
    if desc {
      forall x | x in s ensures x in d {
        var i :| 0 <= i < |s| && s[i] == x;
        assert d[|s| - 1 - i] == x;
      }
    }
  }

  /** What RangeByScore promises of the matches: drop `offset`, take `limit`; a negative limit is none. */
  function Window(m: seq<Element>, offset: int, limit: int): seq<Element> {
    if limit == 0 || offset < 0 || offset >= |m| then []
    else if 0 < limit < |m| - offset then m[offset..offset + limit]
    else m[offset..]
  }

  /** Nothing is left of the matches after `offset`, but the walk has not come to the end of the list. */
  predicate Overruns(s: seq<Element>, min: ScoreBorder, max: ScoreBorder, offset: int, limit: int, desc: bool) {
    var lo, hi := LowCut(s, min), HighCut(s, max);
    && limit != 0 && !LooksEmpty(min, max) && lo < hi && offset >= hi - lo
    && (if desc then offset < hi else offset < |s| - lo)
  }

  /** There is something to give, but the values that the borders carry make them look empty. */
  predicate Hides(s: seq<Element>, min: ScoreBorder, max: ScoreBorder, offset: int, limit: int) {
    LooksEmpty(min, max) && limit != 0 && 0 <= offset < HighCut(s, max) - LowCut(s, min)
  }

  /** That takes an infinite border. */
  lemma HidesIsInfinite(s: seq<Element>, min: ScoreBorder, max: ScoreBorder, offset: int, limit: int)
    requires Ascending(s) && Hides(s, min, max, offset, limit)
    ensures !min.inf.Finite? || !max.inf.Finite?
  {
    CutsDivide(s, min, max);
    var x := s[LowCut(s, min)];
    assert InRange(min, max, x);
    if min.inf.Finite? && max.inf.Finite? { LooksEmptyIsEmpty(min, max, x); }
  }

  /** Of a walk the first m elements are in range and no others. */
  ghost predicate FirstMatch(w: seq<Element>, min: ScoreBorder, max: ScoreBorder, m: nat) {
    var n := |w|;
    m <= n && forall j :: 0 <= j < n ==> (InRange(min, max, w[j]) <==> j < m)
  }

  function MatchStart(s: seq<Element>, min: ScoreBorder, max: ScoreBorder, desc: bool): (start: nat)
    requires LowCut(s, min) < HighCut(s, max)
    ensures 1 <= start <= |s|
  {
    if desc then HighCut(s, max) else LowCut(s, min) + 1
  }

  function MatchWalk(s: seq<Element>, min: ScoreBorder, max: ScoreBorder, desc: bool): seq<Element>
    requires LowCut(s, min) < HighCut(s, max)
  {
    WalkFrom(s, MatchStart(s, min, max, desc), desc)
  }

  /** Where a walk over the matches starts; its first elements are the matches. */
  lemma MatchesLead(s: seq<Element>, min: ScoreBorder, max: ScoreBorder, desc: bool)
    requires Ascending(s) && LowCut(s, min) < HighCut(s, max)
    ensures var lo, hi := LowCut(s, min), HighCut(s, max);
            var w, m := MatchWalk(s, min, max, desc), Directed(Matches(s, min, max), desc);
            && |m| == hi - lo && m <= w && |w| == (if desc then hi else |s| - lo)
            && FirstMatch(w, min, max, |m|)
  {
    MatchesAreBlock(s, min, max);
    CutsDivide(s, min, max);
    var lo, hi := LowCut(s, min), HighCut(s, max);
    var start := if desc then hi else lo + 1;
    var w, m := WalkFrom(s, start, desc), Directed(Matches(s, min, max), desc);
    forall j | 0 <= j < |w| ensures InRange(min, max, w[j]) <==> j < |m| {
      WalkMeets(s, start, desc, j);
    }
  }

  ghost predicate IsSlice(w: seq<Element>, offset: nat, slice: seq<Element>) {
    var n := |slice|;
    offset + n <= |w| && slice == w[offset..offset + n]
  }

  lemma SliceGrows(w: seq<Element>, offset: nat, slice: seq<Element>)
    requires IsSlice(w, offset, slice) && offset + |slice| < |w|
    ensures IsSlice(w, offset, slice + [w[offset + |slice|]])
  {
  }

  /** How many elements the emitting loop takes: the first one unseen. */
  ghost predicate Emitted(w: seq<Element>, m: nat, offset: nat, limit: int, slice: seq<Element>) {
    var n := |slice|;
    var emitted := Emitting(w, m, offset, limit, slice) && (n == limit || offset + n == |w| || (n > 0 && offset + n >= m));
    emitted
  }

  /** ... and how far it has come so far. */
  ghost predicate Emitting(w: seq<Element>, m: nat, offset: nat, limit: int, slice: seq<Element>) {
    var n := |slice|;
    var emitting :=
      && IsSlice(w, offset, slice)
      && (n > 1 ==> offset + n <= m)
      && (n > 0 ==> limit < 0 || n <= limit);
    emitting
  }

  lemma EmitOne(w: seq<Element>, m: nat, offset: nat, limit: int, slice: seq<Element>)
    requires Emitting(w, m, offset, limit, slice) && (|slice| < limit || limit < 0)
    requires offset + |slice| < |w| && (|slice| > 0 ==> offset + |slice| < m)
    ensures Emitting(w, m, offset, limit, slice + [w[offset + |slice|]])
  {
    SliceGrows(w, offset, slice);
  }

  ghost predicate Visited(w: seq<Element>, m: nat, offset: nat, limit: int, slice: seq<Element>) {
    var n := |w|;
    if offset > n then slice == [] else Emitted(w, m, offset, limit, slice)
  }

  lemma EmittedWindow(w: seq<Element>, m: seq<Element>, offset: nat, limit: int, slice: seq<Element>)
    requires m <= w && limit != 0 && offset <= |w| && Emitted(w, |m|, offset, limit, slice)
    ensures offset < |m| || offset == |w| ==> slice == Window(m, offset, limit)
    ensures |m| <= offset < |w| ==> slice == [w[offset]]
  {
  }

  /**
   * What RangeByScore gives: the matches, reversed for desc, without the first `offset`, at most `limit`. Two cases
   * differ: borders that only look empty give nothing, and an offset past the matches gives one element out of range.
   */
  ghost predicate RangeAnswer(s: seq<Element>, min: ScoreBorder, max: ScoreBorder, offset: int, limit: int, desc: bool,
                              slice: seq<Element>) {
    var wanted := Window(Directed(Matches(s, min, max), desc), offset, limit);
    var overruns := Overruns(s, min, max, offset, limit, desc);
    var answer :=
      && (slice == wanted <==> !overruns && !Hides(s, min, max, offset, limit))
      && (LooksEmpty(min, max) ==> slice == [])
      && (overruns ==> |slice| == 1 && slice[0] in s && !InRange(min, max, slice[0]));
    answer
  }

  lemma EmittedAnswer(s: seq<Element>, min: ScoreBorder, max: ScoreBorder, offset: nat, limit: int, desc: bool,
                      slice: seq<Element>)
    requires Ascending(s) && !LooksEmpty(min, max) && limit != 0 && LowCut(s, min) < HighCut(s, max)
    requires Visited(MatchWalk(s, min, max, desc), |Directed(Matches(s, min, max), desc)|, offset, limit, slice)
    ensures RangeAnswer(s, min, max, offset, limit, desc, slice)
  {
    var w, m := MatchWalk(s, min, max, desc), Directed(Matches(s, min, max), desc);
    MatchesLead(s, min, max, desc);
    ElementsOfWalk(s, MatchStart(s, min, max, desc), desc);
    if offset <= |w| { EmittedWindow(w, m, offset, limit, slice); }
  }

  lemma NoneToAnswer(s: seq<Element>, min: ScoreBorder, max: ScoreBorder, offset: int, limit: int, desc: bool)
    requires Ascending(s)
    requires limit == 0 || offset < 0 || LooksEmpty(min, max) || LowCut(s, min) >= HighCut(s, max)
    ensures RangeAnswer(s, min, max, offset, limit, desc, [])
  {
    MatchesAreBlock(s, min, max);
  }

  /** The first test of hasInRange hides matches: everything up to -1 is empty next to it. */
  lemma InfiniteBorderHidesMatches(x: Element, max: ScoreBorder)
    requires max.inf.Finite? && max.value < 0.0 && x.score < max.value
    ensures Matches([x], NEGATIVE_INF, max) == [x] && LooksEmpty(NEGATIVE_INF, max)
  {
  }

  lemma ElementsOfWalk(s: seq<Element>, start: nat, desc: bool)
    requires 1 <= start <= |s|
    ensures forall e :: e in WalkFrom(s, start, desc) ==> e in s
  {
  }

  lemma {:induction false} CutsOfAll(s: seq<Element>)
    ensures LowCut(s, NEGATIVE_INF) == 0 && HighCut(s, POSITIVE_INF) == |s|
  {
    if |s| > 0 { CutsOfAll(s[1..]); }
  }

  lemma AllMatchesTaken(s: seq<Element>, min: ScoreBorder, max: ScoreBorder, removed: seq<Element>, now: seq<Element>)
    requires Ascending(s) && TakenSoFar(s, LowCut(s, min), removed, now)
    requires |removed| == Taken(s, LowCut(s, min), max, 0)
    ensures removed == Matches(s, min, max)
  {
    MatchesAreBlock(s, min, max);
  }

  lemma InsideAfterInsert(nodes: seq<Node>, repr: set<Node>, cut: nat, node: Node)
    requires cut < |nodes| && forall i :: 0 <= i < |nodes| ==> nodes[i] in repr
    ensures var longer := InsertNode(nodes, cut, node);
            forall i :: 0 <= i < |longer| ==> longer[i] in repr + {node}
  {
  }

  lemma NothingToForget(dict: map<Bytes, Element>, member: Bytes)
    ensures member !in dict ==> dict - {member} == dict
  {
  }

  lemma NoneTaken(dict: map<Bytes, Element>, s: seq<Element>)
    ensures TakenSoFar(s, 0, [], s) && dict - Members([]) == dict
  {
    TakeNone(s, 0);
  }

  lemma ClampMirrors(count: int, n: nat)
    ensures n - Clamp(n - count, 0, n) == Clamp(count, 0, n)
  {
  }

  lemma BlockTaken(s: seq<Element>, lo: nat, hi: nat, removed: seq<Element>, now: seq<Element>)
    requires TakenSoFar(s, lo, removed, now) && lo + |removed| == hi
    ensures lo <= hi <= |s| && removed == s[lo..hi]
  {
  }

  lemma FirstTaken(s: seq<Element>, border: ScoreBorder, count: int, removed: seq<Element>, now: seq<Element>)
    requires |s| > 0 && border == ScoreBorder(Finite, s[0].score, false)
    requires TakenSoFar(s, LowCut(s, border), removed, now)
    requires |removed| == Taken(s, LowCut(s, border), POSITIVE_INF, count)
    ensures TakenSoFar(s, 0, removed, now) && |removed| == if 0 < count < |s| then count else |s|
  {
    CutsOfAll(s);
    assert LowCut(s, border) == 0;
  }

  /** The rank of the k-th of n elements, or of the header when the element was missed. */
  function RankAt(n: nat, k: nat, missed: bool, desc: bool): int {
    if missed then (if desc then n else -1) else if desc then n - 1 - k else k
  }

  /** Even then the ascending and the descending rank mirror each other. */
  lemma RanksMirror(n: nat, k: nat, missed: bool)
    ensures RankAt(n, k, missed, false) + RankAt(n, k, missed, true) == n - 1
  {
  }

  ghost predicate Divided(s: seq<Element>, min: ScoreBorder, max: ScoreBorder, lo: nat, hi: nat) {
    var n := |s|;
    && lo <= n && hi <= n
    && forall k :: 0 <= k < n ==> (Less(min, s[k].score) <==> lo <= k) && (Greater(max, s[k].score) <==> k < hi)
  }

  lemma CutsAreDivided(s: seq<Element>, min: ScoreBorder, max: ScoreBorder)
    requires Ascending(s)
    ensures Divided(s, min, max, LowCut(s, min), HighCut(s, max))
    ensures s == [] || WalkFrom(s, 1, false) == s
  {
    CutsDivide(s, min, max);
  }

  class SortedSet {
    var dict: map<Bytes, Element>
    const skipList: SkipList

    /** All nodes of the list, and perhaps some that have left it. */
    ghost var repr: set<Node>

    ghost predicate Inside()
      reads this`repr, skipList`nodes
    {
      forall i :: 0 <= i < |skipList.nodes| ==> skipList.nodes[i] in repr
    }

    ghost predicate Valid()
      reads this, skipList, skipList.nodes
    {
      var valid := skipList.Valid() && Agree(dict, skipList.Contents()) && Inside();
      valid
    }

    /** The elements in order. */
    ghost function Contents(): seq<Element>
      requires |skipList.nodes| > 0
      reads skipList`nodes
    {
      skipList.Contents()
    }

    constructor ()
      ensures Valid() && Contents() == [] && fresh(skipList) && fresh(repr)
    {
      dict := map[];
      var list := new SkipList();
      skipList := list;
      repr := list.NodeSet();
    }

    /** Removing nodes leaves the others where they are. */
    twostate lemma StaysInside()
      requires old(Inside()) && repr == old(repr) && skipList.NodeSet() <= old(skipList.NodeSet())
      ensures Inside()
    {
      forall i | 0 <= i < |skipList.nodes| ensures skipList.nodes[i] in repr {
        assert skipList.nodes[i] in skipList.NodeSet();
      }
    }

    /**
     * `Add`, with the random number that insert draws. A draw of 0 gives a level that no node can have: insert
     * panics, after the dictionary has been changed and the old node has been removed.
     */
    method Add(member: Bytes, score: real, draw: nat) returns (isNew: bool, panicked: bool)
      requires Valid() && draw < 0xFFFF
      modifies this, skipList, repr
      ensures dict == old(dict)[member := Element(member, score)]
      ensures isNew <==> member !in old(dict)
      ensures panicked <==> draw == 0 && !(member in old(dict) && old(dict)[member].score == score)
      ensures skipList.Valid() && Inside() && fresh(repr - old(repr))
      ensures Entered(dict, EraseMember(old(Contents()), member), Element(member, score), panicked, Contents())
    {
      ghost var was, s := dict, Contents();
      var e := Element(member, score);
      skipList.ValidIsAscending();
      isNew := member !in dict;
      var known := if isNew then None else Some(dict[member]);
      AddedAgrees(was, s, known, e);
      dict := dict[member := e];
      panicked := Place(known, e, draw);
    }

    /** The part of Add that changes the list. */
    method Place(known: Option<Element>, e: Element, draw: nat) returns (panicked: bool)
      requires skipList.Valid() && Inside() && draw < 0xFFFF
      requires e !in if known.Some? then Erase(Contents(), known.value) else Contents()
      modifies this`repr, skipList, repr
      ensures skipList.Valid() && Inside() && fresh(repr - old(repr))
      ensures panicked <==> draw == 0 && !(known.Some? && known.value.score == e.score)
      ensures var others := if known.Some? then Erase(old(Contents()), known.value) else old(Contents());
              Contents() == if known.Some? && known.value.score == e.score then old(Contents())
                            else if panicked then others else Enter(others, e)
    {
      panicked := false;
      if known.None? {
        panicked := InsertDrawn(e, draw);
      } else if e.score != known.value.score {
        panicked := Move(known.value, e, draw);
      }
    }

    /** The member is known with another score: its node is removed and a new one inserted. */
    method Move(elem: Element, e: Element, draw: nat) returns (panicked: bool)
      requires skipList.Valid() && Inside() && e !in Erase(Contents(), elem) && draw < 0xFFFF
      modifies this`repr, skipList, repr
      ensures panicked <==> draw == 0
      ensures skipList.Valid() && Inside() && fresh(repr - old(repr))
      ensures Contents() == if panicked then Erase(old(Contents()), elem) else Enter(Erase(old(Contents()), elem), e)
    {
      RemoveNodeOf(elem);
      panicked := InsertDrawn(e, draw);
    }

    /** The node of an element goes. */
    method RemoveNodeOf(elem: Element)
      requires skipList.Valid() && Inside()
      modifies skipList, repr
      ensures skipList.Valid() && Inside()
      ensures Contents() == Erase(old(Contents()), elem)
    {
      var found := skipList.Remove(elem.member, elem.score);
      StaysInside();
    }

    /** Insert with a drawn level. */
    method InsertDrawn(e: Element, draw: nat) returns (panicked: bool)
      requires skipList.Valid() && Inside() && e !in Contents() && draw < 0xFFFF
      modifies this`repr, skipList, repr
      ensures panicked <==> draw == 0
      ensures skipList.Valid() && Inside() && fresh(repr - old(repr))
      ensures Contents() == if panicked then old(Contents()) else Enter(old(Contents()), e)
    {
      RandomLevelFits(draw);
      var level := RandomLevel(draw);
      if level > 16 {
        return true;
      }
      ghost var s := Contents();
      ghost var node, cut := InsertAtLevel(e, level);
      EnterAt(s, cut, e);
      return false;
    }

    method InsertAtLevel(e: Element, level: nat) returns (ghost node: Node, ghost cut: nat)
      requires skipList.Valid() && Inside() && e !in Contents() && 1 <= level <= 16
      modifies this`repr, skipList, repr
      ensures skipList.Valid() && Inside() && fresh(node) && repr == old(repr) + {node}
      ensures cut <= |old(Contents())| && Contents() == old(Contents())[..cut] + [e] + old(Contents())[cut..]
      ensures Ascending(Contents())
    {
      var inserted;
      ghost var before := skipList.nodes;
      inserted, cut := skipList.Insert(e.member, e.score, level);
      node := inserted;
      InsideAfterInsert(before, repr, cut, node);
      repr := repr + {node};
    }

    method Remove(member: Bytes) returns (exists_: bool)
      requires Valid()
      modifies this`dict, skipList, repr
      ensures Valid()
      ensures (exists_ <==> member in old(dict)) && dict == old(dict) - {member}
      ensures Contents() == EraseMember(old(Contents()), member)
    {
      OthersOf(dict, Contents(), member);
      NothingToForget(dict, member);
      if member !in dict { return false; }
      var elem := dict[member];
      AgreeAfterErasing(dict, Contents(), member);
      RemoveNodeOf(elem);
      dict := dict - {member};
      return true;
    }

    /**
     * `GetRank`, from 0: the place of the member in the sequence, or in the reversed one. The search takes the
     * header for the member with the empty name when no node up to that member is on the top level.
     */
    method GetRank(member: Bytes, desc: bool) returns (rank: int, ghost k: nat)
      requires Valid()
      ensures member !in dict ==> rank == -1
      ensures member in dict ==> k < |Contents()| && Contents()[k] == dict[member]
      ensures member in dict ==> rank == RankAt(|Contents()|, k, member == [] && skipList.AllShort(k + 1), desc)
    {
      k := 0;
      if member !in dict { return -1, 0; }
      var elem := dict[member];
      var found, r;
      ghost var cut;
      found, r, cut := skipList.GetRank(elem.member, elem.score);
      k := RankOf(member, found, r, cut);
      if !found { return -1, k; }
      rank := r;
      if desc { rank := skipList.length - rank; } else { rank := rank - 1; }
    }

    /** What the search for a stored member comes to: its rank, or the header's. */
    lemma RankOf(member: Bytes, found: bool, r: nat, cut: nat) returns (k: nat)
      requires Valid() && member in dict && skipList.UpTo(dict[member], cut) && r <= cut
      requires found <==> skipList.nodes[r].element.member == member
      requires !found ==> r == cut
      requires member == [] ==> (r == 0 <==> skipList.AllShort(cut))
      ensures k < |Contents()| && Contents()[k] == dict[member] && found
      ensures r == if member == [] && skipList.AllShort(k + 1) then 0 else k + 1
    {
      var s := Contents();
      k := PlaceOf(dict, s, member);
      skipList.StoredAt(dict[member], cut, k);
      assert s[k] == skipList.nodes[cut].element;
      if r > 0 { assert s[r - 1] == skipList.nodes[r].element; }
    }

    /** A walk stands at its j-th element, or has come to its end. */
    ghost predicate OnWalk(node: Node?, w: seq<Element>, start: nat, desc: bool, j: nat)
      reads skipList`nodes
    {
      var n, p := |skipList.nodes|, StepAt(start, desc, j);
      && 1 <= start < n && w == WalkFrom(Contents(), start, desc)
      && j <= |w| && node == if 1 <= p < n then skipList.nodes[p] else null
    }

    lemma OnWalkMeets(node: Node?, w: seq<Element>, start: nat, desc: bool, j: nat)
      requires OnWalk(node, w, start, desc, j)
      ensures node == null <==> j == |w|
      ensures node != null ==> node.element == w[j]
    {
      WalkMeets(Contents(), start, desc, j);
    }

    /** The neighbours of a node on level 0 are the nodes before and after it. */
    ghost predicate Neighbours(p: nat)
      reads skipList, skipList.nodes
    {
      var nodes := skipList.nodes;
      && p < |nodes| && |nodes[p].level| > 0 && BackAt(nodes, p)
      && nodes[p].level[0].forward == if p + 1 < |nodes| then nodes[p + 1] else null
    }

    /** All that a walk needs of a valid list. */
    ghost predicate Threaded()
      reads skipList, skipList.nodes
    {
      forall p: nat :: 1 <= p < |skipList.nodes| ==> Neighbours(p)
    }

    lemma ValidIsThreaded()
      requires skipList.Valid()
      ensures Threaded()
    {
      forall p: nat | 1 <= p < |skipList.nodes| ensures Neighbours(p) {
        assert BackAt(skipList.nodes, p);
        skipList.LevelHolds(p, 0);
        skipList.GroundLevel(p);
      }
    }

    /** One step of a walk, forward or backward. */
    method Step(node: Node, desc: bool, ghost w: seq<Element>, ghost start: nat, ghost j: nat) returns (next: Node?)
      requires Threaded() && OnWalk(node, w, start, desc, j)
      ensures j < |w| && node.element == w[j] && OnWalk(next, w, start, desc, j + 1)
      ensures next == null <==> j + 1 == |w|
      ensures next != null ==> next.element == w[j + 1]
    {
      WalkMeets(Contents(), start, desc, j);
      WalkMeets(Contents(), start, desc, j + 1);
      assert Neighbours(StepAt(start, desc, j));
      if desc {
        next := node.backward;
      } else {
        next := node.level[0].forward;
      }
    }

    method First() returns (node: Node?)
      requires skipList.Valid()
      ensures node == if |skipList.nodes| > 1 then skipList.nodes[1] else null
    {
      skipList.LevelHolds(0, 0);
      skipList.GroundLevel(0);
      node := skipList.header.level[0].forward;
    }

    lemma StartsWalk(node: Node?, start: nat, desc: bool)
      requires 1 <= start < |skipList.nodes| && node == skipList.nodes[start]
      ensures OnWalk(node, WalkFrom(Contents(), start, desc), start, desc, 0)
    {
    }

    /** The node that Foreach starts at. */
    method StartNode(start: nat, desc: bool) returns (node: Node?)
      requires skipList.Valid() && start < |Contents()|
      ensures node == skipList.nodes[if desc then |Contents()| - start else start + 1]
    {
      var size := skipList.length;
      if desc {
        node := skipList.tail;
        if start > 0 { node := skipList.GetByRank(size - start); }
      } else {
        node := First();
        if start > 0 { node := skipList.GetByRank(start + 1); }
      }
    }

    /** `Range`: the elements from start to stop of the sequence, or of the reversed one. Foreach panics outside. */
    method Range(start: int, stop: int, desc: bool) returns (slice: seq<Element>, panicked: bool)
      requires Valid()
      ensures panicked <==> !(0 <= start < |Contents()| && start <= stop <= |Contents()|)
      ensures !panicked ==> slice == Directed(Contents(), desc)[start..stop]
    {
      var size := skipList.length;
      if start < 0 || start >= size || stop < start || stop > size { return [], true; }
      slice := Slice(start, stop, desc);
      panicked := false;
    }

    method Slice(start: nat, stop: nat, desc: bool) returns (slice: seq<Element>)
      requires skipList.Valid() && start < |Contents()| && start <= stop <= |Contents()|
      ensures slice == Directed(Contents(), desc)[start..stop]
    {
      ghost var wanted := Directed(Contents(), desc)[start..stop];
      var node, w, place := SetOut(start, stop, desc);
      assert w[..stop - start] == wanted;
      slice := Collect(node, w, place, desc, stop - start);
    }

    /** The walk that Foreach makes from the start on. */
    method SetOut(start: nat, stop: nat, desc: bool) returns (node: Node?, ghost w: seq<Element>, ghost place: nat)
      requires skipList.Valid() && start < |Contents()| && start <= stop <= |Contents()|
      ensures Threaded() && OnWalk(node, w, place, desc, 0)
      ensures stop - start <= |w| && w[..stop - start] == Directed(Contents(), desc)[start..stop]
    {
      place := if desc then |Contents()| - start else start + 1;
      w := WalkFrom(Contents(), place, desc);
      WalkOfRange(Contents(), start, stop, desc);
      node := StartNode(start, desc);
      StartsWalk(node, place, desc);
      ValidIsThreaded();
    }

    /** The loop of Foreach for a consumer that goes on to the end. */
    method Collect(first: Node?, ghost w: seq<Element>, ghost start: nat, desc: bool, size: nat) returns (slice: seq<Element>)
      requires Threaded() && OnWalk(first, w, start, desc, 0) && size <= |w|
      ensures slice == w[..size]
    {
      slice := [];
      var node := first;
      for i := 0 to size
        invariant |slice| == i && IsSlice(w, 0, slice) && OnWalk(node, w, start, desc, i)
      {
        OnWalkMeets(node, w, start, desc, i);
        SliceGrows(w, 0, slice);
        slice := slice + [node.element];
        node := Step(node, desc, w, start, i);
      }
    }

    /** `Count`: Foreach panics on an empty set. */
    method Count(min: ScoreBorder, max: ScoreBorder) returns (i: nat, panicked: bool)
      requires Valid()
      ensures panicked <==> Contents() == []
      ensures !panicked ==> i == |Matches(Contents(), min, max)| == Number(Contents(), min, max)
    {
      MatchesNumber(Contents(), min, max);
      if skipList.length == 0 { return 0, true; }
      i := CountAll(min, max);
      panicked := false;
    }

    method CountAll(min: ScoreBorder, max: ScoreBorder) returns (i: nat)
      requires Valid() && |Contents()| > 0
      ensures i == |Matches(Contents(), min, max)|
    {
      ghost var s := Contents();
      MatchesAreBlock(s, min, max);
      CutsAreDivided(s, min, max);
      var node := First();
      StartsWalk(node, 1, false);
      ValidIsThreaded();
      i := CountWalk(node, min, max, s, LowCut(s, min), HighCut(s, max));
    }

    method CountWalk(first: Node?, min: ScoreBorder, max: ScoreBorder, ghost s: seq<Element>, ghost lo: nat, ghost hi: nat)
      returns (i: nat)
      requires Threaded() && OnWalk(first, s, 1, false, 0) && Divided(s, min, max, lo, hi)
      ensures i == if lo < hi then hi - lo else 0
    {
      i := 0;
      var node := first;
      ghost var p := 0;
      OnWalkMeets(node, s, 1, false, 0);
      while node != null
        invariant p <= |s| && OnWalk(node, s, 1, false, p) && (node == null <==> p == |s|)
        invariant node != null ==> node.element == s[p]
        invariant i == (if p <= lo then 0 else p - lo) && (p <= lo || p <= hi)
        decreases |s| - p
      {
        if Less(min, node.element.score) {
          if !Greater(max, node.element.score) { break; }
          i := i + 1;
        }
        node := Step(node, false, s, 1, p);
        p := p + 1;
      }
    }

    /** `RangeByScore`. */
    method RangeByScore(min: ScoreBorder, max: ScoreBorder, offset: int, limit: int, desc: bool) returns (slice: seq<Element>)
      requires Valid()
      ensures RangeAnswer(Contents(), min, max, offset, limit, desc, slice)
    {
      if limit == 0 || offset < 0 {
        NoneToAnswer(Contents(), min, max, offset, limit, desc);
        return [];
      }
      var node := Locate(min, max, desc);
      slice := RangeFrom(node, min, max, offset, limit, desc);
    }

    /** From the located node on, if there is one. */
    method RangeFrom(node: Node?, min: ScoreBorder, max: ScoreBorder, offset: nat, limit: int, desc: bool)
      returns (slice: seq<Element>)
      requires skipList.Valid() && limit != 0
      requires Located(node, min, max, desc)
      ensures RangeAnswer(Contents(), min, max, offset, limit, desc, slice)
    {
      if node == null {
        NoneToAnswer(Contents(), min, max, offset, limit, desc);
        return [];
      }
      ghost var s := Contents();
      ghost var start, m := MatchStart(s, min, max, desc), |Directed(Matches(s, min, max), desc)|;
      StartsWalk(node, start, desc);
      ValidIsThreaded();
      MatchesLead(s, min, max, desc);
      slice := ForEachByScore(node, min, max, offset, limit, desc, MatchWalk(s, min, max, desc), start, m);
      EmittedAnswer(s, min, max, offset, limit, desc, slice);
    }

    /** The node of the first match in the direction of the walk, if the borders do not look empty. */
    ghost predicate Located(node: Node?, min: ScoreBorder, max: ScoreBorder, desc: bool)
      requires |skipList.nodes| > 0
      reads skipList`nodes
    {
      var lo, hi, n := LowCut(Contents(), min), HighCut(Contents(), max), |skipList.nodes|;
      var located :=
        && (node == null <==> LooksEmpty(min, max) || lo >= hi)
        && (node != null ==> (if desc then hi else lo + 1) < n && node == skipList.nodes[if desc then hi else lo + 1]);
      located
    }

    method Locate(min: ScoreBorder, max: ScoreBorder, desc: bool) returns (node: Node?)
      requires skipList.Valid()
      ensures Located(node, min, max, desc)
    {
      if desc {
        node := skipList.GetLastInScoreRange(min, max);
      } else {
        node := skipList.GetFirstInScoreRange(min, max);
      }
    }

    /** The two loops of ForEachByScore, from the node that they start at. */
    method ForEachByScore(first: Node, min: ScoreBorder, max: ScoreBorder, offset: nat, limit: int, desc: bool,
                          ghost w: seq<Element>, ghost start: nat, ghost m: nat) returns (slice: seq<Element>)
      requires Threaded() && OnWalk(first, w, start, desc, 0) && limit != 0 && FirstMatch(w, min, max, m)
      ensures Visited(w, m, offset, limit, slice)
    {
      var node: Node?, left := first, offset;
      ghost var j := 0;
      OnWalkMeets(node, w, start, desc, 0);
      while node != null && left > 0
        invariant left >= 0 && j + left == offset && j <= |w| && OnWalk(node, w, start, desc, j) && (node == null <==> j == |w|)
        decreases left
      {
        node := Step(node, desc, w, start, j);
        left, j := left - 1, j + 1;
      }
      slice := [];
      if left == 0 {
        slice := Emit(node, min, max, offset, limit, desc, w, start, m);
      }
    }

    /** The second loop; nothing is emitted from no node. */
    method Emit(first: Node?, min: ScoreBorder, max: ScoreBorder, ghost offset: nat, limit: int, desc: bool,
                ghost w: seq<Element>, ghost start: nat, ghost m: nat) returns (slice: seq<Element>)
      requires Threaded() && OnWalk(first, w, start, desc, offset) && limit != 0 && FirstMatch(w, min, max, m)
      ensures Emitted(w, m, offset, limit, slice)
    {
      OnWalkMeets(first, w, start, desc, offset);
      var node, i := first, 0;
      slice := [];
      while (i < limit || limit < 0) && node != null
        invariant i == |slice| && Emitting(w, m, offset, limit, slice)
        invariant OnWalk(node, w, start, desc, offset + i) && (node == null <==> offset + i == |w|)
        invariant node != null ==> node.element == w[offset + i]
        invariant i > 0 && node != null ==> offset + i < m
        decreases |w| - offset - i
      {
        slice, node := EmitNode(node, slice, offset, limit, desc, w, start, m);
        i := i + 1;
        if node == null { break; }
        if !Less(min, node.element.score) || !Greater(max, node.element.score) { break; }
      }
    }

    /** One element is emitted. */
    method EmitNode(node: Node, slice: seq<Element>, ghost offset: nat, ghost limit: int, desc: bool,
                    ghost w: seq<Element>, ghost start: nat, ghost m: nat) returns (longer: seq<Element>, next: Node?)
      requires Threaded() && OnWalk(node, w, start, desc, offset + |slice|)
      requires Emitting(w, m, offset, limit, slice) && (|slice| < limit || limit < 0)
      requires offset + |slice| < |w| && (|slice| > 0 ==> offset + |slice| < m)
      ensures |longer| == |slice| + 1 && Emitting(w, m, offset, limit, longer)
      ensures OnWalk(next, w, start, desc, offset + |longer|) && (next == null <==> offset + |longer| == |w|)
      ensures next != null ==> next.element == w[offset + |longer|]
    {
      EmitOne(w, m, offset, limit, slice);
      next := Step(node, desc, w, start, offset + |slice|);
      longer := slice + [node.element];
    }

    /** The loops that forget the removed members. */
    method Forget(removed: seq<Element>)
      modifies this`dict
      ensures dict == old(dict) - Members(removed)
    {
      for i := 0 to |removed|
        invariant dict == old(dict) - Members(removed[..i])
      {
        assert removed[..i + 1] == removed[..i] + [removed[i]];
        assert Members(removed[..i + 1]) == Members(removed[..i]) + {removed[i].member};
        dict := dict - {removed[i].member};
      }
      assert removed[..|removed|] == removed;
    }

    /** After the list, the dictionary gives up the block as well. */
    method ForgetTaken(removed: seq<Element>, ghost cut: nat, ghost s: seq<Element>)
      requires skipList.Valid() && Inside() && Agree(dict, s) && Ascending(s) && TakenSoFar(s, cut, removed, Contents())
      modifies this`dict
      ensures Valid() && dict == old(dict) - Members(removed)
    {
      AgreeAfterTaking(dict, s, cut, removed, Contents());
      Forget(removed);
    }

    /** What every removal of a block does: the elements from the cut on are gone from both. */
    twostate predicate Took(new cut: nat, new removed: seq<Element>)
      requires |old(skipList.nodes)| > 0 && |skipList.nodes| > 0
      reads this`dict, skipList`nodes
    {
      TakenSoFar(old(Contents()), cut, removed, Contents()) && dict == old(dict) - Members(removed)
    }

    method RemoveByScore(min: ScoreBorder, max: ScoreBorder) returns (n: nat)
      requires Valid()
      modifies this`dict, skipList, repr
      ensures Valid() && n == |Matches(old(Contents()), min, max)| == Number(old(Contents()), min, max)
      ensures Took(LowCut(old(Contents()), min), Matches(old(Contents()), min, max))
      ensures forall x :: x in Contents() <==> x in old(Contents()) && !Between(min, max, x.score)
    {
      ghost var s := Contents();
      MatchesNumber(s, min, max);
      MatchesAreBlock(s, min, max);
      var removed := skipList.RemoveRangeByScore(min, max, 0);
      StaysInside();
      ForgetTaken(removed, LowCut(s, min), s);
      AllMatchesTaken(s, min, max, removed, Contents());
      OthersStay(s, min, max, Contents());
      return |removed|;
    }

    /** `RemoveByRank`, with ranks from 0, the end not included. */
    method RemoveByRank(start: int, end: int) returns (n: nat)
      requires Valid()
      modifies this`dict, skipList, repr
      ensures Valid()
      ensures var s := old(Contents());
              var lo := Clamp(start, 0, |s|);
              var hi := Clamp(end, lo, |s|);
              n == hi - lo && Took(lo, s[lo..hi])
    {
      ghost var s := Contents();
      ghost var lo := Clamp(start, 0, |s|);
      var removed := skipList.RemoveRangeByRank(start + 1, end + 1);
      StaysInside();
      BlockTaken(s, lo, Clamp(end, lo, |s|), removed, Contents());
      ForgetTaken(removed, lo, s);
      return |removed|;
    }

    /** `PopMin`: the first elements; a count that is not positive takes them all. */
    method PopMin(count: int) returns (removed: seq<Element>)
      requires Valid()
      modifies this`dict, skipList, repr
      ensures Valid() && Took(0, removed)
      ensures |removed| == if 0 < count < |old(Contents())| then count else |old(Contents())|
    {
      CutsOfAll(Contents());
      var first := skipList.GetFirstInScoreRange(NEGATIVE_INF, POSITIVE_INF);
      if first == null {
        NoneTaken(dict, Contents());
        return [];
      }
      removed := PopFrom(ScoreBorder(Finite, first.element.score, false), count);
    }

    method PopFrom(border: ScoreBorder, count: int) returns (removed: seq<Element>)
      requires Valid() && |Contents()| > 0 && border == ScoreBorder(Finite, Contents()[0].score, false)
      modifies this`dict, skipList, repr
      ensures Valid() && Took(0, removed)
      ensures |removed| == if 0 < count < |old(Contents())| then count else |old(Contents())|
    {
      ghost var s := Contents();
      removed := skipList.RemoveRangeByScore(border, POSITIVE_INF, count);
      StaysInside();
      FirstTaken(s, border, count, removed, Contents());
      ForgetTaken(removed, 0, s);
    }

    /** `PopMax`: the last elements, in ascending order; a count that is not positive takes none. */
    method PopMax(count: int) returns (removed: seq<Element>)
      requires Valid()
      modifies this`dict, skipList, repr
      ensures Valid()
      ensures Took(Clamp(|old(Contents())| - count, 0, |old(Contents())|), removed)
      ensures |removed| == Clamp(count, 0, |old(Contents())|)
    {
      ghost var s := Contents();
      var n := skipList.length;
      ghost var lo := Clamp(|s| - count, 0, |s|);
      ClampMirrors(count, |s|);
      removed := skipList.RemoveRangeByRank(n - (count - 1), n + 1);
      assert TakenSoFar(s, lo, removed, Contents()) && lo + |removed| == |s|;
      StaysInside();
      ForgetTaken(removed, lo, s);
    }
  }
}
