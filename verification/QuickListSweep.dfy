/** The removals by value of the paged list. */
module QuickListSweep {
  import opened Strconv
  import opened QuickList

  /** What is left of the first x elements of s when the walk started at p: the expected ones from p on are gone. */
  function Kept(s: seq<Bytes>, p: nat, x: nat, expected: Bytes -> bool): (r: seq<Bytes>)
    requires x <= |s|
  {
    if x <= p then s[..x] else Kept(s, p, x - 1, expected) + if expected(s[x - 1]) then [] else [s[x - 1]]
  }

  function KeptLength(s: seq<Bytes>, p: nat, x: nat, expected: Bytes -> bool): nat
    requires x <= |s|
  {
    if x <= p then x else KeptLength(s, p, x - 1, expected) + if expected(s[x - 1]) then 0 else 1
  }

  lemma {:induction false} KeptHasLength(s: seq<Bytes>, p: nat, x: nat, expected: Bytes -> bool)
    requires x <= |s|
    ensures |Kept(s, p, x, expected)| == KeptLength(s, p, x, expected) <= x
  {
    if x > p { KeptHasLength(s, p, x - 1, expected); }
  }

  predicate AllExpected(s: seq<Bytes>, b: nat, x: nat, expected: Bytes -> bool)
    requires x <= |s|
  {
    forall i :: b <= i < x ==> expected(s[i])
  }

  /** The length of the last page at x, when it began at b. */
  function LastNow(s: seq<Bytes>, p: nat, b: nat, x: nat, expected: Bytes -> bool): int
    requires x <= |s| && b <= |s|
  {
    var y := if x < b then b else x;
    |s| - y + KeptLength(s, p, y, expected) - KeptLength(s, p, b, expected)
  }

  lemma {:induction false} KeptGrows(s: seq<Bytes>, p: nat, b: nat, x: nat, expected: Bytes -> bool)
    requires b <= x <= |s| && p <= x
    ensures KeptLength(s, p, b, expected) <= KeptLength(s, p, x, expected)
    ensures KeptLength(s, p, b, expected) == KeptLength(s, p, x, expected)
       <==> b == x || (p <= b && AllExpected(s, b, x, expected))
    decreases x
  {
    if b < x && p < x {
      KeptGrows(s, p, b, x - 1, expected);
      assert AllExpected(s, b, x, expected) <==> AllExpected(s, b, x - 1, expected) && expected(s[x - 1]);
    }
  }

  /** The last page held matches only, all of them were met, and other pages are left: the iterator has no page. */
  predicate Stuck(s: seq<Bytes>, p: nat, b: nat, expected: Bytes -> bool)
    requires b <= |s|
  {
    p <= b && AllExpected(s, b, |s|, expected) && KeptLength(s, p, b, expected) > 0
  }

  ghost predicate Swept(ql: QuickList, iter: Iterator, s: seq<Bytes>, p: nat, b: nat, x: nat, expected: Bytes -> bool)
    reads ql, iter
  {
    var n := |s|;
    var swept :=
      && iter.ql == ql && p <= x <= n && b < n && Shaped(ql.pages)
      && ql.All() == Kept(s, p, x, expected) + s[x..]
      && (x < n ==> iter.On() && iter.Pos() == KeptLength(s, p, x, expected)
                    && LastLength(ql.pages) == LastNow(s, p, b, x, expected))
      && (x == n ==> (iter.node.None? <==> KeptLength(s, p, n, expected) == KeptLength(s, p, b, expected))
                     && (iter.node.Some? ==> iter.AtEnd() && |ql.pages| > 0));
    swept
  }

  lemma SweptLength(ql: QuickList, iter: Iterator, s: seq<Bytes>, p: nat, b: nat, x: nat, expected: Bytes -> bool)
    requires Swept(ql, iter, s, p, b, x, expected)
    ensures |ql.All()| == KeptLength(s, p, x, expected) + |s| - x
  {
    KeptHasLength(s, p, x, expected);
  }

  lemma MoveOver(k: seq<Bytes>, s: seq<Bytes>, x: nat)
    requires x < |s|
    ensures k + s[x..] == (k + [s[x]]) + s[x + 1..] && |k + s[x..]| == |k| + |s| - x
  {
  }

  lemma TakeAway(k: seq<Bytes>, s: seq<Bytes>, x: nat)
    requires x < |s|
    ensures |k + s[x..]| == |k| + |s| - x && RemoveAt(k + s[x..], |k|) == k + s[x + 1..] && k + [] == k
  {
  }

  lemma KeepFacts(s: seq<Bytes>, p: nat, b: nat, x: nat, expected: Bytes -> bool)
    requires p <= x < |s| && b < |s| && !expected(s[x])
    ensures Kept(s, p, x, expected) + s[x..] == Kept(s, p, x + 1, expected) + s[x + 1..]
    ensures KeptLength(s, p, x + 1, expected) == KeptLength(s, p, x, expected) + 1
    ensures x + 1 < |s| ==> LastNow(s, p, b, x + 1, expected) == LastNow(s, p, b, x, expected)
    ensures x + 1 == |s| ==> KeptLength(s, p, x + 1, expected) != KeptLength(s, p, b, expected)
  {
    MoveOver(Kept(s, p, x, expected), s, x);
    if b <= x { KeptGrows(s, p, b, x, expected); }
  }

  lemma RemoveFacts(s: seq<Bytes>, p: nat, b: nat, x: nat, expected: Bytes -> bool)
    requires p <= x < |s| && b < |s| && expected(s[x])
    ensures var k := Kept(s, p, x, expected);
            |k| == KeptLength(s, p, x, expected) && RemoveAt(k + s[x..], |k|) == Kept(s, p, x + 1, expected) + s[x + 1..]
    ensures KeptLength(s, p, x + 1, expected) == KeptLength(s, p, x, expected)
    ensures var last := LastNow(s, p, b, x, expected);
            && (x + 1 < |s| ==> LastNow(s, p, b, x + 1, expected) == if last < |s| - x then last else last - 1)
            && (x + 1 == |s| ==> (last == 1 <==> KeptLength(s, p, x + 1, expected) == KeptLength(s, p, b, expected)))
  {
    TakeAway(Kept(s, p, x, expected), s, x);
    KeptHasLength(s, p, x, expected);
    if b <= x { KeptGrows(s, p, b, x, expected); }
  }

  lemma KeptOn(ql: QuickList, iter: Iterator, s: seq<Bytes>, p: nat, b: nat, x: nat, expected: Bytes -> bool)
    requires p <= x < |s| && b < |s| && !expected(s[x]) && iter.ql == ql && Shaped(ql.pages)
    requires ql.All() == Kept(s, p, x, expected) + s[x..] && LastLength(ql.pages) == LastNow(s, p, b, x, expected)
    requires x + 1 < |s| ==> iter.On() && iter.Pos() == KeptLength(s, p, x, expected) + 1
    requires x + 1 == |s| ==> iter.AtEnd() && iter.node.Some? && |ql.pages| > 0
    ensures Swept(ql, iter, s, p, b, x + 1, expected)
  {
    KeepFacts(s, p, b, x, expected);
  }

  /** The element is kept and the iterator goes on. */
  method SweepKeep(ql: QuickList, iter: Iterator, expected: Bytes -> bool,
                   ghost s: seq<Bytes>, ghost p: nat, ghost b: nat, ghost x: nat)
    requires Swept(ql, iter, s, p, b, x, expected) && x < |s| && !expected(s[x])
    modifies iter
    ensures Swept(ql, iter, s, p, b, x + 1, expected)
    ensures KeptLength(s, p, x + 1, expected) == KeptLength(s, p, x, expected) + 1
  {
    KeepFacts(s, p, b, x, expected);
    SweptLength(ql, iter, s, p, b, x, expected);
    var inBound := iter.Next();
    KeptOn(ql, iter, s, p, b, x, expected);
  }

  /** The element is removed, and the iterator stands on the next one. */
  method SweepRemove(ql: QuickList, iter: Iterator, expected: Bytes -> bool,
                     ghost s: seq<Bytes>, ghost p: nat, ghost b: nat, ghost x: nat)
    requires Swept(ql, iter, s, p, b, x, expected) && x < |s| && expected(s[x])
    modifies ql, iter
    ensures Swept(ql, iter, s, p, b, x + 1, expected) && ql.size == old(ql.size) - 1
    ensures KeptLength(s, p, x + 1, expected) == KeptLength(s, p, x, expected)
  {
    RemoveFacts(s, p, b, x, expected);
    SweptLength(ql, iter, s, p, b, x, expected);
    KeptHasLength(s, p, x + 1, expected);
    var val := iter.Remove();
  }

  lemma StuckAtEnd(s: seq<Bytes>, p: nat, b: nat, expected: Bytes -> bool)
    requires p <= |s| && b < |s|
    ensures var n := |s|;
            KeptLength(s, p, n, expected) == KeptLength(s, p, b, expected) > 0 <==> Stuck(s, p, b, expected)
  {
    KeptGrows(s, p, b, |s|, expected);
  }

  /** The element that the iterator stands on. */
  method Look(ql: QuickList, iter: Iterator, expected: Bytes -> bool,
              ghost s: seq<Bytes>, ghost p: nat, ghost b: nat, ghost x: nat) returns (val: Bytes)
    requires Swept(ql, iter, s, p, b, x, expected) && x < |s|
    ensures val == s[x]
  {
    val := iter.Get();
    KeptHasLength(s, p, x, expected);
    assert (Kept(s, p, x, expected) + s[x..])[|Kept(s, p, x, expected)|] == s[x];
  }

  lemma EndIsReached(ql: QuickList, iter: Iterator, s: seq<Bytes>, p: nat, b: nat, x: nat, expected: Bytes -> bool)
    requires Swept(ql, iter, s, p, b, x, expected) && iter.AtEnd()
    ensures x == |s| && !Stuck(s, p, b, expected)
  {
    if iter.node.Some? { PlaceAtEnd(ql, iter, s, p, b, x, expected); }
    SweptLength(ql, iter, s, p, b, x, expected);
    StuckAtEnd(s, p, b, expected);
  }

  lemma PlaceAtEnd(ql: QuickList, iter: Iterator, s: seq<Bytes>, p: nat, b: nat, x: nat, expected: Bytes -> bool)
    requires Swept(ql, iter, s, p, b, x, expected) && iter.AtEnd() && iter.node.Some?
    ensures x == |s|
  {
  }

  lemma NoPageMeansStuck(ql: QuickList, iter: Iterator, s: seq<Bytes>, p: nat, b: nat, x: nat, expected: Bytes -> bool)
    requires Swept(ql, iter, s, p, b, x, expected) && |ql.pages| > 0 && iter.node.None?
    ensures x == |s| && Stuck(s, p, b, expected)
  {
    StuckAtEnd(s, p, b, expected);
    SweptLength(ql, iter, s, p, b, x, expected);
    EmptyFlat(ql.pages);
  }

  /** The first position of the walk. */
  lemma SweepStarts(ql: QuickList, iter: Iterator, expected: Bytes -> bool)
    requires iter.ql == ql && Shaped(ql.pages) && iter.On() && 0 <= iter.Pos() < |ql.All()|
    ensures LastLength(ql.pages) <= |ql.All()|
    ensures var s := ql.All();
            var p, b := iter.Pos(), |s| - LastLength(ql.pages);
            b < |s| && Swept(ql, iter, s, p, b, p, expected)
  {
    var s := ql.All();
    var p := iter.Pos();
    LastPageNotEmpty(ql.pages);
    assert Kept(s, p, p, expected) + s[p..] == s;
    if |s| - LastLength(ql.pages) <= p { KeptGrows(s, p, |s| - LastLength(ql.pages), p, expected); }
    StartBeforeLast(s, p, |s| - LastLength(ql.pages), expected);
  }

  lemma StartBeforeLast(s: seq<Bytes>, p: nat, b: nat, expected: Bytes -> bool)
    requires p < |s| && b <= |s|
    ensures LastNow(s, p, b, p, expected) == |s| - b
  {
  }

  /** One turn of the loop. */
  method SweepOne(ql: QuickList, iter: Iterator, expected: Bytes -> bool,
                  ghost s: seq<Bytes>, ghost p: nat, ghost b: nat, ghost x: nat) returns (hit: bool)
    requires Swept(ql, iter, s, p, b, x, expected) && x < |s|
    modifies ql, iter
    ensures Swept(ql, iter, s, p, b, x + 1, expected) && hit == expected(s[x])
    ensures KeptLength(s, p, x + 1, expected) == KeptLength(s, p, x, expected) + if hit then 0 else 1
    ensures ql.size == old(ql.size) - if hit then 1 else 0
  {
    var val := Look(ql, iter, expected, s, p, b, x);
    hit := expected(val);
    if hit { SweepRemove(ql, iter, expected, s, p, b, x); } else { SweepKeep(ql, iter, expected, s, p, b, x); }
  }

  /** How many matches have been removed. */
  ghost predicate Tally(s: seq<Bytes>, p: nat, x: nat, expected: Bytes -> bool, count: int, removed: int) {
    var n := |s|;
    var tally := p <= x <= n && removed == x - KeptLength(s, p, x, expected) && (count > 0 ==> removed <= count)
      && (removed == count && count > 0 ==> x > p && expected(s[x - 1]));
    tally
  }

  lemma TallyOne(s: seq<Bytes>, p: nat, x: nat, expected: Bytes -> bool, count: int, removed: int)
    requires Tally(s, p, x, expected, count, removed) && x < |s| && removed != count
    ensures Tally(s, p, x + 1, expected, count, removed + if expected(s[x]) then 1 else 0)
  {
  }

  lemma TallyStarts(s: seq<Bytes>, p: nat, expected: Bytes -> bool, count: int)
    requires p <= |s| && count != 0
    ensures Tally(s, p, p, expected, count, 0)
  {
  }

  /**
   * The loop of RemoveAllByVal and, with a count, of RemoveByVal. The ghost result x says how far it came. It panics
   * when the iterator has lost its page.
   */
  method Sweep(ql: QuickList, iter: Iterator, expected: Bytes -> bool, count: int,
               ghost s: seq<Bytes>, ghost p: nat, ghost b: nat)
    returns (removed: int, panicked: bool, ghost x: nat)
    requires Swept(ql, iter, s, p, b, p, expected) && Tally(s, p, p, expected, count, 0) && count != 0
    modifies ql, iter
    ensures Swept(ql, iter, s, p, b, x, expected) && Tally(s, p, x, expected, count, removed)
    ensures ql.size == old(ql.size) - removed
    ensures panicked ==> removed != count && iter.node.None? && |ql.pages| > 0
    ensures !panicked ==> removed == count || iter.AtEnd()
  {
    removed, x := 0, p;
    while !iter.AtEnd()
      invariant Swept(ql, iter, s, p, b, x, expected)
      invariant Tally(s, p, x, expected, count, removed) && removed != count && ql.size == old(ql.size) - removed
      decreases |s| - x
    {
      if iter.node.None? { return removed, true, x; }
      NotAtEnd(ql, iter, s, p, b, x, expected);
      TallyOne(s, p, x, expected, count, removed);
      var hit := SweepOne(ql, iter, expected, s, p, b, x);
      removed, x := removed + if hit then 1 else 0, x + 1;
      if removed == count { return removed, false, x; }
    }
    panicked := false;
  }

  lemma NotAtEnd(ql: QuickList, iter: Iterator, s: seq<Bytes>, p: nat, b: nat, x: nat, expected: Bytes -> bool)
    requires Swept(ql, iter, s, p, b, x, expected) && !iter.AtEnd() && iter.node.Some?
    ensures x < |s|
  {
  }

  /** What a walk that has ended says: it came to the end, and it panicked exactly when it was stuck. */
  lemma SweepVerdict(ql: QuickList, iter: Iterator, s: seq<Bytes>, p: nat, b: nat, x: nat, panicked: bool, expected: Bytes -> bool)
    requires Swept(ql, iter, s, p, b, x, expected)
    requires if panicked then iter.node.None? && |ql.pages| > 0 else iter.AtEnd()
    ensures x == |s| && (panicked <==> Stuck(s, p, b, expected))
  {
    if panicked { NoPageMeansStuck(ql, iter, s, p, b, x, expected); } else { EndIsReached(ql, iter, s, p, b, x, expected); }
  }

  lemma LastPageNotEmpty(pages: seq<Page>)
    requires Shaped(pages) && pages != []
    ensures 0 < LastLength(pages) <= |Flat(pages)|
  {
    var n := |pages| - 1;
    LastPageIs(pages, n, 0);
  }

  /**
   * A walk from p has dealt with the elements up to x: the matches among them are gone, in number `removed`, and it
   * went on to the end unless `count` stopped it. It panicked when it got stuck at the end (the last page began at b).
   */
  ghost predicate Removal(s: seq<Bytes>, after: seq<Bytes>, p: nat, b: int, x: nat, expected: Bytes -> bool, count: int,
                          removed: int, panicked: bool) {
    var n := |s|;
    var removal :=
      && p <= x <= n && 0 <= b < n
      && after == Kept(s, p, x, expected) + s[x..] && removed == n - |after|
      && (removed != count ==> x == n)
      && (count > 0 ==> removed <= count && (removed == count ==> x > p && expected(s[x - 1])))
      && (panicked <==> removed != count && Stuck(s, p, b, expected));
    removal
  }

  lemma RemovalDone(ql: QuickList, iter: Iterator, s: seq<Bytes>, p: nat, b: nat, x: nat, expected: Bytes -> bool, count: int,
                    removed: int, panicked: bool)
    requires Swept(ql, iter, s, p, b, x, expected) && Tally(s, p, x, expected, count, removed) && count != 0
    requires panicked ==> removed != count && iter.node.None? && |ql.pages| > 0
    requires !panicked ==> removed == count || iter.AtEnd()
    ensures Removal(s, ql.All(), p, b, x, expected, count, removed, panicked)
  {
    SweptLength(ql, iter, s, p, b, x, expected);
    if removed != count { SweepVerdict(ql, iter, s, p, b, x, panicked, expected); }
  }

  /** A count that is not positive is never reached, as if it were -1. */
  function Limit(count: int): int {
    if count > 0 then count else -1
  }

  /** `RemoveByVal`. When more elements have been removed than the size said there were, find panics at once. */
  method RemoveByVal(ql: QuickList, expected: Bytes -> bool, count: int) returns (removed: int, panicked: bool, ghost x: nat)
    requires ql.Valid()
    modifies ql
    ensures old(ql.size) > 0 ==>
      var s, p := old(ql.All()), Place(|old(ql.All())|, old(ql.size), 0);
      && p >= 0 && Removal(s, ql.All(), p, |s| - LastLength(old(ql.pages)), x, expected, Limit(count), removed, panicked)
    ensures old(ql.size) <= 0 ==> removed == 0 && ql.pages == old(ql.pages) && (panicked <==> old(ql.size) < 0)
    ensures Shaped(ql.pages) && ql.size == old(ql.size) - removed
  {
    if ql.size <= 0 { return 0, ql.size < 0, 0; }
    var iter := new Iterator(ql, 0);
    removed, panicked, x := SweepFrom(ql, iter, expected, Limit(count));
  }

  method SweepFrom(ql: QuickList, iter: Iterator, expected: Bytes -> bool, count: int)
    returns (removed: int, panicked: bool, ghost x: nat)
    requires iter.ql == ql && Shaped(ql.pages) && iter.On() && 0 <= iter.Pos() < |ql.All()| && count != 0
    modifies ql, iter
    ensures var s := old(ql.All());
            Removal(s, ql.All(), old(iter.Pos()), |s| - LastLength(old(ql.pages)), x, expected, count, removed, panicked)
    ensures Shaped(ql.pages) && ql.size == old(ql.size) - removed
  {
    SweepStarts(ql, iter, expected);
    ghost var s, b := ql.All(), |ql.All()| - LastLength(ql.pages);
    removed, panicked, x := SweepAll(ql, iter, expected, count, s, iter.Pos(), b);
  }

  /** The whole walk from where the iterator stands. */
  method SweepAll(ql: QuickList, iter: Iterator, expected: Bytes -> bool, count: int, ghost s: seq<Bytes>, ghost p: nat, ghost b: nat)
    returns (removed: int, panicked: bool, ghost x: nat)
    requires Swept(ql, iter, s, p, b, p, expected) && count != 0
    modifies ql, iter
    ensures Removal(s, ql.All(), p, b, x, expected, count, removed, panicked)
    ensures Shaped(ql.pages) && ql.size == old(ql.size) - removed
  {
    TallyStarts(s, p, expected, count);
    removed, panicked, x := Sweep(ql, iter, expected, count, s, p, b);
    RemovalDone(ql, iter, s, p, b, x, expected, count, removed, panicked);
  }

  lemma AllRemoved(s: seq<Bytes>, after: seq<Bytes>, p: nat, b: int, x: nat, expected: Bytes -> bool, removed: int, panicked: bool)
    requires Removal(s, after, p, b, x, expected, -1, removed, panicked)
    ensures removed >= 0 && after == Kept(s, p, |s|, expected) && (panicked <==> Stuck(s, p, b, expected))
  {
    KeptHasLength(s, p, x, expected);
    assert s[|s|..] == [] && Kept(s, p, |s|, expected) + [] == Kept(s, p, |s|, expected);
  }

  /** What is kept has no match from p on. */
  lemma {:induction false} KeptHasNoMatch(s: seq<Bytes>, p: nat, x: nat, expected: Bytes -> bool)
    requires p <= x <= |s|
    ensures s[..p] <= Kept(s, p, x, expected)
    ensures forall i :: p <= i < |Kept(s, p, x, expected)| ==> !expected(Kept(s, p, x, expected)[i])
    decreases x
  {
    if x > p { KeptHasNoMatch(s, p, x - 1, expected); }
  }

  /** What is kept has every element that is no match, as often as before. */
  lemma {:induction false} KeptHasOthers(s: seq<Bytes>, p: nat, x: nat, expected: Bytes -> bool, v: Bytes)
    requires p <= x <= |s| && !expected(v)
    ensures multiset(Kept(s, p, x, expected))[v] == multiset(s[..x])[v]
    decreases x
  {
    if x > p {
      KeptHasOthers(s, p, x - 1, expected, v);
      assert s[..x] == s[..x - 1] + [s[x - 1]];
    }
  }

  /** `RemoveAllByVal`: no match is left after the start of the walk. Find panics on a list without elements. */
  method RemoveAllByVal(ql: QuickList, expected: Bytes -> bool) returns (removed: int, panicked: bool)
    requires ql.Valid()
    modifies ql
    ensures old(ql.size) > 0 ==>
      var s, b, p := old(ql.All()), |old(ql.All())| - LastLength(old(ql.pages)), Place(|old(ql.All())|, old(ql.size), 0);
      && 0 <= p < |s| && 0 <= b < |s|
      && ql.All() == Kept(s, p, |s|, expected) && removed == |s| - |ql.All()|
      && (panicked <==> Stuck(s, p, b, expected))
    ensures old(ql.size) <= 0 ==> removed == 0 && ql.pages == old(ql.pages) && panicked
    ensures Shaped(ql.pages) && ql.size == old(ql.size) - removed
  {
    if ql.size <= 0 { return 0, true; }
    ghost var s, b, p := ql.All(), |ql.All()| - LastLength(ql.pages), Place(|ql.All()|, ql.size, 0);
    ghost var x;
    removed, panicked, x := RemoveByVal(ql, expected, -1);
    AllRemoved(s, ql.All(), p, b, x, expected, removed, panicked);
  }

  /* ---- from the end ---- */

  /** What is left of the elements from x on. */
  function Left(s: seq<Bytes>, x: nat, expected: Bytes -> bool): seq<Bytes>
    requires x <= |s|
    decreases |s| - x
  {
    if x == |s| then [] else (if expected(s[x]) then [] else [s[x]]) + Left(s, x + 1, expected)
  }

  lemma {:induction false} NothingLeft(s: seq<Bytes>, x: nat, expected: Bytes -> bool)
    requires x <= |s|
    ensures Left(s, x, expected) == [] <==> AllExpected(s, x, |s|, expected)
    decreases |s| - x
  {
    if x < |s| { NothingLeft(s, x + 1, expected); }
  }

  /** The walk back has dealt with the elements from x on. */
  ghost predicate SweptBack(ql: QuickList, iter: Iterator, s: seq<Bytes>, b: nat, x: nat, expected: Bytes -> bool)
    reads ql, iter
  {
    var n := |s|;
    var swept :=
      && iter.ql == ql && x <= n && b < n && Shaped(ql.pages)
      && ql.All() == s[..x] + Left(s, x, expected)
      && (x > 0 ==> iter.On() && iter.Pos() == x - 1)
      && (x == 0 ==> iter.AtBegin())
      && (x > b ==> LastLength(ql.pages) == x - b + |Left(s, x, expected)|)
      && (0 < x <= b ==> LastLength(ql.pages) > 0 && Left(s, x, expected) != []);
    swept
  }

  /** Moving back over an element that is kept. */
  lemma KeptBack(ql: QuickList, iter: Iterator, s: seq<Bytes>, b: nat, x: nat, expected: Bytes -> bool)
    requires 0 < x <= |s| && b < |s| && !expected(s[x - 1]) && iter.ql == ql && Shaped(ql.pages)
    requires ql.All() == s[..x] + Left(s, x, expected)
    requires x > b ==> LastLength(ql.pages) == x - b + |Left(s, x, expected)|
    requires x <= b ==> LastLength(ql.pages) > 0 && Left(s, x, expected) != []
    requires if x > 1 then iter.On() && iter.Pos() == x - 2 else iter.AtBegin()
    ensures SweptBack(ql, iter, s, b, x - 1, expected)
  {
    MoveBack(s, x, Left(s, x, expected));
  }

  lemma MoveBack(s: seq<Bytes>, x: nat, left: seq<Bytes>)
    requires 0 < x <= |s|
    ensures s[..x] + left == s[..x - 1] + ([s[x - 1]] + left)
  {
  }

  /** ... over one that was removed, when the iterator still has a page, or no page is left at all. */
  lemma RemovedBack(ql: QuickList, iter: Iterator, s: seq<Bytes>, b: nat, x: nat, expected: Bytes -> bool)
    requires 0 < x <= |s| && b < |s| && expected(s[x - 1]) && iter.ql == ql && Shaped(ql.pages)
    requires ql.All() == s[..x - 1] + Left(s, x, expected)
    requires x > b ==> LastLength(ql.pages) == x - 1 - b + |Left(s, x, expected)|
    requires x <= b || (x == b + 1 && b > 0) ==> Left(s, x, expected) != []
    requires if x > 1 then iter.On() && iter.Pos() == x - 2 && LastLength(ql.pages) > 0 else iter.AtBegin()
    ensures SweptBack(ql, iter, s, b, x - 1, expected)
  {
    assert [] + Left(s, x, expected) == Left(s, x, expected);
  }

  lemma BackFacts(s: seq<Bytes>, x: nat, expected: Bytes -> bool)
    requires 0 < x <= |s|
    ensures var left := Left(s, x, expected);
            var all := s[..x] + left;
            && |all| == x + |left| && all[x - 1] == s[x - 1] && RemoveAt(all, x - 1) == s[..x - 1] + left
  {
  }

  /** The removal of one match on the way back: the iterator may lose its page. */
  method RemoveBack(ql: QuickList, iter: Iterator, expected: Bytes -> bool, ghost s: seq<Bytes>, ghost b: nat, ghost x: nat)
    requires SweptBack(ql, iter, s, b, x, expected) && x > 0 && expected(s[x - 1])
    modifies ql, iter
    ensures iter.ql == ql && Shaped(ql.pages) && ql.size == old(ql.size) - 1
    ensures ql.All() == s[..x - 1] + Left(s, x, expected)
    ensures iter.node.None? <==> x == b + 1 && Left(s, x, expected) == []
    ensures iter.node.Some? ==>
      && iter.node.value < |ql.pages| && 0 <= iter.offset <= |ql.pages[iter.node.value].items| && iter.Pos() == x - 1
      && LastLength(ql.pages) > 0
      && (x > b ==> LastLength(ql.pages) == x - 1 - b + |Left(s, x, expected)|)
  {
    BackFacts(s, x, expected);
    ghost var last := LastLength(ql.pages);
    assert iter.Pos() == x - 1;
    var val := iter.Remove();
    if iter.node.Some? { NodeHasPage(ql, iter); }
  }

  lemma NodeHasPage(ql: QuickList, iter: Iterator)
    requires iter.ql == ql && Shaped(ql.pages) && |ql.pages| > 0 && iter.node.Some? && (iter.On() || iter.AtEnd())
    ensures iter.node.value < |ql.pages| && 0 <= iter.offset <= |ql.pages[iter.node.value].items|
    ensures LastLength(ql.pages) > 0
  {
    LastPageNotEmpty(ql.pages);
  }

  datatype Turn = GoOn | Full | Lost

  /** One turn of the loop of ReverseRemoveByVal. */
  method BackOne(ql: QuickList, iter: Iterator, expected: Bytes -> bool, count: int, removed: int,
                 ghost s: seq<Bytes>, ghost b: nat, ghost x: nat) returns (hit: bool, turn: Turn)
    requires SweptBack(ql, iter, s, b, x, expected) && x > 0
    modifies ql, iter
    ensures hit == expected(s[x - 1]) && ql.size == old(ql.size) - (if hit then 1 else 0) && Shaped(ql.pages)
    ensures ql.All() == s[..x - 1] + Left(s, x - 1, expected)
    ensures turn.GoOn? ==> SweptBack(ql, iter, s, b, x - 1, expected)
    ensures turn.Full? <==> hit && removed + 1 == count
    ensures turn.Lost? <==> !turn.Full? && x == b + 1 && b > 0 && Left(s, x - 1, expected) == []
  {
    BackFacts(s, x, expected);
    var val := iter.Get();
    hit := expected(val);
    if hit {
      RemoveBack(ql, iter, expected, s, b, x);
      assert [] + Left(s, x, expected) == Left(s, x, expected);
      if removed + 1 == count { return hit, Full; }
      if iter.node.None? {
        if |ql.pages| > 0 {
          PagesMeanElements(ql.pages);
          return hit, Lost;
        }
        iter.offset := -1;
        EmptyMeansFirst(ql, s, x, expected);
      } else {
        var inBound := iter.Prev();
      }
      RemovedBack(ql, iter, s, b, x, expected);
    } else {
      MoveBack(s, x, Left(s, x, expected));
      var inBound := iter.Prev();
      KeptBack(ql, iter, s, b, x, expected);
    }
    turn := GoOn;
  }

  lemma PagesMeanElements(pages: seq<Page>)
    requires Shaped(pages) && pages != []
    ensures Flat(pages) != []
  {
    EmptyFlat(pages);
  }

  lemma EmptyMeansFirst(ql: QuickList, s: seq<Bytes>, x: nat, expected: Bytes -> bool)
    requires 0 < x <= |s| && ql.pages == [] && ql.All() == s[..x - 1] + Left(s, x, expected)
    ensures x == 1
  {
  }

  /** All elements of the last page match, it is not the only page, and there are fewer of them than asked for. */
  predicate StuckBack(s: seq<Bytes>, b: int, expected: Bytes -> bool, count: int)
    requires 0 <= b <= |s|
  {
    0 < b && AllExpected(s, b, |s|, expected) && (count > 0 ==> |s| - b < count)
  }

  /** The result of a walk back that came to x. */
  ghost predicate BackRemoval(s: seq<Bytes>, after: seq<Bytes>, b: int, x: nat, expected: Bytes -> bool, count: int,
                              removed: int, panicked: bool) {
    var n := |s|;
    var removal :=
      && x <= n && 0 <= b < n
      && after == s[..x] + Left(s, x, expected) && removed == n - |after| && (count > 0 ==> removed <= count)
      && (count > 0 && removed == count ==> x < n && expected(s[x]))
      && (panicked <==> StuckBack(s, b, expected, count))
      && (count <= 0 || removed != count ==> x == if panicked then b else 0);
    removal
  }

  /** `ReverseRemoveByVal`: the last `count` matches. When it panics, the elements before the last page are untouched. */
  method ReverseRemoveByVal(ql: QuickList, expected: Bytes -> bool, count: int)
    returns (removed: int, panicked: bool, ghost x: nat)
    requires ql.Valid()
    modifies ql
    ensures old(ql.size) > 0 ==>
      var s := old(ql.All());
      BackRemoval(s, ql.All(), |s| - LastLength(old(ql.pages)), x, expected, Limit(count), removed, panicked)
    ensures old(ql.size) <= 0 ==> removed == 0 && ql.pages == old(ql.pages) && (panicked <==> old(ql.size) < 0)
    ensures Shaped(ql.pages) && ql.size == old(ql.size) - removed
  {
    if ql.size <= 0 { return 0, ql.size < 0, 0; }
    ghost var s, b := ql.All(), |ql.All()| - LastLength(ql.pages);
    var iter := new Iterator(ql, ql.size - 1);
    BackStarts(ql, iter, expected);
    assert s[|s|..] == [];
    removed, panicked, x := BackSweep(ql, iter, expected, Limit(count), s, b);
  }

  /** One turn and its count. */
  method BackTurn(ql: QuickList, iter: Iterator, expected: Bytes -> bool, count: int, removed: int,
                  ghost s: seq<Bytes>, ghost b: nat, ghost x: nat) returns (more: int, turn: Turn)
    requires SweptBack(ql, iter, s, b, x, expected) && x > 0 && BackTally(s, b, x, expected, count, removed)
    modifies ql, iter
    ensures Shaped(ql.pages) && ql.size - old(ql.size) == removed - more
    ensures turn.GoOn? ==> SweptBack(ql, iter, s, b, x - 1, expected) && BackTally(s, b, x - 1, expected, count, more)
    ensures !turn.GoOn? ==> BackRemoval(s, ql.All(), b, x - 1, expected, count, more, turn.Lost?)
  {
    var hit;
    hit, turn := BackOne(ql, iter, expected, count, removed, s, b, x);
    more := if hit then removed + 1 else removed;
    TurnCounts(s, ql.All(), b, x, expected, count, removed, more, turn);
  }

  lemma TurnCounts(s: seq<Bytes>, after: seq<Bytes>, b: nat, x: nat, expected: Bytes -> bool, count: int, removed: int,
                   more: int, turn: Turn)
    requires 0 < x <= |s| && BackTally(s, b, x, expected, count, removed)
    requires after == s[..x - 1] + Left(s, x - 1, expected)
    requires more == if expected(s[x - 1]) then removed + 1 else removed
    requires turn.Full? <==> expected(s[x - 1]) && removed + 1 == count
    requires turn.Lost? <==> !turn.Full? && x == b + 1 && b > 0 && Left(s, x - 1, expected) == []
    ensures turn.GoOn? ==> BackTally(s, b, x - 1, expected, count, more)
    ensures !turn.GoOn? ==> BackRemoval(s, after, b, x - 1, expected, count, more, turn.Lost?)
  {
    BackTallyOne(s, b, x, expected, count, removed);
    if turn != GoOn { BackStops(s, after, b, x - 1, expected, count, more, turn.Lost?); }
  }

  method BackSweep(ql: QuickList, iter: Iterator, expected: Bytes -> bool, count: int, ghost s: seq<Bytes>, ghost b: nat)
    returns (removed: int, panicked: bool, ghost x: nat)
    requires SweptBack(ql, iter, s, b, |s|, expected) && BackTally(s, b, |s|, expected, count, 0)
    modifies ql, iter
    ensures BackRemoval(s, ql.All(), b, x, expected, count, removed, panicked)
    ensures Shaped(ql.pages) && ql.size == old(ql.size) - removed
  {
    removed, x := 0, |s|;
    while !iter.AtBegin()
      invariant SweptBack(ql, iter, s, b, x, expected)
      invariant BackTally(s, b, x, expected, count, removed) && ql.size == old(ql.size) - removed
      decreases x
    {
      NotAtBegin(ql, iter, s, b, x, expected);
      var turn;
      removed, turn := BackTurn(ql, iter, expected, count, removed, s, b, x);
      x := x - 1;
      if turn != GoOn {
        panicked := turn.Lost?;
        return;
      }
    }
    panicked := false;
    BackEnds(ql, iter, s, b, x, expected, count, removed);
  }

  /** So far fewer have been removed than asked for, and the walk is not stuck. */
  ghost predicate BackTally(s: seq<Bytes>, b: nat, x: nat, expected: Bytes -> bool, count: int, removed: int) {
    var n := |s|;
    var tally := x <= n && b < n && removed == n - x - |Left(s, x, expected)| && (count > 0 ==> removed < count) && removed >= 0
      && (x <= b && 0 < b ==> Left(s, b, expected) != []);
    tally
  }

  lemma BackTallyOne(s: seq<Bytes>, b: nat, x: nat, expected: Bytes -> bool, count: int, removed: int)
    requires 0 < x <= |s| && BackTally(s, b, x, expected, count, removed)
    ensures var more := removed + if expected(s[x - 1]) then 1 else 0;
            && more == |s| - (x - 1) - |Left(s, x - 1, expected)| && (count > 0 ==> more <= count)
            && ((count > 0 ==> more < count) && !(x == b + 1 && b > 0 && Left(s, x - 1, expected) == []) ==>
                  BackTally(s, b, x - 1, expected, count, more))
  {
  }

  lemma NotAtBegin(ql: QuickList, iter: Iterator, s: seq<Bytes>, b: nat, x: nat, expected: Bytes -> bool)
    requires SweptBack(ql, iter, s, b, x, expected) && !iter.AtBegin()
    ensures x > 0
  {
  }

  lemma BackStarts(ql: QuickList, iter: Iterator, expected: Bytes -> bool)
    requires iter.ql == ql && Shaped(ql.pages) && iter.On() && iter.Pos() == |ql.All()| - 1
    ensures LastLength(ql.pages) <= |ql.All()|
    ensures var s := ql.All(); var b := |s| - LastLength(ql.pages); b < |s| && SweptBack(ql, iter, s, b, |s|, expected)
  {
    LastPageNotEmpty(ql.pages);
    var s := ql.All();
    assert s[|s|..] == [] && s[..|s|] + [] == s;
  }

  lemma BackStops(s: seq<Bytes>, after: seq<Bytes>, b: nat, x: nat, expected: Bytes -> bool, count: int, removed: int, lost: bool)
    requires x < |s| && b < |s| && BackTally(s, b, x + 1, expected, count, if expected(s[x]) then removed - 1 else removed)
    requires after == s[..x] + Left(s, x, expected)
    requires !lost ==> expected(s[x]) && removed == count && count > 0
    requires lost ==> (count > 0 ==> removed < count) && x == b && b > 0 && Left(s, x, expected) == []
    ensures BackRemoval(s, after, b, x, expected, count, removed, lost)
  {
    NothingLeft(s, b, expected);
    if !lost { FullIsNotStuck(s, b, x, expected, count); }
  }

  /** If the count was reached, there were as many matches. */
  lemma FullIsNotStuck(s: seq<Bytes>, b: nat, x: nat, expected: Bytes -> bool, count: int)
    requires x < |s| && b < |s| && count == |s| - x - |Left(s, x, expected)| > 0
    requires x + 1 <= b && 0 < b ==> Left(s, b, expected) != []
    ensures !StuckBack(s, b, expected, count)
  {
    NothingLeft(s, b, expected);
  }

  lemma BackEnds(ql: QuickList, iter: Iterator, s: seq<Bytes>, b: nat, x: nat, expected: Bytes -> bool, count: int, removed: int)
    requires SweptBack(ql, iter, s, b, x, expected) && iter.AtBegin() && BackTally(s, b, x, expected, count, removed)
    ensures BackRemoval(s, ql.All(), b, x, expected, count, removed, false)
  {
    NothingLeft(s, b, expected);
  }
}
