/** Any run of changes of a sorted set: what is in it afterwards. */
module SortedSetRuns {
  import opened Strconv
  import opened Elements
  import opened Borders
  import opened SkipList
  import opened SortedSet

  datatype Operation =
    | Adding(member: Bytes, score: real, draw: nat)
    | Removing(member: Bytes)
    | RemovingByScore(min: ScoreBorder, max: ScoreBorder)
    | RemovingByRank(start: int, end: int)
    | PoppingMin(count: int)
    | PoppingMax(count: int)

  /** The sequence without n elements from an index on. */
  function WithoutBlock(s: seq<Element>, at: nat, n: nat): seq<Element> {
    if at + n <= |s| then s[..at] + s[at + n..] else s
  }

  function After(s: seq<Element>, op: Operation): seq<Element> {
    var n := |s|;
    match op
    case Adding(member, score, _) => Enter(EraseMember(s, member), Element(member, score))
    case Removing(member) => EraseMember(s, member)
    case RemovingByScore(min, max) => WithoutBlock(s, LowCut(s, min), |Matches(s, min, max)|)
    case RemovingByRank(start, end) =>
      var lo := Clamp(start, 0, n);
      WithoutBlock(s, lo, Clamp(end, lo, n) - lo)
    case PoppingMin(count) => WithoutBlock(s, 0, if 0 < count < n then count else n)
    case PoppingMax(count) => WithoutBlock(s, Clamp(n - count, 0, n), Clamp(count, 0, n))
  }

  /** The draw 0, when a node has to be made. */
  predicate Panics(s: seq<Element>, op: Operation) {
    op.Adding? && op.draw == 0 && Element(op.member, op.score) !in s
  }

  /** The elements after all operations, unless one of them panics. */
  function AfterAll(s: seq<Element>, ops: seq<Operation>): Option<seq<Element>>
    decreases |ops|
  {
    if |ops| == 0 then Some(s)
    else if Panics(s, ops[0]) then None
    else AfterAll(After(s, ops[0]), ops[1..])
  }

  predicate Drawn(op: Operation) {
    op.Adding? ==> op.draw < 0xFFFF
  }

  lemma TookBlock(s: seq<Element>, at: nat, removed: seq<Element>, now: seq<Element>)
    requires TakenSoFar(s, at, removed, now)
    ensures now == WithoutBlock(s, at, |removed|)
  {
  }

  lemma TookScores(s: seq<Element>, min: ScoreBorder, max: ScoreBorder, now: seq<Element>)
    requires TakenSoFar(s, LowCut(s, min), Matches(s, min, max), now)
    ensures now == After(s, RemovingByScore(min, max))
  {
    TookBlock(s, LowCut(s, min), Matches(s, min, max), now);
  }

  lemma TookRanks(s: seq<Element>, start: int, end: int, now: seq<Element>)
    requires var lo := Clamp(start, 0, |s|);
             TakenSoFar(s, lo, s[lo..Clamp(end, lo, |s|)], now)
    ensures now == After(s, RemovingByRank(start, end))
  {
    var lo := Clamp(start, 0, |s|);
    TookBlock(s, lo, s[lo..Clamp(end, lo, |s|)], now);
  }

  lemma Stored(dict: map<Bytes, Element>, s: seq<Element>, e: Element)
    requires Agree(dict, s)
    ensures e in s <==> e.member in dict && dict[e.member].score == e.score
  {
  }

  method Add(zset: SortedSet, member: Bytes, score: real, draw: nat) returns (panicked: bool)
    requires zset.Valid() && draw < 0xFFFF
    modifies zset, zset.skipList, zset.repr
    ensures fresh(zset.repr - old(zset.repr))
    ensures var op := Adding(member, score, draw);
            && (panicked <==> Panics(old(zset.Contents()), op))
            && (!panicked ==> zset.Valid() && zset.Contents() == After(old(zset.Contents()), op))
  {
    Stored(zset.dict, zset.Contents(), Element(member, score));
    var isNew;
    isNew, panicked := zset.Add(member, score, draw);
  }

  method RemoveScores(zset: SortedSet, min: ScoreBorder, max: ScoreBorder)
    requires zset.Valid()
    modifies zset`dict, zset.skipList, zset.repr
    ensures zset.Valid() && zset.Contents() == After(old(zset.Contents()), RemovingByScore(min, max))
  {
    ghost var s := zset.Contents();
    var n := zset.RemoveByScore(min, max);
    TookScores(s, min, max, zset.Contents());
  }

  method RemoveRanks(zset: SortedSet, start: int, end: int)
    requires zset.Valid()
    modifies zset`dict, zset.skipList, zset.repr
    ensures zset.Valid() && zset.Contents() == After(old(zset.Contents()), RemovingByRank(start, end))
  {
    ghost var s := zset.Contents();
    var n := zset.RemoveByRank(start, end);
    TookRanks(s, start, end, zset.Contents());
  }

  method Pop(zset: SortedSet, op: Operation)
    requires zset.Valid() && (op.PoppingMin? || op.PoppingMax?)
    modifies zset`dict, zset.skipList, zset.repr
    ensures zset.Valid() && zset.Contents() == After(old(zset.Contents()), op)
  {
    ghost var s := zset.Contents();
    if op.PoppingMin? {
      var removed := zset.PopMin(op.count);
      TookBlock(s, 0, removed, zset.Contents());
    } else {
      var removed := zset.PopMax(op.count);
      TookBlock(s, Clamp(|s| - op.count, 0, |s|), removed, zset.Contents());
    }
  }

  /** The operations that remove. */
  method RemoveSome(zset: SortedSet, op: Operation)
    requires zset.Valid() && !op.Adding?
    modifies zset`dict, zset.skipList, zset.repr
    ensures zset.Valid() && zset.Contents() == After(old(zset.Contents()), op)
  {
    if op.Removing? {
      var known := zset.Remove(op.member);
    } else if op.RemovingByScore? {
      RemoveScores(zset, op.min, op.max);
    } else if op.RemovingByRank? {
      RemoveRanks(zset, op.start, op.end);
    } else {
      Pop(zset, op);
    }
  }

  /**
   * Any operations one after the other, up to a panic. Without one, the dictionary and the list agree at the end, no
   * member is in them twice, and they hold exactly what the operations leave of a sorted sequence.
   */
  method Run(zset: SortedSet, ops: seq<Operation>) returns (finished: bool)
    requires zset.Valid() && forall i :: 0 <= i < |ops| ==> Drawn(ops[i])
    modifies zset, zset.skipList, zset.repr
    ensures finished <==> AfterAll(old(zset.Contents()), ops).Some?
    ensures finished ==> zset.Valid() && DistinctMembers(zset.Contents())
    ensures finished ==> zset.Contents() == AfterAll(old(zset.Contents()), ops).value
  {
    var i := 0;
    while i < |ops|
      invariant i <= |ops| && zset.Valid() && fresh(zset.repr - old(zset.repr))
      invariant AfterAll(zset.Contents(), ops[i..]) == AfterAll(old(zset.Contents()), ops)
    {
      assert ops[i..][0] == ops[i] && ops[i..][1..] == ops[i + 1..];
      if ops[i].Adding? {
        var panicked := Add(zset, ops[i].member, ops[i].score, ops[i].draw);
        if panicked { return false; }
      } else {
        RemoveSome(zset, ops[i]);
      }
      i := i + 1;
    }
    assert ops[|ops|..] == [];
    zset.skipList.ValidIsAscending();
    AgreedMembersDistinct(zset.dict, zset.Contents());
    return true;
  }

  /** From a new set on. */
  method RunFromEmpty(ops: seq<Operation>) returns (zset: SortedSet, finished: bool)
    requires forall i :: 0 <= i < |ops| ==> Drawn(ops[i])
    ensures finished <==> AfterAll([], ops).Some?
    ensures finished ==> zset.Valid() && zset.Contents() == AfterAll([], ops).value
  {
    zset := new SortedSet();
    finished := Run(zset, ops);
  }
}
