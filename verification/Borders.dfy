/** Score borders, and the block of a sorted sequence that lies between two of them. */
module Borders {
  import opened Strconv
  import opened Elements

  datatype Infinity = NegativeInf | Finite | PositiveInf

  /** An infinite border carries a value all the same: zero. */
  datatype ScoreBorder = ScoreBorder(inf: Infinity, value: real, exclude: bool)

  const NEGATIVE_INF := ScoreBorder(NegativeInf, 0.0, false)
  const POSITIVE_INF := ScoreBorder(PositiveInf, 0.0, false)

  /** The score is within the upper border. */
  predicate Greater(border: ScoreBorder, value: real) {
    match border.inf
    case NegativeInf => false
    case PositiveInf => true
    case Finite => if border.exclude then border.value > value else border.value >= value
  }

  /** The score is within the lower border. */
  predicate Less(border: ScoreBorder, value: real) {
    match border.inf
    case NegativeInf => true
    case PositiveInf => false
    case Finite => if border.exclude then border.value < value else border.value <= value
  }

  predicate InRange(min: ScoreBorder, max: ScoreBorder, x: Element) {
    Less(min, x.score) && Greater(max, x.score)
  }

  /** The first test of hasInRange. It compares the values of infinite borders too. */
  predicate LooksEmpty(min: ScoreBorder, max: ScoreBorder) {
    min.value > max.value || (min.value == max.value && (min.exclude || max.exclude))
  }

  /** Between two finite borders the first test is right. */
  lemma LooksEmptyIsEmpty(min: ScoreBorder, max: ScoreBorder, x: Element)
    requires min.inf.Finite? && max.inf.Finite? && LooksEmpty(min, max)
    ensures !InRange(min, max, x)
  {
  }

  /** The elements in range, in order. */
  function Matches(s: seq<Element>, min: ScoreBorder, max: ScoreBorder): (r: seq<Element>)
    ensures |r| <= |s|
  {
    if |s| == 0 then []
    else if InRange(min, max, s[0]) then [s[0]] + Matches(s[1..], min, max)
    else Matches(s[1..], min, max)
  }

  /** The number of leading elements below the lower border. */
  function LowCut(s: seq<Element>, min: ScoreBorder): (k: nat)
    ensures k <= |s| && forall i :: 0 <= i < k ==> !Less(min, s[i].score)
    ensures k < |s| ==> Less(min, s[k].score)
  {
    if |s| == 0 || Less(min, s[0].score) then 0 else 1 + LowCut(s[1..], min)
  }

  /** The number of leading elements within the upper border. */
  function HighCut(s: seq<Element>, max: ScoreBorder): (k: nat)
    ensures k <= |s| && forall i :: 0 <= i < k ==> Greater(max, s[i].score)
    ensures k < |s| ==> !Greater(max, s[k].score)
  {
    if |s| == 0 || !Greater(max, s[0].score) then 0 else 1 + HighCut(s[1..], max)
  }

  lemma CutsDivide(s: seq<Element>, min: ScoreBorder, max: ScoreBorder)
    requires Ascending(s)
    ensures forall i :: 0 <= i < |s| ==> (Less(min, s[i].score) <==> LowCut(s, min) <= i)
    ensures forall i :: 0 <= i < |s| ==> (Greater(max, s[i].score) <==> i < HighCut(s, max))
  {
    var lo, hi := LowCut(s, min), HighCut(s, max);
    forall i | lo <= i < |s| ensures Less(min, s[i].score) {
      assert i == lo || Below(s[lo], s[i]);
    }
    forall i | hi <= i < |s| ensures !Greater(max, s[i].score) {
      assert i == hi || Below(s[hi], s[i]);
    }
  }

  lemma SliceOfTail(s: seq<Element>, lo: nat, hi: nat)
    requires |s| > 0 && lo <= hi < |s|
    ensures s[lo + 1..hi + 1] == s[1..][lo..hi]
  {
    var a, b := s[lo + 1..hi + 1], s[1..][lo..hi];
    forall i | 0 <= i < hi - lo ensures a[i] == b[i] {
    }
  }

  /** In a sorted sequence the matches are one block. */
  lemma {:induction false} MatchesAreBlock(s: seq<Element>, min: ScoreBorder, max: ScoreBorder)
    requires Ascending(s)
    ensures Matches(s, min, max)
         == if LowCut(s, min) < HighCut(s, max) then s[LowCut(s, min)..HighCut(s, max)] else []
  {
    if |s| > 0 {
      var t := s[1..];
      assert Ascending(t);
      MatchesAreBlock(t, min, max);
      CutsDivide(s, min, max);
      CutsDivide(t, min, max);
      if Less(min, s[0].score) {
        assert LowCut(s, min) == 0;
        if |t| > 0 { assert Less(min, s[1].score); assert t[0] == s[1]; }
        assert LowCut(t, min) == 0;
        if Greater(max, s[0].score) {
          assert HighCut(s, max) == 1 + HighCut(t, max);
          assert s[0..HighCut(s, max)] == [s[0]] + t[0..HighCut(t, max)];
        } else {
          if |t| > 0 { assert !Greater(max, s[1].score); assert t[0] == s[1]; }
          assert HighCut(t, max) == 0;
        }
      } else {
        var lo := LowCut(t, min);
        assert LowCut(s, min) == 1 + lo;
        if Greater(max, s[0].score) {
          assert HighCut(s, max) == 1 + HighCut(t, max);
          if lo < HighCut(t, max) { SliceOfTail(s, lo, HighCut(t, max)); }
        } else {
          if |t| > 0 { assert !Greater(max, s[1].score); assert t[0] == s[1]; }
          assert HighCut(t, max) == 0;
        }
      }
    }
  }
}
