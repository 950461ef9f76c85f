/** What lies between two borders, said in numbers. */
module BorderLaws {
  import opened Strconv
  import opened Elements
  import opened Borders

  function Inclusive(v: real): ScoreBorder {
    ScoreBorder(Finite, v, false)
  }

  function Exclusive(v: real): ScoreBorder {
    ScoreBorder(Finite, v, true)
  }

  /** The two borders leave room for the score. */
  predicate Between(min: ScoreBorder, max: ScoreBorder, score: real) {
    && !min.inf.PositiveInf? && !max.inf.NegativeInf?
    && !(min.inf.Finite? && score < min.value) && !(min.inf.Finite? && min.exclude && score == min.value)
    && !(max.inf.Finite? && max.value < score) && !(max.inf.Finite? && max.exclude && score == max.value)
  }

  lemma InRangeIsBetween(min: ScoreBorder, max: ScoreBorder, x: Element)
    ensures InRange(min, max, x) <==> Between(min, max, x.score)
  {
  }

  /** How many elements of a sequence lie between the borders. */
  function Number(s: seq<Element>, min: ScoreBorder, max: ScoreBorder): nat {
    |Places(s, min, max)|
  }

  function Places(s: seq<Element>, min: ScoreBorder, max: ScoreBorder): set<nat> {
    set k: nat | k < |s| && Between(min, max, s[k].score)
  }

  lemma {:induction false} MatchesAreBetween(s: seq<Element>, min: ScoreBorder, max: ScoreBorder, x: Element)
    ensures multiset(Matches(s, min, max))[x] == if Between(min, max, x.score) then multiset(s)[x] else 0
  {
    if |s| > 0 {
      MatchesAreBetween(s[1..], min, max, x);
      assert s == [s[0]] + s[1..];
    }
  }

  /** The matches are the elements between the borders, each as often as it is there, and no others. */
  lemma MatchesHold(s: seq<Element>, min: ScoreBorder, max: ScoreBorder)
    ensures forall x :: x in Matches(s, min, max) <==> x in s && Between(min, max, x.score)
  {
    forall x ensures x in Matches(s, min, max) <==> x in s && Between(min, max, x.score) {
      MatchesAreBetween(s, min, max, x);
      assert x in s <==> x in multiset(s);
      assert x in Matches(s, min, max) <==> x in multiset(Matches(s, min, max));
    }
  }

  /** The number of matches is the number of places whose score lies between the borders. */
  lemma {:induction false} MatchesNumber(s: seq<Element>, min: ScoreBorder, max: ScoreBorder)
    ensures |Matches(s, min, max)| == Number(s, min, max)
    decreases |s|
  {
    if |s| == 0 {
      assert Places(s, min, max) == {};
    } else {
      var front, last := s[..|s| - 1], s[|s| - 1];
      assert s == front + [last];
      MatchesNumber(front, min, max);
      MatchesEnd(front, last, min, max);
      NumberEnd(front, last, min, max);
    }
  }

  lemma NumberEnd(s: seq<Element>, x: Element, min: ScoreBorder, max: ScoreBorder)
    ensures Number(s + [x], min, max) == Number(s, min, max) + if Between(min, max, x.score) then 1 else 0
  {
    var before, after := Places(s, min, max), Places(s + [x], min, max);
    assert |s| !in before;
    if Between(min, max, x.score) { assert after == before + {|s|}; } else { assert after == before; }
  }

  lemma {:induction false} MatchesEnd(s: seq<Element>, x: Element, min: ScoreBorder, max: ScoreBorder)
    ensures |Matches(s + [x], min, max)| == |Matches(s, min, max)| + if Between(min, max, x.score) then 1 else 0
  {
    if |s| == 0 {
      assert s + [x] == [x];
    } else {
      MatchesEnd(s[1..], x, min, max);
      assert (s + [x])[1..] == s[1..] + [x];
    }
  }

  /** A score parts every sequence: up to it and above it, or below it and from it on. */
  lemma {:induction false} BordersPart(s: seq<Element>, v: real)
    ensures |Matches(s, NEGATIVE_INF, Inclusive(v))| + |Matches(s, Exclusive(v), POSITIVE_INF)| == |s|
    ensures |Matches(s, NEGATIVE_INF, Exclusive(v))| + |Matches(s, Inclusive(v), POSITIVE_INF)| == |s|
  {
    if |s| > 0 { BordersPart(s[1..], v); }
  }

  /** Between a score and itself lie the elements with that score; nothing when either border excludes it. */
  lemma OneScore(s: seq<Element>, v: real)
    ensures forall x :: x in Matches(s, Inclusive(v), Inclusive(v)) <==> x in s && x.score == v
    ensures Matches(s, Exclusive(v), Inclusive(v)) == Matches(s, Inclusive(v), Exclusive(v)) == []
  {
    MatchesHold(s, Inclusive(v), Inclusive(v));
    NoMatches(s, Exclusive(v), Inclusive(v));
    NoMatches(s, Inclusive(v), Exclusive(v));
  }

  lemma {:induction false} NoMatches(s: seq<Element>, min: ScoreBorder, max: ScoreBorder)
    requires forall x :: x in s ==> !Between(min, max, x.score)
    ensures Matches(s, min, max) == []
  {
    if |s| > 0 { NoMatches(s[1..], min, max); }
  }

  /** Ranges that meet add up. */
  lemma {:induction false} RangesAddUp(s: seq<Element>, min: ScoreBorder, v: real, max: ScoreBorder)
    requires (min.inf.NegativeInf? || (min.inf.Finite? && min.value <= v)) && (max.inf.PositiveInf? || (max.inf.Finite? && v <= max.value))
    requires !(max.inf.Finite? && max.value == v && max.exclude)
    ensures |Matches(s, min, Inclusive(v))| + |Matches(s, Exclusive(v), max)| == |Matches(s, min, max)|
  {
    if |s| > 0 { RangesAddUp(s[1..], min, v, max); }
  }
}
