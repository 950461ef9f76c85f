/** `sort.Ints` and `sort.Slice` on integers, as a function whose result is pinned down by its contract. */
module Sorting {

  predicate Sorted(s: seq<nat>) {
    forall i, j :: 0 <= i < j < |s| ==> s[i] <= s[j]
  }

  predicate StrictlySorted(s: seq<nat>) {
    forall i, j :: 0 <= i < j < |s| ==> s[i] < s[j]
  }

  predicate Distinct<T(==)>(s: seq<T>) {
    forall i, j :: 0 <= i < j < |s| ==> s[i] != s[j]
  }

  /** The number of leading elements below x. */
  function Position(x: nat, s: seq<nat>): (k: nat)
    ensures k <= |s| && (forall i :: 0 <= i < k ==> s[i] < x) && (k < |s| ==> x <= s[k])
  {
    if |s| == 0 || x <= s[0] then 0 else 1 + Position(x, s[1..])
  }

  lemma InsertedSorted(x: nat, s: seq<nat>, k: nat)
    requires Sorted(s) && k <= |s| && (forall i :: 0 <= i < k ==> s[i] < x) && (k < |s| ==> x <= s[k])
    ensures Sorted(s[..k] + [x] + s[k..])
  {
    var r := s[..k] + [x] + s[k..];
    forall i, j | 0 <= i < j < |r| ensures r[i] <= r[j] {
      var i', j' := if i <= k then i else i - 1, if j <= k then j else j - 1;
      assert i != k ==> r[i] == s[i'];
      assert j != k ==> r[j] == s[j'];
    }
  }

  lemma InsertedCounts(x: nat, s: seq<nat>, k: nat)
    requires k <= |s|
    ensures multiset(s[..k] + [x] + s[k..]) == multiset(s) + multiset{x}
  {
    assert s == s[..k] + s[k..];
  }

  function Insert(x: nat, s: seq<nat>): (r: seq<nat>)
    requires Sorted(s)
    ensures Sorted(r) && multiset(r) == multiset(s) + multiset{x}
  {
    var k := Position(x, s);
    InsertedSorted(x, s, k);
    InsertedCounts(x, s, k);
    s[..k] + [x] + s[k..]
  }

  function SortInts(s: seq<nat>): (r: seq<nat>)
    ensures Sorted(r) && multiset(r) == multiset(s)
  {
    if |s| == 0 then [] else
      assert s == [s[0]] + s[1..];
      Insert(s[0], SortInts(s[1..]))
  }

  lemma SortedElements(s: seq<nat>)
    ensures |SortInts(s)| == |s| && forall x :: x in SortInts(s) <==> x in s
  {
    assert forall x :: x in SortInts(s) <==> x in multiset(SortInts(s));
    assert forall x :: x in s <==> x in multiset(s);
    assert |SortInts(s)| == |multiset(SortInts(s))|;
  }

  lemma DistinctCounts<T>(s: seq<T>)
    ensures Distinct(s) <==> forall x :: multiset(s)[x] <= 1
  {
    if |s| > 0 {
      DistinctCounts(s[1..]);
      assert s == [s[0]] + s[1..];
      if Distinct(s) {
        assert Distinct(s[1..]) by {
          forall i, j | 0 <= i < j < |s[1..]| ensures s[1..][i] != s[1..][j] {
            assert s[i + 1] != s[j + 1];
          }
        }
        assert s[0] !in s[1..];
      } else {
        var i, j :| 0 <= i < j < |s| && s[i] == s[j];
        if i == 0 {
          assert s[1..][j - 1] == s[0];
          assert multiset(s)[s[0]] == 1 + multiset(s[1..])[s[0]];
        } else {
          assert s[1..][i - 1] == s[1..][j - 1];
          var x :| multiset(s[1..])[x] > 1;
          assert multiset(s)[x] >= multiset(s[1..])[x];
        }
      }
    }
  }

  /** Sorting numbers without repetition gives a strictly increasing sequence. */
  lemma SortDistinct(s: seq<nat>)
    requires Distinct(s)
    ensures StrictlySorted(SortInts(s))
  {
    DistinctCounts(s);
    DistinctCounts(SortInts(s));
  }
}
