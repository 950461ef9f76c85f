/** Members with scores, and the order in which a sorted set keeps them. Scores are real numbers: NaN is left out. */
module Elements {
  import opened Strconv

  datatype Element = Element(member: Bytes, score: real)

  /** Go's `<` on strings: by bytes, a prefix first. */
  predicate LessBytes(a: Bytes, b: Bytes) {
    |b| > 0 && (|a| == 0 || a[0] < b[0] || (a[0] == b[0] && LessBytes(a[1..], b[1..])))
  }

  /** By score, then by member. */
  predicate Below(x: Element, y: Element) {
    x.score < y.score || (x.score == y.score && LessBytes(x.member, y.member))
  }

  predicate Ascending(s: seq<Element>) {
    forall i, j {:trigger Below(s[i], s[j])} :: 0 <= i < j < |s| ==> Below(s[i], s[j])
  }

  predicate DistinctMembers(s: seq<Element>) {
    forall i, j :: 0 <= i < j < |s| ==> s[i].member != s[j].member
  }

  lemma {:induction false} LessBytesTotal(a: Bytes, b: Bytes)
    ensures !LessBytes(a, a)
    ensures LessBytes(a, b) ==> !LessBytes(b, a)
    ensures a != b ==> LessBytes(a, b) || LessBytes(b, a)
  {
    if |a| > 0 {
      LessBytesTotal(a[1..], if |b| > 0 then b[1..] else []);
      if |b| > 0 && a[0] == b[0] && a[1..] == b[1..] {
        assert a == [a[0]] + a[1..] && b == [b[0]] + b[1..];
      }
    }
  }

  lemma {:induction false} LessBytesTransitive(a: Bytes, b: Bytes, c: Bytes)
    ensures LessBytes(a, b) && LessBytes(b, c) ==> LessBytes(a, c)
  {
    if |a| > 0 && |b| > 0 && |c| > 0 {
      LessBytesTransitive(a[1..], b[1..], c[1..]);
    }
  }

  /** The names are the same up to there, and there the first one ends or is smaller. */
  predicate DiffersAt(a: Bytes, b: Bytes, i: nat) {
    i <= |a| && i < |b| && a[..i] == b[..i] && (i < |a| ==> a[i] < b[i])
  }

  /** The first difference decides, and a prefix comes first. */
  lemma FirstDifference(a: Bytes, b: Bytes)
    ensures LessBytes(a, b) <==> exists i: nat :: DiffersAt(a, b, i)
  {
    if LessBytes(a, b) { var i := Difference(a, b); }
    if i: nat :| DiffersAt(a, b, i) { DifferenceDecides(a, b, i); }
  }

  lemma {:induction false} Difference(a: Bytes, b: Bytes) returns (i: nat)
    requires LessBytes(a, b)
    ensures DiffersAt(a, b, i)
  {
    if |a| == 0 || a[0] < b[0] {
      return 0;
    }
    i := Difference(a[1..], b[1..]);
    assert a[..i + 1] == [a[0]] + a[1..][..i] && b[..i + 1] == [b[0]] + b[1..][..i];
    i := i + 1;
  }

  lemma {:induction false} DifferenceDecides(a: Bytes, b: Bytes, i: nat)
    requires DiffersAt(a, b, i)
    ensures LessBytes(a, b)
  {
    if i > 0 {
      assert a[..i][0] == a[0] && b[..i][0] == b[0];
      assert a[1..][..i - 1] == a[..i][1..] && b[1..][..i - 1] == b[..i][1..];
      DifferenceDecides(a[1..], b[1..], i - 1);
    }
  }

  lemma BelowTotal(x: Element, y: Element)
    ensures !Below(x, x)
    ensures Below(x, y) ==> !Below(y, x)
    ensures x != y ==> Below(x, y) || Below(y, x)
  {
    LessBytesTotal(x.member, y.member);
  }

  lemma BelowTransitive(x: Element, y: Element, z: Element)
    ensures Below(x, y) && Below(y, z) ==> Below(x, z)
  {
    LessBytesTransitive(x.member, y.member, z.member);
  }

  /** The sequence without an element. */
  function Erase(s: seq<Element>, e: Element): seq<Element> {
    if |s| == 0 then []
    else if s[0] == e then Erase(s[1..], e) else [s[0]] + Erase(s[1..], e)
  }

  lemma {:induction false} EraseAbsent(s: seq<Element>, e: Element)
    requires e !in s
    ensures Erase(s, e) == s
  {
    if |s| > 0 { EraseAbsent(s[1..], e); }
  }

  /** In an ascending sequence an element stands once. */
  lemma {:induction false} EraseAt(s: seq<Element>, k: nat)
    requires Ascending(s) && k < |s|
    ensures Erase(s, s[k]) == s[..k] + s[k + 1..]
  {
    var e := s[k];
    assert Ascending(s[1..]);
    BelowTotal(e, e);
    if k == 0 {
      EraseAbsent(s[1..], e);
    } else {
      EraseAt(s[1..], k - 1);
      assert Below(s[0], s[k]);
      assert s[..k] + s[k + 1..] == [s[0]] + (s[1..][..k - 1] + s[1..][k..]);
    }
  }

  /** An element put into its place. */
  function Enter(s: seq<Element>, e: Element): seq<Element> {
    if |s| > 0 && Below(s[0], e) then [s[0]] + Enter(s[1..], e) else [e] + s
  }

  /** The one place that keeps the sequence ascending. */
  lemma {:induction false} EnterAt(s: seq<Element>, cut: nat, e: Element)
    requires cut <= |s| && Ascending(s[..cut] + [e] + s[cut..])
    ensures Enter(s, e) == s[..cut] + [e] + s[cut..]
    decreases cut
  {
    var t := s[..cut] + [e] + s[cut..];
    if cut == 0 {
      assert t[0] == e && t[1..] == s;
      if |s| > 0 {
        assert Below(t[0], t[1]);
        BelowTotal(e, s[0]);
      }
    } else {
      assert t[0] == s[0] && t[cut] == e && Below(t[0], t[cut]);
      assert t[1..] == s[1..][..cut - 1] + [e] + s[1..][cut - 1..];
      EnterAt(s[1..], cut - 1, e);
    }
  }

  lemma EnterBack(s: seq<Element>, e: Element)
    requires Ascending(s) && e in s
    ensures Enter(Erase(s, e), e) == s
  {
    var k :| 0 <= k < |s| && s[k] == e;
    EraseAt(s, k);
    CutOut(s, k);
    EnterAt(s[..k] + s[k + 1..], k, e);
  }

  lemma CutOut(s: seq<Element>, k: nat)
    requires k < |s|
    ensures var rest := s[..k] + s[k + 1..];
            rest[..k] + [s[k]] + rest[k..] == s
  {
    var rest := s[..k] + s[k + 1..];
    assert rest[..k] == s[..k] && rest[k..] == s[k + 1..];
  }

  /** The sequence without the elements of a name. */
  function EraseMember(s: seq<Element>, member: Bytes): seq<Element> {
    if |s| == 0 then []
    else if s[0].member == member then EraseMember(s[1..], member) else [s[0]] + EraseMember(s[1..], member)
  }

  lemma {:induction false} EraseOnly(s: seq<Element>, e: Element)
    requires forall x :: x in s && x.member == e.member ==> x == e
    ensures EraseMember(s, e.member) == Erase(s, e)
  {
    if |s| > 0 { EraseOnly(s[1..], e); }
  }

  lemma {:induction false} EraseUnknown(s: seq<Element>, member: Bytes)
    requires forall x :: x in s ==> x.member != member
    ensures EraseMember(s, member) == s
  {
    if |s| > 0 { EraseUnknown(s[1..], member); }
  }
}
