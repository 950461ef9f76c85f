/** What a reader of the paged list sees, and when that is the sequence that was written. */
module QuickListView {
  import opened Strconv
  import opened QuickList

  /** `Range`: from the place of `start` on, element by element. */
  method Range(ql: QuickList, start: int, stop: int) returns (slice: seq<Bytes>)
    requires ql.Valid() && 0 <= start < ql.size && start <= stop <= ql.size
    ensures var p := Place(|ql.All()|, ql.size, start);
            0 <= p && p + stop - start <= |ql.All()| && slice == ql.All()[p..p + stop - start]
  {
    var iter := new Iterator(ql, start);
    ghost var all, p := ql.All(), iter.Pos();
    slice := [];
    var i := 0;
    while i < stop - start
      invariant 0 <= i <= stop - start && p + stop - start <= |all| && slice == all[p..p + i] && iter.ql == ql
      invariant p + i < |all| ==> iter.On() && iter.Pos() == p + i
    {
      var val := iter.Get();
      assert all[p..p + i] + [val] == all[p..p + i + 1] by { Stretch(all, p, p + i); }
      slice := slice + [val];
      var inBound := iter.Next();
      i := i + 1;
    }
  }

  lemma Stretch(all: seq<Bytes>, from: nat, to: nat)
    requires from <= to < |all|
    ensures all[from..to] + [all[to]] == all[from..to + 1]
  {
  }

  /** A sequence without k elements from m on. */
  function Split(all: seq<Bytes>, m: nat, k: nat): seq<Bytes>
    requires m + k <= |all|
  {
    all[..m] + all[m + k..]
  }

  /** The elements that Get gives for the indices below the size: the surplus in the middle is passed over. */
  function View(all: seq<Bytes>, size: nat): seq<Bytes>
    requires size <= |all|
  {
    Split(all, size / 2, |all| - size)
  }

  /** A reader of any index gets the view. */
  method Read(ql: QuickList, index: int) returns (val: Bytes)
    requires ql.Valid() && 0 <= index < ql.size
    ensures val == View(ql.All(), ql.size)[index]
  {
    val := ql.Get(index);
  }

  /** How many elements there are beyond the size. */
  function Surplus(all: seq<Bytes>, size: int): int {
    |all| - size
  }

  /* ---- when a change of the flat sequence is seen as the same change of the view ---- */

  /** The first index that the view takes from behind the surplus shows what the surplus hides. */
  predicate Alike(all: seq<Bytes>, size: nat, index: nat)
    requires size <= |all| && index < size
  {
    all[index] == all[index + |all| - size]
  }

  /** A value added at the end is seen at the end exactly when the passed-over element does not move, or is alike. */
  lemma AddIsAppendIff(all: seq<Bytes>, size: nat, v: Bytes)
    requires size <= |all|
    ensures View(all + [v], size + 1) == View(all, size) + [v] <==> size % 2 == 0 || Alike(all, size, size / 2)
  {
    var m, k := size / 2, |all| - size;
    if size % 2 == 0 {
      assert (size + 1) / 2 == m;
      AppendKeepsMiddle(all, m, k, v);
    } else {
      assert (size + 1) / 2 == m + 1;
      AppendMovesMiddle(all, m, k, v);
    }
  }

  lemma AppendKeepsMiddle(all: seq<Bytes>, m: nat, k: nat, v: Bytes)
    requires m + k <= |all|
    ensures Split(all + [v], m, k) == Split(all, m, k) + [v]
  {
  }

  lemma AppendMovesMiddle(all: seq<Bytes>, m: nat, k: nat, v: Bytes)
    requires m + k < |all|
    ensures Split(all + [v], m + 1, k) == Split(all, m, k) + [v] <==> all[m] == all[m + k]
  {
    var after, wanted := Split(all + [v], m + 1, k), Split(all, m, k) + [v];
    assert after[m] == all[m] && wanted[m] == all[m + k];
    if all[m] == all[m + k] { assert after == wanted; }
  }

  /** When an insert at an index is seen as one: the middle must not move over elements that differ. */
  predicate InsertShows(all: seq<Bytes>, size: nat, index: nat, v: Bytes)
    requires index < size <= |all|
  {
    var m := size / 2;
    |all| == size ||
    (if size % 2 == 0 then index < m ==> Alike(all, size, m - 1)
     else if index == m then all[m] == v else index > m ==> Alike(all, size, m))
  }

  lemma InsertSeenIff(all: seq<Bytes>, size: nat, index: nat, v: Bytes)
    requires index < size <= |all|
    ensures var p := Place(|all|, size, index);
            && 0 <= p < |all|
            && (View(InsertAt(all, p, v), size + 1) == InsertAt(View(all, size), index, v) <==> InsertShows(all, size, index, v))
  {
    var p := Place(|all|, size, index);
    var after, wanted := View(InsertAt(all, p, v), size + 1), InsertAt(View(all, size), index, v);
    forall i | 0 <= i <= size
      ensures after[i] == wanted[i] <==> i != size / 2 || InsertShows(all, size, index, v)
    {
      InsertShown(all, size, size / 2, index, v, i);
    }
    assert after[size / 2] == wanted[size / 2] <==> InsertShows(all, size, index, v);
  }

  /** Only the element in the middle can be off. */
  lemma InsertShown(all: seq<Bytes>, size: nat, m: nat, index: nat, v: Bytes, i: nat)
    requires index < size <= |all| && i <= size && m == size / 2
    ensures var k := |all| - size;
            var p := if index < m then index else index + k;
            var after, wanted := Split(InsertAt(all, p, v), (size + 1) / 2, k), InsertAt(Split(all, m, k), index, v);
            after[i] == wanted[i] <==> i != m || InsertShows(all, size, index, v)
  {
    var k: nat := |all| - size;
    if size % 2 == 0 {
      assert (size + 1) / 2 == m;
      InsertKeepsMiddle(all, m, k, index, v, i);
    } else {
      assert (size + 1) / 2 == m + 1;
      InsertMovesMiddle(all, m, k, index, v, i);
    }
  }

  lemma SplitAt(all: seq<Bytes>, m: nat, k: nat, i: nat)
    requires m + k <= |all| && i < |all| - k
    ensures Split(all, m, k)[i] == all[if i < m then i else i + k]
  {
  }

  lemma ViewAt(all: seq<Bytes>, size: nat, i: nat)
    requires i < size <= |all|
    ensures View(all, size)[i] == all[if i < size / 2 then i else i + |all| - size]
  {
  }

  lemma InsertedAt(s: seq<Bytes>, p: nat, v: Bytes, i: nat)
    requires p <= |s| && i <= |s|
    ensures InsertAt(s, p, v)[i] == if i < p then s[i] else if i == p then v else s[i - 1]
  {
  }

  lemma InsertKeepsMiddle(all: seq<Bytes>, m: nat, k: nat, index: nat, v: Bytes, i: nat)
    requires m + k <= |all| && index < |all| - k && i <= |all| - k
    ensures var p := if index < m then index else index + k;
            var after, wanted := Split(InsertAt(all, p, v), m, k), InsertAt(Split(all, m, k), index, v);
            && |after| == |wanted| == |all| - k + 1
            && (after[i] == wanted[i] <==> i != m || index >= m || all[m - 1] == all[m - 1 + k])
  {
    var p := if index < m then index else index + k;
    SplitAt(InsertAt(all, p, v), m, k, i);
    InsertedAt(all, p, v, if i < m then i else i + k);
    InsertedAt(Split(all, m, k), index, v, i);
    if i != index { SplitAt(all, m, k, if i < index then i else i - 1); }
  }

  lemma InsertMovesMiddle(all: seq<Bytes>, m: nat, k: nat, index: nat, v: Bytes, i: nat)
    requires m + k < |all| && index < |all| - k && i <= |all| - k
    ensures var p := if index < m then index else index + k;
            var after, wanted := Split(InsertAt(all, p, v), m + 1, k), InsertAt(Split(all, m, k), index, v);
            && |after| == |wanted| == |all| - k + 1
            && (after[i] == wanted[i] <==>
                  i != m || index < m || k == 0 || (if index == m then all[m] == v else all[m] == all[m + k]))
  {
    var p := if index < m then index else index + k;
    SplitAt(InsertAt(all, p, v), m + 1, k, i);
    InsertedAt(all, p, v, if i < m + 1 then i else i + k);
    InsertedAt(Split(all, m, k), index, v, i);
    if i != index { SplitAt(all, m, k, if i < index then i else i - 1); }
  }

  /** A value replaced at an index is always seen as replaced there. */
  lemma SetSeen(all: seq<Bytes>, size: nat, index: nat, v: Bytes)
    requires index < size <= |all|
    ensures var p := Place(|all|, size, index);
            0 <= p < |all| && View(all[p := v], size) == View(all, size)[index := v]
  {
  }

  /** When the removal of the element of an index is seen as one. */
  predicate RemovalShows(all: seq<Bytes>, size: nat, index: nat)
    requires index < size <= |all|
  {
    var m := size / 2;
    if size % 2 == 1 then index < m ==> Alike(all, size, m) else index >= m ==> Alike(all, size, m - 1)
  }

  lemma RemovalSeenIff(all: seq<Bytes>, size: nat, index: nat)
    requires index < size <= |all|
    ensures var p := Place(|all|, size, index);
            && 0 <= p < |all|
            && (View(RemoveAt(all, p), size - 1) == RemoveAt(View(all, size), index) <==> RemovalShows(all, size, index))
  {
    var p := Place(|all|, size, index);
    var after, wanted := View(RemoveAt(all, p), size - 1), RemoveAt(View(all, size), index);
    forall i | 0 <= i < size - 1
      ensures after[i] == wanted[i] <==> i != size / 2 - 1 || RemovalShows(all, size, index)
    {
      RemovalShown(all, size, index, i);
    }
    if size > 1 { assert after[size / 2 - 1] == wanted[size / 2 - 1] <==> RemovalShows(all, size, index); }
  }

  lemma RemovedAt(s: seq<Bytes>, p: nat, i: nat)
    requires p < |s| && i < |s| - 1
    ensures RemoveAt(s, p)[i] == if i < p then s[i] else s[i + 1]
  {
  }

  lemma RemovalShown(all: seq<Bytes>, size: nat, index: nat, i: nat)
    requires index < size <= |all| && i < size - 1
    ensures var p := Place(|all|, size, index);
            var after, wanted := View(RemoveAt(all, p), size - 1), RemoveAt(View(all, size), index);
            && 0 <= p < |all| && |after| == |wanted| == size - 1
            && (after[i] == wanted[i] <==> i != size / 2 - 1 || RemovalShows(all, size, index))
  {
    var m, k, p := size / 2, |all| - size, Place(|all|, size, index);
    if size % 2 == 1 {
      assert (size - 1) / 2 == m;
      RemovalKeepsMiddle(all, m, k, index, i);
    } else {
      assert (size - 1) / 2 == m - 1;
      RemovalMovesMiddle(all, m, k, index, i);
    }
  }

  lemma RemovalKeepsMiddle(all: seq<Bytes>, m: nat, k: nat, index: nat, i: nat)
    requires m + k < |all| && index < |all| - k && i < |all| - k - 1
    ensures var p := if index < m then index else index + k;
            var after, wanted := Split(RemoveAt(all, p), m, k), RemoveAt(Split(all, m, k), index);
            && |after| == |wanted| == |all| - k - 1
            && (after[i] == wanted[i] <==> i != m - 1 || index >= m || all[m] == all[m + k])
  {
    var p := if index < m then index else index + k;
    SplitAt(RemoveAt(all, p), m, k, i);
    RemovedAt(all, p, if i < m then i else i + k);
    RemovedAt(Split(all, m, k), index, i);
    SplitAt(all, m, k, if i < index then i else i + 1);
  }

  lemma RemovalMovesMiddle(all: seq<Bytes>, m: nat, k: nat, index: nat, i: nat)
    requires 0 < m && m + k <= |all| && index < |all| - k && i < |all| - k - 1
    ensures var p := if index < m then index else index + k;
            var after, wanted := Split(RemoveAt(all, p), m - 1, k), RemoveAt(Split(all, m, k), index);
            && |after| == |wanted| == |all| - k - 1
            && (after[i] == wanted[i] <==> i != m - 1 || index < m || all[m - 1] == all[m - 1 + k])
  {
    var p := if index < m then index else index + k;
    SplitAt(RemoveAt(all, p), m - 1, k, i);
    RemovedAt(all, p, if i < m - 1 then i else i + k);
    RemovedAt(Split(all, m, k), index, i);
    SplitAt(all, m, k, if i < index then i else i + 1);
  }

  /** The last element is taken off the end of the view exactly when the view loses none from its middle. */
  lemma RemoveLastSeenIff(all: seq<Bytes>, size: nat)
    requires 0 < size <= |all|
    ensures View(all[..|all| - 1], size - 1) == View(all, size)[..size - 1] <==> RemovalShows(all, size, size - 1)
  {
    RemovalSeenIff(all, size, size - 1);
    LastGoes(all, size);
  }

  lemma LastGoes(all: seq<Bytes>, size: nat)
    requires 0 < size <= |all|
    ensures Place(|all|, size, size - 1) == |all| - 1
    ensures RemoveAt(all, |all| - 1) == all[..|all| - 1] && RemoveAt(View(all, size), size - 1) == View(all, size)[..size - 1]
  {
  }

  /** A range is seen as it is exactly when it does not run from one half into the other over differing elements. */
  lemma RangeSeenIff(all: seq<Bytes>, size: nat, start: nat, stop: nat)
    requires start < size <= |all| && start <= stop <= size
    ensures var p := Place(|all|, size, start);
            && 0 <= p <= p + stop - start <= |all|
            && (all[p..p + stop - start] == View(all, size)[start..stop]
                <==> start >= size / 2 || forall i :: size / 2 <= i < stop ==> Alike(all, size, i))
  {
    var p := Place(|all|, size, start);
    var got, wanted := all[p..p + stop - start], View(all, size)[start..stop];
    forall i | 0 <= i < stop - start
      ensures got[i] == wanted[i] <==> start >= size / 2 || start + i < size / 2 || Alike(all, size, start + i)
    {
      ViewAt(all, size, start + i);
    }
    if start < size / 2 {
      forall i | size / 2 <= i < stop ensures got[i - start] == wanted[i - start] <==> Alike(all, size, i) {
      }
      assert got == wanted ==> forall i :: size / 2 <= i < stop ==> Alike(all, size, i);
    }
  }

  /* ---- the surplus ---- */

  datatype Change = Adding(v: Bytes) | Inserting(index: int, v: Bytes) | Setting(index: int, v: Bytes) | RemovingLast

  /** A change whose index is out of bounds panics and does nothing here. */
  method Apply(ql: QuickList, change: Change)
    requires ql.Valid() && ql.pages != [] && ql.size >= 0
    modifies ql
    ensures ql.Valid() && ql.size >= 0
    ensures Surplus(ql.All(), ql.size) == Surplus(old(ql.All()), old(ql.size))
    ensures ql.pages == [] ==> Surplus(ql.All(), ql.size) == 0
  {
    match change {
      case Adding(v) => ql.Add(v);
      case Inserting(index, v) => if 0 <= index <= ql.size { ql.Insert(index, v); }
      case Setting(index, v) => if 0 <= index < ql.size { ql.Set(index, v); }
      case RemovingLast => var val := ql.RemoveLast();
    }
  }

  /**
   * After a first value, any changes: the list always holds exactly one element more than its size says, even when its
   * size is back to 0, and so it never counts as empty again.
   */
  method SurplusForever(first: Bytes, changes: seq<Change>) returns (ql: QuickList)
    ensures ql.Valid() && Surplus(ql.All(), ql.size) == 1 && ql.pages != []
  {
    ql := new QuickList();
    ql.Add(first);
    HasPages(ql);
    for i := 0 to |changes|
      invariant ql.Valid() && ql.size >= 0 && Surplus(ql.All(), ql.size) == 1 && ql.pages != [] && fresh(ql)
    {
      Apply(ql, changes[i]);
      HasPages(ql);
    }
  }

  lemma HasPages(ql: QuickList)
    requires |ql.All()| > 0
    ensures ql.pages != []
  {
  }

  /** Four values pushed at the end of a new list: the second one is not seen, the first one twice. */
  method FourPushes(a: Bytes, b: Bytes, c: Bytes, d: Bytes) returns (ql: QuickList, ghost seen: seq<Bytes>)
    ensures ql.Valid() && ql.size == 4 && ql.All() == [a, a, b, c, d] && seen == View(ql.All(), 4) == [a, a, c, d]
  {
    ql := new QuickList();
    ql.Add(a);
    NotEmpty(ql.pages, a);
    ql.Add(b);
    NotEmpty(ql.pages, a);
    ql.Add(c);
    NotEmpty(ql.pages, a);
    ql.Add(d);
    seen := [a, a, c, d];
  }

  lemma NotEmpty(pages: seq<Page>, a: Bytes)
    requires a in Flat(pages)
    ensures pages != []
  {
  }

  /** A value pushed at the head of a list of one goes into the gap, and is not seen. */
  method HeadPushIsLost(a: Bytes, b: Bytes) returns (ql: QuickList, ghost seen: seq<Bytes>)
    ensures ql.Valid() && ql.size == 2 && ql.All() == [a, b, a] && seen == View(ql.All(), 2) == [a, a]
  {
    ql := new QuickList();
    ql.Insert(0, a);
    ql.Insert(0, b);
    seen := [a, a];
  }
}
