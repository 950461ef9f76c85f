/** The paged list, its iterator, and the flat sequence that its pages hold. */
module QuickList {
  import opened Strconv

  const PAGE_SIZE: nat := 1024

  /** A page is a Go slice; how much `append` grows its capacity is left open. */
  datatype Page = Page(items: seq<Bytes>, cap: nat)

  function Flat(pages: seq<Page>): seq<Bytes> {
    if |pages| == 0 then [] else pages[0].items + Flat(pages[1..])
  }

  /** The place of the first element of page n. */
  function Start(pages: seq<Page>, n: nat): nat
    requires n <= |pages|
  {
    |Flat(pages[..n])|
  }

  predicate Shaped(pages: seq<Page>) {
    forall i :: 0 <= i < |pages| ==> 0 < |pages[i].items| <= pages[i].cap
  }

  lemma {:induction false} FlatAppend(a: seq<Page>, b: seq<Page>)
    ensures Flat(a + b) == Flat(a) + Flat(b)
  {
    if |a| == 0 {
      assert a + b == b;
    } else {
      assert (a + b)[1..] == a[1..] + b;
      FlatAppend(a[1..], b);
    }
  }

  lemma FlatOne(p: Page)
    ensures Flat([p]) == p.items
  {
    assert [p][1..] == [];
  }

  /** The flat sequence around page n. */
  lemma AroundPage(pages: seq<Page>, n: nat)
    requires n < |pages|
    ensures Flat(pages) == Flat(pages[..n]) + pages[n].items + Flat(pages[n + 1..])
    ensures Start(pages, n + 1) == Start(pages, n) + |pages[n].items| <= |Flat(pages)|
    ensures |Flat(pages)| == Start(pages, n + 1) + |Flat(pages[n + 1..])|
  {
    assert pages == pages[..n] + [pages[n]] + pages[n + 1..];
    assert pages[..n + 1] == pages[..n] + [pages[n]];
    FlatAppend(pages[..n] + [pages[n]], pages[n + 1..]);
    FlatAppend(pages[..n], [pages[n]]);
    FlatOne(pages[n]);
  }

  lemma StartOfAll(pages: seq<Page>)
    ensures Start(pages, |pages|) == |Flat(pages)| && Start(pages, 0) == 0
  {
    assert pages[..|pages|] == pages;
  }

  /** Pages put in the place of one page. */
  lemma ReplacePage(pages: seq<Page>, n: nat, new_: seq<Page>)
    requires n < |pages|
    ensures Flat(pages[..n] + new_ + pages[n + 1..]) == Flat(pages[..n]) + Flat(new_) + Flat(pages[n + 1..])
  {
    FlatAppend(pages[..n] + new_, pages[n + 1..]);
    FlatAppend(pages[..n], new_);
  }

  lemma {:induction false} EmptyFlat(pages: seq<Page>)
    requires Shaped(pages)
    ensures Flat(pages) == [] <==> pages == []
  {
  }

  function InsertAt(s: seq<Bytes>, p: nat, v: Bytes): seq<Bytes>
    requires p <= |s|
  {
    s[..p] + [v] + s[p..]
  }

  function RemoveAt(s: seq<Bytes>, p: nat): seq<Bytes>
    requires p < |s|
  {
    s[..p] + s[p + 1..]
  }

  /** Where `find` ends up: the back half is counted from the end. */
  function Place(total: nat, size: int, index: int): int {
    if index < size / 2 then index else index + (total - size)
  }

  class QuickList {
    var pages: seq<Page>
    var size: int

    /** All elements that the pages hold. There can be more of them than `size` says. */
    ghost function All(): seq<Bytes>
      reads this`pages
    {
      Flat(pages)
    }

    ghost predicate Valid()
      reads this
    {
      Shaped(pages) && size <= |All()|
    }

    constructor ()
      ensures Valid() && pages == [] && size == 0
    {
      pages, size := [], 0;
    }

    /** `Add`. On an empty list the value goes in twice: there is no return after the first page. */
    method Add(val: Bytes)
      requires Valid()
      modifies this
      ensures Valid() && size == old(size) + 1
      ensures All() == if old(pages) == [] then [val, val] else old(All()) + [val]
    {
      size := size + 1;
      if |pages| == 0 {
        pages := [Page([val], PAGE_SIZE)];
      }
      ghost var before := pages;
      var last := |pages| - 1;
      var backPage := pages[last];
      if |backPage.items| == backPage.cap {
        pages := pages + [Page([val], PAGE_SIZE)];
        FlatAppend(before, [Page([val], PAGE_SIZE)]);
        FlatOne(Page([val], PAGE_SIZE));
        return;
      }
      var longer := backPage.(items := backPage.items + [val]);
      pages := pages[..last] + [longer];
      AroundPage(before, last);
      FlatAppend(before[..last], [longer]);
      FlatOne(longer);
      assert before[last + 1..] == [];
      assert before == [] + [before[0]] || |before| > 1;
    }

    /** `find`: from the front in the first half, from the back in the second. */
    method Find(index: int) returns (node: nat, offset: nat)
      requires Valid() && 0 <= index < size
      ensures node < |pages| && offset < |pages[node].items|
      ensures Start(pages, node) + offset == Place(|All()|, size, index)
    {
      StartOfAll(pages);
      if index < size / 2 {
        node := 0;
        var pageBeg := 0;
        while pageBeg + |pages[node].items| <= index
          invariant node < |pages| && pageBeg == Start(pages, node) <= index
          decreases |pages| - node
        {
          AroundPage(pages, node);
          pageBeg := pageBeg + |pages[node].items|;
          node := node + 1;
        }
        offset := index - pageBeg;
      } else {
        node := |pages| - 1;
        AroundPage(pages, node);
        var pageBeg := size - |pages[node].items|;
        while pageBeg > index
          invariant node < |pages| && pageBeg == Start(pages, node) - (|All()| - size)
          invariant index < pageBeg + |pages[node].items|
          decreases node
        {
          node := node - 1;
          AroundPage(pages, node);
          pageBeg := pageBeg - |pages[node].items|;
        }
        offset := index - pageBeg;
      }
    }

    method Get(index: int) returns (val: Bytes)
      requires Valid() && 0 <= index < size
      ensures 0 <= Place(|All()|, size, index) < |All()| && val == All()[Place(|All()|, size, index)]
    {
      var node, offset := Find(index);
      AroundPage(pages, node);
      val := pages[node].items[offset];
    }

    method Set(index: int, val: Bytes)
      requires Valid() && 0 <= index < size
      modifies this`pages
      ensures Valid() && 0 <= Place(|old(All())|, size, index) < |old(All())|
      ensures All() == old(All())[Place(|old(All())|, size, index) := val]
    {
      var node, offset := Find(index);
      ghost var before := pages;
      AroundPage(before, node);
      var page := pages[node].(items := pages[node].items[offset := val]);
      pages := pages[..node] + [page] + pages[node + 1..];
      ReplacePage(before, node, [page]);
      FlatOne(page);
      SetInMiddle(Flat(before[..node]), before[node].items, Flat(before[node + 1..]), offset, val);
    }

    /** `Insert`, which splits a full page. */
    method Insert(index: int, val: Bytes)
      requires Valid() && 0 <= index <= size
      modifies this
      ensures Valid() && size == old(size) + 1
      ensures index == old(size) ==> All() == if old(pages) == [] then [val, val] else old(All()) + [val]
      ensures index < old(size) ==>
        && 0 <= Place(|old(All())|, old(size), index) < |old(All())|
        && All() == InsertAt(old(All()), Place(|old(All())|, old(size), index), val)
    {
      if index == size {
        Add(val);
        return;
      }
      var node, offset := Find(index);
      if |pages[node].items| < PAGE_SIZE {
        InsertInPage(node, offset, val);
      } else {
        InsertAndSplit(node, offset, val);
      }
    }

    method InsertInPage(node: nat, offset: nat, val: Bytes)
      requires Valid() && node < |pages| && offset < |pages[node].items|
      modifies this
      ensures Shaped(pages) && size == old(size) + 1
      ensures Start(old(pages), node) + offset < |old(All())| && |All()| == |old(All())| + 1
      ensures All() == InsertAt(old(All()), Start(old(pages), node) + offset, val)
    {
      ghost var before := pages;
      AroundPage(before, node);
      var page := pages[node];
      var cap := GrownCap(page);
      page := Page(page.items[..offset] + [val] + page.items[offset..], cap);
      pages := pages[..node] + [page] + pages[node + 1..];
      size := size + 1;
      ReplacePage(before, node, [page]);
      FlatOne(page);
      InsertInMiddle(Flat(before[..node]), before[node].items, Flat(before[node + 1..]), offset, val);
    }

    /** The capacity after one more append. */
    method GrownCap(page: Page) returns (cap: nat)
      ensures cap > |page.items| && cap >= page.cap
    {
      if |page.items| < page.cap { return page.cap; }
      cap :| cap > |page.items| && cap >= page.cap;
    }

    method InsertAndSplit(node: nat, offset: nat, val: Bytes)
      requires Valid() && node < |pages| && offset < |pages[node].items| && |pages[node].items| >= PAGE_SIZE
      modifies this
      ensures Shaped(pages) && size == old(size) + 1
      ensures Start(old(pages), node) + offset < |old(All())| && |All()| == |old(All())| + 1
      ensures All() == InsertAt(old(All()), Start(old(pages), node) + offset, val)
    {
      ghost var before := pages;
      AroundPage(before, node);
      var all, half := pages[node].items, PAGE_SIZE / 2;
      var page, nextPage := all[..half], all[half..];
      if offset < half {
        page := page[..offset] + [val] + page[offset..];
      } else {
        var i := offset - half;
        nextPage := nextPage[..i] + [val] + nextPage[i..];
      }
      SplitInsert(all, half, offset, val);
      var nextCap: nat :| nextCap >= |nextPage|;
      var first, second := Page(page, pages[node].cap), Page(nextPage, nextCap);
      SplitPages(before, node, first, second, offset, val);
      pages := pages[..node] + [first, second] + pages[node + 1..];
      size := size + 1;
    }

    /** `RemoveLast`; nothing comes out of a list of size 0. */
    method RemoveLast() returns (val: Option<Bytes>)
      requires Valid() && size >= 0
      modifies this
      ensures old(size) == 0 ==> val == None && pages == old(pages) && size == 0
      ensures old(size) > 0 ==>
        && Valid() && size == old(size) - 1 && |old(All())| > 0
        && val == Some(old(All())[|old(All())| - 1]) && All() == old(All())[..|old(All())| - 1]
    {
      if size == 0 { return None; }
      ghost var before := pages;
      size := size - 1;
      var last := |pages| - 1;
      AroundPage(before, last);
      assert before[last + 1..] == [];
      var lastPage := pages[last].items;
      if |lastPage| == 1 {
        pages := pages[..last];
        return Some(lastPage[0]);
      }
      var shorter := pages[last].(items := lastPage[..|lastPage| - 1]);
      pages := pages[..last] + [shorter];
      FlatAppend(before[..last], [shorter]);
      FlatOne(shorter);
      return Some(lastPage[|lastPage| - 1]);
    }
  }

  lemma InsertInMiddle(a: seq<Bytes>, b: seq<Bytes>, c: seq<Bytes>, offset: nat, val: Bytes)
    requires offset <= |b|
    ensures a + (b[..offset] + [val] + b[offset..]) + c == InsertAt(a + b + c, |a| + offset, val)
  {
  }

  lemma SetInMiddle(a: seq<Bytes>, b: seq<Bytes>, c: seq<Bytes>, offset: nat, val: Bytes)
    requires offset < |b|
    ensures a + b[offset := val] + c == (a + b + c)[|a| + offset := val]
  {
  }

  lemma RemoveInMiddle(a: seq<Bytes>, b: seq<Bytes>, c: seq<Bytes>, offset: nat)
    requires offset < |b|
    ensures a + RemoveAt(b, offset) + c == RemoveAt(a + b + c, |a| + offset)
    ensures (a + b + c)[|a| + offset] == b[offset]
  {
  }

  /** A value put into one half of a page that is being split. */
  lemma SplitInsert(all: seq<Bytes>, half: nat, offset: nat, val: Bytes)
    requires half <= |all| && offset < |all|
    ensures var page, nextPage := all[..half], all[half..];
            (if offset < half then (page[..offset] + [val] + page[offset..]) + nextPage
             else page + (nextPage[..offset - half] + [val] + nextPage[offset - half..]))
            == all[..offset] + [val] + all[offset..]
  {
  }

  /** Two pages in the place of one, with a value more. */
  lemma SplitPages(pages: seq<Page>, n: nat, first: Page, second: Page, offset: nat, val: Bytes)
    requires Shaped(pages) && n < |pages| && offset < |pages[n].items|
    requires first.items + second.items == pages[n].items[..offset] + [val] + pages[n].items[offset..]
    requires 0 < |first.items| <= first.cap && 0 < |second.items| <= second.cap
    ensures var after := pages[..n] + [first, second] + pages[n + 1..];
            && Shaped(after) && Start(pages, n) + offset < |Flat(pages)|
            && Flat(after) == InsertAt(Flat(pages), Start(pages, n) + offset, val)
  {
    AroundPage(pages, n);
    ReplacePage(pages, n, [first, second]);
    assert [first, second] == [first] + [second];
    FlatAppend([first], [second]);
    FlatOne(first);
    FlatOne(second);
    InsertInMiddle(Flat(pages[..n]), pages[n].items, Flat(pages[n + 1..]), offset, val);
  }

  /** The length of the last page. */
  function LastLength(pages: seq<Page>): nat {
    if |pages| == 0 then 0 else |pages[|pages| - 1].items|
  }

  class Iterator {
    const ql: QuickList
    var node: Option<nat>
    var offset: int

    /** The iterator stands on an element. */
    ghost predicate On()
      reads this, ql`pages
    {
      node.Some? && node.value < |ql.pages| && 0 <= offset < |ql.pages[node.value].items|
    }

    ghost function Pos(): int
      requires node.Some? && node.value <= |ql.pages|
      reads this, ql`pages
    {
      Start(ql.pages, node.value) + offset
    }

    predicate AtEnd()
      reads this, ql`pages
    {
      var n := |ql.pages|;
      n == 0 || (node == Some(n - 1) && offset == |ql.pages[n - 1].items|)
    }

    predicate AtBegin()
      reads this, ql`pages
    {
      |ql.pages| == 0 || (node == Some(0) && offset == -1)
    }

    /** `find`. */
    constructor (list: QuickList, index: int)
      requires list.Valid() && 0 <= index < list.size
      ensures ql == list && On() && Pos() == Place(|list.All()|, list.size, index) < |list.All()|
    {
      ql := list;
      node, offset := None, 0;
      new;
      var n, o := list.Find(index);
      node, offset := Some(n), o;
      AroundPage(ql.pages, n);
    }

    method Get() returns (val: Bytes)
      requires On()
      ensures 0 <= Pos() < |ql.All()| && val == ql.All()[Pos()]
    {
      AroundPage(ql.pages, node.value);
      val := ql.pages[node.value].items[offset];
    }

    method Next() returns (inBound: bool)
      requires On() && Shaped(ql.pages)
      modifies this
      ensures inBound <==> old(Pos()) + 1 < |ql.All()|
      ensures inBound ==> On() && Pos() == old(Pos()) + 1
      ensures !inBound ==> AtEnd() && node.Some?
    {
      var n := node.value;
      var page := ql.pages[n].items;
      AroundPage(ql.pages, n);
      if offset < |page| - 1 {
        offset := offset + 1;
        return true;
      }
      if n == |ql.pages| - 1 {
        assert ql.pages[n + 1..] == [];
        offset := |page|;
        return false;
      }
      AroundPage(ql.pages, n + 1);
      offset := 0;
      node := Some(n + 1);
      return true;
    }

    method Prev() returns (inBound: bool)
      requires node.Some? && node.value < |ql.pages| && 0 <= offset <= |ql.pages[node.value].items| && Shaped(ql.pages)
      modifies this
      ensures inBound <==> old(Pos()) > 0
      ensures inBound ==> On() && Pos() == old(Pos()) - 1
      ensures !inBound ==> AtBegin()
    {
      var n := node.value;
      if offset > 0 {
        offset := offset - 1;
        return true;
      }
      if n == 0 {
        StartOfAll(ql.pages);
        offset := -1;
        return false;
      }
      AroundPage(ql.pages, n - 1);
      node := Some(n - 1);
      offset := |ql.pages[n - 1].items| - 1;
      return true;
    }

    /** `remove`. When the last page is emptied the iterator has no page any more, although others may be left. */
    method Remove() returns (val: Bytes)
      requires On() && Shaped(ql.pages)
      modifies this, ql
      ensures Shaped(ql.pages) && ql.size == old(ql.size) - 1
      ensures 0 <= old(Pos()) < |old(ql.All())| && val == old(ql.All())[old(Pos())]
      ensures ql.All() == RemoveAt(old(ql.All()), old(Pos()))
      ensures var p, last := old(Pos()), LastLength(old(ql.pages));
              var gone := p + 1 == |old(ql.All())| && last == 1;
              && (gone ==> node == None)
              && (!gone && p < |ql.All()| ==> On() && Pos() == p)
              && (!gone && p == |ql.All()| ==> AtEnd() && node.Some? && ql.pages != [] && Pos() == p)
              && (!gone ==> LastLength(ql.pages) == if p < |old(ql.All())| - last then last else last - 1)
    {
      var n := node.value;
      ghost var before, p := ql.pages, Pos();
      var page := ql.pages[n].items;
      val := page[offset];
      WithoutElement(before, n, offset);
      page := page[..offset] + page[offset + 1..];
      ql.size := ql.size - 1;
      if |page| > 0 {
        KeepPage(n, page);
      } else {
        DropPage(n);
        LastAfterDrop(before, n);
      }
    }

    /** The page has elements left. */
    method KeepPage(n: nat, page: seq<Bytes>)
      requires On() && Shaped(ql.pages) && node == Some(n) && page == RemoveAt(ql.pages[n].items, offset) && |page| > 0
      modifies this, ql`pages
      ensures Shaped(ql.pages) && |ql.pages| == |old(ql.pages)|
      ensures ql.All() == Flat(old(ql.pages)[..n]) + page + Flat(old(ql.pages)[n + 1..])
      ensures LastLength(ql.pages) == if n == |old(ql.pages)| - 1 then |page| else LastLength(old(ql.pages))
      ensures node.Some? && node.value < |ql.pages| && Pos() == old(Pos())
      ensures if old(Pos()) < |ql.All()| then On() else AtEnd()
    {
      ghost var before := ql.pages;
      var kept := ql.pages[n].(items := page);
      ql.pages := ql.pages[..n] + [kept] + ql.pages[n + 1..];
      ReplacePage(before, n, [kept]);
      FlatOne(kept);
      AroundPage(ql.pages, n);
      assert ql.pages[..n] == before[..n] && ql.pages[n + 1..] == before[n + 1..];
      if offset == |page| {
        if n != |ql.pages| - 1 {
          AroundPage(ql.pages, n + 1);
          node := Some(n + 1);
          offset := 0;
        } else {
          assert ql.pages[n + 1..] == [];
        }
      }
    }

    /** The page was emptied and goes away. */
    method DropPage(n: nat)
      requires On() && Shaped(ql.pages) && node == Some(n) && offset == 0 && |ql.pages[n].items| == 1
      modifies this, ql`pages
      ensures Shaped(ql.pages) && ql.pages == old(ql.pages)[..n] + old(ql.pages)[n + 1..]
      ensures ql.All() == Flat(old(ql.pages)[..n]) + Flat(old(ql.pages)[n + 1..])
      ensures if n == |old(ql.pages)| - 1 then node == None else On() && Pos() == old(Pos())
    {
      ghost var before := ql.pages;
      var wasBack := n == |ql.pages| - 1;
      ql.pages := ql.pages[..n] + ql.pages[n + 1..];
      FlatAppend(before[..n], before[n + 1..]);
      if wasBack {
        node := None;
      } else {
        assert ql.pages[..n] == before[..n];
      }
      offset := 0;
    }
  }

  /** The flat sequence without one element, seen from its page. */
  lemma WithoutElement(pages: seq<Page>, n: nat, offset: nat)
    requires Shaped(pages) && n < |pages| && offset < |pages[n].items|
    ensures var all, p, page, last := Flat(pages), Start(pages, n) + offset, RemoveAt(pages[n].items, offset), LastLength(pages);
            && p < |all| && all[p] == pages[n].items[offset]
            && RemoveAt(all, p) == Flat(pages[..n]) + page + Flat(pages[n + 1..])
            && (page == [] ==> RemoveAt(all, p) == Flat(pages[..n]) + Flat(pages[n + 1..]))
            && (n == |pages| - 1 <==> p >= |all| - last)
            && (n == |pages| - 1 && page == [] <==> p + 1 == |all| && last == 1)
  {
    AroundPage(pages, n);
    RemoveInMiddle(Flat(pages[..n]), pages[n].items, Flat(pages[n + 1..]), offset);
    LastPageIs(pages, n, offset);
    NothingMore(Flat(pages[..n]));
  }

  lemma LastAfterDrop(pages: seq<Page>, n: nat)
    requires n < |pages|
    ensures n < |pages| - 1 ==> LastLength(pages[..n] + pages[n + 1..]) == LastLength(pages)
  {
  }

  /** Where an element stands with respect to the last page. */
  lemma LastPageIs(pages: seq<Page>, n: nat, offset: nat)
    requires Shaped(pages) && n < |pages| && offset < |pages[n].items|
    ensures LastLength(pages) <= |Flat(pages)|
    ensures n == |pages| - 1 <==> Start(pages, n) + offset >= |Flat(pages)| - LastLength(pages)
    ensures n == |pages| - 1 ==> Start(pages, n) == |Flat(pages)| - LastLength(pages)
    ensures n < |pages| - 1 ==> Flat(pages[n + 1..]) != []
  {
    var last := |pages| - 1;
    AroundLast(pages);
    Within(pages, n);
    if n < last { MorePages(pages, n); }
  }

  lemma MorePages(pages: seq<Page>, n: nat)
    requires Shaped(pages) && n + 1 < |pages|
    ensures Start(pages, n + 1) <= Start(pages, |pages| - 1) && Flat(pages[n + 1..]) != []
  {
    StartGrows(pages, n + 1, |pages| - 1);
    EmptyFlat(pages[n + 1..]);
  }

  lemma AroundLast(pages: seq<Page>)
    requires |pages| > 0
    ensures var last := |pages| - 1;
            Start(pages, last) + |pages[last].items| == |Flat(pages)| && |pages[last].items| == LastLength(pages)
  {
    AroundPage(pages, |pages| - 1);
    StartOfAll(pages);
  }

  lemma Within(pages: seq<Page>, n: nat)
    requires n < |pages|
    ensures Start(pages, n + 1) == Start(pages, n) + |pages[n].items|
  {
    AroundPage(pages, n);
  }

  lemma {:induction false} StartGrows(pages: seq<Page>, i: nat, j: nat)
    requires i <= j <= |pages|
    ensures Start(pages, i) <= Start(pages, j)
    decreases j - i
  {
    if i < j {
      Within(pages, i);
      StartGrows(pages, i + 1, j);
    }
  }
}
