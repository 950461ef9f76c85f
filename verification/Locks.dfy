/** The striped lock table: which mutexes a batch of keys takes, in what order and in what mode. */
module Locks {
  import opened Strconv
  import opened Sorting

  const PRIME32: nat := 16777619
  const OFFSET32: nat := 2166136261
  const TWO32: nat := 0x1_0000_0000

  /** Bitwise operations on natural numbers. */
  function And(a: nat, b: nat): (r: nat)
    ensures r <= a
  {
    if a == 0 || b == 0 then 0
    else 2 * And(a / 2, b / 2) + (if a % 2 == 1 && b % 2 == 1 then 1 else 0)
  }

  function Xor(a: nat, b: nat): nat
    decreases a + b
  {
    if a == 0 then b else if b == 0 then a
    else 2 * Xor(a / 2, b / 2) + (if a % 2 != b % 2 then 1 else 0)
  }

  /** The 32-bit FNV-1 hash of a key. */
  function HashOf(key: Bytes): nat {
    if |key| == 0 then OFFSET32
    else Xor(HashOf(key[..|key| - 1]) * PRIME32 % TWO32, key[|key| - 1] as nat)
  }

  function Bit(n: nat, i: nat): nat
    ensures Bit(n, i) <= 1
  {
    if i == 0 then n % 2 else Bit(n / 2, i - 1)
  }

  /** Bit by bit: one exactly where the two differ. */
  lemma {:induction false} XorBits(a: nat, b: nat, i: nat)
    ensures Bit(Xor(a, b), i) == if Bit(a, i) == Bit(b, i) then 0 else 1
    decreases a + b + i
  {
    ZeroBits(i);
    if a > 0 && b > 0 && i > 0 { XorBits(a / 2, b / 2, i - 1); }
  }

  lemma {:induction false} ZeroBits(i: nat)
    ensures Bit(0, i) == 0
  {
    if i > 0 { ZeroBits(i - 1); }
  }

  /** And one exactly where both are. */
  lemma {:induction false} AndBits(a: nat, b: nat, i: nat)
    ensures Bit(And(a, b), i) == Bit(a, i) * Bit(b, i)
    decreases a + b + i
  {
    ZeroBits(i);
    if a > 0 && b > 0 && i > 0 { AndBits(a / 2, b / 2, i - 1); }
  }

  /** The multiplication comes first: the hash of one byte, from the multiplied offset. */
  lemma HashOfOneByte()
    ensures var a: Bytes := "a"; HashOf(a) == 0x050C_5D7E
  {
    var a: Bytes, none: Bytes := "a", [];
    assert a[..0] == none;
    assert HashOf(none) * PRIME32 % TWO32 == 0x050C_5D1F;
    assert a[0] as nat == 0x61;
    XorOfByte();
  }

  lemma XorOfByte()
    ensures Xor(0x050C_5D1F, 0x61) == 0x050C_5D7E
  {
    assert Xor(1323380, 1) == 1323381;
    assert Xor(2646760, 3) == 2646763;
    assert Xor(5293521, 6) == 5293527;
    assert Xor(10587043, 12) == 10587055;
    assert Xor(21174087, 24) == 21174111;
    assert Xor(42348175, 48) == 42348223;
    assert Xor(84696351, 97) == 84696446;
  }

  /** What a batch does to one mutex: `Lock` or `RLock` (`Unlock` or `RUnlock` when releasing). */
  datatype Op = Op(index: nat, write: bool)

  function Reverse<T>(s: seq<T>): (r: seq<T>)
    ensures |r| == |s| && forall i :: 0 <= i < |s| ==> r[i] == s[|s| - 1 - i]
  {
    if |s| == 0 then [] else Reverse(s[1..]) + [s[0]]
  }

  /** Two increasing lists of the same numbers are equal. */
  lemma {:induction false} IncreasingUnique(a: seq<nat>, b: seq<nat>)
    requires StrictlySorted(a) && StrictlySorted(b)
    requires forall x :: x in a <==> x in b
    ensures a == b
  {
    if |a| > 0 || |b| > 0 {
      assert |a| > 0 ==> a[0] in b;
      assert |b| > 0 ==> b[0] in a;
      assert a[0] == b[0];
      assert forall x :: x in a[1..] <==> x in a && x != a[0];
      assert forall x :: x in b[1..] <==> x in b && x != b[0];
      IncreasingUnique(a[1..], b[1..]);
    }
  }

  /** The indices in a set, in increasing order. */
  ghost predicate Lists(s: seq<nat>, indices: set<nat>) {
    StrictlySorted(s) && forall x :: x in s <==> x in indices
  }

  /** A batch locks exactly the indices of its keys, each once, in increasing order, writing where it must. */
  ghost predicate IsPlan(plan: seq<Op>, writes: set<nat>, readSet: set<nat>) {
    && (forall i, j :: 0 <= i < j < |plan| ==> plan[i].index < plan[j].index)
    && (forall i :: 0 <= i < |plan| ==> plan[i].index in writes + readSet && (plan[i].write <==> plan[i].index in writes))
    && (forall x :: x in writes + readSet ==> exists i :: 0 <= i < |plan| && plan[i].index == x)
  }

  lemma PlanFollowsIndices(plan: seq<Op>, sorted: seq<nat>, writes: set<nat>, readSet: set<nat>)
    requires IsPlan(plan, writes, readSet) && Lists(sorted, writes + readSet)
    ensures |plan| == |sorted| && forall i :: 0 <= i < |plan| ==> plan[i] == Op(sorted[i], sorted[i] in writes)
  {
    var taken := seq(|plan|, i requires 0 <= i < |plan| => plan[i].index);
    forall x ensures x in taken <==> x in sorted {
      if x in writes + readSet {
        var i :| 0 <= i < |plan| && plan[i].index == x;
        assert taken[i] == x;
      }
    }
    IncreasingUnique(taken, sorted);
    assert forall i :: 0 <= i < |plan| ==> taken[i] == plan[i].index;
  }

  class LockTable {
    const tableSize: nat

    constructor (tableSize: nat)
      requires 0 < tableSize < TWO32
      ensures this.tableSize == tableSize
    {
      this.tableSize := tableSize;
    }

    /** `hash` then `spread`: the mutex of a key. */
    function IndexOf(key: Bytes): (i: nat)
      requires 0 < tableSize
      ensures i < tableSize
    {
      And(tableSize - 1, HashOf(key))
    }

    function IndexSet(keys: seq<Bytes>): set<nat>
      requires 0 < tableSize
    {
      set i | 0 <= i < |keys| :: IndexOf(keys[i])
    }

    method Hash(key: Bytes) returns (hash: nat)
      ensures hash == HashOf(key)
    {
      hash := OFFSET32;
      for i := 0 to |key|
        invariant hash == HashOf(key[..i])
      {
        assert key[..i + 1][..i] == key[..i];
        hash := hash * PRIME32 % TWO32;
        hash := Xor(hash, key[i] as nat);
      }
      assert key[..|key|] == key;
    }

    /** Ranging over a Go map: its keys once each, in no particular order. */
    method Elements(indexMap: set<nat>) returns (indices: seq<nat>)
      ensures Distinct(indices) && forall x :: x in indices <==> x in indexMap
    {
      indices := [];
      var left := indexMap;
      while left != {}
        invariant left <= indexMap && Distinct(indices)
        invariant forall x :: x in indices <==> x in indexMap && x !in left
        decreases left
      {
        var index :| index in left;
        assert index !in indices;
        indices := indices + [index];
        left := left - {index};
      }
    }

    /** `toLockIndices`: the indices of the keys without repetition, sorted. */
    method ToLockIndices(keys: seq<Bytes>, reverse: bool) returns (indices: seq<nat>)
      requires 0 < tableSize
      ensures Lists(if reverse then Reverse(indices) else indices, IndexSet(keys))
    {
      var indexMap: set<nat> := {};
      for n := 0 to |keys|
        invariant indexMap == IndexSet(keys[..n])
      {
        var h := Hash(keys[n]);
        indexMap := indexMap + {And(tableSize - 1, h)};
        assert forall i :: 0 <= i < n ==> keys[..n + 1][i] == keys[..n][i];
        assert keys[..n + 1][n] == keys[n];
        assert IndexSet(keys[..n + 1]) == IndexSet(keys[..n]) + {IndexOf(keys[n])};
      }
      assert keys[..|keys|] == keys;
      indices := Elements(indexMap);
      SortDistinct(indices);
      SortedElements(indices);
      indices := SortInts(indices);
      if reverse {
        ReverseTwice(indices);
        indices := Reverse(indices);
      }
    }

    /** `RWLocks`: the calls it makes, in order. */
    method RWLocks(writeKeys: seq<Bytes>, readKeys: seq<Bytes>) returns (calls: seq<Op>)
      requires 0 < tableSize
      ensures IsPlan(calls, IndexSet(writeKeys), IndexSet(readKeys))
    {
      var indices := ToLockIndices(writeKeys + readKeys, false);
      IndexSetUnion(writeKeys, readKeys);
      var writeIndexSet := IndexSet(writeKeys);
      calls := [];
      for k := 0 to |indices|
        invariant |calls| == k
        invariant forall i :: 0 <= i < k ==> calls[i] == Op(indices[i], indices[i] in writeIndexSet)
      {
        calls := calls + [Op(indices[k], indices[k] in writeIndexSet)];
      }
      forall x | x in IndexSet(writeKeys) + IndexSet(readKeys) ensures exists i :: 0 <= i < |calls| && calls[i].index == x {
        assert x in indices;
        var i :| 0 <= i < |indices| && indices[i] == x;
        assert calls[i].index == x;
      }
    }

    /** `RWUnLocks`: it undoes, last first, exactly what the plan of the same keys took, in the same modes. */
    method RWUnLocks(writeKeys: seq<Bytes>, readKeys: seq<Bytes>, ghost plan: seq<Op>) returns (calls: seq<Op>)
      requires 0 < tableSize
      requires IsPlan(plan, IndexSet(writeKeys), IndexSet(readKeys))
      ensures calls == Reverse(plan)
    {
      var indices := ToLockIndices(writeKeys + readKeys, true);
      IndexSetUnion(writeKeys, readKeys);
      var writeIndexSet := IndexSet(writeKeys);
      calls := [];
      for k := 0 to |indices|
        invariant |calls| == k
        invariant forall i :: 0 <= i < k ==> calls[i] == Op(indices[i], indices[i] in writeIndexSet)
      {
        calls := calls + [Op(indices[k], indices[k] in writeIndexSet)];
      }
      PlanFollowsIndices(plan, Reverse(indices), writeIndexSet, IndexSet(readKeys));
    }

    lemma IndexSetUnion(a: seq<Bytes>, b: seq<Bytes>)
      requires 0 < tableSize
      ensures IndexSet(a + b) == IndexSet(a) + IndexSet(b)
    {
      forall x ensures x in IndexSet(a + b) <==> x in IndexSet(a) + IndexSet(b) {
        if x in IndexSet(a) {
          var i :| 0 <= i < |a| && x == IndexOf(a[i]);
          assert (a + b)[i] == a[i];
        }
        if x in IndexSet(b) {
          var i :| 0 <= i < |b| && x == IndexOf(b[i]);
          assert (a + b)[|a| + i] == b[i];
        }
      }
    }
  }

  lemma ReverseTwice<T>(s: seq<T>)
    ensures Reverse(Reverse(s)) == s
  {
  }
}
