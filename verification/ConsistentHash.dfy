/** The hash ring that decides which cluster node runs a job. The hash function is a parameter. */
module ConsistentHash {
  import opened Strconv
  import opened Sorting

  /** `crc32.ChecksumIEEE`, or whatever function the ring was made with. */
  type HashFunction = Bytes -> nat

  /** The two fields that `Add` updates. */
  datatype Ring = Ring(keys: seq<nat>, owners: map<nat, Bytes>)

  const EMPTY := Ring([], map[])

  /** A Go map gives the empty string for a missing key. */
  function OwnerAt(owners: map<nat, Bytes>, point: nat): Bytes {
    if point in owners then owners[point] else []
  }

  /** The i-th replica of a node. */
  function Point(hash: HashFunction, name: Bytes, i: nat): nat {
    hash(FormatNat(i) + name)
  }

  /** The number of the replica is written before the name. */
  lemma PointOfReplica(hash: HashFunction)
    ensures var node: Bytes, text: Bytes := "node", "12node";
            Point(hash, node, 12) == hash(text)
  {
    var node: Bytes, text: Bytes := "node", "12node";
    assert FormatNat(12) + node == text;
  }

  /** The points a node asks for. */
  function Points(hash: HashFunction, replicas: nat, name: Bytes): set<nat> {
    set i | 0 <= i < replicas :: Point(hash, name, i)
  }

  /** One round of the inner loop: the point is taken unless somebody has it. */
  function Place(ring: Ring, point: nat, name: Bytes): Ring {
    if OwnerAt(ring.owners, point) == [] then Ring(ring.keys + [point], ring.owners[point := name]) else ring
  }

  /** The first n rounds of the inner loop for one node. */
  function PlaceNode(hash: HashFunction, ring: Ring, name: Bytes, n: nat): Ring {
    if n == 0 then ring else Place(PlaceNode(hash, ring, name, n - 1), Point(hash, name, n - 1), name)
  }

  /** The outer loop, before sorting. */
  function PlaceAll(hash: HashFunction, replicas: nat, ring: Ring, names: seq<Bytes>): Ring {
    if |names| == 0 then ring
    else PlaceNode(hash, PlaceAll(hash, replicas, ring, names[..|names| - 1]), names[|names| - 1], replicas)
  }

  function AddAll(hash: HashFunction, replicas: nat, ring: Ring, names: seq<Bytes>): Ring {
    var placed := PlaceAll(hash, replicas, ring, names);
    Ring(SortInts(placed.keys), placed.owners)
  }

  /** The keys are exactly the owned points, each once, and every point has a named owner. */
  ghost predicate Consistent(ring: Ring) {
    && Distinct(ring.keys)
    && (forall p :: p in ring.keys <==> p in ring.owners)
    && [] !in ring.owners.Values
  }

  ghost predicate Valid(ring: Ring) {
    Consistent(ring) && Sorted(ring.keys)
  }

  /** What Get needs, and what every Add keeps: the keys are sorted, and they are the owned points. */
  ghost predicate Usable(ring: Ring) {
    Sorted(ring.keys) && forall p :: p in ring.keys <==> p in ring.owners
  }

  /** p is the first point at or after h, going round the circle. */
  ghost predicate IsSuccessor(points: set<nat>, h: nat, p: nat) {
    && p in points
    && if exists q :: q in points && h <= q
       then h <= p && forall q :: q in points && h <= q ==> p <= q
       else forall q :: q in points ==> p <= q
  }

  lemma SuccessorUnique(points: set<nat>, h: nat, p: nat, q: nat)
    requires IsSuccessor(points, h, p) && IsSuccessor(points, h, q)
    ensures p == q
  {
  }

  class Map {
    const hash: HashFunction
    const replicas: nat
    var keys: seq<nat>
    var hashMap: map<nat, Bytes>

    constructor (replicas: nat, hash: HashFunction)
      ensures this.replicas == replicas && this.hash == hash && State() == EMPTY
    {
      this.replicas, this.hash := replicas, hash;
      keys, hashMap := [], map[];
    }

    function State(): Ring
      reads this
    {
      Ring(keys, hashMap)
    }

    /** `Add`: any names, repeated or empty ones included. */
    method Add(names: seq<Bytes>)
      modifies this
      ensures State() == AddAll(hash, replicas, old(State()), names)
    {
      for n := 0 to |names|
        invariant State() == PlaceAll(hash, replicas, old(State()), names[..n])
      {
        assert names[..n + 1][..n] == names[..n];
        AddNode(names[n]);
      }
      assert names[..|names|] == names;
      keys := SortInts(keys);
    }

    /** The inner loop: the points of one node. */
    method AddNode(name: Bytes)
      modifies this
      ensures State() == PlaceNode(hash, old(State()), name, replicas)
    {
      ghost var before := State();
      for i := 0 to replicas
        invariant State() == PlaceNode(hash, before, name, i)
      {
        var point := Point(hash, name, i);
        if OwnerAt(hashMap, point) == [] {
          keys := keys + [point];
          hashMap := hashMap[point := name];
        }
      }
    }

    /** `sort.Search`: the first index whose key is at least h. */
    method Search(h: nat) returns (idx: nat)
      requires Sorted(keys)
      ensures idx <= |keys|
      ensures forall i :: 0 <= i < idx ==> keys[i] < h
      ensures forall i :: idx <= i < |keys| ==> h <= keys[i]
    {
      var lo, hi := 0, |keys|;
      while lo < hi
        invariant 0 <= lo <= hi <= |keys|
        invariant forall i :: 0 <= i < lo ==> keys[i] < h
        invariant forall i :: hi <= i < |keys| ==> h <= keys[i]
      {
        var mid := (lo + hi) / 2;
        if keys[mid] >= h { hi := mid; } else { lo := mid + 1; }
      }
      idx := lo;
    }

    /** `Get`: the owner of the clockwise successor of the key, or the empty string on an empty ring. */
    method Get(key: Bytes) returns (name: Bytes)
      requires Usable(State())
      ensures keys == [] ==> name == []
      ensures keys != [] ==> exists p :: IsSuccessor(hashMap.Keys, hash(key), p) && name == hashMap[p]
    {
      if |keys| == 0 { return []; }
      var h := hash(key);
      var idx := Search(h);
      ghost var found := idx < |keys|;
      if idx == |keys| { idx := 0; }
      var p := keys[idx];
      assert forall q :: q in hashMap.Keys ==> q in keys;
      if found {
        assert p in hashMap.Keys && h <= p;
      } else {
        assert !exists q :: q in hashMap.Keys && h <= q;
      }
      assert IsSuccessor(hashMap.Keys, h, p);
      return OwnerAt(hashMap, p);
    }
  }

  // ---- What a run of Add leaves in the ring ----

  lemma PlaceKeepsConsistent(ring: Ring, point: nat, name: Bytes)
    requires Consistent(ring) && name != []
    ensures Consistent(Place(ring, point, name))
  {
    var next := Place(ring, point, name);
    if point !in ring.owners {
      assert forall p :: p in next.keys <==> p in ring.keys || p == point;
      assert next.owners.Values <= ring.owners.Values + {name};
    }
  }

  lemma {:induction false} PlaceNodeKeepsConsistent(hash: HashFunction, ring: Ring, name: Bytes, n: nat)
    requires Consistent(ring) && name != []
    ensures Consistent(PlaceNode(hash, ring, name, n))
  {
    if n > 0 {
      PlaceNodeKeepsConsistent(hash, ring, name, n - 1);
      PlaceKeepsConsistent(PlaceNode(hash, ring, name, n - 1), Point(hash, name, n - 1), name);
    }
  }

  lemma {:induction false} PlaceAllKeepsConsistent(hash: HashFunction, replicas: nat, ring: Ring, names: seq<Bytes>)
    requires Consistent(ring) && [] !in names
    ensures Consistent(PlaceAll(hash, replicas, ring, names))
  {
    if |names| > 0 {
      PlaceAllKeepsConsistent(hash, replicas, ring, names[..|names| - 1]);
      PlaceNodeKeepsConsistent(hash, PlaceAll(hash, replicas, ring, names[..|names| - 1]), names[|names| - 1], replicas);
    }
  }

  /** Adding named nodes keeps the ring sorted, without repetition, and equal to the domain of the owners. */
  lemma AddKeepsValid(hash: HashFunction, replicas: nat, ring: Ring, names: seq<Bytes>)
    requires Valid(ring) && [] !in names
    ensures Valid(AddAll(hash, replicas, ring, names))
    ensures StrictlySorted(AddAll(hash, replicas, ring, names).keys)
  {
    var placed := PlaceAll(hash, replicas, ring, names);
    PlaceAllKeepsConsistent(hash, replicas, ring, names);
    SortDistinct(placed.keys);
    SortedElements(placed.keys);
  }

  ghost predicate Owned(ring: Ring) {
    forall p :: p in ring.keys <==> p in ring.owners
  }

  lemma {:induction false} PlaceNodeKeepsOwned(hash: HashFunction, ring: Ring, name: Bytes, n: nat)
    requires Owned(ring)
    ensures Owned(PlaceNode(hash, ring, name, n))
  {
    if n > 0 {
      var before, point := PlaceNode(hash, ring, name, n - 1), Point(hash, name, n - 1);
      PlaceNodeKeepsOwned(hash, ring, name, n - 1);
      assert forall p :: p in before.keys + [point] <==> p in before.keys || p == point;
    }
  }

  lemma {:induction false} PlaceAllKeepsOwned(hash: HashFunction, replicas: nat, ring: Ring, names: seq<Bytes>)
    requires Owned(ring)
    ensures Owned(PlaceAll(hash, replicas, ring, names))
  {
    if |names| > 0 {
      PlaceAllKeepsOwned(hash, replicas, ring, names[..|names| - 1]);
      PlaceNodeKeepsOwned(hash, PlaceAll(hash, replicas, ring, names[..|names| - 1]), names[|names| - 1], replicas);
    }
  }

  /** Whatever names are added, unnamed nodes included, Get finds the owner of the clockwise successor. */
  lemma AddKeepsUsable(hash: HashFunction, replicas: nat, ring: Ring, names: seq<Bytes>)
    requires Usable(ring)
    ensures Usable(AddAll(hash, replicas, ring, names))
  {
    var placed := PlaceAll(hash, replicas, ring, names);
    PlaceAllKeepsOwned(hash, replicas, ring, names);
    SortedElements(placed.keys);
  }

  /** An unnamed node never looks taken, so its point is listed again every time. */
  lemma UnnamedNodeBreaksTheRing(hash: HashFunction)
    ensures !Valid(AddAll(hash, 1, EMPTY, [[], []]))
  {
    var p := Point(hash, [], 0);
    var names: seq<Bytes> := [[], []];
    assert PlaceAll(hash, 1, EMPTY, names[..1][..0]) == EMPTY;
    assert PlaceNode(hash, EMPTY, [], 1) == Place(EMPTY, p, []);
    assert PlaceAll(hash, 1, EMPTY, names[..1]) == Ring([p], map[p := []]);
    assert PlaceNode(hash, Ring([p], map[p := []]), [], 1) == Ring([p, p], map[p := []]);
    var owners := AddAll(hash, 1, EMPTY, names).owners;
    assert p in owners && owners[p] == [];
  }

  /** The owner of a point in a ring built from an empty one: the first node in the list that asks for it. */
  function FirstClaimer(hash: HashFunction, replicas: nat, names: seq<Bytes>, p: nat): Option<Bytes> {
    if |names| == 0 then None
    else
      var earlier := FirstClaimer(hash, replicas, names[..|names| - 1], p);
      if earlier.Some? then earlier
      else if p in Points(hash, replicas, names[|names| - 1]) then Some(names[|names| - 1])
      else None
  }

  function Lookup(owners: map<nat, Bytes>, p: nat): Option<Bytes> {
    if p in owners then Some(owners[p]) else None
  }

  lemma {:induction false} PlaceNodeOwners(hash: HashFunction, ring: Ring, name: Bytes, n: nat, p: nat)
    requires Consistent(ring) && name != []
    ensures Lookup(PlaceNode(hash, ring, name, n).owners, p)
         == if p in ring.owners then Some(ring.owners[p])
            else if p in Points(hash, n, name) then Some(name) else None
  {
    if n > 0 {
      PlaceNodeOwners(hash, ring, name, n - 1, p);
      var q := Point(hash, name, n - 1);
      assert Points(hash, n, name) == Points(hash, n - 1, name) + {q};
      var before := PlaceNode(hash, ring, name, n - 1);
      PlaceNodeKeepsConsistent(hash, ring, name, n - 1);
      assert q in before.owners ==> before.owners[q] in before.owners.Values;
    }
  }

  lemma {:induction false} OwnerIsFirstClaimer(hash: HashFunction, replicas: nat, names: seq<Bytes>, p: nat)
    requires [] !in names
    ensures Lookup(AddAll(hash, replicas, EMPTY, names).owners, p) == FirstClaimer(hash, replicas, names, p)
  {
    if |names| > 0 {
      var shorter := names[..|names| - 1];
      OwnerIsFirstClaimer(hash, replicas, shorter, p);
      PlaceAllKeepsConsistent(hash, replicas, EMPTY, shorter);
      PlaceNodeOwners(hash, PlaceAll(hash, replicas, EMPTY, shorter), names[|names| - 1], replicas, p);
    }
  }

  /** No point is asked for by two different nodes. */
  ghost predicate NoSharedPoint(hash: HashFunction, replicas: nat, nodes: set<Bytes>) {
    forall a, b :: a in nodes && b in nodes && a != b ==> Points(hash, replicas, a) !! Points(hash, replicas, b)
  }

  lemma {:induction false} ClaimerAmongUnshared(hash: HashFunction, replicas: nat, nodes: set<Bytes>, names: seq<Bytes>, p: nat)
    requires NoSharedPoint(hash, replicas, nodes) && forall x :: x in names ==> x in nodes
    ensures var c := FirstClaimer(hash, replicas, names, p);
            if c.Some? then c.value in names && p in Points(hash, replicas, c.value)
            else forall x :: x in names ==> p !in Points(hash, replicas, x)
  {
    if |names| > 0 {
      ClaimerAmongUnshared(hash, replicas, nodes, names[..|names| - 1], p);
      assert forall x :: x in names ==> x in names[..|names| - 1] || x == names[|names| - 1];
    }
  }

  /** Two lists of the same nodes build the same ring, in any order and with any repetition. */
  lemma OrderDoesNotMatter(hash: HashFunction, replicas: nat, a: seq<Bytes>, b: seq<Bytes>)
    requires [] !in a && (forall x :: x in a <==> x in b)
    requires NoSharedPoint(hash, replicas, set x | x in a)
    ensures AddAll(hash, replicas, EMPTY, a).owners == AddAll(hash, replicas, EMPTY, b).owners
  {
    var nodes := set x | x in a;
    var ra, rb := AddAll(hash, replicas, EMPTY, a).owners, AddAll(hash, replicas, EMPTY, b).owners;
    forall p ensures Lookup(ra, p) == Lookup(rb, p) {
      OwnerIsFirstClaimer(hash, replicas, a, p);
      OwnerIsFirstClaimer(hash, replicas, b, p);
      ClaimerAmongUnshared(hash, replicas, nodes, a, p);
      ClaimerAmongUnshared(hash, replicas, nodes, b, p);
    }
    SameLookups(ra, rb);
  }

  lemma SameLookups(a: map<nat, Bytes>, b: map<nat, Bytes>)
    requires forall p :: Lookup(a, p) == Lookup(b, p)
    ensures a == b
  {
    forall p ensures (p in a <==> p in b) && (p in a ==> a[p] == b[p]) {
      assert Lookup(a, p) == Lookup(b, p);
    }
  }

  ghost predicate SameClaimers(hash: HashFunction, replicas: nat, a: seq<Bytes>, b: seq<Bytes>) {
    forall p :: FirstClaimer(hash, replicas, a, p) == FirstClaimer(hash, replicas, b, p)
  }

  /** Exactly when two lists build the same ring: every point has the same first claimer in both. */
  lemma SameRingIffSameClaimers(hash: HashFunction, replicas: nat, a: seq<Bytes>, b: seq<Bytes>)
    requires [] !in a && [] !in b
    ensures AddAll(hash, replicas, EMPTY, a).owners == AddAll(hash, replicas, EMPTY, b).owners
       <==> SameClaimers(hash, replicas, a, b)
  {
    var ra, rb := AddAll(hash, replicas, EMPTY, a).owners, AddAll(hash, replicas, EMPTY, b).owners;
    forall p ensures Lookup(ra, p) == FirstClaimer(hash, replicas, a, p) {
      OwnerIsFirstClaimer(hash, replicas, a, p);
    }
    forall p ensures Lookup(rb, p) == FirstClaimer(hash, replicas, b, p) {
      OwnerIsFirstClaimer(hash, replicas, b, p);
    }
    if SameClaimers(hash, replicas, a, b) {
      SameLookups(ra, rb);
    }
  }

  /** The first name of a list gets every point that it asks for. */
  lemma {:induction false} FrontClaims(hash: HashFunction, replicas: nat, x: Bytes, names: seq<Bytes>, p: nat)
    requires p in Points(hash, replicas, x)
    ensures FirstClaimer(hash, replicas, [x] + names, p) == Some(x)
  {
    var all := [x] + names;
    if |names| == 0 {
      assert all[..0] == [] && all[0] == x;
    } else {
      assert all[..|all| - 1] == [x] + names[..|names| - 1];
      FrontClaims(hash, replicas, x, names[..|names| - 1], p);
    }
  }

  /** With a shared point, whoever of the two comes first gets it. */
  lemma SharedPointDependsOnOrder(hash: HashFunction, replicas: nat, x: Bytes, y: Bytes, names: seq<Bytes>, p: nat)
    requires x != y && x != [] && y != [] && [] !in names
    requires p in Points(hash, replicas, x) && p in Points(hash, replicas, y)
    ensures Lookup(AddAll(hash, replicas, EMPTY, [x] + names).owners, p) == Some(x)
    ensures Lookup(AddAll(hash, replicas, EMPTY, [y] + names).owners, p) == Some(y)
  {
    FrontClaims(hash, replicas, x, names, p);
    FrontClaims(hash, replicas, y, names, p);
    OwnerIsFirstClaimer(hash, replicas, [x] + names, p);
    OwnerIsFirstClaimer(hash, replicas, [y] + names, p);
  }

  ghost predicate Listing(names: seq<Bytes>, nodes: set<Bytes>) {
    forall x :: x in names <==> x in nodes
  }

  lemma {:induction false} ListingExists(nodes: set<Bytes>) returns (names: seq<Bytes>)
    ensures Listing(names, nodes)
    decreases |nodes|
  {
    names := [];
    if nodes != {} {
      var x :| x in nodes;
      var rest := ListingExists(nodes - {x});
      names := [x] + rest;
    }
  }

  ghost predicate OrderIsIrrelevant(hash: HashFunction, replicas: nat, nodes: set<Bytes>) {
    forall a, b :: Listing(a, nodes) && Listing(b, nodes) ==>
      AddAll(hash, replicas, EMPTY, a).owners == AddAll(hash, replicas, EMPTY, b).owners
  }

  lemma CommonPoint(a: set<nat>, b: set<nat>) returns (p: nat)
    requires !(a !! b)
    ensures p in a && p in b
  {
    if forall q :: q in a ==> q !in b {
      assert false;
    }
    p :| p in a && p in b;
  }

  lemma UnsharedOrder(hash: HashFunction, replicas: nat, nodes: set<Bytes>)
    requires [] !in nodes && NoSharedPoint(hash, replicas, nodes)
    ensures OrderIsIrrelevant(hash, replicas, nodes)
  {
    forall a, b | Listing(a, nodes) && Listing(b, nodes)
      ensures AddAll(hash, replicas, EMPTY, a).owners == AddAll(hash, replicas, EMPTY, b).owners
    {
      assert nodes == set x | x in a;
      OrderDoesNotMatter(hash, replicas, a, b);
    }
  }

  lemma SharedOrder(hash: HashFunction, replicas: nat, nodes: set<Bytes>, x: Bytes, y: Bytes, p: nat)
    requires [] !in nodes && x in nodes && y in nodes && x != y
    requires p in Points(hash, replicas, x) && p in Points(hash, replicas, y)
    ensures !OrderIsIrrelevant(hash, replicas, nodes)
  {
    var names := ListingExists(nodes);
    SharedPointDependsOnOrder(hash, replicas, x, y, names, p);
    assert Listing([x] + names, nodes) && Listing([y] + names, nodes);
  }

  /** All listings of a set of nodes build one ring exactly when no two of the nodes share a point. */
  lemma OrderIrrelevantIffUnshared(hash: HashFunction, replicas: nat, nodes: set<Bytes>)
    requires [] !in nodes
    ensures OrderIsIrrelevant(hash, replicas, nodes) <==> NoSharedPoint(hash, replicas, nodes)
  {
    if NoSharedPoint(hash, replicas, nodes) {
      UnsharedOrder(hash, replicas, nodes);
    } else {
      var x, y :| x in nodes && y in nodes && x != y && !(Points(hash, replicas, x) !! Points(hash, replicas, y));
      var p := CommonPoint(Points(hash, replicas, x), Points(hash, replicas, y));
      SharedOrder(hash, replicas, nodes, x, y, p);
    }
  }

  /** Adding one more node, to any valid ring and with any collisions, moves a key only to that node. */
  lemma MinimalMovement(hash: HashFunction, replicas: nat, ring: Ring, name: Bytes, h: nat, p: nat, q: nat)
    requires Valid(ring) && name != []
    requires IsSuccessor(ring.owners.Keys, h, p)
    requires IsSuccessor(AddAll(hash, replicas, ring, [name]).owners.Keys, h, q)
    ensures var after := AddAll(hash, replicas, ring, [name]).owners;
            after[q] == ring.owners[p] || after[q] == name
  {
    var names := [name];
    assert PlaceAll(hash, replicas, ring, names[..0]) == ring;
    var after := AddAll(hash, replicas, ring, names).owners;
    assert after == PlaceNode(hash, ring, name, replicas).owners;
    forall x ensures Lookup(after, x) == if x in ring.owners then Some(ring.owners[x])
                                         else if x in Points(hash, replicas, name) then Some(name) else None {
      PlaceNodeOwners(hash, ring, name, replicas, x);
    }
    assert Lookup(after, q) == Some(after[q]);
    if q in ring.owners {
      assert forall x :: x in ring.owners ==> Lookup(after, x).Some?;
      SuccessorUnique(ring.owners.Keys, h, p, q);
    }
  }
}
