/** A cluster node: it rebuilds its ring from the scanned node list and runs the jobs the ring gives it. */
module MultiNode {
  import opened Strconv
  import opened ConsistentHash

  const REPLICA_COUNT: nat := 50

  datatype SyncState = LostSync | KeepAlive

  /** The answer of one SCAN. The loop always asks from cursor 0, because it declares a new cursor inside. */
  datatype ScanReply = Page(keys: seq<Bytes>, cursor: nat) | ScanError

  predicate Ends(reply: ScanReply) {
    reply.ScanError? || reply.cursor == 0
  }

  /** The list and the error flag when the loop is left, for the successive answers. */
  function Scanned(replies: seq<ScanReply>, list: seq<Bytes>): (r: (seq<Bytes>, bool))
    requires exists i :: 0 <= i < |replies| && Ends(replies[i])
  {
    match replies[0]
    case ScanError => ([], true)
    case Page(keys, cursor) => if cursor == 0 then (list + keys, false) else Scanned(replies[1..], list + keys)
  }

  function AllKeys(pages: seq<ScanReply>): seq<Bytes>
    requires forall i :: 0 <= i < |pages| ==> pages[i].Page?
  {
    if |pages| == 0 then [] else pages[0].keys + AllKeys(pages[1..])
  }

  /** The list holds the keys of all pages up to the one without a cursor, in their order; an error empties it. */
  lemma {:induction false} PagesAreJoined(replies: seq<ScanReply>, list: seq<Bytes>, n: nat)
    requires n < |replies| && Ends(replies[n]) && forall i :: 0 <= i < n ==> !Ends(replies[i])
    ensures Scanned(replies, list)
         == if replies[n].ScanError? then ([], true) else (list + AllKeys(replies[..n + 1]), false)
    decreases n
  {
    assert replies[..n + 1][0] == replies[0];
    if n == 0 {
      if replies[0].Page? {
        assert replies[..1][1..] == [];
        NothingMore(replies[0].keys);
      }
    } else {
      assert replies[1..][n - 1] == replies[n] && replies[..n + 1][1..] == replies[1..][..n];
      PagesAreJoined(replies[1..], list + replies[0].keys, n - 1);
      if replies[n].Page? { Regroup(list, replies[0].keys, AllKeys(replies[1..][..n])); }
    }
  }

  class MultiNodeSchedule {
    const NodeId: Bytes
    const hash: HashFunction
    var consistentMap: Map
    var state: SyncState

    constructor (nodeId: Bytes, hash: HashFunction)
      ensures NodeId == nodeId && this.hash == hash && state == LostSync
      ensures fresh(consistentMap) && consistentMap.State() == EMPTY
    {
      NodeId, this.hash, state := nodeId, hash, LostSync;
      consistentMap := new Map(REPLICA_COUNT, hash);
    }

    /** `syncNodeList`; `reloadJobs` says whether `initJobs` runs. */
    method SyncNodeList(replies: seq<ScanReply>) returns (reloadJobs: bool)
      requires exists i :: 0 <= i < |replies| && Ends(replies[i])
      modifies this
      ensures fresh(consistentMap)
      ensures var (list, failed) := Scanned(replies, []);
              && consistentMap.hash == hash
              && consistentMap.State() == AddAll(hash, REPLICA_COUNT, EMPTY, list)
              && (failed ==> list == [] && state == LostSync && !reloadJobs)
              && (!failed ==> state == KeepAlive && (reloadJobs <==> old(state) == LostSync))
    {
      var list: seq<Bytes>, errorFlag, i := [], false, 0;
      while true
        invariant i < |replies| && !errorFlag && state == old(state)
        invariant exists j :: i <= j < |replies| && Ends(replies[j])
        invariant exists j :: 0 <= j < |replies[i..]| && Ends(replies[i..][j])
        invariant Scanned(replies[i..], list) == Scanned(replies, [])
        decreases |replies| - i
      {
        assert replies[i..][0] == replies[i];
        match replies[i] {
          case ScanError =>
            list, errorFlag, state := [], true, LostSync;
            break;
          case Page(keys, cursor) =>
            list := list + keys;
            if cursor == 0 { break; }
            assert replies[i..][1..] == replies[i + 1..];
            var j :| i <= j < |replies| && Ends(replies[j]);
            assert j != i && replies[i + 1..][j - i - 1] == replies[j];
            i := i + 1;
        }
      }
      reloadJobs := !errorFlag && state == LostSync;
      if reloadJobs { state := KeepAlive; }
      var mp := new Map(REPLICA_COUNT, hash);
      mp.Add(list);
      consistentMap := mp;
    }

    /** `executable`: whether this node owns the key. */
    method Executable(key: Bytes) returns (mine: bool)
      requires Usable(consistentMap.State()) && consistentMap.hash == hash && NodeId != []
      ensures mine <==> Owns(hash, consistentMap.hashMap, key, NodeId)
    {
      var owner := consistentMap.Get(key);
      ghost var points := consistentMap.hashMap.Keys;
      assert forall p :: p in points <==> p in consistentMap.keys;
      if consistentMap.keys == [] {
        assert points == {};
      } else {
        ghost var p :| IsSuccessor(points, hash(key), p) && owner == consistentMap.hashMap[p];
        assert forall q :: IsSuccessor(points, hash(key), q) ==> q == p;
      }
      return owner == NodeId;
    }
  }

  /** The ring gives the key to the node. */
  ghost predicate Owns(hash: HashFunction, owners: map<nat, Bytes>, key: Bytes, node: Bytes) {
    exists p :: IsSuccessor(owners.Keys, hash(key), p) && owners[p] == node
  }

  lemma {:induction false} LeastPoint(points: set<nat>) returns (p: nat)
    requires points != {}
    ensures p in points && forall q :: q in points ==> p <= q
    decreases |points|
  {
    var x :| x in points;
    p := x;
    var others := points - {x};
    assert forall q :: q in points ==> q == x || q in others;
    if others != {} {
      var r := LeastPoint(others);
      if r < x { p := r; }
    }
  }

  lemma SuccessorExists(points: set<nat>, h: nat) returns (p: nat)
    requires points != {}
    ensures IsSuccessor(points, h, p)
  {
    var later := set q | q in points && h <= q;
    if later == {} {
      p := LeastPoint(points);
      assert forall q :: q in points && h <= q ==> q in later;
    } else {
      p := LeastPoint(later);
      assert forall q :: q in points && h <= q ==> q in later;
    }
  }

  /** The ring a node builds from its list. */
  function RingOf(hash: HashFunction, list: seq<Bytes>): map<nat, Bytes> {
    AddAll(hash, REPLICA_COUNT, EMPTY, list).owners
  }

  lemma OwnersAreListed(hash: HashFunction, list: seq<Bytes>, p: nat)
    requires [] !in list && p in RingOf(hash, list)
    requires NoSharedPoint(hash, REPLICA_COUNT, set x | x in list)
    ensures RingOf(hash, list)[p] in list
  {
    OwnerIsFirstClaimer(hash, REPLICA_COUNT, list, p);
    ClaimerAmongUnshared(hash, REPLICA_COUNT, (set x | x in list), list, p);
    assert Lookup(RingOf(hash, list), p) == Some(RingOf(hash, list)[p]);
  }

  lemma RingNotEmpty(hash: HashFunction, list: seq<Bytes>)
    requires [] !in list && |list| > 0
    requires NoSharedPoint(hash, REPLICA_COUNT, set x | x in list)
    ensures RingOf(hash, list) != map[]
  {
    var p := Point(hash, list[0], 0);
    assert p in Points(hash, REPLICA_COUNT, list[0]);
    OwnerIsFirstClaimer(hash, REPLICA_COUNT, list, p);
    ClaimerAmongUnshared(hash, REPLICA_COUNT, (set x | x in list), list, p);
    assert p in RingOf(hash, list);
  }

  /**
   * Every node of the cluster scans the same set of nodes, in its own order and with its own repetitions.
   * Then each key is executable on exactly one of them.
   */
  lemma ExactlyOneExecutor(hash: HashFunction, nodes: set<Bytes>, lists: map<Bytes, seq<Bytes>>, key: Bytes) returns (runner: Bytes)
    requires nodes != {} && [] !in nodes && NoSharedPoint(hash, REPLICA_COUNT, nodes)
    requires lists.Keys == nodes && forall n :: n in nodes ==> forall x :: x in lists[n] <==> x in nodes
    ensures runner in nodes
    ensures forall n :: n in nodes ==> (Owns(hash, RingOf(hash, lists[n]), key, n) <==> n == runner)
  {
    var some :| some in nodes;
    var list := lists[some];
    var ring := RingOf(hash, list);
    assert nodes == set x | x in list;
    RingNotEmpty(hash, list);
    var p := SuccessorExists(ring.Keys, hash(key));
    runner := ring[p];
    OwnersAreListed(hash, list, p);
    forall n | n in nodes ensures Owns(hash, RingOf(hash, lists[n]), key, n) <==> n == runner {
      OrderDoesNotMatter(hash, REPLICA_COUNT, list, lists[n]);
      forall q | IsSuccessor(ring.Keys, hash(key), q) ensures q == p {
        SuccessorUnique(ring.Keys, hash(key), p, q);
      }
    }
  }

  /** With a shared point, two nodes that list themselves first both take a key that falls on it. */
  lemma TwoExecutors(hash: HashFunction, x: Bytes, y: Bytes, names: seq<Bytes>, key: Bytes)
    requires x != y && x != [] && y != [] && [] !in names
    requires hash(key) in Points(hash, REPLICA_COUNT, x) && hash(key) in Points(hash, REPLICA_COUNT, y)
    ensures Owns(hash, RingOf(hash, [x] + names), key, x) && Owns(hash, RingOf(hash, [y] + names), key, y)
  {
    SharedPointDependsOnOrder(hash, REPLICA_COUNT, x, y, names, hash(key));
    OwnPoint(hash, RingOf(hash, [x] + names), key, x);
    OwnPoint(hash, RingOf(hash, [y] + names), key, y);
  }

  lemma OwnPoint(hash: HashFunction, ring: map<nat, Bytes>, key: Bytes, owner: Bytes)
    requires Lookup(ring, hash(key)) == Some(owner)
    ensures Owns(hash, ring, key, owner)
  {
    assert IsSuccessor(ring.Keys, hash(key), hash(key));
  }

  /** After a failed scan the ring is empty, and the node runs nothing. */
  lemma NothingRunsOnAnEmptyRing(hash: HashFunction, key: Bytes, node: Bytes)
    ensures !Owns(hash, RingOf(hash, []), key, node)
  {
  }
}
