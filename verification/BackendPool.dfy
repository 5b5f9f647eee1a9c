/**
 The consistent-hash backend pool: a ring of virtual nodes rebuilt and sorted on every change, searched
 by partition point with wrap-around.  Hashes are whatever the hashing functions return.
 */
module BackendPool {
  import opened Net

  datatype Backend = Backend(addr: SocketAddr, weight: nat)

  datatype Node = Node(hash: nat, idx: nat)

  /** `node(addr, i)` hashes virtual node `i` of a backend; `peer` hashes the sticky key of a peer. */
  datatype Hashing = Hashing(node: (SocketAddr, nat) -> nat, peer: SocketAddr -> nat, replicas: nat)

  // ---------------------------------------------------------------------------------------------
  // The ring
  // ---------------------------------------------------------------------------------------------

  /** `replicas * weight` in 32 bits. */
  function VirtualNodes(h: Hashing, b: Backend): nat {
    (h.replicas * b.weight) % (U32_MAX + 1)
  }

  function NodesOf(h: Hashing, b: Backend, idx: nat, count: nat): seq<Node> {
    seq(count, i requires 0 <= i < count => Node(h.node(b.addr, i), idx))
  }

  function AllNodes(h: Hashing, backends: seq<Backend>): seq<Node> {
    if backends == [] then []
    else
      var k := |backends| - 1;
      AllNodes(h, backends[..k]) + NodesOf(h, backends[k], k, VirtualNodes(h, backends[k]))
  }

  ghost predicate SortedByHash(ring: seq<Node>) {
    forall i, j :: 0 <= i < j < |ring| ==> ring[i].hash <= ring[j].hash
  }

  /** Sorted by hash, and a permutation of every backend's virtual nodes; ties may fall either way. */
  ghost predicate IsRing(h: Hashing, backends: seq<Backend>, ring: seq<Node>) {
    SortedByHash(ring) && multiset(ring) == multiset(AllNodes(h, backends))
  }

  function TotalNodes(h: Hashing, backends: seq<Backend>): nat {
    if backends == [] then 0 else TotalNodes(h, backends[..|backends| - 1]) + VirtualNodes(h, backends[|backends| - 1])
  }

  lemma {:induction false} AllNodesSize(h: Hashing, backends: seq<Backend>)
    ensures |AllNodes(h, backends)| == TotalNodes(h, backends)
  {
    if backends != [] { AllNodesSize(h, backends[..|backends| - 1]); }
  }

  /** A point of the circle: some virtual node of some backend with this address hashes there. */
  ghost predicate IsPoint(h: Hashing, backends: seq<Backend>, hash: nat, addr: SocketAddr) {
    exists j, i :: 0 <= j < |backends| && 0 <= i < VirtualNodes(h, backends[j])
                && backends[j].addr == addr && h.node(addr, i) == hash
  }

  lemma {:induction false} NodesArePoints(h: Hashing, backends: seq<Backend>, n: Node)
    requires n in AllNodes(h, backends)
    ensures n.idx < |backends| && IsPoint(h, backends, n.hash, backends[n.idx].addr)
  {
    var k := |backends| - 1;
    var before, own := AllNodes(h, backends[..k]), NodesOf(h, backends[k], k, VirtualNodes(h, backends[k]));
    if n in before {
      NodesArePoints(h, backends[..k], n);
      var j, i :| 0 <= j < k && 0 <= i < VirtualNodes(h, backends[..k][j])
               && backends[..k][j].addr == backends[n.idx].addr && h.node(backends[n.idx].addr, i) == n.hash;
      assert backends[j] == backends[..k][j];
    } else {
      var i :| 0 <= i < |own| && own[i] == n;
      assert backends[k].addr == backends[n.idx].addr;
    }
  }

  lemma {:induction false} PointsAreNodes(h: Hashing, backends: seq<Backend>, j: nat, i: nat)
    requires j < |backends| && i < VirtualNodes(h, backends[j])
    ensures Node(h.node(backends[j].addr, i), j) in AllNodes(h, backends)
  {
    var k := |backends| - 1;
    if j < k {
      PointsAreNodes(h, backends[..k], j, i);
    } else {
      assert NodesOf(h, backends[k], k, VirtualNodes(h, backends[k]))[i] == Node(h.node(backends[j].addr, i), j);
    }
  }

  lemma RingMembers(h: Hashing, backends: seq<Backend>, ring: seq<Node>, n: Node)
    requires IsRing(h, backends, ring)
    ensures n in ring <==> n in AllNodes(h, backends)
  {
    assert n in ring <==> n in multiset(ring);
    assert n in AllNodes(h, backends) <==> n in multiset(AllNodes(h, backends));
  }

  /** Every node of the ring names a backend, and there are exactly as many as the weights ask for. */
  lemma RingShape(h: Hashing, backends: seq<Backend>, ring: seq<Node>)
    requires IsRing(h, backends, ring)
    ensures |ring| == TotalNodes(h, backends)
    ensures forall n <- ring :: n.idx < |backends| && IsPoint(h, backends, n.hash, backends[n.idx].addr)
  {
    AllNodesSize(h, backends);
    assert |multiset(ring)| == |ring| && |multiset(AllNodes(h, backends))| == |AllNodes(h, backends)|;
    forall n | n in ring ensures n.idx < |backends| && IsPoint(h, backends, n.hash, backends[n.idx].addr) {
      RingMembers(h, backends, ring, n);
      NodesArePoints(h, backends, n);
    }
  }

  // ---------------------------------------------------------------------------------------------
  // Weights
  // ---------------------------------------------------------------------------------------------

  /** Nodes of the ring that belong to backend `j`. */
  function CountOn(ring: seq<Node>, j: nat): nat {
    if ring == [] then 0 else (if ring[0].idx == j then 1 else 0) + CountOn(ring[1..], j)
  }

  lemma {:induction false} CountOnConcat(a: seq<Node>, b: seq<Node>, j: nat)
    ensures CountOn(a + b, j) == CountOn(a, j) + CountOn(b, j)
  {
    if a == [] {
      assert a + b == b;
    } else {
      assert (a + b)[1..] == a[1..] + b;
      CountOnConcat(a[1..], b, j);
    }
  }

  lemma {:induction false} CountOnPermutation(a: seq<Node>, b: seq<Node>, j: nat)
    requires multiset(a) == multiset(b)
    ensures CountOn(a, j) == CountOn(b, j)
  {
    if a == [] {
      assert |multiset(b)| == |b| == 0;
    } else {
      var p, rest := WithoutFirst(a, b);
      CountOnPermutation(a[1..], rest, j);
      CountOnConcat(b[..p], [b[p]] + b[p + 1..], j);
      CountOnConcat(b[..p], b[p + 1..], j);
      assert b == b[..p] + ([b[p]] + b[p + 1..]);
      assert ([b[p]] + b[p + 1..])[1..] == b[p + 1..];
    }
  }

  lemma WithoutFirst(a: seq<Node>, b: seq<Node>) returns (p: nat, rest: seq<Node>)
    requires a != [] && multiset(a) == multiset(b)
    ensures p < |b| && b[p] == a[0] && rest == b[..p] + b[p + 1..] && multiset(rest) == multiset(a[1..])
  {
    assert a[0] in multiset(b);
    p :| 0 <= p < |b| && b[p] == a[0];
    rest := b[..p] + b[p + 1..];
    assert b == b[..p] + [b[p]] + b[p + 1..];
    assert a == [a[0]] + a[1..];
    assert multiset(rest) == multiset(b) - multiset{b[p]};
  }

  lemma {:induction false} CountOnOwn(nodes: seq<Node>, idx: nat, j: nat)
    requires forall n <- nodes :: n.idx == idx
    ensures CountOn(nodes, j) == if idx == j then |nodes| else 0
  {
    if nodes != [] { CountOnOwn(nodes[1..], idx, j); }
  }

  lemma {:induction false} CountOnAll(h: Hashing, backends: seq<Backend>, j: nat)
    ensures CountOn(AllNodes(h, backends), j)
         == if j < |backends| then (h.replicas * backends[j].weight) % 0x1_0000_0000 else 0
  {
    if backends != [] {
      var k := |backends| - 1;
      var own := NodesOf(h, backends[k], k, VirtualNodes(h, backends[k]));
      CountOnAll(h, backends[..k], j);
      CountOnConcat(AllNodes(h, backends[..k]), own, j);
      CountOnOwn(own, k, j);
    }
  }

  /** The sum of replicas * weight, each product in 32 bits. */
  function WeightSum(replicas: nat, backends: seq<Backend>): nat {
    if backends == [] then 0
    else
      var k := |backends| - 1;
      WeightSum(replicas, backends[..k]) + (replicas * backends[k].weight) % 0x1_0000_0000
  }

  lemma {:induction false} TotalIsWeightSum(h: Hashing, backends: seq<Backend>)
    ensures TotalNodes(h, backends) == WeightSum(h.replicas, backends)
  {
    if backends != [] { TotalIsWeightSum(h, backends[..|backends| - 1]); }
  }

  /**
   A valid ring gives each backend exactly replicas * weight nodes, at the hashes of its first that many
   virtual node keys, and nothing else.
   */
  lemma RingFollowsWeights(h: Hashing, backends: seq<Backend>, ring: seq<Node>, j: nat)
    requires IsRing(h, backends, ring) && j < |backends|
    ensures CountOn(ring, j) == (h.replicas * backends[j].weight) % 0x1_0000_0000
    ensures |ring| == WeightSum(h.replicas, backends)
    ensures forall i :: 0 <= i < (h.replicas * backends[j].weight) % 0x1_0000_0000 ==>
              Node(h.node(backends[j].addr, i), j) in ring
  {
    CountOnPermutation(ring, AllNodes(h, backends), j);
    CountOnAll(h, backends, j);
    RingShape(h, backends, ring);
    TotalIsWeightSum(h, backends);
    forall i | 0 <= i < VirtualNodes(h, backends[j]) ensures Node(h.node(backends[j].addr, i), j) in ring {
      PointsAreNodes(h, backends, j, i);
      RingMembers(h, backends, ring, Node(h.node(backends[j].addr, i), j));
    }
  }

  /** Conversely, a node of the ring is one of those. */
  lemma NodeIsVirtualNode(h: Hashing, backends: seq<Backend>, ring: seq<Node>, n: Node) returns (i: nat)
    requires IsRing(h, backends, ring) && n in ring
    ensures n.idx < |backends| && i < (h.replicas * backends[n.idx].weight) % 0x1_0000_0000
    ensures n.hash == h.node(backends[n.idx].addr, i)
  {
    RingMembers(h, backends, ring, n);
    i := OwnVirtualNode(h, backends, n);
  }

  lemma {:induction false} OwnVirtualNode(h: Hashing, backends: seq<Backend>, n: Node) returns (i: nat)
    requires n in AllNodes(h, backends)
    ensures n.idx < |backends| && i < VirtualNodes(h, backends[n.idx]) && n.hash == h.node(backends[n.idx].addr, i)
  {
    var k := |backends| - 1;
    if n in AllNodes(h, backends[..k]) {
      i := OwnVirtualNode(h, backends[..k], n);
    } else {
      var own := NodesOf(h, backends[k], k, VirtualNodes(h, backends[k]));
      i :| 0 <= i < |own| && own[i] == n;
    }
  }

  // ---------------------------------------------------------------------------------------------
  // Selection
  // ---------------------------------------------------------------------------------------------

  /** First position whose hash is not below the key. */
  function PartitionPoint(ring: seq<Node>, key: nat): (k: nat)
    ensures k <= |ring|
  {
    if ring == [] || ring[0].hash >= key then 0 else 1 + PartitionPoint(ring[1..], key)
  }

  lemma {:induction false} PartitionPointSplits(ring: seq<Node>, key: nat, k: nat)
    requires k <= |ring|
    requires forall i :: 0 <= i < k ==> ring[i].hash < key
    requires k < |ring| ==> ring[k].hash >= key
    ensures PartitionPoint(ring, key) == k
  {
    if k > 0 {
      assert ring[0].hash < key;
      PartitionPointSplits(ring[1..], key, k - 1);
    }
  }

  lemma {:induction false} PartitionPointFacts(ring: seq<Node>, key: nat)
    ensures var k := PartitionPoint(ring, key);
            && (forall i :: 0 <= i < k ==> ring[i].hash < key)
            && (k < |ring| ==> ring[k].hash >= key)
  {
    if ring != [] && ring[0].hash < key {
      PartitionPointFacts(ring[1..], key);
      assert forall i :: 0 < i < |ring| ==> ring[i] == ring[1..][i - 1];
    }
  }

  function ChosenNode(ring: seq<Node>, key: nat): Node
    requires ring != []
  {
    ring[PartitionPoint(ring, key) % |ring|]
  }

  predicate InRange(backends: seq<Backend>, ring: seq<Node>) {
    forall n <- ring :: n.idx < |backends|
  }

  function Select(backends: seq<Backend>, ring: seq<Node>, key: nat): Option<SocketAddr>
    requires InRange(backends, ring)
  {
    if backends == [] then None
    else if ring == [] then Some(backends[0].addr)
    else Some(backends[ChosenNode(ring, key).idx].addr)
  }

  /** Walking up from the key and wrapping at the top, `a` is met no later than `b`. */
  predicate NoLater(key: nat, a: nat, b: nat) {
    if a >= key then b < key || a <= b else b < key && a <= b
  }

  lemma {:induction false} ChosenIsFirstMet(ring: seq<Node>, key: nat)
    requires SortedByHash(ring) && ring != []
    ensures ChosenNode(ring, key) in ring
    ensures forall n <- ring :: NoLater(key, ChosenNode(ring, key).hash, n.hash)
  {
    PartitionPointFacts(ring, key);
    var k := PartitionPoint(ring, key);
    ChosenIs(ring, key);
    forall i | 0 <= i < |ring| ensures NoLater(key, ChosenNode(ring, key).hash, ring[i].hash) {
    }
  }

  lemma ChosenIs(ring: seq<Node>, key: nat)
    requires ring != []
    ensures var k := PartitionPoint(ring, key);
            k <= |ring| && ChosenNode(ring, key) == ring[if k == |ring| then 0 else k]
  {
    var k := PartitionPoint(ring, key);
    if k == |ring| { assert k % |ring| == 0; } else { assert k % |ring| == k; }
  }

  /** The least hash at or above the key; if there is none, the least hash overall. */
  ghost predicate LinearRule(ring: seq<Node>, key: nat, chosen: Node) {
    && chosen in ring
    && if exists n <- ring :: n.hash >= key
       then chosen.hash >= key && forall n <- ring :: n.hash >= key ==> chosen.hash <= n.hash
       else forall n <- ring :: chosen.hash <= n.hash
  }

  /** Partition point plus wrap-around picks by the linear rule, whatever the order of ties. */
  lemma SelectionIsLinearRule(ring: seq<Node>, key: nat)
    requires SortedByHash(ring) && ring != []
    ensures LinearRule(ring, key, ChosenNode(ring, key))
  {
    ChosenIsFirstMet(ring, key);
  }

  /** The selected backend: none from an empty pool, the first while no weight is positive, else by the linear rule. */
  lemma SelectedBackend(h: Hashing, backends: seq<Backend>, ring: seq<Node>, key: nat)
    requires IsRing(h, backends, ring)
    ensures InRange(backends, ring)
    ensures backends == [] ==> Select(backends, ring, key) == None
    ensures backends != [] && WeightSum(h.replicas, backends) == 0 ==>
              Select(backends, ring, key) == Some(backends[0].addr)
    ensures WeightSum(h.replicas, backends) > 0 ==>
              exists n <- ring :: LinearRule(ring, key, n) && n.idx < |backends|
                               && Select(backends, ring, key) == Some(backends[n.idx].addr)
  {
    RingShape(h, backends, ring);
    TotalIsWeightSum(h, backends);
    if ring != [] {
      SelectionIsLinearRule(ring, key);
      assert ChosenNode(ring, key) in ring;
    }
  }

  // ---------------------------------------------------------------------------------------------
  // Selection depends only on the points of the circle
  // ---------------------------------------------------------------------------------------------

  /** Nodes of different addresses never share a hash. */
  ghost predicate Collisionless(h: Hashing, backends: seq<Backend>) {
    forall hash, a, b :: IsPoint(h, backends, hash, a) && IsPoint(h, backends, hash, b) ==> a == b
  }

  /** `addr` owns the first point met from the key. */
  ghost predicate Owns(h: Hashing, backends: seq<Backend>, key: nat, addr: SocketAddr, hash: nat) {
    && IsPoint(h, backends, hash, addr)
    && forall x, a :: IsPoint(h, backends, x, a) ==> NoLater(key, hash, x)
  }

  lemma SelectedOwns(h: Hashing, backends: seq<Backend>, ring: seq<Node>, key: nat)
    requires IsRing(h, backends, ring) && ring != []
    ensures InRange(backends, ring) && backends != []
    ensures Owns(h, backends, key, Select(backends, ring, key).value, ChosenNode(ring, key).hash)
  {
    RingShape(h, backends, ring);
    ChosenIsFirstMet(ring, key);
    assert ChosenNode(ring, key) in ring;
    forall x, a | IsPoint(h, backends, x, a) ensures NoLater(key, ChosenNode(ring, key).hash, x) {
      var j, i :| 0 <= j < |backends| && 0 <= i < VirtualNodes(h, backends[j])
               && backends[j].addr == a && h.node(a, i) == x;
      PointsAreNodes(h, backends, j, i);
      RingMembers(h, backends, ring, Node(x, j));
    }
  }

  lemma EmptyRingHasNoPoints(h: Hashing, backends: seq<Backend>, ring: seq<Node>, hash: nat, addr: SocketAddr)
    requires IsRing(h, backends, ring) && IsPoint(h, backends, hash, addr)
    ensures ring != []
  {
    var j, i :| 0 <= j < |backends| && 0 <= i < VirtualNodes(h, backends[j])
             && backends[j].addr == addr && h.node(addr, i) == hash;
    PointsAreNodes(h, backends, j, i);
    RingMembers(h, backends, ring, Node(hash, j));
  }

  /** The order in which equal hashes were sorted does not matter when no two addresses collide. */
  lemma SelectionIsDetermined(h: Hashing, backends: seq<Backend>, ring: seq<Node>, ring': seq<Node>, key: nat)
    requires IsRing(h, backends, ring) && IsRing(h, backends, ring') && Collisionless(h, backends)
    ensures InRange(backends, ring) && InRange(backends, ring')
    ensures Select(backends, ring, key) == Select(backends, ring', key)
  {
    RingShape(h, backends, ring);
    RingShape(h, backends, ring');
    if ring != [] {
      SelectedOwns(h, backends, ring, key);
      SelectedOwns(h, backends, ring', key);
    }
  }

  /** Some valid ring of the pool, with ties in some order, gives this answer. */
  ghost predicate CanSelect(h: Hashing, backends: seq<Backend>, key: nat, choice: Option<SocketAddr>) {
    exists ring :: IsRing(h, backends, ring) && InRange(backends, ring) && Select(backends, ring, key) == choice
  }

  ghost predicate Determined(h: Hashing, backends: seq<Backend>) {
    forall key, x, y :: CanSelect(h, backends, key, x) && CanSelect(h, backends, key, y) ==> x == y
  }

  /** Sorted in last, a node comes first among those with its hash and is chosen for that key. */
  lemma {:induction false} InsertedIsChosen(sorted: seq<Node>, n: Node)
    ensures var ring := InsertSorted(sorted, n);
            var k := PartitionPoint(ring, n.hash);
            k < |ring| && ring[k] == n
  {
    if sorted != [] && n.hash > sorted[0].hash {
      InsertedIsChosen(sorted[1..], n);
      assert InsertSorted(sorted, n)[1..] == InsertSorted(sorted[1..], n);
    }
  }

  function Sorted(nodes: seq<Node>): seq<Node> {
    if nodes == [] then [] else InsertSorted(Sorted(nodes[1..]), nodes[0])
  }

  lemma {:induction false} SortedFacts(nodes: seq<Node>)
    ensures Ascending(Sorted(nodes), 0) && multiset(Sorted(nodes)) == multiset(nodes)
  {
    if nodes != [] {
      SortedFacts(nodes[1..]);
      InsertKeepsOrder(Sorted(nodes[1..]), nodes[0], 0);
      InsertKeepsNodes(Sorted(nodes[1..]), nodes[0]);
      assert nodes == [nodes[0]] + nodes[1..];
    }
  }

  /** Any node can be sorted in last. */
  lemma RingChoosing(nodes: seq<Node>, n: Node) returns (ring: seq<Node>)
    requires n in nodes
    ensures SortedByHash(ring) && multiset(ring) == multiset(nodes)
    ensures ring != [] && ChosenNode(ring, n.hash) == n
  {
    var p :| 0 <= p < |nodes| && nodes[p] == n;
    var rest := nodes[..p] + nodes[p + 1..];
    assert nodes == nodes[..p] + [n] + nodes[p + 1..];
    SortedFacts(rest);
    InsertKeepsOrder(Sorted(rest), n, 0);
    InsertKeepsNodes(Sorted(rest), n);
    InsertedIsChosen(Sorted(rest), n);
    ring := InsertSorted(Sorted(rest), n);
    AscendingIsSorted(ring);
    ChosenIs(ring, n.hash);
  }

  lemma NodeAt(h: Hashing, backends: seq<Backend>, hash: nat, addr: SocketAddr) returns (n: Node)
    requires IsPoint(h, backends, hash, addr)
    ensures n in AllNodes(h, backends) && n.hash == hash && n.idx < |backends| && backends[n.idx].addr == addr
  {
    var j, i :| 0 <= j < |backends| && 0 <= i < VirtualNodes(h, backends[j])
             && backends[j].addr == addr && h.node(addr, i) == hash;
    PointsAreNodes(h, backends, j, i);
    n := Node(hash, j);
  }

  /** For a peer that hashes to a point, every address that owns the point is selected by some valid ring. */
  lemma AnyOwnerCanBeSelected(h: Hashing, backends: seq<Backend>, hash: nat, addr: SocketAddr)
    requires IsPoint(h, backends, hash, addr)
    ensures CanSelect(h, backends, hash, Some(addr))
  {
    var n := NodeAt(h, backends, hash, addr);
    var ring := RingChoosing(AllNodes(h, backends), n);
    RingShape(h, backends, ring);
    assert backends != [];
    assert Select(backends, ring, hash) == Some(addr);
  }

  /**
   Selection is determined by the backends alone, for every key and every order of ties, if and only
   if no two addresses have virtual nodes with the same hash.
   */
  lemma SelectionIsDeterminedIff(h: Hashing, backends: seq<Backend>)
    ensures Determined(h, backends) <==> Collisionless(h, backends)
  {
    if Collisionless(h, backends) {
      forall key, x, y | CanSelect(h, backends, key, x) && CanSelect(h, backends, key, y) ensures x == y {
        var r :| IsRing(h, backends, r) && InRange(backends, r) && Select(backends, r, key) == x;
        var r' :| IsRing(h, backends, r') && InRange(backends, r') && Select(backends, r', key) == y;
        SelectionIsDetermined(h, backends, r, r', key);
      }
    }
    if Determined(h, backends) {
      forall hash, a, b | IsPoint(h, backends, hash, a) && IsPoint(h, backends, hash, b) ensures a == b {
        AnyOwnerCanBeSelected(h, backends, hash, a);
        AnyOwnerCanBeSelected(h, backends, hash, b);
      }
    }
  }

  // ---------------------------------------------------------------------------------------------
  // Minimal disruption
  // ---------------------------------------------------------------------------------------------

  lemma PointsOfAdded(h: Hashing, backends: seq<Backend>, b: Backend, hash: nat, addr: SocketAddr)
    ensures IsPoint(h, backends, hash, addr) ==> IsPoint(h, backends + [b], hash, addr)
    ensures IsPoint(h, backends + [b], hash, addr) ==> IsPoint(h, backends, hash, addr) || addr == b.addr
  {
    var more := backends + [b];
    if IsPoint(h, backends, hash, addr) {
      var j, i :| 0 <= j < |backends| && 0 <= i < VirtualNodes(h, backends[j])
               && backends[j].addr == addr && h.node(addr, i) == hash;
      assert more[j] == backends[j];
    }
    if IsPoint(h, more, hash, addr) {
      var j, i :| 0 <= j < |more| && 0 <= i < VirtualNodes(h, more[j])
               && more[j].addr == addr && h.node(addr, i) == hash;
      if j < |backends| { assert more[j] == backends[j]; }
    }
  }

  /** Each of two points is met no later than the other: without collisions they have the same owner. */
  lemma SharedPointsSameOwner(h: Hashing, all: seq<Backend>, key: nat,
                              addr: SocketAddr, hash: nat, addr': SocketAddr, hash': nat)
    requires NoLater(key, hash, hash') && NoLater(key, hash', hash) && Collisionless(h, all)
    ensures IsPoint(h, all, hash, addr) && IsPoint(h, all, hash', addr') ==> addr == addr'
  {
  }

  lemma TotalGrows(h: Hashing, backends: seq<Backend>, b: Backend)
    ensures TotalNodes(h, backends) <= TotalNodes(h, backends + [b])
  {
    assert (backends + [b])[..|backends|] == backends;
  }

  /** Adding a backend moves a peer only to the new backend. */
  lemma AddMovesOnlyToNew(h: Hashing, backends: seq<Backend>, ring: seq<Node>, b: Backend, ring': seq<Node>, key: nat)
    requires IsRing(h, backends, ring) && IsRing(h, backends + [b], ring')
    requires Collisionless(h, backends + [b])
    ensures InRange(backends, ring) && InRange(backends + [b], ring')
    ensures Select(backends + [b], ring', key) in {Select(backends, ring, key), Some(b.addr)}
  {
    var more := backends + [b];
    RingShape(h, backends, ring);
    RingShape(h, more, ring');
    TotalGrows(h, backends, b);
    if ring' != [] {
      SelectedOwns(h, more, ring', key);
      var hash', addr' := ChosenNode(ring', key).hash, Select(more, ring', key).value;
      PointsOfAdded(h, backends, b, hash', addr');
      if addr' != b.addr {
        EmptyRingHasNoPoints(h, backends, ring, hash', addr');
        SelectedOwns(h, backends, ring, key);
        var hash, addr := ChosenNode(ring, key).hash, Select(backends, ring, key).value;
        PointsOfAdded(h, backends, b, hash, addr);
        SharedPointsSameOwner(h, more, key, addr, hash, addr', hash');
      }
    }
  }

  /** `Vec::retain(|b| b.addr != addr)`. */
  function Retain(backends: seq<Backend>, addr: SocketAddr): seq<Backend> {
    if backends == [] then []
    else
      var rest := Retain(backends[..|backends| - 1], addr);
      if backends[|backends| - 1].addr == addr then rest else rest + [backends[|backends| - 1]]
  }

  lemma RetainLast(backends: seq<Backend>, addr: SocketAddr)
    requires backends != []
    ensures var last := backends[|backends| - 1];
            var before := Retain(backends[..|backends| - 1], addr);
            Retain(backends, addr) == before + if last.addr == addr then [] else [last]
  {
  }

  /** Removal goes backend by backend and keeps their order. */
  lemma {:induction false} RetainInOrder(front: seq<Backend>, back: seq<Backend>, addr: SocketAddr)
    ensures Retain(front + back, addr) == Retain(front, addr) + Retain(back, addr)
  {
    if back == [] {
      assert front + back == front;
    } else {
      var k := |back| - 1;
      assert (front + back)[..|front| + k] == front + back[..k];
      RetainInOrder(front, back[..k], addr);
      RetainLast(front + back, addr);
      RetainLast(back, addr);
    }
  }

  lemma RetainOne(b: Backend, addr: SocketAddr)
    ensures Retain([b], addr) == if b.addr == addr then [] else [b]
  {
    assert [b][..0] == [];
  }

  lemma {:induction false} RetainFacts(backends: seq<Backend>, addr: SocketAddr)
    ensures forall b :: b in Retain(backends, addr) <==> b in backends && b.addr != addr
  {
    if backends != [] {
      var k := |backends| - 1;
      RetainFacts(backends[..k], addr);
      assert backends == backends[..k] + [backends[k]];
    }
  }

  lemma {:induction false} RetainShape(backends: seq<Backend>, addr: SocketAddr)
    ensures |Retain(backends, addr)| <= |backends|
    ensures |Retain(backends, addr)| == |backends| <==> Retain(backends, addr) == backends
    ensures backends != [] && backends[0].addr != addr ==>
              Retain(backends, addr) != [] && Retain(backends, addr)[0] == backends[0]
  {
    if backends != [] {
      var k := |backends| - 1;
      RetainShape(backends[..k], addr);
      assert backends == backends[..k] + [backends[k]];
    }
  }

  lemma PointsOfRetained(h: Hashing, backends: seq<Backend>, gone: SocketAddr, hash: nat, addr: SocketAddr)
    ensures IsPoint(h, Retain(backends, gone), hash, addr) <==> IsPoint(h, backends, hash, addr) && addr != gone
  {
    var fewer := Retain(backends, gone);
    RetainFacts(backends, gone);
    if IsPoint(h, backends, hash, addr) && addr != gone {
      var j, i :| 0 <= j < |backends| && 0 <= i < VirtualNodes(h, backends[j])
               && backends[j].addr == addr && h.node(addr, i) == hash;
      assert backends[j] in fewer;
      var j' :| 0 <= j' < |fewer| && fewer[j'] == backends[j];
    }
    if IsPoint(h, fewer, hash, addr) {
      var j, i :| 0 <= j < |fewer| && 0 <= i < VirtualNodes(h, fewer[j])
               && fewer[j].addr == addr && h.node(addr, i) == hash;
      assert fewer[j] in backends;
      var j' :| 0 <= j' < |backends| && backends[j'] == fewer[j];
    }
  }

  /** Removing an address moves only the peers that were on it, although every index may shift. */
  lemma RemoveMovesOnlyItsPeers(h: Hashing, backends: seq<Backend>, ring: seq<Node>, gone: SocketAddr,
                                ring': seq<Node>, key: nat)
    requires IsRing(h, backends, ring) && IsRing(h, Retain(backends, gone), ring')
    requires Collisionless(h, backends)
    ensures InRange(backends, ring) && InRange(Retain(backends, gone), ring')
    ensures Select(backends, ring, key) != Some(gone) ==>
              Select(Retain(backends, gone), ring', key) == Select(backends, ring, key)
  {
    var fewer := Retain(backends, gone);
    RingShape(h, backends, ring);
    RingShape(h, fewer, ring');
    RetainFacts(backends, gone);
    RetainShape(backends, gone);
    if backends != [] && Select(backends, ring, key) != Some(gone) {
      if ring != [] {
        SelectedOwns(h, backends, ring, key);
        var hash, addr := ChosenNode(ring, key).hash, Select(backends, ring, key).value;
        PointsOfRetained(h, backends, gone, hash, addr);
        EmptyRingHasNoPoints(h, fewer, ring', hash, addr);
        SelectedOwns(h, fewer, ring', key);
        var hash', addr' := ChosenNode(ring', key).hash, Select(fewer, ring', key).value;
        PointsOfRetained(h, backends, gone, hash', addr');
        SharedPointsSameOwner(h, backends, key, addr, hash, addr', hash');
      } else if ring' != [] {
        SelectedOwns(h, fewer, ring', key);
        var hash', addr' := ChosenNode(ring', key).hash, Select(fewer, ring', key).value;
        PointsOfRetained(h, backends, gone, hash', addr');
        EmptyRingHasNoPoints(h, backends, ring, hash', addr');
      }
    }
  }

  /** Adding a new address and removing it again restores every peer's backend. */
  lemma AddThenRemoveRestores(h: Hashing, backends: seq<Backend>, ring: seq<Node>, b: Backend, ring': seq<Node>,
                              key: nat)
    requires IsRing(h, backends, ring) && Collisionless(h, backends)
    requires forall x <- backends :: x.addr != b.addr
    requires IsRing(h, Retain(backends + [b], b.addr), ring')
    ensures Retain(backends + [b], b.addr) == backends
    ensures InRange(backends, ring) && InRange(backends, ring')
    ensures Select(backends, ring', key) == Select(backends, ring, key)
  {
    assert (backends + [b])[..|backends|] == backends;
    RetainAll(backends, b.addr);
    SelectionIsDetermined(h, backends, ring, ring', key);
  }

  lemma {:induction false} RetainAll(backends: seq<Backend>, addr: SocketAddr)
    requires forall x <- backends :: x.addr != addr
    ensures Retain(backends, addr) == backends
  {
    if backends != [] {
      var k := |backends| - 1;
      assert backends[k] in backends;
      forall x | x in backends[..k] ensures x.addr != addr { assert x in backends; }
      RetainAll(backends[..k], addr);
    }
  }

  lemma RetainShrinks(backends: seq<Backend>, addr: SocketAddr)
    ensures |Retain(backends, addr)| < |backends| <==> exists b <- backends :: b.addr == addr
  {
    RetainFacts(backends, addr);
    RetainShape(backends, addr);
    if exists b <- backends :: b.addr == addr {
      var b :| b in backends && b.addr == addr;
      assert b !in Retain(backends, addr);
    } else {
      RetainAll(backends, addr);
    }
  }

  // ---------------------------------------------------------------------------------------------
  // The pool
  // ---------------------------------------------------------------------------------------------

  class Pool {
    const h: Hashing
    var backends: seq<Backend>
    var ring: seq<Node>

    ghost predicate Valid()
      reads this
    {
      IsRing(h, backends, ring) && InRange(backends, ring)
    }

    constructor ConsistentHash(h: Hashing, backends: seq<Backend>)
      ensures this.h == h && this.backends == backends && Valid()
    {
      this.h, this.backends, ring := h, backends, [];
      new;
      RebuildRing();
    }

    method RebuildRing()
      modifies this`ring
      ensures Valid()
    {
      var nodes: seq<Node> := [];
      for idx := 0 to |backends|
        invariant nodes == AllNodes(h, backends[..idx])
      {
        var count := VirtualNodes(h, backends[idx]);
        ghost var before := nodes;
        for i := 0 to count
          invariant nodes == before + NodesOf(h, backends[idx], idx, i)
        {
          nodes := nodes + [Node(h.node(backends[idx].addr, i), idx)];
        }
        assert backends[..idx + 1][..idx] == backends[..idx];
      }
      assert backends[..|backends|] == backends;
      ring := SortUnstableByHash(nodes);
      RingShape(h, backends, ring);
    }

    method AddBackend(b: Backend)
      modifies this
      ensures Valid() && backends == old(backends) + [b]
    {
      backends := backends + [b];
      RebuildRing();
    }

    method RemoveBackend(addr: SocketAddr) returns (removed: bool)
      requires Valid()
      modifies this
      ensures Valid() && backends == Retain(old(backends), addr)
      ensures removed == exists b <- old(backends) :: b.addr == addr
      ensures !removed ==> ring == old(ring)
    {
      RetainShrinks(backends, addr);
      RetainFacts(backends, addr);
      RetainShape(backends, addr);
      var kept := RetainOthers(backends, addr);
      removed := |kept| < |backends|;
      backends := kept;
      if removed {
        RebuildRing();
      }
    }

    method SelectFor(peer: SocketAddr) returns (addr: Option<SocketAddr>)
      requires Valid()
      ensures addr == Select(backends, ring, h.peer(peer))
    {
      if |backends| == 0 {
        return None;
      }
      if |ring| == 0 {
        return Some(backends[0].addr);
      }
      var key := h.peer(peer);
      var idx := FindPartitionPoint(ring, key);
      var node := ring[idx % |ring|];
      assert node in ring;
      return Some(backends[node.idx].addr);
    }
  }

  method RetainOthers(backends: seq<Backend>, addr: SocketAddr) returns (kept: seq<Backend>)
    ensures kept == Retain(backends, addr)
  {
    kept := [];
    for i := 0 to |backends|
      invariant kept == Retain(backends[..i], addr)
    {
      assert backends[..i + 1][..i] == backends[..i];
      if backends[i].addr != addr {
        kept := kept + [backends[i]];
      }
    }
    assert backends[..|backends|] == backends;
  }

  /** `sort_unstable_by_key(|n| n.hash)`: any sorted permutation will do. */
  method SortUnstableByHash(nodes: seq<Node>) returns (sorted: seq<Node>)
    ensures SortedByHash(sorted) && multiset(sorted) == multiset(nodes)
  {
    sorted := [];
    for i := 0 to |nodes|
      invariant Ascending(sorted, 0) && multiset(sorted) == multiset(nodes[..i])
    {
      InsertKeepsOrder(sorted, nodes[i], 0);
      InsertKeepsNodes(sorted, nodes[i]);
      OneMore(nodes, i);
      sorted := InsertSorted(sorted, nodes[i]);
    }
    assert nodes[..|nodes|] == nodes;
    AscendingIsSorted(sorted);
  }

  lemma OneMore(nodes: seq<Node>, i: nat)
    requires i < |nodes|
    ensures multiset(nodes[..i + 1]) == multiset(nodes[..i]) + multiset{nodes[i]}
  {
    assert nodes[..i + 1] == nodes[..i] + [nodes[i]];
  }

  lemma AscendingIsSorted(nodes: seq<Node>)
    requires Ascending(nodes, 0)
    ensures SortedByHash(nodes)
  {
    forall i, j | 0 <= i < j < |nodes| ensures nodes[i].hash <= nodes[j].hash {
      AscendingAt(nodes, 0, i, j);
    }
  }

  function InsertSorted(sorted: seq<Node>, n: Node): seq<Node> {
    if sorted == [] || n.hash <= sorted[0].hash then [n] + sorted else [sorted[0]] + InsertSorted(sorted[1..], n)
  }

  predicate Ascending(nodes: seq<Node>, lo: nat) {
    nodes == [] || (lo <= nodes[0].hash && Ascending(nodes[1..], nodes[0].hash))
  }

  lemma {:induction false} InsertKeepsOrder(sorted: seq<Node>, n: Node, lo: nat)
    requires Ascending(sorted, lo) && lo <= n.hash
    ensures Ascending(InsertSorted(sorted, n), lo)
  {
    if sorted == [] || n.hash <= sorted[0].hash {
      assert ([n] + sorted)[1..] == sorted;
    } else {
      InsertKeepsOrder(sorted[1..], n, sorted[0].hash);
      assert InsertSorted(sorted, n)[1..] == InsertSorted(sorted[1..], n);
    }
  }

  lemma {:induction false} InsertKeepsNodes(sorted: seq<Node>, n: Node)
    ensures multiset(InsertSorted(sorted, n)) == multiset(sorted) + multiset{n}
  {
    if sorted != [] && n.hash > sorted[0].hash {
      InsertKeepsNodes(sorted[1..], n);
      assert sorted == [sorted[0]] + sorted[1..];
    }
  }

  lemma {:induction false} AscendingAt(nodes: seq<Node>, lo: nat, i: nat, j: nat)
    requires Ascending(nodes, lo) && i <= j < |nodes|
    ensures lo <= nodes[i].hash <= nodes[j].hash
  {
    if i > 0 {
      AscendingAt(nodes[1..], nodes[0].hash, i - 1, j - 1);
    } else if j > 0 {
      AscendingAt(nodes[1..], nodes[0].hash, 0, j - 1);
    }
  }

  /** `partition_point(|n| n.hash < key)` by binary search. */
  method FindPartitionPoint(ring: seq<Node>, key: nat) returns (k: nat)
    requires SortedByHash(ring)
    ensures k == PartitionPoint(ring, key)
  {
    var lo, hi := 0, |ring|;
    while lo < hi
      invariant 0 <= lo <= hi <= |ring|
      invariant forall i :: 0 <= i < lo ==> ring[i].hash < key
      invariant forall i :: hi <= i < |ring| ==> ring[i].hash >= key
    {
      var mid := (lo + hi) / 2;
      if ring[mid].hash < key {
        lo := mid + 1;
      } else {
        hi := mid;
      }
    }
    PartitionPointSplits(ring, key, lo);
    return lo;
  }
}
