/** The consistent-hash ring: virtual nodes sorted by hash and searched for the first
    point at or after the key. The hash is a parameter: nothing depends on which one it is. */
module HashRing {
  import opened Wire
  import opened Text

  const RING_SIZE: int := 0x1_0000_0000
  const VNODES_PER_UNIT_WEIGHT: int := 40

  type Hash = h: int | 0 <= h < RING_SIZE
  type Hasher = string -> Hash

  /** A selectable backend; weights below one count as one. */
  datatype Node = Node(address: string, weight: int)

  /** A point on the ring and the backend that owns it. */
  datatype Point = Point(hash: Hash, owner: string)

  /** A point as the lookup stores it: its hash and the index of its backend. */
  datatype RingPoint = RingPoint(hash: Hash, slot: nat)

  function VirtualNodes(weight: int): int {
    Clamp(weight) * VNODES_PER_UNIT_WEIGHT
  }

  function Label(address: string, v: nat): string {
    address + "#" + Itoa(v)
  }

  function NodePoint(hash: Hasher, n: Node, v: nat): Point {
    Point(hash(Label(n.address, v)), n.address)
  }

  // ---------------------------------------------------------------------------
  // The simple definition: owner of the cyclic successor
  // ---------------------------------------------------------------------------

  /** `p` is on the ring of `nodes`. */
  ghost predicate OnRing(hash: Hasher, nodes: set<Node>, p: Point) {
    exists n, v: nat :: n in nodes && v < VirtualNodes(n.weight) && p == NodePoint(hash, n, v)
  }

  /** A backend of weight w has exactly the 40 * w points hash(address#0), hash(address#1), ...
      on its ring, weights below one counting as one. */
  lemma RingHasPoints(hash: Hasher, n: Node, p: Point)
    ensures OnRing(hash, {n}, p) <==>
      exists v: nat :: v < 40 * (if n.weight < 1 then 1 else n.weight)
                       && p == Point(hash(n.address + "#" + Itoa(v)), n.address)
  {
    var points := 40 * (if n.weight < 1 then 1 else n.weight);
    assert VirtualNodes(n.weight) == points;
    if OnRing(hash, {n}, p) {
      var m, v: nat :| m in {n} && v < VirtualNodes(m.weight) && p == NodePoint(hash, m, v);
      assert m == n && v < points && p == Point(hash(n.address + "#" + Itoa(v)), n.address);
    }
    if v: nat :| v < points && p == Point(hash(n.address + "#" + Itoa(v)), n.address) {
      assert n in {n} && v < VirtualNodes(n.weight) && p == NodePoint(hash, n, v);
    }
  }

  /** How far clockwise `p` lies from `h`. */
  function Distance(h: Hash, p: Hash): int {
    if h <= p then p - h else p - h + RING_SIZE
  }

  /** `p` is a cyclic successor of `h`: no ring point is nearer clockwise. */
  ghost predicate Succeeds(hash: Hasher, nodes: set<Node>, h: Hash, p: Point) {
    && OnRing(hash, nodes, p)
    && forall q :: OnRing(hash, nodes, q) ==> Distance(h, p.hash) <= Distance(h, q.hash)
  }

  ghost predicate Owns(hash: Hasher, nodes: set<Node>, h: Hash, address: string) {
    exists p :: Succeeds(hash, nodes, h, p) && p.owner == address
  }

  /** No two backends share a ring hash. */
  ghost predicate NoClash(hash: Hasher, nodes: set<Node>) {
    forall p, q :: OnRing(hash, nodes, p) && OnRing(hash, nodes, q) && p.hash == q.hash ==> p.owner == q.owner
  }

  ghost predicate OneOwner(hash: Hasher, nodes: set<Node>, h: Hash) {
    forall a, b :: Owns(hash, nodes, h, a) && Owns(hash, nodes, h, b) ==> a == b
  }

  ghost predicate HasOwner(hash: Hasher, nodes: set<Node>, h: Hash) {
    exists a :: Owns(hash, nodes, h, a)
  }

  /** From any ring point there is a nearest one. */
  lemma {:induction false} SuccessorExists(hash: Hasher, nodes: set<Node>, h: Hash, p: Point)
    requires OnRing(hash, nodes, p)
    ensures exists q :: Succeeds(hash, nodes, h, q)
    decreases Distance(h, p.hash)
  {
    if Succeeds(hash, nodes, h, p) {
    } else {
      var q :| OnRing(hash, nodes, q) && Distance(h, q.hash) < Distance(h, p.hash);
      SuccessorExists(hash, nodes, h, q);
    }
  }

  lemma OwnerExists(hash: Hasher, nodes: set<Node>, h: Hash)
    requires nodes != {}
    ensures HasOwner(hash, nodes, h)
  {
    var n :| n in nodes;
    assert 0 < VirtualNodes(n.weight) && OnRing(hash, nodes, NodePoint(hash, n, 0));
    SuccessorExists(hash, nodes, h, NodePoint(hash, n, 0));
    var q :| Succeeds(hash, nodes, h, q);
    assert Owns(hash, nodes, h, q.owner);
  }

  /** Every key has an owner, and it is unambiguous for every key exactly when no two
      backends share a hash. */
  lemma OwnerUniqueIff(hash: Hasher, nodes: set<Node>)
    ensures nodes != {} ==> forall h: Hash :: HasOwner(hash, nodes, h)
    ensures NoClash(hash, nodes) <==> forall h: Hash :: OneOwner(hash, nodes, h)
  {
    if nodes != {} {
      forall h: Hash ensures HasOwner(hash, nodes, h) { OwnerExists(hash, nodes, h); }
    }
    if NoClash(hash, nodes) {
      forall h: Hash ensures OneOwner(hash, nodes, h) {
        forall a, b | Owns(hash, nodes, h, a) && Owns(hash, nodes, h, b) ensures a == b {
          var p :| Succeeds(hash, nodes, h, p) && p.owner == a;
          var q :| Succeeds(hash, nodes, h, q) && q.owner == b;
          assert Distance(h, p.hash) == Distance(h, q.hash);
        }
      }
    } else {
      var p, q :| OnRing(hash, nodes, p) && OnRing(hash, nodes, q) && p.hash == q.hash && p.owner != q.owner;
      assert Distance(p.hash, p.hash) == 0;
      assert Succeeds(hash, nodes, p.hash, p) && Succeeds(hash, nodes, p.hash, q);
      assert Owns(hash, nodes, p.hash, p.owner) && Owns(hash, nodes, p.hash, q.owner);
      assert !OneOwner(hash, nodes, p.hash);
    }
  }

  /** The ring of `more` is the ring of `fewer` plus points of `changed` only. */
  ghost predicate GrowsBy(hash: Hasher, fewer: set<Node>, more: set<Node>, changed: string) {
    && (forall p :: OnRing(hash, fewer, p) ==> OnRing(hash, more, p))
    && (forall p :: OnRing(hash, more, p) && p.owner != changed ==> OnRing(hash, fewer, p))
  }

  function Without(nodes: set<Node>, address: string): set<Node> {
    set n | n in nodes && n.address != address
  }

  lemma RemovalShrinks(hash: Hasher, nodes: set<Node>, address: string)
    ensures GrowsBy(hash, Without(nodes, address), nodes, address)
  {}

  lemma RaisingGrows(hash: Hasher, nodes: set<Node>, address: string, low: int, high: int)
    requires low <= high
    ensures GrowsBy(hash, nodes + {Node(address, low)}, nodes + {Node(address, high)}, address)
  {
    var fewer, more := nodes + {Node(address, low)}, nodes + {Node(address, high)};
    forall p | OnRing(hash, fewer, p) ensures OnRing(hash, more, p) {
      var n, v: nat :| n in fewer && v < VirtualNodes(n.weight) && p == NodePoint(hash, n, v);
      if n in nodes {
        assert n in more;
      } else {
        assert Node(address, high) in more && p == NodePoint(hash, Node(address, high), v);
      }
    }
  }

  /** Minimal disruption: across a change of one backend, a key owned by another backend
      after it grew was owned by it before, and a key owned by another backend before it
      shrank stays. */
  lemma OnlyChangedMoves(hash: Hasher, fewer: set<Node>, more: set<Node>, changed: string, h: Hash, address: string)
    requires GrowsBy(hash, fewer, more, changed) && address != changed
    ensures Owns(hash, more, h, address) ==> Owns(hash, fewer, h, address)
  {
    if Owns(hash, more, h, address) {
      var p :| Succeeds(hash, more, h, p) && p.owner == address;
      assert Succeeds(hash, fewer, h, p);
    }
  }

  /** Removing a backend moves only the keys it owned. */
  lemma RemovalMovesOnlyItsKeys(hash: Hasher, nodes: set<Node>, removed: string, h: Hash, before: string, after: string)
    requires NoClash(hash, nodes)
    requires Owns(hash, nodes, h, before) && Owns(hash, Without(nodes, removed), h, after)
    ensures before != removed ==> after == before
  {
    RemovalShrinks(hash, nodes, removed);
    NoClashShrinks(hash, Without(nodes, removed), nodes, removed);
    OwnerUniqueIff(hash, Without(nodes, removed));
    if before != removed {
      OnlyChangedMoves(hash, Without(nodes, removed), nodes, removed, h, before);
      assert OneOwner(hash, Without(nodes, removed), h);
    }
  }

  lemma NoClashShrinks(hash: Hasher, fewer: set<Node>, more: set<Node>, changed: string)
    requires GrowsBy(hash, fewer, more, changed) && NoClash(hash, more)
    ensures NoClash(hash, fewer)
  {}

  lemma GrowthMovesOnto(hash: Hasher, fewer: set<Node>, more: set<Node>, changed: string, h: Hash,
                        before: string, after: string)
    requires GrowsBy(hash, fewer, more, changed) && NoClash(hash, more)
    requires Owns(hash, fewer, h, before) && Owns(hash, more, h, after)
    ensures after == before || after == changed
  {
    NoClashShrinks(hash, fewer, more, changed);
    OwnerUniqueIff(hash, fewer);
    if after != changed {
      OnlyChangedMoves(hash, fewer, more, changed, h, after);
      assert OneOwner(hash, fewer, h);
    }
  }

  /** Adding a backend moves keys only onto it. */
  lemma AdditionMovesOnlyOntoIt(hash: Hasher, nodes: set<Node>, added: Node, h: Hash, before: string, after: string)
    requires (forall n :: n in nodes ==> n.address != added.address) && NoClash(hash, nodes + {added})
    requires Owns(hash, nodes, h, before) && Owns(hash, nodes + {added}, h, after)
    ensures after == before || after == added.address
  {
    RemovalShrinks(hash, nodes + {added}, added.address);
    assert Without(nodes + {added}, added.address) == nodes;
    GrowthMovesOnto(hash, nodes, nodes + {added}, added.address, h, before, after);
  }

  /** Raising a weight moves keys only onto that backend. */
  lemma RaisingMovesOnlyOntoIt(hash: Hasher, nodes: set<Node>, address: string, low: int, high: int, h: Hash,
                               before: string, after: string)
    requires low <= high && NoClash(hash, nodes + {Node(address, high)})
    requires Owns(hash, nodes + {Node(address, low)}, h, before)
    requires Owns(hash, nodes + {Node(address, high)}, h, after)
    ensures after == before || after == address
  {
    RaisingGrows(hash, nodes, address, low, high);
    GrowthMovesOnto(hash, nodes + {Node(address, low)}, nodes + {Node(address, high)}, address, h, before, after);
  }

  // ---------------------------------------------------------------------------
  // Sorting and searching the ring
  // ---------------------------------------------------------------------------

  ghost predicate SortedByHash(ring: seq<RingPoint>) {
    forall i, j :: 0 <= i < j < |ring| ==> ring[i].hash <= ring[j].hash
  }

  lemma InsertSorts(sorted: seq<RingPoint>, k: nat, p: RingPoint)
    requires SortedByHash(sorted) && k <= |sorted|
    requires forall i :: 0 <= i < k ==> sorted[i].hash < p.hash
    requires forall i :: k <= i < |sorted| ==> sorted[i].hash >= p.hash
    ensures SortedByHash(sorted[..k] + [p] + sorted[k..])
    ensures multiset(sorted[..k] + [p] + sorted[k..]) == multiset(sorted) + multiset([p])
  {
    var low, high := sorted[..k], sorted[k..];
    assert multiset(low + [p] + high) == multiset(sorted) + multiset([p]) by { assert sorted == low + high; }
    assert SortedByHash(low + [p] + high) by { InsertKeepsOrder(low, p, high); }
  }

  lemma InsertKeepsOrder(low: seq<RingPoint>, p: RingPoint, high: seq<RingPoint>)
    requires SortedByHash(low) && SortedByHash(high)
    requires forall i :: 0 <= i < |low| ==> low[i].hash <= p.hash
    requires forall j :: 0 <= j < |high| ==> p.hash <= high[j].hash
    ensures SortedByHash(low + [p] + high)
  {
    var middle := low + [p];
    assert SortedByHash(middle) by { JoinSorted(low, [p]); }
    forall i, j | 0 <= i < |middle| && 0 <= j < |high| ensures middle[i].hash <= high[j].hash {
      assert middle[i].hash <= p.hash;
    }
    JoinSorted(middle, high);
  }

  lemma JoinSorted(a: seq<RingPoint>, b: seq<RingPoint>)
    requires SortedByHash(a) && SortedByHash(b)
    requires forall i, j :: 0 <= i < |a| && 0 <= j < |b| ==> a[i].hash <= b[j].hash
    ensures SortedByHash(a + b)
  {}

  /** sort.Slice is not stable, so nothing more is promised about equal hashes. */
  method SortRing(ring: seq<RingPoint>) returns (sorted: seq<RingPoint>)
    ensures SortedByHash(sorted) && multiset(sorted) == multiset(ring)
  {
    sorted := [];
    for i := 0 to |ring|
      invariant SortedByHash(sorted) && multiset(sorted) == multiset(ring[..i])
    {
      var k := Search(sorted, ring[i].hash);
      assert ring[..i + 1] == ring[..i] + [ring[i]];
      InsertSorts(sorted, k, ring[i]);
      sorted := sorted[..k] + [ring[i]] + sorted[k..];
    }
    assert ring[..|ring|] == ring;
  }

  /** sort.Search: the first index whose hash is at least `h`. */
  method Search(ring: seq<RingPoint>, h: Hash) returns (index: nat)
    requires SortedByHash(ring)
    ensures index <= |ring|
    ensures forall i :: 0 <= i < index ==> ring[i].hash < h
    ensures forall i :: index <= i < |ring| ==> ring[i].hash >= h
  {
    var lo, hi := 0, |ring|;
    while lo < hi
      invariant 0 <= lo <= hi <= |ring|
      invariant forall i :: 0 <= i < lo ==> ring[i].hash < h
      invariant forall i :: hi <= i < |ring| ==> ring[i].hash >= h
    {
      var mid := (lo + hi) / 2;
      if ring[mid].hash < h {
        lo := mid + 1;
      } else {
        hi := mid;
      }
    }
    index := lo;
  }

  /** Binary search with wrap-around refines the linear definition of the successor. */
  lemma SearchFindsNearest(ring: seq<RingPoint>, h: Hash, index: nat, j: nat)
    requires SortedByHash(ring) && ring != [] && index <= |ring| && j < |ring|
    requires forall i :: 0 <= i < index ==> ring[i].hash < h
    requires forall i :: index <= i < |ring| ==> ring[i].hash >= h
    ensures Distance(h, ring[if index == |ring| then 0 else index].hash) <= Distance(h, ring[j].hash)
  {}
}
