/** The five selection algorithms: which entry each may pick, and what a pick does. */
module Selection {
  import opened Wire
  import opened Backends
  import opened HashRing

  function Weight(e: Entry): (w: int)
    ensures w >= 1
  {
    Clamp(e.weight)
  }

  /** Active connections per unit of weight, compared as exact fractions. */
  predicate Lighter(a: Entry, b: Entry) {
    a.activeConns * Weight(b) < b.activeConns * Weight(a)
  }

  predicate InBounds(entries: seq<Entry>, slots: seq<nat>) {
    forall k :: 0 <= k < |slots| ==> slots[k] < |entries|
  }

  /** The least loaded slot; of equally loaded ones, the first. */
  function Best(entries: seq<Entry>, slots: seq<nat>): (i: nat)
    requires slots != [] && InBounds(entries, slots)
    ensures i in slots && i < |entries|
  {
    if |slots| == 1 then slots[0]
    else
      var n := |slots| - 1;
      var before := Best(entries, slots[..n]);
      if Lighter(entries[slots[n]], entries[before]) then slots[n] else before
  }

  lemma LighterTransitive(a: Entry, b: Entry, c: Entry)
    requires !Lighter(b, a) && !Lighter(c, b)
    ensures !Lighter(c, a)
  {
    RatiosTransitive(a.activeConns, b.activeConns, c.activeConns, Weight(a), Weight(b), Weight(c));
  }

  /** x / u <= y / v and y / v <= z / w give x / u <= z / w. */
  lemma RatiosTransitive(x: int, y: int, z: int, u: int, v: int, w: int)
    requires u > 0 && v > 0 && w > 0 && x * v <= y * u && y * w <= z * v
    ensures x * w <= z * u
  {
    Scale(x * v, y * u, w);
    Scale(y * w, z * v, u);
    Swap(x, v, w);
    Swap(y, u, w);
    Swap(z, v, u);
    Unscale(x * w, z * u, v);
  }

  lemma Swap(x: int, v: int, w: int)
    ensures x * v * w == x * w * v
  {}

  lemma Scale(x: int, y: int, w: int)
    requires x <= y && w >= 0
    ensures x * w <= y * w
  {}

  lemma Unscale(x: int, y: int, w: int)
    requires x * w <= y * w && w >= 1
    ensures x <= y
  {
    assert (y + 1) * w == y * w + w;
    if x > y { Scale(y + 1, x, w); }
  }

  /** No slot is lighter than the best one. */
  lemma {:induction false} BestIsLeast(entries: seq<Entry>, slots: seq<nat>, k: nat)
    requires slots != [] && InBounds(entries, slots) && k < |slots|
    ensures !Lighter(entries[slots[k]], entries[Best(entries, slots)])
    decreases |slots|
  {
    var n := |slots| - 1;
    if n == 0 {
    } else {
      var before := Best(entries, slots[..n]);
      if k < n {
        BestIsLeast(entries, slots[..n], k);
        if Lighter(entries[slots[n]], entries[before]) {
          Asymmetric(entries[slots[n]], entries[before]);
          LighterTransitive(entries[slots[n]], entries[before], entries[slots[k]]);
        }
      }
    }
  }

  /** Of equally loaded slots the first wins: the best is lighter than all before it. */
  lemma {:induction false} BestIsFirst(entries: seq<Entry>, slots: seq<nat>) returns (at: nat)
    requires slots != [] && InBounds(entries, slots)
    ensures at < |slots| && slots[at] == Best(entries, slots)
    ensures forall k :: 0 <= k < at ==> Lighter(entries[slots[at]], entries[slots[k]])
    decreases |slots|
  {
    var n := |slots| - 1;
    if n == 0 {
      at := 0;
    } else {
      var before := Best(entries, slots[..n]);
      at := BestIsFirst(entries, slots[..n]);
      if Lighter(entries[slots[n]], entries[before]) {
        at := n;
        forall k | 0 <= k < n ensures Lighter(entries[slots[n]], entries[slots[k]]) {
          BestIsLeast(entries, slots[..n], k);
          LighterThanHeavier(entries[slots[n]], entries[before], entries[slots[k]]);
        }
      }
    }
  }

  lemma LighterThanHeavier(a: Entry, b: Entry, c: Entry)
    requires Lighter(a, b) && !Lighter(c, b)
    ensures Lighter(a, c)
  {
    if !Lighter(a, c) { LighterTransitive(b, c, a); }
  }

  /** The better of two draws is one of them, is not heavier than the other, and is the first
      when they tie. */
  lemma BetterOfTwoIs(s: State, x: nat, y: nat, i: nat)
    requires InBounds(s.entries, s.slots) && IsBetterOfTwo(s, x, y, i)
    ensures i == s.slots[x] || i == s.slots[y]
    ensures !Lighter(s.entries[s.slots[x]], s.entries[i]) && !Lighter(s.entries[s.slots[y]], s.entries[i])
    ensures !Lighter(s.entries[s.slots[y]], s.entries[s.slots[x]]) ==> i == s.slots[x]
  {}

  lemma Asymmetric(a: Entry, b: Entry)
    requires Lighter(a, b)
    ensures !Lighter(b, a)
  {}

  // ---------------------------------------------------------------------------
  // What a selection may pick
  // ---------------------------------------------------------------------------

  function Nodes(entries: seq<Entry>, slots: seq<nat>): set<Node>
    requires InBounds(entries, slots)
  {
    set k | 0 <= k < |slots| :: Node(entries[slots[k]].address, entries[slots[k]].weight)
  }

  /** A draw of math/rand: every value below n arises from some d. */
  function Intn(d: nat, n: int): (r: nat)
    requires n > 0
    ensures r < n && (d < n ==> r == d)
  {
    d % n
  }

  function AtCursor(s: State): nat
    requires s.slots != [] && s.next >= 0
  {
    s.slots[s.next % |s.slots|]
  }

  predicate UsesCursor(s: State, key: string) {
    s.algorithm.RoundRobin? || (s.algorithm.ConsistentHash? && key == "")
  }

  /** The lighter of two distinct random slots, the first when they tie. */
  predicate IsBetterOfTwo(s: State, x: nat, y: nat, i: nat)
    requires InBounds(s.entries, s.slots)
  {
    && x < |s.slots| && y < |s.slots| && (|s.slots| > 1 ==> x != y)
    && i == if Lighter(s.entries[s.slots[y]], s.entries[s.slots[x]]) then s.slots[y] else s.slots[x]
  }

  /** Entry `i` is a possible choice for `key` in `s`. */
  ghost predicate MayPick(hash: Hasher, s: State, key: string, i: nat)
    requires s.slots != [] && InBounds(s.entries, s.slots) && s.next >= 0
  {
    && i in s.slots
    && (UsesCursor(s, key) ==> i == AtCursor(s))
    && (s.algorithm.LeastConnections? ==> i == Best(s.entries, s.slots))
    && (s.algorithm.P2C? ==> exists x, y :: IsBetterOfTwo(s, x, y, i))
    && (s.algorithm.ConsistentHash? && key != "" ==>
          Owns(hash, Nodes(s.entries, s.slots), hash(key), s.entries[i].address))
  }

  /** What each algorithm may pick: the slot under the cursor, in rotation and for hashing
      without a key; any slot, at random; the least loaded; for hashing with a key, an owner. */
  lemma MayPickIs(hash: Hasher, s: State, key: string, i: nat)
    requires s.slots != [] && InBounds(s.entries, s.slots) && s.next >= 0
    ensures s.algorithm.RoundRobin? || (s.algorithm.ConsistentHash? && key == "") ==>
      (MayPick(hash, s, key, i) <==> i == s.slots[s.next % |s.slots|])
    ensures s.algorithm.Random? ==> (MayPick(hash, s, key, i) <==> i in s.slots)
    ensures s.algorithm.LeastConnections? ==> (MayPick(hash, s, key, i) <==> i == Best(s.entries, s.slots))
    ensures s.algorithm.ConsistentHash? && key != "" ==>
      (MayPick(hash, s, key, i) <==>
         i in s.slots && Owns(hash, Nodes(s.entries, s.slots), hash(key), s.entries[i].address))
  {}

  /** Only those two kinds of rotation move the cursor, and every pick counts one request. */
  lemma PickedIs(s: State, key: string, i: nat)
    requires i < |s.entries|
    ensures var rotates := s.algorithm.RoundRobin? || (s.algorithm.ConsistentHash? && key == "");
      var s' := Picked(s, key, i);
      && s'.next == (if rotates then (s.next + 1) % 0x1_0000_0000_0000_0000 else s.next)
      && |s'.entries| == |s.entries| && s'.slots == s.slots
      && forall j :: 0 <= j < |s.entries| ==>
           s'.entries[j].activeConns == s.entries[j].activeConns + if j == i then 1 else 0
  {}

  function Picked(s: State, key: string, i: nat): State
    requires i < |s.entries|
  {
    Increment(if UsesCursor(s, key) then s.(next := (s.next + 1) % CURSOR_MODULUS) else s, i)
  }

  // ---------------------------------------------------------------------------
  // Building the ring
  // ---------------------------------------------------------------------------

  function SlotPoint(hash: Hasher, entries: seq<Entry>, slot: nat, v: nat): RingPoint
    requires slot < |entries|
  {
    RingPoint(hash(Label(entries[slot].address, v)), slot)
  }

  /** `ring` holds exactly the virtual nodes of the chosen slots. */
  ghost predicate RingFor(hash: Hasher, entries: seq<Entry>, chosen: set<nat>, ring: seq<RingPoint>)
    requires forall s :: s in chosen ==> s < |entries|
  {
    && (forall k :: 0 <= k < |ring| ==>
          && ring[k].slot in chosen
          && exists v: nat :: v < VirtualNodes(entries[ring[k].slot].weight)
                              && ring[k] == SlotPoint(hash, entries, ring[k].slot, v))
    && (forall s, v: nat :: s in chosen && v < VirtualNodes(entries[s].weight) ==>
          SlotPoint(hash, entries, s, v) in ring)
  }

  method SlotPoints(hash: Hasher, entries: seq<Entry>, slot: nat) returns (points: seq<RingPoint>)
    requires slot < |entries|
    ensures RingFor(hash, entries, {slot}, points)
  {
    points := [];
    var vnodes := VirtualNodes(entries[slot].weight);
    for v := 0 to vnodes
      invariant |points| == v
      invariant forall k :: 0 <= k < v ==> points[k] == SlotPoint(hash, entries, slot, k)
    {
      points := points + [SlotPoint(hash, entries, slot, v)];
    }
    forall s, v: nat | s in {slot} && v < VirtualNodes(entries[s].weight)
      ensures SlotPoint(hash, entries, s, v) in points
    {
      assert points[v] == SlotPoint(hash, entries, slot, v);
    }
  }

  lemma RingForUnion(hash: Hasher, entries: seq<Entry>, a: set<nat>, b: set<nat>,
                     ring: seq<RingPoint>, more: seq<RingPoint>)
    requires (forall s :: s in a ==> s < |entries|) && (forall s :: s in b ==> s < |entries|)
    requires RingFor(hash, entries, a, ring) && RingFor(hash, entries, b, more)
    ensures RingFor(hash, entries, a + b, ring + more)
  {
    var all := ring + more;
    forall k | 0 <= k < |all|
      ensures all[k].slot in a + b
      ensures exists v: nat :: v < VirtualNodes(entries[all[k].slot].weight)
                               && all[k] == SlotPoint(hash, entries, all[k].slot, v)
    {
      assert if k < |ring| then all[k] == ring[k] else all[k] == more[k - |ring|];
    }
  }

  method BuildRing(hash: Hasher, entries: seq<Entry>, slots: seq<nat>) returns (ring: seq<RingPoint>)
    requires InBounds(entries, slots)
    ensures RingFor(hash, entries, set k | 0 <= k < |slots| :: slots[k], ring)
    ensures slots != [] ==> ring != []
  {
    var seen: set<nat> := {};
    ring := [];
    for i := 0 to |slots|
      invariant seen == set k | 0 <= k < i :: slots[k]
      invariant RingFor(hash, entries, seen, ring)
    {
      assert (set k | 0 <= k < i + 1 :: slots[k]) == (set k | 0 <= k < i :: slots[k]) + {slots[i]};
      if slots[i] in seen {
        continue;
      }
      var points := SlotPoints(hash, entries, slots[i]);
      RingForUnion(hash, entries, seen, {slots[i]}, ring, points);
      seen := seen + {slots[i]};
      ring := ring + points;
    }
    if slots != [] {
      assert slots[0] in seen && VirtualNodes(entries[slots[0]].weight) > 0;
      assert SlotPoint(hash, entries, slots[0], 0) in ring;
    }
  }

  lemma RingIsOnRing(hash: Hasher, entries: seq<Entry>, slots: seq<nat>, ring: seq<RingPoint>, p: Point)
    requires InBounds(entries, slots)
    requires RingFor(hash, entries, set k | 0 <= k < |slots| :: slots[k], ring)
    ensures OnRing(hash, Nodes(entries, slots), p) ==>
              exists k :: 0 <= k < |ring| && ring[k].hash == p.hash && entries[ring[k].slot].address == p.owner
  {
    if OnRing(hash, Nodes(entries, slots), p) {
      var n, v: nat :| n in Nodes(entries, slots) && v < VirtualNodes(n.weight) && p == NodePoint(hash, n, v);
      var k :| 0 <= k < |slots| && n == Node(entries[slots[k]].address, entries[slots[k]].weight);
      assert SlotPoint(hash, entries, slots[k], v) in ring;
    }
  }

  lemma PointOnRing(hash: Hasher, entries: seq<Entry>, slots: seq<nat>, ring: seq<RingPoint>, k: nat)
    requires InBounds(entries, slots) && k < |ring|
    requires RingFor(hash, entries, set j | 0 <= j < |slots| :: slots[j], ring)
    ensures ring[k].slot in slots
    ensures OnRing(hash, Nodes(entries, slots), Point(ring[k].hash, entries[ring[k].slot].address))
  {
    var slot := ring[k].slot;
    var v: nat :| v < VirtualNodes(entries[slot].weight) && ring[k] == SlotPoint(hash, entries, slot, v);
    var j :| 0 <= j < |slots| && slots[j] == slot;
    var n := Node(entries[slots[j]].address, entries[slots[j]].weight);
    assert n in Nodes(entries, slots) && NodePoint(hash, n, v) == Point(ring[k].hash, entries[slot].address);
  }

  lemma RingPermutes(hash: Hasher, entries: seq<Entry>, chosen: set<nat>, ring: seq<RingPoint>, sorted: seq<RingPoint>)
    requires forall s :: s in chosen ==> s < |entries|
    requires RingFor(hash, entries, chosen, ring) && multiset(ring) == multiset(sorted)
    ensures RingFor(hash, entries, chosen, sorted) && |ring| == |sorted|
  {
    assert forall r :: r in ring <==> r in multiset(ring);
    assert forall r :: r in sorted <==> r in multiset(sorted);
    assert |multiset(ring)| == |ring| && |multiset(sorted)| == |sorted|;
    forall k | 0 <= k < |sorted|
      ensures sorted[k].slot in chosen
      ensures exists v: nat :: v < VirtualNodes(entries[sorted[k].slot].weight)
                               && sorted[k] == SlotPoint(hash, entries, sorted[k].slot, v)
    {
      assert sorted[k] in ring;
    }
  }

  lemma NearestSucceeds(hash: Hasher, entries: seq<Entry>, slots: seq<nat>, ring: seq<RingPoint>, h: Hash, k: nat)
    requires InBounds(entries, slots) && k < |ring|
    requires RingFor(hash, entries, set j | 0 <= j < |slots| :: slots[j], ring)
    requires forall j :: 0 <= j < |ring| ==> Distance(h, ring[k].hash) <= Distance(h, ring[j].hash)
    ensures ring[k].slot in slots
    ensures Owns(hash, Nodes(entries, slots), h, entries[ring[k].slot].address)
  {
    PointOnRing(hash, entries, slots, ring, k);
    var p := Point(ring[k].hash, entries[ring[k].slot].address);
    forall q | OnRing(hash, Nodes(entries, slots), q) ensures Distance(h, p.hash) <= Distance(h, q.hash) {
      RingIsOnRing(hash, entries, slots, ring, q);
    }
    assert Succeeds(hash, Nodes(entries, slots), h, p);
  }

  /** Sort plus binary search finds the owner of the key's cyclic successor. */
  method LookupRing(hash: Hasher, entries: seq<Entry>, slots: seq<nat>, key: string) returns (i: nat)
    requires slots != [] && InBounds(entries, slots)
    ensures i in slots
    ensures Owns(hash, Nodes(entries, slots), hash(key), entries[i].address)
  {
    var ring := BuildRing(hash, entries, slots);
    var sorted := SortRing(ring);
    RingPermutes(hash, entries, set k | 0 <= k < |slots| :: slots[k], ring, sorted);
    var h := hash(key);
    var index := Search(sorted, h);
    ghost var found := index;
    if index == |sorted| {
      index := 0;
    }
    forall j | 0 <= j < |sorted| ensures Distance(h, sorted[index].hash) <= Distance(h, sorted[j].hash) {
      SearchFindsNearest(sorted, h, found, j);
    }
    NearestSucceeds(hash, entries, slots, sorted, h, index);
    i := sorted[index].slot;
  }

  /** One pass over the slots, considering each backend once. */
  method LeastLoaded(entries: seq<Entry>, slots: seq<nat>) returns (i: nat)
    requires slots != [] && InBounds(entries, slots)
    ensures i == Best(entries, slots)
  {
    var seen: set<nat> := {};
    var best: Option<nat> := None;
    for k := 0 to |slots|
      invariant seen == set j | 0 <= j < k :: slots[j]
      invariant k == 0 <==> best.None?
      invariant k > 0 ==> best == Some(Best(entries, slots[..k]))
    {
      assert (set j | 0 <= j < k + 1 :: slots[j]) == (set j | 0 <= j < k :: slots[j]) + {slots[k]};
      assert k > 0 ==> slots[..k + 1][..k] == slots[..k];
      var slot := slots[k];
      if slot in seen {
        SeenIsNotLighter(entries, slots[..k], slot);
        continue;
      }
      seen := seen + {slot};
      if best.None? || Lighter(entries[slot], entries[best.value]) {
        best := Some(slot);
      }
    }
    assert slots[..|slots|] == slots;
    i := best.value;
  }

  lemma SeenIsNotLighter(entries: seq<Entry>, slots: seq<nat>, slot: nat)
    requires slots != [] && InBounds(entries, slots) && slot in slots
    ensures !Lighter(entries[slot], entries[Best(entries, slots)])
  {
    var k :| 0 <= k < |slots| && slots[k] == slot;
    BestIsLeast(entries, slots, k);
  }
}
