/** Key affinity of consistent hashing on the list itself: the order of entries does not
    matter, and an update that drops a backend moves only its keys. */
module Affinity {
  import opened Wire
  import opened Backends
  import opened Selection
  import opened HashRing
  import opened BackendRuns
  import opened Accounting

  /** The backends a selection at `now` may reach. */
  function SelectableNodes(entries: seq<Entry>, now: int): set<Node> {
    set e | e in entries && Selectable(e, now) && e.weight > 0 :: Node(e.address, e.weight)
  }

  lemma NodesAreSelectable(entries: seq<Entry>, now: int)
    ensures InBounds(entries, Expand(entries, now))
    ensures Nodes(entries, Expand(entries, now)) == SelectableNodes(entries, now)
  {
    var slots := Expand(entries, now);
    ExpandInBounds(entries, now);
    forall n | n in SelectableNodes(entries, now) ensures n in Nodes(entries, slots) {
      var e :| e in entries && Selectable(e, now) && e.weight > 0 && n == Node(e.address, e.weight);
      var i :| 0 <= i < |entries| && entries[i] == e;
      ExpandMembers(entries, now, i);
      var k :| 0 <= k < |slots| && slots[k] == i;
    }
    forall n | n in Nodes(entries, slots) ensures n in SelectableNodes(entries, now) {
      var k :| 0 <= k < |slots| && n == Node(entries[slots[k]].address, entries[slots[k]].weight);
      assert slots[k] in slots;
      ExpandMembers(entries, now, slots[k]);
    }
  }

  /** The list hashes keys, with its slots as of `now`. */
  ghost predicate Hashes(s: State, now: int) {
    s.algorithm.ConsistentHash? && s.slots == Expand(s.entries, now) && s.slots != [] && s.next >= 0
  }

  /** Entry `i` is what `key` may be given at `now`. */
  ghost predicate Gets(hash: Hasher, s: State, now: int, key: string, i: nat) {
    Hashes(s, now) && key != "" && InBounds(s.entries, s.slots) && MayPick(hash, s, key, i)
  }

  lemma GetsOwner(hash: Hasher, s: State, now: int, key: string, i: nat)
    requires Gets(hash, s, now, key, i)
    ensures i < |s.entries| && Owns(hash, SelectableNodes(s.entries, now), hash(key), s.entries[i].address)
  {
    NodesAreSelectable(s.entries, now);
  }

  /** Lists with the same entries in any two orders give a key to the same backend, when no
      two backends share a ring hash. */
  lemma OrderDoesNotMatter(hash: Hasher, s: State, t: State, now: int, key: string, i: nat, j: nat)
    requires multiset(s.entries) == multiset(t.entries)
    requires Gets(hash, s, now, key, i) && Gets(hash, t, now, key, j)
    requires NoClash(hash, SelectableNodes(s.entries, now))
    ensures i < |s.entries| && j < |t.entries| && s.entries[i].address == t.entries[j].address
  {
    GetsOwner(hash, s, now, key, i);
    GetsOwner(hash, t, now, key, j);
    assert forall e :: e in s.entries <==> e in multiset(s.entries);
    assert forall e :: e in t.entries <==> e in multiset(t.entries);
    assert SelectableNodes(s.entries, now) == SelectableNodes(t.entries, now);
    OwnerUniqueIff(hash, SelectableNodes(s.entries, now));
    assert OneOwner(hash, SelectableNodes(s.entries, now), hash(key));
  }

  // ---------------------------------------------------------------------------
  // Updates that change one backend
  // ---------------------------------------------------------------------------

  function Listed(entries: seq<Entry>): set<Node> {
    set e | e in entries :: Node(e.address, e.weight)
  }

  function Offered(backends: seq<Backend>): set<Node> {
    set b | b in backends :: Node(b.address, Clamp(b.weight))
  }

  /** `backends` are the entries in any order, but for `changed`. */
  ghost predicate ChangesOnly(entries: seq<Entry>, backends: seq<Backend>, changed: string) {
    Without(Offered(backends), changed) == Without(Listed(entries), changed)
  }

  ghost predicate Drops(entries: seq<Entry>, backends: seq<Backend>, changed: string) {
    ChangesOnly(entries, backends, changed) && forall n :: n in Offered(backends) ==> n.address != changed
  }

  /** `changed` is added, or its weight is not lowered. */
  ghost predicate Raises(entries: seq<Entry>, backends: seq<Backend>, changed: string) {
    && ChangesOnly(entries, backends, changed)
    && forall n :: n in Listed(entries) && n.address == changed ==> RaisedIn(n, backends)
  }

  ghost predicate RaisedIn(n: Node, backends: seq<Backend>) {
    exists b :: b in backends && b.address == n.address && n.weight <= Clamp(b.weight)
  }

  /** What an update makes of a backend that was listed: its health, without its ejection. */
  lemma AdmittedStays(entries: seq<Entry>, b: Backend, e: Entry)
    requires DistinctEntries(entries) && e in entries && e.address == b.address
    ensures var a := Admit(b, Previous(entries));
      a.address == e.address && a.weight == Clamp(b.weight) && a.healthy == e.healthy && a.ejectedUntil == None
  {
    assert Previous(entries)[b.address] in entries;
  }

  ghost predicate Became(entries: seq<Entry>, backends: seq<Backend>, after: seq<Entry>) {
    |after| == |backends| && forall k :: 0 <= k < |after| ==> after[k] == Admit(backends[k], Previous(entries))
  }

  /** An offered backend whose old entry was selectable is reachable at the offered weight. */
  lemma OfferedReachable(entries: seq<Entry>, backends: seq<Backend>, after: seq<Entry>, now: int, e: Entry, b: Backend)
    requires DistinctEntries(entries) && Became(entries, backends, after)
    requires e in entries && Selectable(e, now) && b in backends && b.address == e.address
    ensures Node(b.address, Clamp(b.weight)) in SelectableNodes(after, now)
  {
    var k :| 0 <= k < |backends| && backends[k] == b;
    AdmittedStays(entries, b, e);
    assert after[k] in after;
  }

  /** A backend that stays and could be reached still can, with the same points. */
  lemma StaysReachable(entries: seq<Entry>, backends: seq<Backend>, after: seq<Entry>, now: int,
                       changed: string, n: Node)
    requires DistinctEntries(entries) && ChangesOnly(entries, backends, changed) && Became(entries, backends, after)
    requires n in Without(SelectableNodes(entries, now), changed)
    ensures n in SelectableNodes(after, now)
  {
    var e :| e in entries && Selectable(e, now) && e.weight > 0 && n == Node(e.address, e.weight);
    assert n in Without(Listed(entries), changed);
    assert n in Offered(backends);
    var b :| b in backends && Node(b.address, Clamp(b.weight)) == n;
    OfferedReachable(entries, backends, after, now, e, b);
  }

  /** A backend but `changed` that can be reached now could be before, or was ejected. */
  lemma WasReachable(entries: seq<Entry>, backends: seq<Backend>, after: seq<Entry>, now: int,
                     changed: string, n: Node)
    requires DistinctEntries(entries) && ChangesOnly(entries, backends, changed) && Became(entries, backends, after)
    requires n in SelectableNodes(after, now) && n.address != changed
    ensures n in Without(SelectableNodes(entries, now), changed) || WasEjected(entries, now, n.address)
  {
    var a :| a in after && Selectable(a, now) && a.weight > 0 && n == Node(a.address, a.weight);
    var k :| 0 <= k < |after| && after[k] == a;
    assert backends[k] in backends && n in Offered(backends);
    assert n in Without(Listed(entries), changed);
    var e :| e in entries && Node(e.address, e.weight) == n;
    AdmittedStays(entries, backends[k], e);
  }

  ghost predicate WasEjected(entries: seq<Entry>, now: int, address: string) {
    exists e :: e in entries && e.address == address && Ejected(e, now)
  }

  /** An owner of a key on a ring owns it on any smaller ring with all of the owner's points. */
  lemma OwnsOnSmaller(hash: Hasher, fewer: set<Node>, more: set<Node>, h: Hash, address: string)
    requires Owns(hash, more, h, address)
    requires forall p :: OnRing(hash, fewer, p) ==> OnRing(hash, more, p)
    requires forall p :: OnRing(hash, more, p) && p.owner == address ==> OnRing(hash, fewer, p)
    ensures Owns(hash, fewer, h, address)
  {
    var p :| Succeeds(hash, more, h, p) && p.owner == address;
    assert Succeeds(hash, fewer, h, p);
  }

  lemma SubsetOfRing(hash: Hasher, fewer: set<Node>, more: set<Node>, p: Point)
    requires OnRing(hash, fewer, p) && forall n :: n in fewer && n.address == p.owner ==> n in more
    ensures OnRing(hash, more, p)
  {
    var n, v: nat :| n in fewer && v < VirtualNodes(n.weight) && p == NodePoint(hash, n, v);
    assert n in more;
  }

  lemma RaisedOnRing(hash: Hasher, fewer: set<Node>, more: set<Node>, n: Node, high: Node, p: Point)
    requires n in fewer && high in more && n.address == high.address && n.weight <= high.weight
    requires exists v: nat :: v < VirtualNodes(n.weight) && p == NodePoint(hash, n, v)
    ensures OnRing(hash, more, p)
  {
    var v: nat :| v < VirtualNodes(n.weight) && p == NodePoint(hash, n, v);
    assert v < VirtualNodes(high.weight) && p == NodePoint(hash, high, v);
  }

  /** An update as seen by one key: what it had, what it gets, and what could be reached. */
  ghost predicate Moves(hash: Hasher, s: State, m: BackendSet, now: int, key: string, i: nat, j: nat) {
    && DistinctEntries(s.entries) && Accepts(s.version, m.version)
    && NoClash(hash, SelectableNodes(s.entries, now))
    && Gets(hash, s, now, key, i) && Gets(hash, Update(s, m, now), now, key, j)
  }

  /** Across an accepted update that drops one backend, a key of any other backend stays
      where it is, or moves onto a backend whose ejection the update cleared. */
  lemma DroppingMovesOnlyItsKeys(hash: Hasher, s: State, m: BackendSet, now: int, dropped: string,
                                 key: string, i: nat, j: nat)
    requires Moves(hash, s, m, now, key, i, j) && Drops(s.entries, m.backends, dropped)
    ensures i < |s.entries| && j < |Update(s, m, now).entries|
    ensures var before, after := s.entries[i].address, Update(s, m, now).entries[j].address;
      before == dropped || after == before || WasEjected(s.entries, now, after)
  {
    GetsOwner(hash, s, now, key, i);
    GetsOwner(hash, Update(s, m, now), now, key, j);
    var updated := Update(s, m, now).entries;
    var before, after := s.entries[i].address, updated[j].address;
    assert Became(s.entries, m.backends, updated);
    if before != dropped && !WasEjected(s.entries, now, after) {
      DroppedOwner(hash, s.entries, m.backends, updated, now, dropped, hash(key), after);
      RemovalMovesOnlyItsKeys(hash, SelectableNodes(s.entries, now), dropped, hash(key), before, after);
    }
  }

  lemma DroppedOwner(hash: Hasher, entries: seq<Entry>, backends: seq<Backend>, updated: seq<Entry>, now: int,
                     dropped: string, h: Hash, after: string)
    requires DistinctEntries(entries) && Drops(entries, backends, dropped) && Became(entries, backends, updated)
    requires Owns(hash, SelectableNodes(updated, now), h, after) && !WasEjected(entries, now, after)
    ensures Owns(hash, Without(SelectableNodes(entries, now), dropped), h, after)
  {
    var stay, reach := Without(SelectableNodes(entries, now), dropped), SelectableNodes(updated, now);
    forall p | OnRing(hash, stay, p) ensures OnRing(hash, reach, p) {
      forall n | n in stay ensures n in reach { StaysReachable(entries, backends, updated, now, dropped, n); }
      SubsetOfRing(hash, stay, reach, p);
    }
    forall p | OnRing(hash, reach, p) && p.owner == after ensures OnRing(hash, stay, p) {
      forall n | n in reach && n.address == after ensures n in stay {
        ReachIsOffered(entries, backends, updated, now, n);
        WasReachable(entries, backends, updated, now, dropped, n);
      }
      SubsetOfRing(hash, reach, stay, p);
    }
    OwnsOnSmaller(hash, stay, reach, h, after);
  }

  lemma ReachIsOffered(entries: seq<Entry>, backends: seq<Backend>, updated: seq<Entry>, now: int, n: Node)
    requires Became(entries, backends, updated) && n in SelectableNodes(updated, now)
    ensures n in Offered(backends)
  {
    var a :| a in updated && Selectable(a, now) && a.weight > 0 && n == Node(a.address, a.weight);
    var k :| 0 <= k < |updated| && updated[k] == a;
    assert backends[k] in backends;
  }

  /** Across an accepted update that adds a backend or raises its weight, a key stays where
      it is, or moves onto that backend or onto one whose ejection the update cleared. */
  lemma RaisingMovesOntoIt(hash: Hasher, s: State, m: BackendSet, now: int, raised: string,
                           key: string, i: nat, j: nat)
    requires Moves(hash, s, m, now, key, i, j) && Raises(s.entries, m.backends, raised)
    ensures i < |s.entries| && j < |Update(s, m, now).entries|
    ensures var before, after := s.entries[i].address, Update(s, m, now).entries[j].address;
      after == before || after == raised || WasEjected(s.entries, now, after)
  {
    GetsOwner(hash, s, now, key, i);
    GetsOwner(hash, Update(s, m, now), now, key, j);
    var updated := Update(s, m, now).entries;
    var before, after := s.entries[i].address, updated[j].address;
    assert Became(s.entries, m.backends, updated);
    if after != raised && !WasEjected(s.entries, now, after) {
      RaisedOwner(hash, s.entries, m.backends, updated, now, raised, hash(key), after);
      OwnerUniqueIff(hash, SelectableNodes(s.entries, now));
      assert OneOwner(hash, SelectableNodes(s.entries, now), hash(key));
    }
  }

  lemma RaisedOwner(hash: Hasher, entries: seq<Entry>, backends: seq<Backend>, updated: seq<Entry>, now: int,
                    raised: string, h: Hash, after: string)
    requires DistinctEntries(entries) && Raises(entries, backends, raised) && Became(entries, backends, updated)
    requires Owns(hash, SelectableNodes(updated, now), h, after)
    requires after != raised && !WasEjected(entries, now, after)
    ensures Owns(hash, SelectableNodes(entries, now), h, after)
  {
    var had, reach := SelectableNodes(entries, now), SelectableNodes(updated, now);
    forall p | OnRing(hash, had, p) ensures OnRing(hash, reach, p) {
      StillOnRing(hash, entries, backends, updated, now, raised, p);
    }
    forall p | OnRing(hash, reach, p) && p.owner == after ensures OnRing(hash, had, p) {
      forall n | n in reach && n.address == after ensures n in had {
        WasReachable(entries, backends, updated, now, raised, n);
      }
      SubsetOfRing(hash, reach, had, p);
    }
    OwnsOnSmaller(hash, had, reach, h, after);
  }

  lemma StillOnRing(hash: Hasher, entries: seq<Entry>, backends: seq<Backend>, updated: seq<Entry>, now: int,
                    raised: string, p: Point)
    requires DistinctEntries(entries) && Raises(entries, backends, raised) && Became(entries, backends, updated)
    requires OnRing(hash, SelectableNodes(entries, now), p)
    ensures OnRing(hash, SelectableNodes(updated, now), p)
  {
    var had, reach := SelectableNodes(entries, now), SelectableNodes(updated, now);
    var n, v: nat :| n in had && v < VirtualNodes(n.weight) && p == NodePoint(hash, n, v);
    if n.address != raised {
      StaysReachable(entries, backends, updated, now, raised, n);
    } else {
      var e :| e in entries && Selectable(e, now) && e.weight > 0 && n == Node(e.address, e.weight);
      assert n in Listed(entries) && RaisedIn(n, backends);
      var b :| b in backends && b.address == n.address && n.weight <= Clamp(b.weight);
      OfferedReachable(entries, backends, updated, now, e, b);
      RaisedOnRing(hash, had, reach, n, Node(b.address, Clamp(b.weight)), p);
    }
  }
}
