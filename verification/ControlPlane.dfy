/** The control-plane server: stored configuration, the wire form of a snapshot,
    change detection and publication. */
module ControlPlane {
  import opened Wire
  import opened Overrides
  import Publication

  datatype StickyConfig = StickyConfig(enabled: bool, cookieName: string, ttl: int)
  datatype RateLimitConfig = RateLimitConfig(enabled: bool, rps: real, burst: int)

  // ---------------------------------------------------------------------------
  // Stored settings and their wire form
  // ---------------------------------------------------------------------------

  const VALID_ALGORITHMS: seq<string> :=
    ["round_robin", "least_connections", "random", "p2c", "consistent_hash"]

  datatype Stores = Stores(
    overrides: Table,
    algorithms: map<string, string>,
    sticky: map<string, StickyConfig>,
    rateLimits: map<string, RateLimitConfig>)

  function AlgorithmOf(algorithms: map<string, string>, group: string): string {
    if group in algorithms && algorithms[group] in VALID_ALGORITHMS then algorithms[group] else "round_robin"
  }

  function StickyOf(sticky: map<string, StickyConfig>, group: string): StickyConfig {
    if group in sticky then sticky[group] else StickyConfig(false, "", 0)
  }

  function RateLimitOf(rateLimits: map<string, RateLimitConfig>, group: string): RateLimitConfig {
    if group in rateLimits then rateLimits[group] else RateLimitConfig(false, 0.0, 0)
  }

  function EffectiveRps(c: RateLimitConfig): (rps: real)
    ensures rps > 0.0
  {
    if c.rps <= 0.0 then 10.0 else c.rps
  }

  function EffectiveBurst(c: RateLimitConfig): (burst: int)
    ensures burst >= 1
  {
    if c.burst > 0 then c.burst
    else if EffectiveRps(c).Floor < 1 then 1 else EffectiveRps(c).Floor
  }

  /** The settings of a set, without its backends and version. */
  datatype Settings = Settings(
    algorithm: string, sticky: bool, cookieName: string, ttlSeconds: int, rps: real, burst: int)

  function StoredSettings(c: Stores, group: string): Settings {
    var sticky := StickyOf(c.sticky, group);
    var limit := RateLimitOf(c.rateLimits, group);
    Settings(
      AlgorithmOf(c.algorithms, group),
      sticky.enabled,
      if sticky.cookieName == "" then "jb_affinity" else sticky.cookieName,
      (if sticky.ttl <= 0 then 1800 * SECOND else sticky.ttl) / SECOND,
      if limit.enabled then EffectiveRps(limit) else 0.0,
      if !limit.enabled then 0
      else if EffectiveBurst(limit) > MAX_INT32 then MAX_INT32 else EffectiveBurst(limit))
  }

  function WireSettings(m: BackendSet): Settings {
    Settings(m.algorithm, m.sticky, m.stickyCookieName, m.stickyTtlSeconds, m.rateLimitRps, m.rateLimitBurst)
  }

  /** One provider backend as data planes see it: nothing when drained, with the
      overriding weight when there is one. */
  function Adjusted(b: Backend, overrides: map<string, Override>): seq<Backend> {
    if b.address !in overrides then [b]
    else if overrides[b.address].drained then []
    else if overrides[b.address].weight.Some? then [b.(weight := overrides[b.address].weight.value)]
    else [b]
  }

  function Effective(snapshot: seq<Backend>, overrides: map<string, Override>): seq<Backend> {
    if snapshot == [] then []
    else Effective(snapshot[..|snapshot| - 1], overrides) + Adjusted(snapshot[|snapshot| - 1], overrides)
  }

  function ToBackendSet(group: string, snapshot: seq<Backend>, c: Stores): BackendSet {
    var s := StoredSettings(c, group);
    BackendSet(group, Effective(snapshot, OfGroup(c.overrides, group)), 0,
               s.algorithm, s.sticky, s.cookieName, s.ttlSeconds, s.rps, s.burst)
  }

  predicate IsDrained(overrides: map<string, Override>, address: string) {
    address in overrides && overrides[address].drained
  }

  /** The weight a backend goes out with: the override's where it gives one. */
  function WireWeight(b: Backend, overrides: map<string, Override>): int {
    if b.address in overrides && overrides[b.address].weight.Some? then overrides[b.address].weight.value
    else b.weight
  }

  /** How many of the backends are not drained. */
  function Undrained(snapshot: seq<Backend>, overrides: map<string, Override>): nat {
    if snapshot == [] then 0
    else
      var n := |snapshot| - 1;
      Undrained(snapshot[..n], overrides) + if IsDrained(overrides, snapshot[n].address) then 0 else 1
  }

  lemma {:induction false} EffectiveCount(snapshot: seq<Backend>, overrides: map<string, Override>)
    ensures |Effective(snapshot, overrides)| == Undrained(snapshot, overrides)
  {
    if snapshot == [] {
    } else {
      EffectiveCount(snapshot[..|snapshot| - 1], overrides);
    }
  }

  /** The effective list is the snapshot without its drained backends, in order, each with
      the overriding weight where one is set. */
  lemma {:induction false} EffectiveAt(snapshot: seq<Backend>, overrides: map<string, Override>, i: nat)
    requires i < |snapshot| && !IsDrained(overrides, snapshot[i].address)
    ensures |Effective(snapshot, overrides)| == Undrained(snapshot, overrides)
    ensures var k := Undrained(snapshot[..i], overrides);
      && k < |Effective(snapshot, overrides)|
      && Effective(snapshot, overrides)[k] == Backend(snapshot[i].address, WireWeight(snapshot[i], overrides))
  {
    var n := |snapshot| - 1;
    EffectiveCount(snapshot, overrides);
    EffectiveCount(snapshot[..n], overrides);
    if i == n {
    } else {
      EffectiveAt(snapshot[..n], overrides, i);
      assert snapshot[..n][..i] == snapshot[..i];
    }
  }

  /** Some undrained backend of the snapshot goes out as `b`. */
  predicate GoesOutAs(snapshot: seq<Backend>, overrides: map<string, Override>, b: Backend) {
    exists i :: 0 <= i < |snapshot| && !IsDrained(overrides, snapshot[i].address)
                && b == Backend(snapshot[i].address, WireWeight(snapshot[i], overrides))
  }

  lemma GoesOutSnoc(snapshot: seq<Backend>, overrides: map<string, Override>, b: Backend)
    requires snapshot != []
    ensures var n := |snapshot| - 1;
      GoesOutAs(snapshot, overrides, b) <==>
        || GoesOutAs(snapshot[..n], overrides, b)
        || (!IsDrained(overrides, snapshot[n].address)
            && b == Backend(snapshot[n].address, WireWeight(snapshot[n], overrides)))
  {
    var init := snapshot[..|snapshot| - 1];
    if i :| 0 <= i < |init| && !IsDrained(overrides, init[i].address)
            && b == Backend(init[i].address, WireWeight(init[i], overrides)) {
      assert snapshot[i] == init[i];
    }
  }

  /** Drained addresses never reach the wire; every other backend does, at its own weight or
      the overriding one. */
  lemma {:induction false} EffectiveBackends(snapshot: seq<Backend>, overrides: map<string, Override>, b: Backend)
    ensures b in Effective(snapshot, overrides) <==> GoesOutAs(snapshot, overrides, b)
    ensures b in Effective(snapshot, overrides) ==> !IsDrained(overrides, b.address)
  {
    if snapshot == [] {
    } else {
      EffectiveBackends(snapshot[..|snapshot| - 1], overrides, b);
      GoesOutSnoc(snapshot, overrides, b);
    }
  }

  method SnapshotToBackendSet(group: string, snapshot: seq<Backend>, overrides: map<string, Override>,
                              algorithm: string, sticky: StickyConfig, limit: RateLimitConfig)
    returns (next: BackendSet)
    ensures next.group == group && next.backends == Effective(snapshot, overrides)
    ensures forall c: Stores ::
      && OfGroup(c.overrides, group) == overrides && AlgorithmOf(c.algorithms, group) == algorithm
      && StickyOf(c.sticky, group) == sticky && RateLimitOf(c.rateLimits, group) == limit
      ==> next == ToBackendSet(group, snapshot, c)
  {
    var backends: seq<Backend> := [];
    for i := 0 to |snapshot|
      invariant backends == Effective(snapshot[..i], overrides)
    {
      assert snapshot[..i + 1][..i] == snapshot[..i];
      var b := snapshot[i];
      if b.address in overrides && overrides[b.address].drained {
        continue;
      }
      var weight := b.weight;
      if b.address in overrides && overrides[b.address].weight.Some? {
        weight := overrides[b.address].weight.value;
      }
      backends := backends + [Backend(b.address, weight)];
    }
    assert snapshot[..|snapshot|] == snapshot;
    var rps, burst := 0.0, 0;
    if limit.enabled {
      rps := EffectiveRps(limit);
      burst := EffectiveBurst(limit);
      if burst > MAX_INT32 {
        burst := MAX_INT32;
      }
    }
    var cookie := if sticky.cookieName == "" then "jb_affinity" else sticky.cookieName;
    var ttl := if sticky.ttl <= 0 then 1800 * SECOND else sticky.ttl;
    next := BackendSet(group, backends, 0, algorithm, sticky.enabled, cookie, ttl / SECOND, rps, burst);
  }

  // ---------------------------------------------------------------------------
  // Change detection
  // ---------------------------------------------------------------------------

  ghost predicate SameBackends(a: seq<Backend>, b: seq<Backend>) {
    DistinctAddresses(a) && DistinctAddresses(b) && multiset(a) == multiset(b)
  }

  lemma DistinctCounts(s: seq<Backend>, x: Backend)
    requires DistinctAddresses(s)
    ensures multiset(s)[x] == if x in s then 1 else 0
  {
    if s == [] {
    } else {
      DistinctCounts(s[..|s| - 1], x);
      assert s == s[..|s| - 1] + [s[|s| - 1]];
    }
  }

  function AddressSet(backends: seq<Backend>): set<string> {
    set b | b in backends :: b.address
  }

  lemma AddressSetSnoc(backends: seq<Backend>, b: Backend)
    ensures AddressSet(backends + [b]) == AddressSet(backends) + {b.address}
  {
    assert forall x :: x in backends + [b] <==> x in backends || x == b;
  }

  lemma Snoc(backends: seq<Backend>)
    requires backends != []
    ensures backends == backends[..|backends| - 1] + [backends[|backends| - 1]]
    ensures AddressSet(backends)
         == AddressSet(backends[..|backends| - 1]) + {backends[|backends| - 1].address}
  {
    AddressSetSnoc(backends[..|backends| - 1], backends[|backends| - 1]);
    assert backends == backends[..|backends| - 1] + [backends[|backends| - 1]];
  }

  lemma {:induction false} DistinctAddressSet(backends: seq<Backend>)
    ensures |AddressSet(backends)| <= |backends|
    ensures DistinctAddresses(backends) ==> |AddressSet(backends)| == |backends|
  {
    if backends == [] {
    } else {
      Snoc(backends);
      DistinctAddressSet(backends[..|backends| - 1]);
    }
  }

  lemma {:induction false} FullAddressSet(backends: seq<Backend>)
    requires |AddressSet(backends)| == |backends|
    ensures DistinctAddresses(backends)
  {
    if backends == [] {
    } else {
      var n := |backends| - 1;
      Snoc(backends);
      DistinctAddressSet(backends[..n]);
      FullAddressSet(backends[..n]);
      assert backends[n].address !in AddressSet(backends[..n]);
      forall i, j | 0 <= i < j < |backends| ensures backends[i].address != backends[j].address {
        assert backends[i] in backends[..n];
        if j < n { assert backends[..n][i].address != backends[..n][j].address; }
      }
    }
  }

  /** Lists without repeated addresses are permutations when one contains the other
      and their lengths agree. */
  lemma DistinctPermutation(a: seq<Backend>, b: seq<Backend>)
    requires DistinctAddresses(a) && DistinctAddresses(b) && |a| == |b|
    requires forall j :: 0 <= j < |b| ==> b[j] in a
    ensures multiset(a) == multiset(b)
  {
    forall x: Backend ensures multiset(b)[x] <= multiset(a)[x] {
      DistinctCounts(a, x);
      DistinctCounts(b, x);
    }
    assert multiset(b) <= multiset(a);
    assert |multiset(a) - multiset(b)| == 0;
    assert multiset(a) == multiset(b) + (multiset(a) - multiset(b));
  }

  /** The address-to-weight table of a list; a repeated address keeps its last weight. */
  function Weights(backends: seq<Backend>): (m: map<string, int>)
    ensures m.Keys == AddressSet(backends)
    ensures forall a :: a in m ==> Backend(a, m[a]) in backends
  {
    if backends == [] then map[]
    else
      var n := |backends| - 1;
      Snoc(backends);
      Weights(backends[..n])[backends[n].address := backends[n].weight]
  }

  /** A backend that is a repeat, or has no partner of equal weight, makes the lists differ. */
  lemma MismatchDiffers(a: seq<Backend>, b: seq<Backend>, j: nat)
    requires j < |b|
    requires b[j].address in Weights(a) && Weights(a)[b[j].address] == b[j].weight ==>
               b[j].address in AddressSet(b[..j])
    ensures !SameBackends(a, b)
  {
    var x := b[j];
    if x.address in AddressSet(b[..j]) {
      var y :| y in b[..j] && y.address == x.address;
      var k :| 0 <= k < j && b[k] == y;
    } else {
      assert x in multiset(b);
      if x in a {
        var i :| 0 <= i < |a| && a[i] == x;
        assert x.address in AddressSet(a);
        var k :| 0 <= k < |a| && a[k] == Backend(x.address, Weights(a)[x.address]);
        assert i != k && a[i].address == a[k].address;
      }
    }
  }

  /** Lists of one length, the second without repeats and matched throughout, agree. */
  lemma MatchedAgrees(a: seq<Backend>, b: seq<Backend>)
    requires |a| == |b| && DistinctAddresses(b)
    requires forall k :: 0 <= k < |b| ==>
               b[k].address in Weights(a) && Weights(a)[b[k].address] == b[k].weight
    ensures SameBackends(a, b) && AddressSet(a) == AddressSet(b)
  {
    DistinctAddressSet(a);
    DistinctAddressSet(b);
    Subset(AddressSet(b), AddressSet(a));
    FullAddressSet(a);
    DistinctPermutation(a, b);
  }

  method CountWeights(backends: seq<Backend>) returns (count: map<string, int>)
    ensures count == Weights(backends)
  {
    count := map[];
    for i := 0 to |backends|
      invariant count == Weights(backends[..i])
    {
      assert backends[..i + 1][..i] == backends[..i];
      count := count[backends[i].address := backends[i].weight];
    }
    assert backends[..|backends|] == backends;
  }

  /** The first `j` backends of `b` are distinct and matched in `weights`; `count` is
      what is left of `weights`. */
  ghost predicate Matching(b: seq<Backend>, j: nat, weights: map<string, int>, count: map<string, int>)
    requires j <= |b|
  {
    && count == weights - AddressSet(b[..j])
    && DistinctAddresses(b[..j])
    && forall k :: 0 <= k < j ==> b[k].address in weights && weights[b[k].address] == b[k].weight
  }

  lemma MatchNext(b: seq<Backend>, j: nat, weights: map<string, int>, count: map<string, int>)
    requires j < |b| && Matching(b, j, weights, count)
    requires b[j].address in count && count[b[j].address] == b[j].weight
    ensures Matching(b, j + 1, weights, count - {b[j].address})
  {
    assert b[..j + 1] == b[..j] + [b[j]];
    AddressSetSnoc(b[..j], b[j]);
    var c := b[..j + 1];
    forall i, k | 0 <= i < k < |c| ensures c[i].address != c[k].address {
      assert b[i] in b[..j];
      if k < j { assert b[..j][i].address != b[..j][k].address; }
    }
  }

  lemma MatchEnds(a: seq<Backend>, b: seq<Backend>, count: map<string, int>)
    requires |a| == |b| && Matching(b, |b|, Weights(a), count)
    ensures SameBackends(a, b) && |count| == 0
  {
    assert b[..|b|] == b;
    MatchedAgrees(a, b);
    assert count.Keys == {};
  }

  method MatchWeights(a: seq<Backend>, b: seq<Backend>, weights: map<string, int>) returns (same: bool)
    requires |a| == |b| && weights == Weights(a)
    ensures same == SameBackends(a, b)
  {
    var count := weights;
    for j := 0 to |b|
      invariant Matching(b, j, weights, count)
    {
      var x := b[j];
      if x.address !in count || count[x.address] != x.weight {
        MismatchDiffers(a, b, j);
        return false;
      }
      MatchNext(b, j, weights, count);
      count := count - {x.address};
    }
    MatchEnds(a, b, count);
    return |count| == 0;
  }

  method BackendSetsEqual(a: Option<BackendSet>, b: Option<BackendSet>) returns (same: bool)
    ensures a.None? || b.None? ==> same == (a == b)
    ensures a.Some? && b.Some? ==> same == SameBackends(a.value.backends, b.value.backends)
  {
    if a.None? || b.None? {
      return a.None? && b.None?;
    }
    if |a.value.backends| != |b.value.backends| {
      assert |multiset(a.value.backends)| != |multiset(b.value.backends)|;
      return false;
    }
    var count := CountWeights(a.value.backends);
    same := MatchWeights(a.value.backends, b.value.backends, count);
  }

  lemma Subset<T>(a: set<T>, b: set<T>)
    requires a <= b && |b| <= |a|
    ensures a == b
  {
    assert |b - a| == |b| - |a|;
  }

  // ---------------------------------------------------------------------------
  // Operations on the whole control plane, as one value
  // ---------------------------------------------------------------------------

  datatype Plane = Plane(stores: Stores, server: Publication.ServerState)

  ghost function Reconciled(p: Plane, group: string, snapshot: seq<Backend>): Plane {
    var next := ToBackendSet(group, snapshot, p.stores);
    if group in p.server.last && SameBackends(p.server.last[group].backends, next.backends) then p
    else p.(server := Publication.Publish(p.server, group, next))
  }

  function Republished(p: Plane, group: string, snapshot: Option<seq<Backend>>): Plane {
    if snapshot.None? then p
    else p.(server := Publication.Publish(p.server, group, ToBackendSet(group, snapshot.value, p.stores)))
  }

  /** What an administrator stores for a group. */
  datatype Change =
    | PutOverride(address: string, weight: Option<int>, drained: bool)
    | DropOverride(address: string)
    | PutAlgorithm(algorithm: string)
    | PutSticky(sticky: StickyConfig)
    | PutRateLimit(limit: RateLimitConfig)

  predicate Rejected(change: Change) {
    change.PutAlgorithm? && change.algorithm !in VALID_ALGORITHMS
  }

  function Store(c: Stores, group: string, change: Change): Stores {
    match change
    case PutOverride(a, w, d) => c.(overrides := WithOverride(c.overrides, group, a, Override(w, d)))
    case DropOverride(a) => c.(overrides := WithoutOverride(c.overrides, group, a))
    case PutAlgorithm(a) => c.(algorithms := c.algorithms[group := a])
    case PutSticky(s) => c.(sticky := c.sticky[group := s])
    case PutRateLimit(l) => c.(rateLimits := c.rateLimits[group := l])
  }

  /** An administrative change: rejected outright, or stored in memory, and then
      republished when it was persisted and the provider answers. */
  function Administer(p: Plane, group: string, change: Change, persisted: bool,
                      snapshot: Option<seq<Backend>>): Plane
  {
    if Rejected(change) then p else
    var stored := p.(stores := Store(p.stores, group, change));
    if persisted then Republished(stored, group, snapshot) else stored
  }

  /** `snapshot` None means that the provider failed to answer. */
  datatype Op =
    | Reconcile(group: string, snapshot: Option<seq<Backend>>)
    | Admin(group: string, change: Change, persisted: bool, snapshot: Option<seq<Backend>>)

  ghost function ApplyOp(p: Plane, op: Op): Plane {
    match op
    case Reconcile(group, snapshot) =>
      if snapshot.None? then p else Reconciled(p, group, snapshot.value)
    case Admin(group, change, persisted, snapshot) => Administer(p, group, change, persisted, snapshot)
  }

  /** What an operation publishes for its group, if anything. */
  ghost function Content(p: Plane, op: Op): Option<BackendSet> {
    match op
    case Reconcile(g, snapshot) =>
      if snapshot.None? then None else
      var next := ToBackendSet(g, snapshot.value, p.stores);
      if g in p.server.last && SameBackends(p.server.last[g].backends, next.backends) then None else Some(next)
    case Admin(g, change, persisted, snapshot) =>
      if Rejected(change) || !persisted || snapshot.None? then None
      else Some(ToBackendSet(g, snapshot.value, Store(p.stores, g, change)))
  }

  lemma ContentIsPublished(p: Plane, op: Op)
    ensures var content := Content(p, op);
      ApplyOp(p, op).server
        == if content.Some? then Publication.Publish(p.server, op.group, content.value) else p.server
  {}

  ghost function RunOps(p: Plane, ops: seq<Op>): Plane {
    if ops == [] then p
    else ApplyOp(RunOps(p, ops[..|ops| - 1]), ops[|ops| - 1])
  }

  predicate Effectual(op: Op, group: string) {
    op.group == group && (op.Admin? ==> !Rejected(op.change))
  }

  /** Store writes and provider snapshots of the group all succeed. */
  predicate AllSucceed(ops: seq<Op>, group: string) {
    forall i :: 0 <= i < |ops| && Effectual(ops[i], group) ==>
      ops[i].snapshot.Some? && (ops[i].Admin? ==> ops[i].persisted)
  }

  /** The provider's answer in the last operation on the group. */
  function LatestSnapshot(ops: seq<Op>, group: string): Option<seq<Backend>> {
    if ops == [] then None
    else if Effectual(ops[|ops| - 1], group) then ops[|ops| - 1].snapshot
    else LatestSnapshot(ops[..|ops| - 1], group)
  }

  /** The wire agrees with a snapshot and the stored configuration of the group. */
  ghost predicate WireAgrees(p: Plane, group: string, snapshot: seq<Backend>) {
    && group in p.server.last
    && multiset(p.server.last[group].backends)
         == multiset(Effective(snapshot, OfGroup(p.stores.overrides, group)))
    && WireSettings(p.server.last[group]) == StoredSettings(p.stores, group)
  }

  lemma StoreFrame(c: Stores, changed: string, change: Change, group: string)
    requires changed != group
    ensures StoredSettings(Store(c, changed, change), group) == StoredSettings(c, group)
    ensures OfGroup(Store(c, changed, change).overrides, group) == OfGroup(c.overrides, group)
  {}

  /** An operation on one group leaves every other group alone. */
  lemma OtherGroupFrame(p: Plane, op: Op, group: string)
    requires op.group != group
    ensures StoredSettings(ApplyOp(p, op).stores, group) == StoredSettings(p.stores, group)
    ensures OfGroup(ApplyOp(p, op).stores.overrides, group) == OfGroup(p.stores.overrides, group)
    ensures Publication.Current(ApplyOp(p, op).server, group) == Publication.Current(p.server, group)
  {
    if op.Admin? {
      StoreFrame(p.stores, op.group, op.change, group);
      assert ApplyOp(p, op).stores in {p.stores, Store(p.stores, op.group, op.change)};
    } else {
      assert ApplyOp(p, op).stores == p.stores;
    }
  }

  lemma SuccessReachesWire(p: Plane, op: Op, group: string)
    requires Effectual(op, group) && op.snapshot.Some? && (op.Admin? ==> op.persisted)
    requires op.Reconcile? && group in p.server.last ==>
               WireSettings(p.server.last[group]) == StoredSettings(p.stores, group)
    ensures WireAgrees(ApplyOp(p, op), group, op.snapshot.value)
  {}

  lemma LatestIsSome(ops: seq<Op>, group: string)
    requires AllSucceed(ops, group) && ops != []
    ensures AllSucceed(ops[..|ops| - 1], group)
    ensures Effectual(ops[|ops| - 1], group) ==>
              ops[|ops| - 1].snapshot.Some? && (ops[|ops| - 1].Admin? ==> ops[|ops| - 1].persisted)
  {}

  /** Configuration reaches the wire: in every run whose store writes and snapshots of the
      group succeed, `last[group]` is, up to order, the latest snapshot with drained backends
      removed and weights overridden, and it carries the stored settings although change
      detection ignores them. */
  lemma {:induction false} ConfigurationReachesWire(p: Plane, ops: seq<Op>, group: string)
    requires group !in p.server.last && AllSucceed(ops, group)
    ensures LatestSnapshot(ops, group).None? ==> group !in RunOps(p, ops).server.last
    ensures LatestSnapshot(ops, group).Some? ==>
              WireAgrees(RunOps(p, ops), group, LatestSnapshot(ops, group).value)
  {
    if ops == [] {
    } else {
      var init, op := ops[..|ops| - 1], ops[|ops| - 1];
      LatestIsSome(ops, group);
      ConfigurationReachesWire(p, init, group);
      if Effectual(op, group) {
        SuccessReachesWire(RunOps(p, init), op, group);
      } else if op.group != group {
        OtherGroupFrame(RunOps(p, init), op, group);
      }
    }
  }

  /** With failures, backends are still repaired by the next successful reconcile ... */
  lemma ReconcileRepairsBackends(p: Plane, group: string, snapshot: seq<Backend>)
    ensures group in Reconciled(p, group, snapshot).server.last
    ensures multiset(Reconciled(p, group, snapshot).server.last[group].backends)
         == multiset(Effective(snapshot, OfGroup(p.stores.overrides, group)))
  {}

  /** ... but stale settings are repaired by it if and only if the backends changed too. */
  lemma ReconcileRepairsSettingsIff(p: Plane, group: string, snapshot: seq<Backend>)
    requires group in p.server.last
    requires WireSettings(p.server.last[group]) != StoredSettings(p.stores, group)
    ensures WireSettings(Reconciled(p, group, snapshot).server.last[group])
              == StoredSettings(p.stores, group)
            <==> !SameBackends(p.server.last[group].backends,
                               Effective(snapshot, OfGroup(p.stores.overrides, group)))
  {}

  predicate ChangesSettings(change: Change) { !change.PutOverride? && !change.DropOverride? }

  /** A settings change whose write or snapshot failed is stored but not on the wire, and
      any number of reconciles of the unchanged backends leaves it so. */
  lemma FailedChangeStaysOffWire(p: Plane, group: string, change: Change, persisted: bool,
                                 offered: Option<seq<Backend>>, snapshot: seq<Backend>, ops: seq<Op>)
    requires WireAgrees(p, group, snapshot) && DistinctAddresses(snapshot)
    requires ChangesSettings(change) && !Rejected(change) && (persisted ==> offered.None?)
    requires StoredSettings(Store(p.stores, group, change), group) != StoredSettings(p.stores, group)
    requires forall i :: 0 <= i < |ops| ==> ops[i] == Reconcile(group, Some(snapshot))
    ensures var q := RunOps(Administer(p, group, change, persisted, offered), ops);
      && q.server == p.server && group in q.server.last
      && StoredSettings(q.stores, group) == StoredSettings(Store(p.stores, group, change), group)
      && WireSettings(q.server.last[group]) != StoredSettings(q.stores, group)
  {
    ReconcilesKeep(Administer(p, group, change, persisted, offered), group, snapshot, ops);
  }

  /** The settings stored when the group was last published, or those on the wire at first. */
  ghost function PublishedSettings(p: Plane, ops: seq<Op>, group: string): Option<Settings> {
    if ops == [] then (if group in p.server.last then Some(WireSettings(p.server.last[group])) else None)
    else
      var q, op := RunOps(p, ops[..|ops| - 1]), ops[|ops| - 1];
      if op.group == group && Content(q, op).Some? then Some(StoredSettings(ApplyOp(q, op).stores, group))
      else PublishedSettings(p, ops[..|ops| - 1], group)
  }

  ghost function SettingsOnWire(p: Plane, group: string): Option<Settings> {
    if group in p.server.last then Some(WireSettings(p.server.last[group])) else None
  }

  lemma OperationSettings(p: Plane, op: Op, group: string)
    ensures SettingsOnWire(ApplyOp(p, op), group)
         == if op.group == group && Content(p, op).Some? then Some(StoredSettings(ApplyOp(p, op).stores, group))
            else SettingsOnWire(p, group)
  {
    ContentIsPublished(p, op);
  }

  /** In every run, failures included, the wire carries the settings stored at the group's
      last publication. */
  lemma {:induction false} WireCarriesPublished(p: Plane, ops: seq<Op>, group: string)
    ensures SettingsOnWire(RunOps(p, ops), group) == PublishedSettings(p, ops, group)
  {
    if ops == [] {
    } else {
      var init, op := ops[..|ops| - 1], ops[|ops| - 1];
      WireCarriesPublished(p, init, group);
      OperationSettings(RunOps(p, init), op, group);
    }
  }

  /** From a wire that carries the stored settings, a change of them is on it at once if and
      only if it was written and the snapshot came. */
  lemma ChangeReachesWireIff(p: Plane, group: string, change: Change, persisted: bool, offered: Option<seq<Backend>>)
    requires SettingsOnWire(p, group) == Some(StoredSettings(p.stores, group)) && !Rejected(change)
    requires StoredSettings(Store(p.stores, group, change), group) != StoredSettings(p.stores, group)
    ensures var q := Administer(p, group, change, persisted, offered);
      SettingsOnWire(q, group) == Some(StoredSettings(q.stores, group)) <==> persisted && offered.Some?
  {
    var op := Admin(group, change, persisted, offered);
    assert Administer(p, group, change, persisted, offered) == ApplyOp(p, op);
    OperationSettings(p, op, group);
  }

  lemma {:induction false} ReconcilesKeep(p: Plane, group: string, snapshot: seq<Backend>, ops: seq<Op>)
    requires DistinctAddresses(snapshot) && group in p.server.last
    requires multiset(p.server.last[group].backends)
          == multiset(Effective(snapshot, OfGroup(p.stores.overrides, group)))
    requires forall i :: 0 <= i < |ops| ==> ops[i] == Reconcile(group, Some(snapshot))
    ensures RunOps(p, ops) == p
  {
    if ops == [] {
    } else {
      ReconcilesKeep(p, group, snapshot, ops[..|ops| - 1]);
      ReconcileKeeps(p, group, snapshot);
    }
  }

  /** Reconciling backends that are already on the wire changes nothing. */
  lemma ReconcileKeeps(p: Plane, group: string, snapshot: seq<Backend>)
    requires DistinctAddresses(snapshot) && group in p.server.last
    requires multiset(p.server.last[group].backends)
          == multiset(Effective(snapshot, OfGroup(p.stores.overrides, group)))
    ensures Reconciled(p, group, snapshot) == p
  {
    var sent := p.server.last[group].backends;
    var next := Effective(snapshot, OfGroup(p.stores.overrides, group));
    EffectiveDistinct(snapshot, OfGroup(p.stores.overrides, group));
    PermutationDistinct(next, sent);
    assert SameBackends(sent, next);
  }

  lemma DistinctSnoc(s: seq<Backend>, b: Backend)
    ensures DistinctAddresses(s + [b]) <==> DistinctAddresses(s) && b.address !in AddressSet(s)
  {
    var t := s + [b];
    assert forall i :: 0 <= i < |s| ==> t[i] == s[i];
    if DistinctAddresses(t) {
      assert forall i :: 0 <= i < |s| ==> t[i].address != t[|s|].address;
    }
  }

  lemma {:induction false} EffectiveDistinct(snapshot: seq<Backend>, overrides: map<string, Override>)
    requires DistinctAddresses(snapshot)
    ensures DistinctAddresses(Effective(snapshot, overrides))
    ensures AddressSet(Effective(snapshot, overrides)) <= AddressSet(snapshot)
  {
    if snapshot == [] {
    } else {
      var n := |snapshot| - 1;
      var before, kept := Effective(snapshot[..n], overrides), Adjusted(snapshot[n], overrides);
      Snoc(snapshot);
      DistinctSnoc(snapshot[..n], snapshot[n]);
      EffectiveDistinct(snapshot[..n], overrides);
      if kept != [] {
        assert kept == [kept[0]] && kept[0].address == snapshot[n].address;
        AddressSetSnoc(before, kept[0]);
        DistinctSnoc(before, kept[0]);
      }
    }
  }

  lemma PermutationDistinct(a: seq<Backend>, b: seq<Backend>)
    requires multiset(a) == multiset(b) && DistinctAddresses(a)
    ensures DistinctAddresses(b)
  {
    assert forall x :: x in a <==> x in multiset(a);
    assert forall x :: x in b <==> x in multiset(b);
    assert AddressSet(a) == AddressSet(b);
    assert |multiset(a)| == |a| && |multiset(b)| == |b|;
    DistinctAddressSet(a);
    FullAddressSet(b);
  }

  // ---------------------------------------------------------------------------
  // The server object
  // ---------------------------------------------------------------------------

  class Server {
    const overrides: OverrideStore
    var algorithms: map<string, string>
    var sticky: map<string, StickyConfig>
    var rateLimits: map<string, RateLimitConfig>
    var subs: map<string, set<Publication.Chan>>
    var queues: map<Publication.Chan, seq<BackendSet>>
    var last: map<string, BackendSet>

    constructor (store: OverrideStore)
      ensures overrides == store
      ensures View() == Plane(Stores(store.data, map[], map[], map[]), Publication.Initial().server)
    {
      overrides := store;
      algorithms, sticky, rateLimits := map[], map[], map[];
      subs, queues, last := map[], map[], map[];
    }

    ghost function View(): Plane
      reads this, overrides
    {
      Plane(Stores(overrides.data, algorithms, sticky, rateLimits),
            Publication.ServerState(last, subs, queues))
    }

    method Subscribe(group: string, ch: Publication.Chan)
      modifies this
      ensures View() == old(View()).(server := Publication.Subscribe(old(View()).server, group, ch))
    {
      if group !in subs {
        subs := subs[group := {}];
      }
      subs := subs[group := subs[group] + {ch}];
      queues := queues[ch := []];
    }

    method Unsubscribe(group: string, ch: Publication.Chan)
      modifies this
      ensures View() == old(View()).(server := Publication.Unsubscribe(old(View()).server, group, ch))
    {
      if group in subs {
        subs := subs[group := subs[group] - {ch}];
      }
    }

    /** Stamps `next` with the group's next version, records it and offers it to every subscriber. */
    method Broadcast(group: string, next: BackendSet)
      requires next.group == group
      modifies this
      ensures View() == old(View()).(server := Publication.Publish(old(View()).server, group, next))
    {
      var version := 1;
      if group in last {
        version := last[group].version + 1;
      }
      var message := next.(version := version);
      last := last[group := message];
      var all := Publication.Subscribers(subs, group);
      var rest := all;
      while rest != {}
        invariant rest <= all
        invariant queues == Publication.OfferAll(old(queues), all - rest, message)
        invariant last == old(last)[group := message]
        invariant subs == old(subs) && algorithms == old(algorithms)
        invariant sticky == old(sticky) && rateLimits == old(rateLimits)
      {
        var ch :| ch in rest;
        if ch in queues && |queues[ch]| < Publication.QUEUE_CAPACITY {
          queues := queues[ch := queues[ch] + [message]];
        }
        rest := rest - {ch};
      }
      assert all - rest == all;
    }

    method Build(group: string, snapshot: seq<Backend>) returns (next: BackendSet)
      ensures next == ToBackendSet(group, snapshot, View().stores)
    {
      var changes := overrides.GroupOverrides(group);
      next := SnapshotToBackendSet(group, snapshot, changes, AlgorithmOf(algorithms, group),
                                   StickyOf(sticky, group), RateLimitOf(rateLimits, group));
    }

    method PublishIfChanged(group: string, snapshot: seq<Backend>)
      modifies this
      ensures View() == Reconciled(old(View()), group, snapshot)
    {
      var next := Build(group, snapshot);
      var prev := if group in last then Some(last[group]) else None;
      var same := BackendSetsEqual(prev, Some(next));
      if same {
        return;
      }
      Broadcast(group, next);
    }

    method ForceRepublish(group: string, snapshot: Option<seq<Backend>>)
      modifies this
      ensures View() == Republished(old(View()), group, snapshot)
    {
      if snapshot.None? {
        return;
      }
      var next := Build(group, snapshot.value);
      Broadcast(group, next);
    }

    method SetOverride(group: string, address: string, weight: Option<int>, drained: bool,
                       persisted: bool, snapshot: Option<seq<Backend>>) returns (ok: bool)
      modifies this, overrides
      ensures ok == persisted
      ensures View() == Administer(old(View()), group, PutOverride(address, weight, drained), persisted, snapshot)
    {
      ok := overrides.Set(group, address, weight, drained, persisted);
      if !ok {
        return;
      }
      ForceRepublish(group, snapshot);
    }

    method ClearOverride(group: string, address: string, persisted: bool, snapshot: Option<seq<Backend>>)
      returns (ok: bool)
      modifies this, overrides
      ensures ok == persisted
      ensures View() == Administer(old(View()), group, DropOverride(address), persisted, snapshot)
    {
      ok := overrides.Clear(group, address, persisted);
      if !ok {
        return;
      }
      ForceRepublish(group, snapshot);
    }

    method SetAlgorithm(group: string, algorithm: string, persisted: bool, snapshot: Option<seq<Backend>>)
      returns (ok: bool)
      modifies this
      ensures ok == (algorithm in VALID_ALGORITHMS && persisted)
      ensures View() == Administer(old(View()), group, PutAlgorithm(algorithm), persisted, snapshot)
    {
      if algorithm !in VALID_ALGORITHMS {
        return false;
      }
      algorithms := algorithms[group := algorithm];
      if !persisted {
        return false;
      }
      ForceRepublish(group, snapshot);
      ok := true;
    }

    method SetSticky(group: string, config: StickyConfig, persisted: bool, snapshot: Option<seq<Backend>>)
      returns (ok: bool)
      modifies this
      ensures ok == persisted
      ensures View() == Administer(old(View()), group, PutSticky(config), persisted, snapshot)
    {
      sticky := sticky[group := config];
      ok := persisted;
      if !ok {
        return;
      }
      ForceRepublish(group, snapshot);
    }

    method SetRateLimit(group: string, config: RateLimitConfig, persisted: bool, snapshot: Option<seq<Backend>>)
      returns (ok: bool)
      modifies this
      ensures ok == persisted
      ensures View() == Administer(old(View()), group, PutRateLimit(config), persisted, snapshot)
    {
      rateLimits := rateLimits[group := config];
      ok := persisted;
      if !ok {
        return;
      }
      ForceRepublish(group, snapshot);
    }
  }
}
