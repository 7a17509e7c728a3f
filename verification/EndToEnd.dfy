/** From the administrator's stores to the backend a data plane picks. */
module EndToEnd {
  import opened Wire
  import opened Backends
  import opened HashRing
  import opened Overrides
  import BackendRuns
  import Accounting
  import Administration
  import ControlPlane
  import Delivery
  import Publication

  /** The protocol's abstract receiver, fed the updates of a list's history. */
  function Taken(group: string, ops: seq<BackendRuns.Op>): Publication.DataPlane {
    if ops == [] then Publication.DataPlane(group, None, [])
    else
      var before, op := Taken(group, ops[..|ops| - 1]), ops[|ops| - 1];
      if op.UpdateOp? then Publication.Receive(before, op.m) else before
  }

  predicate Lists(entries: seq<Entry>, backends: seq<Backend>) {
    && |entries| == |backends|
    && forall i :: 0 <= i < |entries| ==>
         && entries[i].address == backends[i].address
         && entries[i].weight == Clamp(backends[i].weight)
  }

  /** The list is configured by the set its receiver holds. */
  ghost predicate Configured(s: State, held: Option<BackendSet>) {
    match held
    case None => s.version == 0 && s.entries == []
    case Some(m) =>
      && s.version == m.version
      && Lists(s.entries, m.backends)
      && s.algorithm == Normalize(m.algorithm)
      && s.sticky == Sticky(m.sticky, m.stickyCookieName, m.stickyTtlSeconds * SECOND)
      && s.limit == Limit(m.rateLimitRps > 0.0, m.rateLimitRps, m.rateLimitBurst)
  }

  ghost predicate SameListing(a: seq<Entry>, b: seq<Entry>) {
    |a| == |b| && forall i :: 0 <= i < |a| ==> a[i].address == b[i].address && a[i].weight == b[i].weight
  }

  lemma ListingKept(hash: Hasher, s: State, op: BackendRuns.Op)
    requires op.UpdateOp? ==> !Accepts(s.version, op.m.version)
    ensures SameListing(BackendRuns.Apply(hash, s, op).entries, s.entries)
  {
    match op
    case ResultOp(address, success, t1, t2, t3) => BackendRuns.ResultKeepsStanding(s, address, success, t1, t2, t3);
    case SelectOp(_, _, _, _, _) => Accounting.SelectEntries(hash, s, op);
    case UpdateOp(_, _) =>
    case HealthOp(_, _, _) =>
    case ConfigOp(_) =>
    case PinOp(_, _) =>
    case ReleaseOp(_) =>
  }

  lemma SettingsKept(hash: Hasher, s: State, op: BackendRuns.Op)
    requires op.UpdateOp? ==> !Accepts(s.version, op.m.version)
    ensures var s' := BackendRuns.Apply(hash, s, op);
      s'.version == s.version && s'.algorithm == s.algorithm && s'.sticky == s.sticky && s'.limit == s.limit
  {}

  lemma SameConfiguration(hash: Hasher, s: State, op: BackendRuns.Op, held: Option<BackendSet>)
    requires op.UpdateOp? ==> !Accepts(s.version, op.m.version)
    requires Configured(s, held)
    ensures Configured(BackendRuns.Apply(hash, s, op), held)
  {
    var s' := BackendRuns.Apply(hash, s, op);
    ListingKept(hash, s, op);
    SettingsKept(hash, s, op);
    KeptConfiguration(s, s', held);
  }

  lemma KeptConfiguration(s: State, s': State, held: Option<BackendSet>)
    requires Configured(s, held) && SameListing(s'.entries, s.entries)
    requires s'.version == s.version && s'.algorithm == s.algorithm && s'.sticky == s.sticky && s'.limit == s.limit
    ensures Configured(s', held)
  {}

  /** In every run the list is configured by exactly the set that the protocol's receiver
      holds: health changes, results, selections and stale updates leave that alone. */
  lemma {:induction false} ListRefinesReceiver(hash: Hasher, start: int, ops: seq<BackendRuns.Op>, group: string)
    ensures Configured(BackendRuns.Run(hash, start, ops), Taken(group, ops).held)
  {
    if ops == [] {
    } else {
      var init, op := ops[..|ops| - 1], ops[|ops| - 1];
      ListRefinesReceiver(hash, start, init, group);
      var s := BackendRuns.Run(hash, start, init);
      assert s.version == Publication.HeldVersion(Taken(group, init));
      if !(op.UpdateOp? && Accepts(s.version, op.m.version)) {
        SameConfiguration(hash, s, op, Taken(group, init).held);
      }
    }
  }

  lemma ListedBackend(s: State, m: BackendSet, address: string)
    requires Lists(s.entries, m.backends) && Accounting.ConnsOf(s.entries, address).Some?
    ensures exists b :: b in m.backends && b.address == address
                        && s.entries[IndexOf(s.entries, address)].weight == Clamp(b.weight)
  {
    assert m.backends[IndexOf(s.entries, address)] in m.backends;
  }

  /** Whatever a selection charges a request to is listed, by rotation, by load, by hash,
      at random or by affinity cookie. */
  lemma ChargedIsListed(hash: Hasher, s: State, op: BackendRuns.Op, address: string)
    requires Accounting.Charged(hash, s, Accounting.Step(op)) == Some(address)
    ensures Accounting.ConnsOf(s.entries, address).Some?
  {}

  /** A set that carries a snapshot and the stored configuration of its group. */
  ghost predicate Reflects(m: BackendSet, stores: ControlPlane.Stores, group: string, snapshot: seq<Backend>) {
    && multiset(m.backends) == multiset(ControlPlane.Effective(snapshot, OfGroup(stores.overrides, group)))
    && ControlPlane.WireSettings(m) == ControlPlane.StoredSettings(stores, group)
  }

  /** The entry of `address` is some backend of the snapshot, at its own weight or the
      overriding one, counting as one when that is not positive. */
  ghost predicate ComesFrom(s: State, address: string, snapshot: seq<Backend>, overrides: map<string, Override>) {
    var e := BackendRuns.EntryOf(s, address);
    e.Some? && exists i :: 0 <= i < |snapshot| && snapshot[i].address == address
                           && e.value.weight == Clamp(ControlPlane.WireWeight(snapshot[i], overrides))
  }

  /** A list whose receiver holds such a set picks only undrained backends of the snapshot,
      under the stored algorithm. */
  lemma PicksReflect(stores: ControlPlane.Stores, group: string, snapshot: seq<Backend>, m: BackendSet,
                     hash: Hasher, start: int, history: seq<BackendRuns.Op>, op: BackendRuns.Op, address: string)
    requires Reflects(m, stores, group, snapshot) && Taken(group, history).held == Some(m)
    requires Accounting.Charged(hash, BackendRuns.Run(hash, start, history), Accounting.Step(op)) == Some(address)
    ensures var overrides := OfGroup(stores.overrides, group);
      && !(address in overrides && overrides[address].drained)
      && ComesFrom(BackendRuns.Run(hash, start, history), address, snapshot, overrides)
      && BackendRuns.Run(hash, start, history).algorithm
         == Normalize(ControlPlane.AlgorithmOf(stores.algorithms, group))
  {
    var s, overrides := BackendRuns.Run(hash, start, history), OfGroup(stores.overrides, group);
    ListRefinesReceiver(hash, start, history, group);
    ChargedIsListed(hash, s, op, address);
    ListedBackend(s, m, address);
    var b :| b in m.backends && b.address == address
             && s.entries[IndexOf(s.entries, address)].weight == Clamp(b.weight);
    assert b in multiset(m.backends);
    assert b in ControlPlane.Effective(snapshot, overrides);
    ControlPlane.EffectiveBackends(snapshot, overrides, b);
    assert ComesFrom(s, address, snapshot, overrides);
    assert ControlPlane.WireSettings(m).algorithm == ControlPlane.StoredSettings(stores, group).algorithm;
  }

  // ---------------------------------------------------------------------------
  // Control plane, protocol and data planes together
  // ---------------------------------------------------------------------------

  /** An operation of the control plane, or a step of a session or data plane. */
  datatype Event = Manage(op: ControlPlane.Op) | Protocol(step: Publication.Step)

  datatype World = World(stores: ControlPlane.Stores, system: Publication.System)

  const START: World := World(ControlPlane.Stores(map[], map[], map[], map[]), Publication.Initial())

  function PlaneOf(w: World): ControlPlane.Plane { ControlPlane.Plane(w.stores, w.system.server) }

  /** The protocol step an event amounts to; publications come from operations only. */
  ghost function StepOf(w: World, e: Event): Option<Publication.Step> {
    match e
    case Manage(op) =>
      var content := ControlPlane.Content(PlaneOf(w), op);
      if content.Some? then Some(Publication.PublishStep(op.group, content.value)) else None
    case Protocol(step) => if step.PublishStep? then None else Some(step)
  }

  ghost function Next(w: World, e: Event): World {
    var step := StepOf(w, e);
    World(if e.Manage? then ControlPlane.ApplyOp(PlaneOf(w), e.op).stores else w.stores,
          if step.Some? then Publication.Apply(w.system, step.value) else w.system)
  }

  ghost function RunWorld(events: seq<Event>): World {
    if events == [] then START else Next(RunWorld(events[..|events| - 1]), events[|events| - 1])
  }

  ghost function Trace(events: seq<Event>): seq<Publication.Step> {
    if events == [] then []
    else
      var init := events[..|events| - 1];
      var step := StepOf(RunWorld(init), events[|events| - 1]);
      Trace(init) + (if step.Some? then [step.value] else [])
  }

  function Managed(events: seq<Event>): seq<ControlPlane.Op> {
    if events == [] then []
    else
      var e := events[|events| - 1];
      Managed(events[..|events| - 1]) + (if e.Manage? then [e.op] else [])
  }

  /** Seen from the protocol, every run is one of its interleavings. */
  lemma {:induction false} WorldRunsProtocol(events: seq<Event>)
    ensures RunWorld(events).system == Publication.Run(Trace(events))
  {
    if events == [] {
    } else {
      var init := events[..|events| - 1];
      WorldRunsProtocol(init);
      var step := StepOf(RunWorld(init), events[|events| - 1]);
      if step.Some? {
        var t := Trace(events);
        assert t[..|t| - 1] == Trace(init) && t[|t| - 1] == step.value;
      } else {
        assert Trace(events) == Trace(init);
      }
    }
  }

  /** An operation's effect on the stores and current sets depends on nothing else. */
  lemma OperationsSeeLast(p: ControlPlane.Plane, q: ControlPlane.Plane, op: ControlPlane.Op)
    requires p.stores == q.stores && p.server.last == q.server.last
    ensures ControlPlane.ApplyOp(p, op).stores == ControlPlane.ApplyOp(q, op).stores
    ensures ControlPlane.ApplyOp(p, op).server.last == ControlPlane.ApplyOp(q, op).server.last
  {}

  /** Seen from the control plane, every run is the sequence of its operations. */
  lemma {:induction false} WorldRunsOperations(events: seq<Event>)
    ensures var p := ControlPlane.RunOps(PlaneOf(START), Managed(events));
      RunWorld(events).stores == p.stores && RunWorld(events).system.server.last == p.server.last
  {
    if events == [] {
    } else {
      var init, e := events[..|events| - 1], events[|events| - 1];
      WorldRunsOperations(init);
      var w, ops := RunWorld(init), Managed(events);
      if e.Manage? {
        assert ops[..|ops| - 1] == Managed(init) && ops[|ops| - 1] == e.op;
        ControlPlane.ContentIsPublished(PlaneOf(w), e.op);
        OperationsSeeLast(PlaneOf(w), ControlPlane.RunOps(PlaneOf(START), Managed(init)), e.op);
      } else {
        assert ops == Managed(init);
        if !e.step.PublishStep? { Publication.LastFrame(w.system, e.step); }
      }
    }
  }

  /** The session is drained and its newest publication was not dropped. */
  ghost predicate Converged(w: World, ch: Publication.Chan, group: string) {
    Delivery.Drained(w.system, ch) && !w.system.sessions[ch].missed && w.system.sessions[ch].group == group
  }

  /** In every interleaving of operations, sessions and deliveries in which the group's
      writes and snapshots succeed, a data plane whose session has converged holds the
      latest snapshot with overrides applied and the stored settings. */
  lemma {:induction false} ConvergedReflectsStores(events: seq<Event>, group: string, snapshot: seq<Backend>,
                                                   ch: Publication.Chan)
    requires ControlPlane.AllSucceed(Managed(events), group)
    requires ControlPlane.LatestSnapshot(Managed(events), group) == Some(snapshot)
    requires Converged(RunWorld(events), ch, group)
    ensures var w := RunWorld(events);
      var d := w.system.sessions[ch].plane;
      d in w.system.planes && w.system.planes[d].held.Some?
      && Reflects(w.system.planes[d].held.value, w.stores, group, snapshot)
  {
    WorldRunsProtocol(events);
    WorldRunsOperations(events);
    ControlPlane.ConfigurationReachesWire(PlaneOf(START), Managed(events), group);
    Delivery.DrainedHoldsLatest(Trace(events), ch);
  }

  /** Read off the operations themselves: a converged data plane holds exactly the settings
      last set and exactly the backends of the latest snapshot as last overridden. */
  lemma {:induction false} ConvergedCarriesLastSet(events: seq<Event>, group: string, snapshot: seq<Backend>,
                                                   ch: Publication.Chan, b: Backend)
    requires ControlPlane.AllSucceed(Managed(events), group)
    requires ControlPlane.LatestSnapshot(Managed(events), group) == Some(snapshot)
    requires Converged(RunWorld(events), ch, group)
    ensures var y := RunWorld(events).system;
      var d := y.sessions[ch].plane;
      && d in y.planes && y.planes[d].held.Some?
      && Administration.CarriesLastSet(y.planes[d].held.value, Managed(events), group)
      && (b in y.planes[d].held.value.backends <==> Administration.SentAs(Managed(events), group, snapshot, b))
  {
    WorldRunsProtocol(events);
    WorldRunsOperations(events);
    Administration.WireCarriesLastSet(PlaneOf(START), Managed(events), group, snapshot, b);
    Delivery.DrainedHoldsLatest(Trace(events), ch);
  }

  /** The names an administrator may choose are exactly those the data plane knows, each its
      own algorithm; any other name falls back to rotation. */
  lemma AlgorithmNames(name: string)
    ensures Normalize("round_robin") == RoundRobin && Normalize("least_connections") == LeastConnections
    ensures Normalize("random") == Random && Normalize("p2c") == P2C
    ensures Normalize("consistent_hash") == ConsistentHash
    ensures name in ControlPlane.VALID_ALGORITHMS <==> name == "round_robin" || Normalize(name) != RoundRobin
    ensures name !in {"least_connections", "random", "p2c", "consistent_hash"} ==> Normalize(name) == RoundRobin
  {
    assert ControlPlane.VALID_ALGORITHMS
        == ["round_robin", "least_connections", "random", "p2c", "consistent_hash"];
  }

  /** In every such interleaving, a converged data plane picks, by any algorithm or by
      affinity cookie and whatever its health checks, results and earlier selections were,
      only backends of the latest snapshot that are not drained. */
  lemma {:induction false} DrainedNeverSelected(events: seq<Event>, group: string, snapshot: seq<Backend>,
                                                ch: Publication.Chan, hash: Hasher, start: int,
                                                history: seq<BackendRuns.Op>, op: BackendRuns.Op, address: string)
    requires ControlPlane.AllSucceed(Managed(events), group)
    requires ControlPlane.LatestSnapshot(Managed(events), group) == Some(snapshot)
    requires Converged(RunWorld(events), ch, group)
    requires var y := RunWorld(events).system;
      y.sessions[ch].plane in y.planes && Taken(group, history).held == y.planes[y.sessions[ch].plane].held
    requires Accounting.Charged(hash, BackendRuns.Run(hash, start, history), Accounting.Step(op)) == Some(address)
    ensures var stores := RunWorld(events).stores;
      var overrides := OfGroup(stores.overrides, group);
      && !(address in overrides && overrides[address].drained)
      && ComesFrom(BackendRuns.Run(hash, start, history), address, snapshot, overrides)
      && BackendRuns.Run(hash, start, history).algorithm
         == Normalize(ControlPlane.AlgorithmOf(stores.algorithms, group))
  {
    ConvergedReflectsStores(events, group, snapshot, ch);
    var w := RunWorld(events);
    PicksReflect(w.stores, group, snapshot, w.system.planes[w.system.sessions[ch].plane].held.value,
                 hash, start, history, op, address);
  }
}
