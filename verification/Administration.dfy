/** What administrators did, read off the history of operations, and what data planes are
    sent for it. */
module Administration {
  import opened Wire
  import opened Overrides
  import opened ControlPlane

  // ---------------------------------------------------------------------------
  // The last setting of each kind
  // ---------------------------------------------------------------------------

  /** An administrative change of the group that was not rejected; its write may have failed. */
  predicate Sets(op: Op, group: string) {
    op.Admin? && op.group == group && !Rejected(op.change)
  }

  function LastAlgorithm(ops: seq<Op>, group: string): string {
    if ops == [] then "round_robin"
    else
      var op := ops[|ops| - 1];
      if Sets(op, group) && op.change.PutAlgorithm? then op.change.algorithm
      else LastAlgorithm(ops[..|ops| - 1], group)
  }

  function LastSticky(ops: seq<Op>, group: string): StickyConfig {
    if ops == [] then StickyConfig(false, "", 0)
    else
      var op := ops[|ops| - 1];
      if Sets(op, group) && op.change.PutSticky? then op.change.sticky
      else LastSticky(ops[..|ops| - 1], group)
  }

  function LastLimit(ops: seq<Op>, group: string): RateLimitConfig {
    if ops == [] then RateLimitConfig(false, 0.0, 0)
    else
      var op := ops[|ops| - 1];
      if Sets(op, group) && op.change.PutRateLimit? then op.change.limit
      else LastLimit(ops[..|ops| - 1], group)
  }

  /** The override last set for an address, unless it was cleared since. */
  function LastOverride(ops: seq<Op>, group: string, address: string): Option<Override> {
    if ops == [] then None
    else
      var op := ops[|ops| - 1];
      if Sets(op, group) && op.change.PutOverride? && op.change.address == address
      then Some(Override(op.change.weight, op.change.drained))
      else if Sets(op, group) && op.change.DropOverride? && op.change.address == address then None
      else LastOverride(ops[..|ops| - 1], group, address)
  }

  // ---------------------------------------------------------------------------
  // The stores hold it
  // ---------------------------------------------------------------------------

  const EMPTY: Stores := Stores(map[], map[], map[], map[])

  lemma {:induction false} StoresHoldSettings(p: Plane, ops: seq<Op>, group: string)
    requires p.stores == EMPTY
    ensures var c := RunOps(p, ops).stores;
      && AlgorithmOf(c.algorithms, group) == LastAlgorithm(ops, group)
      && StickyOf(c.sticky, group) == LastSticky(ops, group)
      && RateLimitOf(c.rateLimits, group) == LastLimit(ops, group)
  {
    if ops == [] {
    } else {
      var init, op := ops[..|ops| - 1], ops[|ops| - 1];
      StoresHoldSettings(p, init, group);
      StoreStep(RunOps(p, init), op, group);
    }
  }

  /** How one operation moves a group's stored settings. */
  lemma StoreStep(p: Plane, op: Op, group: string)
    ensures var c, c' := p.stores, ApplyOp(p, op).stores;
      && AlgorithmOf(c'.algorithms, group)
         == (if Sets(op, group) && op.change.PutAlgorithm? then op.change.algorithm
             else AlgorithmOf(c.algorithms, group))
      && StickyOf(c'.sticky, group)
         == (if Sets(op, group) && op.change.PutSticky? then op.change.sticky else StickyOf(c.sticky, group))
      && RateLimitOf(c'.rateLimits, group)
         == (if Sets(op, group) && op.change.PutRateLimit? then op.change.limit else RateLimitOf(c.rateLimits, group))
  {
    StoresAfter(p, op);
  }

  lemma StoresAfter(p: Plane, op: Op)
    ensures ApplyOp(p, op).stores
         == if op.Admin? && !Rejected(op.change) then Store(p.stores, op.group, op.change) else p.stores
  {}

  lemma {:induction false} StoresHoldOverrides(p: Plane, ops: seq<Op>, group: string, address: string)
    requires p.stores == EMPTY
    ensures Find(RunOps(p, ops).stores.overrides, group, address) == LastOverride(ops, group, address)
  {
    if ops == [] {
    } else {
      var init, op := ops[..|ops| - 1], ops[|ops| - 1];
      var c := RunOps(p, init).stores;
      StoresHoldOverrides(p, init, group, address);
      StoresAfter(RunOps(p, init), op);
      if op.Admin? && op.change.PutOverride? {
        var o := Override(op.change.weight, op.change.drained);
        OverrideLookup(c.overrides, op.group, op.change.address, o, group, address);
      } else if op.Admin? && op.change.DropOverride? {
        OverrideLookup(c.overrides, op.group, op.change.address, Override(None, false), group, address);
      }
    }
  }

  // ---------------------------------------------------------------------------
  // ... and the wire carries it
  // ---------------------------------------------------------------------------

  /** The settings of a set as an administrator would state them: the algorithm set last; the
      cookie and lifetime set last, by default "jb_affinity" and thirty minutes; the rate and
      burst set last while limiting is on, by default ten a second and one second's worth. */
  ghost predicate CarriesLastSet(m: BackendSet, ops: seq<Op>, group: string) {
    var sticky, limit := LastSticky(ops, group), LastLimit(ops, group);
    var rps := if limit.rps <= 0.0 then 10.0 else limit.rps;
    var burst := if limit.burst > 0 then limit.burst else if rps < 1.0 then 1 else rps.Floor;
    && m.algorithm == LastAlgorithm(ops, group)
    && m.sticky == sticky.enabled
    && m.stickyCookieName == (if sticky.cookieName == "" then "jb_affinity" else sticky.cookieName)
    && m.stickyTtlSeconds == (if sticky.ttl <= 0 then 1800 else sticky.ttl / 1_000_000_000)
    && m.rateLimitRps == (if limit.enabled then rps else 0.0)
    && m.rateLimitBurst == (if !limit.enabled then 0 else if burst > 2_147_483_647 then 2_147_483_647 else burst)
  }

  /** Some backend of the snapshot, not drained by the override last set for it, goes out as
      `b`: at the weight that override gives, or at its own. */
  ghost predicate SentAs(ops: seq<Op>, group: string, snapshot: seq<Backend>, b: Backend) {
    exists i :: 0 <= i < |snapshot| && AdjustsTo(LastOverride(ops, group, snapshot[i].address), snapshot[i], b)
  }

  predicate AdjustsTo(o: Option<Override>, x: Backend, b: Backend) {
    && b.address == x.address
    && !(o.Some? && o.value.drained)
    && b.weight == if o.Some? && o.value.weight.Some? then o.value.weight.value else x.weight
  }

  /** In every run from empty stores whose writes and snapshots of the group succeed, the
      group's current set has exactly the settings last set, and exactly the backends of the
      latest snapshot as last overridden. */
  lemma WireCarriesLastSet(p: Plane, ops: seq<Op>, group: string, snapshot: seq<Backend>, b: Backend)
    requires p.stores == EMPTY && group !in p.server.last && AllSucceed(ops, group)
    requires LatestSnapshot(ops, group) == Some(snapshot)
    ensures group in RunOps(p, ops).server.last
    ensures CarriesLastSet(RunOps(p, ops).server.last[group], ops, group)
    ensures b in RunOps(p, ops).server.last[group].backends <==> SentAs(ops, group, snapshot, b)
  {
    ConfigurationReachesWire(p, ops, group);
    var q := RunOps(p, ops);
    var m := q.server.last[group];
    SettingsSent(p, ops, group, m);
    var overrides := OfGroup(q.stores.overrides, group);
    assert b in m.backends <==> b in Effective(snapshot, overrides) by {
      assert b in m.backends <==> b in multiset(m.backends);
      assert b in Effective(snapshot, overrides) <==> b in multiset(Effective(snapshot, overrides));
    }
    EffectiveBackends(snapshot, overrides, b);
    forall i | 0 <= i < |snapshot|
      ensures AdjustsTo(LastOverride(ops, group, snapshot[i].address), snapshot[i], b) <==>
        && !IsDrained(overrides, snapshot[i].address)
        && b == Backend(snapshot[i].address, WireWeight(snapshot[i], overrides))
    {
      StoresHoldOverrides(p, ops, group, snapshot[i].address);
    }
  }

  lemma SettingsSent(p: Plane, ops: seq<Op>, group: string, m: BackendSet)
    requires p.stores == EMPTY && WireSettings(m) == StoredSettings(RunOps(p, ops).stores, group)
    ensures CarriesLastSet(m, ops, group)
  {
    StoresHoldSettings(p, ops, group);
    SettingsAre(RunOps(p, ops).stores, group, m);
  }

  lemma SettingsAre(c: Stores, group: string, m: BackendSet)
    requires WireSettings(m) == StoredSettings(c, group)
    ensures var sticky, limit := StickyOf(c.sticky, group), RateLimitOf(c.rateLimits, group);
      var rps := if limit.rps <= 0.0 then 10.0 else limit.rps;
      var burst := if limit.burst > 0 then limit.burst else if rps < 1.0 then 1 else rps.Floor;
      && m.algorithm == AlgorithmOf(c.algorithms, group)
      && m.sticky == sticky.enabled
      && m.stickyCookieName == (if sticky.cookieName == "" then "jb_affinity" else sticky.cookieName)
      && m.stickyTtlSeconds == (if sticky.ttl <= 0 then 1800 else sticky.ttl / 1_000_000_000)
      && m.rateLimitRps == (if limit.enabled then rps else 0.0)
      && m.rateLimitBurst == (if !limit.enabled then 0 else if burst > 2_147_483_647 then 2_147_483_647 else burst)
  {}
}
