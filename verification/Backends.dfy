/** One group's backends on a data plane: the slot index, active health, passive
    ejection and in-flight counts, as a value and the operations on it. */
module Backends {
  import opened Wire

  datatype Algorithm = RoundRobin | LeastConnections | Random | P2C | ConsistentHash

  /** `ejectedUntil` None stands for the zero time. Times are nanoseconds. */
  datatype Entry = Entry(
    address: string,
    weight: int,
    healthy: bool,
    activeConns: int,
    consecErrors: int,
    ejectedUntil: Option<int>,
    ejectCount: int)

  datatype OutlierConfig = OutlierConfig(
    enabled: bool, consecutiveErrors: int, baseEject: int, maxEject: int, maxEjectPercent: int)

  datatype Sticky = Sticky(enabled: bool, cookieName: string, ttl: int)
  datatype Limit = Limit(enabled: bool, rps: real, burst: int)

  /** `rebuiltAt` is the clock reading of the last slot rebuild. */
  datatype State = State(
    entries: seq<Entry>,
    version: int,
    algorithm: Algorithm,
    sticky: Sticky,
    limit: Limit,
    next: int,
    slots: seq<nat>,
    outlier: OutlierConfig,
    nextEjectExpiry: Option<int>,
    rebuiltAt: int)

  const CURSOR_MODULUS: int := 0x1_0000_0000_0000_0000

  predicate Ejected(e: Entry, now: int) {
    e.ejectedUntil.Some? && now < e.ejectedUntil.value
  }

  predicate Selectable(e: Entry, now: int) {
    e.healthy && !Ejected(e, now)
  }

  function Normalize(name: string): Algorithm {
    if name == "least_connections" then LeastConnections
    else if name == "random" then Random
    else if name == "p2c" then P2C
    else if name == "consistent_hash" then ConsistentHash
    else RoundRobin
  }

  function WithDefaults(c: OutlierConfig): (d: OutlierConfig)
    ensures d.consecutiveErrors > 0 && d.baseEject > 0 && d.maxEject > 0 && 0 < d.maxEjectPercent <= 100
    ensures d.enabled == c.enabled
  {
    OutlierConfig(
      c.enabled,
      if c.consecutiveErrors <= 0 then 5 else c.consecutiveErrors,
      if c.baseEject <= 0 then 30 * SECOND else c.baseEject,
      if c.maxEject <= 0 then 300 * SECOND else c.maxEject,
      if c.maxEjectPercent <= 0 || c.maxEjectPercent > 100 then 50 else c.maxEjectPercent)
  }

  // ---------------------------------------------------------------------------
  // The slot index
  // ---------------------------------------------------------------------------

  function Repeat(i: nat, n: int): (s: seq<nat>)
    ensures |s| == (if n <= 0 then 0 else n) && forall k :: 0 <= k < |s| ==> s[k] == i
  {
    if n <= 0 then [] else Repeat(i, n - 1) + [i]
  }

  /** Each selectable entry's index, repeated by its weight, in entry order. */
  function Expand(entries: seq<Entry>, now: int): seq<nat> {
    if entries == [] then []
    else
      var n := |entries| - 1;
      Expand(entries[..n], now)
      + (if Selectable(entries[n], now) then Repeat(n, entries[n].weight) else [])
  }

  function Earlier(a: Option<int>, t: int): Option<int> {
    if a.None? || t < a.value then Some(t) else a
  }

  /** The earliest end of an ejection in force at `now`. */
  function EarliestExpiry(entries: seq<Entry>, now: int): Option<int> {
    if entries == [] then None
    else
      var n := |entries| - 1;
      var before := EarliestExpiry(entries[..n], now);
      if Ejected(entries[n], now) then Earlier(before, entries[n].ejectedUntil.value) else before
  }

  function Rebuild(s: State, now: int): State {
    s.(slots := Expand(s.entries, now), nextEjectExpiry := EarliestExpiry(s.entries, now), rebuiltAt := now)
  }

  predicate Lapsed(s: State, now: int) {
    s.nextEjectExpiry.Some? && now >= s.nextEjectExpiry.value
  }

  /** The lazy rebuild at the head of a selection: checked at t0, re-checked at t1, done at t2. */
  function Refresh(s: State, t0: int, t1: int, t2: int): State {
    if Lapsed(s, t0) && Lapsed(s, t1) then Rebuild(s, t2) else s
  }

  // ---------------------------------------------------------------------------
  // Updates, health and results
  // ---------------------------------------------------------------------------

  /** The entry an address had; a repeated address gives its last entry. */
  function Previous(entries: seq<Entry>): (m: map<string, Entry>)
    ensures forall a :: a in m ==> m[a] in entries && m[a].address == a
    ensures forall i :: 0 <= i < |entries| ==> entries[i].address in m
  {
    if entries == [] then map[]
    else Previous(entries[..|entries| - 1])[entries[|entries| - 1].address := entries[|entries| - 1]]
  }

  function Admit(b: Backend, previous: map<string, Entry>): Entry {
    Entry(b.address,
          Clamp(b.weight),
          if b.address in previous then previous[b.address].healthy else true,
          if b.address in previous then previous[b.address].activeConns else 0,
          0, None, 0)
  }

  function AdmitAll(backends: seq<Backend>, previous: map<string, Entry>): seq<Entry> {
    seq(|backends|, i requires 0 <= i < |backends| => Admit(backends[i], previous))
  }

  function Update(s: State, m: BackendSet, now: int): State {
    if !Accepts(s.version, m.version) then s
    else Rebuild(s.(
      entries := AdmitAll(m.backends, Previous(s.entries)),
      version := m.version,
      algorithm := Normalize(m.algorithm),
      sticky := Sticky(m.sticky, m.stickyCookieName, m.stickyTtlSeconds * SECOND),
      limit := Limit(m.rateLimitRps > 0.0, m.rateLimitRps, m.rateLimitBurst)), now)
  }

  /** The first entry of that address whose health differs, or the number of entries. */
  function FirstOpposite(entries: seq<Entry>, address: string, healthy: bool): (i: nat)
    ensures i <= |entries|
    ensures i < |entries| ==> entries[i].address == address && entries[i].healthy != healthy
    ensures forall j :: 0 <= j < i ==> !(entries[j].address == address && entries[j].healthy != healthy)
  {
    if entries == [] then 0
    else if entries[0].address == address && entries[0].healthy != healthy then 0
    else 1 + FirstOpposite(entries[1..], address, healthy)
  }

  function SetHealth(s: State, address: string, healthy: bool, now: int): State {
    var i := FirstOpposite(s.entries, address, healthy);
    if i == |s.entries| then s
    else Rebuild(s.(entries := s.entries[i := s.entries[i].(healthy := healthy)]), now)
  }

  function SetOutlier(s: State, c: OutlierConfig): State {
    s.(outlier := WithDefaults(c))
  }

  /** The first entry of that address, or the number of entries. */
  function IndexOf(entries: seq<Entry>, address: string): (i: nat)
    ensures i <= |entries|
    ensures i < |entries| ==> entries[i].address == address
    ensures forall j :: 0 <= j < i ==> entries[j].address != address
  {
    if entries == [] then 0
    else if entries[0].address == address then 0
    else 1 + IndexOf(entries[1..], address)
  }

  function EjectedCount(entries: seq<Entry>, now: int): nat {
    if entries == [] then 0
    else EjectedCount(entries[..|entries| - 1], now)
         + (if Ejected(entries[|entries| - 1], now) then 1 else 0)
  }

  function Min(a: int, b: int): int { if b < a then b else a }

  function Put(s: State, i: nat, e: Entry): State
    requires i < |s.entries|
  {
    s.(entries := s.entries[i := e])
  }

  /** Whether one more failure of entry `i` ejects it. */
  predicate Trips(s: State, i: nat, t1: int, t2: int)
    requires i < |s.entries|
  {
    && s.entries[i].consecErrors + 1 >= s.outlier.consecutiveErrors
    && !Ejected(s.entries[i], t1)
    && (EjectedCount(s.entries, t2) + 1) * 100 <= s.outlier.maxEjectPercent * |s.entries|
  }

  /** Linear backoff up to the cap. */
  function EjectDuration(c: OutlierConfig, k: int): int {
    Min(k * c.baseEject, c.maxEject)
  }

  function EjectedEntry(e: Entry, c: OutlierConfig, t2: int): Entry {
    var count := e.ejectCount + 1;
    e.(consecErrors := 0, ejectCount := count,
       ejectedUntil := Some(t2 + EjectDuration(c, count)))
  }

  /** One real request's outcome. The clock is read at t1 for the entry, at t2 for the
      group and at t3 for the rebuild. */
  function RecordResult(s: State, address: string, success: bool, t1: int, t2: int, t3: int): State {
    var i := IndexOf(s.entries, address);
    if !s.outlier.enabled || i == |s.entries| then s else
    var e := s.entries[i];
    if success then Put(s, i, e.(consecErrors := 0))
    else if !Trips(s, i, t1, t2) then Put(s, i, e.(consecErrors := e.consecErrors + 1))
    else Rebuild(Put(s, i, EjectedEntry(e, s.outlier, t2)), t3)
  }

  // ---------------------------------------------------------------------------
  // In-flight counts
  // ---------------------------------------------------------------------------

  function Increment(s: State, i: nat): State
    requires i < |s.entries|
  {
    Put(s, i, s.entries[i].(activeConns := s.entries[i].activeConns + 1))
  }

  function Release(s: State, address: string): State {
    var i := IndexOf(s.entries, address);
    if i == |s.entries| || s.entries[i].activeConns <= 0 then s
    else Put(s, i, s.entries[i].(activeConns := s.entries[i].activeConns - 1))
  }

  predicate Pinnable(s: State, address: string, now: int) {
    var i := IndexOf(s.entries, address);
    i < |s.entries| && Selectable(s.entries[i], now)
  }

  function PinTo(s: State, address: string, now: int): State {
    if Pinnable(s, address, now) then Increment(s, IndexOf(s.entries, address)) else s
  }
}
