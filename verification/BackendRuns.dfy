/** Every run of one backend list: what all sequences of updates, health changes, results,
    configuration changes, selections, pins and releases keep. */
module BackendRuns {
  import opened Wire
  import opened Backends
  import opened Selection
  import opened HashRing

  // ---------------------------------------------------------------------------
  // The slot index against its definition
  // ---------------------------------------------------------------------------

  /** Entry `i` fills as many slots as its weight when selectable, and none otherwise. */
  lemma {:induction false} ExpandCounts(entries: seq<Entry>, now: int, i: nat)
    ensures multiset(Expand(entries, now))[i]
         == if i < |entries| && Selectable(entries[i], now) && entries[i].weight > 0 then entries[i].weight else 0
  {
    if entries == [] {
    } else {
      var n := |entries| - 1;
      ExpandCounts(entries[..n], now, i);
      RepeatCounts(n, entries[n].weight, i);
    }
  }

  lemma {:induction false} RepeatCounts(x: nat, n: int, i: nat)
    ensures multiset(Repeat(x, n))[i] == if x == i && n > 0 then n else 0
  {
    if n <= 0 {
    } else {
      RepeatCounts(x, n - 1, i);
    }
  }

  /** Slots are in entry order. */
  lemma {:induction false} ExpandOrdered(entries: seq<Entry>, now: int)
    ensures forall j, k :: 0 <= j < k < |Expand(entries, now)| ==> Expand(entries, now)[j] <= Expand(entries, now)[k]
    ensures forall k :: 0 <= k < |Expand(entries, now)| ==> Expand(entries, now)[k] < |entries|
  {
    if entries == [] {
    } else {
      ExpandOrdered(entries[..|entries| - 1], now);
    }
  }

  /** After an accepted update each healthy backend has as many slots as its weight says, one
      at least, and an unhealthy one none. */
  lemma UpdateGivesSlots(s: State, m: BackendSet, now: int, i: nat)
    requires Accepts(s.version, m.version) && i < |m.backends|
    ensures var s' := Update(s, m, now);
      && |s'.entries| == |m.backends|
      && multiset(s'.slots)[i] ==
         if !s'.entries[i].healthy then 0 else if m.backends[i].weight < 1 then 1 else m.backends[i].weight
  {
    ExpandCounts(Update(s, m, now).entries, now, i);
  }

  /** A configuration in range is kept; the rest becomes 5 errors, 30 seconds, 5 minutes and
      half of the group. */
  lemma DefaultsAre(c: OutlierConfig)
    ensures var d := WithDefaults(c);
      && d.consecutiveErrors == (if c.consecutiveErrors >= 1 then c.consecutiveErrors else 5)
      && d.baseEject == (if c.baseEject >= 1 then c.baseEject else 30_000_000_000)
      && d.maxEject == (if c.maxEject >= 1 then c.maxEject else 300_000_000_000)
      && d.maxEjectPercent == (if 1 <= c.maxEjectPercent <= 100 then c.maxEjectPercent else 50)
  {}

  lemma ExpandMembers(entries: seq<Entry>, now: int, i: nat)
    ensures i in Expand(entries, now) <==>
      i < |entries| && Selectable(entries[i], now) && entries[i].weight > 0
  {
    ExpandCounts(entries, now, i);
    assert i in Expand(entries, now) <==> multiset(Expand(entries, now))[i] > 0;
  }

  lemma ExpandInBounds(entries: seq<Entry>, now: int)
    ensures InBounds(entries, Expand(entries, now))
  {
    var slots := Expand(entries, now);
    forall k | 0 <= k < |slots| ensures slots[k] < |entries| {
      assert slots[k] in slots;
      ExpandMembers(entries, now, slots[k]);
    }
  }

  lemma {:induction false} EarliestBound(entries: seq<Entry>, now: int, i: nat)
    requires i < |entries| && Ejected(entries[i], now)
    ensures EarliestExpiry(entries, now).Some?
    ensures EarliestExpiry(entries, now).value <= entries[i].ejectedUntil.value
  {
    var n := |entries| - 1;
    if i == n {
    } else {
      EarliestBound(entries[..n], now, i);
    }
  }

  /** Until the earliest expiry passes, no ejection ends. */
  lemma EjectionsStand(entries: seq<Entry>, built: int, now: int, i: nat)
    requires built <= now && i < |entries|
    requires EarliestExpiry(entries, built).None? || now < EarliestExpiry(entries, built).value
    ensures Ejected(entries[i], now) == Ejected(entries[i], built)
  {
    if Ejected(entries[i], built) { EarliestBound(entries, built, i); }
  }

  lemma {:induction false} ExpandCongruent(entries: seq<Entry>, entries': seq<Entry>, now: int, now': int)
    requires |entries| == |entries'|
    requires forall i :: 0 <= i < |entries| ==>
      entries[i].weight == entries'[i].weight && Selectable(entries[i], now) == Selectable(entries'[i], now')
    ensures Expand(entries, now) == Expand(entries', now')
  {
    if entries == [] {
    } else {
      ExpandCongruent(entries[..|entries| - 1], entries'[..|entries| - 1], now, now');
    }
  }

  lemma {:induction false} EarliestCongruent(entries: seq<Entry>, entries': seq<Entry>, now: int)
    requires |entries| == |entries'|
    requires forall i :: 0 <= i < |entries| ==> entries[i].ejectedUntil == entries'[i].ejectedUntil
    ensures EarliestExpiry(entries, now) == EarliestExpiry(entries', now)
  {
    if entries == [] {
    } else {
      EarliestCongruent(entries[..|entries| - 1], entries'[..|entries| - 1], now);
    }
  }

  // ---------------------------------------------------------------------------
  // The invariant of one list
  // ---------------------------------------------------------------------------

  ghost predicate EntryOk(e: Entry) {
    e.weight >= 1 && e.activeConns >= 0 && e.ejectCount >= 0
  }

  /** The slots and the expiry are those of the entries as of the last rebuild. */
  ghost predicate Sound(s: State) {
    && s.slots == Expand(s.entries, s.rebuiltAt)
    && s.nextEjectExpiry == EarliestExpiry(s.entries, s.rebuiltAt)
    && (forall i :: 0 <= i < |s.entries| ==> EntryOk(s.entries[i]))
    && 0 <= s.next < CURSOR_MODULUS
    && (s.outlier.enabled ==> s.outlier.baseEject > 0 && s.outlier.maxEject > 0)
  }

  lemma SoundInBounds(s: State)
    requires Sound(s)
    ensures InBounds(s.entries, s.slots)
  {
    ExpandInBounds(s.entries, s.rebuiltAt);
  }

  /** Replacing one entry by one of equal weight, health and ejection keeps the index. */
  lemma PutSound(s: State, i: nat, e: Entry)
    requires Sound(s) && i < |s.entries| && EntryOk(e)
    requires e.weight == s.entries[i].weight && e.healthy == s.entries[i].healthy
    requires e.ejectedUntil == s.entries[i].ejectedUntil
    ensures Sound(Put(s, i, e))
  {
    ExpandCongruent(s.entries, s.entries[i := e], s.rebuiltAt, s.rebuiltAt);
    EarliestCongruent(s.entries, s.entries[i := e], s.rebuiltAt);
  }

  lemma UpdateSound(s: State, m: BackendSet, now: int)
    requires Sound(s)
    ensures Sound(Update(s, m, now))
  {
    var previous := Previous(s.entries);
    forall i | 0 <= i < |m.backends| ensures EntryOk(AdmitAll(m.backends, previous)[i]) {
      var b := m.backends[i];
      if b.address in previous {
        var j :| 0 <= j < |s.entries| && s.entries[j] == previous[b.address];
        assert EntryOk(s.entries[j]);
      }
    }
  }

  lemma SetHealthSound(s: State, address: string, healthy: bool, now: int)
    requires Sound(s)
    ensures Sound(SetHealth(s, address, healthy, now))
  {}

  lemma RecordResultSound(s: State, address: string, success: bool, t1: int, t2: int, t3: int)
    requires Sound(s)
    ensures Sound(RecordResult(s, address, success, t1, t2, t3))
  {
    var i := IndexOf(s.entries, address);
    if i < |s.entries| {
      var e := s.entries[i];
      PutSound(s, i, e.(consecErrors := 0));
      PutSound(s, i, e.(consecErrors := e.consecErrors + 1));
    }
  }

  lemma PickedSound(s: State, key: string, i: nat)
    requires Sound(s) && i < |s.entries|
    ensures Sound(Picked(s, key, i))
  {
    PutSound(s, i, s.entries[i].(activeConns := s.entries[i].activeConns + 1));
    assert EntryOk(s.entries[i]);
  }

  lemma ReleaseSound(s: State, address: string)
    requires Sound(s)
    ensures Sound(Release(s, address))
  {
    var i := IndexOf(s.entries, address);
    if i < |s.entries| && s.entries[i].activeConns > 0 {
      PutSound(s, i, s.entries[i].(activeConns := s.entries[i].activeConns - 1));
    }
  }

  lemma PinToSound(s: State, address: string, now: int)
    requires Sound(s)
    ensures Sound(PinTo(s, address, now))
  {
    var i := IndexOf(s.entries, address);
    if i < |s.entries| {
      PutSound(s, i, s.entries[i].(activeConns := s.entries[i].activeConns + 1));
    }
  }

  // ---------------------------------------------------------------------------
  // Runs
  // ---------------------------------------------------------------------------

  datatype Op =
    | UpdateOp(m: BackendSet, now: int)
    | HealthOp(address: string, healthy: bool, now: int)
    | ResultOp(address: string, success: bool, t1: int, t2: int, t3: int)
    | ConfigOp(config: OutlierConfig)
    | SelectOp(key: string, i: nat, t0: int, t1: int, t2: int)
    | PinOp(address: string, now: int)
    | ReleaseOp(address: string)

  function Initial(start: int): State {
    State([], 0, RoundRobin, Sticky(false, "", 0), Limit(false, 0.0, 0), 0, [],
          OutlierConfig(false, 0, 0, 0, 0), None, start)
  }

  /** A selection of `i` that the algorithm cannot make leaves only the refreshed index. */
  ghost function Select(hash: Hasher, s: State, key: string, i: nat): State {
    if s.slots != [] && InBounds(s.entries, s.slots) && s.next >= 0 && MayPick(hash, s, key, i)
    then Picked(s, key, i) else s
  }

  ghost function Apply(hash: Hasher, s: State, op: Op): State {
    match op
    case UpdateOp(m, now) => Update(s, m, now)
    case HealthOp(address, healthy, now) => SetHealth(s, address, healthy, now)
    case ResultOp(address, success, t1, t2, t3) => RecordResult(s, address, success, t1, t2, t3)
    case ConfigOp(config) => SetOutlier(s, config)
    case SelectOp(key, i, t0, t1, t2) => Select(hash, Refresh(s, t0, t1, t2), key, i)
    case PinOp(address, now) => PinTo(s, address, now)
    case ReleaseOp(address) => Release(s, address)
  }

  ghost function Run(hash: Hasher, start: int, ops: seq<Op>): State {
    if ops == [] then Initial(start)
    else Apply(hash, Run(hash, start, ops[..|ops| - 1]), ops[|ops| - 1])
  }

  /** The clock readings of an operation, in order. */
  function Readings(op: Op): seq<int> {
    match op
    case UpdateOp(_, now) => [now]
    case HealthOp(_, _, now) => [now]
    case ResultOp(_, _, t1, t2, t3) => [t1, t2, t3]
    case ConfigOp(_) => []
    case SelectOp(_, _, t0, t1, t2) => [t0, t1, t2]
    case PinOp(_, now) => [now]
    case ReleaseOp(_) => []
  }

  /** Readings do not decrease, starting at `clock`. */
  predicate Monotone(clock: int, readings: seq<int>) {
    && (readings != [] ==> clock <= readings[0])
    && forall i :: 0 < i < |readings| ==> readings[i - 1] <= readings[i]
  }

  function Clock(start: int, ops: seq<Op>): int {
    if ops == [] then start
    else
      var r := Readings(ops[|ops| - 1]);
      if r == [] then Clock(start, ops[..|ops| - 1]) else r[|r| - 1]
  }

  predicate Timely(start: int, ops: seq<Op>) {
    ops == [] || (Timely(start, ops[..|ops| - 1])
                  && Monotone(Clock(start, ops[..|ops| - 1]), Readings(ops[|ops| - 1])))
  }

  lemma ApplySound(hash: Hasher, s: State, op: Op)
    requires Sound(s)
    ensures Sound(Apply(hash, s, op))
  {
    match op
    case UpdateOp(m, now) => UpdateSound(s, m, now);
    case HealthOp(address, healthy, now) => SetHealthSound(s, address, healthy, now);
    case ResultOp(address, success, t1, t2, t3) => RecordResultSound(s, address, success, t1, t2, t3);
    case ConfigOp(_) =>
    case SelectOp(key, i, t0, t1, t2) =>
      var r := Refresh(s, t0, t1, t2);
      SoundInBounds(r);
      if r.slots != [] && MayPick(hash, r, key, i) { PickedSound(r, key, i); }
    case PinOp(address, now) => PinToSound(s, address, now);
    case ReleaseOp(address) => ReleaseSound(s, address);
  }

  lemma RebuiltAtMoves(hash: Hasher, s: State, op: Op, clock: int)
    requires s.rebuiltAt <= clock && Monotone(clock, Readings(op))
    ensures var r := Readings(op);
      Apply(hash, s, op).rebuiltAt <= if r == [] then clock else r[|r| - 1]
  {
    if op.SelectOp? {
      var r := Readings(op);
      assert r[0] <= r[1] <= r[2];
    } else if op.ResultOp? {
      var r := Readings(op);
      assert r[0] <= r[1] <= r[2];
    }
  }

  lemma {:induction false} RunSound(hash: Hasher, start: int, ops: seq<Op>)
    requires Timely(start, ops)
    ensures Sound(Run(hash, start, ops)) && Run(hash, start, ops).rebuiltAt <= Clock(start, ops)
  {
    if ops == [] {
    } else {
      var init, op := ops[..|ops| - 1], ops[|ops| - 1];
      RunSound(hash, start, init);
      ApplySound(hash, Run(hash, start, init), op);
      RebuiltAtMoves(hash, Run(hash, start, init), op, Clock(start, init));
    }
  }

  // ---------------------------------------------------------------------------
  // The slots every selection uses
  // ---------------------------------------------------------------------------

  /** The clock reading that decides a selection: the rebuild's, or the check's. */
  function Moment(s: State, t0: int, t1: int, t2: int): int {
    if Lapsed(s, t0) && Lapsed(s, t1) then t2 else t0
  }

  lemma RefreshExact(s: State, t0: int, t1: int, t2: int)
    requires Sound(s) && s.rebuiltAt <= t0 <= t1 <= t2
    ensures Refresh(s, t0, t1, t2).slots == Expand(s.entries, Moment(s, t0, t1, t2))
  {
    if !Lapsed(s, t0) {
      forall i | 0 <= i < |s.entries|
        ensures Selectable(s.entries[i], t0) == Selectable(s.entries[i], s.rebuiltAt)
      {
        EjectionsStand(s.entries, s.rebuiltAt, t0, i);
      }
      ExpandCongruent(s.entries, s.entries, t0, s.rebuiltAt);
    }
  }

  /** After every run, a selection uses exactly the weighted expansion of the entries that
      are healthy and not ejected at its moment; entry i is among them iff it is selectable. */
  lemma {:induction false} SelectionSlotsExact(hash: Hasher, start: int, ops: seq<Op>,
                                               t0: int, t1: int, t2: int, i: nat)
    requires Timely(start, ops) && Clock(start, ops) <= t0 <= t1 <= t2
    ensures var s := Run(hash, start, ops);
      var now := Moment(s, t0, t1, t2);
      && Refresh(s, t0, t1, t2).slots == Expand(s.entries, now)
      && (i in Refresh(s, t0, t1, t2).slots <==> i < |s.entries| && Selectable(s.entries[i], now))
  {
    RunSound(hash, start, ops);
    var s := Run(hash, start, ops);
    RefreshExact(s, t0, t1, t2);
    ExpandMembers(s.entries, Moment(s, t0, t1, t2), i);
    assert i < |s.entries| ==> EntryOk(s.entries[i]);
  }

  // ---------------------------------------------------------------------------
  // Ejection: durations and re-admission
  // ---------------------------------------------------------------------------

  function EntryOf(s: State, address: string): Option<Entry> {
    var i := IndexOf(s.entries, address);
    if i < |s.entries| then Some(s.entries[i]) else None
  }

  function UntilOf(s: State, address: string): Option<int> {
    var e := EntryOf(s, address);
    if e.Some? then e.value.ejectedUntil else None
  }

  predicate EjectedAt(s: State, address: string, now: int) {
    UntilOf(s, address).Some? && now < UntilOf(s, address).value
  }

  /** Seen from outside: the result operation took `address` from not ejected to ejected. */
  ghost predicate Ejects(hash: Hasher, s: State, op: Op, address: string) {
    && op.ResultOp? && op.address == address
    && !EjectedAt(s, address, op.t1) && EjectedAt(Apply(hash, s, op), address, op.t2)
  }

  lemma {:induction false} IndexOfPut(entries: seq<Entry>, i: nat, e: Entry, address: string)
    requires i < |entries| && e.address == entries[i].address
    ensures IndexOf(entries[i := e], address) == IndexOf(entries, address)
  {
    var a, b := IndexOf(entries, address), IndexOf(entries[i := e], address);
    assert forall j :: 0 <= j < |entries| ==> entries[i := e][j].address == entries[j].address;
  }

  /** A result ejects exactly when outlier detection is on, the address is known, the
      request failed and the entry trips. */
  lemma EjectsIff(hash: Hasher, s: State, op: Op, address: string)
    requires Sound(s) && op.ResultOp? && op.address == address && op.t1 <= op.t2
    ensures Ejects(hash, s, op, address) <==>
      s.outlier.enabled && !op.success && IndexOf(s.entries, address) < |s.entries|
      && Trips(s, IndexOf(s.entries, address), op.t1, op.t2)
  {
    var i, s' := IndexOf(s.entries, address), Apply(hash, s, op);
    if s.outlier.enabled && i < |s.entries| {
      ResultPuts(s, address, op.success, op.t1, op.t2, op.t3);
      EntryOfPut(s, s', i, s'.entries[i], address);
      assert EntryOk(s.entries[i]);
      Positive(s.entries[i].ejectCount + 1, s.outlier.baseEject);
    }
  }

  lemma Positive(k: int, b: int)
    requires k >= 1 && b >= 1
    ensures k * b >= 1
  {
    assert k * b >= 1 * b by { Selection.Scale(1, k, b); }
  }

  /** An ejection ends exactly min(k * base, max) after the clock reading that decided it. */
  lemma EjectionLasts(hash: Hasher, s: State, op: Op, address: string)
    requires Sound(s) && op.ResultOp? && op.t1 <= op.t2 && Ejects(hash, s, op, address)
    ensures EntryOf(s, address).Some? && EntryOf(Apply(hash, s, op), address).Some?
    ensures var k := EntryOf(s, address).value.ejectCount + 1;
      && EntryOf(Apply(hash, s, op), address).value.ejectCount == k
      && UntilOf(Apply(hash, s, op), address) == Some(op.t2 + EjectDuration(s.outlier, k))
  {
    EjectsIff(hash, s, op, address);
    var i := IndexOf(s.entries, address);
    IndexOfPut(s.entries, i, EjectedEntry(s.entries[i], s.outlier, op.t2), address);
  }

  ghost predicate Resets(s: State, op: Op) {
    op.UpdateOp? && Accepts(s.version, op.m.version)
  }

  /** How often `address` was ejected since the last accepted update. */
  ghost function Ejections(hash: Hasher, start: int, ops: seq<Op>, address: string): nat {
    if ops == [] then 0
    else
      var init, op := ops[..|ops| - 1], ops[|ops| - 1];
      var s := Run(hash, start, init);
      if Resets(s, op) then 0
      else Ejections(hash, start, init, address) + (if Ejects(hash, s, op, address) then 1 else 0)
  }

  /** The entries agree in address, error count and ejection state. */
  ghost predicate SameEjections(a: seq<Entry>, b: seq<Entry>) {
    && |a| == |b|
    && forall i :: 0 <= i < |a| ==>
         && a[i].address == b[i].address
         && a[i].ejectedUntil == b[i].ejectedUntil
         && a[i].ejectCount == b[i].ejectCount
         && a[i].consecErrors == b[i].consecErrors
  }

  lemma SelectKeepsEjections(hash: Hasher, s: State, key: string, i: nat)
    ensures SameEjections(Select(hash, s, key, i).entries, s.entries)
    ensures Select(hash, s, key, i).outlier == s.outlier
  {}

  /** Only accepted updates and results touch ejection state. */
  lemma KeepsEjections(hash: Hasher, s: State, op: Op)
    requires !Resets(s, op) && !op.ResultOp?
    ensures SameEjections(Apply(hash, s, op).entries, s.entries)
    ensures !op.ConfigOp? ==> Apply(hash, s, op).outlier == s.outlier
  {
    if op.SelectOp? {
      SelectKeepsEjections(hash, Refresh(s, op.t0, op.t1, op.t2), op.key, op.i);
    }
  }

  lemma SameEjectionsOf(s: State, s': State, address: string)
    requires SameEjections(s'.entries, s.entries)
    ensures IndexOf(s'.entries, address) == IndexOf(s.entries, address)
    ensures UntilOf(s', address) == UntilOf(s, address)
    ensures EntryOf(s, address).Some? == EntryOf(s', address).Some?
    ensures EntryOf(s, address).Some? ==>
      && EntryOf(s', address).value.ejectCount == EntryOf(s, address).value.ejectCount
      && EntryOf(s', address).value.consecErrors == EntryOf(s, address).value.consecErrors
  {
    var i, i' := IndexOf(s.entries, address), IndexOf(s'.entries, address);
  }

  /** Apart from an accepted update and its own ejection, nothing changes when an entry's
      ejection ends or how often it was ejected. */
  lemma EjectionFrame(hash: Hasher, s: State, op: Op, address: string)
    requires Sound(s) && !Resets(s, op) && !Ejects(hash, s, op, address)
    requires op.ResultOp? ==> op.t1 <= op.t2
    ensures UntilOf(Apply(hash, s, op), address) == UntilOf(s, address)
    ensures EntryOf(s, address).Some? == EntryOf(Apply(hash, s, op), address).Some?
    ensures EntryOf(s, address).Some? ==>
      EntryOf(Apply(hash, s, op), address).value.ejectCount == EntryOf(s, address).value.ejectCount
  {
    if op.ResultOp? {
      ResultFrame(hash, s, op, address);
    } else {
      KeepsEjections(hash, s, op);
      SameEjectionsOf(s, Apply(hash, s, op), address);
    }
  }

  lemma EntryOfPut(s: State, s': State, i: nat, e: Entry, address: string)
    requires i < |s.entries| && e.address == s.entries[i].address && s'.entries == s.entries[i := e]
    ensures EntryOf(s', address) == if IndexOf(s.entries, address) == i then Some(e) else EntryOf(s, address)
  {
    IndexOfPut(s.entries, i, e, address);
  }

  /** A result touches one entry, and its ejection only when it trips. */
  lemma ResultPuts(s: State, address: string, success: bool, t1: int, t2: int, t3: int)
    requires s.outlier.enabled && IndexOf(s.entries, address) < |s.entries|
    ensures var i, s' := IndexOf(s.entries, address), RecordResult(s, address, success, t1, t2, t3);
      && |s'.entries| == |s.entries| && s'.entries == s.entries[i := s'.entries[i]]
      && s'.entries[i].address == address
      && (success || !Trips(s, i, t1, t2) ==>
            && s'.entries[i].ejectedUntil == s.entries[i].ejectedUntil
            && s'.entries[i].ejectCount == s.entries[i].ejectCount)
      && (!success && Trips(s, i, t1, t2) ==> s'.entries[i] == EjectedEntry(s.entries[i], s.outlier, t2))
      && s'.entries[i].consecErrors == if success || Trips(s, i, t1, t2) then 0 else s.entries[i].consecErrors + 1
  {}

  /** Entries that agree in all that a result does not touch. */
  predicate SameStanding(a: seq<Entry>, b: seq<Entry>) {
    |a| == |b| && forall i :: 0 <= i < |a| ==>
      && a[i].address == b[i].address && a[i].weight == b[i].weight
      && a[i].healthy == b[i].healthy && a[i].activeConns == b[i].activeConns
  }

  lemma ResultKeepsStanding(s: State, address: string, success: bool, t1: int, t2: int, t3: int)
    ensures SameStanding(RecordResult(s, address, success, t1, t2, t3).entries, s.entries)
  {
    var i := IndexOf(s.entries, address);
    if s.outlier.enabled && i < |s.entries| {
      var e := s.entries[i];
      if success {
        assert SameStanding(Put(s, i, e.(consecErrors := 0)).entries, s.entries);
      } else if Trips(s, i, t1, t2) {
        assert SameStanding(Put(s, i, EjectedEntry(e, s.outlier, t2)).entries, s.entries);
      } else {
        assert SameStanding(Put(s, i, e.(consecErrors := e.consecErrors + 1)).entries, s.entries);
      }
    }
  }

  lemma ResultFrame(hash: Hasher, s: State, op: Op, address: string)
    requires Sound(s) && op.ResultOp? && op.t1 <= op.t2 && !Ejects(hash, s, op, address)
    ensures UntilOf(Apply(hash, s, op), address) == UntilOf(s, address)
    ensures EntryOf(s, address).Some? == EntryOf(Apply(hash, s, op), address).Some?
    ensures EntryOf(s, address).Some? ==>
      EntryOf(Apply(hash, s, op), address).value.ejectCount == EntryOf(s, address).value.ejectCount
  {
    var i, s' := IndexOf(s.entries, op.address), Apply(hash, s, op);
    if s.outlier.enabled && i < |s.entries| {
      ResultPuts(s, op.address, op.success, op.t1, op.t2, op.t3);
      EntryOfPut(s, s', i, s'.entries[i], address);
      if op.address == address { EjectsIff(hash, s, op, address); }
    }
  }

  lemma {:induction false} EjectCountIsEjections(hash: Hasher, start: int, ops: seq<Op>, address: string)
    requires Timely(start, ops) && EntryOf(Run(hash, start, ops), address).Some?
    ensures EntryOf(Run(hash, start, ops), address).value.ejectCount == Ejections(hash, start, ops, address)
  {
    if ops == [] {
    } else {
      var init, op := ops[..|ops| - 1], ops[|ops| - 1];
      var s := Run(hash, start, init);
      RunSound(hash, start, init);
      assert op.ResultOp? ==> op.t1 <= op.t2 by { assert op.ResultOp? ==> Readings(op)[0] <= Readings(op)[1]; }
      if !Resets(s, op) {
        if Ejects(hash, s, op, address) {
          EjectionLasts(hash, s, op, address);
        } else {
          EjectionFrame(hash, s, op, address);
        }
        EjectCountIsEjections(hash, start, init, address);
      }
    }
  }

  /** min(k * base, max), as the configuration says. */
  lemma DurationIs(c: OutlierConfig, k: nat)
    ensures EjectDuration(c, k) == if k * c.baseEject <= c.maxEject then k * c.baseEject else c.maxEject
  {}

  lemma KthFrom(hash: Hasher, s: State, op: Op, address: string, k: nat)
    requires Sound(s) && op.ResultOp? && op.t1 <= op.t2 && Ejects(hash, s, op, address)
    requires EntryOf(s, address).Some? ==> EntryOf(s, address).value.ejectCount == k
    ensures UntilOf(Apply(hash, s, op), address) == Some(op.t2 + EjectDuration(s.outlier, k + 1))
  {
    EjectionLasts(hash, s, op, address);
  }

  lemma KthInRun(hash: Hasher, start: int, ops: seq<Op>, s: State, op: Op, address: string, k: nat)
    requires Timely(start, ops) && s == Run(hash, start, ops)
    requires op.ResultOp? && op.t1 <= op.t2 && Ejects(hash, s, op, address)
    requires k == Ejections(hash, start, ops, address)
    ensures UntilOf(Apply(hash, s, op), address) == Some(op.t2 + EjectDuration(s.outlier, k + 1))
  {
    assert Sound(s) by { RunSound(hash, start, ops); }
    assert EntryOf(s, address).Some? ==> EntryOf(s, address).value.ejectCount == k by {
      if EntryOf(s, address).Some? { EjectCountIsEjections(hash, start, ops, address); }
    }
    KthFrom(hash, s, op, address, k);
  }

  /** In every run, the k-th ejection of a backend since the last accepted update lasts
      exactly min(k * base, max). */
  lemma KthEjectionLasts(hash: Hasher, start: int, ops: seq<Op>, s: State, op: Op, address: string, k: nat)
    requires Timely(start, ops) && s == Run(hash, start, ops)
    requires op.ResultOp? && op.t1 <= op.t2 && Ejects(hash, s, op, address)
    requires k == Ejections(hash, start, ops, address)
    ensures var linear, longest := (k + 1) * s.outlier.baseEject, s.outlier.maxEject;
      UntilOf(Apply(hash, s, op), address) == Some(op.t2 + if linear <= longest then linear else longest)
  {
    var until := UntilOf(Apply(hash, s, op), address);
    assert until == Some(op.t2 + EjectDuration(s.outlier, k + 1)) by {
      KthInRun(hash, start, ops, s, op, address, k);
    }
    DurationIs(s.outlier, k + 1);
  }

  /** The state after `more` operations from `s`. */
  ghost function RunFrom(hash: Hasher, s: State, more: seq<Op>): State {
    if more == [] then s
    else Apply(hash, RunFrom(hash, s, more[..|more| - 1]), more[|more| - 1])
  }

  ghost predicate NeverEjects(hash: Hasher, s: State, more: seq<Op>, address: string) {
    forall n :: 0 <= n < |more| ==> !Ejects(hash, RunFrom(hash, s, more[..n]), more[n], address)
  }

  predicate ResultsInOrder(ops: seq<Op>) {
    forall i :: 0 <= i < |ops| && ops[i].ResultOp? ==> ops[i].t1 <= ops[i].t2
  }

  lemma NeverEjectsPrefix(hash: Hasher, s: State, more: seq<Op>, address: string)
    requires more != [] && NeverEjects(hash, s, more, address)
    ensures NeverEjects(hash, s, more[..|more| - 1], address)
    ensures !Ejects(hash, RunFrom(hash, s, more[..|more| - 1]), more[|more| - 1], address)
  {
    var init := more[..|more| - 1];
    forall n | 0 <= n < |init| ensures !Ejects(hash, RunFrom(hash, s, init[..n]), init[n], address) {
      assert init[..n] == more[..n] && init[n] == more[n];
    }
  }

  lemma UntilStep(hash: Hasher, r: State, op: Op, address: string)
    requires Sound(r) && (op.ResultOp? ==> op.t1 <= op.t2) && !Ejects(hash, r, op, address)
    ensures Sound(Apply(hash, r, op)) && UntilOf(Apply(hash, r, op), address) in {None, UntilOf(r, address)}
  {
    ApplySound(hash, r, op);
    if Resets(r, op) {
      UpdateClearsEjections(r, op.m, op.now, address);
    } else {
      EjectionFrame(hash, r, op, address);
    }
  }

  lemma UpdateClearsEjections(s: State, m: BackendSet, now: int, address: string)
    requires Accepts(s.version, m.version)
    ensures UntilOf(Update(s, m, now), address) == None
  {}

  lemma {:induction false} UntilKept(hash: Hasher, s: State, more: seq<Op>, address: string)
    requires Sound(s) && ResultsInOrder(more) && NeverEjects(hash, s, more, address)
    ensures Sound(RunFrom(hash, s, more))
    ensures UntilOf(RunFrom(hash, s, more), address) in {None, UntilOf(s, address)}
  {
    if more == [] {
    } else {
      var init, op := more[..|more| - 1], more[|more| - 1];
      assert NeverEjects(hash, s, init, address) && !Ejects(hash, RunFrom(hash, s, init), op, address) by {
        NeverEjectsPrefix(hash, s, more, address);
      }
      UntilKept(hash, s, init, address);
      UntilStep(hash, RunFrom(hash, s, init), op, address);
    }
  }

  /** Re-admission: a backend ejected at t2 is selectable at any moment at or after
      t2 + max, whatever happens in between, while healthy and not ejected again. */
  lemma {:induction false} Readmitted(hash: Hasher, s: State, op: Op, more: seq<Op>, address: string, now: int)
    requires Sound(s) && op.ResultOp? && op.t1 <= op.t2 && Ejects(hash, s, op, address)
    requires ResultsInOrder(more) && NeverEjects(hash, Apply(hash, s, op), more, address)
    requires now >= op.t2 + s.outlier.maxEject
    ensures var r := RunFrom(hash, Apply(hash, s, op), more);
      EntryOf(r, address).Some? && EntryOf(r, address).value.healthy ==>
        Selectable(EntryOf(r, address).value, now) && IndexOf(r.entries, address) in Expand(r.entries, now)
  {
    EjectionLasts(hash, s, op, address);
    ApplySound(hash, s, op);
    UntilKept(hash, Apply(hash, s, op), more, address);
    var r := RunFrom(hash, Apply(hash, s, op), more);
    var i := IndexOf(r.entries, address);
    if i < |r.entries| {
      assert EntryOk(r.entries[i]);
      ExpandMembers(r.entries, now, i);
    }
  }

  /** Re-admission at a selection: any selection that reads the clock at or after t2 + max,
      with the lazy refresh it makes, finds the backend in its slots. */
  lemma ReadmittedInSlots(hash: Hasher, s: State, op: Op, more: seq<Op>, address: string, t0: int, t1: int, t2: int)
    requires Sound(s) && op.ResultOp? && op.t1 <= op.t2 && Ejects(hash, s, op, address)
    requires ResultsInOrder(more) && NeverEjects(hash, Apply(hash, s, op), more, address)
    requires op.t2 + s.outlier.maxEject <= t0 <= t1 <= t2
    requires RunFrom(hash, Apply(hash, s, op), more).rebuiltAt <= t0
    ensures var r := RunFrom(hash, Apply(hash, s, op), more);
      EntryOf(r, address).Some? && EntryOf(r, address).value.healthy ==>
        IndexOf(r.entries, address) in Refresh(r, t0, t1, t2).slots
  {
    var r := RunFrom(hash, Apply(hash, s, op), more);
    assert Sound(r) by {
      ApplySound(hash, s, op);
      UntilKept(hash, Apply(hash, s, op), more, address);
    }
    RefreshExact(r, t0, t1, t2);
    Readmitted(hash, s, op, more, address, Moment(r, t0, t1, t2));
  }

  // ---------------------------------------------------------------------------
  // The ejection cap
  // ---------------------------------------------------------------------------

  lemma {:induction false} EjectedCountFalls(entries: seq<Entry>, t: int, now: int)
    requires t <= now
    ensures EjectedCount(entries, now) <= EjectedCount(entries, t)
  {
    if entries == [] {
    } else {
      EjectedCountFalls(entries[..|entries| - 1], t, now);
    }
  }

  lemma {:induction false} EjectedCountPut(entries: seq<Entry>, i: nat, e: Entry, now: int)
    requires i < |entries|
    ensures EjectedCount(entries[i := e], now) <= EjectedCount(entries, now) + 1
    ensures e.ejectedUntil == entries[i].ejectedUntil ==>
              EjectedCount(entries[i := e], now) == EjectedCount(entries, now)
  {
    var n := |entries| - 1;
    if i < n {
      EjectedCountPut(entries[..n], i, e, now);
      assert entries[i := e][..n] == entries[..n][i := e];
    } else {
      assert entries[i := e][..n] == entries[..n];
    }
  }

  lemma {:induction false} NoneEjected(entries: seq<Entry>, now: int)
    requires forall i :: 0 <= i < |entries| ==> entries[i].ejectedUntil == None
    ensures EjectedCount(entries, now) == 0
  {
    if entries == [] {
    } else {
      NoneEjected(entries[..|entries| - 1], now);
    }
  }

  /** The configured share of the group is never exceeded, now or later. */
  ghost predicate WithinCap(s: State, clock: int) {
    forall now :: now >= clock ==>
      100 * EjectedCount(s.entries, now) <= s.outlier.maxEjectPercent * |s.entries|
  }

  /** No configuration change lowers the percentage. */
  ghost predicate PercentKept(hash: Hasher, start: int, ops: seq<Op>) {
    forall n :: 0 <= n < |ops| && ops[n].ConfigOp? ==>
      Run(hash, start, ops[..n]).outlier.maxEjectPercent <= WithDefaults(ops[n].config).maxEjectPercent
  }

  lemma ResultWithinCap(s: State, op: Op, clock: int)
    requires op.ResultOp? && clock <= op.t1 <= op.t2 <= op.t3 && WithinCap(s, clock)
    ensures WithinCap(RecordResult(s, op.address, op.success, op.t1, op.t2, op.t3), op.t3)
  {
    var s' := RecordResult(s, op.address, op.success, op.t1, op.t2, op.t3);
    var i := IndexOf(s.entries, op.address);
    forall now | now >= op.t3
      ensures 100 * EjectedCount(s'.entries, now) <= s'.outlier.maxEjectPercent * |s'.entries|
    {
      if i < |s.entries| {
        EjectedCountPut(s.entries, i, s'.entries[i], now);
        EjectedCountFalls(s.entries, op.t2, now);
        assert s'.entries == s.entries[i := s'.entries[i]];
      }
    }
  }

  lemma UpdateWithinCap(s: State, m: BackendSet, now: int, clock: int)
    requires clock <= now && WithinCap(s, clock)
    requires s.outlier.maxEjectPercent >= 0
    ensures WithinCap(Update(s, m, now), now)
  {
    if Accepts(s.version, m.version) {
      var entries := AdmitAll(m.backends, Previous(s.entries));
      forall later ensures EjectedCount(entries, later) == 0 { NoneEjected(entries, later); }
    }
  }

  lemma {:induction false} SameEjectedCount(a: seq<Entry>, b: seq<Entry>, now: int)
    requires SameEjections(a, b)
    ensures EjectedCount(a, now) == EjectedCount(b, now)
  {
    if a == [] {
    } else {
      SameEjectedCount(a[..|a| - 1], b[..|b| - 1], now);
    }
  }

  lemma SameWithinCap(s: State, s': State, clock: int, clock': int)
    requires WithinCap(s, clock) && clock <= clock' && SameEjections(s'.entries, s.entries)
    requires s.outlier.maxEjectPercent <= s'.outlier.maxEjectPercent
    ensures WithinCap(s', clock')
  {
    forall now | now >= clock'
      ensures 100 * EjectedCount(s'.entries, now) <= s'.outlier.maxEjectPercent * |s'.entries|
    {
      SameEjectedCount(s'.entries, s.entries, now);
      Selection.Scale(s.outlier.maxEjectPercent, s'.outlier.maxEjectPercent, |s.entries|);
    }
  }

  function LastReading(op: Op, clock: int): int {
    if Readings(op) == [] then clock else Readings(op)[|Readings(op)| - 1]
  }

  lemma ReadingsRise(op: Op, clock: int)
    requires Monotone(clock, Readings(op))
    ensures clock <= LastReading(op, clock)
    ensures op.ResultOp? ==> clock <= op.t1 <= op.t2 <= op.t3
  {
    var r := Readings(op);
    if |r| == 3 { assert r[0] <= r[1] <= r[2]; }
  }

  lemma ApplyWithinCap(hash: Hasher, s: State, op: Op, clock: int)
    requires WithinCap(s, clock) && s.outlier.maxEjectPercent >= 0 && Monotone(clock, Readings(op))
    requires op.ConfigOp? ==> s.outlier.maxEjectPercent <= WithDefaults(op.config).maxEjectPercent
    ensures WithinCap(Apply(hash, s, op), LastReading(op, clock))
    ensures Apply(hash, s, op).outlier.maxEjectPercent >= 0
  {
    ReadingsRise(op, clock);
    if op.UpdateOp? {
      UpdateWithinCap(s, op.m, op.now, clock);
    } else if op.ResultOp? {
      ResultWithinCap(s, op, clock);
    } else {
      KeepsEjections(hash, s, op);
      SameWithinCap(s, Apply(hash, s, op), clock, LastReading(op, clock));
    }
  }

  /** In every run that does not lower the percentage, the cap holds from then on. */
  lemma {:induction false} CapHolds(hash: Hasher, start: int, ops: seq<Op>)
    requires Timely(start, ops) && PercentKept(hash, start, ops)
    ensures WithinCap(Run(hash, start, ops), Clock(start, ops))
    ensures Run(hash, start, ops).outlier.maxEjectPercent >= 0
  {
    if ops == [] {
    } else {
      var n := |ops| - 1;
      var init := ops[..n];
      assert forall k :: 0 <= k < n ==> init[..k] == ops[..k];
      CapHolds(hash, start, init);
      RunSound(hash, start, init);
      ApplyWithinCap(hash, Run(hash, start, init), ops[n], Clock(start, init));
    }
  }

  lemma {:induction false} SomeoneIn(entries: seq<Entry>, now: int) returns (i: nat)
    requires EjectedCount(entries, now) < |entries|
    ensures i < |entries| && !Ejected(entries[i], now)
  {
    var n := |entries| - 1;
    if Ejected(entries[n], now) { i := SomeoneIn(entries[..n], now); } else { i := n; }
  }

  /** A correlated failure cannot empty the group: with a percentage below 100 and all
      backends actively healthy, a non-empty group always has a slot to select. */
  lemma {:induction false} SelectionAlwaysSucceeds(hash: Hasher, start: int, ops: seq<Op>, t0: int, t1: int, t2: int)
    requires Timely(start, ops) && PercentKept(hash, start, ops) && Clock(start, ops) <= t0 <= t1 <= t2
    requires var s := Run(hash, start, ops);
      && s.outlier.maxEjectPercent < 100 && s.entries != []
      && forall i :: 0 <= i < |s.entries| ==> s.entries[i].healthy
    ensures Refresh(Run(hash, start, ops), t0, t1, t2).slots != []
  {
    var s := Run(hash, start, ops);
    CapHolds(hash, start, ops);
    var now := Moment(s, t0, t1, t2);
    assert 100 * EjectedCount(s.entries, now) <= s.outlier.maxEjectPercent * |s.entries|;
    Selection.Scale(s.outlier.maxEjectPercent, 99, |s.entries|);
    var i := SomeoneIn(s.entries, now);
    SelectionSlotsExact(hash, start, ops, t0, t1, t2, i);
  }
}
