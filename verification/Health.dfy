/** Active health checking: streaks of probe results with hysteresis, driving the health
    bits of a backend list. */
module Health {
  import opened Wire
  import opened Backends
  import opened BackendRuns
  import opened BackendLists
  import opened HashRing
  import Accounting

  /** Positive streaks count successes, negative ones failures. */
  function NextStreak(streak: int, success: bool): int {
    if success then (if streak < 0 then 0 else streak) + 1 else (if streak > 0 then 0 else streak) - 1
  }

  /** `failures` in a row mark a backend unhealthy, `successes` in a row healthy. */
  datatype Thresholds = Thresholds(failures: int, successes: int)

  function Verdict(t: Thresholds, streak: int, success: bool): Option<bool> {
    if success && streak >= t.successes then Some(true)
    else if !success && -streak >= t.failures then Some(false)
    else None
  }

  // ---------------------------------------------------------------------------
  // One address's history
  // ---------------------------------------------------------------------------

  /** The length of the run of equal results at the end. */
  function TrailingRun(h: seq<bool>): nat {
    if |h| <= 1 then |h|
    else if h[|h| - 1] == h[|h| - 2] then TrailingRun(h[..|h| - 1]) + 1
    else 1
  }

  lemma {:induction false} TrailingRunIs(h: seq<bool>)
    ensures var n := TrailingRun(h);
      && n <= |h| && (h != [] ==> n >= 1)
      && (forall i :: |h| - n <= i < |h| ==> h[i] == h[|h| - 1])
      && (n < |h| ==> h[|h| - n - 1] != h[|h| - 1])
  {
    if |h| <= 1 || h[|h| - 1] != h[|h| - 2] {
    } else {
      TrailingRunIs(h[..|h| - 1]);
    }
  }

  /** The streak after results `h`, `start` being the streak before them. */
  function Streak(start: int, h: seq<bool>): int {
    if h == [] then start else NextStreak(Streak(start, h[..|h| - 1]), h[|h| - 1])
  }

  /** How much of an earlier streak a run of `outcome` goes on from. */
  function Carried(start: int, outcome: bool): nat {
    if outcome then (if start > 0 then start else 0) else (if start < 0 then -start else 0)
  }

  /** After any probe history the streak is the signed length of the trailing run; only a
      run that reaches back to the beginning goes on from an earlier streak. */
  lemma {:induction false} StreakIsTrailingRun(start: int, h: seq<bool>)
    requires h != []
    ensures var outcome := h[|h| - 1];
      var n: int := TrailingRun(h) + (if TrailingRun(h) == |h| then Carried(start, outcome) else 0);
      Streak(start, h) == if outcome then n else -n
  {
    var init := h[..|h| - 1];
    if init == [] {
    } else {
      StreakIsTrailingRun(start, init);
      TrailingRunIs(init);
    }
  }

  /** The health bit after results `h`: changed only by a verdict. */
  function Bit(t: Thresholds, start: int, healthy: bool, h: seq<bool>): bool {
    if h == [] then healthy
    else
      var v := Verdict(t, Streak(start, h), h[|h| - 1]);
      if v.Some? then v.value else Bit(t, start, healthy, h[..|h| - 1])
  }

  /** An address first listed: healthy, with no streak. */
  function NewBit(t: Thresholds, h: seq<bool>): bool { Bit(t, 0, true, h) }

  function Flips(t: Thresholds, h: seq<bool>): nat {
    if h == [] then 0
    else Flips(t, h[..|h| - 1]) + (if NewBit(t, h) != NewBit(t, h[..|h| - 1]) then 1 else 0)
  }

  function Needed(t: Thresholds, bit: bool): int { if bit then t.successes else t.failures }

  /** The last `n` results are all `outcome`. */
  predicate EndsWith(h: seq<bool>, outcome: bool, n: int) {
    n <= |h| && forall i :: |h| - n <= i < |h| ==> 0 <= i && h[i] == outcome
  }

  /** A run of `outcome` long enough, counting what it goes on from. */
  predicate Completes(t: Thresholds, start: int, h: seq<bool>, outcome: bool) {
    || EndsWith(h, outcome, Needed(t, outcome))
    || (EndsWith(h, outcome, |h|) && Carried(start, outcome) + |h| >= Needed(t, outcome))
  }

  /** The bit is set to a value exactly by a complete run of that outcome. */
  lemma FullRunDecides(t: Thresholds, start: int, h: seq<bool>, outcome: bool)
    requires t.failures > 0 && t.successes > 0 && h != []
    ensures Completes(t, start, h, outcome) <==> Verdict(t, Streak(start, h), h[|h| - 1]) == Some(outcome)
  {
    StreakIsTrailingRun(start, h);
    TrailingRunIs(h);
    var n, need := TrailingRun(h), Needed(t, outcome);
    if EndsWith(h, outcome, need) {
      assert h[|h| - 1] == outcome;
      assert need <= n;
    }
    if EndsWith(h, outcome, |h|) {
      assert h[|h| - 1] == outcome;
      assert n == |h|;
    }
  }

  /** The bit of a newly listed address never changes without a full run of the opposite
      outcome, and such a run always sets it. */
  lemma FlipNeedsFullRun(t: Thresholds, h: seq<bool>)
    requires t.failures > 0 && t.successes > 0 && h != []
    ensures NewBit(t, h) != NewBit(t, h[..|h| - 1]) ==> EndsWith(h, NewBit(t, h), Needed(t, NewBit(t, h)))
    ensures forall outcome :: EndsWith(h, outcome, Needed(t, outcome)) ==> NewBit(t, h) == outcome
  {
    FullRunDecides(t, 0, h, true);
    FullRunDecides(t, 0, h, false);
  }

  // ---------------------------------------------------------------------------
  // An address that returns with a streak
  // ---------------------------------------------------------------------------

  predicate AllFailed(h: seq<bool>) { forall i :: 0 <= i < |h| ==> !h[i] }

  /** A healthy address with streak `start` is marked down by a run of failures exactly when
      the run and what it goes on from reach the threshold together. */
  lemma {:induction false} FailuresMarkDownIff(t: Thresholds, start: int, h: seq<bool>)
    requires h != [] && AllFailed(h)
    ensures Streak(start, h) == -(Carried(start, false) + |h|)
    ensures !Bit(t, start, true, h) <==> Carried(start, false) + |h| >= t.failures
  {
    if |h| <= 1 {
    } else {
      FailuresMarkDownIff(t, start, h[..|h| - 1]);
    }
  }

  function Failures(n: nat): seq<bool> { seq(n, i => false) }

  /** So a full run of failures is needed if and only if no failing streak was carried over,
      or a single failure is a full run. */
  lemma FullRunNeededIff(t: Thresholds, start: int)
    ensures (forall n: nat :: n >= 1 ==> (!Bit(t, start, true, Failures(n)) <==> n >= t.failures))
            <==> start >= 0 || t.failures <= 1
  {
    forall n: nat | n >= 1
      ensures !Bit(t, start, true, Failures(n)) <==> Carried(start, false) + n >= t.failures
    {
      FailuresMarkDownIff(t, start, Failures(n));
    }
    if start < 0 && t.failures > 1 {
      var n: nat := t.failures - 1;
      assert !Bit(t, start, true, Failures(n)) && n >= 1;
    }
  }

  /** Probes that `k` flips cost, the first being to unhealthy. */
  function Cost(t: Thresholds, k: nat): int {
    (k + 1) / 2 * t.failures + k / 2 * t.successes
  }

  /** Results counting towards the next flip. */
  function Progress(bit: bool, streak: int): int {
    if bit then (if streak < 0 then -streak else 0) else (if streak > 0 then streak else 0)
  }

  lemma CostOfNext(t: Thresholds, k: nat)
    ensures Cost(t, k + 1) == Cost(t, k) + if k % 2 == 0 then t.failures else t.successes
  {
    var f, s := t.failures, t.successes;
    if k % 2 == 0 {
      assert (k + 2) / 2 == (k + 1) / 2 + 1 && (k + 1) / 2 == k / 2;
      assert ((k + 1) / 2 + 1) * f == (k + 1) / 2 * f + f;
    } else {
      assert (k + 2) / 2 == (k + 1) / 2 && (k + 1) / 2 == k / 2 + 1;
      assert (k / 2 + 1) * s == k / 2 * s + s;
    }
  }

  /** One more probe either adds to the progress or completes a flip. */
  lemma ProgressStep(t: Thresholds, flips: nat, bit: bool, streak: int, success: bool, n: nat)
    requires t.failures > 0 && t.successes > 0
    requires Cost(t, flips) + Progress(bit, streak) <= n && bit == (flips % 2 == 0)
    ensures var streak' := NextStreak(streak, success);
      var v := Verdict(t, streak', success);
      var bit' := if v.Some? then v.value else bit;
      var flips' := flips + if bit' != bit then 1 else 0;
      Cost(t, flips') + Progress(bit', streak') <= n + 1 && bit' == (flips' % 2 == 0)
  {
    CostOfNext(t, flips);
  }

  lemma {:induction false} FlipCostWithProgress(t: Thresholds, h: seq<bool>)
    requires t.failures > 0 && t.successes > 0
    ensures Cost(t, Flips(t, h)) + Progress(NewBit(t, h), Streak(0, h)) <= |h|
    ensures NewBit(t, h) == (Flips(t, h) % 2 == 0)
  {
    if h == [] {
      assert 0 * t.failures == 0 && 0 * t.successes == 0;
    } else {
      var init := h[..|h| - 1];
      FlipCostWithProgress(t, init);
      ProgressStep(t, Flips(t, init), NewBit(t, init), Streak(0, init), h[|h| - 1], |init|);
    }
  }

  /** Hysteresis: k flips need at least ceil(k/2) * F + floor(k/2) * S probes. */
  lemma FlipsCost(t: Thresholds, h: seq<bool>)
    requires t.failures > 0 && t.successes > 0
    ensures Cost(t, Flips(t, h)) <= |h|
  {
    FlipCostWithProgress(t, h);
  }

  // ---------------------------------------------------------------------------
  // The checker beside its backend list
  // ---------------------------------------------------------------------------

  datatype Checker = Checker(streaks: map<string, int>, list: State)

  function StreakOf(streaks: map<string, int>, address: string): int {
    if address in streaks then streaks[address] else 0
  }

  function Record(t: Thresholds, c: Checker, address: string, success: bool, now: int): Checker {
    var streak := NextStreak(StreakOf(c.streaks, address), success);
    var v := Verdict(t, streak, success);
    Checker(c.streaks[address := streak],
            if v.Some? then SetHealth(c.list, address, v.value, now) else c.list)
  }

  /** A probe of some address, or any other operation on the list. */
  datatype Event = Probe(address: string, success: bool, now: int) | Other(op: Op)

  ghost function ApplyEvent(hash: Hasher, t: Thresholds, c: Checker, e: Event): Checker {
    match e
    case Probe(address, success, now) => Record(t, c, address, success, now)
    case Other(op) => c.(list := Apply(hash, c.list, op))
  }

  ghost function Run(hash: Hasher, t: Thresholds, c: Checker, events: seq<Event>): Checker {
    if events == [] then c
    else ApplyEvent(hash, t, Run(hash, t, c, events[..|events| - 1]), events[|events| - 1])
  }

  /** The results of the probes of one address. */
  function Results(events: seq<Event>, address: string): seq<bool> {
    if events == [] then []
    else
      var e := events[|events| - 1];
      Results(events[..|events| - 1], address)
      + (if e.Probe? && e.address == address then [e.success] else [])
  }

  /** Only probes set health, and an accepted update lists `address`, repeating none. */
  predicate Keeps(list: State, e: Event, address: string) {
    e.Other? ==> !e.op.HealthOp? && Accounting.Fits(list, e.op) && Accounting.Lists(list, e.op, address)
  }

  ghost predicate StaysListed(hash: Hasher, t: Thresholds, c: Checker, events: seq<Event>, address: string) {
    forall n :: 0 <= n < |events| ==> Keeps(Run(hash, t, c, events[..n]).list, events[n], address)
  }

  lemma StaysListedPrefix(hash: Hasher, t: Thresholds, c: Checker, events: seq<Event>, address: string)
    requires events != [] && StaysListed(hash, t, c, events, address)
    ensures StaysListed(hash, t, c, events[..|events| - 1], address)
    ensures Keeps(Run(hash, t, c, events[..|events| - 1]).list, events[|events| - 1], address)
  {
    var init := events[..|events| - 1];
    forall n | 0 <= n < |init| ensures Keeps(Run(hash, t, c, init[..n]).list, init[n], address) {
      assert init[..n] == events[..n] && init[n] == events[n];
    }
  }

  function HealthOf(list: State, address: string): Option<bool> {
    var e := EntryOf(list, address);
    if e.Some? then Some(e.value.healthy) else None
  }

  lemma SetHealthOf(list: State, address: string, healthy: bool, now: int, a: string)
    requires Accounting.DistinctEntries(list.entries)
    ensures Accounting.DistinctEntries(SetHealth(list, address, healthy, now).entries)
    ensures HealthOf(SetHealth(list, address, healthy, now), a)
         == if a == address && HealthOf(list, a).Some? then Some(healthy) else HealthOf(list, a)
  {
    var i := FirstOpposite(list.entries, address, healthy);
    if i < |list.entries| {
      var e := list.entries[i].(healthy := healthy);
      Accounting.ConnsOfPut(list.entries, i, e, a);
      IndexOfPut(list.entries, i, e, a);
      Accounting.IndexOfDistinct(list.entries, i);
    } else {
      var j := IndexOf(list.entries, address);
    }
  }

  /** No other operation changes the health of an address that stays. */
  lemma OtherKeepsHealth(hash: Hasher, list: State, op: Op, address: string)
    requires Accounting.DistinctEntries(list.entries) && Keeps(list, Other(op), address)
    requires HealthOf(list, address).Some?
    ensures Accounting.DistinctEntries(Apply(hash, list, op).entries)
    ensures HealthOf(Apply(hash, list, op), address) == HealthOf(list, address)
  {
    if op.UpdateOp? && Accepts(list.version, op.m.version) {
      UpdateKeepsHealth(list, op.m, op.now, address);
    } else {
      SameHealth(hash, list, op);
      SameHealthOf(list, Apply(hash, list, op), address);
    }
  }

  lemma UpdateKeepsHealth(list: State, m: BackendSet, now: int, address: string)
    requires Accounting.DistinctEntries(list.entries) && DistinctAddresses(m.backends)
    requires Accepts(list.version, m.version) && HealthOf(list, address).Some?
    requires exists i :: 0 <= i < |m.backends| && m.backends[i].address == address
    ensures Accounting.DistinctEntries(Update(list, m, now).entries)
    ensures HealthOf(Update(list, m, now), address) == HealthOf(list, address)
  {
    assert Accounting.DistinctEntries(Update(list, m, now).entries) by {
      Accounting.UpdateConns(list, m, now, address);
    }
    AdmittedHealth(list.entries, Previous(list.entries), m.backends, Update(list, m, now).entries, address);
  }

  lemma AdmittedHealth(before: seq<Entry>, previous: map<string, Entry>, backends: seq<Backend>,
                       entries: seq<Entry>, address: string)
    requires Accounting.DistinctEntries(before) && Accounting.Indexes(previous, before)
    requires |entries| == |backends| && forall i :: 0 <= i < |entries| ==> entries[i] == Admit(backends[i], previous)
    requires IndexOf(before, address) < |before|
    requires exists i :: 0 <= i < |backends| && backends[i].address == address
    ensures IndexOf(entries, address) < |entries|
    ensures entries[IndexOf(entries, address)].healthy == before[IndexOf(before, address)].healthy
  {
    var k :| 0 <= k < |backends| && backends[k].address == address;
    assert entries[k].address == address;
    var j := IndexOf(before, address);
    assert previous[address] == before[j];
  }

  ghost predicate SameHealths(a: seq<Entry>, b: seq<Entry>) {
    |a| == |b| && forall i :: 0 <= i < |a| ==> a[i].address == b[i].address && a[i].healthy == b[i].healthy
  }

  lemma SameHealth(hash: Hasher, list: State, op: Op)
    requires !op.HealthOp? && (op.UpdateOp? ==> !Accepts(list.version, op.m.version))
    ensures SameHealths(Apply(hash, list, op).entries, list.entries)
  {
    match op
    case ResultOp(address, success, t1, t2, t3) => ResultKeepsStanding(list, address, success, t1, t2, t3);
    case SelectOp(_, _, _, _, _) => Accounting.SelectEntries(hash, list, op);
    case UpdateOp(_, _) =>
    case ConfigOp(_) =>
    case PinOp(_, _) =>
    case ReleaseOp(_) =>
  }

  lemma SameHealthOf(list: State, list': State, address: string)
    requires SameHealths(list'.entries, list.entries) && Accounting.DistinctEntries(list.entries)
    ensures HealthOf(list', address) == HealthOf(list, address)
    ensures Accounting.DistinctEntries(list'.entries)
  {
    var i, j := IndexOf(list.entries, address), IndexOf(list'.entries, address);
  }

  /** The checker's view of one address that had streak `start` and health `healthy`, when
      `h` are its results since. */
  ghost predicate Follows(t: Thresholds, start: int, healthy: bool, c: Checker, address: string, h: seq<bool>) {
    && Accounting.DistinctEntries(c.list.entries)
    && StreakOf(c.streaks, address) == Streak(start, h)
    && HealthOf(c.list, address) == Some(Bit(t, start, healthy, h))
  }

  lemma ProbeFollows(t: Thresholds, start: int, healthy: bool, c: Checker, address: string, h: seq<bool>,
                     success: bool, now: int)
    requires Follows(t, start, healthy, c, address, h)
    ensures Follows(t, start, healthy, Record(t, c, address, success, now), address, h + [success])
  {
    var h' := h + [success];
    assert h'[..|h'| - 1] == h && h'[|h'| - 1] == success;
    SetHealthOf(c.list, address, success, now, address);
  }

  lemma OtherProbeFollows(t: Thresholds, start: int, healthy: bool, c: Checker, address: string, h: seq<bool>,
                          other: string, success: bool, now: int)
    requires Follows(t, start, healthy, c, address, h) && other != address
    ensures Follows(t, start, healthy, Record(t, c, other, success, now), address, h)
  {
    SetHealthOf(c.list, other, success, now, address);
  }

  lemma OtherOpFollows(hash: Hasher, t: Thresholds, start: int, healthy: bool, c: Checker, address: string,
                       h: seq<bool>, op: Op)
    requires Follows(t, start, healthy, c, address, h) && Keeps(c.list, Other(op), address)
    ensures Follows(t, start, healthy, ApplyEvent(hash, t, c, Other(op)), address, h)
  {
    OtherKeepsHealth(hash, c.list, op, address);
  }

  /** In every run in which no accepted update drops `address`, its streak and health bit
      are those of its own probe results, whatever else happens. */
  lemma {:induction false} HealthFollowsProbes(hash: Hasher, t: Thresholds, start: int, healthy: bool, c: Checker,
                                               events: seq<Event>, address: string)
    requires Follows(t, start, healthy, c, address, []) && StaysListed(hash, t, c, events, address)
    ensures Follows(t, start, healthy, Run(hash, t, c, events), address, Results(events, address))
  {
    if events == [] {
    } else {
      var init, e := events[..|events| - 1], events[|events| - 1];
      StaysListedPrefix(hash, t, c, events, address);
      HealthFollowsProbes(hash, t, start, healthy, c, init, address);
      var r, h := Run(hash, t, c, init), Results(init, address);
      if e.Other? {
        OtherOpFollows(hash, t, start, healthy, r, address, h, e.op);
        assert Results(events, address) == h;
      } else if e.address == address {
        ProbeFollows(t, start, healthy, r, address, h, e.success, e.now);
      } else {
        OtherProbeFollows(t, start, healthy, r, address, h, e.address, e.success, e.now);
        assert Results(events, address) == h;
      }
    }
  }

  /** How often the list's health of an address changed along a run. */
  ghost function HealthFlips(hash: Hasher, t: Thresholds, c: Checker, events: seq<Event>, address: string): nat {
    if events == [] then 0
    else
      var init := events[..|events| - 1];
      var before, after := Run(hash, t, c, init).list, Run(hash, t, c, events).list;
      HealthFlips(hash, t, c, init, address) + (if HealthOf(before, address) != HealthOf(after, address) then 1 else 0)
  }

  lemma {:induction false} FlipsFollowProbes(hash: Hasher, t: Thresholds, c: Checker, events: seq<Event>,
                                             address: string)
    requires Follows(t, 0, true, c, address, []) && StaysListed(hash, t, c, events, address)
    ensures HealthFlips(hash, t, c, events, address) == Flips(t, Results(events, address))
  {
    if events == [] {
    } else {
      var init, e := events[..|events| - 1], events[|events| - 1];
      var h, more := Results(init, address), if e.Probe? && e.address == address then [e.success] else [];
      assert StaysListed(hash, t, c, init, address) by { StaysListedPrefix(hash, t, c, events, address); }
      FlipsFollowProbes(hash, t, c, init, address);
      assert HealthOf(Run(hash, t, c, init).list, address) == Some(NewBit(t, h)) by {
        HealthFollowsProbes(hash, t, 0, true, c, init, address);
      }
      assert HealthOf(Run(hash, t, c, events).list, address) == Some(NewBit(t, h + more)) by {
        HealthFollowsProbes(hash, t, 0, true, c, events, address);
      }
      FlipsSnoc(t, h, more);
    }
  }

  lemma FlipsSnoc(t: Thresholds, h: seq<bool>, more: seq<bool>)
    requires |more| <= 1
    ensures Flips(t, h + more) == Flips(t, h) + if NewBit(t, h + more) != NewBit(t, h) then 1 else 0
  {
    if more == [] {
      assert h + more == h;
    } else {
      assert (h + more)[..|h|] == h;
    }
  }

  /** Hysteresis over runs: whatever else happens to the list, k changes of the health of a
      newly listed address that stays cost at least ceil(k/2) * F + floor(k/2) * S of its
      own probes. */
  lemma RunFlipsCost(hash: Hasher, t: Thresholds, c: Checker, events: seq<Event>, address: string)
    requires t.failures > 0 && t.successes > 0
    requires Accounting.DistinctEntries(c.list.entries) && HealthOf(c.list, address) == Some(true)
    requires StreakOf(c.streaks, address) == 0 && StaysListed(hash, t, c, events, address)
    ensures Cost(t, HealthFlips(hash, t, c, events, address)) <= |Results(events, address)|
  {
    FlipsFollowProbes(hash, t, c, events, address);
    FlipsCost(t, Results(events, address));
  }

  /** The streak outlives the listing. Whatever streak a listed, healthy address carries, and
      whatever happens around its probes, a run of its failures marks it down if and only if
      the run and the failures carried over reach the threshold together. */
  lemma ReturningAddressDownIff(hash: Hasher, t: Thresholds, c: Checker, events: seq<Event>, address: string)
    requires Accounting.DistinctEntries(c.list.entries) && HealthOf(c.list, address) == Some(true)
    requires StaysListed(hash, t, c, events, address)
    requires Results(events, address) != [] && AllFailed(Results(events, address))
    ensures HealthOf(Run(hash, t, c, events).list, address) == Some(false) <==>
      Carried(StreakOf(c.streaks, address), false) + |Results(events, address)| >= t.failures
  {
    var start := StreakOf(c.streaks, address);
    HealthFollowsProbes(hash, t, start, true, c, events, address);
    FailuresMarkDownIff(t, start, Results(events, address));
  }

  // A run in which that makes a difference.

  function OnlyBackend(version: int, address: string): BackendSet {
    BackendSet("g", [Backend(address, 1)], version, "round_robin", false, "", 0, 0.0, 0)
  }

  function NoBackends(version: int): BackendSet {
    BackendSet("g", [], version, "round_robin", false, "", 0, 0.0, 0)
  }

  /** Listed, failed twice, removed, listed again. */
  function Comeback(address: string): seq<Event> {
    [Other(UpdateOp(OnlyBackend(1, address), 0)), Probe(address, false, 1), Probe(address, false, 2),
     Other(UpdateOp(NoBackends(2), 3)), Other(UpdateOp(OnlyBackend(3, address), 4))]
  }

  lemma RunSnoc(hash: Hasher, t: Thresholds, c: Checker, events: seq<Event>, e: Event)
    ensures Run(hash, t, c, events + [e]) == ApplyEvent(hash, t, Run(hash, t, c, events), e)
  {
    assert (events + [e])[..|events|] == events;
  }

  lemma ListsOnly(hash: Hasher, t: Thresholds, c: Checker, version: int, address: string, now: int)
    requires Accepts(c.list.version, version) && c.list.entries == []
    ensures var c' := ApplyEvent(hash, t, c, Other(UpdateOp(OnlyBackend(version, address), now)));
      && c'.streaks == c.streaks && c'.list.version == version
      && c'.list.entries == [Entry(address, 1, true, 0, 0, None, 0)]
  {
    assert Previous([]) == map[];
  }

  lemma FailsOnce(t: Thresholds, c: Checker, address: string, now: int)
    requires |c.list.entries| == 1 && c.list.entries[0].address == address
    ensures var c' := Record(t, c, address, false, now);
      && c'.list.version == c.list.version
      && |c'.list.entries| == 1 && c'.list.entries[0].address == address
      && c'.streaks == c.streaks[address := NextStreak(StreakOf(c.streaks, address), false)]
  {}

  lemma AfterTwoFailures(hash: Hasher, t: Thresholds, address: string)
    ensures var c := Run(hash, t, Checker(map[], Initial(0)), Comeback(address)[..3]);
      c.list.version == 1 && StreakOf(c.streaks, address) == -2
  {
    var c, es := Checker(map[], Initial(0)), Comeback(address);
    assert [] + [es[0]] == es[..1] && es[..1] + [es[1]] == es[..2] && es[..2] + [es[2]] == es[..3];
    RunSnoc(hash, t, c, [], es[0]);
    ListsOnly(hash, t, c, 1, address, 0);
    RunSnoc(hash, t, c, es[..1], es[1]);
    FailsOnce(t, Run(hash, t, c, es[..1]), address, 1);
    RunSnoc(hash, t, c, es[..2], es[2]);
    FailsOnce(t, Run(hash, t, c, es[..2]), address, 2);
  }

  lemma ListsNone(hash: Hasher, t: Thresholds, c: Checker, version: int, now: int)
    requires Accepts(c.list.version, version)
    ensures var c' := ApplyEvent(hash, t, c, Other(UpdateOp(NoBackends(version), now)));
      c'.streaks == c.streaks && c'.list.version == version && c'.list.entries == []
  {}

  lemma AfterReturn(hash: Hasher, t: Thresholds, address: string)
    ensures var c := Run(hash, t, Checker(map[], Initial(0)), Comeback(address));
      && StreakOf(c.streaks, address) == -2
      && c.list.entries == [Entry(address, 1, true, 0, 0, None, 0)]
  {
    var c, es := Checker(map[], Initial(0)), Comeback(address);
    assert es[..3] + [es[3]] == es[..4] && es[..4] + [es[4]] == es;
    AfterTwoFailures(hash, t, address);
    RunSnoc(hash, t, c, es[..3], es[3]);
    ListsNone(hash, t, Run(hash, t, c, es[..3]), 2, 3);
    RunSnoc(hash, t, c, es[..4], es[4]);
    ListsOnly(hash, t, Run(hash, t, c, es[..4]), 3, address, 4);
  }

  /** With a threshold of two, an address back in the set is listed healthy and then marked
      down by a single failure. */
  lemma ComebackFailsAtOnce(hash: Hasher, address: string)
    ensures var t, c := Thresholds(2, 1), Checker(map[], Initial(0));
      && HealthOf(Run(hash, t, c, Comeback(address)).list, address) == Some(true)
      && HealthOf(Run(hash, t, c, Comeback(address) + [Probe(address, false, 5)]).list, address) == Some(false)
  {
    var t, c := Thresholds(2, 1), Checker(map[], Initial(0));
    AfterReturn(hash, t, address);
    var back := Run(hash, t, c, Comeback(address));
    assert back.list.entries[0].address == address;
    RunSnoc(hash, t, c, Comeback(address), Probe(address, false, 5));
    SetHealthOf(back.list, address, false, 5, address);
  }

  class HealthChecker {
    const backends: BackendList
    const thresholds: Thresholds
    var streak: map<string, int>

    constructor (backends: BackendList, thresholds: Thresholds)
      ensures streak == map[] && this.backends == backends && this.thresholds == thresholds
    {
      this.backends, this.thresholds := backends, thresholds;
      streak := map[];
    }

    ghost function View(): Checker
      reads this, backends
    {
      Checker(streak, backends.View())
    }

    method RecordResult(address: string, success: bool, now: int)
      requires backends.Valid()
      modifies this, backends
      ensures backends.Valid()
      ensures View() == Record(thresholds, old(View()), address, success, now)
    {
      var s := if address in streak then streak[address] else 0;
      if success {
        if s < 0 {
          s := 0;
        }
        s := s + 1;
      } else {
        if s > 0 {
          s := 0;
        }
        s := s - 1;
      }
      streak := streak[address := s];
      if success && s >= thresholds.successes {
        backends.SetHealth(address, true, now);
      } else if !success && -s >= thresholds.failures {
        backends.SetHealth(address, false, now);
      }
    }
  }
}
