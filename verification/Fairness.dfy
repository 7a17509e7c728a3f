/** How evenly weighted round robin and least connections spread selections. */
module Fairness {
  import opened Wire
  import opened Backends
  import opened Selection
  import opened HashRing
  import opened BackendRuns
  import opened Accounting

  // ---------------------------------------------------------------------------
  // Weighted round robin
  // ---------------------------------------------------------------------------

  /** How often `n` consecutive cursor positions from `c` land on entry `i`. */
  function Hits(slots: seq<nat>, c: nat, n: nat, i: nat): nat
    requires slots != []
  {
    if n == 0 then 0
    else Hits(slots, c, n - 1, i) + (if slots[(c + n - 1) % |slots|] == i then 1 else 0)
  }

  lemma {:induction false} HitsAppend(slots: seq<nat>, c: nat, m: nat, n: nat, i: nat)
    requires slots != []
    ensures Hits(slots, c, m + n, i) == Hits(slots, c, m, i) + Hits(slots, c + m, n, i)
  {
    if n == 0 {
    } else {
      HitsAppend(slots, c, m, n - 1, i);
      assert c + (m + n) - 1 == (c + m) + n - 1;
    }
  }

  /** A whole cycle hits the same from every cursor. */
  lemma {:induction false} CycleFromAnywhere(slots: seq<nat>, c: nat, i: nat)
    requires slots != []
    ensures Hits(slots, c, |slots|, i) == multiset(slots)[i]
  {
    var w := |slots|;
    if c == 0 {
      HitsPrefix(slots, w, i);
      assert slots[..w] == slots;
    } else {
      CycleFromAnywhere(slots, c - 1, i);
      HitsAppend(slots, c - 1, 1, w, i);
      HitsAppend(slots, c - 1, w, 1, i);
      OneHit(slots, c - 1, i);
    }
  }

  /** One position and the position a cycle later hit alike. */
  lemma OneHit(slots: seq<nat>, c: nat, i: nat)
    requires slots != []
    ensures Hits(slots, c, 1, i) == Hits(slots, c + |slots|, 1, i)
  {
    ModPeriod(c, |slots|);
    assert Hits(slots, c, 0, i) == 0 && Hits(slots, c + |slots|, 0, i) == 0;
  }

  lemma ModPeriod(c: nat, w: nat)
    requires w > 0
    ensures (c + w) % w == c % w
  {
    var q, r := c / w, c % w;
    assert c + w == (q + 1) * w + r;
    DivUnique(c + w, w, q + 1, r);
    assert c + w == (c + w) / w * w + (c + w) % w;
  }

  lemma SmallMod(x: nat, w: nat)
    requires x < w
    ensures x % w == x
  {}

  lemma CountSnoc(slots: seq<nat>, n: nat, i: nat)
    requires n < |slots|
    ensures multiset(slots[..n + 1])[i] == multiset(slots[..n])[i] + if slots[n] == i then 1 else 0
  {
    assert slots[..n + 1] == slots[..n] + [slots[n]];
  }

  lemma {:induction false} HitsPrefix(slots: seq<nat>, n: nat, i: nat)
    requires slots != [] && n <= |slots|
    ensures Hits(slots, 0, n, i) == multiset(slots[..n])[i]
  {
    if n == 0 {
    } else {
      HitsPrefix(slots, n - 1, i);
      CountSnoc(slots, n - 1, i);
      SmallMod(n - 1, |slots|);
    }
  }

  lemma {:induction false} WholeCycles(slots: seq<nat>, c: nat, q: nat, i: nat)
    requires slots != []
    ensures Hits(slots, c, q * |slots|, i) == q * multiset(slots)[i]
  {
    if q == 0 {
    } else {
      var before := (q - 1) * |slots|;
      WholeCycles(slots, c, q - 1, i);
      HitsAppend(slots, c, before, |slots|, i);
      CycleFromAnywhere(slots, c + before, i);
      OneMoreShare(q - 1, |slots|);
      OneMoreShare(q - 1, multiset(slots)[i]);
    }
  }

  /** A part of a cycle hits an entry at most as often as a whole one. */
  lemma PartialCycle(slots: seq<nat>, c: nat, r: nat, i: nat)
    requires slots != [] && r <= |slots|
    ensures Hits(slots, c, r, i) <= multiset(slots)[i]
  {
    HitsAppend(slots, c, r, |slots| - r, i);
    CycleFromAnywhere(slots, c, i);
  }

  lemma {:induction false} HitsBounds(slots: seq<nat>, c: nat, n: nat, q: nat, r: nat, i: nat)
    requires slots != [] && n == q * |slots| + r && r < |slots|
    ensures q * multiset(slots)[i] <= Hits(slots, c, n, i)
    ensures Hits(slots, c, n, i) <= (if r == 0 then q else q + 1) * multiset(slots)[i]
  {
    var whole := q * |slots|;
    WholeCycles(slots, c, q, i);
    HitsAppend(slots, c, whole, r, i);
    PartialCycle(slots, c + whole, r, i);
    OneMoreShare(q, multiset(slots)[i]);
  }

  lemma OneMoreShare(q: nat, share: int)
    ensures (q + 1) * share == q * share + share
  {}

  lemma Ceiling(n: nat, w: nat)
    requires w > 0
    ensures (n + w - 1) / w == if n % w == 0 then n / w else n / w + 1
  {
    var q, r := n / w, n % w;
    assert n == q * w + r;
    if r == 0 { CeilingExact(q, w, n); } else { CeilingUp(q, r, w, n); }
  }

  lemma CeilingExact(q: nat, w: nat, n: nat)
    requires w > 0 && n == q * w
    ensures (n + w - 1) / w == q
  {
    DivUnique(n + w - 1, w, q, w - 1);
  }

  lemma CeilingUp(q: nat, r: nat, w: nat, n: nat)
    requires 0 < r < w && n == q * w + r
    ensures (n + w - 1) / w == q + 1
  {
    assert (q + 1) * w == q * w + w;
    DivUnique(n + w - 1, w, q + 1, r - 1);
  }

  lemma DivUnique(x: nat, w: nat, q: nat, r: nat)
    requires w > 0 && r < w && x == q * w + r
    ensures x / w == q
  {
    var q', r' := x / w, x % w;
    assert q' * w + r' == q * w + r;
    assert (q' - q) * w == r - r';
    if q' > q { Selection.Scale(1, q' - q, w); }
    if q' < q { Selection.Scale(q' - q, -1, w); }
  }

  /** Of `n` selections over `total` slots, one holding `share` of them got its due. */
  predicate Fair(n: nat, total: nat, share: int, gained: int)
    requires total > 0
  {
    && n / total * share <= gained
    && gained <= (n + total - 1) / total * share
    && (n == total ==> gained == share)
  }

  lemma HitsFair(slots: seq<nat>, c: nat, n: nat, i: nat)
    requires slots != []
    ensures Fair(n, |slots|, multiset(slots)[i], Hits(slots, c, n, i))
  {
    var w := |slots|;
    assert n == n / w * w + n % w;
    HitsBounds(slots, c, n, n / w, n % w, i);
    Ceiling(n, w);
    if n == w { CycleFromAnywhere(slots, c, i); }
  }

  function Share(e: Entry, now: int): int {
    if Selectable(e, now) then e.weight else 0
  }

  // ---------------------------------------------------------------------------
  // Runs, with the selections they make
  // ---------------------------------------------------------------------------

  /** What an operation does: the next state, and the entry it selects, if any. */
  type Behaviour = (State, Op) -> (State, Option<nat>)

  ghost function Behaves(hash: Hasher): Behaviour {
    (r: State, op: Op) => (Apply(hash, r, op), if Picks(hash, r, op) then Some(op.i) else None)
  }

  function Walk(f: Behaviour, s: State, ops: seq<Op>): State {
    if ops == [] then s else f(Walk(f, s, ops[..|ops| - 1]), ops[|ops| - 1]).0
  }

  lemma {:induction false} WalkIsRun(hash: Hasher, s: State, ops: seq<Op>)
    ensures Walk(Behaves(hash), s, ops) == RunFrom(hash, s, ops)
  {
    if ops == [] {
    } else {
      WalkIsRun(hash, s, ops[..|ops| - 1]);
    }
  }

  /** The entries selected, in order. */
  function Selections(f: Behaviour, s: State, ops: seq<Op>): seq<nat> {
    if ops == [] then []
    else
      var init := ops[..|ops| - 1];
      var pick := f(Walk(f, s, init), ops[|ops| - 1]).1;
      Selections(f, s, init) + (if pick.Some? then [pick.value] else [])
  }

  predicate SameChoice(r: State, s: State) { r.slots == s.slots && r.algorithm == s.algorithm }

  /** No operation changes which slots there are or how they are chosen from. */
  predicate Steady(f: Behaviour, s: State, ops: seq<Op>) {
    ops == [] || (Steady(f, s, ops[..|ops| - 1]) && SameChoice(Walk(f, s, ops), s))
  }

  lemma {:induction false} SteadyNow(f: Behaviour, s: State, ops: seq<Op>)
    requires Steady(f, s, ops)
    ensures SameChoice(Walk(f, s, ops), s)
  {}

  /** The cursor moves by one for each selection and for nothing else. */
  predicate TurnsCursor(r: State, result: (State, Option<nat>)) {
    r.slots != [] && r.algorithm.RoundRobin? && SameChoice(result.0, r) ==>
      if result.1.Some?
      then r.next >= 0 && result.1.value == r.slots[r.next % |r.slots|]
           && result.0.next == (r.next + 1) % CURSOR_MODULUS
      else result.0.next == r.next
  }

  lemma BehavesTurning(hash: Hasher)
    ensures forall r, op :: TurnsCursor(r, Behaves(hash)(r, op))
  {}

  /** The selections are the slots at consecutive cursor positions. */
  predicate Consecutive(s: State, picks: seq<nat>)
    requires s.slots != [] && s.next >= 0
  {
    forall k :: 0 <= k < |picks| ==> picks[k] == s.slots[(s.next + k) % |s.slots|]
  }

  lemma {:induction false} WalkFollowsCursor(f: Behaviour, s: State, ops: seq<Op>)
    requires forall r, op :: TurnsCursor(r, f(r, op))
    requires s.slots != [] && s.algorithm.RoundRobin? && Steady(f, s, ops)
    requires 0 <= s.next && s.next + |Selections(f, s, ops)| <= CURSOR_MODULUS
    ensures Consecutive(s, Selections(f, s, ops))
    ensures s.next + |Selections(f, s, ops)| < CURSOR_MODULUS ==>
      Walk(f, s, ops).next == s.next + |Selections(f, s, ops)|
  {
    if ops == [] {
    } else {
      var init, op := ops[..|ops| - 1], ops[|ops| - 1];
      WalkFollowsCursor(f, s, init);
      SteadyNow(f, s, init);
      var r := Walk(f, s, init);
      assert TurnsCursor(r, f(r, op));
      if f(r, op).1.Some? && r.next + 1 < CURSOR_MODULUS { SmallMod(r.next + 1, CURSOR_MODULUS); }
    }
  }

  /** In every run that leaves the slots as they are, the k-th selection takes the slot k
      positions after the starting cursor, and the cursor ends that many positions on. */
  lemma CursorFollowsSelections(hash: Hasher, s: State, ops: seq<Op>)
    requires s.slots != [] && s.algorithm.RoundRobin? && Steady(Behaves(hash), s, ops)
    requires 0 <= s.next && s.next + |Selections(Behaves(hash), s, ops)| <= CURSOR_MODULUS
    ensures Consecutive(s, Selections(Behaves(hash), s, ops))
    ensures s.next + |Selections(Behaves(hash), s, ops)| < CURSOR_MODULUS ==>
      RunFrom(hash, s, ops).next == s.next + |Selections(Behaves(hash), s, ops)|
  {
    BehavesTurning(hash);
    WalkFollowsCursor(Behaves(hash), s, ops);
    WalkIsRun(hash, s, ops);
  }

  lemma {:induction false} ConsecutiveHits(s: State, picks: seq<nat>, i: nat)
    requires s.slots != [] && s.next >= 0 && Consecutive(s, picks)
    ensures multiset(picks)[i] == Hits(s.slots, s.next, |picks|, i)
  {
    if picks == [] {
    } else {
      var n := |picks| - 1;
      ConsecutiveHits(s, picks[..n], i);
      CountSnoc(picks, n, i);
      assert picks[..n + 1] == picks;
    }
  }

  /** Exact fairness over runs: from any cursor short of the 64-bit wrap, and among any
      releases, results, pins and other operations that leave the slots as they are, the
      selections made give a backend between floor(n/W) and ceil(n/W) times its weight, so
      W of them give exactly its weight. */
  lemma {:induction false} RoundRobinFair(hash: Hasher, s: State, ops: seq<Op>, i: nat)
    requires Sound(s) && s.slots != [] && s.algorithm.RoundRobin? && i < |s.entries|
    requires Steady(Behaves(hash), s, ops) && s.next + |Selections(Behaves(hash), s, ops)| <= CURSOR_MODULUS
    ensures var picks := Selections(Behaves(hash), s, ops);
      Fair(|picks|, |s.slots|, Share(s.entries[i], s.rebuiltAt), multiset(picks)[i])
  {
    var picks := Selections(Behaves(hash), s, ops);
    CursorFollowsSelections(hash, s, ops);
    ConsecutiveHits(s, picks, i);
    assert multiset(s.slots)[i] == Share(s.entries[i], s.rebuiltAt) by {
      ExpandCounts(s.entries, s.rebuiltAt, i);
      assert EntryOk(s.entries[i]);
    }
    HitsFair(s.slots, s.next, |picks|, i);
  }

  // ---------------------------------------------------------------------------
  // Least connections
  // ---------------------------------------------------------------------------

  /** Entries agree in all but their connection counts. */
  ghost predicate SameButConns(a: seq<Entry>, b: seq<Entry>) {
    |a| == |b| && forall i :: 0 <= i < |a| ==> a[i] == b[i].(activeConns := a[i].activeConns)
  }

  /** No backend is more than one request ahead of its share of any other. */
  ghost predicate Balanced(entries: seq<Entry>, slots: seq<nat>)
    requires InBounds(entries, slots)
  {
    forall i, j :: i in slots && j in slots ==> Ahead(entries[i], entries[j])
  }

  predicate Ahead(a: Entry, b: Entry) {
    (a.activeConns - 1) * Weight(b) <= b.activeConns * Weight(a)
  }

  function More(e: Entry, more: bool): Entry {
    if more then e.(activeConns := e.activeConns + 1) else e
  }

  /** Raising the least loaded count keeps a pair balanced. */
  lemma AheadAfter(a: Entry, b: Entry, raiseA: bool, raiseB: bool)
    requires Ahead(a, b) && (raiseA && raiseB ==> a == b)
    requires raiseA && !raiseB ==> !Lighter(b, a)
    ensures Ahead(More(a, raiseA), More(b, raiseB))
  {
    if raiseB {
      assert (b.activeConns + 1) * Weight(a) == b.activeConns * Weight(a) + Weight(a);
      if raiseA { Selection.Scale(a.activeConns, a.activeConns + 1, Weight(a)); }
    }
  }

  function Raise(entries: seq<Entry>, i: nat): seq<Entry>
    requires i < |entries|
  {
    entries[i := More(entries[i], true)]
  }

  lemma RaisingBalances(entries: seq<Entry>, slots: seq<nat>)
    requires slots != [] && InBounds(entries, slots) && Balanced(entries, slots)
    ensures Balanced(Raise(entries, Best(entries, slots)), slots)
  {
    var best := Best(entries, slots);
    var after := Raise(entries, best);
    forall i, j | i in slots && j in slots ensures Ahead(after[i], after[j]) {
      assert Ahead(entries[i], entries[j]);
      if i == best && j != best { SeenIsNotLighter(entries, slots, j); }
      AheadAfter(entries[i], entries[j], i == best, j == best);
    }
  }

  function TotalConns(entries: seq<Entry>, now: int): int {
    if entries == [] then 0
    else TotalConns(entries[..|entries| - 1], now)
         + (if Selectable(entries[|entries| - 1], now) then entries[|entries| - 1].activeConns else 0)
  }

  lemma {:induction false} RaisingTotals(entries: seq<Entry>, now: int, i: nat)
    requires i < |entries| && Selectable(entries[i], now)
    ensures TotalConns(Raise(entries, i), now) == TotalConns(entries, now) + 1
  {
    var n := |entries| - 1;
    if i == n {
      assert Raise(entries, i)[..n] == entries[..n];
    } else {
      RaisingTotals(entries[..n], now, i);
      assert Raise(entries, i)[..n] == Raise(entries[..n], i);
    }
  }

  /** Every slot points to an entry selectable at `now`. */
  ghost predicate AllSelectable(entries: seq<Entry>, slots: seq<nat>, now: int) {
    forall i :: i in slots ==> i < |entries| && Selectable(entries[i], now)
  }

  lemma SlotsSelectable(entries: seq<Entry>, now: int)
    ensures AllSelectable(entries, Expand(entries, now), now)
  {
    forall j | j in Expand(entries, now) ensures j < |entries| && Selectable(entries[j], now) {
      ExpandMembers(entries, now, j);
    }
  }

  /** The total against the number of slots, when every count is on one side of its weight. */
  lemma {:induction false} TotalAbove(entries: seq<Entry>, now: int, i: nat)
    requires i <= |entries|
    requires forall j :: 0 <= j < |entries| ==> entries[j].weight >= 1
    requires forall j :: 0 <= j < |entries| && Selectable(entries[j], now) ==>
      entries[j].activeConns >= entries[j].weight
    requires i < |entries| ==> Selectable(entries[i], now) && entries[i].activeConns > entries[i].weight
    ensures TotalConns(entries, now) >= |Expand(entries, now)| + if i < |entries| then 1 else 0
  {
    if entries == [] {
    } else {
      var n := |entries| - 1;
      TotalAbove(entries[..n], now, if i < n then i else n);
    }
  }

  lemma {:induction false} TotalBelow(entries: seq<Entry>, now: int, i: nat)
    requires i <= |entries|
    requires forall j :: 0 <= j < |entries| ==> entries[j].weight >= 1
    requires forall j :: 0 <= j < |entries| && Selectable(entries[j], now) ==>
      entries[j].activeConns <= entries[j].weight
    requires i < |entries| ==> Selectable(entries[i], now) && entries[i].activeConns < entries[i].weight
    ensures TotalConns(entries, now) <= |Expand(entries, now)| - if i < |entries| then 1 else 0
  {
    if entries == [] {
    } else {
      var n := |entries| - 1;
      TotalBelow(entries[..n], now, if i < n then i else n);
    }
  }

  /** A backend above its weight drags every other up to at least its own. */
  lemma AheadDrags(a: Entry, b: Entry)
    requires a.weight >= 1 && b.weight >= 1 && Ahead(a, b) && a.activeConns > a.weight
    ensures b.activeConns >= b.weight
  {
    Selection.Scale(a.weight, a.activeConns - 1, b.weight);
    assert b.weight * a.weight <= b.activeConns * a.weight;
    Selection.Unscale(b.weight, b.activeConns, a.weight);
  }

  lemma {:induction false} TotalOfZero(entries: seq<Entry>, now: int)
    requires forall i :: 0 <= i < |entries| && Selectable(entries[i], now) ==> entries[i].activeConns == 0
    ensures TotalConns(entries, now) == 0
  {
    if entries == [] {
    } else {
      TotalOfZero(entries[..|entries| - 1], now);
    }
  }

  /** Balanced counts that add up to the total weight are the weights themselves. */
  lemma BalancedTotalIsExact(entries: seq<Entry>, now: int, i: nat)
    requires forall j :: 0 <= j < |entries| ==> entries[j].weight >= 1
    requires InBounds(entries, Expand(entries, now)) && Balanced(entries, Expand(entries, now))
    requires TotalConns(entries, now) == |Expand(entries, now)|
    requires i < |entries| && Selectable(entries[i], now)
    ensures entries[i].activeConns == entries[i].weight
  {
    var slots := Expand(entries, now);
    forall j | 0 <= j < |entries| && Selectable(entries[j], now)
      ensures entries[j].activeConns <= entries[j].weight
    {
      ExpandMembers(entries, now, j);
      if entries[j].activeConns > entries[j].weight {
        forall k | 0 <= k < |entries| && Selectable(entries[k], now)
          ensures entries[k].activeConns >= entries[k].weight
        {
          ExpandMembers(entries, now, k);
          assert Ahead(entries[j], entries[k]);
          AheadDrags(entries[j], entries[k]);
        }
        TotalAbove(entries, now, j);
      }
    }
    if entries[i].activeConns < entries[i].weight { TotalBelow(entries, now, i); }
  }

  lemma ZeroSlotsTotal(s: State)
    requires Sound(s) && InBounds(s.entries, s.slots)
    requires forall j :: j in s.slots ==> s.entries[j].activeConns == 0
    ensures TotalConns(s.entries, s.rebuiltAt) == 0
  {
    forall j | 0 <= j < |s.entries| && Selectable(s.entries[j], s.rebuiltAt)
      ensures s.entries[j].activeConns == 0
    {
      ExpandMembers(s.entries, s.rebuiltAt, j);
      assert EntryOk(s.entries[j]);
    }
    TotalOfZero(s.entries, s.rebuiltAt);
  }

  lemma SameSlots(s: State, after: seq<Entry>)
    requires Sound(s) && SameButConns(after, s.entries)
    ensures Expand(after, s.rebuiltAt) == s.slots
    ensures forall j :: 0 <= j < |after| ==> after[j].weight >= 1
  {
    forall j | 0 <= j < |after|
      ensures after[j].weight >= 1 && Selectable(after[j], s.rebuiltAt) == Selectable(s.entries[j], s.rebuiltAt)
    {
      assert EntryOk(s.entries[j]);
    }
    ExpandCongruent(after, s.entries, s.rebuiltAt, s.rebuiltAt);
  }

  // ---------------------------------------------------------------------------
  // Least connections over runs
  // ---------------------------------------------------------------------------

  /** No operation releases, pins or replaces the set: counts change by selections only. */
  ghost predicate OnlySelects(f: Behaviour, s: State, ops: seq<Op>) {
    ops == [] ||
      (OnlySelects(f, s, ops[..|ops| - 1]) && Selects(Walk(f, s, ops[..|ops| - 1]), ops[|ops| - 1]))
  }

  ghost predicate Selects(r: State, op: Op) { !op.ReleaseOp? && !op.PinOp? && !Resets(r, op) }

  predicate SameLoads(a: seq<Entry>, b: seq<Entry>) {
    |a| == |b| && forall i :: 0 <= i < |a| ==> a[i].weight == b[i].weight && a[i].activeConns == b[i].activeConns
  }

  lemma {:induction false} BestOfSameLoads(a: seq<Entry>, b: seq<Entry>, slots: seq<nat>)
    requires SameLoads(a, b) && slots != [] && InBounds(a, slots)
    ensures InBounds(b, slots) && Best(a, slots) == Best(b, slots)
  {
    if |slots| <= 1 {
    } else {
      BestOfSameLoads(a, b, slots[..|slots| - 1]);
    }
  }

  /** A selection raises the least loaded count; anything else leaves loads alone. */
  ghost predicate RaisesLeast(r: State, op: Op, result: (State, Option<nat>)) {
    r.algorithm.LeastConnections? && SameChoice(result.0, r) && Selects(r, op) ==>
      if result.1.Some?
      then r.slots != [] && InBounds(r.entries, r.slots)
           && result.0.entries == Raise(r.entries, Best(r.entries, r.slots))
      else SameLoads(result.0.entries, r.entries)
  }

  lemma PickRaisesLeast(hash: Hasher, r: State, op: Op)
    requires Picks(hash, r, op) && r.algorithm.LeastConnections? && Apply(hash, r, op).slots == r.slots
    ensures r.slots != [] && InBounds(r.entries, r.slots)
    ensures Apply(hash, r, op).entries == Raise(r.entries, Best(r.entries, r.slots))
  {
    SelectEntries(hash, r, op);
    var refreshed := Refresh(r, op.t0, op.t1, op.t2);
    assert refreshed.entries == r.entries && refreshed.slots == r.slots;
    assert op.i == Best(r.entries, r.slots);
  }

  lemma QuietLoads(hash: Hasher, r: State, op: Op)
    requires Selects(r, op) && !Picks(hash, r, op)
    ensures SameLoads(Apply(hash, r, op).entries, r.entries)
  {
    match op
    case ResultOp(address, success, t1, t2, t3) => ResultKeepsStanding(r, address, success, t1, t2, t3);
    case SelectOp(_, _, _, _, _) => SelectEntries(hash, r, op);
    case UpdateOp(_, _) =>
    case HealthOp(_, _, _) =>
    case ConfigOp(_) =>
    case PinOp(_, _) =>
    case ReleaseOp(_) =>
  }

  lemma BehaveRaisesLeast(hash: Hasher, r: State, op: Op)
    ensures RaisesLeast(r, op, Behaves(hash)(r, op))
  {
    var next := Apply(hash, r, op);
    if r.algorithm.LeastConnections? && SameChoice(next, r) && Selects(r, op) {
      if Picks(hash, r, op) { PickRaisesLeast(hash, r, op); } else { QuietLoads(hash, r, op); }
    }
  }

  lemma BehavesRaising(hash: Hasher)
    ensures forall r, op :: RaisesLeast(r, op, Behaves(hash)(r, op))
  {
    forall r, op ensures RaisesLeast(r, op, Behaves(hash)(r, op)) { BehaveRaisesLeast(hash, r, op); }
  }

  /** `base` with the connection counts of `loaded`. */
  function Loads(base: seq<Entry>, loaded: seq<Entry>): (r: seq<Entry>)
    requires |base| == |loaded|
    ensures |r| == |base| && forall i :: 0 <= i < |r| ==> r[i] == base[i].(activeConns := loaded[i].activeConns)
  {
    seq(|base|, i requires 0 <= i < |base| => base[i].(activeConns := loaded[i].activeConns))
  }

  /** What raising the least loaded count keeps, one selection at a time. */
  ghost predicate Kept(base: seq<Entry>, slots: seq<nat>, p: (seq<Entry>, nat) -> bool) {
    forall entries, k: nat ::
      SameButConns(entries, base) && InBounds(entries, slots) && slots != [] && p(entries, k) ==>
        p(Raise(entries, Best(entries, slots)), k + 1)
  }

  lemma LoadsRaise(base: seq<Entry>, before: seq<Entry>, i: nat)
    requires |base| == |before| && SameLoads(before, Loads(base, before)) && i < |base|
    ensures Loads(base, Raise(before, i)) == Raise(Loads(base, before), i)
    ensures SameLoads(Raise(before, i), Loads(base, Raise(before, i)))
  {}

  lemma LoadsSame(base: seq<Entry>, before: seq<Entry>, after: seq<Entry>)
    requires |base| == |before| && SameLoads(before, Loads(base, before)) && SameLoads(after, before)
    ensures Loads(base, after) == Loads(base, before) && SameLoads(after, Loads(base, after))
  {}

  lemma LoadsNext(base: seq<Entry>, slots: seq<nat>, before: seq<Entry>)
    requires |base| == |before| && SameLoads(before, Loads(base, before))
    requires slots != [] && InBounds(base, slots) && InBounds(before, slots)
    ensures InBounds(Loads(base, before), slots)
    ensures Loads(base, Raise(before, Best(before, slots)))
         == Raise(Loads(base, before), Best(Loads(base, before), slots))
    ensures SameLoads(Raise(before, Best(before, slots)), Loads(base, Raise(before, Best(before, slots))))
  {
    var best := Best(before, slots);
    assert Best(Loads(base, before), slots) == best by { BestOfSameLoads(before, Loads(base, before), slots); }
    LoadsRaise(base, before, best);
  }

  /** Along a run of selections among quiet operations, whatever raising the least loaded
      count keeps is kept by the loads of the entries the run began with. */
  lemma {:induction false} WalkKeeps(f: Behaviour, s: State, ops: seq<Op>, p: (seq<Entry>, nat) -> bool)
    requires forall r, op :: RaisesLeast(r, op, f(r, op))
    requires s.slots != [] && InBounds(s.entries, s.slots) && s.algorithm.LeastConnections?
    requires Steady(f, s, ops) && OnlySelects(f, s, ops) && p(s.entries, 0) && Kept(s.entries, s.slots, p)
    ensures var after := Walk(f, s, ops).entries;
      && |after| == |s.entries| && SameLoads(after, Loads(s.entries, after))
      && p(Loads(s.entries, after), |Selections(f, s, ops)|)
  {
    if ops == [] {
      assert Loads(s.entries, s.entries) == s.entries;
    } else {
      var init, op := ops[..|ops| - 1], ops[|ops| - 1];
      WalkKeeps(f, s, init, p);
      SteadyNow(f, s, init);
      var r := Walk(f, s, init);
      var result := f(r, op);
      assert RaisesLeast(r, op, result);
      if result.1.Some? {
        LoadsNext(s.entries, s.slots, r.entries);
      } else {
        LoadsSame(s.entries, r.entries, result.0.entries);
      }
    }
  }

  lemma BalancedLoads(a: seq<Entry>, b: seq<Entry>, slots: seq<nat>)
    requires SameLoads(a, b) && InBounds(b, slots) && Balanced(b, slots)
    ensures InBounds(a, slots) && Balanced(a, slots)
  {
    forall i, j | i in slots && j in slots ensures Ahead(a[i], a[j]) {
      assert Ahead(b[i], b[j]);
      assert Weight(a[i]) == Weight(b[i]) && Weight(a[j]) == Weight(b[j]);
    }
  }

  ghost function BalancedOver(slots: seq<nat>): (seq<Entry>, nat) -> bool {
    (entries: seq<Entry>, k: nat) => InBounds(entries, slots) && Balanced(entries, slots)
  }

  lemma KeepsBalance(base: seq<Entry>, slots: seq<nat>)
    ensures Kept(base, slots, BalancedOver(slots))
  {
    var p := BalancedOver(slots);
    forall entries, k: nat | SameButConns(entries, base) && InBounds(entries, slots) && slots != [] && p(entries, k)
      ensures p(Raise(entries, Best(entries, slots)), k + 1)
    {
      RaisingBalances(entries, slots);
    }
  }

  ghost function TotalsFrom(base: seq<Entry>, now: int): (seq<Entry>, nat) -> bool {
    (entries: seq<Entry>, k: nat) => TotalConns(entries, now) == TotalConns(base, now) + k
  }

  lemma KeepsTotal(base: seq<Entry>, slots: seq<nat>, now: int)
    requires AllSelectable(base, slots, now)
    ensures Kept(base, slots, TotalsFrom(base, now))
  {
    var p := TotalsFrom(base, now);
    forall entries, k: nat | SameButConns(entries, base) && InBounds(entries, slots) && slots != [] && p(entries, k)
      ensures p(Raise(entries, Best(entries, slots)), k + 1)
    {
      var best := Best(entries, slots);
      assert best in slots && Selectable(entries[best], now);
      RaisingTotals(entries, now, best);
    }
  }

  /** The loads a run leaves are balanced. */
  lemma RunBalances(hash: Hasher, s: State, ops: seq<Op>)
    requires s.slots != [] && InBounds(s.entries, s.slots) && s.algorithm.LeastConnections?
    requires forall i :: i in s.slots ==> s.entries[i].activeConns == 0
    requires Steady(Behaves(hash), s, ops) && OnlySelects(Behaves(hash), s, ops)
    ensures var after := RunFrom(hash, s, ops).entries;
      && |after| == |s.entries| && SameLoads(after, Loads(s.entries, after))
      && InBounds(Loads(s.entries, after), s.slots) && Balanced(Loads(s.entries, after), s.slots)
  {
    assert Balanced(s.entries, s.slots);
    KeepsBalance(s.entries, s.slots);
    BehavesRaising(hash);
    WalkKeeps(Behaves(hash), s, ops, BalancedOver(s.slots));
    WalkIsRun(hash, s, ops);
  }

  /** In every run from zero counts without releases, among any health changes, results and
      stale updates that leave the slots as they are, (c_i - 1) * w_j <= c_j * w_i holds for
      all selectable i and j. */
  lemma LeastConnectionsBalanced(hash: Hasher, s: State, ops: seq<Op>)
    requires s.slots != [] && InBounds(s.entries, s.slots) && s.algorithm.LeastConnections?
    requires forall i :: i in s.slots ==> s.entries[i].activeConns == 0
    requires Steady(Behaves(hash), s, ops) && OnlySelects(Behaves(hash), s, ops)
    ensures InBounds(RunFrom(hash, s, ops).entries, s.slots)
    ensures Balanced(RunFrom(hash, s, ops).entries, s.slots)
  {
    RunBalances(hash, s, ops);
    var after := RunFrom(hash, s, ops).entries;
    BalancedLoads(after, Loads(s.entries, after), s.slots);
  }

  /** Every selection of a run adds one to the total. */
  lemma RunTotals(hash: Hasher, s: State, ops: seq<Op>, now: int)
    requires s.slots != [] && InBounds(s.entries, s.slots) && s.algorithm.LeastConnections?
    requires AllSelectable(s.entries, s.slots, now)
    requires Steady(Behaves(hash), s, ops) && OnlySelects(Behaves(hash), s, ops)
    ensures var after := RunFrom(hash, s, ops).entries;
      && |after| == |s.entries|
      && TotalConns(Loads(s.entries, after), now)
         == TotalConns(s.entries, now) + |Selections(Behaves(hash), s, ops)|
  {
    KeepsTotal(s.entries, s.slots, now);
    BehavesRaising(hash);
    WalkKeeps(Behaves(hash), s, ops, TotalsFrom(s.entries, now));
    WalkIsRun(hash, s, ops);
  }

  /** Balanced loads that add up to the number of slots are the weights. */
  lemma LoadsAreWeights(s: State, after: seq<Entry>, i: nat)
    requires Sound(s) && SameButConns(after, s.entries)
    requires InBounds(after, s.slots) && Balanced(after, s.slots) && TotalConns(after, s.rebuiltAt) == |s.slots|
    requires i < |s.entries| && Selectable(s.entries[i], s.rebuiltAt)
    ensures after[i].activeConns == s.entries[i].weight
  {
    SameSlots(s, after);
    assert after[i].weight == s.entries[i].weight && Selectable(after[i], s.rebuiltAt);
    BalancedTotalIsExact(after, s.rebuiltAt, i);
  }

  /** Once such a run has made exactly W selections each backend holds exactly its weight:
      one round-robin cycle. */
  lemma LeastConnectionsFillsWeights(hash: Hasher, s: State, ops: seq<Op>, i: nat)
    requires Sound(s) && s.slots != [] && s.algorithm.LeastConnections?
    requires forall j :: j in s.slots ==> j < |s.entries| && s.entries[j].activeConns == 0
    requires Steady(Behaves(hash), s, ops) && OnlySelects(Behaves(hash), s, ops)
    requires |Selections(Behaves(hash), s, ops)| == |s.slots|
    requires i < |s.entries| && Selectable(s.entries[i], s.rebuiltAt)
    ensures i < |RunFrom(hash, s, ops).entries|
    ensures RunFrom(hash, s, ops).entries[i].activeConns == s.entries[i].weight
  {
    var after := RunFrom(hash, s, ops).entries;
    SoundInBounds(s);
    RunBalances(hash, s, ops);
    assert TotalConns(Loads(s.entries, after), s.rebuiltAt) == |s.slots| by {
      SlotsSelectable(s.entries, s.rebuiltAt);
      RunTotals(hash, s, ops, s.rebuiltAt);
      ZeroSlotsTotal(s);
    }
    LoadsAreWeights(s, Loads(s.entries, after), i);
  }
}
