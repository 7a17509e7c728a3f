/** In-flight accounting: each entry's connection count against the requests really
    outstanding, over every run and every lost race with an update. */
module Accounting {
  import opened Wire
  import opened Backends
  import opened Selection
  import opened HashRing
  import opened BackendRuns

  predicate DistinctEntries(entries: seq<Entry>) {
    forall i, j :: 0 <= i < j < |entries| ==> entries[i].address != entries[j].address
  }

  function ConnsOf(entries: seq<Entry>, address: string): Option<int> {
    var i := IndexOf(entries, address);
    if i < |entries| then Some(entries[i].activeConns) else None
  }

  /** What happens to the list. A selection that captured the entries before an update
      replaced them counts its request on a dead entry: `LostSelect`. */
  datatype Event = Step(op: Op) | LostSelect(address: string)

  datatype Ledger = Ledger(state: State, outstanding: map<string, int>)

  function Out(l: Ledger, address: string): int {
    if address in l.outstanding then l.outstanding[address] else 0
  }

  function Charge(l: Ledger, address: string, amount: int): Ledger {
    l.(outstanding := l.outstanding[address := Out(l, address) + amount])
  }

  ghost predicate Picks(hash: Hasher, s: State, op: Op) {
    && op.SelectOp?
    && var r := Refresh(s, op.t0, op.t1, op.t2);
       r.slots != [] && InBounds(r.entries, r.slots) && r.next >= 0 && MayPick(hash, r, op.key, op.i)
  }

  /** The address one more request is charged to, if any. */
  ghost function Charged(hash: Hasher, s: State, e: Event): Option<string> {
    match e
    case LostSelect(address) => Some(address)
    case Step(op) =>
      if Picks(hash, s, op) then
        var r := Refresh(s, op.t0, op.t1, op.t2);
        Some(r.entries[op.i].address)
      else if op.PinOp? && Pinnable(s, op.address, op.now) then Some(op.address)
      else None
  }

  /** A release that matches no selection does not happen. */
  ghost function ApplyEvent(hash: Hasher, l: Ledger, e: Event): Ledger {
    if e.LostSelect? then Charge(l, e.address, 1)
    else if e.op.ReleaseOp? then
      if Out(l, e.op.address) <= 0 then l
      else Charge(l.(state := Apply(hash, l.state, e.op)), e.op.address, -1)
    else
      Booked(l, Apply(hash, l.state, e.op), Charged(hash, l.state, e))
  }

  /** The list moves on, and one more request is outstanding where it was charged. */
  function Booked(l: Ledger, next: State, charged: Option<string>): Ledger {
    if charged.Some? then Charge(l.(state := next), charged.value, 1) else l.(state := next)
  }

  ghost function RunEvents(hash: Hasher, l: Ledger, events: seq<Event>): Ledger {
    if events == [] then l
    else ApplyEvent(hash, RunEvents(hash, l, events[..|events| - 1]), events[|events| - 1])
  }

  /** An update that is accepted carries no repeated address. */
  predicate Fits(s: State, op: Op) {
    op.UpdateOp? && Accepts(s.version, op.m.version) ==> DistinctAddresses(op.m.backends)
  }

  ghost predicate WellFormed(hash: Hasher, l: Ledger, events: seq<Event>) {
    forall n :: 0 <= n < |events| && events[n].Step? ==> Fits(RunEvents(hash, l, events[..n]).state, events[n].op)
  }

  lemma WellFormedPrefix(hash: Hasher, l: Ledger, events: seq<Event>)
    requires events != [] && WellFormed(hash, l, events)
    ensures WellFormed(hash, l, events[..|events| - 1])
    ensures events[|events| - 1].Step? ==>
      Fits(RunEvents(hash, l, events[..|events| - 1]).state, events[|events| - 1].op)
  {
    var init := events[..|events| - 1];
    forall n | 0 <= n < |init| && init[n].Step? ensures Fits(RunEvents(hash, l, init[..n]).state, init[n].op) {
      assert init[..n] == events[..n] && init[n] == events[n];
    }
  }

  // ---------------------------------------------------------------------------
  // The effect of each operation on the counts
  // ---------------------------------------------------------------------------

  lemma IndexOfDistinct(entries: seq<Entry>, i: nat)
    requires DistinctEntries(entries) && i < |entries|
    ensures IndexOf(entries, entries[i].address) == i
  {
    var j := IndexOf(entries, entries[i].address);
  }

  lemma ConnsOfPut(entries: seq<Entry>, i: nat, e: Entry, address: string)
    requires DistinctEntries(entries) && i < |entries| && e.address == entries[i].address
    ensures DistinctEntries(entries[i := e])
    ensures ConnsOf(entries[i := e], address)
         == if address == e.address then Some(e.activeConns) else ConnsOf(entries, address)
  {
    IndexOfPut(entries, i, e, address);
    IndexOfDistinct(entries, i);
  }

  /** `previous` finds each old entry by its address. */
  ghost predicate Indexes(previous: map<string, Entry>, entries: seq<Entry>) {
    && (forall a :: a in previous ==> previous[a] in entries && previous[a].address == a)
    && (forall i :: 0 <= i < |entries| ==> entries[i].address in previous)
  }

  lemma AdmittedConns(before: seq<Entry>, previous: map<string, Entry>, backends: seq<Backend>,
                      entries: seq<Entry>, address: string)
    requires DistinctEntries(before) && DistinctAddresses(backends) && Indexes(previous, before)
    requires |entries| == |backends| && forall i :: 0 <= i < |entries| ==> entries[i] == Admit(backends[i], previous)
    ensures DistinctEntries(entries)
    ensures ConnsOf(entries, address)
         == if forall i :: 0 <= i < |backends| ==> backends[i].address != address then None
            else if ConnsOf(before, address).Some? then ConnsOf(before, address) else Some(0)
  {
    assert forall i :: 0 <= i < |entries| ==> entries[i].address == backends[i].address;
    var i, j := IndexOf(entries, address), IndexOf(before, address);
    if i < |entries| {
      assert address in previous <==> j < |before|;
      assert j < |before| ==> previous[address] == before[j];
    }
  }

  /** An accepted update keeps the count of every address that stays, starts new ones at
      zero and forgets the rest. */
  lemma UpdateConns(s: State, m: BackendSet, now: int, address: string)
    requires DistinctEntries(s.entries) && DistinctAddresses(m.backends) && Accepts(s.version, m.version)
    ensures DistinctEntries(Update(s, m, now).entries)
    ensures ConnsOf(Update(s, m, now).entries, address)
         == if forall i :: 0 <= i < |m.backends| ==> m.backends[i].address != address then None
            else if ConnsOf(s.entries, address).Some? then ConnsOf(s.entries, address) else Some(0)
  {
    AdmittedConns(s.entries, Previous(s.entries), m.backends, Update(s, m, now).entries, address);
  }

  /** Health changes, results and configuration leave the counts alone. */
  lemma QuietConns(hash: Hasher, s: State, op: Op, address: string)
    requires DistinctEntries(s.entries)
    requires op.HealthOp? || op.ResultOp? || op.ConfigOp? || (op.UpdateOp? && !Accepts(s.version, op.m.version))
    ensures DistinctEntries(Apply(hash, s, op).entries)
    ensures ConnsOf(Apply(hash, s, op).entries, address) == ConnsOf(s.entries, address)
  {
    if op.HealthOp? {
      var i := FirstOpposite(s.entries, op.address, op.healthy);
      if i < |s.entries| {
        ConnsOfPut(s.entries, i, s.entries[i].(healthy := op.healthy), address);
        IndexOfDistinct(s.entries, i);
      }
    } else if op.ResultOp? {
      var i := IndexOf(s.entries, op.address);
      if i < |s.entries| {
        var e := Apply(hash, s, op).entries[i];
        assert Apply(hash, s, op).entries == s.entries[i := e];
        ConnsOfPut(s.entries, i, e, address);
        IndexOfDistinct(s.entries, i);
      }
    }
  }

  lemma SelectEntries(hash: Hasher, s: State, op: Op)
    requires op.SelectOp?
    ensures !Picks(hash, s, op) ==> Apply(hash, s, op).entries == s.entries
    ensures Picks(hash, s, op) ==>
      op.i < |s.entries| && Apply(hash, s, op).entries == Increment(s, op.i).entries
  {}

  lemma IncrementConns(s: State, i: nat, address: string)
    requires DistinctEntries(s.entries) && i < |s.entries|
    ensures DistinctEntries(Increment(s, i).entries)
    ensures ConnsOf(s.entries, s.entries[i].address) == Some(s.entries[i].activeConns)
    ensures ConnsOf(Increment(s, i).entries, address)
         == if address == s.entries[i].address then Some(s.entries[i].activeConns + 1)
            else ConnsOf(s.entries, address)
  {
    ConnsOfPut(s.entries, i, s.entries[i].(activeConns := s.entries[i].activeConns + 1), address);
    IndexOfDistinct(s.entries, i);
  }

  lemma SelectConns(hash: Hasher, s: State, op: Op, address: string)
    requires DistinctEntries(s.entries) && (op.SelectOp? || op.PinOp?)
    ensures DistinctEntries(Apply(hash, s, op).entries)
    ensures Charged(hash, s, Step(op)).Some? ==> ConnsOf(s.entries, Charged(hash, s, Step(op)).value).Some?
    ensures ConnsOf(Apply(hash, s, op).entries, address)
         == if Charged(hash, s, Step(op)) == Some(address) && ConnsOf(s.entries, address).Some?
            then Some(ConnsOf(s.entries, address).value + 1) else ConnsOf(s.entries, address)
  {
    if op.SelectOp? {
      SelectEntries(hash, s, op);
      if Picks(hash, s, op) { IncrementConns(s, op.i, address); }
    } else if Pinnable(s, op.address, op.now) {
      IncrementConns(s, IndexOf(s.entries, op.address), address);
    }
  }

  lemma ReleaseConns(s: State, released: string, address: string)
    requires DistinctEntries(s.entries)
    ensures DistinctEntries(Release(s, released).entries)
    ensures ConnsOf(Release(s, released).entries, address)
         == var c := ConnsOf(s.entries, address);
            if address == released && c.Some? && c.value > 0 then Some(c.value - 1) else c
  {
    var i := IndexOf(s.entries, released);
    if i < |s.entries| {
      ConnsOfPut(s.entries, i, s.entries[i].(activeConns := s.entries[i].activeConns - 1), address);
    }
  }

  /** An update that is accepted lists the address. */
  predicate Lists(s: State, op: Op, address: string) {
    op.UpdateOp? && Accepts(s.version, op.m.version) ==>
      exists i :: 0 <= i < |op.m.backends| && op.m.backends[i].address == address
  }

  /** No operation but a release takes a request off an address that stays, and each adds
      exactly what it charges. */
  lemma StepConns(hash: Hasher, s: State, op: Op, address: string)
    requires DistinctEntries(s.entries) && !op.ReleaseOp? && Fits(s, op)
    ensures DistinctEntries(Apply(hash, s, op).entries)
    ensures var c, c' := ConnsOf(s.entries, address), ConnsOf(Apply(hash, s, op).entries, address);
      && (c'.Some? ==> c'.value == (if c.Some? then c.value else 0)
                                   + if Charged(hash, s, Step(op)) == Some(address) then 1 else 0)
      && (c.Some? && Lists(s, op, address) ==> c'.Some?)
  {
    if op.SelectOp? || op.PinOp? {
      SelectConns(hash, s, op, address);
    } else if op.UpdateOp? && Accepts(s.version, op.m.version) {
      UpdateConns(s, op.m, op.now, address);
    } else {
      QuietConns(hash, s, op, address);
    }
  }

  // ---------------------------------------------------------------------------
  // Conservation
  // ---------------------------------------------------------------------------

  /** An address's count is never negative and never exceeds what is outstanding. */
  predicate Within(l: Ledger, address: string) {
    var c := ConnsOf(l.state.entries, address);
    Out(l, address) >= 0 && (c.Some? ==> 0 <= c.value <= Out(l, address))
  }

  ghost predicate Conserved(l: Ledger) {
    DistinctEntries(l.state.entries) && forall a :: Within(l, a)
  }

  /** What StepConns concludes, for states and a charge given as values. */
  predicate Adds(l: Ledger, next: State, charged: Option<string>, address: string) {
    var c, c' := ConnsOf(l.state.entries, address), ConnsOf(next.entries, address);
    c'.Some? ==> c'.value == (if c.Some? then c.value else 0) + if charged == Some(address) then 1 else 0
  }

  lemma BookedWithin(l: Ledger, next: State, charged: Option<string>, address: string)
    requires Within(l, address) && Adds(l, next, charged, address)
    ensures Within(Booked(l, next, charged), address)
  {}

  lemma BookedExact(l: Ledger, next: State, charged: Option<string>, address: string)
    requires Exact(l, address) && Adds(l, next, charged, address) && ConnsOf(next.entries, address).Some?
    ensures Exact(Booked(l, next, charged), address)
  {}

  lemma ReleasedWithin(l: Ledger, released: string, address: string)
    requires DistinctEntries(l.state.entries) && Within(l, address) && Out(l, released) > 0
    ensures Within(Charge(l.(state := Release(l.state, released)), released, -1), address)
    ensures Exact(l, address) ==> Exact(Charge(l.(state := Release(l.state, released)), released, -1), address)
  {
    ReleaseConns(l.state, released, address);
  }

  /** How one event moves one address's count and outstanding number. */
  lemma EventEffect(hash: Hasher, l: Ledger, e: Event, address: string)
    requires DistinctEntries(l.state.entries) && Within(l, address)
    requires e.Step? ==> Fits(l.state, e.op)
    ensures DistinctEntries(ApplyEvent(hash, l, e).state.entries) && Within(ApplyEvent(hash, l, e), address)
  {
    if e.LostSelect? {
    } else if e.op.ReleaseOp? {
      if Out(l, e.op.address) > 0 { ReleasedWithin(l, e.op.address, address); }
      ReleaseConns(l.state, e.op.address, address);
    } else {
      StepConns(hash, l.state, e.op, address);
      BookedWithin(l, Apply(hash, l.state, e.op), Charged(hash, l.state, e), address);
    }
  }

  /** In every run, including removal and re-adding and selections lost to updates. */
  lemma {:induction false} InFlightConserved(hash: Hasher, l: Ledger, events: seq<Event>)
    requires Conserved(l) && WellFormed(hash, l, events)
    ensures Conserved(RunEvents(hash, l, events))
  {
    if events == [] {
    } else {
      var init, e := events[..|events| - 1], events[|events| - 1];
      WellFormedPrefix(hash, l, events);
      InFlightConserved(hash, l, init);
      var r := RunEvents(hash, l, init);
      EventEffect(hash, r, e, "");
      forall a ensures Within(ApplyEvent(hash, r, e), a) { EventEffect(hash, r, e, a); }
    }
  }

  /** `address` is listed and its count is exactly what is outstanding. */
  ghost predicate Exact(l: Ledger, address: string) {
    ConnsOf(l.state.entries, address) == Some(Out(l, address))
  }

  /** No selection of the address is lost and no accepted update drops it. */
  predicate Keeps(s: State, e: Event, address: string) {
    match e
    case LostSelect(a) => a != address
    case Step(op) => Lists(s, op, address)
  }

  lemma EventExact(hash: Hasher, l: Ledger, e: Event, address: string)
    requires DistinctEntries(l.state.entries) && Within(l, address) && Exact(l, address)
    requires Keeps(l.state, e, address) && (e.Step? ==> Fits(l.state, e.op))
    ensures Exact(ApplyEvent(hash, l, e), address)
  {
    if e.LostSelect? {
    } else if e.op.ReleaseOp? {
      if Out(l, e.op.address) > 0 { ReleasedWithin(l, e.op.address, address); }
    } else {
      StepConns(hash, l.state, e.op, address);
      BookedExact(l, Apply(hash, l.state, e.op), Charged(hash, l.state, e), address);
    }
  }

  ghost predicate AlwaysKept(hash: Hasher, l: Ledger, events: seq<Event>, address: string) {
    forall n :: 0 <= n < |events| ==> Keeps(RunEvents(hash, l, events[..n]).state, events[n], address)
  }

  lemma AlwaysKeptPrefix(hash: Hasher, l: Ledger, events: seq<Event>, address: string)
    requires events != [] && AlwaysKept(hash, l, events, address)
    ensures AlwaysKept(hash, l, events[..|events| - 1], address)
    ensures Keeps(RunEvents(hash, l, events[..|events| - 1]).state, events[|events| - 1], address)
  {
    var init := events[..|events| - 1];
    forall n | 0 <= n < |init| ensures Keeps(RunEvents(hash, l, init[..n]).state, init[n], address) {
      assert init[..n] == events[..n] && init[n] == events[n];
    }
  }

  /** While an address stays in every accepted set, its count equals what is outstanding;
      stale updates may say what they like. */
  lemma {:induction false} InFlightExact(hash: Hasher, l: Ledger, events: seq<Event>, address: string)
    requires Conserved(l) && Exact(l, address) && WellFormed(hash, l, events)
    requires AlwaysKept(hash, l, events, address)
    ensures Exact(RunEvents(hash, l, events), address)
  {
    if events == [] {
    } else {
      var init, e := events[..|events| - 1], events[|events| - 1];
      WellFormedPrefix(hash, l, events);
      AlwaysKeptPrefix(hash, l, events, address);
      InFlightExact(hash, l, init, address);
      InFlightConserved(hash, l, init);
      EventExact(hash, RunEvents(hash, l, init), e, address);
    }
  }
}
