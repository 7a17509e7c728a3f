/** When a backend is ejected and for how long, in terms of the results reported for it. */
module ErrorRuns {
  import opened Wire
  import opened Backends
  import opened Selection
  import opened HashRing
  import opened BackendRuns

  // ---------------------------------------------------------------------------
  // The results that count
  // ---------------------------------------------------------------------------

  /** The results of `address` reported, while it was listed and detection was on, since the
      last accepted update and since it was last ejected. */
  ghost function Counted(hash: Hasher, start: int, ops: seq<Op>, address: string): seq<bool> {
    if ops == [] then []
    else
      var init, op := ops[..|ops| - 1], ops[|ops| - 1];
      var s, before := Run(hash, start, init), Counted(hash, start, init, address);
      if Resets(s, op) || Ejects(hash, s, op, address) then []
      else if Reports(s, op, address) then before + [op.success]
      else before
  }

  ghost predicate Reports(s: State, op: Op, address: string) {
    op.ResultOp? && op.address == address && s.outlier.enabled && EntryOf(s, address).Some?
  }

  /** The number of failures at the end. */
  function FailedRun(h: seq<bool>): nat {
    if h == [] || h[|h| - 1] then 0 else FailedRun(h[..|h| - 1]) + 1
  }

  lemma {:induction false} FailedRunIs(h: seq<bool>)
    ensures var n := FailedRun(h);
      && n <= |h|
      && (forall i :: |h| - n <= i < |h| ==> !h[i])
      && (n < |h| ==> h[|h| - n - 1])
  {
    if h == [] || h[|h| - 1] {
    } else {
      FailedRunIs(h[..|h| - 1]);
    }
  }

  // ---------------------------------------------------------------------------
  // The error count is that run
  // ---------------------------------------------------------------------------

  ghost function NextErrors(hash: Hasher, s: State, op: Op, address: string, errors: int): int {
    if Ejects(hash, s, op, address) then 0
    else if !Reports(s, op, address) then errors
    else if op.success then 0
    else errors + 1
  }

  /** What one operation does to the error count of an address. */
  lemma ErrorsStep(hash: Hasher, s: State, op: Op, address: string)
    requires Sound(s) && (op.ResultOp? ==> op.t1 <= op.t2) && !Resets(s, op)
    ensures var e, e' := EntryOf(s, address), EntryOf(Apply(hash, s, op), address);
      && (e'.Some? <==> e.Some?)
      && (e.Some? ==> e'.value.consecErrors == NextErrors(hash, s, op, address, e.value.consecErrors))
  {
    if op.ResultOp? {
      ResultErrors(hash, s, op, address);
    } else {
      KeepsEjections(hash, s, op);
      SameEjectionsOf(s, Apply(hash, s, op), address);
    }
  }

  lemma ResultErrors(hash: Hasher, s: State, op: Op, address: string)
    requires Sound(s) && op.ResultOp? && op.t1 <= op.t2
    ensures var e, e' := EntryOf(s, address), EntryOf(Apply(hash, s, op), address);
      && (e'.Some? <==> e.Some?)
      && (e.Some? ==> e'.value.consecErrors == NextErrors(hash, s, op, address, e.value.consecErrors))
  {
    var i, s' := IndexOf(s.entries, op.address), Apply(hash, s, op);
    if s.outlier.enabled && i < |s.entries| {
      ResultPuts(s, op.address, op.success, op.t1, op.t2, op.t3);
      EntryOfPut(s, s', i, s'.entries[i], address);
      if op.address == address { EjectsIff(hash, s, op, address); }
    }
  }

  lemma UpdateClearsErrors(s: State, m: BackendSet, now: int, address: string)
    requires Accepts(s.version, m.version) && EntryOf(Update(s, m, now), address).Some?
    ensures EntryOf(Update(s, m, now), address).value.consecErrors == 0
  {}

  lemma ResultInOrder(start: int, ops: seq<Op>)
    requires ops != [] && Timely(start, ops)
    ensures var op := ops[|ops| - 1]; op.ResultOp? ==> op.t1 <= op.t2
  {
    var op := ops[|ops| - 1];
    assert op.ResultOp? ==> Readings(op)[0] <= Readings(op)[1];
  }

  /** Errors are consecutive: in every run the error count of a listed address is the number
      of failures at the end of its results since the last accepted update and since it was
      last ejected. */
  lemma {:induction false} ErrorsAreConsecutive(hash: Hasher, start: int, ops: seq<Op>, address: string)
    requires Timely(start, ops) && EntryOf(Run(hash, start, ops), address).Some?
    ensures EntryOf(Run(hash, start, ops), address).value.consecErrors
         == FailedRun(Counted(hash, start, ops, address))
  {
    if ops == [] {
    } else {
      var init, op := ops[..|ops| - 1], ops[|ops| - 1];
      var s, before := Run(hash, start, init), Counted(hash, start, init, address);
      if Resets(s, op) {
        UpdateClearsErrors(s, op.m, op.now, address);
      } else {
        assert Sound(s) by { RunSound(hash, start, init); }
        ResultInOrder(start, ops);
        ErrorsStep(hash, s, op, address);
        ErrorsAreConsecutive(hash, start, init, address);
        FailedSnoc(before);
      }
    }
  }

  lemma FailedSnoc(h: seq<bool>)
    ensures FailedRun(h + [true]) == 0 && FailedRun(h + [false]) == FailedRun(h) + 1
  {
    assert (h + [false])[..|h|] == h;
  }

  // ---------------------------------------------------------------------------
  // Ejection over runs
  // ---------------------------------------------------------------------------

  /** The indices of the entries under ejection at `now`. */
  function EjectedSet(entries: seq<Entry>, now: int): set<nat> {
    set i: nat | i < |entries| && entries[i].ejectedUntil.Some? && now < entries[i].ejectedUntil.value
  }

  lemma {:induction false} EjectedCountIs(entries: seq<Entry>, now: int)
    ensures EjectedCount(entries, now) == |EjectedSet(entries, now)|
  {
    if entries == [] {
      assert EjectedSet(entries, now) == {};
    } else {
      EjectedCountIs(entries[..|entries| - 1], now);
      EjectedSetSnoc(entries, now);
    }
  }

  lemma EjectedSetSnoc(entries: seq<Entry>, now: int)
    requires entries != []
    ensures var n := |entries| - 1;
      EjectedSet(entries, now) == EjectedSet(entries[..n], now) + if Ejected(entries[n], now) then {n as nat} else {}
  {
    var init := entries[..|entries| - 1];
    forall i: nat ensures i in EjectedSet(entries, now) <==>
      i in EjectedSet(init, now) || (i == |init| && Ejected(entries[i], now))
    {
      if i < |init| { assert init[i] == entries[i]; }
    }
  }

  /** After every run, a result ejects a backend if and only if detection is on, the backend
      is listed, the request failed, it completes a run of failures of the configured length,
      the backend is not under ejection, and one more keeps within the percentage. */
  lemma EjectedByRunIff(hash: Hasher, start: int, ops: seq<Op>, s: State, op: Op, address: string)
    requires Timely(start, ops) && s == Run(hash, start, ops)
    requires op.ResultOp? && op.address == address && op.t1 <= op.t2
    ensures Ejects(hash, s, op, address) <==>
      && s.outlier.enabled && !op.success && EntryOf(s, address).Some?
      && FailedRun(Counted(hash, start, ops, address)) + 1 >= s.outlier.consecutiveErrors
      && !EjectedAt(s, address, op.t1)
      && (|EjectedSet(s.entries, op.t2)| + 1) * 100 <= s.outlier.maxEjectPercent * |s.entries|
  {
    assert Sound(s) by { RunSound(hash, start, ops); }
    EjectsIff(hash, s, op, address);
    EjectedCountIs(s.entries, op.t2);
    if EntryOf(s, address).Some? { ErrorsAreConsecutive(hash, start, ops, address); }
  }

  /** An affinity cookie is honoured exactly for a listed backend that is healthy and not under
      ejection. */
  lemma PinnableIff(s: State, address: string, now: int)
    ensures Pinnable(s, address, now) <==>
      EntryOf(s, address).Some? && EntryOf(s, address).value.healthy && !EjectedAt(s, address, now)
  {}

  // ---------------------------------------------------------------------------
  // While it lasts
  // ---------------------------------------------------------------------------

  ghost predicate NoUpdates(hash: Hasher, s: State, more: seq<Op>) {
    forall n :: 0 <= n < |more| ==> !Resets(RunFrom(hash, s, more[..n]), more[n])
  }

  lemma NoUpdatesPrefix(hash: Hasher, s: State, more: seq<Op>)
    requires more != [] && NoUpdates(hash, s, more)
    ensures NoUpdates(hash, s, more[..|more| - 1])
    ensures !Resets(RunFrom(hash, s, more[..|more| - 1]), more[|more| - 1])
  {
    var init := more[..|more| - 1];
    forall n | 0 <= n < |init| ensures !Resets(RunFrom(hash, s, init[..n]), init[n]) {
      assert init[..n] == more[..n] && init[n] == more[n];
    }
  }

  lemma {:induction false} UntilStands(hash: Hasher, s: State, more: seq<Op>, address: string)
    requires Sound(s) && ResultsInOrder(more) && NeverEjects(hash, s, more, address) && NoUpdates(hash, s, more)
    ensures Sound(RunFrom(hash, s, more))
    ensures UntilOf(RunFrom(hash, s, more), address) == UntilOf(s, address)
  {
    if more == [] {
    } else {
      var init, op := more[..|more| - 1], more[|more| - 1];
      var r := RunFrom(hash, s, init);
      assert NeverEjects(hash, s, init, address) && !Ejects(hash, r, op, address) by {
        NeverEjectsPrefix(hash, s, more, address);
      }
      assert NoUpdates(hash, s, init) && !Resets(r, op) by { NoUpdatesPrefix(hash, s, more); }
      UntilStands(hash, s, init, address);
      ApplySound(hash, r, op);
      EjectionFrame(hash, r, op, address);
    }
  }

  /** An ejected backend takes no traffic before its time: whatever operations follow, short
      of an accepted update, no selection whose clock is before the end of the ejection has
      it in its slots, and no affinity cookie is honoured. */
  lemma NotSelectedWhileEjected(hash: Hasher, s: State, op: Op, more: seq<Op>, address: string,
                                t0: int, t1: int, t2: int)
    requires Sound(s) && op.ResultOp? && op.t1 <= op.t2 && Ejects(hash, s, op, address)
    requires var after := Apply(hash, s, op);
      ResultsInOrder(more) && NeverEjects(hash, after, more, address) && NoUpdates(hash, after, more)
    requires RunFrom(hash, Apply(hash, s, op), more).rebuiltAt <= t0 <= t1 <= t2
    requires UntilOf(Apply(hash, s, op), address).Some? && t2 < UntilOf(Apply(hash, s, op), address).value
    ensures var r := RunFrom(hash, Apply(hash, s, op), more);
      IndexOf(r.entries, address) !in Refresh(r, t0, t1, t2).slots && !Pinnable(r, address, t2)
  {
    var after := Apply(hash, s, op);
    var r := RunFrom(hash, after, more);
    ApplySound(hash, s, op);
    UntilStands(hash, after, more, address);
    RefreshExact(r, t0, t1, t2);
    ExpandMembers(r.entries, Moment(r, t0, t1, t2), IndexOf(r.entries, address));
  }
}
