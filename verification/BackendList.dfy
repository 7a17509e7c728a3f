/** The backend list as the data plane's shared object. */
module BackendLists {
  import opened Wire
  import opened Backends
  import opened Selection
  import opened HashRing
  import opened BackendRuns

  method IndexPrevious(entries: seq<Entry>) returns (previous: map<string, Entry>)
    ensures previous == Previous(entries)
  {
    previous := map[];
    for i := 0 to |entries|
      invariant previous == Previous(entries[..i])
    {
      assert entries[..i + 1][..i] == entries[..i];
      previous := previous[entries[i].address := entries[i]];
    }
    assert entries[..|entries|] == entries;
  }

  method AdmitBackends(backends: seq<Backend>, previous: map<string, Entry>) returns (admitted: seq<Entry>)
    ensures admitted == AdmitAll(backends, previous)
  {
    admitted := [];
    for i := 0 to |backends|
      invariant |admitted| == i
      invariant forall k :: 0 <= k < i ==> admitted[k] == Admit(backends[k], previous)
    {
      var b := backends[i];
      var weight := b.weight;
      if weight <= 0 {
        weight := 1;
      }
      var entry := Entry(b.address, weight, true, 0, 0, None, 0);
      if b.address in previous {
        entry := entry.(healthy := previous[b.address].healthy, activeConns := previous[b.address].activeConns);
      }
      admitted := admitted + [entry];
    }
  }

  lemma EjectAfterCounting(s: State, i: nat, t2: int)
    requires i < |s.entries|
    ensures var counted := s.entries[i].(consecErrors := s.entries[i].consecErrors + 1);
      Put(Put(s, i, counted), i, EjectedEntry(counted, s.outlier, t2))
        == Put(s, i, EjectedEntry(s.entries[i], s.outlier, t2))
  {}

  lemma PickIsSelect(hash: Hasher, s: State, key: string, i: nat, t0: int, t1: int, t2: int)
    requires var r := Refresh(s, t0, t1, t2);
      r.slots != [] && InBounds(r.entries, r.slots) && r.next >= 0 && i < |r.entries| && MayPick(hash, r, key, i)
    ensures Apply(hash, s, SelectOp(key, i, t0, t1, t2)) == Picked(Refresh(s, t0, t1, t2), key, i)
  {}

  class BackendList {
    const hash: Hasher
    var entries: seq<Entry>
    var version: int
    var algorithm: Algorithm
    var sticky: Sticky
    var limit: Limit
    var next: int
    var slots: seq<nat>
    var outlier: OutlierConfig
    var nextEjectExpiry: Option<int>
    ghost var rebuiltAt: int

    constructor (hash: Hasher, ghost start: int)
      ensures View() == Initial(start) && Valid() && this.hash == hash
    {
      this.hash := hash;
      entries, version, algorithm := [], 0, RoundRobin;
      sticky, limit := Sticky(false, "", 0), Limit(false, 0.0, 0);
      next, slots, nextEjectExpiry, rebuiltAt := 0, [], None, start;
      outlier := OutlierConfig(false, 0, 0, 0, 0);
    }

    ghost function View(): State
      reads this
    {
      State(entries, version, algorithm, sticky, limit, next, slots, outlier, nextEjectExpiry, rebuiltAt)
    }

    ghost predicate Valid()
      reads this
    {
      Sound(View())
    }

    method RebuildSlots(now: int)
      modifies this`slots, this`nextEjectExpiry, this`rebuiltAt
      ensures View() == Rebuild(old(View()), now)
    {
      var built: seq<nat> := [];
      var expiry: Option<int> := None;
      for i := 0 to |entries|
        invariant built == Expand(entries[..i], now)
        invariant expiry == EarliestExpiry(entries[..i], now)
      {
        assert entries[..i + 1][..i] == entries[..i];
        var e := entries[i];
        if Ejected(e, now) {
          if expiry.None? || e.ejectedUntil.value < expiry.value {
            expiry := e.ejectedUntil;
          }
          continue;
        }
        if !e.healthy {
          continue;
        }
        var w, repeated: seq<nat> := 0, [];
        while w < e.weight
          invariant w == 0 || w <= e.weight
          invariant w >= 0 && repeated == Repeat(i, w)
        {
          repeated := repeated + [i];
          w := w + 1;
        }
        assert repeated == Repeat(i, e.weight);
        built := built + repeated;
      }
      assert entries[..|entries|] == entries;
      slots, nextEjectExpiry, rebuiltAt := built, expiry, now;
    }

    /** Replaces the set, keeping the health and counts of addresses that stay. */
    method Install(m: BackendSet, now: int)
      requires Accepts(version, m.version)
      modifies this
      ensures View() == Backends.Update(old(View()), m, now)
    {
      var previous := IndexPrevious(entries);
      entries := AdmitBackends(m.backends, previous);
      version := m.version;
      algorithm := Normalize(m.algorithm);
      sticky := Sticky(m.sticky, m.stickyCookieName, m.stickyTtlSeconds * SECOND);
      limit := Limit(m.rateLimitRps > 0.0, m.rateLimitRps, m.rateLimitBurst);
      RebuildSlots(now);
    }

    method Update(m: BackendSet, now: int)
      requires Valid()
      modifies this
      ensures View() == Backends.Update(old(View()), m, now) && Valid()
    {
      UpdateSound(View(), m, now);
      if m.version <= version && version != 0 {
        return;
      }
      Install(m, now);
    }

    method SetHealth(address: string, healthy: bool, now: int)
      requires Valid()
      modifies this
      ensures View() == Backends.SetHealth(old(View()), address, healthy, now) && Valid()
    {
      SetHealthSound(View(), address, healthy, now);
      var i := 0;
      while i < |entries| && !(entries[i].address == address && entries[i].healthy != healthy)
        invariant 0 <= i <= |entries|
        invariant forall j :: 0 <= j < i ==> !(entries[j].address == address && entries[j].healthy != healthy)
      {
        i := i + 1;
      }
      assert i == FirstOpposite(entries, address, healthy);
      if i < |entries| {
        entries := entries[i := entries[i].(healthy := healthy)];
        RebuildSlots(now);
      }
    }

    method SetOutlierConfig(config: OutlierConfig)
      requires Valid()
      modifies this`outlier
      ensures View() == SetOutlier(old(View()), config) && Valid()
    {
      outlier := WithDefaults(config);
    }

    method Find(address: string) returns (i: nat)
      ensures i == IndexOf(entries, address)
    {
      i := 0;
      while i < |entries| && entries[i].address != address
        invariant 0 <= i <= |entries|
        invariant forall j :: 0 <= j < i ==> entries[j].address != address
      {
        i := i + 1;
      }
    }

    method EjectedLen(now: int) returns (n: nat)
      ensures n == EjectedCount(entries, now)
    {
      n := 0;
      for i := 0 to |entries|
        invariant n == EjectedCount(entries[..i], now)
      {
        assert entries[..i + 1][..i] == entries[..i];
        if Ejected(entries[i], now) {
          n := n + 1;
        }
      }
      assert entries[..|entries|] == entries;
    }

    /** Whether entry `i`, its failure already counted, is to be ejected: the run of errors
        is long enough, it is not ejected yet, and the group keeps enough backends. */
    method ShouldEject(i: nat, t1: int, t2: int) returns (eject: bool)
      requires i < |entries|
      ensures eject == (entries[i].consecErrors >= outlier.consecutiveErrors && !Ejected(entries[i], t1)
        && (EjectedCount(entries, t2) + 1) * 100 <= outlier.maxEjectPercent * |entries|)
    {
      if entries[i].consecErrors < outlier.consecutiveErrors || Ejected(entries[i], t1) {
        return false;
      }
      var total := |entries|;
      var ejected := EjectedLen(t2);
      return !(total > 0 && (ejected + 1) * 100 > outlier.maxEjectPercent * total);
    }

    method Eject(i: nat, t2: int, t3: int)
      requires i < |entries|
      modifies this
      ensures View() == Rebuild(Put(old(View()), i, EjectedEntry(old(entries[i]), outlier, t2)), t3)
    {
      var count := entries[i].ejectCount + 1;
      var duration := count * outlier.baseEject;
      if duration > outlier.maxEject {
        duration := outlier.maxEject;
      }
      entries := entries[i := entries[i].(ejectCount := count, ejectedUntil := Some(t2 + duration), consecErrors := 0)];
      RebuildSlots(t3);
    }

    method RecordResult(address: string, success: bool, t1: int, t2: int, t3: int)
      requires Valid()
      modifies this
      ensures View() == Backends.RecordResult(old(View()), address, success, t1, t2, t3) && Valid()
    {
      RecordResultSound(View(), address, success, t1, t2, t3);
      if !outlier.enabled {
        return;
      }
      var i := Find(address);
      if i == |entries| {
        return;
      }
      if success {
        entries := entries[i := entries[i].(consecErrors := 0)];
        return;
      }
      entries := entries[i := entries[i].(consecErrors := entries[i].consecErrors + 1)];
      EjectedCountPut(old(entries), i, entries[i], t2);
      var eject := ShouldEject(i, t1, t2);
      assert eject == Trips(old(View()), i, t1, t2);
      if !eject {
        return;
      }
      Eject(i, t2, t3);
      EjectAfterCounting(old(View()), i, t2);
    }

    /** The lazy rebuild: re-admits backends whose ejection has lapsed. */
    method RefreshSlots(t0: int, t1: int, t2: int)
      requires Valid()
      modifies this`slots, this`nextEjectExpiry, this`rebuiltAt
      ensures View() == Refresh(old(View()), t0, t1, t2) && Valid()
    {
      var needRebuild := nextEjectExpiry.Some? && t0 >= nextEjectExpiry.value;
      if needRebuild {
        if nextEjectExpiry.Some? && t1 >= nextEjectExpiry.value {
          RebuildSlots(t2);
        }
      }
    }

    method AdvanceCursor() returns (i: nat)
      requires slots != [] && next >= 0
      modifies this`next
      ensures i == AtCursor(old(View())) && next == (old(next) + 1) % CURSOR_MODULUS
    {
      i := slots[next % |slots|];
      next := (next + 1) % CURSOR_MODULUS;
    }

    method Choose(key: string, d1: nat, d2: nat) returns (i: nat)
      requires slots != [] && InBounds(entries, slots) && next >= 0
      modifies this`next
      ensures MayPick(hash, old(View()), key, i)
      ensures next == if UsesCursor(old(View()), key) then (old(next) + 1) % CURSOR_MODULUS else old(next)
    {
      match algorithm {
        case LeastConnections => i := LeastLoaded(entries, slots);
        case Random => i := slots[Intn(d1, |slots|)];
        case P2C => i := BetterOfTwo(d1, d2);
        case ConsistentHash =>
          if key == "" {
            i := AdvanceCursor();
          } else {
            i := LookupRing(hash, entries, slots, key);
          }
        case RoundRobin => i := AdvanceCursor();
      }
    }

    /** Counts one more request against an entry. */
    method Occupy(i: nat)
      requires i < |entries|
      modifies this`entries
      ensures View() == Increment(old(View()), i)
    {
      entries := entries[i := entries[i].(activeConns := entries[i].activeConns + 1)];
    }

    /** Selects a backend and counts the request against it. `d1` and `d2` are the draws of
        the random algorithms; the clock is read at t0, and at t1 and t2 for a rebuild. */
    method NextForKey(key: string, d1: nat, d2: nat, t0: int, t1: int, t2: int) returns (picked: Option<nat>)
      requires Valid()
      modifies this
      ensures Valid()
      ensures var r := Refresh(old(View()), t0, t1, t2);
        && InBounds(r.entries, r.slots)
        && (picked.None? <==> r.slots == [])
        && (picked.None? ==> View() == r)
        && (picked.Some? ==> r.next >= 0 && MayPick(hash, r, key, picked.value)
                             && picked.value < |r.entries| && View() == Picked(r, key, picked.value))
      ensures picked.Some? ==> View() == Apply(hash, old(View()), SelectOp(key, picked.value, t0, t1, t2))
    {
      RefreshSlots(t0, t1, t2);
      ghost var r := View();
      SoundInBounds(r);
      if slots == [] {
        return None;
      }
      var i := Pick(key, d1, d2);
      PickedSound(r, key, i);
      PickIsSelect(hash, old(View()), key, i, t0, t1, t2);
      picked := Some(i);
    }

    /** Chooses from the slots in place and counts the request. */
    method Pick(key: string, d1: nat, d2: nat) returns (i: nat)
      requires slots != [] && InBounds(entries, slots) && next >= 0
      modifies this`next, this`entries
      ensures MayPick(hash, old(View()), key, i) && i < |old(entries)|
      ensures View() == Picked(old(View()), key, i)
    {
      i := Choose(key, d1, d2);
      Occupy(i);
    }

    method BetterOfTwo(d1: nat, d2: nat) returns (i: nat)
      requires slots != [] && InBounds(entries, slots)
      ensures exists x, y :: IsBetterOfTwo(View(), x, y, i)
      ensures i in slots
    {
      var x := Intn(d1, |slots|);
      var y := x;
      if |slots| > 1 {
        y := Intn(d2, |slots| - 1);
        if y >= x {
          y := y + 1;
        }
      }
      i := slots[x];
      if Lighter(entries[slots[y]], entries[slots[x]]) {
        i := slots[y];
      }
      assert IsBetterOfTwo(View(), x, y, i);
    }

    method Release(address: string)
      requires Valid()
      modifies this`entries
      ensures View() == Backends.Release(old(View()), address) && Valid()
    {
      ReleaseSound(View(), address);
      var i := Find(address);
      if i < |entries| && entries[i].activeConns > 0 {
        entries := entries[i := entries[i].(activeConns := entries[i].activeConns - 1)];
      }
    }

    method PinTo(address: string, now: int) returns (pinned: bool)
      requires Valid()
      modifies this`entries
      ensures pinned == Pinnable(old(View()), address, now)
      ensures View() == Backends.PinTo(old(View()), address, now) && Valid()
    {
      PinToSound(View(), address, now);
      var i := Find(address);
      if i == |entries| || !Selectable(entries[i], now) {
        return false;
      }
      Occupy(i);
      pinned := true;
    }
  }
}
