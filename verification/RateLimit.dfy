/** The per-client rate limiter of one group, with its lazy sweep of idle buckets.
    A bucket starts full, refills at the configured rate up to its depth and admits a
    request when it holds at least one token. Times are seconds. */
module RateLimit {
  import opened Backends

  const IDLE_TTL: real := 600.0
  const SWEEP_INTERVAL: real := 60.0

  datatype Bucket = Bucket(tokens: real, at: real)

  datatype Limiter = Limiter(config: Limit, clients: map<string, Bucket>, lastKeep: real)

  function Depth(c: Limit): (d: int)
    ensures d >= 1
  {
    if c.burst > 0 then c.burst else if c.rps.Floor < 1 then 1 else c.rps.Floor
  }

  function Capacity(c: Limit): (d: real)
    ensures d >= 1.0
  {
    Depth(c) as real
  }

  predicate Active(c: Limit) { c.enabled && c.rps > 0.0 }

  /** Tokens earned in `elapsed` seconds. */
  function Gain(elapsed: real, rps: real): real {
    elapsed * rps
  }

  function Refilled(c: Limit, b: Bucket, now: real): real {
    var level := b.tokens + Gain(now - b.at, c.rps);
    if level > Capacity(c) then Capacity(c) else level
  }

  function Drawn(level: real, now: real): Bucket {
    Bucket(if level >= 1.0 then level - 1.0 else level, now)
  }

  /** What a client could draw at `now`; a client without a bucket starts full. */
  function Level(c: Limit, clients: map<string, Bucket>, client: string, now: real): real {
    if client in clients then Refilled(c, clients[client], now) else Capacity(c)
  }

  function Swept(l: Limiter, now: real): Limiter {
    if now - l.lastKeep < SWEEP_INTERVAL then l
    else l.(lastKeep := now,
            clients := map k | k in l.clients && now - l.clients[k].at <= IDLE_TTL :: l.clients[k])
  }

  predicate Admits(l: Limiter, client: string, now: real) {
    !Active(l.config) || Level(l.config, l.clients, client, now) >= 1.0
  }

  function Draw(l: Limiter, client: string, now: real): Limiter {
    if !Active(l.config) then l
    else l.(clients := l.clients[client := Drawn(Level(l.config, l.clients, client, now), now)])
  }

  function Configured(l: Limiter, c: Limit): Limiter {
    if c == l.config then l else l.(config := c, clients := map[])
  }

  datatype Op = Request(client: string, now: real) | Configure(config: Limit)

  /** With `sweep` false this is the limiter that never discards a bucket. */
  function Before(sweep: bool, l: Limiter, op: Op): Limiter {
    if sweep && op.Request? && Active(l.config) then Swept(l, op.now) else l
  }

  function Apply(sweep: bool, l: Limiter, op: Op): Limiter {
    match op
    case Request(client, now) => Draw(Before(sweep, l, op), client, now)
    case Configure(c) => Configured(l, c)
  }

  function Run(sweep: bool, l: Limiter, ops: seq<Op>): Limiter {
    if ops == [] then l else Apply(sweep, Run(sweep, l, ops[..|ops| - 1]), ops[|ops| - 1])
  }

  /** The decision on operation `i`, true for a configuration. */
  predicate Decision(sweep: bool, l: Limiter, ops: seq<Op>, i: nat)
    requires i < |ops|
  {
    var r := Run(sweep, l, ops[..i]);
    ops[i].Request? ==> Admits(Before(sweep, r, ops[i]), ops[i].client, ops[i].now)
  }

  function Fresh(start: real): Limiter {
    Limiter(Limit(false, 0.0, 0), map[], start)
  }

  // ---------------------------------------------------------------------------
  // Sweeping is invisible
  // ---------------------------------------------------------------------------

  /** Idle buckets are full again by the time they may be swept. */
  predicate RefillsWhileIdle(c: Limit) {
    Active(c) ==> Capacity(c) <= Gain(IDLE_TTL, c.rps)
  }

  function ClockAfter(start: real, ops: seq<Op>): real {
    if ops == [] then start
    else if ops[|ops| - 1].Request? then ops[|ops| - 1].now
    else ClockAfter(start, ops[..|ops| - 1])
  }

  predicate Timely(start: real, ops: seq<Op>) {
    ops == [] || (Timely(start, ops[..|ops| - 1])
      && (ops[|ops| - 1].Request? ==> ClockAfter(start, ops[..|ops| - 1]) <= ops[|ops| - 1].now))
  }

  predicate AllRefill(ops: seq<Op>) {
    forall i :: 0 <= i < |ops| && ops[i].Configure? ==> RefillsWhileIdle(ops[i].config)
  }

  /** Buckets hold no negative tokens and were not used in the future. */
  predicate Sane(l: Limiter, clock: real) {
    forall k :: k in l.clients ==> 0.0 <= l.clients[k].tokens && l.clients[k].at <= clock
  }

  /** The sweeping limiter lacks only buckets that have been idle for the whole TTL. */
  predicate Agrees(swept: Limiter, kept: Limiter, clock: real) {
    && swept.config == kept.config
    && swept.clients.Keys <= kept.clients.Keys
    && (forall k :: k in swept.clients ==> swept.clients[k] == kept.clients[k])
    && (forall k :: k in kept.clients && k !in swept.clients ==> kept.clients[k].at + IDLE_TTL < clock)
  }

  lemma IdleIsFull(c: Limit, b: Bucket, now: real)
    requires Active(c) && RefillsWhileIdle(c) && 0.0 <= b.tokens && b.at + IDLE_TTL < now
    ensures Refilled(c, b, now) == Capacity(c)
  {
    ScaleReal(IDLE_TTL, now - b.at, c.rps);
  }

  lemma ScaleReal(x: real, y: real, r: real)
    requires x <= y && r >= 0.0
    ensures Gain(x, r) <= Gain(y, r)
  {}

  lemma SweepAgrees(swept: Limiter, kept: Limiter, now: real)
    requires Agrees(swept, kept, now)
    ensures Agrees(Swept(swept, now), kept, now)
  {}

  lemma SameLevel(swept: Limiter, kept: Limiter, client: string, now: real)
    requires Agrees(swept, kept, now) && Sane(kept, now)
    requires Active(kept.config) && RefillsWhileIdle(kept.config)
    ensures Level(swept.config, swept.clients, client, now) == Level(kept.config, kept.clients, client, now)
  {
    if client in kept.clients && client !in swept.clients {
      IdleIsFull(kept.config, kept.clients[client], now);
    }
  }

  lemma DrawSane(l: Limiter, client: string, clock: real, now: real)
    requires Sane(l, clock) && clock <= now
    ensures Sane(Draw(l, client, now), now)
  {
    if Active(l.config) && client in l.clients {
      RefillRises(l.config, l.clients[client], now);
    }
  }

  lemma RefillRises(c: Limit, b: Bucket, now: real)
    requires Active(c) && 0.0 <= b.tokens && b.at <= now
    ensures 0.0 <= Refilled(c, b, now)
  {
    GainRises(now - b.at, c.rps);
    assert b.tokens + Gain(now - b.at, c.rps) >= 0.0;
  }

  lemma GainRises(elapsed: real, rps: real)
    requires elapsed >= 0.0 && rps >= 0.0
    ensures Gain(elapsed, rps) >= 0.0
  {}

  lemma RequestAgrees(swept: Limiter, kept: Limiter, client: string, clock: real, now: real)
    requires Agrees(swept, kept, clock) && Sane(kept, clock) && clock <= now && RefillsWhileIdle(kept.config)
    ensures var op := Request(client, now);
      && Agrees(Apply(true, swept, op), Apply(false, kept, op), now)
      && Sane(Apply(false, kept, op), now)
      && Admits(Before(true, swept, op), client, now) == Admits(Before(false, kept, op), client, now)
  {
    DrawSane(kept, client, clock, now);
    if Active(kept.config) {
      SweepAgrees(swept, kept, now);
      SameLevel(Swept(swept, now), kept, client, now);
    }
  }

  lemma {:induction false} RunsAgree(start: real, ops: seq<Op>)
    requires Timely(start, ops) && AllRefill(ops)
    ensures Agrees(Run(true, Fresh(start), ops), Run(false, Fresh(start), ops), ClockAfter(start, ops))
    ensures Sane(Run(false, Fresh(start), ops), ClockAfter(start, ops))
    ensures RefillsWhileIdle(Run(false, Fresh(start), ops).config)
  {
    if ops == [] {
    } else {
      var init, op := ops[..|ops| - 1], ops[|ops| - 1];
      RunsAgree(start, init);
      if op.Request? {
        RequestAgrees(Run(true, Fresh(start), init), Run(false, Fresh(start), init),
                      op.client, ClockAfter(start, init), op.now);
      }
    }
  }

  lemma {:induction false} TimelyPrefix(start: real, ops: seq<Op>, n: nat)
    requires Timely(start, ops) && n <= |ops|
    ensures Timely(start, ops[..n])
    decreases |ops|
  {
    if n == |ops| {
      assert ops[..n] == ops;
    } else {
      var init := ops[..|ops| - 1];
      TimelyPrefix(start, init, n);
      assert init[..n] == ops[..n];
    }
  }

  /** On every trace with a non-decreasing clock whose configurations refill while idle,
      the sweeping limiter decides exactly like one that never sweeps. */
  lemma {:induction false} SweepInvisible(start: real, ops: seq<Op>, i: nat)
    requires Timely(start, ops) && AllRefill(ops) && i < |ops|
    ensures Decision(true, Fresh(start), ops, i) == Decision(false, Fresh(start), ops, i)
  {
    TimelyPrefix(start, ops, i);
    TimelyPrefix(start, ops, i + 1);
    var before := ops[..i];
    assert ops[..i + 1][..i] == before;
    RunsAgree(start, before);
    if ops[i].Request? {
      RequestAgrees(Run(true, Fresh(start), before), Run(false, Fresh(start), before),
                    ops[i].client, ClockAfter(start, before), ops[i].now);
    }
  }

  // ---------------------------------------------------------------------------
  // How much a client gets
  // ---------------------------------------------------------------------------

  /** Admitted requests of `client` among the operations from `first` on. */
  function Admitted(sweep: bool, l: Limiter, ops: seq<Op>, first: nat, client: string): nat {
    if |ops| <= first then 0
    else
      var n := |ops| - 1;
      Admitted(sweep, l, ops[..n], first, client)
      + (if ops[n].Request? && ops[n].client == client && Decision(sweep, l, ops, n) then 1 else 0)
  }

  /** Operations from `first` on are requests within [begin, begin + span], or apply the
      configuration `c` again, as every accepted backend set does. */
  predicate Window(ops: seq<Op>, first: nat, begin: real, span: real, c: Limit) {
    forall i :: first <= i < |ops| ==>
      if ops[i].Request? then begin <= ops[i].now <= begin + span else ops[i].config == c
  }

  lemma LevelGrows(c: Limit, clients: map<string, Bucket>, client: string, t: real, now: real)
    requires Active(c) && t <= now
    ensures Level(c, clients, client, now) <= Level(c, clients, client, t) + Gain(now - t, c.rps)
  {
    GainRises(now - t, c.rps);
    if client in clients {
      GainAdds(clients[client].at, t, now, c.rps);
    }
  }

  lemma GainAdds(a: real, b: real, c: real, rps: real)
    ensures Gain(c - a, rps) == Gain(b - a, rps) + Gain(c - b, rps)
  {}

  /** Admissions are paid for: drawing lowers the level by one when it admits. */
  lemma DrawLevel(l: Limiter, drawer: string, client: string, now: real)
    requires Active(l.config)
    ensures Level(l.config, Draw(l, drawer, now).clients, client, now)
         == Level(l.config, l.clients, client, now)
            - (if drawer == client && Admits(l, client, now) then 1.0 else 0.0)
  {
    if drawer == client {
      var level := Level(l.config, l.clients, client, now);
      NoGain(l.config.rps);
      assert level <= Capacity(l.config);
      assert Draw(l, drawer, now).clients[client] == Drawn(level, now);
      assert Refilled(l.config, Drawn(level, now), now) == Drawn(level, now).tokens;
    }
  }

  lemma NoGain(rps: real)
    ensures Gain(0.0, rps) == 0.0
  {}

  /** What was admitted since `begin`, plus what could be drawn now, is within the depth
      plus the refill since then. */
  predicate Paid(c: Limit, clients: map<string, Bucket>, client: string, admitted: int, begin: real, now: real) {
    admitted as real + Level(c, clients, client, now) <= Capacity(c) + Gain(now - begin, c.rps)
  }

  lemma PaidLater(c: Limit, clients: map<string, Bucket>, client: string, admitted: int,
                  begin: real, t: real, now: real)
    requires Active(c) && t <= now && Paid(c, clients, client, admitted, begin, t)
    ensures Paid(c, clients, client, admitted, begin, now)
  {
    LevelGrows(c, clients, client, t, now);
    GainAdds(begin, t, now, c.rps);
  }

  lemma PaidDraw(l: Limiter, drawer: string, client: string, admitted: int, begin: real, now: real)
    requires Active(l.config) && Paid(l.config, l.clients, client, admitted, begin, now)
    ensures var more := if drawer == client && Admits(l, drawer, now) then 1 else 0;
      Paid(l.config, Draw(l, drawer, now).clients, client, admitted + more, begin, now)
  {
    DrawLevel(l, drawer, client, now);
  }

  /** The moment of the window's last request. */
  function NowIn(ops: seq<Op>, first: nat, begin: real): real {
    if |ops| <= first then begin
    else if ops[|ops| - 1].Request? then ops[|ops| - 1].now
    else NowIn(ops[..|ops| - 1], first, begin)
  }

  lemma SweepSane(l: Limiter, clock: real, now: real)
    requires Sane(l, clock)
    ensures Sane(Swept(l, now), clock)
  {}

  /** Buckets of the sweeping limiter stay sane under any configurations. */
  lemma {:induction false} RunSane(start: real, ops: seq<Op>)
    requires Timely(start, ops)
    ensures Sane(Run(true, Fresh(start), ops), ClockAfter(start, ops))
  {
    if ops == [] {
    } else {
      var init, op := ops[..|ops| - 1], ops[|ops| - 1];
      RunSane(start, init);
      if op.Request? {
        var r, clock := Run(true, Fresh(start), init), ClockAfter(start, init);
        SweepSane(r, clock, op.now);
        DrawSane(Before(true, r, op), op.client, clock, op.now);
      }
    }
  }

  /** A sweep leaves every level as it is when idle buckets are full. */
  lemma SweepKeepsLevel(l: Limiter, client: string, clock: real, now: real)
    requires Active(l.config) && RefillsWhileIdle(l.config) && Sane(l, clock) && clock <= now
    ensures Swept(l, now).config == l.config
    ensures Level(l.config, Swept(l, now).clients, client, now) == Level(l.config, l.clients, client, now)
  {
    if client in l.clients && client !in Swept(l, now).clients { IdleIsFull(l.config, l.clients[client], now); }
  }

  /** One request of the sweeping limiter, paid for. */
  lemma PaidRequest(l: Limiter, drawer: string, client: string, admitted: int,
                    begin: real, clock: real, t: real, now: real)
    requires Active(l.config) && RefillsWhileIdle(l.config) && Sane(l, clock) && clock <= now && t <= now
    requires Paid(l.config, l.clients, client, admitted, begin, t)
    ensures var more := if drawer == client && Admits(Before(true, l, Request(drawer, now)), drawer, now) then 1 else 0;
      var after := Apply(true, l, Request(drawer, now));
      after.config == l.config && Paid(l.config, after.clients, client, admitted + more, begin, now)
  {
    PaidLater(l.config, l.clients, client, admitted, begin, t, now);
    SweepKeepsLevel(l, client, clock, now);
    PaidDraw(Swept(l, now), drawer, client, admitted, begin, now);
  }

  lemma {:induction false} WindowPaid(ops: seq<Op>, first: nat, start: real, begin: real, span: real,
                                      client: string, c: Limit)
    requires Timely(start, ops) && first <= |ops| && Window(ops, first, begin, span, c) && span >= 0.0
    requires c == Run(true, Fresh(start), ops[..first]).config && Active(c) && RefillsWhileIdle(c)
    ensures begin <= NowIn(ops, first, begin) <= begin + span
    ensures Run(true, Fresh(start), ops).config == c
    ensures NowIn(ops, first, begin) == ClockAfter(start, ops)
      || (NowIn(ops, first, begin) == begin && Admitted(true, Fresh(start), ops, first, client) == 0)
    ensures Paid(c, Run(true, Fresh(start), ops).clients, client, Admitted(true, Fresh(start), ops, first, client),
                 begin, NowIn(ops, first, begin))
    decreases |ops|
  {
    if first == |ops| {
      assert ops[..first] == ops;
      assert Gain(begin - begin, c.rps) == 0.0;
    } else {
      var n := |ops| - 1;
      var init := ops[..n];
      assert init[..first] == ops[..first];
      WindowPaid(init, first, start, begin, span, client, c);
      var p, admitted := Run(true, Fresh(start), init), Admitted(true, Fresh(start), init, first, client);
      if ops[n].Request? {
        assert begin <= ops[n].now;
        RunSane(start, init);
        PaidRequest(p, ops[n].client, client, admitted, begin, ClockAfter(start, init), NowIn(init, first, begin),
                    ops[n].now);
      } else {
        assert Apply(true, p, ops[n]) == p;
      }
    }
  }

  /** The level of a sane bucket is never negative. */
  lemma LevelNonNegative(l: Limiter, client: string, clock: real, now: real)
    requires Sane(l, clock) && clock <= now && Active(l.config)
    ensures Level(l.config, l.clients, client, now) >= 0.0
  {
    if client in l.clients { RefillRises(l.config, l.clients[client], now); }
  }

  lemma {:induction false} PaidBound(start: real, ops: seq<Op>, first: nat, begin: real, span: real,
                                     client: string, c: Limit)
    requires Timely(start, ops) && first <= |ops| && Window(ops, first, begin, span, c) && span >= 0.0
    requires c == Run(true, Fresh(start), ops[..first]).config && Active(c) && RefillsWhileIdle(c)
    ensures Admitted(true, Fresh(start), ops, first, client) as real <= Capacity(c) + Gain(span, c.rps)
  {
    var now, r := NowIn(ops, first, begin), Run(true, Fresh(start), ops);
    WindowPaid(ops, first, start, begin, span, client, c);
    if now == ClockAfter(start, ops) {
      assert Level(c, r.clients, client, now) >= 0.0 by {
        RunSane(start, ops);
        LevelNonNegative(r, client, now, now);
      }
      ScaleReal(now - begin, span, c.rps);
      assert Gain(now - begin, c.rps) <= Gain(span, c.rps);
    } else {
      GainRises(span, c.rps);
    }
  }

  /** Under one configuration that refills while idle, whatever was configured before it, in
      any interval of length `span` a client is admitted at most depth + rps * span times. */
  lemma AdmissionBound(start: real, ops: seq<Op>, first: nat, begin: real, span: real, client: string, c: Limit)
    requires Timely(start, ops) && first <= |ops| && Window(ops, first, begin, span, c) && span >= 0.0
    requires c == Run(true, Fresh(start), ops[..first]).config && Active(c) && RefillsWhileIdle(c)
    ensures var depth := if c.burst > 0 then c.burst else if c.rps < 1.0 then 1 else c.rps.Floor;
      Admitted(true, Fresh(start), ops, first, client) as real <= depth as real + c.rps * span
  {
    PaidBound(start, ops, first, begin, span, client, c);
    BoundIs(c, Admitted(true, Fresh(start), ops, first, client), span);
  }

  lemma BoundIs(c: Limit, admitted: int, span: real)
    requires admitted as real <= Capacity(c) + Gain(span, c.rps)
    ensures var depth := if c.burst > 0 then c.burst else if c.rps < 1.0 then 1 else c.rps.Floor;
      admitted as real <= depth as real + c.rps * span
  {
    CapacityIs(c);
    GainIs(span, c.rps);
  }

  lemma CapacityIs(c: Limit)
    ensures Capacity(c) == (if c.burst > 0 then c.burst else if c.rps < 1.0 then 1 else c.rps.Floor) as real
  {}

  lemma GainIs(elapsed: real, rps: real)
    ensures Gain(elapsed, rps) == rps * elapsed
  {}

  // ---------------------------------------------------------------------------
  // ... and visible otherwise
  // ---------------------------------------------------------------------------

  /** `n` requests of one client at one moment. */
  function Burst(client: string, now: real, n: nat): (ops: seq<Op>)
    ensures |ops| == n && forall i :: 0 <= i < n ==> ops[i] == Request(client, now)
  {
    seq(n, _ => Request(client, now))
  }

  lemma {:induction false} RunAppend(sweep: bool, l: Limiter, a: seq<Op>, b: seq<Op>)
    ensures Run(sweep, l, a + b) == Run(sweep, Run(sweep, l, a), b)
  {
    if b == [] {
      assert a + b == a;
    } else {
      RunAppend(sweep, l, a, b[..|b| - 1]);
      assert (a + b)[..|a + b| - 1] == a + b[..|b| - 1];
    }
  }

  lemma BurstSnoc(client: string, now: real, n: nat)
    requires n > 0
    ensures Burst(client, now, n)[..n - 1] == Burst(client, now, n - 1)
  {}

  /** The level left by `n` requests at one moment. */
  function Drained(level: real, n: nat): real {
    if n == 0 then level
    else
      var before := Drained(level, n - 1);
      if before >= 1.0 then before - 1.0 else before
  }

  lemma {:induction false} DrainedWhole(depth: nat, n: nat)
    requires n <= depth
    ensures Drained(depth as real, n) == (depth - n) as real
  {
    if n == 0 {
    } else {
      DrainedWhole(depth, n - 1);
    }
  }

  lemma {:induction false} DrainedShort(level: real, depth: nat, n: nat)
    requires level < depth as real && n < depth
    ensures Drained(level, n) < 1.0 || Drained(level, n) < (depth - n) as real
  {
    if n == 0 {
    } else {
      DrainedShort(level, depth, n - 1);
    }
  }

  /** A burst without a sweep in it drains the client's level. */
  lemma {:induction false} AfterBurst(sweep: bool, l: Limiter, client: string, now: real, n: nat)
    requires Active(l.config) && (sweep ==> now - l.lastKeep < SWEEP_INTERVAL)
    ensures var r := Run(sweep, l, Burst(client, now, n));
      && r.config == l.config && r.lastKeep == l.lastKeep
      && Level(r.config, r.clients, client, now) == Drained(Level(l.config, l.clients, client, now), n)
      && (n > 0 ==>
            && client in r.clients
            && r.clients[client] == Bucket(Drained(Level(l.config, l.clients, client, now), n), now))
  {
    if n == 0 {
    } else {
      BurstSnoc(client, now, n);
      AfterBurst(sweep, l, client, now, n - 1);
      DrawLevel(Run(sweep, l, Burst(client, now, n - 1)), client, client, now);
    }
  }

  /** A sweep at the burst's moment happens before its first request. */
  lemma {:induction false} SweepFirst(l: Limiter, client: string, now: real, n: nat)
    requires Active(l.config)
    ensures Before(true, Run(true, l, Burst(client, now, n)), Request(client, now))
         == Run(true, Swept(l, now), Burst(client, now, n))
    ensures Run(true, l, Burst(client, now, n)).config == l.config
  {
    if n == 0 {
    } else {
      BurstSnoc(client, now, n);
      SweepFirst(l, client, now, n - 1);
      AfterBurst(true, Swept(l, now), client, now, n - 1);
      AfterBurst(true, Swept(l, now), client, now, n);
    }
  }

  /** A configuration, a burst that empties the bucket, and another after an idle spell. */
  function TwoBursts(c: Limit, start: real, later: real): seq<Op> {
    [Configure(c)] + Burst("a", start, Depth(c)) + Burst("a", later, Depth(c))
  }

  lemma {:induction false} BurstTimely(start: real, ops: seq<Op>, client: string, now: real, n: nat)
    requires Timely(start, ops) && ClockAfter(start, ops) <= now
    ensures Timely(start, ops + Burst(client, now, n))
    ensures n > 0 ==> ClockAfter(start, ops + Burst(client, now, n)) == now
  {
    if n == 0 {
      assert ops + Burst(client, now, 0) == ops;
    } else {
      var all := ops + Burst(client, now, n);
      BurstTimely(start, ops, client, now, n - 1);
      BurstSnoc(client, now, n);
      assert all[..|all| - 1] == ops + Burst(client, now, n - 1);
    }
  }

  lemma TwoBurstsTimely(c: Limit, start: real, later: real)
    requires start <= later
    ensures Timely(start, TwoBursts(c, start, later))
  {
    assert [Configure(c)][..0] == [];
    assert Timely(start, [Configure(c)]);
    BurstTimely(start, [Configure(c)], "a", start, Depth(c));
    BurstTimely(start, [Configure(c)] + Burst("a", start, Depth(c)), "a", later, Depth(c));
  }

  /** The state before the last request of the second burst. */
  lemma BeforeLast(sweep: bool, c: Limit, start: real, later: real)
    ensures var ops := TwoBursts(c, start, later);
      var first := Run(sweep, Limiter(c, map[], start), Burst("a", start, Depth(c)));
      c != Fresh(start).config ==>
        Run(sweep, Fresh(start), ops[..2 * Depth(c)]) == Run(sweep, first, Burst("a", later, Depth(c) - 1))
  {
    var d := Depth(c);
    var ops := TwoBursts(c, start, later);
    assert ops[..2 * d] == [Configure(c)] + (Burst("a", start, d) + Burst("a", later, d - 1));
    RunAppend(sweep, Fresh(start), [Configure(c)], Burst("a", start, d) + Burst("a", later, d - 1));
    assert [Configure(c)][..0] == [];
    if c != Fresh(start).config {
      assert Run(sweep, Fresh(start), [Configure(c)]) == Limiter(c, map[], start);
      RunAppend(sweep, Limiter(c, map[], start), Burst("a", start, d), Burst("a", later, d - 1));
    }
  }

  lemma KeptDenies(c: Limit, start: real, later: real)
    requires Active(c) && start <= later && Gain(later - start, c.rps) < Capacity(c)
    ensures !Decision(false, Fresh(start), TwoBursts(c, start, later), 2 * Depth(c))
  {
    var d := Depth(c);
    var empty := Limiter(c, map[], start);
    var first := Run(false, empty, Burst("a", start, d));
    BeforeLast(false, c, start, later);
    assert first.config == c && "a" in first.clients && first.clients["a"] == Bucket(0.0, start) by {
      AfterBurst(false, empty, "a", start, d);
      DrainedWhole(d, d);
    }
    assert Level(c, first.clients, "a", later) == Gain(later - start, c.rps);
    AfterBurst(false, first, "a", later, d - 1);
    DrainedShort(Gain(later - start, c.rps), d, d - 1);
  }

  lemma SweptAdmits(c: Limit, start: real, later: real)
    requires Active(c) && start + IDLE_TTL < later
    ensures Decision(true, Fresh(start), TwoBursts(c, start, later), 2 * Depth(c))
  {
    var d := Depth(c);
    var empty := Limiter(c, map[], start);
    var first := Run(true, empty, Burst("a", start, d));
    BeforeLast(true, c, start, later);
    AfterBurst(true, empty, "a", start, d);
    assert "a" !in Swept(first, later).clients;
    SweepFirst(first, "a", later, d - 1);
    AfterBurst(true, Swept(first, later), "a", later, d - 1);
    DrainedWhole(d, d - 1);
  }

  lemma MiddleOf(depth: real, rps: real) returns (elapsed: real)
    requires rps > 0.0 && Gain(IDLE_TTL, rps) < depth
    ensures IDLE_TTL < elapsed && Gain(elapsed, rps) < depth
  {
    var slack := depth - Gain(IDLE_TTL, rps);
    elapsed := IDLE_TTL + slack / (2.0 * rps);
    assert slack / (2.0 * rps) * rps == slack / 2.0;
  }

  predicate OnlyConfigures(ops: seq<Op>, c: Limit) {
    forall j :: 0 <= j < |ops| && ops[j].Configure? ==> ops[j].config == c
  }

  ghost predicate InvisibleFor(c: Limit) {
    forall start: real, ops: seq<Op>, i: nat ::
      Timely(start, ops) && i < |ops| && OnlyConfigures(ops, c) ==>
        Decision(true, Fresh(start), ops, i) == Decision(false, Fresh(start), ops, i)
  }

  /** Sweeping is invisible for a configuration on every trace if and only if an idle
      bucket is full again by the time it may be swept. */
  lemma SweepInvisibleIff(c: Limit)
    ensures InvisibleFor(c) <==> RefillsWhileIdle(c)
  {
    if RefillsWhileIdle(c) {
      forall start: real, ops: seq<Op>, i: nat | Timely(start, ops) && i < |ops| && OnlyConfigures(ops, c)
        ensures Decision(true, Fresh(start), ops, i) == Decision(false, Fresh(start), ops, i)
      {
        SweepInvisible(start, ops, i);
      }
    } else {
      var elapsed := MiddleOf(Capacity(c), c.rps);
      var ops := TwoBursts(c, 0.0, elapsed);
      TwoBurstsTimely(c, 0.0, elapsed);
      KeptDenies(c, 0.0, elapsed);
      SweptAdmits(c, 0.0, elapsed);
      assert OnlyConfigures(ops, c);
      assert Decision(true, Fresh(0.0), ops, 2 * Depth(c)) != Decision(false, Fresh(0.0), ops, 2 * Depth(c));
    }
  }

  /** `n` requests at one moment take whole tokens while there are any. */
  lemma {:induction false} DrainedIs(level: real, n: nat)
    requires level >= 0.0
    ensures Drained(level, n) == level - (if n <= level.Floor then n else level.Floor) as real
  {
    if n == 0 {
    } else {
      DrainedIs(level, n - 1);
    }
  }

  /** The client can draw from `level` at `now`, after any sweep due. */
  predicate Covers(r: Limiter, client: string, now: real, level: real) {
    Active(r.config) && level >= 0.0 && Level(r.config, Swept(r, now).clients, client, now) == level
  }

  /** After `n` requests at one moment, one more is admitted exactly when a token is left. */
  lemma NextAdmittedIff(r: Limiter, client: string, now: real, level: real, n: nat)
    requires Covers(r, client, now, level)
    ensures Admits(Before(true, Run(true, r, Burst(client, now, n)), Request(client, now)), client, now)
            <==> n < level.Floor
  {
    SweepFirst(r, client, now, n);
    AfterBurst(true, Swept(r, now), client, now, n);
    DrainedIs(level, n);
  }

  lemma AdmittedSnoc(l: Limiter, ops: seq<Op>, first: nat, client: string)
    requires first < |ops| && ops[|ops| - 1].Request? && ops[|ops| - 1].client == client
    ensures Admitted(true, l, ops, first, client) == Admitted(true, l, ops[..|ops| - 1], first, client)
      + if Decision(true, l, ops, |ops| - 1) then 1 else 0
  {}

  lemma AdmittedNext(l: Limiter, pre: seq<Op>, first: nat, client: string, now: real, level: real, n: nat)
    requires first <= |pre| && Covers(Run(true, l, pre), client, now, level)
    ensures Admitted(true, l, pre + Burst(client, now, n + 1), first, client)
         == Admitted(true, l, pre + Burst(client, now, n), first, client) + if n < level.Floor then 1 else 0
  {
    var all, init := pre + Burst(client, now, n + 1), pre + Burst(client, now, n);
    BurstSnoc(client, now, n + 1);
    assert all[..|all| - 1] == init && all[|all| - 1] == Request(client, now);
    assert Decision(true, l, all, |all| - 1) <==> n < level.Floor by {
      assert Run(true, l, init) == Run(true, Run(true, l, pre), Burst(client, now, n)) by {
        RunAppend(true, l, pre, Burst(client, now, n));
      }
      NextAdmittedIff(Run(true, l, pre), client, now, level, n);
    }
    AdmittedSnoc(l, all, first, client);
  }

  /** Of `n` requests at one moment as many are admitted as there are whole tokens. */
  lemma {:induction false} AdmittedBurst(l: Limiter, pre: seq<Op>, first: nat, client: string, now: real,
                                         level: real, n: nat)
    requires first <= |pre| && Covers(Run(true, l, pre), client, now, level)
    ensures Admitted(true, l, pre + Burst(client, now, n), first, client)
         == Admitted(true, l, pre, first, client) + Least(n, level.Floor)
  {
    if n == 0 {
      assert pre + Burst(client, now, 0) == pre;
    } else {
      AdmittedBurst(l, pre, first, client, now, level, n - 1);
      assert Admitted(true, l, pre + Burst(client, now, n), first, client)
          == Admitted(true, l, pre + Burst(client, now, n - 1), first, client) + (if n - 1 < level.Floor then 1 else 0)
      by {
        AdmittedNext(l, pre, first, client, now, level, n - 1);
      }
      LeastNext(n - 1, level.Floor);
    }
  }

  function Least(n: int, k: int): int { if n <= k then n else k }

  lemma LeastNext(n: nat, k: int)
    ensures Least(n + 1, k) == Least(n, k) + if n < k then 1 else 0
  {}

  lemma BurstAlone(l: Limiter, client: string, now: real, level: real, n: nat)
    requires Covers(l, client, now, level)
    ensures Admitted(true, l, Burst(client, now, n), 0, client) == if n <= level.Floor then n else level.Floor
  {
    assert [] + Burst(client, now, n) == Burst(client, now, n);
    AdmittedBurst(l, [], 0, client, now, level, n);
  }

  /** A client without a bucket gets the configured burst at once: of `n` requests at one
      moment exactly that many, or max(1, floor(rps)) when no burst is configured. */
  lemma NewClientBurst(l: Limiter, client: string, now: real, n: nat)
    requires Active(l.config) && client !in l.clients
    ensures var c := l.config;
      var depth := if c.burst > 0 then c.burst else if c.rps < 1.0 then 1 else c.rps.Floor;
      Admitted(true, l, Burst(client, now, n), 0, client) == if n <= depth then n else depth
  {
    BurstAlone(l, client, now, Capacity(l.config), n);
  }

  /** A changed limit starts every client afresh, and a repeated one changes nothing. */
  lemma NewLimitStartsFull(l: Limiter, c: Limit, client: string, now: real, n: nat)
    requires Active(c)
    ensures Apply(true, l, Configure(l.config)) == l
    ensures var depth := if c.burst > 0 then c.burst else if c.rps < 1.0 then 1 else c.rps.Floor;
      var admitted := Admitted(true, Apply(true, l, Configure(c)), Burst(client, now, n), 0, client);
      c != l.config ==> admitted == if n <= depth then n else depth
  {
    if c != l.config { NewClientBurst(Apply(true, l, Configure(c)), client, now, n); }
  }

  /** An empty bucket refills at the configured rate: after `now - at` seconds, short of a
      sweep, `n` requests get as many whole tokens as rps * (now - at) makes, up to the burst. */
  lemma RefilledBurst(l: Limiter, client: string, at: real, now: real, n: nat)
    requires Active(l.config) && client in l.clients && l.clients[client] == Bucket(0.0, at)
    requires at <= now <= at + 600.0
    ensures var c := l.config;
      var depth := if c.burst > 0 then c.burst else if c.rps < 1.0 then 1 else c.rps.Floor;
      var earned := c.rps * (now - at);
      var tokens := if earned <= depth as real then earned.Floor else depth;
      Admitted(true, l, Burst(client, now, n), 0, client) == if n <= tokens then n else tokens
  {
    var c, earned := l.config, l.config.rps * (now - at);
    GainRises(now - at, c.rps);
    GainIs(now - at, c.rps);
    CapacityIs(c);
    RefilledTokens(l, client, at, now, earned, n);
  }

  lemma RefilledTokens(l: Limiter, client: string, at: real, now: real, earned: real, n: nat)
    requires Active(l.config) && client in l.clients && l.clients[client] == Bucket(0.0, at)
    requires at <= now <= at + 600.0 && earned == Gain(now - at, l.config.rps) && earned >= 0.0
    ensures var tokens := if earned <= Capacity(l.config) then earned.Floor else Depth(l.config);
      Admitted(true, l, Burst(client, now, n), 0, client) == if n <= tokens then n else tokens
  {
    var level := if earned <= Capacity(l.config) then earned else Capacity(l.config);
    assert Refilled(l.config, l.clients[client], now) == level;
    BurstAlone(l, client, now, level, n);
  }

  /** A sweep is due after a minute, and discards exactly what was idle for over ten. */
  lemma SweepDiscardsIdle(l: Limiter, now: real, client: string)
    ensures now - l.lastKeep < 60.0 ==> Swept(l, now) == l
    ensures now - l.lastKeep >= 60.0 ==>
      && Swept(l, now).lastKeep == now && Swept(l, now).config == l.config
      && (client in Swept(l, now).clients <==> client in l.clients && now - l.clients[client].at <= 600.0)
      && (client in Swept(l, now).clients ==> Swept(l, now).clients[client] == l.clients[client])
  {}

  /** The sweeping limiter admits both bursts whole when the bucket was swept in between. */
  lemma BothBurstsAdmitted(c: Limit, start: real, later: real)
    requires Active(c) && start + IDLE_TTL < later
    ensures Admitted(true, Fresh(start), TwoBursts(c, start, later), 1, "a") == 2 * Depth(c)
  {
    var d, l, one := Depth(c), Fresh(start), [Configure(c)];
    var empty := Limiter(c, map[], start);
    assert one[..0] == [] && Run(true, l, one) == empty;
    AdmittedBurst(l, one, 1, "a", start, d as real, d);
    var two := one + Burst("a", start, d);
    var first := Run(true, l, two);
    assert first == Run(true, empty, Burst("a", start, d)) by { RunAppend(true, l, one, Burst("a", start, d)); }
    AfterBurst(true, empty, "a", start, d);
    assert "a" !in Swept(first, later).clients;
    AdmittedBurst(l, two, 1, "a", later, d as real, d);
  }

  /** The bound of AdmissionBound on every trace. */
  ghost predicate Bounded(c: Limit) {
    forall start: real, ops: seq<Op>, first: nat, begin: real, span: real, client: string ::
      Timely(start, ops) && first <= |ops| && Window(ops, first, begin, span, c) && span >= 0.0
      && c == Run(true, Fresh(start), ops[..first]).config ==>
        Admitted(true, Fresh(start), ops, first, client) as real <= Capacity(c) + Gain(span, c.rps)
  }

  /** A limit bounds what a client gets, on every trace, if and only if an idle bucket is full
      again by the time it may be swept. */
  lemma AdmissionBoundIff(c: Limit)
    requires Active(c)
    ensures var depth := if c.burst > 0 then c.burst else if c.rps < 1.0 then 1 else c.rps.Floor;
      Bounded(c) <==> depth as real <= 600.0 * c.rps
  {
    CapacityIs(c);
    GainIs(IDLE_TTL, c.rps);
    if RefillsWhileIdle(c) {
      forall start: real, ops: seq<Op>, first: nat, begin: real, span: real, client: string
        | Timely(start, ops) && first <= |ops| && Window(ops, first, begin, span, c) && span >= 0.0
          && c == Run(true, Fresh(start), ops[..first]).config
        ensures Admitted(true, Fresh(start), ops, first, client) as real <= Capacity(c) + Gain(span, c.rps)
      {
        PaidBound(start, ops, first, begin, span, client, c);
      }
    } else {
      var elapsed := MiddleOf(Capacity(c), c.rps);
      var ops := TwoBursts(c, 0.0, elapsed);
      TwoBurstsTimely(c, 0.0, elapsed);
      BothBurstsAdmitted(c, 0.0, elapsed);
      assert ops[..1] == [Configure(c)] && [Configure(c)][..0] == [];
      assert Run(true, Fresh(0.0), ops[..1]).config == c;
      assert Window(ops, 1, 0.0, elapsed, c);
      assert !(Admitted(true, Fresh(0.0), ops, 1, "a") as real <= Capacity(c) + Gain(elapsed, c.rps));
    }
  }

  // ---------------------------------------------------------------------------
  // The limiter object
  // ---------------------------------------------------------------------------

  class GroupRateLimiter {
    var config: Limit
    var clients: map<string, Bucket>
    var lastKeep: real

    constructor (now: real)
      ensures View() == Fresh(now)
    {
      config, clients, lastKeep := Limit(false, 0.0, 0), map[], now;
    }

    ghost function View(): Limiter
      reads this
    {
      Limiter(config, clients, lastKeep)
    }

    method SetConfig(c: Limit)
      modifies this
      ensures View() == Apply(true, old(View()), Configure(c))
    {
      if c == config {
        return;
      }
      config := c;
      clients := map[];
    }

    method Allow(client: string, now: real) returns (allowed: bool)
      modifies this
      ensures allowed == Admits(Before(true, old(View()), Request(client, now)), client, now)
      ensures View() == Apply(true, old(View()), Request(client, now))
    {
      if !config.enabled || config.rps <= 0.0 {
        return true;
      }
      Sweep(now);
      var level := Capacity(config);
      if client in clients {
        level := Refilled(config, clients[client], now);
      }
      allowed := level >= 1.0;
      clients := clients[client := Drawn(level, now)];
    }

    method Sweep(now: real)
      modifies this
      ensures View() == Swept(old(View()), now)
    {
      if now - lastKeep < SWEEP_INTERVAL {
        return;
      }
      lastKeep := now;
      var rest := clients.Keys;
      while rest != {}
        invariant rest <= old(clients).Keys
        invariant config == old(config) && lastKeep == now
        invariant clients == map k | k in old(clients)
            && (k in rest || now - old(clients)[k].at <= IDLE_TTL) :: old(clients)[k]
      {
        var k :| k in rest;
        rest := rest - {k};
        if now - clients[k].at > IDLE_TTL {
          clients := clients - {k};
        }
      }
    }
  }
}
