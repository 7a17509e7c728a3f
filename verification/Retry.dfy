/** The proxy's retry loop over a backend list. */
module Retry {
  import opened Wire
  import opened Text
  import opened Backends
  import opened Selection
  import opened HashRing
  import opened BackendRuns
  import opened BackendLists
  import opened RetryWriters
  import opened Accounting

  datatype Request = Request(
    method': string,
    hasBody: bool,
    contentLength: int,
    connection: seq<string>,
    upgrade: string,
    clientIP: string,
    cookies: map<string, string>)

  // ---------------------------------------------------------------------------
  // Which requests may be repeated
  // ---------------------------------------------------------------------------

  /** Letter case is ignored; none of the letters of "upgrade" has a fold outside ASCII. */
  predicate IsUpgradeToken(token: string) {
    var t := Trim(token);
    |t| == 7 && forall i :: 0 <= i < 7 ==> t[i] == "upgrade"[i] || t[i] == "UPGRADE"[i]
  }

  ghost predicate AsksUpgrade(connection: seq<string>) {
    exists i, j :: 0 <= i < |connection| && 0 <= j < |Split(connection[i], ',')|
                   && IsUpgradeToken(Split(connection[i], ',')[j])
  }

  method HasUpgradeToken(value: string) returns (found: bool)
    ensures found <==> exists j :: 0 <= j < |Split(value, ',')| && IsUpgradeToken(Split(value, ',')[j])
  {
    var tokens := Split(value, ',');
    for j := 0 to |tokens|
      invariant forall k :: 0 <= k < j ==> !IsUpgradeToken(tokens[k])
    {
      if IsUpgradeToken(tokens[j]) {
        assert tokens[j] == Split(value, ',')[j];
        return true;
      }
    }
    return false;
  }

  method RequestIsUpgrade(r: Request) returns (upgrade: bool)
    ensures upgrade <==> AsksUpgrade(r.connection) && r.upgrade != ""
  {
    for i := 0 to |r.connection|
      invariant forall k, j :: 0 <= k < i && 0 <= j < |Split(r.connection[k], ',')| ==>
        !IsUpgradeToken(Split(r.connection[k], ',')[j])
    {
      var found := HasUpgradeToken(r.connection[i]);
      if found {
        return r.upgrade != "";
      }
    }
    return false;
  }

  /** The safe methods of section 9.2.1 of RFC 9110. */
  const SAFE_METHODS: set<string> := {"GET", "HEAD", "OPTIONS", "TRACE"}

  ghost predicate Repeatable(r: Request) {
    && r.method' in SAFE_METHODS
    && !(r.hasBody && r.contentLength != 0)
    && !(AsksUpgrade(r.connection) && r.upgrade != "")
  }

  /** In full: GET, HEAD, OPTIONS or TRACE, without a body, and not asking to switch protocols
      by a Connection token "upgrade" in any letter case together with an Upgrade header. */
  lemma RepeatableIff(r: Request)
    ensures Repeatable(r) <==>
      && (r.method' == "GET" || r.method' == "HEAD" || r.method' == "OPTIONS" || r.method' == "TRACE")
      && (!r.hasBody || r.contentLength == 0)
      && (r.upgrade == "" || !AsksUpgrade(r.connection))
  {}

  /** The token may be in any letter case, among others, and with space around it. */
  lemma UpgradeTokens()
    ensures IsUpgradeToken("upgrade") && IsUpgradeToken("Upgrade") && IsUpgradeToken("UPGRADE")
    ensures !IsUpgradeToken("keep-alive") && !IsUpgradeToken("")
  {
    TrimTrimmed("upgrade");
    TrimTrimmed("Upgrade");
    TrimTrimmed("UPGRADE");
    TrimTrimmed("keep-alive");
  }

  method RequestRetryable(r: Request) returns (retryable: bool)
    ensures retryable <==> Repeatable(r)
  {
    var upgrade := RequestIsUpgrade(r);
    if upgrade {
      return false;
    }
    if r.hasBody && r.contentLength != 0 {
      return false;
    }
    return r.method' == "GET" || r.method' == "HEAD" || r.method' == "OPTIONS" || r.method' == "TRACE";
  }

  // ---------------------------------------------------------------------------
  // One attempt
  // ---------------------------------------------------------------------------

  /** What the outside world contributes to one attempt: random draws, clock readings, the
      upstream's calls on the response writer, its status, whether the connection failed,
      and whether the client was gone during the backoff that followed. */
  datatype Attempt = Attempt(
    d1: nat, d2: nat,
    pinAt: int, t0: int, t1: int, t2: int,
    calls: seq<Call>, status: int, failed: bool,
    r1: int, r2: int, r3: int,
    cancelled: bool)

  function CookieName(s: Sticky): string {
    if s.cookieName == "" then "jb_affinity" else s.cookieName
  }

  /** The backend the client's affinity cookie names, if that counts. */
  function Affinity(s: Sticky, r: Request): Option<string> {
    var name := CookieName(s);
    if s.enabled && name in r.cookies && r.cookies[name] != "" then Some(r.cookies[name]) else None
  }

  /** A client's cookie is looked for under the group's cookie name, "jb_affinity" by default,
      and only while sticky sessions are on. */
  lemma AffinityIs(s: Sticky, r: Request)
    ensures !s.enabled ==> Affinity(s, r) == None
    ensures var name := if s.cookieName != "" then s.cookieName else "jb_affinity";
      var named := if name in r.cookies && r.cookies[name] != "" then Some(r.cookies[name]) else None;
      s.enabled ==> Affinity(s, r) == named
  {}

  predicate Pins(s: State, r: Request, a: Attempt) {
    Affinity(s.sticky, r).Some? && Pinnable(s, Affinity(s.sticky, r).value, a.pinAt)
  }

  /** Entry `i` of `s`, after the lazy refresh, is a choice of the group's algorithm and
      `s'` counts the request on it. */
  ghost predicate Balanced(hash: Hasher, s: State, key: string, a: Attempt, i: nat, s': State) {
    var r := Refresh(s, a.t0, a.t1, a.t2);
    && r.slots != [] && InBounds(r.entries, r.slots) && r.next >= 0
    && i < |r.entries| && MayPick(hash, r, key, i) && s' == Picked(r, key, i)
  }

  method SelectBackend(r: Request, list: BackendList, a: Attempt) returns (chosen: Option<string>)
    requires list.Valid()
    modifies list
    ensures list.Valid()
    ensures var s := old(list.View());
      && (Pins(s, r, a) ==> chosen == Affinity(s.sticky, r) && list.View() == PinTo(s, chosen.value, a.pinAt))
      && (!Pins(s, r, a) && chosen.Some? ==>
            exists i: nat :: Balanced(list.hash, s, r.clientIP, a, i, list.View())
                        && list.View().entries[i].address == chosen.value)
      && (chosen.None? ==> list.View() == Refresh(s, a.t0, a.t1, a.t2) && list.slots == [])
  {
    ghost var s := list.View();
    if list.sticky.enabled {
      var name := CookieName(list.sticky);
      if name in r.cookies && r.cookies[name] != "" {
        var pinned := list.PinTo(r.cookies[name], a.pinAt);
        if pinned {
          return Some(r.cookies[name]);
        }
      }
    }
    assert list.View() == s;
    var picked := list.NextForKey(r.clientIP, a.d1, a.d2, a.t0, a.t1, a.t2);
    if picked.None? {
      return None;
    }
    assert Balanced(list.hash, s, r.clientIP, a, picked.value, list.View());
    return Some(list.entries[picked.value].address);
  }

  function Answer(sent: Response, calls: seq<Call>, buffered: bool): Response {
    if buffered then Flush(HoldAll(EMPTY, calls), sent) else PutAll(sent, calls)
  }

  method ServeOnce(w: ClientWriter, list: BackendList, address: string, a: Attempt, buffered: bool)
    returns (status: int, failed: bool)
    requires list.Valid()
    modifies w, list
    ensures list.Valid()
    ensures list.View() == Backends.Release(
      Backends.RecordResult(old(list.View()), address, !a.failed && a.status < 500, a.r1, a.r2, a.r3), address)
    ensures status == a.status && failed == a.failed
    ensures w.sent == if buffered && a.failed then old(w.sent) else Answer(old(w.sent), a.calls, buffered)
  {
    status, failed := a.status, a.failed;
    if buffered {
      var rw := new RetryResponseWriter();
      rw.Serve(a.calls);
      list.RecordResult(address, !failed && status < 500, a.r1, a.r2, a.r3);
      if !failed {
        rw.FlushTo(w);
      }
    } else {
      w.Serve(a.calls);
      list.RecordResult(address, !failed && status < 500, a.r1, a.r2, a.r3);
    }
    list.Release(address);
  }

  // ---------------------------------------------------------------------------
  // The counts over one attempt
  // ---------------------------------------------------------------------------

  /** Same addresses, each with the same number of requests in flight. */
  ghost predicate SameConns(a: seq<Entry>, b: seq<Entry>) {
    forall address :: ConnsOf(a, address) == ConnsOf(b, address)
  }

  ghost predicate Countable(s: State) {
    DistinctEntries(s.entries) && Sound(s)
  }

  /** `s'` is `s` with one more request counted on `chosen`, which it lists. */
  ghost predicate OneMore(s: State, s': State, chosen: string) {
    && DistinctEntries(s'.entries)
    && ConnsOf(s.entries, chosen).Some?
    && forall address :: ConnsOf(s'.entries, address)
         == if address == chosen then Some(ConnsOf(s.entries, chosen).value + 1) else ConnsOf(s.entries, address)
  }

  lemma PinCounts(s: State, address: string, now: int)
    requires DistinctEntries(s.entries) && Pinnable(s, address, now)
    ensures OneMore(s, PinTo(s, address, now), address)
  {
    var i := IndexOf(s.entries, address);
    forall a ensures DistinctEntries(Increment(s, i).entries)
      && ConnsOf(Increment(s, i).entries, a)
        == if a == address then Some(s.entries[i].activeConns + 1) else ConnsOf(s.entries, a)
    {
      IncrementConns(s, i, a);
    }
    IncrementConns(s, i, address);
  }

  lemma BalancedCounts(hash: Hasher, s: State, key: string, a: Attempt, i: nat, s': State)
    requires DistinctEntries(s.entries) && Balanced(hash, s, key, a, i, s')
    ensures OneMore(s, s', s'.entries[i].address)
  {
    var address := s.entries[i].address;
    assert s'.entries == Increment(s, i).entries;
    forall b ensures DistinctEntries(Increment(s, i).entries)
      && ConnsOf(Increment(s, i).entries, b)
        == if b == address then Some(s.entries[i].activeConns + 1) else ConnsOf(s.entries, b)
    {
      IncrementConns(s, i, b);
    }
    IncrementConns(s, i, address);
  }

  lemma NonNegative(s: State, address: string)
    requires Sound(s) && ConnsOf(s.entries, address).Some?
    ensures ConnsOf(s.entries, address).value >= 0
  {
    assert EntryOk(s.entries[IndexOf(s.entries, address)]);
  }

  /** Recording a result and releasing takes back what the selection counted. */
  lemma AttemptRestores(hash: Hasher, s: State, s1: State, chosen: string, success: bool, t1: int, t2: int, t3: int)
    requires Countable(s) && OneMore(s, s1, chosen)
    ensures var end := Release(RecordResult(s1, chosen, success, t1, t2, t3), chosen);
      DistinctEntries(end.entries) && SameConns(end.entries, s.entries)
  {
    var op := ResultOp(chosen, success, t1, t2, t3);
    var s2 := RecordResult(s1, chosen, success, t1, t2, t3);
    assert s2 == Apply(hash, s1, op);
    NonNegative(s, chosen);
    QuietConns(hash, s1, op, chosen);
    ReleaseConns(s2, chosen, chosen);
    forall address ensures ConnsOf(Release(s2, chosen).entries, address) == ConnsOf(s.entries, address) {
      QuietConns(hash, s1, op, address);
      ReleaseConns(s2, chosen, address);
    }
  }

  /** Either way of choosing counts the request once, on the chosen backend. */
  lemma SelectionCounts(hash: Hasher, s: State, r: Request, a: Attempt, s': State, chosen: string)
    requires DistinctEntries(s.entries)
    requires Pins(s, r, a) ==> Affinity(s.sticky, r) == Some(chosen) && s' == PinTo(s, chosen, a.pinAt)
    requires !Pins(s, r, a) ==>
      exists i: nat :: Balanced(hash, s, r.clientIP, a, i, s') && s'.entries[i].address == chosen
    ensures OneMore(s, s', chosen)
  {
    if Pins(s, r, a) {
      PinCounts(s, chosen, a.pinAt);
    } else {
      var i: nat :| Balanced(hash, s, r.clientIP, a, i, s') && s'.entries[i].address == chosen;
      BalancedCounts(hash, s, r.clientIP, a, i, s');
    }
  }

  /** One turn of the loop: select, serve, release. Whatever the upstream does, the counts
      are restored. */
  method TryOne(w: ClientWriter, r: Request, list: BackendList, a: Attempt, buffered: bool)
    returns (available: bool, status: int, failed: bool)
    requires Countable(list.View())
    modifies w, list
    ensures SameConns(list.entries, old(list.entries)) && Countable(list.View())
    ensures available ==> status == a.status && failed == a.failed
    ensures !available ==> list.slots == []
    ensures w.sent == if !available || (buffered && a.failed) then old(w.sent)
                      else Answer(old(w.sent), a.calls, buffered)
  {
    ghost var s := list.View();
    var chosen := SelectBackend(r, list, a);
    if chosen.None? {
      return false, 0, false;
    }
    ghost var s1 := list.View();
    SelectionCounts(list.hash, s, r, a, s1, chosen.value);
    AttemptRestores(list.hash, s, s1, chosen.value, !a.failed && a.status < 500, a.r1, a.r2, a.r3);
    status, failed := ServeOnce(w, list, chosen.value, a, buffered);
    available := true;
  }

  // ---------------------------------------------------------------------------
  // The loop
  // ---------------------------------------------------------------------------

  /** How the loop ended. */
  datatype End = NoBackend | ClientGone | Answered

  class Proxy {
    const maxRetries: nat
    const retryBackoff: int

    constructor (maxRetries: int, retryBackoff: int)
      ensures this.maxRetries == if maxRetries < 0 then 0 else maxRetries
      ensures this.retryBackoff > 0 && (retryBackoff > 0 ==> this.retryBackoff == retryBackoff)
    {
      this.maxRetries := if maxRetries < 0 then 0 else maxRetries;
      this.retryBackoff := if retryBackoff <= 0 then 50_000_000 else retryBackoff;
    }

    ghost function Attempts(r: Request): nat {
      if Repeatable(r) then 1 + maxRetries else 1
    }

    /** `world(n)` is what attempt `n` meets; `tried` counts the attempts made. */
    method ServeWithRetries(w: ClientWriter, r: Request, list: BackendList, world: nat -> Attempt)
      returns (status: int, ok: bool, ghost tried: nat, ghost end: End)
      requires Countable(list.View())
      modifies w, list
      // Bounded, and every attempt but the last failed to connect.
      ensures tried <= Attempts(r) && forall n :: 0 <= n < tried - 1 ==> world(n).failed
      // The client sees the last attempt or nothing at all.
      ensures end.Answered? ==>
        && ok && tried > 0 && status == world(tried - 1).status
        && (tried == Attempts(r) || !world(tried - 1).failed)
        && w.sent == Answer(old(w.sent), world(tried - 1).calls, tried < Attempts(r))
      ensures !end.Answered? ==>
        && w.sent == old(w.sent) && tried < Attempts(r)
        && (tried > 0 ==> world(tried - 1).failed)
      ensures end.NoBackend? ==> !ok && status == 0 && list.slots == []
      ensures end.ClientGone? ==>
        ok && status == 502 && retryBackoff > 0 && tried > 0 && world(tried - 1).cancelled
      // Every in-flight count is back where it was.
      ensures SameConns(list.entries, old(list.entries)) && Countable(list.View())
    {
      var retryable := RequestRetryable(r);
      var attempts := 1;
      if retryable {
        attempts := attempts + maxRetries;
      }
      tried := 0;
      var attempt := 0;
      while attempt < attempts
        invariant 0 <= attempt <= attempts && tried == attempt
        invariant attempts == Attempts(r) && (attempts > 1 ==> retryable)
        invariant attempt < attempts
        invariant forall n :: 0 <= n < attempt ==> world(n).failed
        invariant w.sent == old(w.sent)
        invariant SameConns(list.entries, old(list.entries)) && Countable(list.View())
        decreases attempts - attempt
      {
        var lastAttempt := attempt == attempts - 1;
        var a := world(attempt);
        var available, code, failed := TryOne(w, r, list, a, retryable && !lastAttempt);
        if !available {
          return 0, false, tried, NoBackend;
        }
        status := code;
        tried := tried + 1;
        if !failed || lastAttempt {
          return status, true, tried, Answered;
        }
        if retryBackoff > 0 {
          if a.cancelled {
            return 502, true, tried, ClientGone;
          }
        }
        attempt := attempt + 1;
      }
      assert false;
    }
  }

  /** With final statuses the client cannot tell whether its answer was buffered. */
  lemma AnswerUnseen(calls: seq<Call>, buffered: bool)
    requires FinalStatuses(calls)
    ensures Finished(Answer(NOTHING, calls, buffered)) == Finished(PutAll(NOTHING, calls))
  {
    BufferingUnseenIff(calls);
  }
}
