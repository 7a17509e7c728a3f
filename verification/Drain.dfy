/** The TCP proxy's shutdown handshake: in-flight connections, the idle channel that is
    closed and replaced when the last one finishes, and the drains waiting on it. */
module Drain {
  /** What the mutex guards. Channels are numbered as they are made; `closed` logs every
      close in order. */
  datatype Shared = Shared(inflight: int, idle: nat, closed: seq<nat>)

  function Started(p: Shared): Shared { p.(inflight := p.inflight + 1) }

  function Finished(p: Shared): Shared {
    if p.inflight == 1 then Shared(0, p.idle + 1, p.closed + [p.idle])
    else p.(inflight := p.inflight - 1)
  }

  /** A Drain call: blocked on the channel it captured, or back with its result. */
  datatype Call = Waiting(channel: nat) | Returned(drained: bool)

  function Begun(p: Shared, grace: int): Call {
    if p.inflight == 0 then Returned(true)
    else if grace <= 0 then Returned(false)
    else Waiting(p.idle)
  }

  datatype System = System(shared: Shared, calls: map<nat, Call>)

  datatype Step =
    | Start
    | Finish
    | Begin(id: nat, grace: int)
    | Wake(id: nat)
    | Expire(id: nat)

  const INITIAL: System := System(Shared(0, 0, []), map[])

  predicate Blocked(s: System, id: nat) { id in s.calls && s.calls[id].Waiting? }

  /** Only a started connection finishes, a call begins once, and a blocked call goes on
      when its channel is closed or its timer fires. */
  predicate Enabled(s: System, step: Step) {
    match step
    case Start => true
    case Finish => s.shared.inflight > 0
    case Begin(id, _) => id !in s.calls
    case Wake(id) => Blocked(s, id) && s.calls[id].channel in s.shared.closed
    case Expire(id) => Blocked(s, id)
  }

  function Apply(s: System, step: Step): System {
    if !Enabled(s, step) then s else
    match step
    case Start => s.(shared := Started(s.shared))
    case Finish => s.(shared := Finished(s.shared))
    case Begin(id, grace) => s.(calls := s.calls[id := Begun(s.shared, grace)])
    case Wake(id) => s.(calls := s.calls[id := Returned(true)])
    case Expire(id) => s.(calls := s.calls[id := Returned(s.shared.inflight == 0)])
  }

  /** The state after the first `k` steps of any interleaving. */
  function At(steps: seq<Step>, k: nat): System
    requires k <= |steps|
  {
    if k == 0 then INITIAL else Apply(At(steps, k - 1), steps[k - 1])
  }

  /** No channel is closed twice, and the one in place is open. */
  predicate ClosedOnce(p: Shared) {
    && p.inflight >= 0
    && (forall i :: 0 <= i < |p.closed| ==> p.closed[i] < p.idle)
    && (forall i, j :: 0 <= i < j < |p.closed| ==> p.closed[i] != p.closed[j])
  }

  lemma {:induction false} ChannelsCloseOnce(steps: seq<Step>, k: nat)
    requires k <= |steps|
    ensures ClosedOnce(At(steps, k).shared)
  {
    if k == 0 {
    } else {
      ChannelsCloseOnce(steps, k - 1);
    }
  }

  ghost predicate IdleBetween(steps: seq<Step>, from: nat, to: nat)
    requires to <= |steps|
  {
    exists k: nat :: from <= k <= to && At(steps, k).shared.inflight == 0
  }

  lemma IdleBetweenStep(steps: seq<Step>, from: nat, to: nat)
    requires from < to <= |steps|
    ensures IdleBetween(steps, from, to) <==>
            IdleBetween(steps, from, to - 1) || At(steps, to).shared.inflight == 0
  {
    if IdleBetween(steps, from, to) && At(steps, to).shared.inflight != 0 {
      var k: nat :| from <= k <= to && At(steps, k).shared.inflight == 0;
      assert k <= to - 1;
    }
  }

  /** A channel captured while connections are in flight is closed exactly from the first
      time the count reaches zero, and stays in place until then. */
  lemma {:induction false} SignalledAtFirstIdle(steps: seq<Step>, from: nat, to: nat)
    requires from <= to <= |steps| && At(steps, from).shared.inflight > 0
    ensures At(steps, from).shared.idle in At(steps, to).shared.closed <==> IdleBetween(steps, from, to)
    ensures !IdleBetween(steps, from, to) ==> At(steps, to).shared.idle == At(steps, from).shared.idle
  {
    ChannelsCloseOnce(steps, to);
    if from == to {
    } else {
      SignalledAtFirstIdle(steps, from, to - 1);
      ChannelsCloseOnce(steps, to - 1);
      IdleBetweenStep(steps, from, to);
    }
  }

  ghost predicate BeginsAt(steps: seq<Step>, n: nat, id: nat) {
    n < |steps| && steps[n].Begin? && steps[n].id == id && id !in At(steps, n).calls
  }

  ghost predicate ExpiredBusy(steps: seq<Step>, from: nat, to: nat, id: nat)
    requires to <= |steps|
  {
    exists k: nat :: from < k < to && steps[k] == Expire(id) && At(steps, k).shared.inflight > 0
  }

  /** What a Drain call that began at step `n` can be told to have seen by step `m`. */
  ghost predicate Explained(steps: seq<Step>, n: nat, m: nat, id: nat)
    requires n < m <= |steps| && steps[n].Begin?
  {
    id in At(steps, m).calls &&
    match At(steps, m).calls[id]
    case Waiting(channel) => At(steps, n).shared.inflight > 0 && channel == At(steps, n).shared.idle
    case Returned(drained) =>
      if drained then IdleBetween(steps, n, m)
      else (At(steps, n).shared.inflight > 0 && steps[n].grace <= 0) || ExpiredBusy(steps, n, m, id)
  }

  lemma ExplainedStep(steps: seq<Step>, n: nat, m: nat, id: nat)
    requires n < m < |steps| && BeginsAt(steps, n, id) && Explained(steps, n, m, id)
    ensures Explained(steps, n, m + 1, id)
  {
    IdleBetweenStep(steps, n, m + 1);
    ChannelsCloseOnce(steps, m);
    var before, after := At(steps, m), At(steps, m + 1);
    if before.calls[id] == after.calls[id] {
      if ExpiredBusy(steps, n, m, id) {
        var k: nat :| n < k < m && steps[k] == Expire(id) && At(steps, k).shared.inflight > 0;
        assert k < m + 1;
      }
    } else if steps[m] == Wake(id) {
      SignalledAtFirstIdle(steps, n, m);
    } else {
      assert steps[m] == Expire(id) && n < m < m + 1;
    }
  }

  /** True means the count was zero at some moment since the call began; false means the
      grace was not positive or the timer's re-check found connections. */
  lemma {:induction false} ResultExplained(steps: seq<Step>, n: nat, m: nat, id: nat)
    requires n < m <= |steps| && BeginsAt(steps, n, id)
    ensures Explained(steps, n, m, id)
  {
    if m == n + 1 {
      ChannelsCloseOnce(steps, n);
      assert At(steps, n).shared.inflight == 0 ==> IdleBetween(steps, n, m);
    } else {
      ResultExplained(steps, n, m - 1, id);
      ExplainedStep(steps, n, m - 1, id);
    }
  }

  lemma {:induction false} StaysIdle(steps: seq<Step>, k: nat, m: nat)
    requires k <= m <= |steps| && At(steps, k).shared.inflight == 0
    requires forall i :: k <= i < m ==> !steps[i].Start?
    ensures At(steps, m).shared.inflight == 0
  {
    if k == m {
    } else {
      StaysIdle(steps, k, m - 1);
    }
  }

  /** If no connection is counted as started after the call, true means none is left. */
  lemma TrueMeansDrained(steps: seq<Step>, n: nat, m: nat, id: nat)
    requires n < m <= |steps| && BeginsAt(steps, n, id)
    requires forall i :: n <= i < m ==> !steps[i].Start?
    requires id in At(steps, m).calls && At(steps, m).calls[id] == Returned(true)
    ensures At(steps, m).shared.inflight == 0
  {
    ResultExplained(steps, n, m, id);
    var k: nat :| n <= k <= m && At(steps, k).shared.inflight == 0;
    StaysIdle(steps, k, m);
  }

  /** A connection started after the call can be in flight when it returns true. */
  lemma LateStartOutlivesDrain()
    ensures var steps := [Start, Begin(0, 1), Finish, Start, Wake(0)];
      At(steps, 5).shared.inflight == 1 && At(steps, 5).calls == map[0 := Returned(true)]
  {
    var steps := [Start, Begin(0, 1), Finish, Start, Wake(0)];
    assert At(steps, 1) == System(Shared(1, 0, []), map[]);
    assert At(steps, 2) == System(Shared(1, 0, []), map[0 := Waiting(0)]);
    assert At(steps, 3) == System(Shared(0, 1, [0]), map[0 := Waiting(0)]);
    assert At(steps, 4) == System(Shared(1, 1, [0]), map[0 := Waiting(0)]);
  }

  /** A call with nothing in flight, or with no grace, is back at once, true exactly when
      nothing is in flight; any other blocks. */
  lemma ReturnsAtOnceIff(steps: seq<Step>, n: nat, id: nat)
    requires BeginsAt(steps, n, id)
    ensures id in At(steps, n + 1).calls
    ensures var idle, call := At(steps, n).shared.inflight == 0, At(steps, n + 1).calls[id];
      && (call.Returned? <==> idle || steps[n].grace <= 0)
      && (call.Returned? ==> call.drained == idle)
  {}

  /** A blocked call can always go on once the count has been zero. */
  lemma NoLostSignal(steps: seq<Step>, n: nat, m: nat, id: nat)
    requires n < m <= |steps| && BeginsAt(steps, n, id) && Blocked(At(steps, m), id)
    ensures Enabled(At(steps, m), Wake(id)) <==> IdleBetween(steps, n, m)
  {
    ResultExplained(steps, n, m, id);
    SignalledAtFirstIdle(steps, n, m);
  }

  // ---------------------------------------------------------------------------
  // One call against the connections that come and go while it is blocked
  // ---------------------------------------------------------------------------

  function Served(p: Shared, during: seq<bool>): Shared {
    if during == [] then p
    else
      var q := Served(p, during[..|during| - 1]);
      if during[|during| - 1] then Started(q) else if q.inflight > 0 then Finished(q) else q
  }

  function After(s: System, steps: seq<Step>): System {
    if steps == [] then s else Apply(After(s, steps[..|steps| - 1]), steps[|steps| - 1])
  }

  function Activity(during: seq<bool>): (steps: seq<Step>)
    ensures |steps| == |during| && forall i :: 0 <= i < |steps| ==> steps[i] == if during[i] then Start else Finish
  {
    seq(|during|, i requires 0 <= i < |during| => if during[i] then Start else Finish)
  }

  /** The select goes on by its channel if that is closed and the timer has not fired. */
  function Resumed(p: Shared, during: seq<bool>, timer: bool): Step {
    if p.idle in Served(p, during).closed && !timer then Wake(0) else Expire(0)
  }

  function Schedule(p: Shared, grace: int, during: seq<bool>, timer: bool): seq<Step> {
    if Begun(p, grace).Returned? then [Begin(0, grace)]
    else [Begin(0, grace)] + Activity(during) + [Resumed(p, during, timer)]
  }

  lemma {:induction false} ActivityServes(s: System, during: seq<bool>)
    ensures After(s, Activity(during)) == s.(shared := Served(s.shared, during))
  {
    if during == [] {
    } else {
      var init := during[..|during| - 1];
      ActivityServes(s, init);
      assert Activity(during)[..|during| - 1] == Activity(init);
    }
  }

  lemma {:induction false} AfterAppend(s: System, a: seq<Step>, b: seq<Step>)
    ensures After(s, a + b) == After(After(s, a), b)
  {
    if b == [] {
      assert a + b == a;
    } else {
      AfterAppend(s, a, b[..|b| - 1]);
      assert (a + b)[..|a + b| - 1] == a + b[..|b| - 1];
    }
  }

  lemma AfterOne(s: System, step: Step)
    ensures After(s, [step]) == Apply(s, step)
  {
    assert [step][..0] == [] && After(s, []) == s;
  }

  lemma CallReturns(p: Shared, grace: int, during: seq<bool>, timer: bool)
    requires Begun(p, grace).Returned?
    ensures After(System(p, map[]), Schedule(p, grace, during, timer)) == System(p, map[0 := Begun(p, grace)])
  {
    AfterOne(System(p, map[]), Begin(0, grace));
  }

  lemma CallResumes(p: Shared, during: seq<bool>, timer: bool)
    ensures var q := Served(p, during);
      Apply(System(q, map[0 := Waiting(p.idle)]), Resumed(p, during, timer))
        == System(q, map[0 := Returned((p.idle in q.closed && !timer) || q.inflight == 0)])
  {}

  lemma CallWaits(p: Shared, grace: int, during: seq<bool>, timer: bool)
    requires Begun(p, grace).Waiting?
    ensures var q := Served(p, during);
      After(System(p, map[]), Schedule(p, grace, during, timer))
        == System(q, map[0 := Returned((p.idle in q.closed && !timer) || q.inflight == 0)])
  {
    var s, first, last := System(p, map[]), [Begin(0, grace)], Resumed(p, during, timer);
    var begun, served := System(p, map[0 := Waiting(p.idle)]), System(Served(p, during), map[0 := Waiting(p.idle)]);
    assert After(s, first) == begun by { AfterOne(s, Begin(0, grace)); }
    assert After(begun, Activity(during)) == served by { ActivityServes(begun, during); }
    AfterAppend(s, first, Activity(during));
    AfterAppend(s, first + Activity(during), [last]);
    AfterOne(served, last);
    CallResumes(p, during, timer);
  }

  /** A channel captured while busy is closed only if the count was zero since. */
  lemma {:induction false} IdleWhenClosed(p: Shared, during: seq<bool>)
    requires ClosedOnce(p)
    ensures ClosedOnce(Served(p, during))
    ensures p.inflight > 0 && p.idle in Served(p, during).closed ==>
      exists k :: 0 <= k <= |during| && Served(p, during[..k]).inflight == 0
    ensures p.inflight > 0 && p.idle !in Served(p, during).closed ==> Served(p, during).idle == p.idle
    ensures (forall k :: 0 <= k < |during| ==> !during[k]) && p.idle in Served(p, during).closed ==>
      Served(p, during).inflight == 0
  {
    if during == [] {
    } else {
      var n := |during| - 1;
      var init := during[..n];
      IdleWhenClosed(p, init);
      assert forall k :: 0 <= k <= n ==> init[..k] == during[..k];
      assert during[..|during|] == during;
      if p.inflight > 0 && p.idle in Served(p, init).closed {
        var k :| 0 <= k <= n && Served(p, init[..k]).inflight == 0;
        assert Served(p, during[..k]).inflight == 0;
      }
    }
  }

  /** The accounting as the proxy holds it. */
  class TCPProxy {
    var inflight: int
    var idle: nat
    var closed: seq<nat>

    constructor ()
      ensures View() == INITIAL.shared && Valid()
    {
      inflight, idle, closed := 0, 0, [];
    }

    function View(): Shared
      reads this
    {
      Shared(inflight, idle, closed)
    }

    predicate Valid()
      reads this
    {
      ClosedOnce(View())
    }

    method ConnStarted()
      requires Valid()
      modifies this
      ensures Valid() && View() == Started(old(View()))
    {
      inflight := inflight + 1;
    }

    method ConnFinished()
      requires Valid() && inflight > 0
      modifies this
      ensures Valid() && View() == Finished(old(View()))
    {
      inflight := inflight - 1;
      if inflight == 0 {
        assert idle !in closed;  // closing a closed channel would panic
        closed := closed + [idle];
        idle := idle + 1;
      }
    }

    method BeginDrain(grace: int) returns (call: Call)
      ensures call == Begun(View(), grace)
    {
      if inflight == 0 {
        return Returned(true);
      }
      var captured := idle;
      if grace <= 0 {
        return Returned(false);
      }
      return Waiting(captured);
    }

    /** Connections that start and finish while a Drain call is blocked. */
    method Serve(during: seq<bool>)
      requires Valid()
      modifies this
      ensures Valid() && View() == Served(old(View()), during)
    {
      for i := 0 to |during|
        invariant Valid() && View() == Served(old(View()), during[..i])
      {
        assert during[..i + 1][..i] == during[..i];
        if during[i] {
          ConnStarted();
        } else if inflight > 0 {
          ConnFinished();
        }
      }
      assert during[..|during|] == during;
    }

    /** A whole call. While it is blocked, connections start (true) and finish (false) as
        `during` says; then the timer has fired, or the select finds the channel closed. */
    method Drain(grace: int, during: seq<bool>, timer: bool) returns (drained: bool)
      requires Valid()
      modifies this
      ensures Valid()
      // It is the step system's call, whatever the others do.
      ensures var end := After(System(old(View()), map[]), Schedule(old(View()), grace, during, timer));
        end.shared == View() && end.calls == map[0 := Returned(drained)]
      // True means idle at some moment; without a start in between, idle now.
      ensures drained ==> exists k :: 0 <= k <= |during| && Served(old(View()), during[..k]).inflight == 0
      ensures drained && (forall k :: 0 <= k < |during| ==> !during[k]) ==> inflight == 0
    {
      ghost var p := View();
      var call := BeginDrain(grace);
      if call.Returned? {
        CallReturns(p, grace, during, timer);
        assert Served(p, during[..0]) == p;
        return call.drained;
      }
      CallWaits(p, grace, during, timer);
      Serve(during);
      IdleWhenClosed(p, during);
      assert during[..|during|] == during;
      if call.channel in closed && !timer {
        return true;
      }
      drained := inflight == 0;
    }
  }
}
