/** A family of protocol runs that end drained, connected and behind. */
module Overflow {
  import opened Wire
  import opened Publication
  import opened Delivery

  function AtVersion(content: BackendSet, version: int): BackendSet {
    content.(group := "g", version := version)
  }

  function Sets(content: BackendSet, versions: seq<int>): seq<BackendSet> {
    seq(|versions|, i requires 0 <= i < |versions| => AtVersion(content, versions[i]))
  }

  /** Data plane 0 streams group "g" over channel 1; versions are current, queued, in flight
      and held, 0 standing for none. */
  ghost predicate Streams(y: System, content: BackendSet, last: int, queue: seq<int>, wire: seq<int>, held: int) {
    && 1 in y.sessions && y.sessions[1].plane == 0 && y.sessions[1].group == "g" && y.sessions[1].phase.Streaming?
    && y.sessions[1].wire == Sets(content, wire)
    && 1 in Subscribers(y.server.subs, "g") && 1 in y.server.queues && y.server.queues[1] == Sets(content, queue)
    && 0 in y.planes && y.planes[0].held == (if held == 0 then None else Some(AtVersion(content, held)))
    && Current(y.server, "g") == if last == 0 then None else Some(AtVersion(content, last))
  }

  lemma StreamsPublish(y: System, content: BackendSet, last: int, queue: seq<int>, wire: seq<int>, held: int)
    requires Streams(y, content, last, queue, wire, held) && last >= 0
    ensures Streams(Apply(y, PublishStep("g", content)), content, last + 1,
                    if |queue| < QUEUE_CAPACITY then queue + [last + 1] else queue, wire, held)
  {
    assert Sets(content, queue + [last + 1]) == Sets(content, queue) + [AtVersion(content, last + 1)];
  }

  lemma StreamsForward(y: System, content: BackendSet, last: int, queue: seq<int>, wire: seq<int>, held: int)
    requires Streams(y, content, last, queue, wire, held) && queue != []
    ensures Streams(Apply(y, Forward(1)), content, last, queue[1..], wire + [queue[0]], held)
  {
    assert Sets(content, queue)[1..] == Sets(content, queue[1..]);
    assert Sets(content, wire + [queue[0]]) == Sets(content, wire) + [AtVersion(content, queue[0])];
  }

  lemma StreamsDeliver(y: System, content: BackendSet, last: int, queue: seq<int>, wire: seq<int>, held: int)
    requires Streams(y, content, last, queue, wire, held) && wire != [] && 0 <= held < wire[0]
    ensures Streams(Apply(y, Deliver(1, 0)), content, last, queue, wire[1..], wire[0])
  {
    var sent := Sets(content, wire);
    assert sent[..0] + sent[1..] == Sets(content, wire[1..]);
  }

  function Times(step: Step, n: nat): seq<Step> { seq(n, i => step) }

  lemma RunSnoc(steps: seq<Step>, step: Step)
    ensures Run(steps + [step]) == Apply(Run(steps), step)
  {
    assert (steps + [step])[..|steps|] == steps;
  }

  function Joining(): seq<Step> { [Boot(0, "g"), Open(1, 0), ReadCurrent(1), SendCurrent(1)] }

  lemma AfterJoining(content: BackendSet)
    ensures Streams(Run(Joining()), content, 0, [], [], 0)
  {
    var a: seq<Step> := [];
    var b := a + [Boot(0, "g")];
    var c := b + [Open(1, 0)];
    var d := c + [ReadCurrent(1)];
    RunSnoc(a, Boot(0, "g"));
    RunSnoc(b, Open(1, 0));
    RunSnoc(c, ReadCurrent(1));
    RunSnoc(d, SendCurrent(1));
    assert Joining() == d + [SendCurrent(1)];
    assert Run(a) == Initial();
    assert Run(c).sessions[1].phase.Joined? && Current(Run(c).server, "g") == None;
  }

  function Runs(): seq<Step> -> System { steps => Run(steps) }

  function Stepped(step: Step): System -> System { y => Apply(y, step) }

  lemma RunsStepped(step: Step)
    ensures forall steps: seq<Step> :: Runs()(steps + [step]) == Stepped(step)(Runs()(steps))
  {
    forall steps: seq<Step> ensures Runs()(steps + [step]) == Stepped(step)(Runs()(steps)) { RunSnoc(steps, step); }
  }

  /** What one step carries from `k` to `k + 1`, `n` of them carry from 0 to `n`. */
  lemma {:induction false} Repeat(run: seq<Step> -> System, f: System -> System, p: (System, nat) -> bool,
                                  steps: seq<Step>, step: Step, n: nat)
    requires forall t: seq<Step> :: run(t + [step]) == f(run(t))
    requires p(run(steps), 0) && forall z, k: nat :: k < n && p(z, k) ==> p(f(z), k + 1)
    ensures p(run(steps + Times(step, n)), n)
  {
    if n == 0 {
      assert steps + Times(step, 0) == steps;
    } else {
      Repeat(run, f, p, steps, step, n - 1);
      assert steps + Times(step, n) == (steps + Times(step, n - 1)) + [step];
    }
  }

  /** Versions 1 to `n`. */
  function UpTo(n: nat): (versions: seq<int>)
    ensures |versions| == n && forall i :: 0 <= i < n ==> versions[i] == i + 1
  {
    seq(n, i => i + 1)
  }

  function Fitting(n: nat): nat { if n < QUEUE_CAPACITY then n else QUEUE_CAPACITY }

  /** The queue takes the first four of `n` publications. */
  lemma AfterPublications(content: BackendSet, steps: seq<Step>, n: nat)
    requires Streams(Run(steps), content, 0, [], [], 0)
    ensures Streams(Run(steps + Times(PublishStep("g", content), n)), content, n, UpTo(Fitting(n)), [], 0)
  {
    var publish := PublishStep("g", content);
    var p := (z: System, k: nat) => Streams(z, content, k, UpTo(Fitting(k)), [], 0);
    forall z, k: nat | k < n && p(z, k) ensures p(Stepped(publish)(z), k + 1) {
      PublishOne(content, z, k);
    }
    assert UpTo(0) == [];
    RunsStepped(publish);
    Repeat(Runs(), Stepped(publish), p, steps, publish, n);
  }

  lemma PublishOne(content: BackendSet, z: System, k: nat)
    requires Streams(z, content, k, UpTo(Fitting(k)), [], 0)
    ensures Streams(Apply(z, PublishStep("g", content)), content, k + 1, UpTo(Fitting(k + 1)), [], 0)
  {
    var queue := UpTo(Fitting(k));
    assert UpTo(Fitting(k + 1)) == if |queue| < QUEUE_CAPACITY then queue + [k + 1] else queue;
    StreamsPublish(z, content, k, queue, [], 0);
  }

  lemma AfterForwards(content: BackendSet, steps: seq<Step>, last: nat, queue: seq<int>)
    requires Streams(Run(steps), content, last, queue, [], 0)
    ensures Streams(Run(steps + Times(Forward(1), |queue|)), content, last, [], queue, 0)
  {
    var n := |queue|;
    var p := (z: System, k: nat) => k <= n && Streams(z, content, last, queue[k..], queue[..k], 0);
    forall z, k: nat | k < n && p(z, k) ensures p(Stepped(Forward(1))(z), k + 1) {
      ForwardOne(content, z, last, queue, k);
    }
    assert queue[0..] == queue && queue[..0] == [] && queue[n..] == [] && queue[..n] == queue;
    RunsStepped(Forward(1));
    Repeat(Runs(), Stepped(Forward(1)), p, steps, Forward(1), n);
  }

  lemma ForwardOne(content: BackendSet, z: System, last: nat, queue: seq<int>, k: nat)
    requires k < |queue| && Streams(z, content, last, queue[k..], queue[..k], 0)
    ensures Streams(Apply(z, Forward(1)), content, last, queue[k + 1..], queue[..k + 1], 0)
  {
    assert queue[k..][1..] == queue[k + 1..] && queue[..k] + [queue[k..][0]] == queue[..k + 1];
    StreamsForward(z, content, last, queue[k..], queue[..k], 0);
  }

  lemma AfterDeliveries(content: BackendSet, steps: seq<Step>, last: nat, n: nat)
    requires Streams(Run(steps), content, last, [], UpTo(n), 0)
    ensures Streams(Run(steps + Times(Deliver(1, 0), n)), content, last, [], [], n)
  {
    var p := (z: System, k: nat) => k <= n && Streams(z, content, last, [], UpTo(n)[k..], k);
    forall z, k: nat | k < n && p(z, k) ensures p(Stepped(Deliver(1, 0))(z), k + 1) {
      DeliverOne(content, z, last, n, k);
    }
    assert UpTo(n)[0..] == UpTo(n) && UpTo(n)[n..] == [];
    RunsStepped(Deliver(1, 0));
    Repeat(Runs(), Stepped(Deliver(1, 0)), p, steps, Deliver(1, 0), n);
  }

  lemma DeliverOne(content: BackendSet, z: System, last: nat, n: nat, k: nat)
    requires k < n && Streams(z, content, last, [], UpTo(n)[k..], k)
    ensures Streams(Apply(z, Deliver(1, 0)), content, last, [], UpTo(n)[k + 1..], k + 1)
  {
    assert UpTo(n)[k..][1..] == UpTo(n)[k + 1..] && UpTo(n)[k..][0] == k + 1;
    StreamsDeliver(z, content, last, [], UpTo(n)[k..], k);
  }

  function Flood(content: BackendSet, n: nat): seq<Step> {
    Joining() + Times(PublishStep("g", content), n) + Times(Forward(1), 4) + Times(Deliver(1, 0), 4)
  }

  /** Any five or more publications before the session forwards one: drained, connected, and
      behind by all but four. */
  lemma DrainedButBehind(content: BackendSet, n: nat)
    requires n >= 5
    ensures var y := Run(Flood(content, n));
      && Drained(y, 1) && y.sessions[1].plane == 0 && 0 in y.planes
      && y.planes[0].held == Some(content.(group := "g", version := 4))
      && Current(y.server, "g") == Some(content.(group := "g", version := n))
  {
    var published := Joining() + Times(PublishStep("g", content), n);
    var forwarded := published + Times(Forward(1), 4);
    AfterJoining(content);
    AfterPublications(content, Joining(), n);
    AfterForwards(content, published, n, UpTo(4));
    AfterDeliveries(content, forwarded, n, 4);
  }
}
