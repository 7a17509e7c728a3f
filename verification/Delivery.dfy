/** What the publication protocol delivers: nothing is lost in the join window, and what is
    dropped, and when, is exact. */
module Delivery {
  import opened Wire
  import opened Publication

  /** The newest set of the session's group has reached the data plane or is on its way. */
  ghost predicate Covered(s: Session, queue: seq<BackendSet>, p: DataPlane, newest: BackendSet) {
    || newest in queue
    || newest in s.wire
    || s.phase == Reading(Some(newest))
    || newest.version <= HeldVersion(p)
  }

  /** No message of the session is as new as `newest`. */
  ghost predicate Behind(s: Session, queue: seq<BackendSet>, newest: BackendSet) {
    && (forall m :: m in queue ==> m.version < newest.version)
    && (forall m :: m in s.sent ==> m.version < newest.version)
    && (s.phase.Reading? && s.phase.current.Some? ==> s.phase.current.value.version < newest.version)
  }

  ghost predicate DeliveryInv(y: System, ch: Chan)
    requires ch in y.sessions && SessionInv(y, ch)
  {
    var s := y.sessions[ch];
    Delivers(s, y.server.queues[ch], y.planes[s.plane], Current(y.server, s.group))
  }

  ghost predicate Delivers(s: Session, queue: seq<BackendSet>, p: DataPlane, newest: Option<BackendSet>) {
    && (s.missed ==> newest.Some? && Behind(s, queue, newest.value))
    && ((s.phase.Reading? || s.phase.Streaming?) && !s.missed && newest.Some? ==>
          Covered(s, queue, p, newest.value))
  }

  lemma SendDelivers(s: Session, queue: seq<BackendSet>, p: DataPlane, newest: Option<BackendSet>)
    requires Delivers(s, queue, p, newest) && s.phase.Reading? && s.phase.current.Some?
    ensures Delivers(Transmit(s, s.phase.current.value).(phase := Streaming), queue, p, newest)
  {
    var wire := s.wire + [s.phase.current.value];
    assert wire[|s.wire|] == s.phase.current.value;
  }

  lemma ForwardDelivers(s: Session, queue: seq<BackendSet>, p: DataPlane, newest: Option<BackendSet>)
    requires Delivers(s, queue, p, newest) && s.phase.Streaming? && queue != []
    ensures Delivers(Transmit(s, queue[0]), queue[1..], p, newest)
  {
    assert queue == [queue[0]] + queue[1..];
    assert (s.wire + [queue[0]])[|s.wire|] == queue[0];
  }

  lemma ReceiveDelivers(s: Session, queue: seq<BackendSet>, p: DataPlane, newest: Option<BackendSet>, k: nat)
    requires Delivers(s, queue, p, newest) && k < |s.wire| && s.wire[k].version >= 1
    ensures Delivers(s.(wire := s.wire[..k] + s.wire[k + 1..]), queue, Receive(p, s.wire[k]), newest)
  {
    ReceiveGrows(p, s.wire[k]);
    assert s.wire == s.wire[..k] + [s.wire[k]] + s.wire[k + 1..];
  }

  lemma NewestIsAhead(y: System, content: BackendSet, s: Session, queue: seq<BackendSet>)
    requires LogInv(y) && Carries(y.log, s, queue)
    ensures Behind(s, queue, Stamped(y.server.last, s.group, content))
  {
    assert s.phase.Reading? && s.phase.current.Some? ==>
      [s.phase.current.value][0] == s.phase.current.value;
    if s.group in y.log {
      assert Numbered(s.group, y.log[s.group]);
    }
  }

  lemma PublishDelivery(y: System, group: string, content: BackendSet, ch: Chan)
    requires LogInv(y) && ch in y.sessions && SessionInv(y, ch) && DeliveryInv(y, ch)
    requires SessionInv(ApplyPublish(y, group, content), ch)
    ensures DeliveryInv(ApplyPublish(y, group, content), ch)
  {
    var y' := ApplyPublish(y, group, content);
    var s, queue := y.sessions[ch], y.server.queues[ch];
    var s', queue' := y'.sessions[ch], y'.server.queues[ch];
    assert ch in Subscribers(y.server.subs, group) <==> s.group == group && !s.phase.Ended?;
    if s.group == group {
      var newest := Stamped(y.server.last, group, content);
      NewestIsAhead(y, content, s, queue);
      if s'.missed {
        assert queue' == queue;
        assert Behind(s', queue', newest);
      } else {
        assert queue' == queue + [newest];
        assert newest in queue';
      }
    } else {
      assert s' == s && queue' == queue;
    }
  }

  lemma OwnDelivery(y: System, step: Step)
    requires !step.Boot? && !step.PublishStep? && step.ch in y.sessions
    requires SessionInv(y, step.ch) && DeliveryInv(y, step.ch)
    requires step.ch in Apply(y, step).sessions && SessionInv(Apply(y, step), step.ch)
    ensures DeliveryInv(Apply(y, step), step.ch)
  {
    var s, queue := y.sessions[step.ch], y.server.queues[step.ch];
    var p, newest := y.planes[s.plane], Current(y.server, s.group);
    match step
    case Open(_, _) =>
    case ReadCurrent(_) =>
    case SendCurrent(_) =>
      if s.phase.Reading? && s.phase.current.Some? { SendDelivers(s, queue, p, newest); }
    case Forward(ch) =>
      if s.phase.Streaming? && queue != [] { ForwardDelivers(s, queue, p, newest); }
    case Deliver(_, k) =>
      if k < |s.wire| { ReceiveDelivers(s, queue, p, newest, k); }
    case Redeliver(_, k) =>
      if k < |s.sent| { ReceiveGrows(p, s.sent[k]); }
    case Close(_) =>
  }

  lemma OtherDelivery(y: System, step: Step, ch: Chan)
    requires SoundDelivery(y, step) && ch in y.sessions && SessionInv(y, ch) && DeliveryInv(y, ch)
    requires step.Boot? || (!step.PublishStep? && step.ch != ch)
    requires ch in Apply(y, step).sessions && SessionInv(Apply(y, step), ch)
    ensures DeliveryInv(Apply(y, step), ch)
  {
    RecordFrame(y, step, ch);
    LastFrame(y, step);
    StepKeepsAccepted(y, step, y.sessions[ch].plane);
  }

  lemma StepDelivery(y: System, step: Step, ch: Chan)
    requires SafetyInv(y) && forall c :: c in y.sessions ==> DeliveryInv(y, c)
    requires ch in Apply(y, step).sessions && SessionInv(Apply(y, step), ch)
    ensures DeliveryInv(Apply(y, step), ch)
  {
    if ch in y.sessions {
      assert SessionInv(y, ch) && DeliveryInv(y, ch);
      if step.PublishStep? {
        PublishDelivery(y, step.group, step.content, ch);
      } else if !step.Boot? && step.ch == ch {
        OwnDelivery(y, step);
      } else {
        OtherDelivery(y, step, ch);
      }
    }
  }

  lemma {:induction false} RunDelivers(steps: seq<Step>)
    ensures SafetyInv(Run(steps))
    ensures forall ch :: ch in Run(steps).sessions ==> DeliveryInv(Run(steps), ch)
  {
    RunSafe(steps);
    if steps == [] {
    } else {
      var init := steps[..|steps| - 1];
      RunSafe(init);
      RunDelivers(init);
      forall ch | ch in Run(steps).sessions ensures DeliveryInv(Run(steps), ch) {
        assert SessionInv(Run(steps), ch);
        StepDelivery(Run(init), steps[|steps| - 1], ch);
      }
    }
  }

  /** A session that is streaming with nothing queued and nothing in flight. */
  ghost predicate Drained(y: System, ch: Chan) {
    && ch in y.sessions && ch in y.server.queues
    && y.sessions[ch].phase.Streaming?
    && y.sessions[ch].wire == [] && y.server.queues[ch] == []
  }

  lemma LatestBound(y: System, p: DataPlane)
    requires LogInv(y) && PlaneInv(y.log, p)
    ensures p.held.Some? ==> p.group in y.server.last && HeldVersion(p) <= y.server.last[p.group].version
    ensures p.held.Some? && HeldVersion(p) == y.server.last[p.group].version ==>
              p.held.value == y.server.last[p.group]
  {
    if p.held.Some? {
      assert Numbered(p.group, y.log[p.group]);
    }
  }

  /** No update is lost in the join window: once drained, a session that did not have its
      newest publication dropped has brought its data plane to exactly `last[group]`. */
  lemma {:induction false} DrainedHoldsLatest(steps: seq<Step>, ch: Chan)
    requires Drained(Run(steps), ch) && !Run(steps).sessions[ch].missed
    ensures Run(steps).sessions[ch].plane in Run(steps).planes
    ensures Run(steps).planes[Run(steps).sessions[ch].plane].held
         == Current(Run(steps).server, Run(steps).sessions[ch].group)
  {
    var y := Run(steps);
    RunDelivers(steps);
    assert SessionInv(y, ch) && DeliveryInv(y, ch);
    var p := y.planes[y.sessions[ch].plane];
    LatestBound(y, p);
    if p.group in y.server.last {
      assert Numbered(p.group, y.log[p.group]);
    }
  }

  ghost predicate FullAtPublish(steps: seq<Step>, i: nat, ch: Chan)
    requires i < |steps|
  {
    var y := Run(steps[..i]);
    && steps[i].PublishStep?
    && ch in y.sessions && y.sessions[ch].group == steps[i].group
    && ch in y.server.queues && |y.server.queues[ch]| == QUEUE_CAPACITY
  }

  predicate PublishesTo(step: Step, group: string) { step.PublishStep? && step.group == group }

  /** Publication `i` met a full queue of the session, and no later one of its group follows. */
  ghost predicate NewestMetFull(steps: seq<Step>, i: nat, ch: Chan)
    requires i < |steps|
  {
    FullAtPublish(steps, i, ch) && forall k :: i < k < |steps| ==> !PublishesTo(steps[k], steps[i].group)
  }

  lemma MissedStep(y: System, step: Step, ch: Chan)
    requires ch in y.sessions ==> SessionInv(y, ch)
    requires ch in Apply(y, step).sessions
    requires Apply(y, step).sessions[ch].missed && !Apply(y, step).sessions[ch].phase.Ended?
    ensures ch in y.sessions && !y.sessions[ch].phase.Ended?
    ensures if PublishesTo(step, y.sessions[ch].group) then |y.server.queues[ch]| == QUEUE_CAPACITY
            else y.sessions[ch].missed
  {}

  lemma GroupKept(y: System, step: Step, ch: Chan)
    requires ch in y.sessions
    ensures ch in Apply(y, step).sessions && Apply(y, step).sessions[ch].group == y.sessions[ch].group
  {}

  lemma NewestMetFullExtends(steps: seq<Step>, i: nat, ch: Chan)
    requires steps != [] && i < |steps| - 1
    ensures NewestMetFull(steps, i, ch) <==>
      NewestMetFull(steps[..|steps| - 1], i, ch) && !PublishesTo(steps[|steps| - 1], steps[i].group)
  {
    assert steps[..|steps| - 1][..i] == steps[..i];
  }

  lemma {:induction false} GroupAtPublish(steps: seq<Step>, i: nat, ch: Chan)
    requires i < |steps| && FullAtPublish(steps, i, ch)
    ensures ch in Run(steps).sessions && Run(steps).sessions[ch].group == steps[i].group
  {
    var n := |steps| - 1;
    if i == n {
    } else {
      assert steps[..n][..i] == steps[..i];
      GroupAtPublish(steps[..n], i, ch);
    }
    GroupKept(Run(steps[..n]), steps[n], ch);
  }

  /** A live session misses the newest set only because that very publication found four
      undelivered sets queued. */
  lemma {:induction false} DroppedOnlyWhenFull(steps: seq<Step>, ch: Chan)
    requires ch in Run(steps).sessions
    requires Run(steps).sessions[ch].missed && !Run(steps).sessions[ch].phase.Ended?
    ensures exists i: nat :: i < |steps| && NewestMetFull(steps, i, ch)
  {
    var n := |steps| - 1;
    var init, step := steps[..n], steps[n];
    assert ch in Run(init).sessions ==> SessionInv(Run(init), ch) by { RunSafe(init); }
    MissedStep(Run(init), step, ch);
    if PublishesTo(step, Run(init).sessions[ch].group) {
      assert NewestMetFull(steps, n, ch);
    } else {
      DroppedOnlyWhenFull(init, ch);
      var i: nat :| i < |init| && NewestMetFull(init, i, ch);
      GroupAtPublish(init, i, ch);
      NewestMetFullExtends(steps, i, ch);
    }
  }

  // The same without the flag: what an observer of the run sees.

  /** The session has read the current set and has not ended. */
  predicate Listening(y: System, ch: Chan) {
    ch in y.sessions && (y.sessions[ch].phase.Reading? || y.sessions[ch].phase.Streaming?)
  }

  ghost predicate DropsAt(steps: seq<Step>, i: nat, ch: Chan)
    requires i < |steps|
  {
    NewestMetFull(steps, i, ch) && Listening(Run(steps[..i]), ch)
  }

  /** The group's last publication found the session past its join, with four sets queued. */
  ghost predicate NewestDropped(steps: seq<Step>, ch: Chan) {
    exists i: nat :: i < |steps| && DropsAt(steps, i, ch)
  }

  /** Whether publication `i` is the one dropped does not change until the group publishes. */
  lemma DropsAtExtends(steps: seq<Step>, i: nat, ch: Chan)
    requires steps != [] && i < |steps| - 1 && ch in Run(steps[..|steps| - 1]).sessions
    ensures DropsAt(steps, i, ch) <==>
      && DropsAt(steps[..|steps| - 1], i, ch)
      && !PublishesTo(steps[|steps| - 1], Run(steps[..|steps| - 1]).sessions[ch].group)
  {
    var init := steps[..|steps| - 1];
    assert init[..i] == steps[..i];
    NewestMetFullExtends(steps, i, ch);
    if FullAtPublish(init, i, ch) { GroupAtPublish(init, i, ch); }
  }

  lemma DroppedByPublish(steps: seq<Step>, ch: Chan)
    requires steps != [] && ch in Run(steps[..|steps| - 1]).sessions
    requires PublishesTo(steps[|steps| - 1], Run(steps[..|steps| - 1]).sessions[ch].group)
    ensures NewestDropped(steps, ch) <==>
      FullAtPublish(steps, |steps| - 1, ch) && Listening(Run(steps[..|steps| - 1]), ch)
  {
    var n := |steps| - 1;
    if i: nat :| i < n && DropsAt(steps, i, ch) {
      DropsAtExtends(steps, i, ch);
    }
    assert DropsAt(steps, n, ch) <==> FullAtPublish(steps, n, ch) && Listening(Run(steps[..n]), ch);
  }

  lemma DroppedByOther(steps: seq<Step>, ch: Chan)
    requires steps != [] && ch in Run(steps[..|steps| - 1]).sessions
    requires !PublishesTo(steps[|steps| - 1], Run(steps[..|steps| - 1]).sessions[ch].group)
    ensures NewestDropped(steps, ch) <==> NewestDropped(steps[..|steps| - 1], ch)
  {
    var n := |steps| - 1;
    forall i: nat | i < n ensures DropsAt(steps, i, ch) <==> DropsAt(steps[..n], i, ch) {
      DropsAtExtends(steps, i, ch);
    }
    assert !DropsAt(steps, n, ch);
  }

  lemma ListeningStep(y: System, step: Step, ch: Chan)
    requires ch in y.sessions && SessionInv(y, ch)
    ensures Listening(Apply(y, step), ch) ==>
      Listening(y, ch) || (y.sessions[ch].phase.Joined? && step == ReadCurrent(ch))
    ensures Listening(y, ch) && Listening(Apply(y, step), ch) ==>
      (Apply(y, step).sessions[ch].missed <==>
         if PublishesTo(step, y.sessions[ch].group) then |y.server.queues[ch]| == QUEUE_CAPACITY
         else y.sessions[ch].missed)
    ensures y.sessions[ch].phase.Joined? && step == ReadCurrent(ch) ==> !Apply(y, step).sessions[ch].missed
  {}

  lemma OpensJoined(y: System, step: Step, ch: Chan)
    requires ch !in y.sessions && ch in Apply(y, step).sessions
    ensures Apply(y, step).sessions[ch].phase.Joined?
  {}

  lemma PastJoinStep(y: System, step: Step, ch: Chan)
    requires ch in y.sessions && !y.sessions[ch].phase.Joined?
    ensures ch in Apply(y, step).sessions && !Apply(y, step).sessions[ch].phase.Joined?
  {}

  lemma {:induction false} PastJoin(steps: seq<Step>, i: nat, ch: Chan)
    requires i <= |steps| && Listening(Run(steps[..i]), ch)
    ensures ch in Run(steps).sessions && !Run(steps).sessions[ch].phase.Joined?
    decreases |steps|
  {
    if i == |steps| {
      assert steps[..i] == steps;
    } else {
      var init := steps[..|steps| - 1];
      assert init[..i] == steps[..i];
      PastJoin(init, i, ch);
      PastJoinStep(Run(init), steps[|steps| - 1], ch);
    }
  }

  lemma NotBeforeJoin(steps: seq<Step>, ch: Chan)
    requires ch in Run(steps).sessions ==> Run(steps).sessions[ch].phase.Joined?
    ensures !NewestDropped(steps, ch)
  {
    if NewestDropped(steps, ch) {
      var i: nat :| i < |steps| && DropsAt(steps, i, ch);
      PastJoin(steps, i, ch);
    }
  }

  lemma {:induction false} MissedIffDropped(steps: seq<Step>, ch: Chan)
    requires Listening(Run(steps), ch)
    ensures Run(steps).sessions[ch].missed <==> NewestDropped(steps, ch)
  {
    var n := |steps| - 1;
    var init := steps[..n];
    RunSafe(init);
    if ch !in Run(init).sessions {
      OpensJoined(Run(init), steps[n], ch);
    } else {
      ListeningStep(Run(init), steps[n], ch);
      if PublishesTo(steps[n], Run(init).sessions[ch].group) {
        DroppedByPublish(steps, ch);
      } else {
        DroppedByOther(steps, ch);
      }
      if Listening(Run(init), ch) { MissedIffDropped(init, ch); } else { NotBeforeJoin(init, ch); }
    }
  }

  /** A session whose queue was never full at a publication loses nothing at all. */
  lemma NeverFullHoldsLatest(steps: seq<Step>, ch: Chan)
    requires Drained(Run(steps), ch)
    requires forall i :: 0 <= i < |steps| ==> !FullAtPublish(steps, i, ch)
    ensures Run(steps).sessions[ch].plane in Run(steps).planes
    ensures Run(steps).planes[Run(steps).sessions[ch].plane].held
         == Current(Run(steps).server, Run(steps).sessions[ch].group)
  {
    if Run(steps).sessions[ch].missed { DroppedOnlyWhenFull(steps, ch); }
    DrainedHoldsLatest(steps, ch);
  }

  /** Every set a data plane holds came through one of its sessions. */
  ghost predicate Sourced(y: System, d: nat)
    requires d in y.planes
  {
    y.planes[d].held.Some? ==>
      exists ch :: ch in y.sessions && y.sessions[ch].plane == d && y.planes[d].held.value in y.sessions[ch].sent
  }

  lemma StepKeepsSent(y: System, step: Step, ch: Chan)
    requires ch in y.sessions
    ensures ch in Apply(y, step).sessions
    ensures Apply(y, step).sessions[ch].plane == y.sessions[ch].plane
    ensures y.sessions[ch].sent <= Apply(y, step).sessions[ch].sent
  {}

  lemma NewlyHeld(y: System, step: Step, d: nat, m: BackendSet)
    requires SoundDelivery(y, step) && d in Apply(y, step).planes && Apply(y, step).planes[d].held == Some(m)
    requires d in y.planes ==> y.planes[d].held != Some(m)
    ensures step.Deliver? || step.Redeliver?
    ensures step.ch in y.sessions && y.sessions[step.ch].plane == d && m in y.sessions[step.ch].sent
  {}

  lemma StepSourced(y: System, step: Step, d: nat)
    requires SoundDelivery(y, step) && d in Apply(y, step).planes
    requires d in y.planes ==> Sourced(y, d)
    ensures Sourced(Apply(y, step), d)
  {
    var y' := Apply(y, step);
    if y'.planes[d].held.Some? {
      var m := y'.planes[d].held.value;
      if d in y.planes && y.planes[d].held == Some(m) {
        var ch :| ch in y.sessions && y.sessions[ch].plane == d && m in y.sessions[ch].sent;
        StepKeepsSent(y, step, ch);
        assert m in y'.sessions[ch].sent;
      } else {
        NewlyHeld(y, step, d, m);
        StepKeepsSent(y, step, step.ch);
        assert m in y'.sessions[step.ch].sent;
      }
    }
  }

  lemma {:induction false} RunSourced(steps: seq<Step>, d: nat)
    requires d in Run(steps).planes
    ensures Sourced(Run(steps), d)
  {
    var init := steps[..|steps| - 1];
    RunSafe(init);
    if d in Run(init).planes { RunSourced(init, d); }
    StepSourced(Run(init), steps[|steps| - 1], d);
  }

  /** Exactness: when its session is drained, and no other session of the same data plane,
      past or present, was sent the newest set, a data plane is current if and only if the
      group's last publication did not find that session with four sets queued. */
  lemma {:induction false} CurrentIffNotDropped(steps: seq<Step>, ch: Chan)
    requires Drained(Run(steps), ch)
    requires var y := Run(steps); var newest := Current(y.server, y.sessions[ch].group);
      newest.Some? ==> forall c :: c in y.sessions && c != ch && y.sessions[c].plane == y.sessions[ch].plane ==>
        newest.value !in y.sessions[c].sent
    ensures Run(steps).sessions[ch].plane in Run(steps).planes
    ensures Run(steps).planes[Run(steps).sessions[ch].plane].held
              == Current(Run(steps).server, Run(steps).sessions[ch].group)
            <==> !NewestDropped(steps, ch)
  {
    var y := Run(steps);
    RunDelivers(steps);
    assert SessionInv(y, ch) && DeliveryInv(y, ch);
    MissedIffDropped(steps, ch);
    if y.sessions[ch].missed {
      RunSourced(steps, y.sessions[ch].plane);
    } else {
      DrainedHoldsLatest(steps, ch);
    }
  }
}
