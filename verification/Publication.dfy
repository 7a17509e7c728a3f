/** The backend-set publication protocol of one control-plane process: versioned
    publication, bounded subscriber queues, StreamBackends sessions and data planes,
    as a step system over every interleaving, duplication and reordering. */
module Publication {
  import opened Wire

  /** Capacity of each subscriber channel. */
  const QUEUE_CAPACITY: nat := 4

  type Chan = nat

  // ---------------------------------------------------------------------------
  // The server's shared state under its mutex
  // ---------------------------------------------------------------------------

  datatype ServerState = ServerState(
    last: map<string, BackendSet>,
    subs: map<string, set<Chan>>,
    queues: map<Chan, seq<BackendSet>>)

  function Subscribers(subs: map<string, set<Chan>>, group: string): set<Chan> {
    if group in subs then subs[group] else {}
  }

  function NextVersion(last: map<string, BackendSet>, group: string): int {
    if group in last then last[group].version + 1 else 1
  }

  function Stamped(last: map<string, BackendSet>, group: string, content: BackendSet): BackendSet {
    content.(group := group, version := NextVersion(last, group))
  }

  /** The non-blocking send: a full queue drops the message. */
  function Offer(queue: seq<BackendSet>, message: BackendSet): seq<BackendSet> {
    if |queue| < QUEUE_CAPACITY then queue + [message] else queue
  }

  function OfferAll(queues: map<Chan, seq<BackendSet>>, chans: set<Chan>, message: BackendSet)
    : map<Chan, seq<BackendSet>>
  {
    map ch | ch in queues :: if ch in chans then Offer(queues[ch], message) else queues[ch]
  }

  /** The critical section shared by publishIfChanged and forceRepublish. */
  function Publish(s: ServerState, group: string, content: BackendSet): ServerState {
    var message := Stamped(s.last, group, content);
    s.(last := s.last[group := message],
       queues := OfferAll(s.queues, Subscribers(s.subs, group), message))
  }

  function Subscribe(s: ServerState, group: string, ch: Chan): ServerState {
    s.(subs := s.subs[group := Subscribers(s.subs, group) + {ch}],
       queues := s.queues[ch := []])
  }

  function Unsubscribe(s: ServerState, group: string, ch: Chan): ServerState {
    if group in s.subs then s.(subs := s.subs[group := s.subs[group] - {ch}]) else s
  }

  function Current(s: ServerState, group: string): Option<BackendSet> {
    if group in s.last then Some(s.last[group]) else None
  }

  // ---------------------------------------------------------------------------
  // Sessions, data planes and the whole system
  // ---------------------------------------------------------------------------

  /** Where a StreamBackends call is: registered, holding the set it read as current,
      forwarding its queue, or returned. */
  datatype Phase = Joined | Reading(current: Option<BackendSet>) | Streaming | Ended

  /** `wire` is what was sent and is not yet delivered; `sent` is everything ever sent.
      `missed` records that the newest publication of the group never entered this
      session: its queue was full, or the session had ended. */
  datatype Session = Session(
    plane: nat,
    group: string,
    phase: Phase,
    wire: seq<BackendSet>,
    sent: seq<BackendSet>,
    missed: bool)

  /** One Subscriber with its BackendList; `accepted` logs the versions it took. */
  datatype DataPlane = DataPlane(group: string, held: Option<BackendSet>, accepted: seq<int>)

  function HeldVersion(p: DataPlane): int {
    if p.held.Some? then p.held.value.version else 0
  }

  function Receive(p: DataPlane, message: BackendSet): DataPlane {
    if Accepts(HeldVersion(p), message.version)
    then p.(held := Some(message), accepted := p.accepted + [message.version])
    else p
  }

  /** `log` is the publication history of each group. */
  datatype System = System(
    server: ServerState,
    sessions: map<Chan, Session>,
    planes: map<nat, DataPlane>,
    log: map<string, seq<BackendSet>>)

  datatype Step =
    | Boot(d: nat, group: string)
    | PublishStep(group: string, content: BackendSet)
    | Open(ch: Chan, d: nat)
    | ReadCurrent(ch: Chan)
    | SendCurrent(ch: Chan)
    | Forward(ch: Chan)
    | Deliver(ch: Chan, k: nat)
    | Redeliver(ch: Chan, k: nat)
    | Close(ch: Chan)

  function Initial(): System {
    System(ServerState(map[], map[], map[]), map[], map[], map[])
  }

  function LogOf(log: map<string, seq<BackendSet>>, group: string): seq<BackendSet> {
    if group in log then log[group] else []
  }

  function Transmit(s: Session, message: BackendSet): Session {
    s.(wire := s.wire + [message], sent := s.sent + [message])
  }

  /** Bookkeeping of `missed` when `group` publishes while the session's queue is `queue`. */
  function NoteDrop(s: Session, group: string, queue: seq<BackendSet>): Session {
    if s.group == group
    then s.(missed := s.phase.Ended? || |queue| >= QUEUE_CAPACITY)
    else s
  }

  function ApplyPublish(y: System, group: string, content: BackendSet): System {
    y.(server := Publish(y.server, group, content),
       sessions := map ch | ch in y.sessions ::
         NoteDrop(y.sessions[ch], group, if ch in y.server.queues then y.server.queues[ch] else []),
       log := y.log[group := LogOf(y.log, group) + [Stamped(y.server.last, group, content)]])
  }

  /** A step that is not enabled leaves the system as it is. */
  function Apply(y: System, step: Step): System {
    match step
    case Boot(d, group) =>
      if d in y.planes then y else y.(planes := y.planes[d := DataPlane(group, None, [])])
    case PublishStep(group, content) => ApplyPublish(y, group, content)
    case Open(ch, d) =>
      if ch in y.sessions || d !in y.planes then y else
      var group := y.planes[d].group;
      y.(server := Subscribe(y.server, group, ch),
         sessions := y.sessions[ch := Session(d, group, Joined, [], [], false)])
    case ReadCurrent(ch) =>
      if ch !in y.sessions || !y.sessions[ch].phase.Joined? then y else
      var s := y.sessions[ch];
      y.(sessions := y.sessions[ch := s.(phase := Reading(Current(y.server, s.group)), missed := false)])
    case SendCurrent(ch) =>
      if ch !in y.sessions || !y.sessions[ch].phase.Reading? then y else
      var s := y.sessions[ch];
      var sent := if s.phase.current.Some? then Transmit(s, s.phase.current.value) else s;
      y.(sessions := y.sessions[ch := sent.(phase := Streaming)])
    case Forward(ch) =>
      if ch !in y.sessions || !y.sessions[ch].phase.Streaming? then y else
      if ch !in y.server.queues || y.server.queues[ch] == [] then y else
      var queue := y.server.queues[ch];
      y.(server := y.server.(queues := y.server.queues[ch := queue[1..]]),
         sessions := y.sessions[ch := Transmit(y.sessions[ch], queue[0])])
    case Deliver(ch, k) =>
      if ch !in y.sessions || k >= |y.sessions[ch].wire| then y else
      var s := y.sessions[ch];
      if s.plane !in y.planes then y else
      y.(sessions := y.sessions[ch := s.(wire := s.wire[..k] + s.wire[k + 1..])],
         planes := y.planes[s.plane := Receive(y.planes[s.plane], s.wire[k])])
    case Redeliver(ch, k) =>
      if ch !in y.sessions || k >= |y.sessions[ch].sent| then y else
      var s := y.sessions[ch];
      if s.plane !in y.planes then y else
      y.(planes := y.planes[s.plane := Receive(y.planes[s.plane], s.sent[k])])
    case Close(ch) =>
      if ch !in y.sessions || y.sessions[ch].phase.Ended? then y else
      var s := y.sessions[ch];
      y.(server := Unsubscribe(y.server, s.group, ch),
         sessions := y.sessions[ch := s.(phase := Ended)])
  }

  function Run(steps: seq<Step>): System {
    if steps == [] then Initial()
    else Apply(Run(steps[..|steps| - 1]), steps[|steps| - 1])
  }

  // ---------------------------------------------------------------------------
  // Invariants
  // ---------------------------------------------------------------------------

  /** `m` is the set the control plane published for its group under its version. */
  ghost predicate Logged(log: map<string, seq<BackendSet>>, m: BackendSet) {
    m.group in log && 1 <= m.version <= |log[m.group]| && log[m.group][m.version - 1] == m
  }

  ghost predicate AllLogged(log: map<string, seq<BackendSet>>, group: string, ms: seq<BackendSet>) {
    forall i :: 0 <= i < |ms| ==> ms[i].group == group && Logged(log, ms[i])
  }

  /** Version v of a group is the v-th set published for it. */
  ghost predicate Numbered(group: string, history: seq<BackendSet>) {
    forall i :: 0 <= i < |history| ==> history[i].version == i + 1 && history[i].group == group
  }

  ghost predicate LogInv(y: System) {
    && y.server.last.Keys == y.log.Keys
    && forall g :: g in y.log ==> Tracks(g, y.log[g], y.server.last[g])
  }

  /** The current set is the end of the group's numbered history. */
  ghost predicate Tracks(group: string, history: seq<BackendSet>, last: BackendSet) {
    history != [] && last == history[|history| - 1] && Numbered(group, history)
  }

  /** Everything a session queues, has read, has sent or has on the wire was published. */
  ghost predicate Carries(log: map<string, seq<BackendSet>>, s: Session, queue: seq<BackendSet>) {
    && |queue| <= QUEUE_CAPACITY
    && AllLogged(log, s.group, queue)
    && AllLogged(log, s.group, s.wire)
    && AllLogged(log, s.group, s.sent)
    && (forall i :: 0 <= i < |s.wire| ==> s.wire[i] in s.sent)
    && (s.phase.Reading? && s.phase.current.Some? ==> AllLogged(log, s.group, [s.phase.current.value]))
  }

  ghost predicate SessionInv(y: System, ch: Chan)
    requires ch in y.sessions
  {
    var s := y.sessions[ch];
    && s.plane in y.planes
    && y.planes[s.plane].group == s.group
    && ch in y.server.queues
    && (forall g :: ch in Subscribers(y.server.subs, g) <==> g == s.group && !s.phase.Ended?)
    && Carries(y.log, s, y.server.queues[ch])
  }

  ghost predicate PlaneInv(log: map<string, seq<BackendSet>>, p: DataPlane) {
    && (p.held.Some? ==> p.held.value.group == p.group && Logged(log, p.held.value))
    && (p.held.Some? <==> p.accepted != [])
    && (p.held.Some? ==> p.accepted[|p.accepted| - 1] == p.held.value.version)
    && (forall i, j :: 0 <= i < j < |p.accepted| ==> p.accepted[i] < p.accepted[j])
  }

  ghost predicate SafetyInv(y: System) {
    && LogInv(y)
    && (forall ch :: ch in y.sessions ==> SessionInv(y, ch))
    && (forall g, ch :: ch in Subscribers(y.server.subs, g) ==> ch in y.sessions)
    && (forall d :: d in y.planes ==> PlaneInv(y.log, y.planes[d]))
  }

  ghost predicate Extends(log: map<string, seq<BackendSet>>, log': map<string, seq<BackendSet>>) {
    forall g :: g in log ==> g in log' && log[g] <= log'[g]
  }

  lemma CarriesExtends(log: map<string, seq<BackendSet>>, log': map<string, seq<BackendSet>>,
                       s: Session, queue: seq<BackendSet>)
    requires Extends(log, log') && Carries(log, s, queue)
    ensures Carries(log', s, queue)
  {}

  lemma CarriesOffer(log: map<string, seq<BackendSet>>, s: Session, queue: seq<BackendSet>, m: BackendSet)
    requires Carries(log, s, queue) && m.group == s.group && Logged(log, m)
    ensures Carries(log, s, Offer(queue, m))
  {}

  lemma PublishExtends(y: System, group: string, content: BackendSet)
    requires LogInv(y)
    ensures LogInv(ApplyPublish(y, group, content))
    ensures Extends(y.log, ApplyPublish(y, group, content).log)
    ensures Logged(ApplyPublish(y, group, content).log, Stamped(y.server.last, group, content))
  {
    var y' := ApplyPublish(y, group, content);
    var before, message := LogOf(y.log, group), Stamped(y.server.last, group, content);
    assert group in y.log ==> Tracks(group, y.log[group], y.server.last[group]);
    assert y'.log[group] == before + [message] && y'.server.last[group] == message;
    TracksNext(group, before, message);
  }

  lemma TracksNext(group: string, history: seq<BackendSet>, message: BackendSet)
    requires Numbered(group, history) && message.group == group && message.version == |history| + 1
    ensures Tracks(group, history + [message], message)
  {}

  lemma PublishSession(y: System, group: string, content: BackendSet, ch: Chan)
    requires SafetyInv(y) && ch in y.sessions
    ensures SessionInv(ApplyPublish(y, group, content), ch)
  {
    var y' := ApplyPublish(y, group, content);
    var message := Stamped(y.server.last, group, content);
    var s := y.sessions[ch];
    PublishExtends(y, group, content);
    assert SessionInv(y, ch);
    CarriesExtends(y.log, y'.log, s, y.server.queues[ch]);
    if ch in Subscribers(y.server.subs, group) && s.group == group {
      CarriesOffer(y'.log, s, y.server.queues[ch], message);
    }
  }

  lemma ReceiveSafe(log: map<string, seq<BackendSet>>, p: DataPlane, m: BackendSet)
    requires PlaneInv(log, p) && m.group == p.group && Logged(log, m)
    ensures PlaneInv(log, Receive(p, m))
    ensures HeldVersion(p) <= HeldVersion(Receive(p, m))
    ensures m.version <= HeldVersion(Receive(p, m))
    ensures Receive(p, m).held == p.held || Receive(p, m).held == Some(m)
  {}

  lemma SessionFrame(y: System, y': System, ch: Chan)
    requires ch in y.sessions && SessionInv(y, ch) && y'.log == y.log
    requires ch in y'.sessions && y'.sessions[ch] == y.sessions[ch]
    requires ch in y'.server.queues && y'.server.queues[ch] == y.server.queues[ch]
    requires forall g :: ch in Subscribers(y'.server.subs, g) <==> ch in Subscribers(y.server.subs, g)
    requires y.sessions[ch].plane in y'.planes
    requires y'.planes[y.sessions[ch].plane].group == y.planes[y.sessions[ch].plane].group
    ensures SessionInv(y', ch)
  {}

  lemma CarriesTransmit(log: map<string, seq<BackendSet>>, s: Session, queue: seq<BackendSet>, m: BackendSet)
    requires Carries(log, s, queue) && m.group == s.group && Logged(log, m)
    ensures Carries(log, Transmit(s, m).(phase := Streaming), queue)
  {}

  lemma CarriesDeliver(log: map<string, seq<BackendSet>>, s: Session, queue: seq<BackendSet>, k: nat)
    requires Carries(log, s, queue) && k < |s.wire|
    ensures Carries(log, s.(wire := s.wire[..k] + s.wire[k + 1..]), queue)
  {
    var rest := s.wire[..k] + s.wire[k + 1..];
    assert forall i :: 0 <= i < |rest| ==> rest[i] == s.wire[if i < k then i else i + 1];
  }

  lemma CarriesRead(y: System, s: Session, queue: seq<BackendSet>)
    requires LogInv(y) && Carries(y.log, s, queue)
    ensures Carries(y.log, s.(phase := Reading(Current(y.server, s.group)), missed := false), queue)
  {
    if s.group in y.log { assert Tracks(s.group, y.log[s.group], y.server.last[s.group]); }
  }

  lemma CarriesEnd(log: map<string, seq<BackendSet>>, s: Session, queue: seq<BackendSet>)
    requires Carries(log, s, queue)
    ensures Carries(log, s.(phase := Ended), queue)
    ensures Carries(log, s.(phase := Streaming), queue)
    ensures queue != [] ==> Carries(log, s, queue[1..])
  {}

  lemma SubscribersJoin(s: ServerState, group: string, ch: Chan)
    requires forall g :: ch !in Subscribers(s.subs, g)
    ensures forall g :: ch in Subscribers(Subscribe(s, group, ch).subs, g) <==> g == group
  {
    forall g ensures ch in Subscribers(Subscribe(s, group, ch).subs, g) <==> g == group {
      assert ch !in Subscribers(s.subs, g);
    }
  }

  lemma SubscribersLeave(s: ServerState, group: string, ch: Chan)
    requires forall g :: ch in Subscribers(s.subs, g) ==> g == group
    ensures forall g :: ch !in Subscribers(Unsubscribe(s, group, ch).subs, g)
  {
    forall g ensures ch !in Subscribers(Unsubscribe(s, group, ch).subs, g) {
      assert ch in Subscribers(s.subs, g) ==> g == group;
    }
  }

  /** A session's own step leaves it queued and subscribed as its phase says. */
  lemma OwnSubscription(y: System, step: Step)
    requires !step.Boot? && !step.PublishStep? && step.ch in y.sessions && SessionInv(y, step.ch)
    ensures var y', ch := Apply(y, step), step.ch;
      && ch in y'.sessions && y'.sessions[ch].plane == y.sessions[ch].plane
      && y'.sessions[ch].group == y.sessions[ch].group && ch in y'.server.queues
      && forall g :: ch in Subscribers(y'.server.subs, g) <==>
           g == y'.sessions[ch].group && !y'.sessions[ch].phase.Ended?
  {
    if step.Close? { SubscribersLeave(y.server, y.sessions[step.ch].group, step.ch); }
  }

  /** A session's own step moves published sets only. */
  lemma OwnCarries(y: System, step: Step)
    requires LogInv(y) && !step.Boot? && !step.PublishStep?
    requires step.ch in y.sessions && step.ch in y.server.queues
    requires Carries(y.log, y.sessions[step.ch], y.server.queues[step.ch])
    ensures var y', ch := Apply(y, step), step.ch;
      ch in y'.sessions && ch in y'.server.queues && Carries(y.log, y'.sessions[ch], y'.server.queues[ch])
  {
    var s, queue := y.sessions[step.ch], y.server.queues[step.ch];
    CarriesEnd(y.log, s, queue);
    match step
    case Open(_, _) =>
    case ReadCurrent(_) =>
      CarriesRead(y, s, queue);
    case SendCurrent(_) =>
      if s.phase.Reading? && s.phase.current.Some? {
        assert [s.phase.current.value][0] == s.phase.current.value;
        CarriesTransmit(y.log, s, queue, s.phase.current.value);
      }
    case Forward(_) =>
      if s.phase.Streaming? && queue != [] { CarriesTransmit(y.log, s, queue[1..], queue[0]); }
    case Deliver(_, k) =>
      if k < |s.wire| { CarriesDeliver(y.log, s, queue, k); }
    case Redeliver(_, _) =>
    case Close(_) =>
  }

  lemma OpensSession(y: System, ch: Chan, d: nat)
    requires ch !in y.sessions && d in y.planes && forall g :: ch !in Subscribers(y.server.subs, g)
    ensures SessionInv(Apply(y, Open(ch, d)), ch)
  {
    SubscribersJoin(y.server, y.planes[d].group, ch);
  }

  /** The steps of one session keep its own invariant. */
  lemma OwnSession(y: System, step: Step)
    requires LogInv(y)
    requires !step.Boot? && !step.PublishStep? && step.ch in Apply(y, step).sessions
    requires step.ch in y.sessions ==> SessionInv(y, step.ch)
    requires step.ch !in y.sessions ==> forall g :: step.ch !in Subscribers(y.server.subs, g)
    ensures SessionInv(Apply(y, step), step.ch)
  {
    if step.ch !in y.sessions {
      OpensSession(y, step.ch, step.d);
    } else {
      OwnSubscription(y, step);
      OwnCarries(y, step);
      PlaneFrame(y, step, y.sessions[step.ch].plane);
      LastFrame(y, step);
    }
  }

  /** A step of one session moves no other channel in or out of a subscriber set. */
  lemma SubscribersFrame(y: System, step: Step, ch: Chan, g: string)
    requires step.Boot? || step.PublishStep? || step.ch != ch
    ensures ch in Subscribers(Apply(y, step).server.subs, g) <==> ch in Subscribers(y.server.subs, g)
  {}

  lemma PlaneFrame(y: System, step: Step, d: nat)
    requires d in y.planes
    ensures d in Apply(y, step).planes && Apply(y, step).planes[d].group == y.planes[d].group
  {}

  lemma RecordFrame(y: System, step: Step, ch: Chan)
    requires ch in y.sessions && ch in y.server.queues
    requires step.Boot? || (!step.PublishStep? && step.ch != ch)
    ensures Apply(y, step).log == y.log
    ensures ch in Apply(y, step).sessions && Apply(y, step).sessions[ch] == y.sessions[ch]
    ensures ch in Apply(y, step).server.queues && Apply(y, step).server.queues[ch] == y.server.queues[ch]
  {}

  lemma LastFrame(y: System, step: Step)
    requires !step.PublishStep?
    ensures Apply(y, step).server.last == y.server.last && Apply(y, step).log == y.log
  {}

  lemma OtherSession(y: System, step: Step, ch: Chan)
    requires ch in y.sessions && SessionInv(y, ch)
    requires step.Boot? || (!step.PublishStep? && step.ch != ch)
    ensures SessionInv(Apply(y, step), ch)
  {
    var y' := Apply(y, step);
    forall g ensures ch in Subscribers(y'.server.subs, g) <==> ch in Subscribers(y.server.subs, g) {
      SubscribersFrame(y, step, ch, g);
    }
    PlaneFrame(y, step, y.sessions[ch].plane);
    RecordFrame(y, step, ch);
    SessionFrame(y, y', ch);
  }

  lemma SubscribersHaveSessions(y: System, step: Step, g: string, ch: Chan)
    requires ch in Subscribers(y.server.subs, g) ==> ch in y.sessions
    requires ch in Subscribers(Apply(y, step).server.subs, g)
    ensures ch in Apply(y, step).sessions
  {
    if step.Boot? || step.PublishStep? || step.ch != ch {
      SubscribersFrame(y, step, ch, g);
    }
  }

  /** The session a delivery goes through, if the step is one, is sound. */
  ghost predicate SoundDelivery(y: System, step: Step) {
    (step.Deliver? || step.Redeliver?) && step.ch in y.sessions ==> SessionInv(y, step.ch)
  }

  lemma StepPlane(y: System, step: Step, d: nat)
    requires SoundDelivery(y, step) && !step.PublishStep? && d in Apply(y, step).planes
    requires d in y.planes ==> PlaneInv(y.log, y.planes[d])
    ensures PlaneInv(y.log, Apply(y, step).planes[d])
  {
    if (step.Deliver? || step.Redeliver?) && step.ch in y.sessions && y.sessions[step.ch].plane == d {
      var s := y.sessions[step.ch];
      if step.Deliver? && step.k < |s.wire| {
        ReceiveSafe(y.log, y.planes[s.plane], s.wire[step.k]);
      } else if step.Redeliver? && step.k < |s.sent| {
        ReceiveSafe(y.log, y.planes[s.plane], s.sent[step.k]);
      }
    }
  }

  lemma StepLog(y: System, step: Step)
    requires LogInv(y)
    ensures LogInv(Apply(y, step)) && Extends(y.log, Apply(y, step).log)
  {
    if step.PublishStep? {
      PublishExtends(y, step.group, step.content);
    } else {
      LastFrame(y, step);
    }
  }

  lemma StepSession(y: System, step: Step, ch: Chan)
    requires SafetyInv(y) && ch in Apply(y, step).sessions
    ensures SessionInv(Apply(y, step), ch)
  {
    assert ch in y.sessions ==> SessionInv(y, ch);
    if step.PublishStep? {
      PublishSession(y, step.group, step.content, ch);
    } else if !step.Boot? && step.ch == ch {
      OwnSession(y, step);
    } else {
      OtherSession(y, step, ch);
    }
  }

  lemma PlaneExtends(log: map<string, seq<BackendSet>>, log': map<string, seq<BackendSet>>, p: DataPlane)
    requires Extends(log, log') && PlaneInv(log, p)
    ensures PlaneInv(log', p)
  {}

  lemma PublishKeepsPlanes(y: System, group: string, content: BackendSet)
    ensures Apply(y, PublishStep(group, content)).planes == y.planes
  {}

  lemma StepKeepsPlane(y: System, step: Step, d: nat)
    requires LogInv(y) && SoundDelivery(y, step) && d in Apply(y, step).planes
    requires d in y.planes ==> PlaneInv(y.log, y.planes[d])
    ensures PlaneInv(Apply(y, step).log, Apply(y, step).planes[d])
  {
    if step.PublishStep? {
      PublishExtends(y, step.group, step.content);
      PublishKeepsPlanes(y, step.group, step.content);
      PlaneExtends(y.log, Apply(y, step).log, y.planes[d]);
    } else {
      StepPlane(y, step, d);
      LastFrame(y, step);
    }
  }

  lemma StepSafe(y: System, step: Step)
    requires SafetyInv(y)
    ensures SafetyInv(Apply(y, step))
    ensures Extends(y.log, Apply(y, step).log)
  {
    var y' := Apply(y, step);
    StepLog(y, step);
    forall d | d in y'.planes ensures PlaneInv(y'.log, y'.planes[d]) { StepKeepsPlane(y, step, d); }
    forall ch | ch in y'.sessions ensures SessionInv(y', ch) { StepSession(y, step, ch); }
    forall g, ch | ch in Subscribers(y'.server.subs, g) ensures ch in y'.sessions {
      SubscribersHaveSessions(y, step, g, ch);
    }
  }

  lemma {:induction false} RunSafe(steps: seq<Step>)
    ensures SafetyInv(Run(steps))
  {
    if steps == [] {
    } else {
      RunSafe(steps[..|steps| - 1]);
      StepSafe(Run(steps[..|steps| - 1]), steps[|steps| - 1]);
    }
  }

  // ---------------------------------------------------------------------------
  // Safety over whole runs
  // ---------------------------------------------------------------------------

  /** `m` is queued, read, sent, in flight, held by a data plane or current. */
  ghost predicate Visible(y: System, m: BackendSet) {
    || (m.group in y.server.last && y.server.last[m.group] == m)
    || (exists ch :: ch in y.server.queues && ch in y.sessions && m in y.server.queues[ch])
    || (exists ch :: ch in y.sessions && InSession(y.sessions[ch], m))
    || (exists d :: d in y.planes && y.planes[d].held == Some(m))
  }

  ghost predicate InSession(s: Session, m: BackendSet) {
    m in s.wire || m in s.sent || s.phase == Reading(Some(m))
  }

  lemma SessionIsLogged(y: System, ch: Chan, m: BackendSet)
    requires ch in y.sessions && SessionInv(y, ch)
    requires InSession(y.sessions[ch], m) || m in y.server.queues[ch]
    ensures Logged(y.log, m)
  {
    assert y.sessions[ch].phase == Reading(Some(m)) ==> [m][0] == m;
  }

  lemma CurrentIsLogged(y: System, group: string)
    requires LogInv(y) && group in y.server.last && y.server.last[group].group == group
    ensures Logged(y.log, y.server.last[group])
  {
    assert Tracks(group, y.log[group], y.server.last[group]);
  }

  lemma VisibleIsLogged(y: System, m: BackendSet)
    requires SafetyInv(y) && Visible(y, m)
    ensures Logged(y.log, m)
  {
    if m.group in y.server.last && y.server.last[m.group] == m {
      CurrentIsLogged(y, m.group);
    } else if ch :| ch in y.sessions && ch in y.server.queues
                    && (InSession(y.sessions[ch], m) || m in y.server.queues[ch]) {
      SessionIsLogged(y, ch, m);
    } else if ch :| ch in y.sessions && InSession(y.sessions[ch], m) {
      SessionIsLogged(y, ch, m);
    }
  }

  lemma {:induction false} RunExtends(steps: seq<Step>, n: nat)
    requires n <= |steps|
    ensures Extends(Run(steps[..n]).log, Run(steps).log)
    decreases |steps|
  {
    if n == |steps| {
      assert steps[..n] == steps;
    } else {
      var init := steps[..|steps| - 1];
      assert init[..n] == steps[..n];
      RunExtends(init, n);
      RunSafe(init);
      StepSafe(Run(init), steps[|steps| - 1]);
    }
  }

  /** Each version of a group names exactly one set: two messages seen anywhere at any
      two moments of a run, with one group and one version, are the same message. */
  lemma {:induction false} VersionsNameOneSet(steps: seq<Step>, n: nat, earlier: BackendSet, later: BackendSet)
    requires n <= |steps|
    requires Visible(Run(steps[..n]), earlier) && Visible(Run(steps), later)
    requires earlier.group == later.group && earlier.version == later.version
    ensures earlier == later
  {
    RunSafe(steps[..n]);
    RunSafe(steps);
    VisibleIsLogged(Run(steps[..n]), earlier);
    VisibleIsLogged(Run(steps), later);
    RunExtends(steps, n);
  }

  /** What a data plane holds is the set published for its group under its version,
      and the versions it accepted strictly increase. */
  lemma {:induction false} HeldWasPublished(steps: seq<Step>, d: nat)
    requires d in Run(steps).planes
    ensures var y := Run(steps); var p := y.planes[d];
      && (forall i, j :: 0 <= i < j < |p.accepted| ==> p.accepted[i] < p.accepted[j])
      && (p.held.Some? ==>
            && p.held.value.group == p.group
            && p.group in y.log
            && 1 <= p.held.value.version <= |y.log[p.group]|
            && y.log[p.group][p.held.value.version - 1] == p.held.value)
  {
    RunSafe(steps);
    assert PlaneInv(Run(steps).log, Run(steps).planes[d]);
  }

  /** A data plane never goes back: its log of accepted versions only grows. */
  lemma {:induction false} AcceptedOnlyGrows(steps: seq<Step>, n: nat, d: nat)
    requires n <= |steps| && d in Run(steps[..n]).planes
    ensures d in Run(steps).planes
    ensures Run(steps[..n]).planes[d].accepted <= Run(steps).planes[d].accepted
    ensures HeldVersion(Run(steps[..n]).planes[d]) <= HeldVersion(Run(steps).planes[d])
    decreases |steps|
  {
    if n == |steps| {
      assert steps[..n] == steps;
    } else {
      var init := steps[..|steps| - 1];
      assert init[..n] == steps[..n];
      AcceptedOnlyGrows(init, n, d);
      RunSafe(init);
      assert PlaneInv(Run(init).log, Run(init).planes[d]);
      StepKeepsAccepted(Run(init), steps[|steps| - 1], d);
    }
  }

  lemma StepKeepsAccepted(y: System, step: Step, d: nat)
    requires d in y.planes && SoundDelivery(y, step)
    ensures d in Apply(y, step).planes
    ensures y.planes[d].accepted <= Apply(y, step).planes[d].accepted
    ensures HeldVersion(y.planes[d]) <= HeldVersion(Apply(y, step).planes[d])
  {
    if (step.Deliver? || step.Redeliver?) && step.ch in y.sessions {
      var s := y.sessions[step.ch];
      if step.Deliver? && step.k < |s.wire| {
        ReceiveGrows(y.planes[s.plane], s.wire[step.k]);
      } else if step.Redeliver? && step.k < |s.sent| {
        ReceiveGrows(y.planes[s.plane], s.sent[step.k]);
      }
    }
  }

  lemma ReceiveGrows(p: DataPlane, m: BackendSet)
    requires m.version >= 1
    ensures p.accepted <= Receive(p, m).accepted
    ensures HeldVersion(p) <= HeldVersion(Receive(p, m)) && m.version <= HeldVersion(Receive(p, m))
  {}
}
