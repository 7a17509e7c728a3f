/** Resolving a request to a backend group, with exact weighted splitting. */
module Resolution {
  import opened Wire
  import opened Routes
  import opened Routing

  // ---------------------------------------------------------------------------
  // Weighted splitting
  // ---------------------------------------------------------------------------

  function Prefix(split: seq<RouteTarget>, i: nat): int
    requires i <= |split|
  {
    if i == 0 then 0 else Prefix(split, i - 1) + split[i - 1].weight
  }

  function Total(split: seq<RouteTarget>): int {
    Prefix(split, |split|)
  }

  /** The target a running draw `n` stops at from `i` on; the length when it runs past all. */
  function PickFrom(split: seq<RouteTarget>, i: nat, n: int): (k: nat)
    requires i <= |split|
    ensures i <= k <= |split|
    decreases |split| - i
  {
    if i == |split| then i
    else if n < split[i].weight then i
    else PickFrom(split, i + 1, n - split[i].weight)
  }

  predicate Positive(split: seq<RouteTarget>) {
    forall i :: 0 <= i < |split| ==> split[i].weight >= 1
  }

  lemma {:induction false} PrefixRises(split: seq<RouteTarget>, i: nat, j: nat)
    requires Positive(split) && i <= j <= |split|
    ensures Prefix(split, i) + (j - i) <= Prefix(split, j)
  {
    if i == j {
    } else {
      PrefixRises(split, i, j - 1);
    }
  }

  /** A draw stops at the target whose share of [0, total) contains it. */
  lemma {:induction false} PickInterval(split: seq<RouteTarget>, i: nat, n: int, k: nat)
    requires Positive(split) && i <= k < |split| && Prefix(split, i) <= n
    ensures PickFrom(split, i, n - Prefix(split, i)) == k <==>
            Prefix(split, k) <= n < Prefix(split, k + 1)
    decreases |split| - i
  {
    PrefixRises(split, i, k);
    if n < Prefix(split, i + 1) {
      if i < k { PrefixRises(split, i + 1, k); }
    } else if i < k {
      PickInterval(split, i + 1, n, k);
    } else {
      assert PickFrom(split, i, n - Prefix(split, i)) >= i + 1;
    }
  }

  function DrawsFor(split: seq<RouteTarget>, k: nat): set<int> {
    set n | 0 <= n < Total(split) && PickFrom(split, 0, n) == k
  }

  function Interval(lo: int, hi: int): (s: set<int>)
    ensures forall n :: n in s <==> lo <= n < hi
    decreases hi - lo
  {
    if lo >= hi then {} else Interval(lo, hi - 1) + {hi - 1}
  }

  lemma {:induction false} IntervalSize(lo: int, hi: int)
    requires lo <= hi
    ensures |Interval(lo, hi)| == hi - lo
    decreases hi - lo
  {
    if lo == hi {
    } else {
      IntervalSize(lo, hi - 1);
    }
  }

  /** Exactly weight_k of the draws in [0, total) select target k, and none falls through. */
  lemma SplitExactlyProportional(split: seq<RouteTarget>, k: nat)
    requires Positive(split) && k < |split|
    ensures |DrawsFor(split, k)| == split[k].weight
    ensures DrawsFor(split, |split|) == {}
  {
    PrefixRises(split, 0, k);
    PrefixRises(split, k + 1, |split|);
    forall n | 0 <= n < Total(split)
      ensures PickFrom(split, 0, n) == k <==> Prefix(split, k) <= n < Prefix(split, k + 1)
      ensures PickFrom(split, 0, n) < |split|
    {
      PickInterval(split, 0, n, k);
      DrawLands(split, 0, n);
    }
    assert DrawsFor(split, k) == Interval(Prefix(split, k), Prefix(split, k + 1));
    IntervalSize(Prefix(split, k), Prefix(split, k + 1));
  }

  lemma {:induction false} DrawLands(split: seq<RouteTarget>, i: nat, n: int)
    requires i <= |split| && Prefix(split, i) <= n < Total(split)
    ensures PickFrom(split, i, n - Prefix(split, i)) < |split|
    decreases |split| - i
  {
    if n - Prefix(split, i) < split[i].weight {
    } else {
      DrawLands(split, i + 1, n);
    }
  }

  function PickGroup(split: seq<RouteTarget>, d: nat): string
    requires split != []
  {
    if |split| == 1 || Total(split) <= 0 then split[0].group
    else
      var k := PickFrom(split, 0, d % Total(split));
      if k < |split| then split[k].group else split[|split| - 1].group
  }

  /** The share of a group: the weights of all targets that name it, among the first `n`. */
  function ShareOf(split: seq<RouteTarget>, group: string, n: nat): int
    requires n <= |split|
  {
    if n == 0 then 0
    else ShareOf(split, group, n - 1) + (if split[n - 1].group == group then split[n - 1].weight else 0)
  }

  /** The draws that stop at one of the first `n` targets, and at one of that group. */
  function GroupDraws(split: seq<RouteTarget>, group: string, n: nat): set<int>
    requires n <= |split|
  {
    set d | 0 <= d < Total(split) && PickFrom(split, 0, d) < n && split[PickFrom(split, 0, d)].group == group
  }

  lemma {:induction false} GroupDrawsCount(split: seq<RouteTarget>, group: string, n: nat)
    requires Positive(split) && n <= |split|
    ensures |GroupDraws(split, group, n)| == ShareOf(split, group, n)
  {
    if n == 0 {
      assert GroupDraws(split, group, 0) == {};
    } else {
      var k := n - 1;
      GroupDrawsCount(split, group, k);
      SplitExactlyProportional(split, k);
      var before, here := GroupDraws(split, group, k), DrawsFor(split, k);
      if split[k].group == group {
        assert GroupDraws(split, group, n) == before + here;
        assert before !! here;
      } else {
        assert GroupDraws(split, group, n) == before;
      }
    }
  }

  /** A draw below the total goes to the target whose interval holds it. */
  lemma PickGroupLands(split: seq<RouteTarget>, d: nat)
    requires Positive(split) && split != [] && d < Total(split)
    ensures PickFrom(split, 0, d) < |split| && PickGroup(split, d) == split[PickFrom(split, 0, d)].group
  {
    DrawLands(split, 0, d);
    SmallDraw(d, Total(split));
  }

  lemma SmallDraw(d: nat, total: int)
    requires d < total
    ensures d % total == d
  {}

  /** The draws that send traffic to a group. */
  function DrawsTo(split: seq<RouteTarget>, group: string): set<int>
    requires split != []
  {
    set d | 0 <= d < Total(split) && PickGroup(split, d) == group
  }

  /** Traffic splitting is exactly proportional: of the draws below the total, a group gets
      exactly as many as the weights of the targets that name it add up to. */
  lemma GroupsShareExactly(split: seq<RouteTarget>, group: string)
    requires Positive(split) && split != []
    ensures |DrawsTo(split, group)| == ShareOf(split, group, |split|)
  {
    GroupDrawsCount(split, group, |split|);
    forall d | 0 <= d < Total(split)
      ensures PickFrom(split, 0, d) < |split| && PickGroup(split, d) == split[PickFrom(split, 0, d)].group
    {
      PickGroupLands(split, d);
    }
    assert DrawsTo(split, group) == GroupDraws(split, group, |split|);
  }

  /** So a target whose group no other names gets exactly its weight. */
  lemma {:induction false} ShareOfOne(split: seq<RouteTarget>, k: nat, n: nat)
    requires k < |split| && n <= |split| && forall j :: 0 <= j < |split| && j != k ==> split[j].group != split[k].group
    ensures ShareOf(split, split[k].group, n) == if k < n then split[k].weight else 0
  {
    if n == 0 {
    } else {
      ShareOfOne(split, k, n - 1);
    }
  }

  lemma TargetGetsItsWeight(split: seq<RouteTarget>, k: nat)
    requires Positive(split) && k < |split|
    requires forall j :: 0 <= j < |split| && j != k ==> split[j].group != split[k].group
    ensures |DrawsTo(split, split[k].group)| == split[k].weight
  {
    GroupsShareExactly(split, split[k].group);
    ShareOfOne(split, k, |split|);
  }

  /** pickSplit: `d` is the random draw. */
  method PickSplit(split: seq<RouteTarget>, d: nat) returns (group: string)
    requires split != []
    ensures group == PickGroup(split, d)
  {
    if |split| == 1 {
      return split[0].group;
    }
    var total := 0;
    for i := 0 to |split|
      invariant total == Prefix(split, i)
    {
      total := total + split[i].weight;
    }
    if total <= 0 {
      return split[0].group;
    }
    var n := d % total;
    for i := 0 to |split|
      invariant PickFrom(split, i, n) == PickFrom(split, 0, d % total)
    {
      if n < split[i].weight {
        return split[i].group;
      }
      n := n - split[i].weight;
    }
    return split[|split| - 1].group;
  }

  // ---------------------------------------------------------------------------
  // First match
  // ---------------------------------------------------------------------------

  /** The first rule that matches, or the number of rules. */
  function FirstMatch(h: Http, rules: seq<Rule>, r: Request): (i: nat)
    ensures i <= |rules|
    ensures i < |rules| ==> RuleMatches(h, rules[i], r)
    ensures forall j :: 0 <= j < i ==> !RuleMatches(h, rules[j], r)
  {
    if rules == [] then 0
    else if RuleMatches(h, rules[0], r) then 0
    else 1 + FirstMatch(h, rules[1..], r)
  }

  function Destination(rule: Rule, d: nat): string {
    if rule.split == [] then rule.targetGroup else PickGroup(rule.split, d)
  }

  function Resolved(h: Http, rules: seq<Rule>, defaultGroup: string, r: Request, d: nat): string {
    var i := FirstMatch(h, rules, r);
    if i < |rules| then Destination(rules[i], d) else defaultGroup
  }

  /** `i` is the first stored route that matches, or none does and `i` is their number. */
  predicate FirstStored(h: Http, routes: seq<Route>, r: Request, i: nat) {
    && i <= |routes|
    && (forall j :: 0 <= j < i ==> !MatchesRequest(h, routes[j], r))
    && (i < |routes| ==> MatchesRequest(h, routes[i], r))
  }

  function PipedAll(routes: seq<Route>): (rules: seq<Rule>)
    ensures |rules| == |routes| && forall i :: 0 <= i < |routes| ==> rules[i] == Piped(routes[i])
  {
    seq(|routes|, i requires 0 <= i < |routes| => Piped(routes[i]))
  }

  /** The pipeline preserves meaning: after publication and update, every request goes where
      its first matching stored route sends it, and to the default group exactly when none
      matches. */
  lemma PipelineResolves(h: Http, routes: seq<Route>, defaultGroup: string, r: Request, d: nat, i: nat)
    requires forall j :: 0 <= j < |routes| ==> AllNamed(routes[j])
    requires FirstStored(h, routes, r, i)
    ensures FirstMatch(h, PipedAll(routes), r) == i
    ensures Resolved(h, PipedAll(routes), defaultGroup, r, d)
         == if i == |routes| then defaultGroup
            else if Usable(routes[i].split) == [] then routes[i].targetGroup
            else PickGroup(Usable(routes[i].split), d)
  {
    var rules := PipedAll(routes);
    forall j | 0 <= j < |routes| ensures RuleMatches(h, rules[j], r) == MatchesRequest(h, routes[j], r) {
      PipedMatches(h, routes[j], r);
    }
    if i < |routes| { PipedParts(routes[i]); }
  }

  /** Through the pipeline: a request whose first matching stored route splits its traffic is
      sent to a group by exactly that group's share of the draws. */
  lemma RequestsShareExactly(h: Http, routes: seq<Route>, defaultGroup: string, r: Request, i: nat, group: string)
    requires forall j :: 0 <= j < |routes| ==> AllNamed(routes[j])
    requires FirstStored(h, routes, r, i) && i < |routes| && Usable(routes[i].split) != []
    ensures var split := Usable(routes[i].split);
      |set d | 0 <= d < Total(split) && Resolved(h, PipedAll(routes), defaultGroup, r, d) == group|
        == ShareOf(split, group, |split|)
  {
    var split := Usable(routes[i].split);
    GroupsShareExactly(split, group);
    forall d | 0 <= d < Total(split)
      ensures Resolved(h, PipedAll(routes), defaultGroup, r, d) == PickGroup(split, d)
    {
      PipelineResolves(h, routes, defaultGroup, r, d, i);
    }
    assert (set d | 0 <= d < Total(split) && Resolved(h, PipedAll(routes), defaultGroup, r, d) == group)
        == DrawsTo(split, group);
  }

  // ---------------------------------------------------------------------------
  // The groups a data plane needs
  // ---------------------------------------------------------------------------

  ghost predicate Targets(rule: Rule, group: string) {
    rule.targetGroup == group || exists k :: 0 <= k < |rule.split| && rule.split[k].group == group
  }

  ghost predicate TargetsUpTo(rule: Rule, k: nat, group: string)
    requires k <= |rule.split|
  {
    rule.targetGroup == group || exists j :: 0 <= j < k && rule.split[j].group == group
  }

  predicate Distinct(s: seq<string>) {
    forall i, j :: 0 <= i < j < |s| ==> s[i] != s[j]
  }

  /** The default group and every non-empty group some rule names, each once. */
  ghost predicate IsTargetGroups(rules: seq<Rule>, defaultGroup: string, groups: seq<string>) {
    && Distinct(groups)
    && forall g :: g in groups <==>
         g == defaultGroup || (g != "" && exists i :: 0 <= i < |rules| && Targets(rules[i], g))
  }

  lemma PickedFromSplit(split: seq<RouteTarget>, d: nat)
    requires split != []
    ensures exists k :: 0 <= k < |split| && split[k].group == PickGroup(split, d)
  {
    if |split| == 1 || Total(split) <= 0 {
      assert split[0].group == PickGroup(split, d);
    } else {
      var k := PickFrom(split, 0, d % Total(split));
      assert split[if k < |split| then k else |split| - 1].group == PickGroup(split, d);
    }
  }

  /** Every resolution lies in the target groups, unless the matched rule has neither a
      usable split nor a target group; that one only when the default group is empty too. */
  lemma ResolutionInTargetGroups(h: Http, rules: seq<Rule>, defaultGroup: string, groups: seq<string>,
                                 r: Request, d: nat)
    requires IsTargetGroups(rules, defaultGroup, groups)
    requires forall i, k :: 0 <= i < |rules| && 0 <= k < |rules[i].split| ==> rules[i].split[k].group != ""
    ensures Resolved(h, rules, defaultGroup, r, d) in groups <==>
      var i := FirstMatch(h, rules, r);
      !(i < |rules| && rules[i].split == [] && rules[i].targetGroup == "") || defaultGroup == ""
  {
    var i := FirstMatch(h, rules, r);
    if i < |rules| {
      var rule := rules[i];
      if rule.split != [] {
        PickedFromSplit(rule.split, d);
      }
      assert Targets(rule, Destination(rule, d));
    }
  }

  function Nameless(): Route { Route("", "", [], "", [], "", None, None, [], []) }

  /** A stored route that matches everything and names no group resolves, through the wire,
      outside the target groups. */
  lemma NamelessRuleEscapes(h: Http, r: Request, d: nat)
    ensures IsTargetGroups(PipedAll([Nameless()]), "default", ["default"])
    ensures Resolved(h, PipedAll([Nameless()]), "default", r, d) == ""
  {
    var rules := PipedAll([Nameless()]);
    PipedParts(Nameless());
    assert rules == [Piped(Nameless())] && RuleMatches(h, rules[0], r);
    assert forall g :: Targets(rules[0], g) ==> g == "";
  }

  // ---------------------------------------------------------------------------
  // The table object
  // ---------------------------------------------------------------------------

  class RouteTable {
    const http: Http
    const defaultGroup: string
    var rules: seq<Rule>
    var version: int

    constructor (http: Http, defaultGroup: string)
      ensures rules == [] && version == 0 && this.defaultGroup == defaultGroup && this.http == http
    {
      this.http, this.defaultGroup := http, defaultGroup;
      rules, version := [], 0;
    }

    method Update(table: WireTable)
      modifies this
      ensures !Accepts(old(version), table.version) ==> rules == old(rules) && version == old(version)
      ensures Accepts(old(version), table.version) ==> version == table.version && |rules| == |table.routes|
      ensures Accepts(old(version), table.version) ==>
        forall i :: 0 <= i < |table.routes| ==> rules[i] == ToRule(table.routes[i])
    {
      if table.version <= version && version != 0 {
        return;
      }
      var converted: seq<Rule> := [];
      for i := 0 to |table.routes|
        invariant |converted| == i
        invariant forall k :: 0 <= k < i ==> converted[k] == ToRule(table.routes[k])
      {
        var rule := Convert(table.routes[i]);
        converted := converted + [rule];
      }
      rules := converted;
      version := table.version;
    }

    method Resolve(r: Request, d: nat) returns (group: string, rewrite: Rewrite, auth: Auth)
      ensures group == Resolved(http, rules, defaultGroup, r, d)
      ensures var i := FirstMatch(http, rules, r);
        && rewrite == (if i < |rules| then rules[i].rewrite else NO_REWRITE)
        && auth == (if i < |rules| then rules[i].auth else NO_AUTH)
    {
      var i := 0;
      while i < |rules|
        invariant 0 <= i <= |rules|
        invariant forall j :: 0 <= j < i ==> !RuleMatches(http, rules[j], r)
      {
        var matched := MatchRule(http, rules[i], r);
        if matched {
          break;
        }
        i := i + 1;
      }
      assert i == FirstMatch(http, rules, r);
      group, rewrite, auth := defaultGroup, NO_REWRITE, NO_AUTH;
      if i < |rules| {
        rewrite, auth := rules[i].rewrite, rules[i].auth;
        if rules[i].split == [] {
          group := rules[i].targetGroup;
        } else {
          group := PickSplit(rules[i].split, d);
        }
      }
    }

    method TargetGroups() returns (groups: seq<string>)
      ensures IsTargetGroups(rules, defaultGroup, groups)
    {
      groups := [defaultGroup];
      for i := 0 to |rules|
        invariant IsTargetGroups(rules[..i], defaultGroup, groups)
      {
        ghost var before := groups;
        groups := AddGroup(groups, rules[i].targetGroup);
        for k := 0 to |rules[i].split|
          invariant Distinct(groups)
          invariant forall g :: g in groups <==> (g in before || (g != "" && TargetsUpTo(rules[i], k, g)))
        {
          groups := AddGroup(groups, rules[i].split[k].group);
        }
        TargetsSnoc(rules, i, defaultGroup, before, groups);
      }
      assert rules[..|rules|] == rules;
    }
  }

  lemma TargetsSnoc(rules: seq<Rule>, i: nat, defaultGroup: string, before: seq<string>, groups: seq<string>)
    requires i < |rules| && IsTargetGroups(rules[..i], defaultGroup, before) && Distinct(groups)
    requires forall g :: g in groups <==> g in before || (g != "" && Targets(rules[i], g))
    ensures IsTargetGroups(rules[..i + 1], defaultGroup, groups)
  {
    var some := rules[..i + 1];
    forall g: string
      ensures (exists j :: 0 <= j < |some| && Targets(some[j], g)) <==>
              (exists j :: 0 <= j < i && Targets(rules[..i][j], g)) || Targets(rules[i], g)
    {
      assert forall j :: 0 <= j < i ==> some[j] == rules[..i][j];
      assert some[i] == rules[i];
    }
  }

  method AddGroup(groups: seq<string>, g: string) returns (more: seq<string>)
    requires Distinct(groups)
    ensures Distinct(more)
    ensures forall x :: x in more <==> x in groups || (x == g && g != "")
  {
    if g == "" || g in groups {
      return groups;
    }
    more := groups + [g];
  }

  method Convert(r: Route) returns (rule: Rule)
    ensures rule == ToRule(r)
  {
    var split: seq<RouteTarget> := [];
    for j := 0 to |r.split|
      invariant split == Usable(r.split[..j])
    {
      assert r.split[..j + 1][..j] == r.split[..j];
      if r.split[j].group == "" {
        continue;
      }
      var weight := r.split[j].weight;
      if weight <= 0 {
        weight := 1;
      }
      split := split + [RouteTarget(r.split[j].group, weight)];
    }
    assert r.split[..|r.split|] == r.split;
    var headers := KeepNamed(r.headerMatches);
    var queries := KeepNamed(r.queryMatches);
    rule := Rule(r.host, r.pathPrefix, r.methods, r.targetGroup, split,
                 if r.rewrite.Some? then r.rewrite.value else NO_REWRITE,
                 if r.auth.Some? then r.auth.value else NO_AUTH, headers, queries);
  }

  // ---------------------------------------------------------------------------
  // From an edit to a resolution
  // ---------------------------------------------------------------------------

  /** One saved route table, whether writing it succeeded, and whether the data plane was
      connected with room in its queue when it was pushed. */
  datatype Edit = Edit(routes: seq<Route>, persisted: bool, delivered: bool)

  predicate Reaches(edit: Edit) { edit.persisted && edit.delivered }

  /** The table of the last edit that was written and delivered. */
  function LastReaching(edits: seq<Edit>): Option<seq<Route>> {
    if edits == [] then None
    else if Reaches(edits[|edits| - 1]) then Some(edits[|edits| - 1].routes)
    else LastReaching(edits[..|edits| - 1])
  }

  /** SetRoutes: store, and push only when the write succeeded. The push can be dropped, and
      the data plane takes a table that arrives if its version guard does. */
  method SetRoutes(store: RouteStore, table: RouteTable, edit: Edit) returns (ok: bool)
    modifies store, table
    ensures ok == edit.persisted && store.routes == edit.routes && store.version == old(store.version) + 1
    ensures var taken := Reaches(edit) && Accepts(old(table.version), store.version);
      && table.rules == (if taken then PipedAll(edit.routes) else old(table.rules))
      && table.version == if taken then store.version else old(table.version)
  {
    ok := store.Set(edit.routes, edit.persisted);
    if !ok {
      return;
    }
    var wire := PublishRoutes(store);
    if edit.delivered {
      table.Update(wire);
      assert Accepts(old(table.version), store.version) ==> table.rules == PipedAll(edit.routes);
    }
  }

  /** What a stored table answers a request with: group, rewrite and policy of its first
      matching route, or the default group and nothing else. */
  ghost predicate AnsweredBy(h: Http, routes: seq<Route>, defaultGroup: string, r: Request, d: nat,
                             group: string, rewrite: Rewrite, auth: Auth)
  {
    forall i: nat :: FirstStored(h, routes, r, i) ==>
      if i == |routes| then group == defaultGroup && rewrite == NO_REWRITE && auth == NO_AUTH
      else
        && group == (if Usable(routes[i].split) == [] then routes[i].targetGroup
                     else PickGroup(Usable(routes[i].split), d))
        && rewrite == (if routes[i].rewrite.Some? then routes[i].rewrite.value else NO_REWRITE)
        && auth == (if routes[i].auth.Some? && routes[i].auth.value.mode !in {"", "none"}
                    then routes[i].auth.value else NO_AUTH)
  }

  lemma ResolvedIsAnswered(h: Http, routes: seq<Route>, defaultGroup: string, r: Request, d: nat,
                           rewrite: Rewrite, auth: Auth)
    requires forall j :: 0 <= j < |routes| ==> AllNamed(routes[j])
    requires var rules := PipedAll(routes);
      var i := FirstMatch(h, rules, r);
      && rewrite == (if i < |rules| then rules[i].rewrite else NO_REWRITE)
      && auth == (if i < |rules| then rules[i].auth else NO_AUTH)
    ensures AnsweredBy(h, routes, defaultGroup, r, d, Resolved(h, PipedAll(routes), defaultGroup, r, d), rewrite, auth)
  {
    var i := FirstMatch(h, PipedAll(routes), r);
    forall k: nat | FirstStored(h, routes, r, k) ensures k == i {
      PipelineResolves(h, routes, defaultGroup, r, d, k);
    }
    if i < |routes| { PipedParts(routes[i]); }
  }

  /** Any sequence of edits, failed writes and dropped pushes among them, then a request: the
      data plane has the last table that was written and delivered, and answers the request
      with the group, rewrite and policy of that table's first matching route. */
  method EditAndResolve(store: RouteStore, table: RouteTable, edits: seq<Edit>, r: Request, d: nat)
    returns (group: string, rewrite: Rewrite, auth: Auth)
    requires table.version <= store.version
    modifies store, table
    ensures var last := LastReaching(edits);
      && table.rules == (if last.Some? then PipedAll(last.value) else old(table.rules))
      && (last.Some? && (forall j :: 0 <= j < |last.value| ==> AllNamed(last.value[j])) ==>
            AnsweredBy(table.http, last.value, table.defaultGroup, r, d, group, rewrite, auth))
  {
    for k := 0 to |edits|
      invariant table.version <= store.version
      invariant var last := LastReaching(edits[..k]);
        table.rules == if last.Some? then PipedAll(last.value) else old(table.rules)
    {
      assert edits[..k + 1][..k] == edits[..k];
      var _ := SetRoutes(store, table, edits[k]);
    }
    assert edits[..|edits|] == edits;
    group, rewrite, auth := table.Resolve(r, d);
    ghost var last := LastReaching(edits);
    if last.Some? && (forall j :: 0 <= j < |last.value| ==> AllNamed(last.value[j])) {
      ResolvedIsAnswered(table.http, last.value, table.defaultGroup, r, d, rewrite, auth);
    }
  }
}
