/** The route pipeline: stored table, wire form, the data plane's table and resolution. */
module Routing {
  import opened Wire
  import opened Routes

  datatype WireTable = WireTable(routes: seq<Route>, version: int)

  // ---------------------------------------------------------------------------
  // Publication: dropping what cannot be used
  // ---------------------------------------------------------------------------

  function Named(conditions: seq<Condition>): seq<Condition> {
    if conditions == [] then []
    else
      var n := |conditions| - 1;
      Named(conditions[..n]) + (if conditions[n].name == "" then [] else [conditions[n]])
  }

  function Grouped(split: seq<RouteTarget>): seq<RouteTarget> {
    if split == [] then []
    else
      var n := |split| - 1;
      Grouped(split[..n]) + (if split[n].group == "" then [] else [split[n]])
  }

  function WireAuth(a: Option<Auth>): Option<Auth> {
    if a.Some? && a.value.mode != "" && a.value.mode != "none" then a else None
  }

  function WireRoute(r: Route): Route {
    r.(split := Grouped(r.split), auth := WireAuth(r.auth),
       headerMatches := Named(r.headerMatches), queryMatches := Named(r.queryMatches))
  }

  method KeepNamed(conditions: seq<Condition>) returns (kept: seq<Condition>)
    ensures kept == Named(conditions)
  {
    kept := [];
    for i := 0 to |conditions|
      invariant kept == Named(conditions[..i])
    {
      assert conditions[..i + 1][..i] == conditions[..i];
      if conditions[i].name == "" {
        continue;
      }
      kept := kept + [conditions[i]];
    }
    assert conditions[..|conditions|] == conditions;
  }

  /** publishRoutes: the stored table in wire form. */
  method PublishRoutes(store: RouteStore) returns (table: WireTable)
    ensures table.version == store.version && |table.routes| == |store.routes|
    ensures forall i :: 0 <= i < |store.routes| ==> table.routes[i] == WireRoute(store.routes[i])
  {
    var routes: seq<Route> := [];
    for i := 0 to |store.routes|
      invariant |routes| == i
      invariant forall k :: 0 <= k < i ==> routes[k] == WireRoute(store.routes[k])
    {
      var r := store.routes[i];
      var split: seq<RouteTarget> := [];
      for j := 0 to |r.split|
        invariant split == Grouped(r.split[..j])
      {
        assert r.split[..j + 1][..j] == r.split[..j];
        if r.split[j].group == "" {
          continue;
        }
        split := split + [r.split[j]];
      }
      assert r.split[..|r.split|] == r.split;
      var headers := KeepNamed(r.headerMatches);
      var queries := KeepNamed(r.queryMatches);
      var wire := r.(split := split, auth := WireAuth(r.auth), headerMatches := headers, queryMatches := queries);
      routes := routes + [wire];
    }
    table := WireTable(routes, store.version);
  }

  // ---------------------------------------------------------------------------
  // The data plane's rules
  // ---------------------------------------------------------------------------

  const NO_REWRITE: Rewrite := Rewrite(map[], [], map[], [], "", "")
  const NO_AUTH: Auth := Auth("", [], "", "", "", "", "")

  datatype Rule = Rule(
    host: string,
    pathPrefix: string,
    methods: seq<string>,
    targetGroup: string,
    split: seq<RouteTarget>,
    rewrite: Rewrite,
    auth: Auth,
    headerMatches: seq<Condition>,
    queryMatches: seq<Condition>)

  /** Usable targets with positive weights. */
  function Usable(split: seq<RouteTarget>): (usable: seq<RouteTarget>)
    ensures forall i :: 0 <= i < |usable| ==> usable[i].group != "" && usable[i].weight >= 1
  {
    if split == [] then []
    else
      var n := |split| - 1;
      Usable(split[..n]) + (if split[n].group == "" then [] else [split[n].(weight := Clamp(split[n].weight))])
  }

  function ToRule(r: Route): Rule {
    Rule(r.host, r.pathPrefix, r.methods, r.targetGroup, Usable(r.split),
         if r.rewrite.Some? then r.rewrite.value else NO_REWRITE,
         if r.auth.Some? then r.auth.value else NO_AUTH,
         Named(r.headerMatches), Named(r.queryMatches))
  }

  predicate RuleMatches(h: Http, rule: Rule, r: Request) {
    && LineMatches(h, rule.host, rule.pathPrefix, rule.methods, r)
    && AllHeadersHold(h, rule.headerMatches, r)
    && AllQueriesHold(rule.queryMatches, r)
  }

  method MatchRule(h: Http, rule: Rule, r: Request) returns (ok: bool)
    ensures ok == RuleMatches(h, rule, r)
  {
    ok := MatchLine(h, rule.host, rule.pathPrefix, rule.methods, r);
    if ok {
      ok := HeadersMet(h, rule.headerMatches, r);
    }
    if ok {
      ok := QueriesMet(rule.queryMatches, r);
    }
  }

  // ---------------------------------------------------------------------------
  // The pipeline preserves meaning
  // ---------------------------------------------------------------------------

  /** No condition of the rule has an empty name. */
  predicate AllNamed(r: Route) {
    && (forall i :: 0 <= i < |r.headerMatches| ==> r.headerMatches[i].name != "")
    && (forall i :: 0 <= i < |r.queryMatches| ==> r.queryMatches[i].name != "")
  }

  lemma {:induction false} NamedMembers(conditions: seq<Condition>, c: Condition)
    ensures c in Named(conditions) <==> c in conditions && c.name != ""
  {
    if conditions == [] {
    } else {
      NamedMembers(conditions[..|conditions| - 1], c);
      assert conditions == conditions[..|conditions| - 1] + [conditions[|conditions| - 1]];
    }
  }

  lemma {:induction false} NamedAgain(conditions: seq<Condition>)
    ensures Named(Named(conditions)) == Named(conditions)
  {
    if conditions == [] {
    } else {
      var n := |conditions| - 1;
      NamedAgain(conditions[..n]);
      assert conditions[n].name == "" ==> Named(conditions) == Named(conditions[..n]);
      if conditions[n].name != "" {
        assert Named(conditions)[..|Named(conditions)| - 1] == Named(conditions[..n]);
      }
    }
  }

  lemma {:induction false} UsableGrouped(split: seq<RouteTarget>)
    ensures Usable(Grouped(split)) == Usable(split)
  {
    if split == [] {
    } else {
      var n := |split| - 1;
      UsableGrouped(split[..n]);
      assert split[n].group == "" ==> Grouped(split) == Grouped(split[..n]);
      if split[n].group != "" {
        assert Grouped(split)[..|Grouped(split)| - 1] == Grouped(split[..n]);
      }
    }
  }

  function Piped(r: Route): Rule {
    ToRule(WireRoute(r))
  }

  /** Through the wire a rule keeps exactly its named conditions, its usable targets, its
      rewrite and its authentication. */
  lemma PipedParts(r: Route)
    ensures Piped(r).headerMatches == Named(r.headerMatches) && Piped(r).queryMatches == Named(r.queryMatches)
    ensures Piped(r).split == Usable(r.split)
    ensures Piped(r).rewrite == if r.rewrite.Some? then r.rewrite.value else NO_REWRITE
    ensures Piped(r).auth == if r.auth.Some? && r.auth.value.mode !in {"", "none"} then r.auth.value else NO_AUTH
  {
    NamedAgain(r.headerMatches);
    NamedAgain(r.queryMatches);
    UsableGrouped(r.split);
  }

  /** A stored policy is enforced on the data plane if and only if its mode is not one of the
      two that mean none, unless it says nothing at all. */
  lemma PolicySurvivesIff(r: Route)
    requires r.auth.Some?
    ensures Piped(r).auth == r.auth.value <==>
      r.auth.value.mode !in {"", "none"} || r.auth.value == Auth("", [], "", "", "", "", "")
  {
    PipedParts(r);
  }

  /** How many of the targets name a group. */
  function Naming(split: seq<RouteTarget>): nat {
    if split == [] then 0
    else Naming(split[..|split| - 1]) + if split[|split| - 1].group != "" then 1 else 0
  }

  /** The usable targets are those that name a group, in order, with weights below one
      counting as one. */
  lemma {:induction false} UsableAt(split: seq<RouteTarget>, i: nat)
    requires i < |split| && split[i].group != ""
    ensures |Usable(split)| == Naming(split) && Naming(split[..i]) < |Usable(split)|
    ensures var t := Usable(split)[Naming(split[..i])];
      t.group == split[i].group && t.weight == if split[i].weight < 1 then 1 else split[i].weight
  {
    var n := |split| - 1;
    UsableCount(split);
    UsableCount(split[..n]);
    if i == n {
    } else {
      UsableAt(split[..n], i);
      assert split[..n][..i] == split[..i];
    }
  }

  lemma {:induction false} UsableCount(split: seq<RouteTarget>)
    ensures |Usable(split)| == Naming(split)
  {
    if split == [] {
    } else {
      UsableCount(split[..|split| - 1]);
    }
  }

  /** On every request the data plane's rule is at least as permissive as the stored one,
      and it agrees with it when every condition has a name. */
  lemma PipedMatches(h: Http, r: Route, request: Request)
    ensures MatchesRequest(h, r, request) ==> RuleMatches(h, Piped(r), request)
    ensures AllNamed(r) ==> (RuleMatches(h, Piped(r), request) == MatchesRequest(h, r, request))
  {
    PipedParts(r);
    forall c: Condition ensures c in Named(r.headerMatches) <==> c in r.headerMatches && c.name != "" {
      NamedMembers(r.headerMatches, c);
    }
    forall c: Condition ensures c in Named(r.queryMatches) <==> c in r.queryMatches && c.name != "" {
      NamedMembers(r.queryMatches, c);
    }
    HeadersHoldBySet(h, r.headerMatches, request);
    HeadersHoldBySet(h, Named(r.headerMatches), request);
    QueriesHoldBySet(r.queryMatches, request);
    QueriesHoldBySet(Named(r.queryMatches), request);
    if AllNamed(r) {
      assert forall c :: c in r.headerMatches ==> c.name != "";
      assert forall c :: c in r.queryMatches ==> c.name != "";
    }
  }

  lemma HeadersHoldBySet(h: Http, conditions: seq<Condition>, r: Request)
    ensures AllHeadersHold(h, conditions, r) <==> forall c :: c in conditions ==> HeaderHolds(h, r.header, c)
  {}

  lemma QueriesHoldBySet(conditions: seq<Condition>, r: Request)
    ensures AllQueriesHold(conditions, r) <==> forall c :: c in conditions ==> QueryHolds(r.query, c)
  {}

  // An unnamed condition is dropped on the way, and some request tells the difference.

  function Wanted(conditions: seq<Condition>): (values: seq<string>)
    ensures |values| == |conditions| + 1
    ensures forall i :: 0 <= i < |conditions| ==> values[i] == conditions[i].value
  {
    seq(|conditions|, i requires 0 <= i < |conditions| => conditions[i].value) + [""]
  }

  function Uniform(keys: set<string>, values: seq<string>): Values {
    map k | k in keys :: values
  }

  /** A request made to satisfy every named condition of `r` and no unnamed one. */
  function Probe(h: Http, r: Route): Request {
    Request(
      r.host, r.pathPrefix,
      if r.methods == [] then "" else r.methods[0],
      Some(Uniform(set c | c in r.headerMatches && c.name != "" :: h.canonical(c.name), Wanted(r.headerMatches))),
      Some(Uniform(set c | c in r.queryMatches && c.name != "" :: c.name, Wanted(r.queryMatches))))
  }

  lemma WantedHas(conditions: seq<Condition>, c: Condition)
    requires c in conditions
    ensures c.value in Wanted(conditions)
  {
    var i :| 0 <= i < |conditions| && conditions[i] == c;
    assert Wanted(conditions)[i] == c.value;
  }

  lemma ProbeHeaders(h: Http, r: Route, c: Condition)
    requires forall s :: h.canonical(s) == "" <==> s == ""
    requires c in r.headerMatches
    ensures HeaderHolds(h, Probe(h, r).header, c) <==> c.name != ""
  {
    WantedHas(r.headerMatches, c);
    var keys := set x | x in r.headerMatches && x.name != "" :: h.canonical(x.name);
    assert c.name != "" ==> h.canonical(c.name) in keys;
    assert "" !in keys;
  }

  lemma ProbeQueries(h: Http, r: Route, c: Condition)
    requires c in r.queryMatches
    ensures QueryHolds(Probe(h, r).query, c) <==> c.name != ""
  {
    WantedHas(r.queryMatches, c);
  }

  lemma ProbeMatches(h: Http, r: Route)
    requires forall s :: h.fold(s, s)
    requires forall s :: h.canonical(s) == "" <==> s == ""
    ensures RuleMatches(h, Piped(r), Probe(h, r))
    ensures !AllNamed(r) ==> !MatchesRequest(h, r, Probe(h, r))
  {
    var probe := Probe(h, r);
    var headers, queries := Named(r.headerMatches), Named(r.queryMatches);
    PipedParts(r);
    assert AllHeadersHold(h, headers, probe) by {
      forall i | 0 <= i < |headers| ensures HeaderHolds(h, probe.header, headers[i]) {
        NamedMembers(r.headerMatches, headers[i]);
        ProbeHeaders(h, r, headers[i]);
      }
    }
    assert AllQueriesHold(queries, probe) by {
      forall i | 0 <= i < |queries| ensures QueryHolds(probe.query, queries[i]) {
        NamedMembers(r.queryMatches, queries[i]);
        ProbeQueries(h, r, queries[i]);
      }
    }
    assert LineMatches(h, r.host, r.pathPrefix, r.methods, probe) by {
      assert r.methods != [] ==> h.fold(r.methods[0], probe.verb);
    }
    ProbeFails(h, r);
  }

  lemma ProbeFails(h: Http, r: Route)
    requires forall s :: h.canonical(s) == "" <==> s == ""
    ensures !AllNamed(r) ==> !MatchesRequest(h, r, Probe(h, r))
  {
    if i :| 0 <= i < |r.headerMatches| && r.headerMatches[i].name == "" {
      ProbeHeaders(h, r, r.headerMatches[i]);
    } else if i :| 0 <= i < |r.queryMatches| && r.queryMatches[i].name == "" {
      ProbeQueries(h, r, r.queryMatches[i]);
    }
  }

  /** A rule means the same on both planes for every request if and only if none of its
      conditions has an empty name. */
  lemma MeaningPreservedIff(h: Http, r: Route)
    requires forall s :: h.fold(s, s)
    requires forall s :: h.canonical(s) == "" <==> s == ""
    ensures (forall request :: RuleMatches(h, Piped(r), request) == MatchesRequest(h, r, request)) <==> AllNamed(r)
  {
    if AllNamed(r) {
      forall request: Request ensures RuleMatches(h, Piped(r), request) == MatchesRequest(h, r, request) {
        PipedMatches(h, r, request);
      }
    } else {
      ProbeMatches(h, r);
    }
  }
}
