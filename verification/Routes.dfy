/** Routing rules as stored, and what it means for a rule to match a request. */
module Routes {
  import opened Wire

  /** A name/value condition on a header or query parameter; an empty value asks only
      for presence. */
  datatype Condition = Condition(name: string, value: string)

  datatype RouteTarget = RouteTarget(group: string, weight: int)

  datatype Rewrite = Rewrite(
    setRequestHeaders: map<string, string>,
    removeRequestHeaders: seq<string>,
    setResponseHeaders: map<string, string>,
    removeResponseHeaders: seq<string>,
    stripPathPrefix: string,
    addPathPrefix: string)

  datatype Auth = Auth(
    mode: string,
    apiKeys: seq<string>,
    apiKeyHeader: string,
    hmacSecret: string,
    rsaPublicKeyPem: string,
    expectedIssuer: string,
    expectedAudience: string)

  datatype Route = Route(
    host: string,
    pathPrefix: string,
    methods: seq<string>,
    targetGroup: string,
    split: seq<RouteTarget>,
    name: string,
    rewrite: Option<Rewrite>,
    auth: Option<Auth>,
    headerMatches: seq<Condition>,
    queryMatches: seq<Condition>)

  type Values = map<string, seq<string>>

  /** Absent headers or query are nil in the source. */
  datatype Request = Request(host: string, path: string, verb: string, header: Option<Values>, query: Option<Values>)

  /** strings.EqualFold and the canonical form of header names, as parameters. */
  datatype Http = Http(fold: (string, string) -> bool, canonical: string -> string)

  function HeaderValues(h: Http, header: Values, name: string): seq<string> {
    if h.canonical(name) in header then header[h.canonical(name)] else []
  }

  predicate HeaderHolds(h: Http, header: Option<Values>, c: Condition) {
    header.Some? &&
    if c.value == "" then HeaderValues(h, header.value, c.name) != []
    else c.value in HeaderValues(h, header.value, c.name)
  }

  predicate QueryHolds(query: Option<Values>, c: Condition) {
    query.Some? && c.name in query.value && (c.value == "" || c.value in query.value[c.name])
  }

  /** Host, path and method. */
  predicate LineMatches(h: Http, host: string, pathPrefix: string, methods: seq<string>, r: Request) {
    && (host != "" && host != "*" ==> h.fold(host, r.host))
    && (pathPrefix != "" && pathPrefix != "/" ==> pathPrefix <= r.path)
    && (methods != [] ==> exists i :: 0 <= i < |methods| && h.fold(methods[i], r.verb))
  }

  predicate AllHeadersHold(h: Http, conditions: seq<Condition>, r: Request) {
    forall i :: 0 <= i < |conditions| ==> HeaderHolds(h, r.header, conditions[i])
  }

  predicate AllQueriesHold(conditions: seq<Condition>, r: Request) {
    forall i :: 0 <= i < |conditions| ==> QueryHolds(r.query, conditions[i])
  }

  /** The stored rule's own meaning: MatchesRequest. */
  predicate MatchesRequest(h: Http, route: Route, r: Request) {
    && LineMatches(h, route.host, route.pathPrefix, route.methods, r)
    && AllHeadersHold(h, route.headerMatches, r)
    && AllQueriesHold(route.queryMatches, r)
  }

  /** What a route accepts, in full: its host unless that is empty or "*", paths that begin
      with its prefix unless that is empty or "/", one of its methods if it lists any, and
      every condition; one on a header asks for a value of that header, one on the query for
      a value of that parameter, and an empty value for presence alone. */
  lemma MatchesRequestIff(h: Http, route: Route, r: Request)
    ensures MatchesRequest(h, route, r) <==>
      && (route.host == "" || route.host == "*" || h.fold(route.host, r.host))
      && (route.pathPrefix == "" || route.pathPrefix == "/"
          || (|route.pathPrefix| <= |r.path| && r.path[..|route.pathPrefix|] == route.pathPrefix))
      && (route.methods == [] || exists m :: m in route.methods && h.fold(m, r.verb))
      && (forall c :: c in route.headerMatches ==> HeaderGiven(h, r, c))
      && (forall c :: c in route.queryMatches ==> QueryGiven(r, c))
  {
    assert forall i :: 0 <= i < |route.headerMatches| ==> route.headerMatches[i] in route.headerMatches;
    assert forall i :: 0 <= i < |route.queryMatches| ==> route.queryMatches[i] in route.queryMatches;
    assert route.pathPrefix <= r.path <==>
      |route.pathPrefix| <= |r.path| && r.path[..|route.pathPrefix|] == route.pathPrefix;
    if m :| m in route.methods && h.fold(m, r.verb) {
      var i :| 0 <= i < |route.methods| && route.methods[i] == m;
    }
  }

  /** The request has the header, with that value among its values if one is asked for. */
  predicate HeaderGiven(h: Http, r: Request, c: Condition) {
    && r.header.Some? && h.canonical(c.name) in r.header.value && r.header.value[h.canonical(c.name)] != []
    && (c.value == "" || exists k :: 0 <= k < |r.header.value[h.canonical(c.name)]|
                                     && r.header.value[h.canonical(c.name)][k] == c.value)
  }

  /** The request has the parameter, with that value among its values if one is asked for. */
  predicate QueryGiven(r: Request, c: Condition) {
    && r.query.Some? && c.name in r.query.value
    && (c.value == "" || exists k :: 0 <= k < |r.query.value[c.name]| && r.query.value[c.name][k] == c.value)
  }

  // ---------------------------------------------------------------------------
  // The searches both planes make
  // ---------------------------------------------------------------------------

  method MatchLine(h: Http, host: string, pathPrefix: string, methods: seq<string>, r: Request) returns (ok: bool)
    ensures ok == LineMatches(h, host, pathPrefix, methods, r)
  {
    if host != "" && host != "*" && !h.fold(host, r.host) {
      return false;
    }
    if pathPrefix != "" && pathPrefix != "/" && !(pathPrefix <= r.path) {
      return false;
    }
    if |methods| > 0 {
      var matched := false;
      for i := 0 to |methods|
        invariant !matched && forall k :: 0 <= k < i ==> !h.fold(methods[k], r.verb)
      {
        if h.fold(methods[i], r.verb) {
          matched := true;
          break;
        }
      }
      if !matched {
        return false;
      }
    }
    return true;
  }

  method HasValue(values: seq<string>, want: string) returns (found: bool)
    ensures found <==> want in values
  {
    for i := 0 to |values|
      invariant want !in values[..i]
    {
      if values[i] == want {
        return true;
      }
    }
    assert values[..|values|] == values;
    return false;
  }

  method HeaderConditionMet(h: Http, header: Option<Values>, c: Condition) returns (met: bool)
    ensures met == HeaderHolds(h, header, c)
  {
    if header.None? {
      return false;
    }
    var values := HeaderValues(h, header.value, c.name);
    if c.value == "" {
      return |values| > 0;
    }
    met := HasValue(values, c.value);
  }

  method QueryConditionMet(query: Option<Values>, c: Condition) returns (met: bool)
    ensures met == QueryHolds(query, c)
  {
    if query.None? || c.name !in query.value {
      return false;
    }
    if c.value == "" {
      return true;
    }
    met := HasValue(query.value[c.name], c.value);
  }

  method HeadersMet(h: Http, conditions: seq<Condition>, r: Request) returns (ok: bool)
    ensures ok == AllHeadersHold(h, conditions, r)
  {
    for i := 0 to |conditions|
      invariant forall k :: 0 <= k < i ==> HeaderHolds(h, r.header, conditions[k])
    {
      ok := HeaderConditionMet(h, r.header, conditions[i]);
      if !ok {
        return;
      }
    }
    return true;
  }

  method QueriesMet(conditions: seq<Condition>, r: Request) returns (ok: bool)
    ensures ok == AllQueriesHold(conditions, r)
  {
    for i := 0 to |conditions|
      invariant forall k :: 0 <= k < i ==> QueryHolds(r.query, conditions[k])
    {
      ok := QueryConditionMet(r.query, conditions[i]);
      if !ok {
        return;
      }
    }
    return true;
  }

  method RouteMatchesRequest(h: Http, route: Route, r: Request) returns (ok: bool)
    ensures ok == MatchesRequest(h, route, r)
  {
    ok := MatchLine(h, route.host, route.pathPrefix, route.methods, r);
    if ok {
      ok := HeadersMet(h, route.headerMatches, r);
    }
    if ok {
      ok := QueriesMet(route.queryMatches, r);
    }
  }

  /** The global table with its version. */
  class RouteStore {
    var routes: seq<Route>
    var version: int

    constructor ()
      ensures routes == [] && version == 0
    {
      routes, version := [], 0;
    }

    method Set(rules: seq<Route>, persisted: bool) returns (ok: bool)
      modifies this
      ensures routes == rules && version == old(version) + 1 && ok == persisted
    {
      routes := rules;
      version := version + 1;
      ok := persisted;
    }
  }
}
