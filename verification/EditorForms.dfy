/** The editor's parse and format routines as the loops the handlers run. */
module EditorForms {
  import opened Wire
  import opened Text
  import opened Routes
  import opened Editor

  method ParseOneTarget(raw: string) returns (target: Option<RouteTarget>)
    ensures target == ParseTarget(raw)
  {
    var part := Trim(raw);
    if part == "" {
      return None;
    }
    var group, weight := part, 1;
    var i := LastIndex(part, ':');
    if i >= 0 {
      group := Trim(part[..i]);
      var parsed := Atoi(Trim(part[i + 1..]));
      if parsed.None? || parsed.value <= 0 {
        return None;
      }
      weight := parsed.value;
      if weight > MAX_INT32 {
        weight := MAX_INT32;
      }
    }
    if group == "" {
      return None;
    }
    target := Some(RouteTarget(group, weight));
  }

  method ParseSplit(s: string) returns (out: seq<RouteTarget>)
    ensures out == SplitOf(s)
  {
    out := [];
    var trimmed := Trim(s);
    if trimmed == "" {
      return;
    }
    var parts := Split(trimmed, ',');
    for k := 0 to |parts|
      invariant out == Keep(ParseTarget, parts[..k])
    {
      assert parts[..k + 1][..k] == parts[..k];
      var target := ParseOneTarget(parts[k]);
      if target.Some? {
        out := out + [target.value];
      }
    }
    assert parts[..|parts|] == parts;
  }

  method FormatSplit(targets: seq<RouteTarget>) returns (s: string)
    ensures s == SplitText(targets)
    ensures GoodSplit(targets) ==> SplitOf(s) == targets
  {
    var parts: seq<string> := [];
    for k := 0 to |targets|
      invariant |parts| == k
      invariant forall j :: 0 <= j < k ==> parts[j] == FormatTarget(targets[j])
    {
      var w := targets[k].weight;
      if w <= 0 {
        w := 1;
      }
      parts := parts + [targets[k].group + ":" + Itoa(w)];
    }
    assert parts == FormatTargets(targets);
    s := Join(parts, ", ");
    if GoodSplit(targets) { SplitRoundTrip(targets); }
  }

  method ParseMatch(s: string) returns (headers: seq<Condition>, queries: seq<Condition>)
    ensures (headers, queries) == MatchOf(s)
  {
    headers, queries := [], [];
    var lines := Split(s, '\n');
    for k := 0 to |lines|
      invariant headers == Keep(HeaderOf, lines[..k]) && queries == Keep(QueryOf, lines[..k])
    {
      assert lines[..k + 1][..k] == lines[..k];
      var header, query := ParseMatchLine(lines[k]);
      if header.Some? {
        headers := headers + [header.value];
      }
      if query.Some? {
        queries := queries + [query.value];
      }
    }
    assert lines[..|lines|] == lines;
  }

  method ParseMatchLine(raw: string) returns (header: Option<Condition>, query: Option<Condition>)
    ensures header == HeaderOf(raw) && query == QueryOf(raw)
  {
    header, query := None, None;
    var line := Trim(raw);
    if line == "" {
      return;
    }
    if QUERY_PREFIX <= line {
      var (name, value) := NameValue(line[6..], '=');
      if name != "" {
        query := Some(Condition(name, value));
      }
      return;
    }
    var rest := line;
    if HEADER_PREFIX <= line {
      rest := line[7..];
    }
    var (name, value) := NameValue(rest, ':');
    if name != "" {
      header := Some(Condition(name, value));
    }
  }

  method FormatMatch(headers: seq<Condition>, queries: seq<Condition>) returns (s: string)
    ensures s == MatchText(headers, queries)
    ensures GoodMatch(headers, queries) ==> MatchOf(s) == (headers, queries)
  {
    var lines: seq<string> := [];
    for k := 0 to |headers|
      invariant |lines| == k
      invariant forall j :: 0 <= j < k ==> lines[j] == HeaderLine(headers[j])
    {
      var c := headers[k];
      lines := lines + [if c.value == "" then HEADER_PREFIX + c.name else HEADER_PREFIX + c.name + ": " + c.value];
    }
    assert lines == Lines(HeaderLine, headers);
    var more: seq<string> := [];
    for k := 0 to |queries|
      invariant |more| == k
      invariant forall j :: 0 <= j < k ==> more[j] == QueryLine(queries[j])
    {
      var c := queries[k];
      more := more + [if c.value == "" then QUERY_PREFIX + c.name else QUERY_PREFIX + c.name + "=" + c.value];
    }
    assert more == Lines(QueryLine, queries);
    s := Join(lines + more, "\n");
    if GoodMatch(headers, queries) { MatchRoundTrip(headers, queries); }
  }

  lemma KeepSnoc<T>(parse: string -> Option<T>, lines: seq<string>, k: nat)
    requires k < |lines|
    ensures parse(lines[k]).Some? ==>
      Keep(parse, lines[..k + 1]) == Keep(parse, lines[..k]) + [parse(lines[k]).value]
    ensures parse(lines[k]).None? ==> Keep(parse, lines[..k + 1]) == Keep(parse, lines[..k])
  {
    assert lines[..k + 1][..k] == lines[..k];
  }

  method ParseRewriteLines(lines: seq<string>) returns (set': map<string, string>, remove: seq<string>)
    ensures set' == ToMap(Keep(SetOf, lines)) && remove == Keep(RemoveOf, lines)
  {
    set', remove := map[], [];
    for k := 0 to |lines|
      invariant set' == ToMap(Keep(SetOf, lines[..k])) && remove == Keep(RemoveOf, lines[..k])
    {
      KeepSnoc(SetOf, lines, k);
      KeepSnoc(RemoveOf, lines, k);
      var c, name := ParseRewriteLine(lines[k]);
      if c.Some? {
        ToMapSnoc(Keep(SetOf, lines[..k]), c.value);
        set' := set'[c.value.name := c.value.value];
      }
      if name.Some? {
        remove := remove + [name.value];
      }
    }
    assert lines[..|lines|] == lines;
  }

  method ParseRewrite(strip: string, text: string) returns (rw: Option<Rewrite>)
    ensures rw == RewriteOf(strip, text)
  {
    var set', remove := ParseRewriteLines(Split(text, '\n'));
    rw := MakeRewrite(Trim(strip), set', remove);
  }

  method ParseRewriteLine(raw: string) returns (c: Option<Condition>, name: Option<string>)
    ensures c == SetOf(raw) && name == RemoveOf(raw)
  {
    c, name := None, None;
    var line := Trim(raw);
    if line == "" {
      return;
    }
    if line[0] == '-' {
      var removed := Trim(line[1..]);
      if removed != "" {
        name := Some(removed);
      }
      return;
    }
    var i := Index(line, ':');
    if i > 0 {
      var key, value := Trim(line[..i]), Trim(line[i + 1..]);
      if key != "" {
        c := Some(Condition(key, value));
      }
    }
  }

  // ---------------------------------------------------------------------------
  // Sorted header names
  // ---------------------------------------------------------------------------

  predicate Precedes(a: string, b: string) {
    a == "" || (b != "" && (a[0] < b[0] || (a[0] == b[0] && Precedes(a[1..], b[1..]))))
  }

  lemma {:induction false} PrecedesTotal(a: string, b: string)
    ensures Precedes(a, b) || Precedes(b, a)
  {
    if a == "" || b == "" || a[0] != b[0] {
    } else {
      PrecedesTotal(a[1..], b[1..]);
    }
  }

  predicate Sorted(names: seq<string>) {
    forall i :: 0 < i < |names| ==> Precedes(names[i - 1], names[i])
  }

  method InsertSorted(names: seq<string>, x: string) returns (more: seq<string>)
    requires Sorted(names) && x !in names && forall i, j :: 0 <= i < j < |names| ==> names[i] != names[j]
    ensures Sorted(more) && forall i, j :: 0 <= i < j < |more| ==> more[i] != more[j]
    ensures forall y :: y in more <==> y == x || y in names
  {
    var k := 0;
    while k < |names| && Precedes(names[k], x)
      invariant 0 <= k <= |names|
      invariant k > 0 ==> Precedes(names[k - 1], x)
    {
      k := k + 1;
    }
    if k < |names| { PrecedesTotal(names[k], x); }
    more := names[..k] + [x] + names[k..];
    forall i | 0 < i < |more| ensures Precedes(more[i - 1], more[i]) {
      if i < k { assert more[i - 1] == names[i - 1] && more[i] == names[i]; }
      if i > k + 1 { assert more[i - 1] == names[i - 2] && more[i] == names[i - 1]; }
    }
    InsertedOnce(names, k, x);
  }

  lemma InsertedOnce(names: seq<string>, k: nat, x: string)
    requires k <= |names| && x !in names && forall i, j :: 0 <= i < j < |names| ==> names[i] != names[j]
    ensures var more := names[..k] + [x] + names[k..];
      && (forall i, j :: 0 <= i < j < |more| ==> more[i] != more[j])
      && (forall y :: y in more <==> y == x || y in names)
  {
    var more := names[..k] + [x] + names[k..];
    assert names == names[..k] + names[k..];
    assert forall i :: 0 <= i < |more| ==> more[i] == if i < k then names[i] else if i == k then x else names[i - 1];
  }

  method SortedNames(set': map<string, string>) returns (names: seq<string>)
    ensures Enumerates(names, set') && Sorted(names)
  {
    names := [];
    var rest := set'.Keys;
    while rest != {}
      invariant rest <= set'.Keys && Sorted(names)
      invariant forall y :: y in names <==> y in set'.Keys - rest
      invariant forall i, j :: 0 <= i < j < |names| ==> names[i] != names[j]
    {
      var x :| x in rest;
      names := InsertSorted(names, x);
      rest := rest - {x};
    }
    assert forall i :: 0 <= i < |names| ==> names[i] in names;
  }

  /** The text lists set headers in sorted order, then removals; what the fields can hold
      parses back to itself. */
  method FormatRewrite(rw: Option<Rewrite>) returns (strip: string, text: string)
    ensures rw.None? ==> strip == "" && text == ""
    ensures rw.Some? ==> strip == rw.value.stripPathPrefix
    ensures rw.Some? ==> exists names :: Sorted(names) && Enumerates(names, rw.value.setRequestHeaders)
                                         && text == RewriteText(names, rw.value)
    ensures rw.Some? && GoodRewrite(rw.value) ==> RewriteOf(strip, text) == rw
  {
    if rw.None? {
      return "", "";
    }
    var names := SortedNames(rw.value.setRequestHeaders);
    var lines: seq<string> := [];
    for k := 0 to |names|
      invariant |lines| == k
      invariant forall j :: 0 <= j < k ==>
        lines[j] == SetLine(Condition(names[j], rw.value.setRequestHeaders[names[j]]))
    {
      lines := lines + [names[k] + ": " + rw.value.setRequestHeaders[names[k]]];
    }
    assert lines == Lines(SetLine, Pairs(names, rw.value.setRequestHeaders));
    var removals: seq<string> := [];
    for k := 0 to |rw.value.removeRequestHeaders|
      invariant |removals| == k
      invariant forall j :: 0 <= j < k ==> removals[j] == RemoveLine(rw.value.removeRequestHeaders[j])
    {
      removals := removals + ["-" + rw.value.removeRequestHeaders[k]];
    }
    assert removals == RemoveLines(rw.value.removeRequestHeaders);
    strip, text := rw.value.stripPathPrefix, Join(lines + removals, "\n");
    assert text == RewriteText(names, rw.value);
    if GoodRewrite(rw.value) { RewriteRoundTrip(names, rw.value); }
  }

  method ParseAuth(s: string) returns (auth: Option<Auth>)
    ensures auth == AuthOf(s)
  {
    var t := Trim(s);
    if t == "" {
      return None;
    }
    if KEY_PREFIX <= t {
      auth := ParseKeys(t[7..]);
      return;
    }
    if JWT_PREFIX <= t {
      auth := JwtOf(Split(t[9..], ':'));
      return;
    }
    return None;
  }

  method ParseKeys(rest: string) returns (auth: Option<Auth>)
    ensures auth == KeysOf(rest)
  {
    var keys: seq<string> := [];
    var pieces := Split(rest, ',');
    for k := 0 to |pieces|
      invariant keys == Keep(KeyOf, pieces[..k])
    {
      assert pieces[..k + 1][..k] == pieces[..k];
      var key := Trim(pieces[k]);
      if key != "" {
        keys := keys + [key];
      }
    }
    assert pieces[..|pieces|] == pieces;
    auth := if keys == [] then None else Some(ApiKeyAuth(keys));
  }
}
