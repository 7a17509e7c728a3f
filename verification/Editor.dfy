/** The route editor's text fields: parsing, formatting and their round trips. */
module Editor {
  import opened Wire
  import opened Text
  import opened Routes

  // ---------------------------------------------------------------------------
  // Traffic split: "group:weight, group:weight"
  // ---------------------------------------------------------------------------

  function WeightedTarget(group: string, weight: Option<int>): Option<RouteTarget> {
    if weight.None? || weight.value <= 0 || group == "" then None
    else Some(RouteTarget(group, if weight.value > MAX_INT32 then MAX_INT32 else weight.value))
  }

  function ParseTrimmedTarget(part: string): Option<RouteTarget> {
    var i := LastIndex(part, ':');
    if part == "" then None
    else if i < 0 then Some(RouteTarget(part, 1))
    else WeightedTarget(Trim(part[..i]), Atoi(Trim(part[i + 1..])))
  }

  function ParseTarget(raw: string): Option<RouteTarget> {
    ParseTrimmedTarget(Trim(raw))
  }

  function SplitOf(s: string): seq<RouteTarget> {
    if Trim(s) == "" then [] else Keep(ParseTarget, Split(Trim(s), ','))
  }

  function FormatTarget(t: RouteTarget): string {
    t.group + ":" + Itoa(Clamp(t.weight))
  }

  function FormatTargets(targets: seq<RouteTarget>): (parts: seq<string>)
    ensures |parts| == |targets|
    ensures forall i :: 0 <= i < |targets| ==> parts[i] == FormatTarget(targets[i])
  {
    seq(|targets|, i requires 0 <= i < |targets| => FormatTarget(targets[i]))
  }

  function SplitText(targets: seq<RouteTarget>): string {
    Join(FormatTargets(targets), ", ")
  }

  predicate GoodTarget(t: RouteTarget) {
    t.group != "" && Trimmed(t.group) && Lacks(t.group, ',') && 1 <= t.weight <= MAX_INT32
  }

  predicate GoodSplit(targets: seq<RouteTarget>) {
    forall i :: 0 <= i < |targets| ==> GoodTarget(targets[i])
  }

  lemma ParsedTargetIsGood(raw: string)
    requires Lacks(raw, ',') && ParseTarget(raw).Some?
    ensures GoodTarget(ParseTarget(raw).value)
  {
    var part := Trim(raw);
    var i := LastIndex(part, ':');
    TrimLacks(raw, ',');
    if i >= 0 { TrimLacks(part[..i], ','); }
  }

  /** Whatever the text, what is parsed from it is well formed. */
  lemma ParsedSplitIsGood(s: string)
    ensures GoodSplit(SplitOf(s))
  {
    var parts := Split(Trim(s), ',');
    SplitLacks(Trim(s), ',');
    forall i | 0 <= i < |parts| && ParseTarget(parts[i]).Some? ensures GoodTarget(ParseTarget(parts[i]).value) {
      ParsedTargetIsGood(parts[i]);
    }
    KeepGood(ParseTarget, parts, GoodTarget);
  }

  lemma ParsePair(group: string, digits: string)
    requires Lacks(digits, ':') && Trimmed(group) && Trimmed(digits)
    ensures ParseTrimmedTarget(group + [':'] + digits) == WeightedTarget(group, Atoi(digits))
  {
    var text := group + [':'] + digits;
    LastIndexUnique(group, ':', digits);
    assert text[..|group|] == group && text[|group| + 1..] == digits;
    TrimTrimmed(group);
    TrimTrimmed(digits);
  }

  lemma FormattedShape(t: RouteTarget)
    requires GoodTarget(t)
    ensures FormatTarget(t) == t.group + [':'] + Itoa(t.weight)
    ensures Lacks(FormatTarget(t), ',') && FormatTarget(t) != "" && Trimmed(FormatTarget(t))
  {
    var digits := Itoa(t.weight);
    var text := FormatTarget(t);
    assert text == t.group + [':'] + digits;
    DigitsLack(digits, ',');
    DigitsAreNotSpace(digits);
    assert text[|text| - 1] == digits[|digits| - 1];
  }

  lemma ParseWeighted(t: RouteTarget, digits: string)
    requires GoodTarget(t) && AllDigits(digits) && Atoi(digits) == Some(t.weight)
    ensures ParseTrimmedTarget(t.group + [':'] + digits) == Some(t)
  {
    DigitsLack(digits, ':');
    DigitsAreNotSpace(digits);
    ParsePair(t.group, digits);
  }

  lemma ParseFormatted(t: RouteTarget)
    requires GoodTarget(t)
    ensures ParseTrimmedTarget(t.group + [':'] + Itoa(t.weight)) == Some(t)
  {
    AtoiItoa(t.weight);
    ParseWeighted(t, Itoa(t.weight));
  }

  lemma FormattedTarget(t: RouteTarget)
    requires GoodTarget(t)
    ensures ParseTarget(FormatTarget(t)) == Some(t)
    ensures ParseTarget([' '] + FormatTarget(t)) == Some(t)
  {
    FormattedShape(t);
    ParseFormatted(t);
    TrimTrimmed(FormatTarget(t));
    TrimPadded(FormatTarget(t));
  }

  lemma SplitParts(parts: seq<string>, targets: seq<RouteTarget>)
    requires parts != [] && |parts| == |targets|
    requires forall i :: 0 <= i < |parts| ==> Lacks(parts[i], ',') && Trimmed(parts[i]) && parts[i] != ""
    requires forall i :: 0 <= i < |parts| ==>
      ParseTarget(parts[i]) == Some(targets[i]) && ParseTarget([' '] + parts[i]) == Some(targets[i])
    ensures SplitOf(Join(parts, ", ")) == targets
  {
    assert ", " == [','] + [' '];
    JoinTrimmed(parts, ", ");
    TrimTrimmed(Join(parts, ", "));
    KeepJoined(ParseTarget, parts, targets, ',', [' ']);
  }

  /** Formatting a well-formed split and parsing it back is the identity. */
  lemma SplitRoundTrip(targets: seq<RouteTarget>)
    requires GoodSplit(targets)
    ensures SplitOf(SplitText(targets)) == targets
  {
    if targets != [] {
      var parts := FormatTargets(targets);
      forall i | 0 <= i < |parts|
        ensures Lacks(parts[i], ',') && Trimmed(parts[i]) && parts[i] != ""
        ensures ParseTarget(parts[i]) == Some(targets[i]) && ParseTarget([' '] + parts[i]) == Some(targets[i])
      {
        FormattedShape(targets[i]);
        FormattedTarget(targets[i]);
      }
      SplitParts(parts, targets);
    }
  }

  /** For every text: format after parse loses nothing that parse kept. */
  lemma SplitStable(s: string)
    ensures SplitOf(SplitText(SplitOf(s))) == SplitOf(s)
  {
    ParsedSplitIsGood(s);
    SplitRoundTrip(SplitOf(s));
  }

  /** A group written alone has weight one. */
  lemma BareGroupParses(group: string)
    requires group != "" && Trimmed(group) && Lacks(group, ':')
    ensures ParseTarget(group) == Some(RouteTarget(group, 1))
  {
    TrimTrimmed(group);
  }

  /** Of any weight written: zero and what does not fit 64 bits drop the target, and what does
      not fit 32 counts as the largest that does. */
  lemma WrittenWeightParses(group: string, n: nat)
    requires group != "" && Trimmed(group)
    ensures ParseTarget(group + [':'] + Itoa(n)) ==
      if n == 0 || n >= INT64_LIMIT then None
      else Some(RouteTarget(group, if n <= 2_147_483_647 then n else 2_147_483_647))
  {
    var digits := Itoa(n);
    DigitsLack(digits, ':');
    DigitsAreNotSpace(digits);
    ParsePair(group, digits);
    AtoiSigned(n);
    if n < INT64_LIMIT { AtoiItoa(n); }
    TrimmedConcat(group, [':'] + digits);
    assert group + ([':'] + digits) == group + [':'] + digits;
    TrimTrimmed(group + [':'] + digits);
  }

  // ---------------------------------------------------------------------------
  // Match conditions: "header:Name: value" and "query:name=value" lines
  // ---------------------------------------------------------------------------

  const HEADER_PREFIX: string := "header:"
  const QUERY_PREFIX: string := "query:"

  function NamedCondition(pair: (string, string)): Option<Condition> {
    if pair.0 == "" then None else Some(Condition(pair.0, pair.1))
  }

  function HeaderOfLine(line: string): Option<Condition> {
    if line == "" || QUERY_PREFIX <= line then None
    else if HEADER_PREFIX <= line then NamedCondition(NameValue(line[7..], ':'))
    else NamedCondition(NameValue(line, ':'))
  }

  function QueryOfLine(line: string): Option<Condition> {
    if QUERY_PREFIX <= line then NamedCondition(NameValue(line[6..], '=')) else None
  }

  function HeaderOf(raw: string): Option<Condition> { HeaderOfLine(Trim(raw)) }

  function QueryOf(raw: string): Option<Condition> { QueryOfLine(Trim(raw)) }

  function MatchOf(s: string): (seq<Condition>, seq<Condition>) {
    (Keep(HeaderOf, Split(s, '\n')), Keep(QueryOf, Split(s, '\n')))
  }

  function HeaderLine(c: Condition): string {
    if c.value == "" then HEADER_PREFIX + c.name else HEADER_PREFIX + c.name + ": " + c.value
  }

  function QueryLine(c: Condition): string {
    if c.value == "" then QUERY_PREFIX + c.name else QUERY_PREFIX + c.name + "=" + c.value
  }

  function Lines(f: Condition -> string, cs: seq<Condition>): (lines: seq<string>)
    ensures |lines| == |cs| && forall i :: 0 <= i < |cs| ==> lines[i] == f(cs[i])
  {
    seq(|cs|, i requires 0 <= i < |cs| => f(cs[i]))
  }

  function MatchText(headers: seq<Condition>, queries: seq<Condition>): string {
    Join(Lines(HeaderLine, headers) + Lines(QueryLine, queries), "\n")
  }

  /** A condition the field can hold: trimmed, on one line, its name free of the separator. */
  predicate GoodCondition(c: Condition, separator: char) {
    && c.name != "" && Trimmed(c.name) && Lacks(c.name, separator) && Lacks(c.name, '\n')
    && Trimmed(c.value) && Lacks(c.value, '\n')
  }

  predicate GoodHeader(c: Condition) { GoodCondition(c, ':') }
  predicate GoodQuery(c: Condition) { GoodCondition(c, '=') }

  predicate GoodMatch(headers: seq<Condition>, queries: seq<Condition>) {
    && (forall i :: 0 <= i < |headers| ==> GoodHeader(headers[i]))
    && (forall i :: 0 <= i < |queries| ==> GoodQuery(queries[i]))
  }

  lemma ParsedHeaderIsGood(raw: string)
    requires Lacks(raw, '\n') && HeaderOf(raw).Some?
    ensures GoodHeader(HeaderOf(raw).value)
  {
    var line := Trim(raw);
    TrimLacks(raw, '\n');
    NameValueGood(line, ':', '\n');
    if HEADER_PREFIX <= line { NameValueGood(line[7..], ':', '\n'); }
  }

  lemma ParsedQueryIsGood(raw: string)
    requires Lacks(raw, '\n') && QueryOf(raw).Some?
    ensures GoodQuery(QueryOf(raw).value)
  {
    var line := Trim(raw);
    TrimLacks(raw, '\n');
    NameValueGood(line[6..], '=', '\n');
  }

  lemma ParsedMatchIsGood(s: string)
    ensures GoodMatch(MatchOf(s).0, MatchOf(s).1)
  {
    var lines := Split(s, '\n');
    SplitLacks(s, '\n');
    forall i | 0 <= i < |lines| && HeaderOf(lines[i]).Some? ensures GoodHeader(HeaderOf(lines[i]).value) {
      ParsedHeaderIsGood(lines[i]);
    }
    KeepGood(HeaderOf, lines, GoodHeader);
    forall i | 0 <= i < |lines| && QueryOf(lines[i]).Some? ensures GoodQuery(QueryOf(lines[i]).value) {
      ParsedQueryIsGood(lines[i]);
    }
    KeepGood(QueryOf, lines, GoodQuery);
  }

  /** The part of a line after its prefix: a name, or a name, a separator and a value. */
  function Body(c: Condition, separator: char, pad: string): string {
    if c.value == "" then c.name else c.name + [separator] + (pad + c.value)
  }

  lemma BodyParses(c: Condition, separator: char, pad: string)
    requires GoodCondition(c, separator) && (pad == "" || pad == [' '])
    ensures NamedCondition(NameValue(Body(c, separator, pad), separator)) == Some(c)
  {
    if c.value == "" {
      NameAlone(c.name, separator);
    } else {
      NameValueOf(c.name, separator, pad + c.value);
      TrimTrimmed(c.value);
      TrimPadded(c.value);
      assert "" + c.value == c.value;
    }
  }

  lemma BodyShape(c: Condition, separator: char, pad: string)
    requires GoodCondition(c, separator) && (pad == "" || pad == [' ']) && separator != '\n'
    ensures Body(c, separator, pad) != "" && Lacks(Body(c, separator, pad), '\n')
    ensures !IsSpace(Body(c, separator, pad)[|Body(c, separator, pad)| - 1])
  {
    var body := Body(c, separator, pad);
    if c.value != "" {
      assert body[|body| - 1] == c.value[|c.value| - 1];
      LacksConcat(c.name, [separator], '\n');
      LacksConcat(pad, c.value, '\n');
      LacksConcat(c.name + [separator], pad + c.value, '\n');
    }
  }

  lemma HeaderLineBody(c: Condition)
    ensures HeaderLine(c) == HEADER_PREFIX + Body(c, ':', [' '])
  {
    if c.value != "" { assert c.name + ": " + c.value == c.name + [':'] + ([' '] + c.value); }
  }

  lemma QueryLineBody(c: Condition)
    ensures QueryLine(c) == QUERY_PREFIX + Body(c, '=', "")
  {
    if c.value != "" { assert c.name + "=" + c.value == c.name + ['='] + ("" + c.value); }
  }

  lemma PrefixedLine(prefix: string, body: string)
    requires prefix == HEADER_PREFIX || prefix == QUERY_PREFIX
    requires body != "" && Lacks(body, '\n') && !IsSpace(body[|body| - 1])
    ensures Trimmed(prefix + body) && Lacks(prefix + body, '\n')
    ensures Trim(prefix + body) == prefix + body && (prefix + body)[|prefix|..] == body
    ensures QUERY_PREFIX <= prefix + body <==> prefix == QUERY_PREFIX
    ensures prefix == HEADER_PREFIX ==> HEADER_PREFIX <= prefix + body
  {
    TrimmedConcat(prefix, body);
    LacksConcat(prefix, body, '\n');
    TrimTrimmed(prefix + body);
    assert (prefix + body)[0] == prefix[0];
  }

  lemma HeaderOfPrefixed(body: string)
    requires body != "" && Lacks(body, '\n') && !IsSpace(body[|body| - 1])
    ensures HeaderOf(HEADER_PREFIX + body) == NamedCondition(NameValue(body, ':'))
    ensures QueryOf(HEADER_PREFIX + body) == None && Lacks(HEADER_PREFIX + body, '\n')
  {
    PrefixedLine(HEADER_PREFIX, body);
  }

  lemma HeaderLineParses(c: Condition)
    requires GoodHeader(c)
    ensures HeaderOf(HeaderLine(c)) == Some(c) && QueryOf(HeaderLine(c)) == None
    ensures Lacks(HeaderLine(c), '\n')
  {
    var body := Body(c, ':', [' ']);
    HeaderLineBody(c);
    BodyShape(c, ':', [' ']);
    HeaderOfPrefixed(body);
    BodyParses(c, ':', [' ']);
  }

  lemma QueryLineParses(c: Condition)
    requires GoodQuery(c)
    ensures QueryOf(QueryLine(c)) == Some(c) && HeaderOf(QueryLine(c)) == None
    ensures Lacks(QueryLine(c), '\n')
  {
    var body := Body(c, '=', "");
    QueryLineBody(c);
    BodyShape(c, '=', "");
    PrefixedLine(QUERY_PREFIX, body);
    BodyParses(c, '=', "");
  }

  lemma {:induction false} KeepLines<T>(parse: string -> Option<T>, lines: seq<string>)
    requires AllLack(lines, '\n') && parse("") == None
    ensures Keep(parse, Split(Join(lines, "\n"), '\n')) == Keep(parse, lines)
  {
    if lines == [] {
      assert Split("", '\n') == [""];
      KeepNothing(parse, [""]);
    } else {
      SplitJoinExact(lines, '\n');
      assert ['\n'] == "\n";
    }
  }

  lemma {:induction false} KeepAmong<T>(parse: string -> Option<T>, a: seq<string>, b: seq<string>, xs: seq<T>)
    requires |a| == |xs| && forall i :: 0 <= i < |a| ==> parse(a[i]) == Some(xs[i])
    requires forall i :: 0 <= i < |b| ==> parse(b[i]) == None
    ensures Keep(parse, a + b) == xs && Keep(parse, b + a) == xs
  {
    KeepExactly(parse, a, xs);
    KeepNothing(parse, b);
    KeepAppend(parse, a, b);
    KeepAppend(parse, b, a);
  }

  /** Formatting well-formed conditions and parsing them back is the identity. */
  lemma MatchRoundTrip(headers: seq<Condition>, queries: seq<Condition>)
    requires GoodMatch(headers, queries)
    ensures MatchOf(MatchText(headers, queries)) == (headers, queries)
  {
    var hs, qs := Lines(HeaderLine, headers), Lines(QueryLine, queries);
    forall i | 0 <= i < |hs|
      ensures HeaderOf(hs[i]) == Some(headers[i]) && QueryOf(hs[i]) == None && Lacks(hs[i], '\n')
    {
      HeaderLineParses(headers[i]);
    }
    forall i | 0 <= i < |qs|
      ensures QueryOf(qs[i]) == Some(queries[i]) && HeaderOf(qs[i]) == None && Lacks(qs[i], '\n')
    {
      QueryLineParses(queries[i]);
    }
    MatchLines(hs, qs, headers, queries);
  }

  lemma MatchLines(hs: seq<string>, qs: seq<string>, headers: seq<Condition>, queries: seq<Condition>)
    requires |hs| == |headers| && |qs| == |queries| && AllLack(hs, '\n') && AllLack(qs, '\n')
    requires forall i :: 0 <= i < |hs| ==> HeaderOf(hs[i]) == Some(headers[i]) && QueryOf(hs[i]) == None
    requires forall i :: 0 <= i < |qs| ==> QueryOf(qs[i]) == Some(queries[i]) && HeaderOf(qs[i]) == None
    ensures MatchOf(Join(hs + qs, "\n")) == (headers, queries)
  {
    KeepLines(HeaderOf, hs + qs);
    KeepLines(QueryOf, hs + qs);
    KeepAmong(HeaderOf, hs, qs, headers);
    KeepAmong(QueryOf, qs, hs, queries);
  }

  lemma MatchStable(s: string)
    ensures var m := MatchOf(s); MatchOf(MatchText(m.0, m.1)) == m
  {
    ParsedMatchIsGood(s);
    MatchRoundTrip(MatchOf(s).0, MatchOf(s).1);
  }

  /** A line without either prefix is a header condition. */
  lemma BareLineIsHeader(c: Condition)
    requires GoodHeader(c) && c.value != ""
    requires !(HEADER_PREFIX <= c.name + [':'] + c.value) && !(QUERY_PREFIX <= c.name + [':'] + c.value)
    ensures HeaderOf(c.name + [':'] + c.value) == Some(c) && QueryOf(c.name + [':'] + c.value) == None
  {
    var line := c.name + [':'] + c.value;
    TrimmedConcat(c.name, [':'] + c.value);
    assert line == c.name + ([':'] + c.value);
    TrimTrimmed(line);
    NameValueOf(c.name, ':', c.value);
    TrimTrimmed(c.value);
  }

  // ---------------------------------------------------------------------------
  // Request rewrites: "Name: value" sets a header, "-Name" removes one
  // ---------------------------------------------------------------------------

  function SetOfLine(line: string): Option<Condition> {
    var i := Index(line, ':');
    if line == "" || line[0] == '-' || i <= 0 || Trim(line[..i]) == "" then None
    else Some(Condition(Trim(line[..i]), Trim(line[i + 1..])))
  }

  function RemoveOfLine(line: string): Option<string> {
    if line == "" || line[0] != '-' || Trim(line[1..]) == "" then None else Some(Trim(line[1..]))
  }

  function SetOf(raw: string): Option<Condition> { SetOfLine(Trim(raw)) }

  function RemoveOf(raw: string): Option<string> { RemoveOfLine(Trim(raw)) }

  /** Later lines overwrite earlier ones of the same name. */
  function ToMap(cs: seq<Condition>): map<string, string> {
    if cs == [] then map[]
    else ToMap(cs[..|cs| - 1])[cs[|cs| - 1].name := cs[|cs| - 1].value]
  }

  function MakeRewrite(strip: string, set': map<string, string>, remove: seq<string>): Option<Rewrite> {
    if strip == "" && set' == map[] && remove == [] then None
    else Some(Rewrite(set', remove, map[], [], strip, ""))
  }

  function RewriteOf(strip: string, text: string): Option<Rewrite> {
    var lines := Split(text, '\n');
    MakeRewrite(Trim(strip), ToMap(Keep(SetOf, lines)), Keep(RemoveOf, lines))
  }

  function SetLine(c: Condition): string { c.name + ": " + c.value }

  function RemoveLine(name: string): string { "-" + name }

  function RemoveLines(names: seq<string>): (lines: seq<string>)
    ensures |lines| == |names| && forall i :: 0 <= i < |names| ==> lines[i] == RemoveLine(names[i])
  {
    seq(|names|, i requires 0 <= i < |names| => RemoveLine(names[i]))
  }

  function Pairs(names: seq<string>, set': map<string, string>): (cs: seq<Condition>)
    requires forall i :: 0 <= i < |names| ==> names[i] in set'
    ensures |cs| == |names| && forall i :: 0 <= i < |names| ==> cs[i] == Condition(names[i], set'[names[i]])
  {
    seq(|names|, i requires 0 <= i < |names| => Condition(names[i], set'[names[i]]))
  }

  /** `names` lists the keys of `set'`, each once. */
  predicate Enumerates(names: seq<string>, set': map<string, string>) {
    && (forall i :: 0 <= i < |names| ==> names[i] in set')
    && (forall i, j :: 0 <= i < j < |names| ==> names[i] != names[j])
    && (forall k :: k in set' ==> k in names)
  }

  function RewriteText(names: seq<string>, rw: Rewrite): string
    requires Enumerates(names, rw.setRequestHeaders)
  {
    Join(Lines(SetLine, Pairs(names, rw.setRequestHeaders)) + RemoveLines(rw.removeRequestHeaders), "\n")
  }

  predicate GoodSet(c: Condition) { GoodCondition(c, ':') && c.name[0] != '-' }

  predicate GoodName(name: string) { name != "" && Trimmed(name) && Lacks(name, '\n') }

  /** A rewrite the two fields can hold. */
  predicate GoodRewrite(rw: Rewrite) {
    && (forall k :: k in rw.setRequestHeaders ==> GoodSet(Condition(k, rw.setRequestHeaders[k])))
    && (forall i :: 0 <= i < |rw.removeRequestHeaders| ==> GoodName(rw.removeRequestHeaders[i]))
    && Trimmed(rw.stripPathPrefix)
    && MakeRewrite(rw.stripPathPrefix, rw.setRequestHeaders, rw.removeRequestHeaders) == Some(rw)
  }

  lemma ParsedSetIsGood(raw: string)
    requires Lacks(raw, '\n') && SetOf(raw).Some?
    ensures GoodSet(SetOf(raw).value)
  {
    var line := Trim(raw);
    var i := Index(line, ':');
    TrimLacks(raw, '\n');
    var before := line[..i];
    TrimLacks(before, '\n');
    TrimLacks(before, ':');
    TrimLacks(line[i + 1..], '\n');
    assert before[0] == line[0];
    TrimKeepsFirst(before);
  }

  lemma TrimKeepsFirst(s: string)
    requires s != "" && !IsSpace(s[0]) && Trim(s) != ""
    ensures Trim(s)[0] == s[0]
  {}

  lemma ParsedRemoveIsGood(raw: string)
    requires Lacks(raw, '\n') && RemoveOf(raw).Some?
    ensures GoodName(RemoveOf(raw).value)
  {
    TrimLacks(raw, '\n');
    TrimLacks(Trim(raw)[1..], '\n');
  }

  lemma {:induction false} ToMapGood(cs: seq<Condition>)
    requires forall i :: 0 <= i < |cs| ==> GoodSet(cs[i])
    ensures forall k :: k in ToMap(cs) ==> GoodSet(Condition(k, ToMap(cs)[k]))
  {
    if cs == [] {
    } else {
      ToMapGood(cs[..|cs| - 1]);
      assert cs[|cs| - 1] == Condition(cs[|cs| - 1].name, cs[|cs| - 1].value);
    }
  }

  lemma ParsedRewriteIsGood(strip: string, text: string)
    requires RewriteOf(strip, text).Some?
    ensures GoodRewrite(RewriteOf(strip, text).value)
  {
    var lines := Split(text, '\n');
    SplitLacks(text, '\n');
    forall i | 0 <= i < |lines| && SetOf(lines[i]).Some? ensures GoodSet(SetOf(lines[i]).value) {
      ParsedSetIsGood(lines[i]);
    }
    KeepGood(SetOf, lines, GoodSet);
    ToMapGood(Keep(SetOf, lines));
    forall i | 0 <= i < |lines| && RemoveOf(lines[i]).Some? ensures GoodName(RemoveOf(lines[i]).value) {
      ParsedRemoveIsGood(lines[i]);
    }
    KeepGood(RemoveOf, lines, GoodName);
    TrimTrimmed(Trim(strip));
  }

  lemma TrimSetLine(c: Condition)
    requires GoodSet(c)
    ensures Trim(SetLine(c)) == c.name + [':'] + (if c.value == "" then "" else [' '] + c.value)
  {
    var line := SetLine(c);
    if c.value == "" {
      assert line == (c.name + [':']) + [' '];
      TrimTrailing(c.name + [':']);
      assert c.name + [':'] + "" == c.name + [':'];
    } else {
      assert line == c.name + [':'] + ([' '] + c.value);
      assert line[|line| - 1] == c.value[|c.value| - 1];
      TrimTrimmed(line);
    }
  }

  lemma SetOfNameValue(name: string, rest: string)
    requires name != "" && Trimmed(name) && Lacks(name, ':') && name[0] != '-'
    ensures SetOfLine(name + [':'] + rest) == Some(Condition(name, Trim(rest)))
    ensures RemoveOfLine(name + [':'] + rest) == None
  {
    var line := name + [':'] + rest;
    IndexUnique(name, ':', rest);
    assert line[..|name|] == name && line[|name| + 1..] == rest && line[0] == name[0];
    TrimTrimmed(name);
  }

  lemma SetLineParses(c: Condition)
    requires GoodSet(c)
    ensures SetOf(SetLine(c)) == Some(c) && RemoveOf(SetLine(c)) == None
    ensures Lacks(SetLine(c), '\n')
  {
    var rest := if c.value == "" then "" else [' '] + c.value;
    TrimSetLine(c);
    SetOfNameValue(c.name, rest);
    TrimTrimmed(c.value);
    TrimPadded(c.value);
    SetLineIsOneLine(c);
  }

  lemma SetLineIsOneLine(c: Condition)
    requires GoodSet(c)
    ensures Lacks(SetLine(c), '\n')
  {
    LacksConcat(c.name, ": ", '\n');
    LacksConcat(c.name + ": ", c.value, '\n');
  }

  lemma RemoveLineParses(name: string)
    requires GoodName(name)
    ensures RemoveOf(RemoveLine(name)) == Some(name) && SetOf(RemoveLine(name)) == None
    ensures Lacks(RemoveLine(name), '\n')
  {
    var line := RemoveLine(name);
    assert line[0] == '-' && line[|line| - 1] == name[|name| - 1] && line[1..] == name;
    TrimTrimmed(line);
    TrimTrimmed(name);
  }

  lemma {:induction false} ToMapSnoc(cs: seq<Condition>, c: Condition)
    ensures ToMap(cs + [c]) == ToMap(cs)[c.name := c.value]
  {
    assert (cs + [c])[..|cs|] == cs;
  }

  /** `m` is `set'` on exactly the listed names. */
  ghost predicate AgreesOn(m: map<string, string>, names: seq<string>, set': map<string, string>) {
    && (forall k :: k in m <==> k in names)
    && (forall k :: k in m ==> k in set' && m[k] == set'[k])
  }

  lemma AgreesSnoc(m: map<string, string>, names: seq<string>, set': map<string, string>, name: string)
    requires AgreesOn(m, names, set') && name in set'
    ensures AgreesOn(m[name := set'[name]], names + [name], set')
  {}

  lemma {:induction false} ToMapAgrees(names: seq<string>, cs: seq<Condition>, set': map<string, string>)
    requires |names| == |cs|
    requires forall i :: 0 <= i < |names| ==> names[i] in set' && cs[i] == Condition(names[i], set'[names[i]])
    ensures AgreesOn(ToMap(cs), names, set')
  {
    if names == [] {
    } else {
      var n := |names| - 1;
      ToMapAgrees(names[..n], cs[..n], set');
      AgreesSnoc(ToMap(cs[..n]), names[..n], set', names[n]);
      assert names == names[..n] + [names[n]];
    }
  }

  lemma RewriteLines(sets: seq<string>, removes: seq<string>, cs: seq<Condition>, names: seq<string>)
    requires |sets| == |cs| && |removes| == |names| && AllLack(sets, '\n') && AllLack(removes, '\n')
    requires forall i :: 0 <= i < |sets| ==> SetOf(sets[i]) == Some(cs[i]) && RemoveOf(sets[i]) == None
    requires forall i :: 0 <= i < |removes| ==> RemoveOf(removes[i]) == Some(names[i]) && SetOf(removes[i]) == None
    ensures Keep(SetOf, Split(Join(sets + removes, "\n"), '\n')) == cs
    ensures Keep(RemoveOf, Split(Join(sets + removes, "\n"), '\n')) == names
  {
    KeepLines(SetOf, sets + removes);
    KeepLines(RemoveOf, sets + removes);
    KeepAmong(SetOf, sets, removes, cs);
    KeepAmong(RemoveOf, removes, sets, names);
  }

  lemma RewriteTextParses(cs: seq<Condition>, names: seq<string>)
    requires forall i :: 0 <= i < |cs| ==> GoodSet(cs[i])
    requires forall i :: 0 <= i < |names| ==> GoodName(names[i])
    ensures var text := Join(Lines(SetLine, cs) + RemoveLines(names), "\n");
      Keep(SetOf, Split(text, '\n')) == cs && Keep(RemoveOf, Split(text, '\n')) == names
  {
    var sets, removes := Lines(SetLine, cs), RemoveLines(names);
    forall i | 0 <= i < |sets|
      ensures SetOf(sets[i]) == Some(cs[i]) && RemoveOf(sets[i]) == None && Lacks(sets[i], '\n')
    {
      SetLineParses(cs[i]);
    }
    forall i | 0 <= i < |removes|
      ensures RemoveOf(removes[i]) == Some(names[i]) && SetOf(removes[i]) == None && Lacks(removes[i], '\n')
    {
      RemoveLineParses(names[i]);
    }
    RewriteLines(sets, removes, cs, names);
  }

  lemma ToMapOfPairs(names: seq<string>, set': map<string, string>)
    requires Enumerates(names, set')
    ensures ToMap(Pairs(names, set')) == set'
  {
    ToMapAgrees(names, Pairs(names, set'), set');
  }

  /** Formatting a rewrite, whatever order its header names are listed in, and parsing it
      back is the identity. */
  lemma RewriteRoundTrip(names: seq<string>, rw: Rewrite)
    requires GoodRewrite(rw) && Enumerates(names, rw.setRequestHeaders)
    ensures RewriteOf(rw.stripPathPrefix, RewriteText(names, rw)) == Some(rw)
  {
    RewriteTextParses(Pairs(names, rw.setRequestHeaders), rw.removeRequestHeaders);
    ToMapOfPairs(names, rw.setRequestHeaders);
    TrimTrimmed(rw.stripPathPrefix);
  }

  /** For every pair of texts; an absent rewrite formats as two empty fields. */
  lemma RewriteStable(strip: string, text: string, names: seq<string>)
    requires RewriteOf(strip, text).Some? ==> Enumerates(names, RewriteOf(strip, text).value.setRequestHeaders)
    ensures var rw := RewriteOf(strip, text);
      if rw.Some? then RewriteOf(rw.value.stripPathPrefix, RewriteText(names, rw.value)) == rw
      else RewriteOf("", "") == rw
  {
    if RewriteOf(strip, text).Some? {
      ParsedRewriteIsGood(strip, text);
      RewriteRoundTrip(names, RewriteOf(strip, text).value);
    } else {
      assert Split("", '\n') == [""];
      KeepNothing(SetOf, [""]);
      KeepNothing(RemoveOf, [""]);
    }
  }

  // ---------------------------------------------------------------------------
  // Edge authentication: "apikey:K1,K2" and "jwt:hmac:SECRET:ISSUER:AUDIENCE"
  // ---------------------------------------------------------------------------

  const KEY_PREFIX: string := "apikey:"
  const JWT_PREFIX: string := "jwt:hmac:"

  function KeyOf(raw: string): Option<string> {
    if Trim(raw) == "" then None else Some(Trim(raw))
  }

  function ApiKeyAuth(keys: seq<string>): Auth { Auth("api_key", keys, "", "", "", "", "") }

  function JwtAuth(secret: string, issuer: string, audience: string): Auth {
    Auth("jwt", [], "", secret, "", issuer, audience)
  }

  function KeysOf(rest: string): Option<Auth> {
    var keys := Keep(KeyOf, Split(rest, ','));
    if keys == [] then None else Some(ApiKeyAuth(keys))
  }

  function JwtOf(parts: seq<string>): Option<Auth>
    requires |parts| >= 1
  {
    if Trim(parts[0]) == "" then None
    else Some(JwtAuth(Trim(parts[0]),
                      if |parts| >= 2 then Trim(parts[1]) else "",
                      if |parts| >= 3 then Trim(parts[2]) else ""))
  }

  function AuthOfTrimmed(s: string): Option<Auth> {
    if KEY_PREFIX <= s then KeysOf(s[7..])
    else if JWT_PREFIX <= s then JwtOf(Split(s[9..], ':'))
    else None
  }

  function AuthOf(s: string): Option<Auth> { AuthOfTrimmed(Trim(s)) }

  function JwtFields(a: Auth): seq<string> {
    if a.expectedIssuer != "" || a.expectedAudience != ""
    then [a.hmacSecret, a.expectedIssuer, a.expectedAudience] else [a.hmacSecret]
  }

  function AuthText(a: Option<Auth>): string {
    if a.None? || a.value.mode == "" || a.value.mode == "none" then ""
    else if a.value.mode == "api_key" then KEY_PREFIX + Join(a.value.apiKeys, ",")
    else if a.value.mode != "jwt" then ""
    else if a.value.rsaPublicKeyPem != "" then "jwt:rsa(configured)"
    else JWT_PREFIX + Join(JwtFields(a.value), ":")
  }

  predicate GoodKey(k: string) { k != "" && Trimmed(k) && Lacks(k, ',') }

  predicate GoodField(f: string) { Trimmed(f) && Lacks(f, ':') }

  /** A policy the field can hold. */
  predicate GoodAuth(a: Auth) {
    || (a == ApiKeyAuth(a.apiKeys) && a.apiKeys != [] && forall i :: 0 <= i < |a.apiKeys| ==> GoodKey(a.apiKeys[i]))
    || (a == JwtAuth(a.hmacSecret, a.expectedIssuer, a.expectedAudience) && a.hmacSecret != ""
        && GoodField(a.hmacSecret) && GoodField(a.expectedIssuer) && GoodField(a.expectedAudience))
  }

  lemma ParsedKeysAreGood(rest: string)
    requires KeysOf(rest).Some?
    ensures GoodAuth(KeysOf(rest).value)
  {
    var pieces := Split(rest, ',');
    SplitLacks(rest, ',');
    forall i | 0 <= i < |pieces| && KeyOf(pieces[i]).Some? ensures GoodKey(KeyOf(pieces[i]).value) {
      TrimLacks(pieces[i], ',');
    }
    KeepGood(KeyOf, pieces, GoodKey);
  }

  lemma ParsedJwtIsGood(parts: seq<string>)
    requires |parts| >= 1 && AllLack(parts, ':') && JwtOf(parts).Some?
    ensures GoodAuth(JwtOf(parts).value)
  {
    TrimLacks(parts[0], ':');
    if |parts| >= 2 { TrimLacks(parts[1], ':'); }
    if |parts| >= 3 { TrimLacks(parts[2], ':'); }
  }

  lemma ParsedAuthIsGood(s: string)
    requires AuthOf(s).Some?
    ensures GoodAuth(AuthOf(s).value)
  {
    var t := Trim(s);
    if KEY_PREFIX <= t {
      ParsedKeysAreGood(t[7..]);
    } else if JWT_PREFIX <= t {
      SplitLacks(t[9..], ':');
      ParsedJwtIsGood(Split(t[9..], ':'));
    }
  }

  lemma {:induction false} KeysRoundTrip(keys: seq<string>)
    requires keys != [] && forall i :: 0 <= i < |keys| ==> GoodKey(keys[i])
    ensures KeysOf(Join(keys, ",")) == Some(ApiKeyAuth(keys))
    ensures Join(keys, ",") != "" && Trimmed(Join(keys, ","))
  {
    JoinTrimmed(keys, ",");
    forall i | 0 <= i < |keys| ensures KeyOf(keys[i]) == Some(keys[i]) && KeyOf("" + keys[i]) == Some(keys[i]) {
      TrimTrimmed(keys[i]);
      assert "" + keys[i] == keys[i];
    }
    assert "," == [','] + "";
    KeepJoined(KeyOf, keys, keys, ',', "");
  }

  lemma JwtFieldsParse(a: Auth)
    requires GoodAuth(a) && a.mode == "jwt"
    ensures JwtOf(JwtFields(a)) == Some(a) && AllLack(JwtFields(a), ':')
  {
    TrimTrimmed(a.hmacSecret);
    TrimTrimmed(a.expectedIssuer);
    TrimTrimmed(a.expectedAudience);
  }

  lemma JwtTextEnds(a: Auth)
    requires GoodAuth(a) && a.mode == "jwt"
    ensures var text := Join(JwtFields(a), ":"); text != "" && !IsSpace(text[|text| - 1])
  {
    var fields := JwtFields(a);
    var text := Join(fields, ":");
    if |fields| == 3 {
      assert fields[1..][1..] == [a.expectedAudience];
      assert fields[1..] == [a.expectedIssuer, a.expectedAudience];
      assert Join(fields[1..], ":") == a.expectedIssuer + ":" + a.expectedAudience;
      assert text == (a.hmacSecret + ":" + a.expectedIssuer + ":") + a.expectedAudience;
    }
  }

  lemma JwtRoundTrip(a: Auth)
    requires GoodAuth(a) && a.mode == "jwt"
    ensures JwtOf(Split(Join(JwtFields(a), ":"), ':')) == Some(a)
  {
    JwtFieldsParse(a);
    assert ":" == [':'];
    SplitJoinExact(JwtFields(a), ':');
  }

  lemma AuthOfPrefixed(prefix: string, rest: string)
    requires prefix == KEY_PREFIX || prefix == JWT_PREFIX
    requires rest != "" && !IsSpace(rest[|rest| - 1])
    ensures AuthOf(prefix + rest) == if prefix == KEY_PREFIX then KeysOf(rest) else JwtOf(Split(rest, ':'))
  {
    TrimmedConcat(prefix, rest);
    TrimTrimmed(prefix + rest);
    AuthOfTrimmedPrefixed(prefix, rest);
  }

  lemma AuthOfTrimmedPrefixed(prefix: string, rest: string)
    requires prefix == KEY_PREFIX || prefix == JWT_PREFIX
    ensures AuthOfTrimmed(prefix + rest) == if prefix == KEY_PREFIX then KeysOf(rest) else JwtOf(Split(rest, ':'))
  {
    var s := prefix + rest;
    assert s[|prefix|..] == rest;
    if prefix == JWT_PREFIX { assert s[0] == 'j' && KEY_PREFIX[0] == 'a'; }
  }

  /** Formatting a policy the field can hold and parsing it back is the identity. */
  lemma AuthRoundTrip(a: Auth)
    requires GoodAuth(a)
    ensures AuthOf(AuthText(Some(a))) == Some(a)
  {
    if a.mode == "api_key" {
      KeysRoundTrip(a.apiKeys);
      AuthOfPrefixed(KEY_PREFIX, Join(a.apiKeys, ","));
    } else {
      JwtTextEnds(a);
      JwtRoundTrip(a);
      AuthOfPrefixed(JWT_PREFIX, Join(JwtFields(a), ":"));
    }
  }

  lemma AuthStable(s: string)
    ensures AuthOf(AuthText(AuthOf(s))) == AuthOf(s)
  {
    if AuthOf(s).Some? {
      ParsedAuthIsGood(s);
      AuthRoundTrip(AuthOf(s).value);
    }
  }

  /** Text that names neither scheme sets no policy. */
  lemma UnknownSchemeIsOpen(s: string)
    requires !(KEY_PREFIX <= Trim(s)) && !(JWT_PREFIX <= Trim(s))
    ensures AuthOf(s) == None
    ensures KEY_PREFIX == "apikey:" && JWT_PREFIX == "jwt:hmac:"
  {}

  // ---------------------------------------------------------------------------
  // What the fields look like
  // ---------------------------------------------------------------------------

  lemma SplitReads(a: RouteTarget, b: RouteTarget)
    requires a.weight >= 1 && b.weight >= 1
    ensures SplitText([a, b]) == (a.group + ":" + Itoa(a.weight)) + ", " + (b.group + ":" + Itoa(b.weight))
  {
    assert FormatTargets([a, b]) == [FormatTarget(a), FormatTarget(b)];
    JoinTwo(FormatTarget(a), FormatTarget(b), ", ");
  }

  lemma MatchReads(header: Condition, query: Condition)
    requires header.value != "" && query.value != ""
    ensures MatchText([header], [query])
         == ("header:" + header.name + ": " + header.value) + "\n" + ("query:" + query.name + "=" + query.value)
  {
    assert Lines(HeaderLine, [header]) + Lines(QueryLine, [query]) == [HeaderLine(header), QueryLine(query)];
    JoinTwo(HeaderLine(header), QueryLine(query), "\n");
  }

  lemma RewriteReads(name: string, value: string, removed: string)
    ensures var rw := Rewrite(map[name := value], [removed], map[], [], "", "");
      && Enumerates([name], rw.setRequestHeaders)
      && RewriteText([name], rw) == (name + ": " + value) + "\n" + ("-" + removed)
  {
    var sets := map[name := value];
    assert Lines(SetLine, Pairs([name], sets)) + RemoveLines([removed])
        == [SetLine(Condition(name, value)), RemoveLine(removed)];
    JoinTwo(SetLine(Condition(name, value)), RemoveLine(removed), "\n");
  }

  lemma AuthReads(key: string, other: string, secret: string, issuer: string, audience: string)
    ensures AuthText(Some(ApiKeyAuth([key, other]))) == "apikey:" + (key + "," + other)
    ensures AuthText(Some(JwtAuth(secret, "", ""))) == "jwt:hmac:" + secret
    ensures issuer != "" ==>
      AuthText(Some(JwtAuth(secret, issuer, audience))) == "jwt:hmac:" + (secret + ":" + (issuer + ":" + audience))
  {
    JoinTwo(key, other, ",");
    JoinThree(secret, issuer, audience, ":");
  }
}
