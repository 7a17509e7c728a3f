/** The string operations the program takes from Go's strings and strconv packages. */
module Text {
  import opened Wire

  /** unicode.IsSpace. */
  predicate IsSpace(c: char) {
    || '\t' <= c <= '\r' || c == ' ' || c == '\U{0085}' || c == '\U{00A0}' || c == '\U{1680}'
    || '\U{2000}' <= c <= '\U{200A}' || c == '\U{2028}' || c == '\U{2029}' || c == '\U{202F}'
    || c == '\U{205F}' || c == '\U{3000}'
  }

  // ---------------------------------------------------------------------------
  // Trimming
  // ---------------------------------------------------------------------------

  function TrimLeft(s: string): (t: string)
    ensures t == [] || !IsSpace(t[0])
  {
    if s != [] && IsSpace(s[0]) then TrimLeft(s[1..]) else s
  }

  function TrimRight(s: string): (t: string)
    ensures t == [] || !IsSpace(t[|t| - 1])
    ensures t != [] ==> s != [] && t[0] == s[0]
  {
    if s != [] && IsSpace(s[|s| - 1]) then TrimRight(s[..|s| - 1]) else s
  }

  /** strings.TrimSpace. */
  function Trim(s: string): (t: string)
    ensures Trimmed(t)
  {
    TrimRight(TrimLeft(s))
  }

  predicate Trimmed(s: string) {
    s == [] || (!IsSpace(s[0]) && !IsSpace(s[|s| - 1]))
  }

  lemma {:induction false} TrimLeftLacks(s: string, c: char)
    requires Lacks(s, c)
    ensures Lacks(TrimLeft(s), c)
  {
    if s == [] || !IsSpace(s[0]) {
    } else {
      TrimLeftLacks(s[1..], c);
    }
  }

  lemma {:induction false} TrimRightLacks(s: string, c: char)
    requires Lacks(s, c)
    ensures Lacks(TrimRight(s), c)
  {
    if s == [] || !IsSpace(s[|s| - 1]) {
    } else {
      TrimRightLacks(s[..|s| - 1], c);
    }
  }

  lemma TrimLacks(s: string, c: char)
    requires Lacks(s, c)
    ensures Lacks(Trim(s), c)
  {
    TrimLeftLacks(s, c);
    TrimRightLacks(TrimLeft(s), c);
  }

  /** Tabs, line ends and Unicode spaces count, letters, digits and separators do not. */
  lemma SpacesAre(c: char)
    ensures Blank(" \t\n\r\U{000B}\U{000C}\U{0085}\U{00A0}")
    ensures Blank("\U{1680}\U{2000}\U{200A}\U{2028}\U{2029}\U{202F}\U{205F}\U{3000}")
    ensures '!' <= c <= '~' ==> !IsSpace(c)
  {}

  predicate Blank(s: string) { forall k :: 0 <= k < |s| ==> IsSpace(s[k]) }

  lemma {:induction false} TrimLeftDrops(s: string) returns (left: string)
    ensures s == left + TrimLeft(s) && Blank(left)
  {
    if s == [] || !IsSpace(s[0]) {
      left := [];
    } else {
      var rest := TrimLeftDrops(s[1..]);
      left := [s[0]] + rest;
      assert s == [s[0]] + s[1..];
    }
  }

  lemma {:induction false} TrimRightDrops(s: string) returns (right: string)
    ensures s == TrimRight(s) + right && Blank(right)
  {
    if s == [] || !IsSpace(s[|s| - 1]) {
      right := [];
    } else {
      var rest := TrimRightDrops(s[..|s| - 1]);
      right := rest + [s[|s| - 1]];
      assert s == s[..|s| - 1] + [s[|s| - 1]];
    }
  }

  /** Trimming takes off space at both ends and nothing else. */
  lemma TrimDrops(s: string) returns (left: string, right: string)
    ensures s == left + Trim(s) + right && Blank(left) && Blank(right)
  {
    left := TrimLeftDrops(s);
    right := TrimRightDrops(TrimLeft(s));
  }

  lemma TrimTrimmed(s: string)
    requires Trimmed(s)
    ensures Trim(s) == s
  {}

  lemma TrimPadded(s: string)
    ensures Trim([' '] + s) == Trim(s)
  {
    assert ([' '] + s)[1..] == s;
  }

  // ---------------------------------------------------------------------------
  // Searching, splitting and joining
  // ---------------------------------------------------------------------------

  predicate Lacks(s: string, c: char) {
    forall k :: 0 <= k < |s| ==> s[k] != c
  }

  /** strings.Index for a one-character separator. */
  function Index(s: string, c: char): (i: int)
    ensures -1 <= i < |s|
    ensures i < 0 ==> Lacks(s, c)
    ensures i >= 0 ==> s[i] == c && forall k :: 0 <= k < i ==> s[k] != c
  {
    if s == [] then -1
    else if s[0] == c then 0
    else
      var r := Index(s[1..], c);
      assert forall k :: 0 < k < |s| ==> s[k] == s[1..][k - 1];
      if r < 0 then -1 else r + 1
  }

  /** strings.LastIndex for a one-character separator. */
  function LastIndex(s: string, c: char): (i: int)
    ensures -1 <= i < |s|
    ensures i < 0 ==> Lacks(s, c)
    ensures i >= 0 ==> s[i] == c && forall k :: i < k < |s| ==> s[k] != c
  {
    if s == [] then -1
    else if s[|s| - 1] == c then |s| - 1
    else LastIndex(s[..|s| - 1], c)
  }

  /** strings.Split for a one-character separator. */
  function Split(s: string, c: char): (parts: seq<string>)
    ensures |parts| >= 1
    decreases |s|
  {
    var i := Index(s, c);
    if i < 0 then [s] else [s[..i]] + Split(s[i + 1..], c)
  }

  predicate AllLack(parts: seq<string>, c: char) {
    forall i :: 0 <= i < |parts| ==> Lacks(parts[i], c)
  }

  lemma {:induction false} SplitLacks(s: string, c: char)
    ensures AllLack(Split(s, c), c)
    decreases |s|
  {
    var i := Index(s, c);
    if i < 0 {
    } else {
      SplitLacks(s[i + 1..], c);
      assert Lacks(s[..i], c);
    }
  }

  function Join(parts: seq<string>, separator: string): string {
    if parts == [] then ""
    else if |parts| == 1 then parts[0]
    else parts[0] + separator + Join(parts[1..], separator)
  }

  function Padded(parts: seq<string>, pad: string): (r: seq<string>)
    ensures |r| == |parts| && forall i :: 0 <= i < |parts| ==> r[i] == pad + parts[i]
  {
    seq(|parts|, i requires 0 <= i < |parts| => pad + parts[i])
  }

  lemma {:induction false} IndexIs(s: string, c: char, p: nat)
    requires p < |s| && s[p] == c && forall k :: 0 <= k < p ==> s[k] != c
    ensures Index(s, c) == p
  {
    var i := Index(s, c);
    assert i < 0 ==> Lacks(s, c);
  }

  /** Joining undoes splitting, for every text. */
  lemma {:induction false} JoinSplit(s: string, c: char)
    ensures Join(Split(s, c), [c]) == s
    decreases |s|
  {
    var i := Index(s, c);
    if i < 0 {
    } else {
      JoinSplit(s[i + 1..], c);
      JoinCons(s[..i], Split(s[i + 1..], c), [c]);
      assert s == s[..i] + [c] + s[i + 1..];
    }
  }

  lemma JoinTwo(a: string, b: string, separator: string)
    ensures Join([a, b], separator) == a + separator + b
  {
    assert [a, b][1..] == [b];
  }

  lemma JoinThree(a: string, b: string, c: string, separator: string)
    ensures Join([a, b, c], separator) == a + separator + (b + separator + c)
  {
    assert [a, b, c][1..] == [b, c];
    JoinTwo(b, c, separator);
  }

  lemma JoinCons(head: string, parts: seq<string>, separator: string)
    requires parts != []
    ensures Join([head] + parts, separator) == head + separator + Join(parts, separator)
  {
    assert ([head] + parts)[1..] == parts;
  }

  lemma IndexUnique(a: string, c: char, b: string)
    requires Lacks(a, c)
    ensures Index(a + [c] + b, c) == |a|
  {
    var s := a + [c] + b;
    assert forall k :: 0 <= k < |a| ==> s[k] == a[k];
    IndexIs(s, c, |a|);
  }

  lemma {:induction false} LastIndexUnique(a: string, c: char, b: string)
    requires Lacks(b, c)
    ensures LastIndex(a + [c] + b, c) == |a|
  {
    var s := a + [c] + b;
    if b == [] {
    } else {
      var init := b[..|b| - 1];
      assert s[..|s| - 1] == a + [c] + init && s[|s| - 1] == b[|b| - 1];
      LastIndexUnique(a, c, init);
    }
  }

  lemma SplitFirst(a: string, c: char, b: string)
    requires Lacks(a, c)
    ensures Split(a + [c] + b, c) == [a] + Split(b, c)
  {
    IndexUnique(a, c, b);
    var s := a + [c] + b;
    assert s[..|a|] == a && s[|a| + 1..] == b;
  }

  /** Splitting undoes joining: only the padding after each separator remains. */
  lemma {:induction false} SplitJoin(prefix: string, parts: seq<string>, c: char, pad: string)
    requires parts != [] && Lacks(prefix, c) && Lacks(pad, c) && AllLack(parts, c)
    ensures Split(prefix + Join(parts, [c] + pad), c) == [prefix + parts[0]] + Padded(parts[1..], pad)
    decreases |parts|
  {
    var head := prefix + parts[0];
    assert Lacks(head, c);
    if |parts| == 1 {
      assert prefix + Join(parts, [c] + pad) == head;
      assert Split(head, c) == [head];
    } else {
      var tail := parts[1..];
      var rest := Join(tail, [c] + pad);
      assert prefix + Join(parts, [c] + pad) == head + [c] + (pad + rest);
      assert AllLack(tail, c);
      SplitJoin(pad, tail, c, pad);
      assert Split(pad + rest, c) == Padded(tail, pad) by {
        assert [pad + tail[0]] + Padded(tail[1..], pad) == Padded(tail, pad);
      }
      SplitFirst(head, c, pad + rest);
    }
  }

  lemma SplitJoinExact(parts: seq<string>, c: char)
    requires parts != [] && AllLack(parts, c)
    ensures Split(Join(parts, [c]), c) == parts
  {
    SplitJoin([], parts, c, []);
    assert [c] + [] == [c];
    var joined := Join(parts, [c]);
    assert [] + joined == joined;
    assert [] + parts[0] == parts[0];
    var tail := parts[1..];
    assert forall i :: 0 <= i < |tail| ==> [] + tail[i] == tail[i];
    assert Padded(tail, []) == tail;
  }

  // ---------------------------------------------------------------------------
  // Decimal numbers
  // ---------------------------------------------------------------------------

  predicate IsDigit(c: char) { '0' <= c <= '9' }

  predicate AllDigits(s: string) { forall i :: 0 <= i < |s| ==> IsDigit(s[i]) }

  /** strconv.Itoa of a natural number. */
  function Itoa(n: nat): (s: string)
    ensures s != [] && AllDigits(s)
  {
    if n < 10 then [(n as char) + '0'] else Itoa(n / 10) + [((n % 10) as char) + '0']
  }

  function DigitsValue(s: string): nat
    requires AllDigits(s)
  {
    if s == [] then 0 else 10 * DigitsValue(s[..|s| - 1]) + (s[|s| - 1] as int - '0' as int)
  }

  const INT64_LIMIT: int := 0x8000_0000_0000_0000

  /** strconv.Atoi: an optional sign, then digits, within the 64-bit range. */
  function Atoi(s: string): Option<int> {
    var negative := s != [] && s[0] == '-';
    var digits := if s != [] && (s[0] == '-' || s[0] == '+') then s[1..] else s;
    if digits == [] || !AllDigits(digits) then None
    else
      var v: int := if negative then -(DigitsValue(digits) as int) else DigitsValue(digits);
      if -INT64_LIMIT <= v < INT64_LIMIT then Some(v) else None
  }

  lemma {:induction false} DigitsOfItoa(n: nat)
    ensures DigitsValue(Itoa(n)) == n
  {
    var s := Itoa(n);
    if n < 10 {
      assert s[..0] == [];
    } else {
      DigitsOfItoa(n / 10);
      assert s[..|s| - 1] == Itoa(n / 10);
    }
  }

  /** Decimal without leading zeros. */
  lemma {:induction false} ItoaCanonical(n: nat)
    ensures n > 0 ==> Itoa(n)[0] != '0'
    ensures Itoa(0) == "0"
  {
    if n < 10 {
    } else {
      ItoaCanonical(n / 10);
    }
  }

  lemma AtoiItoa(n: nat)
    requires n < INT64_LIMIT
    ensures Atoi(Itoa(n)) == Some(n)
  {
    DigitsOfItoa(n);
    assert IsDigit(Itoa(n)[0]);
  }

  /** A sign is understood, and what does not fit 64 bits or is not a number is refused. */
  lemma AtoiSigned(n: nat)
    ensures var negative: int := 0 - n as int;
      Atoi("-" + Itoa(n)) == if n <= INT64_LIMIT then Some(negative) else None
    ensures Atoi("+" + Itoa(n)) == if n < INT64_LIMIT then Some(n) else None
    ensures n >= INT64_LIMIT ==> Atoi(Itoa(n)) == None
    ensures Atoi("") == None
  {
    DigitsOfItoa(n);
    assert IsDigit(Itoa(n)[0]);
    assert ("-" + Itoa(n))[1..] == Itoa(n) && ("+" + Itoa(n))[1..] == Itoa(n);
  }

  lemma DigitsAreNotSpace(s: string)
    requires AllDigits(s)
    ensures Trimmed(s)
  {
    if s != [] { assert IsDigit(s[0]) && IsDigit(s[|s| - 1]); }
  }

  // ---------------------------------------------------------------------------
  // Parsing a list of pieces, dropping those that do not parse
  // ---------------------------------------------------------------------------

  function Keep<T>(parse: string -> Option<T>, pieces: seq<string>): seq<T> {
    if pieces == [] then []
    else
      var n := |pieces| - 1;
      var x := parse(pieces[n]);
      Keep(parse, pieces[..n]) + (if x.Some? then [x.value] else [])
  }

  lemma {:induction false} KeepExactly<T>(parse: string -> Option<T>, pieces: seq<string>, xs: seq<T>)
    requires |pieces| == |xs|
    requires forall i :: 0 <= i < |pieces| ==> parse(pieces[i]) == Some(xs[i])
    ensures Keep(parse, pieces) == xs
  {
    if pieces == [] {
    } else {
      var n := |pieces| - 1;
      KeepExactly(parse, pieces[..n], xs[..n]);
      assert xs == xs[..n] + [xs[n]];
    }
  }

  lemma {:induction false} KeepNothing<T>(parse: string -> Option<T>, pieces: seq<string>)
    requires forall i :: 0 <= i < |pieces| ==> parse(pieces[i]) == None
    ensures Keep(parse, pieces) == []
  {
    if pieces == [] {
    } else {
      KeepNothing(parse, pieces[..|pieces| - 1]);
    }
  }

  lemma {:induction false} KeepAppend<T>(parse: string -> Option<T>, a: seq<string>, b: seq<string>)
    ensures Keep(parse, a + b) == Keep(parse, a) + Keep(parse, b)
  {
    if b == [] {
      assert a + b == a;
    } else {
      KeepAppend(parse, a, b[..|b| - 1]);
      assert (a + b)[..|a + b| - 1] == a + b[..|b| - 1];
    }
  }

  /** What holds of every piece that parses holds of everything kept. */
  lemma {:induction false} KeepGood<T>(parse: string -> Option<T>, pieces: seq<string>, good: T -> bool)
    requires forall i :: 0 <= i < |pieces| && parse(pieces[i]).Some? ==> good(parse(pieces[i]).value)
    ensures forall k :: 0 <= k < |Keep(parse, pieces)| ==> good(Keep(parse, pieces)[k])
  {
    if pieces == [] {
    } else {
      KeepGood(parse, pieces[..|pieces| - 1], good);
    }
  }

  lemma {:induction false} JoinTrimmed(parts: seq<string>, separator: string)
    requires parts != [] && forall i :: 0 <= i < |parts| ==> Trimmed(parts[i]) && parts[i] != ""
    ensures Join(parts, separator) != "" && Trimmed(Join(parts, separator))
    ensures Join(parts, separator)[0] == parts[0][0]
  {
    if |parts| <= 1 {
    } else {
      JoinTrimmed(parts[1..], separator);
      var rest := Join(parts[1..], separator);
      var all := Join(parts, separator);
      assert all[|all| - 1] == rest[|rest| - 1];
    }
  }

  lemma DigitsLack(s: string, c: char)
    requires AllDigits(s) && !IsDigit(c)
    ensures Lacks(s, c)
  {}

  /** Joining pieces that parse, splitting and parsing again gives back what they stand for. */
  lemma {:induction false} KeepJoined<T>(parse: string -> Option<T>, parts: seq<string>, xs: seq<T>,
                                         c: char, pad: string)
    requires parts != [] && AllLack(parts, c) && Lacks(pad, c) && |parts| == |xs|
    requires forall i :: 0 <= i < |parts| ==> parse(parts[i]) == Some(xs[i]) && parse(pad + parts[i]) == Some(xs[i])
    ensures Keep(parse, Split(Join(parts, [c] + pad), c)) == xs
  {
    var pieces := [parts[0]] + Padded(parts[1..], pad);
    assert Split(Join(parts, [c] + pad), c) == pieces by {
      SplitJoin([], parts, c, pad);
      assert [] + Join(parts, [c] + pad) == Join(parts, [c] + pad);
      assert [] + parts[0] == parts[0];
    }
    forall i | 0 <= i < |pieces| ensures parse(pieces[i]) == Some(xs[i]) {
      assert i > 0 ==> pieces[i] == pad + parts[i];
    }
    KeepExactly(parse, pieces, xs);
  }

  lemma TrimTrailing(s: string)
    requires s != "" && Trimmed(s)
    ensures Trim(s + [' ']) == s
  {
    var padded := s + [' '];
    assert padded[..|s|] == s && IsSpace(padded[|s|]) && !IsSpace(padded[0]);
    assert TrimRight(s) == s;
  }

  /** Concatenation is trimmed when its outer ends are. */
  lemma TrimmedConcat(a: string, b: string)
    requires a != "" && !IsSpace(a[0]) && b != "" && !IsSpace(b[|b| - 1])
    ensures Trimmed(a + b) && a + b != ""
  {}

  lemma LacksConcat(a: string, b: string, c: char)
    requires Lacks(a, c) && Lacks(b, c)
    ensures Lacks(a + b, c)
  {}

  /** "name<sep>value" split at the first separator and trimmed; without one, all is name. */
  function NameValue(s: string, separator: char): (string, string) {
    var i := Index(s, separator);
    if i >= 0 then (Trim(s[..i]), Trim(s[i + 1..])) else (Trim(s), "")
  }

  lemma NameValueOf(name: string, separator: char, rest: string)
    requires Lacks(name, separator) && Trimmed(name)
    ensures NameValue(name + [separator] + rest, separator) == (name, Trim(rest))
  {
    var s := name + [separator] + rest;
    IndexUnique(name, separator, rest);
    assert s[..|name|] == name && s[|name| + 1..] == rest;
    TrimTrimmed(name);
  }

  lemma NameAlone(name: string, separator: char)
    requires Lacks(name, separator) && Trimmed(name)
    ensures NameValue(name, separator) == (name, "")
  {
    TrimTrimmed(name);
  }

  lemma NameValueGood(s: string, separator: char, c: char)
    requires Lacks(s, c)
    ensures var (name, value) := NameValue(s, separator);
      Trimmed(name) && Trimmed(value) && Lacks(name, separator) && Lacks(name, c) && Lacks(value, c)
  {
    var i := Index(s, separator);
    if i >= 0 {
      TrimLacks(s[..i], c);
      TrimLacks(s[..i], separator);
      TrimLacks(s[i + 1..], c);
    } else {
      TrimLacks(s, c);
      TrimLacks(s, separator);
    }
  }
}
